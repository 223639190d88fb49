/** The places outside of orders where amounts of an asset are kept, and the primitives
    that move amounts in and out of them. */
module Ledgers {
  import opened Sums

  type Account = nat
  type Asset = nat

  const CORE: Asset := 0
  const COMMITTEE_ACCOUNT: Account := 0
  const TEMP_ACCOUNT: Account := 4

  /** One amount field of one object of the source. */
  datatype Slot =
    | Balance(owner: Account, asset: Asset)
    | MarketFeeVesting(owner: Account, asset: Asset)
    | AccumulatedFees(asset: Asset)
    | CollateralFees(asset: Asset, collateral: Asset)
    | FeePool(asset: Asset)
    | PendingFees(owner: Account)

  /** The asset the amount in a slot is denominated in. */
  function Denomination(slot: Slot): Asset {
    match slot
    case Balance(_, a) => a
    case MarketFeeVesting(_, a) => a
    case AccumulatedFees(a) => a
    case CollateralFees(_, a) => a
    case FeePool(_) => CORE
    case PendingFees(_) => CORE
  }

  type Funds = map<Slot, nat>

  function AmountIn(funds: Funds, slot: Slot): nat {
    if slot in funds then funds[slot] else 0
  }

  /** All of one asset that is kept in slots. */
  ghost function Held(funds: Funds, asset: Asset): int {
    Sum(funds, (slot: Slot, amount: nat) => if Denomination(slot) == asset then amount else 0)
  }

  lemma HeldBound(funds: Funds, slot: Slot)
    ensures AmountIn(funds, slot) <= Held(funds, Denomination(slot))
  {
    SumNonNegative(funds, (s: Slot, amount: nat) => if Denomination(s) == Denomination(slot) then amount else 0);
  }

  /** An amount credited to a slot, or debited from it when negative. */
  datatype Posting = Posting(slot: Slot, amount: int)

  ghost function Posted(journal: seq<Posting>, asset: Asset): int {
    if journal == [] then
      0
    else
      var last := journal[|journal| - 1];
      Posted(journal[..|journal| - 1], asset) + (if Denomination(last.slot) == asset then last.amount else 0)
  }

  ghost function PostedTo(journal: seq<Posting>, slot: Slot): int {
    if journal == [] then
      0
    else
      var last := journal[|journal| - 1];
      PostedTo(journal[..|journal| - 1], slot) + (if last.slot == slot then last.amount else 0)
  }

  lemma {:induction false} PostedConcat(a: seq<Posting>, b: seq<Posting>, asset: Asset)
    ensures Posted(a + b, asset) == Posted(a, asset) + Posted(b, asset)
    decreases |b|
  {
    if b == [] {
      assert a + b == a;
    } else {
      PostedConcat(a, b[..|b| - 1], asset);
      assert (a + b)[..|a + b| - 1] == a + b[..|b| - 1];
    }
  }

  lemma {:induction false} PostedToConcat(a: seq<Posting>, b: seq<Posting>, slot: Slot)
    ensures PostedTo(a + b, slot) == PostedTo(a, slot) + PostedTo(b, slot)
    decreases |b|
  {
    if b == [] {
      assert a + b == a;
    } else {
      PostedToConcat(a, b[..|b| - 1], slot);
      assert (a + b)[..|a + b| - 1] == a + b[..|b| - 1];
    }
  }

  ghost function Share(p: Posting, asset: Asset): int {
    if Denomination(p.slot) == asset then p.amount else 0
  }

  lemma PostedCons(p: Posting, rest: seq<Posting>, asset: Asset)
    ensures Posted([p] + rest, asset) == Share(p, asset) + Posted(rest, asset)
  {
    PostedConcat([p], rest, asset);
    assert [p][..0] == [];
  }

  lemma PostedTwo(p: Posting, q: Posting, asset: Asset)
    ensures Posted([p, q], asset) == Share(p, asset) + Share(q, asset)
  {
    assert [p, q] == [p] + ([q] + []);
    PostedCons(p, [q] + [], asset);
    PostedCons(q, [], asset);
  }

  lemma PostedFour(p: Posting, q: Posting, r: Posting, s: Posting, asset: Asset)
    ensures Posted([p, q, r, s], asset) == Share(p, asset) + Share(q, asset) + Share(r, asset) + Share(s, asset)
  {
    assert [p, q, r, s] == [p, q] + [r, s];
    PostedConcat([p, q], [r, s], asset);
    PostedTwo(p, q, asset);
    PostedTwo(r, s, asset);
  }

  /** What one posting changes of a slot. */
  ghost function Into(p: Posting, slot: Slot): int {
    if p.slot == slot then p.amount else 0
  }

  lemma PostedToOne(p: Posting, slot: Slot)
    ensures PostedTo([p], slot) == Into(p, slot)
  {
    assert [p][..0] == [];
  }

  lemma PostedToThree(p: Posting, q: Posting, r: Posting, slot: Slot)
    ensures PostedTo([p, q], slot) == Into(p, slot) + Into(q, slot)
    ensures PostedTo([p, q, r], slot) == Into(p, slot) + Into(q, slot) + Into(r, slot)
  {
    assert [p][..0] == [] && [p, q][..1] == [p] && [p, q, r][..2] == [p, q];
    assert PostedTo([p], slot) == Into(p, slot);
    assert PostedTo([p, q], slot) == Into(p, slot) + Into(q, slot);
  }

  lemma PostedToFour(p: Posting, q: Posting, r: Posting, s: Posting, slot: Slot)
    ensures PostedTo([p, q, r, s], slot) == Into(p, slot) + Into(q, slot) + Into(r, slot) + Into(s, slot)
  {
    PostedToThree(p, q, r, slot);
    assert [p, q, r, s][..3] == [p, q, r];
  }

  function CalculatePercent(value: nat, percent: nat): (r: nat)
    ensures percent <= 10000 ==> r <= value
  {
    assert value * percent >= 0;
    assert percent <= 10000 ==> value * percent <= value * 10000;
    value * percent / 10000
  }

  class Ledger {
    var funds: Funds
    /** account_statistics_object::total_core_in_orders */
    var coreInOrders: map<Account, int>
    ghost var journal: seq<Posting>

    /** The funds are exactly what has been posted. */
    ghost predicate Valid()
      reads this`funds, this`journal
    {
      && (forall slot :: AmountIn(funds, slot) == PostedTo(journal, slot))
      && (forall asset :: Held(funds, asset) == Posted(journal, asset))
    }

    function CoreInOrders(owner: Account): int
      reads this`coreInOrders
    {
      if owner in coreInOrders then coreInOrders[owner] else 0
    }

    constructor ()
      ensures Valid() && funds == map[] && coreInOrders == map[] && journal == []
    {
      funds := map[];
      coreInOrders := map[];
      journal := [];
    }

    /** `adjust_balance` and the other changes of one amount field; refused, with nothing
        changed, when the slot holds less than is taken out. */
    method Adjust(slot: Slot, delta: int) returns (ok: bool)
      requires Valid()
      modifies this`funds, this`journal
      ensures Valid()
      ensures ok <==> AmountIn(old(funds), slot) + delta >= 0
      ensures ok ==> journal == old(journal) + [Posting(slot, delta)]
      ensures ok ==> forall s :: AmountIn(funds, s) == AmountIn(old(funds), s) + if s == slot then delta else 0
      ensures ok ==> forall a :: Held(funds, a) == old(Held(funds, a)) + if Denomination(slot) == a then delta else 0
      ensures !ok ==> journal == old(journal) && funds == old(funds)
    {
      if AmountIn(funds, slot) + delta < 0 {
        return false;
      }
      ok := true;
      ghost var before := journal;
      var was := funds;
      if delta != 0 {
        var now: nat := AmountIn(funds, slot) + delta;
        funds := funds[slot := now];
        forall asset
          ensures Held(funds, asset) == Held(was, asset) + (if Denomination(slot) == asset then delta else 0)
        {
          var f := (s: Slot, amount: nat) => if Denomination(s) == asset then amount else 0;
          SumPut(was, f, slot, now);
          assert Held(was, asset) == Sum(was, f) && Held(funds, asset) == Sum(funds, f);
        }
      }
      journal := journal + [Posting(slot, delta)];
      assert journal[..|journal| - 1] == before;
    }

    /** A credit never fails. */
    method Credit(slot: Slot, amount: nat)
      requires Valid()
      modifies this`funds, this`journal
      ensures Valid()
      ensures journal == old(journal) + [Posting(slot, amount)]
      ensures forall a :: Held(funds, a) == old(Held(funds, a)) + if Denomination(slot) == a then amount else 0
    {
      var ok := Adjust(slot, amount);
    }

    method AdjustCoreInOrders(owner: Account, delta: int)
      modifies this`coreInOrders
      ensures forall a :: CoreInOrders(a) == old(CoreInOrders(a)) + if a == owner then delta else 0
    {
      coreInOrders := coreInOrders[owner := CoreInOrders(owner) + delta];
    }
  }
}
