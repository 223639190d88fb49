/** One market of the exchange: its two sides of limit orders, and the methods that fill,
    cancel, create and match them. */
module LimitMarkets {
  import opened Options
  import opened Rounding
  import opened Prices
  import opened Sums
  import opened Ledgers
  import opened LimitMatching

  type Percent = n: nat | n <= 10000

  /** The market fee settings of one asset. */
  datatype FeeOptions = FeeOptions(
    charges: bool,
    makerPercent: Percent,
    takerPercent: Option<Percent>,
    maxMarketFee: nat,
    rewardPercent: Option<Percent>)

  /** Who shares the market fees an account pays in one asset. */
  datatype Referral = Referral(
    registrar: Account,
    referrer: Account,
    referrerPercent: Percent,
    rewardsAllowed: bool,
    registrarAuthorized: bool,
    referrerAuthorized: bool)

  datatype FeeSplit = FeeSplit(network: nat, referrer: nat, registrar: nat, issuer: nat)

  /** What one order keeps of an asset: its funds for sale and its deferred fees. */
  function KeptBy(o: Order, sells: Asset, asset: Asset): nat {
    (if sells == asset then o.forSale else 0) + DeferredIn(o, asset)
  }

  function DeferredIn(o: Order, asset: Asset): nat {
    (if CORE == asset then o.deferredFee else 0) + (if o.deferredPaidAsset == asset then o.deferredPaidFee else 0)
  }

  /** All that the orders of one side keep of an asset. */
  ghost function Kept(orders: seq<Order>, sells: Asset, asset: Asset): int {
    SumSeq(orders, (o: Order) => KeptBy(o, sells, asset))
  }

  /** The CORE one account has for sale on one side. */
  ghost function CoreOf(orders: seq<Order>, sells: Asset, owner: Account): int {
    SumSeq(orders, (o: Order) => CoreIn(o, sells, owner))
  }

  function CoreIn(o: Order, sells: Asset, owner: Account): nat {
    if sells == CORE && o.seller == owner then o.forSale else 0
  }

  lemma KeptReplace(orders: seq<Order>, i: nat, o: Order, sells: Asset)
    requires i < |orders|
    ensures forall a ::
      Kept(orders[i := o], sells, a) == Kept(orders, sells, a) - KeptBy(orders[i], sells, a) + KeptBy(o, sells, a)
    ensures forall a :: Kept(Without(orders, i), sells, a) == Kept(orders, sells, a) - KeptBy(orders[i], sells, a)
    ensures forall who ::
      CoreOf(orders[i := o], sells, who)
        == CoreOf(orders, sells, who) - CoreIn(orders[i], sells, who) + CoreIn(o, sells, who)
    ensures forall who ::
      CoreOf(Without(orders, i), sells, who) == CoreOf(orders, sells, who) - CoreIn(orders[i], sells, who)
  {
    forall a
      ensures Kept(orders[i := o], sells, a)
                == Kept(orders, sells, a) - KeptBy(orders[i], sells, a) + KeptBy(o, sells, a)
      ensures Kept(Without(orders, i), sells, a) == Kept(orders, sells, a) - KeptBy(orders[i], sells, a)
    {
      SumSeqReplace(orders, i, o, (x: Order) => KeptBy(x, sells, a));
    }
    forall who
      ensures CoreOf(orders[i := o], sells, who)
                == CoreOf(orders, sells, who) - CoreIn(orders[i], sells, who) + CoreIn(o, sells, who)
      ensures CoreOf(Without(orders, i), sells, who) == CoreOf(orders, sells, who) - CoreIn(orders[i], sells, who)
    {
      SumSeqReplace(orders, i, o, (x: Order) => CoreIn(x, sells, who));
    }
  }

  lemma KeptNonNegative(orders: seq<Order>, sells: Asset, asset: Asset)
    ensures Kept(orders, sells, asset) >= 0
  {
    SumSeqNonNegative(orders, (o: Order) => KeptBy(o, sells, asset));
  }

  lemma KeptInsert(orders: seq<Order>, i: nat, o: Order, sells: Asset)
    requires i <= |orders|
    ensures forall a :: Kept(orders[..i] + [o] + orders[i..], sells, a) == Kept(orders, sells, a) + KeptBy(o, sells, a)
    ensures forall who ::
      CoreOf(orders[..i] + [o] + orders[i..], sells, who) == CoreOf(orders, sells, who) + CoreIn(o, sells, who)
  {
    forall a {
      SumSeqInsert(orders, i, o, (x: Order) => KeptBy(x, sells, a));
    }
    forall who {
      SumSeqInsert(orders, i, o, (x: Order) => CoreIn(x, sells, who));
    }
  }

  lemma ConcatAssociates<T>(a: seq<T>, b: seq<T>, c: seq<T>)
    ensures a + b + c == a + (b + c)
  {
  }

  lemma InFront<T>(s: seq<T>, x: T)
    ensures s[..0] + [x] + s[0..] == [x] + s && ([x] + s)[1..] == s
    ensures forall y :: ([x] + s)[0 := y] == [y] + s
  {
  }

  function Redirect(account: Account): Account {
    if account == TEMP_ACCOUNT then COMMITTEE_ACCOUNT else account
  }

  /** A share of a whole in hundredths of a percent, rounded down. */
  ghost predicate IsShare(part: nat, whole: nat, percent: nat) {
    part * 10000 <= whole * percent < part * 10000 + 10000
  }

  /** A fee in hundredths of a percent, up to a limit. */
  ghost predicate IsFee(fee: nat, amount: nat, percent: nat, limit: nat) {
    if amount * percent >= (limit + 1) * 10000 then fee == limit else IsShare(fee, amount, percent)
  }

  datatype MatchResult = NoneFilled | OnlyTakerFilled | OnlyMakerFilled | BothFilled

  class LimitMarket {
    const ledger: Ledger
    /** The asset sold on each of the two sides. */
    const assets: seq<Asset>
    const feeOptions: Asset -> FeeOptions
    const referral: (Account, Asset) -> Referral
    const networkPercent: Percent
    const makerDiscountPercent: Percent
    /** The fee a cancellation is charged, in CORE. */
    const cancelFee: nat

    var book: seq<seq<Order>>

    constructor (ledger: Ledger, sold: Asset, bought: Asset, feeOptions: Asset -> FeeOptions,
                 referral: (Account, Asset) -> Referral, networkPercent: Percent,
                 makerDiscountPercent: Percent, cancelFee: nat)
      requires ledger.Valid() && sold != bought
      ensures AtRest()
      ensures this.ledger == ledger && assets == [sold, bought] && book == [[], []]
    {
      this.ledger := ledger;
      this.assets := [sold, bought];
      this.feeOptions := feeOptions;
      this.referral := referral;
      this.networkPercent := networkPercent;
      this.makerDiscountPercent := makerDiscountPercent;
      this.cancelFee := cancelFee;
      this.book := [[], []];
    }

    predicate Shape()
      reads this`book
    {
      |assets| == 2 && assets[0] != assets[1] && |book| == 2
    }

    /** Enough for filling and cancelling, and true throughout a matching run. */
    ghost predicate BookIsSorted()
      reads this`book
    {
      && Shape()
      && (forall side, i :: 0 <= side < 2 && 0 <= i < |book[side]| ==> Live(book[side][i]))
      && Sorted(book[0])
      && Sorted(book[1])
    }

    /** The book at rest: uncrossed and free of dust. */
    ghost predicate BookAtRest()
      reads this`book
    {
      && BookIsSorted()
      && AllSound(book[0])
      && AllSound(book[1])
      && Uncrossed(book[0], book[1])
    }

    ghost predicate Valid()
      reads this`book, ledger`funds, ledger`journal
    {
      ledger.Valid() && BookIsSorted()
    }

    ghost predicate AtRest()
      reads this`book, ledger`funds, ledger`journal
    {
      ledger.Valid() && BookAtRest()
    }

    /** Everything of one asset: in the ledger and in the orders. */
    ghost function Wealth(asset: Asset): int
      requires Shape()
      reads this`book, ledger`funds
    {
      Held(ledger.funds, asset) + Kept(book[0], assets[0], asset) + Kept(book[1], assets[1], asset)
    }

    /** The CORE an account has for sale in this market. */
    ghost function CoreForSale(owner: Account): int
      requires Shape()
      reads this`book
    {
      CoreOf(book[0], assets[0], owner) + CoreOf(book[1], assets[1], owner)
    }

    // ----- changes of the ledger alone -----

    /** One change of the ledger, seen in terms of the whole market. */
    method Post(slot: Slot, delta: int) returns (ok: bool)
      requires Valid()
      modifies ledger`funds, ledger`journal
      ensures Valid() && AtRest() == old(AtRest())
      ensures ok <==> AmountIn(old(ledger.funds), slot) + delta >= 0
      ensures ok ==> ledger.journal == old(ledger.journal) + [Posting(slot, delta)]
      ensures ok ==>
        forall s :: AmountIn(ledger.funds, s) == AmountIn(old(ledger.funds), s) + if s == slot then delta else 0
      ensures ok ==> forall a :: Wealth(a) == old(Wealth(a)) + if Denomination(slot) == a then delta else 0
      ensures !ok ==> ledger.journal == old(ledger.journal) && ledger.funds == old(ledger.funds)
    {
      ok := ledger.Adjust(slot, delta);
    }

    method Give(slot: Slot, amount: nat)
      requires Valid()
      modifies ledger`funds, ledger`journal
      ensures Valid() && AtRest() == old(AtRest())
      ensures ledger.journal == old(ledger.journal) + [Posting(slot, amount)]
      ensures forall a :: Wealth(a) == old(Wealth(a)) + if Denomination(slot) == a then amount else 0
    {
      ledger.Credit(slot, amount);
    }

    // ----- market fees -----

    /** `calculate_market_fee`. */
    function MarketFee(asset: Asset, amount: nat, isMaker: bool): (fee: nat)
      ensures fee <= amount
    {
      var options := feeOptions(asset);
      if !options.charges then
        0
      else if isMaker && options.makerPercent == 0 then
        0
      else if !isMaker && options.takerPercent == Some(0) then
        0
      else
        var percent :=
          if !isMaker && options.takerPercent.Some? then options.takerPercent.value else options.makerPercent;
        var value := CalculatePercent(amount, percent);
        if value > options.maxMarketFee then options.maxMarketFee else value
    }

    /** Makers pay the maker's percentage, takers their own, or the maker's when there is none; and
        never more than the limit. */
    lemma MarketFeeIs(asset: Asset, amount: nat, isMaker: bool)
      ensures var o, fee := feeOptions(asset), MarketFee(asset, amount, isMaker);
              && (!o.charges ==> fee == 0)
              && (o.charges && isMaker ==> IsFee(fee, amount, o.makerPercent, o.maxMarketFee))
              && (o.charges && !isMaker && o.takerPercent.Some? ==>
                    IsFee(fee, amount, o.takerPercent.value, o.maxMarketFee))
              && (o.charges && !isMaker && o.takerPercent.None? ==>
                    IsFee(fee, amount, o.makerPercent, o.maxMarketFee))
    {
    }

    /** The network takes its share of a fee; of the rest registrar and referrer together get the
        reward, if there is one, of which the referrer gets its own share; and the issuer keeps what
        is left. */
    lemma SplitIs(seller: Account, asset: Asset, fee: nat)
      ensures var s, who, o := Split(seller, asset, fee), referral(seller, asset), feeOptions(asset);
              && IsShare(s.network, fee, networkPercent)
              && s.network <= fee
              && (if who.rewardsAllowed && o.rewardPercent.Some? && who.registrarAuthorized then
                    IsShare(s.referrer + s.registrar, fee - s.network, o.rewardPercent.value)
                  else
                    s.referrer + s.registrar == 0)
              && (if (if who.referrer == TEMP_ACCOUNT then COMMITTEE_ACCOUNT else who.referrer)
                     != (if who.registrar == TEMP_ACCOUNT then COMMITTEE_ACCOUNT else who.registrar)
                     && who.referrerAuthorized then
                    IsShare(s.referrer, s.referrer + s.registrar, who.referrerPercent)
                  else
                    s.referrer == 0)
    {
    }

    /** Where the shares go. */
    lemma FeesGoTo(seller: Account, asset: Asset, fee: nat, slot: Slot)
      ensures var s, who := Split(seller, asset, fee), referral(seller, asset);
              var referrer := if who.referrer == TEMP_ACCOUNT then COMMITTEE_ACCOUNT else who.referrer;
              var registrar := if who.registrar == TEMP_ACCOUNT then COMMITTEE_ACCOUNT else who.registrar;
              PostedTo(FeePostings(seller, asset, fee), slot)
              == (if slot == MarketFeeVesting(COMMITTEE_ACCOUNT, asset) then s.network else 0)
                 + (if slot == MarketFeeVesting(referrer, asset) then s.referrer else 0)
                 + (if slot == MarketFeeVesting(registrar, asset) then s.registrar else 0)
                 + (if slot == AccumulatedFees(asset) then s.issuer else 0)
    {
      var p := FeePostings(seller, asset, fee);
      PostedToFour(p[0], p[1], p[2], p[3], slot);
    }

    /** How `pay_market_fees` splits a fee; nothing of it is lost. */
    function Split(seller: Account, asset: Asset, fee: nat): (split: FeeSplit)
      ensures split.network + split.referrer + split.registrar + split.issuer == fee
    {
      var network := CalculatePercent(fee, networkPercent);
      var rest := fee - network;
      var who := referral(seller, asset);
      var options := feeOptions(asset);
      var reward := if who.rewardsAllowed && options.rewardPercent.Some? && who.registrarAuthorized
                    then CalculatePercent(rest, options.rewardPercent.value) else 0;
      var referrer := if Redirect(who.referrer) != Redirect(who.registrar) && who.referrerAuthorized
                      then CalculatePercent(reward, who.referrerPercent) else 0;
      FeeSplit(network, referrer, reward - referrer, rest - reward)
    }

    function FeePostings(seller: Account, asset: Asset, fee: nat): seq<Posting> {
      var split := Split(seller, asset, fee);
      var who := referral(seller, asset);
      [ Posting(MarketFeeVesting(COMMITTEE_ACCOUNT, asset), split.network),
        Posting(MarketFeeVesting(Redirect(who.referrer), asset), split.referrer),
        Posting(MarketFeeVesting(Redirect(who.registrar), asset), split.registrar),
        Posting(AccumulatedFees(asset), split.issuer) ]
    }

    lemma FeePostingsTotal(seller: Account, asset: Asset, fee: nat, a: Asset)
      ensures Posted(FeePostings(seller, asset, fee), a) == if a == asset then fee else 0
    {
      var p := FeePostings(seller, asset, fee);
      PostedFour(p[0], p[1], p[2], p[3], a);
    }

    /** `pay_market_fees`. */
    method PayMarketFees(seller: Account, asset: Asset, receives: nat, isMaker: bool) returns (fee: nat)
      requires ledger.Valid()
      modifies ledger`funds, ledger`journal
      ensures ledger.Valid()
      ensures fee == MarketFee(asset, receives, isMaker)
      ensures ledger.journal == old(ledger.journal) + FeePostings(seller, asset, fee)
    {
      fee := MarketFee(asset, receives, isMaker);
      var issuerFees := fee;
      var networkFees := CalculatePercent(issuerFees, networkPercent);
      ledger.Credit(MarketFeeVesting(COMMITTEE_ACCOUNT, asset), networkFees);
      issuerFees := issuerFees - networkFees;

      var reward, referrerReward := 0, 0;
      var who := referral(seller, asset);
      var rewardPercent := feeOptions(asset).rewardPercent;
      if who.rewardsAllowed && rewardPercent.Some? && who.registrarAuthorized {
        reward := CalculatePercent(issuerFees, rewardPercent.value);
        if Redirect(who.referrer) != Redirect(who.registrar) && who.referrerAuthorized {
          referrerReward := CalculatePercent(reward, who.referrerPercent);
        }
      }
      ledger.Credit(MarketFeeVesting(Redirect(who.referrer), asset), referrerReward);
      ledger.Credit(MarketFeeVesting(Redirect(who.registrar), asset), reward - referrerReward);
      ledger.Credit(AccumulatedFees(asset), issuerFees - reward);
    }

    /** `pay_market_fees`, seen in terms of the whole market. */
    method TakeMarketFees(seller: Account, asset: Asset, receives: nat, isMaker: bool) returns (fee: nat)
      requires Valid()
      modifies ledger`funds, ledger`journal
      ensures Valid() && AtRest() == old(AtRest())
      ensures fee == MarketFee(asset, receives, isMaker)
      ensures ledger.journal == old(ledger.journal) + FeePostings(seller, asset, fee)
      ensures forall a :: Wealth(a) == old(Wealth(a)) + if a == asset then fee else 0
    {
      ghost var before := ledger.journal;
      fee := PayMarketFees(seller, asset, receives, isMaker);
      forall a
        ensures Held(ledger.funds, a) == old(Held(ledger.funds, a)) + if a == asset then fee else 0
      {
        FeePostingsTotal(seller, asset, fee, a);
        PostedConcat(before, FeePostings(seller, asset, fee), a);
      }
    }

    /** What an account receives for an amount, after market fees. */
    function ReceiptPostings(seller: Account, asset: Asset, receives: nat, isMaker: bool): seq<Posting> {
      var fee := MarketFee(asset, receives, isMaker);
      FeePostings(seller, asset, fee) + [Posting(Balance(seller, asset), receives - fee)]
    }

    method GiveLessFees(seller: Account, asset: Asset, receives: nat, isMaker: bool)
      requires Valid()
      modifies ledger`funds, ledger`journal
      ensures Valid() && AtRest() == old(AtRest())
      ensures ledger.journal == old(ledger.journal) + ReceiptPostings(seller, asset, receives, isMaker)
      ensures forall a :: Wealth(a) == old(Wealth(a)) + if a == asset then receives else 0
    {
      var fee := TakeMarketFees(seller, asset, receives, isMaker);
      Give(Balance(seller, asset), receives - fee);
    }

    // ----- deferred fees -----

    /** What the first fill of an order does with the fees deferred at its creation:
        part goes back to a maker, the rest is finally paid. */
    function DeferredPostings(o: Order, isMaker: bool): seq<Posting> {
      var discount := if isMaker then makerDiscountPercent else 0;
      var paidRefund := CalculatePercent(o.deferredPaidFee, discount);
      var poolRefund := if paidRefund > 0 then CalculatePercent(o.deferredFee, discount) else 0;
      var coreRefund := if o.deferredPaidFee == 0 then CalculatePercent(o.deferredFee, discount) else 0;
      [ Posting(Balance(o.seller, o.deferredPaidAsset), paidRefund),
        Posting(AccumulatedFees(o.deferredPaidAsset), o.deferredPaidFee - paidRefund),
        Posting(FeePool(o.deferredPaidAsset), poolRefund) ]
      + [ Posting(Balance(o.seller, CORE), coreRefund),
          Posting(PendingFees(o.seller), o.deferredFee - poolRefund - coreRefund) ]
    }

    lemma DeferredPostingsTotal(o: Order, isMaker: bool, a: Asset)
      ensures Posted(DeferredPostings(o, isMaker), a) == DeferredIn(o, a)
    {
      var p := DeferredPostings(o, isMaker);
      assert p == [p[0]] + ([p[1], p[2], p[3], p[4]]);
      PostedCons(p[0], [p[1], p[2], p[3], p[4]], a);
      PostedFour(p[1], p[2], p[3], p[4], a);
    }

    /** A taker gets nothing of its fee back; a maker gets the discount, in the asset in which the
        fee was paid, and then the fee pool gets it as well. */
    lemma DeferredIs(o: Order, isMaker: bool)
      ensures var p := DeferredPostings(o, isMaker);
              && p[0].slot == Balance(o.seller, o.deferredPaidAsset) && p[2].slot == FeePool(o.deferredPaidAsset)
              && p[3].slot == Balance(o.seller, CORE)
              && p[0].amount >= 0 && p[2].amount >= 0 && p[3].amount >= 0
              && (!isMaker ==> p[0].amount == p[2].amount == p[3].amount == 0)
              && (isMaker && o.deferredPaidFee == 0 ==>
                    && IsShare(p[3].amount, o.deferredFee, makerDiscountPercent)
                    && p[0].amount == p[2].amount == 0)
              && (isMaker && o.deferredPaidFee > 0 ==>
                    && IsShare(p[0].amount, o.deferredPaidFee, makerDiscountPercent)
                    && (p[0].amount > 0 ==> IsShare(p[2].amount, o.deferredFee, makerDiscountPercent))
                    && (p[0].amount == 0 ==> p[2].amount == 0)
                    && p[3].amount == 0)
    {
    }

    method ProcessDeferredFees(o: Order, isMaker: bool)
      requires ledger.Valid() && Live(o)
      modifies ledger`funds, ledger`journal
      ensures ledger.Valid()
      ensures ledger.journal == old(ledger.journal) + DeferredPostings(o, isMaker)
    {
      var deferredFee, deferredPaidFee := o.deferredFee, o.deferredPaidFee;
      var refund, poolRefund, coreRefund := 0, 0, 0;
      if o.deferredPaidFee > 0 {
        if isMaker && makerDiscountPercent > 0 {
          refund := CalculatePercent(deferredPaidFee, makerDiscountPercent);
          if refund > 0 {
            deferredPaidFee := deferredPaidFee - refund;
            assert deferredFee > 0;
            poolRefund := CalculatePercent(deferredFee, makerDiscountPercent);
            deferredFee := deferredFee - poolRefund;
          }
        }
      }
      ledger.Credit(Balance(o.seller, o.deferredPaidAsset), refund);
      ledger.Credit(AccumulatedFees(o.deferredPaidAsset), deferredPaidFee);
      ledger.Credit(FeePool(o.deferredPaidAsset), poolRefund);
      if o.deferredFee > 0 {
        if o.deferredPaidFee == 0 && isMaker && makerDiscountPercent > 0 {
          coreRefund := CalculatePercent(deferredFee, makerDiscountPercent);
          deferredFee := deferredFee - coreRefund;
        }
      }
      ledger.Credit(Balance(o.seller, CORE), coreRefund);
      ledger.Credit(PendingFees(o.seller), deferredFee);
    }

    // ----- cancelling -----

    /** The rounded-up share of a fee paid in another asset that a cancellation forfeits. */
    function CancelledPaidFee(o: Order, coreCancelFee: nat): (r: nat)
      requires coreCancelFee <= o.deferredFee
      ensures r <= o.deferredPaidFee
      ensures r > 0 <==> coreCancelFee > 0 && o.deferredPaidFee > 0
    {
      if coreCancelFee == 0 || o.deferredPaidFee == 0 then
        0
      else
        MulPos(o.deferredPaidFee, coreCancelFee);
        MulLe(coreCancelFee, o.deferredFee, o.deferredPaidFee);
        CeilGalois(o.deferredPaidFee * coreCancelFee, o.deferredFee, o.deferredPaidFee);
        CeilGalois(o.deferredPaidFee * coreCancelFee, o.deferredFee, 0);
        Ceil(o.deferredPaidFee * coreCancelFee, o.deferredFee)
    }

    function CoreCancelFee(o: Order, chargeFee: bool): (r: nat)
      ensures r <= o.deferredFee
    {
      if !chargeFee then 0 else if cancelFee > o.deferredFee then o.deferredFee else cancelFee
    }

    function CancelPostings(o: Order, sells: Asset, chargeFee: bool): seq<Posting> {
      var core := CoreCancelFee(o, chargeFee);
      RefundPostings(o, sells, core, CancelledPaidFee(o, core))
    }

    /** A cancellation for which the given parts of the fees are kept. */
    function RefundPostings(o: Order, sells: Asset, core: nat, paid: nat): seq<Posting> {
      [ Posting(PendingFees(o.seller), core),
        Posting(AccumulatedFees(o.deferredPaidAsset), paid),
        Posting(Balance(o.seller, sells), o.forSale) ]
      + if o.deferredPaidFee == 0 then
          [ Posting(Balance(o.seller, CORE), o.deferredFee - core) ]
        else
          [ Posting(Balance(o.seller, o.deferredPaidAsset), o.deferredPaidFee - paid),
            Posting(FeePool(o.deferredPaidAsset), o.deferredFee - core) ]
    }

    /** A cancellation gives back, or pays as fees, exactly what the order kept. */
    lemma CancelPostingsTotal(o: Order, sells: Asset, chargeFee: bool, a: Asset)
      ensures Posted(CancelPostings(o, sells, chargeFee), a) == KeptBy(o, sells, a)
    {
      var p := CancelPostings(o, sells, chargeFee);
      if o.deferredPaidFee == 0 {
        assert p == [p[0], p[1], p[2], p[3]];
        PostedFour(p[0], p[1], p[2], p[3], a);
      } else {
        assert p == [p[0]] + [p[1], p[2], p[3], p[4]];
        PostedCons(p[0], [p[1], p[2], p[3], p[4]], a);
        PostedFour(p[1], p[2], p[3], p[4], a);
      }
    }

    /** A cancellation that is charged keeps the cancellation fee, up to the deferred fee, and of a fee
        paid in another asset the same part rounded up; one that is not charged keeps nothing. */
    lemma CancelFeeIs(o: Order, sells: Asset, chargeFee: bool)
      ensures var p := CancelPostings(o, sells, chargeFee);
              var core, paid := p[0].amount, p[1].amount;
              && p[0].slot == PendingFees(o.seller) && p[1].slot == AccumulatedFees(o.deferredPaidAsset)
              && 0 <= core <= o.deferredFee && 0 <= paid <= o.deferredPaidFee
              && (!chargeFee ==> core == paid == 0)
              && (chargeFee ==> core <= cancelFee && (core == cancelFee || core == o.deferredFee))
              && (o.deferredFee > 0 ==>
                    o.deferredPaidFee * core <= paid * o.deferredFee < o.deferredPaidFee * core + o.deferredFee)
    {
      var core := CoreCancelFee(o, chargeFee);
      MulNonNeg(o.deferredPaidFee, core);
    }

    /** Pays the fees and refunds the rest. */
    method CreditRefund(o: Order, sells: Asset, core: nat, paid: nat)
      requires ledger.Valid() && core <= o.deferredFee && (o.deferredPaidFee > 0 ==> paid <= o.deferredPaidFee)
      modifies ledger`funds, ledger`journal
      ensures ledger.Valid()
      ensures ledger.journal == old(ledger.journal) + RefundPostings(o, sells, core, paid)
    {
      ledger.Credit(PendingFees(o.seller), core);
      ledger.Credit(AccumulatedFees(o.deferredPaidAsset), paid);
      ledger.Credit(Balance(o.seller, sells), o.forSale);
      if o.deferredPaidFee == 0 {
        ledger.Credit(Balance(o.seller, CORE), o.deferredFee - core);
      } else {
        ledger.Credit(Balance(o.seller, o.deferredPaidAsset), o.deferredPaidFee - paid);
        ledger.Credit(FeePool(o.deferredPaidAsset), o.deferredFee - core);
      }
    }

    /** The part of `cancel_limit_order` that pays the fee and refunds the rest. */
    method RefundOrder(o: Order, sells: Asset, createVirtualOp: bool, skipCancelFee: bool)
      requires ledger.Valid()
      modifies ledger
      ensures ledger.Valid()
      ensures ledger.journal == old(ledger.journal) + CancelPostings(o, sells, createVirtualOp && !skipCancelFee)
      ensures forall who :: ledger.CoreInOrders(who) == old(ledger.CoreInOrders(who)) - CoreIn(o, sells, who)
      ensures forall a :: Held(ledger.funds, a) == old(Held(ledger.funds, a)) + KeptBy(o, sells, a)
    {
      ghost var before := ledger.journal;
      var core, paid := 0, 0;
      if createVirtualOp && !skipCancelFee && o.deferredFee > 0 {
        core := if cancelFee > o.deferredFee then o.deferredFee else cancelFee;
        if core > 0 && o.deferredPaidFee > 0 {
          paid := CancelledPaidFee(o, core);
        }
      }
      CreditRefund(o, sells, core, paid);
      if sells == CORE {
        ledger.AdjustCoreInOrders(o.seller, 0 - o.forSale);
      }
      ghost var postings := CancelPostings(o, sells, createVirtualOp && !skipCancelFee);
      assert ledger.journal == before + postings;
      forall a
        ensures Held(ledger.funds, a) == old(Held(ledger.funds, a)) + KeptBy(o, sells, a)
      {
        CancelPostingsTotal(o, sells, createVirtualOp && !skipCancelFee, a);
        PostedConcat(before, postings, a);
      }
    }

    /** `cancel_limit_order`. The fee is charged when a virtual operation is created,
        unless the caller asks to skip it. */
    method CancelLimitOrder(side: nat, i: nat, createVirtualOp: bool, skipCancelFee: bool)
      requires Valid() && side < 2 && i < |book[side]|
      modifies this`book, ledger
      ensures Valid()
      ensures book == old(book[side := Without(book[side], i)])
      ensures ledger.journal == old(ledger.journal
                + CancelPostings(book[side][i], assets[side], createVirtualOp && !skipCancelFee))
      ensures forall a :: Wealth(a) == old(Wealth(a))
      ensures forall who ::
        ledger.CoreInOrders(who) - CoreForSale(who) == old(ledger.CoreInOrders(who) - CoreForSale(who))
    {
      var o := book[side][i];
      RefundOrder(o, assets[side], createVirtualOp, skipCancelFee);
      Replace(side, i, None);
    }

    // ----- filling -----

    function PaymentPostings(o: Order, gets: Asset, receives: nat, isMaker: bool): seq<Posting> {
      var fee := MarketFee(gets, receives, isMaker);
      FeePostings(o.seller, gets, fee) + [Posting(Balance(o.seller, gets), receives - fee)]
          + DeferredPostings(o, isMaker)
    }

    /** Everything a fill posts, including the refund of a remainder that is culled. */
    function FillPostings(o: Order, side: nat, pays: nat, receives: nat, cull: bool, isMaker: bool): seq<Posting>
      requires |assets| == 2 && side < 2 && pays <= o.forSale && Positive(o.price)
    {
      PaymentPostings(o, assets[1 - side], receives, isMaker)
      + if pays < o.forSale && FillRemoves(o, pays, cull)
        then CancelPostings(AfterFill(o, pays), assets[side], true) else []
    }

    lemma PaymentPostingsTotal(o: Order, gets: Asset, receives: nat, isMaker: bool, a: Asset)
      ensures Posted(PaymentPostings(o, gets, receives, isMaker), a)
              == (if a == gets then receives else 0) + DeferredIn(o, a)
    {
      var fee := MarketFee(gets, receives, isMaker);
      var p := Posting(Balance(o.seller, gets), receives - fee);
      FeePostingsTotal(o.seller, gets, fee, a);
      DeferredPostingsTotal(o, isMaker, a);
      PostedConcat(FeePostings(o.seller, gets, fee) + [p], DeferredPostings(o, isMaker), a);
      PostedConcat(FeePostings(o.seller, gets, fee), [p], a);
      assert [p] == [p] + [];
      PostedCons(p, [], a);
    }

    /** The first half of `fill_limit_order`: pay the seller, the fees and the deferred fees. */
    method PayFill(o: Order, sells: Asset, gets: Asset, pays: nat, receives: nat, isMaker: bool)
      requires ledger.Valid() && Live(o)
      modifies ledger
      ensures ledger.Valid()
      ensures ledger.journal == old(ledger.journal) + PaymentPostings(o, gets, receives, isMaker)
      ensures forall who :: ledger.CoreInOrders(who)
                == old(ledger.CoreInOrders(who)) - if sells == CORE && who == o.seller then pays else 0
      ensures forall a :: Held(ledger.funds, a) == old(Held(ledger.funds, a)) + (if a == gets then receives else 0)
                + DeferredIn(o, a)
    {
      ghost var before := ledger.journal;
      var issuerFees := PayMarketFees(o.seller, gets, receives, isMaker);
      if sells == CORE {
        ledger.AdjustCoreInOrders(o.seller, 0 - pays);
      }
      ledger.Credit(Balance(o.seller, gets), receives - issuerFees);
      ProcessDeferredFees(o, isMaker);
      ghost var paid := PaymentPostings(o, gets, receives, isMaker);
      assert ledger.journal == before + paid;
      forall a
        ensures Held(ledger.funds, a) == old(Held(ledger.funds, a)) + Posted(paid, a)
      {
        PostedConcat(before, paid, a);
      }
      forall a {
        PaymentPostingsTotal(o, gets, receives, isMaker, a);
      }
    }

    /** Drops an order, or puts its reduced form back in its place. */
    method Replace(side: nat, i: nat, remainder: Option<Order>)
      requires Valid() && side < 2 && i < |book[side]|
      requires remainder.Some? ==> Live(remainder.value)
      requires remainder.Some? ==>
        remainder.value.price == book[side][i].price && remainder.value.id == book[side][i].id
      modifies this`book
      ensures Valid()
      ensures book
                == old(book[side := if remainder.Some? then book[side][i := remainder.value]
                                    else Without(book[side], i)])
      ensures forall a :: Wealth(a) == old(Wealth(a)) - old(KeptBy(book[side][i], assets[side], a))
                + if remainder.Some? then KeptBy(remainder.value, assets[side], a) else 0
      ensures forall who :: CoreForSale(who) == old(CoreForSale(who)) - old(CoreIn(book[side][i], assets[side], who))
                + if remainder.Some? then CoreIn(remainder.value, assets[side], who) else 0
    {
      KeptReplace(book[side], i, if remainder.Some? then remainder.value else book[side][i], assets[side]);
      var orders := if remainder.Some? then book[side][i := remainder.value] else Without(book[side], i);
      if remainder.Some? {
        SortedReplace(book[side], i, remainder.value);
      } else {
        SortedWithout(book[side], i);
      }
      book := book[side := orders];
    }

    /** `fill_limit_order`: the order pays and receives, and leaves the book when it is used
        up or, if so asked, when the rest of it is dust. */
    method FillLimitOrder(side: nat, i: nat, pays: nat, receives: nat, cullIfSmall: bool, isMaker: bool)
      returns (filled: bool)
      requires Valid() && side < 2 && i < |book[side]| && pays <= book[side][i].forSale
      modifies this`book, ledger
      ensures Valid()
      ensures filled == FillRemoves(old(book[side][i]), pays, cullIfSmall)
      ensures book
                == old(book[side := if filled then Without(book[side], i)
                                    else book[side][i := AfterFill(book[side][i], pays)]])
      ensures ledger.journal
                == old(ledger.journal + FillPostings(book[side][i], side, pays, receives, cullIfSmall, isMaker))
      ensures forall a :: Wealth(a) == old(Wealth(a))
                + (if a == assets[1 - side] then receives else 0) - (if a == assets[side] then pays else 0)
      ensures forall who ::
        ledger.CoreInOrders(who) - CoreForSale(who) == old(ledger.CoreInOrders(who) - CoreForSale(who))
    {
      var o := book[side][i];
      PayFill(o, assets[side], assets[1 - side], pays, receives, isMaker);
      if pays == o.forSale {
        Replace(side, i, None);
        return true;
      }
      Replace(side, i, Some(AfterFill(o, pays)));
      filled := false;
      if cullIfSmall && Convert(o.forSale - pays, o.price) == 0 {
        ghost var rest := book[side];
        CancelLimitOrder(side, i, true, false);
        assert Without(rest, i) == Without(old(book[side]), i);
        filled := true;
      }
    }

    // ----- matching -----

    function MatchPostings(side: nat, taker: Order, maker: Order, x: Exchanged): seq<Posting>
      requires |assets| == 2 && side < 2 && x.Exchange?
      requires Positive(taker.price) && Positive(maker.price) && x.takerPays <= taker.forSale
      requires x.makerPays <= maker.forSale
    {
      FillPostings(taker, side, x.takerPays, x.makerPays, x.cullTaker, false)
      + FillPostings(maker, 1 - side, x.makerPays, x.takerPays, true, true)
    }

    /** What a fill adds to a balance: to the seller's what is received less the market fee, and what
        comes back of deferred fees; of a culled remainder what was for sale. */
    lemma FillGives(o: Order, side: nat, pays: nat, receives: nat, cull: bool, isMaker: bool, slot: Slot)
      requires |assets| == 2 && side < 2 && assets[0] != assets[1] && pays <= o.forSale && Positive(o.price)
      requires slot.Balance?
      requires slot.owner == o.seller ==> slot.asset != assets[side]
      ensures PostedTo(FillPostings(o, side, pays, receives, cull, isMaker), slot)
              == (if slot == Balance(o.seller, assets[1 - side])
                  then receives - MarketFee(assets[1 - side], receives, isMaker) else 0)
                 + PostedTo(DeferredPostings(o, isMaker), slot)
    {
      var gets := assets[1 - side];
      var fee := MarketFee(gets, receives, isMaker);
      var p := Posting(Balance(o.seller, gets), receives - fee);
      var fees, deferred := FeePostings(o.seller, gets, fee), DeferredPostings(o, isMaker);
      FeesGoTo(o.seller, gets, fee, slot);
      PostedToConcat(fees + [p], deferred, slot);
      PostedToConcat(fees, [p], slot);
      PostedToOne(p, slot);
      if pays < o.forSale && FillRemoves(o, pays, cull) {
        var refund := CancelPostings(AfterFill(o, pays), assets[side], true);
        PostedToConcat(PaymentPostings(o, gets, receives, isMaker), refund, slot);
        PostedToFour(refund[0], refund[1], refund[2], refund[3], slot);
        assert refund == [refund[0], refund[1], refund[2], refund[3]];
      } else {
        PostedToConcat(PaymentPostings(o, gets, receives, isMaker), [], slot);
      }
    }

    /** In a match between two accounts each gets what the other pays, less the market fee of a taker
        or of a maker; only a maker gets back part of its deferred fees. */
    lemma MatchGives(side: nat, taker: Order, maker: Order, x: Exchanged)
      requires |assets| == 2 && side < 2 && assets[0] != assets[1] && x.Exchange?
      requires Positive(taker.price) && Positive(maker.price) && taker.seller != maker.seller
      requires x.takerPays <= taker.forSale && x.makerPays <= maker.forSale
      ensures PostedTo(MatchPostings(side, taker, maker, x), Balance(taker.seller, assets[1 - side]))
              == x.makerPays - MarketFee(assets[1 - side], x.makerPays, false)
      ensures PostedTo(MatchPostings(side, taker, maker, x), Balance(maker.seller, assets[side]))
              == x.takerPays - MarketFee(assets[side], x.takerPays, true)
                 + PostedTo(DeferredPostings(maker, true), Balance(maker.seller, assets[side]))
    {
      forall slot: Slot | slot.Balance?
        ensures PostedTo(DeferredPostings(taker, false), slot) == 0
        ensures slot.owner != maker.seller ==> PostedTo(DeferredPostings(maker, true), slot) == 0
      {
        DeferredGives(taker, false, slot);
        DeferredGives(maker, true, slot);
      }
      var first, second := Balance(taker.seller, assets[1 - side]), Balance(maker.seller, assets[side]);
      FillGives(taker, side, x.takerPays, x.makerPays, x.cullTaker, false, first);
      FillGives(taker, side, x.takerPays, x.makerPays, x.cullTaker, false, second);
      FillGives(maker, 1 - side, x.makerPays, x.takerPays, true, true, first);
      FillGives(maker, 1 - side, x.makerPays, x.takerPays, true, true, second);
      var byTaker := FillPostings(taker, side, x.takerPays, x.makerPays, x.cullTaker, false);
      var byMaker := FillPostings(maker, 1 - side, x.makerPays, x.takerPays, true, true);
      PostedToConcat(byTaker, byMaker, first);
      PostedToConcat(byTaker, byMaker, second);
    }

    lemma DeferredGives(o: Order, isMaker: bool, slot: Slot)
      requires slot.Balance?
      ensures slot.owner != o.seller || !isMaker ==> PostedTo(DeferredPostings(o, isMaker), slot) == 0
    {
      var p := DeferredPostings(o, isMaker);
      assert p == [p[0], p[1], p[2]] + [p[3], p[4]];
      PostedToConcat([p[0], p[1], p[2]], [p[3], p[4]], slot);
      PostedToThree(p[0], p[1], p[2], slot);
      PostedToThree(p[3], p[4], p[4], slot);
    }

    /** Both sides of a match are filled at the agreed amounts. */
    method FillBoth(side: nat, takerPays: nat, makerPays: nat, cullTaker: bool)
      returns (takerFilled: bool, makerFilled: bool)
      requires Valid() && side < 2 && book[side] != [] && book[1 - side] != []
      requires takerPays <= book[side][0].forSale && makerPays <= book[1 - side][0].forSale
      modifies this`book, ledger
      ensures Valid()
      ensures forall a :: Wealth(a) == old(Wealth(a))
      ensures forall who ::
        ledger.CoreInOrders(who) - CoreForSale(who) == old(ledger.CoreInOrders(who) - CoreForSale(who))
      ensures ledger.journal
                == old(ledger.journal)
                  + old(MatchPostings(side, book[side][0], book[1 - side][0],
                                      Exchange(takerPays, makerPays, cullTaker)))
      ensures takerFilled == old(FillRemoves(book[side][0], takerPays, cullTaker))
      ensures makerFilled == old(FillRemoves(book[1 - side][0], makerPays, true))
      ensures book[side]
                == old(if takerFilled then book[side][1..] else book[side][0 := AfterFill(book[side][0], takerPays)])
      ensures book[1 - side] == AfterMakerPays(old(book[1 - side]), makerPays)
    {
      ghost var takers, makers, posted := book[side], book[1 - side], ledger.journal;
      ghost var byTaker := FillPostings(takers[0], side, takerPays, makerPays, cullTaker, false);
      ghost var byMaker := FillPostings(makers[0], 1 - side, makerPays, takerPays, true, true);
      ghost var both := MatchPostings(side, takers[0], makers[0], Exchange(takerPays, makerPays, cullTaker));
      assert both == byTaker + byMaker;
      assert Without(takers, 0) == takers[1..] && Without(makers, 0) == makers[1..];
      takerFilled := FillLimitOrder(side, 0, takerPays, makerPays, cullTaker, false);
      assert book[1 - side] == makers;
      makerFilled := FillLimitOrder(1 - side, 0, makerPays, takerPays, true, true);
      ConcatAssociates(posted, byTaker, byMaker);
    }

    /** The state after `match_limit_normal_limit`, as a function of the two orders. */
    ghost predicate Matched(side: nat, takers: seq<Order>, makers: seq<Order>, posted: seq<Posting>,
                            book': seq<seq<Order>>, posted': seq<Posting>, result: MatchResult)
      requires |assets| == 2 && side < 2 && takers != [] && makers != [] && |book'| == 2
      requires Positive(takers[0].price) && Sound(makers[0]) && Crosses(takers[0], makers[0])
    {
      AmountsFit(takers[0], makers[0]);
      match Amounts(takers[0], makers[0])
      case NoExchange =>
        result == OnlyTakerFilled && book'[side] == takers && book'[1 - side] == makers && posted' == posted
      case Exchange(takerPays, makerPays, cullTaker) =>
        && posted' == posted + MatchPostings(side, takers[0], makers[0], Amounts(takers[0], makers[0]))
        && book'[side] == (if cullTaker then takers[1..] else takers[0 := AfterFill(takers[0], takerPays)])
        && book'[1 - side] == AfterMakerPays(makers, makerPays)
        && result == if !cullTaker then OnlyMakerFilled
                     else if FillRemoves(makers[0], makerPays, true) then BothFilled else OnlyTakerFilled
    }

    /** `match_limit_normal_limit` of the best order of `side` against the best order of the
        other side. `NoneFilled` never results, so the assertion against it never fires. */
    method MatchLimitNormalLimit(side: nat) returns (result: MatchResult)
      requires Valid() && side < 2 && book[side] != [] && book[1 - side] != []
      requires Sound(book[1 - side][0]) && Crosses(book[side][0], book[1 - side][0])
      modifies this`book, ledger
      ensures Valid()
      ensures forall a :: Wealth(a) == old(Wealth(a))
      ensures forall who ::
        ledger.CoreInOrders(who) - CoreForSale(who) == old(ledger.CoreInOrders(who) - CoreForSale(who))
      ensures Matched(side, old(book[side]), old(book[1 - side]), old(ledger.journal), book, ledger.journal, result)
      ensures result != NoneFilled
    {
      var taker, maker := book[side][0], book[1 - side][0];
      AmountsFit(taker, maker);
      var takerPays, takerReceives, cullTaker := 0, 0, false;
      if taker.forSale <= Convert(maker.forSale, maker.price) {
        takerReceives := Convert(taker.forSale, Inverse(maker.price));
        if takerReceives == 0 {
          return OnlyTakerFilled;
        }
        takerPays := ConvertUp(takerReceives, maker.price);
        cullTaker := true;
      } else {
        takerPays := Convert(maker.forSale, maker.price);
        takerReceives := ConvertUp(takerPays, Inverse(maker.price));
      }
      assert Amounts(taker, maker) == Exchange(takerPays, takerReceives, cullTaker);
      var takerFilled, makerFilled := FillBoth(side, takerPays, takerReceives, cullTaker);
      assert takerFilled == cullTaker;
      result := if takerFilled then (if makerFilled then BothFilled else OnlyTakerFilled)
                else (if makerFilled then OnlyMakerFilled else NoneFilled);
    }

    // ----- applying a new order -----

    /** The journal once a new best order of `side` has met the makers. */
    ghost function SweepJournal(journal: seq<Posting>, side: nat, taker: Order, makers: seq<Order>): seq<Posting>
      requires |assets| == 2 && side < 2 && Positive(taker.price) && AllSound(makers)
      decreases |makers|
    {
      if makers == [] || !Crosses(taker, makers[0]) then
        journal
      else
        AmountsFit(taker, makers[0]);
        var x := Amounts(taker, makers[0]);
        if x.NoExchange? then
          journal
        else if x.cullTaker then
          journal + MatchPostings(side, taker, makers[0], x)
        else
          SweepJournal(journal + MatchPostings(side, taker, makers[0], x), side, AfterFill(taker, x.takerPays),
                       makers[1..])
    }

    /** One match, seen as one step of the sweep. */
    method MatchStep(side: nat) returns (finished: bool)
      requires Valid() && side < 2 && book[side] != [] && book[1 - side] != []
      requires AllSound(book[1 - side]) && Crosses(book[side][0], book[1 - side][0])
      modifies this`book, ledger
      ensures Valid() && AllSound(book[1 - side])
      ensures forall a :: Wealth(a) == old(Wealth(a))
      ensures forall who ::
        ledger.CoreInOrders(who) - CoreForSale(who) == old(ledger.CoreInOrders(who) - CoreForSale(who))
      ensures !finished ==>
        && |book[1 - side]| < old(|book[1 - side]|)
        && book[side] != [] && book[side] == old(book[side])[0 := book[side][0]]
        && old(Sweep(book[side][0], book[1 - side])) == Sweep(book[side][0], book[1 - side])
        && old(SweepJournal(ledger.journal, side, book[side][0], book[1 - side]))
           == SweepJournal(ledger.journal, side, book[side][0], book[1 - side])
      ensures finished ==>
        var (rest, left) := old(Sweep(book[side][0], book[1 - side]));
        && book[1 - side] == left
        && book[side] == (if rest.None? then old(book[side])[1..] else old(book[side])[0 := rest.value])
        && old(SweepJournal(ledger.journal, side, book[side][0], book[1 - side])) == ledger.journal
    {
      ghost var taker, makers := book[side][0], book[1 - side];
      AmountsFit(taker, makers[0]);
      var result := MatchLimitNormalLimit(side);
      finished := result != OnlyMakerFilled;
    }

    /** The matching loop of `apply_order` for the best order of a side. */
    method MatchAgainstMakers(side: nat)
      requires Valid() && side < 2 && book[side] != [] && AllSound(book[1 - side])
      modifies this`book, ledger
      ensures Valid()
      ensures forall a :: Wealth(a) == old(Wealth(a))
      ensures forall who ::
        ledger.CoreInOrders(who) - CoreForSale(who) == old(ledger.CoreInOrders(who) - CoreForSale(who))
      ensures var (rest, left) := old(Sweep(book[side][0], book[1 - side]));
              && book[1 - side] == left
              && book[side] == (if rest.None? then old(book[side])[1..] else old(book[side])[0 := rest.value])
      ensures ledger.journal == old(SweepJournal(ledger.journal, side, book[side][0], book[1 - side]))
    {
      ghost var takers := book[side];
      ghost var whole := Sweep(takers[0], book[1 - side]);
      ghost var journal := SweepJournal(ledger.journal, side, takers[0], book[1 - side]);
      var finished := false;
      while !finished && book[1 - side] != [] && Crosses(book[side][0], book[1 - side][0])
        invariant Valid() && AllSound(book[1 - side])
        invariant !finished ==> book[side] != [] && book[side] == takers[0 := book[side][0]]
        invariant !finished ==> whole == Sweep(book[side][0], book[1 - side])
        invariant !finished ==> journal == SweepJournal(ledger.journal, side, book[side][0], book[1 - side])
        invariant finished ==> whole.1 == book[1 - side] && journal == ledger.journal
        invariant finished ==> book[side] == if whole.0.None? then takers[1..] else takers[0 := whole.0.value]
        invariant forall a :: Wealth(a) == old(Wealth(a))
        invariant forall who ::
          ledger.CoreInOrders(who) - CoreForSale(who) == old(ledger.CoreInOrders(who) - CoreForSale(who))
        decreases !finished, |book[1 - side]|
      {
        finished := MatchStep(side);
      }
    }

    /** `maybe_cull_small_order`: an order that asks for nothing any more is cancelled. */
    method MaybeCullSmallOrder(side: nat, i: nat) returns (culled: bool)
      requires Valid() && side < 2 && i < |book[side]|
      modifies this`book, ledger
      ensures Valid()
      ensures forall a :: Wealth(a) == old(Wealth(a))
      ensures forall who ::
        ledger.CoreInOrders(who) - CoreForSale(who) == old(ledger.CoreInOrders(who) - CoreForSale(who))
      ensures culled == (ToReceive(old(book[side][i])) == 0)
      ensures book == old(if culled then book[side := Without(book[side], i)] else book)
      ensures ledger.journal
                == old(ledger.journal + if culled then CancelPostings(book[side][i], assets[side], true) else [])
    {
      culled := Convert(book[side][i].forSale, book[side][i].price) == 0;
      if culled {
        CancelLimitOrder(side, i, true, false);
      }
    }

    /** The part of `apply_order` that is reached by an order at the front of its side. */
    method MatchNewBestOrder(side: nat) returns (gone: bool)
      requires Valid() && side < 2 && book[side] != []
      requires AllSound(book[0]) && AllSound(book[1])
      modifies this`book, ledger
      ensures Valid()
      ensures forall a :: Wealth(a) == old(Wealth(a))
      ensures forall who ::
        ledger.CoreInOrders(who) - CoreForSale(who) == old(ledger.CoreInOrders(who) - CoreForSale(who))
      ensures var (rest, left) := old(Sweep(book[side][0], book[1 - side]));
              && book[1 - side] == left
              && gone == (rest.None? || ToReceive(rest.value) == 0)
              && book[side] == (if gone then old(book[side])[1..] else old(book[side])[0 := rest.value])
              && ledger.journal == old(SweepJournal(ledger.journal, side, book[side][0], book[1 - side]))
                   + if rest.Some? && gone then CancelPostings(rest.value, assets[side], true) else []
    {
      ghost var takers := book[side];
      var count := |book[side]|;
      MatchAgainstMakers(side);
      gone := true;
      if |book[side]| == count {
        // the order is still there: no other order of its side can have left
        ghost var left := book[side];
        assert Without(left, 0) == takers[1..];
        gone := MaybeCullSmallOrder(side, 0);
      }
    }

    /** `apply_order` for an order just placed at position `i` of its side. Returns whether
        the order is gone. Without a margin-call path, the book comes to rest again. */
    method ApplyOrder(side: nat, i: nat) returns (gone: bool)
      requires Valid() && side < 2 && i < |book[side]|
      requires AllSound(book[0]) && AllSound(book[1])
      requires Uncrossed(Without(book[side], i), book[1 - side])
      modifies this`book, ledger
      ensures AtRest()
      ensures forall a :: Wealth(a) == old(Wealth(a))
      ensures forall who ::
        ledger.CoreInOrders(who) - CoreForSale(who) == old(ledger.CoreInOrders(who) - CoreForSale(who))
      ensures i > 0 ==> !gone && book == old(book) && ledger.journal == old(ledger.journal)
      ensures i == 0 ==>
        var (rest, left) := old(Sweep(book[side][0], book[1 - side]));
        && book[1 - side] == left
        && gone == (rest.None? || ToReceive(rest.value) == 0)
        && book[side] == (if gone then old(book[side])[1..] else old(book[side])[0 := rest.value])
        && ledger.journal == old(SweepJournal(ledger.journal, side, book[side][0], book[1 - side]))
             + if rest.Some? && gone then CancelPostings(rest.value, assets[side], true) else []
    {
      ghost var takers, makers := book[side], book[1 - side];
      if i > 0 {
        BehindIsUncrossed(takers, i, makers);
        UncrossedIsSymmetric(takers, makers);
        return false;
      }
      assert Uncrossed(takers[1..], makers) by {
        assert Without(takers, 0) == takers[1..];
      }
      gone := MatchNewBestOrder(side);
      BookAfterSweep(takers, makers, book[side], book[1 - side]);
    }

    // ----- matching with something that is not a limit order -----

    /** Culling after a fill posts what culling within it would have. */
    lemma FillAndCull(o: Order, side: nat, pays: nat, receives: nat, isMaker: bool)
      requires |assets| == 2 && side < 2 && pays <= o.forSale && Positive(o.price)
      ensures FillPostings(o, side, pays, receives, true, isMaker)
              == FillPostings(o, side, pays, receives, false, isMaker)
                 + if pays < o.forSale
                   && FillRemoves(o, pays, true) then CancelPostings(AfterFill(o, pays), assets[side], true) else []
    {
    }

    /** Fills one order of a book at rest and culls what is left of it if that is dust, in
        `fill_limit_order` itself or, for a taker, once it is not matched any further. */
    method FillAtRest(side: nat, i: nat, pays: nat, receives: nat, cullIfSmall: bool, isMaker: bool)
      returns (gone: bool)
      requires AtRest() && side < 2 && i < |book[side]| && pays <= book[side][i].forSale
      modifies this`book, ledger
      ensures AtRest()
      ensures gone == FillRemoves(old(book[side][i]), pays, true)
      ensures book
                == old(book[side := if gone then Without(book[side], i)
                                    else book[side][i := AfterFill(book[side][i], pays)]])
      ensures ledger.journal == old(ledger.journal + FillPostings(book[side][i], side, pays, receives, true, isMaker))
      ensures forall a :: Wealth(a) == old(Wealth(a))
                + (if a == assets[1 - side] then receives else 0) - (if a == assets[side] then pays else 0)
      ensures forall who ::
        ledger.CoreInOrders(who) - CoreForSale(who) == old(ledger.CoreInOrders(who) - CoreForSale(who))
    {
      ghost var orders, others := book[side], book[1 - side];
      var filled := FillLimitOrder(side, i, pays, receives, cullIfSmall, isMaker);
      gone := filled;
      if !filled {
        ghost var now := book[side];
        gone := MaybeCullSmallOrder(side, i);
        assert gone ==> Without(now, i) == Without(orders, i);
      }
      FillAndCull(orders[i], side, pays, receives, isMaker);
      UncrossedBothWays(orders, others);
      ReplaceKeepsUncrossed(orders, i, AfterFill(orders[i], pays), others);
    }

    // ----- creating -----

    /** The postings of `limit_order_create`: the amount to sell and the fee leave the balance,
        and a fee paid in another asset is exchanged for CORE from that asset's fee pool. */
    function CreatePostings(o: Order, sells: Asset): seq<Posting> {
      [ Posting(Balance(o.seller, sells), 0 - o.forSale) ]
      + if o.deferredPaidFee == 0 then
          [ Posting(Balance(o.seller, CORE), 0 - o.deferredFee) ]
        else
          [ Posting(Balance(o.seller, o.deferredPaidAsset), 0 - o.deferredPaidFee),
            Posting(FeePool(o.deferredPaidAsset), 0 - o.deferredFee) ]
    }

    lemma CreatePostingsTotal(o: Order, sells: Asset, a: Asset)
      ensures Posted(CreatePostings(o, sells), a) == 0 - KeptBy(o, sells, a)
    {
      var p := CreatePostings(o, sells);
      PostedCons(p[0], p[1..], a);
      assert p == [p[0]] + p[1..];
      if o.deferredPaidFee == 0 {
        assert p[1..] == [p[1]] + [];
        PostedCons(p[1], [], a);
      } else {
        assert p[1..] == [p[1], p[2]];
        PostedTwo(p[1], p[2], a);
      }
    }

    /** Whether the balances of the seller, and the fee pool when the fee is paid in another asset,
        can give what a new order keeps. */
    predicate CanFund(o: Order, sells: Asset)
      reads ledger`funds
    {
      var feeSlot := if o.deferredPaidFee == 0 then Balance(o.seller, CORE) else Balance(o.seller, o.deferredPaidAsset);
      var fee := if o.deferredPaidFee == 0 then o.deferredFee else o.deferredPaidFee;
      var sellSlot := Balance(o.seller, sells);
      && AmountIn(ledger.funds, sellSlot) >= o.forSale + (if feeSlot == sellSlot then fee else 0)
      && AmountIn(ledger.funds, feeSlot) >= fee
      && (o.deferredPaidFee > 0 ==> AmountIn(ledger.funds, FeePool(o.deferredPaidAsset)) >= o.deferredFee)
    }

    /** That is so exactly when no slot of the ledger falls below zero. */
    lemma CanFundIffCovered(o: Order, sells: Asset)
      ensures CanFund(o, sells) <==>
        forall slot {:trigger PostedTo(CreatePostings(o, sells), slot)} ::
          AmountIn(ledger.funds, slot) + PostedTo(CreatePostings(o, sells), slot) >= 0
    {
      var p := CreatePostings(o, sells);
      forall slot
        ensures PostedTo(p, slot)
                == Into(p[0], slot) + Into(p[1], slot) + (if |p| == 3 then Into(p[2], slot) else 0)
      {
        assert p == if |p| == 2 then [p[0], p[1]] else [p[0], p[1], p[2]];
        PostedToThree(p[0], p[1], if |p| == 3 then p[2] else p[1], slot);
      }
      if !CanFund(o, sells) {
        var short := if AmountIn(ledger.funds, p[0].slot) + PostedTo(p, p[0].slot) < 0 then p[0].slot
                     else if AmountIn(ledger.funds, p[1].slot) + PostedTo(p, p[1].slot) < 0 then p[1].slot
                     else p[|p| - 1].slot;
        assert AmountIn(ledger.funds, short) + PostedTo(CreatePostings(o, sells), short) < 0;
      }
    }

    /** Takes what a new order keeps out of the ledger, or nothing at all. */
    method TakeFunds(o: Order, sells: Asset) returns (ok: bool)
      requires ledger.Valid()
      modifies ledger
      ensures ledger.Valid()
      ensures ok <==> old(CanFund(o, sells))
      ensures ok ==> ledger.journal == old(ledger.journal) + CreatePostings(o, sells)
      ensures ok ==> forall a :: Held(ledger.funds, a) == old(Held(ledger.funds, a)) - KeptBy(o, sells, a)
      ensures ok ==> forall who :: ledger.CoreInOrders(who) == old(ledger.CoreInOrders(who)) + CoreIn(o, sells, who)
      ensures !ok ==> ledger.journal == old(ledger.journal)
      ensures !ok ==> ledger.funds == old(ledger.funds) && ledger.coreInOrders == old(ledger.coreInOrders)
    {
      if !CanFund(o, sells) {
        return false;
      }
      if sells == CORE {
        ledger.AdjustCoreInOrders(o.seller, o.forSale);
      }
      MoveFunds(o, sells);
      ok := true;
    }

    /** The balances pay for what is for sale and for the fee. */
    method MoveFunds(o: Order, sells: Asset)
      requires ledger.Valid() && CanFund(o, sells)
      modifies ledger`funds, ledger`journal
      ensures ledger.Valid()
      ensures ledger.journal == old(ledger.journal) + CreatePostings(o, sells)
      ensures forall a :: Held(ledger.funds, a) == old(Held(ledger.funds, a)) - KeptBy(o, sells, a)
    {
      ghost var before := ledger.journal;
      var feeSlot := if o.deferredPaidFee == 0 then Balance(o.seller, CORE) else Balance(o.seller, o.deferredPaidAsset);
      var fee := if o.deferredPaidFee == 0 then o.deferredFee else o.deferredPaidFee;
      var ok := ledger.Adjust(Balance(o.seller, sells), 0 - o.forSale);
      ok := ledger.Adjust(feeSlot, 0 - fee);
      if o.deferredPaidFee > 0 {
        ok := ledger.Adjust(FeePool(o.deferredPaidAsset), 0 - o.deferredFee);
      }
      ghost var postings := CreatePostings(o, sells);
      assert ledger.journal == before + postings;
      forall a
        ensures Held(ledger.funds, a) == old(Held(ledger.funds, a)) - KeptBy(o, sells, a)
      {
        CreatePostingsTotal(o, sells, a);
        PostedConcat(before, postings, a);
      }
    }

    /** Puts an order on its side of the book, after every better or older one. */
    method Insert(side: nat, o: Order) returns (i: nat)
      requires Valid() && side < 2 && Live(o)
      requires forall j :: 0 <= j < |book[side]| ==> book[side][j].id < o.id
      modifies this`book
      ensures Valid()
      ensures i == Place(old(book[side]), o)
      ensures book == old(book[side := book[side][..i] + [o] + book[side][i..]])
      ensures forall a :: Wealth(a) == old(Wealth(a)) + KeptBy(o, assets[side], a)
      ensures forall who :: CoreForSale(who) == old(CoreForSale(who)) + CoreIn(o, assets[side], who)
    {
      var orders := book[side];
      i := 0;
      while i < |orders| && Before(orders[i], o)
        invariant 0 <= i <= |orders|
        invariant forall j :: 0 <= j < i ==> Before(orders[j], o)
        invariant Place(orders, o) == i + Place(orders[i..], o)
      {
        i := i + 1;
      }
      InsertSorted(orders, i, o);
      KeptInsert(orders, i, o, assets[side]);
      book := book[side := orders[..i] + [o] + orders[i..]];
    }

    /** `limit_order_create`: everything an account can do to add to the book keeps it at rest. */
    method CreateLimitOrder(side: nat, o: Order) returns (ok: bool, gone: bool)
      requires AtRest() && side < 2
      requires o.forSale > 0 && o.price.base == o.forSale && o.price.quote > 0
      requires o.deferredPaidFee > 0 ==> o.deferredFee > 0 && o.deferredPaidAsset != CORE
      requires forall j :: 0 <= j < |book[side]| ==> book[side][j].id < o.id
      modifies this`book, ledger
      ensures AtRest()
      ensures forall a :: Wealth(a) == old(Wealth(a))
      ensures forall who ::
        ledger.CoreInOrders(who) - CoreForSale(who) == old(ledger.CoreInOrders(who) - CoreForSale(who))
      ensures ok <==> old(CanFund(o, assets[side]))
      ensures !ok ==>
        !gone && book == old(book) && ledger.journal == old(ledger.journal) && ledger.funds == old(ledger.funds)
      ensures ok && Place(old(book[side]), o) > 0 ==>
        && !gone
        && book == old(book[side := book[side][..Place(book[side], o)] + [o] + book[side][Place(book[side], o)..]])
        && ledger.journal == old(ledger.journal) + CreatePostings(o, assets[side])
      ensures ok && Place(old(book[side]), o) == 0 ==>
        var (rest, left) := Sweep(o, old(book[1 - side]));
        && book[1 - side] == left
        && gone == (rest.None? || ToReceive(rest.value) == 0)
        && book[side] == (if gone then [] else [rest.value]) + old(book[side])
        && ledger.journal
          == SweepJournal(old(ledger.journal) + CreatePostings(o, assets[side]), side, o, old(book[1 - side]))
             + if rest.Some? && gone then CancelPostings(rest.value, assets[side], true) else []
    {
      gone := false;
      ghost var orders, makers := book[side], book[1 - side];
      var i;
      ok, i := PlaceNewOrder(side, o);
      if !ok {
        return;
      }
      UncrossedBothWays(orders, makers);
      if i == 0 {
        InFront(orders, o);
      }
      gone := ApplyOrder(side, i);
    }

    /** Funds a new order and puts it on the book, not yet matched. */
    method PlaceNewOrder(side: nat, o: Order) returns (ok: bool, i: nat)
      requires AtRest() && side < 2
      requires o.forSale > 0 && o.price.base == o.forSale && o.price.quote > 0
      requires o.deferredPaidFee > 0 ==> o.deferredFee > 0 && o.deferredPaidAsset != CORE
      requires forall j :: 0 <= j < |book[side]| ==> book[side][j].id < o.id
      modifies this`book, ledger
      ensures Valid() && AllSound(book[0]) && AllSound(book[1])
      ensures forall a :: Wealth(a) == old(Wealth(a))
      ensures forall who ::
        ledger.CoreInOrders(who) - CoreForSale(who) == old(ledger.CoreInOrders(who) - CoreForSale(who))
      ensures ok <==> old(CanFund(o, assets[side]))
      ensures !ok ==> book == old(book) && ledger.journal == old(ledger.journal) && ledger.funds == old(ledger.funds)
      ensures i == Place(old(book[side]), o)
      ensures ok ==> book[1 - side] == old(book[1 - side])
      ensures ok ==>
        book[side] == old(book[side][..i] + [o] + book[side][i..]) && Without(book[side], i) == old(book[side])
      ensures ok ==> ledger.journal == old(ledger.journal) + CreatePostings(o, assets[side])
      ensures forall j {:trigger old(book[side])[j]} :: 0 <= j < i ==>
        old(book[side])[j].price.base * o.price.quote >= o.price.base * old(book[side])[j].price.quote
      ensures forall j {:trigger old(book[side])[j]} :: i <= j < |old(book[side])| ==>
        old(book[side])[j].price.base * o.price.quote < o.price.base * old(book[side])[j].price.quote
    {
      PlaceIsByPriceThenTime(book[side], o);
      ok := TakeFunds(o, assets[side]);
      if !ok {
        i := Place(book[side], o);
        return;
      }
      ghost var orders := book[side];
      NewOrderAsksForItsQuote(o);
      i := Insert(side, o);
      InsertSound(orders, i, o);
    }

    /** `limit_order_cancel`, by its owner: nothing is charged. */
    method CancelByOwner(side: nat, i: nat)
      requires AtRest() && side < 2 && i < |book[side]|
      modifies this`book, ledger
      ensures AtRest()
      ensures forall a :: Wealth(a) == old(Wealth(a))
      ensures forall who ::
        ledger.CoreInOrders(who) - CoreForSale(who) == old(ledger.CoreInOrders(who) - CoreForSale(who))
      ensures book == old(book[side := Without(book[side], i)])
      ensures ledger.journal == old(ledger.journal + CancelPostings(book[side][i], assets[side], false))
    {
      CancelLimitOrder(side, i, false, false);
    }
  }
}
