/** Limit orders, their order on the book, and the amounts exchanged when two of them match. */
module LimitMatching {
  import opened Options
  import opened Rounding
  import opened Prices
  import opened Ledgers

  datatype Order = Order(
    id: nat,
    seller: Account,
    forSale: nat,
    price: Price,
    deferredFee: nat,
    deferredPaidFee: nat,
    deferredPaidAsset: Asset)

  /** `amount_to_receive`: what the order asks for at its own price. */
  function ToReceive(o: Order): nat
    requires Positive(o.price)
  {
    Convert(o.forSale, o.price)
  }

  /** An order that exists on the book. A fee paid in another asset has a CORE value. */
  predicate Live(o: Order) {
    && Positive(o.price)
    && o.forSale > 0
    && (o.deferredPaidFee > 0 ==> o.deferredFee > 0 && o.deferredPaidAsset != CORE)
  }

  /** An order that `maybe_cull_small_order` leaves on the book. */
  predicate Sound(o: Order) {
    Live(o) && ToReceive(o) > 0
  }

  /** The two orders are on opposite sides and their prices meet: maker price >= ~taker price. */
  predicate Crosses(taker: Order, maker: Order) {
    AtMost(Inverse(taker.price), maker.price)
  }

  /** The book's index: higher price first, then lower id. */
  predicate Before(a: Order, b: Order) {
    Below(b.price, a.price) || (AtMost(b.price, a.price) && a.id < b.id)
  }

  predicate Sorted(orders: seq<Order>) {
    forall i, j {:trigger Before(orders[i], orders[j])} :: 0 <= i < j < |orders| ==> Before(orders[i], orders[j])
  }

  /** Where a new order goes: behind all that are before it. */
  function Place(orders: seq<Order>, o: Order): (i: nat)
    ensures i <= |orders|
  {
    if orders == [] || !Before(orders[0], o) then 0 else 1 + Place(orders[1..], o)
  }

  predicate AllSound(orders: seq<Order>) {
    forall i {:trigger Sound(orders[i])} :: 0 <= i < |orders| ==> Sound(orders[i])
  }

  predicate Uncrossed(a: seq<Order>, b: seq<Order>) {
    forall i, j {:trigger Crosses(a[i], b[j])} :: 0 <= i < |a| && 0 <= j < |b| ==> !Crosses(a[i], b[j])
  }

  /** What a match makes each side pay; each pays what the other receives. */
  datatype Exchanged = NoExchange | Exchange(takerPays: nat, makerPays: nat, cullTaker: bool)

  /** The arithmetic of `match_limit_normal_limit`, at the maker's price. */
  function Amounts(taker: Order, maker: Order): Exchanged
    requires Positive(maker.price)
  {
    var makerIsWorth := Convert(maker.forSale, maker.price);
    if taker.forSale <= makerIsWorth then
      var takerReceives := Convert(taker.forSale, Inverse(maker.price));
      if takerReceives == 0 then
        NoExchange
      else
        Exchange(ConvertUp(takerReceives, maker.price), takerReceives, true)
    else
      Exchange(makerIsWorth, ConvertUp(makerIsWorth, Inverse(maker.price)), false)
  }

  /** The remainder of an order once it has paid, would buy nothing at its own price. */
  predicate Spent(o: Order, pays: nat)
    requires pays <= o.forSale && Positive(o.price)
  {
    Convert(o.forSale - pays, o.price) == 0
  }

  lemma CrossesIsSymmetric(a: Order, b: Order)
    ensures Crosses(a, b) <==> Crosses(b, a)
  {
  }

  /** At a maker's price that crosses, a taker gets at least what its own price asks. */
  lemma TakerDoesNoWorse(taker: Order, maker: Order, amount: nat)
    requires Positive(taker.price) && Positive(maker.price) && Crosses(taker, maker)
    ensures Convert(amount, taker.price) <= Convert(amount, Inverse(maker.price))
  {
    assert AtMost(Inverse(maker.price), taker.price);
    ConvertMonotone(amount, amount, taker.price, Inverse(maker.price));
  }

  /** No exchange happens only when the taker's remainder is dust at its own price too,
      so that the final cull of `apply_order` removes it. */
  lemma NoExchangeMeansDust(taker: Order, maker: Order)
    requires Positive(taker.price) && Sound(maker) && Crosses(taker, maker)
    requires Amounts(taker, maker) == NoExchange
    ensures ToReceive(taker) == 0
  {
    TakerDoesNoWorse(taker, maker, taker.forSale);
  }

  /** When the taker is the smaller order: nobody overpays, the taker gets exactly the floor
      of what it pays at the match price, the maker at least the match price, and what the
      taker has left is culled. */
  lemma SmallerTaker(taker: Order, maker: Order)
    requires Positive(taker.price) && Sound(maker) && Crosses(taker, maker)
    requires Amounts(taker, maker).Exchange? && Amounts(taker, maker).cullTaker
    ensures var x := Amounts(taker, maker);
            && 0 < x.takerPays <= taker.forSale
            && 0 < x.makerPays <= maker.forSale
            && x.makerPays == Convert(x.takerPays, Inverse(maker.price))
            && x.makerPays * maker.price.quote <= x.takerPays * maker.price.base
            && Spent(taker, x.takerPays)
  {
    var x := Amounts(taker, maker);
    var inv := Inverse(maker.price);
    Stabilised(taker.forSale, inv);
    ConvertGalois(maker.forSale, maker.price, taker.forSale);
    ConvertGalois(taker.forSale, inv, x.makerPays);
    Chain(x.makerPays, taker.forSale, maker.price.quote, maker.price.base, maker.price.quote, maker.price.base);
    assert taker.forSale * maker.price.base <= maker.forSale * maker.price.quote;
    Cancel(x.makerPays, maker.forSale, maker.price.quote);
    TakerDoesNoWorse(taker, maker, taker.forSale - x.takerPays);
  }

  /** When the maker is the smaller order: the mirror image, and the taker is left open. */
  lemma SmallerMaker(taker: Order, maker: Order)
    requires Positive(taker.price) && Sound(maker)
    requires Amounts(taker, maker).Exchange? && !Amounts(taker, maker).cullTaker
    ensures var x := Amounts(taker, maker);
            && 0 < x.takerPays < taker.forSale
            && 0 < x.makerPays <= maker.forSale
            && x.takerPays == Convert(x.makerPays, maker.price)
            && x.takerPays * maker.price.base <= x.makerPays * maker.price.quote
            && Spent(maker, x.makerPays)
  {
    Stabilised(maker.forSale, maker.price);
  }

  /** The two cases together. */
  lemma AmountsFit(taker: Order, maker: Order)
    requires Positive(taker.price) && Sound(maker) && Crosses(taker, maker)
    ensures Amounts(taker, maker).NoExchange? ==> ToReceive(taker) == 0
    ensures Amounts(taker, maker).Exchange? ==>
      var x := Amounts(taker, maker);
      && 0 < x.takerPays <= taker.forSale
      && 0 < x.makerPays <= maker.forSale
      && (if x.cullTaker then Spent(taker, x.takerPays) else x.takerPays < taker.forSale && Spent(maker, x.makerPays))
  {
    match Amounts(taker, maker)
    case NoExchange => NoExchangeMeansDust(taker, maker);
    case Exchange(_, _, cullTaker) =>
      if cullTaker {
        SmallerTaker(taker, maker);
      } else {
        SmallerMaker(taker, maker);
      }
  }

  /** Which of the two is the smaller order, and what both pay, to the last unit: the smaller one
      gets what its amount is worth at the maker's price rounded down, and pays the least for it. */
  lemma AmountsAreExact(taker: Order, maker: Order)
    requires Positive(maker.price)
    ensures var p, x := maker.price, Amounts(taker, maker);
            if taker.forSale * p.base <= maker.forSale * p.quote then
              if taker.forSale * p.base < p.quote then x.NoExchange?
              else
                && x.Exchange? && x.cullTaker
                && x.makerPays * p.quote <= taker.forSale * p.base < x.makerPays * p.quote + p.quote
                && x.takerPays * p.base - p.base < x.makerPays * p.quote <= x.takerPays * p.base
            else
              && x.Exchange? && !x.cullTaker
              && x.takerPays * p.base <= maker.forSale * p.quote < x.takerPays * p.base + p.base
              && x.makerPays * p.quote - p.quote < x.takerPays * p.base <= x.makerPays * p.quote
  {
    var p := maker.price;
    ConvertGalois(maker.forSale, p, taker.forSale);
    ConvertGalois(taker.forSale, Inverse(p), 1);
  }

  /** An order is culled exactly when the rest of it is worth less than one unit. */
  lemma FillRemovesDust(o: Order, pays: nat, cull: bool)
    requires pays <= o.forSale && Positive(o.price)
    ensures FillRemoves(o, pays, cull)
            <==> pays == o.forSale || (cull && (o.forSale - pays) * o.price.quote < o.price.base)
  {
    ConvertGalois(o.forSale - pays, o.price, 1);
  }

  /** What a book at rest is: every order on it buys something, and of no two orders on the two
      sides do the prices meet. */
  lemma AtRestMeans(a: seq<Order>, b: seq<Order>)
    requires AllSound(a) && AllSound(b)
    ensures forall i :: 0 <= i < |a| ==> a[i].price.base <= a[i].forSale * a[i].price.quote
    ensures Uncrossed(a, b) <==>
      forall i, j :: 0 <= i < |a| && 0 <= j < |b| ==>
        a[i].price.base * b[j].price.base < a[i].price.quote * b[j].price.quote
  {
    forall i | 0 <= i < |a|
      ensures a[i].price.base <= a[i].forSale * a[i].price.quote
    {
      assert Sound(a[i]);
      ConvertGalois(a[i].forSale, a[i].price, 1);
    }
    forall i, j | 0 <= i < |a| && 0 <= j < |b|
      ensures !Crosses(a[i], b[j]) <==> a[i].price.base * b[j].price.base < a[i].price.quote * b[j].price.quote
    {
      MeetMeans(a[i], b[j]);
    }
  }

  /** Two orders meet when each gives the other what it asks for: no less of its asset per unit
      than the other asks. */
  lemma MeetMeans(taker: Order, maker: Order)
    ensures Crosses(taker, maker)
            <==> taker.price.quote * maker.price.quote <= taker.price.base * maker.price.base
  {
    assert Inverse(taker.price).base * maker.price.quote == taker.price.quote * maker.price.quote;
    assert maker.price.base * Inverse(taker.price).quote == taker.price.base * maker.price.base;
  }

  /** On a sorted side an order with a better price, or an older one with the same price, is in front. */
  lemma {:induction false} BetterOrOlderIsInFront(orders: seq<Order>, i: nat, j: nat)
    requires Sorted(orders) && i < |orders| && j < |orders|
    requires var p, q := orders[i].price, orders[j].price;
             || p.base * q.quote > q.base * p.quote
             || (p.base * q.quote == q.base * p.quote && orders[i].id < orders[j].id)
    ensures i < j
  {
    if j < i {
      InFrontIsBetterOrOlder(orders, j, i);
    }
  }

  lemma {:induction false} InFrontIsBetterOrOlder(orders: seq<Order>, i: nat, j: nat)
    requires Sorted(orders) && i < j < |orders|
    ensures var p, q := orders[i].price, orders[j].price;
            && p.base * q.quote >= q.base * p.quote
            && (p.base * q.quote == q.base * p.quote ==> orders[i].id < orders[j].id)
  {
    assert Before(orders[i], orders[j]);
  }

  /** A newest order goes in front of all that offer strictly less for it, and behind all others. */
  lemma {:induction false} PlaceIsByPriceThenTime(orders: seq<Order>, o: Order)
    requires Sorted(orders) && Positive(o.price)
    requires forall j :: 0 <= j < |orders| ==> Positive(orders[j].price) && orders[j].id < o.id
    ensures var i := Place(orders, o);
            && (forall j {:trigger orders[j]} :: 0 <= j < i ==>
                  orders[j].price.base * o.price.quote >= o.price.base * orders[j].price.quote)
            && (forall j {:trigger orders[j]} :: i <= j < |orders| ==>
                  orders[j].price.base * o.price.quote < o.price.base * orders[j].price.quote)
    decreases |orders|
  {
    if orders != [] {
      if Before(orders[0], o) {
        SortedSuffix(orders, 1);
        PlaceIsByPriceThenTime(orders[1..], o);
        var i := Place(orders[1..], o);
        forall j | 0 < j <= i
          ensures orders[j].price.base * o.price.quote >= o.price.base * orders[j].price.quote
        {
          assert orders[j] == orders[1..][j - 1];
        }
        forall j | i < j < |orders|
          ensures orders[j].price.base * o.price.quote < o.price.base * orders[j].price.quote
        {
          assert orders[j] == orders[1..][j - 1];
        }
      } else {
        forall j | 0 <= j < |orders|
          ensures orders[j].price.base * o.price.quote < o.price.base * orders[j].price.quote
        {
          if j > 0 && AtMost(o.price, orders[j].price) {
            assert Before(orders[0], orders[j]);
            AtMostTransitive(o.price, orders[j].price, orders[0].price);
          }
        }
      }
    }
  }

  /** If the best maker does not cross, no maker does. */
  lemma BestDecides(taker: Order, makers: seq<Order>, j: nat)
    requires Positive(taker.price) && AllSound(makers) && Sorted(makers) && j < |makers|
    requires Crosses(taker, makers[j])
    ensures Crosses(taker, makers[0])
  {
    if j > 0 {
      assert Before(makers[0], makers[j]);
      assert Sound(makers[0]) && Sound(makers[j]);
      AtMostTransitive(Inverse(taker.price), makers[j].price, makers[0].price);
    }
  }

  /** An order behind another on the same side crosses only what that one crosses. */
  lemma BehindCrossesLess(front: Order, behind: Order, maker: Order)
    requires Positive(front.price) && Positive(behind.price) && Positive(maker.price)
    requires Before(front, behind) && Crosses(behind, maker)
    ensures Crosses(front, maker)
  {
    assert AtMost(Inverse(front.price), Inverse(behind.price));
    AtMostTransitive(Inverse(front.price), Inverse(behind.price), maker.price);
  }

  lemma UncrossedIsSymmetric(a: seq<Order>, b: seq<Order>)
    requires Uncrossed(a, b)
    ensures Uncrossed(b, a)
  {
    forall i, j | 0 <= i < |b| && 0 <= j < |a|
      ensures !Crosses(b[i], a[j])
    {
      CrossesIsSymmetric(b[i], a[j]);
    }
  }

  /** An order placed behind another one cannot be the first to cross. */
  lemma BehindIsUncrossed(orders: seq<Order>, i: nat, makers: seq<Order>)
    requires 0 < i < |orders| && Sorted(orders) && AllSound(orders) && AllSound(makers)
    requires Uncrossed(orders[..i] + orders[i + 1..], makers)
    ensures Uncrossed(orders, makers)
  {
    var others := orders[..i] + orders[i + 1..];
    forall k, j | 0 <= k < |orders| && 0 <= j < |makers|
      ensures !Crosses(orders[k], makers[j])
    {
      if k == i {
        assert others[0] == orders[0];
        assert Sound(orders[0]) && Sound(orders[i]) && Sound(makers[j]);
        if Crosses(orders[i], makers[j]) {
          BehindCrossesLess(orders[0], orders[i], makers[j]);
        }
      } else {
        var k' := if k < i then k else k - 1;
        assert others[k'] == orders[k];
      }
    }
  }

  // ----- what a run of matches does to the book -----

  function AfterFill(o: Order, pays: nat): Order
    requires pays <= o.forSale
  {
    o.(forSale := o.forSale - pays, deferredFee := 0, deferredPaidFee := 0)
  }

  function Without<T>(s: seq<T>, i: nat): seq<T>
    requires i < |s|
  {
    s[..i] + s[i + 1..]
  }

  lemma {:induction false} InsertSound(orders: seq<Order>, i: nat, o: Order)
    requires AllSound(orders) && Sound(o) && i <= |orders|
    ensures AllSound(orders[..i] + [o] + orders[i..])
    ensures Without(orders[..i] + [o] + orders[i..], i) == orders
  {
  }

  /** Whether a fill takes the order off the book. */
  predicate FillRemoves(o: Order, pays: nat, cull: bool)
    requires pays <= o.forSale && Positive(o.price)
  {
    pays == o.forSale || (cull && Spent(o, pays))
  }

  /** The best order of a side after it has paid as a maker. */
  function AfterMakerPays(makers: seq<Order>, pays: nat): seq<Order>
    requires makers != [] && pays <= makers[0].forSale && Positive(makers[0].price)
  {
    if FillRemoves(makers[0], pays, true) then makers[1..] else makers[0 := AfterFill(makers[0], pays)]
  }

  /** A new best order meets the makers one by one: the rest of it, if any, and the makers left. */
  ghost function Sweep(taker: Order, makers: seq<Order>): (r: (Option<Order>, seq<Order>))
    requires Positive(taker.price) && AllSound(makers)
    ensures r.0.Some? ==> r.0.value.price == taker.price
    decreases |makers|
  {
    if makers == [] || !Crosses(taker, makers[0]) then
      (Some(taker), makers)
    else
      AmountsFit(taker, makers[0]);
      var x := Amounts(taker, makers[0]);
      if x.NoExchange? then
        (Some(taker), makers)
      else if x.cullTaker then
        (None, AfterMakerPays(makers, x.makerPays))
      else
        Sweep(AfterFill(taker, x.takerPays), makers[1..])
  }

  /** The makers are consumed in price-time order: those touched cross the taker and are gone,
      except that the last may be left in part. */
  predicate PrefixConsumed(taker: Order, makers: seq<Order>, left: seq<Order>) {
    && |left| <= |makers|
    && var gone := |makers| - |left|;
    && (forall j :: 0 <= j < gone ==> Crosses(taker, makers[j]))
    && (forall j :: 0 < j < |left| ==> left[j] == makers[gone + j])
    && (left != [] && left[0] != makers[gone] ==>
          && Crosses(taker, makers[gone])
          && left[0].forSale < makers[gone].forSale
          && left[0] == AfterFill(makers[gone], makers[gone].forSale - left[0].forSale))
  }

  /** What is left of the taker is the same order, and only dust if it still meets a maker. */
  predicate RestOf(taker: Order, rest: Order, left: seq<Order>)
    requires Positive(rest.price)
  {
    && rest.price == taker.price && rest.id == taker.id && rest.seller == taker.seller
    && rest.forSale <= taker.forSale
    && (ToReceive(rest) == 0 || forall j :: 0 <= j < |left| ==> !Crosses(taker, left[j]))
  }

  lemma {:induction false} SweepConsumesAPrefix(taker: Order, makers: seq<Order>)
    requires Positive(taker.price) && AllSound(makers) && Sorted(makers)
    ensures var (rest, left) := Sweep(taker, makers);
            && AllSound(left)
            && PrefixConsumed(taker, makers, left)
            && (left != [] && left[0] != makers[|makers| - |left|] ==> rest.None?)
            && (rest.Some? ==> Positive(rest.value.price) && RestOf(taker, rest.value, left))
    decreases |makers|
  {
    if makers == [] {
    } else if !Crosses(taker, makers[0]) {
      forall j | 0 <= j < |makers|
        ensures !Crosses(taker, makers[j])
      {
        if Crosses(taker, makers[j]) {
          BestDecides(taker, makers, j);
        }
      }
    } else {
      AmountsFit(taker, makers[0]);
      var x := Amounts(taker, makers[0]);
      if x.Exchange? && !x.cullTaker {
        SweepAfterAMaker(taker, makers, AfterFill(taker, x.takerPays));
      }
    }
  }

  lemma SweepAfterAMaker(taker: Order, makers: seq<Order>, next: Order)
    requires Positive(taker.price) && AllSound(makers) && Sorted(makers) && makers != []
    requires Crosses(taker, makers[0])
    requires next.price == taker.price && next.id == taker.id && next.seller == taker.seller
    requires next.forSale <= taker.forSale
    ensures var (rest, left) := Sweep(next, makers[1..]);
            && AllSound(left)
            && PrefixConsumed(taker, makers, left)
            && (left != [] && left[0] != makers[|makers| - |left|] ==> rest.None?)
            && (rest.Some? ==> Positive(rest.value.price) && RestOf(taker, rest.value, left))
    decreases |makers|, 0
  {
    SweepConsumesAPrefix(next, makers[1..]);
    var left := Sweep(next, makers[1..]).1;
    OneMoreConsumed(taker, next, makers, left);
    assert forall j :: 0 <= j < |left| ==> Crosses(next, left[j]) == Crosses(taker, left[j]);
  }

  lemma {:induction false} OneMoreConsumed(taker: Order, next: Order, makers: seq<Order>, left: seq<Order>)
    requires makers != [] && Crosses(taker, makers[0]) && next.price == taker.price
    requires PrefixConsumed(next, makers[1..], left)
    ensures PrefixConsumed(taker, makers, left)
  {
    forall j | 0 <= j < |makers| - |left|
      ensures Crosses(taker, makers[j])
    {
      if j > 0 {
        assert Crosses(next, makers[1..][j - 1]);
      }
    }
  }

  /** Of two makers the one with the better price, or the older one at the same price, is gone before
      the other is touched. */
  lemma {:induction false} OlderIsFilledFirst(taker: Order, makers: seq<Order>, i: nat, j: nat)
    requires Positive(taker.price) && AllSound(makers) && Sorted(makers) && i < |makers| && j < |makers|
    requires var p, q := makers[i].price, makers[j].price;
             || p.base * q.quote > q.base * p.quote
             || (p.base * q.quote == q.base * p.quote && makers[i].id < makers[j].id)
    ensures var left := Sweep(taker, makers).1;
            var gone := |makers| - |left|;
            && 0 <= gone
            && (forall k :: gone < k < |makers| ==> left[k - gone] == makers[k])
            && (j < gone || (j == gone && left[0] != makers[gone]) ==> i < gone)
  {
    BetterOrOlderIsInFront(makers, i, j);
    SweepConsumesAPrefix(taker, makers);
  }

  /** If the rest of the side did not cross the makers, the swept book does not either. */
  lemma UncrossedAfterSweep(takers: seq<Order>, makers: seq<Order>)
    requires takers != [] && Sound(takers[0]) && AllSound(takers) && AllSound(makers) && Sorted(makers)
    requires Uncrossed(takers[1..], makers)
    ensures var (rest, left) := Sweep(takers[0], makers);
            && Uncrossed(takers[1..], left)
            && (rest.Some? ==> Positive(rest.value.price))
            && (rest.Some? && ToReceive(rest.value) > 0 ==> Uncrossed(takers[0 := rest.value], left))
  {
    SweepConsumesAPrefix(takers[0], makers);
    var (rest, left) := Sweep(takers[0], makers);
    var gone := |makers| - |left|;
    forall i, j | 0 <= i < |takers[1..]| && 0 <= j < |left|
      ensures !Crosses(takers[1..][i], left[j])
    {
      assert left[j].price == makers[gone + j].price;
      assert !Crosses(takers[1..][i], makers[gone + j]);
    }
    if rest.Some? && ToReceive(rest.value) > 0 {
      var now := takers[0 := rest.value];
      forall i, j | 0 <= i < |now| && 0 <= j < |left|
        ensures !Crosses(now[i], left[j])
      {
        if i > 0 {
          assert now[i] == takers[1..][i - 1];
        } else {
          assert Crosses(now[0], left[j]) == Crosses(takers[0], left[j]);
        }
      }
    }
  }

  lemma UncrossedBothWays(a: seq<Order>, b: seq<Order>)
    ensures Uncrossed(a, b) <==> Uncrossed(b, a)
  {
    if Uncrossed(a, b) {
      UncrossedIsSymmetric(a, b);
    }
    if Uncrossed(b, a) {
      UncrossedIsSymmetric(b, a);
    }
  }

  /** A new order asks for exactly the quote of its price, so it is not dust. */
  lemma NewOrderAsksForItsQuote(o: Order)
    requires o.price.base == o.forSale > 0 && o.price.quote > 0
    ensures ToReceive(o) == o.price.quote
  {
    ConvertGalois(o.forSale, o.price, o.price.quote);
    ConvertGalois(o.forSale, o.price, o.price.quote + 1);
    MulLt(o.price.quote, o.price.quote + 1, o.price.base);
  }

  /** A newest order goes after the ones before it and before all the others. */
  lemma InsertSorted(orders: seq<Order>, i: nat, o: Order)
    requires Sorted(orders) && i <= |orders| && Positive(o.price)
    requires forall j :: 0 <= j < |orders| ==> Positive(orders[j].price) && orders[j].id < o.id
    requires forall j :: 0 <= j < i ==> Before(orders[j], o)
    requires i < |orders| ==> !Before(orders[i], o)
    ensures Sorted(orders[..i] + [o] + orders[i..])
  {
    var now := orders[..i] + [o] + orders[i..];
    forall j | i <= j < |orders|
      ensures Before(o, orders[j])
    {
      assert Below(orders[i].price, o.price);
      if j > i {
        assert Before(orders[i], orders[j]);
        if AtMost(o.price, orders[j].price) {
          AtMostTransitive(o.price, orders[j].price, orders[i].price);
        }
      }
    }
    forall j, k | 0 <= j < k < |now|
      ensures Before(now[j], now[k])
    {
      if j < i && k > i {
        assert now[j] == orders[j] && now[k] == orders[k - 1];
      } else if j > i {
        assert now[j] == orders[j - 1] && now[k] == orders[k - 1];
      }
    }
  }

  /** Changing an order but not its price or id keeps a side sorted, and so does taking one out. */
  lemma {:induction false} SortedReplace(orders: seq<Order>, i: nat, o: Order)
    requires Sorted(orders) && i < |orders| && o.price == orders[i].price && o.id == orders[i].id
    ensures Sorted(orders[i := o])
  {
    var now := orders[i := o];
    forall j, k | 0 <= j < k < |now|
      ensures Before(now[j], now[k])
    {
      assert Before(orders[j], orders[k]);
    }
  }

  lemma {:induction false} SortedWithout(orders: seq<Order>, i: nat)
    requires Sorted(orders) && i < |orders|
    ensures Sorted(Without(orders, i))
  {
    var less := Without(orders, i);
    forall j, k | 0 <= j < k < |less|
      ensures Before(less[j], less[k])
    {
      assert Before(orders[if j < i then j else j + 1], orders[if k < i then k else k + 1]);
    }
  }

  lemma {:induction false} SortedSuffix(orders: seq<Order>, n: nat)
    requires Sorted(orders) && n <= |orders|
    ensures Sorted(orders[n..])
  {
    var last := orders[n..];
    forall j, k | 0 <= j < k < |last|
      ensures Before(last[j], last[k])
    {
      assert Before(orders[n + j], orders[n + k]);
    }
  }

  lemma {:induction false} SortedAfterSweep(takers: seq<Order>, makers: seq<Order>)
    requires takers != [] && Sound(takers[0]) && AllSound(makers) && Sorted(takers) && Sorted(makers)
    ensures var (rest, left) := Sweep(takers[0], makers);
            && Sorted(left) && Sorted(takers[1..])
            && (rest.Some? ==> Sorted(takers[0 := rest.value]))
  {
    SweepConsumesAPrefix(takers[0], makers);
    var (rest, left) := Sweep(takers[0], makers);
    var gone := |makers| - |left|;
    SortedSuffix(takers, 1);
    SortedSuffix(makers, gone);
    if left != [] {
      SortedReplace(makers[gone..], 0, left[0]);
      assert left == makers[gone..][0 := left[0]];
    }
    if rest.Some? {
      SortedReplace(takers, 0, rest.value);
    }
  }

  /** Once the dust is culled, the swept book is at rest. */
  lemma BookAfterSweep(takers: seq<Order>, makers: seq<Order>, takers': seq<Order>, makers': seq<Order>)
    requires takers != [] && Sound(takers[0]) && AllSound(takers) && AllSound(makers)
    requires Sorted(takers) && Sorted(makers) && Uncrossed(takers[1..], makers)
    requires var (rest, left) := Sweep(takers[0], makers);
             && makers' == left
             && takers' == if rest.None? || ToReceive(rest.value) == 0 then takers[1..] else takers[0 := rest.value]
    requires forall i :: 0 <= i < |takers'| ==> Live(takers'[i])
    ensures Sorted(takers') && Sorted(makers') && AllSound(takers') && AllSound(makers')
    ensures Uncrossed(takers', makers') && Uncrossed(makers', takers')
  {
    SweepConsumesAPrefix(takers[0], makers);
    SortedAfterSweep(takers, makers);
    UncrossedAfterSweep(takers, makers);
    UncrossedIsSymmetric(takers', makers');
    forall i | 0 <= i < |takers'|
      ensures Sound(takers'[i])
    {
      if |takers'| == |takers| {
        assert i > 0 ==> takers'[i] == takers[i];
      } else {
        assert takers'[i] == takers[i + 1];
      }
    }
  }

  /** Dropping an order, or reducing it to one that is sound at the same price, keeps the
      book sound and uncrossed. */
  lemma ReplaceKeepsUncrossed(orders: seq<Order>, i: nat, o: Order, others: seq<Order>)
    requires i < |orders| && AllSound(orders) && Uncrossed(orders, others)
    ensures AllSound(Without(orders, i)) && Uncrossed(Without(orders, i), others)
    ensures Uncrossed(others, Without(orders, i))
    ensures Sound(o) && o.price == orders[i].price ==>
      AllSound(orders[i := o]) && Uncrossed(orders[i := o], others) && Uncrossed(others, orders[i := o])
  {
    var less, now := Without(orders, i), orders[i := o];
    forall j | 0 <= j < |less|
      ensures Sound(less[j]) && forall k :: 0 <= k < |others| ==> !Crosses(less[j], others[k])
    {
      assert less[j] == orders[if j < i then j else j + 1];
    }
    UncrossedIsSymmetric(less, others);
    if Sound(o) && o.price == orders[i].price {
      forall j, k | 0 <= j < |now| && 0 <= k < |others|
        ensures !Crosses(now[j], others[k])
      {
        assert !Crosses(orders[j], others[k]);
      }
      UncrossedIsSymmetric(now, others);
    }
  }
}
