/** The median of the price feeds of a smartcoin, taken field by field. */
module MedianFeeds {
  import opened Options
  import opened Prices

  const FIXED_INITIAL_COLLATERAL_RATIO := 2000

  // ----- medians -----

  ghost function Count<T>(s: seq<T>, p: T -> bool): (n: nat)
    ensures n <= |s|
  {
    if s == [] then 0 else (if p(s[0]) then 1 else 0) + Count(s[1..], p)
  }

  lemma {:induction false} CountConcat<T>(a: seq<T>, b: seq<T>, p: T -> bool)
    ensures Count(a + b, p) == Count(a, p) + Count(b, p)
  {
    if a == [] {
      assert a + b == b;
    } else {
      CountConcat(a[1..], b, p);
      assert (a + b)[1..] == a[1..] + b;
    }
  }

  lemma {:induction false} CountAll<T>(s: seq<T>, p: T -> bool)
    requires forall i :: 0 <= i < |s| ==> p(s[i])
    ensures Count(s, p) == |s|
  {
    if s != [] {
      CountAll(s[1..], p);
    }
  }

  lemma {:induction false} WithoutOne<T>(s: seq<T>, j: nat)
    requires j < |s|
    ensures multiset(s[..j] + s[j + 1..]) == multiset(s) - multiset{s[j]}
  {
    assert s == s[..j] + [s[j]] + s[j + 1..];
  }

  lemma {:induction false} CountWithout<T>(s: seq<T>, j: nat, p: T -> bool)
    requires j < |s|
    ensures Count(s, p) == Count(s[..j] + s[j + 1..], p) + if p(s[j]) then 1 else 0
  {
    assert s == s[..j] + ([s[j]] + s[j + 1..]);
    CountConcat(s[..j], [s[j]] + s[j + 1..], p);
    CountConcat(s[..j], s[j + 1..], p);
    assert ([s[j]] + s[j + 1..])[1..] == s[j + 1..];
  }

  lemma {:induction false} SameWithout<T>(s: seq<T>, t: seq<T>, j: nat)
    requires multiset(s) == multiset(t) && s != [] && j < |t| && t[j] == s[0]
    ensures multiset(s[1..]) == multiset(t[..j] + t[j + 1..])
  {
    WithoutOne(s, 0);
    WithoutOne(t, j);
    assert s[..0] + s[1..] == s[1..];
  }

  /** The order of the elements does not matter. */
  lemma {:induction false} CountPermuted<T>(s: seq<T>, t: seq<T>, p: T -> bool)
    requires multiset(s) == multiset(t)
    ensures Count(s, p) == Count(t, p)
    decreases |s|
  {
    if s == [] {
      assert |multiset(t)| == 0;
    } else {
      assert s[0] in multiset(t);
      var j :| 0 <= j < |t| && t[j] == s[0];
      SameWithout(s, t, j);
      CountPermuted(s[1..], t[..j] + t[j + 1..], p);
      CountWithout(t, j, p);
    }
  }

  /** Two properties that together hold more often than there are elements share one. */
  lemma {:induction false} Overlap<T>(s: seq<T>, p: T -> bool, q: T -> bool)
    requires Count(s, p) + Count(s, q) > |s|
    ensures exists i :: 0 <= i < |s| && p(s[i]) && q(s[i])
  {
    if p(s[0]) && q(s[0]) {
      assert p(s[0]) && q(s[0]);
    } else {
      Overlap(s[1..], p, q);
      var i :| 0 <= i < |s[1..]| && p(s[1..][i]) && q(s[1..][i]);
      assert p(s[i + 1]) && q(s[i + 1]);
    }
  }

  /** One of the elements, with enough on either side of it. */
  ghost predicate IsMedian<T>(s: seq<T>, atMost: (T, T) -> bool, m: T) {
    && m in s
    && Count(s, x => atMost(x, m)) >= |s| / 2 + 1
    && Count(s, x => atMost(m, x)) >= |s| - |s| / 2
  }

  /** A total preorder on the elements. */
  ghost predicate Orders<T(!new)>(s: seq<T>, atMost: (T, T) -> bool) {
    && (forall x, y :: x in s && y in s ==> atMost(x, y) || atMost(y, x))
    && (forall x, y, z :: x in s && y in s && z in s && atMost(x, y) && atMost(y, z) ==> atMost(x, z))
  }

  /** A strict majority reaches from one side of the median to the other. */
  lemma MajorityReachesTheMedian<T>(s: seq<T>, atMost: (T, T) -> bool, m: T, inside: T -> bool) returns (x: T, y: T)
    requires IsMedian(s, atMost, m) && Count(s, inside) > |s| / 2
    ensures x in s && inside(x) && atMost(x, m)
    ensures y in s && inside(y) && atMost(m, y)
  {
    Overlap(s, inside, z => atMost(z, m));
    Overlap(s, inside, z => atMost(m, z));
    var i :| 0 <= i < |s| && inside(s[i]) && atMost(s[i], m);
    var j :| 0 <= j < |s| && inside(s[j]) && atMost(m, s[j]);
    x, y := s[i], s[j];
  }

  // ----- std::nth_element -----

  /** The element at a position is the one that belongs there. */
  ghost predicate Placed<T>(s: seq<T>, n: nat, atMost: (T, T) -> bool) {
    && n < |s|
    && (forall i :: 0 <= i <= n ==> atMost(s[i], s[n]))
    && (forall i :: n <= i < |s| ==> atMost(s[n], s[i]))
  }

  lemma PlacedIsMedian<T>(s: seq<T>, t: seq<T>, atMost: (T, T) -> bool)
    requires multiset(s) == multiset(t) && |s| == |t| && Placed(t, |t| / 2, atMost)
    ensures IsMedian(s, atMost, t[|t| / 2])
  {
    var n, m := |t| / 2, t[|t| / 2];
    var below, above := (x: T) => atMost(x, m), (x: T) => atMost(m, x);
    CountPermuted(s, t, below);
    CountPermuted(s, t, above);
    assert t == t[..n + 1] + t[n + 1..] && t == t[..n] + t[n..];
    CountConcat(t[..n + 1], t[n + 1..], below);
    CountConcat(t[..n], t[n..], above);
    CountAll(t[..n + 1], below);
    CountAll(t[n..], above);
    assert m in multiset(t);
    assert m in multiset(s);
  }

  /** Where the least of the elements from `i` on is. */
  method FindLeast<T(!new)>(a: array<T>, i: nat, atMost: (T, T) -> bool) returns (least: nat)
    requires i < a.Length && Orders(a[..], atMost)
    ensures i <= least < a.Length
    ensures forall k :: i <= k < a.Length ==> atMost(a[least], a[k])
  {
    least := i;
    assert a[i] in a[..];
    for j := i + 1 to a.Length
      invariant i <= least < a.Length
      invariant forall k :: i <= k < j ==> atMost(a[least], a[k])
    {
      assert a[j] in a[..] && a[least] in a[..];
      if !atMost(a[least], a[j]) {
        forall k | i <= k < j
          ensures atMost(a[j], a[k])
        {
          assert a[k] in a[..];
        }
        least := j;
      }
    }
  }

  /** The first `i` elements are in order, and before all others. */
  ghost predicate Selected<T>(s: seq<T>, i: nat, atMost: (T, T) -> bool) {
    i <= |s| && forall k, l :: 0 <= k < i && k <= l < |s| ==> atMost(s[k], s[l])
  }

  function Swapped<T>(s: seq<T>, i: nat, j: nat): (r: seq<T>)
    requires i <= j < |s|
    ensures multiset(r) == multiset(s)
  {
    s[i := s[j]][j := s[i]]
  }

  lemma SelectedNext<T>(s: seq<T>, i: nat, least: nat, atMost: (T, T) -> bool)
    requires Selected(s, i, atMost) && i <= least < |s|
    requires forall k :: i <= k < |s| ==> atMost(s[least], s[k])
    ensures Selected(Swapped(s, i, least), i + 1, atMost)
  {
    var r := Swapped(s, i, least);
    forall k, l | 0 <= k < i + 1 && k <= l < |r|
      ensures atMost(r[k], r[l])
    {
      var l' := if l == i then least else if l == least then i else l;
      assert r[l] == s[l'];
      assert r[k] == s[if k == i then least else k];
    }
  }

  /** A specification of `std::nth_element`, by selection: the first `n + 1` elements are put in
      their places. */
  method NthElement<T(!new)>(a: array<T>, n: nat, atMost: (T, T) -> bool)
    requires n < a.Length && Orders(a[..], atMost)
    modifies a
    ensures multiset(a[..]) == multiset(old(a[..]))
    ensures Placed(a[..], n, atMost)
  {
    ghost var was := a[..];
    for i := 0 to n + 1
      invariant multiset(a[..]) == multiset(was)
      invariant Selected(a[..], i, atMost)
    {
      SameOrder(was, a[..], atMost);
      var least := FindLeast(a, i, atMost);
      ghost var now := a[..];
      SelectedNext(now, i, least, atMost);
      a[i], a[least] := a[least], a[i];
      assert a[..] == Swapped(now, i, least);
    }
  }

  lemma SameOrder<T(!new)>(s: seq<T>, t: seq<T>, atMost: (T, T) -> bool)
    requires Orders(s, atMost) && multiset(s) == multiset(t)
    ensures Orders(t, atMost)
  {
    forall x | x in t
      ensures x in s
    {
      assert x in multiset(t);
      assert x in multiset(s);
    }
  }

  // ----- the feeds of a smartcoin -----

  /** The core exchange rate may be left out. */
  datatype Values = Values(settlement: Price, cer: Option<Price>, mcr: nat, mssr: nat, icr: nat)

  datatype Feed = Feed(published: nat, values: Values)

  datatype FeedOptions = FeedOptions(lifetime: nat, minimumFeeds: nat, mcr: Option<nat>, mssr: Option<nat>,
                                     icr: Option<nat>)

  predicate BySettlement(x: Values, y: Values) { AtMost(x.settlement, y.settlement) }
  predicate ByCer(x: Values, y: Values) { RateAtMost(x.cer, y.cer) }
  predicate ByMcr(x: Values, y: Values) { x.mcr <= y.mcr }
  predicate ByMssr(x: Values, y: Values) { x.mssr <= y.mssr }
  predicate ByIcr(x: Values, y: Values) { x.icr <= y.icr }

  /** An exchange rate that is left out comes before all others: a null price names asset 0, and
      every other rate of a feed names the coin first. */
  predicate RateAtMost(x: Option<Price>, y: Option<Price>) {
    x.None? || (y.Some? && AtMost(x.value, y.value))
  }

  predicate GoodRate(cer: Option<Price>) {
    cer.Some? ==> Positive(cer.value)
  }

  lemma RateAtMostTransitive(x: Option<Price>, y: Option<Price>, z: Option<Price>)
    requires GoodRate(x) && GoodRate(y) && GoodRate(z) && RateAtMost(x, y) && RateAtMost(y, z)
    ensures RateAtMost(x, z)
  {
    if x.Some? {
      AtMostTransitive(x.value, y.value, z.value);
    }
  }

  predicate GoodValues(v: Values) {
    Positive(v.settlement) && GoodRate(v.cer)
  }

  predicate IsLive(f: Feed, now: nat, lifetime: nat) {
    now - f.published < lifetime && f.published != 0
  }

  lemma PricesAreOrdered(s: seq<Values>)
    requires forall v :: v in s ==> GoodValues(v)
    ensures Orders(s, BySettlement) && Orders(s, ByCer)
  {
    forall x, y, z | x in s && y in s && z in s && BySettlement(x, y) && BySettlement(y, z)
      ensures BySettlement(x, z)
    {
      AtMostTransitive(x.settlement, y.settlement, z.settlement);
    }
    forall x, y, z | x in s && y in s && z in s && ByCer(x, y) && ByCer(y, z)
      ensures ByCer(x, z)
    {
      RateAtMostTransitive(x.cer, y.cer, z.cer);
    }
  }

  /** What a field of the median feed is, when the options may give its value. */
  ghost predicate RatioIs(r: nat, given: Option<nat>, live: seq<Values>, atMost: (Values, Values) -> bool,
                          ratio: Values -> nat) {
    if given.Some? then r == given.value else exists m :: IsMedian(live, atMost, m) && r == ratio(m)
  }

  /** If most live feeds put the settlement price between two bounds then so does the median. */
  lemma MajorityHoldsTheSettlementPrice(live: seq<Values>, m: Values, low: Price, high: Price)
    requires (forall v :: v in live ==> GoodValues(v)) && Positive(low) && Positive(high)
    requires IsMedian(live, BySettlement, m)
    requires Count(live, (v: Values) => AtMost(low, v.settlement) && AtMost(v.settlement, high)) > |live| / 2
    ensures AtMost(low, m.settlement) && AtMost(m.settlement, high)
  {
    var x, y := MajorityReachesTheMedian(live, BySettlement, m,
                                         (v: Values) => AtMost(low, v.settlement) && AtMost(v.settlement, high));
    AtMostTransitive(low, x.settlement, m.settlement);
    AtMostTransitive(m.settlement, y.settlement, high);
  }

  /** The same for the core exchange rate, which most feeds may leave out as well. */
  lemma MajorityHoldsTheExchangeRate(live: seq<Values>, m: Values, low: Option<Price>, high: Option<Price>)
    requires (forall v :: v in live ==> GoodValues(v)) && GoodRate(low) && GoodRate(high)
    requires IsMedian(live, ByCer, m)
    requires Count(live, (v: Values) => RateAtMost(low, v.cer) && RateAtMost(v.cer, high)) > |live| / 2
    ensures RateAtMost(low, m.cer) && RateAtMost(m.cer, high)
  {
    var x, y := MajorityReachesTheMedian(live, ByCer, m,
                                         (v: Values) => RateAtMost(low, v.cer) && RateAtMost(v.cer, high));
    RateAtMostTransitive(low, x.cer, m.cer);
    RateAtMostTransitive(m.cer, y.cer, high);
  }

  /** The same for the ratios, whichever is meant. */
  lemma MajorityHoldsTheRatio(live: seq<Values>, m: Values, ratio: Values -> nat, atMost: (Values, Values) -> bool,
                              low: nat, high: nat)
    requires forall x, y :: atMost(x, y) <==> ratio(x) <= ratio(y)
    requires IsMedian(live, atMost, m)
    requires Count(live, (v: Values) => low <= ratio(v) <= high) > |live| / 2
    ensures low <= ratio(m) <= high
  {
    var x, y := MajorityReachesTheMedian(live, atMost, m, (v: Values) => low <= ratio(v) <= high);
  }

  /** That is so for the ratios by which the feeds are put in order. */
  lemma MajorityHoldsEachRatio(live: seq<Values>, m: Values, low: nat, high: nat)
    ensures IsMedian(live, ByMcr, m) && Count(live, (v: Values) => low <= v.mcr <= high) > |live| / 2 ==>
      low <= m.mcr <= high
    ensures IsMedian(live, ByMssr, m) && Count(live, (v: Values) => low <= v.mssr <= high) > |live| / 2 ==>
      low <= m.mssr <= high
    ensures IsMedian(live, ByIcr, m) && Count(live, (v: Values) => low <= v.icr <= high) > |live| / 2 ==>
      low <= m.icr <= high
  {
    if IsMedian(live, ByMcr, m) && Count(live, (v: Values) => low <= v.mcr <= high) > |live| / 2 {
      var x, y := MajorityReachesTheMedian(live, ByMcr, m, (v: Values) => low <= v.mcr <= high);
    }
    if IsMedian(live, ByMssr, m) && Count(live, (v: Values) => low <= v.mssr <= high) > |live| / 2 {
      var x, y := MajorityReachesTheMedian(live, ByMssr, m, (v: Values) => low <= v.mssr <= high);
    }
    if IsMedian(live, ByIcr, m) && Count(live, (v: Values) => low <= v.icr <= high) > |live| / 2 {
      var x, y := MajorityReachesTheMedian(live, ByIcr, m, (v: Values) => low <= v.icr <= high);
    }
  }

  /** A feed that was published lives until its lifetime is over. */
  lemma LivesUntil(f: Feed, now: nat, lifetime: nat)
    ensures IsLive(f, now, lifetime) <==> f.published > 0 && now < f.published + lifetime
  {
  }

  class BitassetFeeds {
    const isPredictionMarket: bool
    const options: FeedOptions
    /** By publisher. */
    var feeds: map<nat, Feed>
    var median: Option<Values>
    var publicationTime: nat

    constructor (isPredictionMarket: bool, options: FeedOptions)
      ensures feeds == map[] && median == None
      ensures this.isPredictionMarket == isPredictionMarket && this.options == options
    {
      this.isPredictionMarket := isPredictionMarket;
      this.options := options;
      feeds, median, publicationTime := map[], None, 0;
    }

    /** The feeds that are alive, and when the oldest of them was published. */
    method LiveFeeds(now: nat) returns (live: seq<Values>, oldest: nat, ghost who: seq<nat>)
      ensures |who| == |live|
      ensures forall i, j :: 0 <= i < j < |who| ==> who[i] != who[j]
      ensures forall k :: k in who <==> k in feeds && IsLive(feeds[k], now, options.lifetime)
      ensures forall i :: 0 <= i < |who| ==> live[i] == feeds[who[i]].values
      ensures oldest <= now && forall k :: k in who ==> oldest <= feeds[k].published
      ensures oldest == now || exists k :: k in who && feeds[k].published == oldest
    {
      live, oldest, who := [], now, [];
      var left := feeds.Keys;
      while left != {}
        invariant left <= feeds.Keys && |who| == |live|
        invariant forall i, j :: 0 <= i < j < |who| ==> who[i] != who[j]
        invariant forall k :: k in who <==> k in feeds && k !in left && IsLive(feeds[k], now, options.lifetime)
        invariant forall i :: 0 <= i < |who| ==> live[i] == feeds[who[i]].values
        invariant oldest <= now && forall k :: k in who ==> oldest <= feeds[k].published
        invariant oldest == now || exists k :: k in who && feeds[k].published == oldest
        decreases |left|
      {
        var k :| k in left;
        left := left - {k};
        if IsLive(feeds[k], now, options.lifetime) {
          live := live + [feeds[k].values];
          who := who + [k];
          assert who[|who| - 1] == k;
          if feeds[k].published < oldest {
            oldest := feeds[k].published;
          }
        }
      }
    }

    /** `CALCULATE_MEDIAN_VALUE`: the feed in the middle, by one of its fields. */
    method Middle(effective: array<Values>, ghost live: seq<Values>, atMost: (Values, Values) -> bool)
      returns (m: Values)
      requires effective.Length == |live| > 0 && multiset(effective[..]) == multiset(live) && Orders(live, atMost)
      modifies effective
      ensures multiset(effective[..]) == multiset(live)
      ensures IsMedian(live, atMost, m)
    {
      SameOrder(live, effective[..], atMost);
      NthElement(effective, effective.Length / 2, atMost);
      m := effective[effective.Length / 2];
      PlacedIsMedian(live, effective[..], atMost);
    }

    /** A ratio of the median feed, when the options may give its value. */
    method MiddleRatio(effective: array<Values>, ghost live: seq<Values>, given: Option<nat>,
                       atMost: (Values, Values) -> bool, ratio: Values -> nat) returns (r: nat)
      requires effective.Length == |live| > 0 && multiset(effective[..]) == multiset(live)
      requires forall x, y :: atMost(x, y) <==> ratio(x) <= ratio(y)
      modifies effective
      ensures multiset(effective[..]) == multiset(live)
      ensures RatioIs(r, given, live, atMost, ratio)
    {
      if given.Some? {
        return given.value;
      }
      var m := Middle(effective, live, atMost);
      r := ratio(m);
    }

    /** The medians of two or more feeds. */
    method Medians(live: seq<Values>) returns (v: Values)
      requires |live| > 1 && forall v :: v in live ==> GoodValues(v)
      ensures exists m :: IsMedian(live, BySettlement, m) && v.settlement == m.settlement
      ensures exists m :: IsMedian(live, ByCer, m) && v.cer == m.cer
      ensures RatioIs(v.mcr, options.mcr, live, ByMcr, (x: Values) => x.mcr)
      ensures RatioIs(v.mssr, options.mssr, live, ByMssr, (x: Values) => x.mssr)
      ensures if isPredictionMarket then RatioIs(v.icr, options.icr, live, ByIcr, (x: Values) => x.icr)
              else v.icr == FIXED_INITIAL_COLLATERAL_RATIO
    {
      PricesAreOrdered(live);
      var effective := new Values[|live|](i requires 0 <= i < |live| => live[i]);
      assert effective[..] == live;
      var bySettlement := Middle(effective, live, BySettlement);
      var byCer := Middle(effective, live, ByCer);
      var mcr := MiddleRatio(effective, live, options.mcr, ByMcr, (x: Values) => x.mcr);
      var mssr := MiddleRatio(effective, live, options.mssr, ByMssr, (x: Values) => x.mssr);
      var icr := MiddleRatio(effective, live, options.icr, ByIcr, (x: Values) => x.icr);
      if !isPredictionMarket {
        icr := FIXED_INITIAL_COLLATERAL_RATIO;
      }
      v := Values(bySettlement.settlement, byCer.cer, mcr, mssr, icr);
    }

    /** `update_median_feeds` */
    method UpdateMedianFeeds(now: nat) returns (ghost live: seq<Values>)
      requires options.minimumFeeds > 0
      requires forall k :: k in feeds ==> GoodValues(feeds[k].values)
      modifies this`median, this`publicationTime
      ensures exists who: seq<nat> ::
        && |who| == |live|
        && (forall i, j :: 0 <= i < j < |who| ==> who[i] != who[j])
        && (forall k :: k in who <==> k in feeds && IsLive(feeds[k], now, options.lifetime))
        && (forall i :: 0 <= i < |who| ==> live[i] == feeds[who[i]].values)
      ensures median.None? <==> |live| < options.minimumFeeds
      ensures median.None? ==> publicationTime == now
      ensures median.Some? ==>
        forall k :: k in feeds && IsLive(feeds[k], now, options.lifetime) ==> publicationTime <= feeds[k].published
      ensures median.Some? && |live| == 1 ==>
        var v, own := median.value, live[0];
        && v.settlement == own.settlement && v.cer == own.cer
        && v.mcr == (if options.mcr.Some? then options.mcr.value else own.mcr)
        && v.mssr == (if options.mssr.Some? then options.mssr.value else own.mssr)
        && v.icr == (if !isPredictionMarket then FIXED_INITIAL_COLLATERAL_RATIO
                     else if options.icr.Some? then options.icr.value else own.icr)
      ensures median.Some? && |live| > 1 ==>
        var v := median.value;
        && (exists m :: IsMedian(live, BySettlement, m) && v.settlement == m.settlement)
        && (exists m :: IsMedian(live, ByCer, m) && v.cer == m.cer)
        && RatioIs(v.mcr, options.mcr, live, ByMcr, (x: Values) => x.mcr)
        && RatioIs(v.mssr, options.mssr, live, ByMssr, (x: Values) => x.mssr)
        && if isPredictionMarket then RatioIs(v.icr, options.icr, live, ByIcr, (x: Values) => x.icr)
           else v.icr == FIXED_INITIAL_COLLATERAL_RATIO
    {
      var effective, oldest;
      ghost var who;
      effective, oldest, who := LiveFeeds(now);
      live := effective;
      publicationTime := oldest;
      if |effective| < options.minimumFeeds {
        publicationTime := now;
        median := None;
        return;
      }
      if |effective| == 1 {
        var v := effective[0];
        if options.mcr.Some? {
          v := v.(mcr := options.mcr.value);
        }
        if options.mssr.Some? {
          v := v.(mssr := options.mssr.value);
        }
        if !isPredictionMarket {
          v := v.(icr := FIXED_INITIAL_COLLATERAL_RATIO);
        } else if options.icr.Some? {
          v := v.(icr := options.icr.value);
        }
        median := Some(v);
        return;
      }
      var v := Medians(effective);
      median := Some(v);
    }
  }
}
