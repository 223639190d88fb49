/** Sums over the object tables of the source, which are finite maps by object id. */
module Sums {

  ghost function Pick<K(!new), V(!new)>(m: map<K, V>): (k: K)
    requires m != map[]
    ensures k in m
  {
    var k :| k in m; k
  }

  ghost function Sum<K(!new), V(!new)>(m: map<K, V>, f: (K, V) -> int): int
    decreases |m|, 1
  {
    if m == map[] then 0 else SumFrom(m, f, Pick(m))
  }

  ghost function SumFrom<K(!new), V(!new)>(m: map<K, V>, f: (K, V) -> int, k: K): int
    requires k in m
    decreases |m|, 0
  {
    Smaller(m, k);
    f(k, m[k]) + Sum(m - {k}, f)
  }

  lemma Smaller<K(!new), V(!new)>(m: map<K, V>, k: K)
    requires k in m
    ensures |m - {k}| < |m|
  {
    assert m.Keys == (m - {k}).Keys + {k};
  }

  /** Any entry may be taken out first. */
  lemma {:induction false} SumSplit<K(!new), V(!new)>(m: map<K, V>, f: (K, V) -> int, k: K)
    requires k in m
    ensures Sum(m, f) == f(k, m[k]) + Sum(m - {k}, f)
    decreases |m|
  {
    var j := Pick(m);
    assert Sum(m, f) == SumFrom(m, f, j);
    if j != k {
      Smaller(m, j);
      Smaller(m, k);
      SumSplit(m - {j}, f, k);
      SumSplit(m - {k}, f, j);
      assert m - {j} - {k} == m - {k} - {j};
    }
  }

  lemma SumPut<K(!new), V(!new)>(m: map<K, V>, f: (K, V) -> int, k: K, v: V)
    ensures Sum(m[k := v], f) == Sum(m, f) - (if k in m then f(k, m[k]) else 0) + f(k, v)
  {
    var n := m[k := v];
    SumSplit(n, f, k);
    assert n - {k} == m - {k};
    if k in m {
      SumSplit(m, f, k);
    } else {
      assert m - {k} == m;
    }
  }

  lemma SumRemove<K(!new), V(!new)>(m: map<K, V>, f: (K, V) -> int, k: K)
    requires k in m
    ensures Sum(m - {k}, f) == Sum(m, f) - f(k, m[k])
  {
    SumSplit(m, f, k);
  }

  lemma {:induction false} SumNonNegative<K(!new), V(!new)>(m: map<K, V>, f: (K, V) -> int)
    requires forall k :: k in m ==> f(k, m[k]) >= 0
    ensures Sum(m, f) >= 0
    ensures forall k :: k in m ==> f(k, m[k]) <= Sum(m, f)
    decreases |m|
  {
    forall k | k in m
      ensures 0 <= f(k, m[k]) <= Sum(m, f)
    {
      Smaller(m, k);
      SumNonNegative(m - {k}, f);
      SumSplit(m, f, k);
    }
  }

  /** If no entry contributes, the sum is zero. */
  lemma {:induction false} SumZero<K(!new), V(!new)>(m: map<K, V>, f: (K, V) -> int)
    requires forall k :: k in m ==> f(k, m[k]) == 0
    ensures Sum(m, f) == 0
    decreases |m|
  {
    if m != map[] {
      var k :| k in m;
      Smaller(m, k);
      SumSplit(m, f, k);
      SumZero(m - {k}, f);
    }
  }

  ghost function SumSeq<T(!new)>(s: seq<T>, f: T -> int): int
    decreases |s|, 1
  {
    if s == [] then 0 else SumSeqFrom(s, f)
  }

  ghost function SumSeqFrom<T(!new)>(s: seq<T>, f: T -> int): int
    requires s != []
    decreases |s|, 0
  {
    f(s[0]) + SumSeq(s[1..], f)
  }

  lemma {:induction false} SumSeqConcat<T(!new)>(a: seq<T>, b: seq<T>, f: T -> int)
    ensures SumSeq(a + b, f) == SumSeq(a, f) + SumSeq(b, f)
  {
    if a == [] {
      assert a + b == b;
    } else {
      SumSeqConcat(a[1..], b, f);
      assert (a + b)[1..] == a[1..] + b;
    }
  }

  /** Replacing one element, or dropping it. */
  lemma SumSeqReplace<T(!new)>(s: seq<T>, i: nat, x: T, f: T -> int)
    requires i < |s|
    ensures SumSeq(s[i := x], f) == SumSeq(s, f) - f(s[i]) + f(x)
    ensures SumSeq(s[..i] + s[i + 1..], f) == SumSeq(s, f) - f(s[i])
  {
    var front, back := s[..i], s[i + 1..];
    assert s == front + ([s[i]] + back);
    assert s[i := x] == front + ([x] + back);
    SumSeqConcat(front, [s[i]] + back, f);
    SumSeqConcat(front, [x] + back, f);
    SumSeqConcat(front, back, f);
    assert ([s[i]] + back)[1..] == back && ([x] + back)[1..] == back;
  }

  lemma SumSeqInsert<T(!new)>(s: seq<T>, i: nat, x: T, f: T -> int)
    requires i <= |s|
    ensures SumSeq(s[..i] + [x] + s[i..], f) == SumSeq(s, f) + f(x)
  {
    var front, back := s[..i], s[i..];
    assert s == front + back && front + [x] + back == front + ([x] + back);
    SumSeqConcat(front, back, f);
    SumSeqConcat(front, [x] + back, f);
    assert ([x] + back)[1..] == back;
  }

  lemma {:induction false} SumSeqNonNegative<T(!new)>(s: seq<T>, f: T -> int)
    requires forall x :: x in s ==> f(x) >= 0
    ensures SumSeq(s, f) >= 0
  {
    if s != [] {
      assert SumSeq(s, f) == SumSeqFrom(s, f);
      SumSeqNonNegative(s[1..], f);
    }
  }
}
