/** How two nodes find the last block they have in common: one sends ids of blocks at
    exponentially closer heights, the other answers with the blocks after the last id it knows. */
module Synopsis {
  import opened Options
  import opened Amounts
  import opened Rounding
  import opened Sequences

  /** An id contains the number of its block; no block has number zero. */
  datatype BlockId = BlockId(num: nat, hash: nat)

  const NO_BLOCK := BlockId(0, 0)

  /** The block number `n` of a chain is at index `n - 1`. */
  predicate GoodChain(chain: seq<BlockId>) {
    forall i :: 0 <= i < |chain| ==> chain[i].num == i + 1
  }

  /** `is_included_block` */
  predicate Included(chain: seq<BlockId>, id: BlockId) {
    0 < id.num <= |chain| && chain[id.num - 1] == id
  }

  function Pow2(k: nat): (p: nat)
    ensures p > 0
  {
    if k == 0 then 1 else 2 * Pow2(k - 1)
  }

  function BitLength(n: nat): nat {
    if n == 0 then 0 else 1 + BitLength(n / 2)
  }

  /** The height of the `k`-th entry: its distance to the end halves from entry to entry. */
  function HeightAt(low: nat, end: nat, k: nat): int
    requires low <= end + 1
  {
    end + 1 - (end + 1 - low) / Pow2(k)
  }

  lemma HalfOf(n: nat, k: nat)
    ensures n / Pow2(k + 1) == (n / Pow2(k)) / 2
  {
    var p := Pow2(k);
    var q, r := n / p, n % p;
    assert n == q * p + r;
    assert q == 2 * (q / 2) + q % 2;
    var r' := (q % 2) * p + r;
    assert n == (q / 2) * (2 * p) + r' by {
      assert (2 * (q / 2)) * p == (q / 2) * (2 * p);
    }
    assert 0 <= r' < 2 * p;
    DivisionIs(n, 2 * p, q / 2, r');
  }

  /** The step of the loop is the step from one height to the next. */
  lemma NextHeight(low: nat, end: nat, k: nat)
    requires low <= end + 1 && HeightAt(low, end, k) <= end
    ensures var h := HeightAt(low, end, k);
            && low <= h
            && HeightAt(low, end, k + 1) == h + (end - h + 2) / 2
  {
    HalfOf(end + 1 - low, k);
    AtMostWhole(end + 1 - low, Pow2(k));
  }

  lemma AtMostWhole(n: nat, p: nat)
    requires p > 0
    ensures n / p <= n
  {
    MulLe(1, p, Floor(n, p));
  }

  lemma {:induction false} DistanceOne(n: nat, k: nat)
    requires n / Pow2(k) == 1
    ensures BitLength(n) == k + 1
    decreases k
  {
    if k == 0 {
      assert BitLength(1) == 1;
    } else {
      HalvesFirst(n, k - 1);
      DistanceOne(n / 2, k - 1);
      assert n != 0;
    }
  }

  lemma {:induction false} HalvesFirst(n: nat, k: nat)
    ensures n / Pow2(k + 1) == (n / 2) / Pow2(k)
    decreases k
  {
    if k > 0 {
      HalfOf(n, k);
      HalvesFirst(n, k - 1);
      HalfOf(n / 2, k - 1);
    } else {
      assert Pow2(1) == 2 && Pow2(0) == 1;
    }
  }

  // ----- the sender -----

  /** The chain that is summarized: the own chain up to where the peer's fork leaves it, and then
      the blocks of that fork. */
  function Summarized(main: seq<BlockId>, nonForkHigh: nat, fork: seq<BlockId>): seq<BlockId>
    requires nonForkHigh <= |main|
  {
    main[..nonForkHigh] + fork
  }

  /** The entries from `low` on, for a chain that the peer continues up to `end`. */
  ghost predicate IsSynopsis(synopsis: seq<BlockId>, chain: seq<BlockId>, low: nat, end: nat) {
    && 0 < low <= |chain| <= end && synopsis != []
    && (forall k :: 0 <= k < |synopsis| ==>
          && low <= HeightAt(low, end, k) <= |chain|
          && synopsis[k] == chain[HeightAt(low, end, k) - 1])
    && HeightAt(low, end, |synopsis|) > |chain|
  }

  /** What the loop of `get_blockchain_synopsis` collects. */
  method Summarize(main: seq<BlockId>, nonForkHigh: nat, fork: seq<BlockId>, low: nat, after: nat)
    returns (synopsis: seq<BlockId>)
    requires nonForkHigh <= |main| && 0 < low <= nonForkHigh + |fork|
    ensures IsSynopsis(synopsis, Summarized(main, nonForkHigh, fork), low, nonForkHigh + |fork| + after)
  {
    ghost var chain := Summarized(main, nonForkHigh, fork);
    var high := nonForkHigh + |fork|;
    var trueHigh := high + after;
    synopsis := [];
    var height := low;
    assert Pow2(0) == 1;
    while true
      invariant height <= high && height == HeightAt(low, trueHigh, |synopsis|)
      invariant forall k :: 0 <= k < |synopsis| ==>
        low <= HeightAt(low, trueHigh, k) <= high && synopsis[k] == chain[HeightAt(low, trueHigh, k) - 1]
      decreases high - height
    {
      NextHeight(low, trueHigh, |synopsis|);
      if height <= nonForkHigh {
        synopsis := synopsis + [main[height - 1]];
      } else {
        synopsis := synopsis + [fork[height - nonForkHigh - 1]];
      }
      height := height + (trueHigh - height + 2) / 2;
      if height > high {
        break;
      }
    }
  }

  /** Entries are strictly higher and higher. */
  lemma SynopsisAscends(synopsis: seq<BlockId>, chain: seq<BlockId>, low: nat, end: nat, k: nat)
    requires IsSynopsis(synopsis, chain, low, end) && k < |synopsis|
    ensures HeightAt(low, end, k) < HeightAt(low, end, k + 1)
    ensures HeightAt(low, end, 0) == low
  {
    assert Pow2(0) == 1;
    NextHeight(low, end, k);
  }

  /** When nothing follows the reference point the last entry is its block, and there are as many
      entries as the number of blocks summarized has binary digits. */
  lemma SynopsisEndsAtHigh(synopsis: seq<BlockId>, chain: seq<BlockId>, low: nat)
    requires IsSynopsis(synopsis, chain, low, |chain|)
    ensures |synopsis| == BitLength(|chain| - low + 1)
    ensures synopsis[|synopsis| - 1] == chain[|chain| - 1]
  {
    var last := |synopsis| - 1;
    var distance := |chain| + 1 - low;
    assert low <= HeightAt(low, |chain|, last) <= |chain|;
    HalfOf(distance, last);
    assert distance / Pow2(last) == 1;
    DistanceOne(distance, last);
  }

  datatype Reference =
    | NoReference
    | OnChain(id: BlockId)
    /** The ids from the reference point back to the last one that is not on the own chain, and
        the number of the block below. */
    | OnFork(ids: seq<BlockId>, ancestor: nat)

  /** What the fork database promises of a reference point on a fork. */
  predicate GoodReference(main: seq<BlockId>, r: Reference) {
    match r
    case NoReference => true
    case OnChain(id) => Included(main, id)
    case OnFork(ids, ancestor) =>
      ids != [] && ancestor <= |main| && forall i :: 0 <= i < |ids| ==> ids[i].num == ancestor + |ids| - i
  }

  /** The chain up to the reference point, and where its summary starts. */
  ghost function ChainTo(main: seq<BlockId>, r: Reference): seq<BlockId>
    requires GoodReference(main, r)
  {
    match r
    case NoReference => main
    case OnChain(id) => main[..id.num]
    case OnFork(ids, ancestor) => main[..ancestor] + Reversed(ids)
  }

  function LowFor(main: seq<BlockId>, lastNonUndoable: nat, r: Reference): nat {
    var low := if r.OnChain? && r.id.num < lastNonUndoable then r.id.num else lastNonUndoable;
    if low == 0 then 1 else low
  }

  /** `get_blockchain_synopsis`. Refused when the peer's fork leaves the own chain too low for
      the node to switch to it. */
  method GetBlockchainSynopsis(main: seq<BlockId>, lastNonUndoable: nat, r: Reference, after: nat)
    returns (ok: bool, synopsis: seq<BlockId>)
    requires GoodChain(main) && GoodReference(main, r) && lastNonUndoable <= |main|
    ensures ok <==> (r.OnFork? ==> r.ancestor >= lastNonUndoable)
    ensures ok && r.NoReference? && main == [] ==> synopsis == []
    ensures ok && !(r.NoReference? && main == []) ==>
      IsSynopsis(synopsis, ChainTo(main, r), LowFor(main, lastNonUndoable, r), |ChainTo(main, r)| + after)
  {
    synopsis := [];
    var low, nonForkHigh := lastNonUndoable, |main|;
    var forkHistory: seq<BlockId> := [];
    match r {
      case OnChain(id) =>
        nonForkHigh := id.num;
        if id.num < low {
          low := id.num;
        }
      case OnFork(ids, ancestor) =>
        forkHistory := Reversed(ids);
        nonForkHigh := ancestor;
        if nonForkHigh < low {
          return false, [];
        }
      case NoReference =>
        if main == [] {
          return true, [];
        }
    }
    if low == 0 {
      low := 1;
    }
    ok := true;
    assert Summarized(main, nonForkHigh, forkHistory) == ChainTo(main, r);
    synopsis := Summarize(main, nonForkHigh, forkHistory, low, after);
  }

  // ----- the receiver -----

  /** The last id in the synopsis that is in the chain, or that stands for the time before the
      first block. */
  predicate Recognized(chain: seq<BlockId>, id: BlockId) {
    id == NO_BLOCK || Included(chain, id)
  }

  ghost predicate LastRecognized(chain: seq<BlockId>, synopsis: seq<BlockId>, k: nat) {
    && k < |synopsis| && Recognized(chain, synopsis[k])
    && forall j :: k < j < |synopsis| ==> !Recognized(chain, synopsis[j])
  }

  predicate IsEmptySynopsis(synopsis: seq<BlockId>) {
    synopsis == [] || synopsis == [NO_BLOCK]
  }

  /** `get_block_ids` for a chain that is not empty: `start` is the number of the last block in
      common, as far as the synopsis shows. The answer begins with that very block. */
  method GetBlockIds(chain: seq<BlockId>, synopsis: seq<BlockId>, limit: nat)
    returns (ok: bool, ids: seq<BlockId>, remaining: nat, ghost start: nat, ghost known: nat)
    requires GoodChain(chain)
    ensures ok <==>
      chain == [] || IsEmptySynopsis(synopsis) || exists k :: 0 <= k < |synopsis| && Recognized(chain, synopsis[k])
    ensures ok && chain != [] && IsEmptySynopsis(synopsis) ==> start == 0
    ensures ok && chain != [] && !IsEmptySynopsis(synopsis) ==>
      LastRecognized(chain, synopsis, known) && start == synopsis[known].num
    ensures ok ==> start <= |chain|
    ensures ok ==>
      var first := if start == 0 then 0 else start - 1;
      && first <= |chain|
      && ids == chain[first..if |chain| - first <= limit then |chain| else first + limit]
      && remaining == if ids == [] then 0 else |chain| - first - |ids|
  {
    ids, remaining, start, known := [], 0, 0, 0;
    if chain == [] {
      return true, [], 0, 0, 0;
    }
    var lastKnown := NO_BLOCK;
    if !IsEmptySynopsis(synopsis) {
      var k := |synopsis|;
      while k > 0 && !Recognized(chain, synopsis[k - 1])
        invariant 0 <= k <= |synopsis|
        invariant forall j :: k <= j < |synopsis| ==> !Recognized(chain, synopsis[j])
      {
        k := k - 1;
      }
      if k == 0 {
        return false, [], 0, 0, 0;
      }
      lastKnown := synopsis[k - 1];
      known := k - 1;
    }
    ok := true;
    start := lastKnown.num;
    ghost var first := if start == 0 then 0 else start - 1;
    var num := lastKnown.num;
    while num <= |chain| && |ids| < limit
      invariant lastKnown.num <= num <= |chain| + 1
      invariant num > 0 ==> first + |ids| == num - 1
      invariant num == 0 ==> ids == []
      invariant |ids| <= limit && first + |ids| <= |chain| && ids == chain[first..first + |ids|]
    {
      if num > 0 {
        ids := ids + [chain[num - 1]];
      }
      num := num + 1;
    }
    if ids != [] && ids[|ids| - 1].num < |chain| {
      remaining := |chain| - ids[|ids| - 1].num;
    }
  }

  // ----- both sides together -----

  /** Two chains have their first blocks in common, and no others. */
  ghost predicate ShareUpTo(a: seq<BlockId>, b: seq<BlockId>, fork: nat) {
    && fork <= |a| && fork <= |b|
    && (forall i :: 0 <= i < fork ==> a[i] == b[i])
    && (forall i :: fork <= i < |a| && i < |b| ==> a[i] != b[i])
  }

  /** The receiver resumes no further below the last common block than that is below the end of
      the sender's chain, and it never resumes above it. */
  lemma ResumesCloseBelow(a: seq<BlockId>, b: seq<BlockId>, fork: nat, low: nat, end: nat, synopsis: seq<BlockId>,
                          k: nat)
    requires GoodChain(a) && GoodChain(b) && ShareUpTo(a, b, fork) && low <= fork
    requires IsSynopsis(synopsis, a, low, end)
    requires LastRecognized(b, synopsis, k)
    ensures 0 < synopsis[k].num <= fork
    ensures fork - synopsis[k].num <= end - fork
  {
    var h := HeightAt(low, end, k);
    assert synopsis[k] == a[h - 1] && synopsis[k].num == h;
    NextHeight(low, end, k);
    var next := HeightAt(low, end, k + 1);
    if k + 1 < |synopsis| {
      assert synopsis[k + 1] == a[next - 1];
      assert !Recognized(b, synopsis[k + 1]);
    }
    assert next > fork;
  }

  /** The sender is always understood: the lowest entry is a block in common. */
  lemma LowestIsRecognized(a: seq<BlockId>, b: seq<BlockId>, fork: nat, low: nat, end: nat, synopsis: seq<BlockId>)
    requires GoodChain(a) && GoodChain(b) && ShareUpTo(a, b, fork) && low <= fork
    requires IsSynopsis(synopsis, a, low, end)
    ensures Recognized(b, synopsis[0])
  {
    assert Pow2(0) == 1;
    assert HeightAt(low, end, 0) == low;
  }

  /** One round of the protocol: the answer starts at a block in common, with at most as many
      blocks repeated as the sender has beyond the last common one; it is a contiguous part of
      the receiver's chain, and the count of what remains is right. */
  method SyncRound(main: seq<BlockId>, lastNonUndoable: nat, r: Reference, chain: seq<BlockId>, limit: nat,
                   ghost fork: nat)
    returns (ids: seq<BlockId>, remaining: nat, ghost start: nat)
    requires GoodChain(main) && GoodReference(main, r) && lastNonUndoable <= |main| && main != [] && limit > 0
    requires r.OnFork? ==> r.ancestor >= lastNonUndoable
    requires GoodChain(chain) && ShareUpTo(ChainTo(main, r), chain, fork) && LowFor(main, lastNonUndoable, r) <= fork
    ensures 0 < start <= fork && fork - start <= |ChainTo(main, r)| - fork
    ensures ids != [] && ids[0] == ChainTo(main, r)[start - 1]
    ensures start - 1 + |ids| + remaining == |chain| && ids == chain[start - 1..start - 1 + |ids|]
    ensures remaining > 0 ==> |ids| == limit
  {
    var ok, synopsis := GetBlockchainSynopsis(main, lastNonUndoable, r, 0);
    ghost var own, low := ChainTo(main, r), LowFor(main, lastNonUndoable, r);
    ChainToIsGood(main, r);
    LowestIsRecognized(own, chain, fork, low, |own|, synopsis);
    assert synopsis[0].num > 0;
    ghost var k;
    ok, ids, remaining, start, k := GetBlockIds(chain, synopsis, limit);
    ResumesCloseBelow(own, chain, fork, low, |own|, synopsis, k);
    assert |ids| == Min(limit, |chain| - (start - 1)) && ids[0] == chain[start - 1];
  }

  lemma ChainToIsGood(main: seq<BlockId>, r: Reference)
    requires GoodChain(main) && GoodReference(main, r)
    ensures GoodChain(ChainTo(main, r))
  {
  }
}
