/** Pushing blocks onto a chain that may have to change over to a longer fork. Blocks apply
    deterministically; the state of the objects is any value. */
module ForkSwitch {
  import opened Options
  import opened Amounts
  import opened Sequences
  import opened ForkDatabase

  const NO_ID: Id := 0

  /** How blocks apply to the objects, what the number of the last irreversible block is, and whether
      a block that follows the head and fails does so only after the sizes are set. */
  datatype Rules<!D> = Rules(apply: (D, Block) -> Option<D>, irreversible: D -> nat, failsLate: (D, Block) -> bool)

  /** What a block changes and an undo session restores. */
  datatype State<D> = State(head: Id, num: nat, objects: D)

  /** A block follows the state that its `previous` field names, and its number, which is part of
      that field, is the next one. */
  predicate Follows<D>(s: State<D>, b: Block) {
    b.previous == s.head && b.num == s.num + 1
  }

  /** `apply_block`: refuses a block that does not follow the head. */
  function ApplyBlock<D>(rules: Rules<D>, s: State<D>, b: Block): Option<State<D>> {
    if !Follows(s, b) then
      None
    else
      match rules.apply(s.objects, b)
      case None => None
      case Some(d) => Some(State(b.id, b.num, d))
  }

  /** Applies the blocks of a branch, the oldest, which comes last, first. */
  function Replay<D>(rules: Rules<D>, s: State<D>, branch: seq<Block>): Option<State<D>> {
    if branch == [] then
      Some(s)
    else
      match Replay(rules, s, branch[1..])
      case None => None
      case Some(t) => ApplyBlock(rules, t, branch[0])
  }

  /** The state after the first `i` sessions. */
  function StateAt<D>(undo: seq<State<D>>, db: State<D>, i: nat): State<D>
    requires i <= |undo|
  {
    if i < |undo| then undo[i] else db
  }

  /** The head after undoing so many sessions. */
  function HeadBelow<D>(undo: seq<State<D>>, db: State<D>, c: nat): Id
    requires c <= |undo|
  {
    StateAt(undo, db, |undo| - c).head
  }

  /** Each state follows from the one before by its block. */
  ghost predicate IsHistory<D>(rules: Rules<D>, undo: seq<State<D>>, chain: seq<Block>, db: State<D>) {
    && |chain| == |undo|
    && forall i {:trigger ApplyBlock(rules, undo[i], chain[i])} ::
         0 <= i < |undo| ==> ApplyBlock(rules, undo[i], chain[i]) == Some(StateAt(undo, db, i + 1))
  }

  /** Ids identify blocks, in a history as in the tree. */
  ghost predicate AgreeWith(chain: seq<Block>, index: Index) {
    forall c :: c in chain && c.id in index ==> index[c.id] == c
  }

  /** Histories of the same blocks from the same state are the same: blocks apply deterministically. */
  lemma {:induction false} HistoriesAgree<D>(rules: Rules<D>, undo: seq<State<D>>, db: State<D>,
                                             undo': seq<State<D>>, db': State<D>, chain: seq<Block>)
    requires IsHistory(rules, undo, chain, db) && IsHistory(rules, undo', chain, db')
    requires StateAt(undo, db, 0) == StateAt(undo', db', 0)
    ensures undo == undo' && db == db'
    decreases |undo|
  {
    if undo != [] {
      HistoriesAgreeAt(rules, undo, db, undo', db', chain, |undo|);
      forall i | 0 <= i < |undo|
        ensures undo[i] == undo'[i]
      {
        HistoriesAgreeAt(rules, undo, db, undo', db', chain, i);
      }
    }
  }

  lemma {:induction false} HistoriesAgreeAt<D>(rules: Rules<D>, undo: seq<State<D>>, db: State<D>,
                                               undo': seq<State<D>>, db': State<D>, chain: seq<Block>, i: nat)
    requires IsHistory(rules, undo, chain, db) && IsHistory(rules, undo', chain, db') && i <= |undo|
    requires StateAt(undo, db, 0) == StateAt(undo', db', 0)
    ensures StateAt(undo, db, i) == StateAt(undo', db', i)
  {
    if i > 0 {
      HistoriesAgreeAt(rules, undo, db, undo', db', chain, i - 1);
      assert ApplyBlock(rules, undo[i - 1], chain[i - 1]) == Some(StateAt(undo, db, i));
      assert ApplyBlock(rules, undo'[i - 1], chain[i - 1]) == Some(StateAt(undo', db', i));
    }
  }

  /** The last blocks of a history are the branch that leads to its head, as far as both go. */
  lemma {:induction false} BranchIsHistory<D>(rules: Rules<D>, undo: seq<State<D>>, chain: seq<Block>, db: State<D>,
                                              index: Index, q: seq<Block>, j: nat)
    requires IsHistory(rules, undo, chain, db) && IsBranch(index, db.head, q) && j <= |undo| && j <= |q|
    requires GoodIndex(index) && AgreeWith(chain, index)
    ensures StateAt(undo, db, |undo| - j).head == if j < |q| then q[j].id else Oldest(q).previous
    ensures j < |q| && j < |undo| ==> chain[|undo| - 1 - j] == q[j]
  {
    var n := |undo|;
    if j > 0 {
      BranchIsHistory(rules, undo, chain, db, index, q, j - 1);
      assert ApplyBlock(rules, undo[n - j], chain[n - j]) == Some(StateAt(undo, db, n - j + 1));
      if j < |q| {
        assert q[j - 1].previous == q[j].id;
      }
    }
    if j < |q| && j < n {
      assert ApplyBlock(rules, undo[n - 1 - j], chain[n - 1 - j]) == Some(StateAt(undo, db, n - j));
    }
  }

  /** A history that ends with a branch is that branch replayed. */
  lemma {:induction false} HistoryReplays<D>(rules: Rules<D>, undo: seq<State<D>>, chain: seq<Block>, db: State<D>,
                                             q: seq<Block>, j: nat)
    requires IsHistory(rules, undo, chain, db) && |q| <= |undo| && j <= |q|
    requires forall i :: 0 <= i < |q| ==> chain[|undo| - 1 - i] == q[i]
    ensures Replay(rules, StateAt(undo, db, |undo| - |q|), q[j..]) == Some(StateAt(undo, db, |undo| - j))
    decreases |q| - j
  {
    if j < |q| {
      HistoryReplays(rules, undo, chain, db, q, j + 1);
      var n := |undo|;
      assert q[j..][1..] == q[j + 1..];
      assert ApplyBlock(rules, undo[n - 1 - j], chain[n - 1 - j]) == Some(StateAt(undo, db, n - j));
    }
  }

  /** If the blocks up to one cannot be applied then neither can those up to a later one. */
  lemma {:induction false} FailureStays<D>(rules: Rules<D>, s: State<D>, branch: seq<Block>, k: nat)
    requires k <= |branch| && Replay(rules, s, branch[k..]).None?
    ensures Replay(rules, s, branch).None?
    decreases k
  {
    if k == 0 {
      assert branch[0..] == branch;
    } else {
      assert branch[k - 1..][1..] == branch[k..];
      FailureStays(rules, s, branch, k - 1);
    }
  }

  // ----- sizes -----

  /** How many undo states, and how many numbers of the tree below its head, are kept after a
      block: back to what was irreversible before it. No block makes more irreversible than
      there is, so the second case does not occur. */
  function SizeAfter<D>(rules: Rules<D>, s: State<D>, b: Block): (r: nat)
    ensures r > 0
  {
    var last := rules.irreversible(s.objects);
    if last <= b.num then b.num - last + 1 else 1
  }

  lemma {:induction false} SizeReaches<D>(rules: Rules<D>, s: State<D>, b: Block, finality: nat)
    requires finality >= rules.irreversible(s.objects)
    ensures SizeAfter(rules, s, b) + finality > b.num
  {
  }

  /** From the block down to the last irreversible one. */
  lemma {:induction false} SizeReachesBack<D>(rules: Rules<D>, s: State<D>, b: Block)
    ensures var last := rules.irreversible(s.objects);
            last <= b.num ==> last + SizeAfter(rules, s, b) == b.num + 1
  {
  }

  /** The number of the lowest block that a tree keeps. */
  function CutAt(top: nat, size: nat): nat {
    if top > size then top - size else 0
  }

  /** Whether the sizes are set: by every block that applies, and by some that fail later. */
  predicate Resizes<D>(rules: Rules<D>, s: State<D>, b: Block) {
    ApplyBlock(rules, s, b).Some? || (Follows(s, b) && rules.failsLate(s.objects, b))
  }

  function CutAfter<D>(rules: Rules<D>, top: nat, s: State<D>, b: Block): nat {
    if Resizes(rules, s, b) then CutAt(top, SizeAfter(rules, s, b)) else 0
  }

  /** How many blocks of a branch apply, from its oldest on. */
  function Applied<D>(rules: Rules<D>, s: State<D>, branch: seq<Block>): (n: nat)
    ensures n <= |branch|
  {
    if branch == [] || Replay(rules, s, branch).Some? then |branch| else Applied(rules, s, branch[1..])
  }

  lemma {:induction false} AppliedIs<D>(rules: Rules<D>, s: State<D>, branch: seq<Block>, k: nat)
    requires k <= |branch| && Replay(rules, s, branch[k..]).Some? && (k > 0 ==> Replay(rules, s, branch[k - 1..]).None?)
    ensures Applied(rules, s, branch) == |branch| - k
    decreases k
  {
    if k == 0 {
      assert branch[0..] == branch;
    } else {
      FailureStays(rules, s, branch, k - 1);
      assert branch[1..][k - 1..] == branch[k..];
      if k > 1 {
        assert branch[1..][k - 2..] == branch[k - 1..];
      }
      AppliedIs(rules, s, branch[1..], k - 1);
    }
  }

  /** The lowest number that a tree keeps while a branch is applied, as far as it applies. */
  function CutBy<D>(rules: Rules<D>,
                    top: nat, s: State<D>, branch: seq<Block>): nat {
    if branch == [] then
      0
    else
      var before := CutBy(rules, top, s, branch[1..]);
      match Replay(rules, s, branch[1..])
      case None => before
      case Some(t) => Max(before, CutAfter(rules, top, t, branch[0]))
  }

  /** Nothing is cut by blocks above the one that fails. */
  lemma {:induction false} CutByFailed<D>(rules: Rules<D>,
                                          top: nat, s: State<D>, branch: seq<Block>, k: nat)
    requires k <= |branch| && Replay(rules, s, branch[k..]).None?
    ensures CutBy(rules, top, s, branch) == CutBy(rules, top, s, branch[k..])
    decreases k
  {
    if k == 0 {
      assert branch[0..] == branch;
    } else {
      assert branch[1..][k - 1..] == branch[k..];
      FailureStays(rules, s, branch[1..], k - 1);
      CutByFailed(rules, top, s, branch[1..], k - 1);
    }
  }

  /** What a block that fails means for the branch. */
  lemma {:induction false} FailedAt<D>(rules: Rules<D>, top: nat, s: State<D>, branch: seq<Block>, k: nat)
    requires 0 < k <= |branch| && Replay(rules, s, branch[k..]).Some? && Replay(rules, s, branch[k - 1..]).None?
    ensures Applied(rules, s, branch) == |branch| - k && Replay(rules, s, branch).None?
    ensures CutBy(rules, top, s, branch) == CutBy(rules, top, s, branch[k - 1..])
  {
    FailureStays(rules, s, branch, k - 1);
    AppliedIs(rules, s, branch, k);
    CutByFailed(rules, top, s, branch, k - 1);
  }

  /** The tree's head and its parent are never cut. */
  lemma {:induction false} CutIsBelow<D>(rules: Rules<D>,
                                         top: nat, s: State<D>, branch: seq<Block>)
    ensures CutBy(rules, top, s, branch) <= CutAt(top, 1)
    decreases |branch|
  {
    if branch != [] {
      CutIsBelow(rules, top, s, branch[1..]);
    }
  }

  /** After each block of a branch as many undo states are kept as the branch has put there. */
  predicate UndoKeeps<D>(rules: Rules<D>, s: State<D>, branch: seq<Block>) {
    branch == []
    || (UndoKeeps(rules, s, branch[1..])
        && match Replay(rules, s, branch[1..])
           case None => true
           case Some(t) => SizeAfter(rules, t, branch[0]) >= |branch|)
  }

  /** A branch of which some block fails can be left again: the undo states of those that did
      apply are all kept, and so is the oldest block of the branch in the tree, if it applied. */
  predicate CanReturn<D>(rules: Rules<D>,
                         s: State<D>, p: seq<Block>)
    requires p != []
  {
    var n := Applied(rules, s, p);
    n > 0 ==>
      && UndoKeeps(rules, s, p[|p| - n..])
      && CutBy(rules, p[0].num, s, p) <= Oldest(p).num
  }

  datatype Outcome =
    | TooOld
    | Unlinkable
    | NoBranch
    | Recorded
    | Extended
    | Refused
    | Switched
    | SwitchFailed
    | Stuck

  /** The outcomes that leave the chain out of step with the tree. */
  predicate Blocked(r: Outcome) {
    r == NoBranch || r == Stuck
  }

  predicate InStep(outcomes: seq<Outcome>) {
    outcomes == [] || !Blocked(outcomes[|outcomes| - 1])
  }

  /** How an attempted switch from branch `q` to branch `p` ends: it is stuck if the undo states do
      not reach the common ancestor; it succeeds if and only if every block of `p` applies; and if
      one does not then the way back is open, or it is stuck half way. */
  function SwitchOutcome<D>(rules: Rules<D>,
                            older: seq<State<D>>, p: seq<Block>, q: seq<Block>): Outcome
  {
    if p == [] || q == [] || |q| > |older| then
      Stuck
    else
      var ancestor := older[|older| - |q|];
      if Replay(rules, ancestor, p).Some? then Switched
      else if CanReturn(rules, ancestor, p) then SwitchFailed
      else Stuck
  }

  /** All that pushing a block reads and changes. */
  datatype Node<D> = Node(
    index: Index,
    forkHead: Option<Block>,
    maxFork: nat,
    db: State<D>,
    undo: seq<State<D>>,
    maxUndo: nat)

  /** Whether `fork_database::push_block` takes a block. */
  function Linked<D>(was: Node<D>, b: Block): Outcome {
    if was.forkHead.None? then Recorded
    else if b.num + was.maxFork <= was.forkHead.value.num || b.num == 0 then TooOld
    else if b.previous != NO_ID && b.previous !in was.index then Unlinkable
    else Recorded
  }

  /** A block is refused when it is as far below the head as the tree reaches, or when its parent is not
      in the tree; in an empty tree any block is taken. */
  lemma {:induction false} LinkedMeans<D>(was: Node<D>, b: Block)
    ensures Linked(was, b) == Recorded <==>
      || was.forkHead == None
      || (b.num > 0 && was.forkHead.value.num - b.num < was.maxFork
          && (b.previous == NO_ID || b.previous in was.index))
    ensures Linked(was, b) == TooOld <==>
      was.forkHead.Some? && (b.num == 0 || was.forkHead.value.num - b.num >= was.maxFork)
  {
  }

  /** A new highest block takes out of the tree what is further below it than the tree reaches, and any
      other block takes out nothing. */
  lemma {:induction false} TreeWithMeans(index: Index, b: Block, head: Option<Block>, maxFork: nat, i: Id)
    requires GoodIndex(index)
    ensures var tree, isNewHead := TreeWith(index, b, head, maxFork), head.Some? && head.value.num < b.num;
            && (i in tree ==> tree[i] == if i == b.id then b else index[i])
            && (i == b.id ==> i in tree)
            && (i != b.id ==>
                  (i in tree <==> i in index && (isNewHead ==> b.num <= index[i].num + maxFork)))
  {
  }

  /** How pushing a block ends that becomes the head of the tree, given the branches down to the
      common ancestor. */
  ghost predicate Followed<D>(rules: Rules<D>, r: Outcome, b: Block, was: Node<D>, tree: Index,
                              p: seq<Block>, q: seq<Block>) {
    if b.previous == was.db.head then
      r == if ApplyBlock(rules, was.db, b).Some? then Extended else Refused
    else if !Related(tree, b.id, was.db.head) then
      r == NoBranch
    else
      && IsBranch(tree, b.id, p) && IsBranch(tree, was.db.head, q) && MeetBelow(p, q) && MeetFirst(p, q)
      && r == SwitchOutcome(rules, was.undo, p, q)
  }

  /** The tree after a switch, or an attempted one that was undone. */
  ghost function TreeAfterSwitch<D>(rules: Rules<D>, tree: Index, ancestor: State<D>, p: seq<Block>,
                                    q: seq<Block>): Index
    requires p != [] && q != []
  {
    var cut := CutBy(rules, p[0].num, ancestor, p);
    var k := |p| - Applied(rules, ancestor, p);
    if k == 0 then KeptFrom(tree, cut)
    else KeptFrom(WithoutBlocks(KeptFrom(tree, cut), p[..k]), CutBy(rules, q[0].num, ancestor, q))
  }

  /** The last undo states, as many as are kept. */
  function LastOf<T>(s: seq<T>, size: nat): seq<T> {
    if |s| > size then s[|s| - size..] else s
  }

  /** A failed switch that is not undone: the head is a block of the failed branch, where the next undo
      state or the block itself is missing, while the tree's head is the old one again. */
  ghost predicate HalfWay<D>(rules: Rules<D>, now: Node<D>, was: State<D>, tree: Index, ancestor: State<D>,
                             p: seq<Block>, q: seq<Block>)
    requires p != [] && q != []
  {
    var k := |p| - Applied(rules, ancestor, p);
    && now.forkHead == Some(q[0]) && now.db != was && now.db.head != q[0].id
    && now.index == WithoutBlocks(KeptFrom(tree, CutBy(rules, p[0].num, ancestor, p)), p[..k])
    && exists j ::
         && k <= j < |p| && Some(now.db) == Replay(rules, ancestor, p[j..])
         && (now.undo == [] || p[j].id !in now.index)
         && forall i :: k <= i < j ==> p[i].id in now.index
  }

  /** A switch that is not even begun: the undo states end above the common ancestor, and the head is
      as far back as they reach, while the tree's head is the new one. */
  ghost predicate OutOfUndo<D>(now: Node<D>, was: Node<D>, b: Block, tree: Index) {
    && now.db == (was.undo + [was.db])[0] && now.undo == []
    && now.forkHead == Some(b) && now.db.head != b.id && now.index == tree
  }

  /** What has become of the chain and the tree. `tree` is the one with the new block in it. */
  ghost predicate Became<D>(rules: Rules<D>, r: Outcome, b: Block, was: Node<D>, now: Node<D>, tree: Index,
                            p: seq<Block>, q: seq<Block>) {
    match r
    case TooOld => now == was
    case Unlinkable => now == was
    case Recorded => now == was.(index := tree)
    case NoBranch => now == was.(index := tree, forkHead := Some(b))
    case Extended =>
      && Some(now.db) == ApplyBlock(rules, was.db, b) && now.forkHead == Some(b)
      && now.undo == LastOf(was.undo, was.maxUndo) + [was.db]
      && now.index == KeptFrom(tree, CutAfter(rules, b.num, was.db, b))
      && now.maxUndo == now.maxFork == SizeAfter(rules, was.db, b)
    case Refused =>
      && now.db == was.db && now.forkHead == was.forkHead
      && now.undo == LastOf(was.undo, was.maxUndo)
      && now.index == KeptFrom(tree, CutAfter(rules, b.num, was.db, b)) - {b.id}
    case _ => Shifted(rules, r, b, was, now, tree, p, q)
  }

  /** What a switch has made of them, if the undo states reach the common ancestor. */
  ghost predicate Shifted<D>(rules: Rules<D>, r: Outcome, b: Block, was: Node<D>, now: Node<D>, tree: Index,
                             p: seq<Block>, q: seq<Block>) {
    && p != [] && q != []
    && if |q| > |was.undo| then
         r == Stuck && OutOfUndo(now, was, b, tree)
       else
         var ancestor := was.undo[|was.undo| - |q|];
         && ancestor.head == Oldest(p).previous && Replay(rules, ancestor, q) == Some(was.db)
         && Switching(rules, r, b, was, now, tree, ancestor, p, q)
  }

  ghost predicate Switching<D>(rules: Rules<D>, r: Outcome, b: Block, was: Node<D>, now: Node<D>, tree: Index,
                               ancestor: State<D>, p: seq<Block>, q: seq<Block>)
    requires p != [] && q != []
  {
    if r == Switched then
      && Some(now.db) == Replay(rules, ancestor, p) && now.forkHead == Some(b)
      && now.index == TreeAfterSwitch(rules, tree, ancestor, p, q)
    else if r == SwitchFailed then
      && now.db == was.db && now.forkHead == was.forkHead
      && (exists d :: 0 <= d <= |was.undo| && now.undo == was.undo[d..])
      && now.index == TreeAfterSwitch(rules, tree, ancestor, p, q)
    else
      HalfWay(rules, now, was.db, tree, ancestor, p, q)
  }

  /** One call of `_push_block`, with all it does. */
  ghost predicate Pushed<D>(rules: Rules<D>, r: Outcome, b: Block, was: Node<D>, now: Node<D>,
                            p: seq<Block>, q: seq<Block>) {
    var tree := TreeWith(was.index, b, was.forkHead, was.maxFork);
    && (if Linked(was, b) != Recorded then r == Linked(was, b)
        else if !Higher(b, was.forkHead) then r == Recorded
        else Followed(rules, r, b, was, tree, p, q))
    && Became(rules, r, b, was, now, tree, p, q)
  }

  /** A run of pushes: each does what one push does, and only the last can leave the chain out of step. */
  ghost predicate Traced<D>(rules: Rules<D>, blocks: seq<Block>, outcomes: seq<Outcome>, trace: seq<Node<D>>) {
    && |outcomes| <= |blocks| && |trace| == |outcomes| + 1
    && (forall i :: 0 <= i < |outcomes| ==> Step(rules, outcomes[i], blocks[i], trace[i], trace[i + 1]))
    && forall i :: 0 <= i < |outcomes| - 1 ==> !Blocked(outcomes[i])
  }

  lemma {:induction false} TraceOn<D>(rules: Rules<D>, blocks: seq<Block>, outcomes: seq<Outcome>, trace: seq<Node<D>>,
                                      r: Outcome, now: Node<D>)
    requires Traced(rules, blocks, outcomes, trace) && |outcomes| < |blocks| && InStep(outcomes)
    requires Step(rules, r, blocks[|outcomes|], trace[|outcomes|], now)
    ensures Traced(rules, blocks, outcomes + [r], trace + [now])
  {
  }

  ghost predicate Step<D>(rules: Rules<D>, r: Outcome, b: Block, was: Node<D>, now: Node<D>) {
    exists p, q :: Pushed(rules, r, b, was, now, p, q)
  }

  class Chain<D(==)> {
    const rules: Rules<D>

    /** The fork database. */
    var index: Index
    var forkHead: Option<Block>
    var maxFork: nat
    /** The object database, and the states its undo sessions go back to. */
    var db: State<D>
    var undo: seq<State<D>>
    var maxUndo: nat
    /** The blocks that were applied in those sessions. */
    ghost var chain: seq<Block>
    /** The highest number that was irreversible in any state that a block was applied to. */
    ghost var finality: nat

    function Now(): Node<D>
      reads this
    {
      Node(index, forkHead, maxFork, db, undo, maxUndo)
    }

    /** The undo states are those of the last blocks, and reach back to finality. */
    ghost predicate History()
      reads this`undo, this`db, this`chain, this`maxUndo, this`maxFork, this`finality
    {
      && IsHistory(rules, undo, chain, db)
      && |undo| + finality >= db.num && maxUndo + finality > db.num && maxFork > 0
    }

    /** Ids identify blocks, wherever they are. */
    ghost predicate Agree()
      reads this`chain, this`index
    {
      AgreeWith(chain, index)
    }

    /** The tree's head is the chain's head, and no block of the tree is higher. */
    ghost predicate InSync()
      reads this
    {
      && GoodIndex(index) && NO_ID !in index
      && History() && Agree()
      && match forkHead
         case None => db.head == NO_ID && db.num == 0 && index == map[] && undo == []
         case Some(h) =>
           && h.id in index && index[h.id] == h
           && db.head == h.id && db.num == h.num
           && forall i :: i in index ==> index[i].num <= h.num
    }

    constructor (rules: Rules<D>, maxUndo: nat, maxFork: nat, genesis: D)
      requires maxUndo > 0 && maxFork > 0
      ensures InSync() && this.rules == rules
      ensures db == State(NO_ID, 0, genesis) && forkHead == None && this.maxUndo == maxUndo && this.maxFork == maxFork
    {
      this.rules := rules;
      this.maxUndo, this.maxFork, finality := maxUndo, maxFork, 0;
      index, forkHead, db, undo, chain := map[], None, State(NO_ID, 0, genesis), [], [];
    }

    /** How many of the oldest undo states a new session drops. */
    function Dropped(): nat
      reads this`undo, this`maxUndo
    {
      if |undo| > maxUndo then |undo| - maxUndo else 0
    }

    /** Drops the oldest undo states. */
    method TrimUndo()
      requires History()
      modifies this`undo, this`chain
      ensures History() && |undo| <= maxUndo
      ensures undo == old(undo[Dropped()..]) && chain == old(chain[Dropped()..])
    {
      ghost var k := 0;
      while |undo| > maxUndo
        invariant k <= |old(undo)| && undo == old(undo)[k..] && chain == old(chain)[k..] && |chain| == |undo|
        invariant k <= old(Dropped())
        invariant |undo| <= maxUndo ==> k == old(Dropped())
        decreases |undo|
      {
        undo := undo[1..];
        chain := chain[1..];
        k := k + 1;
      }
      SuffixIsHistory(rules, old(undo), old(chain), db, k);
    }

    /** What a block leaves of the tree when it is applied. */
    function TreeAfter(b: Block): Index
      reads this`index, this`forkHead, this`db
    {
      if forkHead.None? then index
      else KeptFrom(index, CutAfter(rules, forkHead.value.num, db, b))
    }

    /** The part of `apply_block` that sets the sizes, and takes blocks that are too low out of
        the tree. */
    method SetSizes(size: nat)
      requires IsHistory(rules, undo, chain, db) && |undo| + finality >= db.num && size > 0 && size + finality > db.num
      modifies this`maxUndo, this`maxFork, this`index
      ensures History() && maxUndo == size && maxFork == size
      ensures index == if forkHead.None? then old(index) else KeptFrom(old(index), CutAt(forkHead.value.num, size))
    {
      maxUndo, maxFork := size, size;
      if forkHead.Some? {
        index := KeptFrom(index, CutAt(forkHead.value.num, size));
      }
    }

    /** `start_undo_session`, `apply_block`, and `commit` or, when it fails, undo. */
    method ApplyInSession(b: Block) returns (ok: bool)
      requires History()
      modifies this`db, this`undo, this`chain, this`maxUndo, this`maxFork, this`index, this`finality
      ensures History() && finality >= old(finality)
      ensures ok <==> ApplyBlock(rules, old(db), b).Some?
      ensures ok ==>
        && db == ApplyBlock(rules, old(db), b).value && maxUndo == maxFork == SizeAfter(rules, old(db), b)
        && undo == old(undo[Dropped()..] + [db]) && chain == old(chain[Dropped()..]) + [b]
      ensures !ok ==> db == old(db) && undo == old(undo[Dropped()..]) && chain == old(chain[Dropped()..])
      ensures index == old(TreeAfter(b))
    {
      TrimUndo();
      ghost var before, blocks := undo, chain;
      undo := undo + [db];
      var applied := ApplyBlock(rules, db, b);
      ok := applied.Some?;
      var was := db;
      if ok {
        db := applied.value;
        chain := chain + [b];
        OneMore(rules, before, blocks, was, b, db);
      } else {
        undo := undo[..|undo| - 1];
        assert undo == before;
      }
      assert KeptFrom(index, 0) == index;
      if Resizes(rules, was, b) {
        finality := Max(finality, rules.irreversible(was.objects));
        SizeReaches(rules, was, b, finality);
        SetSizes(SizeAfter(rules, was, b));
      }
    }

    /** `database::pop_block` */
    method PopBlock() returns (ok: bool)
      requires History()
      modifies this`forkHead, this`db, this`undo, this`chain
      ensures History()
      ensures ok <==>
        && old(forkHead).Some? && old(undo) != []
        && (if old(forkHead).value.id == old(db).head then old(forkHead).value.previous in index
            else old(db).head in index)
      ensures ok ==> db == old(undo[|undo| - 1]) && undo == old(undo[..|undo| - 1]) && chain == old(chain[..|undo| - 1])
      ensures old(forkHead).Some? && old(forkHead).value.id != old(db).head ==> forkHead == old(forkHead)
      ensures ok && old(forkHead).value.id == old(db).head ==> forkHead == Some(index[old(forkHead).value.previous])
      ensures !ok ==> db == old(db) && undo == old(undo) && chain == old(chain)
    {
      if forkHead.None? {
        return false;
      }
      if forkHead.value.id == db.head {
        if forkHead.value.previous !in index {
          return false;
        }
        forkHead := Some(index[forkHead.value.previous]);
      } else if db.head !in index {
        return false;
      }
      if undo == [] {
        return false;
      }
      ghost var n := |undo|;
      assert ApplyBlock(rules, undo[n - 1], chain[n - 1]) == Some(StateAt(undo, db, n));
      PrefixIsHistory(rules, undo, chain, db, n - 1);
      db := undo[|undo| - 1];
      undo := undo[..|undo| - 1];
      chain := chain[..|chain| - 1];
      ok := true;
    }

    // ----- the fork database -----

    /** `fork_database::push_block`; the tree's head afterwards is the new block if it is higher. */
    method PushToTree(b: Block) returns (r: Outcome)
      modifies this`index, this`forkHead
      ensures r == old(Linked(Now(), b))
      ensures r != Recorded ==> index == old(index) && forkHead == old(forkHead)
      ensures r == Recorded ==>
        && forkHead == Some(if Higher(b, old(forkHead)) then b else old(forkHead).value)
        && index == TreeWith(old(index), b, old(forkHead), maxFork)
    {
      if forkHead.Some? {
        if !(b.num > 0 && b.num > forkHead.value.num - maxFork) {
          return TooOld;
        }
        if b.previous != NO_ID && b.previous !in index {
          return Unlinkable;
        }
      }
      r := Recorded;
      index := TreeWith(index, b, forkHead, maxFork);
      if Higher(b, forkHead) {
        forkHead := Some(b);
      }
    }

    /** `fork_database::remove` */
    method RemoveFromTree(id: Id)
      modifies this`index, this`forkHead
      ensures index == old(index) - {id}
      ensures forkHead == if old(forkHead).Some? && old(forkHead).value.id == id then
                            (if old(forkHead).value.previous in index then Some(index[old(forkHead).value.previous])
                             else None)
                          else old(forkHead)
    {
      index := index - {id};
      if forkHead.Some? && forkHead.value.id == id {
        forkHead := if forkHead.value.previous in index then Some(index[forkHead.value.previous]) else None;
      }
    }

    // ----- switching -----

    /** The last blocks of the history, as far as the undo states reach, are those of a branch
        above an ancestor, and popping them does not pop the tree's head. */
    ghost predicate LeadsTo(branch: seq<Block>, ancestor: Id)
      reads this`undo, this`db, this`forkHead
    {
      && forkHead.Some?
      && (forall c :: 0 <= c < |branch| ==> branch[c].id != ancestor && branch[c].id != forkHead.value.id)
      && forall c {:trigger HeadBelow(undo, db, c)} :: 0 <= c <= |branch| && c <= |undo| ==>
           HeadBelow(undo, db, c) == if c < |branch| then branch[c].id else ancestor
    }

    /** Pops blocks until an ancestor is the head again; stops where an undo state or a block of the
        tree is missing. */
    method PopTo(ancestor: Id, ghost branch: seq<Block>) returns (ok: bool, ghost c: nat)
      requires History() && LeadsTo(branch, ancestor)
      modifies this`forkHead, this`db, this`undo, this`chain
      ensures History() && forkHead == old(forkHead)
      ensures ok <==> |branch| <= |old(undo)| && forall i :: 0 <= i < |branch| ==> branch[i].id in index
      ensures c <= |old(undo)| && if ok then c == |branch| else StopsAt(branch, c)
      ensures db == old(undo + [db])[|old(undo)| - c]
      ensures undo == old(undo)[..|old(undo)| - c] && chain == old(chain)[..|old(undo)| - c]
    {
      ghost var states, blocks, n := undo + [db], chain, |undo|;
      c := 0;
      while db.head != ancestor
        invariant 0 <= c <= n && c <= |branch| && History() && forkHead == old(forkHead)
        invariant |undo| == n - c && undo == states[..n - c] && db == states[n - c] && chain == blocks[..n - c]
        invariant forall i :: 0 <= i < c ==> branch[i].id in index
        decreases |undo|
      {
        assert HeadBelow(old(undo), old(db), c) == db.head;
        var popped := PopBlock();
        if !popped {
          return false, c;
        }
        c := c + 1;
        assert HeadBelow(old(undo), old(db), c) == db.head;
      }
      assert HeadBelow(old(undo), old(db), c) == db.head;
      ok := true;
    }

    /** Popping a branch stopped at one of its blocks, which is the head now. */
    ghost predicate StopsAt(branch: seq<Block>, c: nat)
      reads this`index, this`undo, this`db
    {
      && c < |branch| && db.head == branch[c].id && (undo == [] || branch[c].id !in index)
      && forall i :: 0 <= i < c ==> branch[i].id in index
    }

    /** A branch has been applied from a state, except for its last `k` blocks. */
    ghost predicate Going(p: seq<Block>, k: nat, from: State<D>, older: seq<State<D>>, blocks: seq<Block>,
                          dropped: nat, news: seq<State<D>>)
      reads this
    {
      && k <= |p| == k + |news| && History() && forkHead.Some?
      && IsHistory(rules, news, Reversed(p[k..]), db) && (news + [db])[0] == from
      && dropped <= |older + news| && undo == (older + news)[dropped..]
      && dropped <= |blocks + Reversed(p[k..])| && chain == (blocks + Reversed(p[k..]))[dropped..]
      && Replay(rules, from, p[k..]) == Some(db)
    }

    /** One more block of a branch. */
    method ApplyNext(p: seq<Block>, k: nat, ghost from: State<D>, ghost older: seq<State<D>>, ghost blocks: seq<Block>,
                     ghost dropped: nat, ghost news: seq<State<D>>)
      returns (ok: bool, ghost dropped': nat, ghost news': seq<State<D>>)
      requires k > 0 && Going(p, k, from, older, blocks, dropped, news)
      modifies this`db, this`undo, this`chain, this`maxUndo, this`maxFork, this`index, this`finality
      ensures finality >= old(finality) && index == old(TreeAfter(p[k - 1]))
      ensures ok <==> Replay(rules, from, p[k - 1..]).Some?
      ensures Going(p, if ok then k - 1 else k, from, older, blocks, dropped', news')
      ensures ok ==> news' == news + [old(db)] && maxUndo == SizeAfter(rules, old(db), p[k - 1])
      ensures !ok ==> news' == news
      ensures |undo| == Min(old(|undo|), old(maxUndo)) + if ok then 1 else 0
    {
      ghost var d, rest, before, was := Dropped(), p[k - 1..], Reversed(p[k..]), db;
      assert rest[1..] == p[k..] && rest[0] == p[k - 1];
      ok := ApplyInSession(p[k - 1]);
      assert (older + news)[dropped..][d..] == (older + news)[dropped + d..];
      assert (blocks + before)[dropped..][d..] == (blocks + before)[dropped + d..];
      dropped', news' := dropped + d, news;
      if ok {
        news' := news + [was];
        OneMore(rules, news, before, was, p[k - 1], db);
        assert (older + news)[dropped + d..] + [was] == (older + news')[dropped + d..];
        assert (blocks + before)[dropped + d..] + [p[k - 1]] == (blocks + (before + [p[k - 1]]))[dropped + d..];
        assert Reversed(rest) == before + [p[k - 1]];
      }
    }

    /** Applies a branch in sessions, the oldest block first, until one fails. Returns how many
        blocks were not applied, and the history of the others. */
    method ApplyBranch(p: seq<Block>) returns (k: nat, ghost dropped: nat, ghost news: seq<State<D>>)
      requires History() && forkHead.Some?
      modifies this`db, this`undo, this`chain, this`maxUndo, this`maxFork, this`index, this`finality
      ensures finality >= old(finality) && k == |p| - Applied(rules, old(db), p)
      ensures Going(p, k, old(db), old(undo), old(chain), dropped, news)
      ensures k > 0 ==> Replay(rules, old(db), p).None?
      ensures index == KeptFrom(old(index), CutBy(rules, forkHead.value.num, old(db), p))
      ensures k > 0 ==> (|news| <= |undo| <==> UndoKeeps(rules, old(db), p[k..]))
    {
      k, dropped, news := |p|, 0, [];
      ghost var from, tree, top := db, index, forkHead.value.num;
      assert KeptFrom(index, 0) == index;
      while k > 0
        invariant Going(p, k, from, old(undo), old(chain), dropped, news) && finality >= old(finality)
        invariant index == KeptFrom(tree, CutBy(rules, top, from, p[k..]))
        invariant |news| <= |undo| && |news| <= maxUndo <==> UndoKeeps(rules, from, p[k..])
      {
        assert p[k - 1..][1..] == p[k..];
        KeptTwice(tree, CutBy(rules, top, from, p[k..]), CutAfter(rules, top, db, p[k - 1]));
        var ok;
        ok, dropped, news := ApplyNext(p, k, from, old(undo), old(chain), dropped, news);
        if !ok {
          FailedAt(rules, top, from, p, k);
          return;
        }
        k := k - 1;
      }
      AppliedIs(rules, from, p, 0);
      assert p[0..] == p;
    }

    /** Takes the blocks of a branch, from the one that failed to the tip, out of the tree. */
    method RemoveBranch(p: seq<Block>, k: nat)
      requires k <= |p|
      modifies this`index, this`forkHead
      ensures index == WithoutBlocks(old(index), p[..k])
    {
      var j := k;
      assert p[k..k] == [];
      while j > 0
        invariant 0 <= j <= k
        invariant index == WithoutBlocks(old(index), p[j..k])
      {
        j := j - 1;
        RemoveFromTree(p[j].id);
        assert p[j..k] == [p[j]] + p[j + 1..k];
      }
      assert p[0..k] == p[..k];
    }

    /** What an attempted switch works with: the new head's branch and the current one. */
    ghost predicate CanSwitch(p: seq<Block>, q: seq<Block>)
      reads this
    {
      && GoodIndex(index) && NO_ID !in index && History() && Agree()
      && forkHead.Some? && IsBranch(index, forkHead.value.id, p) && IsBranch(index, db.head, q) && MeetBelow(p, q)
      && p[0] == forkHead.value && db.num == q[0].num && p[0].num == q[0].num + 1 && p[0].previous != db.head
      && forall i :: i in index && i != p[0].id ==> index[i].num <= db.num
    }

    /** The current branch is what the last sessions applied, and popping it never meets the
        tree's head. */
    lemma {:induction false} ReadyToPop(p: seq<Block>, q: seq<Block>)
      requires CanSwitch(p, q)
      ensures LeadsTo(q, Oldest(q).previous) && forall c :: 0 <= c < |q| ==> q[c].id in index
      ensures |q| <= |undo| ==>
        && (undo + [db])[|undo| - |q|].head == Oldest(q).previous
        && Replay(rules, (undo + [db])[|undo| - |q|], q) == Some(db)
        && chain[|undo| - |q|..] == Reversed(q)
    {
      var n := |undo|;
      forall c | 0 <= c < |q|
        ensures q[c].id != Oldest(q).previous && q[c].id != forkHead.value.id && q[c].id in index
      {
        NotBelow(index, db.head, q, c);
        BranchNumbers(index, db.head, q, c);
        assert index[q[c].id] == q[c];
      }
      forall c | 0 <= c <= |q| && c <= n
        ensures HeadBelow(undo, db, c) == if c < |q| then q[c].id else Oldest(q).previous
      {
        BranchIsHistory(rules, undo, chain, db, index, q, c);
      }
      if |q| <= n {
        forall j | 0 <= j < |q|
          ensures chain[n - 1 - j] == q[j]
        {
          BranchIsHistory(rules, undo, chain, db, index, q, j);
        }
        HistoryReplays(rules, undo, chain, db, q, 0);
        assert q[0..] == q;
        assert HeadBelow(undo, db, |q|) == Oldest(q).previous;
      }
    }

    /** Two branches of a tree above a common ancestor: `q` is what the history ends with, and `p` is
        one block longer. */
    ghost predicate Fork(p: seq<Block>, q: seq<Block>, ancestor: State<D>, older: seq<State<D>>, blocks: seq<Block>,
                         was: State<D>, tree: Index) {
      && p != [] && q != [] && |q| <= |older| == |blocks|
      && IsHistory(rules, older, blocks, was) && ancestor == older[|older| - |q|]
      && ancestor.head == Oldest(q).previous && blocks[|older| - |q|..] == Reversed(q)
      && Replay(rules, ancestor, q) == Some(was)
      && GoodIndex(tree) && NO_ID !in tree && AgreeWith(blocks, tree)
      && IsBranch(tree, p[0].id, p) && IsBranch(tree, was.head, q) && MeetBelow(p, q) && q[0].id in tree
      && p[0].num == q[0].num + 1 && p[0].previous != q[0].id && was.num == q[0].num
      && forall i :: i in tree && i != p[0].id ==> tree[i].num <= was.num
    }

    /** The current branch was popped, and the new one applied but for its last `k` blocks. */
    ghost predicate Tried(p: seq<Block>, k: nat, ancestor: State<D>, older: seq<State<D>>, blocks: seq<Block>,
                          tree: Index, dropped: nat, news: seq<State<D>>)
      requires p != []
      reads this
    {
      && Going(p, k, ancestor, older, blocks, dropped, news) && k == |p| - Applied(rules, ancestor, p)
      && forkHead == Some(p[0]) && index == KeptFrom(tree, CutBy(rules, p[0].num, ancestor, p))
      && if k == 0 then Replay(rules, ancestor, p) == Some(db)
         else Replay(rules, ancestor, p).None? && (|news| <= |undo| <==> UndoKeeps(rules, ancestor, p[k..]))
    }

    /** Only the tree and its head have changed since. */
    ghost predicate Since(was: Node<D>)
      reads this
    {
      was == Now().(index := was.index, forkHead := was.forkHead)
    }

    ghost predicate HeadKept(was: Node<D>)
      reads this`db, this`index
    {
      match was.forkHead
      case None => db.head == NO_ID
      case Some(h) => db.head == h.id && h.id in index && index[h.id] == h
    }

    /** Changes over to the new branch, or back again when one of its blocks fails. */
    method SwitchForks(p: seq<Block>, q: seq<Block>, ghost was: Node<D>) returns (r: Outcome)
      requires CanSwitch(p, q) && Since(was) && was.forkHead == Some(q[0])
      modifies this
      ensures r == SwitchOutcome(rules, was.undo, p, q)
      ensures Shifted(rules, r, p[0], was, Now(), old(index), p, q)
      ensures r == Switched || r == SwitchFailed || r == Stuck
      ensures InSync() <==> !Blocked(r)
      ensures r != Stuck ==>
        finality >= old(finality) && db.num >= old(db.num) && OnlyAdded(old(index), index, old(chain), chain, p[0])
    {
      ghost var older, blocks, tree := undo, chain, index;
      ghost var ancestor, dropped, news;
      var popped, k;
      popped, k, ancestor, dropped, news := TryBranch(p, q);
      if !popped {
        return Stuck;
      }
      r := Arrive(p, q, k, ancestor, older, blocks, was, tree, dropped, news);
    }

    /** The new branch was applied, or as much of it as could be. */
    method Arrive(p: seq<Block>, q: seq<Block>, k: nat, ghost ancestor: State<D>, ghost older: seq<State<D>>,
                  ghost blocks: seq<Block>, ghost was: Node<D>, ghost tree: Index, ghost dropped: nat,
                  ghost news: seq<State<D>>)
      returns (r: Outcome)
      requires Fork(p, q, ancestor, older, blocks, was.db, tree) && was.forkHead == Some(q[0]) && was.undo == older
      requires Tried(p, k, ancestor, older[..|older| - |q|], blocks[..|older| - |q|], tree, dropped, news)
      modifies this
      ensures r == SwitchOutcome(rules, older, p, q) && (r == Switched || r == SwitchFailed || r == Stuck)
      ensures Shifted(rules, r, p[0], was, Now(), tree, p, q)
      ensures InSync() <==> !Blocked(r)
      ensures r != Stuck ==>
        finality >= old(finality) && db.num >= was.db.num && OnlyAdded(tree, index, blocks, chain, p[0])
    {
      if k == 0 {
        FollowsNew(p, q, ancestor, older, blocks, was, tree, dropped, news);
        return Switched;
      }
      r := GiveUp(p, q, k, ancestor, older, blocks, was.db, tree, dropped, news);
      if r == SwitchFailed {
        IsBack(p, q, ancestor, older, blocks, was, tree);
      } else {
        IsHalfWay(p, q, ancestor, older, was, tree);
      }
    }

    /** The whole new branch applies. */
    lemma {:induction false} FollowsNew(p: seq<Block>, q: seq<Block>, ancestor: State<D>, older: seq<State<D>>,
                                        blocks: seq<Block>, was: Node<D>, tree: Index, dropped: nat,
                                        news: seq<State<D>>)
      requires Fork(p, q, ancestor, older, blocks, was.db, tree) && was.forkHead == Some(q[0]) && was.undo == older
      requires Tried(p, 0, ancestor, older[..|older| - |q|], blocks[..|older| - |q|], tree, dropped, news)
      ensures SwitchOutcome(rules, older, p, q) == Switched && Shifted(rules, Switched, p[0], was, Now(), tree, p, q)
      ensures InSync() && db.num >= was.db.num && OnlyAdded(tree, index, blocks, chain, p[0])
    {
      var m, cut := |older| - |q|, CutBy(rules, p[0].num, ancestor, p);
      CutIsBelow(rules, p[0].num, ancestor, p);
      SwitchedIsInSync(p, tree, blocks[..m], ancestor, news, dropped, older[..m], cut);
      SwitchAddsNothing(p, q, tree, ancestor, blocks);
    }

    /** It does not, and everything is back. */
    lemma {:induction false} IsBack(p: seq<Block>, q: seq<Block>, ancestor: State<D>, older: seq<State<D>>,
                                    blocks: seq<Block>, was: Node<D>, tree: Index)
      requires p != [] && q != [] && |q| <= |older| && was.forkHead == Some(q[0]) && was.undo == older
      requires ancestor == older[|older| - |q|] && ancestor.head == Oldest(q).previous && MeetBelow(p, q)
      requires Replay(rules, ancestor, q) == Some(was.db) && Replay(rules, ancestor, p).None?
      requires CanReturn(rules, ancestor, p) && IsBranch(tree, p[0].id, p)
      requires Returned(p, q, ancestor, older, blocks, was.db, tree)
      ensures SwitchOutcome(rules, older, p, q) == SwitchFailed
      ensures Shifted(rules, SwitchFailed, p[0], was, Now(), tree, p, q)
      ensures db.num >= was.db.num && OnlyAdded(tree, index, blocks, chain, p[0])
    {
      SwitchAddsNothing(p, q, tree, ancestor, blocks);
    }

    /** It does not, and the way back is blocked. */
    lemma {:induction false} IsHalfWay(p: seq<Block>, q: seq<Block>, ancestor: State<D>, older: seq<State<D>>,
                                       was: Node<D>, tree: Index)
      requires p != [] && q != [] && |q| <= |older| && was.forkHead == Some(q[0]) && was.undo == older
      requires ancestor == older[|older| - |q|] && ancestor.head == Oldest(q).previous && MeetBelow(p, q)
      requires Replay(rules, ancestor, q) == Some(was.db) && Replay(rules, ancestor, p).None?
      requires !CanReturn(rules, ancestor, p) && HalfWay(rules, Now(), was.db, tree, ancestor, p, q)
      ensures SwitchOutcome(rules, older, p, q) == Stuck
      ensures Shifted(rules, Stuck, p[0], was, Now(), tree, p, q) && !InSync()
    {
    }

    /** Everything is back where it was, but for undo states and blocks that are too old. */
    ghost predicate Returned(p: seq<Block>, q: seq<Block>, ancestor: State<D>, older: seq<State<D>>, blocks: seq<Block>,
                             was: State<D>, tree: Index)
      requires p != [] && q != []
      reads this
    {
      && InSync() && db == was && forkHead == Some(q[0]) && index == TreeAfterSwitch(rules, tree, ancestor, p, q)
      && exists d :: 0 <= d <= |older| && d <= |blocks| && undo == older[d..] && chain == blocks[d..]
    }

    lemma {:induction false} SwitchAddsNothing(p: seq<Block>, q: seq<Block>, tree: Index, ancestor: State<D>,
                                               blocks: seq<Block>)
      requires p != [] && q != [] && IsBranch(tree, p[0].id, p) && index == TreeAfterSwitch(rules, tree, ancestor, p, q)
      requires forall c :: c in chain ==> c in blocks || c in p
      ensures OnlyAdded(tree, index, blocks, chain, p[0])
    {
      assert forall c :: c in p ==> c.id in tree && tree[c.id] == c;
    }

    /** Pops the current branch and applies the new one as far as possible. */
    method TryBranch(p: seq<Block>, q: seq<Block>)
      returns (popped: bool, k: nat, ghost ancestor: State<D>, ghost dropped: nat, ghost news: seq<State<D>>)
      requires CanSwitch(p, q)
      modifies this`forkHead, this`db, this`undo, this`chain, this`maxUndo, this`maxFork, this`index, this`finality
      ensures popped <==> |q| <= |old(undo)|
      ensures !popped ==> OutOfUndo(Now(), old(Now()), p[0], old(index)) && !InSync()
      ensures popped ==>
        var m := |old(undo)| - |q|;
        && finality >= old(finality) && Fork(p, q, ancestor, old(undo), old(chain), old(db), old(index))
        && Tried(p, k, ancestor, old(undo)[..m], old(chain)[..m], old(index), dropped, news)
    {
      ReadyToPop(p, q);
      k, ancestor, dropped, news := 0, db, 0, [];
      ghost var c;
      popped, c := PopTo(Oldest(q).previous, q);
      if popped {
        ancestor := db;
        k, dropped, news := ApplyBranch(p);
        assert p[0..] == p;
      }
    }

    lemma {:induction false} SwitchedIsInSync(p: seq<Block>, tree: Index, blocks: seq<Block>, ancestor: State<D>,
                                              news: seq<State<D>>, dropped: nat, older: seq<State<D>>, cut: nat)
      requires p != [] && Going(p, 0, ancestor, older, blocks, dropped, news) && forkHead == Some(p[0])
      requires GoodIndex(tree) && NO_ID !in tree && AgreeWith(blocks, tree) && IsBranch(tree, p[0].id, p)
      requires forall i :: i in tree ==> tree[i].num <= p[0].num
      requires cut <= CutAt(p[0].num, 1) && index == KeptFrom(tree, cut)
      ensures InSync()
      ensures forall c :: c in chain ==> c in blocks || c in p
    {
      assert p[0..] == p;
      EndsWithTip(rules, news, Reversed(p), db, p);
      SmallerStaysGood(tree, index);
      assert forall c :: c in Reversed(p) ==> c in p;
      StillAgree(blocks, p, tree, p[0].id);
    }

    /** The last of the history are the blocks of a branch that were applied. */
    lemma {:induction false} ReadyToPopBack(p: seq<Block>, q: seq<Block>, k: nat, ancestor: State<D>,
                                            older: seq<State<D>>,
                                            blocks: seq<Block>, tree: Index, dropped: nat, news: seq<State<D>>)
      requires Going(p, k, ancestor, older, blocks, dropped, news) && forkHead.Some?
      requires p != [] && GoodIndex(tree) && IsBranch(tree, p[0].id, p) && q != [] && MeetBelow(p, q)
      requires q[0].id in tree && tree[q[0].id] == q[0]
      requires p[0].num == q[0].num + 1 && p[0].previous != q[0].id
      requires forkHead == Some(q[0]) && ancestor.head == Oldest(q).previous
      ensures LeadsTo(p[k..], Oldest(q).previous)
    {
      var t := |news|;
      forall c | 0 <= c < t
        ensures p[k..][c].id != Oldest(q).previous && p[k..][c].id != q[0].id
      {
        NotBelow(tree, p[0].id, p, k + c);
        NotTheHead(tree, p[0].id, p, k + c, q[0]);
      }
      forall c | 0 <= c <= t && c <= |undo|
        ensures HeadBelow(undo, db, c) == if c < t then p[k..][c].id else Oldest(q).previous
      {
        assert StateAt(undo, db, |undo| - c) == StateAt(news, db, t - c);
        if c < t {
          assert ApplyBlock(rules, news[t - 1 - c], Reversed(p[k..])[t - 1 - c]) == Some(StateAt(news, db, t - c));
        }
      }
    }

    /** The blocks of the branch that were applied are in the tree if and only if the oldest is. */
    lemma {:induction false} InTreeIffKept(p: seq<Block>, k: nat, tree: Index, cut: nat, part: Index)
      requires k < |p| && GoodIndex(tree) && IsBranch(tree, p[0].id, p)
      requires part == WithoutBlocks(KeptFrom(tree, cut), p[..k])
      ensures (forall c :: 0 <= c < |p| - k ==> p[k..][c].id in part) <==> cut <= Oldest(p).num
    {
      forall j | k <= j < |p|
        ensures p[j].id in part <==> cut <= p[j].num
        ensures Oldest(p).num <= p[j].num
      {
        StaysInTree(tree, p[0].id, p, k, j);
        BranchNumbers(tree, p[0].id, p, j);
        BranchNumbers(tree, p[0].id, p, |p| - 1);
        assert tree[p[j].id] == p[j];
      }
      if forall c :: 0 <= c < |p| - k ==> p[k..][c].id in part {
        assert p[k..][|p| - k - 1].id in part;
      }
    }

    /** The blocks that failed leave the tree, and its head is the old one again; the others can be
        popped if they are still there. */
    method DropFailed(p: seq<Block>, q: seq<Block>, k: nat, ghost ancestor: State<D>, ghost older: seq<State<D>>,
                      ghost blocks: seq<Block>, ghost was: State<D>, ghost tree: Index, ghost dropped: nat,
                      ghost news: seq<State<D>>)
      requires k > 0 && Fork(p, q, ancestor, older, blocks, was, tree)
      requires Tried(p, k, ancestor, older[..|older| - |q|], blocks[..|older| - |q|], tree, dropped, news)
      modifies this`index, this`forkHead
      ensures History() && LeadsTo(p[k..], Oldest(q).previous) && forkHead == Some(q[0])
      ensures index == WithoutBlocks(old(index), p[..k])
      ensures CanReturn(rules, ancestor, p) <==>
        |news| <= |undo| && forall c :: 0 <= c < |news| ==> p[k..][c].id in index
    {
      RemoveBranch(p, k);
      forkHead := Some(q[0]);
      ReadyToPopBack(p, q, k, ancestor, older[..|older| - |q|], blocks[..|older| - |q|], tree, dropped, news);
      assert p[|p| - |news|..] == p[k..];
      if k < |p| {
        InTreeIffKept(p, k, tree, CutBy(rules, p[0].num, ancestor, p), index);
      }
    }

    /** Those that were applied are popped, as far as that goes. */
    method LeaveBranch(p: seq<Block>, q: seq<Block>, k: nat, ghost ancestor: State<D>, ghost older: seq<State<D>>,
                       ghost blocks: seq<Block>, ghost was: State<D>, ghost tree: Index, ghost dropped: nat,
                       ghost news: seq<State<D>>)
      returns (popped: bool, ghost c: nat)
      requires k > 0 && Fork(p, q, ancestor, older, blocks, was, tree)
      requires Tried(p, k, ancestor, older[..|older| - |q|], blocks[..|older| - |q|], tree, dropped, news)
      modifies this`index, this`forkHead, this`db, this`undo, this`chain
      ensures History() && popped == CanReturn(rules, ancestor, p)
      ensures forkHead == Some(q[0]) && index == WithoutBlocks(old(index), p[..k])
      ensures popped ==>
        var m := |older| - |q|;
        && dropped <= m && undo == older[..m][dropped..] && chain == blocks[..m][dropped..] && db == ancestor
      ensures !popped ==>
        && StopsAt(p[k..], c) && db.head != q[0].id && Some(db) == Replay(rules, ancestor, p[k..][c..])
    {
      DropFailed(p, q, k, ancestor, older, blocks, was, tree, dropped, news);
      ghost var tip, states := db, undo;
      popped, c := PopTo(Oldest(q).previous, p[k..]);
      PoppedFrom(p[k..], ancestor, older[..|older| - |q|], dropped, news, tip, states, c);
    }

    /** So far down a branch that was applied, the state is that of the branch up to there. */
    lemma {:induction false} PoppedFrom(branch: seq<Block>, ancestor: State<D>, older: seq<State<D>>, dropped: nat,
                                        news: seq<State<D>>, was: State<D>, states: seq<State<D>>, c: nat)
      requires |branch| == |news| && IsHistory(rules, news, Reversed(branch), was) && (news + [was])[0] == ancestor
      requires dropped <= |older + news| && states == (older + news)[dropped..]
      requires c <= |news| && c <= |states|
      ensures Some((states + [was])[|states| - c]) == Replay(rules, ancestor, branch[c..])
      ensures c == |news| ==> dropped <= |older| && states[..|states| - c] == older[dropped..]
    {
      HistoryReplays(rules, news, Reversed(branch), was, branch, c);
      FromTheEnd(older, news, was, states, dropped, c);
    }

    /** The new branch failed: everything goes back to where it was, if the way back is open. */
    method GiveUp(p: seq<Block>, q: seq<Block>, k: nat, ghost ancestor: State<D>, ghost older: seq<State<D>>,
                  ghost blocks: seq<Block>, ghost was: State<D>, ghost tree: Index, ghost dropped: nat,
                  ghost news: seq<State<D>>)
      returns (r: Outcome)
      requires k > 0 && Fork(p, q, ancestor, older, blocks, was, tree)
      requires Tried(p, k, ancestor, older[..|older| - |q|], blocks[..|older| - |q|], tree, dropped, news)
      modifies this
      ensures r == if CanReturn(rules, ancestor, p) then SwitchFailed else Stuck
      ensures r != Stuck ==> finality >= old(finality) && Returned(p, q, ancestor, older, blocks, was, tree)
      ensures r == Stuck ==> HalfWay(rules, Now(), was, tree, ancestor, p, q)
    {
      ghost var m, cut := |older| - |q|, CutBy(rules, p[0].num, ancestor, p);
      var popped;
      ghost var c;
      popped, c := LeaveBranch(p, q, k, ancestor, older, blocks, was, tree, dropped, news);
      if !popped {
        StuckHalfWay(p, q, k, ancestor, was, tree, c);
        return Stuck;
      }
      SwitchBack(q, ancestor, older, blocks, was, dropped);
      CutIsBelow(rules, p[0].num, ancestor, p);
      CutIsBelow(rules, q[0].num, ancestor, q);
      RestoredIsInSync(p, q, k, blocks, was, tree, cut, CutBy(rules, q[0].num, ancestor, q));
      r := SwitchFailed;
    }

    lemma {:induction false} StuckHalfWay(p: seq<Block>, q: seq<Block>, k: nat, ancestor: State<D>, was: State<D>,
                                          tree: Index, c: nat)
      requires p != [] && q != [] && 0 < k <= |p| && k == |p| - Applied(rules, ancestor, p)
      requires StopsAt(p[k..], c) && Some(db) == Replay(rules, ancestor, p[k..][c..])
      requires forkHead == Some(q[0]) && db.head != q[0].id && was.head == q[0].id
      requires index == WithoutBlocks(KeptFrom(tree, CutBy(rules, p[0].num, ancestor, p)), p[..k])
      ensures HalfWay(rules, Now(), was, tree, ancestor, p, q)
    {
      forall i | k <= i < k + c
        ensures p[i].id in index
      {
        assert p[i] == p[k..][i - k];
      }
      assert p[k + c] == p[k..][c] && p[k + c..] == p[k..][c..];
    }

    lemma {:induction false} RestoredIsInSync(p: seq<Block>, q: seq<Block>, k: nat, blocks: seq<Block>, was: State<D>,
                                              tree: Index, cut: nat, cut': nat)
      requires History() && forkHead.Some? && 0 < k <= |p| && q != [] && forkHead.value == q[0] && db == was
      requires GoodIndex(tree) && NO_ID !in tree && AgreeWith(blocks, tree) && IsBranch(tree, p[0].id, p)
      requires IsBranch(tree, was.head, q) && was.num == q[0].num && p[0].num == q[0].num + 1
      requires p[0].previous != q[0].id
      requires forall i :: i in tree && i != p[0].id ==> tree[i].num <= was.num
      requires cut <= was.num && cut' <= was.num && index == KeptFrom(WithoutBlocks(KeptFrom(tree, cut), p[..k]), cut')
      requires exists d :: 0 <= d <= |blocks| && chain == blocks[d..]
      ensures InSync()
    {
      SmallerTree(tree, p, k, q[0], WithoutBlocks(KeptFrom(tree, cut), p[..k]), index, cut, cut');
    }

    /** Restores the branch that was current before: it applies as it did then. */
    method SwitchBack(q: seq<Block>, ghost ancestor: State<D>, ghost older: seq<State<D>>, ghost blocks: seq<Block>,
                      ghost was: State<D>, ghost dropped: nat)
      requires History() && forkHead.Some? && q != [] && |q| <= |older| && db == ancestor
      requires IsHistory(rules, older, blocks, was) && Replay(rules, ancestor, q) == Some(was)
      requires var m := |older| - |q|;
               && dropped <= m && undo == older[..m][dropped..] && chain == blocks[..m][dropped..]
               && ancestor == older[m] && blocks[m..] == Reversed(q)
      modifies this`db, this`undo, this`chain, this`maxUndo, this`maxFork, this`index, this`finality
      ensures History() && finality >= old(finality) && db == was
      ensures index == KeptFrom(old(index), CutBy(rules, forkHead.value.num, ancestor, q))
      ensures exists d :: 0 <= d <= |older| && undo == older[d..] && chain == blocks[d..]
    {
      ghost var m := |older| - |q|;
      var left;
      ghost var more, again;
      left, more, again := ApplyBranch(q);
      assert left == 0 && q[0..] == q;
      SuffixIsHistory(rules, older, blocks, was, m);
      HistoriesAgree(rules, again, db, older[m..], was, Reversed(q));
      assert older[..m][dropped..] + older[m..] == older[dropped..];
      assert blocks[..m][dropped..] + blocks[m..] == blocks[dropped..];
      assert undo == older[dropped + more..] && chain == blocks[dropped + more..];
    }

    // ----- pushing a block -----

    /** What is assumed of a new block: its id identifies it, and its number is its parent's plus one. */
    ghost predicate GoodBlock(b: Block)
      reads this`index, this`chain
    {
      && b.id != NO_ID && b.num > 0 && FitsIndex(index, b) && (b.previous == NO_ID ==> b.num == 1)
      && forall c :: c in chain && c.id == b.id ==> c == b
    }

    /** The tree has a new head, which the chain has not followed yet. */
    ghost predicate AheadBy(b: Block)
      reads this
    {
      && GoodIndex(index) && NO_ID !in index && History() && Agree()
      && forkHead == Some(b) && b.id in index && index[b.id] == b
      && (forall i :: i in index && i != b.id ==> index[i].num <= db.num)
      && (forall c :: c in chain && c.id == b.id ==> c == b)
      && b.num > db.num && (b.previous == NO_ID ==> b.num == 1)
      && if db.head == NO_ID then db.num == 0 && undo == [] && index == map[b.id := b]
         else b.num == db.num + 1 && db.head in index && index[db.head].num == db.num && db.head != b.id
    }

    /** How a new block puts the tree ahead of the chain. */
    lemma {:induction false} NewHeadIsAhead(tree: Index, b: Block, head: Option<Block>)
      requires GoodIndex(tree) && NO_ID !in tree && GoodIndex(index) && NO_ID !in index && History()
      requires AgreeWith(chain, tree)
      requires b.id != NO_ID && b.num > 0 && FitsIndex(tree, b) && (b.previous == NO_ID ==> b.num == 1)
      requires forall c :: c in chain && c.id == b.id ==> c == b
      requires index == TreeWith(tree, b, head, maxFork) && forkHead == Some(b) && Higher(b, head)
      requires match head
               case None => db.head == NO_ID && db.num == 0 && tree == map[] && undo == []
               case Some(h) =>
                 && h.id in tree && tree[h.id] == h && db.head == h.id && db.num == h.num
                 && (b.previous != NO_ID ==> b.previous in tree)
                 && forall i :: i in tree ==> tree[i].num <= h.num
      ensures AheadBy(b)
    {
      assert b.id in index && index[b.id] == b;
      if head.Some? {
        assert b.num == db.num + 1;
        assert db.head in index && index[db.head] == tree[db.head];
      }
    }

    /** The new head follows the chain's head. */
    method ExtendChain(b: Block) returns (ok: bool)
      requires AheadBy(b) && b.previous == db.head
      modifies this
      ensures InSync() && finality >= old(finality)
      ensures ok <==> ApplyBlock(rules, old(db), b).Some?
      ensures ok ==>
        && Some(db) == ApplyBlock(rules, old(db), b) && forkHead == Some(b) && index == old(TreeAfter(b))
        && undo == old(LastOf(undo, maxUndo) + [db]) && maxUndo == maxFork == SizeAfter(rules, old(db), b)
      ensures !ok ==>
        && db == old(db) && undo == old(LastOf(undo, maxUndo)) && index == old(TreeAfter(b)) - {b.id}
        && forkHead == (if db.head == NO_ID then None else Some(old(index)[db.head]))
      ensures forall c :: c in chain ==> c in old(chain) || c == b
    {
      ghost var d, blocks, older, tree, was := Dropped(), chain, undo, index, db;
      ok := ApplyInSession(b);
      assert older[d..] == old(LastOf(undo, maxUndo));
      if ok {
        ExtendedIsInSync(tree, b, blocks, was);
      } else {
        RemoveFromTree(b.id);
        assert chain == blocks[d..];
        RefusedIsInSync(tree, b, blocks);
      }
    }

    lemma {:induction false} ExtendedIsInSync(tree: Index, b: Block, blocks: seq<Block>, was: State<D>)
      requires History() && GoodIndex(tree) && NO_ID !in tree && AgreeWith(blocks, tree) && b.id in tree
      requires tree[b.id] == b
      requires forkHead == Some(b) && db.head == b.id && db.num == b.num
      requires forall c :: c in chain ==> c in blocks || c == b
      requires forall i :: i in tree ==> tree[i].num <= b.num
      requires index == KeptFrom(tree, CutAfter(rules, b.num, was, b))
      ensures InSync()
    {
      SmallerStaysGood(tree, index);
    }

    lemma {:induction false} RefusedIsInSync(tree: Index, b: Block, blocks: seq<Block>)
      requires History() && GoodIndex(tree) && NO_ID !in tree && AgreeWith(blocks, tree)
      requires forall c :: c in chain ==> c in blocks
      requires index == KeptFrom(tree, CutAfter(rules, b.num, db, b)) - {b.id} && b.num > db.num
      requires forall i :: i in tree && i != b.id ==> tree[i].num <= db.num
      requires if db.head == NO_ID then db.num == 0 && undo == [] && tree == map[b.id := b] && forkHead == None
               else b.num == db.num + 1 && db.head in tree && tree[db.head].num == db.num && db.head != b.id
                    && forkHead == Some(tree[db.head])
      ensures InSync()
    {
      SmallerStaysGood(tree, index);
    }

    /** The new head does not follow the chain's head. */
    lemma {:induction false} ReadyToSwitch(b: Block, p: seq<Block>, q: seq<Block>)
      requires AheadBy(b) && b.previous != db.head && db.head != NO_ID
      requires IsBranch(index, b.id, p) && IsBranch(index, db.head, q) && MeetBelow(p, q)
      ensures CanSwitch(p, q)
    {
    }

    /** `_push_block`. The outcome and all it changes are determined by the block and the state
        before; only where the way is blocked half way is the chain left out of step with the tree. */
    method PushBlock(b: Block) returns (r: Outcome, ghost p: seq<Block>, ghost q: seq<Block>)
      requires InSync() && GoodBlock(b)
      modifies this
      ensures Pushed(rules, r, b, old(Now()), Now(), p, q)
      ensures InSync() <==> !Blocked(r)
      ensures r != Stuck ==>
        finality >= old(finality) && db.num >= old(db.num) && OnlyAdded(old(index), index, old(chain), chain, b)
    {
      p, q := [], [];
      ghost var tree, head, maxFork', was := index, forkHead, maxFork, Now();
      r := PushToTree(b);
      if r != Recorded {
        return;
      }
      TreeStaysGood(tree, b, head, maxFork);
      if Higher(b, head) {
        NewHeadIsAhead(tree, b, head);
      } else {
        SideBlockKeepsSync(tree, b);
      }
      ghost var grown, blocks := index, chain;
      r, p, q := FollowTree(b, was);
      if r != Stuck {
        AddedTwice(tree, grown, index, blocks, chain, b, head, maxFork');
      }
    }

    /** The second part of `_push_block`: the chain follows the tree's head. */
    method FollowTree(b: Block, ghost was: Node<D>) returns (r: Outcome, ghost p: seq<Block>, ghost q: seq<Block>)
      requires Since(was)
      requires if Higher(b, was.forkHead) then AheadBy(b) && HeadKept(was)
               else InSync() && forkHead.Some? && forkHead == was.forkHead
      modifies this
      ensures if Higher(b, was.forkHead) then Followed(rules, r, b, was, old(index), p, q) else r == Recorded
      ensures Became(rules, r, b, was, Now(), old(index), p, q)
      ensures InSync() <==> !Blocked(r)
      ensures r != Stuck ==>
        finality >= old(finality) && db.num >= old(db.num) && OnlyAdded(old(index), index, old(chain), chain, b)
    {
      p, q := [], [];
      var newHead := forkHead.value;
      if newHead.previous != db.head {
        r := Recorded;
        if newHead.num > db.num {
          r, p, q := FollowFork(newHead, was);
        }
        return;
      }
      var applied := ExtendChain(newHead);
      r := if applied then Extended else Refused;
    }

    /** The new head is on another branch. */
    method FollowFork(b: Block, ghost was: Node<D>) returns (r: Outcome, ghost p: seq<Block>, ghost q: seq<Block>)
      requires Since(was) && AheadBy(b) && HeadKept(was) && b.previous != db.head
      modifies this
      ensures Followed(rules, r, b, was, old(index), p, q)
      ensures Became(rules, r, b, was, Now(), old(index), p, q)
      ensures InSync() <==> !Blocked(r)
      ensures r != Stuck ==>
        finality >= old(finality) && db.num >= old(db.num) && OnlyAdded(old(index), index, old(chain), chain, b)
    {
      var ok, first, second := FetchBranchFrom(index, b.id, db.head);
      p, q := first, second;
      if !ok {
        return NoBranch, p, q;
      }
      ReadyToSwitch(b, first, second);
      r := SwitchForks(first, second, was);
    }

    /** A block that does not become the tree's head changes nothing else. */
    lemma {:induction false} SideBlockKeepsSync(tree: Index, b: Block)
      requires GoodIndex(tree) && GoodIndex(index) && NO_ID !in index && History() && AgreeWith(chain, tree)
      requires forall c :: c in chain && c.id == b.id ==> c == b
      requires FitsIndex(tree, b) && index == tree[b.id := b]
      requires forkHead.Some? && b.num <= forkHead.value.num
      requires var h := forkHead.value;
               h.id in tree && tree[h.id] == h && db.head == h.id && db.num == h.num
               && forall i :: i in tree ==> tree[i].num <= h.num
      ensures InSync()
    {
    }

    /** The undo states reach every fork point that is not below finality. */
    lemma {:induction false} UndoReachesFinality(q: seq<Block>)
      requires InSync() && IsBranch(index, db.head, q) && Oldest(q).num > finality
      ensures |q| <= |undo|
    {
      BranchNumbers(index, db.head, q, |q| - 1);
    }

    // ----- runs -----

    ghost predicate Within(world: set<Block>)
      reads this`index, this`chain
    {
      (forall i :: i in index ==> index[i] in world) && forall c :: c in chain ==> c in world
    }

    lemma {:induction false} GoodInWorld(world: set<Block>, b: Block)
      requires GoodIndex(index) && Within(world) && Consistent(world) && b in world
      ensures GoodBlock(b)
    {
    }

    lemma {:induction false} StaysWithin(world: set<Block>, tree: Index, blocks: seq<Block>, b: Block)
      requires b in world && OnlyAdded(tree, index, blocks, chain, b)
      requires (forall i :: i in tree ==> tree[i] in world) && forall c :: c in blocks ==> c in world
      ensures Within(world)
    {
      assert forall c :: c in tree.Values ==> c in world;
      assert forall i :: i in index ==> index[i] in index.Values;
    }

    /** Pushes one block after the other, until the chain is left out of step with the tree. What
        was assumed of the chain for the first block holds again for each of them, and each push
        does what one push does. */
    method PushAll(blocks: seq<Block>, ghost world: set<Block>)
      returns (outcomes: seq<Outcome>, ghost trace: seq<Node<D>>)
      requires InSync() && Within(world) && Consistent(world) && forall b :: b in blocks ==> b in world
      modifies this
      ensures Traced(rules, blocks, outcomes, trace)
      ensures trace[0] == old(Now()) && trace[|outcomes|] == Now()
      ensures |outcomes| < |blocks| ==> !InStep(outcomes)
      ensures InSync() <==> InStep(outcomes)
      ensures InSync() ==> Within(world) && db.num >= old(db.num) && finality >= old(finality)
    {
      outcomes, trace := [], [Now()];
      while InStep(outcomes) && |outcomes| < |blocks|
        invariant Traced(rules, blocks, outcomes, trace)
        invariant trace[0] == old(Now()) && trace[|outcomes|] == Now()
        invariant InSync() <==> InStep(outcomes)
        invariant InSync() ==> Within(world) && db.num >= old(db.num) && finality >= old(finality)
        decreases |blocks| - |outcomes|
      {
        var r := PushInWorld(blocks[|outcomes|], world);
        TraceOn(rules, blocks, outcomes, trace, r, Now());
        outcomes, trace := outcomes + [r], trace + [Now()];
      }
    }

    method PushInWorld(b: Block, ghost world: set<Block>) returns (r: Outcome)
      requires InSync() && Within(world) && Consistent(world) && b in world
      modifies this
      ensures Step(rules, r, b, old(Now()), Now()) && (InSync() <==> !Blocked(r))
      ensures !Blocked(r) ==> Within(world) && db.num >= old(db.num) && finality >= old(finality)
    {
      GoodInWorld(world, b);
      ghost var tree, blocks := index, chain;
      ghost var p, q;
      r, p, q := PushBlock(b);
      if !Blocked(r) {
        StaysWithin(world, tree, blocks, b);
      }
    }

    /** A first block with an unknown parent becomes the head of the tree, where the chain cannot
        follow it. */
    method OrphanIsAhead(b: Block) returns (r: Outcome)
      requires InSync() && forkHead.None? && b.id != NO_ID && b.num > 0 && b.previous != NO_ID && b.previous != b.id
      modifies this
      ensures r == NoBranch && forkHead == Some(b) && db == old(db) && !InSync()
    {
      assert chain == [];
      ghost var p, q;
      r, p, q := PushBlock(b);
    }
  }

  /** A sequence counted from its end does not depend on what is dropped from its front. */
  lemma {:induction false} FromTheEnd<D>(a: seq<State<D>>, b: seq<State<D>>, last: State<D>, s: seq<State<D>>,
                                         dropped: nat, c: nat)
    requires dropped <= |a + b| && s == (a + b)[dropped..] && c <= |b| && c <= |s|
    ensures (s + [last])[|s| - c] == StateAt(b, last, |b| - c)
    ensures c == |b| ==> dropped <= |a| && s[..|s| - c] == a[dropped..]
  {
  }

  /** No block but one is new to the tree or the history. */
  ghost predicate OnlyAdded(tree: Index, tree': Index, blocks: seq<Block>, blocks': seq<Block>, b: Block) {
    && (forall c :: c in tree'.Values ==> c in tree.Values || c == b)
    && (forall c :: c in blocks' ==> c in blocks || c in tree.Values || c == b)
  }

  lemma {:induction false} AddedTwice(tree: Index, grown: Index, tree': Index, blocks: seq<Block>, blocks': seq<Block>,
                                      b: Block, head: Option<Block>, maxFork: nat)
    requires grown == TreeWith(tree, b, head, maxFork) && OnlyAdded(grown, tree', blocks, blocks', b)
    ensures OnlyAdded(tree, tree', blocks, blocks', b)
  {
    assert forall i :: i in grown ==> grown[i] == b || (i in tree && tree[i] == grown[i]);
  }

  /** Ids are hashes: blocks with the same id are the same, and numbers count from parent to child. */
  ghost predicate Consistent(world: set<Block>) {
    && (forall b ::
          b in world ==> b.id != NO_ID && b.num > 0 && b.previous != b.id && (b.previous == NO_ID ==> b.num == 1))
    && forall b, c :: b in world && c in world ==>
         && (b.id == c.id ==> b == c)
         && (b.previous == c.id ==> b.num == c.num + 1)
         && (b.previous == c.previous ==> b.num == c.num)
  }

  /** While nothing more becomes irreversible than it was at the fork point, a branch of which some
      blocks apply and one does not can be left again if and only if it is no longer than what was
      reversible at the fork point, and three. */
  lemma {:induction false} ReturnsIffShallow<D>(rules: Rules<D>,
                                                s: State<D>, p: seq<Block>, last: nat)
    requires p != [] && last <= s.num && (forall i :: 0 <= i < |p| ==> p[i].num == s.num + |p| - i)
    requires forall i ::
      0 <= i <= |p| && Replay(rules, s, p[i..]).Some? ==>
        rules.irreversible(Replay(rules, s, p[i..]).value.objects) == last
    requires Applied(rules, s, p) > 0
    ensures CanReturn(rules, s, p) <==> |p| <= s.num - last + 3
  {
    OldestApplies(rules, s, p);
    CutByFirst(rules, s, p, last, 0);
    assert p[0..] == p;
    UndoKeepsAll(rules, s, p, last, |p| - Applied(rules, s, p));
  }

  lemma {:induction false} OldestApplies<D>(rules: Rules<D>, s: State<D>, p: seq<Block>)
    requires p != [] && Applied(rules, s, p) > 0
    ensures Replay(rules, s, p[|p| - 1..]).Some?
    decreases |p|
  {
    if Replay(rules, s, p[|p| - 1..]).None? {
      FailureStays(rules, s, p, |p| - 1);
      if |p| > 1 {
        assert p[1..][|p| - 2..] == p[|p| - 1..];
        OldestApplies(rules, s, p[1..]);
      }
    }
  }

  lemma {:induction false} CutByFirst<D>(rules: Rules<D>,
                                         s: State<D>, p: seq<Block>, last: nat, j: nat)
    requires p != [] && last <= s.num && j < |p| && (forall i :: 0 <= i < |p| ==> p[i].num == s.num + |p| - i)
    requires forall i ::
      0 <= i <= |p| && Replay(rules, s, p[i..]).Some? ==>
        rules.irreversible(Replay(rules, s, p[i..]).value.objects) == last
    requires Replay(rules, s, p[|p| - 1..]).Some?
    ensures CutBy(rules, p[0].num, s, p[j..]) == CutAt(p[0].num, s.num + 2 - last)
    decreases |p| - j
  {
    assert p[j..][1..] == p[j + 1..];
    if j + 1 < |p| {
      CutByFirst(rules, s, p, last, j + 1);
    } else {
      assert p[j + 1..] == [];
    }
  }

  lemma {:induction false} UndoKeepsAll<D>(rules: Rules<D>, s: State<D>, p: seq<Block>, last: nat, j: nat)
    requires last <= s.num && j <= |p| && (forall i :: 0 <= i < |p| ==> p[i].num == s.num + |p| - i)
    requires forall i ::
      0 <= i <= |p| && Replay(rules, s, p[i..]).Some? ==>
        rules.irreversible(Replay(rules, s, p[i..]).value.objects) == last
    ensures UndoKeeps(rules, s, p[j..])
    decreases |p| - j
  {
    if j < |p| {
      assert p[j..][1..] == p[j + 1..];
      UndoKeepsAll(rules, s, p, last, j + 1);
    }
  }

  lemma {:induction false} SuffixIsHistory<D>(rules: Rules<D>, undo: seq<State<D>>, chain: seq<Block>, db: State<D>,
                                              d: nat)
    requires IsHistory(rules, undo, chain, db) && d <= |undo|
    ensures IsHistory(rules, undo[d..], chain[d..], db)
  {
    forall i | 0 <= i < |undo| - d
      ensures ApplyBlock(rules, undo[d..][i], chain[d..][i]) == Some(StateAt(undo[d..], db, i + 1))
    {
      assert ApplyBlock(rules, undo[d + i], chain[d + i]) == Some(StateAt(undo, db, d + i + 1));
    }
  }

  lemma {:induction false} PrefixIsHistory<D>(rules: Rules<D>, undo: seq<State<D>>, chain: seq<Block>, db: State<D>,
                                              n: nat)
    requires IsHistory(rules, undo, chain, db) && n < |undo|
    ensures IsHistory(rules, undo[..n], chain[..n], undo[n])
  {
    forall i | 0 <= i < n
      ensures ApplyBlock(rules, undo[..n][i], chain[..n][i]) == Some(StateAt(undo[..n], undo[n], i + 1))
    {
      assert ApplyBlock(rules, undo[i], chain[i]) == Some(StateAt(undo, db, i + 1));
    }
  }

  lemma {:induction false} OneMore<D>(rules: Rules<D>, undo: seq<State<D>>, chain: seq<Block>, db: State<D>, b: Block,
                                      db': State<D>)
    requires IsHistory(rules, undo, chain, db) && ApplyBlock(rules, db, b) == Some(db')
    ensures IsHistory(rules, undo + [db], chain + [b], db')
  {
    forall i | 0 <= i <= |undo|
      ensures ApplyBlock(rules, (undo + [db])[i], (chain + [b])[i]) == Some(StateAt(undo + [db], db', i + 1))
    {
      if i < |undo| {
        assert ApplyBlock(rules, undo[i], chain[i]) == Some(StateAt(undo, db, i + 1));
      }
    }
  }

  lemma {:induction false} EndsWithTip<D>(rules: Rules<D>, undo: seq<State<D>>, chain: seq<Block>, db: State<D>,
                                          p: seq<Block>)
    requires IsHistory(rules, undo, chain, db) && p != [] && |p| <= |chain| && chain[|chain| - |p|..] == Reversed(p)
    ensures db.head == p[0].id && db.num == p[0].num
  {
    assert chain[|chain| - 1] == chain[|chain| - |p|..][|p| - 1];
    assert ApplyBlock(rules, undo[|undo| - 1], chain[|chain| - 1]) == Some(StateAt(undo, db, |undo|));
  }

  lemma {:induction false} StillAgree(chain: seq<Block>, p: seq<Block>, index: Index, tip: Id)
    requires AgreeWith(chain, index) && IsBranch(index, tip, p)
    ensures AgreeWith(chain + Reversed(p), index)
  {
  }

  /** Without the blocks that failed, the tip among them, and those that were too low, the tree
      still has the old head, and nothing above it. */
  lemma {:induction false} SmallerTree(tree: Index, p: seq<Block>, k: nat, head: Block, part: Index, rest: Index,
                                       cut: nat, cut': nat)
    requires GoodIndex(tree) && 0 < k <= |p| && IsBranch(tree, p[0].id, p) && head.id in tree && tree[head.id] == head
    requires p[0].num == head.num + 1 && p[0].previous != head.id
    requires forall i :: i in tree && i != p[0].id ==> tree[i].num <= head.num
    requires part == WithoutBlocks(KeptFrom(tree, cut), p[..k]) && cut <= head.num
    requires cut' <= head.num && rest == KeptFrom(part, cut')
    ensures GoodIndex(rest) && head.id in rest && rest[head.id] == head && p[0].id !in rest
    ensures forall i :: i in rest ==> i in tree && rest[i] == tree[i] && rest[i].num <= head.num
  {
    SmallerStaysGood(tree, rest);
    assert p[..k][0].id == p[0].id;
    TheHeadStays(tree, p[0].id, p, k, head);
  }

  lemma {:induction false} TheHeadStays(tree: Index, tip: Id, p: seq<Block>, k: nat, head: Block)
    requires GoodIndex(tree) && IsBranch(tree, tip, p) && k <= |p| && head.id in tree && tree[head.id] == head
    requires p[0].num == head.num + 1 && p[0].previous != head.id
    ensures head.id in WithoutBlocks(tree, p[..k])
  {
    forall j | 0 <= j < k
      ensures p[j].id != head.id
    {
      NotTheHead(tree, tip, p, j, head);
    }
  }

  /** Blocks that are not removed stay in the tree. */
  lemma {:induction false} StaysInTree(tree: Index, tip: Id, p: seq<Block>, k: nat, j: nat)
    requires GoodIndex(tree) && IsBranch(tree, tip, p) && k <= j < |p|
    ensures p[j].id in WithoutBlocks(tree, p[..k])
  {
    forall i | 0 <= i < k
      ensures p[i].id != p[j].id
    {
      BranchNumbers(tree, tip, p, i);
      BranchNumbers(tree, tip, p, j);
      assert tree[p[i].id] == p[i] && tree[p[j].id] == p[j];
    }
  }

  /** The old head is not on the new branch. */
  lemma {:induction false} NotTheHead(tree: Index, tip: Id, p: seq<Block>, j: nat, head: Block)
    requires GoodIndex(tree) && IsBranch(tree, tip, p) && j < |p|
    requires head.id in tree ==> tree[head.id] == head
    requires p[0].num == head.num + 1 && p[0].previous != head.id
    ensures p[j].id != head.id
  {
    BranchNumbers(tree, tip, p, j);
    assert tree[p[j].id] == p[j];
    assert j == 1 ==> p[0].previous == p[1].id;
  }

  /** The parent of a branch's oldest block is not one of its blocks. */
  lemma {:induction false} NotBelow(index: Index, tip: Id, q: seq<Block>, j: nat)
    requires GoodIndex(index) && IsBranch(index, tip, q) && j < |q|
    ensures q[j].id != Oldest(q).previous
  {
    BranchNumbers(index, tip, q, j);
    BranchNumbers(index, tip, q, |q| - 1);
    assert index[Oldest(q).id] == Oldest(q) && index[q[j].id] == q[j];
  }

  /** A tree without some blocks. */
  function WithoutBlocks(index: Index, blocks: seq<Block>): Index {
    map i | i in index && forall j :: 0 <= j < |blocks| ==> blocks[j].id != i :: index[i]
  }

  predicate Higher(b: Block, head: Option<Block>) {
    head.None? || b.num > head.value.num
  }

  /** The tree with a block added, and without what has become too old. */
  function TreeWith(index: Index, b: Block, head: Option<Block>, maxFork: nat): Index {
    var all := index[b.id := b];
    if head.Some? && b.num > head.value.num then KeptFrom(all, CutAt(b.num, maxFork)) else all
  }

  /** A tree without the blocks below a number. */
  function KeptFrom(index: Index, lowest: nat): Index {
    map i | i in index && index[i].num >= lowest :: index[i]
  }

  lemma {:induction false} KeptTwice(index: Index, a: nat, b: nat)
    ensures KeptFrom(KeptFrom(index, a), b) == KeptFrom(index, Max(a, b))
  {
  }

  lemma {:induction false} TreeStaysGood(index: Index, b: Block, head: Option<Block>, maxFork: nat)
    requires GoodIndex(index) && FitsIndex(index, b)
    ensures GoodIndex(TreeWith(index, b, head, maxFork))
    ensures NO_ID !in index && b.id != NO_ID ==> NO_ID !in TreeWith(index, b, head, maxFork)
  {
    InsertKeepsIndex(index, b);
    var all, r := index[b.id := b], TreeWith(index, b, head, maxFork);
    assert forall i :: i in r ==> i in all && r[i] == all[i];
    SmallerStaysGood(all, r);
  }

  lemma {:induction false} SmallerStaysGood(index: Index, part: Index)
    requires GoodIndex(index) && forall i :: i in part ==> i in index && part[i] == index[i]
    ensures GoodIndex(part)
  {
    forall i, j | Siblings(part, i, j)
      ensures part[i].num == part[j].num
    {
      assert Siblings(index, i, j);
    }
  }

  lemma {:induction false} InsertKeepsIndex(index: Index, b: Block)
    requires GoodIndex(index) && FitsIndex(index, b)
    ensures GoodIndex(index[b.id := b])
  {
    var grown := index[b.id := b];
    forall i, j | Siblings(grown, i, j)
      ensures grown[i].num == grown[j].num
    {
      if i != b.id && j != b.id {
        assert Siblings(index, i, j);
      }
    }
  }
}
