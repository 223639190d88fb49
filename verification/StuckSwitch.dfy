/** A failed switch to a longer fork that is not undone, from an empty chain on. */
module StuckSwitch {
  import opened Options
  import opened Amounts
  import opened ForkDatabase
  import opened ForkSwitch

  /** Blocks apply unless they say otherwise, and nothing becomes irreversible. */
  function Simple(): Rules<int> {
    Rules((d: int, b: Block) => if b.payload == 0 then Some(d) else None, (d: int) => 0, (d: int, b: Block) => false)
  }

  /** Three blocks of the old branch, and four of the new one, of which the second fails. */
  function Old(i: nat): Block {
    Block(i, i - Min(i, 1), i, 0)
  }

  function New(i: nat): Block {
    Block(10 + i, if i <= 1 then 0 else 9 + i, i, if i == 2 then 1 else 0)
  }

  /** The chain after a block that follows the head and applies, so early that nothing is cut. */
  function Extended(was: Node<int>, b: Block): Node<int> {
    Node(was.index[b.id := b], Some(b), b.num + 1, State(b.id, b.num, was.db.objects), was.undo + [was.db], b.num + 1)
  }

  lemma {:induction false} ExtendsTo(r: Outcome, b: Block, was: Node<int>, now: Node<int>, p: seq<Block>, q: seq<Block>)
    requires Pushed(Simple(), r, b, was, now, p, q) && Linked(was, b) == Recorded && Higher(b, was.forkHead)
    requires b.payload == 0 && Follows(was.db, b) && b.num <= was.maxFork && |was.undo| <= was.maxUndo
    ensures r == ForkSwitch.Outcome.Extended && now == Extended(was, b)
  {
    var all := was.index[b.id := b];
    assert KeptFrom(all, 0) == all;
    assert TreeWith(was.index, b, was.forkHead, was.maxFork) == all;
    assert ApplyBlock(Simple(), was.db, b) == Some(State(b.id, b.num, was.db.objects));
    assert SizeAfter(Simple(), was.db, b) == b.num + 1;
  }

  lemma {:induction false} RecordsTo(r: Outcome, b: Block, was: Node<int>, now: Node<int>, p: seq<Block>, q: seq<Block>)
    requires Pushed(Simple(), r, b, was, now, p, q) && Linked(was, b) == Recorded && !Higher(b, was.forkHead)
    ensures r == Recorded && now == was.(index := was.index[b.id := b])
  {
  }

  ghost function World(): set<Block> {
    {Old(1), Old(2), Old(3), New(1), New(2), New(3), New(4)}
  }

  lemma {:induction false} WorldIsConsistent()
    ensures Consistent(World())
  {
    forall b, c | b in World() && c in World()
      ensures b.id == c.id ==> b == c
      ensures b.previous == c.id ==> b.num == c.num + 1
      ensures b.previous == c.previous ==> b.num == c.num
    {
      IsOldOrNew(b);
      IsOldOrNew(c);
    }
    forall b | b in World()
      ensures b.id != NO_ID && b.num > 0 && b.previous != b.id && (b.previous == NO_ID ==> b.num == 1)
    {
      IsOldOrNew(b);
    }
  }

  lemma {:induction false} IsOldOrNew(b: Block)
    requires b in World()
    ensures 0 < b.num <= 4 && (b == New(b.num) || (b.num < 4 && b == Old(b.num)))
  {
  }

  /** A block that follows the head. */
  method Extend(c: Chain<int>, b: Block, ghost world: set<Block>)
    requires c.InSync() && c.Within(world) && Consistent(world) && c.rules == Simple() && b in world
    requires b.payload == 0 && Follows(c.db, b) && b.num <= c.maxFork && |c.undo| <= c.maxUndo
    modifies c
    ensures c.InSync() && c.Within(world) && c.Now() == old(Extended(c.Now(), b))
  {
    ghost var was := c.Now();
    var r := c.PushInWorld(b, world);
    ghost var p, q :| Pushed(c.rules, r, b, was, c.Now(), p, q);
    ExtendsTo(r, b, was, c.Now(), p, q);
  }

  /** A block of another branch, not higher than the head. */
  method Record(c: Chain<int>, b: Block, ghost world: set<Block>)
    requires c.InSync() && c.Within(world) && Consistent(world) && c.rules == Simple() && b in world
    requires Linked(c.Now(), b) == Recorded && !Higher(b, c.forkHead)
    modifies c
    ensures c.InSync() && c.Within(world) && c.Now() == old(c.Now().(index := c.index[b.id := b]))
  {
    ghost var was := c.Now();
    var r := c.PushInWorld(b, world);
    ghost var p, q :| Pushed(c.rules, r, b, was, c.Now(), p, q);
    RecordsTo(r, b, was, c.Now(), p, q);
  }

  /** The chain after some blocks of the old branch. */
  function Grown(n: nat): Node<int> {
    if n == 0 then Node(map[], None, 1024, State(0, 0, 0), [], 10) else Extended(Grown(n - 1), Old(n))
  }

  method FirstBlock(ghost world: set<Block>) returns (c: Chain<int>)
    requires Consistent(world) && Old(1) in world
    ensures fresh(c) && c.InSync() && c.Within(world) && c.rules == Simple() && c.Now() == Grown(1)
  {
    c := new Chain(Simple(), 10, 1024, 0);
    assert c.Now() == Grown(0);
    Extend(c, Old(1), world);
  }

  /** Three blocks of the old branch are applied. */
  method OldBranch(ghost world: set<Block>) returns (c: Chain<int>)
    requires Consistent(world) && Old(1) in world && Old(2) in world && Old(3) in world
    ensures fresh(c) && c.InSync() && c.Within(world) && c.rules == Simple() && c.Now() == Grown(3)
  {
    c := FirstBlock(world);
    Extend(c, Old(2), world);
    Extend(c, Old(3), world);
  }

  lemma {:induction false} GrownIs()
    ensures Grown(3) == Node(map[1 := Old(1), 2 := Old(2), 3 := Old(3)], Some(Old(3)), 4, State(3, 3, 0),
                             [State(0, 0, 0), State(1, 1, 0), State(2, 2, 0)], 4)
  {
    assert Grown(1) == Node(map[1 := Old(1)], Some(Old(1)), 2, State(1, 1, 0), [State(0, 0, 0)], 2);
    assert Grown(2) == Extended(Grown(1), Old(2));
  }

  /** The nodes that lead down to the common ancestor are all the blocks there are. */
  lemma {:induction false} BranchesAre(tree: Index, p: seq<Block>, q: seq<Block>)
    requires tree == map[1 := Old(1), 2 := Old(2), 3 := Old(3), 11 := New(1), 12 := New(2), 13 := New(3), 14 := New(4)]
    requires IsBranch(tree, 14, p) && IsBranch(tree, 3, q) && MeetBelow(p, q)
    ensures p == [New(4), New(3), New(2), New(1)] && q == [Old(3), Old(2), Old(1)]
  {
    Down(tree, p, New(4), New(3), New(2), New(1));
    Down(tree, q, Old(3), Old(2), Old(1), Old(1));
  }

  lemma {:induction false} Parent(tree: Index, tip: Id, p: seq<Block>, i: nat)
    requires IsBranch(tree, tip, p) && i + 1 < |p|
    ensures p[i].previous == p[i + 1].id && p[i].previous in tree
  {
  }

  lemma {:induction false} EndsAtRoot(tree: Index, tip: Id, p: seq<Block>, i: nat)
    requires IsBranch(tree, tip, p) && 0 !in tree && i < |p| && p[i].previous == 0
    ensures |p| == i + 1
  {
    if i + 1 < |p| {
      Parent(tree, tip, p, i);
    }
  }

  /** What a branch can be that starts with a block and goes on with others. */
  lemma {:induction false} Down(tree: Index, p: seq<Block>, a: Block, b: Block, c: Block, d: Block)
    requires IsBranch(tree, a.id, p) && tree[a.id] == a
    requires forall x :: x in {b, c, d} ==> x.id in tree && tree[x.id] == x
    requires 0 !in tree && a.previous == b.id && b.previous == c.id
    requires c.previous == d.id || c.previous == 0
    requires c.previous == d.id ==> d.previous == 0
    ensures p == [a] || p == [a, b] || p == [a, b, c] || (c.previous == d.id && p == [a, b, c, d])
  {
    if |p| > 1 {
      assert p[0].previous == p[1].id;
      if |p| > 2 {
        assert p[1].previous == p[2].id;
        if |p| > 3 {
          assert p[2].previous == p[3].id;
          EndsAtRoot(tree, a.id, p, 3);
        }
      }
    }
  }

  lemma {:induction false} TheyMeet(tree: Index)
    requires tree == map[1 := Old(1), 2 := Old(2), 3 := Old(3), 11 := New(1), 12 := New(2), 13 := New(3), 14 := New(4)]
    ensures Related(tree, 14, 3)
  {
    var p, q := [New(4), New(3), New(2), New(1)], [Old(3), Old(2), Old(1)];
    assert IsBranch(tree, 14, p) && IsBranch(tree, 3, q) && MeetBelow(p, q);
  }

  /** The last push: one block of the new branch applies, and is cut from the tree at once. */
  lemma {:induction false} GetsStuck(r: Outcome, was: Node<int>, now: Node<int>, p: seq<Block>, q: seq<Block>)
    requires was
              == Node(map[1 := Old(1), 2 := Old(2), 3 := Old(3), 11 := New(1), 12 := New(2), 13 := New(3)],
                      Some(Old(3)), 4,
                         State(3, 3, 0), [State(0, 0, 0), State(1, 1, 0), State(2, 2, 0)], 4)
    requires Pushed(Simple(), r, New(4), was, now, p, q)
    ensures r == Stuck && now.db == State(11, 1, 0) && now.forkHead == Some(Old(3))
  {
    var tree := map[1 := Old(1), 2 := Old(2), 3 := Old(3), 11 := New(1), 12 := New(2), 13 := New(3), 14 := New(4)];
    assert TreeWith(was.index, New(4), was.forkHead, was.maxFork) == tree;
    TheyMeet(tree);
    assert Followed(Simple(), r, New(4), was, tree, p, q);
    BranchesAre(tree, p, q);
    FailsEarly(p);
    assert Shifted(Simple(), r, New(4), was, now, tree, p, q);
    HeadIsFirst(r, was, now, tree, p, q);
  }

  lemma {:induction false} HeadIsFirst(r: Outcome, was: Node<int>, now: Node<int>, tree: Index, p: seq<Block>,
                                       q: seq<Block>)
    requires p == [New(4), New(3), New(2), New(1)] && q == [Old(3), Old(2), Old(1)]
    requires was.undo == [State(0, 0, 0), State(1, 1, 0), State(2, 2, 0)]
    requires r == SwitchOutcome(Simple(), was.undo, p, q) && Shifted(Simple(), r, New(4), was, now, tree, p, q)
    ensures r == Stuck && now.db == State(11, 1, 0) && now.forkHead == Some(Old(3))
  {
    FailsEarly(p);
  }

  lemma {:induction false} FailsEarly(p: seq<Block>)
    requires p == [New(4), New(3), New(2), New(1)]
    ensures var s := State(0, 0, 0);
            && Applied(Simple(), s, p) == 1 && Replay(Simple(), s, p).None? && !CanReturn(Simple(), s, p)
            && Replay(Simple(), s, p[3..]) == Some(State(11, 1, 0))
  {
    var s := State(0, 0, 0);
    assert p[2..][1..] == p[3..] && p[3..][1..] == [];
    assert Replay(Simple(), s, p[3..]) == Some(State(11, 1, 0));
    assert Replay(Simple(), s, p[2..]).None?;
    FailedAt(Simple(), 4, s, p, 3);
    assert CutBy(Simple(), 4, s, p[3..]) == 2;
  }

  /** All of it: four blocks of another branch arrive after three of the first; the second of them
      fails. The chain is left at the first of them, and the head of the tree is the old one. */
  method StopsHalfWay() returns (c: Chain<int>, r: Outcome)
    ensures r == Stuck && !c.InSync() && c.db == State(11, 1, 0) && c.forkHead == Some(Old(3))
  {
    WorldIsConsistent();
    c := OldBranch(World());
    GrownIs();
    Record(c, New(1), World());
    Record(c, New(2), World());
    Record(c, New(3), World());
    ghost var was := c.Now();
    r := c.PushInWorld(New(4), World());
    ghost var p, q :| Pushed(c.rules, r, New(4), was, c.Now(), p, q);
    GetsStuck(r, was, c.Now(), p, q);
  }
}
