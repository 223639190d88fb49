/** The tree of recent blocks, and the branches that lead back to a common ancestor. */
module ForkDatabase {
  type Id = nat

  /** A block's number is part of its id, and so of the `previous` field of its successors. */
  datatype Block = Block(id: Id, previous: Id, num: nat, payload: nat)

  type Index = map<Id, Block>

  /** Ids identify blocks, and numbers count from ancestor to descendant. */
  ghost predicate GoodIndex(index: Index) {
    && (forall i :: i in index ==> index[i].id == i)
    && (forall i :: i in index && index[i].previous in index ==> index[i].num == index[index[i].previous].num + 1)
    && (forall i, j {:trigger Siblings(index, i, j)} :: Siblings(index, i, j) ==> index[i].num == index[j].num)
  }

  predicate Siblings(index: Index, i: Id, j: Id) {
    i in index && j in index && index[i].previous == index[j].previous
  }

  /** A block that may be put into the tree: no other block has its id, and its number is right. */
  predicate FitsIndex(index: Index, b: Block) {
    && (b.id in index ==> index[b.id] == b)
    && (b.previous in index ==> b.num == index[b.previous].num + 1)
    && (forall i :: i in index && index[i].previous == b.previous ==> index[i].num == b.num)
    && (forall i :: i in index && index[i].previous == b.id ==> index[i].num == b.num + 1)
    && b.previous != b.id
  }

  /** Blocks from a tip back towards its ancestors, each one the parent of the one before. */
  ghost predicate IsBranch(index: Index, tip: Id, blocks: seq<Block>) {
    && blocks != []
    && tip in index && blocks[0] == index[tip]
    && (forall i :: 0 <= i < |blocks| ==> blocks[i].id in index && index[blocks[i].id] == blocks[i])
    && (forall i :: 0 <= i < |blocks| - 1 ==> blocks[i].previous == blocks[i + 1].id)
  }

  function Oldest(blocks: seq<Block>): Block
    requires blocks != []
  {
    blocks[|blocks| - 1]
  }

  ghost predicate MeetBelow(p: seq<Block>, q: seq<Block>) {
    p != [] && q != [] && Oldest(p).previous == Oldest(q).previous
  }

  /** Two blocks have a common ancestor that the tree, or its edge, still shows. */
  ghost predicate Related(index: Index, first: Id, second: Id) {
    exists p, q :: IsBranch(index, first, p) && IsBranch(index, second, q) && MeetBelow(p, q)
  }

  lemma {:induction false} BranchNumbers(index: Index, tip: Id, blocks: seq<Block>, i: nat)
    requires GoodIndex(index) && IsBranch(index, tip, blocks) && i < |blocks|
    ensures blocks[i].num + i == blocks[0].num
  {
    if i > 0 {
      BranchNumbers(index, tip, blocks, i - 1);
      assert blocks[i - 1].previous == blocks[i].id;
      assert index[blocks[i - 1].id] == blocks[i - 1];
    }
  }

  /** The branches found so far can still be extended to ones that meet. */
  ghost predicate CanMeet(index: Index, first: Id, second: Id, p: seq<Block>, q: seq<Block>) {
    exists p', q' ::
      IsBranch(index, first, p') && IsBranch(index, second, q') && MeetBelow(p', q') && p <= p' && q <= q'
  }

  ghost predicate Reached(index: Index, first: Id, second: Id, p: seq<Block>, q: seq<Block>) {
    && IsBranch(index, first, p) && IsBranch(index, second, q)
    && (Related(index, first, second) ==> CanMeet(index, first, second, p, q))
  }

  lemma {:induction false} Start(index: Index, first: Id, second: Id)
    requires first in index && second in index && GoodIndex(index)
    ensures Reached(index, first, second, [index[first]], [index[second]])
  {
    if Related(index, first, second) {
      var p', q' :| IsBranch(index, first, p') && IsBranch(index, second, q') && MeetBelow(p', q');
      assert [index[first]] <= p' && [index[second]] <= q';
    }
  }

  lemma {:induction false} AtTheEnd(index: Index, first: Id, second: Id, p: seq<Block>, q: seq<Block>, p': seq<Block>,
                                    q': seq<Block>)
    requires GoodIndex(index) && IsBranch(index, first, p') && IsBranch(index, second, q') && MeetBelow(p', q')
    requires p != [] && q != [] && p <= p' && q <= q'
    ensures |p'| - |p| == Oldest(p).num - Oldest(p').num && |q'| - |q| == Oldest(q).num - Oldest(q').num
    ensures Oldest(p').num == Oldest(q').num
    ensures |p| < |p'| ==> Oldest(p).previous in index && p + [index[Oldest(p).previous]] <= p'
    ensures |q| < |q'| ==> Oldest(q).previous in index && q + [index[Oldest(q).previous]] <= q'
  {
    BranchNumbers(index, first, p', |p| - 1);
    BranchNumbers(index, first, p', |p'| - 1);
    BranchNumbers(index, second, q', |q| - 1);
    BranchNumbers(index, second, q', |q'| - 1);
    assert Oldest(p').id in index && Oldest(q').id in index;
    assert Siblings(index, Oldest(p').id, Oldest(q').id);
    if |p| < |p'| {
      assert p'[|p| - 1].previous == p'[|p|].id;
    }
    if |q| < |q'| {
      assert q'[|q| - 1].previous == q'[|q|].id;
    }
  }

  lemma {:induction false} StepFirst(index: Index, first: Id, second: Id, p: seq<Block>, q: seq<Block>)
    requires GoodIndex(index) && Reached(index, first, second, p, q) && Oldest(p).num > Oldest(q).num
    ensures Related(index, first, second) ==> Oldest(p).previous in index
    ensures Oldest(p).previous in index ==>
      Reached(index, first, second, p + [index[Oldest(p).previous]], q)
      && index[Oldest(p).previous].num == Oldest(p).num - 1
  {
    if Related(index, first, second) {
      var p', q' :| IsBranch(index, first, p') && IsBranch(index, second, q')
          && MeetBelow(p', q') && p <= p' && q <= q';
      AtTheEnd(index, first, second, p, q, p', q');
    }
  }

  lemma {:induction false} StepSecond(index: Index, first: Id, second: Id, p: seq<Block>, q: seq<Block>)
    requires GoodIndex(index) && Reached(index, first, second, p, q) && Oldest(p).num < Oldest(q).num
    ensures Related(index, first, second) ==> Oldest(q).previous in index
    ensures Oldest(q).previous in index ==>
      Reached(index, first, second, p, q + [index[Oldest(q).previous]])
      && index[Oldest(q).previous].num == Oldest(q).num - 1
  {
    if Related(index, first, second) {
      var p', q' :| IsBranch(index, first, p') && IsBranch(index, second, q')
          && MeetBelow(p', q') && p <= p' && q <= q';
      AtTheEnd(index, first, second, p, q, p', q');
    }
  }

  lemma {:induction false} StepBoth(index: Index, first: Id, second: Id, p: seq<Block>, q: seq<Block>)
    requires GoodIndex(index) && Reached(index, first, second, p, q)
    requires Oldest(p).num == Oldest(q).num && Oldest(p).previous != Oldest(q).previous
    ensures Related(index, first, second) ==> Oldest(p).previous in index && Oldest(q).previous in index
    ensures Oldest(p).previous in index && Oldest(q).previous in index ==>
      && Reached(index, first, second, p + [index[Oldest(p).previous]], q + [index[Oldest(q).previous]])
      && index[Oldest(p).previous].num == index[Oldest(q).previous].num == Oldest(p).num - 1
  {
    if Related(index, first, second) {
      var p', q' :| IsBranch(index, first, p') && IsBranch(index, second, q')
          && MeetBelow(p', q') && p <= p' && q <= q';
      AtTheEnd(index, first, second, p, q, p', q');
    }
  }

  /** Two branches have no common ancestor above the one below their last blocks. */
  ghost predicate MeetFirst(p: seq<Block>, q: seq<Block>) {
    |p| > 1 && |q| > 1 ==> p[|p| - 2].previous != q[|q| - 2].previous
  }

  /** `fetch_branch_from`: both branches, or nothing when they do not meet in the tree. */
  method FetchBranchFrom(index: Index, first: Id, second: Id) returns (ok: bool, p: seq<Block>, q: seq<Block>)
    requires GoodIndex(index)
    ensures ok <==> Related(index, first, second)
    ensures ok ==> IsBranch(index, first, p) && IsBranch(index, second, q) && MeetBelow(p, q) && MeetFirst(p, q)
    ensures ok ==> |p| - |q| == index[first].num - index[second].num
  {
    ok, p, q := false, [], [];
    if first !in index || second !in index {
      return;
    }
    var a, b := index[first], index[second];
    // the blocks reached so far are the last ones of p and q
    p, q := [a], [b];
    Start(index, first, second);
    while a.num > b.num
      invariant Reached(index, first, second, p, q) && a == Oldest(p) && b == Oldest(q) && |q| == 1
      invariant |p| > 1 ==> a.num >= b.num
      decreases a.num
    {
      StepFirst(index, first, second, p, q);
      if a.previous !in index {
        return;
      }
      a := index[a.previous];
      p := p + [a];
    }
    while b.num > a.num
      invariant Reached(index, first, second, p, q) && a == Oldest(p) && b == Oldest(q) && a.num <= b.num
      invariant |p| == 1 || (|q| == 1 && a.num == b.num)
      decreases b.num
    {
      StepSecond(index, first, second, p, q);
      if b.previous !in index {
        return;
      }
      b := index[b.previous];
      q := q + [b];
    }
    while a.previous != b.previous
      invariant Reached(index, first, second, p, q) && a == Oldest(p) && b == Oldest(q) && a.num == b.num
      invariant MeetFirst(p, q)
      decreases a.num
    {
      StepBoth(index, first, second, p, q);
      if a.previous !in index || b.previous !in index {
        return;
      }
      a, b := index[a.previous], index[b.previous];
      p, q := p + [a], q + [b];
    }
    ok := true;
    Met(index, first, second, p, q);
  }

  lemma {:induction false} Met(index: Index, first: Id, second: Id, p: seq<Block>, q: seq<Block>)
    requires GoodIndex(index) && IsBranch(index, first, p) && IsBranch(index, second, q) && MeetBelow(p, q)
    ensures Related(index, first, second)
    ensures |p| - |q| == index[first].num - index[second].num
  {
    BranchNumbers(index, first, p, |p| - 1);
    BranchNumbers(index, second, q, |q| - 1);
    assert Siblings(index, Oldest(p).id, Oldest(q).id);
  }
}
