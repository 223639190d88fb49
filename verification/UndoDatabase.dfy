/** Undo sessions: each keeps just enough about the objects that were touched in it to go back
    to the state at its start. */
module UndoDatabase {

  /** An object's id: its kind, and its number within the kind. */
  datatype ObjectId = ObjectId(kind: nat, instance: nat)

  /** The objects, and the next free number of each kind. */
  datatype Objects<V> = Objects(values: map<ObjectId, V>, next: map<nat, nat>)

  datatype UndoState<V> = UndoState(oldValues: map<ObjectId, V>, newIds: set<ObjectId>, removed: map<ObjectId, V>,
                                    oldNext: map<nat, nat>)

  function EmptyState<V>(): UndoState<V> {
    UndoState(map[], {}, map[], map[])
  }

  function NextOf(next: map<nat, nat>, kind: nat): nat {
    if kind in next then next[kind] else 0
  }

  /** Numbers are given out in order, so that those not yet given out are free. */
  ghost predicate Fresh<V>(db: Objects<V>) {
    forall id :: id in db.values ==> id.instance < NextOf(db.next, id.kind)
  }

  /** What an undo state says about one object: created, removed, modified or left alone. */
  predicate TracksObject<V(==)>(before: map<ObjectId, V>, after: map<ObjectId, V>, u: UndoState<V>, id: ObjectId) {
    && (id in u.newIds <==> id !in before && id in after)
    && (id in u.removed <==> id in before && id !in after)
    && (id in u.oldValues ==> id in before && id in after)
    && (id in u.removed ==> u.removed[id] == before[id])
    && (id in u.oldValues ==> u.oldValues[id] == before[id])
    && (id in before && id in after && id !in u.oldValues ==> after[id] == before[id])
  }

  predicate TracksNext<V>(before: map<nat, nat>, after: map<nat, nat>, u: UndoState<V>, kind: nat) {
    && NextOf(before, kind) == (if kind in u.oldNext then u.oldNext[kind] else NextOf(after, kind))
    && NextOf(before, kind) <= NextOf(after, kind)
  }

  /** An undo state that says exactly how `after` came from `before`. */
  ghost predicate Tracks<V>(before: Objects<V>, after: Objects<V>, u: UndoState<V>) {
    && (forall id {:trigger TracksObject(before.values, after.values, u, id)} ::
          TracksObject(before.values, after.values, u, id))
    && (forall k {:trigger TracksNext(before.next, after.next, u, k)} :: TracksNext(before.next, after.next, u, k))
  }

  /** Two states that nothing can tell apart. */
  ghost predicate Same<V>(a: Objects<V>, b: Objects<V>) {
    a.values == b.values && forall k :: NextOf(a.next, k) == NextOf(b.next, k)
  }

  /** The four steps of `undo`. */
  function Undone<V>(db: Objects<V>, u: UndoState<V>): Objects<V> {
    Objects((db.values + u.oldValues) - u.newIds + u.removed, db.next + u.oldNext)
  }

  lemma UndoRestores<V>(before: Objects<V>, after: Objects<V>, u: UndoState<V>)
    requires Tracks(before, after, u)
    ensures Same(Undone(after, u), before)
  {
    var r := Undone(after, u);
    forall id
      ensures id in r.values <==> id in before.values
      ensures id in r.values ==> r.values[id] == before.values[id]
    {
      assert TracksObject(before.values, after.values, u, id);
    }
    forall k
      ensures NextOf(r.next, k) == NextOf(before.next, k)
    {
      assert TracksNext(before.next, after.next, u, k);
    }
  }

  // ----- recording -----

  /** `on_create` */
  function OnCreate<V>(u: UndoState<V>, id: ObjectId): UndoState<V> {
    u.(oldNext := if id.kind in u.oldNext then u.oldNext else u.oldNext[id.kind := id.instance],
       newIds := u.newIds + {id})
  }

  /** `on_modify` */
  function OnModify<V>(u: UndoState<V>, id: ObjectId, value: V): UndoState<V> {
    if id in u.newIds || id in u.oldValues then u else u.(oldValues := u.oldValues[id := value])
  }

  /** `on_remove` */
  function OnRemove<V>(u: UndoState<V>, id: ObjectId, value: V): UndoState<V> {
    if id in u.newIds then u.(newIds := u.newIds - {id})
    else if id in u.oldValues then u.(removed := u.removed[id := u.oldValues[id]], oldValues := u.oldValues - {id})
    else if id in u.removed then u
    else u.(removed := u.removed[id := value])
  }

  lemma CreateTracks<V>(before: Objects<V>, db: Objects<V>, u: UndoState<V>, kind: nat, v: V)
    requires Tracks(before, db, u) && Fresh(before) && Fresh(db)
    ensures var id := ObjectId(kind, NextOf(db.next, kind));
            var after := Objects(db.values[id := v], db.next[kind := id.instance + 1]);
            id !in db.values && Fresh(after) && Tracks(before, after, OnCreate(u, id))
  {
    var id := ObjectId(kind, NextOf(db.next, kind));
    var after := Objects(db.values[id := v], db.next[kind := id.instance + 1]);
    assert TracksNext(before.next, db.next, u, kind);
    forall i
      ensures TracksObject(before.values, after.values, OnCreate(u, id), i)
    {
      assert TracksObject(before.values, db.values, u, i);
    }
    forall k
      ensures TracksNext(before.next, after.next, OnCreate(u, id), k)
    {
      assert TracksNext(before.next, db.next, u, k);
    }
  }

  lemma ModifyTracks<V>(before: Objects<V>, db: Objects<V>, u: UndoState<V>, id: ObjectId, v: V)
    requires Tracks(before, db, u) && id in db.values
    ensures Tracks(before, db.(values := db.values[id := v]), OnModify(u, id, db.values[id]))
  {
    var after, w := db.(values := db.values[id := v]), OnModify(u, id, db.values[id]);
    forall i
      ensures TracksObject(before.values, after.values, w, i)
    {
      assert TracksObject(before.values, db.values, u, i);
    }
    forall k
      ensures TracksNext(before.next, after.next, w, k)
    {
      assert TracksNext(before.next, db.next, u, k);
    }
  }

  lemma RemoveTracks<V>(before: Objects<V>, db: Objects<V>, u: UndoState<V>, id: ObjectId)
    requires Tracks(before, db, u) && id in db.values
    ensures Tracks(before, db.(values := db.values - {id}), OnRemove(u, id, db.values[id]))
  {
    var after, w := db.(values := db.values - {id}), OnRemove(u, id, db.values[id]);
    forall i
      ensures TracksObject(before.values, after.values, w, i)
    {
      assert TracksObject(before.values, db.values, u, i);
    }
    forall k
      ensures TracksNext(before.next, after.next, w, k)
    {
      assert TracksNext(before.next, db.next, u, k);
    }
  }

  // ----- merging -----

  /** `merge`, the later state into the earlier one: modified objects, then new ones, the next
      numbers, and removed objects. */
  function Merged<V>(u: UndoState<V>, w: UndoState<V>): UndoState<V> {
    var oldValues := (map id | id in w.oldValues && id !in u.newIds :: w.oldValues[id]) + u.oldValues;
    var newIds := u.newIds + w.newIds;
    UndoState(
      oldValues - w.removed.Keys,
      newIds - w.removed.Keys,
      u.removed + map id | id in w.removed && id !in newIds :: if id in oldValues then oldValues[id] else w.removed[id],
      w.oldNext + u.oldNext)
  }

  /** No object is there in the later state that was removed in the earlier one. */
  ghost predicate Advances<V>(a: Objects<V>, b: Objects<V>) {
    forall id :: id in b.values && id !in a.values ==> id.instance >= NextOf(a.next, id.kind)
  }

  /** The source's table of combinations leaves out those that cannot occur. They cannot, and
      the merged state tracks both sessions at once. */
  lemma MergeTracks<V>(a: Objects<V>, b: Objects<V>, c: Objects<V>, u: UndoState<V>, w: UndoState<V>)
    requires Tracks(a, b, u) && Tracks(b, c, w) && Fresh(a) && Advances(b, c)
    ensures Tracks(a, c, Merged(u, w))
  {
    var m := Merged(u, w);
    forall id
      ensures TracksObject(a.values, c.values, m, id)
    {
      assert TracksObject(a.values, b.values, u, id);
      assert TracksObject(b.values, c.values, w, id);
      assert TracksNext(a.next, b.next, u, id.kind);
    }
    forall k
      ensures TracksNext(a.next, c.next, m, k)
    {
      assert TracksNext(a.next, b.next, u, k);
      assert TracksNext(b.next, c.next, w, k);
    }
  }

  /** Undoing the merged state is undoing the two one after the other. */
  lemma MergeIsUndoTwice<V>(a: Objects<V>, b: Objects<V>, c: Objects<V>, u: UndoState<V>, w: UndoState<V>)
    requires Tracks(a, b, u) && Tracks(b, c, w) && Fresh(a) && Advances(b, c)
    ensures Same(Undone(c, Merged(u, w)), Undone(Undone(c, w), u))
  {
    MergeTracks(a, b, c, u, w);
    UndoRestores(a, c, Merged(u, w));
    UndoRestores(b, c, w);
    var b' := Undone(c, w);
    forall id
      ensures TracksObject(a.values, b'.values, u, id)
    {
      assert TracksObject(a.values, b.values, u, id);
    }
    forall k
      ensures TracksNext(a.next, b'.next, u, k)
    {
      assert TracksNext(a.next, b.next, u, k);
    }
    UndoRestores(a, b', u);
  }

  // ----- the undo stack -----

  /** Each record of the stack tracks the changes of its session, which ends where the next starts. */
  ghost predicate Sessions<V>(starts: seq<Objects<V>>, db: Objects<V>, stack: seq<UndoState<V>>) {
    && |starts| == |stack|
    && Fresh(db)
    && (forall i {:trigger starts[i]} :: 0 <= i < |stack| ==>
          Session(starts[i], if i + 1 < |starts| then starts[i + 1] else db, stack[i]))
  }

  ghost predicate Session<V>(start: Objects<V>, next: Objects<V>, u: UndoState<V>) {
    Fresh(start) && Tracks(start, next, u) && Advances(start, next)
  }

  lemma {:induction false} UndoEndsSession<V>(starts: seq<Objects<V>>, db: Objects<V>, stack: seq<UndoState<V>>)
    requires Sessions(starts, db, stack) && stack != []
    ensures var n := |stack| - 1;
            && Same(Undone(db, stack[n]), starts[n])
            && Sessions(starts[..n], Undone(db, stack[n]), stack[..n])
  {
    var n := |stack| - 1;
    UndoRestores(starts[n], db, stack[n]);
    SameIsFresh(starts[n], Undone(db, stack[n]));
    if n > 0 {
      SameTracks(starts[n - 1], starts[n], Undone(db, stack[n]), stack[n - 1]);
    }
  }

  lemma {:induction false} MergeJoinsSessions<V>(starts: seq<Objects<V>>, db: Objects<V>, stack: seq<UndoState<V>>)
    requires Sessions(starts, db, stack) && |stack| > 1
    ensures var n := |stack|;
            Sessions(starts[..n - 1], db, stack[..n - 2] + [Merged(stack[n - 2], stack[n - 1])])
  {
    var n := |stack|;
    assert Session(starts[n - 2], starts[n - 1], stack[n - 2]);
    assert Session(starts[n - 1], db, stack[n - 1]);
    MergeTracks(starts[n - 2], starts[n - 1], db, stack[n - 2], stack[n - 1]);
    AdvancesBoth(starts[n - 2], starts[n - 1], db, stack[n - 2]);
  }

  class UndoDatabase<V> {
    var db: Objects<V>
    var stack: seq<UndoState<V>>
    /** The state at the start of each session. */
    ghost var starts: seq<Objects<V>>

    ghost predicate Valid()
      reads this
    {
      Sessions(starts, db, stack)
    }

    constructor ()
      ensures Valid() && db == Objects(map[], map[]) && stack == []
    {
      db, stack, starts := Objects(map[], map[]), [], [];
    }

    /** `start_undo_session` */
    method Start()
      requires Valid()
      modifies this
      ensures Valid() && db == old(db)
      ensures starts == old(starts) + [db]
    {
      stack := stack + [EmptyState()];
      starts := starts + [db];
      NothingTracks(db);
    }

    /** Replaces the state of the last session after a change. */
    method Record(u: UndoState<V>, after: Objects<V>)
      requires Valid() && stack != [] && Fresh(after)
      requires Tracks(starts[|starts| - 1], after, u) && Advances(starts[|starts| - 1], after)
      modifies this`db, this`stack
      ensures Valid() && db == after && |stack| == |old(stack)|
    {
      stack := stack[|stack| - 1 := u];
      db := after;
    }

    method Create(kind: nat, v: V) returns (id: ObjectId)
      requires Valid() && stack != []
      modifies this`db, this`stack
      ensures Valid() && |stack| == |old(stack)|
      ensures id !in old(db).values && db.values == old(db).values[id := v]
    {
      id := ObjectId(kind, NextOf(db.next, kind));
      ghost var start := starts[|starts| - 1];
      CreateTracks(start, db, stack[|stack| - 1], kind, v);
      assert TracksNext(start.next, db.next, stack[|stack| - 1], kind);
      Record(OnCreate(stack[|stack| - 1], id), Objects(db.values[id := v], db.next[kind := id.instance + 1]));
    }

    method Modify(id: ObjectId, v: V)
      requires Valid() && stack != [] && id in db.values
      modifies this`db, this`stack
      ensures Valid() && |stack| == |old(stack)|
      ensures db == old(db).(values := old(db).values[id := v])
    {
      ModifyTracks(starts[|starts| - 1], db, stack[|stack| - 1], id, v);
      Record(OnModify(stack[|stack| - 1], id, db.values[id]), db.(values := db.values[id := v]));
    }

    method Remove(id: ObjectId)
      requires Valid() && stack != [] && id in db.values
      modifies this`db, this`stack
      ensures Valid() && |stack| == |old(stack)|
      ensures db == old(db).(values := old(db).values - {id})
    {
      RemoveTracks(starts[|starts| - 1], db, stack[|stack| - 1], id);
      Record(OnRemove(stack[|stack| - 1], id, db.values[id]), db.(values := db.values - {id}));
    }

    /** `undo` and `pop_commit`: back to the start of the last session. */
    method Undo()
      requires Valid() && stack != []
      modifies this
      ensures Valid() && Same(db, old(starts)[|old(starts)| - 1])
      ensures starts == old(starts)[..|old(starts)| - 1]
    {
      UndoEndsSession(starts, db, stack);
      db := Undone(db, stack[|stack| - 1]);
      stack := stack[..|stack| - 1];
      starts := starts[..|starts| - 1];
    }

    /** `merge` of the last session into the one before. */
    method Merge()
      requires Valid() && |stack| > 1
      modifies this`stack, this`starts
      ensures Valid()
      ensures starts == old(starts)[..|old(starts)| - 1]
    {
      var n := |stack|;
      MergeJoinsSessions(starts, db, stack);
      stack := stack[..n - 2] + [Merged(stack[n - 2], stack[n - 1])];
      starts := starts[..n - 1];
    }
  }

  lemma NothingTracks<V>(db: Objects<V>)
    ensures Tracks(db, db, EmptyState())
  {
  }

  lemma SameTracks<V>(before: Objects<V>, after: Objects<V>, after': Objects<V>, u: UndoState<V>)
    requires Tracks(before, after, u) && Same(after', after) && Advances(before, after)
    ensures Tracks(before, after', u) && Advances(before, after')
  {
    forall id
      ensures TracksObject(before.values, after'.values, u, id)
    {
      assert TracksObject(before.values, after.values, u, id);
    }
    forall k
      ensures TracksNext(before.next, after'.next, u, k)
    {
      assert TracksNext(before.next, after.next, u, k);
    }
  }

  lemma SameIsFresh<V>(db: Objects<V>, db': Objects<V>)
    requires Fresh(db) && Same(db', db)
    ensures Fresh(db')
  {
  }

  lemma AdvancesBoth<V>(a: Objects<V>, b: Objects<V>, c: Objects<V>, u: UndoState<V>)
    requires Tracks(a, b, u) && Advances(a, b) && Advances(b, c)
    ensures Advances(a, c)
  {
    forall id | id in c.values && id !in a.values
      ensures id.instance >= NextOf(a.next, id.kind)
    {
      assert TracksNext(a.next, b.next, u, id.kind);
    }
  }
}
