/** The append-only log of blocks and its index by block number. */
module BlockLog {
  import opened Options
  import opened ByteFiles

  /** One complete record of the index points to a block that can be read and has its id. */
  predicate Readable<B>(unpack: seq<Byte> -> Option<B>, idOf: B -> Id, e: Entry, blocks: File) {
    && e.size > 0 && e.pos + e.size <= |blocks|
    && var b := unpack(blocks[e.pos..e.pos + e.size]);
       b.Some? && idOf(b.value) == e.id
  }

  /** What an entry says about the block of its number. */
  ghost predicate Matches<B(!new)>(pack: B -> seq<Byte>, idOf: B -> Id, e: Entry, n: nat, blocks: File,
                                   contents: map<nat, B>, ids: map<nat, Id>) {
    if n !in ids then
      e == NO_ENTRY
    else if n !in contents then
      e.size == 0 && e.id == ids[n] && e.pos <= |blocks|
    else
      && e.id == ids[n] == idOf(contents[n])
      && e.size > 0 && e.pos + e.size <= |blocks| && blocks[e.pos..e.pos + e.size] == pack(contents[n])
  }

  /** The entries and the log represent the contents. */
  ghost predicate Indexed<B(!new)>(pack: B -> seq<Byte>, idOf: B -> Id, numOf: Id -> nat,
                                   entries: seq<Entry>, blocks: File, contents: map<nat, B>, ids: map<nat, Id>) {
    && contents.Keys <= ids.Keys
    && (forall n :: n in ids ==> n < |entries| && ids[n] != NO_ID && numOf(ids[n]) == n)
    && (forall n {:trigger Matches(pack, idOf, entries[n], n, blocks, contents, ids)} ::
          0 <= n < |entries| ==> Matches(pack, idOf, entries[n], n, blocks, contents, ids))
  }

  function Holes(n: nat): (r: seq<Entry>)
    ensures |r| == n && forall m :: 0 <= m < n ==> r[m] == NO_ENTRY
  {
    if n == 0 then [] else Holes(n - 1) + [NO_ENTRY]
  }

  /** Entries with one replaced, or added after holes. */
  function WrittenAt(entries: seq<Entry>, n: nat, e: Entry): (r: seq<Entry>)
    ensures |r| == if n < |entries| then |entries| else n + 1
    ensures forall m :: 0 <= m < |r| ==> r[m] == if m == n then e else if m < |entries| then entries[m] else NO_ENTRY
  {
    if n < |entries| then entries[n := e] else entries + Holes(n - |entries|) + [e]
  }

  lemma StoreKeeps<B(!new)>(pack: B -> seq<Byte>, idOf: B -> Id, numOf: Id -> nat,
                            entries: seq<Entry>, blocks: File, contents: map<nat, B>, ids: map<nat, Id>, b: B)
    requires Indexed(pack, idOf, numOf, entries, blocks, contents, ids) && idOf(b) != NO_ID && pack(b) != []
    ensures var n := numOf(idOf(b));
            Indexed(pack, idOf, numOf, WrittenAt(entries, n, Entry(|blocks|, |pack(b)|, idOf(b))), blocks + pack(b),
                    contents[n := b], ids[n := idOf(b)])
  {
    var n, log := numOf(idOf(b)), blocks + pack(b);
    assert log[|blocks|..|log|] == pack(b);
    forall m | 0 <= m < |entries| && m != n
      ensures Matches(pack, idOf, entries[m], m, log, contents[n := b], ids[n := idOf(b)])
    {
      var e := entries[m];
      assert Matches(pack, idOf, e, m, blocks, contents, ids);
      if m in ids && m in contents {
        assert log[e.pos..e.pos + e.size] == blocks[e.pos..e.pos + e.size];
      }
    }
  }

  lemma RemoveKeeps<B(!new)>(pack: B -> seq<Byte>, idOf: B -> Id, numOf: Id -> nat,
                             entries: seq<Entry>, blocks: File, contents: map<nat, B>, ids: map<nat, Id>, n: nat)
    requires Indexed(pack, idOf, numOf, entries, blocks, contents, ids) && n < |entries|
    ensures var cleared := if n in ids then entries[n].(size := 0) else NO_ENTRY;
            cleared == entries[n].(size := 0)
            && Indexed(pack, idOf, numOf, WrittenAt(entries, n, cleared), blocks, contents - {n}, ids)
  {
    assert Matches(pack, idOf, entries[n], n, blocks, contents, ids);
    forall m | 0 <= m < |entries| && m != n
      ensures Matches(pack, idOf, entries[m], m, blocks, contents - {n}, ids)
    {
      assert Matches(pack, idOf, entries[m], m, blocks, contents, ids);
    }
  }

  class BlockDatabase<B(==, !new)> {
    const pack: B -> seq<Byte>
    const unpack: seq<Byte> -> Option<B>
    const idOf: B -> Id
    const numOf: Id -> nat

    var index: File
    var blocks: File

    /** The blocks that were stored last for their number, and not removed since. */
    ghost var contents: map<nat, B>
    /** The id stored last for each number, removed or not. */
    ghost var ids: map<nat, Id>

    /** The records of the index. */
    ghost var entries: seq<Entry>

    /** Blocks are packed into something, and unpacked from that; they all have ids. */
    ghost predicate Codec() {
      && (forall b :: unpack(pack(b)) == Some(b) && 0 < |pack(b)| < SIZES && idOf(b) != NO_ID)
      && unpack([]).None?
    }

    ghost predicate Valid()
      reads this
    {
      Codec() && Encoded(index, entries) && Indexed(pack, idOf, numOf, entries, blocks, contents, ids)
    }

    constructor (pack: B -> seq<Byte>, unpack: seq<Byte> -> Option<B>, idOf: B -> Id, numOf: Id -> nat)
      requires forall b :: unpack(pack(b)) == Some(b) && 0 < |pack(b)| < SIZES && idOf(b) != NO_ID
      requires unpack([]).None?
      ensures Valid() && contents == map[] && ids == map[]
    {
      this.pack, this.unpack, this.idOf, this.numOf := pack, unpack, idOf, numOf;
      index, blocks := [], [];
      contents, ids, entries := map[], map[], [];
    }

    /** One record of the index is written. */
    method WriteRecord(n: nat, e: Entry)
      requires Encoded(index, entries) && e.pos < POSITIONS && e.size < SIZES
      modifies this`index, this`entries
      ensures Encoded(index, entries)
      ensures entries == WrittenAt(old(entries), n, e)
    {
      WriteEntry(index, n, e);
      index := WriteAt(index, ENTRY_SIZE * n, Encode(e));
      entries := WrittenAt(entries, n, e);
    }

    /** The record of one block number. */
    method ReadRecord(n: nat) returns (e: Entry)
      requires Valid() && n < |entries|
      ensures e == entries[n] && Matches(pack, idOf, e, n, blocks, contents, ids)
    {
      assert Matches(pack, idOf, entries[n], n, blocks, contents, ids);
      e := EntryAt(index, n);
    }

    /** `store`, for a block under its own id, or none. */
    method Store(id: Id, b: B)
      requires Valid() && (id == NO_ID || id == idOf(b))
      requires |blocks| < POSITIONS
      modifies this
      ensures Valid()
      ensures contents == old(contents)[numOf(idOf(b)) := b] && ids == old(ids)[numOf(idOf(b)) := idOf(b)]
      ensures old(blocks) <= blocks
    {
      var own := if id == NO_ID then idOf(b) else id;
      var data := pack(b);
      assert unpack(data) == Some(b);
      WriteRecord(numOf(own), Entry(|blocks|, |data|, own));
      blocks := blocks + data;
      contents := contents[numOf(own) := b];
      ids := ids[numOf(own) := own];
      StoreKeeps(pack, idOf, numOf, old(entries), old(blocks), old(contents), old(ids), b);
    }

    /** `remove`; an exception when the index does not reach as far as the block. */
    method Remove(id: Id) returns (ok: bool)
      requires Valid()
      modifies this
      ensures Valid()
      ensures ok <==> numOf(id) < |old(entries)|
      ensures contents == if ok && numOf(id) in old(contents) && old(ids)[numOf(id)] == id
                          then old(contents) - {numOf(id)} else old(contents)
      ensures ids == old(ids) && blocks == old(blocks)
    {
      var n := numOf(id);
      if |index| <= ENTRY_SIZE * n {
        return false;
      }
      ok := true;
      var e := ReadRecord(n);
      if e.id == id {
        FieldsFit(index, n);
        assert entries[n] == EntryAt(index, n);
        WriteRecord(n, e.(size := 0));
        contents := contents - {n};
        RemoveKeeps(pack, idOf, numOf, old(entries), blocks, old(contents), ids, n);
      }
    }

    /** `contains` */
    method Contains(id: Id) returns (r: bool)
      requires Valid()
      ensures r <==> numOf(id) in contents && idOf(contents[numOf(id)]) == id
    {
      if id == NO_ID {
        return false;
      }
      var n := numOf(id);
      if |index| < ENTRY_SIZE * n + ENTRY_SIZE {
        return false;
      }
      var e := ReadRecord(n);
      r := e.id == id && e.size > 0;
    }

    /** `fetch_block_id`: unlike the other lookups it does not heed removals. */
    method FetchBlockId(n: nat) returns (r: Option<Id>)
      requires Valid() && n > 0
      ensures r == if n in ids then Some(ids[n]) else None
    {
      if |index| <= ENTRY_SIZE * n {
        return None;
      }
      var e := ReadRecord(n);
      r := if e.id == NO_ID then None else Some(e.id);
    }

    /** After a block was stored and removed, its number still gives its id, though there is no block
        with that id or number any more. */
    method RemovedIdIsStillFetched(b: B) returns (id: Option<Id>, byId: Option<B>, byNumber: Option<B>)
      requires Valid() && |blocks| < POSITIONS && numOf(idOf(b)) > 0
      modifies this
      ensures Valid()
      ensures id == Some(idOf(b)) && byId == None && byNumber == None
    {
      Store(NO_ID, b);
      var ok := Remove(idOf(b));
      id := FetchBlockId(numOf(idOf(b)));
      byId := FetchOptional(idOf(b));
      byNumber := FetchByNumber(numOf(idOf(b)));
    }

    /** `fetch_optional` */
    method FetchOptional(id: Id) returns (r: Option<B>)
      requires Valid()
      ensures r == if numOf(id) in contents && idOf(contents[numOf(id)]) == id then Some(contents[numOf(id)]) else None
    {
      var n := numOf(id);
      if |index| <= ENTRY_SIZE * n {
        return None;
      }
      var e := ReadRecord(n);
      if e.id != id {
        return None;
      }
      var data := if e.size > 0 then blocks[e.pos..e.pos + e.size] else [];
      r := unpack(data);
      if r.Some? && idOf(r.value) != e.id {
        r := None;
      }
    }

    /** `fetch_by_number` */
    method FetchByNumber(n: nat) returns (r: Option<B>)
      requires Valid()
      ensures r == if n in contents then Some(contents[n]) else None
    {
      if |index| <= ENTRY_SIZE * n {
        return None;
      }
      var e := ReadRecord(n);
      var data := if e.size > 0 then blocks[e.pos..e.pos + e.size] else [];
      r := unpack(data);
      if r.Some? && idOf(r.value) != e.id {
        r := None;
      }
    }

    /** `last_index_entry`, on files in any condition: finds the highest readable entry, and cuts
        off the index just above it. No readable block is lost. */
    method LastIndexEntry() returns (last: Option<Entry>, ghost n: nat)
      requires forall n :: 0 <= n < Entries(index) ==> EntryAt(index, n).pos + EntryAt(index, n).size < POSITIONS / 2
      requires |blocks| < POSITIONS / 2
      modifies this`index
      ensures index <= old(index)
      ensures last.None? ==>
        forall n :: 0 <= n < Entries(old(index)) ==> !Readable(unpack, idOf, EntryAt(old(index), n), blocks)
      ensures last.None? ==> index == if |old(index)| < ENTRY_SIZE then old(index) else []
      ensures last.Some? ==>
        && n < Entries(old(index)) && last.value == EntryAt(old(index), n)
        && Readable(unpack, idOf, EntryAt(old(index), n), blocks)
        && (forall m :: n < m < Entries(old(index)) ==> !Readable(unpack, idOf, EntryAt(old(index), m), blocks))
        && index == if n == Entries(old(index)) - 1 then old(index) else old(index)[..ENTRY_SIZE * n + ENTRY_SIZE]
    {
      n := Entries(index);
      if |index| < ENTRY_SIZE {
        return None, n;
      }
      var pos := |index| - |index| % ENTRY_SIZE;
      ghost var was := index;
      while pos > 0
        invariant 0 <= n <= Entries(was) && pos == ENTRY_SIZE * n
        invariant index == if n == Entries(was) then was else was[..pos]
        invariant forall m :: n <= m < Entries(was) ==> !Readable(unpack, idOf, EntryAt(was, m), blocks)
        decreases n
      {
        pos := pos - ENTRY_SIZE;
        n := n - 1;
        var e := Decode(index[pos..pos + ENTRY_SIZE]);
        assert index[pos..pos + ENTRY_SIZE] == was[pos..pos + ENTRY_SIZE];
        assert e == EntryAt(was, n);
        if Readable(unpack, idOf, e, blocks) {
          return Some(e), n;
        }
        index := index[..pos];
      }
      return None, n;
    }

    /** The same from a database in good order: the entry of the highest block that is stored. The
        blocks stay, and what is known of removed ones above that is forgotten. */
    method LastStored() returns (last: Option<Entry>, ghost n: nat)
      requires Valid() && |blocks| < POSITIONS / 2
      modifies this`index, this`entries, this`ids
      ensures Valid()
      ensures last.None? <==> contents == map[]
      ensures last.Some? ==> n in contents && last.value.id == idOf(contents[n]) && forall m :: m in contents ==> m <= n
      ensures ids == map m | m in old(ids) && m < (if last.Some? then n + 1 else 0) :: old(ids)[m]
    {
      ghost var file, older, was := index, entries, ids;
      ReadableAreStored();
      last, n := LastIndexEntry();
      ghost var length := if last.Some? then n + 1 else 0;
      entries := entries[..length];
      ids := map m | m in ids && m < length :: ids[m];
      ShorterEncoded(file, older, index, length);
      ShorterIndexed(pack, idOf, numOf, older, blocks, contents, was, length);
      if last.Some? {
        assert EntryAt(file, n) == older[n];
        assert Matches(pack, idOf, older[n], n, blocks, contents, was);
      }
    }

    /** In good order the records that can be read are those of the blocks that are stored. */
    lemma ReadableAreStored()
      requires Valid() && |blocks| < POSITIONS / 2
      ensures Entries(index) == |entries|
      ensures forall m :: 0 <= m < Entries(index) ==> EntryAt(index, m).pos + EntryAt(index, m).size < POSITIONS / 2
      ensures forall m :: 0 <= m < Entries(index) ==>
        (Readable(unpack, idOf, EntryAt(index, m), blocks) <==> m in contents)
      ensures forall m :: m in contents ==> m < Entries(index)
    {
      forall m | 0 <= m < Entries(index)
        ensures EntryAt(index, m).pos + EntryAt(index, m).size < POSITIONS / 2
        ensures Readable(unpack, idOf, EntryAt(index, m), blocks) <==> m in contents
      {
        assert EntryAt(index, m) == entries[m];
        assert Matches(pack, idOf, entries[m], m, blocks, contents, ids);
      }
    }
  }

  lemma ShorterEncoded(index: File, entries: seq<Entry>, part: File, length: nat)
    requires Encoded(index, entries) && length <= |entries| && |part| == ENTRY_SIZE * length && part <= index
    ensures Encoded(part, entries[..length])
  {
    forall m | 0 <= m < length
      ensures EntryAt(part, m) == entries[m]
    {
      assert part[ENTRY_SIZE * m..ENTRY_SIZE * m + ENTRY_SIZE] == index[ENTRY_SIZE * m..ENTRY_SIZE * m + ENTRY_SIZE];
      assert EntryAt(index, m) == entries[m];
    }
  }

  /** Entries above every block that is stored can be left out. */
  lemma ShorterIndexed<B(!new)>(pack: B -> seq<Byte>, idOf: B -> Id, numOf: Id -> nat, entries: seq<Entry>,
                                blocks: File, contents: map<nat, B>, ids: map<nat, Id>, length: nat)
    requires Indexed(pack, idOf, numOf, entries, blocks, contents, ids) && length <= |entries|
    requires forall m :: m in contents ==> m < length
    ensures Indexed(pack, idOf, numOf, entries[..length], blocks, contents, map m | m in ids && m < length :: ids[m])
  {
    forall m | 0 <= m < length
      ensures Matches(pack, idOf, entries[m], m, blocks, contents, map k | k in ids && k < length :: ids[k])
    {
      assert Matches(pack, idOf, entries[m], m, blocks, contents, ids);
    }
  }

  ghost predicate Encoded(index: File, entries: seq<Entry>) {
    && |index| == ENTRY_SIZE * |entries|
    && forall n {:trigger EntryAt(index, n)} :: 0 <= n < |entries| ==> EntryAt(index, n) == entries[n]
  }

  /** A record that can be decoded fits into a record. */
  lemma FieldsFit(index: File, n: nat)
    requires n < Entries(index)
    ensures EntryAt(index, n).pos < POSITIONS && EntryAt(index, n).size < SIZES
  {
    var bytes := index[ENTRY_SIZE * n..ENTRY_SIZE * n + ENTRY_SIZE];
    FieldWidths();
    LittleFits(bytes[..8]);
    LittleFits(bytes[8..12]);
  }

  lemma {:induction false} LittleFits(bytes: seq<Byte>)
    ensures FromLittle(bytes) < Power(|bytes|)
  {
    if bytes != [] {
      LittleFits(bytes[1..]);
    }
  }
}
