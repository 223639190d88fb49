/** Files as bytes, and the records of the block index. */
module ByteFiles {
  import opened Rounding

  type Byte = n: int | 0 <= n < 256

  type File = seq<Byte>

  // ----- little-endian numbers -----

  function Power(n: nat): (p: nat)
    ensures p > 0
  {
    if n == 0 then 1 else 256 * Power(n - 1)
  }

  /** The `width` lowest bytes of a number, the least significant one first. */
  function ToLittle(n: nat, width: nat): (bytes: seq<Byte>)
    ensures |bytes| == width
  {
    if width == 0 then [] else [n % 256] + ToLittle(n / 256, width - 1)
  }

  function FromLittle(bytes: seq<Byte>): nat {
    if bytes == [] then 0 else bytes[0] + 256 * FromLittle(bytes[1..])
  }

  lemma {:induction false} LittleRoundTrip(n: nat, width: nat)
    requires n < Power(width)
    ensures FromLittle(ToLittle(n, width)) == n
  {
    if width > 0 {
      assert n / 256 < Power(width - 1);
      LittleRoundTrip(n / 256, width - 1);
      assert ToLittle(n, width)[1..] == ToLittle(n / 256, width - 1);
    }
  }

  lemma {:induction false} ZerosAreZero(bytes: seq<Byte>)
    requires forall i :: 0 <= i < |bytes| ==> bytes[i] == 0
    ensures FromLittle(bytes) == 0
  {
    if bytes != [] {
      ZerosAreZero(bytes[1..]);
    }
  }

  // ----- index entries -----

  const POSITIONS := 0x1_0000_0000_0000_0000
  const SIZES := 0x1_0000_0000

  lemma FieldWidths()
    ensures Power(8) == POSITIONS && Power(4) == SIZES
  {
    assert Power(2) == 0x1_0000;
    assert Power(4) == 256 * (256 * Power(2));
    assert Power(6) == 256 * (256 * Power(4));
  }

  const ENTRY_SIZE := 32

  type Id = s: seq<Byte> | |s| == 20 witness [0, 0, 0, 0, 0, 0, 0, 0, 0, 0, 0, 0, 0, 0, 0, 0, 0, 0, 0, 0]

  const NO_ID: Id := [0, 0, 0, 0, 0, 0, 0, 0, 0, 0, 0, 0, 0, 0, 0, 0, 0, 0, 0, 0]

  datatype Entry = Entry(pos: nat, size: nat, id: Id)

  const NO_ENTRY := Entry(0, 0, NO_ID)

  /** Eight bytes of position, four of size, twenty of id. */
  function Encode(e: Entry): (bytes: seq<Byte>)
    ensures |bytes| == ENTRY_SIZE
  {
    ToLittle(e.pos, 8) + ToLittle(e.size, 4) + e.id
  }

  function Decode(bytes: seq<Byte>): Entry
    requires |bytes| == ENTRY_SIZE
  {
    Entry(FromLittle(bytes[..8]), FromLittle(bytes[8..12]), bytes[12..])
  }

  /** Each byte of a number in a record: the least significant one comes first. */
  lemma {:induction false} LittleIs(n: nat, width: nat, k: nat)
    requires k < width
    ensures ToLittle(n, width)[k] == n / Power(k) % 256
    decreases k
  {
    if k > 0 {
      LittleIs(n / 256, width - 1, k - 1);
      DivideTwice(n, Power(k - 1));
    }
  }

  lemma DivideTwice(n: nat, b: nat)
    requires b > 0
    ensures n / 256 / b == n / (256 * b)
  {
    var q, r := n / 256 / b, n / 256 % b;
    assert n / 256 == q * b + r;
    assert 256 * (q * b) == q * (256 * b);
    DivisionIs(n, 256 * b, q, 256 * r + n % 256);
  }

  lemma EntryRoundTrip(e: Entry)
    requires e.pos < POSITIONS && e.size < SIZES
    ensures Decode(Encode(e)) == e
  {
    FieldWidths();
    LittleRoundTrip(e.pos, 8);
    LittleRoundTrip(e.size, 4);
    var b := Encode(e);
    assert b[..8] == ToLittle(e.pos, 8) && b[8..12] == ToLittle(e.size, 4) && b[12..] == e.id;
  }

  lemma HoleIsNoEntry(bytes: seq<Byte>)
    requires |bytes| == ENTRY_SIZE && forall i :: 0 <= i < |bytes| ==> bytes[i] == 0
    ensures Decode(bytes) == NO_ENTRY
  {
    ZerosAreZero(bytes[..8]);
    ZerosAreZero(bytes[8..12]);
    assert bytes[12..] == NO_ID;
  }

  // ----- files -----

  function Zeros(n: nat): (z: seq<Byte>)
    ensures |z| == n && forall i :: 0 <= i < n ==> z[i] == 0
  {
    seq(n, i => 0)
  }

  /** Writing past the end leaves a hole of zeros. */
  function WriteAt(file: File, pos: nat, data: seq<Byte>): File {
    var long := if |file| < pos then file + Zeros(pos - |file|) else file;
    long[..pos] + data + if pos + |data| < |long| then long[pos + |data|..] else []
  }

  lemma OtherBytes(file: File, pos: nat, data: seq<Byte>, from: nat, count: nat)
    requires from + count <= |file| && (from + count <= pos || pos + |data| <= from)
    ensures from + count <= |WriteAt(file, pos, data)|
    ensures WriteAt(file, pos, data)[from..from + count] == file[from..from + count]
  {
    var after := WriteAt(file, pos, data);
    assert forall i :: from <= i < from + count ==> after[i] == file[i];
  }

  lemma HoleBytes(file: File, pos: nat, data: seq<Byte>, from: nat, count: nat)
    requires |file| <= from && from + count <= pos
    ensures from + count <= |WriteAt(file, pos, data)|
    ensures WriteAt(file, pos, data)[from..from + count] == Zeros(count)
  {
    var after := WriteAt(file, pos, data);
    assert forall i :: from <= i < from + count ==> after[i] == 0;
  }

  function Entries(index: File): nat {
    |index| / ENTRY_SIZE
  }

  function EntryAt(index: File, n: nat): Entry
    requires n < Entries(index)
  {
    Decode(index[ENTRY_SIZE * n..ENTRY_SIZE * n + ENTRY_SIZE])
  }

  /** Writing one record changes that record and fills the holes before it. */
  lemma WriteEntry(index: File, n: nat, e: Entry)
    requires |index| % ENTRY_SIZE == 0 && e.pos < POSITIONS && e.size < SIZES
    ensures var after := WriteAt(index, ENTRY_SIZE * n, Encode(e));
            && |after| % ENTRY_SIZE == 0
            && Entries(after) == (if n < Entries(index) then Entries(index) else n + 1)
            && EntryAt(after, n) == e
            && (forall m :: 0 <= m < Entries(after) && m != n ==>
                  EntryAt(after, m) == if m < Entries(index) then EntryAt(index, m) else NO_ENTRY)
  {
    var at := ENTRY_SIZE * n;
    var after := WriteAt(index, at, Encode(e));
    assert after[at..at + ENTRY_SIZE] == Encode(e);
    EntryRoundTrip(e);
    forall m | 0 <= m < Entries(after) && m != n
      ensures EntryAt(after, m) == if m < Entries(index) then EntryAt(index, m) else NO_ENTRY
    {
      var from := ENTRY_SIZE * m;
      assert from + ENTRY_SIZE <= at || at + ENTRY_SIZE <= from;
      if m < Entries(index) {
        OtherBytes(index, at, Encode(e), from, ENTRY_SIZE);
      } else {
        HoleBytes(index, at, Encode(e), from, ENTRY_SIZE);
        HoleIsNoEntry(Zeros(ENTRY_SIZE));
      }
    }
  }
}
