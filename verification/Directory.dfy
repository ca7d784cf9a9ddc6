/** The directory: a table of named files, stored as a file of its own (filesys/directory.cc). */
module Directories {
  import opened Words
  import opened Headers
  import opened OpenFiles

  /** An entry holds the address of the name, not its characters. */
  datatype Entry = Entry(inUse: bool, sector: Int32, kind: Byte, name: Word)

  /** What the addresses point to; `strcmp` looks through it. */
  type Text = Word -> string

  /** An entry takes four words; the padding after the flag and the type is taken to be zero. */
  function EncodeEntry(e: Entry): seq<Word> {
    [if e.inUse then 1 else 0, Stored(e.sector), e.kind as int, e.name]
  }

  function DecodeEntry(ws: seq<Word>): Entry
    requires |ws| == 4
  {
    Entry(ws[0] % 256 != 0, Fetched(ws[1]), (ws[2] % 256) as Byte, ws[3])
  }

  function EncodeTable(t: seq<Entry>): (b: seq<Byte>)
    ensures |b| == 16 * |t|
  {
    if t == [] then [] else Pack(EncodeEntry(t[0])) + EncodeTable(t[1..])
  }

  function DecodeTable(b: seq<Byte>): (t: seq<Entry>)
    ensures |t| == |b| / 16
  {
    if |b| < 16 then [] else [DecodeEntry(Unpack(b[..16]))] + DecodeTable(b[16..])
  }

  /** A directory written back and fetched again is the same directory. */
  lemma {:induction false} TableRoundTrip(t: seq<Entry>)
    ensures DecodeTable(EncodeTable(t)) == t
  {
    if t != [] {
      var first := Pack(EncodeEntry(t[0]));
      assert EncodeTable(t)[..16] == first && EncodeTable(t)[16..] == EncodeTable(t[1..]);
      PackRoundTrip(EncodeEntry(t[0]));
      TableRoundTrip(t[1..]);
    }
  }

  predicate Named(e: Entry, text: Text, name: string) { e.inUse && text(e.name) == name }

  /** The index of the first entry with the name, or -1. */
  function IndexFrom(t: seq<Entry>, text: Text, name: string, i: nat): (k: int)
    requires i <= |t|
    ensures k == -1 || (i <= k < |t| && Named(t[k], text, name))
    ensures forall j :: i <= j < |t| && (k == -1 || j < k) ==> !Named(t[j], text, name)
    decreases |t| - i
  {
    if i == |t| then -1 else if Named(t[i], text, name) then i else IndexFrom(t, text, name, i + 1)
  }

  /** The header sector that the directory gives for a name, or -1. */
  function LookUp(t: seq<Entry>, text: Text, name: string): int {
    var k := IndexFrom(t, text, name, 0);
    if k == -1 then -1 else t[k].sector
  }

  /** The first entry that is not in use, or -1. */
  function FreeFrom(t: seq<Entry>, i: nat): (k: int)
    requires i <= |t|
    ensures k == -1 || (i <= k < |t| && !t[k].inUse)
    ensures forall j :: i <= j < |t| && (k == -1 || j < k) ==> t[j].inUse
    decreases |t| - i
  {
    if i == |t| then -1 else if !t[i].inUse then i else FreeFrom(t, i + 1)
  }

  /** No two entries in use have the same name or the same sector. */
  ghost predicate Unique(t: seq<Entry>, text: Text) {
    forall i, j :: 0 <= i < |t| && 0 <= j < |t| && i != j && t[i].inUse && t[j].inUse ==>
      text(t[i].name) != text(t[j].name) && t[i].sector != t[j].sector
  }

  function Added(t: seq<Entry>, k: nat, name: Word, sector: Int32): seq<Entry>
    requires k < |t|
  {
    t[k := Entry(true, sector, 'F' as int as Byte, name)]
  }

  /** Adding a name changes the answer for that name only. */
  lemma AddedLookUp(t: seq<Entry>, text: Text, k: nat, name: Word, sector: Int32, other: string)
    requires k < |t| && !t[k].inUse && IndexFrom(t, text, text(name), 0) == -1
    ensures LookUp(Added(t, k, name, sector), text, other)
         == if other == text(name) then sector else LookUp(t, text, other)
  {
    var t' := Added(t, k, name, sector);
    var i, i' := IndexFrom(t, text, other, 0), IndexFrom(t', text, other, 0);
    if other == text(name) {
      assert Named(t'[k], text, other);
    } else {
      assert !Named(t'[k], text, other) && !Named(t[k], text, other);
      if i != -1 { assert Named(t'[i], text, other); }
      if i' != -1 { assert Named(t[i'], text, other); }
    }
  }

  class Directory {
    const text: Text
    const table: array<Entry>

    constructor (size: nat, text: Text)
      ensures fresh(table) && table.Length == size && this.text == text
      ensures forall i :: 0 <= i < size ==> !table[i].inUse
    {
      this.text := text;
      table := new Entry[size];
      new;
      for i := 0 to size
        invariant forall j :: 0 <= j < i ==> !table[j].inUse
      {
        table[i] := table[i].(inUse := false);
      }
    }

    method FindIndex(name: Word) returns (k: int)
      ensures k == IndexFrom(table[..], text, text(name), 0)
    {
      for i := 0 to table.Length
        invariant IndexFrom(table[..], text, text(name), 0) == IndexFrom(table[..], text, text(name), i)
      {
        if table[i].inUse && text(table[i].name) == text(name) {
          return i;
        }
      }
      k := -1;
    }

    method Find(name: Word) returns (sector: int)
      ensures sector == LookUp(table[..], text, text(name))
    {
      var i := FindIndex(name);
      sector := if i != -1 then table[i].sector else -1;
    }

    /** Fails when the name is taken or the table is full, and then changes nothing. */
    method Add(name: Word, newSector: Int32) returns (ok: bool)
      modifies table
      ensures ok <==> IndexFrom(old(table[..]), text, text(name), 0) == -1 && FreeFrom(old(table[..]), 0) != -1
      ensures table[..] == if ok then Added(old(table[..]), FreeFrom(old(table[..]), 0), name, newSector)
                           else old(table[..])
    {
      var k := FindIndex(name);
      if k != -1 {
        return false;
      }
      for i := 0 to table.Length
        invariant table[..] == old(table[..])
        invariant FreeFrom(table[..], 0) == FreeFrom(table[..], i)
      {
        if !table[i].inUse {
          table[i] := Entry(true, newSector, 'F' as int as Byte, name);
          return true;
        }
      }
      ok := false;
    }

    method FetchFrom(file: OpenFile)
      requires file.Valid() && file.file.numBytes == 16 * table.Length < 0x8000_0000
      modifies table
      ensures table[..] == DecodeTable(file.Bytes())
    {
      var b := file.ReadAt(16 * table.Length, 0);
      ghost var bytes := file.Bytes();
      assert b == bytes[..|bytes|] == bytes || |b| == 0;
      var entries := DecodeTable(b);
      for i := 0 to table.Length
        invariant table[..i] == entries[..i]
      {
        table[i] := entries[i];
      }
      assert table[..] == table[..table.Length] && entries == entries[..table.Length];
      assert file.Bytes() == bytes && b == bytes;
    }

    method WriteBack(file: OpenFile)
      requires file.Valid() && file.file.numBytes == 16 * table.Length && 0 < 16 * table.Length < 0x8000_0000
      modifies file.disk
      ensures file.Valid() && DecodeTable(file.Bytes()) == table[..]
      ensures SameOutside(old(file.disk.sectors), file.disk.sectors, file.file.data)
      ensures SameOutside(old(file.disk.headers), file.disk.headers, file.file.data)
    {
      var b := EncodeTable(table[..]);
      TableRoundTrip(table[..]);
      ghost var was := file.Bytes();
      var count := file.WriteAt(b, |b|, 0);
      assert b[..count] == b && Splice(was, 0, b) == b;
    }
  }
}
