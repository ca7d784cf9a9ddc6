/** The disk as an array of sectors.  `SynchDisks` shows that concurrent callers of the synchronous
    disk see it this way.  A sector has 128 bytes (`SectorSize`) and the disk 1024 sectors
    (`NumSectors`); the sizes are written out below, which keeps the arithmetic linear. */
module Disks {
  import opened Words

  function Zeros(): (s: seq<Byte>)
    ensures |s| == 128
  {
    seq(128, _ => 0)
  }

  type Sector = s: seq<Byte> | |s| == 128 witness Zeros()
  type Image = d: seq<Sector> | |d| == 1024 witness seq<Sector>(1024, _ => Zeros())

  predicate OnDisk(s: int) { 0 <= s < 1024 }
}

/** File headers, chained across sectors (filesys/filehdr.cc, filesys/filehdr.h). */
module Headers {
  import opened Words
  import opened Disks

  /** With 4-byte integers and times, a header with 26 sector numbers (`NumDirect`) fills one sector
      exactly. */
  datatype RawHeader = Header(
    createTime: Word, lastAccessTime: Word, lastWriteTime: Word,
    nextFdrSector: Int32, numBytes: Int32, numSectors: Int32, dataSectors: seq<Int32>)

  type Header = h: RawHeader | |h.dataSectors| == 26
    witness RawHeader.Header(0, 0, 0, 0, 0, 0, seq(26, _ => 0))

  /** A signed integer as the word that stores it, and back. */
  function Stored(x: Int32): Word { if x < 0 then x + WORD else x }
  function Fetched(w: Word): Int32 { if w < HALF then w else w - WORD }

  /** The 32 words of the header as they lie in memory and on disk. */
  function HeaderWord(h: Header, i: nat): Word
    requires i < 32
  {
    if i == 0 then h.createTime
    else if i == 1 then h.lastAccessTime
    else if i == 2 then h.lastWriteTime
    else if i == 3 then Stored(h.nextFdrSector)
    else if i == 4 then Stored(h.numBytes)
    else if i == 5 then Stored(h.numSectors)
    else Stored(h.dataSectors[i - 6])
  }

  function EncodeHeader(h: Header): Sector {
    Pack(seq(32, i requires 0 <= i < 32 => HeaderWord(h, i)))
  }

  function DecodeHeader(s: Sector): Header {
    var w := Unpack(s);
    RawHeader.Header(w[0], w[1], w[2], Fetched(w[3]), Fetched(w[4]), Fetched(w[5]),
                     seq(26, i requires 0 <= i < 26 => Fetched(w[6 + i])))
  }

  lemma HeaderRoundTrip(h: Header)
    ensures DecodeHeader(EncodeHeader(h)) == h
  {
    PackRoundTrip(seq(32, i requires 0 <= i < 32 => HeaderWord(h, i)));
    var h' := DecodeHeader(EncodeHeader(h));
    forall i | 0 <= i < 26 ensures h'.dataSectors[i] == h.dataSectors[i] {
      assert h'.dataSectors[i] == Fetched(HeaderWord(h, 6 + i));
    }
  }

  /** Every sector of the disk read as a header. */
  type Headers = h: seq<Header> | |h| == 1024 witness seq<Header>(1024, _ => DecodeHeader(Zeros()))

  class Disk {
    var sectors: Image
    ghost var headers: Headers

    ghost predicate Valid()
      reads this
    {
      forall s {:trigger DecodeHeader(sectors[s])} :: OnDisk(s) ==> headers[s] == DecodeHeader(sectors[s])
    }

    constructor ()
      ensures Valid()
    {
      sectors := seq(1024, _ => Zeros());
      headers := seq(1024, _ => DecodeHeader(Zeros()));
    }

    method ReadSector(n: int) returns (data: Sector)
      requires OnDisk(n)
      ensures data == sectors[n]
    {
      data := sectors[n];
    }

    /** Writing data leaves every other sector alone; read as a header, this one holds anything. */
    method WriteSector(n: int, data: Sector)
      requires Valid() && OnDisk(n)
      modifies this
      ensures Valid() && sectors == old(sectors)[n := data]
      ensures headers == old(headers)[n := headers[n]]
    {
      sectors := sectors[n := data];
      headers := headers[n := DecodeHeader(data)];
    }

    /** `FileHeader::FetchFrom` */
    method FetchFrom(n: int) returns (h: Header)
      requires Valid() && OnDisk(n)
      ensures h == headers[n]
    {
      h := DecodeHeader(sectors[n]);
    }

    /** `FileHeader::WriteBack` */
    method WriteBack(n: int, h: Header)
      requires Valid() && OnDisk(n)
      modifies this
      ensures Valid() && headers == old(headers)[n := h]
      ensures sectors == old(sectors)[n := sectors[n]]
    {
      HeaderRoundTrip(h);
      sectors := sectors[n := EncodeHeader(h)];
      headers := headers[n := h];
    }
  }

  // ---------- the layout of a file ----------

  /** The sectors of a file: its header sectors in chain order, its data sectors in file order. */
  datatype File = File(hdrs: seq<int>, data: seq<int>, numBytes: nat)

  function SectorsFor(numBytes: int): nat {
    if numBytes < 0 then 0 else numBytes / 128 + if numBytes % 128 > 0 then 1 else 0
  }

  /** How many headers a file needs besides the first. */
  function ChainFor(n: nat): nat { if n == 0 then 0 else (n - 1) / 26 }

  /** The sectors are just enough for the bytes, and the headers for the sectors. */
  lemma JustEnough(numBytes: nat, n: nat)
    ensures numBytes <= SectorsFor(numBytes) * 128 < numBytes + 128
    ensures n <= (1 + ChainFor(n)) * 26 && (ChainFor(n) > 0 ==> ChainFor(n) * 26 < n)
  {}

  /** No number occurs twice. */
  ghost predicate NoDup(s: seq<int>) {
    s == [] || (s[|s| - 1] !in s[..|s| - 1] && NoDup(s[..|s| - 1]))
  }

  lemma {:induction false} NoDupPair(s: seq<int>, i: nat, j: nat)
    requires NoDup(s) && i < j < |s|
    ensures s[i] != s[j]
  {
    var n := |s| - 1;
    if j < n {
      NoDupPair(s[..n], i, j);
    } else {
      assert s[..n][i] in s[..n];
    }
  }

  lemma NoDupAppend(s: seq<int>, x: int)
    requires NoDup(s) && x !in s
    ensures NoDup(s + [x])
  {
    assert (s + [x])[..|s|] == s;
  }

  ghost predicate AllOnDisk(s: seq<int>) { forall i :: 0 <= i < |s| ==> OnDisk(s[i]) }

  ghost predicate Apart(a: seq<int>, b: seq<int>) { forall x :: x in a ==> x !in b }

  /** The lists have the right lengths and name distinct sectors of the disk. */
  ghost predicate Shaped(f: File) {
    && |f.data| == SectorsFor(f.numBytes) <= 1024 && |f.hdrs| == 1 + ChainFor(|f.data|)
    && AllOnDisk(f.hdrs) && AllOnDisk(f.data)
    && NoDup(f.hdrs) && NoDup(f.data) && Apart(f.hdrs, f.data)
  }

  lemma DataDistinct(f: File, i: nat, j: nat)
    requires Shaped(f) && i < |f.data| && j < |f.data| && i != j
    ensures f.data[i] != f.data[j]
  {
    if i < j { NoDupPair(f.data, i, j); } else { NoDupPair(f.data, j, i); }
  }

  /** The part of the data sectors that header number c of the chain lists. */
  ghost function Share(f: File, c: nat): seq<int> {
    var lo, hi := c * 26, (c + 1) * 26;
    if |f.data| <= lo then [] else f.data[lo..if hi < |f.data| then hi else |f.data|]
  }

  ghost predicate Describes(h: Header, f: File, c: nat) {
    Share(f, c) <= h.dataSectors && (c + 1 < |f.hdrs| ==> h.nextFdrSector == f.hdrs[c + 1])
  }

  /** The first header also gives the length. */
  ghost predicate Heads(h: Header, f: File) {
    Describes(h, f, 0) && h.numBytes == f.numBytes && h.numSectors == |f.data|
  }

  /** The headers from number c of the chain on are on the disk. */
  ghost predicate Chained(d: Headers, f: File, c: nat)
    requires AllOnDisk(f.hdrs)
    decreases |f.hdrs| - c
  {
    c < |f.hdrs| ==> Describes(d[f.hdrs[c]], f, c) && Chained(d, f, c + 1)
  }

  ghost predicate FileAt(d: Headers, f: File) {
    Shaped(f) && Heads(d[f.hdrs[0]], f) && Chained(d, f, 1)
  }

  ghost predicate SameSectors<T>(d: seq<T>, d': seq<T>, sectors: seq<int>) {
    |d| == |d'| && forall s :: s in sectors && 0 <= s < |d| ==> d'[s] == d[s]
  }

  /** Nothing changed but at the given places. */
  ghost predicate SameOutside<T>(a: seq<T>, b: seq<T>, places: seq<int>) {
    |a| == |b| && forall s :: 0 <= s < |a| && s !in places ==> b[s] == a[s]
  }

  lemma {:induction false} ChainFrame(d: Headers, d': Headers, f: File, c: nat)
    requires AllOnDisk(f.hdrs) && Chained(d, f, c) && SameSectors(d, d', f.hdrs)
    ensures Chained(d', f, c)
    decreases |f.hdrs| - c
  {
    if c < |f.hdrs| {
      assert f.hdrs[c] in f.hdrs && d'[f.hdrs[c]] == d[f.hdrs[c]];
      ChainFrame(d, d', f, c + 1);
    }
  }

  lemma FileFrame(d: Headers, d': Headers, f: File)
    requires FileAt(d, f) && SameSectors(d, d', f.hdrs)
    ensures FileAt(d', f)
  {
    assert f.hdrs[0] in f.hdrs;
    ChainFrame(d, d', f, 1);
  }

  /** `FileHeader::ByteToSector`: walk the chain to the header that covers the offset.  Each header
      covers 26 sectors, 3328 bytes. */
  method ByteToSector(disk: Disk, hdr: Header, offset: nat, ghost f: File) returns (sector: int)
    requires AllOnDisk(f.hdrs) && |f.hdrs| == 1 + ChainFor(|f.data|) && offset < |f.data| * 128
    requires disk.Valid() && Describes(hdr, f, 0) && Chained(disk.headers, f, 1)
    ensures sector == f.data[offset / 128]
  {
    var h, rest := hdr, offset;
    ghost var c := 0;
    while rest >= 3328
      invariant 0 <= rest && rest == offset - c * 3328
      invariant 0 <= c < |f.hdrs| && Describes(h, f, c) && Chained(disk.headers, f, c + 1)
      decreases rest
    {
      NextInChain(f, offset, c);
      h := disk.FetchFrom(h.nextFdrSector);
      rest := rest - 3328;
      c := c + 1;
    }
    sector := h.dataSectors[rest / 128];
    Covered(h, f, offset, c);
  }

  /** A header that covers an offset names its sector. */
  lemma Covered(h: Header, f: File, offset: nat, c: nat)
    requires Describes(h, f, c) && offset < |f.data| * 128
    requires c * 3328 <= offset < (c + 1) * 3328
    ensures h.dataSectors[(offset - c * 3328) / 128] == f.data[offset / 128]
  {
    var i := offset / 128 - c * 26;
    assert (offset - c * 3328) / 128 == i;
    assert Share(f, c)[i] == f.data[offset / 128];
  }

  /** An offset beyond header c lies in a later header of the chain. */
  lemma NextInChain(f: File, offset: nat, c: nat)
    requires |f.hdrs| == 1 + ChainFor(|f.data|) && offset < |f.data| * 128
    requires offset >= (c + 1) * 3328
    ensures c + 1 < |f.hdrs|
  {
    assert |f.data| > (c + 1) * 26;
    assert |f.data| - 1 >= (c + 1) * 26;
  }
}
