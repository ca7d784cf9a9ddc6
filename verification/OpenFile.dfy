/** Reading and writing an open file, a sector at a time (filesys/openfile.cc). */
module OpenFiles {
  import opened Words
  import opened Disks
  import opened Headers

  /** The bytes of a file. */
  ghost function Contents(d: Image, f: File): (b: seq<Byte>)
    requires Shaped(f)
    ensures |b| == f.numBytes
  {
    seq(f.numBytes, k requires 0 <= k < f.numBytes => d[f.data[k / 128]][k % 128])
  }

  /** A request moves something exactly if it asks for something and starts inside the file; then all of
      it is moved, or everything up to the end of the file. */
  predicate Moves(count: int, numBytes: int, position: nat, length: nat) {
    if 0 < numBytes && position < length then
      0 < count <= numBytes && position + count <= length && (count == numBytes || position + count == length)
    else count == 0
  }

  /** The addition that the code makes for a request inside the file does not overflow an `int`; an
      overflow would be undefined. */
  predicate Fits(numBytes: int, position: nat, length: nat) {
    numBytes <= 0 || position >= length || position + numBytes < 0x8000_0000
  }

  /** Overwriting part of a byte string. */
  function Splice(b: seq<Byte>, at: nat, data: seq<Byte>): (r: seq<Byte>)
    requires at + |data| <= |b|
    ensures |r| == |b|
    ensures forall k :: 0 <= k < |b| ==> r[k] == if at <= k < at + |data| then data[k - at] else b[k]
  {
    b[..at] + data + b[at + |data|..]
  }

  class OpenFile {
    const disk: Disk
    const hdrSector: int
    var hdr: Header
    var seekPosition: nat
    ghost const file: File

    /** The first header is in memory; the rest of the chain is read from the disk when needed. */
    ghost predicate Valid()
      reads this, disk
    {
      && disk.Valid() && Shaped(file) && hdrSector == file.hdrs[0]
      && Heads(hdr, file) && Chained(disk.headers, file, 1)
    }

    ghost function Bytes(): seq<Byte>
      requires Shaped(file)
      reads this, disk
    {
      Contents(disk.sectors, file)
    }

    /** Opening a file brings its header into memory. */
    constructor (disk: Disk, sector: int, ghost f: File)
      requires disk.Valid() && OnDisk(sector)
      ensures this.disk == disk && hdrSector == sector && hdr == disk.headers[sector] && file == f && seekPosition == 0
      ensures FileAt(disk.headers, f) && sector == f.hdrs[0] ==> Valid()
    {
      this.disk, hdrSector, file, seekPosition := disk, sector, f, 0;
      var h := disk.FetchFrom(sector);
      hdr := h;
    }

    method Length() returns (length: int)
      requires Valid()
      ensures length == file.numBytes
    {
      length := hdr.numBytes;
    }

    method Seek(position: nat)
      modifies this
      ensures seekPosition == position && hdr == old(hdr)
    {
      seekPosition := position;
    }

    /** Read in the full and partial sectors from `first` to `last`. */
    method ReadSectors(first: nat, last: nat) returns (buf: seq<Byte>)
      requires Valid() && first <= last < |file.data|
      ensures buf == Gathered(disk.sectors, file.data, first, last - first + 1)
    {
      buf := [];
      for i := first to last + 1
        invariant buf == Gathered(disk.sectors, file.data, first, i - first)
      {
        var n := ByteToSector(disk, hdr, i * 128, file);
        var s := disk.ReadSector(n);
        buf := buf + s;
      }
    }

    /** The bytes of a request that lies inside the file. */
    method Extract(position: nat, count: nat) returns (into: seq<Byte>)
      requires Valid() && 0 < count && position + count <= file.numBytes
      ensures into == Bytes()[position..position + count]
    {
      var firstSector, lastSector := position / 128, (position + count - 1) / 128;
      SectorInFile(file, position + count - 1);
      var buf := ReadSectors(firstSector, lastSector);
      var skip := position - firstSector * 128;
      into := buf[skip..skip + count];
      RequestRead(disk.sectors, file, firstSector, lastSector, position, count);
    }

    /** The requested bytes, cut at the end of the file. */
    method ReadAt(numBytes: int, position: nat) returns (into: seq<Byte>)
      requires Valid() && Fits(numBytes, position, file.numBytes)
      ensures Moves(|into|, numBytes, position, file.numBytes)
      ensures |into| > 0 ==> into == Bytes()[position..position + |into|]
    {
      var fileLength := hdr.numBytes;
      if numBytes <= 0 || position >= fileLength {
        return [];
      }
      var count := if position + numBytes > fileLength then fileLength - position else numBytes;
      into := Extract(position, count);
    }

    /** The old bytes of a sector that a request covers only in part. */
    method ReadPart(partial: bool, i: nat) returns (part: seq<Byte>)
      requires Valid() && i * 128 < file.numBytes
      ensures Brought(part, Bytes(), i * 128, partial)
    {
      part := [];
      if partial {
        part := ReadAt(128, i * 128);
      }
    }

    /** The sectors of the request as they are to be written: partially covered sectors are read
        first, so that the bytes around the request survive. */
    method PrepareBuffer(from: seq<Byte>, position: nat, first: nat, last: nat) returns (buf: seq<Byte>)
      requires Valid() && 0 < |from| && position + |from| <= file.numBytes
      requires InSector(position, first) && InSector(position + |from| - 1, last)
      ensures |buf| == (last - first + 1) * 128
      ensures Prepared(buf, Splice(Bytes(), position, from), first * 128)
    {
      buf := Uninitialised((last - first + 1) * 128);
      var firstAligned := position == first * 128;
      var lastAligned := position + |from| == (last + 1) * 128;
      var head := ReadPart(!firstAligned, first);
      var tail := ReadPart(!lastAligned && (first != last || firstAligned), last);
      buf := Assemble(buf, head, tail, from, position, first * 128, last * 128, Bytes());
    }

    method WriteOne(i: nat, data: Sector)
      requires Valid() && i < |file.data|
      modifies disk
      ensures Valid() && disk.sectors == old(disk.sectors)[file.data[i] := data]
      ensures SameOutside(old(disk.headers), disk.headers, file.data)
    {
      var n := ByteToSector(disk, hdr, i * 128, file);
      disk.WriteSector(n, data);
      assert n in file.data;
      ChainFrame(old(disk.headers), disk.headers, file, 1);
    }

    /** Write the buffer back over sectors `first` to `last` of the file. */
    method WriteSectors(first: nat, last: nat, buf: seq<Byte>)
      requires Valid() && first <= last < |file.data| && |buf| == (last - first + 1) * 128
      modifies disk
      ensures Valid() && SameOutside(old(disk.headers), disk.headers, file.data)
      ensures disk.sectors == Overwritten(old(disk.sectors), file.data, first, last - first + 1, buf)
    {
      ghost var d, h := disk.sectors, disk.headers;
      for i := first to last + 1
        invariant Valid() && SameOutside(h, disk.headers, file.data)
        invariant disk.sectors == Overwritten(d, file.data, first, i - first, buf)
      {
        WriteOne(i, buf[(i - first) * 128..(i - first + 1) * 128]);
      }
    }

    /** Replace the bytes of a request that lies inside the file. */
    method Replace(from: seq<Byte>, position: nat)
      requires Valid() && 0 < |from| && position + |from| <= file.numBytes
      modifies disk
      ensures Valid() && Bytes() == Splice(old(Bytes()), position, from)
      ensures SameOutside(old(disk.sectors), disk.sectors, file.data)
      ensures SameOutside(old(disk.headers), disk.headers, file.data)
    {
      var firstSector, lastSector := position / 128, (position + |from| - 1) / 128;
      SectorInFile(file, position + |from| - 1);
      var buf := PrepareBuffer(from, position, firstSector, lastSector);
      ghost var d := disk.sectors;
      WriteSectors(firstSector, lastSector, buf);
      RequestWritten(d, file, firstSector, lastSector, buf, from, position);
    }

    /** Replace exactly the requested bytes, cut at the end of the file; no other sector of the
        disk changes, so every header and every other file is untouched. */
    method WriteAt(from: seq<Byte>, numBytes: int, position: nat) returns (count: int)
      requires Valid() && Fits(numBytes, position, file.numBytes) && numBytes <= |from|
      modifies disk
      ensures Valid() && Moves(count, numBytes, position, file.numBytes)
      ensures count == 0 ==> unchanged(disk)
      ensures count > 0 ==> Bytes() == Splice(old(Bytes()), position, from[..count])
      ensures SameOutside(old(disk.sectors), disk.sectors, file.data)
      ensures SameOutside(old(disk.headers), disk.headers, file.data)
    {
      var fileLength := hdr.numBytes;
      if numBytes <= 0 || position >= fileLength {
        return 0;
      }
      count := if position + numBytes > fileLength then fileLength - position else numBytes;
      Replace(from[..count], position);
    }

    /** `Read` and `Write` record the time in the header and write it back. */
    method Stamp(now: Word, written: bool)
      requires Valid()
      modifies this, disk
      ensures Valid() && Bytes() == old(Bytes()) && seekPosition == old(seekPosition)
      ensures hdr.lastAccessTime == now && hdr.createTime == old(hdr.createTime)
      ensures hdr.lastWriteTime == if written then now else old(hdr.lastWriteTime)
      ensures disk.headers == old(disk.headers)[hdrSector := hdr] && FileAt(disk.headers, file)
      ensures SameOutside(old(disk.sectors), disk.sectors, [hdrSector])
    {
      hdr := hdr.(lastAccessTime := now, lastWriteTime := if written then now else hdr.lastWriteTime);
      assert hdrSector in file.hdrs;
      disk.WriteBack(hdrSector, hdr);
      HeaderRewritten(old(disk.headers), disk.headers, file);
      SameContents(old(disk.sectors), disk.sectors, file);
    }

    /** Read on from the current position; only the header's sector is written. */
    method Read(numBytes: int, now: Word) returns (into: seq<Byte>)
      requires Valid() && Fits(numBytes, seekPosition, file.numBytes)
      modifies this, disk
      ensures Valid() && Bytes() == old(Bytes()) && FileAt(disk.headers, file)
      ensures Moves(|into|, numBytes, old(seekPosition), file.numBytes)
      ensures |into| > 0 ==> into == Bytes()[old(seekPosition)..old(seekPosition) + |into|]
      ensures seekPosition == old(seekPosition) + |into|
      ensures disk.headers[hdrSector] == hdr && hdr.lastAccessTime == now && hdr.lastWriteTime == old(hdr.lastWriteTime)
      ensures SameOutside(old(disk.sectors), disk.sectors, [hdrSector])
      ensures SameOutside(old(disk.headers), disk.headers, [hdrSector])
    {
      into := ReadAt(numBytes, seekPosition);
      seekPosition := seekPosition + |into|;
      Stamp(now, false);
    }

    /** Write on from the current position; only the file's data sectors and the sector of its first
        header are written. */
    method Write(from: seq<Byte>, numBytes: int, now: Word) returns (count: int)
      requires Valid() && Fits(numBytes, seekPosition, file.numBytes) && numBytes <= |from|
      modifies this, disk
      ensures Valid() && Moves(count, numBytes, old(seekPosition), file.numBytes) && FileAt(disk.headers, file)
      ensures Bytes() == if count == 0 then old(Bytes()) else Splice(old(Bytes()), old(seekPosition), from[..count])
      ensures seekPosition == old(seekPosition) + count
      ensures disk.headers[hdrSector] == hdr && hdr.lastAccessTime == now && hdr.lastWriteTime == now
      ensures SameOutside(old(disk.sectors), disk.sectors, file.data + [hdrSector])
      ensures SameOutside(old(disk.headers), disk.headers, file.data + [hdrSector])
    {
      count := WriteAt(from, numBytes, seekPosition);
      seekPosition := seekPosition + count;
      Stamp(now, true);
    }
  }

  lemma HeaderRewritten(d: Headers, d': Headers, f: File)
    requires Shaped(f) && Chained(d, f, 1) && Heads(d'[f.hdrs[0]], f)
    requires d' == d[f.hdrs[0] := d'[f.hdrs[0]]]
    ensures FileAt(d', f)
  {
    NoDupFirst(f.hdrs);
    LaterChainFrame(d, d', f, 1);
  }

  lemma {:induction false} LaterChainFrame(d: Headers, d': Headers, f: File, c: nat)
    requires 1 <= c && AllOnDisk(f.hdrs) && Chained(d, f, c)
    requires forall i :: 1 <= i < |f.hdrs| ==> d'[f.hdrs[i]] == d[f.hdrs[i]]
    ensures Chained(d', f, c)
    decreases |f.hdrs| - c
  {
    if c < |f.hdrs| {
      LaterChainFrame(d, d', f, c + 1);
    }
  }

  lemma NoDupFirst(s: seq<int>)
    requires NoDup(s)
    ensures forall i :: 1 <= i < |s| ==> s[i] != s[0]
  {
    forall i | 1 <= i < |s| ensures s[i] != s[0] {
      NoDupPair(s, 0, i);
    }
  }

  /** A file's bytes depend on its data sectors only. */
  lemma SameContents(d: Image, d': Image, f: File)
    requires Shaped(f) && SameSectors(d, d', f.data)
    ensures Contents(d', f) == Contents(d, f)
  {
    forall k | 0 <= k < f.numBytes ensures Contents(d', f)[k] == Contents(d, f)[k] {
      assert f.data[k / 128] in f.data;
    }
  }

  predicate InSector(k: nat, i: nat) { i * 128 <= k < (i + 1) * 128 }

  /** The buffer holds the bytes of `contents` from `lo` on, as far as there are any. */
  ghost predicate Prepared(buf: seq<Byte>, contents: seq<Byte>, lo: nat) {
    forall j :: 0 <= j < |buf| && lo + j < |contents| ==> buf[j] == contents[lo + j]
  }

  /** Memory fresh from the allocator holds anything. */
  method Uninitialised(size: nat) returns (buf: seq<Byte>)
    ensures |buf| == size
  {
    var junk: Byte := *;
    buf := seq(size, _ => junk);
  }

  /** Put the buffer together from what was read of the sectors at `lo` and `tl`, the first and the
      last, and the new bytes on top. */
  method Assemble(junk: seq<Byte>, head: seq<Byte>, tail: seq<Byte>, from: seq<Byte>, position: nat,
                  lo: nat, tl: nat, ghost was: seq<Byte>) returns (buf: seq<Byte>)
    requires 0 < |from| && position + |from| <= |was|
    requires lo <= position < lo + 128 && tl < position + |from| <= tl + 128
    requires lo == tl || lo + 128 <= tl
    requires |junk| == tl - lo + 128
    requires Brought(head, was, lo, position != lo)
    requires Brought(tail, was, tl, position + |from| != tl + 128 && (lo != tl || position == lo))
    ensures |buf| == |junk| && Prepared(buf, Splice(was, position, from), lo)
  {
    var b1 := Splice(junk, 0, head);
    var b2 := Splice(b1, tl - lo, tail);
    var b3 := Splice(b2, position - lo, from);
    buf := b3;
    forall j | 0 <= j < |b3| && lo + j < |was| ensures b3[j] == Splice(was, position, from)[lo + j] {
      AssembledByte(junk, head, tail, from, position, lo, tl, was, j);
    }
  }

  lemma AssembledByte(junk: seq<Byte>, head: seq<Byte>, tail: seq<Byte>, from: seq<Byte>, position: nat,
                      lo: nat, tl: nat, was: seq<Byte>, j: nat)
    requires 0 < |from| && position + |from| <= |was|
    requires lo <= position < lo + 128 && tl < position + |from| <= tl + 128
    requires lo == tl || lo + 128 <= tl
    requires j < |junk| == tl - lo + 128 && lo + j < |was|
    requires Brought(head, was, lo, position != lo)
    requires Brought(tail, was, tl, position + |from| != tl + 128 && (lo != tl || position == lo))
    ensures Splice(Splice(Splice(junk, 0, head), tl - lo, tail), position - lo, from)[j]
         == Splice(was, position, from)[lo + j]
  {
    var b1 := Splice(junk, 0, head);
    var b2 := Splice(b1, tl - lo, tail);
    if lo + j < position {
      assert b2[j] == b1[j] == head[j];
    } else if lo + j >= position + |from| {
      if tail != [] {
        assert b2[j] == tail[lo + j - tl];
      } else {
        assert b2[j] == b1[j] == head[j];
      }
    }
  }

  /** What `ReadAt` brings of the sector at `lo`, if it is asked to. */
  ghost predicate Brought(part: seq<Byte>, was: seq<Byte>, lo: nat, asked: bool) {
    if asked then
      && Moves(|part|, 128, lo, |was|)
      && (forall k :: 0 <= k < |part| ==> part[k] == was[lo + k])
    else part == []
  }

  /** The disk after n sectors of the buffer have been written to consecutive file sectors. */
  ghost function Overwritten(d: Image, data: seq<int>, first: nat, n: nat, buf: seq<Byte>): Image
    requires first + n <= |data| && n * 128 <= |buf|
    requires AllOnDisk(data)
  {
    if n == 0 then d
    else Overwritten(d, data, first, n - 1, buf)[data[first + n - 1] := buf[(n - 1) * 128..n * 128]]
  }

  lemma {:induction false} OverwrittenElsewhere(d: Image, data: seq<int>, first: nat, n: nat, buf: seq<Byte>, s: int)
    requires first + n <= |data| && n * 128 <= |buf|
    requires AllOnDisk(data)
    requires OnDisk(s) && forall i :: first <= i < first + n ==> s != data[i]
    ensures Overwritten(d, data, first, n, buf)[s] == d[s]
  {
    if n > 0 {
      OverwrittenElsewhere(d, data, first, n - 1, buf, s);
    }
  }

  lemma OverwrittenOutside(d: Image, data: seq<int>, first: nat, n: nat, buf: seq<Byte>)
    requires first + n <= |data| && n * 128 <= |buf| && AllOnDisk(data)
    ensures SameOutside(d, Overwritten(d, data, first, n, buf), data)
  {
    forall s | OnDisk(s) && s !in data ensures Overwritten(d, data, first, n, buf)[s] == d[s] {
      OverwrittenElsewhere(d, data, first, n, buf, s);
    }
  }

  lemma {:induction false} OverwrittenAt(d: Image, f: File, first: nat, n: nat, buf: seq<Byte>, i: nat)
    requires Shaped(f) && first + n <= |f.data| && n * 128 <= |buf| && first <= i < first + n
    ensures Overwritten(d, f.data, first, n, buf)[f.data[i]]
         == buf[(i - first) * 128..(i - first + 1) * 128]
  {
    if i < first + n - 1 {
      DataDistinct(f, i, first + n - 1);
      OverwrittenAt(d, f, first, n - 1, buf, i);
    }
  }

  /** Writing a prepared buffer back gives the file the new contents, provided they differ from the
      old ones only in the sectors written. */
  lemma BufferWritten(d: Image, f: File, first: nat, n: nat, buf: seq<Byte>, contents: seq<Byte>)
    requires Shaped(f) && first + n <= |f.data| && |buf| == n * 128
    requires |contents| == f.numBytes && Prepared(buf, contents, first * 128)
    requires forall k :: 0 <= k < f.numBytes && !(first * 128 <= k < (first + n) * 128) ==>
      contents[k] == Contents(d, f)[k]
    ensures Contents(Overwritten(d, f.data, first, n, buf), f) == contents
  {
    forall k | 0 <= k < f.numBytes
      ensures Contents(Overwritten(d, f.data, first, n, buf), f)[k] == contents[k]
    {
      ByteWritten(d, f, first, n, buf, contents, k);
    }
  }

  lemma RequestWritten(d: Image, f: File, first: nat, last: nat, buf: seq<Byte>, from: seq<Byte>, position: nat)
    requires Shaped(f) && first <= last < |f.data| && |buf| == (last - first + 1) * 128
    requires 0 < |from| && position + |from| <= f.numBytes
    requires InSector(position, first) && InSector(position + |from| - 1, last)
    requires Prepared(buf, Splice(Contents(d, f), position, from), first * 128)
    ensures var d' := Overwritten(d, f.data, first, last - first + 1, buf);
      Contents(d', f) == Splice(Contents(d, f), position, from) && SameOutside(d, d', f.data)
  {
    BufferWritten(d, f, first, last - first + 1, buf, Splice(Contents(d, f), position, from));
    OverwrittenOutside(d, f.data, first, last - first + 1, buf);
  }

  lemma ByteWritten(d: Image, f: File, first: nat, n: nat, buf: seq<Byte>, contents: seq<Byte>, k: nat)
    requires Shaped(f) && first + n <= |f.data| && |buf| == n * 128 && k < f.numBytes
    requires |contents| == f.numBytes && Prepared(buf, contents, first * 128)
    requires !(first * 128 <= k < (first + n) * 128) ==> contents[k] == Contents(d, f)[k]
    ensures Contents(Overwritten(d, f.data, first, n, buf), f)[k] == contents[k]
  {
    var i, r := k / 128, k % 128;
    SectorInFile(f, k);
    if first <= i < first + n {
      OverwrittenAt(d, f, first, n, buf, i);
      assert buf[(i - first) * 128..(i - first + 1) * 128][r] == buf[(i - first) * 128 + r];
    } else {
      forall j | first <= j < first + n ensures f.data[i] != f.data[j] {
        DataDistinct(f, i, j);
      }
      OverwrittenElsewhere(d, f.data, first, n, buf, f.data[i]);
    }
  }

  lemma SectorInFile(f: File, k: nat)
    requires Shaped(f) && k < f.numBytes
    ensures k / 128 < |f.data|
  {}

  /** n consecutive sectors of a file, one after the other. */
  ghost function Gathered(d: Image, data: seq<int>, first: nat, n: nat): (b: seq<Byte>)
    requires first + n <= |data| && AllOnDisk(data)
    ensures |b| == n * 128
  {
    if n == 0 then [] else Gathered(d, data, first, n - 1) + d[data[first + n - 1]]
  }

  lemma {:induction false} GatheredAt(d: Image, data: seq<int>, first: nat, n: nat, i: nat, r: nat)
    requires first <= i < first + n <= |data| && AllOnDisk(data) && r < 128
    ensures Gathered(d, data, first, n)[(i - first) * 128 + r] == d[data[i]][r]
  {
    if i < first + n - 1 {
      GatheredAt(d, data, first, n - 1, i, r);
    }
  }

  lemma RequestRead(d: Image, f: File, first: nat, last: nat, position: nat, count: nat)
    requires Shaped(f) && first <= last < |f.data| && 0 < count && position + count <= f.numBytes
    requires InSector(position, first) && InSector(position + count - 1, last)
    ensures var skip := position - first * 128;
      Gathered(d, f.data, first, last - first + 1)[skip..skip + count] == Contents(d, f)[position..position + count]
  {
    var n, skip := last - first + 1, position - first * 128;
    var a, b := Gathered(d, f.data, first, n)[skip..skip + count], Contents(d, f)[position..position + count];
    forall j | 0 <= j < count ensures a[j] == b[j] {
      ByteRead(d, f, first, n, position + j);
    }
  }

  lemma ByteRead(d: Image, f: File, first: nat, n: nat, k: nat)
    requires Shaped(f) && first + n <= |f.data| && k < f.numBytes
    requires first * 128 <= k < (first + n) * 128
    ensures Gathered(d, f.data, first, n)[k - first * 128] == Contents(d, f)[k]
  {
    var i, r := k / 128, k % 128;
    GatheredAt(d, f.data, first, n, i, r);
    assert (i - first) * 128 + r == k - first * 128;
  }
}
