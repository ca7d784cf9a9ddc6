/** Copying a file in and printing it, a few bytes at a time (filesys/fstest.cc). */
module FsTest {
  import opened Words
  import opened Disks
  import opened Headers
  import opened OpenFiles
  import opened Allocation
  import opened Directories
  import opened Volumes
  import FS = FileSystems

  const TRANSFER_SIZE := 10

  lemma PiecesFit(f: File, position: nat)
    requires Shaped(f) && position <= f.numBytes
    ensures Fits(TRANSFER_SIZE, position, f.numBytes)
  {
    assert f.numBytes <= 1024 * 128;
  }

  lemma SameOutsideTwice<T>(a: seq<T>, b: seq<T>, c: seq<T>, places: seq<int>)
    requires SameOutside(a, b, places) && SameOutside(b, c, places)
    ensures SameOutside(a, c, places)
  {}

  lemma Joined(b: seq<Byte>, i: nat, j: nat, k: nat)
    requires i <= j <= k <= |b|
    ensures b[i..j] + b[j..k] == b[i..k]
  {}

  /** The next piece that is to be printed. */
  method NextPiece(o: OpenFile, now: Word) returns (piece: seq<Byte>)
    requires o.Valid() && o.seekPosition <= o.file.numBytes
    modifies o, o.disk
    ensures o.Valid() && o.Bytes() == old(o.Bytes()) && FileAt(o.disk.headers, o.file)
    ensures SameOutside(old(o.disk.sectors), o.disk.sectors, [o.hdrSector])
    ensures SameOutside(old(o.disk.headers), o.disk.headers, [o.hdrSector])
    ensures o.seekPosition == old(o.seekPosition) + |piece| <= o.file.numBytes
    ensures piece == o.Bytes()[old(o.seekPosition)..o.seekPosition]
    ensures piece == [] ==> o.seekPosition == o.file.numBytes
  {
    PiecesFit(o.file, o.seekPosition);
    piece := o.Read(TRANSFER_SIZE, now);
  }

  /** Reading in pieces until nothing comes brings everything from the position to the end, byte by byte,
      and then stops. */
  method ReadOn(o: OpenFile, clock: nat -> Word) returns (out: seq<Byte>)
    requires o.Valid() && o.seekPosition <= o.file.numBytes
    modifies o, o.disk
    ensures o.Valid() && o.Bytes() == old(o.Bytes()) && FileAt(o.disk.headers, o.file)
    ensures SameOutside(old(o.disk.sectors), o.disk.sectors, [o.hdrSector])
    ensures SameOutside(old(o.disk.headers), o.disk.headers, [o.hdrSector])
    ensures out == o.Bytes()[old(o.seekPosition)..] && o.seekPosition == o.file.numBytes
  {
    ghost var d, h, b, start := o.disk.sectors, o.disk.headers, o.Bytes(), o.seekPosition;
    out := [];
    var piece := NextPiece(o, clock(0));
    var n := 1;
    while piece != []
      invariant o.Valid() && o.Bytes() == b && FileAt(o.disk.headers, o.file)
      invariant SameOutside(d, o.disk.sectors, [o.hdrSector]) && SameOutside(h, o.disk.headers, [o.hdrSector])
      invariant start <= o.seekPosition <= o.file.numBytes && out + piece == b[start..o.seekPosition]
      invariant piece == [] ==> o.seekPosition == o.file.numBytes
      decreases o.file.numBytes - o.seekPosition + |piece|
    {
      ghost var d1, h1, now := o.disk.sectors, o.disk.headers, o.seekPosition;
      out := out + piece;
      piece := NextPiece(o, clock(n));
      Joined(b, start, now, o.seekPosition);
      SameOutsideTwice(d, d1, o.disk.sectors, [o.hdrSector]);
      SameOutsideTwice(h, h1, o.disk.headers, [o.hdrSector]);
      n := n + 1;
    }
    assert b[start..o.seekPosition] == b[start..];
  }

  /** Writing one piece that lies inside the file. */
  method WritePiece(o: OpenFile, piece: seq<Byte>, now: Word)
    requires o.Valid() && 0 < |piece| <= TRANSFER_SIZE && o.seekPosition + |piece| <= o.file.numBytes
    modifies o, o.disk
    ensures o.Valid() && FileAt(o.disk.headers, o.file) && o.seekPosition == old(o.seekPosition) + |piece|
    ensures o.Bytes()[..o.seekPosition] == old(o.Bytes())[..old(o.seekPosition)] + piece
    ensures o.Bytes()[o.seekPosition..] == old(o.Bytes())[o.seekPosition..]
    ensures SameOutside(old(o.disk.sectors), o.disk.sectors, o.file.data + [o.hdrSector])
    ensures SameOutside(old(o.disk.headers), o.disk.headers, o.file.data + [o.hdrSector])
  {
    PiecesFit(o.file, o.seekPosition);
    ghost var b := o.Bytes();
    var count := o.Write(piece, |piece|, now);
    assert piece[..count] == piece;
    assert o.Bytes() == Splice(b, o.seekPosition - |piece|, piece);
  }

  /** Writing in pieces puts all the bytes there, in order, and leaves the bytes after them. */
  method WriteOn(o: OpenFile, from: seq<Byte>, clock: nat -> Word)
    requires o.Valid() && FileAt(o.disk.headers, o.file) && o.seekPosition + |from| <= o.file.numBytes
    modifies o, o.disk
    ensures o.Valid() && FileAt(o.disk.headers, o.file) && o.seekPosition == old(o.seekPosition) + |from|
    ensures o.Bytes() == Splice(old(o.Bytes()), old(o.seekPosition), from)
    ensures SameOutside(old(o.disk.sectors), o.disk.sectors, o.file.data + [o.hdrSector])
    ensures SameOutside(old(o.disk.headers), o.disk.headers, o.file.data + [o.hdrSector])
  {
    ghost var d, h, b, start := o.disk.sectors, o.disk.headers, o.Bytes(), o.seekPosition;
    ghost var places := o.file.data + [o.hdrSector];
    var i, n := 0, 0;
    while i < |from|
      invariant 0 <= i <= |from| && o.Valid() && FileAt(o.disk.headers, o.file) && o.seekPosition == start + i
      invariant o.Bytes()[..start + i] == b[..start] + from[..i] && o.Bytes()[start + i..] == b[start + i..]
      invariant SameOutside(d, o.disk.sectors, places) && SameOutside(h, o.disk.headers, places)
    {
      var amountRead := if |from| - i < TRANSFER_SIZE then |from| - i else TRANSFER_SIZE;
      ghost var d1, h1, b1 := o.disk.sectors, o.disk.headers, o.Bytes();
      WritePiece(o, from[i..i + amountRead], clock(n));
      SameOutsideTwice(d, d1, o.disk.sectors, places);
      SameOutsideTwice(h, h1, o.disk.headers, places);
      Advanced(b, b1, o.Bytes(), start, from, i, amountRead);
      i, n := i + amountRead, n + 1;
    }
    assert from[..i] == from && o.Bytes() == o.Bytes()[..start + i] + o.Bytes()[start + i..];
  }

  lemma Advanced(b: seq<Byte>, b1: seq<Byte>, b2: seq<Byte>, start: nat, from: seq<Byte>, i: nat, n: nat)
    requires i + n <= |from| && start + i + n <= |b| == |b1| == |b2|
    requires b1[..start + i] == b[..start] + from[..i] && b1[start + i..] == b[start + i..]
    requires b2[..start + i + n] == b1[..start + i] + from[i..i + n] && b2[start + i + n..] == b1[start + i + n..]
    ensures b2[..start + i + n] == b[..start] + from[..i + n] && b2[start + i + n..] == b[start + i + n..]
  {
    assert from[..i] + from[i..i + n] == from[..i + n];
    assert b1[start + i + n..] == b1[start + i..][n..] && b[start + i + n..] == b[start + i..][n..];
  }

  /** `Print`: the whole file comes out, in order; no file changes. */
  method Print(fs: FS.FileSystem, name: Word, clock: nat -> Word) returns (found: bool, out: seq<Byte>)
    requires fs.Valid()
    modifies fs.disk
    ensures fs.Valid() && fs.Table() == old(fs.Table())
    ensures found <==> LookUp(fs.Table(), fs.text, fs.text(name)) != -1
    ensures !found ==> out == [] && unchanged(fs.disk)
    ensures found ==> var k := LookUp(fs.Table(), fs.text, fs.text(name));
      k in fs.files && Shaped(fs.files[k]) && out == Contents(fs.disk.sectors, fs.files[k])
    ensures forall j :: j in fs.files ==> SameBytes(old(fs.disk.sectors), fs.disk.sectors, fs.files, j)
  {
    var o := fs.Open(name);
    if o == null {
      QuietKeeps(fs.disk.sectors, fs.disk.sectors, fs.disk.headers, fs.disk.headers, fs.files, fs.owner);
      return false, [];
    }
    found := true;
    ghost var k := o.hdrSector;
    AboveSpecialFiles(fs.Table(), fs.files, fs.text, fs.text(name));
    assert InPlace(fs.disk.headers, fs.files, fs.owner, k);
    out := ReadOn(o, clock);
    StampConsistent(old(fs.disk.sectors), fs.disk.sectors, old(fs.disk.headers), fs.disk.headers, fs.files, fs.owner,
                    fs.text, k);
  }

  /** The second half of `Copy`: the bytes go into a file of just that length, and into no other. */
  method Fill(fs: FS.FileSystem, name: Word, from: seq<Byte>, clock: nat -> Word)
    requires fs.Valid() && LookUp(fs.Table(), fs.text, fs.text(name)) in fs.files
    requires fs.files[LookUp(fs.Table(), fs.text, fs.text(name))].numBytes == |from|
    modifies fs.disk
    ensures fs.Valid() && fs.Table() == old(fs.Table())
    ensures var k := LookUp(fs.Table(), fs.text, fs.text(name));
      && k in fs.files && Shaped(fs.files[k]) && Contents(fs.disk.sectors, fs.files[k]) == from
      && forall j :: j in fs.files && j != k ==> SameBytes(old(fs.disk.sectors), fs.disk.sectors, fs.files, j)
  {
    ghost var k := LookUp(fs.Table(), fs.text, fs.text(name));
    assert InPlace(fs.disk.headers, fs.files, fs.owner, k);
    var o := fs.Open(name);
    AboveSpecialFiles(fs.Table(), fs.files, fs.text, fs.text(name));
    ghost var b := o.Bytes();
    WriteOn(o, from, clock);
    assert Splice(b, 0, from) == from;
    WriteConsistent(old(fs.disk.sectors), fs.disk.sectors, old(fs.disk.headers), fs.disk.headers, fs.files, fs.owner,
                    fs.text, k, fs.files[k].data + [k]);
  }

  lemma KeptFurther(d0: Image, d1: Image, d2: Image, files0: Files, files: Files, j: int, u: int)
    requires KeptBut(d0, d1, files0, j, u) && j in files && files[j] == files0[j] && SameBytes(d1, d2, files, j)
    ensures KeptBut(d0, d2, files0, j, u)
  {}

  /** `Copy`: a new file under the name, with exactly the bytes given.  Where `Create` would report success
      and leave an inconsistent disk nothing is said. */
  method Copy(fs: FS.FileSystem, from: seq<Byte>, to: Word, uninitialised: int, clock: nat -> Word) returns (r: FS.Result)
    requires fs.Valid() && |from| < 0x8000_0000
    requires !fs.Refused(to, SectorsFor(|from|)) ==>
      Sound(fs.files, Free(fs.owner.Keys) - 1, SectorsFor(|from|), uninitialised)
    modifies fs.disk, fs`files, fs`owner
    ensures fs.Valid() && (r == FS.Failure <==> old(fs.Refused(to, SectorsFor(|from|))))
    ensures r == FS.Halted <==>
      !old(fs.Refused(to, SectorsFor(|from|))) && Stops(old(Free(fs.owner.Keys)) - 1, SectorsFor(|from|), uninitialised)
    ensures r != FS.Success ==> unchanged(fs) && fs.Table() == old(fs.Table())
    ensures r == FS.Success ==>
      && CreatedBy(old(fs.Table()), fs.Table(), old(fs.files), fs.files, fs.text, to, |from|)
      && var k := LookUp(fs.Table(), fs.text, fs.text(to));
         Shaped(fs.files[k]) && Contents(fs.disk.sectors, fs.files[k]) == from
    ensures r == FS.Success ==> forall j :: j in old(fs.files) && j > DIRECTORY_SECTOR ==>
      KeptBut(old(fs.disk.sectors), fs.disk.sectors, old(fs.files), j, StraySector(|from|, uninitialised))
  {
    ghost var d0, files0 := fs.disk.sectors, fs.files;
    r := fs.Create(to, |from| as Int32, uninitialised, clock(0));
    if r != FS.Success {
      return;
    }
    ghost var d1 := fs.disk.sectors;
    Fill(fs, to, from, clock);
    forall j | j in files0 && j > DIRECTORY_SECTOR
      ensures KeptBut(d0, fs.disk.sectors, files0, j, StraySector(|from|, uninitialised))
    {
      KeptFurther(d0, d1, fs.disk.sectors, files0, fs.files, j, StraySector(|from|, uninitialised));
    }
  }
}
