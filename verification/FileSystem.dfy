/** The file system (filesys/filesys.cc): formatting, creating and opening files. */
module FileSystems {
  import opened Words
  import opened Disks
  import opened Headers
  import opened OpenFiles
  import opened Bitmaps
  import opened Allocation
  import opened Directories
  import opened Volumes

  /** `BitMap::WriteBack` */
  method StoreMap(file: OpenFile, freeMap: BitMap)
    requires file.Valid() && file.file.numBytes == 128 && freeMap.Valid() && freeMap.numBits == 1024
    modifies file.disk
    ensures file.Valid() && Members(Unpack(file.Bytes()), 1024) == freeMap.Set()
    ensures SameOutside(old(file.disk.sectors), file.disk.sectors, file.file.data)
    ensures SameOutside(old(file.disk.headers), file.disk.headers, file.file.data)
  {
    var b := freeMap.Bytes();
    ghost var was := file.Bytes();
    var count := file.WriteAt(b, |b|, 0);
    assert b[..count] == b && Splice(was, 0, b) == b;
    StoredSetRestored(freeMap.map_[..], 1024);
  }

  /** Look a name up, find a sector for the header and enter the name, all in memory. */
  method Enter(directory: Directory, freeMap: BitMap, name: Word, ghost t: seq<Entry>, ghost used: set<int>)
    returns (ok: bool, k: Int32)
    requires directory.table[..] == t && freeMap.Valid() && freeMap.numBits == 1024 && freeMap.Set() == used
    requires LookUp(t, directory.text, directory.text(name)) == -1 <==>
      IndexFrom(t, directory.text, directory.text(name), 0) == -1
    modifies directory.table, freeMap.map_
    ensures ok <==> LookUp(t, directory.text, directory.text(name)) == -1 && Free(used) >= 1 && FreeFrom(t, 0) != -1
    ensures ok ==> OnDisk(k) && k !in used && directory.table[..] == Added(t, FreeFrom(t, 0), name, k)
    ensures ok ==> freeMap.Set() == used + {k}
  {
    FindSucceeds(used);
    k := -1;
    var sector := directory.Find(name);
    if sector != -1 {
      return false, k;
    }
    k := FindSector(freeMap);
    if k == -1 {
      return false, k;
    }
    ok := directory.Add(name, k);
  }

  // ---------- formatting ----------

  /** Space for one of the special files, which are small enough for a single header. */
  method Reserve(disk: Disk, freeMap: BitMap, size: nat, k: int, uninitialised: int, now: Word)
    returns (hdr: Header, ghost f: File)
    requires disk.Valid() && freeMap.Valid() && freeMap.numBits == 1024 && k in freeMap.Set()
    requires size <= 500 && |freeMap.Set()| + SectorsFor(size) <= 1024
    modifies disk, freeMap.map_
    ensures disk.Valid() && SpecialFile(f, k, size, hdr)
    ensures Taken(old(freeMap.Set()), freeMap.Set(), f.hdrs, f.data)
    ensures |freeMap.Set()| == |old(freeMap.Set())| + SectorsFor(size)
  {
    ghost var d0, h0, used := disk.sectors, disk.headers, freeMap.Set();
    var outcome;
    outcome, hdr, f := Allocate(disk, freeMap, size, uninitialised, now, k);
    LaidSmall(d0, h0, used, disk.sectors, disk.headers, freeMap.Set(), hdr, f, k, size);
  }

  lemma LaidSmall(d0: Image, h0: Headers, used: set<int>, d: Image, h: Headers, marked: set<int>, hdr: Header, f: File,
                  k: int, size: nat)
    requires Laid(d0, h0, used, d, h, marked, hdr, f) && f.hdrs != [] && f.hdrs[0] == k
    requires f.numBytes == size && SectorsFor(size) < 26
    ensures SpecialFile(f, k, size, hdr) && Taken(used, marked, f.hdrs, f.data)
    ensures |marked| == |used| + SectorsFor(size)
  {
    assert f.hdrs == [k];
    TakenCount(used, marked, f.hdrs, f.data);
  }

  /** A file with a single header, which describes it. */
  ghost predicate SpecialFile(f: File, k: int, size: nat, hdr: Header) {
    Shaped(f) && f.hdrs == [k] && f.numBytes == size && Heads(hdr, f)
  }

  /** The three special files side by side. */
  lemma Formatted(h: Headers, f0: File, f1: File, f2: File, used0: set<int>, used1: set<int>, used2: set<int>, used3: set<int>)
    returns (files: Files, owner: Owners)
    requires SpecialFile(f0, FREE_MAP_SECTOR, 128, h[FREE_MAP_SECTOR])
    requires SpecialFile(f1, DIRECTORY_SECTOR, 160, h[DIRECTORY_SECTOR]) && SpecialFile(f2, PIPE_SECTOR, 500, h[PIPE_SECTOR])
    requires used0 == {FREE_MAP_SECTOR, DIRECTORY_SECTOR, PIPE_SECTOR}
    requires Taken(used0, used1, f0.hdrs, f0.data) && Taken(used1, used2, f1.hdrs, f1.data)
    requires Taken(used2, used3, f2.hdrs, f2.data)
    ensures files.Keys == {FREE_MAP_SECTOR, DIRECTORY_SECTOR, PIPE_SECTOR}
    ensures Placed(h, files, owner) && NoLeaks(files, owner) && Special(files) && owner.Keys == used3
  {
    files, owner := map[], map[];
    FileAdded(h, files, owner, f0, FREE_MAP_SECTOR);
    files, owner := files[FREE_MAP_SECTOR := f0], WithOwner(owner, f0, FREE_MAP_SECTOR);
    assert owner.Keys == Sectors(f0);
    FileAdded(h, files, owner, f1, DIRECTORY_SECTOR);
    files, owner := files[DIRECTORY_SECTOR := f1], WithOwner(owner, f1, DIRECTORY_SECTOR);
    assert owner.Keys == Sectors(f0) + Sectors(f1);
    FileAdded(h, files, owner, f2, PIPE_SECTOR);
    files, owner := files[PIPE_SECTOR := f2], WithOwner(owner, f2, PIPE_SECTOR);
    assert owner.Keys == used3;
  }

  /** Allocate the special files and write their headers; the disk may hold anything before. */
  method FormatHeaders(disk: Disk, freeMap: BitMap, uninitialised: int, now: Word)
    returns (ghost files: Files, ghost owner: Owners)
    requires disk.Valid() && freeMap.Valid() && freeMap.numBits == 1024 && freeMap.Set() == {}
    modifies disk, freeMap.map_
    ensures disk.Valid() && files.Keys == {FREE_MAP_SECTOR, DIRECTORY_SECTOR, PIPE_SECTOR}
    ensures Placed(disk.headers, files, owner) && NoLeaks(files, owner) && Special(files)
    ensures owner.Keys == freeMap.Set() && |owner.Keys| == 10
  {
    MarkSpecial(freeMap);
    ghost var used := freeMap.Set();
    var mapHdr, dirHdr, pipeHdr;
    ghost var f0, f1, f2, used1, used2;
    mapHdr, dirHdr, pipeHdr, f0, f1, f2, used1, used2 := ReserveAll(disk, freeMap, uninitialised, now);
    WriteHeaders(disk, mapHdr, dirHdr, pipeHdr, f0, f1, f2);
    files, owner := Formatted(disk.headers, f0, f1, f2, used, used1, used2, freeMap.Set());
  }

  /** Space for the three special files, one after the other. */
  method ReserveAll(disk: Disk, freeMap: BitMap, uninitialised: int, now: Word)
    returns (mapHdr: Header, dirHdr: Header, pipeHdr: Header, ghost f0: File, ghost f1: File, ghost f2: File,
             ghost used1: set<int>, ghost used2: set<int>)
    requires disk.Valid() && freeMap.Valid() && freeMap.numBits == 1024
    requires freeMap.Set() == {FREE_MAP_SECTOR, DIRECTORY_SECTOR, PIPE_SECTOR} && |freeMap.Set()| == 3
    modifies disk, freeMap.map_
    ensures disk.Valid() && |freeMap.Set()| == 10
    ensures SpecialFile(f0, FREE_MAP_SECTOR, 128, mapHdr) && Taken(old(freeMap.Set()), used1, f0.hdrs, f0.data)
    ensures SpecialFile(f1, DIRECTORY_SECTOR, 160, dirHdr) && Taken(used1, used2, f1.hdrs, f1.data)
    ensures SpecialFile(f2, PIPE_SECTOR, 500, pipeHdr) && Taken(used2, freeMap.Set(), f2.hdrs, f2.data)
  {
    mapHdr, f0 := Reserve(disk, freeMap, 128, FREE_MAP_SECTOR, uninitialised, now);
    used1 := freeMap.Set();
    dirHdr, f1 := Reserve(disk, freeMap, 160, DIRECTORY_SECTOR, uninitialised, now);
    used2 := freeMap.Set();
    pipeHdr, f2 := Reserve(disk, freeMap, 500, PIPE_SECTOR, uninitialised, now);
  }

  method MarkSpecial(freeMap: BitMap)
    requires freeMap.Valid() && freeMap.numBits == 1024 && freeMap.Set() == {}
    modifies freeMap.map_
    ensures freeMap.Set() == {FREE_MAP_SECTOR, DIRECTORY_SECTOR, PIPE_SECTOR} && |freeMap.Set()| == 3
  {
    freeMap.Mark(FREE_MAP_SECTOR);
    freeMap.Mark(DIRECTORY_SECTOR);
    freeMap.Mark(PIPE_SECTOR);
    assert freeMap.Set() == {0, 1, 2};
  }

  /** The three headers are written; each file has no other. */
  method WriteHeaders(disk: Disk, mapHdr: Header, dirHdr: Header, pipeHdr: Header, ghost f0: File, ghost f1: File, ghost f2: File)
    requires disk.Valid() && SpecialFile(f0, FREE_MAP_SECTOR, 128, mapHdr)
    requires SpecialFile(f1, DIRECTORY_SECTOR, 160, dirHdr) && SpecialFile(f2, PIPE_SECTOR, 500, pipeHdr)
    modifies disk
    ensures disk.Valid() && SpecialFile(f0, FREE_MAP_SECTOR, 128, disk.headers[FREE_MAP_SECTOR])
    ensures SpecialFile(f1, DIRECTORY_SECTOR, 160, disk.headers[DIRECTORY_SECTOR])
    ensures SpecialFile(f2, PIPE_SECTOR, 500, disk.headers[PIPE_SECTOR])
  {
    disk.WriteBack(FREE_MAP_SECTOR, mapHdr);
    disk.WriteBack(DIRECTORY_SECTOR, dirHdr);
    disk.WriteBack(PIPE_SECTOR, pipeHdr);
  }

  /** An empty directory for the special files alone. */
  lemma EmptyListed(t: seq<Entry>, files: Files, text: Text)
    requires |t| == 10 && Unused(t)
    requires files.Keys == {FREE_MAP_SECTOR, DIRECTORY_SECTOR, PIPE_SECTOR}
    ensures Listed(t, files, text) && forall name :: LookUp(t, text, name) == -1
  {
    assert forall k :: k in files ==> k in files.Keys;
    forall name ensures LookUp(t, text, name) == -1 {
      assert IndexFrom(t, text, name, 0) == -1;
    }
  }

  // ---------- the file system ----------

  /** `FileHeader::Allocate` as `Create` uses it. */
  method Place(disk: Disk, freeMap: BitMap, size: Int32, uninitialised: int, now: Word, k: int)
    returns (outcome: Outcome, hdr: Header, ghost f: File)
    requires disk.Valid() && freeMap.Valid() && freeMap.numBits == 1024 && k in freeMap.Set()
    modifies disk, freeMap.map_
    ensures disk.Valid() && (size >= 0 ==> f.numBytes == size)
    ensures size < 0 ==> outcome == Allocated && hdr.numBytes == size && unchanged(disk)
    ensures outcome == Full <==> Free(old(freeMap.Set())) < SectorsFor(size)
    ensures outcome == Full ==> unchanged(disk)
    ensures outcome == Stopped <==>
      Free(old(freeMap.Set())) >= SectorsFor(size) && Stops(Free(old(freeMap.Set())), SectorsFor(size), uninitialised)
    ensures outcome == Stopped ==>
      SameIn(old(disk.sectors), disk.sectors, old(freeMap.Set())) && SameIn(old(disk.headers), disk.headers, old(freeMap.Set()))
    ensures outcome == Allocated && size >= 0 ==>
      Handed(Started(old(disk.sectors), old(disk.headers), disk.sectors, disk.headers), old(freeMap.Set()), freeMap.Set(),
             uninitialised, hdr, f, k)
  {
    outcome, hdr, f := Allocate(disk, freeMap, size, uninitialised, now, k);
  }

  /** `Halted` is a failed assertion of the kernel. */
  datatype Result = Success | Failure | Halted

  class FileSystem {
    const disk: Disk
    const text: Text
    const freeMapFile: OpenFile
    const directoryFile: OpenFile
    const pipeFile: OpenFile
    ghost var files: Files
    ghost var owner: Owners

    ghost predicate Opened(o: OpenFile, k: int)
      reads this, disk, o
    {
      && o.disk == disk && k in files && o.file == files[k] && o.hdrSector == k
      && o.file.hdrs != [] && o.file.hdrs[0] == k && Heads(o.hdr, o.file)
    }

    /** The three files that stay open, their headers in memory. */
    ghost predicate Ready()
      reads this, disk, freeMapFile, directoryFile, pipeFile
    {
      && disk.Valid() && Special(files)
      && Opened(freeMapFile, FREE_MAP_SECTOR) && Opened(directoryFile, DIRECTORY_SECTOR)
      && Opened(pipeFile, PIPE_SECTOR)
    }

    ghost predicate Valid()
      reads this, disk, freeMapFile, directoryFile, pipeFile
    {
      Ready() && Consistent(disk.sectors, disk.headers, files, owner, text)
    }

    ghost function Table(): seq<Entry>
      requires Ready()
      reads this, disk, freeMapFile, directoryFile, pipeFile
    {
      TableOn(disk.sectors, files)
    }

    /** Without formatting, the three files are opened; a consistent disk is taken as it is. */
    constructor Mount(disk: Disk, text: Text, ghost files: Files, ghost owner: Owners)
      requires disk.Valid()
      ensures this.disk == disk && this.text == text && this.files == files && this.owner == owner
      ensures Consistent(disk.sectors, disk.headers, files, owner, text) ==> Valid()
    {
      this.disk, this.text, this.files, this.owner := disk, text, files, owner;
      ghost var none := File([], [], 0);
      freeMapFile := new OpenFile(disk, FREE_MAP_SECTOR, if FREE_MAP_SECTOR in files then files[FREE_MAP_SECTOR] else none);
      directoryFile := new OpenFile(disk, DIRECTORY_SECTOR, if DIRECTORY_SECTOR in files then files[DIRECTORY_SECTOR] else none);
      pipeFile := new OpenFile(disk, PIPE_SECTOR, if PIPE_SECTOR in files then files[PIPE_SECTOR] else none);
      new;
      if Consistent(disk.sectors, disk.headers, files, owner, text) {
        SpecialHeads(disk.headers, files, owner);
      }
    }

    /** Formatting makes any disk a consistent one without named files. */
    constructor Format(disk: Disk, text: Text, uninitialised: int, now: Word)
      requires disk.Valid()
      modifies disk
      ensures Valid() && this.disk == disk && this.text == text
      ensures files.Keys == {FREE_MAP_SECTOR, DIRECTORY_SECTOR, PIPE_SECTOR} && |owner.Keys| == 10
      ensures Unused(Table())
    {
      var freeMap := new BitMap(1024);
      var directory := new Directory(10, text);
      ghost var files, owner := FormatHeaders(disk, freeMap, uninitialised, now);
      SpecialHeads(disk.headers, files, owner);
      this.disk, this.text, this.files, this.owner := disk, text, files, owner;
      freeMapFile := new OpenFile(disk, FREE_MAP_SECTOR, files[FREE_MAP_SECTOR]);
      directoryFile := new OpenFile(disk, DIRECTORY_SECTOR, files[DIRECTORY_SECTOR]);
      pipeFile := new OpenFile(disk, PIPE_SECTOR, files[PIPE_SECTOR]);
      new;
      Initialise(freeMap, directory);
    }

    /** The initial versions of the free map and the directory are written. */
    method Initialise(freeMap: BitMap, directory: Directory)
      requires Ready() && Placed(disk.headers, files, owner) && NoLeaks(files, owner)
      requires files.Keys == {FREE_MAP_SECTOR, DIRECTORY_SECTOR, PIPE_SECTOR}
      requires freeMap.Valid() && freeMap.numBits == 1024 && freeMap.Set() == owner.Keys
      requires directory.table.Length == 10 && Unused(directory.table[..])
      modifies disk
      ensures Valid() && Table() == directory.table[..] && Unused(Table())
    {
      FlushMap(freeMap);
      DataWriteKeeps(old(disk.sectors), disk.sectors, old(disk.headers), disk.headers, files, owner, FREE_MAP_SECTOR);
      ghost var d, h := disk.sectors, disk.headers;
      FlushDirectory(directory);
      DataWriteKeeps(d, disk.sectors, h, disk.headers, files, owner, DIRECTORY_SECTOR);
      assert SameBytes(d, disk.sectors, files, FREE_MAP_SECTOR);
      EmptyListed(Table(), files, text);
    }

    method FetchDirectory() returns (directory: Directory)
      requires Ready()
      ensures fresh(directory) && fresh(directory.table) && directory.text == text
      ensures directory.table[..] == Table()
    {
      directory := new Directory(10, text);
      directory.FetchFrom(directoryFile);
    }

    method FetchMap() returns (freeMap: BitMap)
      requires Ready()
      ensures fresh(freeMap) && fresh(freeMap.map_) && freeMap.Valid() && freeMap.numBits == 1024
      ensures freeMap.Set() == MapOn(disk.sectors, files)
    {
      freeMap := new BitMap(1024);
      var b := freeMapFile.ReadAt(128, 0);
      ghost var bytes := freeMapFile.Bytes();
      assert b == bytes[..|bytes|] == bytes;
      freeMap.Load(b);
    }

    method FlushDirectory(directory: Directory)
      requires Ready() && directory.table.Length == 10
      modifies disk
      ensures Ready() && Table() == directory.table[..]
      ensures SameOutside(old(disk.sectors), disk.sectors, files[DIRECTORY_SECTOR].data)
      ensures SameOutside(old(disk.headers), disk.headers, files[DIRECTORY_SECTOR].data)
    {
      directory.WriteBack(directoryFile);
    }

    method FlushMap(freeMap: BitMap)
      requires Ready() && freeMap.Valid() && freeMap.numBits == 1024
      modifies disk
      ensures Ready() && MapOn(disk.sectors, files) == freeMap.Set()
      ensures SameOutside(old(disk.sectors), disk.sectors, files[FREE_MAP_SECTOR].data)
      ensures SameOutside(old(disk.headers), disk.headers, files[FREE_MAP_SECTOR].data)
    {
      StoreMap(freeMapFile, freeMap);
    }

    /** The header of a named file is fetched from where the directory says it is. */
    method Open(name: Word) returns (o: OpenFile?)
      requires Valid()
      ensures o == null <==> LookUp(Table(), text, text(name)) == -1
      ensures o != null ==> fresh(o) && o.Valid() && o.disk == disk && o.hdrSector in files && o.seekPosition == 0
      ensures o != null ==> o.hdrSector == LookUp(Table(), text, text(name)) && o.file == files[o.hdrSector]
    {
      var directory := FetchDirectory();
      var sector := directory.Find(name);
      o := null;
      ghost var i := IndexFrom(Table(), text, text(name), 0);
      assert i != -1 ==> Leads(Table(), files, i);
      if sector >= 0 {
        assert InPlace(disk.headers, files, owner, sector);
        o := new OpenFile(disk, sector, files[sector]);
      }
    }

    /** The name is taken, or there is no sector for the header and the data, or no entry. */
    ghost predicate Refused(name: Word, n: nat)
      requires Ready()
      reads this, disk, freeMapFile, directoryFile, pipeFile
    {
      LookUp(Table(), text, text(name)) != -1 || Free(owner.Keys) < 1 + n || FreeFrom(Table(), 0) == -1
    }

    /** Look the name up, find a sector for the header and enter the name, all in memory. */
    method Begin(name: Word) returns (ok: bool, directory: Directory, freeMap: BitMap, k: Int32)
      requires Valid()
      ensures fresh(directory) && fresh(directory.table) && fresh(freeMap) && fresh(freeMap.map_)
      ensures ok <==> !Refused(name, 0)
      ensures ok ==> OnDisk(k) && k !in owner && Entered(Table(), text, name, k, directory.table[..])
      ensures freeMap.Valid() && freeMap.numBits == 1024 && (ok ==> freeMap.Set() == owner.Keys + {k})
    {
      directory := FetchDirectory();
      freeMap := FetchMap();
      NotFound(Table(), files, text, text(name));
      ok, k := Enter(directory, freeMap, name, Table(), owner.Keys);
    }

    /** Write the header of the new file, the directory and the free map, whatever is on the disk. */
    method WriteAll(directory: Directory, freeMap: BitMap, hdr: Header, k: Int32, ghost d0: Image, ghost h0: Headers)
      returns (ghost w: Trail)
      requires Ready() && OnDisk(k) && directory.table.Length == 10 && freeMap.Valid() && freeMap.numBits == 1024
      modifies disk
      ensures Ready() && Writes(w, files, k, hdr, directory.table[..], freeMap.Set())
      ensures Begun(w, d0, h0, old(disk.sectors), old(disk.headers)) && w.d3 == disk.sectors && w.h3 == disk.headers
    {
      disk.WriteBack(k, hdr);
      ghost var d1, h1 := disk.sectors, disk.headers;
      FlushDirectory(directory);
      ghost var d2, h2 := disk.sectors, disk.headers;
      FlushMap(freeMap);
      w := Trail(d0, h0, old(disk.sectors), old(disk.headers), d1, h1, d2, h2, disk.sectors, disk.headers);
    }

    /** The account of the files changes; the open files are in it as before. */
    ghost method Adopt(files': Files, owner': Owners, k: int, f: File)
      requires Ready() && k > PIPE_SECTOR && (files' == files || files' == files[k := f])
      modifies this`files, this`owner
      ensures Ready() && files == files' && owner == owner'
    {
      SpecialKept(files, files', k, f);
      files, owner := files', owner';
    }

    /** Everything worked as far as `Create` can tell. */
    method Commit(directory: Directory, freeMap: BitMap, hdr: Header, k: Int32, ghost name: Word, ghost u: int,
                  ghost d0: Image, ghost h0: Headers, ghost f: File)
      requires Ready() && freeMap.Valid() && freeMap.numBits == 1024 && Consistent(d0, h0, files, owner, text)
      requires OnDisk(k) && k !in owner && Free(owner.Keys) > |f.data|
      requires Handed(Started(d0, h0, disk.sectors, disk.headers), owner.Keys + {k}, freeMap.Set(), u, hdr, f, k)
      requires directory.table.Length == 10 && Entered(TableOn(d0, files), text, name, k, directory.table[..])
      modifies disk, this`files, this`owner
      ensures Ready()
      ensures Created(d0, disk.sectors, disk.headers, old(files), old(owner), files, owner, text, name, f.numBytes, u)
    {
      ghost var s := Started(d0, h0, disk.sectors, disk.headers);
      ghost var w := WriteAll(directory, freeMap, hdr, k, d0, h0);
      HandedOn(s, w, owner.Keys + {k}, freeMap.Set(), u, hdr, f, k);
      ghost var files', owner' := CreateDone(w, files, owner, text, name, u, k, hdr, f, directory.table[..], freeMap.Set());
      Adopt(files', owner', k, f);
    }

    /** A file of negative length has no data sectors, and its header is written like any other. */
    method CommitNegative(directory: Directory, freeMap: BitMap, hdr: Header, k: Int32, ghost name: Word, ghost u: int)
      requires Valid() && freeMap.Valid() && freeMap.numBits == 1024 && OnDisk(k) && k !in owner && hdr.numBytes < 0
      requires directory.table.Length == 10 && Entered(Table(), text, name, k, directory.table[..])
      modifies disk
      ensures Ready()
      ensures Created(old(disk.sectors), disk.sectors, disk.headers, files, owner, files, owner, text, name, hdr.numBytes, u)
    {
      ghost var w := WriteAll(directory, freeMap, hdr, k, disk.sectors, disk.headers);
      NegativeCreate(w, files, owner, text, name, k, hdr, directory.table[..], freeMap.Set());
    }

    /** Allocate the file; if that ends in the middle no file has changed. */
    method Lay(freeMap: BitMap, k: Int32, initialSize: Int32, uninitialised: int, now: Word)
      returns (outcome: Outcome, hdr: Header, ghost f: File)
      requires Valid() && k !in owner
      requires freeMap.Valid() && freeMap.numBits == 1024 && freeMap.Set() == owner.Keys + {k}
      modifies disk, freeMap.map_
      ensures Ready() && (initialSize >= 0 ==> f.numBytes == initialSize)
      ensures initialSize < 0 ==> outcome == Allocated && hdr.numBytes == initialSize && unchanged(disk)
      ensures outcome == Full <==> Free(owner.Keys) < 1 + SectorsFor(initialSize)
      ensures outcome == Full ==> unchanged(disk)
      ensures outcome == Stopped <==>
        && Free(owner.Keys) >= 1 + SectorsFor(initialSize)
        && Stops(Free(owner.Keys) - 1, SectorsFor(initialSize), uninitialised)
      ensures outcome == Stopped ==> Valid() && Table() == old(Table())
      ensures outcome == Stopped ==> forall j :: j in files ==> SameBytes(old(disk.sectors), disk.sectors, files, j)
      ensures outcome == Allocated && initialSize >= 0 ==>
        Handed(Started(old(disk.sectors), old(disk.headers), disk.sectors, disk.headers), owner.Keys + {k}, freeMap.Set(),
               uninitialised, hdr, f, k)
    {
      assert |freeMap.Set()| == |owner.Keys| + 1;
      outcome, hdr, f := Place(disk, freeMap, initialSize, uninitialised, now, k);
      if outcome == Stopped {
        QuietConsistent(old(disk.sectors), disk.sectors, old(disk.headers), disk.headers, files, owner, text);
      }
    }

    /** Allocate the file and write everything back. */
    method Proceed(directory: Directory, freeMap: BitMap, k: Int32, ghost name: Word, initialSize: Int32,
                   uninitialised: int, now: Word) returns (r: Result)
      requires Valid() && OnDisk(k) && k !in owner && directory.table.Length == 10
      requires Entered(Table(), text, name, k, directory.table[..])
      requires freeMap.Valid() && freeMap.numBits == 1024 && freeMap.Set() == owner.Keys + {k}
      modifies disk, freeMap.map_, this`files, this`owner
      ensures r == Failure <==> old(Free(owner.Keys)) < 1 + SectorsFor(initialSize)
      ensures r == Failure ==> unchanged(disk) && unchanged(this)
      ensures r == Halted <==>
        && old(Free(owner.Keys)) >= 1 + SectorsFor(initialSize)
        && Stops(old(Free(owner.Keys)) - 1, SectorsFor(initialSize), uninitialised)
      ensures r == Halted ==> Valid() && unchanged(this) && Table() == old(Table())
      ensures r == Halted ==> forall j :: j in files ==> SameBytes(old(disk.sectors), disk.sectors, files, j)
      ensures r == Success ==> Ready()
      ensures r == Success ==>
        Created(old(disk.sectors), disk.sectors, disk.headers, old(files), old(owner), files, owner, text, name,
                initialSize, uninitialised)
    {
      var outcome, hdr;
      ghost var f;
      outcome, hdr, f := Lay(freeMap, k, initialSize, uninitialised, now);
      if outcome != Allocated {
        return if outcome == Full then Failure else Halted;
      }
      r := Success;
      if initialSize < 0 {
        CommitNegative(directory, freeMap, hdr, k, name, uninitialised);
      } else {
        Commit(directory, freeMap, hdr, k, name, uninitialised, old(disk.sectors), old(disk.headers), f);
      }
    }

    /** The header of the new file, the directory and the free map are written once a header, an entry
        and enough sectors for the data are found; a request that is refused changes nothing, and one
        that ends in the middle changes no file.  The disk is consistent afterwards, under any account
        of its files, exactly when `Create` was sound, and then the name leads to a new file of the
        given length, every other name leads where it did, and the files keep their bytes. */
    method Create(name: Word, initialSize: Int32, uninitialised: int, now: Word) returns (r: Result)
      requires Valid()
      modifies disk, this`files, this`owner
      ensures r == Failure <==> old(Refused(name, SectorsFor(initialSize)))
      ensures r == Failure ==> unchanged(disk) && unchanged(this)
      ensures r == Halted <==>
        && !old(Refused(name, SectorsFor(initialSize)))
        && Stops(old(Free(owner.Keys)) - 1, SectorsFor(initialSize), uninitialised)
      ensures r == Halted ==> Valid() && unchanged(this) && Table() == old(Table())
      ensures r == Halted ==> forall j :: j in files ==> SameBytes(old(disk.sectors), disk.sectors, files, j)
      ensures r == Success ==> Ready()
      ensures r == Success ==>
        Created(old(disk.sectors), disk.sectors, disk.headers, old(files), old(owner), files, owner, text, name,
                initialSize, uninitialised)
    {
      var ok, directory, freeMap, k := Begin(name);
      if !ok {
        return Failure;
      }
      r := Proceed(directory, freeMap, k, name, initialSize, uninitialised, now);
    }

    /** The request does not overflow an `int`, for the file that the name leads to. */
    ghost predicate Ranged(name: Word, numBytes: int, position: nat)
      requires Ready()
      reads this, disk, freeMapFile, directoryFile, pipeFile
    {
      var k := LookUp(Table(), text, text(name));
      k in files ==> Fits(numBytes, position, files[k].numBytes)
    }

    /** Open a file by name and write to it: the file's bytes change as asked, and no other file, name
        or mark of the free map does. */
    method WriteFile(name: Word, from: seq<Byte>, numBytes: int, position: nat) returns (count: int)
      requires Valid() && Ranged(name, numBytes, position) && numBytes <= |from|
      modifies disk
      ensures Valid() && Table() == old(Table())
      ensures LookUp(Table(), text, text(name)) == -1 ==> count == -1 && unchanged(disk)
      ensures var k := LookUp(Table(), text, text(name));
        k != -1 ==> k in files && Updated(old(disk.sectors), disk.sectors, files, k, from, numBytes, position, count)
    {
      var o := Open(name);
      if o == null {
        return -1;
      }
      ghost var k := o.hdrSector;
      AboveSpecialFiles(Table(), files, text, text(name));
      assert InPlace(disk.headers, files, owner, k);
      count := o.WriteAt(from, numBytes, position);
      FileFrame(old(disk.headers), disk.headers, files[k]);
      WriteConsistent(old(disk.sectors), disk.sectors, old(disk.headers), disk.headers, files, owner, text, k, files[k].data);
    }

    /** Open a file by name and read from it. */
    method ReadFile(name: Word, numBytes: int, position: nat) returns (found: bool, into: seq<Byte>)
      requires Valid() && Ranged(name, numBytes, position)
      ensures found <==> LookUp(Table(), text, text(name)) != -1
      ensures found ==> FileBytes(disk.sectors, files, LookUp(Table(), text, text(name)), numBytes, position, into)
    {
      var o := Open(name);
      if o == null {
        return false, [];
      }
      found := true;
      into := o.ReadAt(numBytes, position);
    }

    /** Open a file by name, move to a position and write from there; the header is stamped too. */
    method SeekAndWrite(name: Word, from: seq<Byte>, numBytes: int, position: nat, now: Word) returns (count: int)
      requires Valid() && Ranged(name, numBytes, position) && numBytes <= |from|
      modifies disk
      ensures Valid() && Table() == old(Table())
      ensures LookUp(Table(), text, text(name)) == -1 ==> count == -1 && unchanged(disk)
      ensures var k := LookUp(Table(), text, text(name));
        k != -1 ==> k in files && Updated(old(disk.sectors), disk.sectors, files, k, from, numBytes, position, count)
    {
      var o := Open(name);
      if o == null {
        return -1;
      }
      ghost var k := o.hdrSector;
      AboveSpecialFiles(Table(), files, text, text(name));
      assert InPlace(disk.headers, files, owner, k);
      o.Seek(position);
      count := o.Write(from, numBytes, now);
      WriteConsistent(old(disk.sectors), disk.sectors, old(disk.headers), disk.headers, files, owner, text, k,
                      files[k].data + [k]);
    }

    /** Open a file by name, move to a position and read from there; the header is stamped. */
    method SeekAndRead(name: Word, numBytes: int, position: nat, now: Word) returns (found: bool, into: seq<Byte>)
      requires Valid() && Ranged(name, numBytes, position)
      modifies disk
      ensures Valid() && Table() == old(Table())
      ensures found <==> LookUp(Table(), text, text(name)) != -1
      ensures found ==> FileBytes(old(disk.sectors), files, LookUp(Table(), text, text(name)), numBytes, position, into)
      ensures forall j :: j in files ==> SameBytes(old(disk.sectors), disk.sectors, files, j)
    {
      var o := Open(name);
      if o == null {
        QuietKeeps(disk.sectors, disk.sectors, disk.headers, disk.headers, files, owner);
        return false, [];
      }
      found := true;
      ghost var k := o.hdrSector;
      AboveSpecialFiles(Table(), files, text, text(name));
      assert InPlace(disk.headers, files, owner, k);
      o.Seek(position);
      into := o.Read(numBytes, now);
      StampConsistent(old(disk.sectors), disk.sectors, old(disk.headers), disk.headers, files, owner, text, k);
    }
  }
}
