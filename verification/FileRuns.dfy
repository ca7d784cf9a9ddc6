/** Any run of the file system behaves like a map from names to byte strings. */
module FileRuns {
  import opened Words
  import opened Disks
  import opened Headers
  import opened OpenFiles
  import opened Allocation
  import opened Directories
  import opened Volumes
  import FS = FileSystems

  type Names = map<string, seq<Byte>>

  /** `Put` and `Get` name a position; `SeekPut` and `SeekGet` move there first and stamp the header. */
  datatype Op =
    | Make(name: Word, size: Int32, uninitialised: int, now: Word)
    | Put(name: Word, data: seq<Byte>, position: nat)
    | Get(name: Word, count: nat, position: nat)
    | SeekPut(name: Word, data: seq<Byte>, position: nat, now: Word)
    | SeekGet(name: Word, count: nat, position: nat, now: Word)

  /** `Stopped` is a failed assertion of the kernel.  `Broken` is a request after which no account of
      the disk is consistent, although `Create` reports success.  `Undefined` is a request whose end
      overflows an `int`; it is not made. */
  datatype Answer = Done | Declined | NoFile | Wrote(count: int) | Got(data: seq<Byte>) | Stopped | Broken | Undefined

  /** What the names stand for, and the sectors where each file lies. */
  datatype Picture = Picture(bytes: Names, layout: map<string, File>)

  // ---------- what a map of names and bytes says about the disk ----------

  /** The sectors that the files of the map take. */
  ghost function Usage(m: Names): nat {
    if m == map[] then 0 else
      var name :| name in m;
      Cost(|m[name]|) + Usage(m - {name})
  }

  /** The order of the sum does not matter. */
  lemma {:induction false} UsagePick(m: Names, name: string)
    requires name in m
    ensures Usage(m) == Cost(|m[name]|) + Usage(m - {name})
    decreases |m|
  {
    var first :| first in m && Usage(m) == Cost(|m[first]|) + Usage(m - {first});
    if first != name {
      UsagePick(m - {first}, name);
      UsagePick(m - {name}, first);
      assert m - {first} - {name} == m - {name} - {first};
    }
  }

  lemma UsageReplaced(m: Names, name: string, data: seq<Byte>)
    requires name in m && |data| == |m[name]|
    ensures Usage(m[name := data]) == Usage(m)
  {
    UsagePick(m[name := data], name);
    UsagePick(m, name);
    assert m[name := data] - {name} == m - {name};
  }

  /** The free sectors of a formatted disk with the files of the map on it. */
  ghost function Left(m: Names): int { 1014 - Usage(m) }

  /** The name is taken, the directory is full or the sectors are too few. */
  ghost predicate Declines(m: Names, name: string, n: nat) { name in m || |m| == 10 || Left(m) < 1 + n }

  /** The sector holds a header: of one of the special files, in the first three sectors, or of a
      named one. */
  ghost predicate Strikes(layout: map<string, File>, u: int) {
    0 <= u <= PIPE_SECTOR || exists name :: name in layout && u in layout[name].hdrs
  }

  /** A negative length, no room for the chain of headers, or a stray header on a header. */
  ghost predicate Breaks(p: Picture, size: int, u: int) {
    size < 0 || !Room(Left(p.bytes) - 1, SectorsFor(size)) || (SectorsFor(size) == 26 && Strikes(p.layout, u))
  }

  // ---------- what each request does ----------

  /** What each request does to the picture, and what it answers. */
  ghost predicate Explained(p: Picture, op: Op, answer: Answer, p': Picture, text: Text) {
    match op
    case Make(name, size, u, _) => MakeExplained(p, text(name), size, u, answer, p')
    case Put(name, data, position) => PutExplained(p, text(name), data, position, answer, p')
    case Get(name, count, position) => GetExplained(p, text(name), count, position, answer, p')
    case SeekPut(name, data, position, _) => PutExplained(p, text(name), data, position, answer, p')
    case SeekGet(name, count, position, _) => GetExplained(p, text(name), count, position, answer, p')
  }

  ghost predicate MakeExplained(p: Picture, name: string, size: int, u: int, answer: Answer, p': Picture) {
    if Declines(p.bytes, name, SectorsFor(size)) then answer.Declined? && p' == p
    else if Stops(Left(p.bytes) - 1, SectorsFor(size), u) then answer.Stopped? && p' == p
    else if Breaks(p, size, u) then answer.Broken?
    else answer.Done? && Extended(p, name, size, StraySector(size, u), p')
  }

  /** A new file of the size, on sectors of its own; the others are as they were, except for bytes in
      the stray sector. */
  ghost predicate Extended(p: Picture, name: string, size: nat, stray: int, p': Picture) {
    && p'.bytes.Keys == p.bytes.Keys + {name} && |p'.bytes[name]| == size
    && name in p'.layout && p'.layout == p.layout[name := p'.layout[name]]
    && OnNewSectors(p.layout, p'.layout[name])
    && forall x :: x in p.bytes ==>
         x in p.layout && SameBut(p.bytes[x], p'.bytes[x], p.layout[x].data, stray)
  }

  /** A file is not touched at all unless the stray sector is one of its data. */
  lemma OthersWhole(p: Picture, name: string, size: nat, stray: int, p': Picture, x: string)
    requires Extended(p, name, size, stray, p') && x in p.bytes && stray !in p.layout[x].data
    ensures p'.bytes[x] == p.bytes[x]
  {
    SameButNothing(p.bytes[x], p'.bytes[x], p.layout[x].data, stray);
  }

  ghost predicate OnNewSectors(layout: map<string, File>, f: File) {
    forall x :: x in layout ==> Sectors(layout[x]) !! Sectors(f)
  }

  ghost predicate PutExplained(p: Picture, name: string, data: seq<Byte>, position: nat, answer: Answer, p': Picture) {
    if name !in p.bytes then answer.NoFile? && p' == p
    else if !Fits(|data|, position, |p.bytes[name]|) then answer.Undefined? && p' == p
    else
      && answer.Wrote? && Moves(answer.count, |data|, position, |p.bytes[name]|) && p'.layout == p.layout
      && p'.bytes ==
           p.bytes[name := if answer.count == 0 then p.bytes[name]
                           else Splice(p.bytes[name], position, data[..answer.count])]
  }

  ghost predicate GetExplained(p: Picture, name: string, count: nat, position: nat, answer: Answer, p': Picture) {
    && p' == p
    && if name !in p.bytes then answer.NoFile?
       else if !Fits(count, position, |p.bytes[name]|) then answer.Undefined?
       else
         && answer.Got? && Moves(|answer.data|, count, position, |p.bytes[name]|)
         && (|answer.data| > 0 ==> answer.data == p.bytes[name][position..position + |answer.data|])
  }

  // ---------- the picture that a disk shows ----------

  /** The picture gives for a name the file that the directory leads to, and its bytes. */
  ghost predicate Shown(p: Picture, d: Image, files: Files, t: seq<Entry>, text: Text, name: string) {
    var k := LookUp(t, text, name);
    && (name in p.bytes <==> k != -1) && (name in p.layout <==> k != -1)
    && (k != -1 ==>
          k in files && Shaped(files[k]) && p.bytes[name] == Contents(d, files[k]) && p.layout[name] == files[k])
  }

  ghost predicate Shows(p: Picture, d: Image, files: Files, t: seq<Entry>, text: Text) {
    forall name {:trigger Shown(p, d, files, t, text, name)} :: Shown(p, d, files, t, text, name)
  }

  /** A consistent disk that shows the picture and has just its files' sectors in use. */
  ghost predicate Showing(fs: FS.FileSystem, p: Picture)
    reads fs, fs.disk, fs.freeMapFile, fs.directoryFile, fs.pipeFile
  {
    fs.Valid() && Shows(p, fs.disk.sectors, fs.files, fs.Table(), fs.text) && |fs.owner.Keys| == 10 + Usage(p.bytes)
  }

  /** Different names lead to different files. */
  lemma Distinct(t: seq<Entry>, text: Text, a: string, b: string)
    requires Unique(t, text) && a != b && LookUp(t, text, a) != -1 && LookUp(t, text, b) != -1
    ensures LookUp(t, text, a) != LookUp(t, text, b)
  {
    var i, j := IndexFrom(t, text, a, 0), IndexFrom(t, text, b, 0);
    assert text(t[i].name) == a && text(t[j].name) == b;
  }

  /** The names of the first n entries and how many of these are in use. */
  ghost function NamesTo(t: seq<Entry>, text: Text, n: nat): set<string>
    requires n <= |t|
  {
    if n == 0 then {}
    else if t[n - 1].inUse then NamesTo(t, text, n - 1) + {text(t[n - 1].name)}
    else NamesTo(t, text, n - 1)
  }

  ghost function InUseTo(t: seq<Entry>, n: nat): nat
    requires n <= |t|
  {
    if n == 0 then 0 else InUseTo(t, n - 1) + if t[n - 1].inUse then 1 else 0
  }

  lemma {:induction false} NamesFound(t: seq<Entry>, text: Text, n: nat, x: string)
    requires n <= |t|
    ensures x in NamesTo(t, text, n) <==> exists i :: 0 <= i < n && Named(t[i], text, x)
  {
    if n > 0 {
      NamesFound(t, text, n - 1, x);
      assert Named(t[n - 1], text, x) ==> x in NamesTo(t, text, n);
    }
  }

  lemma LastIsNew(t: seq<Entry>, text: Text, n: nat)
    requires Unique(t, text) && 0 < n <= |t| && t[n - 1].inUse
    ensures text(t[n - 1].name) !in NamesTo(t, text, n - 1)
  {
    NamesFound(t, text, n - 1, text(t[n - 1].name));
  }

  lemma {:induction false} NamesCounted(t: seq<Entry>, text: Text, n: nat)
    requires Unique(t, text) && n <= |t|
    ensures |NamesTo(t, text, n)| == InUseTo(t, n)
  {
    if n > 0 {
      NamesCounted(t, text, n - 1);
      if t[n - 1].inUse {
        LastIsNew(t, text, n);
      }
    }
  }

  lemma {:induction false} AllInUse(t: seq<Entry>, n: nat)
    requires n <= |t|
    ensures InUseTo(t, n) <= n && (InUseTo(t, n) == n <==> forall i :: 0 <= i < n ==> t[i].inUse)
  {
    if n > 0 {
      AllInUse(t, n - 1);
    }
  }

  /** The directory is full exactly when the map has ten names. */
  lemma FullDirectory(p: Picture, d: Image, files: Files, t: seq<Entry>, text: Text)
    requires Shows(p, d, files, t, text) && Listed(t, files, text)
    ensures FreeFrom(t, 0) == -1 <==> |p.bytes| == 10
  {
    NamesCounted(t, text, 10);
    AllInUse(t, 10);
    forall x ensures x in p.bytes <==> x in NamesTo(t, text, 10) {
      assert Shown(p, d, files, t, text, x);
      NotFound(t, files, text, x);
      NamesFound(t, text, 10, x);
      var i := IndexFrom(t, text, x, 0);
      assert i != -1 ==> Named(t[i], text, x);
    }
    assert p.bytes.Keys == NamesTo(t, text, 10);
  }

  /** A file other than the special ones has a name that leads to it. */
  lemma NameOf(t: seq<Entry>, files: Files, text: Text, k: int) returns (name: string)
    requires Listed(t, files, text) && k in files && k > PIPE_SECTOR
    ensures LookUp(t, text, name) == k
  {
    assert HasEntry(t, k);
    var i :| Lists(t, i, k);
    name := text(t[i].name);
    var j := IndexFrom(t, text, name, 0);
    assert Named(t[i], text, name);
    assert j != -1 && Named(t[j], text, name);
  }

  /** Which sectors hold headers can be read off the picture. */
  lemma StrikesHeader(p: Picture, d: Image, h: Headers, files: Files, owner: Owners, text: Text, u: int)
    requires Consistent(d, h, files, owner, text) && Shows(p, d, files, TableOn(d, files), text)
    ensures NoHeader(files, u) <==> !Strikes(p.layout, u)
  {
    var t := TableOn(d, files);
    if !NoHeader(files, u) {
      var j := HeaderHit(h, files, owner, u);
      if u > PIPE_SECTOR {
        var name := NameOf(t, files, text, j);
        assert Shown(p, d, files, t, text, name);
      }
      assert InPlace(h, files, owner, j);
    }
    if Strikes(p.layout, u) {
      if 0 <= u <= PIPE_SECTOR {
        assert InPlace(h, files, owner, u);
        assert u in files[u].hdrs;
      } else {
        var name :| name in p.layout && u in p.layout[name].hdrs;
        assert Shown(p, d, files, t, text, name);
      }
    }
  }

  lemma PutShows(p: Picture, d: Image, d': Image, files: Files, t: seq<Entry>, text: Text, name: string)
    requires Shows(p, d, files, t, text) && Listed(t, files, text) && LookUp(t, text, name) != -1
    requires LookUp(t, text, name) in files && Shaped(files[LookUp(t, text, name)])
    requires forall j :: j in files && j != LookUp(t, text, name) ==> SameBytes(d, d', files, j)
    ensures Shows(p.(bytes := p.bytes[name := Contents(d', files[LookUp(t, text, name)])]), d', files, t, text)
  {
    var p' := p.(bytes := p.bytes[name := Contents(d', files[LookUp(t, text, name)])]);
    assert Shown(p, d, files, t, text, name);
    forall other ensures Shown(p', d', files, t, text, other) {
      assert Shown(p, d, files, t, text, other);
      if other != name && LookUp(t, text, other) != -1 {
        Distinct(t, text, name, other);
        assert SameBytes(d, d', files, LookUp(t, text, other));
      }
    }
  }

  lemma GetShows(p: Picture, d: Image, d': Image, files: Files, t: seq<Entry>, text: Text)
    requires Shows(p, d, files, t, text) && Listed(t, files, text)
    requires forall j :: j in files ==> SameBytes(d, d', files, j)
    ensures Shows(p, d', files, t, text)
  {
    forall name ensures Shown(p, d', files, t, text, name) {
      assert Shown(p, d, files, t, text, name);
      assert LookUp(t, text, name) != -1 ==> SameBytes(d, d', files, LookUp(t, text, name));
    }
  }

  /** Whether `Create` refuses can be read off the picture. */
  lemma RefusedByMap(p: Picture, d: Image, files: Files, owner: Owners, t: seq<Entry>, text: Text, name: string, n: nat)
    requires Shows(p, d, files, t, text) && Listed(t, files, text) && |owner.Keys| == 10 + Usage(p.bytes)
    ensures Declines(p.bytes, name, n) <==>
      LookUp(t, text, name) != -1 || Free(owner.Keys) < 1 + n || FreeFrom(t, 0) == -1
  {
    assert Shown(p, d, files, t, text, name);
    FullDirectory(p, d, files, t, text);
  }

  // ---------- making a file ----------

  ghost function BytesOf(d: Image, files: Files, k: int): seq<Byte> {
    if k in files && Shaped(files[k]) then Contents(d, files[k]) else []
  }

  /** What the names stand for, by the directory. */
  ghost function BytesBy(names: set<string>, d: Image, files: Files, t: seq<Entry>, text: Text): (m: Names)
    ensures m.Keys == names
  {
    map x | x in names :: BytesOf(d, files, LookUp(t, text, x))
  }

  /** The picture with the new file in it. */
  ghost function MadePicture(p: Picture, d: Image, files: Files, t: seq<Entry>, text: Text, name: string): Picture
    requires LookUp(t, text, name) in files
  {
    Picture(BytesBy(p.bytes.Keys + {name}, d, files, t, text), p.layout[name := files[LookUp(t, text, name)]])
  }

  lemma MakeShows(p: Picture, d: Image, d': Image, files: Files, files': Files, t: seq<Entry>, t': seq<Entry>,
                  text: Text, name: Word, size: nat)
    requires Shows(p, d, files, t, text) && Listed(t, files, text)
    requires CreatedBy(t, t', files, files', text, name, size)
    requires Shaped(files'[LookUp(t', text, text(name))])
    ensures Shows(MadePicture(p, d', files', t', text, text(name)), d', files', t', text) && text(name) !in p.bytes
  {
    var p' := MadePicture(p, d', files', t', text, text(name));
    assert Shown(p, d, files, t, text, text(name));
    forall other ensures Shown(p', d', files', t', text, other) {
      assert Shown(p, d, files, t, text, other);
      if other != text(name) && LookUp(t, text, other) != -1 {
        AboveSpecialFiles(t, files, text, other);
      }
    }
  }

  /** The bytes of another name after a file has been made. */
  lemma OtherBytes(p: Picture, d: Image, d': Image, files: Files, files': Files, t: seq<Entry>, t': seq<Entry>,
                   text: Text, name: Word, size: nat, stray: int, x: string)
    requires Shows(p, d, files, t, text) && Listed(t, files, text) && CreatedBy(t, t', files, files', text, name, size)
    requires Shaped(files'[LookUp(t', text, text(name))]) && x in p.bytes && x != text(name)
    requires forall j :: j in files && j > DIRECTORY_SECTOR ==> KeptBut(d, d', files, j, stray)
    ensures x in p.layout
    ensures SameBut(p.bytes[x], MadePicture(p, d', files', t', text, text(name)).bytes[x], p.layout[x].data, stray)
  {
    assert Shown(p, d, files, t, text, x);
    AboveSpecialFiles(t, files, text, x);
    assert KeptBut(d, d', files, LookUp(t, text, x), stray);
  }

  /** The new file lies where nothing lay. */
  lemma NewSectors(p: Picture, d: Image, h': Headers, files: Files, files': Files, owner': Owners, t: seq<Entry>,
                   text: Text, k: int)
    requires Shows(p, d, files, t, text) && Listed(t, files, text) && Placed(h', files', owner')
    requires k !in files && k in files' && files' == files[k := files'[k]]
    ensures OnNewSectors(p.layout, files'[k])
  {
    assert InPlace(h', files', owner', k);
    forall x | x in p.layout ensures Sectors(p.layout[x]) !! Sectors(files'[k]) {
      assert Shown(p, d, files, t, text, x);
      var j := LookUp(t, text, x);
      assert InPlace(h', files', owner', j);
      assert forall s :: s in Sectors(files'[j]) ==> owner'[s] == j;
    }
  }

  lemma {:induction false} UsageSame(m: Names, m': Names)
    requires m'.Keys == m.Keys && forall x :: x in m ==> |m'[x]| == |m[x]|
    ensures Usage(m') == Usage(m)
    decreases |m|
  {
    if m != map[] {
      var x :| x in m;
      UsagePick(m, x);
      UsagePick(m', x);
      assert (m' - {x}).Keys == (m - {x}).Keys;
      UsageSame(m - {x}, m' - {x});
    } else {
      assert m' == map[];
    }
  }

  lemma UsageExtended(p: Picture, name: string, size: nat, stray: int, p': Picture)
    requires Extended(p, name, size, stray, p') && name !in p.bytes
    ensures Usage(p'.bytes) == Usage(p.bytes) + Cost(size)
  {
    var rest := p'.bytes - {name};
    UsagePick(p'.bytes, name);
    forall x | x in p.bytes ensures |rest[x]| == |p.bytes[x]| {
      assert SameBut(p.bytes[x], p'.bytes[x], p.layout[x].data, stray);
    }
    UsageSame(p.bytes, rest);
  }

  lemma MadeShape(p: Picture, d: Image, files: Files, t: seq<Entry>, text: Text, name: string)
    requires LookUp(t, text, name) in files && Shaped(files[LookUp(t, text, name)])
    ensures var p', f := MadePicture(p, d, files, t, text, name), files[LookUp(t, text, name)];
      && p'.bytes.Keys == p.bytes.Keys + {name} && |p'.bytes[name]| == f.numBytes
      && p'.layout == p.layout[name := f] && p'.layout[name] == f
  {}

  lemma MakeExtends(p: Picture, d: Image, d': Image, h': Headers, files: Files, files': Files, owner': Owners,
                    t: seq<Entry>, t': seq<Entry>, text: Text, name: Word, size: nat, stray: int)
    requires Shows(p, d, files, t, text) && Listed(t, files, text) && CreatedBy(t, t', files, files', text, name, size)
    requires Placed(h', files', owner') && Shaped(files'[LookUp(t', text, text(name))]) && text(name) !in p.bytes
    requires forall j :: j in files && j > DIRECTORY_SECTOR ==> KeptBut(d, d', files, j, stray)
    ensures Extended(p, text(name), size, stray, MadePicture(p, d', files', t', text, text(name)))
  {
    var p' := MadePicture(p, d', files', t', text, text(name));
    MadeShape(p, d', files', t', text, text(name));
    NewSectors(p, d, h', files, files', owner', t, text, LookUp(t', text, text(name)));
    forall x | x in p.bytes ensures x in p.layout && SameBut(p.bytes[x], p'.bytes[x], p.layout[x].data, stray) {
      OtherBytes(p, d, d', files, files', t, t', text, name, size, stray, x);
    }
  }

  /** A file has been made. */
  lemma MakeDone(p: Picture, d: Image, d': Image, h': Headers, files: Files, owner: Owners, files': Files, owner': Owners,
                 text: Text, name: Word, size: nat, u: int)
    returns (p': Picture)
    requires Special(files) && Listed(TableOn(d, files), files, text) && Shows(p, d, files, TableOn(d, files), text)
    requires Made(d, d', h', files, owner, files', owner', text, name, size, u) && |owner.Keys| == 10 + Usage(p.bytes)
    ensures Extended(p, text(name), size, StraySector(size, u), p')
    ensures Shows(p', d', files', TableOn(d', files'), text) && |owner'.Keys| == 10 + Usage(p'.bytes)
  {
    var t, t' := TableOn(d, files), TableOn(d', files');
    assert InPlace(h', files', owner', LookUp(t', text, text(name)));
    p' := MadePicture(p, d', files', t', text, text(name));
    MakeShows(p, d, d', files, files', t, t', text, name, size);
    MakeExtends(p, d, d', h', files, files', owner', t, t', text, name, size, StraySector(size, u));
    UsageExtended(p, text(name), size, StraySector(size, u), p');
  }

  /** `Create` has reported success. */
  lemma MakeSucceeded(p: Picture, d: Image, d': Image, h': Headers, files: Files, owner: Owners, files': Files,
                      owner': Owners, text: Text, name: Word, size: int, u: int)
    returns (p': Picture)
    requires Special(files) && Listed(TableOn(d, files), files, text) && Shows(p, d, files, TableOn(d, files), text)
    requires Created(d, d', h', files, owner, files', owner', text, name, size, u) && |owner.Keys| == 10 + Usage(p.bytes)
    ensures if size < 0 || !Sound(files, Free(owner.Keys) - 1, SectorsFor(size), u) then NoAccount(d', h', text)
      else
        && Extended(p, text(name), size, StraySector(size, u), p') && Consistent(d', h', files', owner', text)
        && Shows(p', d', files', TableOn(d', files'), text) && |owner'.Keys| == 10 + Usage(p'.bytes)
  {
    p' := p;
    if size >= 0 && Sound(files, Free(owner.Keys) - 1, SectorsFor(size), u) {
      p' := MakeDone(p, d, d', h', files, owner, files', owner', text, name, size, u);
    }
  }

  // ---------- running requests ----------

  /** Whether a sector holds one of a file's headers. */
  method ChainHas(disk: Disk, sector: int, u: int, ghost f: File) returns (hit: bool)
    requires disk.Valid() && FileAt(disk.headers, f) && f.hdrs[0] == sector
    ensures hit <==> u in f.hdrs
  {
    var hdr := disk.FetchFrom(sector);
    var n := ChainFor(hdr.numSectors);
    hit := sector == u;
    ghost var at := sector;
    for c := 0 to n
      invariant at == f.hdrs[c] && hdr == disk.headers[at]
      invariant hit <==> u in f.hdrs[..c + 1]
    {
      DescribedAt(disk.headers, f, c);
      var next := hdr.nextFdrSector;
      at := next;
      hdr := disk.FetchFrom(next);
      hit := hit || next == u;
      assert f.hdrs[..c + 2] == f.hdrs[..c + 1] + [f.hdrs[c + 1]];
    }
    assert f.hdrs[..n + 1] == f.hdrs;
  }

  ghost predicate EntryHits(t: seq<Entry>, files: Files, i: int, u: int) {
    0 <= i < |t| && t[i].inUse && t[i].sector in files && u in files[t[i].sector].hdrs
  }

  /** One of the first n entries leads to a file with a header in the sector. */
  ghost predicate HitsTo(t: seq<Entry>, files: Files, n: nat, u: int) {
    n > 0 && (HitsTo(t, files, n - 1, u) || EntryHits(t, files, n - 1, u))
  }

  lemma {:induction false} HitsFound(t: seq<Entry>, files: Files, n: nat, u: int)
    ensures HitsTo(t, files, n, u) <==> exists i :: 0 <= i < n && EntryHits(t, files, i, u)
  {
    if n > 0 {
      HitsFound(t, files, n - 1, u);
    }
  }

  method EntryHolds(fs: FS.FileSystem, e: Entry, ghost i: nat, u: int) returns (hit: bool)
    requires fs.Valid() && i < |fs.Table()| && e == fs.Table()[i]
    ensures hit <==> EntryHits(fs.Table(), fs.files, i, u)
  {
    hit := false;
    if e.inUse {
      assert Leads(fs.Table(), fs.files, i) && InPlace(fs.disk.headers, fs.files, fs.owner, e.sector);
      hit := ChainHas(fs.disk, e.sector, u, fs.files[e.sector]);
    }
  }

  /** Whether a sector holds a header, as the directory and the headers on the disk tell. */
  method HoldsHeader(fs: FS.FileSystem, u: int) returns (hit: bool)
    requires fs.Valid()
    ensures hit <==> !NoHeader(fs.files, u)
  {
    hit := 0 <= u <= PIPE_SECTOR;
    if hit {
      assert InPlace(fs.disk.headers, fs.files, fs.owner, u) && u in fs.files[u].hdrs;
      return;
    }
    var directory := fs.FetchDirectory();
    ghost var t := fs.Table();
    for i := 0 to 10
      invariant directory.table[..] == t && (hit <==> HitsTo(t, fs.files, i, u))
    {
      var here := EntryHolds(fs, directory.table[i], i, u);
      hit := hit || here;
    }
    HeadersListed(fs.disk.headers, fs.files, fs.owner, t, fs.text, u);
  }

  lemma HeadersListed(h: Headers, files: Files, owner: Owners, t: seq<Entry>, text: Text, u: int)
    requires Placed(h, files, owner) && Special(files) && Listed(t, files, text) && !(0 <= u <= PIPE_SECTOR)
    ensures NoHeader(files, u) <==> !HitsTo(t, files, 10, u)
  {
    HitsFound(t, files, 10, u);
    if !NoHeader(files, u) {
      var j := HeaderHit(h, files, owner, u);
      assert InPlace(h, files, owner, j);
      assert HasEntry(t, j);
      var i :| Lists(t, i, j);
      assert EntryHits(t, files, i, u);
    }
  }

  /** Whether a request would leave a disk that no account makes consistent. */
  method WouldBreak(fs: FS.FileSystem, size: Int32, uninitialised: int, ghost p: Picture) returns (breaks: bool)
    requires Showing(fs, p)
    ensures breaks <==> Breaks(p, size, uninitialised)
    ensures breaks <==> size < 0 || !Sound(fs.files, Free(fs.owner.Keys) - 1, SectorsFor(size), uninitialised)
  {
    StrikesHeader(p, fs.disk.sectors, fs.disk.headers, fs.files, fs.owner, fs.text, uninitialised);
    var freeMap := fs.FetchMap();
    var clear: int := freeMap.NumClear();
    var hit := HoldsHeader(fs, uninitialised);
    breaks := size < 0 || !Room(clear - 1, SectorsFor(size)) || (SectorsFor(size) == 26 && hit);
  }

  /** What `Create` reports, and the disk it leaves. */
  method Attempt(fs: FS.FileSystem, op: Op, ghost p: Picture) returns (r: FS.Result, ghost p': Picture)
    requires op.Make? && Showing(fs, p)
    modifies fs.disk, fs`files, fs`owner
    ensures r == FS.Failure <==> old(fs.Refused(op.name, SectorsFor(op.size)))
    ensures r == FS.Halted <==>
      && !old(fs.Refused(op.name, SectorsFor(op.size)))
      && Stops(old(Free(fs.owner.Keys)) - 1, SectorsFor(op.size), op.uninitialised)
    ensures r != FS.Success ==> p' == p && Showing(fs, p)
    ensures r == FS.Success ==>
      if op.size >= 0 && Sound(old(fs.files), old(Free(fs.owner.Keys)) - 1, SectorsFor(op.size), op.uninitialised)
      then Showing(fs, p') && Extended(p, fs.text(op.name), op.size, StraySector(op.size, op.uninitialised), p')
      else NoAccount(fs.disk.sectors, fs.disk.headers, fs.text)
  {
    ghost var d, files, owner := fs.disk.sectors, fs.files, fs.owner;
    r := fs.Create(op.name, op.size, op.uninitialised, op.now);
    p' := p;
    if r == FS.Halted {
      GetShows(p, d, fs.disk.sectors, fs.files, fs.Table(), fs.text);
    } else if r == FS.Success {
      p' := MakeSucceeded(p, d, fs.disk.sectors, fs.disk.headers, files, owner, fs.files, fs.owner, fs.text, op.name,
                          op.size, op.uninitialised);
    }
  }

  /** The answer is what `Create` reports, refined by what the disk looks like after a success:
      consistent with the new file in it, or not consistent under any account. */
  method DoMake(fs: FS.FileSystem, op: Op, ghost p: Picture) returns (answer: Answer, ghost p': Picture)
    requires op.Make? && Showing(fs, p)
    modifies fs.disk, fs`files, fs`owner
    ensures Explained(p, op, answer, p', fs.text)
    ensures if answer.Broken? then NoAccount(fs.disk.sectors, fs.disk.headers, fs.text) else Showing(fs, p')
  {
    RefusedByMap(p, fs.disk.sectors, fs.files, fs.owner, fs.Table(), fs.text, fs.text(op.name), SectorsFor(op.size));
    var breaks := WouldBreak(fs, op.size, op.uninitialised, p);
    var r;
    r, p' := Attempt(fs, op, p);
    answer := match r
      case Failure => Declined
      case Halted => Answer.Stopped
      case Success => if breaks then Broken else Done;
  }

  /** A request that would overflow. */
  method WouldOverflow(fs: FS.FileSystem, name: Word, count: nat, position: nat, ghost p: Picture) returns (overflows: bool)
    requires Showing(fs, p)
    ensures var x := fs.text(name);
      overflows <==> x in p.bytes && !Fits(count, position, |p.bytes[x]|)
    ensures !overflows ==> fs.Ranged(name, count, position)
  {
    assert Shown(p, fs.disk.sectors, fs.files, fs.Table(), fs.text, fs.text(name));
    var o := fs.Open(name);
    if o == null {
      AbsentRanged(fs.disk.headers, fs.files, fs.owner);
      return false;
    }
    var length := o.Length();
    overflows := !Fits(count, position, length);
  }

  /** A name that leads nowhere leads to no file. */
  lemma AbsentRanged(h: Headers, files: Files, owner: Owners)
    requires Placed(h, files, owner)
    ensures -1 !in files
  {
    assert -1 in files ==> InPlace(h, files, owner, -1);
  }

  /** A file has been written to. */
  lemma PutDone(p: Picture, d: Image, d': Image, files: Files, t: seq<Entry>, text: Text, name: string,
                data: seq<Byte>, position: nat, count: int)
    returns (p': Picture)
    requires Shows(p, d, files, t, text) && Listed(t, files, text) && LookUp(t, text, name) != -1
    requires Updated(d, d', files, LookUp(t, text, name), data, |data|, position, count)
    requires name in p.bytes && Fits(|data|, position, |p.bytes[name]|)
    ensures PutExplained(p, name, data, position, Wrote(count), p')
    ensures Shows(p', d', files, t, text) && Usage(p'.bytes) == Usage(p.bytes)
  {
    var k := LookUp(t, text, name);
    assert Shown(p, d, files, t, text, name);
    PutShows(p, d, d', files, t, text, name);
    p' := p.(bytes := p.bytes[name := Contents(d', files[k])]);
    UsageReplaced(p.bytes, name, p'.bytes[name]);
  }

  method Write(fs: FS.FileSystem, op: Op) returns (count: int)
    requires (op.Put? || op.SeekPut?) && fs.Valid() && fs.Ranged(op.name, |op.data|, op.position)
    modifies fs.disk
    ensures fs.Valid() && fs.Table() == old(fs.Table())
    ensures var k := LookUp(fs.Table(), fs.text, fs.text(op.name));
      if k == -1 then count == -1 && unchanged(fs.disk)
      else Updated(old(fs.disk.sectors), fs.disk.sectors, fs.files, k, op.data, |op.data|, op.position, count)
  {
    if op.Put? {
      count := fs.WriteFile(op.name, op.data, |op.data|, op.position);
    } else {
      count := fs.SeekAndWrite(op.name, op.data, |op.data|, op.position, op.now);
    }
  }

  method PutNow(fs: FS.FileSystem, op: Op, ghost p: Picture) returns (answer: Answer, ghost p': Picture)
    requires (op.Put? || op.SeekPut?) && Showing(fs, p) && fs.Ranged(op.name, |op.data|, op.position)
    requires var x := fs.text(op.name); x in p.bytes ==> Fits(|op.data|, op.position, |p.bytes[x]|)
    modifies fs.disk
    ensures PutExplained(p, fs.text(op.name), op.data, op.position, answer, p') && !answer.Broken? && Showing(fs, p')
  {
    ghost var d, t, name := fs.disk.sectors, fs.Table(), fs.text(op.name);
    assert Shown(p, d, fs.files, t, fs.text, name);
    var count := Write(fs, op);
    if count == -1 {
      return NoFile, p;
    }
    answer := Wrote(count);
    p' := PutDone(p, d, fs.disk.sectors, fs.files, t, fs.text, name, op.data, op.position, count);
  }

  method DoPut(fs: FS.FileSystem, op: Op, ghost p: Picture) returns (answer: Answer, ghost p': Picture)
    requires (op.Put? || op.SeekPut?) && Showing(fs, p)
    modifies fs.disk
    ensures Explained(p, op, answer, p', fs.text) && !answer.Broken? && Showing(fs, p')
  {
    var overflows := WouldOverflow(fs, op.name, |op.data|, op.position, p);
    if overflows {
      return Undefined, p;
    }
    answer, p' := PutNow(fs, op, p);
  }

  lemma GetDone(p: Picture, d: Image, files: Files, t: seq<Entry>, text: Text, name: string, count: nat, position: nat,
                into: seq<Byte>)
    requires Shows(p, d, files, t, text) && LookUp(t, text, name) != -1
    requires name in p.bytes ==> Fits(count, position, |p.bytes[name]|)
    requires FileBytes(d, files, LookUp(t, text, name), count, position, into)
    ensures GetExplained(p, name, count, position, Got(into), p)
  {
    assert Shown(p, d, files, t, text, name);
  }

  method DoGet(fs: FS.FileSystem, op: Op, ghost p: Picture) returns (answer: Answer)
    requires (op.Get? || op.SeekGet?) && Showing(fs, p)
    modifies fs.disk
    ensures Explained(p, op, answer, p, fs.text) && !answer.Broken? && Showing(fs, p)
  {
    ghost var d, t := fs.disk.sectors, fs.Table();
    assert Shown(p, d, fs.files, t, fs.text, fs.text(op.name));
    var overflows := WouldOverflow(fs, op.name, op.count, op.position, p);
    if overflows {
      return Undefined;
    }
    var found, into;
    if op.Get? {
      found, into := fs.ReadFile(op.name, op.count, op.position);
    } else {
      found, into := fs.SeekAndRead(op.name, op.count, op.position, op.now);
      GetShows(p, d, fs.disk.sectors, fs.files, t, fs.text);
    }
    answer := if found then Got(into) else NoFile;
    if found {
      GetDone(p, d, fs.files, t, fs.text, fs.text(op.name), op.count, op.position, into);
    }
  }

  method DoOne(fs: FS.FileSystem, op: Op, ghost p: Picture) returns (answer: Answer, ghost p': Picture)
    requires Showing(fs, p)
    modifies fs.disk, fs`files, fs`owner
    ensures Explained(p, op, answer, p', fs.text)
    ensures if answer.Broken? then NoAccount(fs.disk.sectors, fs.disk.headers, fs.text) else Showing(fs, p')
  {
    p' := p;
    if op.Make? {
      answer, p' := DoMake(fs, op, p);
    } else if op.Put? || op.SeekPut? {
      answer, p' := DoPut(fs, op, p);
    } else {
      answer := DoGet(fs, op, p);
    }
  }

  ghost predicate AllExplained(pictures: seq<Picture>, ops: seq<Op>, answers: seq<Answer>, text: Text) {
    && |answers| <= |ops| && |pictures| == |answers| + 1
    && forall i {:trigger OneExplained(pictures, ops, answers, text, i)} :: 0 <= i < |answers| ==>
         OneExplained(pictures, ops, answers, text, i)
  }

  ghost predicate OneExplained(pictures: seq<Picture>, ops: seq<Op>, answers: seq<Answer>, text: Text, i: int) {
    && 0 <= i < |answers| && |answers| <= |ops| && |pictures| == |answers| + 1
    && Explained(pictures[i], ops[i], answers[i], pictures[i + 1], text)
  }

  predicate Ends(answer: Answer) { answer.Stopped? || answer.Broken? || answer.Undefined? }

  /** Nothing is answered after an answer that ends the run. */
  predicate EndsLast(answers: seq<Answer>) { forall i :: 0 <= i < |answers| - 1 ==> !Ends(answers[i]) }

  predicate Ended(answers: seq<Answer>) { answers != [] && Ends(answers[|answers| - 1]) }

  predicate BrokenOff(answers: seq<Answer>) { answers != [] && answers[|answers| - 1].Broken? }

  lemma NoneExplained(p: Picture, ops: seq<Op>, text: Text)
    ensures AllExplained([p], ops, [], text) && !BrokenOff([]) && !Ended([])
  {}

  lemma Shifted(pictures: seq<Picture>, ops: seq<Op>, answers: seq<Answer>, text: Text, answer: Answer, p: Picture, i: nat)
    requires ops != [] && i > 0 && OneExplained(pictures, ops[1..], answers, text, i - 1)
    ensures OneExplained([p] + pictures, ops, [answer] + answers, text, i)
  {
    assert ([p] + pictures)[i] == pictures[i - 1] && ([p] + pictures)[i + 1] == pictures[i];
    assert ops[i] == ops[1..][i - 1] && ([answer] + answers)[i] == answers[i - 1];
  }

  lemma OneBefore(pictures: seq<Picture>, ops: seq<Op>, answers: seq<Answer>, text: Text, answer: Answer, p: Picture)
    requires ops != [] && AllExplained(pictures, ops[1..], answers, text)
    requires Explained(p, ops[0], answer, pictures[0], text)
    ensures AllExplained([p] + pictures, ops, [answer] + answers, text)
  {
    var pictures', answers' := [p] + pictures, [answer] + answers;
    forall i | 0 <= i < |answers'| ensures OneExplained(pictures', ops, answers', text, i) {
      if i > 0 {
        Shifted(pictures, ops, answers, text, answer, p, i);
      }
    }
  }

  lemma OneLonger(pictures: seq<Picture>, ops: seq<Op>, answers: seq<Answer>, answer: Answer, p: Picture)
    requires ops != [] && |pictures| == |answers| + 1
    ensures ([p] + pictures)[0] == p && ([p] + pictures)[|[answer] + answers|] == pictures[|answers|]
    ensures |[answer] + answers| == |ops| <==> |answers| == |ops[1..]|
    ensures BrokenOff([answer] + answers) <==> if answers == [] then answer.Broken? else BrokenOff(answers)
    ensures Ended([answer] + answers) <==> if answers == [] then Ends(answer) else Ended(answers)
    ensures EndsLast(answers) && (answers == [] || !Ends(answer)) ==> EndsLast([answer] + answers)
  {}

  /** Every answer is the one that a map from names to byte strings gives, however the requests are
      mixed, until the kernel stops, the disk is broken or a request is not defined; the map, and for
      26 data sectors the places of the headers, decide every answer.  The disk shows the last map
      unless it is broken, and then no account makes it consistent. */
  method Run(fs: FS.FileSystem, ops: seq<Op>, ghost p: Picture)
    returns (answers: seq<Answer>, ghost pictures: seq<Picture>, ghost last: Picture)
    requires Showing(fs, p)
    modifies fs.disk, fs`files, fs`owner
    ensures AllExplained(pictures, ops, answers, fs.text) && pictures[0] == p && pictures[|answers|] == last
    ensures EndsLast(answers) && (|answers| == |ops| || Ended(answers))
    ensures if BrokenOff(answers) then NoAccount(fs.disk.sectors, fs.disk.headers, fs.text) else Showing(fs, last)
    decreases |ops|
  {
    if ops == [] {
      return [], [p], p;
    }
    var answer;
    answer, last := DoOne(fs, ops[0], p);
    answers, pictures := [], [last];
    NoneExplained(last, ops[1..], fs.text);
    if !Ends(answer) {
      answers, pictures, last := Run(fs, ops[1..], last);
    }
    OneBefore(pictures, ops, answers, fs.text, answer, p);
    OneLonger(pictures, ops, answers, answer, p);
    answers, pictures := [answer] + answers, [p] + pictures;
  }

  /** A disk that has just been formatted shows the empty map. */
  lemma FormattedShowsNothing(d: Image, files: Files, t: seq<Entry>, text: Text)
    requires Unused(t)
    ensures Shows(Picture(map[], map[]), d, files, t, text)
  {
    forall name ensures Shown(Picture(map[], map[]), d, files, t, text, name) {
      assert IndexFrom(t, text, name, 0) == -1;
    }
  }

  /** Format any disk and run any requests: the first map is empty. */
  method FormatAndRun(disk: Disk, text: Text, uninitialised: int, now: Word, ops: seq<Op>)
    returns (fs: FS.FileSystem, answers: seq<Answer>, ghost pictures: seq<Picture>, ghost last: Picture)
    requires disk.Valid()
    modifies disk
    ensures fs.disk == disk && fs.text == text && AllExplained(pictures, ops, answers, text)
    ensures pictures[0] == Picture(map[], map[]) && pictures[|answers|] == last
    ensures EndsLast(answers) && (|answers| == |ops| || Ended(answers))
    ensures if BrokenOff(answers) then NoAccount(disk.sectors, disk.headers, text) else Showing(fs, last)
  {
    fs := new FS.FileSystem.Format(disk, text, uninitialised, now);
    FormattedShowsNothing(disk.sectors, fs.files, fs.Table(), text);
    answers, pictures, last := Run(fs, ops, Picture(map[], map[]));
  }

  // ---------- the first file on a formatted disk ----------

  lemma EmptyDirectory(t: seq<Entry>, text: Text, name: string)
    requires |t| == 10 && Unused(t)
    ensures LookUp(t, text, name) == -1 && FreeFrom(t, 0) != -1
  {
    assert IndexFrom(t, text, name, 0) == -1;
  }

  lemma UnsoundCreated(d0: Image, d: Image, h: Headers, files0: Files, owner0: Owners, files: Files, owner: Owners,
                       text: Text, name: Word, size: int, u: int)
    requires Created(d0, d, h, files0, owner0, files, owner, text, name, size, u)
    ensures if size >= 0 && Sound(files0, Free(owner0.Keys) - 1, SectorsFor(size), u) then Consistent(d, h, files, owner, text)
            else NoAccount(d, h, text)
  {}

  /** The headers of a disk without named files are in the first three sectors. */
  lemma SpecialOnly(h: Headers, files: Files, owner: Owners, u: int)
    requires Placed(h, files, owner) && Special(files) && files.Keys == {FREE_MAP_SECTOR, DIRECTORY_SECTOR, PIPE_SECTOR}
    ensures NoHeader(files, u) <==> !(0 <= u <= PIPE_SECTOR)
  {
    forall j | j in files ensures files[j].hdrs == [j] {
      assert j in files.Keys && InPlace(h, files, owner, j);
      SingleHeader(files, j);
    }
    assert 0 <= u <= PIPE_SECTOR ==> u in files;
  }

  /** Which sizes `Create` refuses, which end the run, and which leave an inconsistent disk though it
      reports success. */
  method FormatAndCreate(disk: Disk, text: Text, uninitialised: int, now: Word, name: Word, size: Int32)
    returns (fs: FS.FileSystem, r: FS.Result)
    requires disk.Valid()
    modifies disk
    ensures fs.disk == disk && fs.text == text
    ensures r == FS.Failure <==> SectorsFor(size) > 1013
    ensures r == FS.Halted <==> SectorsFor(size) <= 1013 && Stops(1013, SectorsFor(size), uninitialised)
    ensures r == FS.Success ==>
      if size < 0 || !Room(1013, SectorsFor(size)) || (SectorsFor(size) == 26 && 0 <= uninitialised <= PIPE_SECTOR)
      then NoAccount(disk.sectors, disk.headers, text) else fs.Valid()
  {
    fs := new FS.FileSystem.Format(disk, text, uninitialised, now);
    EmptyDirectory(fs.Table(), text, text(name));
    SpecialOnly(disk.headers, fs.files, fs.owner, uninitialised);
    ghost var d, files, owner := disk.sectors, fs.files, fs.owner;
    r := fs.Create(name, size, uninitialised, now);
    if r == FS.Success {
      UnsoundCreated(d, disk.sectors, disk.headers, files, owner, fs.files, fs.owner, text, name, size, uninitialised);
    }
  }

  /** The free-space test passes with 1013 sectors left, but 980 data sectors need 37 more headers. */
  method NoRoomHappens(disk: Disk, text: Text, uninitialised: int, now: Word, name: Word)
    returns (fs: FS.FileSystem, r: FS.Result)
    requires disk.Valid()
    modifies disk
    ensures r == FS.Success && NoAccount(disk.sectors, disk.headers, text)
  {
    assert SectorsFor(125440) == 980 && ChainFor(980) == 37;
    fs, r := FormatAndCreate(disk, text, uninitialised, now, name, 125440);
  }

  /** With 1000 data sectors there is no sector for the last header and the kernel stops. */
  method HaltHappens(disk: Disk, text: Text, uninitialised: int, now: Word, name: Word)
    returns (fs: FS.FileSystem, r: FS.Result)
    requires disk.Valid()
    modifies disk
    ensures r == FS.Halted
  {
    assert SectorsFor(128000) == 1000 && ChainFor(1000) == 38;
    fs, r := FormatAndCreate(disk, text, uninitialised, now, name, 128000);
  }

  /** 26 data sectors, and the variable that is never set happens to name the directory's header. */
  method StrayHappens(disk: Disk, text: Text, now: Word, name: Word) returns (fs: FS.FileSystem, r: FS.Result)
    requires disk.Valid()
    modifies disk
    ensures r == FS.Success && NoAccount(disk.sectors, disk.headers, text)
  {
    fs, r := FormatAndCreate(disk, text, DIRECTORY_SECTOR, now, name, 3328);
  }
}
