/** What the disk as a whole holds: every file, the free map and the directory (filesys/filesys.cc). */
module Volumes {
  import opened Words
  import opened Disks
  import opened Headers
  import opened OpenFiles
  import opened Bitmaps
  import opened Allocation
  import opened Directories

  const FREE_MAP_SECTOR := 0
  const DIRECTORY_SECTOR := 1
  const PIPE_SECTOR := 2

  /** The files by the sector of their first header, and for each sector in use its file. */
  type Files = map<int, File>
  type Owners = map<int, int>

  ghost function Sectors(f: File): set<int> { Elems(f.hdrs) + Elems(f.data) }

  ghost predicate Owns(owner: Owners, f: File, k: int) {
    && (forall s :: s in f.hdrs ==> s in owner && owner[s] == k)
    && (forall s :: s in f.data ==> s in owner && owner[s] == k)
  }

  /** A file is whole and owns all its sectors. */
  ghost predicate InPlace(h: Headers, files: Files, owner: Owners, k: int) {
    k in files && FileAt(h, files[k]) && files[k].hdrs[0] == k && Owns(owner, files[k], k)
  }

  /** Every file is on the disk, and every sector belongs to at most one file. */
  ghost predicate Placed(h: Headers, files: Files, owner: Owners) {
    forall k {:trigger InPlace(h, files, owner, k)} :: k in files ==> InPlace(h, files, owner, k)
  }

  /** No sector is marked in use that belongs to no file. */
  ghost predicate NoLeaks(files: Files, owner: Owners) {
    forall s {:trigger HasFile(files, owner, s)} :: s in owner ==> HasFile(files, owner, s)
  }

  ghost predicate HasFile(files: Files, owner: Owners, s: int) {
    s in owner && owner[s] in files && s in Sectors(files[owner[s]])
  }

  /** A change to sectors of one file, or of none, is not seen by the others. */
  lemma OthersKept(d: Image, d': Image, h: Headers, h': Headers, f: File, places: seq<int>, owner: Owners, j: int)
    requires FileAt(h, f) && Owns(owner, f, j)
    requires SameOutside(d, d', places) && SameOutside(h, h', places)
    requires forall s :: s in places ==> s !in owner || owner[s] != j
    ensures FileAt(h', f) && Contents(d', f) == Contents(d, f)
  {
    FileFrame(h, h', f);
    SameContents(d, d', f);
  }

  ghost function WithOwner(owner: Owners, f: File, k: int): Owners {
    owner + map s | s in Sectors(f) :: k
  }

  /** Adding a file on sectors that belong to nobody. */
  lemma FileAdded(h: Headers, files: Files, owner: Owners, f: File, k: int)
    requires Placed(h, files, owner) && NoLeaks(files, owner)
    requires k !in files && FileAt(h, f) && f.hdrs[0] == k
    requires forall s :: s in Sectors(f) ==> s !in owner
    ensures Placed(h, files[k := f], WithOwner(owner, f, k)) && NoLeaks(files[k := f], WithOwner(owner, f, k))
    ensures WithOwner(owner, f, k).Keys == owner.Keys + Sectors(f)
  {
    var files', owner' := files[k := f], WithOwner(owner, f, k);
    forall j | j in files' ensures InPlace(h, files', owner', j) {
      assert j != k ==> InPlace(h, files, owner, j);
    }
    forall s | s in owner' ensures HasFile(files', owner', s) {
      assert s !in Sectors(f) ==> HasFile(files, owner, s);
    }
  }

  lemma {:induction false} NoDupCount(s: seq<int>)
    requires NoDup(s)
    ensures |Elems(s)| == |s|
  {
    if s != [] {
      var n := |s| - 1;
      NoDupCount(s[..n]);
      assert Elems(s) == Elems(s[..n]) + {s[n]};
    }
  }

  /** A file takes a sector for each header and each data sector; the first was marked before. */
  lemma TakenCount(used: set<int>, marked: set<int>, hdrs: seq<int>, data: seq<int>)
    requires Taken(used, marked, hdrs, data)
    ensures |marked| == |used| + |hdrs| - 1 + |data|
  {
    NoDupCount(hdrs);
    NoDupCount(data);
    var new_ := Elems(hdrs) - {hdrs[0]};
    assert hdrs[0] in Elems(hdrs) && |new_| == |hdrs| - 1;
    forall x | x in new_ ensures x !in used {
      var i :| 0 <= i < |hdrs| && hdrs[i] == x;
    }
    assert marked == used + new_ + Elems(data) && used !! new_ && (used + new_) !! Elems(data);
  }

  // ---------- a consistent disk ----------

  ghost predicate Lists(t: seq<Entry>, i: int, k: int) { 0 <= i < |t| && t[i].inUse && t[i].sector == k }

  /** The directory lists the files other than the three special ones, each once. */
  ghost predicate Listed(t: seq<Entry>, files: Files, text: Text) {
    && |t| == 10 && Unique(t, text)
    && (forall i {:trigger Leads(t, files, i)} :: 0 <= i < |t| && t[i].inUse ==> Leads(t, files, i))
    && (forall k {:trigger HasEntry(t, k)} :: k in files && k > PIPE_SECTOR ==> HasEntry(t, k))
  }

  ghost predicate Unused(t: seq<Entry>) { forall i :: 0 <= i < |t| ==> !t[i].inUse }

  ghost predicate Leads(t: seq<Entry>, files: Files, i: int) {
    0 <= i < |t| && t[i].sector in files && t[i].sector > PIPE_SECTOR
  }

  ghost predicate HasEntry(t: seq<Entry>, k: int) { exists i :: Lists(t, i, k) }

  ghost predicate Special(files: Files) {
    && IsFile(files, FREE_MAP_SECTOR, 128) && IsFile(files, DIRECTORY_SECTOR, 160) && IsFile(files, PIPE_SECTOR, 500)
  }

  ghost predicate IsFile(files: Files, k: int, size: nat) {
    k in files && Shaped(files[k]) && files[k].numBytes == size
  }

  ghost function TableOn(d: Image, files: Files): seq<Entry>
    requires IsFile(files, DIRECTORY_SECTOR, 160)
  {
    DecodeTable(Contents(d, files[DIRECTORY_SECTOR]))
  }

  ghost function MapOn(d: Image, files: Files): set<int>
    requires IsFile(files, FREE_MAP_SECTOR, 128)
  {
    Members(Unpack(Contents(d, files[FREE_MAP_SECTOR])), 1024)
  }

  /** Every file is whole, no two share a sector, the free map marks exactly the sectors of files,
      and the directory names exactly the files. */
  ghost predicate Consistent(d: Image, h: Headers, files: Files, owner: Owners, text: Text) {
    && Placed(h, files, owner) && NoLeaks(files, owner) && Special(files)
    && MapOn(d, files) == owner.Keys && Listed(TableOn(d, files), files, text)
  }

  ghost predicate SameBytes(d: Image, d': Image, files: Files, k: int) {
    k in files && Shaped(files[k]) && Contents(d', files[k]) == Contents(d, files[k])
  }

  /** Bytes that are the same except in sector u of the file, which may be no sector of it at all. */
  ghost predicate SameBut(b: seq<Byte>, b': seq<Byte>, data: seq<int>, u: int) {
    && |b'| == |b| <= 128 * |data|
    && forall j :: 0 <= j < |b| && data[j / 128] != u ==> b'[j] == b[j]
  }

  ghost predicate KeptBut(d: Image, d': Image, files: Files, k: int, u: int) {
    k in files && Shaped(files[k]) && SameBut(Contents(d, files[k]), Contents(d', files[k]), files[k].data, u)
  }

  lemma ContentsBut(d: Image, d': Image, f: File, u: int)
    requires Shaped(f) && forall s :: s in f.data && s != u ==> d'[s] == d[s]
    ensures SameBut(Contents(d, f), Contents(d', f), f.data, u)
  {
    forall j | 0 <= j < f.numBytes && f.data[j / 128] != u ensures Contents(d', f)[j] == Contents(d, f)[j] {
      assert f.data[j / 128] in f.data;
    }
  }

  /** Nothing is excepted if the sector is not the file's. */
  lemma SameButNothing(b: seq<Byte>, b': seq<Byte>, data: seq<int>, u: int)
    requires SameBut(b, b', data, u) && u !in data
    ensures b' == b
  {
    forall j | 0 <= j < |b| ensures b'[j] == b[j] {
      assert data[j / 128] in data;
    }
  }

  /** Writing to sectors of one file. */
  lemma WriteKeeps(d: Image, d': Image, h: Headers, h': Headers, files: Files, owner: Owners, k: int, places: seq<int>)
    requires Placed(h, files, owner) && k in files && FileAt(h', files[k])
    requires SameOutside(d, d', places) && SameOutside(h, h', places)
    requires forall s :: s in places ==> s in files[k].data || s in files[k].hdrs
    ensures Placed(h', files, owner)
    ensures forall j :: j in files && j != k ==> SameBytes(d, d', files, j)
  {
    assert InPlace(h, files, owner, k);
    forall j | j in files && j != k ensures InPlace(h', files, owner, j) && SameBytes(d, d', files, j) {
      assert InPlace(h, files, owner, j);
      OthersKept(d, d', h, h', files[j], places, owner, j);
    }
  }

  /** Writing to a named file, its header included, leaves the disk consistent. */
  lemma WriteConsistent(d: Image, d': Image, h: Headers, h': Headers, files: Files, owner: Owners, text: Text, k: int,
                        places: seq<int>)
    requires Consistent(d, h, files, owner, text) && k in files && k > DIRECTORY_SECTOR && FileAt(h', files[k])
    requires SameOutside(d, d', places) && SameOutside(h, h', places)
    requires forall s :: s in places ==> s in files[k].data || s in files[k].hdrs
    ensures Consistent(d', h', files, owner, text) && TableOn(d', files) == TableOn(d, files)
    ensures forall j :: j in files && j != k ==> SameBytes(d, d', files, j)
  {
    WriteKeeps(d, d', h, h', files, owner, k, places);
    assert SameBytes(d, d', files, FREE_MAP_SECTOR) && SameBytes(d, d', files, DIRECTORY_SECTOR);
  }

  /** Stamping the header of a named file changes no file's bytes. */
  lemma StampConsistent(d: Image, d': Image, h: Headers, h': Headers, files: Files, owner: Owners, text: Text, k: int)
    requires Consistent(d, h, files, owner, text) && k in files && k > DIRECTORY_SECTOR && FileAt(h', files[k])
    requires SameOutside(d, d', [k]) && SameOutside(h, h', [k]) && SameBytes(d, d', files, k)
    ensures Consistent(d', h', files, owner, text) && TableOn(d', files) == TableOn(d, files)
    ensures forall j :: j in files ==> SameBytes(d, d', files, j)
  {
    assert InPlace(h, files, owner, k);
    WriteConsistent(d, d', h, h', files, owner, text, k, [k]);
  }

  /** Laying out a new file and writing its first header. */
  lemma LayingKeeps(d: Image, d': Image, h: Headers, h': Headers, files: Files, owner: Owners, f: File, k: int)
    requires Placed(h, files, owner) && NoLeaks(files, owner) && k !in files
    requires FileAt(h', f) && f.hdrs[0] == k && forall s :: s in Sectors(f) ==> s !in owner
    requires SameOutside(d, d', f.hdrs) && SameOutside(h, h', f.hdrs)
    ensures Placed(h', files[k := f], WithOwner(owner, f, k)) && NoLeaks(files[k := f], WithOwner(owner, f, k))
    ensures WithOwner(owner, f, k).Keys == owner.Keys + Sectors(f)
    ensures forall j :: j in files ==> SameBytes(d, d', files, j)
  {
    forall j | j in files ensures InPlace(h', files, owner, j) && SameBytes(d, d', files, j) {
      assert InPlace(h, files, owner, j);
      assert forall s :: s in f.hdrs ==> s in Sectors(f);
      OthersKept(d, d', h, h', files[j], f.hdrs, owner, j);
    }
    FileAdded(h', files, owner, f, k);
  }

  /** The directory after a name has been added. */
  lemma ListedAdded(t: seq<Entry>, files: Files, text: Text, i: nat, name: Word, k: Int32, f: File)
    requires Listed(t, files, text) && i < |t| && !t[i].inUse && k !in files && k > PIPE_SECTOR
    requires IndexFrom(t, text, text(name), 0) == -1
    ensures Listed(Added(t, i, name, k), files[k := f], text)
  {
    var t', files' := Added(t, i, name, k), files[k := f];
    forall e | 0 <= e < |t'| && t'[e].inUse
      ensures Leads(t', files', e) && (e != i ==> t[e].sector != k && text(t[e].name) != text(name))
    {
      assert e != i ==> Leads(t, files, e) && !Named(t[e], text, text(name));
    }
    forall j | j in files' && j > PIPE_SECTOR ensures HasEntry(t', j) {
      if j == k {
        assert Lists(t', i, k);
      } else {
        assert HasEntry(t, j);
        var e :| Lists(t, e, j);
        assert Lists(t', e, j);
      }
    }
  }

  /** The new file is whole once its first header is written. */
  lemma FirstHeaderWritten(d0: Image, d: Image, h0: Headers, h: Headers, h': Headers, owner: Owners,
                           marked: set<int>, hdr: Header, f: File, k: int)
    requires f.hdrs != [] && f.hdrs[0] == k && OnDisk(k) && k !in owner
    requires Laid(d0, h0, owner.Keys + {k}, d, h, marked, hdr, f)
    requires h' == h[k := hdr]
    ensures FileAt(h', f) && SameOutside(h0, h', f.hdrs)
    ensures forall s :: s in Sectors(f) ==> s !in owner
    ensures marked == owner.Keys + Sectors(f)
  {
    HeaderRewritten(h, h', f);
  }

  /** The first three sectors are never free. */
  lemma AboveSpecial(h: Headers, files: Files, owner: Owners, k: int)
    requires Placed(h, files, owner) && Special(files) && OnDisk(k) && k !in owner
    ensures k > PIPE_SECTOR && k !in files
  {
    assert forall j :: j in files ==> InPlace(h, files, owner, j) && j in files[j].hdrs;
  }

  lemma SpecialHeads(h: Headers, files: Files, owner: Owners)
    requires Placed(h, files, owner) && Special(files)
    ensures FileAt(h, files[FREE_MAP_SECTOR]) && files[FREE_MAP_SECTOR].hdrs[0] == FREE_MAP_SECTOR
    ensures FileAt(h, files[DIRECTORY_SECTOR]) && files[DIRECTORY_SECTOR].hdrs[0] == DIRECTORY_SECTOR
    ensures FileAt(h, files[PIPE_SECTOR]) && files[PIPE_SECTOR].hdrs[0] == PIPE_SECTOR
  {
    assert InPlace(h, files, owner, FREE_MAP_SECTOR);
    assert InPlace(h, files, owner, DIRECTORY_SECTOR);
    assert InPlace(h, files, owner, PIPE_SECTOR);
  }

  /** A name that leads nowhere has no entry. */
  lemma NotFound(t: seq<Entry>, files: Files, text: Text, name: string)
    requires Listed(t, files, text)
    ensures LookUp(t, text, name) == -1 <==> IndexFrom(t, text, name, 0) == -1
  {
    var i := IndexFrom(t, text, name, 0);
    assert i != -1 ==> Leads(t, files, i);
  }

  /** The name now leads to a new file; other names lead where they did. */
  ghost predicate CreatedBy(t0: seq<Entry>, t: seq<Entry>, files0: Files, files: Files, text: Text, name: Word, size: nat) {
    var k := LookUp(t, text, text(name));
    && LookUp(t0, text, text(name)) == -1 && k > PIPE_SECTOR
    && k !in files0 && k in files && files == files0[k := files[k]] && files[k].numBytes == size
    && forall other :: other != text(name) ==> LookUp(t, text, other) == LookUp(t0, text, other)
  }

  lemma CreatedTable(t: seq<Entry>, files: Files, files': Files, text: Text, name: Word, k: Int32, f: File)
    requires Listed(t, files, text) && k !in files && k > PIPE_SECTOR && files' == files[k := f]
    requires LookUp(t, text, text(name)) == -1 && FreeFrom(t, 0) != -1
    ensures var t' := Added(t, FreeFrom(t, 0), name, k);
      Listed(t', files', text) && CreatedBy(t, t', files, files', text, name, f.numBytes)
  {
    var i := FreeFrom(t, 0);
    var t' := Added(t, i, name, k);
    NotFound(t, files, text, text(name));
    ListedAdded(t, files, text, i, name, k, f);
    forall other ensures LookUp(t', text, other) == if other == text(name) then k else LookUp(t, text, other) {
      AddedLookUp(t, text, i, name, k, other);
    }
  }

  lemma AboveSpecialFiles(t: seq<Entry>, files: Files, text: Text, name: string)
    requires Listed(t, files, text) && LookUp(t, text, name) != -1
    ensures LookUp(t, text, name) in files && LookUp(t, text, name) > PIPE_SECTOR
  {
    assert Leads(t, files, IndexFrom(t, text, name, 0));
  }

  /** What writing does to the files: the request, cut at the end of file k, replaces bytes there. */
  ghost predicate Updated(d: Image, d': Image, files: Files, k: int, from: seq<Byte>, numBytes: int, position: nat, count: int) {
    && k in files && Shaped(files[k]) && numBytes <= |from| && Moves(count, numBytes, position, files[k].numBytes)
    && Contents(d', files[k]) ==
         (if count == 0 then Contents(d, files[k]) else Splice(Contents(d, files[k]), position, from[..count]))
    && forall j :: j in files && j != k ==> SameBytes(d, d', files, j)
  }

  /** The bytes that a request to read file k brings. */
  ghost predicate FileBytes(d: Image, files: Files, k: int, numBytes: int, position: nat, into: seq<Byte>) {
    && k in files && Shaped(files[k]) && Moves(|into|, numBytes, position, files[k].numBytes)
    && (|into| > 0 ==> into == Contents(d, files[k])[position..position + |into|])
  }

  /** Reading back a request that was written brings the bytes written. */
  lemma ReadAfterWrite(d: Image, d': Image, files: Files, k: int, from: seq<Byte>, numBytes: int, position: nat,
                       count: int, into: seq<Byte>)
    requires Updated(d, d', files, k, from, numBytes, position, count)
    requires FileBytes(d', files, k, numBytes, position, into)
    ensures into == from[..count]
  {}

  // ---------- the headers determine the file ----------

  /** A file whose headers are on the disk, its sectors real or not. */
  ghost predicate Written(h: Headers, f: File) {
    f.hdrs != [] && OnDisk(f.hdrs[0]) && Recorded(h, h[f.hdrs[0]], f)
  }

  lemma {:induction false} ChainedFrom(h: Headers, f: File, c: nat, m: nat)
    requires AllOnDisk(f.hdrs) && Chained(h, f, c) && c <= m < |f.hdrs|
    ensures Describes(h[f.hdrs[m]], f, m)
    decreases m - c
  {
    if c < m {
      assert Chained(h, f, c + 1);
      ChainedFrom(h, f, c + 1, m);
    }
  }

  lemma DescribedAt(h: Headers, f: File, c: nat)
    requires Written(h, f) && c < |f.hdrs|
    ensures Describes(h[f.hdrs[c]], f, c)
  {
    if c > 0 {
      ChainedFrom(h, f, 1, c);
    }
  }

  /** Two files with the same first header on disks that agree on the headers before number c have
      the same header number c. */
  lemma {:induction false} PrefixForced(h: Headers, h': Headers, f: File, g: File, c: nat)
    requires Written(h, f) && Written(h', g) && f.hdrs[0] == g.hdrs[0] && c < |f.hdrs| && c < |g.hdrs|
    requires forall i :: 0 <= i < c ==> h'[f.hdrs[i]] == h[f.hdrs[i]]
    ensures g.hdrs[c] == f.hdrs[c]
  {
    if c > 0 {
      PrefixForced(h, h', f, g, c - 1);
      DescribedAt(h, f, c - 1);
      DescribedAt(h', g, c - 1);
    }
  }

  /** The headers determine the sectors of a file. */
  lemma SameFile(h: Headers, f: File, g: File)
    requires Written(h, f) && Written(h, g) && f.hdrs[0] == g.hdrs[0]
    ensures g.numBytes == f.numBytes && g.data == f.data
  {
    forall i | 0 <= i < |f.data| ensures g.data[i] == f.data[i] {
      SameSector(h, f, g, i / 26, i);
    }
  }

  lemma SameSector(h: Headers, f: File, g: File, c: nat, i: nat)
    requires Written(h, f) && Written(h, g) && f.hdrs[0] == g.hdrs[0] && i < |f.data| && c * 26 <= i < c * 26 + 26
    requires |f.data| == |g.data| && c < |f.hdrs| && c < |g.hdrs|
    ensures g.data[i] == f.data[i]
  {
    PrefixForced(h, h, f, g, c);
    DescribedAt(h, f, c);
    DescribedAt(h, g, c);
    assert Share(f, c)[i - c * 26] == f.data[i] && Share(g, c)[i - c * 26] == g.data[i];
  }

  /** A consistent disk has its directory where its header says. */
  lemma SameTable(d: Image, h: Headers, files: Files, F: Files, O: Owners, text: Text)
    requires Special(files) && FileAt(h, files[DIRECTORY_SECTOR]) && files[DIRECTORY_SECTOR].hdrs[0] == DIRECTORY_SECTOR
    requires Consistent(d, h, F, O, text)
    ensures TableOn(d, F) == TableOn(d, files)
  {
    assert InPlace(h, F, O, DIRECTORY_SECTOR);
    SameFile(h, files[DIRECTORY_SECTOR], F[DIRECTORY_SECTOR]);
  }

  /** A listed file is the one its header describes. */
  lemma ListedFile(d: Image, h: Headers, F: Files, O: Owners, text: Text, i: int, k: int, f: File)
    requires Consistent(d, h, F, O, text) && Lists(TableOn(d, F), i, k) && Written(h, f) && f.hdrs[0] == k
    ensures k in F && F[k].data == f.data && InPlace(h, F, O, k)
  {
    assert Leads(TableOn(d, F), F, i);
    assert InPlace(h, F, O, k);
    SameFile(h, f, F[k]);
  }

  /** A directory entry whose file has a sector number that is not on the disk. */
  lemma NoRoomInconsistent(d: Image, h: Headers, files: Files, F: Files, O: Owners, text: Text, i: int, f: File)
    requires Special(files) && FileAt(h, files[DIRECTORY_SECTOR]) && files[DIRECTORY_SECTOR].hdrs[0] == DIRECTORY_SECTOR
    requires Written(h, f) && f.data != [] && f.data[|f.data| - 1] == -1 && Lists(TableOn(d, files), i, f.hdrs[0])
    ensures !Consistent(d, h, F, O, text)
  {
    if Consistent(d, h, F, O, text) {
      SameTable(d, h, files, F, O, text);
      ListedFile(d, h, F, O, text, i, f.hdrs[0], f);
      assert false;
    }
  }

  // ---------- a header written over a sector in use ----------

  /** No file has a header in the sector. */
  ghost predicate NoHeader(files: Files, u: int) { forall j :: j in files ==> u !in files[j].hdrs }

  /** The disk after a header for the new file k went to sector u as well: among the sectors in use
      only u and the data of the free map and the directory have changed. */
  ghost predicate Strayed(h0: Headers, h: Headers, files: Files, owner: Owners, u: int, f: File, k: int) {
    && FREE_MAP_SECTOR in files && DIRECTORY_SECTOR in files
    && OnDisk(u) && OnDisk(k) && k !in owner && Shaped(f) && f.hdrs == [k] && |f.data| == 26
    && Heads(h[u], f) && Heads(h[k], f)
    && SameHeaders(h0, h, owner, u, files[FREE_MAP_SECTOR].data, files[DIRECTORY_SECTOR].data)
  }

  ghost predicate SameHeaders(h0: Headers, h: Headers, owner: Owners, u: int, p: seq<int>, q: seq<int>) {
    forall s :: s in owner && OnDisk(s) && s != u && s !in p && s !in q ==> h[s] == h0[s]
  }

  lemma SpecialLength(h: Headers, files: Files, owner: Owners, u: int)
    requires Placed(h, files, owner) && Special(files) && 0 <= u <= PIPE_SECTOR
    ensures h[u].numBytes <= 500
  {
    assert InPlace(h, files, owner, u);
  }

  /** The header of one of the special files now gives another length. */
  lemma SpecialStruck(d: Image, h: Headers, F: Files, O: Owners, text: Text, u: int, f: File)
    requires 0 <= u <= PIPE_SECTOR && Heads(h[u], f) && SectorsFor(f.numBytes) == 26
    ensures !Consistent(d, h, F, O, text)
  {
    if Consistent(d, h, F, O, text) {
      SpecialLength(h, F, O, u);
      assert false;
    }
  }

  /** A header that is not hit keeps its contents. */
  lemma HeaderNotHit(h0: Headers, h: Headers, files: Files, owner: Owners, u: int, f: File, k: int, j: int, i: int)
    requires Strayed(h0, h, files, owner, u, f, k) && Special(files) && Placed(h0, files, owner)
    requires j in files && 0 <= i < |files[j].hdrs| && files[j].hdrs[i] != u
    ensures OnDisk(files[j].hdrs[i]) && h[files[j].hdrs[i]] == h0[files[j].hdrs[i]]
  {
    var s := files[j].hdrs[i];
    assert InPlace(h0, files, owner, j) && InPlace(h0, files, owner, FREE_MAP_SECTOR)
        && InPlace(h0, files, owner, DIRECTORY_SECTOR);
    assert s in files[j].hdrs && s in owner && owner[s] == j;
  }

  lemma HeadersBefore(h0: Headers, h: Headers, files: Files, owner: Owners, u: int, f: File, k: int, j: int, c: nat)
    requires Strayed(h0, h, files, owner, u, f, k) && Special(files) && Placed(h0, files, owner)
    requires j in files && c < |files[j].hdrs| && files[j].hdrs[c] == u
    ensures FileAt(h0, files[j]) && files[j].hdrs[0] == j
    ensures forall i :: 0 <= i < c ==> h[files[j].hdrs[i]] == h0[files[j].hdrs[i]]
  {
    assert InPlace(h0, files, owner, j);
    forall i | 0 <= i < c ensures h[files[j].hdrs[i]] == h0[files[j].hdrs[i]] {
      NoDupPair(files[j].hdrs, i, c);
      HeaderNotHit(h0, h, files, owner, u, f, k, j, i);
    }
  }

  /** A header of one file that also heads another gives both the same data sector. */
  lemma SharedHeader(h: Headers, f: File, g: File, c: nat)
    requires FileAt(h, g) && c < |g.hdrs| && Heads(h[g.hdrs[c]], f) && f.data != []
    requires |f.data| == SectorsFor(f.numBytes)
    ensures f.data[0] in g.data
  {
    DescribedAt(h, g, c);
    assert Share(g, c)[0] == g.data[c * 26] && Share(f, 0)[0] == f.data[0];
  }

  /** The file whose header was hit now claims a sector of the new file. */
  lemma HitFileClaims(h0: Headers, h: Headers, files: Files, owner: Owners, u: int, f: File, k: int, j: int, c: nat, g: File)
    requires Strayed(h0, h, files, owner, u, f, k) && Special(files) && Placed(h0, files, owner)
    requires j in files && c < |files[j].hdrs| && files[j].hdrs[c] == u && FileAt(h, g) && g.hdrs[0] == j
    ensures f.data[0] in g.data
  {
    HeadersBefore(h0, h, files, owner, u, f, k, j, c);
    HitForced(h0, h, files[j], g, c);
    SharedHeader(h, f, g, c);
  }

  lemma HitForced(h0: Headers, h: Headers, f: File, g: File, c: nat)
    requires FileAt(h0, f) && FileAt(h, g) && f.hdrs[0] == g.hdrs[0] && c < |f.hdrs|
    requires forall i :: 0 <= i < c ==> h[f.hdrs[i]] == h0[f.hdrs[i]]
    ensures c < |g.hdrs| && g.hdrs[c] == f.hdrs[c]
  {
    assert c > 0 ==> g.numBytes == f.numBytes;
    PrefixForced(h0, h, f, g, c);
  }

  lemma SingleHeader(files: Files, j: int)
    requires Special(files) && j in files && (j <= PIPE_SECTOR ==> 0 <= j)
    ensures j <= PIPE_SECTOR ==> |files[j].hdrs| == 1
  {}

  lemma OneOwner(h: Headers, files: Files, owner: Owners, j: int, k: int, s: int)
    requires InPlace(h, files, owner, j) && InPlace(h, files, owner, k) && s in files[j].data && s in files[k].data
    ensures j == k
  {}

  /** The directory is found and lists the new file and the one whose header was hit. */
  lemma StillListed(d: Image, h0: Headers, h: Headers, files: Files, owner: Owners, u: int, f: File, k: int,
                    t0: seq<Entry>, i: nat, name: Word, F: Files, O: Owners, text: Text, j: int)
    requires Strayed(h0, h, files, owner, u, f, k) && Special(files) && Placed(h0, files, owner) && u > PIPE_SECTOR
    requires Listed(t0, files, text) && i < |t0| && !t0[i].inUse && TableOn(d, files) == Added(t0, i, name, k)
    requires j in files && j > PIPE_SECTOR && Consistent(d, h, F, O, text)
    ensures InPlace(h, F, O, j) && InPlace(h, F, O, k) && F[k].data == f.data
  {
    assert InPlace(h0, files, owner, DIRECTORY_SECTOR);
    HeaderNotHit(h0, h, files, owner, u, f, k, DIRECTORY_SECTOR, 0);
    SameTable(d, h, files, F, O, text);
    var t := TableOn(d, F);
    assert HasEntry(t0, j);
    var e :| Lists(t0, e, j);
    assert Lists(t, e, j) && Leads(t, F, e) && Lists(t, i, k);
    ListedFile(d, h, F, O, text, i, k, f);
  }

  /** The file whose header is in the sector; the special files have theirs in the first three. */
  lemma HeaderHit(h: Headers, files: Files, owner: Owners, u: int) returns (j: int)
    requires Placed(h, files, owner) && Special(files) && !NoHeader(files, u)
    ensures j in files && u in files[j].hdrs && j in owner && (u > PIPE_SECTOR ==> j > PIPE_SECTOR)
  {
    j :| j in files && u in files[j].hdrs;
    assert InPlace(h, files, owner, j) && j in files[j].hdrs;
    SingleHeader(files, j);
  }

  /** A header written over another header leaves no consistent disk. */
  lemma StrayInconsistent(d: Image, h0: Headers, h: Headers, files: Files, owner: Owners, u: int, f: File, k: int,
                          t0: seq<Entry>, i: nat, name: Word, F: Files, O: Owners, text: Text)
    requires Strayed(h0, h, files, owner, u, f, k) && Special(files) && Placed(h0, files, owner)
    requires Listed(t0, files, text) && i < |t0| && !t0[i].inUse && TableOn(d, files) == Added(t0, i, name, k)
    requires !NoHeader(files, u)
    ensures !Consistent(d, h, F, O, text)
  {
    var j := HeaderHit(h0, files, owner, u);
    if u <= PIPE_SECTOR {
      SpecialStruck(d, h, F, O, text, u, f);
    } else {
      NamedStruck(d, h0, h, files, owner, u, f, k, t0, i, name, F, O, text, j);
    }
  }

  lemma NamedStruck(d: Image, h0: Headers, h: Headers, files: Files, owner: Owners, u: int, f: File, k: int,
                    t0: seq<Entry>, i: nat, name: Word, F: Files, O: Owners, text: Text, j: int)
    requires Strayed(h0, h, files, owner, u, f, k) && Special(files) && Placed(h0, files, owner) && u > PIPE_SECTOR
    requires Listed(t0, files, text) && i < |t0| && !t0[i].inUse && TableOn(d, files) == Added(t0, i, name, k)
    requires j in files && j in owner && j > PIPE_SECTOR && u in files[j].hdrs
    ensures !Consistent(d, h, F, O, text)
  {
    if Consistent(d, h, F, O, text) {
      var c :| 0 <= c < |files[j].hdrs| && files[j].hdrs[c] == u;
      StillListed(d, h0, h, files, owner, u, f, k, t0, i, name, F, O, text, j);
      HitFileClaims(h0, h, files, owner, u, f, k, j, c, F[j]);
      OneOwner(h, F, O, j, k, f.data[0]);
      assert false;
    }
  }

  // ---------- the writes of Create ----------

  /** Sectors and headers before `Create`, after `Allocate`, and after each of its three writes. */
  datatype Trail = Trail(d0: Image, h0: Headers, da: Image, ha: Headers, d1: Image, h1: Headers,
                         d2: Image, h2: Headers, d3: Image, h3: Headers)

  /** The header of the new file, the directory and the free map are written, in that order. */
  ghost predicate Writes(w: Trail, files: Files, k: int, hdr: Header, table: seq<Entry>, marked: set<int>) {
    && Special(files) && OnDisk(k)
    && w.d1 == w.da[k := w.d1[k]] && w.h1 == w.ha[k := hdr]
    && SameOutside(w.d1, w.d2, files[DIRECTORY_SECTOR].data) && SameOutside(w.h1, w.h2, files[DIRECTORY_SECTOR].data)
    && SameOutside(w.d2, w.d3, files[FREE_MAP_SECTOR].data) && SameOutside(w.h2, w.h3, files[FREE_MAP_SECTOR].data)
    && TableOn(w.d2, files) == table && MapOn(w.d3, files) == marked
  }

  /** The entry that `Create` makes. */
  ghost predicate Entered(t: seq<Entry>, text: Text, name: Word, k: Int32, table: seq<Entry>) {
    LookUp(t, text, text(name)) == -1 && FreeFrom(t, 0) != -1 && table == Added(t, FreeFrom(t, 0), name, k)
  }

  /** Writing to a file's data keeps all headers. */
  lemma DataWriteKeeps(d: Image, d': Image, h: Headers, h': Headers, files: Files, owner: Owners, k: int)
    requires Placed(h, files, owner) && k in files
    requires SameOutside(d, d', files[k].data) && SameOutside(h, h', files[k].data)
    ensures Placed(h', files, owner)
    ensures forall j :: j in files && j != k ==> SameBytes(d, d', files, j)
  {
    assert InPlace(h, files, owner, k);
    FileFrame(h, h', files[k]);
    WriteKeeps(d, d', h, h', files, owner, k, files[k].data);
  }

  /** The directory and the free map are written without harm to the other files. */
  lemma FlushKeeps(w: Trail, files: Files, owner: Owners, k: int, hdr: Header, table: seq<Entry>, marked: set<int>)
    requires Writes(w, files, k, hdr, table, marked) && Placed(w.h1, files, owner)
    ensures Placed(w.h3, files, owner) && TableOn(w.d3, files) == table
    ensures forall j :: j in files && j > DIRECTORY_SECTOR ==> SameBytes(w.d1, w.d3, files, j)
  {
    DataWriteKeeps(w.d1, w.d2, w.h1, w.h2, files, owner, DIRECTORY_SECTOR);
    DataWriteKeeps(w.d2, w.d3, w.h2, w.h3, files, owner, FREE_MAP_SECTOR);
    assert SameBytes(w.d2, w.d3, files, DIRECTORY_SECTOR);
    forall j | j in files && j > DIRECTORY_SECTOR ensures SameBytes(w.d1, w.d3, files, j) {
      assert SameBytes(w.d1, w.d2, files, j) && SameBytes(w.d2, w.d3, files, j);
    }
  }

  /** With the new file in place all writes lead to a consistent disk again. */
  lemma FlushedConsistent(w: Trail, files: Files, owner: Owners, files': Files, owner': Owners, text: Text, name: Word,
                          k: Int32, hdr: Header, f: File, table: seq<Entry>, marked: set<int>)
    requires Special(files) && Listed(TableOn(w.d0, files), files, text) && k !in files && k > PIPE_SECTOR
    requires files' == files[k := f] && Writes(w, files, k, hdr, table, marked)
    requires Placed(w.h1, files', owner') && NoLeaks(files', owner') && owner'.Keys == marked
    requires Entered(TableOn(w.d0, files), text, name, k, table)
    ensures Consistent(w.d3, w.h3, files', owner', text)
    ensures CreatedBy(TableOn(w.d0, files), TableOn(w.d3, files'), files, files', text, name, f.numBytes)
    ensures forall j :: j in files && j > DIRECTORY_SECTOR ==> SameBytes(w.d1, w.d3, files, j)
  {
    assert Special(files') && Writes(w, files', k, hdr, table, marked);
    FlushKeeps(w, files', owner', k, hdr, table, marked);
    CreatedTable(TableOn(w.d0, files), files, files', text, name, k, f);
    forall j | j in files && j > DIRECTORY_SECTOR ensures SameBytes(w.d1, w.d3, files, j) {
      assert SameBytes(w.d1, w.d3, files', j);
    }
  }

  /** Room for the chain and not 26 data sectors. */
  lemma SoundCreate(w: Trail, files: Files, owner: Owners, text: Text, name: Word, k: Int32, hdr: Header, f: File,
                    table: seq<Entry>, marked: set<int>)
    requires Consistent(w.d0, w.h0, files, owner, text) && OnDisk(k) && k !in owner && f.hdrs != [] && f.hdrs[0] == k
    requires Laid(w.d0, w.h0, owner.Keys + {k}, w.da, w.ha, marked, hdr, f)
    requires Writes(w, files, k, hdr, table, marked) && Entered(TableOn(w.d0, files), text, name, k, table)
    ensures Consistent(w.d3, w.h3, files[k := f], WithOwner(owner, f, k), text)
    ensures CreatedBy(TableOn(w.d0, files), TableOn(w.d3, files[k := f]), files, files[k := f], text, name, f.numBytes)
    ensures forall j :: j in files && j > DIRECTORY_SECTOR ==> SameBytes(w.d0, w.d3, files, j)
  {
    AboveSpecial(w.h0, files, owner, k);
    assert k in f.hdrs;
    FirstHeaderWritten(w.d0, w.da, w.h0, w.ha, w.h1, owner, marked, hdr, f, k);
    LayingKeeps(w.d0, w.d1, w.h0, w.h1, files, owner, f, k);
    FlushedConsistent(w, files, owner, files[k := f], WithOwner(owner, f, k), text, name, k, hdr, f, table, marked);
    forall j | j in files && j > DIRECTORY_SECTOR ensures SameBytes(w.d0, w.d3, files, j) {
      assert SameBytes(w.d0, w.d1, files, j) && SameBytes(w.d1, w.d3, files, j);
    }
  }

  /** A file depends on the sectors that belong to it. */
  lemma QuietFile(d: Image, d': Image, h: Headers, h': Headers, files: Files, owner: Owners, j: int)
    requires InPlace(h, files, owner, j) && SameIn(d, d', owner.Keys) && SameIn(h, h', owner.Keys)
    ensures InPlace(h', files, owner, j) && SameBytes(d, d', files, j)
  {
    FileFrame(h, h', files[j]);
    SameContents(d, d', files[j]);
  }

  /** Changes outside the sectors in use are not seen by any file. */
  lemma QuietKeeps(d: Image, d': Image, h: Headers, h': Headers, files: Files, owner: Owners)
    requires Placed(h, files, owner) && SameIn(d, d', owner.Keys) && SameIn(h, h', owner.Keys)
    ensures Placed(h', files, owner) && forall j :: j in files ==> SameBytes(d, d', files, j)
  {
    forall j | j in files ensures InPlace(h', files, owner, j) && SameBytes(d, d', files, j) {
      assert InPlace(h, files, owner, j);
      QuietFile(d, d', h, h', files, owner, j);
    }
  }

  lemma QuietConsistent(d: Image, d': Image, h: Headers, h': Headers, files: Files, owner: Owners, text: Text)
    requires Consistent(d, h, files, owner, text) && SameIn(d, d', owner.Keys) && SameIn(h, h', owner.Keys)
    ensures Consistent(d', h', files, owner, text) && TableOn(d', files) == TableOn(d, files)
    ensures forall j :: j in files ==> SameBytes(d, d', files, j)
  {
    QuietKeeps(d, d', h, h', files, owner);
    assert SameBytes(d, d', files, FREE_MAP_SECTOR) && SameBytes(d, d', files, DIRECTORY_SECTOR);
  }

  /** No room for the chain: every old file keeps its place and, apart from the free map and the
      directory, its bytes, but no account of the disk is consistent. */
  lemma NoRoomCreate(w: Trail, files: Files, owner: Owners, text: Text, name: Word, k: Int32, hdr: Header, f: File,
                     table: seq<Entry>, marked: set<int>)
    requires Consistent(w.d0, w.h0, files, owner, text) && OnDisk(k) && k !in owner && f.hdrs != [] && f.hdrs[0] == k
    requires SameIn(w.d0, w.da, owner.Keys) && SameIn(w.h0, w.ha, owner.Keys)
    requires Recorded(w.ha, hdr, f) && (forall i :: 1 <= i < |f.hdrs| ==> f.hdrs[i] !in owner.Keys + {k})
    requires f.data != [] && f.data[|f.data| - 1] == -1
    requires Writes(w, files, k, hdr, table, marked) && Entered(TableOn(w.d0, files), text, name, k, table)
    ensures Placed(w.h3, files, owner)
    ensures forall j :: j in files && j > DIRECTORY_SECTOR ==> SameBytes(w.d0, w.d3, files, j)
    ensures forall F, O :: !Consistent(w.d3, w.h3, F, O, text)
  {
    QuietKeeps(w.d0, w.d1, w.h0, w.h1, files, owner);
    FlushKeeps(w, files, owner, k, hdr, table, marked);
    forall j | j in files && j > DIRECTORY_SECTOR ensures SameBytes(w.d0, w.d3, files, j) {
      assert SameBytes(w.d0, w.d1, files, j) && SameBytes(w.d1, w.d3, files, j);
    }
    RecordKept(w, files, owner, k, hdr, f, table, marked);
    assert InPlace(w.h3, files, owner, DIRECTORY_SECTOR);
    assert Lists(table, FreeFrom(TableOn(w.d0, files), 0), k);
    forall F, O ensures !Consistent(w.d3, w.h3, F, O, text) {
      NoRoomInconsistent(w.d3, w.h3, files, F, O, text, FreeFrom(TableOn(w.d0, files), 0), f);
    }
  }

  /** The later writes leave the headers of the new file alone. */
  lemma RecordKept(w: Trail, files: Files, owner: Owners, k: int, hdr: Header, f: File, table: seq<Entry>, marked: set<int>)
    requires Writes(w, files, k, hdr, table, marked) && Placed(w.h0, files, owner) && k !in owner
    requires Recorded(w.ha, hdr, f) && f.hdrs[0] == k && (forall i :: 1 <= i < |f.hdrs| ==> f.hdrs[i] !in owner.Keys + {k})
    ensures Written(w.h3, f)
  {
    assert InPlace(w.h0, files, owner, DIRECTORY_SECTOR) && InPlace(w.h0, files, owner, FREE_MAP_SECTOR);
    assert k !in files[DIRECTORY_SECTOR].data && k !in files[FREE_MAP_SECTOR].data;
    forall i | 1 <= i < |f.hdrs| ensures w.h3[f.hdrs[i]] == w.ha[f.hdrs[i]] {
      assert f.hdrs[i] !in files[DIRECTORY_SECTOR].data && f.hdrs[i] !in files[FREE_MAP_SECTOR].data;
    }
    LaterChainFrame(w.ha, w.h3, f, 1);
  }

  /** A header with a negative length describes no file. */
  lemma NegativeCreate(w: Trail, files: Files, owner: Owners, text: Text, name: Word, k: Int32, hdr: Header,
                       table: seq<Entry>, marked: set<int>)
    requires Consistent(w.d0, w.h0, files, owner, text) && OnDisk(k) && k !in owner && hdr.numBytes < 0
    requires w.da == w.d0 && w.ha == w.h0
    requires Writes(w, files, k, hdr, table, marked) && Entered(TableOn(w.d0, files), text, name, k, table)
    ensures BytesKept(w.d0, w.d3, files) && NoAccount(w.d3, w.h3, text)
  {
    QuietKeeps(w.d0, w.d1, w.h0, w.h1, files, owner);
    FlushKeeps(w, files, owner, k, hdr, table, marked);
    forall j | j in files && j > DIRECTORY_SECTOR ensures SameBytes(w.d0, w.d3, files, j) {
      assert SameBytes(w.d0, w.d1, files, j) && SameBytes(w.d1, w.d3, files, j);
    }
    assert InPlace(w.h3, files, owner, DIRECTORY_SECTOR) && InPlace(w.h3, files, owner, FREE_MAP_SECTOR);
    assert w.h3[k] == hdr;
    forall F, O ensures !Consistent(w.d3, w.h3, F, O, text) {
      NegativeInconsistent(w.d3, w.h3, files, F, O, text, FreeFrom(TableOn(w.d0, files), 0), k);
    }
  }

  lemma NegativeInconsistent(d: Image, h: Headers, files: Files, F: Files, O: Owners, text: Text, i: int, k: int)
    requires Special(files) && FileAt(h, files[DIRECTORY_SECTOR]) && files[DIRECTORY_SECTOR].hdrs[0] == DIRECTORY_SECTOR
    requires OnDisk(k) && h[k].numBytes < 0 && Lists(TableOn(d, files), i, k)
    ensures !Consistent(d, h, F, O, text)
  {
    if Consistent(d, h, F, O, text) {
      SameTable(d, h, files, F, O, text);
      NotNegative(h, TableOn(d, F), F, O, text, i, k);
      assert false;
    }
  }

  lemma NotNegative(h: Headers, t: seq<Entry>, F: Files, O: Owners, text: Text, i: int, k: int)
    requires Placed(h, F, O) && Listed(t, F, text) && Lists(t, i, k) && OnDisk(k)
    ensures h[k].numBytes >= 0
  {
    assert Leads(t, F, i);
    assert InPlace(h, F, O, k);
  }

  /** What `Allocate` leaves behind for 26 data sectors. */
  ghost predicate Spilled(w: Trail, used: set<int>, marked: set<int>, u: int, hdr: Header, f: File, k: int) {
    && OnDisk(u) && Shaped(f) && f.hdrs == [k] && |f.data| == 26 && Heads(hdr, f)
    && Taken(used, marked, f.hdrs, f.data)
    && w.ha == w.h0[u := w.ha[u]] && SameOutside(w.d0, w.da, [u]) && Heads(w.ha[u], f)
  }

  /** A sector that no file has a header in may be overwritten without harm to the layout. */
  lemma SpilledPlaced(w: Trail, files: Files, owner: Owners, u: int, k: int, hdr: Header, f: File, marked: set<int>)
    requires Placed(w.h0, files, owner) && NoHeader(files, u) && OnDisk(k) && k !in owner
    requires Spilled(w, owner.Keys + {k}, marked, u, hdr, f, k)
    requires w.d1 == w.da[k := w.d1[k]] && w.h1 == w.ha[k := hdr]
    ensures Placed(w.h1, files, owner) && FileAt(w.h1, f)
    ensures forall j :: j in files ==> KeptBut(w.d0, w.d1, files, j, u)
    ensures (forall s :: s in Sectors(f) ==> s !in owner) && marked == owner.Keys + Sectors(f)
  {
    forall j | j in files
      ensures InPlace(w.h1, files, owner, j) && KeptBut(w.d0, w.d1, files, j, u)
    {
      assert InPlace(w.h0, files, owner, j);
      assert k !in files[j].hdrs && k !in files[j].data;
      FileFrame(w.h0, w.h1, files[j]);
      ContentsBut(w.d0, w.d1, files[j], u);
    }
  }

  /** 26 data sectors, and the stray header hit no header. */
  lemma SpareCreate(w: Trail, files: Files, owner: Owners, text: Text, name: Word, u: int, k: Int32, hdr: Header, f: File,
                    table: seq<Entry>, marked: set<int>)
    requires Consistent(w.d0, w.h0, files, owner, text) && OnDisk(k) && k !in owner
    requires Spilled(w, owner.Keys + {k}, marked, u, hdr, f, k) && NoHeader(files, u)
    requires Writes(w, files, k, hdr, table, marked) && Entered(TableOn(w.d0, files), text, name, k, table)
    ensures Consistent(w.d3, w.h3, files[k := f], WithOwner(owner, f, k), text)
    ensures CreatedBy(TableOn(w.d0, files), TableOn(w.d3, files[k := f]), files, files[k := f], text, name, f.numBytes)
    ensures forall j :: j in files && j > DIRECTORY_SECTOR ==> KeptBut(w.d0, w.d3, files, j, u)
  {
    AboveSpecial(w.h0, files, owner, k);
    SpilledPlaced(w, files, owner, u, k, hdr, f, marked);
    FileAdded(w.h1, files, owner, f, k);
    FlushedConsistent(w, files, owner, files[k := f], WithOwner(owner, f, k), text, name, k, hdr, f, table, marked);
    forall j | j in files && j > DIRECTORY_SECTOR ensures KeptBut(w.d0, w.d3, files, j, u) {
      assert KeptBut(w.d0, w.d1, files, j, u) && SameBytes(w.d1, w.d3, files, j);
    }
  }

  /** 26 data sectors, and the stray header hit a header. */
  lemma StrayCreate(w: Trail, files: Files, owner: Owners, text: Text, name: Word, u: int, k: Int32, hdr: Header, f: File,
                    table: seq<Entry>, marked: set<int>)
    requires Consistent(w.d0, w.h0, files, owner, text) && OnDisk(k) && k !in owner
    requires Spilled(w, owner.Keys + {k}, marked, u, hdr, f, k) && !NoHeader(files, u)
    requires Writes(w, files, k, hdr, table, marked) && Entered(TableOn(w.d0, files), text, name, k, table)
    ensures forall F, O :: !Consistent(w.d3, w.h3, F, O, text)
  {
    var i := FreeFrom(TableOn(w.d0, files), 0);
    StrayedBy(w, files, owner, u, k, hdr, f, table, marked);
    forall F, O ensures !Consistent(w.d3, w.h3, F, O, text) {
      StrayInconsistent(w.d3, w.h0, w.h3, files, owner, u, f, k, TableOn(w.d0, files), i, name, F, O, text);
    }
  }

  /** A header's sector is no data sector of any file. */
  lemma HeaderNotData(h: Headers, files: Files, owner: Owners, j: int, i: int, s: int)
    requires InPlace(h, files, owner, j) && InPlace(h, files, owner, i) && s in files[j].hdrs
    ensures s in owner && s !in files[i].data
  {
    if i == j {
      assert Apart(files[j].hdrs, files[j].data);
    }
  }

  lemma MapWriteKeepsTable(w: Trail, files: Files, owner: Owners, k: int, hdr: Header, table: seq<Entry>, marked: set<int>)
    requires Placed(w.h0, files, owner) && Writes(w, files, k, hdr, table, marked)
    ensures TableOn(w.d3, files) == table
  {
    assert InPlace(w.h0, files, owner, DIRECTORY_SECTOR) && InPlace(w.h0, files, owner, FREE_MAP_SECTOR);
    SameContents(w.d2, w.d3, files[DIRECTORY_SECTOR]);
  }

  lemma HeadersAfter(w: Trail, owner: Owners, u: int, k: int, hdr: Header, p: seq<int>, q: seq<int>)
    requires OnDisk(u) && OnDisk(k) && k !in owner && u in owner && u !in p && u !in q && k !in p && k !in q
    requires w.ha == w.h0[u := w.ha[u]] && w.h1 == w.ha[k := hdr]
    requires SameOutside(w.h1, w.h2, q) && SameOutside(w.h2, w.h3, p)
    ensures w.h3[u] == w.ha[u] && w.h3[k] == hdr && SameHeaders(w.h0, w.h3, owner, u, p, q)
  {}

  /** A header's sector is not touched when the free map and the directory are written. */
  lemma HitSector(h: Headers, files: Files, owner: Owners, u: int)
    requires Placed(h, files, owner) && Special(files) && !NoHeader(files, u)
    ensures u in owner && u !in files[DIRECTORY_SECTOR].data && u !in files[FREE_MAP_SECTOR].data
  {
    assert InPlace(h, files, owner, DIRECTORY_SECTOR) && InPlace(h, files, owner, FREE_MAP_SECTOR);
    var j :| j in files && u in files[j].hdrs;
    assert InPlace(h, files, owner, j);
    HeaderNotData(h, files, owner, j, DIRECTORY_SECTOR, u);
    HeaderNotData(h, files, owner, j, FREE_MAP_SECTOR, u);
  }

  lemma StrayedBy(w: Trail, files: Files, owner: Owners, u: int, k: int, hdr: Header, f: File, table: seq<Entry>,
                  marked: set<int>)
    requires Placed(w.h0, files, owner) && OnDisk(k) && k !in owner
    requires Spilled(w, owner.Keys + {k}, marked, u, hdr, f, k) && !NoHeader(files, u)
    requires Writes(w, files, k, hdr, table, marked)
    ensures Strayed(w.h0, w.h3, files, owner, u, f, k) && TableOn(w.d3, files) == table
  {
    MapWriteKeepsTable(w, files, owner, k, hdr, table, marked);
    HitSector(w.h0, files, owner, u);
    assert InPlace(w.h0, files, owner, DIRECTORY_SECTOR) && InPlace(w.h0, files, owner, FREE_MAP_SECTOR);
    HeadersAfter(w, owner, u, k, hdr, files[FREE_MAP_SECTOR].data, files[DIRECTORY_SECTOR].data);
  }

  // ---------- when Create leaves a consistent disk ----------

  /** There is room for the chain of headers, and for 26 data sectors the stray header hits no header. */
  ghost predicate Sound(files: Files, free: int, n: nat, u: int) { Room(free, n) && (n == 26 ==> NoHeader(files, u)) }

  /** What `Allocate` leaves for `Create` to write, the sectors in `used` being taken. */
  ghost predicate Handed(w: Trail, used: set<int>, marked: set<int>, u: int, hdr: Header, f: File, k: int) {
    && f.hdrs != [] && f.hdrs[0] == k && |f.data| == SectorsFor(f.numBytes)
    && if |f.data| == 26 then Spilled(w, used, marked, u, hdr, f, k) else Chosen(w, used, marked, hdr, f)
  }

  /** The trail of a `Create` that has written nothing yet. */
  ghost function Started(d0: Image, h0: Headers, d: Image, h: Headers): Trail { Trail(d0, h0, d, h, d, h, d, h, d, h) }

  ghost predicate Begun(w: Trail, d0: Image, h0: Headers, d: Image, h: Headers) {
    w.d0 == d0 && w.h0 == h0 && w.da == d && w.ha == h
  }

  ghost predicate Chosen(w: Trail, used: set<int>, marked: set<int>, hdr: Header, f: File) {
    && SameIn(w.d0, w.da, used) && SameIn(w.h0, w.ha, used)
    && Recorded(w.ha, hdr, f) && (forall i :: 1 <= i < |f.hdrs| ==> f.hdrs[i] !in used)
    && if Room(Free(used), |f.data|) then Laid(w.d0, w.h0, used, w.da, w.ha, marked, hdr, f)
       else f.data != [] && f.data[|f.data| - 1] == -1
  }

  lemma HandedOn(w: Trail, w': Trail, used: set<int>, marked: set<int>, u: int, hdr: Header, f: File, k: int)
    requires Handed(w, used, marked, u, hdr, f, k) && Begun(w', w.d0, w.h0, w.da, w.ha)
    ensures Handed(w', used, marked, u, hdr, f, k)
  {}

  lemma SpecialKept(files: Files, files': Files, k: int, f: File)
    requires Special(files) && k > PIPE_SECTOR && (files' == files || files' == files[k := f])
    ensures Special(files') && files'[FREE_MAP_SECTOR] == files[FREE_MAP_SECTOR]
    ensures files'[DIRECTORY_SECTOR] == files[DIRECTORY_SECTOR] && files'[PIPE_SECTOR] == files[PIPE_SECTOR]
  {}

  /** The sector that gets a stray header, or -1. */
  function StraySector(size: int, u: int): int { if SectorsFor(size) == 26 then u else -1 }

  /** A consistent disk with the new file; the other files keep their bytes except in the sector with
      the stray header. */
  ghost predicate Made(d0: Image, d: Image, h: Headers, files0: Files, owner0: Owners, files: Files, owner: Owners,
                       text: Text, name: Word, size: nat, u: int) {
    && Special(files0) && Consistent(d, h, files, owner, text)
    && CreatedBy(TableOn(d0, files0), TableOn(d, files), files0, files, text, name, size)
    && |owner.Keys| == |owner0.Keys| + Cost(size)
    && forall j :: j in files0 && j > DIRECTORY_SECTOR ==> KeptBut(d0, d, files0, j, StraySector(size, u))
  }

  lemma BytesKeptBut(d: Image, d': Image, files: Files, u: int)
    requires BytesKept(d, d', files)
    ensures forall j :: j in files && j > DIRECTORY_SECTOR ==> KeptBut(d, d', files, j, u)
  {
    forall j | j in files && j > DIRECTORY_SECTOR ensures KeptBut(d, d', files, j, u) {
      assert SameBytes(d, d', files, j);
    }
  }

  /** No account of the files makes the disk consistent. */
  ghost predicate NoAccount(d: Image, h: Headers, text: Text) { forall F, O :: !Consistent(d, h, F, O, text) }

  /** Apart from the free map and the directory, the files have their bytes. */
  ghost predicate BytesKept(d: Image, d': Image, files: Files) {
    forall j :: j in files && j > DIRECTORY_SECTOR ==> SameBytes(d, d', files, j)
  }

  /** What `Create` leaves behind when it succeeds: a consistent disk exactly when it was sound, and
      the old files unless a header strayed. */
  ghost predicate Created(d0: Image, d: Image, h: Headers, files0: Files, owner0: Owners, files: Files, owner: Owners,
                          text: Text, name: Word, size: int, u: int) {
    && (if size >= 0 && Sound(files0, Free(owner0.Keys) - 1, SectorsFor(size), u)
        then Made(d0, d, h, files0, owner0, files, owner, text, name, size, u)
        else files == files0 && owner == owner0 && NoAccount(d, h, text))
    && (SectorsFor(size) != 26 ==> BytesKept(d0, d, files0))
  }

  /** The sectors a file takes: its headers and its data. */
  function Cost(numBytes: nat): nat { 1 + ChainFor(SectorsFor(numBytes)) + SectorsFor(numBytes) }

  lemma MadeCost(owner: Owners, f: File, k: int, marked: set<int>)
    requires Taken(owner.Keys + {k}, marked, f.hdrs, f.data) && k !in owner && f.hdrs[0] == k && Shaped(f)
    ensures |WithOwner(owner, f, k).Keys| == |owner.Keys| + Cost(f.numBytes)
  {
    assert k in f.hdrs;
    assert WithOwner(owner, f, k).Keys == marked;
    TakenCount(owner.Keys + {k}, marked, f.hdrs, f.data);
  }

  /** The writes of `Create` when it is sound. */
  lemma CreateSound(w: Trail, files: Files, owner: Owners, text: Text, name: Word, u: int, k: Int32, hdr: Header, f: File,
                    table: seq<Entry>, marked: set<int>)
    requires Consistent(w.d0, w.h0, files, owner, text) && OnDisk(k) && k !in owner
    requires Handed(w, owner.Keys + {k}, marked, u, hdr, f, k) && Sound(files, Free(owner.Keys) - 1, |f.data|, u)
    requires Writes(w, files, k, hdr, table, marked) && Entered(TableOn(w.d0, files), text, name, k, table)
    ensures Made(w.d0, w.d3, w.h3, files, owner, files[k := f], WithOwner(owner, f, k), text, name, f.numBytes, u)
    ensures |f.data| != 26 ==> BytesKept(w.d0, w.d3, files)
  {
    assert Free(owner.Keys + {k}) == Free(owner.Keys) - 1;
    if |f.data| == 26 {
      SpareCreate(w, files, owner, text, name, u, k, hdr, f, table, marked);
    } else {
      SoundCreate(w, files, owner, text, name, k, hdr, f, table, marked);
      BytesKeptBut(w.d0, w.d3, files, -1);
    }
    MadeCost(owner, f, k, marked);
  }

  /** The writes of `Create` when it is not. */
  lemma CreateUnsound(w: Trail, files: Files, owner: Owners, text: Text, name: Word, u: int, k: Int32, hdr: Header, f: File,
                      table: seq<Entry>, marked: set<int>)
    requires Consistent(w.d0, w.h0, files, owner, text) && OnDisk(k) && k !in owner
    requires Handed(w, owner.Keys + {k}, marked, u, hdr, f, k) && !Sound(files, Free(owner.Keys) - 1, |f.data|, u)
    requires Writes(w, files, k, hdr, table, marked) && Entered(TableOn(w.d0, files), text, name, k, table)
    requires Free(owner.Keys) > |f.data|
    ensures NoAccount(w.d3, w.h3, text)
    ensures |f.data| != 26 ==> BytesKept(w.d0, w.d3, files)
  {
    assert Free(owner.Keys + {k}) == Free(owner.Keys) - 1;
    if |f.data| == 26 {
      assert Room(Free(owner.Keys) - 1, 26);
      StrayCreate(w, files, owner, text, name, u, k, hdr, f, table, marked);
    } else {
      NoRoomCreate(w, files, owner, text, name, k, hdr, f, table, marked);
    }
  }

  lemma CreateDone(w: Trail, files: Files, owner: Owners, text: Text, name: Word, u: int, k: Int32, hdr: Header, f: File,
                   table: seq<Entry>, marked: set<int>)
    returns (files': Files, owner': Owners)
    requires Consistent(w.d0, w.h0, files, owner, text) && OnDisk(k) && k !in owner
    requires Handed(w, owner.Keys + {k}, marked, u, hdr, f, k) && Free(owner.Keys) > |f.data|
    requires Writes(w, files, k, hdr, table, marked) && Entered(TableOn(w.d0, files), text, name, k, table)
    ensures Created(w.d0, w.d3, w.h3, files, owner, files', owner', text, name, f.numBytes, u)
    ensures k > PIPE_SECTOR && (files' == files || files' == files[k := f])
  {
    AboveSpecial(w.h0, files, owner, k);
    if Sound(files, Free(owner.Keys) - 1, |f.data|, u) {
      CreateSound(w, files, owner, text, name, u, k, hdr, f, table, marked);
      files', owner' := files[k := f], WithOwner(owner, f, k);
    } else {
      CreateUnsound(w, files, owner, text, name, u, k, hdr, f, table, marked);
      files', owner' := files, owner;
    }
  }
}
