/** Laying out a new file on the free sectors of the disk (filesys/filehdr.cc). */
module Allocation {
  import opened Words
  import opened Disks
  import opened Headers
  import opened Bitmaps

  /** `Stopped` is the assertion in the disk driver that ends the run when a header is written to a
      sector number that is not on the disk. */
  datatype Outcome = Full | Allocated | Stopped

  /** The chain of headers takes sectors of its own, which the test for free space does not count. */
  predicate Room(free: int, n: nat) { n + ChainFor(n) <= free }

  /** The run ends in the middle: a header is to be written to a sector that is not on the disk. */
  predicate Stops(free: int, n: nat, uninitialised: int) {
    if n == 26 then !OnDisk(uninitialised) else free < 27 * ChainFor(n)
  }

  /** Counting data sectors alone is enough exactly for files with a single header. */
  lemma TestSuffices(n: nat)
    ensures (forall free :: n <= free ==> Room(free, n)) <==> n <= 26
  {
    if n > 26 {
      assert !Room(n, n);
    }
  }

  ghost function Elems(s: seq<int>): set<int> { set x | x in s }

  ghost predicate Within(s: set<int>) { forall x :: x in s ==> OnDisk(x) }

  /** A search of the bitmap succeeds exactly when a bit is clear. */
  lemma FindSucceeds(s: set<int>)
    requires Within(s)
    ensures |s| <= 1024
    ensures Least(s, 1024) >= 0 <==> |s| < 1024
  {
    AbsentIsComplement(s, 1024);
    var k := Least(s, 1024);
    if k >= 0 {
      AbsentIsComplement(s + {k}, 1024);
    } else {
      NoneAbsent(s, 1024);
    }
  }

  lemma {:induction false} NoneAbsent(s: set<int>, n: nat)
    requires forall j :: 0 <= j < n ==> j in s
    ensures Absent(s, n) == 0
  {
    if n > 0 {
      NoneAbsent(s, n - 1);
    }
  }

  /** The sectors taken so far: headers and data, all different and all free before, except the
      first header's, which the caller has marked. */
  ghost predicate Taken(used: set<int>, marked: set<int>, hdrs: seq<int>, data: seq<int>) {
    && hdrs != [] && hdrs[0] in used
    && NoDup(hdrs) && NoDup(data) && Apart(hdrs, data)
    && AllOnDisk(hdrs) && AllOnDisk(data)
    && (forall i :: 1 <= i < |hdrs| ==> hdrs[i] !in used)
    && (forall i :: 0 <= i < |data| ==> data[i] !in used)
    && marked == used + Elems(hdrs) + Elems(data)
  }

  lemma TakenHeader(used: set<int>, marked: set<int>, hdrs: seq<int>, data: seq<int>, s: int)
    requires Taken(used, marked, hdrs, data) && OnDisk(s) && s !in marked
    ensures Taken(used, marked + {s}, hdrs + [s], data)
  {
    NoDupAppend(hdrs, s);
    assert Elems(hdrs + [s]) == Elems(hdrs) + {s};
  }

  lemma TakenData(used: set<int>, marked: set<int>, hdrs: seq<int>, data: seq<int>, s: int)
    requires Taken(used, marked, hdrs, data) && OnDisk(s) && s !in marked
    ensures Taken(used, marked + {s}, hdrs, data + [s])
  {
    NoDupAppend(data, s);
    assert Elems(data + [s]) == Elems(data) + {s};
  }

  /** Header c lists a full share of data sectors and names the next header. */
  ghost predicate Complete(h: Header, hdrs: seq<int>, data: seq<int>, c: nat) {
    && (c + 1) * 26 <= |data| && h.dataSectors == data[c * 26..(c + 1) * 26]
    && c + 1 < |hdrs| && h.nextFdrSector == hdrs[c + 1]
  }

  /** Headers 1 to c - 1 are complete and on the disk. */
  ghost predicate Built(d: Headers, hdrs: seq<int>, data: seq<int>, c: nat)
    requires c <= |hdrs| && AllOnDisk(hdrs)
  {
    c <= 1 || (Complete(d[hdrs[c - 1]], hdrs, data, c - 1) && Built(d, hdrs, data, c - 1))
  }

  lemma {:induction false} BuiltGrows(d: Headers, d': Headers, hdrs: seq<int>, data: seq<int>,
                                      hdrs': seq<int>, data': seq<int>, c: nat)
    requires hdrs <= hdrs' && data <= data' && AllOnDisk(hdrs') && c <= |hdrs|
    requires forall i :: 1 <= i < c ==> d'[hdrs'[i]] == d[hdrs'[i]]
    requires Built(d, hdrs, data, c)
    ensures Built(d', hdrs', data', c)
  {
    if c > 1 {
      CompleteGrows(d[hdrs[c - 1]], hdrs, data, hdrs', data', c - 1);
      BuiltGrows(d, d', hdrs, data, hdrs', data', c - 1);
    }
  }

  lemma CompleteGrows(h: Header, hdrs: seq<int>, data: seq<int>, hdrs': seq<int>, data': seq<int>, c: nat)
    requires hdrs <= hdrs' && data <= data' && Complete(h, hdrs, data, c)
    ensures Complete(h, hdrs', data', c)
  {
    assert data'[..|data|] == data;
    assert data'[c * 26..(c + 1) * 26] == data[c * 26..(c + 1) * 26];
  }

  /** What the loop has in hand: the first header, the one being filled, and its sector. */
  datatype Draft = Draft(self: Header, hdr: Header, sector: int)

  ghost predicate Drafted(d: Headers, t: Draft, hdrs: seq<int>, data: seq<int>)
    requires hdrs != [] && AllOnDisk(hdrs)
  {
    var c := |hdrs| - 1;
    && c * 26 <= |data| <= (c + 1) * 26
    && data[c * 26..] <= t.hdr.dataSectors
    && (c > 0 ==> t.sector == hdrs[c] && Complete(t.self, hdrs, data, 0) && Built(d, hdrs, data, c))
  }

  lemma DraftData(d: Headers, t: Draft, hdrs: seq<int>, data: seq<int>, s: Int32)
    requires hdrs != [] && AllOnDisk(hdrs) && Drafted(d, t, hdrs, data)
    requires |data| < |hdrs| * 26
    ensures var h := t.hdr.(dataSectors := t.hdr.dataSectors[|data| % 26 := s]);
      Drafted(d, t.(hdr := h), hdrs, data + [s])
  {
    var c := |hdrs| - 1;
    assert |data| % 26 == |data| - c * 26;
    assert (data + [s])[c * 26..] == data[c * 26..] + [s];
    if c > 0 {
      CompleteGrows(t.self, hdrs, data, hdrs, data + [s], 0);
      BuiltGrows(d, d, hdrs, data, hdrs, data + [s], c);
    }
  }

  /** The header being filled is full and names the next one. */
  lemma FilledHeader(d: Headers, t: Draft, hdrs: seq<int>, data: seq<int>, s: Int32)
    requires hdrs != [] && AllOnDisk(hdrs) && Drafted(d, t, hdrs, data) && |data| == |hdrs| * 26
    ensures Complete(t.hdr.(nextFdrSector := s), hdrs + [s], data, |hdrs| - 1)
  {
    var c := |hdrs| - 1;
    assert data[c * 26..] == data[c * 26..(c + 1) * 26];
  }

  /** A new header starts empty. */
  lemma DraftHeader(d: Headers, d': Headers, t: Draft, t': Draft, hdrs: seq<int>, data: seq<int>, s: int)
    requires hdrs != [] && AllOnDisk(hdrs + [s]) && NoDup(hdrs)
    requires AllOnDisk(hdrs) && Drafted(d, t, hdrs, data) && |data| == |hdrs| * 26
    requires t'.sector == s
    requires if |hdrs| == 1 then Complete(t'.self, hdrs + [s], data, 0)
             else t'.self == t.self && d' == d[t.sector := d'[t.sector]]
                  && Complete(d'[t.sector], hdrs + [s], data, |hdrs| - 1)
    ensures Drafted(d', t', hdrs + [s], data)
  {
    var c, hdrs' := |hdrs| - 1, hdrs + [s];
    assert data[(c + 1) * 26..] == [];
    if c > 0 {
      CompleteGrows(t.self, hdrs, data, hdrs', data, 0);
      forall i | 1 <= i < c ensures d'[hdrs'[i]] == d[hdrs'[i]] {
        NoDupPair(hdrs, i, c);
      }
      BuiltGrows(d, d', hdrs, data, hdrs', data, c);
      assert hdrs'[c] == t.sector;
    }
  }

  lemma {:induction false} BuiltAt(d: Headers, hdrs: seq<int>, data: seq<int>, m: nat, c: nat)
    requires AllOnDisk(hdrs) && 1 <= c < m <= |hdrs| && Built(d, hdrs, data, m)
    ensures Complete(d[hdrs[c]], hdrs, data, c)
  {
    if c < m - 1 {
      BuiltAt(d, hdrs, data, m - 1, c);
    }
  }

  /** Once the last header is written, the whole chain is on the disk. */
  lemma {:induction false} BuiltChained(d: Headers, f: File, c: nat)
    requires AllOnDisk(f.hdrs) && 1 <= c <= |f.hdrs| && Built(d, f.hdrs, f.data, |f.hdrs| - 1)
    requires |f.hdrs| > 1 ==> Describes(d[f.hdrs[|f.hdrs| - 1]], f, |f.hdrs| - 1)
    ensures Chained(d, f, c)
    decreases |f.hdrs| - c
  {
    if c < |f.hdrs| {
      BuiltChained(d, f, c + 1);
      if c < |f.hdrs| - 1 {
        BuiltAt(d, f.hdrs, f.data, |f.hdrs| - 1, c);
      }
    }
  }

  // ---------- what the loop keeps ----------

  /** Nothing in the given sectors has changed. */
  ghost predicate SameIn<T>(a: seq<T>, b: seq<T>, places: set<int>) {
    |a| == |b| && forall s :: s in places && 0 <= s < |a| ==> b[s] == a[s]
  }

  /** The sectors of the headers: all different and on the disk; the first was marked by the caller,
      the others were free. */
  ghost predicate Sites(used: set<int>, marked: set<int>, hdrs: seq<int>) {
    && hdrs != [] && hdrs[0] in used && used <= marked && Elems(hdrs) <= marked
    && NoDup(hdrs) && AllOnDisk(hdrs)
    && (forall i :: 1 <= i < |hdrs| ==> hdrs[i] !in used)
  }

  /** The headers found so far lie on the disk as they should, and no marked sector has changed. */
  ghost predicate Traced(h0: Headers, h: Headers, used: set<int>, marked: set<int>, t: Draft,
                         hdrs: seq<int>, data: seq<int>) {
    Sites(used, marked, hdrs) && Drafted(h, t, hdrs, data) && SameOutside(h0, h, hdrs)
  }

  /** A search for a header's sector has failed: the next attempt to write a header ends the run. */
  predicate Stuck(t: Draft, headers: nat) { headers > 1 && t.sector == -1 }

  ghost predicate Progress(d0: Image, h0: Headers, d: Image, h: Headers, used: set<int>, marked: set<int>,
                           t: Draft, hdrs: seq<int>, data: seq<int>) {
    && SameIn(d0, d, used) && SameIn(h0, h, used) && used <= marked
    && (Stuck(t, |hdrs|) || (Traced(h0, h, used, marked, t, hdrs, data) && SameOutside(d0, d, hdrs)))
  }

  lemma TracedHeader(h0: Headers, h: Headers, h': Headers, used: set<int>, marked: set<int>, t: Draft, t': Draft,
                     hdrs: seq<int>, data: seq<int>, s: Int32)
    requires Traced(h0, h, used, marked, t, hdrs, data) && |data| == |hdrs| * 26
    requires OnDisk(s) && s !in marked && t'.sector == s
    requires var hdr := t.hdr.(nextFdrSector := s);
      if |hdrs| == 1 then t'.self == hdr && h' == h
      else t'.self == t.self && h' == h[t.sector := hdr]
    ensures Traced(h0, h', used, marked + {s}, t', hdrs + [s], data)
  {
    NoDupAppend(hdrs, s);
    assert Elems(hdrs + [s]) == Elems(hdrs) + {s};
    FilledHeader(h, t, hdrs, data, s);
    DraftHeader(h, h', t, t', hdrs, data, s);
  }

  /** Starting another header keeps the loop's progress, whether or not its sector was found. */
  lemma HeaderProgress(d0: Image, h0: Headers, d: Image, h: Headers, d': Image, h': Headers, used: set<int>,
                       marked: set<int>, marked': set<int>, t: Draft, t': Draft, hdrs: seq<int>, data: seq<int>, s: Int32)
    requires Progress(d0, h0, d, h, used, marked, t, hdrs, data) && !Stuck(t, |hdrs|) && |data| == |hdrs| * 26
    requires t'.sector == s && (s == -1 ==> marked' == marked)
    requires s != -1 ==> OnDisk(s) && s !in marked && marked' == marked + {s}
    requires var hdr := t.hdr.(nextFdrSector := s);
      if |hdrs| == 1 then t'.self == hdr && h' == h && d' == d
      else t'.self == t.self && OnDisk(t.sector) && h' == h[t.sector := hdr] && d' == d[t.sector := d'[t.sector]]
    ensures Progress(d0, h0, d', h', used, marked', t', hdrs + [s], data)
    ensures s != -1 && Taken(used, marked, hdrs, data) ==> Taken(used, marked', hdrs + [s], data)
  {
    if s != -1 {
      TracedHeader(h0, h, h', used, marked, t, t', hdrs, data, s);
      if Taken(used, marked, hdrs, data) {
        TakenHeader(used, marked, hdrs, data, s);
      }
    }
  }

  lemma TracedData(h0: Headers, h: Headers, used: set<int>, marked: set<int>, marked': set<int>, t: Draft,
                   hdrs: seq<int>, data: seq<int>, s: Int32)
    requires Traced(h0, h, used, marked, t, hdrs, data) && |data| < |hdrs| * 26 && marked <= marked'
    ensures var hdr := t.hdr.(dataSectors := t.hdr.dataSectors[|data| % 26 := s]);
      Traced(h0, h, used, marked', t.(hdr := hdr), hdrs, data + [s])
  {
    DraftData(h, t, hdrs, data, s);
  }

  /** The first header of the file is the one being filled until a second one is started. */
  function First(t: Draft, headers: nat): Header { if headers == 1 then t.hdr else t.self }

  ghost predicate SameSize(a: Header, b: Header) { a.numBytes == b.numBytes && a.numSectors == b.numSectors }

  function Min(a: int, b: int): int { if a < b then a else b }

  method NewHeader() returns (h: Header)
  {
    h := *;
  }

  /** Find a sector and mark it; the count of marked sectors grows while it can. */
  method FindSector(freeMap: BitMap) returns (s: Int32)
    requires freeMap.Valid() && freeMap.numBits == 1024
    modifies freeMap.map_
    ensures s == -1 <==> |old(freeMap.Set())| == 1024
    ensures s == -1 ==> freeMap.Set() == old(freeMap.Set())
    ensures s != -1 ==> OnDisk(s) && s !in old(freeMap.Set()) && freeMap.Set() == old(freeMap.Set()) + {s}
    ensures |freeMap.Set()| == Min(1024, |old(freeMap.Set())| + 1)
  {
    FindSucceeds(freeMap.Set());
    s := freeMap.Find();
  }

  /** Start another header of the chain: the one being filled is complete and, unless it is the
      first, goes to its sector. */
  method NextHeader(disk: Disk, freeMap: BitMap, t: Draft, i: nat, ghost d0: Image, ghost h0: Headers,
                    ghost used: set<int>, ghost hdrs: seq<int>, ghost data: seq<int>)
    returns (ok: bool, t': Draft, ghost hdrs': seq<int>)
    requires disk.Valid() && freeMap.Valid() && freeMap.numBits == 1024 && i == |data| == |hdrs| * 26 > 0
    requires Progress(d0, h0, disk.sectors, disk.headers, used, freeMap.Set(), t, hdrs, data)
    modifies disk, freeMap.map_
    ensures disk.Valid() && |freeMap.Set()| == Min(1024, |old(freeMap.Set())| + 1)
    ensures ok <==> !Stuck(t, |hdrs|)
    ensures SameIn(d0, disk.sectors, used) && SameIn(h0, disk.headers, used)
    ensures ok ==> |hdrs'| == |hdrs| + 1 && hdrs < hdrs' && SameSize(First(t', |hdrs'|), First(t, |hdrs|))
    ensures ok ==> t'.sector == hdrs'[|hdrs|] && (t'.sector == -1 <==> |old(freeMap.Set())| == 1024)
    ensures ok && t'.sector != -1 && Taken(used, old(freeMap.Set()), hdrs, data) ==> Taken(used, freeMap.Set(), hdrs', data)
    ensures ok ==> Progress(d0, h0, disk.sectors, disk.headers, used, freeMap.Set(), t', hdrs', data)
  {
    var next := FindSector(freeMap);
    hdrs' := hdrs + [next];
    var hdr := t.hdr.(nextFdrSector := next);
    var blank := NewHeader();
    ok := true;
    if i != 26 {
      if !OnDisk(t.sector) {
        return false, t, hdrs;
      }
      disk.WriteBack(t.sector, hdr);
      t' := Draft(t.self, blank, next);
    } else {
      t' := Draft(hdr, blank, next);
    }
    HeaderProgress(d0, h0, old(disk.sectors), old(disk.headers), disk.sectors, disk.headers, used,
                   old(freeMap.Set()), freeMap.Set(), t, t', hdrs, data, next);
  }

  method NextData(freeMap: BitMap, t: Draft, i: nat, ghost disk: Disk, ghost d0: Image, ghost h0: Headers,
                  ghost used: set<int>, ghost hdrs: seq<int>, ghost data: seq<int>)
    returns (t': Draft, ghost data': seq<int>)
    requires freeMap.Valid() && freeMap.numBits == 1024 && i == |data| < |hdrs| * 26
    requires Progress(d0, h0, disk.sectors, disk.headers, used, freeMap.Set(), t, hdrs, data)
    modifies freeMap.map_
    ensures |freeMap.Set()| == Min(1024, |old(freeMap.Set())| + 1)
    ensures |data'| == |data| + 1 && data < data'
    ensures t'.sector == t.sector && SameSize(First(t', |hdrs|), First(t, |hdrs|))
    ensures data'[i] == -1 <==> |old(freeMap.Set())| == 1024
    ensures data'[i] != -1 && Taken(used, old(freeMap.Set()), hdrs, data) ==> Taken(used, freeMap.Set(), hdrs, data')
    ensures Progress(d0, h0, disk.sectors, disk.headers, used, freeMap.Set(), t', hdrs, data')
  {
    var s := FindSector(freeMap);
    data' := data + [s];
    t' := t.(hdr := t.hdr.(dataSectors := t.hdr.dataSectors[i % 26 := s]));
    if !Stuck(t, |hdrs|) {
      TracedData(h0, disk.headers, used, old(freeMap.Set()), freeMap.Set(), t, hdrs, data, s);
    }
    if s != -1 && Taken(used, old(freeMap.Set()), hdrs, data) {
      TakenData(used, old(freeMap.Set()), hdrs, data, s);
    }
  }

  lemma ChainStep(i: nat, n: nat)
    requires i < n
    ensures ChainFor(i) <= ChainFor(i + 1) <= ChainFor(n)
    ensures i < (1 + ChainFor(i + 1)) * 26
    ensures if i != 0 && i % 26 == 0 then i == (1 + ChainFor(i)) * 26 && ChainFor(i + 1) == ChainFor(i) + 1
            else ChainFor(i + 1) == ChainFor(i)
  {}

  ghost function Free(marked: set<int>): int { 1024 - |marked| }

  /** How many sectors are marked after i data sectors, whether the last one is real, and whether the
      last header has a sector; as long as every search has succeeded all sectors are the file's. */
  ghost predicate Tally(used: set<int>, marked: set<int>, t: Draft, hdrs: seq<int>, data: seq<int>) {
    var i := |data|;
    && |hdrs| == 1 + ChainFor(i)
    && |marked| == Min(1024, |used| + i + ChainFor(i))
    && (i > 0 ==> (data[i - 1] != -1 <==> |used| + i + ChainFor(i) <= 1024))
    && (|hdrs| > 1 ==> (t.sector != -1 <==> |used| + 27 * (|hdrs| - 1) <= 1024))
    && (|used| + i + ChainFor(i) <= 1024 ==> Taken(used, marked, hdrs, data))
  }

  /** The same after the headers have been seen to and before the data sector of round i is found. */
  ghost predicate Midway(used: set<int>, marked: set<int>, t: Draft, hdrs: seq<int>, data: seq<int>) {
    var i := |data|;
    && |hdrs| == 1 + ChainFor(i + 1)
    && |marked| == Min(1024, |used| + i + ChainFor(i + 1))
    && (|hdrs| > 1 ==> (t.sector != -1 <==> |used| + 27 * (|hdrs| - 1) <= 1024))
    && (|used| + i + ChainFor(i + 1) <= 1024 ==> Taken(used, marked, hdrs, data))
  }

  /** The part of a round that starts another header when the current one is full. */
  method FillHeader(disk: Disk, freeMap: BitMap, t: Draft, i: nat, n: nat, ghost d0: Image, ghost h0: Headers,
                    ghost used: set<int>, ghost hdrs: seq<int>, ghost data: seq<int>)
    returns (ok: bool, t': Draft, ghost hdrs': seq<int>)
    requires disk.Valid() && freeMap.Valid() && freeMap.numBits == 1024
    requires i == |data| < n && Tally(used, freeMap.Set(), t, hdrs, data)
    requires Progress(d0, h0, disk.sectors, disk.headers, used, freeMap.Set(), t, hdrs, data)
    modifies disk, freeMap.map_
    ensures disk.Valid() && (i < 26 ==> ok && unchanged(disk) && t'.sector == t.sector)
    ensures SameIn(d0, disk.sectors, used) && SameIn(h0, disk.headers, used)
    ensures !ok ==> |used| + 27 * ChainFor(n) > 1024
    ensures ok ==> i < |hdrs'| * 26 && hdrs <= hdrs' && Midway(used, freeMap.Set(), t', hdrs', data)
    ensures ok ==> SameSize(First(t', |hdrs'|), First(t, |hdrs|))
    ensures ok ==> Progress(d0, h0, disk.sectors, disk.headers, used, freeMap.Set(), t', hdrs', data)
  {
    ChainStep(i, n);
    ok, t', hdrs' := true, t, hdrs;
    if i != 0 && i % 26 == 0 {
      ok, t', hdrs' := NextHeader(disk, freeMap, t, i, d0, h0, used, hdrs, data);
    }
  }

  /** One round of the loop. */
  method FillOne(disk: Disk, freeMap: BitMap, t: Draft, i: nat, n: nat, ghost d0: Image, ghost h0: Headers,
                 ghost used: set<int>, ghost hdrs: seq<int>, ghost data: seq<int>)
    returns (ok: bool, t': Draft, ghost hdrs': seq<int>, ghost data': seq<int>)
    requires disk.Valid() && freeMap.Valid() && freeMap.numBits == 1024
    requires i == |data| < n && Tally(used, freeMap.Set(), t, hdrs, data)
    requires Progress(d0, h0, disk.sectors, disk.headers, used, freeMap.Set(), t, hdrs, data)
    modifies disk, freeMap.map_
    ensures disk.Valid() && (i < 26 ==> ok && unchanged(disk) && t'.sector == t.sector)
    ensures SameIn(d0, disk.sectors, used) && SameIn(h0, disk.headers, used)
    ensures !ok ==> |used| + 27 * ChainFor(n) > 1024
    ensures ok ==> |data'| == i + 1 && hdrs <= hdrs' && Tally(used, freeMap.Set(), t', hdrs', data')
    ensures ok ==> SameSize(First(t', |hdrs'|), First(t, |hdrs|))
    ensures ok ==> Progress(d0, h0, disk.sectors, disk.headers, used, freeMap.Set(), t', hdrs', data')
  {
    data' := data;
    ok, t', hdrs' := FillHeader(disk, freeMap, t, i, n, d0, h0, used, hdrs, data);
    if ok {
      ghost var marked, t1 := freeMap.Set(), t';
      t', data' := NextData(freeMap, t', i, disk, d0, h0, used, hdrs', data);
      MidwayTally(used, marked, freeMap.Set(), t1, t', hdrs', data, data');
    }
  }

  /** Finding the data sector completes the count of the round. */
  lemma MidwayTally(used: set<int>, marked: set<int>, marked': set<int>, t: Draft, t': Draft, hdrs: seq<int>,
                    data: seq<int>, data': seq<int>)
    requires Midway(used, marked, t, hdrs, data) && |data'| == |data| + 1 && t'.sector == t.sector
    requires |marked'| == Min(1024, |marked| + 1) && (data'[|data|] == -1 <==> |marked| == 1024)
    requires data'[|data|] != -1 && Taken(used, marked, hdrs, data) ==> Taken(used, marked', hdrs, data')
    ensures Tally(used, marked', t', hdrs, data')
  {}

  lemma FirstSite(d0: Image, h0: Headers, used: set<int>, t: Draft, sector: int)
    requires sector in used && OnDisk(sector)
    ensures Progress(d0, h0, d0, h0, used, used, t, [sector], []) && Taken(used, used, [sector], [])
  {
    NoDupAppend([], sector);
    assert [] + [sector] == [sector];
    assert Elems([sector]) == {sector} && Elems([]) == {};
  }

  /** Headers and data sectors are found one after the other. */
  method Fill(disk: Disk, freeMap: BitMap, t0: Draft, n: nat, ghost sector: int)
    returns (ok: bool, t: Draft, ghost hdrs: seq<int>, ghost data: seq<int>)
    requires disk.Valid() && freeMap.Valid() && freeMap.numBits == 1024 && sector in freeMap.Set()
    modifies disk, freeMap.map_
    ensures disk.Valid() && (n <= 26 ==> ok && unchanged(disk) && t.sector == t0.sector)
    ensures SameIn(old(disk.sectors), disk.sectors, old(freeMap.Set()))
    ensures SameIn(old(disk.headers), disk.headers, old(freeMap.Set()))
    ensures !ok ==> Free(old(freeMap.Set())) < 27 * ChainFor(n)
    ensures ok ==> |data| == n && hdrs != [] && hdrs[0] == sector && Tally(old(freeMap.Set()), freeMap.Set(), t, hdrs, data)
    ensures ok ==> SameSize(First(t, |hdrs|), t0.hdr)
    ensures ok ==> Progress(old(disk.sectors), old(disk.headers), disk.sectors, disk.headers,
                            old(freeMap.Set()), freeMap.Set(), t, hdrs, data)
  {
    ghost var d0, h0, used := disk.sectors, disk.headers, freeMap.Set();
    FindSucceeds(used);
    assert sector in Members(freeMap.map_[..], freeMap.numBits);
    t, ok, hdrs, data := t0, true, [sector], [];
    FirstSite(d0, h0, used, t, sector);
    for i := 0 to n
      invariant disk.Valid() && |data| == i && hdrs != [] && hdrs[0] == sector && Tally(used, freeMap.Set(), t, hdrs, data)
      invariant i <= 26 ==> unchanged(disk) && t.sector == t0.sector
      invariant SameSize(First(t, |hdrs|), t0.hdr)
      invariant Progress(d0, h0, disk.sectors, disk.headers, used, freeMap.Set(), t, hdrs, data)
    {
      ok, t, hdrs, data := FillOne(disk, freeMap, t, i, n, d0, h0, used, hdrs, data);
      if !ok {
        return;
      }
    }
  }

  /** The sectors and headers of a finished layout. */
  lemma LaidOut(h: Headers, h': Headers, t: Draft, last: Header, self: Header, f: File)
    requires f.hdrs != [] && AllOnDisk(f.hdrs) && NoDup(f.hdrs) && Drafted(h, t, f.hdrs, f.data)
    requires last == t.hdr.(nextFdrSector := -1)
    requires if |f.hdrs| == 1 then self.dataSectors == last.dataSectors
             else h' == h[t.sector := last] && self.dataSectors == t.self.dataSectors
                  && self.nextFdrSector == t.self.nextFdrSector
    requires self.numBytes == f.numBytes && self.numSectors == |f.data|
    ensures Heads(self, f) && Chained(h', f, 1)
  {
    var c := |f.hdrs| - 1;
    assert f.data[c * 26..] == Share(f, c);
    if c > 0 {
      forall i | 1 <= i < c ensures h'[f.hdrs[i]] == h[f.hdrs[i]] {
        NoDupPair(f.hdrs, i, c);
      }
      BuiltGrows(h, h', f.hdrs, f.data, f.hdrs, f.data, c);
      BuiltChained(h', f, 1);
    }
  }

  /** Write the last header, unless it is the only one, and stamp the first. */
  method Finish(disk: Disk, t: Draft, n: nat, now: Word) returns (ok: bool, self: Header, ghost last: Header)
    requires disk.Valid()
    modifies disk
    ensures disk.Valid() && last == t.hdr.(nextFdrSector := -1)
    ensures ok <==> n < 26 || OnDisk(t.sector)
    ensures if ok && n >= 26 then disk.headers == old(disk.headers)[t.sector := last] else unchanged(disk)
    ensures SameOutside(old(disk.sectors), disk.sectors, [t.sector])
    ensures self == (if n <= 26 then last else t.self).(createTime := now, lastWriteTime := now)
  {
    var hdr := t.hdr.(nextFdrSector := -1);
    last := hdr;
    self := if n <= 26 then hdr else t.self;
    ok := true;
    if n >= 26 {
      ok := OnDisk(t.sector);
      if ok {
        disk.WriteBack(t.sector, hdr);
      }
    }
    self := self.(createTime := now, lastWriteTime := now);
  }

  /** The headers say what the loop has found: following them from the first leads to every sector
      number of the file, real or not. */
  ghost predicate Recorded(h: Headers, self: Header, f: File) {
    && f.hdrs != [] && AllOnDisk(f.hdrs) && |f.data| == SectorsFor(f.numBytes) && |f.hdrs| == 1 + ChainFor(|f.data|)
    && Heads(self, f) && Chained(h, f, 1)
  }

  /** The layout that a call of `Allocate` promises: the file's sectors are distinct, were free
      before, and are exactly the ones marked; its headers describe it, the first one in memory;
      nothing else on the disk has changed. */
  ghost predicate Laid(d0: Image, h0: Headers, used: set<int>, d: Image, h: Headers, marked: set<int>,
                       hdr: Header, f: File) {
    && Shaped(f) && Heads(hdr, f) && Chained(h, f, 1) && Taken(used, marked, f.hdrs, f.data)
    && SameOutside(d0, d, f.hdrs) && SameOutside(h0, h, f.hdrs)
  }

  /** The last write completes what the loop has prepared. */
  lemma FinishedChain(d0: Image, h0: Headers, d: Image, h: Headers, d': Image, h': Headers, used: set<int>,
                      marked: set<int>, t: Draft, last: Header, self: Header, f: File)
    requires Progress(d0, h0, d, h, used, marked, t, f.hdrs, f.data) && !Stuck(t, |f.hdrs|)
    requires |f.data| == SectorsFor(f.numBytes) != 26 && |f.hdrs| == 1 + ChainFor(|f.data|)
    requires last == t.hdr.(nextFdrSector := -1) && SameOutside(d, d', [t.sector])
    requires if |f.hdrs| == 1 then h' == h && d' == d && self.dataSectors == last.dataSectors
             else h' == h[t.sector := last] && self.dataSectors == t.self.dataSectors
                  && self.nextFdrSector == t.self.nextFdrSector
    requires self.numBytes == f.numBytes && self.numSectors == |f.data|
    ensures Recorded(h', self, f) && SameOutside(d0, d', f.hdrs) && SameOutside(h0, h', f.hdrs)
    ensures SameIn(d0, d', used) && SameIn(h0, h', used)
  {
    LaidOut(h, h', t, last, self, f);
  }

  /** `FileHeader::Allocate`.  `uninitialised` is what happens to lie in `cur_sector`; `sector` is
      where the caller will put the first header.

      The call reports a full disk exactly when there are fewer free sectors than data sectors.
      Unless the file has 26 data sectors no marked sector changes; the run stops exactly when the
      last header finds no sector, and otherwise the headers record all sectors found.  The last
      data sector is a real one exactly when there is room for the chain as well, and then the file
      is laid out.  With 26 data sectors the file has its sectors too, but its header is also
      written to the uninitialised sector number. */
  method Allocate(disk: Disk, freeMap: BitMap, fileSize: Int32, uninitialised: int, now: Word, ghost sector: int)
    returns (outcome: Outcome, self: Header, ghost f: File)
    requires disk.Valid() && freeMap.Valid() && freeMap.numBits == 1024
    requires sector in freeMap.Set()
    modifies disk, freeMap.map_
    ensures disk.Valid() && (fileSize >= 0 ==> f.numBytes == fileSize)
    ensures fileSize < 0 ==>
      outcome == Allocated && self.numBytes == fileSize && unchanged(disk) && unchanged(freeMap.map_)
    ensures outcome == Full <==> Free(old(freeMap.Set())) < SectorsFor(fileSize)
    ensures outcome == Full ==> unchanged(disk) && unchanged(freeMap.map_)
    ensures outcome == Stopped <==>
      && Free(old(freeMap.Set())) >= SectorsFor(fileSize)
      && Stops(Free(old(freeMap.Set())), SectorsFor(fileSize), uninitialised)
    ensures outcome == Stopped && SectorsFor(fileSize) == 26 ==> unchanged(disk)
    ensures SectorsFor(fileSize) != 26 ==>
      SameIn(old(disk.sectors), disk.sectors, old(freeMap.Set())) && SameIn(old(disk.headers), disk.headers, old(freeMap.Set()))
    ensures outcome == Allocated && fileSize >= 0 ==> f.hdrs != [] && f.hdrs[0] == sector && |f.data| == SectorsFor(fileSize)
    ensures outcome == Allocated && fileSize >= 0 && SectorsFor(fileSize) != 26 ==>
      Recorded(disk.headers, self, f) && forall i :: 1 <= i < |f.hdrs| ==> f.hdrs[i] !in old(freeMap.Set())
    ensures outcome == Allocated && fileSize > 0 ==>
      (f.data[|f.data| - 1] != -1 <==> Room(Free(old(freeMap.Set())), SectorsFor(fileSize)))
    ensures Room(Free(old(freeMap.Set())), SectorsFor(fileSize)) && fileSize >= 0 && SectorsFor(fileSize) != 26 ==>
      && outcome == Allocated
      && Laid(old(disk.sectors), old(disk.headers), old(freeMap.Set()),
              disk.sectors, disk.headers, freeMap.Set(), self, f)
    ensures outcome == Allocated && SectorsFor(fileSize) == 26 ==>
      && Shaped(f) && Heads(self, f) && Taken(old(freeMap.Set()), freeMap.Set(), f.hdrs, f.data)
      && disk.headers == old(disk.headers)[uninitialised := disk.headers[uninitialised]]
      && SameOutside(old(disk.sectors), disk.sectors, [uninitialised]) && Heads(disk.headers[uninitialised], f)
  {
    var n := SectorsFor(fileSize);
    self := NewHeader();
    self := self.(numBytes := fileSize, numSectors := n);
    f := File([], [], if fileSize < 0 then 0 else fileSize);
    var clear := freeMap.NumClear();
    if clear < n {
      return Full, self, f;
    }
    if fileSize < 0 {
      self := self.(numSectors := -(-(fileSize as int) / 128), nextFdrSector := -1, createTime := now, lastWriteTime := now);
      return Allocated, self, f;
    }
    ghost var used := freeMap.Set();
    var ok, t;
    ghost var hdrs, data;
    ok, t, hdrs, data := Fill(disk, freeMap, Draft(self, self, uninitialised), n, sector);
    if !ok {
      return Stopped, self, f;
    }
    f := File(hdrs, data, fileSize);
    ghost var d, h, last := disk.sectors, disk.headers, self;
    ok, self, last := Finish(disk, t, n, now);
    outcome := if ok then Allocated else Stopped;
    if ok && n != 26 {
      FinishedChain(old(disk.sectors), old(disk.headers), d, h, disk.sectors, disk.headers,
                    used, freeMap.Set(), t, last, self, f);
    } else if ok {
      LaidOut(h, disk.headers, t, last, self, f);
      LaidOut(h, disk.headers, t, last, last, f);
    }
  }
}
