/** Demand-paged virtual memory over an inverted page table (machine/translate.cc,
    machine/machine.cc).

    Main memory is a write-back cache of the threads' backing stores.  `View` is what the
    threads see through it: a private flat byte array each. */
module Paging {
  import opened Words
  import opened Options

  const PAGE_SIZE := 128
  const NUM_PHYS_PAGES := 32
  const MEMORY_SIZE := 4096
  /** `ReverseTableReplace` looks for a free frame among the first `TLB_SIZE` only. */
  const TLB_SIZE := 4

  datatype Entry = Entry(virtualPage: int, physicalPage: int, valid: bool, readOnly: bool,
                         use: bool, dirty: bool, tid: int)

  datatype Exception = NoException | PageFaultException | ReadOnlyException | BusErrorException
                     | AddressErrorException

  /** Main memory, the inverted table, and the backing store of every live thread. */
  datatype Snapshot = Snapshot(mem: seq<Byte>, table: seq<Entry>, stores: map<int, seq<Byte>>)

  predicate Maps(e: Entry, tid: int, vpn: int) {
    e.valid && e.virtualPage == vpn && e.tid == tid
  }

  /** The frame that holds a page, or -1. */
  function Lookup(table: seq<Entry>, tid: int, vpn: int): (i: int)
    ensures -1 <= i < |table|
    ensures i >= 0 ==> Maps(table[i], tid, vpn)
    ensures forall j :: 0 <= j < (if i < 0 then |table| else i) ==> !Maps(table[j], tid, vpn)
  {
    if table == [] then -1
    else
      var n := |table| - 1;
      var i := Lookup(table[..n], tid, vpn);
      if i >= 0 then i else if Maps(table[n], tid, vpn) then n else -1
  }

  /** The `PAGE_SIZE` bytes of page `p`. */
  function Page(bytes: seq<Byte>, p: int): (page: seq<Byte>)
    requires 0 <= p && (p + 1) * PAGE_SIZE <= |bytes|
    ensures |page| == PAGE_SIZE
  {
    bytes[p * PAGE_SIZE..(p + 1) * PAGE_SIZE]
  }

  function SetRange(bytes: seq<Byte>, start: int, data: seq<Byte>): (r: seq<Byte>)
    requires 0 <= start && start + |data| <= |bytes|
    ensures |r| == |bytes|
    ensures forall k :: 0 <= k < |bytes| ==>
      r[k] == if start <= k < start + |data| then data[k - start] else bytes[k]
  {
    bytes[..start] + data + bytes[start + |data|..]
  }

  ghost predicate InStore(s: Snapshot, tid: int, vpn: int) {
    tid in s.stores && 0 <= vpn && (vpn + 1) * PAGE_SIZE <= |s.stores[tid]|
  }

  ghost predicate Shaped(s: Snapshot) {
    && |s.mem| == MEMORY_SIZE && |s.table| == NUM_PHYS_PAGES
    && (forall t :: t in s.stores ==> |s.stores[t]| % PAGE_SIZE == 0)
    && (forall i :: 0 <= i < |s.table| ==> s.table[i].physicalPage == i && !s.table[i].readOnly)
    && (forall i :: 0 <= i < |s.table| && s.table[i].valid ==> InStore(s, s.table[i].tid, s.table[i].virtualPage))
  }

  ghost predicate Unique(table: seq<Entry>) {
    forall i, j | 0 <= i < |table| && 0 <= j < |table| ::
      table[j].valid && Maps(table[i], table[j].tid, table[j].virtualPage) ==> i == j
  }

  /** A valid page that is not dirty agrees with its backing store. */
  ghost predicate CleanPagesAgree(s: Snapshot)
    requires Shaped(s)
  {
    forall i :: 0 <= i < |s.table| && s.table[i].valid && !s.table[i].dirty ==>
      Page(s.mem, i) == Page(s.stores[s.table[i].tid], s.table[i].virtualPage)
  }

  ghost predicate Inv(s: Snapshot) {
    Shaped(s) && Unique(s.table) && CleanPagesAgree(s)
  }

  /** The byte a thread sees at an address. */
  ghost function ByteAt(s: Snapshot, tid: int, a: int): Byte
    requires Shaped(s) && tid in s.stores && 0 <= a < |s.stores[tid]|
  {
    var i := Lookup(s.table, tid, a / PAGE_SIZE);
    if i >= 0 then s.mem[i * PAGE_SIZE + a % PAGE_SIZE] else s.stores[tid][a]
  }

  ghost function View(s: Snapshot): map<int, seq<Byte>>
    requires Shaped(s)
  {
    map t | t in s.stores :: seq(|s.stores[t]|, a requires 0 <= a < |s.stores[t]| => ByteAt(s, t, a))
  }

  lemma LookupUnique(table: seq<Entry>, i: int, tid: int, vpn: int)
    requires Unique(table) && 0 <= i < |table| && Maps(table[i], tid, vpn)
    ensures Lookup(table, tid, vpn) == i
  {}

  /** The pages that are in memory, each with its owner. */
  ghost function Resident(table: seq<Entry>): set<(int, int)> {
    set i | 0 <= i < |table| && table[i].valid :: (table[i].tid, table[i].virtualPage)
  }

  lemma LookupResident(table: seq<Entry>, tid: int, vpn: int)
    ensures Lookup(table, tid, vpn) >= 0 <==> (tid, vpn) in Resident(table)
  {
    var i := Lookup(table, tid, vpn);
    if i >= 0 {
      assert (table[i].tid, table[i].virtualPage) in Resident(table);
    }
  }

  /** Bringing a page in costs at most one other page its frame. */
  ghost predicate BroughtIn(pages: set<(int, int)>, page: (int, int), pages': set<(int, int)>) {
    && page in pages' && pages' <= pages + {page}
    && (forall x, y :: x in pages - pages' && y in pages - pages' ==> x == y)
  }

  lemma EntryReplaced(table: seq<Entry>, pos: int, e: Entry)
    requires 0 <= pos < |table| && e.valid
    ensures BroughtIn(Resident(table), (e.tid, e.virtualPage), Resident(table[pos := e]))
  {
    var table' := table[pos := e];
    assert table'[pos] == e;
    forall x | x in Resident(table) && x != (table[pos].tid, table[pos].virtualPage) ensures x in Resident(table') {
      var i :| 0 <= i < |table| && table[i].valid && x == (table[i].tid, table[i].virtualPage);
      assert table'[i] == table[i];
    }
  }

  lemma TouchKeepsResident(table: seq<Entry>, i: int, writing: bool)
    requires 0 <= i < |table|
    ensures Resident(Touched(table, i, writing)) == Resident(table)
  {
    var table' := Touched(table, i, writing);
    assert forall j :: 0 <= j < |table| ==>
      && table'[j].valid == table[j].valid && table'[j].tid == table[j].tid
      && table'[j].virtualPage == table[j].virtualPage;
    forall x ensures x in Resident(table') <==> x in Resident(table) {
      if x in Resident(table) {
        var j :| 0 <= j < |table| && table[j].valid && x == (table[j].tid, table[j].virtualPage);
        assert x == (table'[j].tid, table'[j].virtualPage);
      }
    }
  }

  // ---------- page replacement ----------

  function WrittenBack(s: Snapshot, pos: int): map<int, seq<Byte>>
    requires 0 <= pos < |s.table| && (pos + 1) * PAGE_SIZE <= |s.mem|
    requires var e := s.table[pos]; e.valid && e.dirty ==>
      e.tid in s.stores && 0 <= e.virtualPage && (e.virtualPage + 1) * PAGE_SIZE <= |s.stores[e.tid]|
  {
    var e := s.table[pos];
    if e.valid && e.dirty
    then s.stores[e.tid := SetRange(s.stores[e.tid], e.virtualPage * PAGE_SIZE, Page(s.mem, pos))]
    else s.stores
  }

  /** `ReverseTableReplace` once the victim `pos` is chosen. */
  ghost function Replaced(s: Snapshot, pos: int, tid: int, vpn: int): Snapshot
    requires Shaped(s) && 0 <= pos < NUM_PHYS_PAGES && InStore(s, tid, vpn)
  {
    var stores := WrittenBack(s, pos);
    Snapshot(SetRange(s.mem, pos * PAGE_SIZE, Page(stores[tid], vpn)),
             s.table[pos := s.table[pos].(virtualPage := vpn, valid := true, dirty := false, tid := tid)],
             stores)
  }

  lemma ReplaceKeepsShape(s: Snapshot, pos: int, tid: int, vpn: int)
    requires Inv(s) && 0 <= pos < NUM_PHYS_PAGES && InStore(s, tid, vpn)
    requires Lookup(s.table, tid, vpn) == -1
    ensures var s' := Replaced(s, pos, tid, vpn); Shaped(s') && Unique(s'.table)
  {}

  lemma PageIndex(a: int, i: int, j: int)
    requires 0 <= i && 0 <= j
    ensures i * PAGE_SIZE <= j * PAGE_SIZE + a % PAGE_SIZE < (i + 1) * PAGE_SIZE <==> i == j
  {}

  /** A frame other than the victim keeps its page, and its store keeps that page too. */
  lemma OtherFrameKept(s: Snapshot, pos: int, tid: int, vpn: int, i: int)
    requires Shaped(s) && Unique(s.table) && 0 <= pos < NUM_PHYS_PAGES && InStore(s, tid, vpn)
    requires 0 <= i < NUM_PHYS_PAGES && i != pos && s.table[i].valid
    ensures var s', e := Replaced(s, pos, tid, vpn), s.table[i];
      && |s'.mem| == |s.mem| && Page(s'.mem, i) == Page(s.mem, i)
      && e.tid in s'.stores && |s'.stores[e.tid]| == |s.stores[e.tid]|
      && Page(s'.stores[e.tid], e.virtualPage) == Page(s.stores[e.tid], e.virtualPage)
  {
    var e, v := s.table[i], s.table[pos];
    assert !(v.valid && Maps(e, v.tid, v.virtualPage));
    assert InStore(s, e.tid, e.virtualPage);
  }

  lemma ReplaceKeepsClean(s: Snapshot, pos: int, tid: int, vpn: int)
    requires Inv(s) && 0 <= pos < NUM_PHYS_PAGES && InStore(s, tid, vpn)
    requires Lookup(s.table, tid, vpn) == -1
    ensures Inv(Replaced(s, pos, tid, vpn))
  {
    ReplaceKeepsShape(s, pos, tid, vpn);
    var s' := Replaced(s, pos, tid, vpn);
    forall i | 0 <= i < |s'.table| && s'.table[i].valid && !s'.table[i].dirty
      ensures Page(s'.mem, i) == Page(s'.stores[s'.table[i].tid], s'.table[i].virtualPage)
    {
      if i != pos {
        OtherFrameKept(s, pos, tid, vpn, i);
      } else {
        assert Page(s'.mem, i) == Page(s'.stores[tid], vpn);
      }
    }
  }

  /** The page that is brought in reads the same from its frame as it did from its store. */
  lemma IncomingByte(s: Snapshot, pos: int, tid: int, vpn: int, t: int, a: int)
    requires Inv(s) && 0 <= pos < NUM_PHYS_PAGES && InStore(s, tid, vpn)
    requires Lookup(s.table, tid, vpn) == -1
    requires t in s.stores && 0 <= a < |s.stores[t]|
    requires t == tid && a / PAGE_SIZE == vpn
    ensures var s' := Replaced(s, pos, tid, vpn);
            Inv(s') && t in s'.stores && |s'.stores[t]| == |s.stores[t]| && ByteAt(s', t, a) == ByteAt(s, t, a)
  {
    ReplaceKeepsClean(s, pos, tid, vpn);
    var s' := Replaced(s, pos, tid, vpn);
    LookupUnique(s'.table, pos, tid, vpn);
    assert ByteAt(s', t, a) == Page(s'.stores[t], vpn)[a % PAGE_SIZE] == s'.stores[t][a];
    assert s'.stores[t][a] == s.stores[t][a];
  }

  /** The page that is thrown out reads the same from its store as it did from its frame. */
  lemma OutgoingByte(s: Snapshot, pos: int, tid: int, vpn: int, t: int, a: int)
    requires Inv(s) && 0 <= pos < NUM_PHYS_PAGES && InStore(s, tid, vpn)
    requires Lookup(s.table, tid, vpn) == -1
    requires t in s.stores && 0 <= a < |s.stores[t]|
    requires Maps(s.table[pos], t, a / PAGE_SIZE)
    ensures var s' := Replaced(s, pos, tid, vpn);
            Inv(s') && t in s'.stores && |s'.stores[t]| == |s.stores[t]| && ByteAt(s', t, a) == ByteAt(s, t, a)
  {
    ReplaceKeepsClean(s, pos, tid, vpn);
    var s', q := Replaced(s, pos, tid, vpn), a / PAGE_SIZE;
    LookupUnique(s.table, pos, t, q);
    assert Lookup(s'.table, t, q) == -1;
    assert ByteAt(s, t, a) == Page(s.mem, pos)[a % PAGE_SIZE];
    if !s.table[pos].dirty {
      assert ByteAt(s, t, a) == Page(s.stores[t], q)[a % PAGE_SIZE];
    }
  }

  /** Every other page stays where it was. */
  lemma BystanderByte(s: Snapshot, pos: int, tid: int, vpn: int, t: int, a: int)
    requires Inv(s) && 0 <= pos < NUM_PHYS_PAGES && InStore(s, tid, vpn)
    requires Lookup(s.table, tid, vpn) == -1
    requires t in s.stores && 0 <= a < |s.stores[t]|
    requires !(t == tid && a / PAGE_SIZE == vpn) && !Maps(s.table[pos], t, a / PAGE_SIZE)
    ensures var s' := Replaced(s, pos, tid, vpn);
            Inv(s') && t in s'.stores && |s'.stores[t]| == |s.stores[t]| && ByteAt(s', t, a) == ByteAt(s, t, a)
  {
    ReplaceKeepsClean(s, pos, tid, vpn);
    var s', q := Replaced(s, pos, tid, vpn), a / PAGE_SIZE;
    var i := Lookup(s.table, t, q);
    if i >= 0 {
      LookupUnique(s'.table, i, t, q);
      PageIndex(a, pos, i);
    } else {
      assert Lookup(s'.table, t, q) == -1;
      assert s'.stores[t][a] == s.stores[t][a];
    }
  }

  /** Replacement moves bytes between memory and the stores, but no thread can tell. */
  lemma ReplaceInvisible(s: Snapshot, pos: int, tid: int, vpn: int)
    requires Inv(s) && 0 <= pos < NUM_PHYS_PAGES && InStore(s, tid, vpn)
    requires Lookup(s.table, tid, vpn) == -1
    ensures var s' := Replaced(s, pos, tid, vpn);
            Inv(s') && View(s') == View(s) && Lookup(s'.table, tid, vpn) == pos
  {
    ReplaceKeepsClean(s, pos, tid, vpn);
    var s' := Replaced(s, pos, tid, vpn);
    LookupUnique(s'.table, pos, tid, vpn);
    assert s'.stores.Keys == s.stores.Keys;
    forall t | t in s.stores ensures View(s')[t] == View(s)[t] {
      forall a | 0 <= a < |s.stores[t]|
        ensures |s'.stores[t]| == |s.stores[t]| && ByteAt(s', t, a) == ByteAt(s, t, a)
      {
        if t == tid && a / PAGE_SIZE == vpn {
          IncomingByte(s, pos, tid, vpn, t, a);
        } else if Maps(s.table[pos], t, a / PAGE_SIZE) {
          OutgoingByte(s, pos, tid, vpn, t, a);
        } else {
          BystanderByte(s, pos, tid, vpn, t, a);
        }
      }
    }
  }

  // ---------- reads and writes ----------

  /** Setting the use bit, and the dirty bit when writing. */
  function Touched(table: seq<Entry>, i: int, writing: bool): seq<Entry>
    requires 0 <= i < |table|
  {
    table[i := table[i].(use := true, dirty := table[i].dirty || writing)]
  }

  lemma TouchKeepsLookup(table: seq<Entry>, i: int, writing: bool, tid: int, vpn: int)
    requires 0 <= i < |table| && Unique(table)
    ensures Unique(Touched(table, i, writing))
    ensures Lookup(Touched(table, i, writing), tid, vpn) == Lookup(table, tid, vpn)
  {
    var table' := Touched(table, i, writing);
    var k, k' := Lookup(table, tid, vpn), Lookup(table', tid, vpn);
    assert forall j :: 0 <= j < |table| ==> Maps(table[j], tid, vpn) == Maps(table'[j], tid, vpn);
    assert k >= 0 ==> Maps(table'[k], tid, vpn);
    assert k' >= 0 ==> Maps(table[k'], tid, vpn);
  }

  /** Setting the bits alone is invisible. */
  lemma TouchInvisible(s: Snapshot, i: int, writing: bool)
    requires Inv(s) && 0 <= i < NUM_PHYS_PAGES
    ensures var s' := s.(table := Touched(s.table, i, writing)); Inv(s') && View(s') == View(s)
  {
    var s' := s.(table := Touched(s.table, i, writing));
    TouchKeepsLookup(s.table, i, writing, 0, 0);
    assert Shaped(s');
    assert CleanPagesAgree(s');
    forall t | t in s.stores ensures View(s')[t] == View(s)[t] {
      forall a | 0 <= a < |s.stores[t]| ensures ByteAt(s', t, a) == ByteAt(s, t, a) {
        TouchKeepsLookup(s.table, i, writing, t, a / PAGE_SIZE);
      }
    }
  }

  ghost function Written(s: Snapshot, i: int, offset: int, data: seq<Byte>): Snapshot
    requires Shaped(s) && 0 <= i < NUM_PHYS_PAGES && 0 <= offset && offset + |data| <= PAGE_SIZE
  {
    s.(mem := SetRange(s.mem, i * PAGE_SIZE + offset, data), table := Touched(s.table, i, true))
  }

  lemma WriteKeepsInv(s: Snapshot, i: int, offset: int, data: seq<Byte>)
    requires Inv(s) && 0 <= i < NUM_PHYS_PAGES && 0 <= offset && offset + |data| <= PAGE_SIZE
    ensures Inv(Written(s, i, offset, data))
  {
    var s' := Written(s, i, offset, data);
    TouchKeepsLookup(s.table, i, true, 0, 0);
    assert Shaped(s');
    forall j | 0 <= j < |s'.table| && s'.table[j].valid && !s'.table[j].dirty
      ensures Page(s'.mem, j) == Page(s'.stores[s'.table[j].tid], s'.table[j].virtualPage)
    {
      assert Page(s'.mem, j) == Page(s.mem, j);
    }
  }

  /** A write through frame `i` changes exactly the addressed bytes of the owning thread. */
  lemma WriteVisible(s: Snapshot, tid: int, a: int, data: seq<Byte>)
    requires Inv(s) && tid in s.stores && 0 <= a && a + |data| <= |s.stores[tid]|
    requires a % PAGE_SIZE + |data| <= PAGE_SIZE && Lookup(s.table, tid, a / PAGE_SIZE) >= 0
    ensures var s' := Written(s, Lookup(s.table, tid, a / PAGE_SIZE), a % PAGE_SIZE, data);
            Inv(s') && View(s') == View(s)[tid := SetRange(View(s)[tid], a, data)]
  {
    var i := Lookup(s.table, tid, a / PAGE_SIZE);
    var s' := Written(s, i, a % PAGE_SIZE, data);
    WriteKeepsInv(s, i, a % PAGE_SIZE, data);
    forall t, b | t in s.stores && 0 <= b < |s.stores[t]|
      ensures ByteAt(s', t, b) ==
        if t == tid && a <= b < a + |data| then data[b - a] else ByteAt(s, t, b)
    {
      WrittenByte(s, tid, a, data, t, b);
    }
    assert View(s')[tid] == SetRange(View(s)[tid], a, data);
    assert forall t :: t in s.stores && t != tid ==> View(s')[t] == View(s)[t];
  }

  lemma WrittenByte(s: Snapshot, tid: int, a: int, data: seq<Byte>, t: int, b: int)
    requires Inv(s) && tid in s.stores && 0 <= a && a + |data| <= |s.stores[tid]|
    requires a % PAGE_SIZE + |data| <= PAGE_SIZE && Lookup(s.table, tid, a / PAGE_SIZE) >= 0
    requires t in s.stores && 0 <= b < |s.stores[t]|
    ensures var s' := Written(s, Lookup(s.table, tid, a / PAGE_SIZE), a % PAGE_SIZE, data);
            Inv(s') && ByteAt(s', t, b) ==
              if t == tid && a <= b < a + |data| then data[b - a] else ByteAt(s, t, b)
  {
    var i, j := Lookup(s.table, tid, a / PAGE_SIZE), Lookup(s.table, t, b / PAGE_SIZE);
    WriteKeepsInv(s, i, a % PAGE_SIZE, data);
    TouchKeepsLookup(s.table, i, true, t, b / PAGE_SIZE);
    SamePage(a, b, |data|);
    if j >= 0 {
      PageIndex(b, i, j);
    }
  }

  lemma SamePage(a: int, b: int, n: nat)
    requires a % PAGE_SIZE + n <= PAGE_SIZE
    ensures a <= b < a + n <==>
      a / PAGE_SIZE == b / PAGE_SIZE && a % PAGE_SIZE <= b % PAGE_SIZE < a % PAGE_SIZE + n
  {}

  // ---------- a thread id that is used again ----------

  /** A thread id handed to a new thread with its own backing store.  Neither the destructor of
      the old thread nor the constructor of the new one touches the inverted table. */
  ghost function Reused(s: Snapshot, tid: int, store: seq<Byte>): Snapshot {
    s.(stores := s.stores[tid := store])
  }

  ghost predicate NoFrames(table: seq<Entry>, tid: int) {
    forall i :: 0 <= i < |table| ==> !(table[i].valid && table[i].tid == tid)
  }

  /** The new thread sees its own store, and nobody else sees a change. */
  ghost predicate Isolated(s: Snapshot, tid: int, store: seq<Byte>)
    requires Shaped(s)
  {
    var s' := Reused(s, tid, store);
    && Inv(s') && View(s')[tid] == store
    && forall t :: t in s.stores && t != tid ==> View(s')[t] == View(s)[t]
  }

  lemma StaleByte(s: Snapshot, tid: int, i: int) returns (store: seq<Byte>)
    requires Inv(s) && 0 <= i < NUM_PHYS_PAGES && s.table[i].valid && s.table[i].tid == tid
    ensures |store| == |s.stores[tid]| && !Isolated(s, tid, store)
  {
    var a := s.table[i].virtualPage * PAGE_SIZE;
    var b: Byte := if s.mem[i * PAGE_SIZE] == 0 then 1 else 0;
    store := s.stores[tid][a := b];
    LookupUnique(s.table, i, tid, s.table[i].virtualPage);
    var s' := Reused(s, tid, store);
    assert Shaped(s') && View(s')[tid][a] == s.mem[i * PAGE_SIZE] != store[a];
  }

  lemma FreshIsolated(s: Snapshot, tid: int, store: seq<Byte>)
    requires Inv(s) && NoFrames(s.table, tid) && |store| % PAGE_SIZE == 0
    ensures Isolated(s, tid, store)
  {
    var s' := Reused(s, tid, store);
    assert forall i :: 0 <= i < |s.table| && s.table[i].valid ==> s'.stores[s.table[i].tid] == s.stores[s.table[i].tid];
    assert Inv(s');
    assert forall vpn :: Lookup(s.table, tid, vpn) == -1;
    assert View(s')[tid] == store;
  }

  /** The new thread is sure to see its own store, whatever its size, if and only if no frame still
      carries its id: neither the destructor nor the constructor of a thread clears the frames. */
  lemma ReuseIsFresh(s: Snapshot, tid: int)
    requires Inv(s)
    ensures (forall store :: |store| % PAGE_SIZE == 0 ==> Isolated(s, tid, store)) <==> NoFrames(s.table, tid)
  {
    if !NoFrames(s.table, tid) {
      var i :| 0 <= i < |s.table| && s.table[i].valid && s.table[i].tid == tid;
      var store := StaleByte(s, tid, i);
      assert |store| % PAGE_SIZE == 0;
    } else {
      forall store | |store| % PAGE_SIZE == 0 ensures Isolated(s, tid, store) {
        FreshIsolated(s, tid, store);
      }
    }
  }

  // ---------- the value read or written ----------

  /** The 1, 2 or 4 bytes a store of `value` puts in memory. */
  function StoreBytes(value: int, size: int): (b: seq<Byte>)
    requires size in {1, 2, 4}
    ensures |b| == size
  {
    WordBytes(Unsigned(value))[..size]
  }

  /** The value of a load: a signed char, an unsigned short, or a word. */
  function LoadValue(b: seq<Byte>): (v: Int32)
    requires |b| in {1, 2, 4}
  {
    if |b| == 1 then (if b[0] < 128 then b[0] as int else b[0] as int - 256)
    else if |b| == 2 then b[0] as int + 256 * b[1] as int
    else Signed(BytesWord(b))
  }

  lemma LowHalf(x: int, h: int, low: int)
    requires x == 0x1_0000 * h + low && 0 <= low < 0x1_0000
    ensures x % 0x1_0000 == low
  {}

  /** The low bytes of a word are the value modulo 256 and 65536. */
  lemma LowBytes(value: Int32)
    ensures var w := Unsigned(value);
            && w % 0x100 == value % 0x100
            && w % 0x100 + 0x100 * (w / 0x100 % 0x100) == value % 0x1_0000
  {
    var w: int, q: int := Unsigned(value), Unsigned(value) / 0x100;
    var low := w % 0x100 + 0x100 * (q % 0x100);
    assert w == 0x1_0000 * (q / 0x100) + low;
    if value < 0 {
      assert w == value + WORD;
      LowHalf(value, q / 0x100 - 0x1_0000, low);
    } else {
      assert w == value;
      LowHalf(value, q / 0x100, low);
    }
  }

  /** Loading what was stored gives back the value, cut to the size of the access. */
  lemma LoadAfterStore(value: Int32, size: int)
    requires size in {1, 2, 4}
    ensures size == 1 ==> LoadValue(StoreBytes(value, size)) % 0x100 == value % 0x100
    ensures size == 2 ==> LoadValue(StoreBytes(value, size)) == value % 0x1_0000
    ensures size == 4 ==> LoadValue(StoreBytes(value, size)) == value
  {
    var b := WordBytes(Unsigned(value));
    LowBytes(value);
    if size == 4 {
      assert b[..4] == b;
      WordRoundTrip(Unsigned(value));
      SignedUnsigned(value);
    }
  }

  /** Byte number k of a two's complement number, the least significant first. */
  function ByteOf(value: int, k: nat): Byte
    decreases k
  {
    if k == 0 then (value % 0x100) as Byte else ByteOf(value / 0x100, k - 1)
  }

  lemma ByteCons(low: Byte, high: int, k: nat)
    ensures ByteOf(low as int + 0x100 * high, k) == if k == 0 then low else ByteOf(high, k - 1)
  {
    var v := low as int + 0x100 * high;
    assert v / 0x100 == high && v % 0x100 == low as int;
  }

  /** The bytes of a word are the four digits to the base 256. */
  lemma WordByte(b: seq<Byte>, k: nat)
    requires |b| == 4 && k < 4
    ensures ByteOf(BytesWord(b), k) == b[k]
  {
    var x3: int := b[3] as int;
    var x2 := b[2] as int + 0x100 * x3;
    var x1 := b[1] as int + 0x100 * x2;
    WordDigits(b, x1, x2, x3);
    ByteCons(b[0], x1, k);
    if k > 0 {
      ByteCons(b[1], x2, k - 1);
      if k > 1 {
        ByteCons(b[2], x3, k - 2);
        if k > 2 {
          ByteCons(b[3], 0, 0);
        }
      }
    }
  }

  lemma WordDigits(b: seq<Byte>, x1: int, x2: int, x3: int)
    requires |b| == 4 && x3 == b[3] as int && x2 == b[2] as int + 0x100 * x3 && x1 == b[1] as int + 0x100 * x2
    ensures BytesWord(b) == b[0] as int + 0x100 * x1
  {}

  lemma UnsignedSigned(w: Word)
    ensures Unsigned(Signed(w)) == w
  {}

  /** Adding 2 to the 32 does not change the lower four bytes. */
  lemma {:induction false} ByteWraps(value: int, k: nat)
    requires k < 4
    ensures ByteOf(value + 0x1_0000_0000, k) == ByteOf(value, k)
  {
    Carry(value, 0x100_0000);
    if k > 0 { Carry(value / 0x100, 0x1_0000); }
    if k > 1 { Carry(value / 0x100 / 0x100, 0x100); }
    if k > 2 { Carry(value / 0x100 / 0x100 / 0x100, 1); }
    ByteDeep(value, k);
    ByteDeep(value + 0x1_0000_0000, k);
  }

  lemma Carry(value: int, m: int)
    ensures (value + 0x100 * m) / 0x100 == value / 0x100 + m && (value + 0x100 * m) % 0x100 == value % 0x100
  {}

  lemma ByteDeep(v: int, k: nat)
    requires k < 4
    ensures ByteOf(v, k) as int == (if k == 0 then v else if k == 1 then v / 0x100 else if k == 2 then v / 0x100 / 0x100
                                    else v / 0x100 / 0x100 / 0x100) % 0x100
  {
    if k > 0 { assert ByteOf(v, k) == ByteOf(v / 0x100, k - 1); }
    if k > 1 { assert ByteOf(v, k) == ByteOf(v / 0x100 / 0x100, k - 2); }
    if k > 2 { assert ByteOf(v, k) == ByteOf(v / 0x100 / 0x100 / 0x100, k - 3); }
  }

  lemma ByteUnsigned(value: Int32, k: nat)
    requires k < 4
    ensures ByteOf(Unsigned(value), k) == ByteOf(value, k)
  {
    if value < 0 {
      ByteWraps(value, k);
      assert Unsigned(value) == value as int + 0x1_0000_0000;
    }
  }

  /** A store puts the bytes of the value in memory, the least significant at the lowest address. */
  lemma StoredByte(value: Int32, size: int, k: nat)
    requires size in {1, 2, 4} && k < size
    ensures StoreBytes(value, size)[k] == ByteOf(value, k)
  {
    var b := WordBytes(Unsigned(value));
    WordRoundTrip(Unsigned(value));
    WordByte(b, k);
    ByteUnsigned(value, k);
  }

  /** A load makes a number of the bytes, the least significant from the lowest address: a signed char,
      an unsigned short or a word. */
  lemma LoadedByte(b: seq<Byte>, k: nat)
    requires |b| in {1, 2, 4} && k < |b|
    ensures ByteOf(LoadValue(b), k) == b[k]
    ensures |b| == 1 ==> -0x80 <= LoadValue(b) < 0x80
    ensures |b| == 2 ==> 0 <= LoadValue(b) < 0x1_0000
  {
    if |b| == 4 {
      UnsignedSigned(BytesWord(b));
      ByteUnsigned(Signed(BytesWord(b)), k);
      WordByte(b, k);
    } else if |b| == 2 {
      ByteCons(b[0], b[1] as int, k);
    }
  }

  // ---------- the machine, updated in place ----------

  function VpnOf(address: int): nat {
    Unsigned(address) / PAGE_SIZE
  }

  predicate Aligned(address: int, size: int) {
    (size == 4 ==> address % 4 == 0) && (size == 2 ==> address % 2 == 0)
  }

  lemma AlignedWithinPage(w: int, q: int, r: int)
    requires w == PAGE_SIZE * q + r && 0 <= r < PAGE_SIZE
    ensures w % 4 == 0 ==> r + 4 <= PAGE_SIZE
    ensures w % 2 == 0 ==> r + 2 <= PAGE_SIZE
  {
    assert r == w - 4 * (32 * q) == w - 2 * (64 * q);
  }

  /** An aligned access does not cross a page boundary. */
  lemma OffsetFits(address: Int32, size: int)
    requires size in {1, 2, 4} && Aligned(address, size)
    ensures Unsigned(address) % PAGE_SIZE + size <= PAGE_SIZE
  {
    var w: int := Unsigned(address);
    assert w % 4 == address % 4 && w % 2 == address % 2 by {
      assert w == address || w == address + 4 * 0x4000_0000;
    }
    AlignedWithinPage(w, w / PAGE_SIZE, w % PAGE_SIZE);
  }

  /** Copy bytes one at a time between two arrays. */
  method CopyBytes(src: array<Byte>, from: int, dst: array<Byte>, at: int, n: nat)
    requires src != dst && 0 <= from && from + n <= src.Length && 0 <= at && at + n <= dst.Length
    modifies dst
    ensures dst[..] == SetRange(old(dst[..]), at, src[from..from + n])
  {
    for j := 0 to n
      invariant dst[..] == SetRange(old(dst[..]), at, src[from..from + j])
    {
      dst[at + j] := src[from + j];
    }
  }

  lemma PageInside(s: Snapshot, tid: int, w: nat, size: int)
    requires Shaped(s) && tid in s.stores && size >= 1 && w + size <= |s.stores[tid]|
    ensures InStore(s, tid, w / PAGE_SIZE)
  {
    var n := |s.stores[tid]| / PAGE_SIZE;
    assert |s.stores[tid]| == n * PAGE_SIZE && w / PAGE_SIZE < n;
  }

  /** An access changes what is in memory only by bringing its own page in. */
  ghost predicate PagesAfter(tid: int, addr: int, size: int, pages: set<(int, int)>, pages': set<(int, int)>) {
    if Aligned(addr, size) && (tid, VpnOf(addr)) !in pages then BroughtIn(pages, (tid, VpnOf(addr)), pages')
    else pages' == pages
  }

  class Machine {
    const mainMemory: array<Byte>
    const rtPageTable: array<Entry>
    /** Each live thread's backing store. */
    const disks: map<int, array<Byte>>
    var currentThread: int

    ghost predicate Separate() {
      && (forall t :: t in disks ==> disks[t] != mainMemory)
      && (forall t, u :: t in disks && u in disks && t != u ==> disks[t] != disks[u])
    }

    ghost function Snap(): Snapshot
      reads mainMemory, rtPageTable, disks.Values
    {
      Snapshot(mainMemory[..], rtPageTable[..], map t | t in disks :: disks[t][..])
    }

    /** The pages in memory. */
    ghost function Pages(): set<(int, int)>
      reads rtPageTable
    {
      Resident(rtPageTable[..])
    }

    ghost predicate Valid()
      reads this, mainMemory, rtPageTable, disks.Values
    {
      Separate() && Inv(Snap()) && currentThread in disks
    }

    /** Whether an access of the current thread falls inside its address space. */
    ghost predicate InRange(address: int, size: int)
      requires currentThread in disks
      reads this
    {
      Unsigned(address) + size <= disks[currentThread].Length
    }

    /** Fresh memory: no frame is valid, so every thread sees its backing store. */
    constructor (disks: map<int, array<Byte>>, currentThread: int)
      requires currentThread in disks
      requires forall t :: t in disks ==> disks[t].Length % PAGE_SIZE == 0
      requires forall t, u :: t in disks && u in disks && t != u ==> disks[t] != disks[u]
      ensures Valid() && this.disks == disks && this.currentThread == currentThread
      ensures fresh(mainMemory) && fresh(rtPageTable)
      ensures View(Snap()) == map t | t in disks :: disks[t][..]
    {
      this.disks := disks;
      this.currentThread := currentThread;
      mainMemory := new Byte[MEMORY_SIZE](_ => 0);
      var dirty: bool := *;           // the constructor leaves the dirty bit unset
      rtPageTable := new Entry[NUM_PHYS_PAGES](i => Entry(-1, i, false, false, false, dirty, -1));
      new;
      forall t | t in disks ensures View(Snap())[t] == disks[t][..] {
        assert forall vpn :: Lookup(rtPageTable[..], t, vpn) == -1;
      }
    }

    method Translate(virtAddr: Int32, size: int, writing: bool) returns (exc: Exception, physAddr: int)
      requires Valid() && size in {1, 2, 4}
      modifies rtPageTable
      ensures Valid() && View(Snap()) == old(View(Snap()))
      ensures exc == AddressErrorException <==> !Aligned(virtAddr, size)
      ensures exc == PageFaultException <==>
        Aligned(virtAddr, size) && (currentThread, VpnOf(virtAddr)) !in old(Pages())
      ensures exc in {NoException, AddressErrorException, PageFaultException} && Pages() == old(Pages())
      ensures exc != NoException ==> rtPageTable[..] == old(rtPageTable[..])
      ensures exc == NoException ==>
        var i := old(Lookup(Snap().table, currentThread, VpnOf(virtAddr)));
        && i >= 0 && rtPageTable[..] == Touched(old(rtPageTable[..]), i, writing)
        && Lookup(Snap().table, currentThread, VpnOf(virtAddr)) == i
        && physAddr == i * PAGE_SIZE + Unsigned(virtAddr) % PAGE_SIZE
        && physAddr + size <= (i + 1) * PAGE_SIZE
    {
      physAddr := -1;
      if (size == 4 && virtAddr % 4 != 0) || (size == 2 && virtAddr % 2 != 0) {
        return AddressErrorException, physAddr;
      }
      var vpn, offset := Unsigned(virtAddr) / PAGE_SIZE, Unsigned(virtAddr) % PAGE_SIZE;
      var found := -1;
      for i := 0 to NUM_PHYS_PAGES
        invariant found == -1
        invariant forall j :: 0 <= j < i ==> !Maps(rtPageTable[j], currentThread, vpn)
      {
        var e := rtPageTable[i];
        if e.valid && e.virtualPage == vpn && e.tid == currentThread {
          found := i;
          break;
        }
      }
      LookupResident(rtPageTable[..], currentThread, vpn);
      if found == -1 {
        return PageFaultException, physAddr;
      }
      LookupUnique(rtPageTable[..], found, currentThread, vpn);
      var entry := rtPageTable[found];
      if entry.readOnly && writing {
        return ReadOnlyException, physAddr;
      }
      var pageFrame := entry.physicalPage;
      if !(0 <= pageFrame < NUM_PHYS_PAGES) {
        return BusErrorException, physAddr;
      }
      ghost var s := Snap();
      rtPageTable[found] := entry.(use := true, dirty := entry.dirty || writing);
      assert rtPageTable[..] == Touched(s.table, found, writing);
      assert Snap() == s.(table := Touched(s.table, found, writing));
      TouchInvisible(s, found, writing);
      TouchKeepsResident(s.table, found, writing);
      TouchKeepsLookup(s.table, found, writing, currentThread, vpn);
      OffsetFits(virtAddr, size);
      physAddr := pageFrame * PAGE_SIZE + offset;
      exc := NoException;
    }

    /** A free frame among the first few, otherwise any frame at all. */
    method ChooseFrame(random: nat) returns (position: int)
      requires rtPageTable.Length == NUM_PHYS_PAGES
      ensures 0 <= position < NUM_PHYS_PAGES
      ensures (exists i :: 0 <= i < TLB_SIZE && !rtPageTable[i].valid) ==>
        position < TLB_SIZE && !rtPageTable[position].valid
        && forall i :: 0 <= i < position ==> rtPageTable[i].valid
    {
      position := -1;
      for i := 0 to TLB_SIZE
        invariant position == -1
        invariant forall j :: 0 <= j < i ==> rtPageTable[j].valid
      {
        if !rtPageTable[i].valid {
          return i;
        }
      }
      position := random % NUM_PHYS_PAGES;
    }

    method ReverseTableReplace(address: Int32, random: nat)
      requires Valid() && InStore(Snap(), currentThread, VpnOf(address))
      requires (currentThread, VpnOf(address)) !in Pages()
      modifies mainMemory, rtPageTable, disks.Values
      ensures Valid() && View(Snap()) == old(View(Snap()))
      ensures BroughtIn(old(Pages()), (currentThread, VpnOf(address)), Pages())
    {
      var vpn := Unsigned(address) / PAGE_SIZE;
      var position := ChooseFrame(random);
      ghost var s := Snap();
      LookupResident(s.table, currentThread, vpn);
      ReplaceInvisible(s, position, currentThread, vpn);
      WriteBack(position);
      BringIn(position, vpn);
      assert Snap() == Replaced(s, position, currentThread, vpn);
      EntryReplaced(s.table, position, Snap().table[position]);
    }

    /** The wanted page is copied into the frame, which now belongs to the current thread. */
    method BringIn(position: int, vpn: int)
      requires Separate() && Shaped(Snap()) && 0 <= position < NUM_PHYS_PAGES
      requires InStore(Snap(), currentThread, vpn)
      modifies mainMemory, rtPageTable
      ensures var s := old(Snap());
        Snap() == Snapshot(
          SetRange(s.mem, position * PAGE_SIZE, Page(s.stores[currentThread], vpn)),
          s.table[position := s.table[position].(virtualPage := vpn, valid := true, dirty := false, tid := currentThread)],
          s.stores)
    {
      ghost var s := Snap();
      var ppn := rtPageTable[position].physicalPage;
      CopyBytes(disks[currentThread], vpn * PAGE_SIZE, mainMemory, ppn * PAGE_SIZE, PAGE_SIZE);
      rtPageTable[position] :=
        rtPageTable[position].(virtualPage := vpn, valid := true, dirty := false, tid := currentThread);
      assert forall t :: t in disks ==> disks[t][..] == s.stores[t];
      assert Snap().stores == s.stores;
    }

    /** A dirty victim is copied to its owner's backing store. */
    method WriteBack(position: int)
      requires Separate() && Shaped(Snap()) && 0 <= position < NUM_PHYS_PAGES
      modifies disks.Values
      ensures Shaped(Snap())
      ensures Snap() == old(Snap()).(stores := WrittenBack(old(Snap()), position))
    {
      ghost var s := Snap();
      var e := rtPageTable[position];
      if e.valid && e.dirty {
        CopyBytes(mainMemory, e.physicalPage * PAGE_SIZE, disks[e.tid], e.virtualPage * PAGE_SIZE, PAGE_SIZE);
      }
      assert forall t :: t in disks && !(e.valid && e.dirty && t == e.tid) ==> disks[t][..] == s.stores[t];
      assert Snap().stores == WrittenBack(s, position);
    }

    /** An access inside the address space lies on a page of the backing store. */
    lemma PageInStore(address: Int32, size: int)
      requires Valid() && size >= 1 && InRange(address, size)
      ensures InStore(Snap(), currentThread, VpnOf(address))
    {
      assert |Snap().stores[currentThread]| == disks[currentThread].Length;
      PageInside(Snap(), currentThread, Unsigned(address), size);
    }

    /** The kernel's reaction to an exception: a page fault brings the page in; any other
        exception stops the simulation, so nothing changes. */
    method RaiseException(exc: Exception, badVAddr: Int32, random: nat)
      requires Valid()
      requires exc == PageFaultException ==>
        InStore(Snap(), currentThread, VpnOf(badVAddr)) && (currentThread, VpnOf(badVAddr)) !in Pages()
      modifies mainMemory, rtPageTable, disks.Values
      ensures Valid() && View(Snap()) == old(View(Snap()))
      ensures if exc == PageFaultException
              then BroughtIn(old(Pages()), (currentThread, VpnOf(badVAddr)), Pages())
              else Pages() == old(Pages())
    {
      if exc == PageFaultException {
        ReverseTableReplace(badVAddr, random);
      }
    }

    /** The bytes of a translated address are the bytes the thread sees. */
    method GetValue(addr: Int32, size: int, physicalAddress: int) returns (value: Int32)
      requires Valid() && size in {1, 2, 4} && InRange(addr, size) && Aligned(addr, size)
      requires Lookup(Snap().table, currentThread, VpnOf(addr)) >= 0
      requires physicalAddress ==
        Lookup(Snap().table, currentThread, VpnOf(addr)) * PAGE_SIZE + Unsigned(addr) % PAGE_SIZE
      ensures value == LoadValue(View(Snap())[currentThread][Unsigned(addr)..Unsigned(addr) + size])
    {
      OffsetFits(addr, size);
      ReadBytes(Snap(), currentThread, Unsigned(addr), size);
      value := LoadValue(mainMemory[physicalAddress..physicalAddress + size]);
    }

    /** An access that was not translated. */
    method Refuse(exc: Exception, addr: Int32, size: int, random: nat)
      requires Valid() && size in {1, 2, 4} && InRange(addr, size) && exc != NoException
      requires exc == PageFaultException <==> Aligned(addr, size) && (currentThread, VpnOf(addr)) !in Pages()
      requires exc != PageFaultException ==> !Aligned(addr, size)
      modifies mainMemory, rtPageTable, disks.Values
      ensures Valid() && View(Snap()) == old(View(Snap()))
      ensures PagesAfter(currentThread, addr, size, old(Pages()), Pages())
    {
      PageInStore(addr, size);
      RaiseException(exc, addr, random);
    }

    /** An aligned read succeeds exactly when its page is in memory, and then returns the bytes
        the thread sees; a fault brings the page in, so the read can be retried. */
    method ReadMem(addr: Int32, size: int, random: nat) returns (ok: bool, value: Int32)
      requires Valid() && size in {1, 2, 4} && InRange(addr, size)
      modifies mainMemory, rtPageTable, disks.Values
      ensures Valid() && View(Snap()) == old(View(Snap()))
      ensures ok <==> Aligned(addr, size) && (currentThread, VpnOf(addr)) in old(Pages())
      ensures ok ==>
        value == LoadValue(View(Snap())[currentThread][Unsigned(addr)..Unsigned(addr) + size])
      ensures PagesAfter(currentThread, addr, size, old(Pages()), Pages())
    {
      ghost var view := View(Snap());
      var exc, physicalAddress := Translate(addr, size, false);
      assert View(Snap()) == view;
      if exc != NoException {
        Refuse(exc, addr, size, random);
        return false, 0;
      }
      ok := true;
      value := GetValue(addr, size, physicalAddress);
    }

    method PutBytes(physicalAddress: int, data: seq<Byte>)
      requires 0 <= physicalAddress && physicalAddress + |data| <= mainMemory.Length
      modifies mainMemory
      ensures mainMemory[..] == SetRange(old(mainMemory[..]), physicalAddress, data)
    {
      for k := 0 to |data|
        invariant mainMemory[..] == SetRange(old(mainMemory[..]), physicalAddress, data[..k])
      {
        mainMemory[physicalAddress + k] := data[k];
      }
      assert data[..|data|] == data;
    }

    /** Bytes put at a translated address are put where the thread sees them; the frame is already
        marked dirty. */
    method SetBytes(addr: Int32, data: seq<Byte>, physicalAddress: int)
      requires Valid() && |data| in {1, 2, 4} && InRange(addr, |data|) && Aligned(addr, |data|)
      requires Lookup(Snap().table, currentThread, VpnOf(addr)) >= 0
      requires var i := Lookup(Snap().table, currentThread, VpnOf(addr));
        && Touched(Snap().table, i, true) == Snap().table
        && physicalAddress == i * PAGE_SIZE + Unsigned(addr) % PAGE_SIZE
      modifies mainMemory
      ensures Valid()
      ensures View(Snap()) == var v := old(View(Snap()));
        v[currentThread := SetRange(v[currentThread], Unsigned(addr), data)]
    {
      ghost var s := Snap();
      ghost var i := Lookup(s.table, currentThread, VpnOf(addr));
      OffsetFits(addr, |data|);
      PutBytes(physicalAddress, data);
      assert forall t :: t in disks ==> disks[t][..] == s.stores[t];
      assert Snap().stores == s.stores;
      assert Snap() == Written(s, i, Unsigned(addr) % PAGE_SIZE, data);
      WriteVisible(s, currentThread, Unsigned(addr), data);
    }

    /** An aligned write succeeds exactly when its page is in memory, and then changes exactly the
        addressed bytes of the current thread. */
    method WriteMem(addr: Int32, size: int, value: Int32, random: nat) returns (ok: bool)
      requires Valid() && size in {1, 2, 4} && InRange(addr, size)
      modifies mainMemory, rtPageTable, disks.Values
      ensures Valid()
      ensures ok <==> Aligned(addr, size) && (currentThread, VpnOf(addr)) in old(Pages())
      ensures View(Snap()) ==
        if ok then
          var v := old(View(Snap()));
          v[currentThread := SetRange(v[currentThread], Unsigned(addr), StoreBytes(value, size))]
        else old(View(Snap()))
      ensures PagesAfter(currentThread, addr, size, old(Pages()), Pages())
    {
      var exc, physicalAddress := Translate(addr, size, true);
      if exc != NoException {
        Refuse(exc, addr, size, random);
        return false;
      }
      SetBytes(addr, StoreBytes(value, size), physicalAddress);
      return true;
    }

    ghost function Abs(): Flat
      requires Valid()
      reads this, mainMemory, rtPageTable, disks.Values
    {
      Flat(currentThread, View(Snap()), Pages())
    }

    ghost function Sizes(): map<int, int> {
      map t | t in disks :: disks[t].Length
    }

    /** A read of a run is a read of flat memory. */
    method DoRead(op: Op) returns (out: Outcome)
      requires Valid() && op.Read? && Possible(Abs(), op)
      modifies mainMemory, rtPageTable, disks.Values
      ensures Valid() && Explained(old(Abs()), op, out, Abs())
    {
      var ok, value := ReadMem(op.addr, op.size, op.random);
      out := if ok then Got(value) else Refused;
    }

    method DoWrite(op: Op) returns (out: Outcome)
      requires Valid() && op.Write? && Possible(Abs(), op)
      modifies mainMemory, rtPageTable, disks.Values
      ensures Valid() && Explained(old(Abs()), op, out, Abs())
    {
      var ok := WriteMem(op.addr, op.size, op.value, op.random);
      out := if ok then Done else Refused;
    }

    /** One operation of a run refines one operation on flat memory. */
    method Step(op: Op) returns (out: Outcome)
      requires Valid() && Possible(Abs(), op)
      modifies this, mainMemory, rtPageTable, disks.Values
      ensures Valid() && Explained(old(Abs()), op, out, Abs())
    {
      match op
      case Switch(tid) =>
        assert tid in View(Snap()) && tid in disks;
        currentThread := tid;
        out := Done;
      case Read(_, _, _) => out := DoRead(op);
      case Write(_, _, _, _) => out := DoWrite(op);
    }

    method FirstStep(ops: seq<Op>) returns (out: Outcome)
      requires Valid() && ops != [] && Fit(Sizes(), currentThread, ops)
      modifies this, mainMemory, rtPageTable, disks.Values
      ensures Valid() && Fit(Sizes(), currentThread, ops[1..])
      ensures Explained(old(Abs()), ops[0], out, Abs())
    {
      FitNow(Sizes(), Abs(), ops);
      out := Step(ops[0]);
    }

    /** Every run, with any choice of victims, is a run of flat memory, refusals included. */
    method Run(ops: seq<Op>) returns (outs: seq<Outcome>, ghost states: seq<Flat>)
      requires Valid() && Fit(Sizes(), currentThread, ops)
      modifies this, mainMemory, rtPageTable, disks.Values
      ensures Valid() && ExplainedRun(states, ops, outs)
      ensures states[0] == old(Abs()) && states[|ops|] == Abs()
      decreases |ops|
    {
      if ops == [] {
        return [], [Abs()];
      }
      ghost var f := Abs();
      var out := FirstStep(ops);
      var rest;
      ghost var later;
      rest, later := Run(ops[1..]);
      outs, states := [out] + rest, [f] + later;
      PrependExplained(f, ops, out, rest, later);
    }
  }

  /** A resident page shows its frame's bytes. */
  lemma ReadBytes(s: Snapshot, tid: int, a: int, size: int)
    requires Inv(s) && tid in s.stores && 0 <= a && 0 <= size && a + size <= |s.stores[tid]|
    requires a % PAGE_SIZE + size <= PAGE_SIZE && Lookup(s.table, tid, a / PAGE_SIZE) >= 0
    ensures var p := Lookup(s.table, tid, a / PAGE_SIZE) * PAGE_SIZE + a % PAGE_SIZE;
            p + size <= |s.mem| && s.mem[p..p + size] == View(s)[tid][a..a + size]
  {
    var p := Lookup(s.table, tid, a / PAGE_SIZE) * PAGE_SIZE + a % PAGE_SIZE;
    forall b | a <= b < a + size ensures s.mem[p + b - a] == View(s)[tid][b] {
      SamePage(a, b, size);
    }
  }

  // ---------- runs, against a flat private memory per thread ----------

  datatype Op = Switch(tid: int)
              | Read(addr: Int32, size: int, random: nat)
              | Write(addr: Int32, size: int, value: Int32, random: nat)

  /** What an operation reports: a read or write that is refused leaves no trace. */
  datatype Outcome = Refused | Done | Got(value: int)

  /** What the threads see, and which of their pages an access finds in memory. */
  datatype Flat = Flat(current: int, image: map<int, seq<Byte>>, pages: set<(int, int)>)

  /** A switch goes to a live thread; an access stays inside the current thread's space. */
  predicate Possible(f: Flat, op: Op) {
    if op.Switch? then op.tid in f.image
    else f.current in f.image && op.size in {1, 2, 4} && Unsigned(op.addr) + op.size <= |f.image[f.current]|
  }

  /** The operation is an access that finds its page. */
  ghost predicate Hits(f: Flat, op: Op)
    requires !op.Switch?
  {
    Aligned(op.addr, op.size) && (f.current, VpnOf(op.addr)) in f.pages
  }

  /** An access is refused exactly when it is misaligned or its page is absent, and then the page
      is brought in; otherwise it reads or writes flat memory. */
  ghost predicate Explained(f: Flat, op: Op, out: Outcome, f': Flat) {
    && Possible(f, op)
    && if op.Switch? then out == Done && f' == f.(current := op.tid)
       else if !Hits(f, op) then
         && out == Refused && f' == f.(pages := f'.pages)
         && PagesAfter(f.current, op.addr, op.size, f.pages, f'.pages)
       else
         var a, bytes := Unsigned(op.addr), f.image[f.current];
         if op.Read? then out == Got(LoadValue(bytes[a..a + op.size])) && f' == f
         else out == Done && f' == f.(image := f.image[f.current := SetRange(bytes, a, StoreBytes(op.value, op.size))])
  }

  ghost predicate ExplainedRun(states: seq<Flat>, ops: seq<Op>, outs: seq<Outcome>) {
    && |outs| == |ops| && |states| == |ops| + 1
    && forall i :: 0 <= i < |ops| ==> Explained(states[i], ops[i], outs[i], states[i + 1])
  }

  lemma PrependExplained(f: Flat, ops: seq<Op>, out: Outcome, outs: seq<Outcome>, states: seq<Flat>)
    requires ops != [] && ExplainedRun(states, ops[1..], outs) && Explained(f, ops[0], out, states[0])
    ensures ExplainedRun([f] + states, ops, [out] + outs)
  {
    forall i | 0 <= i < |ops|
      ensures Explained(([f] + states)[i], ops[i], ([out] + outs)[i], ([f] + states)[i + 1])
    {
      if i > 0 {
        assert Explained(states[i - 1], ops[1..][i - 1], outs[i - 1], states[i]);
      }
    }
  }

  /** An access is refused exactly when a word does not start at a multiple of 4, a half word not at a
      multiple of 2, or the 128-byte page of its address is absent.  A missing page is brought in, and
      at most one page leaves for it. */
  lemma RefusedExactly(f: Flat, op: Op, out: Outcome, f': Flat)
    requires !op.Switch? && Explained(f, op, out, f')
    ensures var page := (f.current, op.addr % 0x1_0000_0000 / 128);
      && (out == Refused <==>
            (op.size == 4 && op.addr % 4 != 0) || (op.size == 2 && op.addr % 2 != 0) || page !in f.pages)
      && (f'.pages != f.pages ==> out == Refused && page in f'.pages - f.pages && |f.pages - f'.pages| <= 1)
  {
    var gone := f.pages - f'.pages;
    if gone != {} {
      var x :| x in gone;
      assert gone == {x};
    }
  }

  /** An aligned access that is repeated right after it was refused is not refused again. */
  lemma RetrySucceeds(f: Flat, op: Op, f': Flat, out: Outcome, f'': Flat)
    requires !op.Switch? && Aligned(op.addr, op.size)
    requires Explained(f, op, Refused, f') && Explained(f', op, out, f'')
    ensures out != Refused
  {}

  /** Every operation is possible where it is reached: the spaces' sizes never change, and only
      a switch changes the current thread. */
  ghost predicate Fit(sizes: map<int, int>, current: int, ops: seq<Op>)
    decreases |ops|
  {
    ops == [] ||
    if ops[0].Switch? then ops[0].tid in sizes && Fit(sizes, ops[0].tid, ops[1..])
    else
      && current in sizes && ops[0].size in {1, 2, 4} && Unsigned(ops[0].addr) + ops[0].size <= sizes[current]
      && Fit(sizes, current, ops[1..])
  }

  /** The first operation is possible now, and the others fit what follows it. */
  lemma FitNow(sizes: map<int, int>, f: Flat, ops: seq<Op>)
    requires ops != [] && Fit(sizes, f.current, ops)
    requires sizes == map t | t in f.image :: |f.image[t]|
    ensures Possible(f, ops[0])
    ensures Fit(sizes, if ops[0].Switch? then ops[0].tid else f.current, ops[1..])
  {}

  /** The byte that the last successful write of a run put at an address, if there was one. */
  ghost function LastWritten(states: seq<Flat>, ops: seq<Op>, outs: seq<Outcome>, tid: int, a: int): Option<Byte>
    requires ExplainedRun(states, ops, outs)
    decreases |ops|
  {
    if ops == [] then None
    else
      var n := |ops| - 1;
      var op := ops[n];
      assert Explained(states[n], op, outs[n], states[n + 1]);
      if && op.Write? && outs[n] == Done && states[n].current == tid
         && Unsigned(op.addr) <= a < Unsigned(op.addr) + op.size
      then Some(ByteOf(op.value, a - Unsigned(op.addr)))
      else LastWritten(states[..n + 1], ops[..n], outs[..n], tid, a)
  }

  /** Flat memory holds at every address the last byte that thread wrote there. */
  lemma {:induction false} FlatRunRemembers(states: seq<Flat>, ops: seq<Op>, outs: seq<Outcome>, tid: int, a: int)
    requires ExplainedRun(states, ops, outs) && tid in states[0].image && 0 <= a < |states[0].image[tid]|
    ensures var f, g := states[0], states[|ops|];
            && tid in g.image && |g.image[tid]| == |f.image[tid]|
            && g.image[tid][a] == LastWritten(states, ops, outs, tid, a).Or(f.image[tid][a])
    decreases |ops|
  {
    if ops != [] {
      var n := |ops| - 1;
      FlatRunRemembers(states[..n + 1], ops[..n], outs[..n], tid, a);
      assert Explained(states[n], ops[n], outs[n], states[n + 1]);
      if ops[n].Write? && 0 <= a - Unsigned(ops[n].addr) < ops[n].size {
        StoredByte(ops[n].value, ops[n].size, a - Unsigned(ops[n].addr));
      }
    }
  }

  /** An accepted load gives, byte by byte, what the thread last stored there by stores of any size, or
      the initial byte; a single byte is signed and two bytes are not. */
  lemma LoadsRemember(states: seq<Flat>, ops: seq<Op>, outs: seq<Outcome>, j: nat, k: nat)
    requires ExplainedRun(states, ops, outs) && j < |ops| && ops[j].Read? && outs[j].Got? && k < ops[j].size
    requires var f, tid := states[0], states[j].current;
      tid in f.image && Unsigned(ops[j].addr) + ops[j].size <= |f.image[tid]|
    ensures var tid, a := states[j].current, Unsigned(ops[j].addr) + k;
      && ExplainedRun(states[..j + 1], ops[..j], outs[..j])
      && ByteOf(outs[j].value, k) == LastWritten(states[..j + 1], ops[..j], outs[..j], tid, a).Or(states[0].image[tid][a])
    ensures ops[j].size == 1 ==> -0x80 <= outs[j].value < 0x80
    ensures ops[j].size == 2 ==> 0 <= outs[j].value < 0x1_0000
  {
    var tid, a := states[j].current, Unsigned(ops[j].addr);
    FlatRunRemembers(states[..j + 1], ops[..j], outs[..j], tid, a + k);
    assert Explained(states[j], ops[j], outs[j], states[j + 1]);
    var b := states[j].image[tid][a..a + ops[j].size];
    LoadedByte(b, k);
    assert b[k] == states[j].image[tid][a + k];
  }

  /** After a single read a frame carries the id of the reading thread, so a later thread with that
      id need not see its own store. */
  method StaleFrame(disks: map<int, array<Byte>>, tid: int) returns (machine: Machine)
    requires tid in disks && disks[tid].Length >= PAGE_SIZE
    requires forall t :: t in disks ==> disks[t].Length % PAGE_SIZE == 0
    requires forall t, u :: t in disks && u in disks && t != u ==> disks[t] != disks[u]
    modifies disks.Values
    ensures machine.Valid()
    ensures exists store :: |store| % PAGE_SIZE == 0 && !Isolated(machine.Snap(), tid, store)
  {
    machine := new Machine(disks, tid);
    var _, _ := machine.ReadMem(0, 1, 0);
    ghost var s := machine.Snap();
    LookupResident(s.table, tid, 0);
    assert s.table[Lookup(s.table, tid, 0)].valid;
    ReuseIsFresh(s, tid);
  }
}
