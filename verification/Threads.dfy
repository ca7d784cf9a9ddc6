/** Threads and the priority scheduler (threads/thread.cc, threads/scheduler.cc).

    The kernel is a state machine; each event below runs with interrupts disabled in the source,
    so it is atomic. */
module Threads {
  import opened Options
  import opened LinkedList

  const MAX_THREADS := 128

  /** A thread object is named by its address. */
  type Ptr = int

  datatype Status = JustCreated | Running | Ready | Blocked

  /** `started` says whether the thread has run before: a first run enters `ThreadRoot` and skips
      the code after SWITCH.  `finished` marks a thread that has called `Finish`. */
  datatype Tcb = Tcb(tid: int, status: Status, priority: int, started: bool, finished: bool)

  /** A place in the ready list, with the moment it was taken. */
  datatype Place = Place(ptr: Ptr, stamp: nat)

  datatype Kernel = Kernel(
    occupied: seq<bool>,              // ThreadIDOccupied
    pointers: seq<Option<Ptr>>,       // thread_poiners
    tcbs: map<Ptr, Tcb>,              // the live thread objects
    ready: seq<Item<Place>>,          // readyList
    queues: map<int, seq<Ptr>>,       // the queues of semaphores and conditions
    current: Ptr,
    asleep: bool,                     // the current thread is in Sleep, looking for a successor
    doomed: Option<Ptr>,              // threadToBeDestroyed
    clock: nat)

  // ---------- the invariant ----------

  /** Thread ids are unique and agree with the pointer table. */
  ghost predicate TablesAgree(k: Kernel) {
    && |k.occupied| == MAX_THREADS && |k.pointers| == MAX_THREADS
    && (forall i :: 0 <= i < MAX_THREADS ==> (k.occupied[i] <==> k.pointers[i].Some?))
    && (forall i :: 0 <= i < MAX_THREADS && k.pointers[i].Some? ==>
          k.pointers[i].value in k.tcbs && k.tcbs[k.pointers[i].value].tid == i)
    && (forall p :: p in k.tcbs ==>
          0 <= k.tcbs[p].tid < MAX_THREADS && k.pointers[k.tcbs[p].tid] == Some(p))
  }

  /** Lower key first; among equal keys, whoever came first. */
  ghost predicate Before(x: Item<Place>, y: Item<Place>) {
    x.key < y.key || (x.key == y.key && x.item.stamp < y.item.stamp)
  }

  ghost predicate Ordered(ready: seq<Item<Place>>) {
    forall i, j :: 0 <= i < j < |ready| ==> Before(ready[i], ready[j])
  }

  ghost predicate Once(ready: seq<Item<Place>>) {
    forall i, j :: 0 <= i < j < |ready| ==> ready[i].item.ptr != ready[j].item.ptr
  }

  ghost predicate OnReady(k: Kernel, p: Ptr) {
    exists x :: x in k.ready && x.item.ptr == p
  }

  /** The ready list holds exactly the READY threads, each once, in dispatch order. */
  ghost predicate ReadyOk(k: Kernel) {
    && Ordered(k.ready) && Once(k.ready)
    && (forall x :: x in k.ready ==>
          x.item.stamp < k.clock && x.item.ptr in k.tcbs && k.tcbs[x.item.ptr].status == Ready)
    && (forall p :: p in k.tcbs && k.tcbs[p].status == Ready ==> OnReady(k, p))
  }

  ghost predicate OnQueue(k: Kernel, p: Ptr) {
    exists q :: q in k.queues && p in k.queues[q]
  }

  /** Waiting threads are BLOCKED, each in one place of one queue; only a finished thread is
      BLOCKED without waiting for anything. */
  ghost predicate QueuesOk(k: Kernel) {
    && (forall q, p :: q in k.queues && p in k.queues[q] ==>
          p in k.tcbs && k.tcbs[p].status == Blocked && !k.tcbs[p].finished)
    && (forall q, r, p :: q in k.queues && r in k.queues && p in k.queues[q] && p in k.queues[r] ==> q == r)
    && (forall q, i, j :: q in k.queues && 0 <= i < j < |k.queues[q]| ==> k.queues[q][i] != k.queues[q][j])
    && (forall p :: p in k.tcbs && k.tcbs[p].status == Blocked && !k.tcbs[p].finished ==> OnQueue(k, p))
  }

  ghost predicate CurrentOk(k: Kernel) {
    && k.current in k.tcbs && k.tcbs[k.current].started
    && (forall p :: p in k.tcbs ==> (k.tcbs[p].status == Running <==> p == k.current && !k.asleep))
    && (k.asleep ==> k.tcbs[k.current].status in {Blocked, Ready})
    && (forall p :: p in k.tcbs && k.tcbs[p].finished ==> k.tcbs[p].status == Blocked)
    && (k.doomed.Some? ==> k.doomed.value in k.tcbs && k.tcbs[k.doomed.value].finished)
  }

  ghost predicate Inv(k: Kernel) {
    TablesAgree(k) && ReadyOk(k) && QueuesOk(k) && CurrentOk(k)
  }

  // ---------- the operations ----------

  /** `Scheduler::ReadyToRun`. */
  function MadeReady(k: Kernel, p: Ptr): Kernel
    requires p in k.tcbs
  {
    k.(tcbs := k.tcbs[p := k.tcbs[p].(status := Ready)],
       ready := Inserted(k.ready, Item(Place(p, k.clock), k.tcbs[p].priority)),
       clock := k.clock + 1)
  }

  /** The destructor of `threadToBeDestroyed`. */
  function Reclaimed(k: Kernel): Kernel
    requires TablesAgree(k)
    requires k.doomed.Some? ==> k.doomed.value in k.tcbs
  {
    if k.doomed.None? then k
    else
      var p := k.doomed.value;
      var t := k.tcbs[p].tid;
      k.(occupied := k.occupied[t := false], pointers := k.pointers[t := None],
         tcbs := k.tcbs - {p}, doomed := None)
  }

  /** `Scheduler::Run`: a thread that has run before comes back from SWITCH and destroys the
      carcass; a fresh one starts at the thread root. */
  function SwitchedTo(k: Kernel, p: Ptr): Kernel
    requires TablesAgree(k) && p in k.tcbs
    requires k.doomed.Some? ==> k.doomed.value in k.tcbs
  {
    var t := k.tcbs[p];
    var k' := k.(current := p, asleep := false, tcbs := k.tcbs[p := t.(status := Running, started := true)]);
    if t.started then Reclaimed(k') else k'
  }

  /** `Thread::Yield`. */
  function Yielded(k: Kernel): Kernel
    requires TablesAgree(k) && k.current in k.tcbs && (k.ready != [] ==> k.ready[0].item.ptr in k.tcbs)
    requires k.doomed.Some? ==> k.doomed.value in k.tcbs
  {
    if k.ready == [] then k
    else SwitchedTo(MadeReady(k.(ready := k.ready[1..]), k.current), k.ready[0].item.ptr)
  }

  /** Appending the current thread to a queue, and the first half of `Thread::Sleep`. */
  function Asleep(k: Kernel, q: int): Kernel
    requires k.current in k.tcbs
  {
    var waiting := if q in k.queues then k.queues[q] else [];
    k.(queues := k.queues[q := waiting + [k.current]], asleep := true,
       tcbs := k.tcbs[k.current := k.tcbs[k.current].(status := Blocked)])
  }

  datatype Event =
    | Create(ptr: Ptr, priority: int)
    | Fork(ptr: Ptr)
    | SetPriority(ptr: Ptr, priority: int)
    | Yield
    | SleepOn(queue: int)             // append to a queue, then Sleep
    | Finish
    | Wake(queue: int)                // remove from a queue, then ReadyToRun
    | Dispatch                        // Sleep has found a ready thread

  /** What the source demands of its callers. */
  predicate Allowed(k: Kernel, e: Event) {
    match e
    case Create(p, priority) => p !in k.tcbs && 0 <= priority < 256 && false in k.occupied
    case Fork(p) => p in k.tcbs && k.tcbs[p].status == JustCreated
    case SetPriority(p, _) => p in k.tcbs
    case Yield => !k.asleep
    case SleepOn(q) => !k.asleep
    case Finish => !k.asleep
    case Wake(q) => q in k.queues && k.queues[q] != []
    case Dispatch => k.asleep && k.ready != []
  }

  /** The lowest free thread id. */
  function FreeId(occupied: seq<bool>): (i: nat)
    requires false in occupied
    ensures i < |occupied| && !occupied[i] && forall j :: 0 <= j < i ==> occupied[j]
  {
    if !occupied[0] then 0 else 1 + FreeId(occupied[1..])
  }

  function Next(k: Kernel, e: Event): Kernel
    requires TablesAgree(k) && k.current in k.tcbs && Allowed(k, e)
    requires forall x :: x in k.ready ==> x.item.ptr in k.tcbs
    requires forall q, p :: q in k.queues && p in k.queues[q] ==> p in k.tcbs
    requires k.doomed.Some? ==> k.doomed.value in k.tcbs
  {
    match e
    case Create(p, priority) =>
      var t := FreeId(k.occupied);
      k.(occupied := k.occupied[t := true], pointers := k.pointers[t := Some(p)],
         tcbs := k.tcbs[p := Tcb(t, JustCreated, priority, false, false)])
    case Fork(p) => MadeReady(k, p)
    case SetPriority(p, priority) => k.(tcbs := k.tcbs[p := k.tcbs[p].(priority := priority)])
    case Yield => Yielded(k)
    case SleepOn(q) => Asleep(k, q)
    case Finish =>
      k.(doomed := Some(k.current), asleep := true,
         tcbs := k.tcbs[k.current := k.tcbs[k.current].(status := Blocked, finished := true)])
    case Wake(q) =>
      var p := k.queues[q][0];
      MadeReady(k.(queues := k.queues[q := k.queues[q][1..]]), p)
    case Dispatch =>
      SwitchedTo(k.(ready := k.ready[1..]), k.ready[0].item.ptr)
  }

  // ---------- every event keeps the invariant ----------

  lemma InsertedMembers(s: seq<Item<Place>>, x: Item<Place>)
    ensures forall y :: y in Inserted(s, x) <==> y in s || y == x
  {
    InsertedMultiset(s, x);
    assert forall y :: y in Inserted(s, x) <==> y in multiset(Inserted(s, x));
  }

  /** The newcomer carries the latest stamp, so it goes behind its equals. */
  lemma {:induction false} InsertedOrdered(s: seq<Item<Place>>, x: Item<Place>)
    requires Ordered(s) && forall y :: y in s ==> y.item.stamp < x.item.stamp
    ensures Ordered(Inserted(s, x))
  {
    var p := InsertedSplits(s, x);
    var r := Inserted(s, x);
    forall i, j | 0 <= i < j < |r| ensures Before(r[i], r[j]) {
      if j < p {
      } else if j == p {
        assert s[i] in s;
      } else {
        assert r[j] == s[j - 1];
        assert p < j - 1 ==> Before(s[p], s[j - 1]);
        if i > p { assert r[i] == s[i - 1]; }
      }
    }
  }

  lemma {:induction false} InsertedOnce(s: seq<Item<Place>>, x: Item<Place>)
    requires Once(s) && forall y :: y in s ==> y.item.ptr != x.item.ptr
    ensures Once(Inserted(s, x))
  {
    var p := InsertedSplits(s, x);
    var r := Inserted(s, x);
    forall i, j | 0 <= i < j < |r| ensures r[i].item.ptr != r[j].item.ptr {
      if i == p || j == p {
        assert r[if i == p then j else i] in s;
      }
    }
  }

  lemma MadeReadyOk(k: Kernel, p: Ptr)
    requires ReadyOk(k) && p in k.tcbs && k.tcbs[p].status != Ready
    ensures ReadyOk(MadeReady(k, p))
  {
    var x := Item(Place(p, k.clock), k.tcbs[p].priority);
    var k' := MadeReady(k, p);
    InsertedMembers(k.ready, x);
    InsertedOrdered(k.ready, x);
    InsertedOnce(k.ready, x);
    forall r | r in k'.tcbs && k'.tcbs[r].status == Ready ensures OnReady(k', r) {
      if r != p {
        assert OnReady(k, r);
        var y :| y in k.ready && y.item.ptr == r;
        assert y in k'.ready;
      } else {
        assert x in k'.ready;
      }
    }
  }

  /** Taking the head of the ready list and letting it run. */
  lemma HeadLeaves(k: Kernel)
    requires ReadyOk(k) && k.ready != []
    ensures var p := k.ready[0].item.ptr;
            p in k.tcbs && ReadyOk(k.(ready := k.ready[1..], tcbs := k.tcbs[p := k.tcbs[p].(status := Running)]))
  {
    var p := k.ready[0].item.ptr;
    assert k.ready[0] in k.ready;
    var k' := k.(ready := k.ready[1..], tcbs := k.tcbs[p := k.tcbs[p].(status := Running)]);
    forall r | r in k'.tcbs && k'.tcbs[r].status == Ready ensures OnReady(k', r) {
      assert OnReady(k, r);
      var y :| y in k.ready && y.item.ptr == r;
      assert y in k'.ready;
    }
    forall x | x in k'.ready ensures x in k.ready && x.item.ptr != p {
      var i :| 0 <= i < |k'.ready| && k'.ready[i] == x;
      assert k.ready[i + 1] == x;
    }
  }

  /** Only the statuses of the threads matter to the ready list, and only the statuses and the
      finished marks to the queues. */
  lemma StatusFrame(k: Kernel, k': Kernel)
    requires k'.ready == k.ready && k'.clock == k.clock && k'.queues == k.queues
    requires k'.tcbs.Keys == k.tcbs.Keys
    requires forall p :: p in k.tcbs ==>
      k'.tcbs[p].status == k.tcbs[p].status && k'.tcbs[p].finished == k.tcbs[p].finished
    ensures ReadyOk(k) ==> ReadyOk(k')
    ensures QueuesOk(k) ==> QueuesOk(k')
  {
    forall p ensures OnReady(k, p) == OnReady(k', p) && OnQueue(k, p) == OnQueue(k', p) {}
  }

  lemma TablesFrame(k: Kernel, k': Kernel)
    requires TablesAgree(k) && k'.occupied == k.occupied && k'.pointers == k.pointers
    requires k'.tcbs.Keys == k.tcbs.Keys && forall p :: p in k.tcbs ==> k'.tcbs[p].tid == k.tcbs[p].tid
    ensures TablesAgree(k')
  {
    assert forall p :: p in k'.tcbs <==> p in k.tcbs;
    forall i | 0 <= i < MAX_THREADS && k'.pointers[i].Some?
      ensures k'.pointers[i].value in k'.tcbs && k'.tcbs[k'.pointers[i].value].tid == i
    {
      var p := k.pointers[i].value;
      assert p in k.tcbs && k.tcbs[p].tid == i && k'.tcbs[p].tid == k.tcbs[p].tid;
    }
  }

  lemma ReclaimKeepsInv(k: Kernel)
    requires Inv(k) && !k.asleep
    ensures Inv(Reclaimed(k))
  {
    if k.doomed.Some? {
      var k' := Reclaimed(k);
      assert k'.tcbs.Keys == k.tcbs.Keys - {k.doomed.value};
      forall p | p in k'.tcbs ensures OnReady(k, p) == OnReady(k', p) && OnQueue(k, p) == OnQueue(k', p) {}
    }
  }

  /** Everything but the ready list is in order, and nobody runs: `p` may be switched to. */
  ghost predicate CanSwitch(k: Kernel, p: Ptr) {
    && TablesAgree(k) && QueuesOk(k)
    && p in k.tcbs && k.tcbs[p].status == Ready
    && ReadyOk(k.(tcbs := k.tcbs[p := k.tcbs[p].(status := Running)]))
    && (forall r :: r in k.tcbs ==> k.tcbs[r].status != Running)
    && (forall r :: r in k.tcbs && k.tcbs[r].finished ==> k.tcbs[r].status == Blocked)
    && (k.doomed.Some? ==> k.doomed.value in k.tcbs && k.tcbs[k.doomed.value].finished)
  }

  lemma SwitchKeepsInv(k: Kernel, p: Ptr)
    requires CanSwitch(k, p)
    ensures Inv(SwitchedTo(k, p))
  {
    var k1 := k.(tcbs := k.tcbs[p := k.tcbs[p].(status := Running)]);
    var k2 := k.(current := p, asleep := false, tcbs := k.tcbs[p := k.tcbs[p].(status := Running, started := true)]);
    QueuesFrame(k, k1);
    assert k1.tcbs.Keys == k2.tcbs.Keys == k.tcbs.Keys;
    StatusFrame(k1, k2);
    assert Inv(k2);
    ReclaimKeepsInv(k2);
  }

  lemma DispatchKeepsInv(k: Kernel)
    requires Inv(k) && Allowed(k, Dispatch)
    ensures Inv(Next(k, Dispatch))
  {
    HeadLeaves(k);
    var k' := k.(ready := k.ready[1..]);
    assert k.ready[0] in k.ready;
    QueuesFrame(k, k');
    SwitchKeepsInv(k', k.ready[0].item.ptr);
  }

  /** The head has left the ready list and the yielding thread has joined it. */
  lemma YieldReadyOk(k: Kernel)
    requires ReadyOk(k) && k.ready != [] && k.current in k.tcbs && k.tcbs[k.current].status == Running
    ensures var p := k.ready[0].item.ptr;
            var k2 := MadeReady(k.(ready := k.ready[1..]), k.current);
            && p in k.tcbs && p != k.current && k2.tcbs[p].status == Ready
            && ReadyOk(k2.(tcbs := k2.tcbs[p := k2.tcbs[p].(status := Running)]))
  {
    var p, c := k.ready[0].item.ptr, k.current;
    assert k.ready[0] in k.ready;
    HeadLeaves(k);
    var k1 := k.(ready := k.ready[1..], tcbs := k.tcbs[p := k.tcbs[p].(status := Running)]);
    MadeReadyOk(k1, c);
    var k2 := MadeReady(k.(ready := k.ready[1..]), c);
    assert MadeReady(k1, c) == k2.(tcbs := k2.tcbs[p := k2.tcbs[p].(status := Running)]);
  }

  lemma QueuesFrame(k: Kernel, k': Kernel)
    requires QueuesOk(k) && k'.queues == k.queues && k'.tcbs.Keys == k.tcbs.Keys
    requires forall p :: p in k.tcbs ==>
      && k'.tcbs[p].finished == k.tcbs[p].finished
      && (k'.tcbs[p].status == Blocked <==> k.tcbs[p].status == Blocked)
    ensures QueuesOk(k')
  {
    assert forall p :: p in k'.tcbs <==> p in k.tcbs;
    forall r ensures OnQueue(k, r) == OnQueue(k', r) {}
  }

  lemma YieldKeepsInv(k: Kernel)
    requires Inv(k) && Allowed(k, Yield)
    ensures Inv(Next(k, Yield))
  {
    if k.ready != [] {
      YieldReadyOk(k);
      var k2 := MadeReady(k.(ready := k.ready[1..]), k.current);
      QueuesFrame(k, k2);
      TablesFrame(k, k2);
      SwitchKeepsInv(k2, k.ready[0].item.ptr);
    }
  }

  lemma CreateKeepsInv(k: Kernel, p: Ptr, priority: int)
    requires Inv(k) && Allowed(k, Create(p, priority))
    ensures Inv(Next(k, Create(p, priority)))
  {
    var k' := Next(k, Create(p, priority));
    assert k'.tcbs.Keys == k.tcbs.Keys + {p};
    forall r ensures OnReady(k, r) == OnReady(k', r) && OnQueue(k, r) == OnQueue(k', r) {}
    assert ReadyOk(k') && QueuesOk(k');
  }

  lemma ForkKeepsInv(k: Kernel, p: Ptr)
    requires Inv(k) && Allowed(k, Fork(p))
    ensures Inv(Next(k, Fork(p)))
  {
    MadeReadyOk(k, p);
    var k' := Next(k, Fork(p));
    TablesFrame(k, k');
    QueuesFrame(k, k');
  }

  lemma SetPriorityKeepsInv(k: Kernel, p: Ptr, priority: int)
    requires Inv(k) && Allowed(k, SetPriority(p, priority))
    ensures Inv(Next(k, SetPriority(p, priority)))
  {
    var k' := Next(k, SetPriority(p, priority));
    assert k'.tcbs.Keys == k.tcbs.Keys;
    StatusFrame(k, k');
  }

  lemma EnqueueOk(k: Kernel, q: int)
    requires QueuesOk(k) && k.current in k.tcbs && k.tcbs[k.current].status == Running && !k.tcbs[k.current].finished
    ensures QueuesOk(Asleep(k, q))
  {
    var c, k' := k.current, Asleep(k, q);
    assert forall o :: o in k.queues ==> c !in k.queues[o];
    forall r | r in k'.tcbs && k'.tcbs[r].status == Blocked && !k'.tcbs[r].finished ensures OnQueue(k', r) {
      if r == c {
        assert c in k'.queues[q];
      } else {
        assert OnQueue(k, r);
        var o :| o in k.queues && r in k.queues[o];
        assert r in k'.queues[o];
      }
    }
  }

  lemma SleepKeepsInv(k: Kernel, q: int)
    requires Inv(k) && Allowed(k, SleepOn(q))
    ensures Inv(Next(k, SleepOn(q)))
  {
    var k' := Next(k, SleepOn(q));
    EnqueueOk(k, q);
    TablesFrame(k, k');
    forall r ensures OnReady(k, r) == OnReady(k', r) {}
  }

  lemma FinishKeepsInv(k: Kernel)
    requires Inv(k) && Allowed(k, Finish)
    ensures Inv(Next(k, Finish))
  {
    var k' := Next(k, Finish);
    assert k'.tcbs.Keys == k.tcbs.Keys;
    forall r ensures OnReady(k, r) == OnReady(k', r) && OnQueue(k, r) == OnQueue(k', r) {}
    assert forall o :: o in k.queues ==> k.current !in k.queues[o];
    assert ReadyOk(k') && QueuesOk(k');
  }

  /** The head of a queue leaves it and stops being BLOCKED. */
  lemma DequeueOk(k: Kernel, q: int, k': Kernel)
    requires QueuesOk(k) && q in k.queues && k.queues[q] != []
    requires k'.queues == k.queues[q := k.queues[q][1..]]
    requires var p := k.queues[q][0];
             p in k.tcbs && k'.tcbs == k.tcbs[p := k.tcbs[p].(status := Ready)]
    ensures QueuesOk(k')
  {
    var p := k.queues[q][0];
    assert forall o, r :: o in k'.queues && r in k'.queues[o] ==> r in k.queues[o];
    assert forall o :: o in k'.queues ==> p !in k'.queues[o];
    forall r | r in k'.tcbs && k'.tcbs[r].status == Blocked && !k'.tcbs[r].finished ensures OnQueue(k', r) {
      assert OnQueue(k, r);
      var o :| o in k.queues && r in k.queues[o];
      assert r in k'.queues[o];
    }
  }

  /** The ready list does not depend on the queues. */
  lemma ReadyFrame(k: Kernel, k': Kernel)
    requires ReadyOk(k) && k'.ready == k.ready && k'.clock == k.clock && k'.tcbs == k.tcbs
    ensures ReadyOk(k')
  {
    forall r ensures OnReady(k, r) == OnReady(k', r) {}
  }

  lemma WakeKeepsInv(k: Kernel, q: int)
    requires Inv(k) && Allowed(k, Wake(q))
    ensures Inv(Next(k, Wake(q)))
  {
    var p, k' := k.queues[q][0], Next(k, Wake(q));
    assert p in k.queues[q];
    MadeReadyOk(k, p);
    ReadyFrame(MadeReady(k, p), k');
    DequeueOk(k, q, k');
    TablesFrame(k, k');
  }

  lemma NextKeepsInv(k: Kernel, e: Event)
    requires Inv(k) && Allowed(k, e)
    ensures Inv(Next(k, e))
  {
    match e
    case Create(p, priority) => CreateKeepsInv(k, p, priority);
    case Fork(p) => ForkKeepsInv(k, p);
    case SetPriority(p, priority) => SetPriorityKeepsInv(k, p, priority);
    case Yield => YieldKeepsInv(k);
    case SleepOn(q) => SleepKeepsInv(k, q);
    case Finish => FinishKeepsInv(k);
    case Wake(q) => WakeKeepsInv(k, q);
    case Dispatch => DispatchKeepsInv(k);
  }

  // ---------- every run from the boot state ----------

  /** The kernel as it boots: the main thread runs on the stack it was given. */
  function Boot(main: Ptr, priority: int): Kernel {
    Kernel(seq(MAX_THREADS, i => i == 0), seq(MAX_THREADS, i => if i == 0 then Some(main) else None),
           map[main := Tcb(0, Running, priority, true, false)], [], map[], main, false, None, 0)
  }

  /** An event that is not allowed where it comes up is skipped. */
  function Step(k: Kernel, e: Event): (k': Kernel)
    requires Inv(k)
    ensures Inv(k')
  {
    if Allowed(k, e) then
      NextKeepsInv(k, e);
      Next(k, e)
    else k
  }

  function Run(k: Kernel, es: seq<Event>): (k': Kernel)
    requires Inv(k)
    ensures Inv(k')
    decreases |es|
  {
    if es == [] then k else Run(Step(k, es[0]), es[1..])
  }

  lemma BootOk(main: Ptr, priority: int)
    ensures Inv(Boot(main, priority))
  {}

  /** In every reachable state a thread is in at most one place: the ready list, or one spot of
      one queue. */
  lemma AtMostOneQueue(main: Ptr, priority: int, es: seq<Event>, p: Ptr)
    ensures Inv(Boot(main, priority))
    ensures var k := Run(Boot(main, priority), es);
            && !(OnReady(k, p) && OnQueue(k, p))
            && (forall q, r :: q in k.queues && r in k.queues && p in k.queues[q] && p in k.queues[r] ==> q == r)
            && (p == k.current && !k.asleep ==> !OnReady(k, p) && !OnQueue(k, p))
  {
    BootOk(main, priority);
    var k := Run(Boot(main, priority), es);
    assert OnQueue(k, p) ==> p in k.tcbs && k.tcbs[p].status == Blocked;
    assert OnReady(k, p) ==> p in k.tcbs && k.tcbs[p].status == Ready;
  }

  /** Whoever is dispatched had the smallest key on the ready list, and of those with that key
      had been there longest.  The key is the priority at insertion. */
  lemma DispatchPicksFirst(k: Kernel, e: Event, x: Item<Place>)
    requires Inv(k) && Allowed(k, e) && e in {Yield, Dispatch} && k.ready != []
    requires x in k.ready && x != k.ready[0]
    ensures var k' := Next(k, e);
            k'.current == k.ready[0].item.ptr && Before(k.ready[0], x)
  {
    var i :| 0 <= i < |k.ready| && k.ready[i] == x;
  }

  // ---------- thread ids that are given back, and thread ids that are not ----------

  /** The event hands the processor to a thread that has run before. */
  ghost predicate Resumes(k: Kernel, e: Event) {
    && e in {Yield, Dispatch} && Allowed(k, e) && k.ready != []
    && k.ready[0].item.ptr in k.tcbs && k.tcbs[k.ready[0].item.ptr].started
  }

  /** In the run, a thread that has run before gets the processor before another thread finishes. */
  ghost predicate ResumesFirst(k: Kernel, es: seq<Event>)
    requires Inv(k)
    decreases |es|
  {
    es != [] && (Resumes(k, es[0]) || (!Finishes(k, es[0]) && ResumesFirst(Step(k, es[0]), es[1..])))
  }

  predicate Finishes(k: Kernel, e: Event) { e.Finish? && Allowed(k, e) }

  /** Now or after some event of the run the thread object is gone. */
  ghost predicate GivenBack(k: Kernel, es: seq<Event>, p: Ptr)
    requires Inv(k)
    decreases |es|
  {
    p !in k.tcbs || (es != [] && GivenBack(Step(k, es[0]), es[1..], p))
  }

  /** A thread that has finished but is no longer the one marked for destruction. */
  ghost predicate Leaked(k: Kernel, p: Ptr) {
    p in k.tcbs && k.tcbs[p].finished && k.doomed != Some(p) && p != k.current
  }

  lemma LeakStays(k: Kernel, e: Event, p: Ptr)
    requires Inv(k) && Allowed(k, e) && Leaked(k, p)
    ensures Leaked(Next(k, e), p) && Next(k, e).tcbs[p].tid == k.tcbs[p].tid
  {
    if e in {Yield, Dispatch} && k.ready != [] {
      assert k.ready[0] in k.ready;
    }
  }

  /** A leaked thread keeps its id in every later state. */
  lemma {:induction false} LeakedForever(k: Kernel, es: seq<Event>, p: Ptr)
    requires Inv(k) && Leaked(k, p)
    ensures Leaked(Run(k, es), p) && Run(k, es).tcbs[p].tid == k.tcbs[p].tid
    decreases |es|
  {
    if es != [] {
      if Allowed(k, es[0]) {
        LeakStays(k, es[0], p);
      }
      LeakedForever(Step(k, es[0]), es[1..], p);
    }
  }

  /** A thread leaks as soon as another one finishes before a thread that has run before was
      dispatched: the mark for destruction is overwritten. */
  lemma SecondFinishLeaks(k: Kernel, p: Ptr)
    requires Inv(k) && Allowed(k, Finish) && k.doomed == Some(p)
    ensures Leaked(Next(k, Finish), p)
  {}

  /** One event, seen from a thread marked for destruction. */
  lemma MarkedStep(k: Kernel, e: Event, p: Ptr)
    requires Inv(k) && Allowed(k, e) && k.doomed == Some(p)
    ensures Resumes(k, e) ==> p !in Next(k, e).tcbs && !Next(k, e).occupied[k.tcbs[p].tid]
    ensures e.Finish? ==> Leaked(Next(k, e), p)
    ensures !Resumes(k, e) && !e.Finish? ==> Next(k, e).doomed == Some(p)
  {
    if e in {Yield, Dispatch} && k.ready != [] {
      assert k.ready[0] in k.ready;
    }
  }

  /** A leaked thread is never given back. */
  lemma {:induction false} LeakedNotGivenBack(k: Kernel, es: seq<Event>, p: Ptr)
    requires Inv(k) && Leaked(k, p)
    ensures !GivenBack(k, es, p)
    decreases |es|
  {
    if es != [] {
      if Allowed(k, es[0]) {
        LeakStays(k, es[0], p);
      }
      LeakedNotGivenBack(Step(k, es[0]), es[1..], p);
    }
  }

  /** In any run, a finished thread is deleted and its id given back if and only if a thread that
      has run before gets the processor before another thread finishes. */
  lemma {:induction false} FinishedIdReturns(k: Kernel, es: seq<Event>, p: Ptr)
    requires Inv(k) && k.doomed == Some(p)
    ensures GivenBack(k, es, p) <==> ResumesFirst(k, es)
    decreases |es|
  {
    if es != [] {
      var k' := Step(k, es[0]);
      if Allowed(k, es[0]) {
        MarkedStep(k, es[0], p);
      }
      if Finishes(k, es[0]) {
        LeakedNotGivenBack(k', es[1..], p);
      } else if !Resumes(k, es[0]) {
        FinishedIdReturns(k', es[1..], p);
      }
    }
  }

  /** The kernel after the main thread has created and forked thread 1, and after the main thread
      has finished and thread 1 has been dispatched for the first time. */
  function Forked(): Kernel {
    var k := Boot(0, 5);
    k.(occupied := k.occupied[1 := true], pointers := k.pointers[1 := Some(1)],
       tcbs := map[0 := Tcb(0, Running, 5, true, false), 1 := Tcb(1, Ready, 5, false, false)],
       ready := [Item(Place(1, 0), 5)], clock := 1)
  }

  function MainFinished(): Kernel {
    Forked().(tcbs := map[0 := Tcb(0, Blocked, 5, true, true), 1 := Tcb(1, Running, 5, true, false)],
              ready := [], doomed := Some(0), current := 1)
  }

  lemma RunTwo(k: Kernel, a: Event, b: Event, es: seq<Event>)
    requires Inv(k)
    ensures Run(k, [a, b] + es) == Run(Step(Step(k, a), b), es)
  {
    assert ([a, b] + es)[1..] == [b] + es && ([b] + es)[1..] == es;
    assert Run(k, [a, b] + es) == Run(Step(k, a), [b] + es);
  }

  lemma ReachCreated(k: Kernel)
    requires k == Boot(0, 5)
    ensures Inv(k) && Step(k, Create(1, 5)) == Forked().(ready := [], clock := 0,
      tcbs := map[0 := Tcb(0, Running, 5, true, false), 1 := Tcb(1, JustCreated, 5, false, false)])
  {
    BootOk(0, 5);
    assert !k.occupied[1];
    assert Next(k, Create(1, 5)).tcbs == k.tcbs[1 := Tcb(1, JustCreated, 5, false, false)];
  }

  lemma ReachForked()
    ensures Inv(Boot(0, 5)) && Step(Step(Boot(0, 5), Create(1, 5)), Fork(1)) == Forked()
  {
    ReachCreated(Boot(0, 5));
    var k := Step(Boot(0, 5), Create(1, 5));
    assert Next(k, Fork(1)).tcbs == Forked().tcbs;
  }

  lemma ReachMainFinished(k: Kernel)
    requires k == Forked() && Inv(k)
    ensures Step(Step(k, Finish), Dispatch) == MainFinished()
  {
    var k' := Next(k, Finish);
    assert k'.tcbs == map[0 := Tcb(0, Blocked, 5, true, true), 1 := k.tcbs[1]];
    assert k'.ready[1..] == [];
  }

  function Start(es: seq<Event>): seq<Event> { [Create(1, 5), Fork(1)] + ([Finish, Dispatch] + es) }

  lemma RunFour(k: Kernel, k': Kernel, k'': Kernel, es: seq<Event>)
    requires Inv(k) && Step(Step(k, Create(1, 5)), Fork(1)) == k' && Step(Step(k', Finish), Dispatch) == k''
    ensures Inv(k'') && Run(k, Start(es)) == Run(k'', es)
  {
    RunTwo(k, Create(1, 5), Fork(1), [Finish, Dispatch] + es);
    RunTwo(k', Finish, Dispatch, es);
  }

  /** The start of a run that ends in `MainFinished`. */
  lemma RunStart(es: seq<Event>)
    ensures Inv(Boot(0, 5)) && Inv(MainFinished()) && Run(Boot(0, 5), Start(es)) == Run(MainFinished(), es)
  {
    ReachForked();
    ReachMainFinished(Forked());
    RunFour(Boot(0, 5), Forked(), MainFinished(), es);
  }

  lemma LeakFrom(k: Kernel, es: seq<Event>)
    requires Inv(k) && Allowed(k, Finish) && k.doomed == Some(0)
    ensures Leaked(Run(k, [Finish] + es), 0)
  {
    SecondFinishLeaks(k, 0);
    assert ([Finish] + es)[1..] == es;
    LeakedForever(Step(k, Finish), es, 0);
  }

  /** Thread 1 finishes too: id 0 is lost for good. */
  lemma LeakHappens(es: seq<Event>)
    ensures Inv(Boot(0, 5)) && Leaked(Run(Boot(0, 5), Start([Finish] + es)), 0)
  {
    RunStart([Finish] + es);
    LeakFrom(MainFinished(), es);
  }

  lemma SleepAndWake(k: Kernel, q: int)
    requires Inv(k) && !k.asleep && k.ready == [] && q !in k.queues
    ensures var k' := Step(Step(k, SleepOn(q)), Wake(q));
      k'.doomed == k.doomed && Resumes(k', Dispatch)
  {
    var k1 := Step(k, SleepOn(q));
    assert k1.queues[q] == [k.current];
    assert Step(k1, Wake(q)).ready == [Item(Place(k.current, k.clock), k.tcbs[k.current].priority)];
  }

  lemma ReturnFrom(k: Kernel, p: Ptr, q: int)
    requires Inv(k) && !k.asleep && k.doomed == Some(p) && k.ready == [] && q !in k.queues
    ensures p !in Run(k, [SleepOn(q), Wake(q)] + [Dispatch]).tcbs
  {
    RunTwo(k, SleepOn(q), Wake(q), [Dispatch]);
    SleepAndWake(k, q);
    var k' := Step(Step(k, SleepOn(q)), Wake(q));
    MarkedStep(k', Dispatch, p);
    assert Run(k', [Dispatch]) == Run(Step(k', Dispatch), []);
  }

  /** Thread 1 sleeps and is dispatched again: id 0 is free although the thread dispatched right
      after the main thread finished had not run before. */
  lemma LateReturnHappens()
    ensures Inv(Boot(0, 5)) && 0 !in Run(Boot(0, 5), Start([SleepOn(7), Wake(7)] + [Dispatch])).tcbs
  {
    RunStart([SleepOn(7), Wake(7)] + [Dispatch]);
    ReturnFrom(MainFinished(), 0, 7);
  }

  // ---------- the kernel, updated in place ----------

  class Nachos {
    const occupied: array<bool>
    const pointers: array<Option<Ptr>>
    const readyList: List<Place>
    var tcbs: map<Ptr, Tcb>
    var queues: map<int, seq<Ptr>>
    var currentThread: Ptr
    var asleep: bool
    var threadToBeDestroyed: Option<Ptr>
    var clock: nat

    /** The kernel that the fields, the arrays and the nodes of the ready list stand for. */
    ghost function State(): Kernel
      reads this, occupied, pointers, readyList
    {
      Kernel(occupied[..], pointers[..], tcbs, readyList.Contents(), queues, currentThread, asleep,
             threadToBeDestroyed, clock)
    }

    ghost predicate Valid()
      reads this, occupied, pointers, readyList, readyList.Repr
    {
      readyList.Valid() && Inv(State())
    }

    constructor (main: Ptr, priority: int)
      ensures Valid() && State() == Boot(main, priority)
      ensures fresh(occupied) && fresh(pointers) && fresh(readyList) && readyList.Repr == {}
    {
      occupied := new bool[MAX_THREADS](i => i == 0);
      pointers := new Option<Ptr>[MAX_THREADS](i => if i == 0 then Some(main) else None);
      readyList := new List<Place>();
      tcbs := map[main := Tcb(0, Running, priority, true, false)];
      queues, currentThread, asleep, threadToBeDestroyed, clock := map[], main, false, None, 0;
      new;
      assert State() == Boot(main, priority);
      BootOk(main, priority);
    }

    /** The search of `Thread::Thread` for a free id. */
    method ClaimId(p: Ptr) returns (tid: int)
      requires occupied.Length == MAX_THREADS == pointers.Length
      modifies occupied, pointers
      ensures tid == -1 <==> false !in old(occupied[..])
      ensures if tid == -1 then occupied[..] == old(occupied[..]) && pointers[..] == old(pointers[..])
              else && tid == FreeId(old(occupied[..])) && occupied[..] == old(occupied[..])[tid := true]
                   && pointers[..] == old(pointers[..])[tid := Some(p)]
    {
      for i := 0 to MAX_THREADS
        invariant forall j :: 0 <= j < i ==> occupied[j]
        invariant occupied[..] == old(occupied[..]) && pointers[..] == old(pointers[..])
      {
        if !occupied[i] {
          assert old(occupied[..])[i] == false;
          occupied[i] := true;
          pointers[i] := Some(p);
          return i;
        }
      }
      tid := -1;
    }

    /** `Thread::Thread`: fails, as the assertion does, exactly when every id is taken. */
    method NewThread(p: Ptr, priority: int) returns (granted: bool)
      requires Valid() && p !in tcbs && 0 <= priority < 256
      modifies this, occupied, pointers
      ensures Valid() && granted == (false in old(occupied[..]))
      ensures State() == Step(old(State()), Create(p, priority))
    {
      ghost var k := State();
      var tid := ClaimId(p);
      granted := tid != -1;
      if granted {
        NextKeepsInv(k, Create(p, priority));
        tcbs := tcbs[p := Tcb(tid, JustCreated, priority, false, false)];
        assert State() == Next(k, Create(p, priority));
      } else {
        assert State() == k;
      }
    }

    method ReadyToRun(p: Ptr)
      requires readyList.Valid() && p in tcbs
      modifies this, readyList, readyList.Repr
      ensures readyList.Valid() && State() == MadeReady(old(State()), p)
      ensures fresh(readyList.Repr - old(readyList.Repr))
    {
      tcbs := tcbs[p := tcbs[p].(status := Ready)];
      readyList.SortedInsert(Place(p, clock), tcbs[p].priority);
      clock := clock + 1;
    }

    method FindNextToRun() returns (next: Option<Ptr>)
      requires readyList.Valid()
      modifies readyList
      ensures readyList.Valid() && (next == None <==> old(readyList.nodes) == [])
      ensures readyList.Repr == old(readyList.Repr)
      ensures next.Some? ==> next.value == old(readyList.nodes)[0].item.ptr
      ensures State() == if next.None? then old(State()) else old(State()).(ready := old(State()).ready[1..])
    {
      var r := readyList.SortedRemove();
      next := if r.Some? then Some(r.value.item.ptr) else None;
    }

    method SwitchTo(next: Ptr)
      requires TablesAgree(State()) && next in tcbs
      requires threadToBeDestroyed.Some? ==> threadToBeDestroyed.value in tcbs
      modifies this, occupied, pointers
      ensures State() == SwitchedTo(old(State()), next)
    {
      var started := tcbs[next].started;
      currentThread := next;
      asleep := false;
      tcbs := tcbs[next := tcbs[next].(status := Running, started := true)];
      if started && threadToBeDestroyed.Some? {
        var p := threadToBeDestroyed.value;
        occupied[tcbs[p].tid] := false;
        pointers[tcbs[p].tid] := None;
        tcbs := tcbs - {p};
        threadToBeDestroyed := None;
      }
    }

    method DoFork(p: Ptr)
      requires Valid() && Allowed(State(), Fork(p))
      modifies this, readyList, readyList.Repr
      ensures Valid() && fresh(readyList.Repr - old(readyList.Repr)) && State() == Step(old(State()), Fork(p))
    {
      NextKeepsInv(State(), Fork(p));
      ReadyToRun(p);
    }

    method DoSetPriority(p: Ptr, priority: int)
      requires Valid() && p in tcbs
      modifies this
      ensures Valid() && fresh(readyList.Repr - old(readyList.Repr)) && State() == Step(old(State()), SetPriority(p, priority))
    {
      NextKeepsInv(State(), SetPriority(p, priority));
      tcbs := tcbs[p := tcbs[p].(priority := priority)];
    }

    /** Take the first of the ready list and put the running thread on it. */
    method Rotate() returns (next: Option<Ptr>)
      requires readyList.Valid() && currentThread in tcbs
      modifies this, readyList, readyList.Repr
      ensures readyList.Valid() && fresh(readyList.Repr - old(readyList.Repr))
      ensures next == None <==> old(readyList.nodes) == []
      ensures next.Some? ==> next.value == old(readyList.nodes)[0].item.ptr
      ensures State() == var k := old(State());
        if next.None? then k else MadeReady(k.(ready := k.ready[1..]), k.current)
    {
      next := FindNextToRun();
      if next.Some? {
        ReadyToRun(currentThread);
      }
    }

    method DoYield()
      requires Valid() && !asleep
      modifies this, occupied, pointers, readyList, readyList.Repr
      ensures Valid() && fresh(readyList.Repr - old(readyList.Repr)) && State() == Step(old(State()), Yield)
    {
      ghost var k := State();
      HeadIsLive(k);
      NextKeepsInv(k, Yield);
      YieldBody();
    }

    method YieldBody()
      requires readyList.Valid() && CanNext(State())
      modifies this, occupied, pointers, readyList, readyList.Repr
      ensures readyList.Valid() && fresh(readyList.Repr - old(readyList.Repr))
      ensures State() == Yielded(old(State()))
    {
      ghost var k := State();
      var next := Rotate();
      if next.Some? {
        TablesFrame(k, State());
        SwitchTo(next.value);
      }
    }

    method DoSleep(queue: int)
      requires Valid() && !asleep
      modifies this
      ensures Valid() && fresh(readyList.Repr - old(readyList.Repr)) && State() == Step(old(State()), SleepOn(queue))
    {
      ghost var k := State();
      NextKeepsInv(k, SleepOn(queue));
      SleepBody(queue);
    }

    method SleepBody(queue: int)
      requires currentThread in tcbs
      modifies this
      ensures State() == Asleep(old(State()), queue)
    {
      queues := queues[queue := (if queue in queues then queues[queue] else []) + [currentThread]];
      tcbs := tcbs[currentThread := tcbs[currentThread].(status := Blocked)];
      asleep := true;
    }

    method DoFinish()
      requires Valid() && !asleep
      modifies this
      ensures Valid() && fresh(readyList.Repr - old(readyList.Repr)) && State() == Step(old(State()), Finish)
    {
      NextKeepsInv(State(), Finish);
      threadToBeDestroyed := Some(currentThread);
      tcbs := tcbs[currentThread := tcbs[currentThread].(status := Blocked, finished := true)];
      asleep := true;
    }

    method DoWake(queue: int)
      requires Valid() && queue in queues && queues[queue] != []
      modifies this, readyList, readyList.Repr
      ensures Valid() && fresh(readyList.Repr - old(readyList.Repr)) && State() == Step(old(State()), Wake(queue))
    {
      ghost var k := State();
      assert k.queues[queue][0] in k.queues[queue];
      NextKeepsInv(k, Wake(queue));
      WakeBody(queue);
    }

    method WakeBody(queue: int)
      requires readyList.Valid() && queue in queues && queues[queue] != [] && queues[queue][0] in tcbs
      modifies this, readyList, readyList.Repr
      ensures readyList.Valid() && fresh(readyList.Repr - old(readyList.Repr))
      ensures State() == var k := old(State());
        MadeReady(k.(queues := k.queues[queue := k.queues[queue][1..]]), k.queues[queue][0])
    {
      var p := queues[queue][0];
      queues := queues[queue := queues[queue][1..]];
      ReadyToRun(p);
    }

    /** The search of `Thread::Sleep` finds a thread: the one in the first node, which comes before
        all others. */
    method DoDispatch()
      requires Valid() && asleep && readyList.nodes != []
      modifies this, occupied, pointers, readyList
      ensures Valid() && fresh(readyList.Repr - old(readyList.Repr)) && State() == Step(old(State()), Dispatch)
      ensures currentThread == old(readyList.nodes[0].item.ptr)
      ensures forall i :: 0 < i < |old(readyList.nodes)| ==>
        Before(old(readyList.nodes)[0].Value(), old(readyList.nodes)[i].Value())
    {
      ghost var k := State();
      NodesOrdered(readyList.nodes, k);
      HeadIsLive(k);
      NextKeepsInv(k, Dispatch);
      DispatchBody();
    }

    method DispatchBody()
      requires readyList.Valid() && readyList.nodes != [] && CanNext(State())
      modifies this, occupied, pointers, readyList
      ensures readyList.Valid() && fresh(readyList.Repr - old(readyList.Repr)) && currentThread == old(readyList.nodes[0].item.ptr)
      ensures State() == var k := old(State()); SwitchedTo(k.(ready := k.ready[1..]), k.ready[0].item.ptr)
    {
      var next := FindNextToRun();
      SwitchTo(next.value);
    }

    method IsAllowed(e: Event) returns (allowed: bool)
      requires readyList.Valid()
      ensures allowed == Allowed(State(), e)
    {
      var ready := readyList.IsEmpty();
      match e
      case Create(p, priority) => allowed := p !in tcbs && 0 <= priority < 256 && false in occupied[..];
      case Fork(p) => allowed := p in tcbs && tcbs[p].status == JustCreated;
      case SetPriority(p, _) => allowed := p in tcbs;
      case Yield => allowed := !asleep;
      case SleepOn(_) => allowed := !asleep;
      case Finish => allowed := !asleep;
      case Wake(queue) => allowed := queue in queues && queues[queue] != [];
      case Dispatch => allowed := asleep && !ready;
    }

    method DoNow(e: Event)
      requires Valid() && Allowed(State(), e)
      modifies this, occupied, pointers, readyList, readyList.Repr
      ensures Valid() && fresh(readyList.Repr - old(readyList.Repr)) && State() == Step(old(State()), e)
    {
      match e
      case Create(p, priority) => var _ := NewThread(p, priority);
      case Fork(p) => DoFork(p);
      case SetPriority(p, priority) => DoSetPriority(p, priority);
      case Yield => DoYield();
      case SleepOn(queue) => DoSleep(queue);
      case Finish => DoFinish();
      case Wake(queue) => DoWake(queue);
      case Dispatch => DoDispatch();
    }

    method Do(e: Event)
      requires Valid()
      modifies this, occupied, pointers, readyList, readyList.Repr
      ensures Valid() && fresh(readyList.Repr - old(readyList.Repr)) && State() == Step(old(State()), e)
    {
      var allowed := IsAllowed(e);
      if allowed {
        DoNow(e);
      }
    }

    /** Every run on the linked list and the arrays is a run of the kernel. */
    method DoAll(es: seq<Event>)
      requires Valid()
      modifies this, occupied, pointers, readyList, readyList.Repr
      ensures Valid() && fresh(readyList.Repr - old(readyList.Repr)) && State() == Run(old(State()), es)
      decreases |es|
    {
      if es != [] {
        ghost var k := State();
        Do(es[0]);
        DoAll(es[1..]);
        assert Run(k, es) == Run(Step(k, es[0]), es[1..]);
      }
    }
  }

  /** What a change of threads needs of the kernel. */
  ghost predicate CanNext(k: Kernel) {
    && TablesAgree(k) && k.current in k.tcbs && (k.ready != [] ==> k.ready[0].item.ptr in k.tcbs)
    && (k.doomed.Some? ==> k.doomed.value in k.tcbs)
  }

  lemma NodesOrdered(nodes: seq<ListElement<Place>>, k: Kernel)
    requires Inv(k) && |k.ready| == |nodes| && forall i :: 0 <= i < |nodes| ==> k.ready[i] == nodes[i].Value()
    ensures forall i :: 0 < i < |nodes| ==> Before(nodes[0].Value(), nodes[i].Value())
  {}

  lemma HeadIsLive(k: Kernel)
    requires Inv(k)
    ensures CanNext(k)
  {
    assert k.ready != [] ==> k.ready[0] in k.ready;
  }
}
