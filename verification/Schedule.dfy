/** Who gets the processor, and who is woken, over every run of the kernel (threads/scheduler.cc,
    threads/thread.cc): told from the threads' statuses and from when and how they came into them,
    without the lists. */
module Scheduling {
  import opened LinkedList
  import opened Threads

  /** When a thread came into its present status, its priority then, and by which event. */
  datatype Since = Since(when: nat, priority: int, event: Event)

  type Times = map<Ptr, Since>

  /** Event number n has taken the kernel from k to k'. */
  ghost function Noted(k: Kernel, k': Kernel, h: Times, n: nat, e: Event): Times {
    map p | p in k'.tcbs ::
      if p in k.tcbs && p in h && k.tcbs[p].status == k'.tcbs[p].status then h[p] else Since(n, k'.tcbs[p].priority, e)
  }

  ghost function History(k: Kernel, h: Times, n: nat, es: seq<Event>): Times
    requires Inv(k)
    decreases |es|
  {
    if es == [] then h
    else
      var k' := Step(k, es[0]);
      History(k', Noted(k, k', h, n, es[0]), n + 1, es[1..])
  }

  // ---------- the lists agree with the history ----------

  ghost predicate Told(x: Item<Place>, h: Times, n: nat) {
    x.item.ptr in h && h[x.item.ptr].priority == x.key && h[x.item.ptr].when < n
  }

  /** The keys on the ready list are the priorities at arrival, the stamps follow the arrivals. */
  ghost predicate ReadyTold(k: Kernel, h: Times, n: nat) {
    && (forall x :: x in k.ready ==> Told(x, h, n))
    && (forall x, y :: x in k.ready && y in k.ready && x.item.stamp < y.item.stamp ==>
          h[x.item.ptr].when < h[y.item.ptr].when)
  }

  ghost predicate QueueTold(queue: seq<Ptr>, q: int, h: Times, n: nat) {
    && (forall i :: 0 <= i < |queue| ==> queue[i] in h && h[queue[i]].event == SleepOn(q) && h[queue[i]].when < n)
    && (forall i, j :: 0 <= i < j < |queue| ==> h[queue[i]].when < h[queue[j]].when)
  }

  ghost predicate QueuesTold(k: Kernel, h: Times, n: nat) {
    forall q :: q in k.queues ==> QueueTold(k.queues[q], q, h, n)
  }

  /** An entry that the event has put on the ready list. */
  ghost predicate Entry(k: Kernel, k': Kernel, x: Item<Place>) {
    && x.item.stamp == k.clock && (x.item.ptr in k.tcbs ==> k.tcbs[x.item.ptr].status != Ready)
    && x.item.ptr in k'.tcbs && x.key == k'.tcbs[x.item.ptr].priority
  }

  ghost predicate OnlyEntries(k: Kernel, k': Kernel) {
    forall x :: x in k'.ready ==> x in k.ready || Entry(k, k', x)
  }

  /** Becoming ready puts one entry on the list, with the thread's priority, and moves no other. */
  lemma MadeReadyEntry(k: Kernel, p: Ptr)
    requires p in k.tcbs
    ensures multiset(MadeReady(k, p).ready) ==
      multiset(k.ready) + multiset{Item(Place(p, k.clock), k.tcbs[p].priority)}
    ensures forall x :: x in MadeReady(k, p).ready <==> x in k.ready || x == Item(Place(p, k.clock), k.tcbs[p].priority)
  {
    InsertedMultiset(k.ready, Item(Place(p, k.clock), k.tcbs[p].priority));
    InsertedMembers(k.ready, Item(Place(p, k.clock), k.tcbs[p].priority));
  }

  lemma RestMembers(s: seq<Item<Place>>)
    requires s != []
    ensures forall x :: x in s[1..] ==> x in s
  {}

  lemma YieldEntries(k: Kernel)
    requires Inv(k) && Allowed(k, Yield)
    ensures OnlyEntries(k, Next(k, Yield))
  {
    if k.ready != [] {
      assert k.ready[0] in k.ready;
      RestMembers(k.ready);
      MadeReadyEntry(k.(ready := k.ready[1..]), k.current);
    }
  }

  lemma EventEntries(k: Kernel, e: Event)
    requires Inv(k) && Allowed(k, e)
    ensures OnlyEntries(k, Next(k, e))
  {
    if e.Yield? {
      YieldEntries(k);
    } else if e.Fork? {
      MadeReadyEntry(k, e.ptr);
    } else if e.Wake? {
      assert k.queues[e.queue][0] in k.queues[e.queue];
      MadeReadyEntry(k.(queues := k.queues[e.queue := k.queues[e.queue][1..]]), k.queues[e.queue][0]);
    } else if e.Dispatch? {
      RestMembers(k.ready);
    }
  }

  lemma EntryTold(k: Kernel, k': Kernel, h: Times, n: nat, e: Event, x: Item<Place>)
    requires Inv(k) && Inv(k') && ReadyTold(k, h, n) && OnlyEntries(k, k') && x in k'.ready
    ensures Told(x, Noted(k, k', h, n, e), n + 1)
    ensures x in k.ready ==> Noted(k, k', h, n, e)[x.item.ptr] == h[x.item.ptr]
    ensures x !in k.ready ==> Noted(k, k', h, n, e)[x.item.ptr].when == n && x.item.stamp == k.clock
  {}

  lemma ReadyStep(k: Kernel, k': Kernel, h: Times, n: nat, e: Event)
    requires Inv(k) && Inv(k') && ReadyTold(k, h, n) && OnlyEntries(k, k')
    ensures ReadyTold(k', Noted(k, k', h, n, e), n + 1)
  {
    var h' := Noted(k, k', h, n, e);
    forall x | x in k'.ready ensures Told(x, h', n + 1) {
      EntryTold(k, k', h, n, e, x);
    }
    forall x, y | x in k'.ready && y in k'.ready && x.item.stamp < y.item.stamp
      ensures h'[x.item.ptr].when < h'[y.item.ptr].when
    {
      EntryTold(k, k', h, n, e, x);
      EntryTold(k, k', h, n, e, y);
    }
  }

  /** A queue is what it was, or has lost its head, or the current thread has gone behind it. */
  ghost predicate OneQueue(k: Kernel, k': Kernel, e: Event, q: int) {
    && q in k'.queues
    && (|| (q in k.queues && k'.queues[q] == k.queues[q])
        || (q in k.queues && k.queues[q] != [] && k'.queues[q] == k.queues[q][1..])
        || (&& e == SleepOn(q) && k.current in k.tcbs && k.tcbs[k.current].status == Running
            && k'.queues[q] == (if q in k.queues then k.queues[q] else []) + [k.current]))
  }

  lemma EventQueue(k: Kernel, e: Event, q: int)
    requires Inv(k) && Allowed(k, e) && q in Next(k, e).queues
    ensures OneQueue(k, Next(k, e), e, q)
  {}

  /** Waiting on in a queue leaves the time as it is. */
  lemma WaiterKept(k: Kernel, k': Kernel, h: Times, n: nat, e: Event, q: int, p: Ptr)
    requires Inv(k) && Inv(k') && q in k.queues && q in k'.queues && p in k.queues[q] && p in k'.queues[q]
    ensures p in Noted(k, k', h, n, e) && (p in h ==> Noted(k, k', h, n, e)[p] == h[p])
  {}

  lemma QueueKept(queue: seq<Ptr>, queue': seq<Ptr>, q: int, h: Times, h': Times, n: nat)
    requires QueueTold(queue, q, h, n) && (queue' == queue || (queue != [] && queue' == queue[1..]))
    requires forall p :: p in queue && p in queue' && p in h ==> p in h' && h'[p] == h[p]
    ensures QueueTold(queue', q, h', n + 1)
  {
    forall i | 0 <= i < |queue'| ensures queue'[i] in h && queue'[i] in h' && h'[queue'[i]] == h[queue'[i]] {
      assert queue'[i] in queue;
      assert queue'[i] == queue[i + |queue| - |queue'|];
    }
  }

  lemma QueueJoined(queue: seq<Ptr>, p: Ptr, q: int, h: Times, h': Times, n: nat)
    requires QueueTold(queue, q, h, n) && p in h' && h'[p].when == n && h'[p].event == SleepOn(q)
    requires forall r :: r in queue && r in h ==> r in h' && h'[r] == h[r]
    ensures QueueTold(queue + [p], q, h', n + 1)
  {
    forall i | 0 <= i < |queue| ensures queue[i] in h && queue[i] in h' && h'[queue[i]] == h[queue[i]] {
      var r := queue[i];
      assert r in queue && r in h;
    }
  }

  lemma QueueStep(k: Kernel, k': Kernel, h: Times, n: nat, e: Event, q: int)
    requires Inv(k) && Inv(k') && QueuesTold(k, h, n) && OneQueue(k, k', e, q)
    ensures QueueTold(k'.queues[q], q, Noted(k, k', h, n, e), n + 1)
  {
    var h', was := Noted(k, k', h, n, e), if q in k.queues then k.queues[q] else [];
    forall p | p in was && p in k'.queues[q] && p in h ensures p in h' && h'[p] == h[p] {
      WaiterKept(k, k', h, n, e, q, p);
    }
    if q in k.queues && (k'.queues[q] == was || (was != [] && k'.queues[q] == was[1..])) {
      QueueKept(was, k'.queues[q], q, h, h', n);
    } else {
      assert k.current in k'.queues[q];
      QueueJoined(was, k.current, q, h, h', n);
    }
  }

  // ---------- every run ----------

  ghost predicate Chronicle(k: Kernel, h: Times, n: nat) { ReadyTold(k, h, n) && QueuesTold(k, h, n) }

  lemma ChronicleStep(k: Kernel, h: Times, n: nat, e: Event)
    requires Inv(k) && Allowed(k, e) && Chronicle(k, h, n)
    ensures Chronicle(Next(k, e), Noted(k, Next(k, e), h, n, e), n + 1)
  {
    var k' := Next(k, e);
    NextKeepsInv(k, e);
    EventEntries(k, e);
    ReadyStep(k, k', h, n, e);
    forall q | q in k'.queues ensures QueueTold(k'.queues[q], q, Noted(k, k', h, n, e), n + 1) {
      EventQueue(k, e, q);
      QueueStep(k, k', h, n, e, q);
    }
  }

  /** Nothing happens at an event that is not allowed. */
  lemma ChronicleSkip(k: Kernel, h: Times, n: nat, e: Event)
    requires Inv(k) && Chronicle(k, h, n)
    ensures Chronicle(k, Noted(k, k, h, n, e), n + 1)
  {
    ReadyStep(k, k, h, n, e);
    forall q | q in k.queues ensures QueueTold(k.queues[q], q, Noted(k, k, h, n, e), n + 1) {
      QueueStep(k, k, h, n, e, q);
    }
  }

  lemma ChronicleOne(k: Kernel, h: Times, n: nat, e: Event)
    requires Inv(k) && Chronicle(k, h, n)
    ensures Chronicle(Step(k, e), Noted(k, Step(k, e), h, n, e), n + 1)
  {
    if Allowed(k, e) {
      ChronicleStep(k, h, n, e);
    } else {
      ChronicleSkip(k, h, n, e);
    }
  }

  lemma {:induction false} ChronicleKept(k: Kernel, h: Times, n: nat, es: seq<Event>)
    requires Inv(k) && Chronicle(k, h, n)
    ensures Chronicle(Run(k, es), History(k, h, n, es), n + |es|)
    decreases |es|
  {
    if es != [] {
      var k' := Step(k, es[0]);
      var h' := Noted(k, k', h, n, es[0]);
      ChronicleOne(k, h, n, es[0]);
      ChronicleKept(k', h', n + 1, es[1..]);
      assert Run(k, es) == Run(k', es[1..]) && History(k, h, n, es) == History(k', h', n + 1, es[1..]);
      assert n + |es| == n + 1 + |es[1..]|;
    }
  }

  /** Smaller priority first, then whoever has been ready longer. */
  predicate Sooner(a: Since, b: Since) { a.priority < b.priority || (a.priority == b.priority && a.when < b.when) }

  /** The history of a run of the kernel. */
  ghost function TimesOf(main: Ptr, priority: int, es: seq<Event>): Times {
    BootOk(main, priority);
    History(Boot(main, priority), map[], 0, es)
  }

  lemma PickFirst(k: Kernel, h: Times, n: nat, e: Event, p: Ptr)
    requires Inv(k) && Chronicle(k, h, n) && e in {Yield, Dispatch} && Allowed(k, e)
    requires p in k.tcbs && k.tcbs[p].status == Ready
    ensures var c := Next(k, e).current;
      && c in k.tcbs && k.tcbs[c].status == Ready && c in h && p in h
      && (c == p || Sooner(h[c], h[p]))
  {
    assert OnReady(k, p);
    var y :| y in k.ready && y.item.ptr == p;
    var x := k.ready[0];
    assert x in k.ready;
    if y != x {
      DispatchPicksFirst(k, e, y);
    }
  }

  /** Over every run from the boot state: the thread that `Yield` or the search in `Sleep` hands the processor
      to was READY, and comes before every other READY thread by its priority when it became so, and among
      equals by how long it has been. */
  lemma NextIsFirst(main: Ptr, priority: int, es: seq<Event>, e: Event, p: Ptr)
    requires e in {Yield, Dispatch}
    ensures Inv(Boot(main, priority))
    ensures var k, h := Run(Boot(main, priority), es), TimesOf(main, priority, es);
      Allowed(k, e) && p in k.tcbs && k.tcbs[p].status == Ready ==>
        var c := Next(k, e).current;
        c in k.tcbs && k.tcbs[c].status == Ready && c in h && p in h && (c == p || Sooner(h[c], h[p]))
  {
    BootOk(main, priority);
    ChronicleKept(Boot(main, priority), map[], 0, es);
    var k, h := Run(Boot(main, priority), es), TimesOf(main, priority, es);
    if Allowed(k, e) && p in k.tcbs && k.tcbs[p].status == Ready {
      PickFirst(k, h, |es|, e, p);
    }
  }

  lemma SleptLongest(queue: seq<Ptr>, q: int, h: Times, n: nat, p: Ptr)
    requires QueueTold(queue, q, h, n) && p in queue
    ensures queue[0] in h && p in h && h[queue[0]].event == SleepOn(q) && (queue[0] == p || h[queue[0]].when < h[p].when)
  {
    var i :| 0 <= i < |queue| && queue[i] == p;
  }

  lemma Sleeper(k: Kernel, h: Times, n: nat, q: int, p: Ptr)
    requires QueuesOk(k) && QueuesTold(k, h, n)
    requires p in k.tcbs && k.tcbs[p].status == Blocked && p in h && h[p].event == SleepOn(q) && !k.tcbs[p].finished
    ensures q in k.queues && p in k.queues[q]
  {
    assert OnQueue(k, p);
    var o :| o in k.queues && p in k.queues[o];
    SleptLongest(k.queues[o], o, h, n, p);
    var i :| 0 <= i < |k.queues[o]| && k.queues[o][i] == p;
  }

  lemma WakeFirst(k: Kernel, h: Times, n: nat, q: int, p: Ptr)
    requires Inv(k) && Chronicle(k, h, n) && Allowed(k, Wake(q))
    requires p in k.tcbs && k.tcbs[p].status == Blocked && p in h && h[p].event == SleepOn(q) && !k.tcbs[p].finished
    ensures var w := k.queues[q][0];
      && w in k.tcbs && k.tcbs[w].status == Blocked && w in h && h[w].event == SleepOn(q)
      && Next(k, Wake(q)).tcbs == k.tcbs[w := k.tcbs[w].(status := Ready)]
      && (w == p || h[w].when < h[p].when)
  {
    Sleeper(k, h, n, q, p);
    SleptLongest(k.queues[q], q, h, n, p);
    assert k.queues[q][0] in k.queues[q];
  }

  /** Over every run: waking a thread from a queue makes READY just the one that has slept there longest. */
  lemma WakesLongest(main: Ptr, priority: int, es: seq<Event>, q: int, p: Ptr)
    ensures Inv(Boot(main, priority))
    ensures var k, h := Run(Boot(main, priority), es), TimesOf(main, priority, es);
      && Allowed(k, Wake(q)) && p in k.tcbs && p in h
      && k.tcbs[p].status == Blocked && !k.tcbs[p].finished && h[p].event == SleepOn(q) ==>
        var k' := Next(k, Wake(q));
        exists w :: w in k.tcbs && w in h && k.tcbs[w].status == Blocked && h[w].event == SleepOn(q) &&
          k'.tcbs == k.tcbs[w := k.tcbs[w].(status := Ready)] && (w == p || h[w].when < h[p].when)
  {
    BootOk(main, priority);
    ChronicleKept(Boot(main, priority), map[], 0, es);
    var k, h := Run(Boot(main, priority), es), TimesOf(main, priority, es);
    if && Allowed(k, Wake(q)) && p in k.tcbs && p in h
       && k.tcbs[p].status == Blocked && !k.tcbs[p].finished && h[p].event == SleepOn(q) {
      WakeFirst(k, h, |es|, q, p);
    }
  }

  /** Where each event leaves each thread: the forked and the woken are READY, whoever sleeps or finishes is
      BLOCKED, whoever is picked runs and the one that yields to it is READY; nobody else moves. */
  lemma EventMoves(k: Kernel, e: Event, p: Ptr)
    requires Inv(k) && Allowed(k, e) && p in k.tcbs && p in Next(k, e).tcbs
    ensures var k' := Next(k, e);
      var switched := e in {Yield, Dispatch} && k.ready != [];
      k'.tcbs[p].status ==
        if switched && p == k'.current then Running
        else if (e == Fork(p)) || (e.Wake? && p == k.queues[e.queue][0]) || (switched && e.Yield? && p == k.current) then Ready
        else if (e.SleepOn? || e.Finish?) && p == k.current then Blocked
        else k.tcbs[p].status
  {
    if e in {Yield, Dispatch} && k.ready != [] {
      assert k.ready[0] in k.ready;
    }
  }

  // ---------- priorities ----------

  /** The priority that each thread was last given, by its constructor or by `SetPriority`. */
  ghost function Given(k: Kernel, given: map<Ptr, int>, es: seq<Event>): map<Ptr, int>
    requires Inv(k)
    decreases |es|
  {
    if es == [] then given
    else
      var e := es[0];
      Given(Step(k, e),
            if (e.Create? || e.SetPriority?) && Allowed(k, e) then given[e.ptr := e.priority] else given, es[1..])
  }

  ghost predicate PrioritiesAre(k: Kernel, given: map<Ptr, int>) {
    forall p :: p in k.tcbs ==> p in given && k.tcbs[p].priority == given[p]
  }

  lemma EventPriority(k: Kernel, e: Event, p: Ptr)
    requires Inv(k) && Allowed(k, e) && p in Next(k, e).tcbs
    ensures if (e.Create? || e.SetPriority?) && e.ptr == p then Next(k, e).tcbs[p].priority == e.priority
            else p in k.tcbs && Next(k, e).tcbs[p].priority == k.tcbs[p].priority
  {
    if e in {Yield, Dispatch} && k.ready != [] {
      assert k.ready[0] in k.ready;
    }
  }

  lemma PrioritiesStep(k: Kernel, given: map<Ptr, int>, e: Event, given': map<Ptr, int>)
    requires Inv(k) && PrioritiesAre(k, given)
    requires given' == if (e.Create? || e.SetPriority?) && Allowed(k, e) then given[e.ptr := e.priority] else given
    ensures PrioritiesAre(Step(k, e), given')
  {
    forall p | p in Step(k, e).tcbs ensures p in given' && Step(k, e).tcbs[p].priority == given'[p] {
      if Allowed(k, e) {
        EventPriority(k, e, p);
      }
    }
  }

  lemma {:induction false} PrioritiesGiven(k: Kernel, given: map<Ptr, int>, es: seq<Event>)
    requires Inv(k) && PrioritiesAre(k, given)
    ensures PrioritiesAre(Run(k, es), Given(k, given, es))
    decreases |es|
  {
    if es != [] {
      var e := es[0];
      var given' := if (e.Create? || e.SetPriority?) && Allowed(k, e) then given[e.ptr := e.priority] else given;
      PrioritiesStep(k, given, e, given');
      PrioritiesGiven(Step(k, e), given', es[1..]);
    }
  }

  /** Over every run a thread's priority is the one it was last given. */
  lemma PriorityAsGiven(main: Ptr, priority: int, es: seq<Event>, p: Ptr)
    ensures Inv(Boot(main, priority))
    ensures var k, given := Run(Boot(main, priority), es), Given(Boot(main, priority), map[main := priority], es);
      p in k.tcbs ==> p in given && k.tcbs[p].priority == given[p]
  {
    BootOk(main, priority);
    PrioritiesGiven(Boot(main, priority), map[main := priority], es);
  }

  predicate NoneSet(es: seq<Event>) { forall i :: 0 <= i < |es| ==> !es[i].SetPriority? }

  ghost predicate Level(k: Kernel, h: Times) {
    forall p :: p in k.tcbs && p in h ==> h[p].priority == k.tcbs[p].priority
  }

  lemma LevelStep(k: Kernel, h: Times, n: nat, e: Event)
    requires Inv(k) && Level(k, h) && !e.SetPriority?
    ensures Level(Step(k, e), Noted(k, Step(k, e), h, n, e))
  {
    forall p | p in Step(k, e).tcbs && p in k.tcbs ensures Step(k, e).tcbs[p].priority == k.tcbs[p].priority {
      if Allowed(k, e) {
        EventPriority(k, e, p);
      }
    }
  }

  lemma {:induction false} LevelKept(k: Kernel, h: Times, n: nat, es: seq<Event>)
    requires Inv(k) && Level(k, h) && NoneSet(es)
    ensures Level(Run(k, es), History(k, h, n, es))
    decreases |es|
  {
    if es != [] {
      LevelStep(k, h, n, es[0]);
      LevelKept(Step(k, es[0]), Noted(k, Step(k, es[0]), h, n, es[0]), n + 1, es[1..]);
    }
  }

  /** On a run without `SetPriority` no READY thread has a smaller priority than the one that gets the processor,
      and of those with the same priority none has been READY longer. */
  lemma NextHasLeastPriority(main: Ptr, priority: int, es: seq<Event>, e: Event, p: Ptr)
    requires e in {Yield, Dispatch} && NoneSet(es)
    ensures Inv(Boot(main, priority))
    ensures var k, h := Run(Boot(main, priority), es), TimesOf(main, priority, es);
      Allowed(k, e) && p in k.tcbs && k.tcbs[p].status == Ready ==>
        var c := Next(k, e).current;
        && c in k.tcbs && k.tcbs[c].status == Ready && k.tcbs[c].priority <= k.tcbs[p].priority && c in h && p in h
        && (k.tcbs[c].priority == k.tcbs[p].priority && c != p ==> h[c].when < h[p].when)
  {
    NextIsFirst(main, priority, es, e, p);
    LevelKept(Boot(main, priority), map[], 0, es);
  }
}
