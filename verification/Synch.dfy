/** Semaphores, locks and Mesa condition variables (threads/synch.cc).

    Interrupts are off inside each operation, so a thread can lose the processor only where they
    come back on or where it sleeps.  A pass through the loop of P, from its test to the point
    where the thread sleeps or leaves, is therefore one step. */
module Semaphores {
  import opened Sets

  type Tid = int

  ghost predicate Distinct<T>(s: seq<T>) {
    forall i, j :: 0 <= i < j < |s| ==> s[i] != s[j]
  }

  /** `queue` holds the threads asleep in P; `woken` those that a V has made ready and that have
      yet to test the value again. */
  datatype Sem = Sem(value: nat, queue: seq<Tid>, woken: set<Tid>)

  function NewSem(value: nat): Sem { Sem(value, [], {}) }

  /** One pass through the loop of `Semaphore::P` by thread t. */
  function TryP(s: Sem, t: Tid): Sem {
    if s.value == 0 then Sem(0, s.queue + [t], s.woken - {t})
    else Sem(s.value - 1, s.queue, s.woken - {t})
  }

  /** `Semaphore::V`. */
  function V(s: Sem): Sem {
    if s.queue == [] then s.(value := s.value + 1)
    else Sem(s.value + 1, s.queue[1..], s.woken + {s.queue[0]})
  }

  /** No wakeup is lost: while a thread sleeps, there is a woken thread for every unit of value. */
  ghost predicate SemOk(s: Sem) {
    && Distinct(s.queue)
    && (forall t :: t in s.queue ==> t !in s.woken)
    && (s.queue != [] ==> s.value <= |s.woken|)
  }

  lemma TryPOk(s: Sem, t: Tid)
    requires SemOk(s) && t !in s.queue
    ensures SemOk(TryP(s, t))
    ensures t in TryP(s, t).queue <==> s.value == 0
    ensures forall u :: u != t ==> (u in TryP(s, t).queue <==> u in s.queue)
    ensures forall u :: u != t ==> (u in TryP(s, t).woken <==> u in s.woken)
  {
    assert t in s.woken ==> |s.woken| >= 1;
  }

  lemma VOk(s: Sem)
    requires SemOk(s)
    ensures SemOk(V(s))
    ensures forall u :: u in V(s).queue || u in V(s).woken <==> u in s.queue || u in s.woken
    ensures forall u :: u in V(s).queue ==> u in s.queue
  {
    if s.queue != [] {
      var q := s.queue[0];
      assert q in s.queue;
      assert q !in s.woken;
      assert s.queue == [s.queue[0]] + s.queue[1..];
    }
  }

  /** While threads sleep on a semaphore that has value left, somebody is awake to take it. */
  lemma NobodySleepsOnValue(s: Sem)
    requires SemOk(s) && s.queue != [] && s.value > 0
    ensures s.woken != {}
  {}

  lemma SomebodyAwake(s: Sem) returns (u: Tid)
    requires SemOk(s) && s.queue != [] && s.value > 0
    ensures u in s.woken && u !in s.queue
  {
    u := Member(s.woken);
  }
}

/** Every interleaving of P and V. */
module SemaphoreRuns {
  import opened Sequences
  import opened Semaphores

  /** A semaphore with the numbers of Vs and completed Ps since it was made. */
  datatype Counted = Counted(sem: Sem, initial: nat, vs: nat, ps: nat)

  /** A step of P by a thread that is awake, or a V by any thread or interrupt handler. */
  datatype Op = StepP(tid: Tid) | DoV

  function Next(c: Counted, op: Op): Counted {
    match op
    case StepP(t) =>
      if t in c.sem.queue then c
      else c.(sem := TryP(c.sem, t), ps := c.ps + if c.sem.value == 0 then 0 else 1)
    case DoV => c.(sem := V(c.sem), vs := c.vs + 1)
  }

  function Run(c: Counted, ops: seq<Op>): Counted {
    if ops == [] then c else Next(Run(c, ops[..|ops| - 1]), ops[|ops| - 1])
  }

  /** Over every interleaving the value is the initial value plus the Vs minus the completed Ps,
      and no wakeup is lost. */
  lemma {:induction false} SemaphoreSafe(initial: nat, ops: seq<Op>)
    ensures var c := Run(Counted(NewSem(initial), initial, 0, 0), ops);
            c.initial == initial && c.sem.value == initial + c.vs - c.ps && SemOk(c.sem)
  {
    if ops != [] {
      var n := |ops| - 1;
      SemaphoreSafe(initial, ops[..n]);
      var c := Run(Counted(NewSem(initial), initial, 0, 0), ops[..n]);
      match ops[n] {
        case StepP(t) =>
          if t !in c.sem.queue {
            TryPOk(c.sem, t);
          }
        case DoV => VOk(c.sem);
      }
    }
  }

  /** The threads that went to sleep over a run, and those that were woken, in order. */
  ghost function Slept(c: Counted, ops: seq<Op>): seq<Tid> {
    if ops == [] then []
    else
      var before, op := ops[..|ops| - 1], ops[|ops| - 1];
      var sem := Run(c, before).sem;
      Slept(c, before) + if op.StepP? && op.tid !in sem.queue && sem.value == 0 then [op.tid] else []
  }

  ghost function Woken(c: Counted, ops: seq<Op>): seq<Tid> {
    if ops == [] then []
    else
      var before := ops[..|ops| - 1];
      Woken(c, before) + Readied(Run(c, before).sem, Run(c, ops).sem)
  }

  /** Who has left the queue for the woken ones. */
  ghost function Readied(s: Sem, s': Sem): seq<Tid> {
    if s.queue != [] && s'.queue == s.queue[1..] && s.queue[0] in s'.woken then [s.queue[0]] else []
  }

  /** Threads are woken in the order in which they went to sleep, each V wakes one if any sleeps, and nobody else is
      woken. */
  lemma {:induction false} FirstAsleepFirstWoken(initial: nat, ops: seq<Op>)
    ensures var c := Counted(NewSem(initial), initial, 0, 0);
      Slept(c, ops) == Woken(c, ops) + Run(c, ops).sem.queue
  {
    var c := Counted(NewSem(initial), initial, 0, 0);
    if ops != [] {
      var before, op := ops[..|ops| - 1], ops[|ops| - 1];
      FirstAsleepFirstWoken(initial, before);
      SleepStep(Run(c, before), op);
      var s, s' := Run(c, before).sem, Run(c, ops).sem;
      Carried(Woken(c, before), s.queue,
              if op.StepP? && op.tid !in s.queue && s.value == 0 then [op.tid] else [], Readied(s, s'), s'.queue);
    }
  }

  lemma SleepStep(c: Counted, op: Op)
    ensures var s, s' := c.sem, Next(c, op).sem;
      s.queue + (if op.StepP? && op.tid !in s.queue && s.value == 0 then [op.tid] else []) == Readied(s, s') + s'.queue
    ensures op.DoV? ==> |Readied(c.sem, Next(c, op).sem)| == if c.sem.queue == [] then 0 else 1
  {
    var q := c.sem.queue;
    if q != [] {
      assert q == [q[0]] + q[1..];
      if op.StepP? {
        assert |q + [op.tid]| != |q[1..]|;
      }
    }
  }
}

module Locks {
  import opened Options
  import opened Semaphores

  /** `holder` is the field `holdingThread`.  `owner` is the thread that has completed P and not
      yet called V; the code does not record it. */
  datatype Lock = Lock(sem: Sem, holder: Option<Tid>, owner: Option<Tid>)

  function NewLock(): Lock { Lock(NewSem(1), None, None) }

  /** The step of `Acquire` inside P. */
  function Try(l: Lock, t: Tid): Lock {
    Lock(TryP(l.sem, t), l.holder, if l.sem.value > 0 then Some(t) else l.owner)
  }

  /** The assignment to `holdingThread`, which `Acquire` makes after interrupts are back on. */
  function Record(l: Lock, t: Tid): Lock { l.(holder := Some(t)) }

  function Release(l: Lock): Lock { Lock(V(l.sem), None, None) }

  predicate Asleep(l: Lock, t: Tid) { t in l.sem.queue }

  ghost predicate Attending(l: Lock, t: Tid) { t in l.sem.queue || t in l.sem.woken }

  /** The lock is busy exactly while it has an owner, and only the owner can be on record. */
  ghost predicate LockOk(l: Lock) {
    && SemOk(l.sem)
    && l.sem.value == (if l.owner.None? then 1 else 0)
    && (l.holder.Some? ==> l.holder == l.owner)
  }

  lemma TryOk(l: Lock, t: Tid)
    requires LockOk(l) && !Asleep(l, t)
    ensures LockOk(Try(l, t))
    ensures Asleep(Try(l, t), t) <==> l.owner.Some?
    ensures forall u :: u != t ==> (Attending(Try(l, t), u) <==> Attending(l, u))
    ensures !Asleep(Try(l, t), t) ==> !Attending(Try(l, t), t)
    ensures forall u :: u != t ==> (Asleep(Try(l, t), u) <==> Asleep(l, u))
  {
    TryPOk(l.sem, t);
  }

  lemma ReleaseOk(l: Lock)
    requires LockOk(l) && l.owner.Some?
    ensures LockOk(Release(l))
    ensures forall u :: Attending(Release(l), u) <==> Attending(l, u)
  {
    VOk(l.sem);
  }

  /** A free lock with sleepers has somebody awake who will try it. */
  lemma FreeLockHasTaker(l: Lock, t: Tid)
    requires LockOk(l) && l.owner.None? && Asleep(l, t)
    ensures l.sem.woken != {}
  {
    NobodySleepsOnValue(l.sem);
  }

}

/** Critical sections guarded by a lock, for any number of threads. */
module CriticalSections {
  import opened Options
  import opened Semaphores
  import opened Locks

  /** Where a thread is: outside, in P, between P and the assignment, or in its section. */
  datatype Pc = Out | InP | Taken | In

  datatype State = State(lock: Lock, pc: map<Tid, Pc>)

  function At(s: State, t: Tid): Pc { if t in s.pc then s.pc[t] else Out }

  /** The next step of thread t; only a thread in its section releases the lock. */
  function Next(s: State, t: Tid): State {
    match At(s, t)
    case Out => s.(pc := s.pc[t := InP])
    case InP =>
      if Asleep(s.lock, t) then s
      else State(Try(s.lock, t), s.pc[t := if s.lock.sem.value > 0 then Taken else InP])
    case Taken => State(Record(s.lock, t), s.pc[t := In])
    case In => State(Release(s.lock), s.pc[t := Out])
  }

  ghost predicate Inv(s: State) {
    && LockOk(s.lock)
    && (forall t :: At(s, t) in {Taken, In} <==> s.lock.owner == Some(t))
    && (forall t :: At(s, t) == In ==> s.lock.holder == Some(t))
    && (forall t :: Attending(s.lock, t) ==> At(s, t) == InP)
  }

  lemma NextKeepsInv(s: State, t: Tid)
    requires Inv(s)
    ensures Inv(Next(s, t))
  {
    match At(s, t)
    case Out =>
    case InP => if !Asleep(s.lock, t) { TryOk(s.lock, t); }
    case Taken =>
    case In => ReleaseOk(s.lock);
  }

  function Run(s: State, ts: seq<Tid>): State {
    if ts == [] then s else Next(Run(s, ts[..|ts| - 1]), ts[|ts| - 1])
  }

  /** Over every interleaving at most one thread holds the lock, and `isHeldByCurrentThread` is
      true throughout its section. */
  lemma {:induction false} MutualExclusion(ts: seq<Tid>)
    ensures var s := Run(State(NewLock(), map[]), ts);
            && Inv(s)
            && (forall t, u :: At(s, t) in {Taken, In} && At(s, u) in {Taken, In} ==> t == u)
            && (forall t :: At(s, t) == In ==> s.lock.holder == Some(t))
  {
    if ts != [] {
      var n := |ts| - 1;
      MutualExclusion(ts[..n]);
      NextKeepsInv(Run(State(NewLock(), map[]), ts[..n]), ts[n]);
    }
  }
}

/** The same objects updated in place, their queues on linked lists. */
module SynchObjects {
  import opened Options
  import opened LinkedList
  import opened Semaphores
  import opened Locks
  import opened Conditions

  class Semaphore {
    var value: nat
    const queue: List<Tid>
    /** Threads handed to the scheduler that have not tested the value since. */
    ghost var woken: set<Tid>

    ghost function Abs(): Sem
      reads this, queue
    {
      Sem(value, queue.Items(), woken)
    }

    ghost predicate Valid()
      reads this, queue, queue.Repr
    {
      queue.Valid() && SemOk(Abs())
    }

    constructor (initialValue: nat)
      ensures Valid() && Abs() == NewSem(initialValue)
      ensures fresh(queue) && queue.Repr == {}
    {
      value, woken := initialValue, {};
      queue := new List<Tid>();
    }

    /** A pass through the loop of P; `asleep` when the thread has to sleep. */
    method StepP(t: Tid) returns (asleep: bool)
      requires Valid() && t !in Abs().queue
      modifies this, queue, queue.Repr
      ensures Valid() && fresh(queue.Repr - old(queue.Repr))
      ensures Abs() == TryP(old(Abs()), t) && asleep == (old(value) == 0)
    {
      TryPOk(Abs(), t);
      woken := woken - {t};
      asleep := value == 0;
      if asleep {
        queue.Append(t);
      } else {
        value := value - 1;
      }
    }

    method DoV() returns (readied: Option<Tid>)
      requires Valid()
      modifies this, queue
      ensures Valid() && Abs() == V(old(Abs()))
      ensures readied == if old(Abs()).queue == [] then None else Some(old(Abs()).queue[0])
    {
      VOk(Abs());
      readied := queue.Remove();
      if readied.Some? {
        woken := woken + {readied.value};
      }
      value := value + 1;
    }
  }

  class Condition {
    const waitingQueue: List<Tid>
    ghost var signalled: set<Tid>

    ghost function Abs(): Cond
      reads this, waitingQueue
    {
      Cond(waitingQueue.Items(), signalled)
    }

    ghost predicate Valid()
      reads this, waitingQueue, waitingQueue.Repr
    {
      waitingQueue.Valid()
    }

    constructor ()
      ensures Valid() && Abs() == NewCond()
      ensures fresh(waitingQueue) && waitingQueue.Repr == {}
    {
      signalled := {};
      waitingQueue := new List<Tid>();
    }

    /** The part of `Wait` between releasing the lock and sleeping. */
    method Enqueue(current: Tid)
      requires Valid()
      modifies waitingQueue, waitingQueue.Repr
      ensures Valid() && fresh(waitingQueue.Repr - old(waitingQueue.Repr))
      ensures Abs() == Queued(old(Abs()), current)
    {
      waitingQueue.Append(current);
    }

    /** The longest waiter becomes ready, provided the caller holds the lock. */
    method Signal(lock: Lock, current: Tid) returns (readied: seq<Tid>)
      requires Valid()
      modifies this, waitingQueue
      ensures Valid() && readied == Signalled(old(Abs()), lock, current)
      ensures Abs() == Readied(old(Abs()), readied)
    {
      readied := [];
      if lock.holder == Some(current) {
        var thread := waitingQueue.Remove();
        if thread.Some? {
          readied := [thread.value];
          signalled := signalled + {thread.value};
        }
      }
      assert signalled == old(signalled) + set u | u in readied;
    }

    /** Every waiter becomes ready, in the order in which they began to wait. */
    method Broadcast(lock: Lock, current: Tid) returns (readied: seq<Tid>)
      requires Valid()
      modifies this, waitingQueue
      ensures Valid() && readied == Broadcasted(old(Abs()), lock, current)
      ensures Abs() == Readied(old(Abs()), readied)
    {
      readied := [];
      if lock.holder == Some(current) {
        var thread := waitingQueue.Remove();
        while thread.Some?
          invariant Valid()
          invariant old(Abs()).queue == readied + (if thread.Some? then [thread.value] else []) + Abs().queue
          invariant thread.None? ==> Abs().queue == []
          invariant signalled == old(signalled) + set u | u in readied
          decreases |Abs().queue|, thread.Some?
        {
          readied := readied + [thread.value];
          signalled := signalled + {thread.value};
          thread := waitingQueue.Remove();
        }
        assert readied == old(Abs()).queue;
      }
    }
  }
}
