/** Mesa condition variables (threads/synch.cc): their operations on the queue of waiting threads. */
module Conditions {
  import opened Options
  import opened Semaphores
  import opened Locks

  /** A condition: its queue, and the threads taken off it that have yet to reacquire the lock. */
  datatype Cond = Cond(queue: seq<Tid>, signalled: set<Tid>)

  function NewCond(): Cond { Cond([], {}) }

  /** `Condition::Wait` queues the caller up; it comes back with the lock. */
  function Queued(c: Cond, t: Tid): Cond { c.(queue := c.queue + [t]) }
  function Returned(c: Cond, t: Tid): Cond { c.(signalled := c.signalled - {t}) }

  /** The threads that `Signal` and `Broadcast` make ready: none unless the caller holds the lock. */
  function Signalled(c: Cond, lock: Lock, t: Tid): seq<Tid> {
    if lock.holder == Some(t) && c.queue != [] then [c.queue[0]] else []
  }

  function Broadcasted(c: Cond, lock: Lock, t: Tid): seq<Tid> {
    if lock.holder == Some(t) then c.queue else []
  }

  /** The first threads of the queue leave it. */
  function Readied(c: Cond, us: seq<Tid>): Cond
    requires us <= c.queue
  {
    Cond(c.queue[|us|..], c.signalled + set u | u in us)
  }
}

/** Every sequence of waits, signals and broadcasts on a condition. */
module ConditionRuns {
  import opened Options
  import opened Sequences
  import opened Semaphores
  import opened Locks
  import opened Conditions

  /** A signal or broadcast is made by a thread, with the lock as it is then. */
  datatype Op = Wait(tid: Tid) | SignalBy(tid: Tid, lock: Lock) | BroadcastBy(tid: Tid, lock: Lock)

  function Next(c: Cond, op: Op): Cond {
    match op
    case Wait(t) => Queued(c, t)
    case SignalBy(t, lock) => Readied(c, Signalled(c, lock, t))
    case BroadcastBy(t, lock) => Readied(c, Broadcasted(c, lock, t))
  }

  function Run(c: Cond, ops: seq<Op>): Cond {
    if ops == [] then c else Next(Run(c, ops[..|ops| - 1]), ops[|ops| - 1])
  }

  /** The threads that waited over a run, and those that were made ready, in order. */
  function Waiters(ops: seq<Op>): seq<Tid> {
    if ops == [] then []
    else
      var op := ops[|ops| - 1];
      Waiters(ops[..|ops| - 1]) + if op.Wait? then [op.tid] else []
  }

  ghost function MadeReady(ops: seq<Op>): seq<Tid> {
    if ops == [] then []
    else
      var before := ops[..|ops| - 1];
      MadeReady(before) + Gone(Run(NewCond(), before), Run(NewCond(), ops))
  }

  /** The threads that have left the front of the queue and have to get the lock again. */
  ghost function Gone(c: Cond, c': Cond): seq<Tid> {
    var n := |c.queue| - |c'.queue|;
    if n >= 0 && c'.queue == c.queue[n..] && forall t :: t in c.queue[..n] ==> t in c'.signalled then c.queue[..n] else []
  }

  /** A signal by the holder of the lock makes one waiting thread ready, if there is any, and a broadcast all of them;
      by anybody else they do nothing. */
  lemma HowManyReady(c: Cond, op: Op)
    requires !op.Wait?
    ensures var n := |Gone(c, Next(c, op))|;
      if op.lock.holder != Some(op.tid) || c.queue == [] then n == 0 && Next(c, op).queue == c.queue
      else if op.SignalBy? then n == 1
      else n == |c.queue|
  {
    var q := c.queue;
    assert q[0..] == q && q[|q|..] == [] && q[..0] == [];
    assert q != [] ==> q[..1] == [q[0]];
  }

  lemma WaitStep(c: Cond, op: Op)
    ensures c.queue + (if op.Wait? then [op.tid] else []) == Gone(c, Next(c, op)) + Next(c, op).queue
  {
    if !op.Wait? {
      HowManyReady(c, op);
    }
  }

  /** Threads are made ready in the order in which they began to wait, and nobody else is. */
  lemma {:induction false} FirstWaitingFirstReady(ops: seq<Op>)
    ensures Waiters(ops) == MadeReady(ops) + Run(NewCond(), ops).queue
  {
    if ops != [] {
      var before, op := ops[..|ops| - 1], ops[|ops| - 1];
      var c, c' := Run(NewCond(), before), Run(NewCond(), ops);
      FirstWaitingFirstReady(before);
      WaitStep(c, op);
      Carried(MadeReady(before), c.queue, if op.Wait? then [op.tid] else [], Gone(c, c'), c'.queue);
    }
  }
}

/** A lock with conditions, shared by any number of threads: where each thread stands, and what every
    step keeps. */
module Monitors {
  import opened Options
  import opened Semaphores
  import opened Locks
  import opened Conditions

  /** `Trying` is inside `Acquire`, `Holding` owns the lock; `Waiting` sleeps in the queue of a
      condition and `Returning` has left it and is inside the `Acquire` at the end of `Wait`. */
  datatype Place = Away | Trying | Holding | Waiting(cond: nat) | Returning(cond: nat)

  type Places = map<Tid, Place>

  datatype Monitor = Monitor(lock: Lock, conds: seq<Cond>, at: Places)

  function NewMonitor(conds: nat): Monitor { Monitor(NewLock(), seq(conds, _ => NewCond()), map[]) }

  function PlaceIn(at: Places, t: Tid): Place { if t in at then at[t] else Away }
  function PlaceOf(m: Monitor, t: Tid): Place { PlaceIn(m.at, t) }

  // ---------- the steps ----------

  function Called(m: Monitor, t: Tid): Monitor { m.(at := m.at[t := Trying]) }

  /** A pass through P in `Acquire`. */
  function Tried(m: Monitor, t: Tid): Monitor {
    if Asleep(m.lock, t) then m
    else m.(lock := Try(m.lock, t), at := if m.lock.sem.value > 0 then m.at[t := Holding] else m.at)
  }

  /** The end of `Acquire`, which makes the holder known. */
  function Recorded(m: Monitor, t: Tid): Monitor { m.(lock := Record(m.lock, t)) }

  function Left(m: Monitor, t: Tid): Monitor { m.(lock := Release(m.lock), at := m.at[t := Away]) }

  /** `Condition::Wait` up to the point where the caller sleeps, all with interrupts off. */
  function Waited(m: Monitor, t: Tid, c: nat): Monitor
    requires c < |m.conds|
  {
    Monitor(Release(m.lock), m.conds[c := Queued(m.conds[c], t)], m.at[t := Waiting(c)])
  }

  /** A pass through the `Acquire` at the end of `Wait`; interrupts stay off until the holder is
      known. */
  function Reacquired(m: Monitor, t: Tid): Monitor
    requires PlaceOf(m, t).Returning? && PlaceOf(m, t).cond < |m.conds|
  {
    var c := PlaceOf(m, t).cond;
    if Asleep(m.lock, t) then m
    else if m.lock.sem.value > 0 then
      Monitor(Record(Try(m.lock, t), t), m.conds[c := Returned(m.conds[c], t)], m.at[t := Holding])
    else m.(lock := Try(m.lock, t))
  }

  function Moved(at: Places, us: seq<Tid>, place: Place): Places {
    map u | u in at.Keys + (set v | v in us) :: if u in us then place else at[u]
  }

  /** `Condition::Signal` by thread t. */
  function Signal(m: Monitor, t: Tid, c: nat): Monitor
    requires c < |m.conds|
  {
    var us := Signalled(m.conds[c], m.lock, t);
    m.(conds := m.conds[c := Readied(m.conds[c], us)], at := Moved(m.at, us, Returning(c)))
  }

  /** `Condition::Broadcast` by thread t. */
  function Broadcast(m: Monitor, t: Tid, c: nat): Monitor
    requires c < |m.conds|
  {
    var us := Broadcasted(m.conds[c], m.lock, t);
    m.(conds := m.conds[c := Readied(m.conds[c], us)], at := Moved(m.at, us, Returning(c)))
  }

  // ---------- the invariant ----------

  ghost predicate LockUse(lock: Lock, at: Places) {
    && LockOk(lock)
    && (forall t :: PlaceIn(at, t).Holding? <==> lock.owner == Some(t))
    && (forall t :: Attending(lock, t) ==> PlaceIn(at, t).Trying? || PlaceIn(at, t).Returning?)
  }

  ghost predicate CondOk(c: Cond, i: nat, at: Places) {
    && Distinct(c.queue)
    && (forall t :: t in c.queue <==> PlaceIn(at, t) == Waiting(i))
    && (forall t :: t in c.signalled <==> PlaceIn(at, t) == Returning(i))
  }

  ghost predicate CondsOk(conds: seq<Cond>, at: Places) {
    && (forall i :: 0 <= i < |conds| ==> CondOk(conds[i], i, at))
    && (forall t :: InCond(PlaceIn(at, t)) ==> PlaceIn(at, t).cond < |conds|)
  }

  predicate InCond(p: Place) { p.Waiting? || p.Returning? }

  /** At most one thread holds the lock, and every condition knows its waiters. */
  ghost predicate MonitorOk(m: Monitor) { LockUse(m.lock, m.at) && CondsOk(m.conds, m.at) }

  lemma NewMonitorOk(conds: nat)
    ensures MonitorOk(NewMonitor(conds))
  {}

  /** A thread that moves between places outside the conditions. */
  lemma Bystander(conds: seq<Cond>, at: Places, t: Tid, p: Place)
    requires CondsOk(conds, at) && !InCond(PlaceIn(at, t)) && !InCond(p)
    ensures CondsOk(conds, at[t := p])
  {
    var at' := at[t := p];
    forall i | 0 <= i < |conds| ensures CondOk(conds[i], i, at') {}
    assert forall u :: u != t ==> PlaceIn(at', u) == PlaceIn(at, u);
  }

  lemma CalledOk(m: Monitor, t: Tid)
    requires MonitorOk(m) && PlaceOf(m, t).Away?
    ensures MonitorOk(Called(m, t))
  {
    Bystander(m.conds, m.at, t, Trying);
  }

  lemma TriedOk(m: Monitor, t: Tid)
    requires MonitorOk(m) && PlaceOf(m, t).Trying?
    ensures MonitorOk(Tried(m, t))
  {
    if !Asleep(m.lock, t) {
      TryOk(m.lock, t);
      Bystander(m.conds, m.at, t, Holding);
    }
  }

  lemma RecordedOk(m: Monitor, t: Tid)
    requires MonitorOk(m) && PlaceOf(m, t).Holding?
    ensures MonitorOk(Recorded(m, t)) && Recorded(m, t).lock.holder == Some(t)
  {}

  lemma LeftOk(m: Monitor, t: Tid)
    requires MonitorOk(m) && PlaceOf(m, t).Holding?
    ensures MonitorOk(Left(m, t)) && Left(m, t).lock.owner == None
  {
    ReleaseOk(m.lock);
    Bystander(m.conds, m.at, t, Away);
  }

  lemma WaitedOk(m: Monitor, t: Tid, c: nat)
    requires MonitorOk(m) && PlaceOf(m, t).Holding? && c < |m.conds|
    ensures MonitorOk(Waited(m, t, c)) && Waited(m, t, c).lock.owner == None
  {
    ReleaseOk(m.lock);
    QueuedOk(m.conds, m.at, t, c);
  }

  lemma QueuedOk(conds: seq<Cond>, at: Places, t: Tid, c: nat)
    requires CondsOk(conds, at) && !InCond(PlaceIn(at, t)) && c < |conds|
    ensures CondsOk(conds[c := Queued(conds[c], t)], at[t := Waiting(c)])
  {
    var conds', at' := conds[c := Queued(conds[c], t)], at[t := Waiting(c)];
    forall i | 0 <= i < |conds'| ensures CondOk(conds'[i], i, at') {
      assert CondOk(conds[i], i, at);
    }
    assert forall u :: u != t ==> PlaceIn(at', u) == PlaceIn(at, u);
  }

  lemma ReturnedOk(conds: seq<Cond>, at: Places, t: Tid, c: nat)
    requires CondsOk(conds, at) && PlaceIn(at, t) == Returning(c) && c < |conds|
    ensures CondsOk(conds[c := Returned(conds[c], t)], at[t := Holding])
  {
    var conds', at' := conds[c := Returned(conds[c], t)], at[t := Holding];
    forall i | 0 <= i < |conds'| ensures CondOk(conds'[i], i, at') {
      assert CondOk(conds[i], i, at);
    }
    assert forall u :: u != t ==> PlaceIn(at', u) == PlaceIn(at, u);
  }

  lemma ReacquiredOk(m: Monitor, t: Tid)
    requires MonitorOk(m) && PlaceOf(m, t).Returning?
    ensures PlaceOf(m, t).cond < |m.conds| && MonitorOk(Reacquired(m, t))
  {
    var c := PlaceOf(m, t).cond;
    assert InCond(PlaceOf(m, t));
    if !Asleep(m.lock, t) {
      TryOk(m.lock, t);
      ReturnedOk(m.conds, m.at, t, c);
    }
  }

  /** A queue without its first threads. */
  lemma QueueRest(q: seq<Tid>, us: seq<Tid>)
    requires Distinct(q) && us <= q
    ensures Distinct(q[|us|..]) && forall t :: t in q[|us|..] <==> t in q && t !in us
  {
    var rest := q[|us|..];
    assert q == us + rest;
    forall t | t in rest ensures t !in us {
      var j :| 0 <= j < |rest| && rest[j] == t;
      assert q[|us| + j] == t;
    }
  }

  /** Waiting threads become ready. */
  lemma ReadiedOk(conds: seq<Cond>, at: Places, us: seq<Tid>, c: nat)
    requires CondsOk(conds, at) && c < |conds| && us <= conds[c].queue
    ensures CondsOk(conds[c := Readied(conds[c], us)], Moved(at, us, Returning(c)))
    ensures forall t :: PlaceIn(Moved(at, us, Returning(c)), t) == if t in us then Returning(c) else PlaceIn(at, t)
  {
    var conds', at' := conds[c := Readied(conds[c], us)], Moved(at, us, Returning(c));
    assert CondOk(conds[c], c, at);
    QueueRest(conds[c].queue, us);
    forall i | 0 <= i < |conds'| ensures CondOk(conds'[i], i, at') {
      assert CondOk(conds[i], i, at);
    }
  }

  lemma ReadiedLock(lock: Lock, at: Places, at': Places)
    requires LockUse(lock, at)
    requires forall t :: PlaceIn(at', t) == PlaceIn(at, t) || (PlaceIn(at, t).Waiting? && PlaceIn(at', t).Returning?)
    ensures LockUse(lock, at')
  {}

  lemma SignalOk(m: Monitor, t: Tid, c: nat)
    requires MonitorOk(m) && c < |m.conds|
    ensures MonitorOk(Signal(m, t, c))
    ensures forall u ::
      PlaceOf(Signal(m, t, c), u) == if u in Signalled(m.conds[c], m.lock, t) then Returning(c) else PlaceOf(m, u)
  {
    var us := Signalled(m.conds[c], m.lock, t);
    ReadiedOk(m.conds, m.at, us, c);
    assert CondOk(m.conds[c], c, m.at) && forall u :: u in us ==> u in m.conds[c].queue;
    ReadiedLock(m.lock, m.at, Signal(m, t, c).at);
  }

  /** A signal that finds a waiter sends one more thread on its way back. */
  lemma SignalCounts(c: Cond, i: nat, at: Places, lock: Lock, t: Tid)
    requires CondOk(c, i, at) && lock.holder == Some(t)
    ensures var c' := Readied(c, Signalled(c, lock, t));
      if c.queue == [] then c' == c else c'.queue == c.queue[1..] && |c'.signalled| == |c.signalled| + 1
  {
    if c.queue != [] {
      var u := c.queue[0];
      assert u in c.queue;
      assert PlaceIn(at, u) == Waiting(i);
      assert (set v | v in [u]) == {u};
    }
  }

  lemma BroadcastOk(m: Monitor, t: Tid, c: nat)
    requires MonitorOk(m) && c < |m.conds|
    ensures MonitorOk(Broadcast(m, t, c))
    ensures forall u ::
      PlaceOf(Broadcast(m, t, c), u) == if u in Broadcasted(m.conds[c], m.lock, t) then Returning(c) else PlaceOf(m, u)
  {
    var us := Broadcasted(m.conds[c], m.lock, t);
    ReadiedOk(m.conds, m.at, us, c);
    assert CondOk(m.conds[c], c, m.at);
    ReadiedLock(m.lock, m.at, Broadcast(m, t, c).at);
  }

  // ---------- nobody is left behind at the lock ----------

  /** Nobody who wants the lock can make a step. */
  ghost predicate NoneTakes(m: Monitor) {
    && (forall t :: PlaceOf(m, t).Trying? ==> Tried(m, t) == m)
    && (forall t :: PlaceOf(m, t).Returning? && PlaceOf(m, t).cond < |m.conds| ==> Reacquired(m, t) == m)
  }

  lemma FreeLockTaken(m: Monitor, t: Tid)
    requires MonitorOk(m) && m.lock.owner.None? && !Asleep(m.lock, t)
    ensures PlaceOf(m, t).Trying? ==> Tried(m, t) != m
    ensures PlaceOf(m, t).Returning? ==> PlaceOf(m, t).cond < |m.conds| && Reacquired(m, t) != m
  {
    assert InCond(PlaceOf(m, t)) ==> PlaceOf(m, t).cond < |m.conds|;
  }

  /** If the lock is free and nobody takes it, nobody wants it: all threads are away or wait for a signal. */
  lemma FreeLockUnwanted(m: Monitor, t: Tid)
    requires MonitorOk(m) && m.lock.owner.None? && NoneTakes(m)
    ensures PlaceOf(m, t).Away? || (PlaceOf(m, t).Waiting? && PlaceOf(m, t).cond < |m.conds|)
  {
    assert InCond(PlaceOf(m, t)) ==> PlaceOf(m, t).cond < |m.conds|;
    if PlaceOf(m, t).Trying? || PlaceOf(m, t).Returning? {
      if Asleep(m.lock, t) {
        var u := SomebodyAwake(m.lock.sem);
        FreeLockTaken(m, u);
        assert Attending(m.lock, u);
      } else {
        FreeLockTaken(m, t);
      }
    }
  }
}
