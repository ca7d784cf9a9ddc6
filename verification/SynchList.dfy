/** The synchronized list (threads/synchlist.cc) in a monitor with one condition, for any number of
    threads and every interleaving. */
module SynchLists {
  import opened Options
  import opened Sets
  import opened Sequences
  import opened Semaphores
  import opened Locks
  import opened Conditions
  import opened Monitors

  /** What a thread does once it holds the lock.  `Remove(true)` has been in `Wait`. */
  datatype Job<T> = Idle | Append(item: T) | AppendDone | Remove(waited: bool)

  type Jobs<T> = map<Tid, Job<T>>

  datatype State<T> = State(
    mon: Monitor,                     // the lock and the condition listEmpty
    list: seq<T>,
    appended: seq<T>,               // all items appended so far
    removed: seq<T>,                // all items removed so far
    jobs: Jobs<T>)

  function JobIn<T>(jobs: Jobs<T>, t: Tid): Job<T> { if t in jobs then jobs[t] else Idle }

  function Start<T>(): State<T> { State(NewMonitor(1), [], [], [], map[]) }

  datatype Op<T> = CallAppend(tid: Tid, item: T) | CallRemove(tid: Tid) | Step(tid: Tid)

  /** With the lock held, up to the next point where interrupts come back on. */
  function Inside<T>(s: State<T>, t: Tid): State<T>
    requires |s.mon.conds| == 1
  {
    match JobIn(s.jobs, t)
    case Append(x) =>
      s.(mon := Signal(Recorded(s.mon, t), t, 0), list := s.list + [x], appended := s.appended + [x],
         jobs := s.jobs[t := AppendDone])
    case AppendDone => s.(mon := Left(s.mon, t), jobs := s.jobs[t := Idle])
    case Remove(_) =>
      if s.list == [] then s.(mon := Waited(s.mon, t, 0), jobs := s.jobs[t := Remove(true)])
      else s.(mon := Left(s.mon, t), list := s.list[1..], removed := s.removed + [s.list[0]], jobs := s.jobs[t := Idle])
    case Idle => s
  }

  function Steps<T>(s: State<T>, t: Tid): State<T>
    requires |s.mon.conds| == 1
  {
    match PlaceOf(s.mon, t)
    case Trying => s.(mon := Tried(s.mon, t))
    case Holding => Inside(s, t)
    case Returning(c) => if c == 0 then s.(mon := Reacquired(s.mon, t)) else s
    case _ => s
  }

  function Next<T>(s: State<T>, op: Op<T>): (s': State<T>)
    requires |s.mon.conds| == 1
    ensures |s'.mon.conds| == 1
  {
    match op
    case CallAppend(t, x) =>
      if PlaceOf(s.mon, t).Away? then s.(mon := Called(s.mon, t), jobs := s.jobs[t := Append(x)]) else s
    case CallRemove(t) =>
      if PlaceOf(s.mon, t).Away? then s.(mon := Called(s.mon, t), jobs := s.jobs[t := Remove(false)]) else s
    case Step(t) => Steps(s, t)
  }

  // ---------- the invariant ----------

  /** A thread has a job exactly while it is in the monitor, and waits only to remove. */
  ghost predicate JobsOk<T>(at: Places, jobs: Jobs<T>) {
    && (forall t :: PlaceIn(at, t).Away? <==> JobIn(jobs, t).Idle?)
    && (forall t :: InCond(PlaceIn(at, t)) ==> JobIn(jobs, t) == Remove(true))
  }

  /** The owner came back from `Wait` and has not looked at the list yet. */
  ghost function Back<T>(lock: Lock, jobs: Jobs<T>): nat {
    if lock.owner.Some? && JobIn(jobs, lock.owner.value) == Remove(true) then 1 else 0
  }

  /** While a thread waits, every item on the list has a signalled thread coming for it. */
  ghost predicate SignalsOk<T>(lock: Lock, c: Cond, list: seq<T>, jobs: Jobs<T>) {
    c.queue != [] ==> |list| <= |c.signalled| + Back(lock, jobs)
  }

  ghost predicate Inv<T>(s: State<T>) {
    && |s.mon.conds| == 1 && MonitorOk(s.mon) && JobsOk(s.mon.at, s.jobs)
    && SignalsOk(s.mon.lock, s.mon.conds[0], s.list, s.jobs)
    && s.appended == s.removed + s.list
  }

  /** A signal does not change what the threads are there for. */
  lemma SignalKeepsJobs<T>(m: Monitor, jobs: Jobs<T>, t: Tid, job: Job<T>)
    requires |m.conds| == 1 && MonitorOk(m) && JobsOk(m.at, jobs) && PlaceOf(m, t).Holding? && !job.Idle?
    ensures JobsOk(Signal(m, t, 0).at, jobs[t := job])
  {
    SignalOk(m, t, 0);
    var us := Signalled(m.conds[0], m.lock, t);
    assert CondOk(m.conds[0], 0, m.at);
    assert forall u :: u in us ==> PlaceOf(m, u) == Waiting(0);
  }

  lemma SignalKeepsSignals<T>(m: Monitor, list: seq<T>, jobs: Jobs<T>, t: Tid, x: T)
    requires |m.conds| == 1 && MonitorOk(m) && m.lock.holder == m.lock.owner == Some(t)
    requires JobIn(jobs, t).Append? && SignalsOk(m.lock, m.conds[0], list, jobs)
    ensures SignalsOk(m.lock, Signal(m, t, 0).conds[0], list + [x], jobs[t := AppendDone])
  {
    assert CondOk(m.conds[0], 0, m.at);
    SignalCounts(m.conds[0], 0, m.at, m.lock, t);
  }

  lemma AppendKeepsInv<T>(s: State<T>, t: Tid)
    requires Inv(s) && PlaceOf(s.mon, t).Holding? && JobIn(s.jobs, t).Append?
    ensures Inv(Steps(s, t))
  {
    var m := Recorded(s.mon, t);
    RecordedOk(s.mon, t);
    SignalOk(m, t, 0);
    SignalKeepsJobs(m, s.jobs, t, AppendDone);
    SignalKeepsSignals(m, s.list, s.jobs, t, JobIn(s.jobs, t).item);
    AppendedShape(s, t);
  }

  lemma AppendedShape<T>(s: State<T>, t: Tid)
    requires |s.mon.conds| == 1 && PlaceOf(s.mon, t).Holding? && JobIn(s.jobs, t).Append? && s.appended == s.removed + s.list
    ensures var x := JobIn(s.jobs, t).item;
      && Steps(s, t) ==
           State(Signal(Recorded(s.mon, t), t, 0), s.list + [x], s.appended + [x], s.removed, s.jobs[t := AppendDone])
      && s.appended + [x] == s.removed + (s.list + [x])
  {}

  lemma WaitKeepsInv<T>(s: State<T>, t: Tid)
    requires Inv(s) && PlaceOf(s.mon, t).Holding? && JobIn(s.jobs, t).Remove? && s.list == []
    ensures Inv(Steps(s, t))
  {
    WaitedOk(s.mon, t, 0);
  }

  /** The lock is given up and the call ends. */
  lemma LeaveKeepsInv<T>(s: State<T>, t: Tid)
    requires Inv(s) && PlaceOf(s.mon, t).Holding?
    requires JobIn(s.jobs, t).AppendDone? || (JobIn(s.jobs, t).Remove? && s.list != [])
    ensures Inv(Steps(s, t))
  {
    LeftOk(s.mon, t);
  }

  lemma ReacquireKeepsInv<T>(s: State<T>, t: Tid)
    requires Inv(s) && PlaceOf(s.mon, t).Returning?
    ensures Inv(Steps(s, t))
  {
    ReacquiredOk(s.mon, t);
    assert CondOk(s.mon.conds[0], 0, s.mon.at);
    assert t in s.mon.conds[0].signalled;
  }

  lemma NextKeepsInv<T>(s: State<T>, op: Op<T>)
    requires Inv(s)
    ensures Inv(Next(s, op))
  {
    var t := op.tid;
    var place, job := PlaceOf(s.mon, t), JobIn(s.jobs, t);
    if !op.Step? {
      if place.Away? {
        CalledOk(s.mon, t);
      }
    } else if place.Trying? {
      TriedOk(s.mon, t);
    } else if place.Returning? {
      ReacquireKeepsInv(s, t);
    } else if place.Holding? {
      if job.Append? {
        AppendKeepsInv(s, t);
      } else if job.Remove? && s.list == [] {
        WaitKeepsInv(s, t);
      } else {
        LeaveKeepsInv(s, t);
      }
    }
  }

  // ---------- every run ----------

  function Run<T>(s: State<T>, ops: seq<Op<T>>): (s': State<T>)
    requires |s.mon.conds| == 1
    ensures |s'.mon.conds| == 1
  {
    if ops == [] then s else Next(Run(s, ops[..|ops| - 1]), ops[|ops| - 1])
  }

  lemma {:induction false} RunKeepsInv<T>(ops: seq<Op<T>>)
    ensures Inv(Run(Start<T>(), ops))
  {
    if ops != [] {
      RunKeepsInv(ops[..|ops| - 1]);
      NextKeepsInv(Run(Start<T>(), ops[..|ops| - 1]), ops[|ops| - 1]);
    } else {
      NewMonitorOk(1);
    }
  }

  /** Items come off in the order in which they went on, none lost and none twice; so the
      assertion in `Remove` that no NULL comes out holds as long as none is appended. */
  lemma RemovedIsPrefix<T>(ops: seq<Op<T>>)
    ensures var s := Run(Start<T>(), ops);
            && s.removed <= s.appended
            && s.appended == s.removed + s.list
            && (forall x :: x in s.removed ==> x in s.appended)
  {
    RunKeepsInv(ops);
    var s := Run(Start<T>(), ops);
    assert forall x :: x in s.removed ==> x in s.appended;
  }

  /** No signal is lost: when the lock is free and threads wait, the list holds no more items
      than there are signalled threads on their way back. */
  lemma NoSignalLost<T>(ops: seq<Op<T>>)
    ensures var s := Run(Start<T>(), ops);
            s.mon.lock.owner == None && s.mon.conds[0].queue != [] ==> |s.list| <= |s.mon.conds[0].signalled|
  {
    RunKeepsInv(ops);
  }

  /** A thread that is awake in one of its calls to P. */
  ghost predicate CanTry(m: Monitor, t: Tid) {
    (PlaceOf(m, t).Trying? || PlaceOf(m, t).Returning?) && !Asleep(m.lock, t)
  }

  /** An item never sits on the list with the lock free, a thread waiting for it, and nobody
      awake to take the lock. */
  ghost predicate TakerFound<T>(s: State<T>)
    requires |s.mon.conds| == 1
  {
    s.mon.lock.owner == None && s.mon.conds[0].queue != [] && s.list != [] ==> exists t :: CanTry(s.mon, t)
  }

  lemma InvFindsTaker<T>(s: State<T>)
    requires Inv(s)
    ensures TakerFound(s)
  {
    var c := s.mon.conds[0];
    assert CondOk(c, 0, s.mon.at);
    if s.mon.lock.owner == None && c.queue != [] && s.list != [] {
      assert |c.signalled| > 0;
      var t := Member(c.signalled);
      if Asleep(s.mon.lock, t) {
        FreeLockHasTaker(s.mon.lock, t);
        var u := Member(s.mon.lock.sem.woken);
        assert Attending(s.mon.lock, u) && CanTry(s.mon, u);
      } else {
        assert CanTry(s.mon, t);
      }
    }
  }

  lemma ItemsFindTakers<T>(ops: seq<Op<T>>)
    ensures TakerFound(Run(Start<T>(), ops))
  {
    RunKeepsInv(ops);
    InvFindsTaker(Run(Start<T>(), ops));
  }

  // ---------- nothing is left undone ----------

  /** Nothing but a new call can change the state. */
  ghost predicate Quiet<T>(s: State<T>)
    requires |s.mon.conds| == 1
  {
    forall t :: Next(s, Step(t)) == s
  }

  lemma QuietFree<T>(s: State<T>)
    requires Inv(s) && Quiet(s)
    ensures s.mon.lock.owner.None? && NoneTakes(s.mon)
  {
    if s.mon.lock.owner.Some? {
      HolderMoves(s, s.mon.lock.owner.value);
    }
    forall t ensures PlaceOf(s.mon, t).Trying? ==> Tried(s.mon, t) == s.mon {
      assert Next(s, Step(t)) == s;
    }
    forall t ensures PlaceOf(s.mon, t).Returning? && PlaceOf(s.mon, t).cond < 1 ==> Reacquired(s.mon, t) == s.mon {
      assert Next(s, Step(t)) == s;
    }
  }

  lemma HolderMoves<T>(s: State<T>, t: Tid)
    requires Inv(s) && s.mon.lock.owner == Some(t)
    ensures Next(s, Step(t)) != s
  {
    assert PlaceOf(s.mon, t).Holding?;
  }

  /** If nothing but a new call can change the state, whoever has not returned waits for an item, and there is
      none. */
  lemma QuietWaitsForItems<T>(s: State<T>, t: Tid)
    requires Inv(s) && Quiet(s)
    ensures PlaceOf(s.mon, t).Away? || (PlaceOf(s.mon, t) == Waiting(0) && JobIn(s.jobs, t) == Remove(true) && s.list == [])
  {
    QuietFree(s);
    FreeLockUnwanted(s.mon, t);
    var c := s.mon.conds[0];
    assert CondOk(c, 0, s.mon.at);
    if PlaceOf(s.mon, t).Waiting? {
      assert t in c.queue;
      NoneSignalled(s);
    }
  }

  /** Over every run: nobody is stuck in a call while it could go on. */
  lemma NobodyStuck<T>(ops: seq<Op<T>>, t: Tid)
    requires Quiet(Run(Start<T>(), ops))
    ensures var s := Run(Start<T>(), ops); PlaceOf(s.mon, t).Away? || (JobIn(s.jobs, t).Remove? && s.list == [])
  {
    RunKeepsInv(ops);
    QuietWaitsForItems(Run(Start<T>(), ops), t);
  }

  lemma NoneSignalled<T>(s: State<T>)
    requires Inv(s) && s.mon.lock.owner.None? && NoneTakes(s.mon)
    ensures |s.mon.conds[0].signalled| == 0
  {
    var c := s.mon.conds[0];
    assert CondOk(c, 0, s.mon.at);
    if c.signalled != {} {
      var t := Member(c.signalled);
      FreeLockUnwanted(s.mon, t);
    }
  }

  /** The items of the calls of `Append` that a thread made in a run, and those that its steps put on the list. */
  ghost function CalledBy<T>(ops: seq<Op<T>>, t: Tid): seq<T> {
    if ops == [] then []
    else
      var before, op := ops[..|ops| - 1], ops[|ops| - 1];
      CalledBy(before, t) +
      if op.CallAppend? && op.tid == t && PlaceOf(Run(Start<T>(), before).mon, t).Away? then [op.item] else []
  }

  ghost function AppendedBy<T>(ops: seq<Op<T>>, t: Tid): seq<T> {
    if ops == [] then []
    else
      var before, op := ops[..|ops| - 1], ops[|ops| - 1];
      AppendedBy(before, t) + if op == Step(t) then Grown(Run(Start<T>(), before).appended, Run(Start<T>(), ops).appended) else []
  }

  function Grown<T>(a: seq<T>, b: seq<T>): seq<T> { if |a| <= |b| then b[|a|..] else [] }

  function Pending<T>(job: Job<T>): seq<T> { if job.Append? then [job.item] else [] }

  lemma AppendStep<T>(s: State<T>, op: Op<T>, t: Tid)
    requires Inv(s)
    ensures var s' := Next(s, op);
      Pending(JobIn(s.jobs, t)) + (if op.CallAppend? && op.tid == t && PlaceOf(s.mon, t).Away? then [op.item] else []) ==
        (if op == Step(t) then Grown(s.appended, s'.appended) else []) + Pending(JobIn(s'.jobs, t))
  {}

  /** Each item of a call of `Append` goes on the list, once and in the order of the thread's calls; only the
      call that the thread is in may be missing. */
  lemma {:induction false} CallsAppend<T>(ops: seq<Op<T>>, t: Tid)
    ensures CalledBy(ops, t) == AppendedBy(ops, t) + Pending(JobIn(Run(Start<T>(), ops).jobs, t))
  {
    if ops != [] {
      var before, op := ops[..|ops| - 1], ops[|ops| - 1];
      var s, s' := Run(Start<T>(), before), Run(Start<T>(), ops);
      CallsAppend(before, t);
      RunKeepsInv(before);
      AppendStep(s, op, t);
      Carried(AppendedBy(before, t), Pending(JobIn(s.jobs, t)),
              if op.CallAppend? && op.tid == t && PlaceOf(s.mon, t).Away? then [op.item] else [],
              if op == Step(t) then Grown(s.appended, s'.appended) else [], Pending(JobIn(s'.jobs, t)));
    }
  }

  /** How many calls of `Remove` a thread made in a run, and how many items its steps took off the list. */
  ghost function RemovesCalled<T>(ops: seq<Op<T>>, t: Tid): nat {
    if ops == [] then 0
    else
      var before, op := ops[..|ops| - 1], ops[|ops| - 1];
      RemovesCalled(before, t) + if op == CallRemove(t) && PlaceOf(Run(Start<T>(), before).mon, t).Away? then 1 else 0
  }

  ghost function TakenBy<T>(ops: seq<Op<T>>, t: Tid): nat {
    if ops == [] then 0
    else
      var before, op := ops[..|ops| - 1], ops[|ops| - 1];
      TakenBy(before, t) + if op == Step(t) then |Grown(Run(Start<T>(), before).removed, Run(Start<T>(), ops).removed)| else 0
  }

  lemma RemoveStep<T>(s: State<T>, op: Op<T>, t: Tid)
    requires Inv(s)
    ensures var s' := Next(s, op);
      (if JobIn(s.jobs, t).Remove? then 1 else 0) + (if op == CallRemove(t) && PlaceOf(s.mon, t).Away? then 1 else 0) ==
        (if op == Step(t) then |Grown(s.removed, s'.removed)| else 0) + if JobIn(s'.jobs, t).Remove? then 1 else 0
  {}

  /** Each call of `Remove` that has returned took one item. */
  lemma {:induction false} CallsRemove<T>(ops: seq<Op<T>>, t: Tid)
    ensures RemovesCalled(ops, t) == TakenBy(ops, t) + if JobIn(Run(Start<T>(), ops).jobs, t).Remove? then 1 else 0
  {
    if ops != [] {
      var before, op := ops[..|ops| - 1], ops[|ops| - 1];
      CallsRemove(before, t);
      RunKeepsInv(before);
      RemoveStep(Run(Start<T>(), before), op, t);
    }
  }
}
