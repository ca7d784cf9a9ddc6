/** Producers and consumers over a bounded buffer (threads/threadtest.cc) in a monitor with two
    conditions, for any number of threads and every interleaving. */
module BoundedBuffer {
  import opened Options
  import opened Sets
  import opened Semaphores
  import opened Locks
  import opened Conditions
  import opened Monitors

  const MAX_PRODUCT := 10

  datatype Role = Producer | Consumer

  /** The condition that a role waits for. */
  function CondFor(role: Role): nat { if role == Producer then 0 else 1 }
  function Other(role: Role): Role { if role == Producer then Consumer else Producer }

  /** What a thread does once it holds the lock.  `waited` says that it has been in `Wait`. */
  datatype Job = Idle | Work(role: Role, waited: bool) | Leave

  type Jobs = map<Tid, Job>

  datatype State = State(
    mon: Monitor,                     // the lock, produceCondition and consumeCondition
    products: seq<int>,               // ProductList
    productNum: int,                  // product_num
    produced: seq<int>,
    consumed: seq<int>,
    jobs: Jobs)

  function JobIn(jobs: Jobs, t: Tid): Job { if t in jobs then jobs[t] else Idle }

  function Start(): State { State(NewMonitor(2), [], 0, [], [], map[]) }

  /** The buffer after one more product was made or used. */
  function Changed(s: State, role: Role): State
    requires role == Consumer ==> s.products != []
  {
    match role
    case Producer =>
      var x := |s.produced|;          // a new product
      s.(products := s.products + [x], produced := s.produced + [x], productNum := s.productNum + 1)
    case Consumer =>
      s.(products := s.products[1..], consumed := s.consumed + [s.products[0]], productNum := s.productNum - 1)
  }

  /** The producer looks at the counter, the consumer at the list. */
  predicate MustWait(s: State, role: Role) {
    if role == Producer then s.productNum >= MAX_PRODUCT else s.products == []
  }

  /** With the lock held: wait, or change the buffer and signal the other side. */
  function Inside(s: State, t: Tid): State
    requires |s.mon.conds| == 2
  {
    match JobIn(s.jobs, t)
    case Work(role, _) =>
      if MustWait(s, role) then s.(mon := Waited(s.mon, t, CondFor(role)), jobs := s.jobs[t := Work(role, true)])
      else
        Changed(s, role).(mon := Signal(Recorded(s.mon, t), t, CondFor(Other(role))), jobs := s.jobs[t := Leave])
    case Leave => s.(mon := Left(s.mon, t), jobs := s.jobs[t := Idle])
    case Idle => s
  }

  datatype Op = Call(tid: Tid, role: Role) | Step(tid: Tid)

  function Next(s: State, op: Op): (s': State)
    requires |s.mon.conds| == 2
    ensures |s'.mon.conds| == 2
  {
    var t := op.tid;
    match op
    case Call(_, role) =>
      if PlaceOf(s.mon, t).Away? then s.(mon := Called(s.mon, t), jobs := s.jobs[t := Work(role, false)]) else s
    case Step(_) =>
      match PlaceOf(s.mon, t)
      case Trying => s.(mon := Tried(s.mon, t))
      case Holding => Inside(s, t)
      case Returning(c) => if c < 2 then s.(mon := Reacquired(s.mon, t)) else s
      case _ => s
  }

  // ---------- the invariant ----------

  ghost predicate JobsOk(at: Places, jobs: Jobs) {
    && (forall t :: PlaceIn(at, t).Away? <==> JobIn(jobs, t).Idle?)
    && (forall t :: InCond(PlaceIn(at, t)) ==>
          JobIn(jobs, t).Work? && JobIn(jobs, t).waited && PlaceIn(at, t).cond == CondFor(JobIn(jobs, t).role))
  }

  ghost predicate BufferOk(s: State) {
    && s.productNum == |s.products| <= MAX_PRODUCT
    && s.produced == s.consumed + s.products
  }

  /** The owner came back from `Wait` and has not looked at the buffer yet. */
  ghost function Back(lock: Lock, jobs: Jobs, role: Role): nat {
    if lock.owner.Some? && JobIn(jobs, lock.owner.value) == Work(role, true) then 1 else 0
  }

  /** Items for a consumer, room for a producer. */
  ghost function Supply(products: seq<int>, role: Role): int {
    if role == Producer then MAX_PRODUCT - |products| else |products|
  }

  /** While a thread waits, everything it could use has a signalled thread coming for it. */
  ghost predicate SignalsOk(m: Monitor, products: seq<int>, jobs: Jobs, role: Role)
    requires |m.conds| == 2
  {
    var c := m.conds[CondFor(role)];
    c.queue != [] ==> Supply(products, role) <= |c.signalled| + Back(m.lock, jobs, role)
  }

  ghost predicate Inv(s: State) {
    && |s.mon.conds| == 2 && MonitorOk(s.mon) && JobsOk(s.mon.at, s.jobs) && BufferOk(s)
    && SignalsOk(s.mon, s.products, s.jobs, Producer) && SignalsOk(s.mon, s.products, s.jobs, Consumer)
  }

  // ---------- every step keeps the invariant ----------

  lemma WaitKeepsInv(s: State, t: Tid)
    requires Inv(s) && PlaceOf(s.mon, t).Holding? && JobIn(s.jobs, t).Work? && MustWait(s, JobIn(s.jobs, t).role)
    ensures Inv(Next(s, Step(t)))
  {
    WaitedOk(s.mon, t, CondFor(JobIn(s.jobs, t).role));
  }

  lemma LeaveKeepsInv(s: State, t: Tid)
    requires Inv(s) && PlaceOf(s.mon, t).Holding? && JobIn(s.jobs, t).Leave?
    ensures Inv(Next(s, Step(t)))
  {
    LeftOk(s.mon, t);
  }

  lemma ReacquireKeepsInv(s: State, t: Tid)
    requires Inv(s) && PlaceOf(s.mon, t).Returning?
    ensures Inv(Next(s, Step(t)))
  {
    var c := PlaceOf(s.mon, t).cond;
    ReacquiredOk(s.mon, t);
    assert CondOk(s.mon.conds[c], c, s.mon.at);
    assert t in s.mon.conds[c].signalled;
  }

  lemma SignalKeepsJobs(m: Monitor, jobs: Jobs, t: Tid, c: nat)
    requires |m.conds| == 2 && c < 2 && MonitorOk(m) && JobsOk(m.at, jobs) && PlaceOf(m, t).Holding?
    ensures JobsOk(Signal(m, t, c).at, jobs[t := Leave])
  {
    SignalOk(m, t, c);
    var us := Signalled(m.conds[c], m.lock, t);
    assert CondOk(m.conds[c], c, m.at);
    assert forall u :: u in us ==> PlaceOf(m, u) == Waiting(c);
  }

  /** One more item for the other role comes with one more signal for it. */
  lemma SignalKeepsSignals(m: Monitor, products: seq<int>, products': seq<int>, jobs: Jobs, t: Tid, role: Role)
    requires |m.conds| == 2 && m.lock.owner == Some(t) && CondOk(m.conds[CondFor(Other(role))], CondFor(Other(role)), m.at)
    requires JobIn(jobs, t).Work? && JobIn(jobs, t).role == role
    requires SignalsOk(m, products, jobs, Producer) && SignalsOk(m, products, jobs, Consumer)
    requires Supply(products', role) == Supply(products, role) - 1
    requires Supply(products', Other(role)) == Supply(products, Other(role)) + 1
    ensures var m' := Signal(Recorded(m, t), t, CondFor(Other(role)));
      SignalsOk(m', products', jobs[t := Leave], Producer) && SignalsOk(m', products', jobs[t := Leave], Consumer)
  {
    var c := CondFor(Other(role));
    SignalCounts(m.conds[c], c, m.at, Record(m.lock, t), t);
  }

  lemma ChangeKeepsBuffer(s: State, role: Role)
    requires BufferOk(s) && !MustWait(s, role)
    ensures BufferOk(Changed(s, role))
    ensures var products' := Changed(s, role).products;
      && Supply(products', role) == Supply(s.products, role) - 1
      && Supply(products', Other(role)) == Supply(s.products, Other(role)) + 1
  {}

  lemma SignalKeepsMonitor(m: Monitor, t: Tid, c: nat)
    requires MonitorOk(m) && PlaceOf(m, t).Holding? && c < |m.conds|
    ensures MonitorOk(Signal(Recorded(m, t), t, c))
  {
    RecordedOk(m, t);
    SignalOk(Recorded(m, t), t, c);
  }

  lemma WorkKeepsInv(s: State, t: Tid)
    requires Inv(s) && PlaceOf(s.mon, t).Holding? && JobIn(s.jobs, t).Work? && !MustWait(s, JobIn(s.jobs, t).role)
    ensures Inv(Next(s, Step(t)))
  {
    var role := JobIn(s.jobs, t).role;
    var c := CondFor(Other(role));
    ChangeKeepsBuffer(s, role);
    SignalKeepsMonitor(s.mon, t, c);
    RecordedOk(s.mon, t);
    SignalKeepsJobs(Recorded(s.mon, t), s.jobs, t, c);
    assert CondOk(s.mon.conds[c], c, s.mon.at);
    SignalKeepsSignals(s.mon, s.products, Changed(s, role).products, s.jobs, t, role);
  }

  lemma NextKeepsInv(s: State, op: Op)
    requires Inv(s)
    ensures Inv(Next(s, op))
  {
    var t := op.tid;
    var place, job := PlaceOf(s.mon, t), JobIn(s.jobs, t);
    if op.Call? {
      if place.Away? {
        CalledOk(s.mon, t);
      }
    } else if place.Trying? {
      TriedOk(s.mon, t);
    } else if place.Returning? {
      ReacquireKeepsInv(s, t);
    } else if place.Holding? {
      if job.Leave? {
        LeaveKeepsInv(s, t);
      } else if MustWait(s, job.role) {
        WaitKeepsInv(s, t);
      } else {
        WorkKeepsInv(s, t);
      }
    }
  }

  // ---------- every run ----------

  function Run(s: State, ops: seq<Op>): (s': State)
    requires |s.mon.conds| == 2
    ensures |s'.mon.conds| == 2
  {
    if ops == [] then s else Next(Run(s, ops[..|ops| - 1]), ops[|ops| - 1])
  }

  lemma {:induction false} RunKeepsInv(ops: seq<Op>)
    ensures Inv(Run(Start(), ops))
  {
    if ops != [] {
      RunKeepsInv(ops[..|ops| - 1]);
      NextKeepsInv(Run(Start(), ops[..|ops| - 1]), ops[|ops| - 1]);
    } else {
      NewMonitorOk(2);
    }
  }

  /** The counter always agrees with the list and stays within bounds; products are consumed in
      the order in which they were produced. */
  lemma BufferBounded(ops: seq<Op>)
    ensures var s := Run(Start(), ops);
            0 <= s.productNum <= MAX_PRODUCT && s.productNum == |s.products| && s.consumed <= s.produced
  {
    RunKeepsInv(ops);
  }

  /** Neither side misses a signal: with the lock free, whatever a waiting thread could use has a
      signalled thread of that role coming for it. */
  lemma NoSignalLost(ops: seq<Op>, role: Role)
    ensures var s := Run(Start(), ops);
            var c := s.mon.conds[CondFor(role)];
            s.mon.lock.owner == None && c.queue != [] ==> Supply(s.products, role) <= |c.signalled|
  {
    RunKeepsInv(ops);
  }

  // ---------- nothing is left undone ----------

  /** Nothing but a new call can change the state. */
  ghost predicate Quiet(s: State)
    requires |s.mon.conds| == 2
  {
    forall t :: Next(s, Step(t)) == s
  }

  lemma HolderMoves(s: State, t: Tid)
    requires Inv(s) && s.mon.lock.owner == Some(t)
    ensures Next(s, Step(t)) != s
  {
    assert PlaceOf(s.mon, t).Holding?;
  }

  lemma QuietFree(s: State)
    requires Inv(s) && Quiet(s)
    ensures s.mon.lock.owner.None? && NoneTakes(s.mon)
  {
    if s.mon.lock.owner.Some? {
      HolderMoves(s, s.mon.lock.owner.value);
    }
    forall t ensures PlaceOf(s.mon, t).Trying? ==> Tried(s.mon, t) == s.mon {
      assert Next(s, Step(t)) == s;
    }
    forall t ensures PlaceOf(s.mon, t).Returning? && PlaceOf(s.mon, t).cond < 2 ==> Reacquired(s.mon, t) == s.mon {
      assert Next(s, Step(t)) == s;
    }
  }

  lemma NoneSignalled(s: State, c: nat)
    requires Inv(s) && s.mon.lock.owner.None? && NoneTakes(s.mon) && c < 2
    ensures |s.mon.conds[c].signalled| == 0
  {
    assert CondOk(s.mon.conds[c], c, s.mon.at);
    if s.mon.conds[c].signalled != {} {
      var t := Member(s.mon.conds[c].signalled);
      FreeLockUnwanted(s.mon, t);
    }
  }

  /** Over every run: if nothing but a new call can change the state, whoever has not returned waits, a producer
      because the buffer is full and a consumer because it is empty; so never both. */
  lemma NobodyStuck(ops: seq<Op>, t: Tid)
    requires Quiet(Run(Start(), ops))
    ensures var s := Run(Start(), ops);
      || PlaceOf(s.mon, t).Away?
      || (JobIn(s.jobs, t).Work? && |s.products| == if JobIn(s.jobs, t).role == Producer then MAX_PRODUCT else 0)
  {
    var s := Run(Start(), ops);
    RunKeepsInv(ops);
    QuietFree(s);
    FreeLockUnwanted(s.mon, t);
    if PlaceOf(s.mon, t).Waiting? {
      var c := PlaceOf(s.mon, t).cond;
      assert CondOk(s.mon.conds[c], c, s.mon.at);
      assert t in s.mon.conds[c].queue;
      NoneSignalled(s, c);
    }
  }

  /** How many calls a thread made in a run, and how often its steps changed the buffer. */
  ghost function Calls(ops: seq<Op>, t: Tid, role: Role): nat {
    if ops == [] then 0
    else
      var before, op := ops[..|ops| - 1], ops[|ops| - 1];
      Calls(before, t, role) + if op == Call(t, role) && PlaceOf(Run(Start(), before).mon, t).Away? then 1 else 0
  }

  ghost function Changes(ops: seq<Op>, t: Tid, role: Role): int {
    if ops == [] then 0
    else
      var before, op := ops[..|ops| - 1], ops[|ops| - 1];
      Changes(before, t, role) + if op == Step(t) then Made(Run(Start(), ops), role) - Made(Run(Start(), before), role) else 0
  }

  function Made(s: State, role: Role): nat { if role == Producer then |s.produced| else |s.consumed| }

  function Open(job: Job, role: Role): nat { if job.Work? && job.role == role then 1 else 0 }

  lemma CallStep(s: State, op: Op, t: Tid, role: Role)
    requires Inv(s)
    ensures var s' := Next(s, op);
      Open(JobIn(s.jobs, t), role) + (if op == Call(t, role) && PlaceOf(s.mon, t).Away? then 1 else 0) ==
        (if op == Step(t) then Made(s', role) - Made(s, role) else 0) + Open(JobIn(s'.jobs, t), role)
  {}

  /** Every call changes the buffer exactly once before it returns: a producer's makes one product, a consumer's
      uses one. */
  lemma {:induction false} CallsChangeOnce(ops: seq<Op>, t: Tid, role: Role)
    ensures Calls(ops, t, role) == Changes(ops, t, role) + Open(JobIn(Run(Start(), ops).jobs, t), role)
  {
    if ops != [] {
      var before, op := ops[..|ops| - 1], ops[|ops| - 1];
      CallsChangeOnce(before, t, role);
      RunKeepsInv(before);
      CallStep(Run(Start(), before), op, t, role);
    }
  }
}
