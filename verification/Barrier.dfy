/** The barrier (threads/threadtest.cc) in a monitor with one condition: any number of threads, each
    of which runs through it once. */
module Barrier {
  import opened Options
  import opened Sets
  import opened Semaphores
  import opened Locks
  import opened Conditions
  import opened Monitors

  /** What a thread does once it holds the lock: count itself, or leave.  The wait is not in a loop,
      so whoever comes back from it leaves. */
  datatype Job = Outside | Arrive | Leave | Past

  type Jobs = map<Tid, Job>

  datatype State = State(
    members: set<Tid>,                // barrierSize is their number
    mon: Monitor,                     // conditionLock and barrierCondition
    count: nat,                       // barrierCnt
    arrived: set<Tid>,                // the threads that have counted themselves
    jobs: Jobs)

  function JobIn(jobs: Jobs, t: Tid): Job { if t in jobs then jobs[t] else Outside }

  function Start(members: set<Tid>): State { State(members, NewMonitor(1), 0, {}, map[]) }

  /** With the lock held: the last thread broadcasts, the others wait. */
  function Inside(s: State, t: Tid): State
    requires |s.mon.conds| == 1
  {
    match JobIn(s.jobs, t)
    case Arrive =>
      var s1 := s.(count := s.count + 1, arrived := s.arrived + {t}, jobs := s.jobs[t := Leave]);
      if s1.count == |s.members| then s1.(mon := Broadcast(Recorded(s.mon, t), t, 0))
      else s1.(mon := Waited(s.mon, t, 0))
    case Leave => s.(mon := Left(s.mon, t), jobs := s.jobs[t := Past])
    case _ => s
  }

  function Next(s: State, t: Tid): (s': State)
    requires |s.mon.conds| == 1
    ensures |s'.mon.conds| == 1
  {
    match PlaceOf(s.mon, t)
    case Away =>
      if t in s.members && JobIn(s.jobs, t).Outside?
      then s.(mon := Called(s.mon, t), jobs := s.jobs[t := Arrive]) else s
    case Trying => s.(mon := Tried(s.mon, t))
    case Holding => Inside(s, t)
    case Returning(c) => if c == 0 then s.(mon := Reacquired(s.mon, t)) else s
    case Waiting(_) => s
  }

  // ---------- the invariant ----------

  predicate Arrived(job: Job) { job.Leave? || job.Past? }

  /** Where the threads with each job are. */
  ghost predicate JobsOk(at: Places, jobs: Jobs) {
    forall t :: JobPlaced(PlaceIn(at, t), JobIn(jobs, t))
  }

  predicate JobPlaced(p: Place, job: Job) {
    match job
    case Outside => p.Away?
    case Past => p.Away?
    case Arrive => p.Trying? || p.Holding?
    case Leave => p.Holding? || InCond(p)
  }

  ghost predicate CountOk(s: State) {
    && s.count == |s.arrived| && s.arrived <= s.members
    && (forall t :: !JobIn(s.jobs, t).Outside? ==> t in s.members)
    && (forall t :: t in s.arrived <==> Arrived(JobIn(s.jobs, t)))
  }

  /** Until the last thread arrives, everybody who has arrived is in the queue; after that,
      nobody is. */
  ghost predicate QueueOk(s: State)
    requires |s.mon.conds| == 1
  {
    && (s.count < |s.members| ==> forall t :: t in s.arrived ==> PlaceOf(s.mon, t).Waiting?)
    && (s.count == |s.members| ==> s.mon.conds[0].queue == [])
  }

  ghost predicate Inv(s: State) {
    && s.members != {} && |s.mon.conds| == 1
    && MonitorOk(s.mon) && JobsOk(s.mon.at, s.jobs) && CountOk(s) && QueueOk(s)
  }

  /** A thread that arrives has not been counted, so the barrier is not full yet. */
  lemma NotFull(s: State, t: Tid)
    requires Inv(s) && JobIn(s.jobs, t).Arrive?
    ensures s.count < |s.members|
  {
    SubsetSize(s.arrived, s.members);
  }

  lemma LastKeepsInv(s: State, t: Tid)
    requires Inv(s) && PlaceOf(s.mon, t).Holding? && JobIn(s.jobs, t).Arrive? && s.count + 1 == |s.members|
    ensures Inv(Next(s, t))
  {
    var m := Recorded(s.mon, t);
    RecordedOk(s.mon, t);
    BroadcastOk(m, t, 0);
    assert CondOk(m.conds[0], 0, m.at);
  }

  lemma WaitKeepsInv(s: State, t: Tid)
    requires Inv(s) && PlaceOf(s.mon, t).Holding? && JobIn(s.jobs, t).Arrive? && s.count + 1 < |s.members|
    ensures Inv(Next(s, t))
  {
    WaitedOk(s.mon, t, 0);
  }

  lemma LeaveKeepsInv(s: State, t: Tid)
    requires Inv(s) && PlaceOf(s.mon, t).Holding? && JobIn(s.jobs, t).Leave?
    ensures Inv(Next(s, t))
  {
    LeftOk(s.mon, t);
  }

  lemma ReacquireKeepsInv(s: State, t: Tid)
    requires Inv(s) && PlaceOf(s.mon, t).Returning?
    ensures Inv(Next(s, t))
  {
    ReacquiredOk(s.mon, t);
    assert JobPlaced(PlaceOf(s.mon, t), JobIn(s.jobs, t));
    assert t in s.arrived;
  }

  lemma TryKeepsInv(s: State, t: Tid)
    requires Inv(s) && PlaceOf(s.mon, t).Trying?
    ensures Inv(Next(s, t))
  {
    TriedOk(s.mon, t);
    assert JobPlaced(PlaceOf(s.mon, t), JobIn(s.jobs, t));
  }

  lemma NextKeepsInv(s: State, t: Tid)
    requires Inv(s)
    ensures Inv(Next(s, t)) && Next(s, t).members == s.members
  {
    assert JobPlaced(PlaceOf(s.mon, t), JobIn(s.jobs, t));
    match PlaceOf(s.mon, t)
    case Away => CalledOk(s.mon, t);
    case Trying => TryKeepsInv(s, t);
    case Returning(_) => ReacquireKeepsInv(s, t);
    case Waiting(_) =>
    case Holding =>
      if JobIn(s.jobs, t).Leave? {
        LeaveKeepsInv(s, t);
      } else {
        NotFull(s, t);
        if s.count + 1 < |s.members| {
          WaitKeepsInv(s, t);
        } else {
          LastKeepsInv(s, t);
        }
      }
  }

  // ---------- every run ----------

  function Run(s: State, ts: seq<Tid>): (s': State)
    requires |s.mon.conds| == 1
    ensures |s'.mon.conds| == 1
  {
    if ts == [] then s else Next(Run(s, ts[..|ts| - 1]), ts[|ts| - 1])
  }

  lemma {:induction false} RunKeepsInv(members: set<Tid>, ts: seq<Tid>)
    requires members != {}
    ensures Inv(Run(Start(members), ts)) && Run(Start(members), ts).members == members
  {
    if ts != [] {
      RunKeepsInv(members, ts[..|ts| - 1]);
      NextKeepsInv(Run(Start(members), ts[..|ts| - 1]), ts[|ts| - 1]);
    } else {
      NewMonitorOk(1);
    }
  }

  /** Nobody gets past the barrier before everybody has arrived, and once everybody has, nobody is
      left behind in the queue. */
  lemma NobodyPassesEarly(members: set<Tid>, ts: seq<Tid>, t: Tid)
    requires members != {}
    ensures var s := Run(Start(members), ts);
            && (JobIn(s.jobs, t).Past? ==> s.arrived == members)
            && (s.arrived == members ==> s.mon.conds[0].queue == [] && forall u :: !PlaceOf(s.mon, u).Waiting?)
  {
    RunKeepsInv(members, ts);
    var s := Run(Start(members), ts);
    SubsetSize(s.arrived, s.members);
    assert JobPlaced(PlaceOf(s.mon, t), JobIn(s.jobs, t));
    assert CondOk(s.mon.conds[0], 0, s.mon.at);
    if s.arrived == members {
      forall u ensures !PlaceOf(s.mon, u).Waiting? {
        assert InCond(PlaceOf(s.mon, u)) ==> PlaceOf(s.mon, u).cond < 1;
      }
    }
  }

  /** The last thread to arrive finds all the others in the queue, and its broadcast makes every
      one of them ready. */
  lemma LastArrivalFindsAll(members: set<Tid>, ts: seq<Tid>, t: Tid)
    requires members != {}
    ensures var s := Run(Start(members), ts);
            PlaceOf(s.mon, t).Holding? && JobIn(s.jobs, t).Arrive? && s.count + 1 == |members| ==>
              && (forall u :: u in s.mon.conds[0].queue <==> u in members && u != t)
              && (forall u :: u in members && u != t ==> PlaceOf(Next(s, t).mon, u) == Returning(0))
  {
    RunKeepsInv(members, ts);
    var s := Run(Start(members), ts);
    if PlaceOf(s.mon, t).Holding? && JobIn(s.jobs, t).Arrive? && s.count + 1 == |members| {
      SubsetSize(s.arrived + {t}, members);
      assert CondOk(s.mon.conds[0], 0, s.mon.at);
      forall u ensures u in s.mon.conds[0].queue <==> u in members && u != t {
        assert JobPlaced(PlaceOf(s.mon, u), JobIn(s.jobs, u));
        assert InCond(PlaceOf(s.mon, u)) ==> PlaceOf(s.mon, u).cond < 1;
      }
      RecordedOk(s.mon, t);
      BroadcastOk(Recorded(s.mon, t), t, 0);
    }
  }

  // ---------- everybody gets past ----------

  ghost predicate Quiet(s: State)
    requires |s.mon.conds| == 1
  {
    forall t :: Next(s, t) == s
  }

  lemma HolderMoves(s: State, t: Tid)
    requires Inv(s) && s.mon.lock.owner == Some(t)
    ensures Next(s, t) != s
  {
    assert PlaceOf(s.mon, t).Holding? && JobPlaced(PlaceOf(s.mon, t), JobIn(s.jobs, t));
  }

  lemma QuietFree(s: State)
    requires Inv(s) && Quiet(s)
    ensures s.mon.lock.owner.None? && NoneTakes(s.mon)
  {
    if s.mon.lock.owner.Some? {
      HolderMoves(s, s.mon.lock.owner.value);
    }
    forall t ensures PlaceOf(s.mon, t).Trying? ==> Tried(s.mon, t) == s.mon {
      assert Next(s, t) == s;
    }
    forall t ensures PlaceOf(s.mon, t).Returning? && PlaceOf(s.mon, t).cond < 1 ==> Reacquired(s.mon, t) == s.mon {
      assert Next(s, t) == s;
    }
  }

  /** Once nobody can move, every member has arrived. */
  lemma QuietAllArrived(s: State)
    requires Inv(s) && Quiet(s)
    ensures s.arrived == s.members
  {
    QuietFree(s);
    forall t | t in s.members ensures t in s.arrived {
      FreeLockUnwanted(s.mon, t);
      assert Next(s, t) == s && JobPlaced(PlaceOf(s.mon, t), JobIn(s.jobs, t));
    }
  }

  /** Over every run: when nobody can move any more, every member is past the barrier. */
  lemma EverybodyPasses(members: set<Tid>, ts: seq<Tid>, t: Tid)
    requires members != {} && t in members && Quiet(Run(Start(members), ts))
    ensures JobIn(Run(Start(members), ts).jobs, t).Past?
  {
    RunKeepsInv(members, ts);
    var s := Run(Start(members), ts);
    QuietAllArrived(s);
    QuietFree(s);
    FreeLockUnwanted(s.mon, t);
    NobodyPassesEarly(members, ts, t);
    assert JobPlaced(PlaceOf(s.mon, t), JobIn(s.jobs, t));
  }
}
