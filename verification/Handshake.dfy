/** One caller at a time hands a request to a device and sleeps until its completion interrupt: a lock,
    a semaphore and the interrupt, for any number of threads.  The synchronous disk and the sending
    side of the post office are both built this way. */
module Handshakes {
  import opened Options
  import opened Sequences
  import opened Semaphores
  import opened Locks

  /** `id` numbers the requests made to the device. */
  datatype Pc<R> = Idle | InP(request: R) | Body(request: R) | Pending(request: R, id: nat) | Finished(request: R, id: nat)

  type Pcs<R> = map<Tid, Pc<R>>

  datatype State<R> = State(
    lock: Lock,
    semaphore: Sem,
    busy: bool,                       // Disk::active; what Network::sendBusy is meant to record
    outstanding: nat,                 // completion interrupts scheduled and not yet delivered
    completed: nat,                   // completion interrupts delivered so far
    log: seq<R>,                      // the requests made to the device, in order
    failed: bool,                     // the device was asked while busy
    pc: Pcs<R>)

  function PcAt<R>(pc: Pcs<R>, t: Tid): Pc<R> { if t in pc then pc[t] else Idle }
  function At<R>(s: State<R>, t: Tid): Pc<R> { PcAt(s.pc, t) }

  function Start<R>(): State<R> { State(NewLock(), NewSem(0), false, 0, 0, [], false, map[]) }

  datatype Op<R> = Call(tid: Tid, request: R) | Step(tid: Tid) | Interrupt

  /** The device takes the request; its completion is for later. */
  function DeviceRequest<R>(s: State<R>, r: R): State<R> {
    s.(failed := s.failed || s.busy, busy := true, outstanding := s.outstanding + 1, log := s.log + [r])
  }

  /** A pass through P after the request. */
  function Waits<R>(s: State<R>, t: Tid, r: R, id: nat): State<R> {
    s.(semaphore := TryP(s.semaphore, t),
       pc := s.pc[t := if s.semaphore.value > 0 then Finished(r, id) else Pending(r, id)])
  }

  function Next<R>(s: State<R>, op: Op<R>): State<R> {
    match op
    case Call(t, r) => if At(s, t).Idle? then s.(pc := s.pc[t := InP(r)]) else s
    case Interrupt =>
      if s.outstanding == 0 then s
      else s.(busy := false, outstanding := s.outstanding - 1, completed := s.completed + 1, semaphore := V(s.semaphore))
    case Step(t) =>
      match At(s, t)
      case InP(r) =>
        if Asleep(s.lock, t) then s
        else s.(lock := Try(s.lock, t), pc := s.pc[t := if s.lock.sem.value > 0 then Body(r) else InP(r)])
      case Body(r) =>
        var s1 := DeviceRequest(s.(lock := Record(s.lock, t)), r);
        Waits(s1, t, r, |s1.log|)
      case Pending(r, id) => if t in s.semaphore.queue then s else Waits(s, t, r, id)
      case Finished(_, _) => s.(lock := Release(s.lock), pc := s.pc[t := Idle])
      case Idle => s
  }

  /** The step at which a request reaches the device. */
  predicate Reaches<R>(s: State<R>, op: Op<R>) { op.Step? && At(s, op.tid).Body? }

  // ---------- the invariant ----------

  predicate Inside<R>(pc: Pc<R>) { pc.Body? || pc.Pending? || pc.Finished? }

  predicate Served<R>(pc: Pc<R>) { pc.Pending? || pc.Finished? }

  ghost predicate LockUse<R>(s: State<R>) {
    && LockOk(s.lock)
    && (forall t :: Inside(At(s, t)) <==> s.lock.owner == Some(t))
    && (forall t :: Attending(s.lock, t) ==> At(s, t).InP?)
  }

  ghost predicate Someone<R>(s: State<R>) {
    s.lock.owner.Some? && At(s, s.lock.owner.value).Pending?
  }

  /** A request is on its way exactly while its caller waits: either the completion interrupt is
      still to come, or it has left its mark in the semaphore. */
  ghost predicate Handshake<R>(s: State<R>) {
    && SemOk(s.semaphore)
    && (forall t :: t in s.semaphore.queue || t in s.semaphore.woken ==> At(s, t).Pending?)
    && s.outstanding + s.semaphore.value == (if Someone(s) then 1 else 0)
    && (s.busy <==> s.outstanding == 1)
    && s.completed + s.outstanding == |s.log|
    && !s.failed
  }

  /** The request in hand is the last one made. */
  ghost predicate Latest<R>(log: seq<R>, r: R, id: nat) { id == |log| > 0 && log[id - 1] == r }

  ghost predicate Numbered<R>(s: State<R>) {
    && (forall t :: At(s, t).Pending? ==> Latest(s.log, At(s, t).request, At(s, t).id))
    && (forall t :: At(s, t).Finished? ==> At(s, t).id <= s.completed && Latest(s.log, At(s, t).request, At(s, t).id))
  }

  ghost predicate Inv<R>(s: State<R>) { LockUse(s) && Handshake(s) && Numbered(s) }

  lemma TryKeepsInv<R>(s: State<R>, t: Tid)
    requires Inv(s) && At(s, t).InP?
    ensures Inv(Next(s, Step(t)))
  {
    if !Asleep(s.lock, t) {
      TryOk(s.lock, t);
    }
  }

  lemma BodyKeepsInv<R>(s: State<R>, t: Tid)
    requires Inv(s) && At(s, t).Body?
    ensures Inv(Next(s, Step(t)))
  {
    TryPOk(s.semaphore, t);
  }

  lemma PendingKeepsInv<R>(s: State<R>, t: Tid)
    requires Inv(s) && At(s, t).Pending?
    ensures Inv(Next(s, Step(t)))
  {
    if t !in s.semaphore.queue {
      TryPOk(s.semaphore, t);
    }
  }

  lemma FinishedKeepsInv<R>(s: State<R>, t: Tid)
    requires Inv(s) && At(s, t).Finished?
    ensures Inv(Next(s, Step(t)))
  {
    ReleaseOk(s.lock);
  }

  lemma InterruptKeepsInv<R>(s: State<R>)
    requires Inv(s)
    ensures Inv(Next(s, Interrupt))
  {
    VOk(s.semaphore);
  }

  lemma NextKeepsInv<R>(s: State<R>, op: Op<R>)
    requires Inv(s)
    ensures Inv(Next(s, op))
  {
    match op
    case Call(_, _) =>
    case Interrupt => InterruptKeepsInv(s);
    case Step(t) =>
      match At(s, t)
      case InP(_) => TryKeepsInv(s, t);
      case Body(_) => BodyKeepsInv(s, t);
      case Pending(_, _) => PendingKeepsInv(s, t);
      case Finished(_, _) => FinishedKeepsInv(s, t);
      case Idle =>
  }

  /** A request is logged exactly when it reaches the device. */
  lemma NextLog<R>(s: State<R>, op: Op<R>)
    ensures Next(s, op).log == if Reaches(s, op) then s.log + [At(s, op.tid).request] else s.log
  {}

  /** Whoever waits for the device, or has its answer, already did unless the request has just reached it. */
  lemma StaysServed<R>(s: State<R>, op: Op<R>, t: Tid)
    requires !Reaches(s, op) && Served(At(Next(s, op), t))
    ensures Served(At(s, t)) && At(s, t).id == At(Next(s, op), t).id && At(s, t).request == At(Next(s, op), t).request
  {}

  // ---------- every run ----------

  function Run<R>(s: State<R>, ops: seq<Op<R>>): State<R> {
    if ops == [] then s else Next(Run(s, ops[..|ops| - 1]), ops[|ops| - 1])
  }

  lemma {:induction false} RunKeepsInv<R>(ops: seq<Op<R>>)
    ensures Inv(Run(Start<R>(), ops))
  {
    if ops != [] {
      RunKeepsInv(ops[..|ops| - 1]);
      NextKeepsInv(Run(Start<R>(), ops[..|ops| - 1]), ops[|ops| - 1]);
    }
  }

  /** The device is never asked while it is busy, and at most one completion is outstanding. */
  lemma OneRequestAtATime<R>(ops: seq<Op<R>>)
    ensures var s := Run(Start<R>(), ops);
            !s.failed && s.outstanding <= 1 && (s.busy <==> s.outstanding == 1)
  {
    RunKeepsInv(ops);
  }

  /** A request that reaches the device while it is busy fails its assertion; it is busy from a request to the
      completion interrupt. */
  lemma BusyFails<R>(s: State<R>, op: Op<R>)
    ensures Reaches(s, op) ==> Next(s, op).busy && Next(s, op).failed == (s.failed || s.busy)
    ensures op.Interrupt? && s.outstanding > 0 ==> !Next(s, op).busy
    ensures !Reaches(s, op) && !op.Interrupt? ==> Next(s, op).busy == s.busy
  {}

  // ---------- nothing is left undone ----------

  /** Nothing but a new call can change the state. */
  ghost predicate Quiet<R>(s: State<R>) { Next(s, Interrupt) == s && forall t :: Next(s, Step(t)) == s }

  lemma QuietOwner<R>(s: State<R>)
    requires Inv(s) && Quiet(s)
    ensures s.lock.owner.None?
  {
    if s.lock.owner.Some? {
      var o := s.lock.owner.value;
      assert Next(s, Step(o)) == s && Inside(At(s, o));
      if At(s, o).Pending? && o in s.semaphore.queue {
        var u := SomebodyAwake(s.semaphore);
        assert false;
      }
    }
  }

  /** If nothing but a new call can change the state, every call has returned: neither the lock nor the
      device leaves anybody behind. */
  lemma QuietIsIdle<R>(s: State<R>, t: Tid)
    requires Inv(s) && Quiet(s)
    ensures At(s, t).Idle?
  {
    QuietOwner(s);
    assert Next(s, Step(t)) == s;
    if Asleep(s.lock, t) {
      var u := SomebodyAwake(s.lock.sem);
      assert Next(s, Step(u)) == s && Attending(s.lock, u);
    }
  }

  lemma NobodyStuck<R>(ops: seq<Op<R>>, t: Tid)
    requires Quiet(Run(Start<R>(), ops))
    ensures At(Run(Start<R>(), ops), t).Idle?
  {
    RunKeepsInv(ops);
    QuietIsIdle(Run(Start<R>(), ops), t);
  }

  /** The requests of the calls that a thread made in a run, and those of its requests that its steps gave
      to the device. */
  ghost function CalledBy<R>(ops: seq<Op<R>>, t: Tid): seq<R> {
    if ops == [] then []
    else
      var before, op := ops[..|ops| - 1], ops[|ops| - 1];
      CalledBy(before, t) + if op.Call? && op.tid == t && At(Run(Start<R>(), before), t).Idle? then [op.request] else []
  }

  ghost function GivenBy<R>(ops: seq<Op<R>>, t: Tid): seq<R> {
    if ops == [] then []
    else
      var before, op := ops[..|ops| - 1], ops[|ops| - 1];
      var log, log' := Run(Start<R>(), before).log, Run(Start<R>(), ops).log;
      GivenBy(before, t) + if op.Step? && op.tid == t && |log| <= |log'| then log'[|log|..] else []
  }

  /** What a thread has yet to give to the device. */
  function InHand<R>(pc: Pc<R>): seq<R> { if pc.InP? || pc.Body? then [pc.request] else [] }

  lemma CallStep<R>(s: State<R>, op: Op<R>, t: Tid)
    ensures var s' := Next(s, op);
      && |s.log| <= |s'.log|
      && InHand(At(s, t)) + (if op.Call? && op.tid == t && At(s, t).Idle? then [op.request] else []) ==
           (if op.Step? && op.tid == t then s'.log[|s.log|..] else []) + InHand(At(s', t))
  {
    NextLog(s, op);
  }

  /** A thread's requests reach the device one by one, in the order of its calls; only the call that it is
      in may be missing, and none is when it has returned. */
  lemma {:induction false} CallsReachDevice<R>(ops: seq<Op<R>>, t: Tid)
    ensures CalledBy(ops, t) == GivenBy(ops, t) + InHand(At(Run(Start<R>(), ops), t))
  {
    if ops != [] {
      var before, op := ops[..|ops| - 1], ops[|ops| - 1];
      var s, s' := Run(Start<R>(), before), Run(Start<R>(), ops);
      CallsReachDevice(before, t);
      CallStep(s, op, t);
      Carried(GivenBy(before, t), InHand(At(s, t)),
              if op.Call? && op.tid == t && At(s, t).Idle? then [op.request] else [],
              if op.Step? && op.tid == t then s'.log[|s.log|..] else [], InHand(At(s', t)));
    }
  }

  // ---------- the end of a call ----------

  /** A call returns only after the completion interrupt of its own request. */
  ghost predicate AfterOwn<R>(s: State<R>, t: Tid) {
    At(s, t).Finished? ==>
      0 < At(s, t).id <= s.completed <= |s.log| && s.log[At(s, t).id - 1] == At(s, t).request
  }

  lemma InvAfterOwn<R>(s: State<R>, t: Tid)
    requires Inv(s)
    ensures AfterOwn(s, t)
  {}

  lemma ReturnsAfterOwnCompletion<R>(ops: seq<Op<R>>, t: Tid)
    ensures AfterOwn(Run(Start<R>(), ops), t)
  {
    RunKeepsInv(ops);
  }
}
