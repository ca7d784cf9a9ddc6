/** Readers and writers over two locks (threads/threadtest.cc), for any number of threads.

    The write lock may be taken by the first reader and released by a different, last one.  A
    writer's increment is split into a load and a store, with a preemption point between them that
    the source does not have: exclusion, not luck, keeps updates from being lost. */
module ReadersWriters {
  import opened Options
  import opened Sets
  import opened Semaphores
  import opened Locks

  datatype Pc =
    | Idle
    | EnterP | Entering               // Acquire of rcLock; then the counter goes up
    | FirstP | HasWrite               // the first reader acquires writeLock
    | Reading
    | ExitP | Exiting                 // Acquire of rcLock; then the counter goes down
    | Unlocking                       // the last reader has released writeLock
    | WriteP | Writing | Storing(loaded: int) | Stored

  datatype State = State(
    rc: Lock,                         // rcLock
    write: Lock,                      // writeLock
    readerCount: int,
    counted: set<Tid>,                // the readers behind readerCount
    content: int,
    increments: nat,                  // increments completed so far
    pc: map<Tid, Pc>)

  type Pcs = map<Tid, Pc>
  function PcAt(pc: Pcs, t: Tid): Pc { if t in pc then pc[t] else Idle }
  function At(s: State, t: Tid): Pc { PcAt(s.pc, t) }

  function Start(): State { State(NewLock(), NewLock(), 0, {}, 0, 0, map[]) }

  datatype Op = CallRead(tid: Tid) | CallWrite(tid: Tid) | Step(tid: Tid)

  function To(s: State, t: Tid, pc: Pc): State { s.(pc := s.pc[t := pc]) }

  /** A pass through P of one of the locks. */
  function TryRc(s: State, t: Tid, next: Pc): State {
    if Asleep(s.rc, t) then s
    else if s.rc.sem.value > 0 then To(s.(rc := Try(s.rc, t)), t, next)
    else s.(rc := Try(s.rc, t))
  }

  function TryWrite(s: State, t: Tid, wait: Pc, next: Pc): State {
    if Asleep(s.write, t) then s
    else To(s.(write := Try(s.write, t)), t, if s.write.sem.value > 0 then next else wait)
  }

  function Next(s: State, op: Op): State {
    var t := op.tid;
    match op
    case CallRead(_) => if At(s, t) == Idle then To(s, t, EnterP) else s
    case CallWrite(_) => if At(s, t) == Idle then To(s, t, WriteP) else s
    case Step(_) =>
      match At(s, t)
      case Idle => s
      case EnterP => TryRc(s, t, Entering)
      case Entering =>
        var s1 := s.(rc := Record(s.rc, t), readerCount := s.readerCount + 1, counted := s.counted + {t});
        if s1.readerCount == 1 then TryWrite(s1, t, FirstP, HasWrite)
        else To(s1.(rc := Release(s1.rc)), t, Reading)
      case FirstP => TryWrite(s, t, FirstP, HasWrite)
      case HasWrite => To(s.(write := Record(s.write, t), rc := Release(s.rc)), t, Reading)
      case Reading => To(s, t, ExitP)
      case ExitP => TryRc(s, t, Exiting)
      case Exiting =>
        var s1 := s.(rc := Record(s.rc, t), readerCount := s.readerCount - 1, counted := s.counted - {t});
        if s1.readerCount == 0 then To(s1.(write := Release(s1.write)), t, Unlocking)
        else To(s1.(rc := Release(s1.rc)), t, Idle)
      case Unlocking => To(s.(rc := Release(s.rc)), t, Idle)
      case WriteP => TryWrite(s, t, WriteP, Writing)
      case Writing => To(s.(write := Record(s.write, t)), t, Storing(s.content))
      case Storing(x) => To(s.(content := x + 1, increments := s.increments + 1), t, Stored)
      case Stored => To(s.(write := Release(s.write)), t, Idle)
  }

  // ---------- the invariant ----------

  predicate HoldsRc(pc: Pc) { pc.Entering? || pc.FirstP? || pc.HasWrite? || pc.Exiting? || pc.Unlocking? }
  predicate TriesRc(pc: Pc) { pc.EnterP? || pc.ExitP? }
  predicate TriesWrite(pc: Pc) { pc.WriteP? || pc.FirstP? }
  predicate Writes(pc: Pc) { pc.Writing? || pc.Storing? || pc.Stored? }
  /** A reader on whose behalf the write lock is held, whoever took it. */
  predicate Shares(pc: Pc) { pc.HasWrite? || pc.Reading? || pc.ExitP? || pc.Exiting? }
  predicate Counted(pc: Pc) { pc.FirstP? || Shares(pc) }

  ghost predicate RcUse(rc: Lock, pc: Pcs) {
    && LockOk(rc)
    && (forall t :: HoldsRc(PcAt(pc, t)) <==> rc.owner == Some(t))
    && (forall t :: Attending(rc, t) ==> TriesRc(PcAt(pc, t)))
  }

  /** A writer or the first reader owns the lock it has taken; the lock is owned by somebody who
      does not write as long as a reader shares it. */
  ghost predicate WriteUse(write: Lock, pc: Pcs) {
    && LockOk(write)
    && (forall t :: Writes(PcAt(pc, t)) || PcAt(pc, t).HasWrite? ==> write.owner == Some(t))
    && (forall t :: Attending(write, t) ==> TriesWrite(PcAt(pc, t)))
    && (forall t :: Shares(PcAt(pc, t)) ==> write.owner.Some? && !Writes(PcAt(pc, write.owner.value)))
  }

  ghost predicate CountOk(readerCount: int, counted: set<Tid>, pc: Pcs) {
    && readerCount == |counted|
    && (forall t :: t in counted <==> Counted(PcAt(pc, t)))
    && (forall t :: PcAt(pc, t).FirstP? || PcAt(pc, t).HasWrite? ==> counted == {t})
  }

  ghost predicate ContentOk(content: int, increments: nat, pc: Pcs) {
    content == increments && forall t :: PcAt(pc, t).Storing? ==> PcAt(pc, t).loaded == content
  }

  ghost predicate Inv(s: State) {
    && RcUse(s.rc, s.pc) && WriteUse(s.write, s.pc)
    && CountOk(s.readerCount, s.counted, s.pc) && ContentOk(s.content, s.increments, s.pc)
  }

  // ---------- how the parts change ----------

  lemma Updated(pc: Pcs, t: Tid, next: Pc, pc': Pcs)
    requires pc' == pc[t := next]
    ensures forall u :: PcAt(pc', u) == if u == t then next else PcAt(pc, u)
  {
    forall u ensures PcAt(pc', u) == if u == t then next else PcAt(pc, u) {}
  }

  lemma RcMove(rc: Lock, pc: Pcs, t: Tid, next: Pc)
    requires RcUse(rc, pc) && HoldsRc(next) == HoldsRc(PcAt(pc, t)) && (Attending(rc, t) ==> TriesRc(next))
    ensures RcUse(rc, pc[t := next])
  {}

  lemma RcTry(rc: Lock, pc: Pcs, t: Tid, next: Pc)
    requires RcUse(rc, pc) && !Asleep(rc, t) && TriesRc(PcAt(pc, t)) && HoldsRc(next)
    ensures rc.owner.None? ==> RcUse(Try(rc, t), pc[t := next])
    ensures rc.owner.Some? ==> RcUse(Try(rc, t), pc)
  {
    TryOk(rc, t);
  }

  lemma RcRelease(rc: Lock, pc: Pcs, t: Tid, next: Pc)
    requires RcUse(rc, pc) && HoldsRc(PcAt(pc, t)) && !HoldsRc(next)
    ensures RcUse(Release(rc), pc[t := next]) && RcUse(Release(Record(rc, t)), pc[t := next])
  {
    ReleaseOk(rc);
    ReleaseOk(Record(rc, t));
  }

  lemma WriteMove(write: Lock, pc: Pcs, t: Tid, next: Pc)
    requires WriteUse(write, pc) && Writes(next) == Writes(PcAt(pc, t))
    requires (next.HasWrite? ==> write.owner == Some(t)) && (Attending(write, t) ==> TriesWrite(next))
    requires Shares(next) ==> exists u :: Shares(PcAt(pc, u))
    ensures WriteUse(write, pc[t := next])
    ensures write.owner == Some(t) ==> WriteUse(Record(write, t), pc[t := next])
  {
    Updated(pc, t, next, pc[t := next]);
  }

  lemma WriteTake(write: Lock, pc: Pcs, t: Tid, next: Pc)
    requires WriteUse(write, pc) && write.owner.None? && !Asleep(write, t) && (next.Writing? || next.HasWrite?)
    ensures WriteUse(Try(write, t), pc[t := next])
  {
    TryOk(write, t);
    Updated(pc, t, next, pc[t := next]);
  }

  lemma WriteTry(write: Lock, pc: Pcs, t: Tid, wait: Pc, next: Pc)
    requires WriteUse(write, pc) && !Asleep(write, t) && TriesWrite(wait) && (next.Writing? || next.HasWrite?)
    requires !Writes(PcAt(pc, t)) && !Shares(PcAt(pc, t))
    ensures WriteUse(Try(write, t), pc[t := if write.owner.None? then next else wait])
  {
    if write.owner.None? {
      WriteTake(write, pc, t, next);
    } else {
      TryOk(write, t);
      Updated(pc, t, wait, pc[t := wait]);
    }
  }

  lemma WriteRelease(write: Lock, pc: Pcs, t: Tid, next: Pc)
    requires WriteUse(write, pc) && write.owner.Some? && !Attending(write, t)
    requires forall u :: u != t ==> !Writes(PcAt(pc, u)) && !Shares(PcAt(pc, u))
    requires !Writes(next) && !Shares(next)
    ensures WriteUse(Release(write), pc[t := next])
  {
    ReleaseOk(write);
    Updated(pc, t, next, pc[t := next]);
  }

  lemma CountMove(n: int, counted: set<Tid>, pc: Pcs, t: Tid, next: Pc)
    requires CountOk(n, counted, pc) && Counted(next) == Counted(PcAt(pc, t))
    requires next.FirstP? || next.HasWrite? ==> counted == {t}
    ensures CountOk(n, counted, pc[t := next])
  {}

  lemma CountUp(n: int, counted: set<Tid>, pc: Pcs, t: Tid, next: Pc)
    requires CountOk(n, counted, pc) && !Counted(PcAt(pc, t)) && Counted(next)
    requires forall u :: !PcAt(pc, u).FirstP? && !PcAt(pc, u).HasWrite?
    requires next.FirstP? || next.HasWrite? ==> n == 0
    ensures CountOk(n + 1, counted + {t}, pc[t := next])
  {}

  lemma CountDown(n: int, counted: set<Tid>, pc: Pcs, t: Tid, next: Pc)
    requires CountOk(n, counted, pc) && Counted(PcAt(pc, t)) && !Counted(next)
    requires forall u :: !PcAt(pc, u).FirstP? && !PcAt(pc, u).HasWrite?
    ensures CountOk(n - 1, counted - {t}, pc[t := next])
  {}

  lemma ContentMove(content: int, increments: nat, pc: Pcs, t: Tid, next: Pc)
    requires ContentOk(content, increments, pc) && (next.Storing? ==> next.loaded == content)
    ensures ContentOk(content, increments, pc[t := next])
  {
    Updated(pc, t, next, pc[t := next]);
  }

  // ---------- every step keeps the invariant ----------

  lemma TryRcKeepsInv(s: State, t: Tid, next: Pc)
    requires Inv(s) && ((At(s, t).EnterP? && next.Entering?) || (At(s, t).ExitP? && next.Exiting?))
    ensures Inv(TryRc(s, t, next))
  {
    if !Asleep(s.rc, t) {
      RcTry(s.rc, s.pc, t, next);
      WriteMove(s.write, s.pc, t, next);
      CountMove(s.readerCount, s.counted, s.pc, t, next);
      ContentMove(s.content, s.increments, s.pc, t, next);
    }
  }

  /** A later reader finds the write lock held for the readers already counted. */
  lemma LaterReader(s: State, t: Tid)
    requires Inv(s) && At(s, t).Entering? && s.readerCount > 0
    ensures exists u :: Shares(PcAt(s.pc, u))
  {
    var u := Member(s.counted);
    assert Shares(PcAt(s.pc, u));
  }

  lemma EnteringKeepsInv(s: State, t: Tid)
    requires Inv(s) && At(s, t).Entering?
    ensures Inv(Next(s, Step(t)))
  {
    var next := if s.readerCount > 0 then Reading else if s.write.owner.None? then HasWrite else FirstP;
    CountUp(s.readerCount, s.counted, s.pc, t, next);
    ContentMove(s.content, s.increments, s.pc, t, next);
    if s.readerCount == 0 {
      RcMove(Record(s.rc, t), s.pc, t, next);
      WriteTry(s.write, s.pc, t, FirstP, HasWrite);
    } else {
      RcRelease(s.rc, s.pc, t, next);
      LaterReader(s, t);
      WriteMove(s.write, s.pc, t, next);
    }
  }

  lemma FirstPKeepsInv(s: State, t: Tid)
    requires Inv(s) && At(s, t).FirstP?
    ensures Inv(Next(s, Step(t)))
  {
    if !Asleep(s.write, t) {
      var next := if s.write.owner.None? then HasWrite else FirstP;
      RcMove(s.rc, s.pc, t, next);
      WriteTry(s.write, s.pc, t, FirstP, HasWrite);
      CountMove(s.readerCount, s.counted, s.pc, t, next);
      ContentMove(s.content, s.increments, s.pc, t, next);
    }
  }

  lemma HasWriteKeepsInv(s: State, t: Tid)
    requires Inv(s) && At(s, t).HasWrite?
    ensures Inv(Next(s, Step(t)))
  {
    RcRelease(s.rc, s.pc, t, Reading);
    WriteMove(s.write, s.pc, t, Reading);
    CountMove(s.readerCount, s.counted, s.pc, t, Reading);
    ContentMove(s.content, s.increments, s.pc, t, Reading);
  }

  lemma ExitingKeepsInv(s: State, t: Tid)
    requires Inv(s) && At(s, t).Exiting?
    ensures Inv(Next(s, Step(t)))
  {
    var next := if s.readerCount == 1 then Unlocking else Idle;
    CountDown(s.readerCount, s.counted, s.pc, t, next);
    ContentMove(s.content, s.increments, s.pc, t, next);
    if s.readerCount == 1 {
      RcMove(Record(s.rc, t), s.pc, t, next);
      assert |s.counted - {t}| == 0;
      assert forall u :: u != t ==> u !in s.counted - {t};
      WriteRelease(s.write, s.pc, t, next);
    } else {
      RcRelease(s.rc, s.pc, t, next);
      WriteMove(s.write, s.pc, t, next);
    }
  }

  lemma UnlockingKeepsInv(s: State, t: Tid)
    requires Inv(s) && At(s, t).Unlocking?
    ensures Inv(Next(s, Step(t)))
  {
    RcRelease(s.rc, s.pc, t, Idle);
    WriteMove(s.write, s.pc, t, Idle);
    CountMove(s.readerCount, s.counted, s.pc, t, Idle);
    ContentMove(s.content, s.increments, s.pc, t, Idle);
  }

  lemma WritePKeepsInv(s: State, t: Tid)
    requires Inv(s) && At(s, t).WriteP?
    ensures Inv(Next(s, Step(t)))
  {
    if !Asleep(s.write, t) {
      var next := if s.write.owner.None? then Writing else WriteP;
      RcMove(s.rc, s.pc, t, next);
      WriteTry(s.write, s.pc, t, WriteP, Writing);
      CountMove(s.readerCount, s.counted, s.pc, t, next);
      ContentMove(s.content, s.increments, s.pc, t, next);
    }
  }

  lemma WriterKeepsInv(s: State, t: Tid)
    requires Inv(s) && Writes(At(s, t))
    ensures Inv(Next(s, Step(t)))
  {
    var next := At(Next(s, Step(t)), t);
    RcMove(s.rc, s.pc, t, next);
    CountMove(s.readerCount, s.counted, s.pc, t, next);
    if At(s, t).Stored? {
      WriteRelease(s.write, s.pc, t, next);
    } else {
      WriteMove(s.write, s.pc, t, next);
    }
  }

  /** A step that takes no lock and releases none. */
  lemma MoveKeepsInv(s: State, t: Tid, next: Pc)
    requires Inv(s)
    requires (At(s, t).Idle? && (next.EnterP? || next.WriteP?)) || (At(s, t).Reading? && next.ExitP?)
    ensures Inv(To(s, t, next))
  {
    RcMove(s.rc, s.pc, t, next);
    WriteMove(s.write, s.pc, t, next);
    CountMove(s.readerCount, s.counted, s.pc, t, next);
    ContentMove(s.content, s.increments, s.pc, t, next);
  }

  lemma NextKeepsInv(s: State, op: Op)
    requires Inv(s)
    ensures Inv(Next(s, op))
  {
    var t := op.tid;
    if op.Step? {
      match At(s, t)
      case Idle =>
      case EnterP => TryRcKeepsInv(s, t, Entering);
      case Entering => EnteringKeepsInv(s, t);
      case FirstP => FirstPKeepsInv(s, t);
      case HasWrite => HasWriteKeepsInv(s, t);
      case Reading => MoveKeepsInv(s, t, ExitP);
      case ExitP => TryRcKeepsInv(s, t, Exiting);
      case Exiting => ExitingKeepsInv(s, t);
      case Unlocking => UnlockingKeepsInv(s, t);
      case WriteP => WritePKeepsInv(s, t);
      case Writing => WriterKeepsInv(s, t);
      case Storing(_) => WriterKeepsInv(s, t);
      case Stored => WriterKeepsInv(s, t);
    } else if At(s, t).Idle? {
      MoveKeepsInv(s, t, if op.CallRead? then EnterP else WriteP);
    }
  }

  // ---------- every run ----------

  function Run(s: State, ops: seq<Op>): State {
    if ops == [] then s else Next(Run(s, ops[..|ops| - 1]), ops[|ops| - 1])
  }

  lemma {:induction false} RunKeepsInv(ops: seq<Op>)
    ensures Inv(Run(Start(), ops))
  {
    if ops != [] {
      RunKeepsInv(ops[..|ops| - 1]);
      NextKeepsInv(Run(Start(), ops[..|ops| - 1]), ops[|ops| - 1]);
    }
  }

  /** No writer is in its section while another writer or any reader is, and no update is lost. */
  lemma Exclusion(ops: seq<Op>, t: Tid, u: Tid)
    ensures var s := Run(Start(), ops);
            && (Writes(At(s, t)) && Writes(At(s, u)) ==> t == u)
            && !(Writes(At(s, t)) && At(s, u) == Reading)
            && s.content == s.increments
  {
    RunKeepsInv(ops);
  }

  // ---------- nothing is left undone ----------

  /** The write lock is held by a writer, or on behalf of readers who are past the first one's `Acquire`. */
  ghost predicate Held(s: State) {
    s.write.owner.Some? && !Writes(At(s, s.write.owner.value)) ==> s.readerCount > 0 && forall t :: !At(s, t).FirstP?
  }

  lemma ReaderKeepsHeld(s: State, t: Tid)
    requires Inv(s) && Held(s) && (At(s, t).Entering? || At(s, t).Exiting?)
    ensures Held(Next(s, Step(t)))
  {
    Updated(s.pc, t, At(Next(s, Step(t)), t), Next(s, Step(t)).pc);
  }

  lemma StepKeepsHeld(s: State, t: Tid)
    requires Inv(s) && Held(s) && !At(s, t).Entering? && !At(s, t).Exiting?
    ensures Held(Next(s, Step(t)))
  {
    OthersStay(s, Step(t));
    if At(s, t).FirstP? {
      assert s.counted == {t};
    }
  }

  lemma OthersStay(s: State, op: Op)
    ensures forall u :: u != op.tid ==> At(Next(s, op), u) == At(s, u)
  {
    forall u | u != op.tid ensures At(Next(s, op), u) == At(s, u) {}
  }

  lemma NextKeepsHeld(s: State, op: Op)
    requires Inv(s) && Held(s)
    ensures Held(Next(s, op))
  {
    OthersStay(s, op);
    if op.Step? {
      if At(s, op.tid).Entering? || At(s, op.tid).Exiting? {
        ReaderKeepsHeld(s, op.tid);
      } else {
        StepKeepsHeld(s, op.tid);
      }
    }
  }

  lemma {:induction false} RunKeepsHeld(ops: seq<Op>)
    ensures Inv(Run(Start(), ops)) && Held(Run(Start(), ops))
  {
    RunKeepsInv(ops);
    if ops != [] {
      RunKeepsHeld(ops[..|ops| - 1]);
      NextKeepsHeld(Run(Start(), ops[..|ops| - 1]), ops[|ops| - 1]);
    }
  }

  /** Nothing but a new call can change the state. */
  ghost predicate Quiet(s: State) { forall t :: Next(s, Step(t)) == s }

  /** Whoever is not at one of the locks goes on. */
  lemma QuietPlaces(s: State, t: Tid)
    requires Quiet(s)
    ensures At(s, t).Idle? || TriesRc(At(s, t)) || TriesWrite(At(s, t))
  {
    assert Next(s, Step(t)) == s;
  }

  lemma QuietRc(s: State, t: Tid)
    requires Inv(s) && Quiet(s) && TriesRc(At(s, t))
    ensures s.rc.owner.Some? && At(s, s.rc.owner.value).FirstP?
  {
    assert Next(s, Step(t)) == s;
    if s.rc.owner.None? {
      if Asleep(s.rc, t) {
        var u := SomebodyAwake(s.rc.sem);
        assert Next(s, Step(u)) == s && Attending(s.rc, u);
      }
    } else {
      QuietPlaces(s, s.rc.owner.value);
      assert HoldsRc(PcAt(s.pc, s.rc.owner.value));
    }
  }

  lemma QuietWrite(s: State, t: Tid)
    requires Inv(s) && Quiet(s) && TriesWrite(At(s, t))
    ensures s.write.owner.Some? && !Writes(At(s, s.write.owner.value))
  {
    assert Next(s, Step(t)) == s;
    if s.write.owner.None? {
      if Asleep(s.write, t) {
        var u := SomebodyAwake(s.write.sem);
        assert Next(s, Step(u)) == s && Attending(s.write, u);
      }
    } else {
      QuietPlaces(s, s.write.owner.value);
    }
  }

  lemma QuietNoFirst(s: State, t: Tid)
    requires Inv(s) && Held(s) && Quiet(s)
    ensures !At(s, t).FirstP?
  {
    if At(s, t).FirstP? {
      QuietWrite(s, t);
    }
  }

  /** Over every run: if nothing but a new call can change the state, every call has returned; no reader and no
      writer is stuck. */
  lemma NobodyStuck(ops: seq<Op>, t: Tid)
    requires Quiet(Run(Start(), ops))
    ensures At(Run(Start(), ops), t).Idle?
  {
    var s := Run(Start(), ops);
    RunKeepsHeld(ops);
    QuietPlaces(s, t);
    if TriesRc(At(s, t)) {
      QuietRc(s, t);
      QuietNoFirst(s, s.rc.owner.value);
    } else if TriesWrite(At(s, t)) {
      QuietWrite(s, t);
      var u := Member(s.counted);
      QuietPlaces(s, u);
      QuietNoFirst(s, u);
      if TriesRc(At(s, u)) {
        QuietRc(s, u);
        QuietNoFirst(s, s.rc.owner.value);
      }
    }
  }

  // ---------- what each call does ----------

  /** How many calls of one kind a thread made in a run. */
  ghost function Calls(ops: seq<Op>, t: Tid, writing: bool): nat {
    if ops == [] then 0
    else
      var before, op := ops[..|ops| - 1], ops[|ops| - 1];
      Calls(before, t, writing) +
      if op == (if writing then CallWrite(t) else CallRead(t)) && At(Run(Start(), before), t).Idle? then 1 else 0
  }

  /** How often a thread's steps were in the section: an increment completed, or the file read. */
  ghost function Visits(ops: seq<Op>, t: Tid, writing: bool): int {
    if ops == [] then 0
    else
      var before, op := ops[..|ops| - 1], ops[|ops| - 1];
      Visits(before, t, writing) + Visited(Run(Start(), before), op, t, writing)
  }

  function Visited(s: State, op: Op, t: Tid, writing: bool): int {
    if op != Step(t) then 0
    else if writing then Next(s, op).increments - s.increments
    else if At(s, t).Reading? then 1 else 0
  }

  /** The thread is in a call of the kind and has not been in the section yet. */
  predicate Ahead(pc: Pc, writing: bool) {
    if writing then pc.WriteP? || pc.Writing? || pc.Storing?
    else pc.EnterP? || pc.Entering? || pc.FirstP? || pc.HasWrite? || pc.Reading?
  }

  lemma VisitStep(s: State, op: Op, t: Tid, writing: bool)
    ensures (if Ahead(At(s, t), writing) then 1 else 0) +
            (if op == (if writing then CallWrite(t) else CallRead(t)) && At(s, t).Idle? then 1 else 0) ==
              Visited(s, op, t, writing) + if Ahead(At(Next(s, op), t), writing) then 1 else 0
  {}

  /** Every call goes through the section exactly once before it returns: a writer's increments once, a reader's
      reads once. */
  lemma {:induction false} CallsVisitOnce(ops: seq<Op>, t: Tid, writing: bool)
    ensures Calls(ops, t, writing) ==
      Visits(ops, t, writing) + if Ahead(At(Run(Start(), ops), t), writing) then 1 else 0
  {
    if ops != [] {
      CallsVisitOnce(ops[..|ops| - 1], t, writing);
      VisitStep(Run(Start(), ops[..|ops| - 1]), ops[|ops| - 1], t, writing);
    }
  }
}
