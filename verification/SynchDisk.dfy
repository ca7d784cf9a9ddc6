/** The synchronous disk over the asynchronous device (filesys/synchdisk.cc, machine/disk.cc). */
module SynchDisks {
  import opened Semaphores
  import H = Handshakes

  type Data = seq<int>
  type Disk = map<int, Data>

  datatype Request = Read(sector: int) | Write(sector: int, data: Data)

  type Op = H.Op<Request>

  /** `got` holds the buffers of the callers. */
  datatype State = State(h: H.State<Request>, disk: Disk, got: map<Tid, Data>)

  function Start(disk: Disk): State { State(H.Start(), disk, map[]) }

  function Contents(d: Disk, sector: int): Data { if sector in d then d[sector] else [] }

  function Applied(d: Disk, r: Request): Disk {
    if r.Write? then d[r.sector := r.data] else d
  }

  function Fetched(d: Disk, r: Request): Data { if r.Read? then Contents(d, r.sector) else [] }

  /** `Disk::ReadRequest` and `WriteRequest`: the transfer is immediate, completion is not. */
  function Next(s: State, op: Op): State {
    if H.Reaches(s.h, op) then
      var r := H.At(s.h, op.tid).request;
      State(H.Next(s.h, op), Applied(s.disk, r), s.got[op.tid := Fetched(s.disk, r)])
    else s.(h := H.Next(s.h, op))
  }

  // ---------- the invariant ----------

  /** The sectors as a plain disk would have them after the requests. */
  function After(initial: Disk, log: seq<Request>): Disk {
    if log == [] then initial else Applied(After(initial, log[..|log| - 1]), log[|log| - 1])
  }

  /** The caller's buffer holds what a plain disk gives. */
  ghost predicate Answered(initial: Disk, s: State, t: Tid) {
    var pc := H.At(s.h, t);
    && H.Served(pc) && 0 < pc.id <= |s.h.log| && t in s.got
    && s.got[t] == Fetched(After(initial, s.h.log[..pc.id - 1]), pc.request)
  }

  ghost predicate Inv(initial: Disk, s: State) {
    && H.Inv(s.h) && s.disk == After(initial, s.h.log)
    && forall t :: H.Served(H.At(s.h, t)) ==> Answered(initial, s, t)
  }

  /** The request of one thread reaches the device; no other thread has a request there. */
  lemma ReachKeepsInv(initial: Disk, s: State, op: Op)
    requires Inv(initial, s) && H.Reaches(s.h, op)
    ensures Inv(initial, Next(s, op))
  {
    var r := H.At(s.h, op.tid).request;
    H.NextKeepsInv(s.h, op);
    H.NextLog(s.h, op);
    assert (s.h.log + [r])[..|s.h.log|] == s.h.log;
  }

  lemma OtherKeepsInv(initial: Disk, s: State, op: Op)
    requires Inv(initial, s) && !H.Reaches(s.h, op)
    ensures Inv(initial, Next(s, op))
  {
    H.NextKeepsInv(s.h, op);
    H.NextLog(s.h, op);
    var s' := Next(s, op);
    forall t | H.Served(H.At(s'.h, t)) ensures Answered(initial, s', t) {
      H.StaysServed(s.h, op, t);
      assert Answered(initial, s, t);
    }
  }

  // ---------- every run ----------

  function Run(s: State, ops: seq<Op>): State {
    if ops == [] then s else Next(Run(s, ops[..|ops| - 1]), ops[|ops| - 1])
  }

  lemma {:induction false} RunKeepsInv(initial: Disk, ops: seq<Op>)
    ensures Inv(initial, Run(Start(initial), ops))
  {
    if ops != [] {
      RunKeepsInv(initial, ops[..|ops| - 1]);
      var s, op := Run(Start(initial), ops[..|ops| - 1]), ops[|ops| - 1];
      if H.Reaches(s.h, op) {
        ReachKeepsInv(initial, s, op);
      } else {
        OtherKeepsInv(initial, s, op);
      }
    }
  }

  /** The device is never asked while it is active, and at most one completion is outstanding. */
  lemma OneRequestAtATime(initial: Disk, ops: seq<Op>)
    ensures var s := Run(Start(initial), ops);
            !s.h.failed && s.h.outstanding <= 1 && (s.h.busy <==> s.h.outstanding == 1)
  {
    RunKeepsInv(initial, ops);
  }

  /** A call returns only after the completion interrupt of its own request, and the requests,
      in the order in which the device got them, form a run of a plain disk. */
  lemma ReturnsAfterOwnCompletion(initial: Disk, ops: seq<Op>, t: Tid)
    ensures var s := Run(Start(initial), ops);
            var pc := H.At(s.h, t);
            && s.disk == After(initial, s.h.log)
            && (pc.Finished? ==>
                  && 0 < pc.id <= s.h.completed <= |s.h.log| && s.h.log[pc.id - 1] == pc.request && t in s.got
                  && (pc.request.Read? ==> s.got[t] == Contents(After(initial, s.h.log[..pc.id - 1]), pc.request.sector))
                  && (pc.request.Write? ==> Contents(s.disk, pc.request.sector) == pc.request.data))
  {
    RunKeepsInv(initial, ops);
    var s := Run(Start(initial), ops);
    assert H.At(s.h, t).Finished? ==> Answered(initial, s, t);
  }

  /** What was last written to a sector, or what it held at first. */
  function LastData(initial: Disk, log: seq<Request>, sector: int): Data {
    if log == [] then Contents(initial, sector)
    else if log[|log| - 1].Write? && log[|log| - 1].sector == sector then log[|log| - 1].data
    else LastData(initial, log[..|log| - 1], sector)
  }

  /** A plain disk keeps in each sector what was last written there. */
  lemma {:induction false} AfterIsLast(initial: Disk, log: seq<Request>, sector: int)
    ensures Contents(After(initial, log), sector) == LastData(initial, log, sector)
  {
    if log != [] {
      AfterIsLast(initial, log[..|log| - 1], sector);
    }
  }

  /** A read returns what the requests that reached the disk before it last wrote to its sector. */
  lemma ReadReturnsLast(initial: Disk, ops: seq<Op>, t: Tid)
    ensures var s := Run(Start(initial), ops);
      var pc := H.At(s.h, t);
      pc.Finished? && pc.request.Read? ==>
        0 < pc.id <= |s.h.log| && t in s.got && s.got[t] == LastData(initial, s.h.log[..pc.id - 1], pc.request.sector)
  {
    var s := Run(Start(initial), ops);
    var pc := H.At(s.h, t);
    ReturnsAfterOwnCompletion(initial, ops, t);
    if pc.Finished? && pc.request.Read? {
      AfterIsLast(initial, s.h.log[..pc.id - 1], pc.request.sector);
    }
  }

  lemma {:induction false} SameHandshake(initial: Disk, ops: seq<Op>)
    ensures Run(Start(initial), ops).h == H.Run(H.Start<Request>(), ops)
  {
    if ops != [] {
      SameHandshake(initial, ops[..|ops| - 1]);
    }
  }

  /** Every request of a thread's calls gets to the disk, once and in the order of its calls; only the call that the
      thread is in may be missing.  If no thread can go on and no interrupt is outstanding, every call has returned. */
  lemma EveryCallServed(initial: Disk, ops: seq<Op>, t: Tid)
    ensures var s := Run(Start(initial), ops);
      && H.CalledBy(ops, t) == H.GivenBy(ops, t) + H.InHand(H.At(s.h, t))
      && (H.Quiet(s.h) ==> H.At(s.h, t).Idle?)
  {
    SameHandshake(initial, ops);
    H.CallsReachDevice(ops, t);
    if H.Quiet(Run(Start(initial), ops).h) {
      H.NobodyStuck(ops, t);
    }
  }
}
