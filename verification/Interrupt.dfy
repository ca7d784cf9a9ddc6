/** The interrupt and simulated-time engine (machine/interrupt.cc). */
module InterruptEngine {
  import opened Options
  import opened LinkedList

  const USER_TICK := 1
  const SYSTEM_TICK := 10

  datatype IntStatus = IntOff | IntOn
  datatype MachineStatus = IdleMode | SystemMode | UserMode
  datatype IntType = TimerInt | DiskInt | ConsoleWriteInt | ConsoleReadInt | NetworkSendInt | NetworkRecvInt

  datatype Pending = Pending(kind: IntType, arg: int)

  /** An interrupt that was delivered: when it was due, and the time it was delivered at. */
  datatype Fired = Fired(interrupt: Pending, when: int, at: int)

  /** What a device handler does to this engine: it schedules further interrupts and may ask
      for a context switch. */
  datatype Reaction = Reaction(requests: seq<Request>, yieldOnReturn: bool)
  datatype Request = Request(interrupt: Pending, fromNow: Delay)
  /** `Schedule` insists on a positive delay. */
  type Delay = d: int | d > 0 witness 1

  /** Handlers may react to everything that has happened so far. */
  type Handlers = (seq<Fired>) -> Reaction

  type Queue = seq<Item<Pending>>

  /** How many entries are due. */
  function DueCount(pending: Queue, now: int): nat {
    if pending == [] then 0 else (if pending[0].key <= now then 1 else 0) + DueCount(pending[1..], now)
  }

  lemma {:induction false} InsertedDueCount(pending: Queue, x: Item<Pending>, now: int)
    ensures DueCount(Inserted(pending, x), now) == DueCount(pending, now) + if x.key <= now then 1 else 0
  {
    if pending != [] && pending[0].key <= x.key {
      InsertedDueCount(pending[1..], x, now);
      assert Inserted(pending, x)[1..] == Inserted(pending[1..], x);
    } else {
      assert Inserted(pending, x)[1..] == pending;
    }
  }

  /** The pending list after a series of calls to `Schedule`. */
  function Scheduled(pending: Queue, requests: seq<Request>, now: int): Queue
    decreases |requests|
  {
    if requests == [] then pending
    else Scheduled(Inserted(pending, Item(requests[0].interrupt, now + requests[0].fromNow)), requests[1..], now)
  }

  lemma ScheduledFirst(pending: Queue, requests: seq<Request>, now: int)
    ensures requests == [] ==> Scheduled(pending, requests, now) == pending
    ensures requests != [] ==>
      Scheduled(pending, requests, now) ==
      Scheduled(Inserted(pending, Item(requests[0].interrupt, now + requests[0].fromNow)), requests[1..], now)
  {}

  /** Nothing is pending from before `floor`. */
  ghost predicate NotBefore(pending: Queue, floor: int) {
    pending != [] ==> floor <= pending[0].key
  }

  /** Scheduling into the future keeps the list sorted, adds nothing that is due, and puts
      nothing before `floor`. */
  lemma {:induction false} ScheduledLater(pending: Queue, requests: seq<Request>, now: int, floor: int)
    requires Sorted(pending) && floor <= now && NotBefore(pending, floor)
    ensures var p := Scheduled(pending, requests, now);
            Sorted(p) && DueCount(p, now) == DueCount(pending, now) && NotBefore(p, floor)
    decreases |requests|
  {
    if requests != [] {
      var x := Item(requests[0].interrupt, now + requests[0].fromNow);
      InsertedSorted(pending, x);
      InsertedDueCount(pending, x, now);
      ScheduledLater(Inserted(pending, x), requests[1..], now, floor);
    }
  }

  /** The due time of the last delivery. */
  function LastDue(log: seq<Fired>): int {
    if log == [] then 0 else log[|log| - 1].when
  }

  /** Each delivery was made when it was due or later, and was due no earlier than the one
      before it. */
  ghost predicate LogOk(log: seq<Fired>, now: int) {
    log == [] ||
    var n := |log| - 1;
    log[n].when <= log[n].at <= now && LastDue(log[..n]) <= log[n].when && LogOk(log[..n], log[n].at)
  }

  lemma LogGrows(log: seq<Fired>, f: Fired, now: int)
    requires LogOk(log, f.at) && LastDue(log) <= f.when <= f.at <= now
    ensures LogOk(log + [f], now)
  {
    assert (log + [f])[..|log|] == log;
  }

  /** No delivery is early, and deliveries come in nondecreasing order of due time. */
  lemma {:induction false} DeliveredInDueOrder(log: seq<Fired>, now: int, i: nat, j: nat)
    requires LogOk(log, now) && i <= j < |log|
    ensures log[j].when <= log[j].at <= now
    ensures log[i].when <= log[j].when && log[i].at <= log[j].at
    decreases |log|
  {
    var n := |log| - 1;
    if j < n {
      DeliveredInDueOrder(log[..n], log[n].at, i, j);
    } else if i < n {
      DeliveredInDueOrder(log[..n], log[n].at, i, n - 1);
    }
  }

  /** Putting the head back goes behind its equals: the list is as before if and only if the head
      was alone at its time.  There is no first-come order among interrupts due together. */
  lemma PutBackRotates(pending: Queue)
    requires pending != [] && Sorted(pending)
    requires forall i, j :: 0 <= i < j < |pending| ==> pending[i] != pending[j]
    ensures Inserted(pending[1..], pending[0]) == pending <==>
            |pending| == 1 || pending[0].key < pending[1].key
  {
    if |pending| > 1 && pending[0].key == pending[1].key {
      assert Inserted(pending[1..], pending[0])[0] == pending[1];
    }
  }

  /** The list is sorted; nothing was delivered early; deliveries were in order of due time, and
      nothing that is still pending was due before the last of them. */
  ghost predicate Timely(pending: Queue, log: seq<Fired>, now: int) {
    Sorted(pending) && LogOk(log, now) && NotBefore(pending, LastDue(log)) && 0 <= LastDue(log) <= now
  }

  lemma TimelyInserted(pending: Queue, log: seq<Fired>, now: int, x: Item<Pending>)
    requires Timely(pending, log, now) && LastDue(log) <= x.key
    ensures Timely(Inserted(pending, x), log, now)
  {
    InsertedSorted(pending, x);
  }

  lemma TimelyLater(pending: Queue, log: seq<Fired>, now: int, later: int)
    requires Timely(pending, log, now) && now <= later
    ensures Timely(pending, log, later)
  {}

  /** After a delivery and what its handler schedules. */
  lemma TimelyDelivered(pending: Queue, log: seq<Fired>, now: int, x: Item<Pending>, requests: seq<Request>)
    requires Timely(pending, log, now) && LastDue(log) <= x.key <= now && NotBefore(pending, x.key)
    ensures var p := Scheduled(pending, requests, now);
      Timely(p, log + [Fired(x.item, x.key, now)], now) && DueCount(p, now) == DueCount(pending, now)
    ensures Timely(pending, log + [Fired(x.item, x.key, now)], now)
  {
    LogGrows(log, Fired(x.item, x.key, now), now);
    ScheduledLater(pending, requests, now, x.key);
  }

  /** Without its first entry a sorted list begins no earlier. */
  lemma RestNotBefore(pending: Queue)
    requires pending != [] && Sorted(pending)
    ensures Sorted(pending[1..]) && NotBefore(pending[1..], pending[0].key)
  {
    assert |pending| > 1 ==> pending[0].key <= pending[1].key;
  }

  // ---------- what becomes of an interrupt ----------

  /** The entries that a series of calls to `Schedule` asks for. */
  function Entries(requests: seq<Request>, now: int): multiset<Item<Pending>> {
    if requests == [] then multiset{}
    else multiset{Item(requests[0].interrupt, now + requests[0].fromNow)} + Entries(requests[1..], now)
  }

  lemma {:induction false} ScheduledEntries(pending: Queue, requests: seq<Request>, now: int)
    ensures multiset(Scheduled(pending, requests, now)) == multiset(pending) + Entries(requests, now)
    decreases |requests|
  {
    if requests != [] {
      var x := Item(requests[0].interrupt, now + requests[0].fromNow);
      InsertedMultiset(pending, x);
      ScheduledEntries(Inserted(pending, x), requests[1..], now);
    }
  }

  /** What the deliveries from number n on took off the list, and what their handlers put there. */
  function Delivered(log: seq<Fired>, n: nat): multiset<Item<Pending>> {
    if |log| <= n then multiset{}
    else
      var last := log[|log| - 1];
      Delivered(log[..|log| - 1], n) + multiset{Item(last.interrupt, last.when)}
  }

  function Asked(react: Handlers, log: seq<Fired>, n: nat): multiset<Item<Pending>> {
    if |log| <= n then multiset{}
    else Asked(react, log[..|log| - 1], n) + Entries(react(log).requests, log[|log| - 1].at)
  }

  /** Whether a handler asked for a context switch in one of the deliveries from number n on. */
  predicate AskedToYield(react: Handlers, log: seq<Fired>, n: nat) {
    |log| > n && (react(log).yieldOnReturn || AskedToYield(react, log[..|log| - 1], n))
  }

  /** Every interrupt that was pending, or that a handler scheduled, is still pending or was delivered, and once
      only. */
  ghost predicate Balanced(react: Handlers, before: Queue, n: nat, after: Queue, log: seq<Fired>) {
    n <= |log| && multiset(after) + Delivered(log, n) == multiset(before) + Asked(react, log, n)
  }

  lemma BalancedStart(react: Handlers, pending: Queue, log: seq<Fired>)
    ensures Balanced(react, pending, |log|, pending, log) && !AskedToYield(react, log, |log|)
  {}

  lemma BalancedPutBack(react: Handlers, before: Queue, n: nat, pending: Queue, log: seq<Fired>)
    requires pending != [] && Balanced(react, before, n, pending, log)
    ensures Balanced(react, before, n, Inserted(pending[1..], pending[0]), log)
  {
    InsertedMultiset(pending[1..], pending[0]);
    assert pending == [pending[0]] + pending[1..];
    assert multiset(Inserted(pending[1..], pending[0])) == multiset(pending);
  }

  lemma BalancedDelivery(react: Handlers, before: Queue, n: nat, pending: Queue, log: seq<Fired>, at: int)
    requires pending != [] && Balanced(react, before, n, pending, log)
    ensures var log' := log + [Fired(pending[0].item, pending[0].key, at)];
      && Balanced(react, before, n, Scheduled(pending[1..], react(log').requests, at), log')
      && AskedToYield(react, log', n) == (AskedToYield(react, log, n) || react(log').yieldOnReturn)
  {
    var x, rest := pending[0], pending[1..];
    var log' := log + [Fired(x.item, x.key, at)];
    var asked := Entries(react(log').requests, at);
    ScheduledEntries(rest, react(log').requests, at);
    assert log'[..|log|] == log;
    assert pending == [x] + rest;
    Carry(multiset{x}, multiset(rest), asked, Delivered(log, n), multiset(before), Asked(react, log, n));
  }

  lemma Carry<T>(x: multiset<T>, rest: multiset<T>, e: multiset<T>, d: multiset<T>, b: multiset<T>, a: multiset<T>)
    requires (x + rest) + d == b + a
    ensures (rest + e) + (d + x) == b + (a + e)
  {
    assert (rest + e) + (d + x) == ((x + rest) + d) + e;
    assert b + (a + e) == (b + a) + e;
  }

  /** Nothing is pending, or only the time-slice timer. */
  predicate NothingToAwait(pending: Queue) { pending == [] || (|pending| == 1 && pending[0].item.kind == TimerInt) }

  function Later(x: int, y: int): int { if x < y then y else x }

  /** The list, the log and the request to yield after a look at the first interrupt. */
  ghost predicate Looked(react: Handlers, p: Queue, log: seq<Fired>, asks: bool, fired: bool,
                         p': Queue, log': seq<Fired>, asks': bool, at: int) {
    if p == [] || !fired then
      p' == (if p == [] then [] else Inserted(p[1..], p[0])) && log' == log && asks' == asks
    else
      && log' == log + [Fired(p[0].item, p[0].key, at)]
      && p' == Scheduled(p[1..], react(log').requests, at) && asks' == (asks || react(log').yieldOnReturn)
  }

  /** Balance, and the request to yield so far. */
  ghost predicate Accounted(react: Handlers, before: Queue, n: nat, yielding: bool, p: Queue, log: seq<Fired>, asks: bool) {
    Balanced(react, before, n, p, log) && asks == (yielding || AskedToYield(react, log, n))
  }

  lemma AccountedStep(react: Handlers, before: Queue, n: nat, yielding: bool, p: Queue, log: seq<Fired>, asks: bool,
                      fired: bool, p': Queue, log': seq<Fired>, asks': bool, at: int)
    requires Accounted(react, before, n, yielding, p, log, asks)
    requires Looked(react, p, log, asks, fired, p', log', asks', at)
    ensures Accounted(react, before, n, yielding, p', log', asks')
  {
    if p != [] {
      if fired {
        BalancedDelivery(react, before, n, p, log, at);
      } else {
        BalancedPutBack(react, before, n, p, log);
      }
    }
  }

  class Interrupt {
    var level: IntStatus
    const pending: List<Pending>
    var inHandler: bool
    var yieldOnReturn: bool
    var status: MachineStatus
    var totalTicks: int
    var idleTicks: int
    var systemTicks: int
    var userTicks: int
    /** Every interrupt delivered so far. */
    var log: seq<Fired>

    /** The pending interrupts in list order, with their due times. */
    ghost function Waiting(): Queue
      reads this, pending
    {
      pending.Contents()
    }

    /** Time adds up, and deliveries were timely. */
    ghost predicate Valid()
      reads this, pending, pending.Repr
    {
      && pending.Valid()
      && totalTicks == idleTicks + systemTicks + userTicks
      && Timely(Waiting(), log, totalTicks)
    }

    constructor ()
      ensures Valid() && fresh(pending) && fresh(pending.Repr)
      ensures Waiting() == [] && log == [] && level == IntOff && status == SystemMode && !inHandler
    {
      level, inHandler, yieldOnReturn, status := IntOff, false, false, SystemMode;
      pending := new List();
      totalTicks, idleTicks, systemTicks, userTicks := 0, 0, 0, 0;
      log := [];
    }

    method Schedule(interrupt: Pending, fromNow: Delay)
      requires Valid()
      modifies pending, pending.Repr
      ensures Valid() && fresh(pending.Repr - old(pending.Repr))
      ensures Waiting() == Inserted(old(Waiting()), Item(interrupt, totalTicks + fromNow))
    {
      TimelyInserted(Waiting(), log, totalTicks, Item(interrupt, totalTicks + fromNow));
      pending.SortedInsert(interrupt, totalTicks + fromNow);
    }

    /** Call a handler: `inHandler` is set and the machine is in system mode meanwhile. */
    method CallHandler(react: Handlers)
      requires Valid()
      modifies this`yieldOnReturn, this`inHandler, this`status, pending, pending.Repr
      ensures Valid() && fresh(pending.Repr - old(pending.Repr)) && status == old(status) && !inHandler
      ensures Waiting() == Scheduled(old(Waiting()), react(log).requests, totalTicks)
      ensures yieldOnReturn == (old(yieldOnReturn) || react(log).yieldOnReturn)
    {
      var mode, reaction := status, react(log);
      SetMode(true, SystemMode, yieldOnReturn);
      ScheduleAll(reaction.requests);
      SetMode(false, mode, yieldOnReturn || reaction.yieldOnReturn);
    }

    method SetMode(inHandler: bool, status: MachineStatus, yieldOnReturn: bool)
      requires Valid()
      modifies this`yieldOnReturn, this`inHandler, this`status
      ensures Valid() && Waiting() == old(Waiting())
      ensures this.inHandler == inHandler && this.status == status && this.yieldOnReturn == yieldOnReturn
    {
      this.inHandler, this.status, this.yieldOnReturn := inHandler, status, yieldOnReturn;
    }

    method ScheduleAll(requests: seq<Request>)
      requires Valid()
      modifies pending, pending.Repr
      ensures Valid() && fresh(pending.Repr - old(pending.Repr))
      ensures Waiting() == Scheduled(old(Waiting()), requests, totalTicks)
      decreases |requests|
    {
      ScheduledFirst(Waiting(), requests, totalTicks);
      if requests != [] {
        Schedule(requests[0].interrupt, requests[0].fromNow);
        ScheduleAll(requests[1..]);
      }
    }

    /** Log an interrupt that has been taken off the list and call its handler. */
    method Deliver(x: Item<Pending>, react: Handlers)
      requires Valid()
      requires LastDue(log) <= x.key <= totalTicks && NotBefore(Waiting(), x.key)
      modifies this`yieldOnReturn, this`inHandler, this`status, this`log, pending, pending.Repr
      ensures Valid() && fresh(pending.Repr - old(pending.Repr)) && status == old(status)
      ensures log == old(log) + [Fired(x.item, x.key, totalTicks)]
      ensures Waiting() == Scheduled(old(Waiting()), react(log).requests, totalTicks)
      ensures yieldOnReturn == (old(yieldOnReturn) || react(log).yieldOnReturn) && !inHandler
      ensures DueCount(Waiting(), totalTicks) == DueCount(old(Waiting()), totalTicks)
    {
      TimelyDelivered(Waiting(), log, totalTicks, x, react(log + [Fired(x.item, x.key, totalTicks)]).requests);
      log := log + [Fired(x.item, x.key, totalTicks)];
      CallHandler(react);
    }

    /** Whether the machine is idle with nothing but the time-slice timer left to wait for. */
    ghost predicate OnlyTimerLeft()
      reads this, pending
    {
      status == IdleMode && |Waiting()| == 1 && Waiting()[0].item.kind == TimerInt
    }

    /** Take the first interrupt off the list. */
    method TakeFirst() returns (x: Option<Item<Pending>>)
      requires Valid()
      modifies pending
      ensures Valid() && pending.Repr == old(pending.Repr)
      ensures x == None <==> old(Waiting()) == []
      ensures x == None ==> Waiting() == []
      ensures x.Some? ==> x.value == old(Waiting())[0] && Waiting() == old(Waiting())[1..]
      ensures x.Some? ==> LastDue(log) <= x.value.key && NotBefore(Waiting(), x.value.key)
    {
      if Waiting() != [] {
        RestNotBefore(Waiting());
      }
      x := pending.SortedRemove();
    }

    method PutBack(x: Item<Pending>)
      requires Valid() && LastDue(log) <= x.key && NotBefore(Waiting(), x.key)
      modifies pending, pending.Repr
      ensures Valid() && fresh(pending.Repr - old(pending.Repr)) && Waiting() == Inserted(old(Waiting()), x)
    {
      TimelyInserted(Waiting(), log, totalTicks, x);
      pending.SortedInsert(x.item, x.key);
    }

    /** Deliver the first pending interrupt if it is due; with `advanceClock`, first wait for it.
        It is put back when it is not due, or when it is all that keeps an idle machine going. */
    method CheckIfDue(advanceClock: bool, react: Handlers) returns (fired: bool)
      requires Valid() && level == IntOff
      modifies this, pending, pending.Repr
      ensures Valid() && fresh(pending.Repr - old(pending.Repr)) && level == IntOff && status == old(status)
      ensures systemTicks == old(systemTicks) && userTicks == old(userTicks)
      ensures fired <==> old(
        && Waiting() != [] && (advanceClock || Waiting()[0].key <= totalTicks)
        && !OnlyTimerLeft())
      ensures !fired ==>
        && log == old(log) && yieldOnReturn == old(yieldOnReturn)
        && Waiting() == if old(Waiting()) == [] then [] else Inserted(old(Waiting())[1..], old(Waiting())[0])
      ensures !fired && !advanceClock ==> totalTicks == old(totalTicks)
      ensures fired ==>
        var x := old(Waiting())[0];
        && totalTicks == (if x.key > old(totalTicks) then x.key else old(totalTicks))
        && log == old(log) + [Fired(x.item, x.key, totalTicks)]
        && Waiting() == Scheduled(old(Waiting())[1..], react(log).requests, totalTicks)
        && yieldOnReturn == (old(yieldOnReturn) || react(log).yieldOnReturn)
        && DueCount(Waiting(), totalTicks) == DueCount(old(Waiting()), totalTicks) - 1
    {
      var toOccur := TakeFirst();
      if toOccur == None {
        return false;
      }
      fired := Consider(toOccur.value, advanceClock, react);
    }

    /** Decide about the interrupt taken off the list. */
    method Consider(x: Item<Pending>, advanceClock: bool, react: Handlers) returns (fired: bool)
      requires Valid() && level == IntOff && LastDue(log) <= x.key && NotBefore(Waiting(), x.key)
      modifies this, pending, pending.Repr
      ensures Valid() && fresh(pending.Repr - old(pending.Repr)) && level == IntOff && status == old(status)
      ensures systemTicks == old(systemTicks) && userTicks == old(userTicks)
      ensures fired <==> old(
        && (advanceClock || x.key <= totalTicks)
        && !(status == IdleMode && x.item.kind == TimerInt && Waiting() == []))
      ensures !fired ==>
        log == old(log) && yieldOnReturn == old(yieldOnReturn) && Waiting() == Inserted(old(Waiting()), x)
      ensures !fired && !advanceClock ==> totalTicks == old(totalTicks)
      ensures fired ==>
        && totalTicks == (if x.key > old(totalTicks) then x.key else old(totalTicks))
        && log == old(log) + [Fired(x.item, x.key, totalTicks)]
        && Waiting() == Scheduled(old(Waiting()), react(log).requests, totalTicks)
        && yieldOnReturn == (old(yieldOnReturn) || react(log).yieldOnReturn)
        && DueCount(Waiting(), totalTicks) == DueCount(old(Waiting()), totalTicks)
    {
      if advanceClock && x.key > totalTicks {
        AdvanceTo(x.key);
      } else if x.key > totalTicks {
        PutBack(x);
        return false;
      }
      var empty := pending.IsEmpty();
      if status == IdleMode && x.item.kind == TimerInt && empty {
        PutBack(x);
        return false;
      }
      Deliver(x, react);
      fired := true;
    }

    /** Idle time passes until the next interrupt is due. */
    method AdvanceTo(when: int)
      requires Valid() && when > totalTicks
      modifies this`idleTicks, this`totalTicks
      ensures Valid() && totalTicks == when
    {
      TimelyLater(Waiting(), log, totalTicks, when);
      idleTicks := idleTicks + (when - totalTicks);
      totalTicks := when;
    }

    /** One turn of the loop that delivers what is due. */
    method DeliverNext(react: Handlers, ghost before: Queue, ghost n: nat, ghost yielding: bool) returns (fired: bool)
      requires Valid() && level == IntOff && Accounted(react, before, n, yielding, Waiting(), log, yieldOnReturn)
      modifies this, pending, pending.Repr
      ensures Valid() && fresh(pending.Repr - old(pending.Repr)) && level == IntOff && status == old(status)
      ensures totalTicks == old(totalTicks) && systemTicks == old(systemTicks) && userTicks == old(userTicks)
      ensures old(log) <= log && Accounted(react, before, n, yielding, Waiting(), log, yieldOnReturn)
      ensures fired ==> DueCount(Waiting(), totalTicks) < DueCount(old(Waiting()), totalTicks)
      ensures !fired ==> Waiting() == [] || Waiting()[0].key > totalTicks || OnlyTimerLeft()
    {
      ghost var p, log0, asks := Waiting(), log, yieldOnReturn;
      fired := CheckIfDue(false, react);
      AccountedStep(react, before, n, yielding, p, log0, asks, fired, Waiting(), log, yieldOnReturn, totalTicks);
    }

    /** Deliver everything that is due.  Each delivery removes one due entry and handlers add
        none, so this ends. */
    method Drain(react: Handlers, ghost before: Queue, ghost n: nat, ghost yielding: bool)
      requires Valid() && level == IntOff && Accounted(react, before, n, yielding, Waiting(), log, yieldOnReturn)
      modifies this, pending, pending.Repr
      ensures Valid() && fresh(pending.Repr - old(pending.Repr)) && level == IntOff && status == old(status)
      ensures totalTicks == old(totalTicks) && systemTicks == old(systemTicks) && userTicks == old(userTicks)
      ensures old(log) <= log && Accounted(react, before, n, yielding, Waiting(), log, yieldOnReturn)
      ensures Waiting() == [] || Waiting()[0].key > totalTicks || OnlyTimerLeft()
    {
      while true
        invariant Valid() && fresh(pending.Repr - old(pending.Repr))
        invariant level == IntOff && status == old(status) && old(log) <= log
        invariant totalTicks == old(totalTicks) && systemTicks == old(systemTicks) && userTicks == old(userTicks)
        invariant Accounted(react, before, n, yielding, Waiting(), log, yieldOnReturn)
        decreases DueCount(Waiting(), totalTicks)
      {
        var fired := DeliverNext(react, before, n, yielding);
        if !fired {
          return;
        }
      }
    }

    /** Time passes, in the account of the machine's mode. */
    method Tick()
      requires Valid() && status != IdleMode
      modifies this`totalTicks, this`systemTicks, this`userTicks
      ensures Valid() && totalTicks == old(totalTicks) + (if status == SystemMode then SYSTEM_TICK else USER_TICK)
      ensures systemTicks == old(systemTicks) + (if status == SystemMode then SYSTEM_TICK else 0)
      ensures Waiting() == old(Waiting())
    {
      TimelyLater(Waiting(), log, totalTicks, totalTicks + if status == SystemMode then SYSTEM_TICK else USER_TICK);
      if status == SystemMode {
        totalTicks := totalTicks + SYSTEM_TICK;
        systemTicks := systemTicks + SYSTEM_TICK;
      } else {
        totalTicks := totalTicks + USER_TICK;
        userTicks := userTicks + USER_TICK;
      }
    }

    /** Advance time by one tick and deliver what has become due. */
    method OneTick(react: Handlers) returns (yielded: bool)
      requires Valid() && status != IdleMode
      modifies this, pending, pending.Repr
      ensures Valid() && fresh(pending.Repr - old(pending.Repr))
      ensures level == IntOn && status == old(status) && !yieldOnReturn
      ensures totalTicks == old(totalTicks) + (if status == SystemMode then SYSTEM_TICK else USER_TICK)
      ensures systemTicks == old(systemTicks) + (if status == SystemMode then SYSTEM_TICK else 0)
      ensures userTicks == old(userTicks) + (if status == UserMode then USER_TICK else 0)
      ensures old(log) <= log
      ensures Accounted(react, old(Waiting()), |old(log)|, old(yieldOnReturn), Waiting(), log, yielded)
      ensures Waiting() != [] ==> Waiting()[0].key > totalTicks
    {
      Tick();
      ChangeLevel(IntOff);
      BalancedStart(react, Waiting(), log);
      Drain(react, Waiting(), |log|, yieldOnReturn);
      yielded := yieldOnReturn;
      ChangeLevel(IntOn);
      SetMode(inHandler, status, false);
    }

    method ChangeLevel(now: IntStatus)
      requires Valid()
      modifies this`level
      ensures Valid() && Waiting() == old(Waiting()) && level == now
    {
      level := now;
    }

    /** Wait for the first interrupt and deliver it. */
    method Await(react: Handlers) returns (fired: bool)
      requires Valid() && level == IntOff
      modifies this, pending, pending.Repr
      ensures Valid() && fresh(pending.Repr - old(pending.Repr)) && level == IntOff
      ensures !fired <==> NothingToAwait(old(Waiting()))
      ensures systemTicks == old(systemTicks) && userTicks == old(userTicks)
      ensures old(log) <= log && |log| == |old(log)| + if fired then 1 else 0
      ensures fired ==> totalTicks == Later(old(totalTicks), old(Waiting()[0].key))
      ensures Accounted(react, old(Waiting()), |old(log)|, old(yieldOnReturn), Waiting(), log, yieldOnReturn)
    {
      ghost var p, log0, asks := Waiting(), log, yieldOnReturn;
      SetMode(inHandler, IdleMode, yieldOnReturn);
      BalancedStart(react, p, log0);
      fired := CheckIfDue(true, react);
      AccountedStep(react, p, |log0|, asks, p, log0, asks, fired, Waiting(), log, yieldOnReturn, totalTicks);
    }

    /** Back from idling. */
    method Wake(react: Handlers, ghost before: Queue, ghost n: nat, ghost yielding: bool)
      requires Valid() && level == IntOff && Accounted(react, before, n, yielding, Waiting(), log, yieldOnReturn)
      modifies this, pending, pending.Repr
      ensures Valid() && fresh(pending.Repr - old(pending.Repr)) && level == IntOff && status == SystemMode && !yieldOnReturn
      ensures totalTicks == old(totalTicks) && systemTicks == old(systemTicks) && userTicks == old(userTicks)
      ensures old(log) <= log && Balanced(react, before, n, Waiting(), log)
    {
      Drain(react, before, n, yielding);
      SetMode(inHandler, SystemMode, false);
    }

    /** Nothing is ready to run: wait for the next interrupt, or report that the machine halts.  The time until
        then is idle time; no interrupt is lost meanwhile. */
    method Idle(react: Handlers) returns (halted: bool)
      requires Valid() && level == IntOff
      modifies this, pending, pending.Repr
      ensures Valid() && fresh(pending.Repr - old(pending.Repr)) && level == IntOff
      ensures halted <==> NothingToAwait(old(Waiting()))
      ensures systemTicks == old(systemTicks) && userTicks == old(userTicks)
      ensures Balanced(react, old(Waiting()), |old(log)|, Waiting(), log)
      ensures !halted ==> status == SystemMode && |log| > |old(log)| && old(log) <= log && !yieldOnReturn
      ensures !halted ==> totalTicks == Later(old(totalTicks), old(Waiting()[0].key))
    {
      ghost var p, n, asks := Waiting(), |log|, yieldOnReturn;
      var fired := Await(react);
      if fired {
        Wake(react, p, n, asks);
      }
      halted := !fired;
    }

    method SetLevel(now: IntStatus, react: Handlers) returns (was: IntStatus)
      requires Valid() && status != IdleMode
      requires now == IntOff || !inHandler
      modifies this, pending, pending.Repr
      ensures Valid() && fresh(pending.Repr - old(pending.Repr)) && level == now && was == old(level)
      ensures now == IntOn && was == IntOff ==>
        && totalTicks == old(totalTicks) + (if status == SystemMode then SYSTEM_TICK else USER_TICK)
        && Balanced(react, old(Waiting()), |old(log)|, Waiting(), log)
        && (Waiting() != [] ==> Waiting()[0].key > totalTicks)
      ensures now == IntOff || was == IntOn ==> totalTicks == old(totalTicks) && log == old(log) && Waiting() == old(Waiting())
    {
      was := level;
      ChangeLevel(now);
      if now == IntOn && was == IntOff {
        var _ := OneTick(react);
      }
    }
  }

  /** Two interrupts due at the same time change places when the first is looked at too early. */
  method TieRotates(a: Pending, b: Pending, react: Handlers) returns (interrupt: Interrupt)
    ensures var when := interrupt.totalTicks + 5;
      interrupt.Waiting() == [Item(b, when), Item(a, when)] && interrupt.log == []
  {
    interrupt := new Interrupt();
    ghost var now := interrupt.totalTicks;
    interrupt.Schedule(a, 5);
    assert interrupt.Waiting() == [Item(a, now + 5)];
    interrupt.Schedule(b, 5);
    assert interrupt.Waiting() == [Item(a, now + 5), Item(b, now + 5)];
    var fired := interrupt.CheckIfDue(false, react);
  }
}
