/** Where control goes: the program counters of every instruction, and the addresses that a thread's
    instructions are fetched from over every run (machine/mipssim.cc). */
module Control {
  import opened Words
  import opened Decoder
  import opened Cpu

  // ---------- one instruction ----------

  /** The instruction ends without a trap and without a failed assertion. */
  predicate Ends(r: Regs, i: Instruction, c: Cycle, ops: Arithmetic)
    requires Registers(i)
  {
    var op, a := i.opCode, Address(r, i);
    if op in {OP_SYSCALL, OP_RES, OP_UNIMP} then false
    else if op in {OP_ADD, OP_ADDI, OP_SUB} then !ops.overflow(i, RsOf(r, i), RtOf(r, i))
    else if op in {OP_LB, OP_LBU} then c.mem.Value?
    else if op in {OP_LH, OP_LHU} then a % 2 == 0 && c.mem.Value?
    else if op in {OP_LW, OP_LWL, OP_LWR} then a % 4 == 0 && c.mem.Value?
    else if op in {OP_SB, OP_SH, OP_SW} then c.mem.Value?
    else if op in {OP_SWL, OP_SWR} then a % 4 == 0 && c.mem.Value? && c.again.Value?
    else true
  }

  /** The assertion of the four instructions for unaligned words fails. */
  predicate Stops(r: Regs, i: Instruction)
    requires Registers(i)
  {
    i.opCode in {OP_LWL, OP_LWR, OP_SWL, OP_SWR} && Address(r, i) % 4 != 0
  }

  /** The conditional branches, with and without a link. */
  predicate IsBranch(op: int) {
    op in {OP_BEQ, OP_BNE, OP_BGEZ, OP_BGTZ, OP_BLEZ, OP_BLTZ, OP_BGEZAL, OP_BLTZAL}
  }

  /** Where an instruction directs control: a jump within the 256 megabytes of the delay slot's successor, to a
      register's value, a taken branch relative to the delay slot, and everything else past the delay slot. */
  predicate GoesTo(r: Regs, i: Instruction, ops: Arithmetic, pc: Int32)
    requires Registers(i)
  {
    var op, next := i.opCode, r[NEXT_PC_REG] as int;
    if op in {OP_J, OP_JAL} then
      (pc - i.extra * 4) % 0x1000_0000 == 0 && Unsigned(pc) / 0x1000_0000 == Unsigned(next + 4) / 0x1000_0000
    else if op == OP_JR || (op == OP_JALR && i.rs != i.rd) then pc == r[i.rs]
    else if IsBranch(op) && ops.taken(i, RsOf(r, i), RtOf(r, i)) then (pc - (next + i.extra * 4)) % 0x1_0000_0000 == 0
    else (pc - (next + 4)) % 0x1_0000_0000 == 0
  }

  lemma JumpWithin(p: int, x: int, pc: Int32)
    requires 0 <= p < 0x1_0000_0000 && pc == Signed(p - p % 0x1000_0000 + x % 0x1000_0000)
    ensures (pc - x) % 0x1000_0000 == 0 && Unsigned(pc) / 0x1000_0000 == p / 0x1000_0000
  {
    var q, y := p / 0x1000_0000, x % 0x1000_0000;
    var w := q * 0x1000_0000 + y;
    assert p - p % 0x1000_0000 == q * 0x1000_0000;
    assert 0 <= w < 0x1_0000_0000 && w / 0x1000_0000 == q;
    assert pc == w || pc == w - 16 * 0x1000_0000;
    assert x == x / 0x1000_0000 * 0x1000_0000 + y;
    var m := q - x / 0x1000_0000;
    assert pc - x == m * 0x1000_0000 || pc - x == (m - 16) * 0x1000_0000;
  }

  lemma TargetExact(r: Regs, i: Instruction, ops: Arithmetic)
    requires Registers(i)
    ensures GoesTo(r, i, ops, PcAfter(r, i, ops))
  {
    if i.opCode in {OP_J, OP_JAL} {
      var p := Unsigned(Link(r));
      assert p == Unsigned(r[NEXT_PC_REG] as int + 4);
      JumpWithin(p, i.extra * 4, PcAfter(r, i, ops));
    }
  }

  /** How the counters move: on when the instruction ends; after a trap they are the kernel's, as far as its
      handler writes them; and nothing moves when an assertion fails. */
  ghost predicate CountersMove(r: Regs, r': Regs, i: Instruction, c: Cycle, ops: Arithmetic)
    requires Registers(i)
  {
    if Ends(r, i, c, ops) then
      r'[PREV_PC_REG] == r[PC_REG] && r'[PC_REG] == r[NEXT_PC_REG] && GoesTo(r, i, ops, r'[NEXT_PC_REG])
    else if Stops(r, i) then r' == r
    else Resumes(r, r', c.h)
  }

  predicate Resumes(r: Regs, r': Regs, h: KernelWrites) {
    && r'[PC_REG] == (if PC_REG in h then h[PC_REG] else r[PC_REG])
    && r'[NEXT_PC_REG] == (if NEXT_PC_REG in h then h[NEXT_PC_REG] else r[NEXT_PC_REG])
    && r'[PREV_PC_REG] == (if PREV_PC_REG in h then h[PREV_PC_REG] else r[PREV_PC_REG])
  }

  lemma CompletedCounters(r: Regs, nextReg: Int32, nextValue: Int32, pcAfter: Int32)
    requires 0 <= r[LOAD_REG] < NUM_GP_REGS
    ensures var r' := Completed(r, nextReg, nextValue, pcAfter);
      r'[PREV_PC_REG] == r[PC_REG] && r'[PC_REG] == r[NEXT_PC_REG] && r'[NEXT_PC_REG] == pcAfter
  {}

  lemma TrapCounters(r: Regs, badVAddr: Int32, h: KernelWrites)
    requires Ok(r)
    ensures Resumes(r, AfterTrap(r, badVAddr, h), h)
  {}

  lemma LoadCounters(r: Regs, i: Instruction, c: Cycle, ops: Arithmetic)
    requires Ok(r) && Registers(i) && KindOf(i.opCode) == Loads
    ensures CountersMove(r, Loaded(r, i, c).regs, i, c, ops)
  {
    TargetExact(r, i, ops);
  }

  lemma StoreCounters(r: Regs, i: Instruction, c: Cycle, ops: Arithmetic)
    requires Ok(r) && Registers(i) && KindOf(i.opCode) == Stores
    ensures CountersMove(r, Storage(r, i, c).regs, i, c, ops)
  {
    TargetExact(r, i, ops);
  }

  /** The switch writes only registers of its own. */
  lemma SwitchCounters(r: Regs, i: Instruction, ops: Arithmetic)
    requires Registers(i)
    ensures forall x :: PC_REG <= x < NUM_TOTAL_REGS ==> AfterSwitch(r, i, ops)[x] == r[x]
  {}

  lemma PlainEnds(r: Regs, i: Instruction, c: Cycle, ops: Arithmetic)
    requires Registers(i) && KindOf(i.opCode) !in {Loads, Stores, Unhandled}
    ensures !Stops(r, i) && (Ends(r, i, c, ops) <==> KindOf(i.opCode) != Traps && !Overflows(r, i, ops))
  {}

  lemma PlainCounters(r: Regs, i: Instruction, c: Cycle, ops: Arithmetic)
    requires Ok(r) && Registers(i) && KindOf(i.opCode) !in {Loads, Stores, Unhandled}
    ensures CountersMove(r, Executed(r, i, c, ops).regs, i, c, ops)
  {
    PlainEnds(r, i, c, ops);
    if KindOf(i.opCode) == Traps || Overflows(r, i, ops) {
      TrapCounters(r, 0, c.h);
    } else {
      TargetExact(r, i, ops);
      SwitchCounters(r, i, ops);
      CompletedCounters(AfterSwitch(r, i, ops), 0, 0, PcAfter(r, i, ops));
    }
  }

  /** After every instruction the counters have moved as they should. */
  lemma CountersAfter(r: Regs, i: Instruction, c: Cycle, ops: Arithmetic)
    requires Ok(r) && Registers(i) && KindOf(i.opCode) != Unhandled
    ensures CountersMove(r, Executed(r, i, c, ops).regs, i, c, ops)
  {
    if KindOf(i.opCode) == Loads {
      LoadCounters(r, i, c, ops);
    } else if KindOf(i.opCode) == Stores {
      StoreCounters(r, i, c, ops);
    } else {
      PlainCounters(r, i, c, ops);
    }
  }

  /** The address that a trap reports: that of an unaligned load, that of a fault, or none. */
  function BadAddress(r: Regs, i: Instruction, c: Cycle): Int32
    requires Registers(i)
  {
    if KindOf(i.opCode) == Loads && Address(r, i) % Size(i.opCode) != 0 then Address(r, i)
    else if KindOf(i.opCode) in {Loads, Stores} then
      (if c.mem.Fault? then c.mem.badVAddr else if c.again.Fault? then c.again.badVAddr else 0)
    else 0
  }

  /** An instruction that traps has no effect of its own: a pending load lands, the address is reported, and whatever
      else changes was written by the kernel. */
  ghost predicate TrapsOnly(r: Regs, r': Regs, bad: Int32, h: KernelWrites) {
    && r'[BAD_VADDR_REG] == bad && r'[LOAD_REG] == 0
    && (forall d :: 0 <= d < PC_REG ==>
          r'[d] == if d in h then h[d]
                   else if d == 0 then 0
                   else if d == r[LOAD_REG] then r[LOAD_VALUE_REG]
                   else r[d])
  }

  lemma TrapRegisters(r: Regs, bad: Int32, h: KernelWrites)
    requires Ok(r)
    ensures TrapsOnly(r, AfterTrap(r, bad, h), bad, h)
  {}

  lemma MemoryTrap(r: Regs, i: Instruction, c: Cycle, ops: Arithmetic)
    requires Ok(r) && Registers(i) && KindOf(i.opCode) in {Loads, Stores} && !Ends(r, i, c, ops) && !Stops(r, i)
    ensures Executed(r, i, c, ops).regs == AfterTrap(r, BadAddress(r, i, c), c.h)
  {}

  lemma PlainTrap(r: Regs, i: Instruction, c: Cycle, ops: Arithmetic)
    requires Ok(r) && Registers(i) && KindOf(i.opCode) !in {Loads, Stores, Unhandled} && !Ends(r, i, c, ops)
    ensures Executed(r, i, c, ops).regs == AfterTrap(r, BadAddress(r, i, c), c.h)
  {
    PlainEnds(r, i, c, ops);
  }

  lemma TrapsCleanly(r: Regs, i: Instruction, c: Cycle, ops: Arithmetic)
    requires Ok(r) && Registers(i) && KindOf(i.opCode) != Unhandled && !Ends(r, i, c, ops) && !Stops(r, i)
    ensures TrapsOnly(r, Executed(r, i, c, ops).regs, BadAddress(r, i, c), c.h)
  {
    if KindOf(i.opCode) in {Loads, Stores} {
      MemoryTrap(r, i, c, ops);
    } else {
      PlainTrap(r, i, c, ops);
    }
    TrapRegisters(r, BadAddress(r, i, c), c.h);
  }

  // ---------- every run, thread by thread ----------

  /** The registers of a thread: the machine's while it runs, and the saved ones otherwise. */
  predicate Known(s: State, t: int) { t == s.current || t in s.saved }

  function RegsOf(s: State, t: int): Regs
    requires Known(s, t)
  {
    if t == s.current then s.regs else s.saved[t]
  }

  /** The event is an instruction of the thread. */
  predicate Runs(s: State, e: Event, t: int) { e.Instruct? && s.current == t }

  predicate StepEnds(r: Regs, c: Cycle, ops: Arithmetic) {
    c.fetch.Value? && Ends(r, Decode(Unsigned(c.fetch.value)), c, ops)
  }

  /** All instructions of the thread end, in a run that may hold traps of other threads, interrupts and switches. */
  ghost predicate AllEnd(s: State, es: seq<Event>, ops: Arithmetic, t: int)
    requires AllOk(s)
    decreases |es|
  {
    es != [] ==>
      var f := Took(s, es[0], ops);
      && (Runs(s, es[0], t) ==> StepEnds(s.regs, es[0].cycle, ops))
      && (!f.access.Halting? ==> AllEnd(f.state, es[1..], ops, t))
  }

  /** The addresses are where the thread's instructions direct control, one after the other. */
  ghost predicate Directed(s: State, es: seq<Event>, ops: Arithmetic, t: int, targets: seq<Int32>)
    requires AllOk(s)
    decreases |es|
  {
    if es == [] then targets == []
    else
      var f := Took(s, es[0], ops);
      if Runs(s, es[0], t) then
        && es[0].cycle.fetch.Value? && targets != []
        && GoesTo(s.regs, Decode(Unsigned(es[0].cycle.fetch.value)), ops, targets[0])
        && Directed(f.state, es[1..], ops, t, targets[1..])
      else if f.access.Halting? then targets == []
      else Directed(f.state, es[1..], ops, t, targets)
  }

  /** The addresses that the thread's instructions are fetched from. */
  function FetchedBy(fetched: seq<Fetch>, t: int): seq<Int32> {
    if fetched == [] then []
    else (if fetched[0].thread == t then [fetched[0].addr] else []) + FetchedBy(fetched[1..], t)
  }

  lemma StepCounters(r: Regs, c: Cycle, ops: Arithmetic)
    requires Ok(r) && StepEnds(r, c, ops)
    ensures var i, r' := Decode(Unsigned(c.fetch.value)), Stepped(r, c, ops).regs;
      && r'[PREV_PC_REG] == r[PC_REG] && r'[PC_REG] == r[NEXT_PC_REG] && GoesTo(r, i, ops, r'[NEXT_PC_REG])
      && !Stepped(r, c, ops).access.Halting?
  {
    var i := Decode(Unsigned(c.fetch.value));
    CountersAfter(r, i, c, ops);
    EndsRunsOn(r, i, c, ops);
  }

  lemma EndsRunsOn(r: Regs, i: Instruction, c: Cycle, ops: Arithmetic)
    requires Ok(r) && Registers(i)
    ensures Executed(r, i, c, ops).access.Halting? <==> Stops(r, i)
    ensures Ends(r, i, c, ops) ==> !Stops(r, i)
  {}

  /** A thread finds all its registers as it left them: a switch changes nobody's, and the instructions of one
      thread change no other's. */
  lemma SwitchKeepsRegisters(s: State, e: Event, ops: Arithmetic, t: int)
    requires AllOk(s) && Known(s, t) && (e.Switch? || s.current != t)
    ensures var s' := Took(s, e, ops).state;
      && Known(s', t) && RegsOf(s', t) == RegsOf(s, t)
      && s'.current == if e.Switch? && Known(s, e.to) then e.to else s.current
  {}

  /** Whatever else happens leaves a thread's counters alone. */
  lemma OthersKeepCounters(s: State, e: Event, ops: Arithmetic, t: int)
    requires AllOk(s) && Known(s, t) && !Runs(s, e, t)
    ensures var s' := Took(s, e, ops).state;
      && Known(s', t)
      && RegsOf(s', t)[PC_REG] == RegsOf(s, t)[PC_REG] && RegsOf(s', t)[NEXT_PC_REG] == RegsOf(s, t)[NEXT_PC_REG]
  {}

  lemma FetchedNext(f: seq<Fetch>, rest: seq<Fetch>, t: int)
    requires |f| <= 1
    ensures FetchedBy(f + rest, t) == (if f != [] && f[0].thread == t then [f[0].addr] else []) + FetchedBy(rest, t)
  {
    if f == [] {
      assert f + rest == rest;
    } else {
      assert (f + rest)[0] == f[0] && (f + rest)[1..] == rest;
    }
  }

  lemma Ahead(pc: Int32, next: Int32, target: Int32, targets: seq<Int32>, n: nat)
    requires n <= |targets| + 2
    ensures [pc] + ([next, target] + targets)[..n] == ([pc, next] + ([target] + targets))[..n + 1]
  {
    assert [pc] + ([next, target] + targets) == [pc, next] + ([target] + targets);
  }

  /** Over every run, whatever happens between a thread's instructions: if they all end, they are fetched from the
      program counter, then from the next program counter, and then from where the first one directed control,
      where the second one did, and so on.  So a branch takes effect exactly one instruction late. */
  lemma {:induction false} ThreadPath(s: State, es: seq<Event>, ops: Arithmetic, t: int) returns (targets: seq<Int32>)
    requires AllOk(s) && Known(s, t) && AllEnd(s, es, ops, t)
    ensures Directed(s, es, ops, t, targets)
    ensures var r := RegsOf(s, t);
      FetchedBy(RunDelayed(s, es, ops).fetched, t) == ([r[PC_REG], r[NEXT_PC_REG]] + targets)[..|targets|]
    decreases |es|
  {
    targets := [];
    if es != [] {
      var f := Took(s, es[0], ops);
      if Runs(s, es[0], t) {
        StepCounters(s.regs, es[0].cycle, ops);
        var rest := ThreadPath(f.state, es[1..], ops, t);
        targets := [f.state.regs[NEXT_PC_REG]] + rest;
        FetchedNext(f.fetched, RunDelayed(f.state, es[1..], ops).fetched, t);
        Ahead(s.regs[PC_REG], s.regs[NEXT_PC_REG], f.state.regs[NEXT_PC_REG], rest, |rest|);
      } else {
        OthersKeepCounters(s, es[0], ops, t);
        if f.access.Halting? {
          FetchedNext(f.fetched, [], t);
          assert f.fetched + [] == f.fetched;
        } else {
          targets := ThreadPath(f.state, es[1..], ops, t);
          FetchedNext(f.fetched, RunDelayed(f.state, es[1..], ops).fetched, t);
        }
      }
    }
  }
}
