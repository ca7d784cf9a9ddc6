/** The CPU simulator: what each instruction does to the registers and asks of memory, delayed loads,
    traps, interrupts and context switches (machine/mipssim.cc, machine/machine.cc,
    threads/thread.cc).

    Addresses, program counters and loaded and stored values are as in the source.  The arithmetic on
    operands and the replies of memory are parameters, so every statement below holds for whatever
    values the instructions compute; `Mips` is the arithmetic of the source. */
module Cpu {
  import opened Words
  import opened Decoder

  const R31 := 31
  const HI_REG := 32
  const LO_REG := 33
  const PC_REG := 34
  const NEXT_PC_REG := 35
  const PREV_PC_REG := 36
  const LOAD_REG := 37
  const LOAD_VALUE_REG := 38
  const BAD_VADDR_REG := 39
  const NUM_GP_REGS := 32
  const NUM_TOTAL_REGS := 40

  type Regs = r: seq<Int32> | |r| == 40 witness seq(40, _ => 0)

  /** Register 0 reads zero, and the pending load names a general register. */
  ghost predicate Ok(r: Regs) {
    r[0] == 0 && 0 <= r[LOAD_REG] < NUM_GP_REGS
  }

  datatype MemReply = Value(value: Int32) | Fault(badVAddr: Int32)

  /** What an opcode computes from the operands that it reads; an operand that it does not read is
      passed as 0. */
  datatype Arithmetic = Arithmetic(
    result: (Instruction, Int32, Int32) -> Int32,
    overflow: (Instruction, Int32, Int32) -> bool,
    hi: (Instruction, Int32, Int32) -> Int32,
    lo: (Instruction, Int32, Int32) -> Int32,
    taken: (Instruction, Int32, Int32) -> bool)

  /** The registers a trap handler may write: the syscall result and the program counters. */
  type KernelWrites = h: map<int, Int32> | h.Keys <= {2, PC_REG, NEXT_PC_REG, PREV_PC_REG}
    witness map[]

  /** The replies of memory to one instruction, and what the kernel writes if it traps.  SWL and SWR
      read a word and write it back; `again` answers the write. */
  datatype Cycle = Cycle(fetch: MemReply, mem: MemReply, again: MemReply, h: KernelWrites)

  function Overlay(r: Regs, h: map<int, Int32>): Regs {
    seq(NUM_TOTAL_REGS, i requires 0 <= i < |r| => if i in h then h[i] else r[i])
  }

  /** `Machine::DelayedLoad`. */
  function AfterDelayedLoad(r: Regs, nextReg: Int32, nextValue: Int32): Regs
    requires 0 <= r[LOAD_REG] < NUM_GP_REGS
  {
    r[r[LOAD_REG] := r[LOAD_VALUE_REG]][LOAD_REG := nextReg][LOAD_VALUE_REG := nextValue][0 := 0]
  }

  /** `Machine::RaiseException`, with the handler's register writes. */
  function AfterTrap(r: Regs, badVAddr: Int32, h: KernelWrites): Regs
    requires 0 <= r[LOAD_REG] < NUM_GP_REGS
  {
    Overlay(AfterDelayedLoad(r[BAD_VADDR_REG := badVAddr], 0, 0), h)
  }

  /** Addition of a register and a constant, with wrap-around. */
  function Plus(x: Int32, y: int): Int32 { Signed(x as int + y) }

  // ---------- operands ----------

  predicate Registers(i: Instruction) {
    0 <= i.rs < 32 && 0 <= i.rt < 32 && 0 <= i.rd < 32
  }

  /** The cases of the switch that read register rs. */
  predicate ReadsRs(op: int) {
    KindOf(op) != Traps && op !in {OP_SLL, OP_SRL, OP_SRA, OP_LUI, OP_MFHI, OP_MFLO, OP_J, OP_JAL}
  }

  /** The cases that read register rt, apart from LWL and LWR, which see a load that is still pending.
      OP_OR reads rs twice. */
  predicate ReadsRt(op: int) {
    match KindOf(op)
    case WritesRd => op !in {OP_OR, OP_MFHI, OP_MFLO, OP_JALR}
    case WritesHiLo => true
    case Stores => true
    case NoResult => op == OP_BEQ || op == OP_BNE
    case _ => false
  }

  predicate Branches(op: int) {
    op in {OP_BEQ, OP_BNE, OP_BGEZ, OP_BGTZ, OP_BLEZ, OP_BLTZ, OP_BGEZAL, OP_BLTZAL}
  }

  predicate CanOverflow(op: int) { op in {OP_ADD, OP_ADDI, OP_SUB} }

  /** The address after the delay slot: what a link register gets, and where control goes without a
      jump. */
  function Link(r: Regs): Int32 { Plus(r[NEXT_PC_REG], 4) }

  /** The register that gets the link before rs is read, or -1. */
  function LinkReg(i: Instruction): int {
    if KindOf(i.opCode) == Links then R31 else if i.opCode == OP_JALR then i.rd else -1
  }

  function RsOf(r: Regs, i: Instruction): Int32
    requires Registers(i)
  {
    if !ReadsRs(i.opCode) then 0 else if i.rs == LinkReg(i) then Link(r) else r[i.rs]
  }

  function RtOf(r: Regs, i: Instruction): Int32
    requires Registers(i)
  {
    if ReadsRt(i.opCode) then r[i.rt] else 0
  }

  /** The rt value a load is merged into; only LWL and LWR use it, and they forward a load that
      is still pending for rt. */
  function MergeOperand(r: Regs, i: Instruction): Int32
    requires Registers(i)
  {
    if i.opCode !in {OP_LWL, OP_LWR} then 0
    else if r[LOAD_REG] == i.rt then r[LOAD_VALUE_REG]
    else r[i.rt]
  }

  // ---------- results ----------

  /** What an instruction writes to rd or rt. */
  function Result(r: Regs, i: Instruction, ops: Arithmetic): Int32
    requires Registers(i)
  {
    if i.opCode == OP_MFHI then r[HI_REG]
    else if i.opCode == OP_MFLO then r[LO_REG]
    else if i.opCode == OP_JALR then Link(r)
    else if i.opCode == OP_LUI then Signed(i.extra * 0x1_0000)
    else ops.result(i, RsOf(r, i), RtOf(r, i))
  }

  predicate Overflows(r: Regs, i: Instruction, ops: Arithmetic)
    requires Registers(i)
  {
    CanOverflow(i.opCode) && ops.overflow(i, RsOf(r, i), RtOf(r, i))
  }

  function BranchTarget(r: Regs, i: Instruction): Int32 { Plus(r[NEXT_PC_REG], i.extra * 4) }

  /** A jump keeps the top four bits of the program counter. */
  function JumpTarget(r: Regs, i: Instruction): Int32 {
    var pc := Unsigned(Link(r));
    Signed(pc - pc % 0x1000_0000 + i.extra * 4 % 0x1000_0000)
  }

  function PcAfter(r: Regs, i: Instruction, ops: Arithmetic): Int32
    requires Registers(i)
  {
    if i.opCode == OP_J || i.opCode == OP_JAL then JumpTarget(r, i)
    else if i.opCode == OP_JR || i.opCode == OP_JALR then RsOf(r, i)
    else if Branches(i.opCode) && ops.taken(i, RsOf(r, i), RtOf(r, i)) then BranchTarget(r, i)
    else Link(r)
  }

  /** The registers the switch writes at once, before the delayed load is applied. */
  function AfterSwitch(r: Regs, i: Instruction, ops: Arithmetic): Regs
    requires Registers(i)
  {
    match KindOf(i.opCode)
    case WritesRd => r[i.rd := Result(r, i, ops)]
    case WritesRt => r[i.rt := Result(r, i, ops)]
    case Links => r[R31 := Link(r)]
    case WritesHiLo => r[HI_REG := ops.hi(i, RsOf(r, i), RtOf(r, i))][LO_REG := ops.lo(i, RsOf(r, i), RtOf(r, i))]
    case WritesHi => r[HI_REG := RsOf(r, i)]
    case WritesLo => r[LO_REG := RsOf(r, i)]
    case _ => r
  }

  function AfterCounters(r: Regs, pcAfter: Int32): Regs {
    r[PREV_PC_REG := r[PC_REG]][PC_REG := r[NEXT_PC_REG]][NEXT_PC_REG := pcAfter]
  }

  /** The end of an instruction that raised no trap. */
  function Completed(r: Regs, nextReg: Int32, nextValue: Int32, pcAfter: Int32): Regs
    requires 0 <= r[LOAD_REG] < NUM_GP_REGS
  {
    AfterCounters(AfterDelayedLoad(r, nextReg, nextValue), pcAfter)
  }

  // ---------- memory ----------

  /** What an instruction asks of memory; `Halting` is a failed assertion on the address. */
  datatype Access =
    | NoAccess
    | Loading(addr: Int32, size: int)
    | Storing(addr: Int32, size: int, value: int)
    | Merging(addr: Int32, value: int)
    | Halting(addr: Int32)

  datatype Outcome = Outcome(regs: Regs, access: Access)

  function Address(r: Regs, i: Instruction): Int32
    requires Registers(i)
  {
    Plus(RsOf(r, i), i.extra)
  }

  function Size(op: int): int {
    if op in {OP_LB, OP_LBU, OP_SB} then 1 else if op in {OP_LH, OP_LHU, OP_SH} then 2 else 4
  }

  /** LWL, LWR, SWL and SWR assert that the address is a multiple of four. */
  predicate Asserts(op: int) { op in {OP_LWL, OP_LWR, OP_SWL, OP_SWR} }

  function LoadValue(i: Instruction, value: Int32, merge: Int32): Int32 {
    var b, h := value % 0x100, value % 0x1_0000;
    if i.opCode == OP_LB then (if b < 0x80 then b else b - 0x100)
    else if i.opCode == OP_LBU then b
    else if i.opCode == OP_LH then (if h < 0x8000 then h else h - 0x1_0000)
    else if i.opCode == OP_LHU then h
    else if i.opCode == OP_LWR then Signed(merge - merge % 0x100 + Unsigned(value) / 0x100_0000)
    else value
  }

  /** The part of register rt that reaches memory. */
  function Stored(op: int, x: Int32): int {
    if op == OP_SB || op == OP_SWR then x % 0x100
    else if op == OP_SH then x % 0x1_0000
    else Unsigned(x)
  }

  /** The word that SWL and SWR write back. */
  function Merged(op: int, x: Int32, word: Int32): int {
    if op == OP_SWR then word % 0x100_0000 + Stored(op, x) * 0x100_0000 else Stored(op, x)
  }

  // ---------- one instruction ----------

  function Loaded(r: Regs, i: Instruction, c: Cycle): Outcome
    requires 0 <= r[LOAD_REG] < NUM_GP_REGS && Registers(i)
  {
    var a, size := Address(r, i), Size(i.opCode);
    if Asserts(i.opCode) && a % 4 != 0 then Outcome(r, Halting(a))
    else if a % size != 0 then Outcome(AfterTrap(r, a, c.h), NoAccess)
    else if c.mem.Fault? then Outcome(AfterTrap(r, c.mem.badVAddr, c.h), Loading(a, size))
    else Outcome(Completed(r, i.rt, LoadValue(i, c.mem.value, MergeOperand(r, i)), Link(r)), Loading(a, size))
  }

  function Wrote(r: Regs, reply: MemReply, h: KernelWrites): Regs
    requires 0 <= r[LOAD_REG] < NUM_GP_REGS
  {
    if reply.Fault? then AfterTrap(r, reply.badVAddr, h) else Completed(r, 0, 0, Link(r))
  }

  function Storage(r: Regs, i: Instruction, c: Cycle): Outcome
    requires 0 <= r[LOAD_REG] < NUM_GP_REGS && Registers(i)
  {
    var a, rt := Address(r, i), RtOf(r, i);
    if !Asserts(i.opCode) then Outcome(Wrote(r, c.mem, c.h), Storing(a, Size(i.opCode), Stored(i.opCode, rt)))
    else if a % 4 != 0 then Outcome(r, Halting(a))
    else if c.mem.Fault? then Outcome(AfterTrap(r, c.mem.badVAddr, c.h), Loading(a, 4))
    else Outcome(Wrote(r, c.again, c.h), Merging(a, Merged(i.opCode, rt, c.mem.value)))
  }

  /** A decoded instruction: the registers when it has ended or trapped, and its request to memory. */
  function Executed(r: Regs, i: Instruction, c: Cycle, ops: Arithmetic): Outcome
    requires 0 <= r[LOAD_REG] < NUM_GP_REGS && Registers(i)
  {
    match KindOf(i.opCode)
    case Traps => Outcome(AfterTrap(r, 0, c.h), NoAccess)
    case Loads => Loaded(r, i, c)
    case Stores => Storage(r, i, c)
    case _ =>
      if Overflows(r, i, ops) then Outcome(AfterTrap(r, 0, c.h), NoAccess)
      else Outcome(Completed(AfterSwitch(r, i, ops), 0, 0, PcAfter(r, i, ops)), NoAccess)
  }

  /** `Machine::OneInstruction`. */
  function Stepped(r: Regs, c: Cycle, ops: Arithmetic): Outcome
    requires 0 <= r[LOAD_REG] < NUM_GP_REGS
  {
    if c.fetch.Fault? then Outcome(AfterTrap(r, c.fetch.badVAddr, c.h), NoAccess)
    else Executed(r, Decode(Unsigned(c.fetch.value)), c, ops)
  }

  // ---------- the register file, updated in place ----------

  class Machine {
    const registers: array<Int32>

    ghost predicate Valid()
      reads this, registers
    {
      registers.Length == NUM_TOTAL_REGS && Ok(registers[..])
    }

    constructor ()
      ensures Valid() && fresh(registers)
    {
      registers := new Int32[NUM_TOTAL_REGS](_ => 0);
    }

    method DelayedLoad(nextReg: Int32, nextValue: Int32)
      requires registers.Length == NUM_TOTAL_REGS && 0 <= registers[LOAD_REG] < NUM_GP_REGS
      modifies registers
      ensures registers[..] == AfterDelayedLoad(old(registers[..]), nextReg, nextValue)
    {
      registers[registers[LOAD_REG]] := registers[LOAD_VALUE_REG];
      registers[LOAD_REG] := nextReg;
      registers[LOAD_VALUE_REG] := nextValue;
      registers[0] := 0;
    }

    method RaiseException(badVAddr: Int32, h: KernelWrites)
      requires registers.Length == NUM_TOTAL_REGS && 0 <= registers[LOAD_REG] < NUM_GP_REGS
      modifies registers
      ensures registers[..] == AfterTrap(old(registers[..]), badVAddr, h)
    {
      registers[BAD_VADDR_REG] := badVAddr;
      DelayedLoad(0, 0);
      ghost var before := registers[..];
      for k := 0 to NUM_TOTAL_REGS
        invariant forall j :: 0 <= j < NUM_TOTAL_REGS ==>
          registers[j] == if j < k && j in h then h[j] else before[j]
      {
        if k in h {
          registers[k] := h[k];
        }
      }
    }

    /** After the switch: the delayed load and the program counters. */
    method Complete(nextReg: Int32, nextValue: Int32, pcAfter: Int32)
      requires registers.Length == NUM_TOTAL_REGS && 0 <= registers[LOAD_REG] < NUM_GP_REGS
      modifies registers
      ensures registers[..] == Completed(old(registers[..]), nextReg, nextValue, pcAfter)
    {
      DelayedLoad(nextReg, nextValue);
      registers[PREV_PC_REG] := registers[PC_REG];
      registers[PC_REG] := registers[NEXT_PC_REG];
      registers[NEXT_PC_REG] := pcAfter;
    }

    /** The cases of the switch that write a register or jump, in the order of the source: a link
        register is written before rs is read. */
    method Switch(i: Instruction, ops: Arithmetic) returns (pcAfter: Int32)
      requires Valid() && Registers(i) && KindOf(i.opCode) !in {Traps, Loads, Stores}
      modifies registers
      ensures registers[..] == AfterSwitch(old(registers[..]), i, ops) && pcAfter == PcAfter(old(registers[..]), i, ops)
    {
      pcAfter := Plus(registers[NEXT_PC_REG], 4);
      var rt := if ReadsRt(i.opCode) then registers[i.rt] else 0;
      var kind := KindOf(i.opCode);
      if i.opCode == OP_JALR {
        registers[i.rd] := pcAfter;
        pcAfter := registers[i.rs];
      } else if i.opCode == OP_MFHI {
        registers[i.rd] := registers[HI_REG];
      } else if i.opCode == OP_MFLO {
        registers[i.rd] := registers[LO_REG];
      } else if i.opCode == OP_LUI {
        registers[i.rt] := Signed(i.extra * 0x1_0000);
      } else if kind == WritesRd {
        registers[i.rd] := ops.result(i, if ReadsRs(i.opCode) then registers[i.rs] else 0, rt);
      } else if kind == WritesRt {
        registers[i.rt] := ops.result(i, registers[i.rs], rt);
      } else if kind == WritesHiLo {
        registers[HI_REG], registers[LO_REG] := ops.hi(i, registers[i.rs], rt), ops.lo(i, registers[i.rs], rt);
      } else if kind == WritesHi {
        registers[HI_REG] := registers[i.rs];
      } else if kind == WritesLo {
        registers[LO_REG] := registers[i.rs];
      } else {
        pcAfter := Jump(i, rt, ops);
      }
    }

    /** Branches and jumps without a result, and those that link through register 31. */
    method Jump(i: Instruction, rt: Int32, ops: Arithmetic) returns (pcAfter: Int32)
      requires Valid() && Registers(i) && KindOf(i.opCode) in {Links, NoResult, Unhandled} && rt == RtOf(registers[..], i)
      modifies registers
      ensures registers[..] == AfterSwitch(old(registers[..]), i, ops) && pcAfter == PcAfter(old(registers[..]), i, ops)
    {
      pcAfter := Plus(registers[NEXT_PC_REG], 4);
      if KindOf(i.opCode) == Links {
        registers[R31] := pcAfter;
      }
      if i.opCode == OP_J || i.opCode == OP_JAL {
        var pc := Unsigned(pcAfter);
        pcAfter := Signed(pc - pc % 0x1000_0000 + i.extra * 4 % 0x1000_0000);
      } else if i.opCode == OP_JR {
        pcAfter := registers[i.rs];
      } else if Branches(i.opCode) && ops.taken(i, registers[i.rs], rt) {
        pcAfter := Plus(registers[NEXT_PC_REG], i.extra * 4);
      }
    }

    method Load(i: Instruction, c: Cycle) returns (access: Access)
      requires Valid() && Registers(i) && KindOf(i.opCode) == Loads
      modifies registers
      ensures Outcome(registers[..], access) == Loaded(old(registers[..]), i, c)
    {
      var tmp, size := Plus(registers[i.rs], i.extra), Size(i.opCode);
      access := NoAccess;
      if Asserts(i.opCode) && tmp % 4 != 0 {
        return Halting(tmp);
      }
      if tmp % size != 0 {
        RaiseException(tmp, c.h);
        return;
      }
      access := Loading(tmp, size);
      if c.mem.Fault? {
        RaiseException(c.mem.badVAddr, c.h);
      } else {
        var merge := if i.opCode !in {OP_LWL, OP_LWR} then 0
                     else if registers[LOAD_REG] == i.rt then registers[LOAD_VALUE_REG]
                     else registers[i.rt];
        Complete(i.rt, LoadValue(i, c.mem.value, merge), Plus(registers[NEXT_PC_REG], 4));
      }
    }

    method Store(i: Instruction, c: Cycle) returns (access: Access)
      requires Valid() && Registers(i) && KindOf(i.opCode) == Stores
      modifies registers
      ensures Outcome(registers[..], access) == Storage(old(registers[..]), i, c)
    {
      var tmp := Plus(registers[i.rs], i.extra);
      var reply := c.mem;
      if Asserts(i.opCode) {
        if tmp % 4 != 0 {
          return Halting(tmp);
        }
        if c.mem.Fault? {
          RaiseException(c.mem.badVAddr, c.h);
          return Loading(tmp, 4);
        }
        access, reply := Merging(tmp, Merged(i.opCode, registers[i.rt], c.mem.value)), c.again;
      } else {
        access := Storing(tmp, Size(i.opCode), Stored(i.opCode, registers[i.rt]));
      }
      if reply.Fault? {
        RaiseException(reply.badVAddr, c.h);
      } else {
        Complete(0, 0, Plus(registers[NEXT_PC_REG], 4));
      }
    }

    method Execute(i: Instruction, c: Cycle, ops: Arithmetic) returns (access: Access)
      requires Valid() && Registers(i)
      modifies registers
      ensures Outcome(registers[..], access) == Executed(old(registers[..]), i, c, ops)
    {
      access := NoAccess;
      var kind := KindOf(i.opCode);
      if kind == Traps {
        RaiseException(0, c.h);
      } else if kind == Loads {
        access := Load(i, c);
      } else if kind == Stores {
        access := Store(i, c);
      } else {
        var rt := if ReadsRt(i.opCode) then registers[i.rt] else 0;
        if CanOverflow(i.opCode) && ops.overflow(i, registers[i.rs], rt) {
          RaiseException(0, c.h);
        } else {
          var pcAfter := Switch(i, ops);
          Complete(0, 0, pcAfter);
        }
      }
    }

    /** The instruction is fetched from where the program counter points. */
    method OneInstruction(c: Cycle, ops: Arithmetic) returns (fetched: Int32, access: Access)
      requires Valid()
      modifies registers
      ensures Valid() && fetched == old(registers[PC_REG])
      ensures Outcome(registers[..], access) == Stepped(old(registers[..]), c, ops)
    {
      StepKeepsOk(registers[..], c, ops);
      fetched, access := registers[PC_REG], NoAccess;
      if c.fetch.Fault? {
        RaiseException(c.fetch.badVAddr, c.h);
      } else {
        access := Execute(Decode(Unsigned(c.fetch.value)), c, ops);
      }
    }
  }

  // ---------- every run, over every thread ----------

  lemma ExecuteKeepsOk(r: Regs, i: Instruction, c: Cycle, ops: Arithmetic)
    requires Ok(r) && Registers(i)
    ensures Ok(Executed(r, i, c, ops).regs)
  {}

  lemma StepKeepsOk(r: Regs, c: Cycle, ops: Arithmetic)
    requires Ok(r)
    ensures Ok(Stepped(r, c, ops).regs)
  {
    if c.fetch.Value? {
      ExecuteKeepsOk(r, Decode(Unsigned(c.fetch.value)), c, ops);
    }
  }

  /** The machine's registers and the ones saved for each thread that is switched out. */
  datatype State = State(current: int, regs: Regs, saved: map<int, Regs>)

  datatype Event =
    | Instruct(cycle: Cycle)
    | Interrupt                       // a device handler is about to be called
    | Switch(to: int)                 // SaveUserState, then RestoreUserState of another thread

  function Next(s: State, e: Event, ops: Arithmetic): State
    requires 0 <= s.regs[LOAD_REG] < NUM_GP_REGS
  {
    match e
    case Instruct(c) => s.(regs := Stepped(s.regs, c, ops).regs)
    case Interrupt => s.(regs := AfterDelayedLoad(s.regs, 0, 0))
    case Switch(to) =>
      var saved := s.saved[s.current := s.regs];
      if to in saved then State(to, saved[to], saved) else s
  }

  ghost predicate SavedOk(saved: map<int, Regs>) {
    forall t {:trigger saved[t]} :: t in saved ==> Ok(saved[t])
  }

  ghost predicate AllOk(s: State) { Ok(s.regs) && SavedOk(s.saved) }

  function Run(s: State, es: seq<Event>, ops: Arithmetic): (s': State)
    requires AllOk(s)
    ensures AllOk(s')
    decreases |es|
  {
    if es == [] then s
    else
      var n := Next(s, es[0], ops);
      NextKeepsOk(s, es[0], ops);
      Run(n, es[1..], ops)
  }

  lemma NextKeepsOk(s: State, e: Event, ops: Arithmetic)
    requires AllOk(s)
    ensures AllOk(Next(s, e, ops))
  {
    if e.Instruct? {
      StepKeepsOk(s.regs, e.cycle, ops);
    }
  }

  /** A load that completes leaves its target alone: the next instruction still reads the old
      value.  The value arrives with whatever happens next, unless that fails an assertion, and it
      arrives only once: after that, only a new load can be pending. */
  lemma LoadLandsNext(r: Regs, i: Instruction, c: Cycle, ops: Arithmetic, next: Event)
    requires Ok(r) && Registers(i) && i.rt > 0 && KindOf(i.opCode) == Loads
    requires Loaded(r, i, c).access.Loading? && c.mem.Value?
    requires !next.Switch? && (next.Instruct? ==> i.rt !in next.cycle.h)
    ensures var after := Executed(r, i, c, ops).regs;
      Ok(after) && after[i.rt] == if r[LOAD_REG] == i.rt then r[LOAD_VALUE_REG] else r[i.rt]
    ensures var after := Executed(r, i, c, ops).regs;
      (next.Instruct? ==> !Stepped(after, next.cycle, ops).access.Halting?) ==>
        forall t, saved {:trigger Next(State(t, after, saved), next, ops)} ::
          var s := Next(State(t, after, saved), next, ops);
          && s.regs[i.rt] == LoadValue(i, c.mem.value, MergeOperand(r, i))
          && (s.regs[LOAD_REG] == 0 || StartsLoad(next, s.regs[LOAD_REG]))
  {
    var after := Executed(r, i, c, ops).regs;
    ExecuteKeepsOk(r, i, c, ops);
    if next.Instruct? && next.cycle.fetch.Value? {
      var j := Decode(Unsigned(next.cycle.fetch.value));
      if !Executed(after, j, next.cycle, ops).access.Halting? {
        PendingLands(after, j, next.cycle, ops);
      }
    }
  }

  /** Executing an instruction puts the pending load in place, even over its own result. */
  lemma PendingLands(r: Regs, i: Instruction, c: Cycle, ops: Arithmetic)
    requires Ok(r) && Registers(i) && r[LOAD_REG] > 0 && r[LOAD_REG] !in c.h
    requires !Executed(r, i, c, ops).access.Halting?
    ensures var r' := Executed(r, i, c, ops).regs;
            && r'[r[LOAD_REG]] == r[LOAD_VALUE_REG]
            && (r'[LOAD_REG] == 0 || (KindOf(i.opCode) == Loads && r'[LOAD_REG] == i.rt))
  {}

  /** The event is a load into register `x`. */
  ghost predicate StartsLoad(e: Event, x: int) {
    && e.Instruct? && e.cycle.fetch.Value?
    && var i := Decode(Unsigned(e.cycle.fetch.value)); KindOf(i.opCode) == Loads && i.rt == x
  }

  // ---------- when the delay slot is invisible ----------

  /** The registers with any pending load already applied. */
  function Settled(r: Regs): Regs
    requires 0 <= r[LOAD_REG] < NUM_GP_REGS
  {
    AfterDelayedLoad(r, 0, 0)
  }

  /** The instruction reads the target of a pending load that will change its value. */
  ghost predicate StaleRs(r: Regs, i: Instruction)
    requires Registers(i) && 0 <= r[LOAD_REG] < NUM_GP_REGS
  {
    var p := r[LOAD_REG];
    p != 0 && r[p] != r[LOAD_VALUE_REG] && ReadsRs(i.opCode) && p == i.rs && p != LinkReg(i)
  }

  ghost predicate StaleRt(r: Regs, i: Instruction)
    requires Registers(i) && 0 <= r[LOAD_REG] < NUM_GP_REGS
  {
    var p := r[LOAD_REG];
    p != 0 && r[p] != r[LOAD_VALUE_REG] && ReadsRt(i.opCode) && p == i.rt
  }

  ghost predicate Stale(r: Regs, i: Instruction)
    requires Registers(i) && 0 <= r[LOAD_REG] < NUM_GP_REGS
  {
    StaleRs(r, i) || StaleRt(r, i)
  }

  /** Results that no arithmetic goes into. */
  predicate Fixed(op: int) { op in {OP_MFHI, OP_MFLO, OP_JALR, OP_LUI} }

  function FixedResult(r: Regs, i: Instruction): Int32 {
    if i.opCode == OP_MFHI then r[HI_REG]
    else if i.opCode == OP_MFLO then r[LO_REG]
    else if i.opCode == OP_JALR then Link(r)
    else Signed(i.extra * 0x1_0000)
  }

  /** A result for register d is lost to the pending load, or computed from an old operand and seen:
      in d, which register 0 does not show, or as an overflow. */
  ghost predicate ResultHazard(r: Regs, i: Instruction, d: int)
    requires Registers(i) && 0 <= r[LOAD_REG] < NUM_GP_REGS
  {
    if Fixed(i.opCode)
    then r[LOAD_REG] == d != 0 && FixedResult(r, i) != r[LOAD_VALUE_REG]
    else r[LOAD_REG] == d != 0 || (Stale(r, i) && (d != 0 || CanOverflow(i.opCode)))
  }

  /** A stored value shows the part of the register that reaches memory. */
  ghost predicate StoreHazard(r: Regs, i: Instruction)
    requires Registers(i) && 0 <= r[LOAD_REG] < NUM_GP_REGS
  {
    || StaleRs(r, i)
    || (&& StaleRt(r, i) && Stored(i.opCode, r[i.rt]) != Stored(i.opCode, r[LOAD_VALUE_REG])
        && (Asserts(i.opCode) ==> Address(r, i) % 4 == 0))
  }

  /** A branch shows which way it goes unless both ways are the same. */
  ghost predicate BranchHazard(r: Regs, i: Instruction)
    requires Registers(i) && 0 <= r[LOAD_REG] < NUM_GP_REGS
  {
    Stale(r, i) && (i.opCode == OP_JR || BranchTarget(r, i) != Link(r))
  }

  /** Whether the pending load makes a difference to an instruction. */
  ghost predicate Hazard(r: Regs, i: Instruction)
    requires Registers(i) && 0 <= r[LOAD_REG] < NUM_GP_REGS
  {
    match KindOf(i.opCode)
    case WritesRd => ResultHazard(r, i, i.rd) || (i.opCode == OP_JALR && StaleRs(r, i))
    case WritesRt => ResultHazard(r, i, i.rt)
    case Links => (r[LOAD_REG] == R31 && Link(r) != r[LOAD_VALUE_REG]) || BranchHazard(r, i)
    case NoResult => BranchHazard(r, i)
    case Stores => StoreHazard(r, i)
    case Traps => false
    case Unhandled => false
    case _ => Stale(r, i)
  }

  ghost predicate FetchesHazard(r: Regs, fetch: MemReply)
    requires 0 <= r[LOAD_REG] < NUM_GP_REGS
  {
    fetch.Value? && Hazard(r, Decode(Unsigned(fetch.value)))
  }

  /** Executing with the load pending ends like executing with the load in place, and asks the same of
      memory. */
  ghost predicate SameEffect(r: Regs, i: Instruction, c: Cycle, ops: Arithmetic)
    requires Ok(r) && Registers(i)
  {
    ExecuteKeepsOk(r, i, c, ops);
    ExecuteKeepsOk(Settled(r), i, c, ops);
    Alike(Executed(r, i, c, ops), Executed(Settled(r), i, c, ops))
  }

  ghost predicate Alike(a: Outcome, b: Outcome)
    requires 0 <= a.regs[LOAD_REG] < NUM_GP_REGS && 0 <= b.regs[LOAD_REG] < NUM_GP_REGS
  {
    Settled(a.regs) == Settled(b.regs) && a.access == b.access
  }

  /** The operands differ exactly when they are stale. */
  lemma Operands(r: Regs, i: Instruction)
    requires Ok(r) && Registers(i)
    ensures RsOf(r, i) != RsOf(Settled(r), i) <==> StaleRs(r, i)
    ensures RtOf(r, i) != RtOf(Settled(r), i) <==> StaleRt(r, i)
    ensures StaleRt(r, i) ==> RtOf(r, i) == r[i.rt] && RtOf(Settled(r), i) == r[LOAD_VALUE_REG]
    ensures Link(Settled(r)) == Link(r) && BranchTarget(Settled(r), i) == BranchTarget(r, i)
    ensures JumpTarget(Settled(r), i) == JumpTarget(r, i)
  {}

  lemma TrapSettled(r: Regs, badVAddr: Int32, h: KernelWrites)
    requires Ok(r)
    ensures AfterTrap(r, badVAddr, h) == AfterTrap(Settled(r), badVAddr, h)
    ensures AfterTrap(r, badVAddr, h)[BAD_VADDR_REG] == badVAddr
  {
    var bad := r[BAD_VADDR_REG := badVAddr];
    assert AfterDelayedLoad(bad, 0, 0) == AfterDelayedLoad(Settled(r)[BAD_VADDR_REG := badVAddr], 0, 0);
  }

  /** Recording the next load and moving the program counters does not care whether the pending
      load was already applied, nor what value is recorded for register 0. */
  lemma FinishSettled(x: Regs, y: Regs, nextReg: Int32, v: Int32, w: Int32, pcAfter: Int32)
    requires 0 <= x[LOAD_REG] < NUM_GP_REGS && 0 <= y[LOAD_REG] < NUM_GP_REGS && 0 <= nextReg < NUM_GP_REGS
    requires Settled(x) == Settled(y) && (nextReg == 0 || v == w)
    ensures Settled(Completed(x, nextReg, v, pcAfter)) == Settled(Completed(y, nextReg, w, pcAfter))
  {
    assert AfterDelayedLoad(x, nextReg, v) == Settled(x)[LOAD_REG := nextReg][LOAD_VALUE_REG := v];
    assert AfterDelayedLoad(y, nextReg, w) == Settled(y)[LOAD_REG := nextReg][LOAD_VALUE_REG := w];
  }

  lemma SettledTwice(r: Regs)
    requires Ok(r)
    ensures Ok(Settled(r)) && Settled(Settled(r)) == Settled(r)
  {}

  // ---------- no hazard, no difference ----------

  predicate Plain(op: int) { KindOf(op) !in {Traps, Loads, Stores} }

  lemma SameOverflow(r: Regs, i: Instruction, ops: Arithmetic)
    requires Ok(r) && Registers(i) && !Hazard(r, i)
    ensures Overflows(r, i, ops) == Overflows(Settled(r), i, ops)
  {
    Operands(r, i);
  }

  lemma SamePc(r: Regs, i: Instruction, ops: Arithmetic)
    requires Ok(r) && Registers(i) && Plain(i.opCode) && !Hazard(r, i)
    ensures PcAfter(r, i, ops) == PcAfter(Settled(r), i, ops)
  {
    Operands(r, i);
  }

  /** What is written to the pending register, or to register 0, does not show. */
  lemma WriteSettled(r: Regs, d: int, x: Int32, y: Int32)
    requires Ok(r) && 0 <= d < NUM_GP_REGS
    requires x == y || d == 0
    requires r[LOAD_REG] == d != 0 ==> y == r[LOAD_VALUE_REG]
    ensures Settled(r[d := x]) == Settled(Settled(r)[d := y])
  {}

  lemma SameSwitch(r: Regs, i: Instruction, ops: Arithmetic)
    requires Ok(r) && Registers(i) && Plain(i.opCode) && !Hazard(r, i)
    ensures Settled(AfterSwitch(r, i, ops)) == Settled(AfterSwitch(Settled(r), i, ops))
  {
    Operands(r, i);
    SettledTwice(r);
    var kind := KindOf(i.opCode);
    if kind == WritesRd {
      WriteSettled(r, i.rd, Result(r, i, ops), Result(Settled(r), i, ops));
    } else if kind == WritesRt {
      WriteSettled(r, i.rt, Result(r, i, ops), Result(Settled(r), i, ops));
    } else if kind == Links {
      WriteSettled(r, R31, Link(r), Link(r));
    }
  }

  lemma PlainInvisible(r: Regs, i: Instruction, c: Cycle, ops: Arithmetic)
    requires Ok(r) && Registers(i) && Plain(i.opCode) && !Hazard(r, i)
    ensures SameEffect(r, i, c, ops)
  {
    ExecuteKeepsOk(r, i, c, ops);
    ExecuteKeepsOk(Settled(r), i, c, ops);
    SameOverflow(r, i, ops);
    TrapSettled(r, 0, c.h);
    SameSwitch(r, i, ops);
    SamePc(r, i, ops);
    FinishSettled(AfterSwitch(r, i, ops), AfterSwitch(Settled(r), i, ops), 0, 0, 0, PcAfter(r, i, ops));
  }

  lemma LoadInvisible(r: Regs, i: Instruction, c: Cycle)
    requires Ok(r) && Registers(i) && KindOf(i.opCode) == Loads && !Hazard(r, i)
    ensures Ok(Loaded(r, i, c).regs) && Ok(Loaded(Settled(r), i, c).regs)
    ensures Alike(Loaded(r, i, c), Loaded(Settled(r), i, c))
  {
    Operands(r, i);
    SettledTwice(r);
    TrapSettled(r, Address(r, i), c.h);
    if c.mem.Fault? {
      TrapSettled(r, c.mem.badVAddr, c.h);
    } else {
      var v, w := LoadValue(i, c.mem.value, MergeOperand(r, i)), LoadValue(i, c.mem.value, MergeOperand(Settled(r), i));
      FinishSettled(r, Settled(r), i.rt, v, w, Link(r));
    }
  }

  lemma WroteSettled(r: Regs, reply: MemReply, h: KernelWrites)
    requires Ok(r)
    ensures Ok(Wrote(r, reply, h)) && Ok(Wrote(Settled(r), reply, h))
    ensures Settled(Wrote(r, reply, h)) == Settled(Wrote(Settled(r), reply, h))
  {
    SettledTwice(r);
    if reply.Fault? {
      TrapSettled(r, reply.badVAddr, h);
    } else {
      FinishSettled(r, Settled(r), 0, 0, 0, Link(r));
    }
  }

  lemma StoreInvisible(r: Regs, i: Instruction, c: Cycle)
    requires Ok(r) && Registers(i) && KindOf(i.opCode) == Stores && !Hazard(r, i)
    ensures Ok(Storage(r, i, c).regs) && Ok(Storage(Settled(r), i, c).regs)
    ensures Alike(Storage(r, i, c), Storage(Settled(r), i, c))
  {
    Operands(r, i);
    SettledTwice(r);
    WroteSettled(r, c.mem, c.h);
    WroteSettled(r, c.again, c.h);
    if c.mem.Fault? {
      TrapSettled(r, c.mem.badVAddr, c.h);
    }
  }

  lemma NoHazardInvisible(r: Regs, i: Instruction, c: Cycle, ops: Arithmetic)
    requires Ok(r) && Registers(i) && !Hazard(r, i)
    ensures SameEffect(r, i, c, ops)
  {
    var kind := KindOf(i.opCode);
    if kind == Traps {
      TrapSettled(r, 0, c.h);
    } else if kind == Loads {
      LoadInvisible(r, i, c);
    } else if kind == Stores {
      StoreInvisible(r, i, c);
    } else {
      PlainInvisible(r, i, c, ops);
    }
  }

  // ---------- a hazard can be seen ----------

  /** Arithmetic that tells the operands x and y from all others. */
  function Telling(x: Int32, y: Int32): Arithmetic {
    Arithmetic((_, a, b) => if a == x && b == y then 1 else 0, (_, a, b) => a == x && b == y,
               (_, a, b) => if a == x && b == y then 1 else 0, (_, a, b) => if a == x && b == y then 1 else 0,
               (_, a, b) => a == x && b == y)
  }

  function Constant(x: Int32): Arithmetic {
    Arithmetic((_, _, _) => x, (_, _, _) => false, (_, _, _) => x, (_, _, _) => x, (_, _, _) => false)
  }

  /** A cycle in which memory and the kernel do nothing remarkable. */
  function Quiet(): Cycle { Cycle(Value(0), Value(0), Value(0), map[]) }

  lemma LinkMoves(r: Regs)
    ensures Link(r) != r[NEXT_PC_REG]
  {}

  lemma AddressMoves(x: Int32, y: Int32, d: int)
    requires x != y
    ensures Plus(x, d) != Plus(y, d)
  {}

  lemma LoadShows(r: Regs, i: Instruction, ops: Arithmetic)
    requires Ok(r) && Registers(i) && KindOf(i.opCode) == Loads && Hazard(r, i)
    ensures !SameEffect(r, i, Quiet(), ops)
  {
    Operands(r, i);
    AddressMoves(RsOf(r, i), RsOf(Settled(r), i), i.extra);
    var a, b := Loaded(r, i, Quiet()), Loaded(Settled(r), i, Quiet());
    if a.access == b.access {
      TrapSettled(r, Address(r, i), map[]);
      TrapSettled(Settled(r), Address(Settled(r), i), map[]);
      assert Settled(a.regs)[BAD_VADDR_REG] != Settled(b.regs)[BAD_VADDR_REG];
    }
  }

  lemma StoreShows(r: Regs, i: Instruction, ops: Arithmetic)
    requires Ok(r) && Registers(i) && KindOf(i.opCode) == Stores && Hazard(r, i)
    ensures !SameEffect(r, i, Quiet(), ops)
  {
    Operands(r, i);
    if StaleRs(r, i) {
      AddressMoves(RsOf(r, i), RsOf(Settled(r), i), i.extra);
    }
  }

  /** The outcome of an instruction that does not access memory and does not overflow. */
  lemma PlainOutcome(r: Regs, i: Instruction, ops: Arithmetic)
    requires Ok(r) && Registers(i) && Plain(i.opCode) && !Overflows(r, i, ops)
    ensures var s, o := AfterSwitch(r, i, ops), Executed(r, i, Quiet(), ops);
      && Ok(o.regs) && o.regs == Completed(s, 0, 0, PcAfter(r, i, ops))
      && s[LOAD_REG] == r[LOAD_REG] && s[LOAD_VALUE_REG] == r[LOAD_VALUE_REG]
      && Settled(o.regs)[NEXT_PC_REG] == PcAfter(r, i, ops)
      && Settled(o.regs)[HI_REG] == s[HI_REG] && Settled(o.regs)[LO_REG] == s[LO_REG]
      && forall d :: 0 < d < NUM_GP_REGS ==>
           Settled(o.regs)[d] == if d == r[LOAD_REG] then r[LOAD_VALUE_REG] else s[d]
  {
    ExecuteKeepsOk(r, i, Quiet(), ops);
  }

  lemma OverflowShows(r: Regs, i: Instruction) returns (ops: Arithmetic)
    requires Ok(r) && Registers(i) && CanOverflow(i.opCode) && Stale(r, i)
    ensures !SameEffect(r, i, Quiet(), ops)
  {
    Operands(r, i);
    ops := Telling(RsOf(r, i), RtOf(r, i));
    PlainOutcome(Settled(r), i, ops);
    LinkMoves(Settled(r));
    var a := Executed(r, i, Quiet(), ops);
    assert a.regs == AfterTrap(r, 0, map[]) && Settled(a.regs)[NEXT_PC_REG] == r[NEXT_PC_REG];
  }

  /** The two executions compared where neither overflows. */
  lemma PlainPair(r: Regs, i: Instruction, ops: Arithmetic)
    requires Ok(r) && Registers(i) && Plain(i.opCode)
    requires !Overflows(r, i, ops) && !Overflows(Settled(r), i, ops)
    requires var s, t := AfterSwitch(r, i, ops), AfterSwitch(Settled(r), i, ops);
      || PcAfter(r, i, ops) != PcAfter(Settled(r), i, ops)
      || s[HI_REG] != t[HI_REG] || s[LO_REG] != t[LO_REG]
      || exists d :: 0 < d < NUM_GP_REGS && t[d] != if d == r[LOAD_REG] then r[LOAD_VALUE_REG] else s[d]
    ensures !SameEffect(r, i, Quiet(), ops)
  {
    SettledTwice(r);
    PlainOutcome(r, i, ops);
    PlainOutcome(Settled(r), i, ops);
  }

  lemma ResultShows(r: Regs, i: Instruction, d: int) returns (ops: Arithmetic)
    requires Ok(r) && Registers(i) && ResultHazard(r, i, d)
    requires (KindOf(i.opCode) == WritesRd && d == i.rd) || (KindOf(i.opCode) == WritesRt && d == i.rt)
    ensures !SameEffect(r, i, Quiet(), ops)
  {
    Operands(r, i);
    if r[LOAD_REG] == d {
      var other: Int32 := if r[LOAD_VALUE_REG] == 0 then 1 else 0;
      ops := Constant(other);
      assert AfterSwitch(Settled(r), i, ops)[d] == Result(Settled(r), i, ops) != r[LOAD_VALUE_REG];
      PlainPair(r, i, ops);
    } else if CanOverflow(i.opCode) {
      ops := OverflowShows(r, i);
    } else {
      ops := Telling(RsOf(r, i), RtOf(r, i));
      assert AfterSwitch(r, i, ops)[d] == 1 && AfterSwitch(Settled(r), i, ops)[d] == 0;
      PlainPair(r, i, ops);
    }
  }

  /** Jumps and branches go elsewhere, and the multiplier's registers differ. */
  lemma OperandShows(r: Regs, i: Instruction) returns (ops: Arithmetic)
    requires Ok(r) && Registers(i) && Stale(r, i)
    requires KindOf(i.opCode) in {WritesHiLo, WritesHi, WritesLo} || i.opCode == OP_JALR
      || (KindOf(i.opCode) in {Links, NoResult} && BranchHazard(r, i))
    ensures !SameEffect(r, i, Quiet(), ops)
  {
    Operands(r, i);
    ops := Telling(RsOf(r, i), RtOf(r, i));
    PlainPair(r, i, ops);
  }

  lemma LinkShows(r: Regs, i: Instruction, ops: Arithmetic)
    requires Ok(r) && Registers(i) && KindOf(i.opCode) == Links
    requires r[LOAD_REG] == R31 && Link(r) != r[LOAD_VALUE_REG]
    ensures !SameEffect(r, i, Quiet(), ops)
  {
    assert AfterSwitch(Settled(r), i, ops)[R31] == Link(r);
    PlainPair(r, i, ops);
  }

  lemma HazardShows(r: Regs, i: Instruction) returns (ops: Arithmetic)
    requires Ok(r) && Registers(i) && Hazard(r, i)
    ensures !SameEffect(r, i, Quiet(), ops)
  {
    var kind := KindOf(i.opCode);
    ops := Constant(0);
    if kind == Loads {
      LoadShows(r, i, ops);
    } else if kind == Stores {
      StoreShows(r, i, ops);
    } else if kind == WritesRd && ResultHazard(r, i, i.rd) {
      ops := ResultShows(r, i, i.rd);
    } else if kind == WritesRt {
      ops := ResultShows(r, i, i.rt);
    } else if kind == Links && !BranchHazard(r, i) {
      LinkShows(r, i, ops);
    } else {
      ops := OperandShows(r, i);
    }
  }

  /** Whatever is computed from the operands that an instruction reads, and whatever memory and the
      kernel reply, the pending load is invisible to the instruction if and only if there is no
      hazard. */
  lemma HazardIffVisible(r: Regs, i: Instruction)
    requires Ok(r) && Registers(i)
    ensures (forall c, ops :: SameEffect(r, i, c, ops)) <==> !Hazard(r, i)
  {
    if Hazard(r, i) {
      var ops := HazardShows(r, i);
      assert !SameEffect(r, i, Quiet(), ops);
    } else {
      forall c, ops ensures SameEffect(r, i, c, ops) {
        NoHazardInvisible(r, i, c, ops);
      }
    }
  }

  // ---------- runs without hazards ----------

  function Delayed(r: Regs, c: Cycle, ops: Arithmetic): (o: Outcome)
    requires Ok(r)
    ensures Ok(o.regs)
  {
    StepKeepsOk(r, c, ops);
    Stepped(r, c, ops)
  }

  /** An instruction clear of hazards does the same to the settled registers and asks the same of
      memory. */
  lemma SettledStep(r: Regs, c: Cycle, ops: Arithmetic)
    requires Ok(r) && !FetchesHazard(r, c.fetch)
    ensures Ok(Settled(r)) && Alike(Delayed(r, c, ops), Delayed(Settled(r), c, ops))
  {
    SettledTwice(r);
    if c.fetch.Fault? {
      TrapSettled(r, c.fetch.badVAddr, c.h);
    } else {
      NoHazardInvisible(r, Decode(Unsigned(c.fetch.value)), c, ops);
    }
  }

  /** An instruction is fetched for a thread. */
  datatype Fetch = Fetch(thread: int, addr: Int32)

  /** An event's effect on the machine, where it fetches an instruction, and its request to memory. */
  datatype Effect = Effect(state: State, fetched: seq<Fetch>, access: Access)

  function Took(s: State, e: Event, ops: Arithmetic): (f: Effect)
    requires AllOk(s)
    ensures AllOk(f.state)
  {
    NextKeepsOk(s, e, ops);
    if e.Instruct?
    then Effect(Next(s, e, ops), [Fetch(s.current, s.regs[PC_REG])], Stepped(s.regs, e.cycle, ops).access)
    else Effect(Next(s, e, ops), [], NoAccess)
  }

  function SavedSettled(saved: map<int, Regs>): (m: map<int, Regs>)
    requires SavedOk(saved)
    ensures m.Keys == saved.Keys && SavedOk(m)
  {
    map t | t in saved :: Settled(saved[t])
  }

  lemma SavedTwice(saved: map<int, Regs>)
    requires SavedOk(saved)
    ensures SavedSettled(SavedSettled(saved)) == SavedSettled(saved)
  {
    forall t | t in saved ensures SavedSettled(SavedSettled(saved))[t] == SavedSettled(saved)[t] {
      SettledTwice(saved[t]);
    }
  }

  lemma SavedPut(saved: map<int, Regs>, t: int, r: Regs)
    requires Ok(r) && SavedOk(saved)
    ensures Ok(Settled(r)) && SavedSettled(saved[t := r]) == SavedSettled(saved)[t := Settled(r)]
  {
    SettledTwice(r);
  }

  /** No thread has a load pending. */
  function AllSettled(s: State): (s': State)
    requires AllOk(s)
    ensures AllOk(s')
  {
    State(s.current, Settled(s.regs), SavedSettled(s.saved))
  }

  ghost predicate Hazardous(s: State, e: Event)
    requires AllOk(s)
  {
    e.Instruct? && FetchesHazard(s.regs, e.cycle.fetch)
  }

  /** No instruction of the run has a hazard; a failed assertion ends the run. */
  ghost predicate HazardFree(s: State, es: seq<Event>, ops: Arithmetic)
    requires AllOk(s)
    decreases |es|
  {
    es != [] ==>
      var f := Took(s, es[0], ops);
      !Hazardous(s, es[0]) && (!f.access.Halting? ==> HazardFree(f.state, es[1..], ops))
  }

  /** The machine after a run of instructions, interrupts and thread switches, the instruction fetches and
      the other requests to memory; a failed assertion ends it. */
  datatype Trace = Trace(state: State, fetched: seq<Fetch>, accesses: seq<Access>)

  function RunDelayed(s: State, es: seq<Event>, ops: Arithmetic): (t: Trace)
    requires AllOk(s)
    ensures AllOk(t.state)
    decreases |es|
  {
    if es == [] then Trace(s, [], [])
    else
      var f := Took(s, es[0], ops);
      if f.access.Halting? then Trace(f.state, f.fetched, [f.access])
      else
        var t := RunDelayed(f.state, es[1..], ops);
        Trace(t.state, f.fetched + t.fetched, [f.access] + t.accesses)
  }

  /** A machine whose loads take effect at once. */
  function RunImmediate(s: State, es: seq<Event>, ops: Arithmetic): (t: Trace)
    requires AllOk(s)
    ensures AllOk(t.state)
    decreases |es|
  {
    if es == [] then Trace(s, [], [])
    else
      var f := Took(s, es[0], ops);
      if f.access.Halting? then Trace(AllSettled(f.state), f.fetched, [f.access])
      else
        var t := RunImmediate(AllSettled(f.state), es[1..], ops);
        Trace(t.state, f.fetched + t.fetched, [f.access] + t.accesses)
  }

  lemma SwitchSettled(s: State, to: int, ops: Arithmetic)
    requires AllOk(s)
    ensures AllSettled(Next(s, Switch(to), ops)) == AllSettled(Next(AllSettled(s), Switch(to), ops))
  {
    var saved := s.saved[s.current := s.regs];
    SettledTwice(s.regs);
    SavedPut(s.saved, s.current, s.regs);
    SavedTwice(s.saved);
    SavedTwice(saved);
    if to in saved {
      SettledTwice(saved[to]);
    }
  }

  /** An event without hazard does the same with all loads settled, and asks the same of memory. */
  lemma SettledEvent(s: State, e: Event, ops: Arithmetic)
    requires AllOk(s) && !Hazardous(s, e)
    ensures AllSettled(Took(s, e, ops).state) == AllSettled(Took(AllSettled(s), e, ops).state)
    ensures Took(s, e, ops).access == Took(AllSettled(s), e, ops).access
    ensures Took(s, e, ops).fetched == Took(AllSettled(s), e, ops).fetched
  {
    NextKeepsOk(s, e, ops);
    if e.Switch? {
      SwitchSettled(s, e.to, ops);
    } else {
      SettledTwice(s.regs);
      SavedTwice(s.saved);
      if e.Instruct? {
        SettledStep(s.regs, e.cycle, ops);
      }
    }
  }

  /** Over every run of any threads whose delay slots leave the pending register alone, the machine
      with delayed loads computes what the machine with immediate loads computes, fetches the same
      instructions and makes the same requests to memory. */
  lemma {:induction false} DelaySlotInvisible(s: State, es: seq<Event>, ops: Arithmetic)
    requires AllOk(s) && HazardFree(s, es, ops)
    ensures AllSettled(RunDelayed(s, es, ops).state) == RunImmediate(AllSettled(s), es, ops).state
    ensures RunDelayed(s, es, ops).accesses == RunImmediate(AllSettled(s), es, ops).accesses
    ensures RunDelayed(s, es, ops).fetched == RunImmediate(AllSettled(s), es, ops).fetched
    decreases |es|
  {
    if es != [] {
      SettledEvent(s, es[0], ops);
      var f := Took(s, es[0], ops);
      if !f.access.Halting? {
        DelaySlotInvisible(f.state, es[1..], ops);
      }
    }
  }
}
