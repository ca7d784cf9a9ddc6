/** What the instructions of the simulated processor do, told as a manual of the instruction set tells it: which
    register gets what number, and nothing else changes (machine/mipssim.cc). */
module InstructionSet {
  import opened Words
  import opened Bits
  import opened Decoder
  import opened Multiplier
  import opened Cpu
  import opened MipsArithmetic
  import opened Control

  /** The same 32 bits. */
  predicate Same(x: int, y: int) { (x - y) % 0x1_0000_0000 == 0 }

  predicate Bit(x: int, k: nat) { TestBit(Unsigned(x), k) }

  // ---------- bits ----------

  lemma SignedBits(w: Word, k: nat)
    ensures Bit(Signed(w), k) <==> TestBit(w, k)
  {
    assert Unsigned(Signed(w)) == w;
  }

  lemma BitwiseSigned(f: (bool, bool) -> bool, x: int, y: int, k: nat)
    requires k < 32
    ensures Bit(Signed(Bitwise(f, Unsigned(x), Unsigned(y), 32)), k) <==> f(Bit(x, k), Bit(y, k))
  {
    WordWidth();
    SignedBits(Bitwise(f, Unsigned(x), Unsigned(y), 32), k);
    BitwiseBits(f, Unsigned(x), Unsigned(y), 32, k);
  }

  lemma {:induction false} ComplementBits(x: nat, n: nat, k: nat)
    requires x < Pow2(n) && k < n
    ensures TestBit(Pow2(n) - 1 - x, k) <==> !TestBit(x, k)
  {
    var y := Pow2(n) - 1 - x;
    assert y == 2 * (Pow2(n - 1) - 1 - x / 2) + 1 - x % 2;
    if k > 0 {
      ComplementBits(x / 2, n - 1, k - 1);
    }
  }

  lemma NotBits(x: Int32, k: nat)
    requires k < 32
    ensures Bit(Not(x), k) <==> !Bit(x, k)
  {
    WordWidth();
    assert Unsigned(Not(x)) == Pow2(32) - 1 - Unsigned(x);
    ComplementBits(Unsigned(x), 32, k);
  }

  lemma {:induction false} HighBits(x: nat, n: nat, k: nat)
    requires x < Pow2(n) && n <= k
    ensures !TestBit(x, k)
  {
    if n > 0 {
      HighBits(x / 2, n - 1, k - 1);
    } else if k > 0 {
      HighBits(0, 0, k - 1);
    }
  }

  // ---------- results ----------

  /** Bit k of the logical operations; those with an immediate take its 16 bits and zeros above. */
  predicate LogicalAt(op: int, a: Int32, b: Int32, imm: int, v: Int32, k: nat) {
    Bit(v, k) <==>
      if op == OP_AND then Bit(a, k) && Bit(b, k)
      else if op == OP_NOR then !(Bit(a, k) || Bit(b, k))
      else if op == OP_XOR then Bit(a, k) != Bit(b, k)
      else if op == OP_ANDI then Bit(a, k) && k < 16 && Bit(imm, k)
      else if op == OP_ORI then Bit(a, k) || (k < 16 && Bit(imm, k))
      else Bit(a, k) != (k < 16 && Bit(imm, k))
  }

  ghost predicate Logical(op: int, a: Int32, b: Int32, imm: int, v: Int32) {
    forall k: nat :: k < 32 ==> LogicalAt(op, a, b, imm, v, k)
  }

  /** Shifting to the left multiplies, shifting to the right divides and rounds down. */
  predicate LeftBy(x: int, n: nat, v: int) { Same(v, x * Pow2(n)) }

  predicate RightBy(x: int, n: nat, v: int) { v * Pow2(n) <= x < (v + 1) * Pow2(n) }

  /** What an instruction computes from the registers rs and rt and from its immediate.  OR takes rs twice, and the
      shifts to the right all keep the sign. */
  ghost predicate Computes(r: Regs, i: Instruction, v: Int32)
    requires Registers(i)
  {
    var op, a, b := i.opCode, r[i.rs] as int, r[i.rt] as int;
    if op == OP_ADD then v == a + b
    else if op == OP_ADDU then Same(v, a + b)
    else if op == OP_ADDI then -0x8000 <= i.extra < 0x8000 ==> v == a + i.extra
    else if op == OP_ADDIU then Same(v, a + i.extra)
    else if op == OP_SUB then v == a - b
    else if op == OP_SUBU then Same(v, a - b)
    else if op in {OP_AND, OP_NOR, OP_XOR, OP_ANDI, OP_ORI, OP_XORI} then Logical(op, r[i.rs], r[i.rt], i.extra, v)
    else if op == OP_OR then v == a
    else if op == OP_SLL then LeftBy(b, i.extra % 32, v)
    else if op == OP_SLLV then LeftBy(b, a % 32, v)
    else if op in {OP_SRL, OP_SRA} then RightBy(b, i.extra % 32, v)
    else if op in {OP_SRLV, OP_SRAV} then RightBy(b, a % 32, v)
    else if op == OP_SLT then v == if a < b then 1 else 0
    else if op == OP_SLTI then v == if a < i.extra then 1 else 0
    else if op == OP_SLTU then v == if a % 0x1_0000_0000 < b % 0x1_0000_0000 then 1 else 0
    else if op == OP_SLTIU then v == if a % 0x1_0000_0000 < i.extra % 0x1_0000_0000 then 1 else 0
    else if op == OP_LUI then Same(v, i.extra * 0x1_0000)
    else if op == OP_MFHI then v == r[HI_REG]
    else if op == OP_MFLO then v == r[LO_REG]
    else Same(v, r[NEXT_PC_REG] as int + 4)
  }

  /** The low 16 bits of a number. */
  lemma ImmediateBits(x: int, k: nat)
    requires k < 32
    ensures Bit(x % 0x1_0000, k) <==> k < 16 && Bit(x, k)
  {
    LowHalf(x);
    assert Pow2(8) == 0x100 && Pow2(16) == 0x1_0000;
    LowBits(Unsigned(x), 16, k);
  }

  lemma LowHalf(x: int)
    ensures Unsigned(x) % 0x1_0000 == x % 0x1_0000 == Unsigned(x % 0x1_0000)
  {
    var q := x / 0x1_0000_0000;
    assert x == Unsigned(x) + 0x1_0000 * (q * 0x1_0000);
  }

  lemma {:induction false} LowBits(x: nat, n: nat, k: nat)
    ensures TestBit(x % Pow2(n), k) <==> k < n && TestBit(x, k)
  {
    var m := Pow2(n);
    if n == 0 {
      HighBits(0, 0, k);
    } else {
      HalfOfRemainder(x, Pow2(n - 1));
      if k > 0 {
        LowBits(x / 2, n - 1, k - 1);
      }
    }
  }

  lemma HalfOfRemainder(x: nat, h: nat)
    requires h > 0
    ensures x % (2 * h) % 2 == x % 2 && x % (2 * h) / 2 == x / 2 % h
  {
    var q, m := x / (2 * h), x % (2 * h);
    assert x == q * (2 * h) + m && q * (2 * h) == 2 * (q * h);
    assert x / 2 == q * h + m / 2 && 0 <= m / 2 < h;
    DivisionUnique(x / 2, h, q, m / 2);
  }

  lemma DivisionUnique(x: nat, h: nat, q: nat, m: nat)
    requires h > 0 && x == q * h + m && m < h
    ensures x % h == m && x / h == q
  {
    var d := x / h - q;
    assert x == (x / h) * h + x % h;
    assert (x / h) * h - q * h == d * h;
    assert d * h == m - x % h;
    if d > 0 {
      AtLeastOnce(d, h);
    } else if d < 0 {
      AtLeastOnce(-d, h);
    }
  }

  lemma AtLeastOnce(d: int, h: nat)
    requires d > 0
    ensures d * h >= h && (-d) * h == -(d * h)
  {
    NoLess(d - 1, h);
    assert d * h == (d - 1) * h + h;
  }

  lemma NoLess(d: nat, h: nat)
    ensures d * h >= 0
  {}

  lemma LogicalBit(i: Instruction, a: Int32, b: Int32, k: nat)
    requires i.opCode in {OP_AND, OP_NOR, OP_XOR, OP_ANDI, OP_ORI, OP_XORI} && k < 32
    ensures LogicalAt(i.opCode, a, b, i.extra, ResultOf(i, a, b), k)
  {
    var imm := i.extra % 0x1_0000;
    ImmediateBits(i.extra, k);
    AndBits(a, b, k);
    OrBits(a, b, k);
    XorBits(a, b, k);
    AndBits(a, imm, k);
    OrBits(a, imm, k);
    XorBits(a, imm, k);
    NotBits(Or(a, b), k);
  }

  lemma AndBits(x: Int32, y: int, k: nat)
    requires k < 32
    ensures Bit(And(x, y), k) <==> Bit(x, k) && Bit(y, k)
  {
    BitwiseSigned((a, b) => a && b, x, y, k);
  }

  lemma OrBits(x: Int32, y: int, k: nat)
    requires k < 32
    ensures Bit(Or(x, y), k) <==> Bit(x, k) || Bit(y, k)
  {
    BitwiseSigned((a, b) => a || b, x, y, k);
  }

  lemma XorBits(x: Int32, y: int, k: nat)
    requires k < 32
    ensures Bit(Xor(x, y), k) <==> (Bit(x, k) != Bit(y, k))
  {
    BitwiseSigned((a, b) => a != b, x, y, k);
  }

  lemma LogicalExact(i: Instruction, a: Int32, b: Int32)
    requires i.opCode in {OP_AND, OP_NOR, OP_XOR, OP_ANDI, OP_ORI, OP_XORI}
    ensures Logical(i.opCode, a, b, i.extra, ResultOf(i, a, b))
  {
    forall k: nat | k < 32 ensures LogicalAt(i.opCode, a, b, i.extra, ResultOf(i, a, b), k) {
      LogicalBit(i, a, b, k);
    }
  }

  lemma ShiftRightExact(x: Int32, n: int)
    ensures RightBy(x, n % 32, ShiftRight(x, n))
  {
    var p := Pow2(n % 32);
    assert x == (x / p) * p + x % p;
    InRange(x, p);
  }

  lemma ShiftLeftExact(x: Int32, n: int)
    ensures LeftBy(x, n % 32, ShiftLeft(x, n))
  {}

  lemma InRange(x: Int32, p: nat)
    requires p > 0
    ensures -0x8000_0000 <= x / p < 0x8000_0000
  {
    var q := x / p;
    assert x == q * p + x % p;
    if q > 0 {
      AtLeastOnce(p, q);
    } else if q < -1 {
      AtLeastOnce(p, -(q + 1));
      assert (q + 1) * p == q * p + p && p * -(q + 1) == -((q + 1) * p);
    }
  }

  // ---------- operands ----------

  /** The operands that reach the arithmetic are the registers that the instruction names. */
  lemma OperandsNamed(r: Regs, i: Instruction)
    requires Registers(i)
    ensures KindOf(i.opCode) in {WritesRd, WritesRt, WritesHiLo} && i.opCode !in {OP_JALR, OP_MFHI, OP_MFLO, OP_LUI} ==>
      && (i.opCode !in {OP_SLL, OP_SRL, OP_SRA} ==> RsOf(r, i) == r[i.rs])
      && (KindOf(i.opCode) != WritesRt && i.opCode != OP_OR ==> RtOf(r, i) == r[i.rt])
  {}

  lemma SumsExact(r: Regs, i: Instruction)
    requires Registers(i) && i.opCode in {OP_ADD, OP_ADDU, OP_ADDI, OP_ADDIU, OP_SUB, OP_SUBU} && !Overflows(r, i, Mips())
    ensures Computes(r, i, Result(r, i, Mips()))
  {
    OperandsNamed(r, i);
    if i.opCode in {OP_ADD, OP_SUB} || (i.opCode == OP_ADDI && -0x8000 <= i.extra < 0x8000) {
      OverflowExact(i, RsOf(r, i), RtOf(r, i));
    }
  }

  /** The number of places comes from the instruction or from rs. */
  function Places(r: Regs, i: Instruction): int
    requires Registers(i)
  {
    if i.opCode in {OP_SLL, OP_SRL, OP_SRA} then i.extra else r[i.rs]
  }

  lemma ShiftResult(r: Regs, i: Instruction)
    requires Registers(i) && i.opCode in {OP_SLL, OP_SLLV, OP_SRL, OP_SRA, OP_SRLV, OP_SRAV}
    ensures Result(r, i, Mips()) ==
      if i.opCode in {OP_SLL, OP_SLLV} then ShiftLeft(r[i.rt], Places(r, i)) else ShiftRight(r[i.rt], Places(r, i))
  {}

  lemma ShiftsExact(r: Regs, i: Instruction)
    requires Registers(i) && i.opCode in {OP_SLL, OP_SLLV, OP_SRL, OP_SRA, OP_SRLV, OP_SRAV}
    ensures Computes(r, i, Result(r, i, Mips()))
  {
    ShiftResult(r, i);
    if i.opCode in {OP_SLL, OP_SLLV} {
      ShiftLeftExact(r[i.rt], Places(r, i));
    } else {
      ShiftRightExact(r[i.rt], Places(r, i));
    }
  }

  lemma OthersExact(r: Regs, i: Instruction)
    requires Registers(i)
    requires i.opCode in {OP_OR, OP_SLT, OP_SLTI, OP_SLTU, OP_SLTIU, OP_LUI, OP_MFHI, OP_MFLO, OP_JALR}
    ensures Computes(r, i, Result(r, i, Mips()))
  {
    OperandsNamed(r, i);
  }

  lemma ComputesExact(r: Regs, i: Instruction)
    requires Registers(i) && KindOf(i.opCode) in {WritesRd, WritesRt} && !Overflows(r, i, Mips())
    ensures Computes(r, i, Result(r, i, Mips()))
  {
    if i.opCode in {OP_ADD, OP_ADDU, OP_ADDI, OP_ADDIU, OP_SUB, OP_SUBU} {
      SumsExact(r, i);
    } else if i.opCode in {OP_AND, OP_NOR, OP_XOR, OP_ANDI, OP_ORI, OP_XORI} {
      OperandsNamed(r, i);
      LogicalExact(i, RsOf(r, i), RtOf(r, i));
      LogicalOperand(i, r[i.rs], r[i.rt], RtOf(r, i), Result(r, i, Mips()));
    } else if i.opCode in {OP_SLL, OP_SLLV, OP_SRL, OP_SRA, OP_SRLV, OP_SRAV} {
      ShiftsExact(r, i);
    } else {
      OthersExact(r, i);
    }
  }

  /** The second operand does not matter to an instruction with an immediate. */
  lemma LogicalOperand(i: Instruction, a: Int32, b: Int32, c: Int32, v: Int32)
    requires Logical(i.opCode, a, c, i.extra, v) && (i.opCode in {OP_AND, OP_NOR, OP_XOR} ==> b == c)
    ensures Logical(i.opCode, a, b, i.extra, v)
  {
    forall k: nat | k < 32 ensures LogicalAt(i.opCode, a, b, i.extra, v, k) {
      assert LogicalAt(i.opCode, a, c, i.extra, v, k);
    }
  }

  // ---------- the registers after an instruction ----------

  /** The general register that an instruction writes at once; loads write theirs later. */
  function Written(i: Instruction): int {
    if i.opCode in {OP_JAL, OP_BGEZAL, OP_BLTZAL} then 31
    else if i.opCode in {OP_ADDI, OP_ADDIU, OP_ANDI, OP_ORI, OP_XORI, OP_SLTI, OP_SLTIU, OP_LUI} then i.rt
    else if i.opCode in {OP_ADD, OP_ADDU, OP_SUB, OP_SUBU, OP_AND, OP_OR, OP_XOR, OP_NOR, OP_SLT, OP_SLTU, OP_SLL, OP_SRL,
                         OP_SRA, OP_SLLV, OP_SRLV, OP_SRAV, OP_MFHI, OP_MFLO, OP_JALR} then i.rd
    else 0
  }

  /** A load that was pending lands, even over the result; the result goes to its register, and no other general
      register changes. */
  ghost predicate WritesOnly(r: Regs, i: Instruction, d: int, v: Int32)
    requires Registers(i) && 0 <= d < 32
  {
    if d == 0 then v == 0
    else if d == r[LOAD_REG] then v == r[LOAD_VALUE_REG]
    else if d == Written(i) then Computes(r, i, v)
    else v == r[d]
  }

  lemma SwitchRegister(r: Regs, i: Instruction, ops: Arithmetic, d: int)
    requires Registers(i) && KindOf(i.opCode) !in {Traps, Loads, Stores, Unhandled} && 0 < d < 32
    ensures AfterSwitch(r, i, ops)[d] ==
      if d != Written(i) then r[d] else if KindOf(i.opCode) == Links then Link(r) else Result(r, i, ops)
    ensures d == Written(i) ==> KindOf(i.opCode) in {Links, WritesRd, WritesRt}
  {}

  lemma SwitchWrites(r: Regs, i: Instruction, d: int)
    requires Ok(r) && Registers(i) && KindOf(i.opCode) !in {Traps, Loads, Stores, Unhandled}
    requires !Overflows(r, i, Mips()) && 0 < d < 32
    ensures var v := AfterSwitch(r, i, Mips())[d]; if d == Written(i) then Computes(r, i, v) else v == r[d]
  {
    SwitchRegister(r, i, Mips(), d);
    if KindOf(i.opCode) == Links {
      LinkComputed(r, i);
    } else if d == Written(i) {
      ComputesExact(r, i);
    }
  }

  lemma LinkComputed(r: Regs, i: Instruction)
    requires Registers(i) && KindOf(i.opCode) == Links
    ensures Computes(r, i, Link(r))
  {}

  lemma CompletedRegister(r: Regs, nextReg: Int32, nextValue: Int32, pcAfter: Int32, d: int)
    requires 0 <= r[LOAD_REG] < NUM_GP_REGS && 0 <= d < 32
    ensures Completed(r, nextReg, nextValue, pcAfter)[d] ==
      if d == 0 then 0 else if d == r[LOAD_REG] then r[LOAD_VALUE_REG] else r[d]
  {}

  /** What every instruction that ends leaves in the general registers. */
  lemma RegistersAfter(r: Regs, i: Instruction, c: Cycle, d: int)
    requires Ok(r) && Registers(i) && KindOf(i.opCode) != Unhandled && Ends(r, i, c, Mips()) && 0 <= d < 32
    ensures WritesOnly(r, i, d, Executed(r, i, c, Mips()).regs[d])
  {
    var ops := Mips();
    if KindOf(i.opCode) == Loads {
      CompletedRegister(r, i.rt, LoadValue(i, c.mem.value, MergeOperand(r, i)), Link(r), d);
    } else if KindOf(i.opCode) == Stores {
      CompletedRegister(r, 0, 0, Link(r), d);
    } else {
      PlainEnds(r, i, c, ops);
      SwitchCounters(r, i, ops);
      CompletedRegister(AfterSwitch(r, i, ops), 0, 0, PcAfter(r, i, ops), d);
      if 0 < d {
        SwitchWrites(r, i, d);
      }
    }
  }

  // ---------- multiplication and division ----------

  /** What an instruction leaves in the registers hi and lo. */
  ghost predicate HiLo(r: Regs, i: Instruction, hi: int, lo: int)
    requires Registers(i)
  {
    var op, a, b := i.opCode, r[i.rs] as int, r[i.rt] as int;
    if op == OP_MULT then hi * 0x1_0000_0000 + lo % 0x1_0000_0000 == a * b
    else if op == OP_MULTU then
      hi % 0x1_0000_0000 * 0x1_0000_0000 + lo % 0x1_0000_0000 == (a % 0x1_0000_0000) * (b % 0x1_0000_0000)
    else if op == OP_DIV then Divides(a, b, lo, hi)
    else if op == OP_DIVU then DividesUnsigned(a % 0x1_0000_0000, b % 0x1_0000_0000, lo % 0x1_0000_0000, hi % 0x1_0000_0000)
    else hi == (if op == OP_MTHI then a else r[HI_REG]) && lo == (if op == OP_MTLO then a else r[LO_REG])
  }

  /** Division towards zero; by zero it gives zeros, and the one quotient that is too large wraps around. */
  predicate Divides(a: int, b: int, q: int, m: int) {
    if b == 0 then q == 0 && m == 0
    else if a == -0x8000_0000 && b == -1 then q == a && m == 0
    else a == q * b + m && (if m < 0 then -m else m) < (if b < 0 then -b else b) && (m == 0 || (m < 0) == (a < 0))
  }

  predicate DividesUnsigned(a: nat, b: nat, q: nat, m: nat) {
    if b == 0 then q == 0 && m == 0 else a == q * b + m && m < b
  }

  lemma ProductBelow(a: nat, b: nat, m: nat)
    requires a <= m && b <= m
    ensures a * b <= m * m
  {
    assert (m - a) * b >= 0 && m * (m - b) >= 0;
    assert (m - a) * b == m * b - a * b && m * (m - b) == m * m - m * b;
  }

  lemma SignedProduct(a: int, b: int)
    requires Abs(a) <= 0x8000_0000 && Abs(b) <= 0x8000_0000
    ensures -0x4000_0000_0000_0000 <= a * b <= 0x4000_0000_0000_0000
  {
    ProductBelow(Abs(a), Abs(b), 0x8000_0000);
    assert a * b == Abs(a) * Abs(b) || a * b == -(Abs(a) * Abs(b));
  }

  lemma SplitProduct(p: int)
    requires -0x4000_0000_0000_0000 <= p <= 0x4000_0000_0000_0000
    ensures Signed(p / WORD) * WORD + Signed(p) % WORD == p
  {
    assert p == p / WORD * WORD + p % WORD;
    assert Signed(p / WORD) == p / WORD && Signed(p) % WORD == p % WORD;
  }

  lemma SplitUnsigned(p: nat)
    requires p < WORD * WORD
    ensures Signed(p / WORD) % WORD * WORD + Signed(p) % WORD == p
  {
    assert p == p / WORD * WORD + p % WORD;
    assert Signed(p / WORD) % WORD == p / WORD && Signed(p) % WORD == p % WORD;
  }

  lemma MultiplyExact(i: Instruction, a: Int32, b: Int32)
    requires i.opCode in {OP_MULT, OP_MULTU}
    ensures if i.opCode == OP_MULT then HiOf(i, a, b) as int * WORD + LoOf(i, a, b) % WORD == a as int * b as int
            else HiOf(i, a, b) % WORD * WORD + LoOf(i, a, b) % WORD == (a % WORD) * (b % WORD)
  {
    if i.opCode == OP_MULT {
      SignedProduct(a, b);
      SplitProduct(a as int * b as int);
    } else {
      ProductBelow(a % WORD, b % WORD, WORD - 1);
      SplitUnsigned((a % WORD) * (b % WORD));
    }
  }

  /** A quotient is no larger than the dividend, and at most half of it unless the divisor is 1. */
  lemma QuotientBound(x: nat, y: nat)
    requires y > 0
    ensures x == x / y * y + x % y && 0 <= x % y < y && x / y <= x && (y >= 2 ==> 2 * (x / y) <= x)
  {
    var q := x / y;
    AtLeastOnce(y, q);
    if y >= 2 {
      AtLeastOnce(y - 1, q);
      assert y * q == (y - 1) * q + q;
    }
  }

  lemma QuotientSmall(a: int, b: int)
    requires -0x8000_0000 <= a < 0x8000_0000 && b != 0
    ensures var q := Quotient(a, b);
      if a == -0x8000_0000 && b == -1 then q == 0x8000_0000 else -0x8000_0000 <= q < 0x8000_0000
  {
    QuotientBound(Abs(a), Abs(b));
  }

  lemma DivideExact(a: Int32, b: Int32)
    requires b != 0
    ensures Divides(a, b, Signed(Quotient(a, b)), Signed(a as int - Quotient(a, b) * b as int))
  {
    var q := Quotient(a, b);
    var qb := q * b;
    var m := a - qb;
    QuotientSmall(a, b);
    DivisionInC(a, b);
    SignedSame(m);
    if !(a == -0x8000_0000 && b == -1) {
      SignedSame(q);
    }
  }

  lemma SignedSame(x: Int32)
    ensures Signed(x) == x
  {}

  lemma DivideUnsigned(x: Word, y: Word)
    requires y != 0
    ensures DividesUnsigned(x, y, Signed(x / y) % WORD, Signed(x % y) % WORD)
  {
    QuotientBound(x, y);
    Restored(x / y);
    Restored(x % y);
  }

  lemma Restored(w: Word)
    ensures Signed(w) % WORD == w
  {}

  lemma HiLoExact(r: Regs, i: Instruction)
    requires Registers(i) && KindOf(i.opCode) == WritesHiLo
    ensures HiLo(r, i, HiOf(i, RsOf(r, i), RtOf(r, i)), LoOf(i, RsOf(r, i), RtOf(r, i)))
  {
    OperandsNamed(r, i);
    var a, b := r[i.rs], r[i.rt];
    if i.opCode in {OP_MULT, OP_MULTU} {
      MultiplyExact(i, a, b);
    } else if b != 0 {
      DivideExact(a, b);
      DivideUnsigned(Unsigned(a), Unsigned(b));
    }
  }

  lemma SwitchHiLo(r: Regs, i: Instruction)
    requires Registers(i) && KindOf(i.opCode) !in {Traps, Loads, Stores, Unhandled}
    ensures HiLo(r, i, AfterSwitch(r, i, Mips())[HI_REG], AfterSwitch(r, i, Mips())[LO_REG])
  {
    if KindOf(i.opCode) == WritesHiLo {
      HiLoExact(r, i);
    }
  }

  /** What every instruction that ends leaves in hi and lo. */
  lemma HiLoAfter(r: Regs, i: Instruction, c: Cycle)
    requires Ok(r) && Registers(i) && KindOf(i.opCode) != Unhandled && Ends(r, i, c, Mips())
    ensures var r' := Executed(r, i, c, Mips()).regs; HiLo(r, i, r'[HI_REG], r'[LO_REG])
  {
    if KindOf(i.opCode) !in {Loads, Stores} {
      PlainEnds(r, i, c, Mips());
      SwitchHiLo(r, i);
    }
  }

  // ---------- branches and overflow ----------

  /** When a branch is taken; the branches that link have register 31 written before they read rs. */
  predicate BranchTaken(r: Regs, i: Instruction)
    requires Registers(i)
  {
    var op := i.opCode;
    var a: int := if op in {OP_BGEZAL, OP_BLTZAL} && i.rs == 31 then Link(r) else r[i.rs];
    if op == OP_BEQ then a == r[i.rt]
    else if op == OP_BNE then a != r[i.rt]
    else if op in {OP_BGEZ, OP_BGEZAL} then a >= 0
    else if op == OP_BGTZ then a > 0
    else if op == OP_BLEZ then a <= 0
    else a < 0
  }

  lemma TakenExact(r: Regs, i: Instruction)
    requires Registers(i) && IsBranch(i.opCode)
    ensures Mips().taken(i, RsOf(r, i), RtOf(r, i)) <==> BranchTaken(r, i)
  {}

  /** ADD, ADDI and SUB end exactly when the sum or difference of the registers is a 32-bit number. */
  lemma AddEnds(r: Regs, i: Instruction, c: Cycle)
    requires Registers(i) && i.opCode in {OP_ADD, OP_ADDI, OP_SUB} && -0x8000 <= i.extra < 0x8000
    ensures var a, b := r[i.rs] as int, r[i.rt] as int;
      var exact := if i.opCode == OP_ADD then a + b else if i.opCode == OP_ADDI then a + i.extra else a - b;
      Ends(r, i, c, Mips()) <==> -0x8000_0000 <= exact < 0x8000_0000
  {
    OperandsNamed(r, i);
    OverflowExact(i, RsOf(r, i), RtOf(r, i));
  }

  // ---------- memory ----------

  /** What a load makes of the memory's reply: bytes and half words with their sign or with zeros above; LWR, on the
      aligned addresses that it accepts, replaces the lowest byte of the register by the highest of the word. */
  predicate LoadGives(op: int, word: int, was: int, v: int) {
    if op == OP_LB then (v - word) % 0x100 == 0 && -0x80 <= v < 0x80
    else if op == OP_LBU then (v - word) % 0x100 == 0 && 0 <= v < 0x100
    else if op == OP_LH then (v - word) % 0x1_0000 == 0 && -0x8000 <= v < 0x8000
    else if op == OP_LHU then (v - word) % 0x1_0000 == 0 && 0 <= v < 0x1_0000
    else if op == OP_LWR then
      v % 0x100 == word % 0x1_0000_0000 / 0x100_0000 && v % 0x1_0000_0000 / 0x100 == was % 0x1_0000_0000 / 0x100
    else v == word
  }

  /** How many bytes an instruction moves. */
  function AccessSize(op: int): int {
    if op in {OP_LB, OP_LBU, OP_SB} then 1 else if op in {OP_LH, OP_LHU, OP_SH} then 2 else 4
  }

  lemma LoadValueExact(i: Instruction, word: Int32, was: Int32)
    ensures LoadGives(i.opCode, word, was, LoadValue(i, word, was))
  {
    if i.opCode == OP_LWR {
      LowByteReplaced(was, Unsigned(word) / 0x100_0000);
    }
  }

  lemma LowByteReplaced(was: Int32, top: int)
    requires 0 <= top < 0x100
    ensures var v := Signed(was - was % 0x100 + top); v % 0x100 == top && v % WORD / 0x100 == was % WORD / 0x100
  {
    var v := Signed(was - was % 0x100 + top);
    var w := was % WORD;
    assert w == was || w == was + 0x100 * 0x100_0000;
    assert w % 0x100 == was % 0x100;
    assert w == w / 0x100 * 0x100 + w % 0x100;
    assert v % WORD == w / 0x100 * 0x100 + top;
    assert v == v % WORD || v == v % WORD - 0x100 * 0x100_0000;
  }

  /** A load that ends has asked for the bytes at rs plus the offset, and leaves their number pending for rt. */
  lemma LoadAfter(r: Regs, i: Instruction, c: Cycle)
    requires Ok(r) && Registers(i) && Ends(r, i, c, Mips())
    requires i.opCode in {OP_LB, OP_LBU, OP_LH, OP_LHU, OP_LW, OP_LWL, OP_LWR}
    ensures var o := Executed(r, i, c, Mips());
      && o.access.Loading? && Same(o.access.addr, r[i.rs] as int + i.extra) && o.access.size == AccessSize(i.opCode)
      && o.regs[LOAD_REG] == i.rt && c.mem.Value?
      && LoadGives(i.opCode, c.mem.value, if r[LOAD_REG] == i.rt then r[LOAD_VALUE_REG] else r[i.rt], o.regs[LOAD_VALUE_REG])
  {
    LoadValueExact(i, c.mem.value, MergeOperand(r, i));
    LoadRequest(r, i, c);
  }

  lemma LoadRequest(r: Regs, i: Instruction, c: Cycle)
    requires Ok(r) && Registers(i) && Ends(r, i, c, Mips()) && KindOf(i.opCode) == Loads
    ensures c.mem.Value?
    ensures Executed(r, i, c, Mips()) ==
      Outcome(Completed(r, i.rt, LoadValue(i, c.mem.value, MergeOperand(r, i)), Link(r)),
              Loading(Signed(r[i.rs] as int + i.extra), AccessSize(i.opCode)))
  {}

  /** Any other instruction leaves nothing pending. */
  lemma NothingPending(r: Regs, i: Instruction, c: Cycle)
    requires Ok(r) && Registers(i) && KindOf(i.opCode) != Unhandled && Ends(r, i, c, Mips())
    requires i.opCode !in {OP_LB, OP_LBU, OP_LH, OP_LHU, OP_LW, OP_LWL, OP_LWR}
    ensures var o := Executed(r, i, c, Mips()); o.regs[LOAD_REG] == 0 && !o.access.Loading?
  {
    if KindOf(i.opCode) != Stores {
      PlainEnds(r, i, c, Mips());
    }
  }

  /** The number that a store sends to memory: the lowest bytes of rt; SWR, on the aligned addresses that it accepts,
      puts the lowest byte on top of the word that was there. */
  predicate StoreSends(op: int, x: int, word: int, v: int) {
    if op == OP_SB then v == x % 0x100
    else if op == OP_SH then v == x % 0x1_0000
    else if op == OP_SWR then v / 0x100_0000 == x % 0x100 && v % 0x100_0000 == word % 0x100_0000
    else v == x % 0x1_0000_0000
  }

  lemma StoreAfter(r: Regs, i: Instruction, c: Cycle)
    requires Ok(r) && Registers(i) && KindOf(i.opCode) == Stores && Ends(r, i, c, Mips())
    ensures var a := Executed(r, i, c, Mips()).access;
      && (if i.opCode in {OP_SWL, OP_SWR} then a.Merging? else a.Storing? && a.size == AccessSize(i.opCode))
      && Same(a.addr, r[i.rs] as int + i.extra)
      && c.mem.Value? && StoreSends(i.opCode, r[i.rt], c.mem.value, a.value)
  {
    if i.opCode == OP_SWR {
      var w, x := c.mem.value as int % 0x100_0000, r[i.rt] as int % 0x100;
      assert (w + x * 0x100_0000) / 0x100_0000 == x && (w + x * 0x100_0000) % 0x100_0000 == w;
    }
  }
}
