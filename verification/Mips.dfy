/** The arithmetic of the simulator's switch (machine/mipssim.cc). */
module MipsArithmetic {
  import opened Words
  import opened Bits
  import opened Decoder
  import opened Multiplier
  import opened Cpu

  /** The number whose n bits are combined from those of x and y. */
  function Bitwise(f: (bool, bool) -> bool, x: nat, y: nat, n: nat): (z: nat)
    ensures z < Pow2(n)
  {
    if n == 0 then 0 else (if f(x % 2 == 1, y % 2 == 1) then 1 else 0) + 2 * Bitwise(f, x / 2, y / 2, n - 1)
  }

  lemma {:induction false} BitwiseBits(f: (bool, bool) -> bool, x: nat, y: nat, n: nat, k: nat)
    requires k < n
    ensures TestBit(Bitwise(f, x, y, n), k) <==> f(TestBit(x, k), TestBit(y, k))
  {
    var b, rest := if f(x % 2 == 1, y % 2 == 1) then 1 else 0, Bitwise(f, x / 2, y / 2, n - 1);
    assert (b + 2 * rest) % 2 == b && (b + 2 * rest) / 2 == rest;
    if k > 0 {
      BitwiseBits(f, x / 2, y / 2, n - 1, k - 1);
    }
  }

  function And(x: Int32, y: int): Int32 { Signed(Bitwise((a, b) => a && b, Unsigned(x), Unsigned(y), 32)) }
  function Or(x: Int32, y: int): Int32 { Signed(Bitwise((a, b) => a || b, Unsigned(x), Unsigned(y), 32)) }
  function Xor(x: Int32, y: int): Int32 { Signed(Bitwise((a, b) => a != b, Unsigned(x), Unsigned(y), 32)) }
  function Not(x: Int32): Int32 { -1 - x }

  function ShiftLeft(x: Int32, n: int): Int32 { Signed(x * Pow2(n % 32)) }

  /** SRL and SRLV shift a signed number, like SRA and SRAV. */
  function ShiftRight(x: Int32, n: int): Int32 { Signed(x / Pow2(n % 32)) }

  /** Division as in C, towards zero. */
  function Quotient(x: int, y: int): int
    requires y != 0
  {
    var q := (if x < 0 then -x else x) / (if y < 0 then -y else y);
    if (x < 0) == (y < 0) then q else -q
  }

  function Flag(b: bool): Int32 { if b then 1 else 0 }

  function ResultOf(i: Instruction, rs: Int32, rt: Int32): Int32 {
    var op, imm := i.opCode, i.extra % 0x1_0000;
    if op == OP_ADD || op == OP_ADDU then Plus(rs, rt)
    else if op == OP_ADDI || op == OP_ADDIU then Plus(rs, i.extra)
    else if op == OP_SUB || op == OP_SUBU then Plus(rs, -(rt as int))
    else if op == OP_AND then And(rs, rt)
    else if op == OP_ANDI then And(rs, imm)
    else if op == OP_NOR then Not(Or(rs, rt))
    else if op == OP_OR then rs
    else if op == OP_ORI then Or(rs, imm)
    else if op == OP_XOR then Xor(rs, rt)
    else if op == OP_XORI then Xor(rs, imm)
    else if op == OP_SLL then ShiftLeft(rt, i.extra)
    else if op == OP_SLLV then ShiftLeft(rt, rs)
    else if op == OP_SRA || op == OP_SRL then ShiftRight(rt, i.extra)
    else if op == OP_SRAV || op == OP_SRLV then ShiftRight(rt, rs)
    else if op == OP_SLT then Flag(rs < rt)
    else if op == OP_SLTI then Flag(rs < i.extra)
    else if op == OP_SLTU then Flag(Unsigned(rs) < Unsigned(rt))
    else if op == OP_SLTIU then Flag(Unsigned(rs) < Unsigned(i.extra))
    else 0
  }

  /** The test on sign bits: equal signs of the operands and another one of the sum; for SUB different
      signs and another one than the first operand's. */
  predicate OverflowOf(i: Instruction, rs: Int32, rt: Int32) {
    var y := if i.opCode == OP_ADDI then Signed(i.extra) else rt;
    if i.opCode == OP_SUB then (rs < 0) != (rt < 0) && (rs < 0) != (Plus(rs, -(rt as int)) < 0)
    else (rs < 0) == (y < 0) && (rs < 0) != (Plus(rs, y) < 0)
  }

  /** MULT multiplies signed, MULTU unsigned numbers. */
  function Product(i: Instruction, rs: Int32, rt: Int32): int {
    if i.opCode == OP_MULT then rs as int * rt as int else Unsigned(rs) * Unsigned(rt)
  }

  function HiOf(i: Instruction, rs: Int32, rt: Int32): Int32 {
    if i.opCode == OP_MULT || i.opCode == OP_MULTU then Signed(Product(i, rs, rt) / WORD)
    else if rt == 0 then 0
    else if i.opCode == OP_DIV then Signed(rs as int - Quotient(rs, rt) * rt as int)
    else Signed(Unsigned(rs) % Unsigned(rt))
  }

  function LoOf(i: Instruction, rs: Int32, rt: Int32): Int32 {
    if i.opCode == OP_MULT || i.opCode == OP_MULTU then Signed(Product(i, rs, rt))
    else if rt == 0 then 0
    else if i.opCode == OP_DIV then Signed(Quotient(rs, rt))
    else Signed(Unsigned(rs) / Unsigned(rt))
  }

  predicate TakenOf(i: Instruction, rs: Int32, rt: Int32) {
    var op := i.opCode;
    if op == OP_BEQ then rs == rt
    else if op == OP_BNE then rs != rt
    else if op == OP_BGEZ || op == OP_BGEZAL then rs >= 0
    else if op == OP_BGTZ then rs > 0
    else if op == OP_BLEZ then rs <= 0
    else rs < 0
  }

  function Mips(): Arithmetic { Arithmetic(ResultOf, OverflowOf, HiOf, LoOf, TakenOf) }

  predicate Fits32(x: int) { -0x8000_0000 <= x < 0x8000_0000 }

  lemma SumOverflow(x: Int32, y: Int32)
    ensures (x < 0) == (y < 0) && (x < 0) != (Plus(x, y) < 0) <==> !Fits32(x as int + y)
    ensures Fits32(x as int + y) ==> Plus(x, y) == x as int + y
  {}

  lemma DifferenceOverflow(x: Int32, y: Int32)
    ensures (x < 0) != (y < 0) && (x < 0) != (Plus(x, -(y as int)) < 0) <==> !Fits32(x as int - y)
    ensures Fits32(x as int - y) ==> Plus(x, -(y as int)) == x as int - y
  {}

  /** ADD, ADDI and SUB trap exactly when the exact result is not a 32-bit number; otherwise they
      give it. */
  lemma OverflowExact(i: Instruction, rs: Int32, rt: Int32)
    requires CanOverflow(i.opCode) && (i.opCode == OP_ADDI ==> -0x8000 <= i.extra < 0x8000)
    ensures var exact: int :=
        if i.opCode == OP_ADD then rs as int + rt
        else if i.opCode == OP_ADDI then rs as int + i.extra
        else rs as int - rt;
      && (OverflowOf(i, rs, rt) <==> !(-0x8000_0000 <= exact < 0x8000_0000))
      && (!OverflowOf(i, rs, rt) ==> ResultOf(i, rs, rt) == exact)
  {
    if i.opCode == OP_SUB {
      DifferenceOverflow(rs, rt);
    } else {
      SumOverflow(rs, if i.opCode == OP_ADDI then i.extra else rt);
    }
  }

  lemma DoubleWords(p: int, hi: Word, lo: Word, signedArith: bool)
    requires p == if signedArith then SignedDouble(hi, lo) else Double(hi, lo)
    ensures Signed(p / WORD) == Signed(hi) && Signed(p) == Signed(lo)
  {
    assert p / WORD == if signedArith && hi >= HALF then hi as int - WORD else hi;
  }

  /** What the shift-and-add multiplier returns is what MULT and MULTU put into hi and lo. */
  lemma ProductWords(i: Instruction, rs: Int32, rt: Int32, hi: Word, lo: Word)
    requires i.opCode == OP_MULT || i.opCode == OP_MULTU
    requires (if i.opCode == OP_MULT then SignedDouble(hi, lo) else Double(hi, lo)) == Product(i, rs, rt)
    ensures HiOf(i, rs, rt) == Signed(hi) && LoOf(i, rs, rt) == Signed(lo)
  {
    DoubleWords(Product(i, rs, rt), hi, lo, i.opCode == OP_MULT);
  }

  /** The quotient and remainder of C: they give back the dividend, and the remainder is smaller than
      the divisor and has the sign of the dividend. */
  lemma DivisionInC(x: int, y: int)
    requires y != 0
    ensures var q := Quotient(x, y);
      var m := x - q * y;
      (if m < 0 then -m else m) < (if y < 0 then -y else y) && (m == 0 || (m < 0) == (x < 0))
  {
    var a, b := if x < 0 then -x else x, if y < 0 then -y else y;
    var q := a / b;
    assert a == q * b + a % b;
    if y < 0 {
      assert q * b == -(q * y);
    }
    if Quotient(x, y) == -q {
      assert Quotient(x, y) * y == -(q * y);
    }
  }

  /** A program that reads too early: a load of 7 into register 2 is pending while register 2 holds
      0, and `ADDU 3,2,0` gives 0 where the settled registers give 7. */
  lemma EarlyReadShows(r: Regs, c: Cycle)
    requires Ok(r) && r[LOAD_REG] == 2 && r[LOAD_VALUE_REG] == 7 && r[2] == 0
    ensures var add := Instruction(OP_ADDU, 2, 0, 3, 0);
      && Hazard(r, add)
      && Executed(r, add, c, Mips()).regs[3] == 0 && Executed(Settled(r), add, c, Mips()).regs[3] == 7
  {}
}
