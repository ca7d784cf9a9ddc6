/** Table-driven instruction decoding (machine/mipssim.cc, machine/mipssim.h). */
module Decoder {
  import opened Words

  const OP_ADD := 1
  const OP_ADDI := 2
  const OP_ADDIU := 3
  const OP_ADDU := 4
  const OP_AND := 5
  const OP_ANDI := 6
  const OP_BEQ := 7
  const OP_BGEZ := 8
  const OP_BGEZAL := 9
  const OP_BGTZ := 10
  const OP_BLEZ := 11
  const OP_BLTZ := 12
  const OP_BLTZAL := 13
  const OP_BNE := 14
  const OP_DIV := 16
  const OP_DIVU := 17
  const OP_J := 18
  const OP_JAL := 19
  const OP_JALR := 20
  const OP_JR := 21
  const OP_LB := 22
  const OP_LBU := 23
  const OP_LH := 24
  const OP_LHU := 25
  const OP_LUI := 26
  const OP_LW := 27
  const OP_LWL := 28
  const OP_LWR := 29
  const OP_MFHI := 31
  const OP_MFLO := 32
  const OP_MTHI := 34
  const OP_MTLO := 35
  const OP_MULT := 36
  const OP_MULTU := 37
  const OP_NOR := 38
  const OP_OR := 39
  const OP_ORI := 40
  const OP_SB := 42
  const OP_SH := 43
  const OP_SLL := 44
  const OP_SLLV := 45
  const OP_SLT := 46
  const OP_SLTI := 47
  const OP_SLTIU := 48
  const OP_SLTU := 49
  const OP_SRA := 50
  const OP_SRAV := 51
  const OP_SRL := 52
  const OP_SRLV := 53
  const OP_SUB := 54
  const OP_SUBU := 55
  const OP_SW := 56
  const OP_SWL := 57
  const OP_SWR := 58
  const OP_XOR := 59
  const OP_XORI := 60
  const OP_SYSCALL := 61
  const OP_UNIMP := 62
  const OP_RES := 63
  /** Escapes in the opcode table that ask for further decoding. */
  const SPECIAL := 100
  const BCOND := 101

  datatype Format = IFmt | JFmt | RFmt
  datatype OpInfo = OpInfo(opCode: int, format: Format)

  /** `opTable`, indexed by bits 31:26, laid out in rows of eight. */
  const OP_ROWS: seq<seq<OpInfo>> := [
    [OpInfo(SPECIAL, RFmt), OpInfo(BCOND, IFmt), OpInfo(OP_J, JFmt), OpInfo(OP_JAL, JFmt),
     OpInfo(OP_BEQ, IFmt), OpInfo(OP_BNE, IFmt), OpInfo(OP_BLEZ, IFmt), OpInfo(OP_BGTZ, IFmt)],
    [OpInfo(OP_ADDI, IFmt), OpInfo(OP_ADDIU, IFmt), OpInfo(OP_SLTI, IFmt), OpInfo(OP_SLTIU, IFmt),
     OpInfo(OP_ANDI, IFmt), OpInfo(OP_ORI, IFmt), OpInfo(OP_XORI, IFmt), OpInfo(OP_LUI, IFmt)],
    [OpInfo(OP_UNIMP, IFmt), OpInfo(OP_UNIMP, IFmt), OpInfo(OP_UNIMP, IFmt), OpInfo(OP_UNIMP, IFmt),
     OpInfo(OP_RES, IFmt), OpInfo(OP_RES, IFmt), OpInfo(OP_RES, IFmt), OpInfo(OP_RES, IFmt)],
    [OpInfo(OP_RES, IFmt), OpInfo(OP_RES, IFmt), OpInfo(OP_RES, IFmt), OpInfo(OP_RES, IFmt),
     OpInfo(OP_RES, IFmt), OpInfo(OP_RES, IFmt), OpInfo(OP_RES, IFmt), OpInfo(OP_RES, IFmt)],
    [OpInfo(OP_LB, IFmt), OpInfo(OP_LH, IFmt), OpInfo(OP_LWL, IFmt), OpInfo(OP_LW, IFmt),
     OpInfo(OP_LBU, IFmt), OpInfo(OP_LHU, IFmt), OpInfo(OP_LWR, IFmt), OpInfo(OP_RES, IFmt)],
    [OpInfo(OP_SB, IFmt), OpInfo(OP_SH, IFmt), OpInfo(OP_SWL, IFmt), OpInfo(OP_SW, IFmt),
     OpInfo(OP_RES, IFmt), OpInfo(OP_RES, IFmt), OpInfo(OP_SWR, IFmt), OpInfo(OP_RES, IFmt)],
    [OpInfo(OP_UNIMP, IFmt), OpInfo(OP_UNIMP, IFmt), OpInfo(OP_UNIMP, IFmt), OpInfo(OP_UNIMP, IFmt),
     OpInfo(OP_RES, IFmt), OpInfo(OP_RES, IFmt), OpInfo(OP_RES, IFmt), OpInfo(OP_RES, IFmt)],
    [OpInfo(OP_UNIMP, IFmt), OpInfo(OP_UNIMP, IFmt), OpInfo(OP_UNIMP, IFmt), OpInfo(OP_UNIMP, IFmt),
     OpInfo(OP_RES, IFmt), OpInfo(OP_RES, IFmt), OpInfo(OP_RES, IFmt), OpInfo(OP_RES, IFmt)]
  ]

  /** `specialTable`, indexed by the function field, laid out in rows of eight. */
  const SPECIAL_ROWS: seq<seq<int>> := [
    [OP_SLL, OP_RES, OP_SRL, OP_SRA, OP_SLLV, OP_RES, OP_SRLV, OP_SRAV],
    [OP_JR, OP_JALR, OP_RES, OP_RES, OP_SYSCALL, OP_UNIMP, OP_RES, OP_RES],
    [OP_MFHI, OP_MTHI, OP_MFLO, OP_MTLO, OP_RES, OP_RES, OP_RES, OP_RES],
    [OP_MULT, OP_MULTU, OP_DIV, OP_DIVU, OP_RES, OP_RES, OP_RES, OP_RES],
    [OP_ADD, OP_ADDU, OP_SUB, OP_SUBU, OP_AND, OP_OR, OP_XOR, OP_NOR],
    [OP_RES, OP_RES, OP_SLT, OP_SLTU, OP_RES, OP_RES, OP_RES, OP_RES],
    [OP_RES, OP_RES, OP_RES, OP_RES, OP_RES, OP_RES, OP_RES, OP_RES],
    [OP_RES, OP_RES, OP_RES, OP_RES, OP_RES, OP_RES, OP_RES, OP_RES]
  ]

  function OpTable(k: int): OpInfo
    requires 0 <= k < 64
  {
    OP_ROWS[k / 8][k % 8]
  }

  function SpecialTable(k: int): int
    requires 0 <= k < 64
  {
    SPECIAL_ROWS[k / 8][k % 8]
  }

  datatype Instruction = Instruction(opCode: int, rs: int, rt: int, rd: int, extra: int)

  /** What the switch of `OneInstruction` does for an opcode, apart from the values involved. */
  datatype Kind =
    | WritesRd | WritesRt | Links | WritesHiLo | WritesHi | WritesLo
    | NoResult | Loads | Stores | Traps
    | Unhandled                       // no case label: the default assertion would fail

  function KindOf(op: int): Kind {
    if op in {OP_ADD, OP_ADDU, OP_AND, OP_NOR, OP_OR, OP_SLL, OP_SLLV, OP_SLT, OP_SLTU, OP_SRA,
              OP_SRAV, OP_SRL, OP_SRLV, OP_SUB, OP_SUBU, OP_XOR, OP_MFHI, OP_MFLO, OP_JALR} then WritesRd
    else if op in {OP_ADDI, OP_ADDIU, OP_ANDI, OP_LUI, OP_ORI, OP_SLTI, OP_SLTIU, OP_XORI} then WritesRt
    else if op in {OP_BGEZAL, OP_BLTZAL, OP_JAL} then Links
    else if op in {OP_DIV, OP_DIVU, OP_MULT, OP_MULTU} then WritesHiLo
    else if op == OP_MTHI then WritesHi
    else if op == OP_MTLO then WritesLo
    else if op in {OP_BEQ, OP_BGEZ, OP_BGTZ, OP_BLEZ, OP_BLTZ, OP_BNE, OP_J, OP_JR} then NoResult
    else if op in {OP_LB, OP_LBU, OP_LH, OP_LHU, OP_LW, OP_LWL, OP_LWR} then Loads
    else if op in {OP_SB, OP_SH, OP_SW, OP_SWL, OP_SWR} then Stores
    else if op in {OP_SYSCALL, OP_RES, OP_UNIMP} then Traps
    else Unhandled
  }

  /** `Instruction::Decode`.  Shifts and masks of the unsigned word are divisions and remainders. */
  function Decode(value: Word): (i: Instruction)
    ensures 0 <= i.rs < 32 && 0 <= i.rt < 32 && 0 <= i.rd < 32
    ensures KindOf(i.opCode) != Unhandled
  {
    var info := OpTable(value / 0x400_0000);
    var extra :=
      match info.format
      case IFmt => if value / 0x8000 % 2 == 1 then value % 0x1_0000 - 0x1_0000 else value % 0x1_0000
      case RFmt => value / 64 % 32
      case JFmt => value % 0x400_0000;
    var op :=
      if info.opCode == SPECIAL then SpecialTable(value % 64)
      else if info.opCode == BCOND then
        var i := value / 0x1_0000 % 32;
        if i == 0 then OP_BLTZ
        else if i == 1 then OP_BGEZ
        else if i == 16 then OP_BLTZAL
        else if i == 17 then OP_BGEZAL
        else OP_UNIMP
      else info.opCode;
    assert KindOf(op) != Unhandled by {
      TableEntryHandled(value / 0x400_0000);
      SpecialEntryHandled(value % 64);
    }
    Instruction(op, value / 0x20_0000 % 32, value / 0x1_0000 % 32, value / 0x800 % 32, extra)
  }

  lemma TableEntryHandled(k: nat)
    requires k < 64
    ensures OpTable(k).opCode == SPECIAL || OpTable(k).opCode == BCOND || KindOf(OpTable(k).opCode) != Unhandled
  {
    var row := OP_ROWS[k / 8];
    assert row[k % 8] in row;
  }

  lemma SpecialEntryHandled(k: nat)
    requires k < 64
    ensures KindOf(SpecialTable(k)) != Unhandled
  {
    var row := SPECIAL_ROWS[k / 8];
    assert row[k % 8] in row;
  }

  // ---------- assembling, the inverse of decoding ----------

  function AssembleI(major: int, rs: int, rt: int, imm: int): Word
    requires 0 <= major < 64 && 0 <= rs < 32 && 0 <= rt < 32 && -0x8000 <= imm < 0x8000
  {
    major * 0x400_0000 + rs * 0x20_0000 + rt * 0x1_0000 + imm % 0x1_0000
  }

  function AssembleR(rs: int, rt: int, rd: int, shamt: int, funct: int): Word
    requires 0 <= rs < 32 && 0 <= rt < 32 && 0 <= rd < 32 && 0 <= shamt < 32 && 0 <= funct < 64
  {
    rs * 0x20_0000 + rt * 0x1_0000 + rd * 0x800 + shamt * 64 + funct
  }

  /** The fields of a word are the digits of its mixed-radix expansion. */
  lemma FieldsOf(w: int, major: int, rs: int, rt: int, low: int)
    requires w == major * 0x400_0000 + rs * 0x20_0000 + rt * 0x1_0000 + low
    requires 0 <= major < 64 && 0 <= rs < 32 && 0 <= rt < 32 && 0 <= low < 0x1_0000
    ensures w / 0x400_0000 == major && w / 0x20_0000 % 32 == rs && w / 0x1_0000 % 32 == rt
    ensures w % 0x1_0000 == low && (w / 0x8000 % 2 == 1 <==> low >= 0x8000)
  {
    assert w / 0x20_0000 == major * 32 + rs;
    assert w / 0x1_0000 == (major * 32 + rs) * 32 + rt;
    assert w / 0x8000 == ((major * 32 + rs) * 32 + rt) * 2 + low / 0x8000;
  }

  lemma LowFieldsOf(w: int, high: int, rd: int, shamt: int, funct: int)
    requires w == high * 0x1_0000 + rd * 0x800 + shamt * 64 + funct
    requires 0 <= rd < 32 && 0 <= shamt < 32 && 0 <= funct < 64
    ensures w / 0x800 % 32 == rd && w / 64 % 32 == shamt && w % 64 == funct
  {
    assert w / 0x800 == high * 32 + rd;
    assert w / 64 == (high * 32 + rd) * 32 + shamt;
  }

  /** Every immediate-format word decodes to the fields it was assembled from. */
  lemma DecodeAssembleI(major: int, rs: int, rt: int, imm: int)
    requires 0 <= major < 64 && 0 <= rs < 32 && 0 <= rt < 32 && -0x8000 <= imm < 0x8000
    requires OpTable(major).format == IFmt && OpTable(major).opCode !in {SPECIAL, BCOND}
    ensures var i := Decode(AssembleI(major, rs, rt, imm));
            i.opCode == OpTable(major).opCode && i.rs == rs && i.rt == rt && i.extra == imm
  {
    FieldsOf(AssembleI(major, rs, rt, imm), major, rs, rt, imm % 0x1_0000);
  }

  /** Every register-format word decodes to the fields it was assembled from. */
  lemma DecodeAssembleR(rs: int, rt: int, rd: int, shamt: int, funct: int)
    requires 0 <= rs < 32 && 0 <= rt < 32 && 0 <= rd < 32 && 0 <= shamt < 32 && 0 <= funct < 64
    ensures Decode(AssembleR(rs, rt, rd, shamt, funct)) == Instruction(SpecialTable(funct), rs, rt, rd, shamt)
  {
    var w := AssembleR(rs, rt, rd, shamt, funct);
    FieldsOf(w, 0, rs, rt, rd * 0x800 + shamt * 64 + funct);
    LowFieldsOf(w, rs * 32 + rt, rd, shamt, funct);
    assert OP_ROWS[0][0] == OpInfo(SPECIAL, RFmt);
  }

  /** Every word that begins with the code of the conditional branches on zero decodes to the branch that its
      rt field names. */
  lemma DecodeAssembleCond(rs: int, code: int, imm: int)
    requires 0 <= rs < 32 && 0 <= code < 32 && -0x8000 <= imm < 0x8000
    ensures var i := Decode(AssembleI(1, rs, code, imm));
      && i.rs == rs && i.extra == imm
      && i.opCode == if code in CONDITIONS then CONDITIONS[code] else OP_UNIMP
  {
    FieldsOf(AssembleI(1, rs, code, imm), 1, rs, code, imm % 0x1_0000);
    assert OP_ROWS[0][1] == OpInfo(BCOND, IFmt);
  }

  const CONDITIONS: map<int, int> := map[0 := OP_BLTZ, 1 := OP_BGEZ, 16 := OP_BLTZAL, 17 := OP_BGEZAL]

  function AssembleJ(major: int, target: int): Word
    requires 0 <= major < 64 && 0 <= target < 0x400_0000
  {
    major * 0x400_0000 + target
  }

  /** Every jump decodes to its own opcode and the 26 bits of its target. */
  lemma DecodeAssembleJ(link: bool, target: int)
    requires 0 <= target < 0x400_0000
    ensures var i := Decode(AssembleJ(if link then 3 else 2, target));
      i.opCode == (if link then OP_JAL else OP_J) && i.extra == target
  {
    assert OP_ROWS[0][2] == OpInfo(OP_J, JFmt) && OP_ROWS[0][3] == OpInfo(OP_JAL, JFmt);
  }

  // ---------- the codes of the instruction set ----------

  /** The first six bits of the immediate instructions, and the last six of those in register format, as the
      MIPS instruction set fixes them. */
  function MajorCode(op: int): int {
    if op == OP_BEQ then 4 else if op == OP_BNE then 5 else if op == OP_BLEZ then 6 else if op == OP_BGTZ then 7
    else if op == OP_ADDI then 8 else if op == OP_ADDIU then 9 else if op == OP_SLTI then 10
    else if op == OP_SLTIU then 11 else if op == OP_ANDI then 12 else if op == OP_ORI then 13
    else if op == OP_XORI then 14 else if op == OP_LUI then 15
    else if op == OP_LB then 32 else if op == OP_LH then 33 else if op == OP_LWL then 34 else if op == OP_LW then 35
    else if op == OP_LBU then 36 else if op == OP_LHU then 37 else if op == OP_LWR then 38
    else if op == OP_SB then 40 else if op == OP_SH then 41 else if op == OP_SWL then 42 else if op == OP_SW then 43
    else if op == OP_SWR then 46
    else -1
  }

  function FunctionCode(op: int): int {
    if op == OP_SLL then 0 else if op == OP_SRL then 2 else if op == OP_SRA then 3 else if op == OP_SLLV then 4
    else if op == OP_SRLV then 6 else if op == OP_SRAV then 7 else if op == OP_JR then 8 else if op == OP_JALR then 9
    else if op == OP_SYSCALL then 12
    else if op == OP_MFHI then 16 else if op == OP_MTHI then 17 else if op == OP_MFLO then 18 else if op == OP_MTLO then 19
    else if op == OP_MULT then 24 else if op == OP_MULTU then 25 else if op == OP_DIV then 26 else if op == OP_DIVU then 27
    else if op == OP_ADD then 32 else if op == OP_ADDU then 33 else if op == OP_SUB then 34 else if op == OP_SUBU then 35
    else if op == OP_AND then 36 else if op == OP_OR then 37 else if op == OP_XOR then 38 else if op == OP_NOR then 39
    else if op == OP_SLT then 42 else if op == OP_SLTU then 43
    else -1
  }

  lemma TableHasCodes(op: int)
    ensures MajorCode(op) >= 0 ==> OpTable(MajorCode(op)) == OpInfo(op, IFmt)
    ensures FunctionCode(op) >= 0 ==> SpecialTable(FunctionCode(op)) == op
  {}

  /** An instruction of the set, assembled with its code, decodes to itself. */
  lemma DecodeInstruction(op: int, rs: int, rt: int, rd: int, extra: int)
    requires 0 <= rs < 32 && 0 <= rt < 32 && 0 <= rd < 32
    ensures MajorCode(op) >= 0 && -0x8000 <= extra < 0x8000 ==>
      var i := Decode(AssembleI(MajorCode(op), rs, rt, extra));
      i.opCode == op && i.rs == rs && i.rt == rt && i.extra == extra
    ensures FunctionCode(op) >= 0 && 0 <= extra < 32 ==>
      Decode(AssembleR(rs, rt, rd, extra, FunctionCode(op))) == Instruction(op, rs, rt, rd, extra)
  {
    TableHasCodes(op);
    if MajorCode(op) >= 0 && -0x8000 <= extra < 0x8000 {
      DecodeAssembleI(MajorCode(op), rs, rt, extra);
    }
    if FunctionCode(op) >= 0 && 0 <= extra < 32 {
      DecodeAssembleR(rs, rt, rd, extra, FunctionCode(op));
    }
  }

  /** Every opcode with a case of its own can be written down, in one format; the two others stand for the words
      that no instruction has. */
  lemma EveryOpcodeHasCode(op: int)
    requires KindOf(op) != Unhandled && op != OP_RES && op != OP_UNIMP
    ensures MajorCode(op) >= 0 || FunctionCode(op) >= 0 || op in CONDITIONS.Values || op == OP_J || op == OP_JAL
  {
    assert CONDITIONS[0] == OP_BLTZ && CONDITIONS[1] == OP_BGEZ && CONDITIONS[16] == OP_BLTZAL && CONDITIONS[17] == OP_BGEZAL;
  }

  predicate OnlyMajor(k: int, op: int) {
    if k == 0 then op == SPECIAL else if k == 1 then op == BCOND
    else if k == 2 then op == OP_J else if k == 3 then op == OP_JAL
    else op in {OP_RES, OP_UNIMP} || MajorCode(op) == k
  }

  lemma MajorRow(r: int, c: int)
    requires 0 <= r < 8 && 0 <= c < 8
    ensures OnlyMajor(8 * r + c, OP_ROWS[r][c].opCode)
  {}

  lemma FunctionRow(r: int, c: int)
    requires 0 <= r < 8 && 0 <= c < 8
    ensures SPECIAL_ROWS[r][c] in {OP_RES, OP_UNIMP} || FunctionCode(SPECIAL_ROWS[r][c]) == 8 * r + c
  {}

  lemma TableHasOnlyCodes(k: int)
    requires 0 <= k < 64
    ensures OnlyMajor(k, OpTable(k).opCode)
    ensures SpecialTable(k) in {OP_RES, OP_UNIMP} || FunctionCode(SpecialTable(k)) == k
  {
    MajorRow(k / 8, k % 8);
    FunctionRow(k / 8, k % 8);
  }

  /** The word has the code of the opcode. */
  predicate HasCode(value: Word, op: int) {
    var major := value / 0x400_0000;
    if major == 0 then value % 64 == FunctionCode(op)
    else if major == 1 then value / 0x1_0000 % 32 in CONDITIONS && op == CONDITIONS[value / 0x1_0000 % 32]
    else if major == 2 then op == OP_J
    else if major == 3 then op == OP_JAL
    else major == MajorCode(op)
  }

  /** No other word decodes to an instruction: a word without its code decodes to another one, or traps. */
  lemma DecodesOnlyItsCode(value: Word)
    ensures Decode(value).opCode in {OP_RES, OP_UNIMP} || HasCode(value, Decode(value).opCode)
  {
    var major := value / 0x400_0000;
    TableHasOnlyCodes(major);
    if major == 0 {
      TableHasOnlyCodes(value % 64);
    } else if major > 3 {
      assert Decode(value).opCode == OpTable(major).opCode;
    }
  }
}
