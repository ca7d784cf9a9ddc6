/** The shift-and-add multiplier of the MIPS simulator (machine/mipssim.cc). */
module Multiplier {
  import opened Words

  /** The 64-bit number held in a pair of words. */
  function Double(hi: Word, lo: Word): (d: nat)
    ensures d < WORD * WORD
  {
    hi * WORD + lo
  }

  /** The 64-bit number read as two's complement. */
  function SignedDouble(hi: Word, lo: Word): int {
    if hi < HALF then Double(hi, lo) else Double(hi, lo) - WORD * WORD
  }

  lemma Distribute(x: int, y: int, z: int)
    ensures (x + y) * z == x * z + y * z
  {}

  lemma ProductAtMost(x: nat, y: nat, m: nat, n: nat)
    requires x <= m && y <= n
    ensures x * y <= m * n
  {
    Distribute(m - x, x, y);
    Distribute(n - y, y, m);
  }

  /** One round's addition: `lo += bLo`, carry into `hi`, `hi += bHi`. */
  method AddDouble(hi: Word, lo: Word, bHi: Word, bLo: Word) returns (hi': Word, lo': Word)
    requires Double(hi, lo) + Double(bHi, bLo) < WORD * WORD
    ensures Double(hi', lo') == Double(hi, lo) + Double(bHi, bLo)
  {
    lo' := (lo + bLo) % WORD;
    hi' := hi;
    if lo' < bLo {
      hi' := (hi' + 1) % WORD;
    }
    hi' := (hi' + bHi) % WORD;
  }

  /** One round's left shift of `bHi:bLo`. */
  method ShiftDouble(hi: Word, lo: Word) returns (hi': Word, lo': Word)
    requires 2 * Double(hi, lo) < WORD * WORD
    ensures Double(hi', lo') == 2 * Double(hi, lo)
  {
    hi' := hi * 2 % WORD;
    if lo >= HALF {
      hi' := hi' + 1;
    }
    lo' := lo * 2 % WORD;
  }

  /** Two's complement of the double word. */
  method NegateDouble(hi: Word, lo: Word) returns (hi': Word, lo': Word)
    ensures Double(hi', lo') == (if Double(hi, lo) == 0 then 0 else WORD * WORD - Double(hi, lo))
  {
    hi' := WORD - 1 - hi;
    lo' := WORD - 1 - lo;
    lo' := (lo' + 1) % WORD;
    if lo' == 0 {
      hi' := (hi' + 1) % WORD;
    }
  }

  lemma PowerBelow(i: nat)
    requires i < 32
    ensures Pow2(i) <= HALF && (i == 31 ==> Pow2(i) == HALF)
    decreases 31 - i
  {
    if i < 31 {
      PowerBelow(i + 1);
    } else {
      assert Pow2(10) == 0x400 && Pow2(20) == 0x10_0000 && Pow2(30) == 0x4000_0000;
    }
  }

  /** A double word that holds (i low bits of a0) * b, and what b has been shifted to. */
  ghost predicate Partial(a0: int, a: int, p: nat, r: nat, b: Word, sum: int, shifted: int) {
    && a0 == a * p + r && r < p <= WORD
    && sum == r * b && shifted == p * b
  }

  /** Taking in one more bit of the multiplier. */
  lemma NextBit(a0: int, a: int, p: nat, r: nat, b: Word, sum: int, shifted: int)
    requires Partial(a0, a, p, r, b, sum, shifted) && 2 * p <= WORD
    ensures var r' := if a % 2 == 1 then r + p else r;
            var sum' := if a % 2 == 1 then sum + shifted else sum;
            && Partial(a0, a / 2, 2 * p, r', b, sum', 2 * shifted)
            && 0 <= sum' < WORD * WORD && 0 <= 2 * shifted < WORD * WORD
  {
    var r' := if a % 2 == 1 then r + p else r;
    Distribute(r, p, b);
    Distribute(p, p, b);
    ProductAtMost(r', b, WORD - 1, WORD - 1);
    ProductAtMost(p, b, HALF, WORD - 1);
    HalveMultiplier(a, p);
  }

  lemma HalveMultiplier(a: int, p: int)
    ensures a * p == a / 2 * (2 * p) + a % 2 * p
  {
    var h := a / 2;
    assert a == 2 * h + a % 2;
    Distribute(2 * h, a % 2, p);
    assert 2 * h * p == h * (2 * p);
  }

  /** With all bits taken in, or none left, the sum is the product. */
  lemma AllBits(a0: Int32, a: int, p: nat, r: nat, b: Word, sum: int, shifted: int)
    requires Partial(a0, a, p, r, b, sum, shifted) && (a == 0 || p == WORD)
    ensures sum == Unsigned(a0) * b
  {
    assert Unsigned(a0) == r;
  }

  /** One round of the loop: add if the bit is set, then shift. */
  method Round(a: int, hi: Word, lo: Word, bHi: Word, bLo: Word)
    returns (a': int, hi': Word, lo': Word, bHi': Word, bLo': Word)
    requires Double(hi, lo) + Double(bHi, bLo) < WORD * WORD || a % 2 == 0
    requires 2 * Double(bHi, bLo) < WORD * WORD
    ensures a' == a / 2 && Double(bHi', bLo') == 2 * Double(bHi, bLo)
    ensures Double(hi', lo') == Double(hi, lo) + if a % 2 == 1 then Double(bHi, bLo) else 0
  {
    hi', lo' := hi, lo;
    if a % 2 == 1 {                   // a & 1
      hi', lo' := AddDouble(hi, lo, bHi, bLo);
    }
    bHi', bLo' := ShiftDouble(bHi, bLo);
    a' := a / 2;                      // a >>= 1
  }

  /** The main loop, on the bits of `a0` and `b` taken as unsigned.  `a >>= 1` is an arithmetic
      shift (floor division), so a negative `a0` never reaches 1 and all 32 rounds are run.  The
      loop stops after the round in which `a` was 1. */
  method MultiplyBits(a0: Int32, b: Int32) returns (hi: Word, lo: Word)
    ensures Double(hi, lo) == Unsigned(a0) * Unsigned(b)
  {
    var a: int, bLo: Word, bHi: Word := a0, Unsigned(b), 0;
    lo, hi := 0, 0;
    ghost var p: nat, r: nat := 1, 0; // p == 2^i, and r is the i low bits of a0
    for i := 0 to 32
      invariant p == Pow2(i) && (i == 32 ==> p == WORD)
      invariant Partial(a0, a, p, r, Unsigned(b), Double(hi, lo), Double(bHi, bLo))
    {
      PowerBelow(i);
      NextBit(a0, a, p, r, Unsigned(b), Double(hi, lo), Double(bHi, bLo));
      var last := a == 1;             // a & 1 and (a & 0xfffffffe) == 0
      r := if a % 2 == 1 then r + p else r;
      p := 2 * p;
      a, hi, lo, bHi, bLo := Round(a, hi, lo, bHi, bLo);
      if last {
        break;
      }
    }
    AllBits(a0, a, p, r, Unsigned(b), Double(hi, lo), Double(bHi, bLo));
  }

  function Abs(x: int): nat { if x < 0 then -x else x }

  lemma SignedMagnitude(a: Int32, b: Int32)
    ensures Abs(a) * Abs(b) <= HALF * HALF
    ensures a * b == if (a < 0) == (b < 0) then Abs(a) * Abs(b) else -(Abs(a) * Abs(b))
  {
    ProductAtMost(Abs(a), Abs(b), HALF, HALF);
  }

  /** Making an operand positive; the most negative integer is its own negation, and right as an
      unsigned number. */
  method MakePositive(a: Int32, negative: bool) returns (a': Int32, negative': bool)
    ensures Unsigned(a') == Abs(a) && negative' == (negative != (a < 0))
  {
    a', negative' := a, negative;
    if a < 0 {
      negative' := !negative;
      a' := Signed(-(a as int));
    }
  }

  /** `Mult`: the operands are made positive when the multiplication is signed, the product is
      formed in unsigned arithmetic, and the sign is put back. */
  method Mult(a: Int32, b: Int32, signedArith: bool) returns (hi: Word, lo: Word)
    ensures !signedArith ==> Double(hi, lo) == Unsigned(a) * Unsigned(b)
    ensures signedArith ==> SignedDouble(hi, lo) == a * b
  {
    if a == 0 || b == 0 {
      return 0, 0;
    }
    var negative, a', b' := false, a, b;
    if signedArith {
      a', negative := MakePositive(a, negative);
      b', negative := MakePositive(b, negative);
      SignedMagnitude(a, b);
    }
    hi, lo := MultiplyBits(a', b');
    ghost var product := Double(hi, lo);
    assert signedArith ==> product == Abs(a) * Abs(b);
    if negative {
      hi, lo := NegateDouble(hi, lo);
    }
  }
}
