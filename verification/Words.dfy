/** Machine words and bytes, with their width made explicit.

    The simulated machine and the disk both store 32-bit words as four bytes, least
    significant first.  Words are modelled as integers below `WORD`; every operation that
    can wrap around is written out with `% WORD`. */
module Words {
  const WORD := 0x1_0000_0000
  const HALF := 0x8000_0000

  newtype Byte = x: int | 0 <= x < 256
  type Word = x: int | 0 <= x < 0x1_0000_0000
  /** A signed 32-bit `int`. */
  type Int32 = x: int | -0x8000_0000 <= x < 0x8000_0000

  /** The conversion `(unsigned) x`. */
  function Unsigned(x: int): (w: Word)
    ensures (w - x) % WORD == 0
  {
    x % WORD
  }

  /** The conversion `(int) x` under two's complement. */
  function Signed(x: int): (i: Int32)
    ensures (i - x) % WORD == 0
  {
    var w := x % WORD;
    if w < HALF then w else w - WORD
  }

  lemma SignedUnsigned(i: Int32)
    ensures Signed(Unsigned(i)) == i
  {}

  function Pow2(n: nat): (p: nat)
    ensures p > 0
  {
    if n == 0 then 1 else 2 * Pow2(n - 1)
  }

  // ---------- little-endian storage ----------

  /** The four bytes of a word, least significant first. */
  function WordBytes(w: Word): (b: seq<Byte>)
    ensures |b| == 4
  {
    [(w % 256) as Byte, (w / 0x100 % 256) as Byte, (w / 0x1_0000 % 256) as Byte, (w / 0x100_0000) as Byte]
  }

  function BytesWord(b: seq<Byte>): Word
    requires |b| == 4
  {
    b[0] as int + 0x100 * b[1] as int + 0x1_0000 * b[2] as int + 0x100_0000 * b[3] as int
  }

  lemma WordRoundTrip(w: Word)
    ensures BytesWord(WordBytes(w)) == w
  {
    var b, c, d := w / 0x100, w / 0x1_0000, w / 0x100_0000;
    assert w == 0x100 * b + w % 256;
    assert b == 0x100 * c + b % 256;
    assert c == 0x100 * d + c % 256;
  }

  /** An array of words as it lies in memory. */
  function Pack(ws: seq<Word>): (b: seq<Byte>)
    ensures |b| == 4 * |ws|
  {
    if ws == [] then [] else WordBytes(ws[0]) + Pack(ws[1..])
  }

  function Unpack(b: seq<Byte>): (ws: seq<Word>)
    ensures |ws| == |b| / 4
  {
    if |b| < 4 then [] else [BytesWord(b[..4])] + Unpack(b[4..])
  }

  lemma {:induction false} PackRoundTrip(ws: seq<Word>)
    ensures Unpack(Pack(ws)) == ws
  {
    if ws != [] {
      WordRoundTrip(ws[0]);
      assert Pack(ws)[..4] == WordBytes(ws[0]);
      assert Pack(ws)[4..] == Pack(ws[1..]);
      PackRoundTrip(ws[1..]);
    }
  }

  /** The words lie one after the other. */
  lemma {:induction false} PackedWord(ws: seq<Word>, i: nat)
    requires i < |ws|
    ensures Pack(ws)[4 * i..4 * i + 4] == WordBytes(ws[i])
  {
    if i > 0 {
      PackedWord(ws[1..], i - 1);
      assert Pack(ws)[4 * i..4 * i + 4] == Pack(ws[1..])[4 * (i - 1)..4 * (i - 1) + 4];
    }
  }
}
