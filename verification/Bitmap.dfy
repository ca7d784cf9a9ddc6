/** The word-packed bitmap (userprog/bitmap.cc). */
module Bits {
  import opened Words

  /** `w & (1 << k)`, one shift at a time. */
  predicate TestBit(w: nat, k: nat) {
    if k == 0 then w % 2 == 1 else TestBit(w / 2, k - 1)
  }

  /** `w | (1 << k)`. */
  function SetBit(w: nat, k: nat): nat {
    if k == 0 then w / 2 * 2 + 1 else SetBit(w / 2, k - 1) * 2 + w % 2
  }

  /** `w & ~(1 << k)`. */
  function ClearBit(w: nat, k: nat): nat {
    if k == 0 then w / 2 * 2 else ClearBit(w / 2, k - 1) * 2 + w % 2
  }

  lemma {:induction false} SetBitTests(w: nat, k: nat, j: nat)
    ensures TestBit(SetBit(w, k), j) <==> j == k || TestBit(w, j)
  {
    if k > 0 && j > 0 {
      assert SetBit(w, k) / 2 == SetBit(w / 2, k - 1);
      SetBitTests(w / 2, k - 1, j - 1);
    }
  }

  lemma {:induction false} ClearBitTests(w: nat, k: nat, j: nat)
    ensures TestBit(ClearBit(w, k), j) <==> j != k && TestBit(w, j)
  {
    if k > 0 && j > 0 {
      assert ClearBit(w, k) / 2 == ClearBit(w / 2, k - 1);
      ClearBitTests(w / 2, k - 1, j - 1);
    }
  }

  /** Neither operation leaves the width of the word. */
  lemma {:induction false} WidthKept(w: nat, k: nat, n: nat)
    requires w < Pow2(n) && k < n
    ensures SetBit(w, k) < Pow2(n) && ClearBit(w, k) < Pow2(n)
  {
    if k > 0 {
      WidthKept(w / 2, k - 1, n - 1);
    }
  }

  lemma WordWidth()
    ensures Pow2(32) == WORD
  {
    assert Pow2(10) == 0x400 && Pow2(20) == 0x10_0000 && Pow2(30) == 0x4000_0000;
  }
}

module Bitmaps {
  import opened Words
  import opened Sets
  import opened Bits

  /** The members of a bitmap of n bits stored in an array of words. */
  function Members(words: seq<Word>, n: nat): (s: set<int>)
    requires n <= |words| * 32
    ensures forall i :: i in s <==> 0 <= i < n && TestBit(words[i / 32], i % 32)
  {
    set i | 0 <= i < n && TestBit(words[i / 32], i % 32)
  }

  /** The least number below n that is not in the set, or -1. */
  function Least(used: set<int>, n: nat): (k: int)
    ensures -1 <= k < n
    ensures k >= 0 ==> k !in used && forall j :: 0 <= j < k ==> j in used
    ensures k < 0 ==> forall j :: 0 <= j < n ==> j in used
  {
    LeastFrom(used, 0, n)
  }

  function LeastFrom(used: set<int>, i: nat, n: nat): (k: int)
    requires i <= n
    ensures k == -1 || i <= k < n
    ensures k >= 0 ==> k !in used && forall j :: i <= j < k ==> j in used
    ensures k < 0 ==> forall j :: i <= j < n ==> j in used
    decreases n - i
  {
    if i == n then -1 else if i !in used then i else LeastFrom(used, i + 1, n)
  }

  /** How many numbers below n are not in the set. */
  function Absent(s: set<int>, n: nat): nat {
    if n == 0 then 0 else Absent(s, n - 1) + if n - 1 in s then 0 else 1
  }

  /** Counting the absent ones is counting the complement. */
  lemma {:induction false} AbsentIsComplement(s: set<int>, n: nat)
    requires forall i :: i in s ==> 0 <= i < n
    ensures Absent(s, n) == n - |s|
  {
    if n == 0 {
      if s != {} {
        var x := Member(s);
        assert false;
      }
    } else {
      var rest := s - {n - 1};
      AbsentIsComplement(rest, n - 1);
      AbsentFrame(s, rest, n - 1);
    }
  }

  lemma {:induction false} AbsentFrame(s: set<int>, r: set<int>, n: nat)
    requires forall i :: 0 <= i < n ==> (i in s <==> i in r)
    ensures Absent(s, n) == Absent(r, n)
  {
    if n > 0 {
      AbsentFrame(s, r, n - 1);
    }
  }

  class BitMap {
    const numBits: nat
    const numWords: nat
    const map_: array<Word>

    ghost predicate Valid()
      reads this
    {
      numWords == (numBits + 32 - 1) / 32 && map_.Length == numWords
    }

    ghost function Set(): set<int>
      requires Valid()
      reads this, map_
    {
      Members(map_[..], numBits)
    }

    /** The storage starts with arbitrary words, and every bit is cleared in turn. */
    constructor (nitems: nat)
      ensures Valid() && fresh(map_) && numBits == nitems && Set() == {}
    {
      numBits := nitems;
      numWords := (nitems + 32 - 1) / 32;
      map_ := new Word[(nitems + 32 - 1) / 32];
      new;
      for i := 0 to nitems
        invariant forall j :: 0 <= j < i ==> j !in Set()
      {
        Clear(i);
      }
    }

    method Mark(which: nat)
      requires Valid() && which < numBits
      modifies map_
      ensures Set() == old(Set()) + {which}
    {
      var i, k := which / 32, which % 32;
      ghost var was := map_[..];
      WordWidth();
      WidthKept(map_[i], k, 32);
      map_[i] := SetBit(map_[i], k);
      forall j | 0 <= j < numBits ensures j in Set() <==> j in Members(was, numBits) || j == which {
        SetBitTests(was[i], k, j % 32);
      }
    }

    method Clear(which: nat)
      requires Valid() && which < numBits
      modifies map_
      ensures Set() == old(Set()) - {which}
    {
      var i, k := which / 32, which % 32;
      ghost var was := map_[..];
      WordWidth();
      WidthKept(map_[i], k, 32);
      map_[i] := ClearBit(map_[i], k);
      forall j | 0 <= j < numBits ensures j in Set() <==> j in Members(was, numBits) && j != which {
        ClearBitTests(was[i], k, j % 32);
      }
    }

    method Test(which: nat) returns (marked: bool)
      requires Valid() && which < numBits
      ensures marked <==> which in Set()
    {
      marked := TestBit(map_[which / 32], which % 32);
    }

    /** Find and mark the first clear bit, or report -1 when there is none. */
    method Find() returns (k: int)
      requires Valid()
      modifies map_
      ensures k == Least(old(Set()), numBits)
      ensures Set() == if k < 0 then old(Set()) else old(Set()) + {k}
    {
      for i := 0 to numBits
        invariant Set() == old(Set())
        invariant forall j :: 0 <= j < i ==> j in Set()
      {
        var marked := Test(i);
        if !marked {
          Mark(i);
          return i;
        }
      }
      k := -1;
    }

    method NumClear() returns (count: nat)
      requires Valid()
      ensures count == numBits - |Set()|
    {
      count := 0;
      for i := 0 to numBits
        invariant count == Absent(Set(), i)
      {
        var marked := Test(i);
        if !marked {
          count := count + 1;
        }
      }
      AbsentIsComplement(Set(), numBits);
    }

    /** The bytes `WriteBack` hands to the file. */
    method Bytes() returns (b: seq<Byte>)
      requires Valid()
      ensures b == Pack(map_[..])
    {
      b := Pack(map_[..]);
    }

    /** `FetchFrom`, given the bytes read from the file. */
    method Load(b: seq<Byte>)
      requires Valid() && |b| == 4 * numWords
      modifies map_
      ensures map_[..] == Unpack(b)
      ensures Set() == Members(Unpack(b), numBits)
    {
      var words := Unpack(b);
      for i := 0 to numWords
        invariant map_[..i] == words[..i]
      {
        map_[i] := words[i];
      }
      assert map_[..numWords] == map_[..] && words[..numWords] == words;
    }
  }

  /** Writing a bitmap back and fetching it again restores the set, when the file holds all its
      words. */
  lemma StoredSetRestored(words: seq<Word>, n: nat)
    requires n <= |words| * 32
    ensures |Unpack(Pack(words))| == |words|
    ensures Members(Unpack(Pack(words)), n) == Members(words, n)
  {
    PackRoundTrip(words);
  }
}
