module Sets {
  lemma Member(s: set<int>) returns (x: int)
    requires s != {}
    ensures x in s
  {
    if forall y :: y !in s {
      assert false;
    }
    x :| x in s;
  }

  lemma SubsetSize(a: set<int>, b: set<int>)
    requires a <= b
    ensures |a| <= |b| && (|a| == |b| ==> a == b)
  {
    assert b == a + (b - a);
  }
}

module Sequences {
  /** What was in hand and what came in is what went out and what is in hand now. */
  lemma Carried<T>(out: seq<T>, hand: seq<T>, came: seq<T>, went: seq<T>, hand': seq<T>)
    requires hand + came == went + hand'
    ensures (out + hand) + came == (out + went) + hand'
  {
    assert (out + hand) + came == out + (hand + came);
    assert (out + went) + hand' == out + (went + hand');
  }
}
