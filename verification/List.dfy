/** The singly linked list of threads/list.cc, in sorted and unsorted use. */
module LinkedList {
  import opened Options

  datatype Item<+T> = Item(item: T, key: int)

  /** Where `SortedInsert` puts an item: before the first element with a larger key. */
  function Inserted<T>(s: seq<Item<T>>, x: Item<T>): (r: seq<Item<T>>)
    ensures |r| == |s| + 1
  {
    if s == [] then [x]
    else if x.key < s[0].key then [x] + s
    else [s[0]] + Inserted(s[1..], x)
  }

  ghost predicate Sorted<T>(s: seq<Item<T>>) {
    forall i, j :: 0 <= i < j < |s| ==> s[i].key <= s[j].key
  }

  /** Insertion splits the list at one place: everything before has a key no larger than the new
      one when the list is sorted, so among equal keys the newcomer goes last. */
  lemma {:induction false} InsertedSplits<T>(s: seq<Item<T>>, x: Item<T>) returns (p: nat)
    ensures p <= |s| && Inserted(s, x) == s[..p] + [x] + s[p..]
    ensures forall i :: 0 <= i < p ==> s[i].key <= x.key
    ensures p < |s| ==> x.key < s[p].key
  {
    if s == [] || x.key < s[0].key {
      p := 0;
    } else {
      p := InsertedSplits(s[1..], x);
      p := p + 1;
      assert s == [s[0]] + s[1..];
    }
  }

  lemma {:induction false} SplicedSorted<T>(s: seq<Item<T>>, x: Item<T>, p: nat)
    requires Sorted(s) && p <= |s|
    requires forall i :: 0 <= i < p ==> s[i].key <= x.key
    requires p < |s| ==> x.key < s[p].key
    ensures Sorted(s[..p] + [x] + s[p..])
  {
    var r := s[..p] + [x] + s[p..];
    forall i, j | 0 <= i < j < |r| ensures r[i].key <= r[j].key {
      if j < p {
      } else if j == p {
      } else {
        assert r[j] == s[j - 1] && s[p].key <= s[j - 1].key;
        if i > p { assert r[i] == s[i - 1]; }
      }
    }
  }

  lemma {:induction false} InsertedSorted<T>(s: seq<Item<T>>, x: Item<T>)
    requires Sorted(s)
    ensures Sorted(Inserted(s, x))
  {
    var p := InsertedSplits(s, x);
    SplicedSorted(s, x, p);
  }

  /** Insertion loses nothing and duplicates nothing. */
  lemma {:induction false} InsertedMultiset<T>(s: seq<Item<T>>, x: Item<T>)
    ensures multiset(Inserted(s, x)) == multiset(s) + multiset{x}
  {
    if s != [] {
      assert s == [s[0]] + s[1..];
      if s[0].key <= x.key {
        InsertedMultiset(s[1..], x);
      }
    }
  }

  /** The place for an item is determined by the keys around it. */
  lemma {:induction false} InsertedAt<T>(s: seq<Item<T>>, x: Item<T>, p: nat)
    requires p <= |s|
    requires forall i :: 0 <= i < p ==> s[i].key <= x.key
    requires p < |s| ==> x.key < s[p].key
    ensures Inserted(s, x) == s[..p] + [x] + s[p..]
  {
    if p > 0 {
      InsertedAt(s[1..], x, p - 1);
      assert s == [s[0]] + s[1..];
    }
  }

  class ListElement<T> {
    var next: ListElement?<T>
    const key: int
    const item: T

    constructor (item: T, key: int)
      ensures this.item == item && this.key == key && next == null
    {
      this.item, this.key, next := item, key, null;
    }

    ghost function Value(): Item<T> { Item(item, key) }
  }

  ghost function Values<T>(nodes: seq<ListElement<T>>): seq<Item<T>> {
    seq(|nodes|, i requires 0 <= i < |nodes| => nodes[i].Value())
  }

  lemma ValuesSpliced<T>(nodes: seq<ListElement<T>>, element: ListElement<T>, at: nat)
    requires at <= |nodes|
    ensures Values(nodes[..at] + [element] + nodes[at..]) == Values(nodes)[..at] + [element.Value()] + Values(nodes)[at..]
  {}

  class List<T> {
    var first: ListElement?<T>
    var last: ListElement?<T>
    /** The elements in list order. */
    ghost var nodes: seq<ListElement<T>>
    /** All elements that were ever in the list. */
    ghost var Repr: set<ListElement<T>>

    ghost predicate Valid()
      reads this, Repr
    {
      && (forall i :: 0 <= i < |nodes| ==> nodes[i] in Repr)
      && (forall i, j :: 0 <= i < j < |nodes| ==> nodes[i] != nodes[j])
      && (forall i {:trigger nodes[i].next} :: 0 <= i < |nodes| - 1 ==> nodes[i].next == nodes[i + 1])
      && (if nodes == [] then first == null && last == null
          else first == nodes[0] && last == nodes[|nodes| - 1] && last.next == null)
    }

    ghost function Contents(): seq<Item<T>>
      reads this
    {
      Values(nodes)
    }

    /** The items without their keys. */
    ghost function Items(): seq<T>
      reads this
    {
      seq(|nodes|, i requires 0 <= i < |nodes| reads this => nodes[i].item)
    }

    constructor ()
      ensures Valid() && Contents() == [] && Items() == [] && Repr == {}
    {
      first, last, nodes, Repr := null, null, [], {};
    }

    method IsEmpty() returns (empty: bool)
      requires Valid()
      ensures empty <==> Contents() == []
    {
      empty := first == null;
    }

    method Append(item: T)
      requires Valid()
      modifies this, Repr
      ensures Valid() && fresh(Repr - old(Repr))
      ensures Contents() == old(Contents()) + [Item(item, 0)] && Items() == old(Items()) + [item]
    {
      var element := new ListElement(item, 0);
      if first == null {
        first := element;
        last := element;
      } else {
        last.next := element;
        last := element;
      }
      nodes, Repr := nodes + [element], Repr + {element};
    }

    /** The element after which `sortKey` belongs: the walk of `SortedInsert`. */
    method FindPlace(sortKey: int) returns (ptr: ListElement<T>, ghost k: nat)
      requires Valid() && nodes != [] && nodes[0].key <= sortKey
      ensures k < |nodes| && ptr == nodes[k]
      ensures forall i :: 0 <= i <= k ==> nodes[i].key <= sortKey
      ensures k + 1 < |nodes| ==> sortKey < nodes[k + 1].key
    {
      ptr, k := first, 0;
      while ptr.next != null
        invariant k < |nodes| && ptr == nodes[k]
        invariant forall i :: 0 <= i <= k ==> nodes[i].key <= sortKey
        decreases |nodes| - k
      {
        assert k + 1 < |nodes| && ptr.next == nodes[k].next == nodes[k + 1];
        if sortKey < ptr.next.key {
          return;
        }
        ptr, k := ptr.next, k + 1;
      }
    }

    /** Link an element in behind the first `at` elements. */
    method LinkAt(element: ListElement<T>, ptr: ListElement?<T>, ghost at: nat)
      requires Valid() && element !in Repr && element.next == null && at <= |nodes|
      requires at > 0 ==> ptr == nodes[at - 1]
      requires at == 0 ==> ptr == null
      modifies this, Repr, element
      ensures Valid() && nodes == old(nodes[..at] + [element] + nodes[at..]) && Repr == old(Repr) + {element}
    {
      if ptr == null {
        if first == null {
          last := element;
        } else {
          element.next := first;
        }
        first := element;
      } else if ptr.next != null {
        element.next := ptr.next;
        ptr.next := element;
      } else {
        last.next := element;
        last := element;
      }
      ghost var was := nodes;
      nodes, Repr := nodes[..at] + [element] + nodes[at..], Repr + {element};
      assert forall i {:trigger nodes[i]} :: 0 <= i < |nodes| ==>
        nodes[i] == if i < at then was[i] else if i == at then element else was[i - 1];
    }

    method SortedInsert(item: T, sortKey: int)
      requires Valid()
      modifies this, Repr
      ensures Valid() && fresh(Repr - old(Repr))
      ensures Contents() == Inserted(old(Contents()), Item(item, sortKey))
    {
      ghost var s, x := Contents(), Item(item, sortKey);
      var element := new ListElement(item, sortKey);
      var ptr: ListElement?<T> := null;
      ghost var at := 0;
      if first != null && first.key <= sortKey {
        ptr, at := FindPlace(sortKey);
        at := at + 1;
      }
      InsertedAt(s, x, at);
      ValuesSpliced(nodes, element, at);
      LinkAt(element, ptr, at);
    }

    method SortedRemove() returns (r: Option<Item<T>>)
      requires Valid()
      modifies this
      ensures Valid() && Repr == old(Repr) && nodes == if old(nodes) == [] then [] else old(nodes)[1..]
      ensures old(Contents()) == [] ==> r == None && Contents() == []
      ensures old(Contents()) != [] ==> r == Some(old(Contents())[0]) && Contents() == old(Contents())[1..]
    {
      if first == null {
        return None;
      }
      r := Some(Item(first.item, first.key));
      if first == last {
        first := null;
        last := null;
      } else {
        first := first.next;
      }
      ghost var was := nodes;
      nodes := nodes[1..];
      assert forall i :: 0 <= i < |nodes| ==> nodes[i] == was[i + 1];
      assert Contents() == old(Contents())[1..];
    }

    /** `Remove` ignores the key. */
    method Remove() returns (r: Option<T>)
      requires Valid()
      modifies this
      ensures Valid() && Repr == old(Repr)
      ensures old(Items()) == [] ==> r == None && Items() == []
      ensures old(Items()) != [] ==> r == Some(old(Items())[0]) && Items() == old(Items())[1..]
    {
      var x := SortedRemove();
      r := if x.Some? then Some(x.value.item) else None;
    }
  }
}
