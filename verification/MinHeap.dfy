/** Scored labels and the binary min-heap behind the priority queue of getTopN. */
module MinHeap {

  /** A (score, label) pair, compared score first. */
  datatype Entry = Entry(value: real, index: int)

  predicate Less(a: Entry, b: Entry) {
    a.value < b.value || (a.value == b.value && a.index < b.index)
  }

  /** Total order: a does not come after b. */
  predicate Leq(a: Entry, b: Entry) {
    !Less(b, a)
  }

  function Parent(i: nat): nat
    requires i > 0
  {
    (i - 1) / 2
  }

  predicate Ordered(s: seq<Entry>, i: nat)
    requires 0 < i < |s|
  {
    Leq(s[Parent(i)], s[i])
  }

  ghost predicate IsHeap(s: seq<Entry>) {
    forall i :: 0 < i < |s| ==> Ordered(s, i)
  }

  /** A heap but for entry i, which may be too small for its place; its children suit its parent. */
  ghost predicate RisingAt(s: seq<Entry>, i: nat) {
    && i < |s|
    && (forall j :: 0 < j < |s| && j != i ==> Ordered(s, j))
    && (i > 0 ==> forall j :: 0 < j < |s| && Parent(j) == i ==> Leq(s[Parent(i)], s[j]))
  }

  /** A heap but for entry i, which may be too large for its place; its children suit its parent. */
  ghost predicate SinkingAt(s: seq<Entry>, i: nat) {
    && i < |s|
    && (forall j :: 0 < j < |s| && Parent(j) != i ==> Ordered(s, j))
    && (i > 0 ==> forall j :: 0 < j < |s| && Parent(j) == i ==> Leq(s[Parent(i)], s[j]))
  }

  function Swap(s: seq<Entry>, i: nat, j: nat): seq<Entry>
    requires i < |s| && j < |s|
  {
    s[i := s[j]][j := s[i]]
  }

  lemma SwapKeepsContents(s: seq<Entry>, i: nat, j: nat)
    requires i < |s| && j < |s|
    ensures multiset(Swap(s, i, j)) == multiset(s)
  {
  }

  lemma RiseStep(s: seq<Entry>, i: nat)
    requires RisingAt(s, i) && i > 0 && Less(s[i], s[Parent(i)])
    ensures RisingAt(Swap(s, i, Parent(i)), Parent(i))
  {
    var p := Parent(i);
    var t := Swap(s, i, p);
    forall j | 0 < j < |t| && j != p
      ensures Ordered(t, j)
    {
      assert j != i ==> Ordered(s, j);
      assert p > 0 ==> Ordered(s, p);
    }
    if p > 0 {
      assert Ordered(s, p);
      forall j | 0 < j < |t| && Parent(j) == p
        ensures Leq(t[Parent(p)], t[j])
      {
        assert j != i ==> Ordered(s, j);
      }
    }
  }

  lemma SinkStep(s: seq<Entry>, i: nat, c: nat)
    requires SinkingAt(s, i) && 0 < c < |s| && Parent(c) == i
    requires Less(s[c], s[i]) && forall j :: 0 < j < |s| && Parent(j) == i ==> Leq(s[c], s[j])
    ensures SinkingAt(Swap(s, i, c), c)
  {
    var t := Swap(s, i, c);
    forall j | 0 < j < |t| && Parent(j) != c
      ensures Ordered(t, j)
    {
      assert Parent(j) != i ==> Ordered(s, j);
      assert i > 0 ==> Leq(s[Parent(i)], s[c]);
    }
    forall j | 0 < j < |t| && Parent(j) == c
      ensures Leq(t[Parent(c)], t[j])
    {
      assert Ordered(s, j);
    }
  }

  /** The root of a heap is its least entry. */
  lemma {:induction false} RootIsLeast(s: seq<Entry>, i: nat)
    requires IsHeap(s) && i < |s|
    ensures Leq(s[0], s[i])
    decreases i
  {
    if i > 0 {
      RootIsLeast(s, Parent(i));
      assert Ordered(s, i);
    }
  }

  /** The priority queue: a vector kept in heap order. */
  class PriorityQueue {
    var slots: seq<Entry>

    ghost predicate Valid()
      reads this
    {
      IsHeap(slots)
    }

    ghost function Contents(): multiset<Entry>
      reads this
    {
      multiset(slots)
    }

    constructor ()
      ensures Valid() && slots == []
    {
      slots := [];
    }

    method Top() returns (e: Entry)
      requires Valid() && slots != []
      ensures e == slots[0] && e in Contents()
      ensures forall x :: x in Contents() ==> Leq(e, x)
    {
      e := slots[0];
      LeastOf(slots);
    }

    /** Appends the entry and lets it rise. */
    method Push(e: Entry)
      requires Valid()
      modifies this
      ensures Valid() && |slots| == old(|slots|) + 1
      ensures Contents() == old(Contents()) + multiset{e}
    {
      slots := slots + [e];
      var i := |slots| - 1;
      AppendedRises(old(slots), e);
      while i > 0 && Less(slots[i], slots[Parent(i)])
        invariant 0 <= i < |slots| == old(|slots|) + 1
        invariant RisingAt(slots, i)
        invariant Contents() == old(Contents()) + multiset{e}
      {
        var p := Parent(i);
        RiseStep(slots, i);
        SwapKeepsContents(slots, i, p);
        slots := slots[i := slots[p]][p := slots[i]];
        i := p;
      }
    }

    /** Removes the root, moves the last entry there and lets it sink. */
    method Pop()
      requires Valid() && slots != []
      modifies this
      ensures Valid() && |slots| == old(|slots|) - 1
      ensures Contents() == old(Contents()) - multiset{old(slots[0])}
    {
      RemoveRoot(slots);
      var last := slots[|slots| - 1];
      slots := slots[..|slots| - 1];
      if slots == [] {
        return;
      }
      slots := slots[0 := last];
      SiftDown();
    }

    method SiftDown()
      requires SinkingAt(slots, 0)
      modifies this
      ensures Valid() && |slots| == old(|slots|) && Contents() == old(Contents())
    {
      var i := 0;
      while 2 * i + 1 < |slots|
        invariant 0 <= i < |slots| == old(|slots|)
        invariant SinkingAt(slots, i)
        invariant Contents() == old(Contents())
        decreases |slots| - i
      {
        var c := SmallerChild(slots, i);
        SinkOrStop(slots, i);
        if !Less(slots[c], slots[i]) {
          return;
        }
        slots := slots[i := slots[c]][c := slots[i]];
        i := c;
      }
      LeafIsHeap(slots, i);
    }
  }

  lemma AppendedRises(s: seq<Entry>, e: Entry)
    requires IsHeap(s)
    ensures RisingAt(s + [e], |s|)
  {
    forall j | 0 < j < |s|
      ensures Ordered(s + [e], j)
    {
      assert Ordered(s, j);
    }
  }

  lemma LeafIsHeap(s: seq<Entry>, i: nat)
    requires SinkingAt(s, i) && 2 * i + 1 >= |s|
    ensures IsHeap(s)
  {
    forall j | 0 < j < |s|
      ensures Ordered(s, j)
    {
      assert Parent(j) != i;
    }
  }

  function SmallerChild(s: seq<Entry>, i: nat): (c: nat)
    requires 2 * i + 1 < |s|
    ensures 0 < c < |s| && Parent(c) == i
  {
    if 2 * i + 2 < |s| && Less(s[2 * i + 2], s[2 * i + 1]) then 2 * i + 2 else 2 * i + 1
  }

  lemma LeastChild(s: seq<Entry>, i: nat, j: nat)
    requires 2 * i + 1 < |s| && 0 < j < |s| && Parent(j) == i
    ensures Leq(s[SmallerChild(s, i)], s[j])
  {
    assert j == 2 * i + 1 || j == 2 * i + 2;
  }

  /** Either the swap with the smaller child moves the misplaced entry down, or the heap is restored. */
  lemma SinkOrStop(s: seq<Entry>, i: nat)
    requires SinkingAt(s, i) && 2 * i + 1 < |s|
    ensures var c := SmallerChild(s, i);
            if Less(s[c], s[i]) then
              SinkingAt(Swap(s, i, c), c) && multiset(Swap(s, i, c)) == multiset(s)
            else IsHeap(s)
  {
    var c := SmallerChild(s, i);
    forall j | 0 < j < |s| && Parent(j) == i
      ensures Leq(s[c], s[j])
    {
      LeastChild(s, i, j);
    }
    if Less(s[c], s[i]) {
      SinkStep(s, i, c);
      SwapKeepsContents(s, i, c);
    } else {
      SunkIsHeap(s, i, c);
    }
  }

  lemma LeastOf(s: seq<Entry>)
    requires IsHeap(s) && s != []
    ensures forall x :: x in multiset(s) ==> Leq(s[0], x)
  {
    forall x | x in multiset(s)
      ensures Leq(s[0], x)
    {
      var i :| 0 <= i < |s| && s[i] == x;
      RootIsLeast(s, i);
    }
  }

  /** Moving the last entry to the root removes the root and leaves only that entry out of place. */
  lemma RemoveRoot(s: seq<Entry>)
    requires IsHeap(s) && s != []
    ensures var rest := if |s| == 1 then [] else s[..|s| - 1][0 := s[|s| - 1]];
            && multiset(rest) == multiset(s) - multiset{s[0]}
            && (rest != [] ==> SinkingAt(rest, 0))
  {
    var n := |s| - 1;
    assert s == s[..n] + [s[n]];
    if n > 0 {
      var rest := s[..n][0 := s[n]];
      assert s[..n] == [s[0]] + s[1..n];
      assert rest == [s[n]] + s[1..n];
      forall j | 0 < j < |rest| && Parent(j) != 0
        ensures Ordered(rest, j)
      {
        assert Ordered(s, j);
      }
    }
  }

  lemma SunkIsHeap(s: seq<Entry>, i: nat, c: nat)
    requires SinkingAt(s, i) && 0 < c < |s| && Parent(c) == i && !Less(s[c], s[i])
    requires forall j :: 0 < j < |s| && Parent(j) == i ==> Leq(s[c], s[j])
    ensures IsHeap(s)
  {
    forall j | 0 < j < |s|
      ensures Ordered(s, j)
    {
      if Parent(j) == i {
        assert Leq(s[c], s[j]);
      }
    }
  }
}
