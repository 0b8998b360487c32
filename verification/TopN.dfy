/** getTopN: the best few scores above a threshold, through a bounded min-heap. */
module TopN {
  import opened MinHeap

  /** A result row: element index, score and the box, which classification leaves empty. */
  datatype Detection = Detection(index: int, score: real, box: seq<real>)

  /** The queue never holds more than this many entries between elements. */
  const CAPACITY := 4

  function Score(x: real, zp: real, scale: real): real
    requires scale != 0.0
  {
    (x + zp) / scale
  }

  /** The entries among the first n whose score reaches the threshold, in input order. */
  function Candidates(data: seq<real>, threshold: real, n: nat, zp: real, scale: real): (s: seq<Entry>)
    requires scale != 0.0 && n <= |data|
    ensures forall i :: 0 <= i < |s| ==> 0 <= s[i].index < n
  {
    if n == 0 then [] else
      var rest := Candidates(data, threshold, n - 1, zp, scale);
      var v := Score(data[n - 1], zp, scale);
      if v < threshold then rest else rest + [Entry(v, n - 1)]
  }

  /** Greatest first. */
  ghost predicate Descending(s: seq<Entry>) {
    forall i, j :: 0 <= i < j < |s| ==> Leq(s[j], s[i])
  }

  function InsertDescending(e: Entry, s: seq<Entry>): seq<Entry> {
    if s == [] || Leq(s[0], e) then [e] + s else [s[0]] + InsertDescending(e, s[1..])
  }

  /** Reference ordering: insertion sort, greatest first. */
  function SortDescending(s: seq<Entry>): seq<Entry> {
    if s == [] then [] else InsertDescending(s[0], SortDescending(s[1..]))
  }

  lemma {:induction false} InsertSorts(e: Entry, s: seq<Entry>)
    requires Descending(s)
    ensures Descending(InsertDescending(e, s)) && multiset(InsertDescending(e, s)) == multiset(s) + multiset{e}
  {
    if s == [] || Leq(s[0], e) {
    } else {
      InsertSorts(e, s[1..]);
      var t := InsertDescending(e, s[1..]);
      assert s == [s[0]] + s[1..];
      forall j | 0 <= j < |t|
        ensures Leq(t[j], s[0])
      {
        assert t[j] in multiset(t);
        assert t[j] == e || t[j] in s[1..];
      }
    }
  }

  lemma {:induction false} SortSorts(s: seq<Entry>)
    ensures Descending(SortDescending(s)) && multiset(SortDescending(s)) == multiset(s)
    ensures |SortDescending(s)| == |s|
  {
    if s != [] {
      SortSorts(s[1..]);
      InsertSorts(s[0], SortDescending(s[1..]));
      assert s == [s[0]] + s[1..];
    }
    assert |multiset(SortDescending(s))| == |multiset(s)|;
  }

  lemma Antisymmetric(a: Entry, b: Entry)
    requires Leq(a, b) && Leq(b, a)
    ensures a == b
  {
  }

  lemma HeadTail(s: seq<Entry>)
    requires s != [] && Descending(s)
    ensures Descending(s[1..]) && multiset(s[1..]) == multiset(s) - multiset{s[0]}
    ensures forall x :: x in multiset(s) ==> Leq(x, s[0])
  {
    assert s == [s[0]] + s[1..];
  }

  lemma SameHead(a: seq<Entry>, b: seq<Entry>)
    requires a != [] && b != [] && Descending(a) && Descending(b) && multiset(a) == multiset(b)
    ensures a[0] == b[0] && multiset(a[1..]) == multiset(b[1..])
  {
    HeadTail(a);
    HeadTail(b);
    assert a[0] in multiset(a) && b[0] in multiset(b);
    Antisymmetric(a[0], b[0]);
  }

  /** There is only one descending arrangement of a multiset. */
  lemma {:induction false} DescendingIsUnique(a: seq<Entry>, b: seq<Entry>)
    requires Descending(a) && Descending(b) && multiset(a) == multiset(b)
    ensures a == b
  {
    assert |a| == |multiset(a)| == |multiset(b)| == |b|;
    if a != [] {
      SameHead(a, b);
      DescendingIsUnique(a[1..], b[1..]);
      assert a == [a[0]] + a[1..] && b == [b[0]] + b[1..];
    }
  }

  /** Kept entries above evicted ones, together all of s: the kept ones are a prefix of the sorted s. */
  lemma KeptIsPrefix(s: seq<Entry>, kept: seq<Entry>, evicted: seq<Entry>)
    requires Descending(kept) && multiset(kept) + multiset(evicted) == multiset(s)
    requires forall x, y :: x in kept && y in evicted ==> Leq(y, x)
    ensures |kept| <= |SortDescending(s)| && kept == SortDescending(s)[..|kept|]
  {
    var tail := SortDescending(evicted);
    SortSorts(evicted);
    SortSorts(s);
    forall x, y | x in kept && y in tail
      ensures Leq(y, x)
    {
      SameMembers(evicted, tail, y);
    }
    DescendingJoin(kept, tail);
    assert multiset(kept + tail) == multiset(s);
    DescendingIsUnique(kept + tail, SortDescending(s));
  }

  lemma DescendingJoin(a: seq<Entry>, b: seq<Entry>)
    requires Descending(a) && Descending(b) && forall x, y :: x in a && y in b ==> Leq(y, x)
    ensures Descending(a + b)
  {
    forall i, j | 0 <= i < j < |a + b|
      ensures Leq((a + b)[j], (a + b)[i])
    {
      if i < |a| <= j {
        assert a[i] in a && b[j - |a|] in b;
      }
    }
  }

  function Top(s: seq<Entry>, n: nat): seq<Entry>
  {
    var sorted := SortDescending(s);
    if |sorted| <= n then sorted else sorted[..n]
  }

  function Report(s: seq<Entry>): (r: seq<Detection>)
    ensures |r| == |s|
    ensures forall i :: 0 <= i < |s| ==> r[i] == Detection(s[i].index, s[i].value, [])
  {
    seq(|s|, i requires 0 <= i < |s| => Detection(s[i].index, s[i].value, []))
  }

  function Reversed(s: seq<Entry>): (r: seq<Entry>)
    ensures |r| == |s| && forall i :: 0 <= i < |s| ==> r[i] == s[|s| - 1 - i]
  {
    seq(|s|, i requires 0 <= i < |s| => s[|s| - 1 - i])
  }

  /** Effect of offering one more candidate to a queue of bounded size. */
  ghost predicate Partitions(kept: multiset<Entry>, evicted: multiset<Entry>, all: multiset<Entry>, n: nat) {
    && kept + evicted == all
    && |kept| <= n
    && (evicted != multiset{} ==> |kept| == n)
    && forall x, y :: x in kept && y in evicted ==> Leq(y, x)
  }

  /** Pushing x and dropping the least of what is then held keeps the partition. */
  lemma EvictLeast(kept: multiset<Entry>, evicted: multiset<Entry>, all: multiset<Entry>, n: nat, x: Entry,
      least: Entry)
    requires Partitions(kept, evicted, all, n) && |kept| == n
    requires least in kept + multiset{x}
    requires forall y :: y in kept + multiset{x} ==> Leq(least, y)
    ensures Partitions(kept + multiset{x} - multiset{least}, evicted + multiset{least}, all + multiset{x}, n)
  {
    var kept' := kept + multiset{x} - multiset{least};
    assert kept' + multiset{least} == kept + multiset{x};
    forall a, b | a in kept' && b in evicted + multiset{least}
      ensures Leq(b, a)
    {
      assert a in kept + multiset{x};
      if b != least && a !in kept {
        assert a == x && least != x;
        assert least in kept;
      }
    }
  }

  /** Pushes a candidate and, at capacity, kicks the smallest entry out. */
  method Offer(queue: PriorityQueue, e: Entry, ghost evicted: multiset<Entry>, ghost all: multiset<Entry>)
    returns (ghost evicted': multiset<Entry>)
    requires queue.Valid() && Partitions(queue.Contents(), evicted, all, CAPACITY)
    modifies queue
    ensures queue.Valid() && Partitions(queue.Contents(), evicted', all + multiset{e}, CAPACITY)
  {
    evicted' := evicted;
    ghost var kept := queue.Contents();
    queue.Push(e);
    if |queue.slots| > CAPACITY {
      var least := queue.Top();
      EvictLeast(kept, evicted, all, CAPACITY, e, least);
      queue.Pop();
      evicted' := evicted + multiset{least};
    }
  }

  /** Offers the first `count` elements that reach the threshold. */
  method Fill(queue: PriorityQueue, data: seq<real>, threshold: real, count: int, zp: real, scale: real)
    returns (ghost evicted: multiset<Entry>)
    requires scale != 0.0 && count <= |data| && queue.Valid() && queue.slots == []
    modifies queue
    ensures queue.Valid()
    ensures Partitions(queue.Contents(), evicted,
                       multiset(Candidates(data, threshold, if count > 0 then count else 0, zp, scale)), CAPACITY)
  {
    evicted := multiset{};
    ghost var all: seq<Entry> := [];
    var i := 0;
    while i < count
      invariant 0 <= i && (count >= 0 ==> i <= count) && (count < 0 ==> i == 0)
      invariant queue.Valid()
      invariant all == Candidates(data, threshold, i, zp, scale)
      invariant Partitions(queue.Contents(), evicted, multiset(all), CAPACITY)
    {
      var value := Score(data[i], zp, scale);
      if !(value < threshold) {
        evicted := Offer(queue, Entry(value, i), evicted, multiset(all));
        assert multiset(all + [Entry(value, i)]) == multiset(all) + multiset{Entry(value, i)};
        all := all + [Entry(value, i)];
      }
      i := i + 1;
    }
  }

  /** The row's score, scaled back, is the element's output, shifted; it reaches the threshold. */
  predicate ShowsElement(row: Detection, data: seq<real>, threshold: real, count: int, zp: real, scale: real)
    requires count <= |data|
  {
    && 0 <= row.index < count && row.box == []
    && row.score * scale == data[row.index] + zp && row.score >= threshold
  }

  method GetTopN(data: seq<real>, threshold: real, count: int, zp: real, scale: real) returns (result: seq<Detection>)
    requires scale != 0.0 && count <= |data|
    ensures result == Report(Top(Candidates(data, threshold, if count > 0 then count else 0, zp, scale), CAPACITY))
    ensures |result| <= 4
    ensures forall j :: 0 <= j < |result| ==> ShowsElement(result[j], data, threshold, count, zp, scale)
  {
    var queue := new PriorityQueue();
    ghost var evicted := Fill(queue, data, threshold, count, zp, scale);
    var ordered := Drain(queue);
    OrderedIsTop(ordered, evicted, Candidates(data, threshold, if count > 0 then count else 0, zp, scale), CAPACITY);
    result := Report(ordered);
    RowsShowElements(data, threshold, if count > 0 then count else 0, zp, scale);
  }

  lemma RowsShowElements(data: seq<real>, threshold: real, n: nat, zp: real, scale: real)
    requires scale != 0.0 && n <= |data|
    ensures var rows := Report(Top(Candidates(data, threshold, n, zp, scale), CAPACITY));
            |rows| <= 4 && forall j :: 0 <= j < |rows| ==> ShowsElement(rows[j], data, threshold, n, zp, scale)
  {
    var s := Candidates(data, threshold, n, zp, scale);
    var rows := Report(Top(s, CAPACITY));
    forall j | 0 <= j < |rows|
      ensures ShowsElement(rows[j], data, threshold, n, zp, scale)
    {
      TopHolds(s, CAPACITY, j);
      CandidateScore(data, threshold, n, zp, scale, Top(s, CAPACITY)[j]);
    }
  }

  lemma TopHolds(s: seq<Entry>, n: nat, j: nat)
    requires j < |Top(s, n)|
    ensures Top(s, n)[j] in s
  {
    SortSorts(s);
    assert Top(s, n)[j] == SortDescending(s)[j];
    SameMembers(s, SortDescending(s), Top(s, n)[j]);
  }

  lemma CandidateScore(data: seq<real>, threshold: real, n: nat, zp: real, scale: real, e: Entry)
    requires scale != 0.0 && n <= |data| && e in Candidates(data, threshold, n, zp, scale)
    ensures 0 <= e.index < n && e.value * scale == data[e.index] + zp && e.value >= threshold
  {
    CandidatesAre(data, threshold, n, zp, scale);
    ScoreTimesScale(data[e.index], zp, scale);
  }

  lemma ScoreTimesScale(x: real, zp: real, scale: real)
    requires scale != 0.0
    ensures Score(x, zp, scale) * scale == x + zp
  {
  }

  /** Empties the queue in ascending order and reverses what came out. */
  method Drain(queue: PriorityQueue) returns (ordered: seq<Entry>)
    requires queue.Valid()
    modifies queue
    ensures Descending(ordered) && multiset(ordered) == old(queue.Contents())
  {
    var out: seq<Entry> := [];
    while queue.slots != []
      invariant queue.Valid()
      invariant queue.Contents() + multiset(out) == old(queue.Contents())
      invariant Ascending(out) && Precedes(out, queue.Contents())
      decreases |queue.slots|
    {
      var e := queue.Top();
      AppendLeast(out, queue.Contents(), e);
      queue.Pop();
      out := out + [e];
    }
    ReversedContents(out);
    ordered := Reversed(out);
  }

  ghost predicate Ascending(s: seq<Entry>) {
    forall i, j :: 0 <= i < j < |s| ==> Leq(s[i], s[j])
  }

  ghost predicate Precedes(s: seq<Entry>, m: multiset<Entry>) {
    forall i, x :: 0 <= i < |s| && x in m ==> Leq(s[i], x)
  }

  lemma AppendLeast(out: seq<Entry>, m: multiset<Entry>, e: Entry)
    requires Ascending(out) && Precedes(out, m)
    requires e in m && forall x :: x in m ==> Leq(e, x)
    ensures Ascending(out + [e]) && Precedes(out + [e], m - multiset{e})
    ensures m - multiset{e} + multiset(out + [e]) == m + multiset(out)
  {
  }

  /** A descending arrangement of the kept entries is the head of the full sort. */
  lemma OrderedIsTop(ordered: seq<Entry>, evicted: multiset<Entry>, all: seq<Entry>, n: nat)
    requires Descending(ordered) && Partitions(multiset(ordered), evicted, multiset(all), n)
    ensures ordered == Top(all, n)
  {
    var rest := Listed(evicted);
    forall x, y | x in ordered && y in rest
      ensures Leq(y, x)
    {
      assert x in multiset(ordered) && y in multiset(rest);
    }
    KeptIsPrefix(all, ordered, rest);
    SortSorts(all);
    assert |all| == |multiset(all)| == |ordered| + |evicted|;
  }

  /** Some listing of a multiset. */
  lemma Listed(m: multiset<Entry>) returns (s: seq<Entry>)
    ensures multiset(s) == m
  {
    if m == multiset{} {
      s := [];
    } else {
      var x :| x in m;
      var t := Listed(m - multiset{x});
      s := t + [x];
    }
  }

  lemma {:induction false} ReversedContents(s: seq<Entry>)
    ensures multiset(Reversed(s)) == multiset(s)
  {
    if s != [] {
      ReversedContents(s[1..]);
      assert Reversed(s) == Reversed(s[1..]) + [s[0]];
      assert s == [s[0]] + s[1..];
    }
  }

  /** How many entries of s come after e in the order. */
  function CountAbove(s: seq<Entry>, e: Entry): nat {
    if s == [] then 0 else (if Less(e, s[0]) then 1 else 0) + CountAbove(s[1..], e)
  }

  lemma {:induction false} InsertKeepsCount(x: Entry, s: seq<Entry>, e: Entry)
    ensures CountAbove(InsertDescending(x, s), e) == CountAbove(s, e) + if Less(e, x) then 1 else 0
  {
    if s == [] || Leq(s[0], x) {
      assert ([x] + s)[1..] == s;
    } else {
      InsertKeepsCount(x, s[1..], e);
      var t := InsertDescending(x, s[1..]);
      assert ([s[0]] + t)[1..] == t;
    }
  }

  lemma {:induction false} SortKeepsCount(s: seq<Entry>, e: Entry)
    ensures CountAbove(SortDescending(s), e) == CountAbove(s, e)
  {
    if s != [] {
      SortKeepsCount(s[1..], e);
      InsertKeepsCount(s[0], SortDescending(s[1..]), e);
    }
  }

  ghost predicate Distinct(s: seq<Entry>) {
    forall i, j :: 0 <= i < j < |s| ==> s[i] != s[j]
  }

  /** In a strictly descending arrangement an entry's place is the number of entries above it. */
  lemma {:induction false} PlaceIsCountAbove(s: seq<Entry>, k: nat)
    requires Descending(s) && Distinct(s) && k < |s|
    ensures CountAbove(s, s[k]) == k
  {
    if k > 0 {
      PlaceIsCountAbove(s[1..], k - 1);
      assert s[0] != s[k];
    } else {
      NoneAbove(s, s[0]);
    }
  }

  lemma {:induction false} NoneAbove(s: seq<Entry>, e: Entry)
    requires forall i :: 0 <= i < |s| ==> Leq(s[i], e)
    ensures CountAbove(s, e) == 0
  {
    if s != [] {
      NoneAbove(s[1..], e);
    }
  }

  lemma {:induction false} CandidatesAre(data: seq<real>, threshold: real, n: nat, zp: real, scale: real)
    requires scale != 0.0 && n <= |data|
    ensures Distinct(Candidates(data, threshold, n, zp, scale))
    ensures forall e :: e in Candidates(data, threshold, n, zp, scale) <==>
                          0 <= e.index < n && e.value == Score(data[e.index], zp, scale) && e.value >= threshold
  {
    if n > 0 {
      CandidatesAre(data, threshold, n - 1, zp, scale);
      var v := Score(data[n - 1], zp, scale);
      var rest := Candidates(data, threshold, n - 1, zp, scale);
      assert forall e :: e in rest + [Entry(v, n - 1)] <==> e in rest || e == Entry(v, n - 1);
    }
  }

  /** With a positive scale, candidates are the elements whose raw output reaches the scaled threshold. */
  lemma CandidateIff(data: seq<real>, threshold: real, n: nat, zp: real, scale: real, e: Entry)
    requires scale > 0.0 && n <= |data|
    ensures e in Candidates(data, threshold, n, zp, scale) <==>
            0 <= e.index < n && e.value * scale == data[e.index] + zp && data[e.index] + zp >= threshold * scale
  {
    CandidatesAre(data, threshold, n, zp, scale);
    if 0 <= e.index < n {
      ScoreReaches(data[e.index], threshold, zp, scale, e.value);
    }
  }

  lemma ScoreReaches(x: real, threshold: real, zp: real, scale: real, v: real)
    requires scale > 0.0
    ensures v == Score(x, zp, scale) <==> v * scale == x + zp
    ensures Score(x, zp, scale) >= threshold <==> x + zp >= threshold * scale
  {
    var q := Score(x, zp, scale);
    assert q * scale == x + zp;
    Scales(q, threshold, scale);
    Scales(q, v, scale);
  }

  lemma Scales(a: real, b: real, m: real)
    requires m > 0.0
    ensures a < b <==> a * m < b * m
    ensures a == b <==> a * m == b * m
  {
    assert a * m - b * m == (a - b) * m;
  }

  /** How many of the first n elements reach the threshold with a greater output than i, or an equal one further on. */
  function Beaters(data: seq<real>, threshold: real, n: nat, zp: real, scale: real, i: nat): nat
    requires n <= |data| && i < |data|
  {
    if n == 0 then 0 else
      Beaters(data, threshold, n - 1, zp, scale, i)
      + if data[n - 1] + zp >= threshold * scale && (data[n - 1] > data[i] || (data[n - 1] == data[i] && n - 1 > i))
        then 1 else 0
  }

  lemma {:induction false} CountAboveAppend(s: seq<Entry>, x: Entry, e: Entry)
    ensures CountAbove(s + [x], e) == CountAbove(s, e) + if Less(e, x) then 1 else 0
  {
    if s == [] {
      assert s + [x] == [x];
    } else {
      CountAboveAppend(s[1..], x, e);
      assert (s + [x])[1..] == s[1..] + [x];
    }
  }

  lemma {:induction false} BeatersAreAbove(data: seq<real>, threshold: real, n: nat, zp: real, scale: real, i: nat)
    requires scale > 0.0 && n <= |data| && i < |data|
    ensures CountAbove(Candidates(data, threshold, n, zp, scale), Entry(Score(data[i], zp, scale), i))
         == Beaters(data, threshold, n, zp, scale, i)
  {
    if n > 0 {
      BeatersAreAbove(data, threshold, n - 1, zp, scale, i);
      var v := Score(data[n - 1], zp, scale);
      ScoreReaches(data[n - 1], threshold, zp, scale, v);
      ScoreKeepsOrder(data[i], data[n - 1], zp, scale);
      ScoreKeepsOrder(data[n - 1], data[i], zp, scale);
      CountAboveAppend(Candidates(data, threshold, n - 1, zp, scale), Entry(v, n - 1),
                       Entry(Score(data[i], zp, scale), i));
    }
  }

  /**
   * With a positive scale, element i is reported exactly when its raw output reaches the scaled threshold and fewer
   * than four elements that do beat it, a tie going to the higher index; its row is the one after them.
   */
  lemma ReportedIff(data: seq<real>, threshold: real, n: nat, zp: real, scale: real, i: nat)
    requires scale > 0.0 && n <= |data| && i < n
    ensures var rows := Report(Top(Candidates(data, threshold, n, zp, scale), CAPACITY));
            var b := Beaters(data, threshold, n, zp, scale, i);
            && ((exists j :: 0 <= j < |rows| && rows[j].index == i)
                <==> data[i] + zp >= threshold * scale && b < 4)
            && (data[i] + zp >= threshold * scale && b < 4 ==>
                  b < |rows| && rows[b].index == i && rows[b].score * scale == data[i] + zp && rows[b].box == [])
  {
    var s := Candidates(data, threshold, n, zp, scale);
    var v := Score(data[i], zp, scale);
    EntryReportedIff(data, threshold, n, zp, scale, i);
    BeatersAreAbove(data, threshold, n, zp, scale, i);
    ScoreReaches(data[i], threshold, zp, scale, v);
    var top := Top(s, CAPACITY);
    forall j | 0 <= j < |top| && top[j].index == i
      ensures top[j] == Entry(v, i)
    {
      OnlyEntry(data, threshold, n, zp, scale, j);
    }
  }

  /** Every element has one score. */
  lemma OnlyEntry(data: seq<real>, threshold: real, n: nat, zp: real, scale: real, j: nat)
    requires scale != 0.0 && n <= |data| && j < |Top(Candidates(data, threshold, n, zp, scale), CAPACITY)|
    ensures var e := Top(Candidates(data, threshold, n, zp, scale), CAPACITY)[j];
            0 <= e.index < n && e == Entry(Score(data[e.index], zp, scale), e.index)
  {
    TopHolds(Candidates(data, threshold, n, zp, scale), CAPACITY, j);
    CandidatesAre(data, threshold, n, zp, scale);
  }

  /**
   * Element i is reported exactly when its score reaches the threshold and fewer than four reaching elements beat
   * it, a tie going to the higher index; its place in the report is the number of those that do.
   */
  lemma EntryReportedIff(data: seq<real>, threshold: real, n: nat, zp: real, scale: real, i: nat)
    requires scale != 0.0 && n <= |data| && i < n
    ensures var s := Candidates(data, threshold, n, zp, scale);
            var e := Entry(Score(data[i], zp, scale), i);
            && (e in Top(s, CAPACITY) <==> e.value >= threshold && CountAbove(s, e) < CAPACITY)
            && (e in Top(s, CAPACITY) ==>
                  CountAbove(s, e) < |Top(s, CAPACITY)| && Top(s, CAPACITY)[CountAbove(s, e)] == e)
  {
    var s := Candidates(data, threshold, n, zp, scale);
    CandidatesAre(data, threshold, n, zp, scale);
    TopIff(s, Entry(Score(data[i], zp, scale), i), CAPACITY);
  }

  lemma TopIff(s: seq<Entry>, e: Entry, n: nat)
    requires Distinct(s)
    ensures e in Top(s, n) <==> e in s && CountAbove(s, e) < n
    ensures e in Top(s, n) ==> CountAbove(s, e) < |Top(s, n)| && Top(s, n)[CountAbove(s, e)] == e
  {
    SortSorts(s);
    var t := SortDescending(s);
    DistinctKept(s, t);
    SameMembers(s, t, e);
    SortKeepsCount(s, e);
    if e in t {
      var k :| 0 <= k < |t| && t[k] == e;
      PlaceIsCountAbove(t, k);
      HeadHolds(t, e, k, n);
    }
  }

  lemma SameMembers(s: seq<Entry>, t: seq<Entry>, e: Entry)
    requires multiset(s) == multiset(t)
    ensures e in s <==> e in t
  {
    assert e in s <==> e in multiset(s);
    assert e in t <==> e in multiset(t);
  }

  /** The first n of distinct entries hold e exactly when its place is among them. */
  lemma HeadHolds(t: seq<Entry>, e: Entry, k: nat, n: nat)
    requires Distinct(t) && k < |t| && t[k] == e
    ensures var head := if |t| <= n then t else t[..n];
            && (e in head <==> k < n)
            && (e in head ==> k < |head| && head[k] == e)
  {
    var head := if |t| <= n then t else t[..n];
    if k < n {
      assert head[k] == e;
    } else {
      assert forall m :: 0 <= m < |head| ==> head[m] == t[m] && t[m] != t[k];
    }
  }

  lemma {:induction false} DistinctKept(s: seq<Entry>, t: seq<Entry>)
    requires Distinct(s) && multiset(s) == multiset(t)
    ensures Distinct(t)
  {
    forall i, j | 0 <= i < j < |t|
      ensures t[i] != t[j]
    {
      if t[i] == t[j] {
        MultiplicityTwo(t, i, j);
        MultiplicityOne(s, t[i]);
      }
    }
  }

  lemma MultiplicityTwo(t: seq<Entry>, i: nat, j: nat)
    requires i < j < |t| && t[i] == t[j]
    ensures multiset(t)[t[i]] >= 2
  {
    assert t == t[..i] + [t[i]] + t[i + 1..j] + [t[j]] + t[j + 1..];
  }

  lemma {:induction false} MultiplicityOne(s: seq<Entry>, e: Entry)
    requires Distinct(s)
    ensures multiset(s)[e] <= 1
  {
    if s != [] {
      assert s == [s[0]] + s[1..];
      MultiplicityOne(s[1..], e);
      if s[0] == e {
        assert e !in s[1..];
      }
    }
  }

  /** The scale is positive, so ranking scores is ranking the raw outputs. */
  lemma ScoreKeepsOrder(x: real, y: real, zp: real, scale: real)
    requires scale > 0.0
    ensures Score(x, zp, scale) < Score(y, zp, scale) <==> x < y
  {
    var a, b := Score(x, zp, scale), Score(y, zp, scale);
    assert a * scale == x + zp && b * scale == y + zp;
  }

  /** int8 outputs read with zero point 128 give the candidates of the uint8 outputs 128 above them. */
  lemma {:induction false} SignedOutputsAgree(unsigned: seq<real>, signed: seq<real>, threshold: real, n: nat,
      scale: real)
    requires scale != 0.0 && n <= |unsigned| == |signed|
    requires forall i :: 0 <= i < n ==> signed[i] == unsigned[i] - 128.0
    ensures Candidates(signed, threshold, n, 128.0, scale) == Candidates(unsigned, threshold, n, 0.0, scale)
  {
    if n > 0 {
      SignedOutputsAgree(unsigned, signed, threshold, n - 1, scale);
      assert signed[n - 1] + 128.0 == unsigned[n - 1] + 0.0;
    }
  }
}
