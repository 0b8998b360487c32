/**
 * The log ring as a protocol: firmware appends bytes at any moment while ethosu_logd prints and clears. A header
 * read and a byte read are single steps, so appends fall between any two of them. Counters stay below 2^32.
 */
module LogRing {
  import opened Bytes
  import opened Layout
  import opened DevMem

  const COUNTER_LIMIT := 0x1_0000_0000

  /** The shared structure; the producer puts byte n of its stream in slot n % size. */
  datatype Ring = Ring(size: nat, read: nat, write: nat, slots: seq<byte>) {
    function Header(): LogHeader {
      LogHeader(size, read, write)
    }
  }

  datatype Operation = Print | Clear

  /** What main executes for its -C and -c options. */
  function Program(clearBefore: bool, clearAfter: bool): seq<Operation> {
    (if clearBefore then [Clear] else []) + [Print] + (if clearAfter then [Clear] else [])
  }

  /**
   * Ready: between operations. Printing: the header gave `from` and `upto`, position `pos` is next and the output had
   * `mark` bytes. Clearing: the header has been read, the read counter not yet written.
   */
  datatype Phase =
    | Ready(todo: seq<Operation>)
    | Printing(from: nat, pos: nat, upto: nat, mark: nat, todo: seq<Operation>)
    | Clearing(captured: nat, todo: seq<Operation>)

  /** A printed byte: its position, how much had been appended when its slot was read, and its value. */
  datatype Emission = Emission(pos: nat, appended: nat, value: byte)

  /**
   * The ring and the daemon, with what the proofs account for: the whole appended stream, everything printed, the end
   * of the last print, how much had been appended when it began, the positions skipped by a print, each with that
   * length, and the positions a clear passed over unprinted, each with the lengths when the print before it began and
   * when the clear did.
   */
  datatype State = State(ring: Ring, stream: seq<byte>, phase: Phase, output: seq<Emission>, printed: nat, seen: nat,
                         skipped: map<nat, nat>, dropped: map<nat, (nat, nat)>)

  datatype Action = Append(b: byte) | Launch(clearBefore: bool, clearAfter: bool)
                  | BeginPrint | PrintByte | EndPrint | BeginClear | EndClear

  /** The positions from lo up to hi, each with this note. */
  function Span<T>(lo: nat, hi: nat, note: T): (m: map<nat, T>)
    ensures forall p: nat :: p in m <==> lo <= p < hi
    ensures forall p :: p in m ==> m[p] == note
    decreases hi - lo
  {
    if lo >= hi then map[] else Span(lo + 1, hi, note)[lo := note]
  }

  predicate Enabled(s: State, a: Action) {
    match a
    case Append(_) => s.ring.write + 1 < COUNTER_LIMIT && 0 < s.ring.size == |s.ring.slots|
    case Launch(_, _) => s.phase == Ready([])
    case BeginPrint => s.phase.Ready? && s.phase.todo != [] && s.phase.todo[0] == Print
    case PrintByte => s.phase.Printing? && s.phase.pos < s.phase.upto && 0 < s.ring.size == |s.ring.slots|
    case EndPrint => s.phase.Printing? && s.phase.pos >= s.phase.upto
    case BeginClear => s.phase.Ready? && s.phase.todo != [] && s.phase.todo[0] == Clear
    case EndClear => s.phase.Clearing?
  }

  function Step(s: State, a: Action): State
    requires Enabled(s, a)
  {
    var r := s.ring;
    match a
    case Append(b) =>
      s.(ring := r.(slots := r.slots[r.write % r.size := b], write := r.write + 1), stream := s.stream + [b])
    case Launch(cb, ca) =>
      s.(phase := Ready(Program(cb, ca)))
    case BeginPrint =>
      s.(phase := Printing(r.Header().Start(), r.Header().Start(), r.write, |s.output|, s.phase.todo[1..]),
         seen := |s.stream|, skipped := s.skipped + Span(r.read, r.Header().Start(), |s.stream|))
    case PrintByte =>
      s.(phase := s.phase.(pos := s.phase.pos + 1),
         output := s.output + [Emission(s.phase.pos, |s.stream|, r.slots[s.phase.pos % r.size])])
    case EndPrint =>
      s.(phase := Ready(s.phase.todo), printed := s.phase.upto)
    case BeginClear =>
      s.(phase := Clearing(r.write, s.phase.todo[1..]),
         dropped := s.dropped + Span(s.printed, r.write, (s.seen, |s.stream|)))
    case EndClear =>
      s.(phase := Ready(s.phase.todo), ring := r.(read := s.phase.captured))
  }

  predicate CanRun(s: State, actions: seq<Action>)
    decreases |actions|
  {
    actions == [] || (Enabled(s, actions[0]) && CanRun(Step(s, actions[0]), actions[1..]))
  }

  function Run(s: State, actions: seq<Action>): State
    requires CanRun(s, actions)
    decreases |actions|
  {
    if actions == [] then s else Run(Step(s, actions[0]), actions[1..])
  }

  predicate Initial(s: State) {
    && LOG_SIZE_MIN <= s.ring.size <= LOG_SIZE_MAX && |s.ring.slots| == s.ring.size
    && s.ring.read == s.ring.write == 0 && s.stream == [] && s.phase == Ready([])
    && s.output == [] && s.printed == s.seen == 0 && s.skipped == map[] && s.dropped == map[]
  }

  /** The newest appended position, of the first n, that shares a slot with p. */
  function Latest(p: nat, n: nat, size: nat): nat
    requires p < n && size > 0
  {
    MulMono(0, (n - 1 - p) / size, size);
    p + (n - 1 - p) / size * size
  }

  /** It is p itself exactly when fewer than `size` bytes followed p. */
  lemma LatestIs(p: nat, n: nat, size: nat)
    requires p < n && size > 0
    ensures var q := Latest(p, n, size);
            && n - size <= q < n && p <= q && q % size == p % size
            && (q == p <==> n <= p + size)
  {
    var k := (n - 1 - p) / size;
    var q := Latest(p, n, size);
    DivModUnique(q, size, p / size + k, p % size);
    if n > p + size {
      DivAtLeast(n - 1 - p, size, 1);
      MulMono(1, k, size);
    } else {
      DivBelow(n - 1 - p, size, 1);
    }
  }

  /** Positions less than `size` apart have different slots. */
  lemma SlotsDiffer(p: nat, q: nat, size: nat)
    requires p < q < p + size
    ensures p % size != q % size
  {
    if p % size == q % size {
      var d := q / size - p / size;
      assert d * size == q - p;
      if d >= 1 { MulMono(1, d, size); } else { MulMono(d, 0, size); }
    }
  }

  /** The ring holds the last `size` bytes of the stream. */
  ghost predicate Faithful(r: Ring, stream: seq<byte>) {
    && r.write == |stream| < COUNTER_LIMIT
    && 0 < r.size == |r.slots|
    && forall p: nat :: |stream| - r.size <= p < |stream| ==> r.slots[p % r.size] == stream[p]
  }

  /** Every printed byte is the newest one its slot had held, of the bytes appended by then. */
  ghost predicate Explained(e: Emission, stream: seq<byte>, size: nat) {
    e.pos < e.appended <= |stream| && size > 0 && e.value == stream[Latest(e.pos, e.appended, size)]
  }

  /** How much of what lies between the counters the ring still holds. */
  function Unread(read: nat, write: nat, size: nat): (n: nat)
    requires read <= write
    ensures n == size || n == write - read
    ensures n <= size && n <= write - read
  {
    if write - read < size then write - read else size
  }

  ghost predicate Inv(s: State) {
    && Faithful(s.ring, s.stream)
    && s.ring.read <= s.ring.write && s.printed <= s.ring.write && s.seen <= |s.stream|
    && (s.phase.Printing? ==> s.ring.read <= s.seen)
    && (forall i :: 0 <= i < |s.output| ==> Explained(s.output[i], s.stream, s.ring.size))
    && (forall p :: p in s.skipped ==> p + s.ring.size < s.skipped[p] <= |s.stream|)
    && (forall p :: p in s.dropped ==> s.dropped[p].0 <= p < s.dropped[p].1 <= |s.stream|)
    && match s.phase
       case Ready(_) => s.printed == s.seen
       case Printing(from, pos, upto, mark, _) =>
         && from <= pos <= upto == s.seen && from == s.seen - Unread(s.ring.read, s.seen, s.ring.size)
         && mark + (pos - from) == |s.output|
         && (forall k :: mark <= k < |s.output| ==> s.output[k].pos == from + (k - mark))
       case Clearing(captured, _) => s.printed == s.seen && s.ring.read <= captured <= s.ring.write
  }

  lemma AppendKeepsFaithful(r: Ring, stream: seq<byte>, b: byte)
    requires Faithful(r, stream) && r.write + 1 < COUNTER_LIMIT
    ensures Faithful(r.(slots := r.slots[r.write % r.size := b], write := r.write + 1), stream + [b])
  {
    forall p: nat | |stream| + 1 - r.size <= p < |stream|
      ensures p % r.size != r.write % r.size
    {
      SlotsDiffer(p, r.write, r.size);
    }
  }

  lemma SlotHoldsLatest(r: Ring, stream: seq<byte>, p: nat)
    requires Faithful(r, stream) && p < |stream|
    ensures r.slots[p % r.size] == stream[Latest(p, |stream|, r.size)]
  {
    LatestIs(p, |stream|, r.size);
  }

  lemma AppendKeepsInv(s: State, b: byte)
    requires Inv(s) && Enabled(s, Append(b))
    ensures Inv(Step(s, Append(b)))
  {
    AppendKeepsFaithful(s.ring, s.stream, b);
    var t := Step(s, Append(b));
    forall i | 0 <= i < |t.output|
      ensures Explained(t.output[i], t.stream, t.ring.size)
    {
      assert Explained(s.output[i], s.stream, s.ring.size);
      LatestIs(t.output[i].pos, t.output[i].appended, t.ring.size);
    }
  }

  lemma PrintByteKeepsInv(s: State)
    requires Inv(s) && Enabled(s, PrintByte)
    ensures Inv(Step(s, PrintByte))
  {
    SlotHoldsLatest(s.ring, s.stream, s.phase.pos);
    var t := Step(s, PrintByte);
    assert Explained(t.output[|s.output|], t.stream, t.ring.size);
    assert forall i :: 0 <= i < |s.output| ==> t.output[i] == s.output[i];
  }

  lemma StepKeepsInv(s: State, a: Action)
    requires Inv(s) && Enabled(s, a)
    ensures Inv(Step(s, a))
  {
    match a
    case Append(b) => AppendKeepsInv(s, b);
    case PrintByte => PrintByteKeepsInv(s);
    case _ =>
  }

  /** The invariant holds after every interleaving of appends, prints and clears. */
  lemma {:induction false} RunKeepsInv(s: State, actions: seq<Action>)
    requires Inv(s) && CanRun(s, actions)
    ensures Inv(Run(s, actions))
    decreases |actions|
  {
    if actions != [] {
      StepKeepsInv(s, actions[0]);
      RunKeepsInv(Step(s, actions[0]), actions[1..]);
    }
  }

  lemma ReachableInv(s: State, actions: seq<Action>)
    requires Initial(s) && CanRun(s, actions)
    ensures Inv(Run(s, actions))
  {
    RunKeepsInv(s, actions);
  }

  /**
   * A printed byte is the one appended at its position exactly as far as positions go when the producer was no more
   * than a whole ring ahead; otherwise it is a later byte that overwrote the slot.
   */
  lemma EmissionIsItsByteIff(s: State, actions: seq<Action>, i: nat)
    requires Initial(s) && CanRun(s, actions) && i < |Run(s, actions).output|
    ensures var t := Run(s, actions);
            var e := t.output[i];
            && Explained(e, t.stream, t.ring.size)
            && (Latest(e.pos, e.appended, t.ring.size) == e.pos <==> e.appended <= e.pos + t.ring.size)
  {
    ReachableInv(s, actions);
    var t := Run(s, actions);
    LatestIs(t.output[i].pos, t.output[i].appended, t.ring.size);
  }

  function Values(output: seq<Emission>): (v: seq<byte>)
    ensures |v| == |output| && forall i :: 0 <= i < |v| ==> v[i] == output[i].value
  {
    seq(|output|, i requires 0 <= i < |output| => output[i].value)
  }

  lemma {:induction false} RunConcat(s: State, a: seq<Action>, b: seq<Action>)
    ensures CanRun(s, a + b) <==> CanRun(s, a) && CanRun(Run(s, a), b)
    ensures CanRun(s, a + b) ==> Run(s, a + b) == Run(Run(s, a), b)
    decreases |a|
  {
    if a == [] {
      assert a + b == b;
    } else {
      assert (a + b)[0] == a[0] && (a + b)[1..] == a[1..] + b;
      if Enabled(s, a[0]) {
        RunConcat(Step(s, a[0]), a[1..], b);
      }
    }
  }

  /** Nothing but byte steps of the print and appends. */
  predicate DuringPrint(actions: seq<Action>) {
    forall i :: 0 <= i < |actions| ==> actions[i].Append? || actions[i] == PrintByte
  }

  /** Same print, later: it keeps its bounds and what it has put out, and the stream only grows. */
  ghost predicate SamePrint(s: State, t: State) {
    && s.phase.Printing? && t.phase.Printing?
    && t.phase.from == s.phase.from && t.phase.upto == s.phase.upto && t.phase.mark == s.phase.mark
    && t.phase.todo == s.phase.todo && t.ring.size == s.ring.size && t.ring.read == s.ring.read
    && s.stream <= t.stream && s.output <= t.output
  }

  lemma {:induction false} DuringKeeps(s: State, actions: seq<Action>)
    requires s.phase.Printing? && CanRun(s, actions) && DuringPrint(actions)
    ensures SamePrint(s, Run(s, actions))
    decreases |actions|
  {
    if actions != [] {
      DuringKeeps(Step(s, actions[0]), actions[1..]);
    }
  }

  /** A print as it may run: begun, its byte steps and appends in any order, ended. */
  function PrintRun(during: seq<Action>): (actions: seq<Action>)
    ensures |actions| == |during| + 2 && actions[0] == BeginPrint && actions[1..] == during + [EndPrint]
  {
    [BeginPrint] + (during + [EndPrint])
  }

  /** The state before the last step of such a print. */
  lemma PrintEnds(m: State, during: seq<Action>) returns (e: State)
    requires Inv(m) && CanRun(m, PrintRun(during)) && DuringPrint(during)
    ensures Inv(e) && Enabled(m, BeginPrint) && SamePrint(Step(m, BeginPrint), e)
    ensures Enabled(e, EndPrint) && Run(m, PrintRun(during)) == Step(e, EndPrint)
  {
    var p := Step(m, BeginPrint);
    StepKeepsInv(m, BeginPrint);
    RunConcat(p, during, [EndPrint]);
    RunKeepsInv(p, during);
    DuringKeeps(p, during);
    e := Run(p, during);
    assert [EndPrint][1..] == [];
  }

  /**
   * A print that begins in m, whatever is appended meanwhile, puts out exactly the last min(write - read, size) bytes
   * of the stream as it was in m, in order, unless the producer gets more than a ring ahead of the first of them.
   */
  lemma UnovertakenPrint(m: State, during: seq<Action>)
    requires Inv(m) && CanRun(m, PrintRun(during)) && DuringPrint(during)
    requires var n := Unread(m.ring.read, m.ring.write, m.ring.size);
             |Run(m, PrintRun(during)).stream| <= |m.stream| - n + m.ring.size
    ensures var t, n := Run(m, PrintRun(during)), Unread(m.ring.read, m.ring.write, m.ring.size);
            && m.output <= t.output && m.stream <= t.stream && n <= |m.stream|
            && Values(t.output[|m.output|..]) == m.stream[|m.stream| - n..]
            && t.phase == Ready(m.phase.todo[1..]) && t.ring.read == m.ring.read
  {
    var e := PrintEnds(m, during);
    StretchPrinted(e, m.stream);
  }

  /** The end of a print that was not overtaken. */
  lemma StretchPrinted(e: State, stream: seq<byte>)
    requires Inv(e) && e.phase.Printing? && e.phase.pos >= e.phase.upto && stream <= e.stream
    requires e.phase.upto == |stream| && |e.stream| <= e.phase.from + e.ring.size
    ensures e.phase.mark <= |e.output| && e.phase.from <= |stream|
    ensures Values(e.output[e.phase.mark..]) == stream[e.phase.from..]
  {
    forall k | e.phase.mark <= k < |e.output|
      ensures e.output[k].value == stream[e.phase.from + (k - e.phase.mark)]
    {
      assert Explained(e.output[k], e.stream, e.ring.size);
      LatestIs(e.output[k].pos, e.output[k].appended, e.ring.size);
    }
  }

  /** The bytes of the window show this ring. */
  ghost predicate Represents(region: seq<byte>, r: Ring) {
    && |region| >= HEADER_SIZE + r.size
    && HeaderOf(region) == r.Header()
    && region[HEADER_SIZE..HEADER_SIZE + r.size] == r.slots
  }

  /** Undisturbed, Log::print outputs exactly the last min(write - read, size) bytes of the whole stream. */
  lemma PrintShowsTail(region: seq<byte>, s: State)
    requires Inv(s) && Represents(region, s.ring) && LOG_SIZE_MIN <= s.ring.size <= LOG_SIZE_MAX
    ensures var unread := s.ring.write - s.ring.read;
            var n := if unread < s.ring.size then unread else s.ring.size;
            PrintSpec(region) == Printed(s.stream[|s.stream| - n..], false)
  {
    PrintFromShows(region, s.ring, s.stream, s.ring.Header().Start());
  }

  lemma {:induction false} PrintFromShows(region: seq<byte>, r: Ring, stream: seq<byte>, p: nat)
    requires Faithful(r, stream) && Represents(region, r) && |stream| - r.size <= p <= |stream|
    ensures PrintFrom(region, p, r.write, r.size) == Printed(stream[p..], false)
    decreases r.write - p
  {
    if p < r.write {
      PrintFromShows(region, r, stream, p + 1);
      assert region[SlotOffset(p, r.size)] == region[HEADER_SIZE..HEADER_SIZE + r.size][p % r.size];
      assert stream[p..] == [stream[p]] + stream[p + 1..];
    }
  }

  /** Byte steps of a print, and its end. */
  function ByteSteps(k: nat): seq<Action> {
    if k == 0 then [EndPrint] else [PrintByte] + ByteSteps(k - 1)
  }

  lemma OneMoreByte(output: seq<Emission>, e: Emission, whole: seq<Emission>, stream: seq<byte>, pos: nat)
    requires pos < |stream| && e.value == stream[pos] && output + [e] <= whole
    requires Values(whole[|output| + 1..]) == stream[pos + 1..]
    ensures output <= whole && Values(whole[|output|..]) == stream[pos..]
  {
    assert whole[|output|] == e;
    assert Values(whole[|output|..]) == [e.value] + Values(whole[|output| + 1..]);
  }

  /** Without appends there are as many byte steps as bytes left, and they put out the rest of the stream. */
  lemma {:induction false} QuietBytes(s: State, k: nat)
    requires Inv(s) && s.phase.Printing? && s.phase.upto == |s.stream|
    ensures CanRun(s, ByteSteps(k)) <==> k == s.phase.upto - s.phase.pos
    ensures CanRun(s, ByteSteps(k)) ==>
              var t := Run(s, ByteSteps(k));
              && t == s.(phase := Ready(s.phase.todo), printed := s.phase.upto, output := t.output)
              && s.output <= t.output && Values(t.output[|s.output|..]) == s.stream[s.phase.pos..]
    decreases k
  {
    if k > 0 && Enabled(s, PrintByte) {
      var s' := Step(s, PrintByte);
      StepKeepsInv(s, PrintByte);
      QuietBytes(s', k - 1);
      if CanRun(s', ByteSteps(k - 1)) {
        var t := Run(s', ByteSteps(k - 1));
        OneMoreByte(s.output, s'.output[|s.output|], t.output, s.stream, s.phase.pos);
      }
    }
  }

  function PrintSteps(k: nat): (actions: seq<Action>)
    ensures actions != [] && actions[0] == BeginPrint && actions[1..] == ByteSteps(k)
  {
    [BeginPrint] + ByteSteps(k)
  }

  /**
   * Undisturbed, a print takes exactly min(write - read, size) byte steps, puts out exactly that many last bytes of the
   * whole stream, and changes nothing else.
   */
  lemma QuietPrint(s: State, k: nat)
    requires Inv(s) && s.phase.Ready? && s.phase.todo != [] && s.phase.todo[0] == Print
    ensures var n := Unread(s.ring.read, s.ring.write, s.ring.size);
            && n <= |s.stream| && (CanRun(s, PrintSteps(k)) <==> k == n)
            && (k == n ==>
                  var t := Run(s, PrintSteps(k));
                  && t.ring == s.ring && t.stream == s.stream && t.phase == Ready(s.phase.todo[1..]) && Inv(t)
                  && t.printed == |s.stream| && t.dropped == s.dropped
                  && s.output <= t.output && Values(t.output[|s.output|..]) == s.stream[|s.stream| - n..])
  {
    StepKeepsInv(s, BeginPrint);
    QuietBytes(Step(s, BeginPrint), k);
    if CanRun(s, PrintSteps(k)) {
      RunKeepsInv(s, PrintSteps(k));
    }
  }

  /** Log::clear is the EndClear step on the bytes it was captured from. */
  lemma ClearRefines(region: seq<byte>, r: Ring)
    requires Represents(region, r)
    ensures Represents(Cleared(region), r.(read := r.write))
  {
    ClearedHeader(region);
    assert Cleared(region)[HEADER_SIZE..HEADER_SIZE + r.size] == Cleared(region)[HEADER_SIZE..][..r.size];
    assert region[HEADER_SIZE..HEADER_SIZE + r.size] == region[HEADER_SIZE..][..r.size];
  }

  /**
   * One run of the program on the bytes: it prints the last min(write - read, size) bytes of the stream, or nothing
   * after -C, and does not throw; read is then at write exactly if an option was given, and no byte changes otherwise.
   */
  lemma RunOnRing(region: seq<byte>, s: State, clearBefore: bool, clearAfter: bool)
    requires Inv(s) && Represents(region, s.ring) && LOG_SIZE_MIN <= s.ring.size <= LOG_SIZE_MAX
    ensures var n := Unread(s.ring.read, s.ring.write, s.ring.size);
            var (printed, after) := RunSpec(region, clearBefore, clearAfter);
            && printed == Printed(if clearBefore then [] else s.stream[|s.stream| - n..], false)
            && Represents(after, s.ring.(read := if clearBefore || clearAfter then s.ring.write else s.ring.read))
            && (!clearBefore && !clearAfter ==> after == region)
  {
    PrintShowsTail(region, s);
    ClearRefines(region, s.ring);
    ClearedHeader(region);
    var cleared := s.ring.(read := s.ring.write);
    ClearRefines(Cleared(region), cleared);
    PrintFromShows(Cleared(region), cleared, s.stream, |s.stream|);
  }

  function ClearSteps(on: bool): seq<Action> {
    if on then [BeginClear, EndClear] else []
  }

  /** A whole run of the program without appends in between. */
  function RunSteps(clearBefore: bool, clearAfter: bool, k: nat): (actions: seq<Action>)
    ensures actions != [] && actions[0] == Launch(clearBefore, clearAfter)
    ensures actions[1..] == ClearSteps(clearBefore) + (PrintSteps(k) + ClearSteps(clearAfter))
  {
    [Launch(clearBefore, clearAfter)] + (ClearSteps(clearBefore) + (PrintSteps(k) + ClearSteps(clearAfter)))
  }

  /** Undisturbed, a clear moves read to write. */
  lemma QuietClear(s: State, on: bool)
    requires Inv(s) && s.phase.Ready? && (on ==> s.phase.todo != [] && s.phase.todo[0] == Clear)
    ensures CanRun(s, ClearSteps(on))
    ensures var t := Run(s, ClearSteps(on));
            && Inv(t) && t.stream == s.stream && t.output == s.output && t.printed == s.printed
            && t.ring == (if on then s.ring.(read := s.ring.write) else s.ring)
            && t.phase == Ready(if on then s.phase.todo[1..] else s.phase.todo)
            && (!on || s.printed == |s.stream| ==> t.dropped == s.dropped)
  {
    if on {
      ClearRun(s);
      StepKeepsInv(s, BeginClear);
      StepKeepsInv(Step(s, BeginClear), EndClear);
    }
  }

  lemma ClearRun(s: State)
    requires Enabled(s, BeginClear)
    ensures CanRun(s, ClearSteps(true)) && Run(s, ClearSteps(true)) == Step(Step(s, BeginClear), EndClear)
  {
    var b := Step(s, BeginClear);
    assert ClearSteps(true)[1..] == [EndClear] && [EndClear][1..] == [];
    assert CanRun(b, [EndClear]) && Run(b, [EndClear]) == Step(b, EndClear);
  }

  /** What a quiet run leaves behind. */
  ghost predicate QuietResult(s: State, t: State, clearBefore: bool, clearAfter: bool)
    requires s.ring.read <= s.ring.write
  {
    var n := if clearBefore then 0 else Unread(s.ring.read, s.ring.write, s.ring.size);
    && t.ring == s.ring.(read := if clearBefore || clearAfter then s.ring.write else s.ring.read)
    && t.stream == s.stream && t.phase == Ready([]) && n <= |s.stream|
    && s.output <= t.output && Values(t.output[|s.output|..]) == s.stream[|s.stream| - n..]
    && (!clearBefore ==> t.dropped == s.dropped)
  }

  /** The last two operations: print, and perhaps clear. */
  lemma QuietEnd(c: State, clearAfter: bool, k: nat)
    requires Inv(c) && c.phase == Ready([Print] + if clearAfter then [Clear] else [])
    ensures var actions := PrintSteps(k) + ClearSteps(clearAfter);
            && (CanRun(c, actions) <==> k == Unread(c.ring.read, c.ring.write, c.ring.size))
            && (CanRun(c, actions) ==> QuietResult(c, Run(c, actions), false, clearAfter))
  {
    RunConcat(c, PrintSteps(k), ClearSteps(clearAfter));
    QuietPrint(c, k);
    if CanRun(c, PrintSteps(k)) {
      QuietClear(Run(c, PrintSteps(k)), clearAfter);
    }
  }

  lemma QuietRun(s: State, clearBefore: bool, clearAfter: bool, k: nat)
    requires Inv(s) && s.phase == Ready([])
    ensures var actions := RunSteps(clearBefore, clearAfter, k);
            && (CanRun(s, actions) <==>
                  k == if clearBefore then 0 else Unread(s.ring.read, s.ring.write, s.ring.size))
            && (CanRun(s, actions) ==> QuietResult(s, Run(s, actions), clearBefore, clearAfter))
  {
    var l := Step(s, Launch(clearBefore, clearAfter));
    StepKeepsInv(s, Launch(clearBefore, clearAfter));
    RunConcat(l, ClearSteps(clearBefore), PrintSteps(k) + ClearSteps(clearAfter));
    QuietClear(l, clearBefore);
    QuietEnd(Run(l, ClearSteps(clearBefore)), clearAfter, k);
  }

  /** Undisturbed, the protocol and the program on the bytes do the same. */
  lemma QuietRunRefines(region: seq<byte>, s: State, clearBefore: bool, clearAfter: bool, k: nat)
    requires Inv(s) && s.phase == Ready([]) && CanRun(s, RunSteps(clearBefore, clearAfter, k))
    requires Represents(region, s.ring) && LOG_SIZE_MIN <= s.ring.size <= LOG_SIZE_MAX
    ensures var t := Run(s, RunSteps(clearBefore, clearAfter, k));
            var (printed, after) := RunSpec(region, clearBefore, clearAfter);
            && s.output <= t.output && printed == Printed(Values(t.output[|s.output|..]), false)
            && Represents(after, t.ring) && t.stream == s.stream && t.phase == Ready([])
  {
    RunOnRing(region, s, clearBefore, clearAfter);
    QuietRun(s, clearBefore, clearAfter, k);
  }

  // Successive runs of "ethosu_logd -c": print, then clear.

  predicate ReadAndClear(actions: seq<Action>) {
    forall i :: 0 <= i < |actions| ==> actions[i].Launch? ==> actions[i] == Launch(false, true)
  }

  /** Every position below this one is accounted for. */
  function Frontier(s: State): nat {
    match s.phase
    case Ready(todo) => if todo == [Clear] then s.printed else s.ring.read
    case Printing(_, pos, _, _, _) => pos
    case Clearing(captured, _) => captured
  }

  ghost predicate InCycle(s: State) {
    match s.phase
    case Ready(todo) => todo == [] || todo == [Print, Clear] || todo == [Clear]
    case Printing(_, _, _, _, todo) => todo == [Clear]
    case Clearing(_, todo) => todo == []
  }

  ghost predicate Emitted(output: seq<Emission>, p: nat) {
    exists i :: 0 <= i < |output| && output[i].pos == p
  }

  ghost predicate Increasing(output: seq<Emission>) {
    forall i, j :: 0 <= i < j < |output| ==> output[i].pos < output[j].pos
  }

  /** Each position below f was printed once, skipped or dropped, only one of these, and none from f on. */
  ghost predicate Partition(output: seq<Emission>, skipped: map<nat, nat>, dropped: map<nat, (nat, nat)>, f: nat) {
    && Increasing(output)
    && (forall i :: 0 <= i < |output| ==> output[i].pos < f)
    && (forall p :: p in skipped ==> p < f && p !in dropped)
    && (forall p :: p in dropped ==> p < f)
    && (forall p: nat :: p < f ==> (Emitted(output, p) <==> p !in skipped && p !in dropped))
  }

  lemma NotEmittedFrom(output: seq<Emission>, skipped: map<nat, nat>, dropped: map<nat, (nat, nat)>, f: nat, p: nat)
    requires Partition(output, skipped, dropped, f) && p >= f
    ensures !Emitted(output, p) && p !in skipped && p !in dropped
  {
  }

  lemma EmitKeepsPartition(output: seq<Emission>, skipped: map<nat, nat>, dropped: map<nat, (nat, nat)>, e: Emission)
    requires Partition(output, skipped, dropped, e.pos)
    ensures Partition(output + [e], skipped, dropped, e.pos + 1)
  {
    var after := output + [e];
    forall p: nat | p < e.pos + 1
      ensures Emitted(after, p) <==> p !in skipped && p !in dropped
    {
      if p == e.pos {
        assert after[|output|].pos == p;
        NotEmittedFrom(output, skipped, dropped, e.pos, p);
      } else if Emitted(output, p) {
        var i :| 0 <= i < |output| && output[i].pos == p;
        assert after[i].pos == p;
      }
    }
  }

  lemma PassKeepsPartition(output: seq<Emission>, skipped: map<nat, nat>, dropped: map<nat, (nat, nat)>, f: nat,
        hi: nat, read: nat, counters: (nat, nat))
    requires Partition(output, skipped, dropped, f) && f <= hi
    ensures Partition(output, skipped + Span(f, hi, read), dropped, hi)
    ensures Partition(output, skipped, dropped + Span(f, hi, counters), hi)
  {
    forall p: nat | f <= p < hi
      ensures !Emitted(output, p) && p !in skipped && p !in dropped
    {
      NotEmittedFrom(output, skipped, dropped, f, p);
    }
  }

  ghost predicate Accounted(s: State) {
    InCycle(s) && Partition(s.output, s.skipped, s.dropped, Frontier(s))
  }

  lemma StepKeepsAccount(s: State, a: Action)
    requires Inv(s) && Accounted(s) && Enabled(s, a) && (a.Launch? ==> a == Launch(false, true))
    ensures Accounted(Step(s, a))
  {
    match a
    case PrintByte =>
      EmitKeepsPartition(s.output, s.skipped, s.dropped,
                         Emission(s.phase.pos, |s.stream|, s.ring.slots[s.phase.pos % s.ring.size]));
    case BeginPrint =>
      PassKeepsPartition(s.output, s.skipped, s.dropped, s.ring.read, s.ring.Header().Start(), s.ring.write,
                         (s.printed, s.ring.write));
    case BeginClear =>
      PassKeepsPartition(s.output, s.skipped, s.dropped, s.printed, s.ring.write, s.ring.write,
                         (s.printed, s.ring.write));
    case _ =>
  }

  lemma {:induction false} RunKeepsAccount(s: State, actions: seq<Action>)
    requires Inv(s) && Accounted(s) && CanRun(s, actions) && ReadAndClear(actions)
    ensures Accounted(Run(s, actions))
    decreases |actions|
  {
    if actions != [] {
      StepKeepsInv(s, actions[0]);
      StepKeepsAccount(s, actions[0]);
      RunKeepsAccount(Step(s, actions[0]), actions[1..]);
    }
  }

  /**
   * After any number of -c runs, with appends at any point: what was printed is in strictly increasing order, and a
   * position behind the read counter was not printed exactly when it was skipped, more than `size` bytes having
   * followed it when a print began, or dropped, having been appended after a print began and before the clear did.
   */
  lemma ReadAndClearPartition(s: State, actions: seq<Action>, p: nat)
    requires Initial(s) && CanRun(s, actions) && ReadAndClear(actions)
    requires var t := Run(s, actions); t.phase == Ready([]) && p < t.ring.read
    ensures var t := Run(s, actions);
            && (!Emitted(t.output, p) <==> p in t.skipped || p in t.dropped)
            && !(p in t.skipped && p in t.dropped)
            && (p in t.skipped ==> p + t.ring.size < t.skipped[p] <= |t.stream|)
            && (p in t.dropped ==> t.dropped[p].0 <= p < t.dropped[p].1 <= |t.stream|)
            && Increasing(t.output)
  {
    RunKeepsInv(s, actions);
    RunKeepsAccount(s, actions);
  }
}
