/**
 * Any client of the driver library: a program that constructs objects, copies and destroys them, in any order, with
 * any call of the kernel failing. Objects are destroyed when their variables are, a device without regard to others.
 */
module Sessions {
  import opened Bytes
  import opened Ownership
  import opened DriverLibrary

  /** One statement of the client; all arguments are its variables, and `name` is the one defined or destroyed. */
  datatype Command =
    | OpenDevice(name: nat)
    | NewBuffer(device: nat, name: nat)
    | NewNetwork(device: nat, model: Option<nat>, name: nat)
    | NewInference(network: nat, ifm: seq<nat>, ofm: seq<nat>, counters: nat, name: nat)
    | NewInferenceOver(network: nat, arena: nat, counters: nat, name: nat)
    | Copy(from: nat, name: nat)
    | Destroy(name: nat)

  /** The object a variable denotes has this variable as one owner, and no variable owns anything else. */
  ghost predicate Booked(t: Table, held: map<nat, Id>, x: Id, v: nat) {
    && (v in held ==> held[v] in t.owners)
    && (x in t.owners ==> t.owners[x][Handle(v)] == if v in held && held[v] == x then 1 else 0)
  }

  /** A device is not copied. */
  predicate Sole(t: Table, held: map<nat, Id>, v: nat, w: nat) {
    v in held && w in held && held[v] == held[w] && held[v] in t.objects && t.objects[held[v]].kind == Device ==> v == w
  }

  ghost predicate Matches(t: Table, held: map<nat, Id>) {
    && (forall x, v {:trigger Booked(t, held, x, v)} :: Booked(t, held, x, v))
    && (forall v, w {:trigger Sole(t, held, v, w)} :: Sole(t, held, v, w))
  }

  predicate Names(objects: map<Id, Object>, held: map<nat, Id>, v: nat, kind: Kind) {
    v in held && held[v] in objects && objects[held[v]].kind == kind
  }

  /** The network's device still exists. */
  predicate HasDevice(objects: map<Id, Object>, held: map<nat, Id>, v: nat)
    requires Names(objects, held, v, Network)
  {
    var d := objects[held[v]].device;
    d.Some? && d.value in objects && objects[d.value].kind == Device && objects[d.value].fd.Some?
  }

  predicate AllBuffers(objects: map<Id, Object>, held: map<nat, Id>, vs: seq<nat>) {
    forall b :: b in vs ==> Names(objects, held, b, Buffer)
  }

  /**
   * The statements C++ gives a meaning: variables are defined once and have the right types, and no arena is made on
   * a destroyed device or for sixteen inputs.
   */
  predicate Legal(objects: map<Id, Object>, held: map<nat, Id>, c: Command) {
    match c
    case OpenDevice(v) => v !in held
    case NewBuffer(d, v) => v !in held && Names(objects, held, d, Device)
    case NewNetwork(d, m, v) =>
      v !in held && Names(objects, held, d, Device) && (m.Some? ==> Names(objects, held, m.value, Buffer))
    case NewInference(n, ifm, ofm, _, v) =>
      && v !in held && Names(objects, held, n, Network) && HasDevice(objects, held, n) && |ifm| != 16
      && AllBuffers(objects, held, ifm) && AllBuffers(objects, held, ofm)
    case NewInferenceOver(n, a, _, v) =>
      v !in held && Names(objects, held, n, Network) && Names(objects, held, a, Buffer)
    case Copy(f, v) => v !in held && f in held && !Names(objects, held, f, Device)
    case Destroy(v) => v in held
  }

  lemma HeldIsOwned(t: Table, held: map<nat, Id>, v: nat)
    requires Good(t) && Matches(t, held) && v in held
    ensures held[v] in t.objects && held[v] in t.owners && Handle(v) in t.owners[held[v]] && Owned(t, held[v])
    ensures IsOpen(t, held[v]) && (t.objects[held[v]].kind == Buffer ==> t.objects[held[v]].mapping.Some?)
  {
    assert Booked(t, held, held[v], v) && ObjectOk(t, held[v]);
  }

  lemma CreatedMatches(t: Table, t': Table, x: Id, kind: Kind, refs: seq<Id>, device: Option<Id>, h: nat,
        held: map<nat, Id>)
    requires Good(t) && Matches(t, held) && Created(t, t', x, kind, refs, device, h) && h !in held
    ensures Matches(t', held[h := x])
  {
    var held' := held[h := x];
    forall y, v
      ensures Booked(t', held', y, v)
    {
      assert ObjectOk(t, x) && Booked(t, held, y, v);
      if v in held {
        assert PlusAt(t, t', x, refs, held[v]);
      }
      if y != x {
        assert PlusAt(t, t', x, refs, y);
      }
    }
    forall v, w
      ensures Sole(t', held', v, w)
    {
      assert Sole(t, held, v, w) && ObjectOk(t, x) && Booked(t, held, x, v) && Booked(t, held, x, w);
    }
  }

  lemma AddedBufferMatches(t: Table, t': Table, a: Id, held: map<nat, Id>)
    requires Good(t) && Matches(t, held) && AddedBuffer(t, t', a)
    ensures Matches(t', held)
  {
    forall y, v
      ensures Booked(t', held, y, v)
    {
      assert ObjectOk(t, a) && Booked(t, held, y, v);
    }
    forall v, w
      ensures Sole(t', held, v, w)
    {
      assert Sole(t, held, v, w) && ObjectOk(t, a) && Booked(t, held, a, v);
    }
  }

  lemma GrantMatches(t: Table, x: Id, h: nat, held: map<nat, Id>)
    requires Matches(t, held) && x in t.owners && h !in held && x in t.objects && t.objects[x].kind != Device
    ensures Matches(Grant(t, x, h), held[h := x])
  {
    var t', held' := Grant(t, x, h), held[h := x];
    forall y, v
      ensures Booked(t', held', y, v)
    {
      assert Booked(t, held, y, v);
    }
    forall v, w
      ensures Sole(t', held', v, w)
    {
      assert Sole(t, held, v, w);
    }
  }

  lemma RevokeMatches(t: Table, h: nat, held: map<nat, Id>)
    requires Matches(t, held) && h in held && held[h] in t.owners
    ensures Matches(Revoke(t, held[h], h), held - {h})
  {
    var t', held' := Revoke(t, held[h], h), held - {h};
    forall y, v
      ensures Booked(t', held', y, v)
    {
      assert Booked(t, held, y, v);
    }
    forall v, w
      ensures Sole(t', held', v, w)
    {
      assert Sole(t, held, v, w);
    }
  }

  /** What a release destroys is denoted by no variable. */
  lemma KeptMatches(t: Table, t': Table, F: set<Id>, x: Id, held: map<nat, Id>)
    requires Matches(t, held) && OthersKept(t, t', F, x) && x !in t'.owners && x !in t'.objects
    requires x in t.owners && t.owners[x] == multiset{}
    ensures Matches(t', held)
  {
    forall y, v
      ensures Booked(t', held, y, v)
    {
      assert Booked(t, held, y, v) && Booked(t, held, x, v);
      if v in held {
        assert Booked(t, held, held[v], v) && Kept(t, t', F, held[v]);
      }
      if y != x {
        assert Kept(t, t', F, y);
      }
    }
    forall v, w
      ensures Sole(t', held, v, w)
    {
      assert Sole(t, held, v, w);
      if v in held && held[v] != x {
        assert Kept(t, t', F, held[v]);
      }
    }
  }

  lemma KeptRecords(t: Table, t': Table, F: set<Id>, x: Id)
    requires OthersKept(t, t', F, x) && x !in t'.objects
    ensures forall y :: y in t'.objects ==> y in t.objects && t'.objects[y] == t.objects[y]
  {
    forall y | y in t'.objects
      ensures y in t.objects && t'.objects[y] == t.objects[y]
    {
      assert Kept(t, t', F, y);
    }
  }

  /** The end of a variable that owns a shared object destroys no device. */
  lemma SharedGoneDevicesOpen(t: Table, revoked: Table, t': Table, F: set<Id>, x: Id, v: nat)
    requires Good(t) && Good(t') && DevicesOpen(t) && x in t.objects && t.objects[x].kind != Device && x in t.owners
    requires revoked == Revoke(t, x, v) && Good(revoked)
    requires if t.owners[x] == multiset{Handle(v)} then OthersKept(revoked, t', F, x) && x !in t'.objects
             else t' == revoked
    ensures DevicesOpen(t')
  {
    SameObjectsSameDevices(t, revoked);
    if t.owners[x] == multiset{Handle(v)} {
      ReleasedDevicesOpen(revoked, t', F, x);
    }
  }

  lemma DeviceSole(t: Table, held: map<nat, Id>, v: nat)
    requires Good(t) && Matches(t, held) && Names(t.objects, held, v, Device)
    ensures held[v] in t.owners && t.owners[held[v]] == multiset{Handle(v)}
  {
    var x := held[v];
    assert ObjectOk(t, x);
    forall o
      ensures t.owners[x][o] == multiset{Handle(v)}[o]
    {
      if o in t.owners[x] {
        DeviceOwners(t, x, o);
      }
      match o
      case Handle(w) => assert Booked(t, held, x, w) && Booked(t, held, x, v) && Sole(t, held, v, w);
      case Member(_) =>
    }
  }

  lemma DeviceGoneMatches(t: Table, t': Table, v: nat, held: map<nat, Id>)
    requires Good(t) && Matches(t, held) && Names(t.objects, held, v, Device)
    requires t'.objects == t.objects - {held[v]} && t'.owners == t.owners - {held[v]}
    ensures Matches(t', held - {v})
  {
    var held' := held - {v};
    forall y, w
      ensures Booked(t', held', y, w)
    {
      assert Booked(t, held, y, w) && Sole(t, held, v, w);
    }
    forall u, w
      ensures Sole(t', held', u, w)
    {
      assert Sole(t, held, u, w);
    }
  }

  /** Some open network would be left without the device it refers to. */
  ghost predicate Orphans(t: Table, held: map<nat, Id>, c: Command) {
    && c.Destroy? && Names(t.objects, held, c.name, Device)
    && exists y :: y != held[c.name] && RefersTo(t, y, held[c.name])
  }

  /** The object a constructor makes: what it points to, in order, with an arena of its own last if it makes one. */
  datatype Made = Made(kind: Kind, members: seq<Id>, arena: bool, device: Option<Id>)

  function Denoted(held: map<nat, Id>, vs: seq<nat>): (xs: seq<Id>)
    requires forall b :: b in vs ==> b in held
    ensures |xs| == |vs| && forall i :: 0 <= i < |vs| ==> xs[i] == held[vs[i]]
  {
    seq(|vs|, i requires 0 <= i < |vs| && vs[i] in held => held[vs[i]])
  }

  function MadeBy(objects: map<Id, Object>, held: map<nat, Id>, c: Command): Made
    requires Legal(objects, held, c) && !c.Copy? && !c.Destroy?
  {
    match c
    case OpenDevice(_) => Made(Device, [], false, None)
    case NewBuffer(_, _) => Made(Buffer, [], false, None)
    case NewNetwork(d, m, _) => Made(Network, if m.Some? then [held[m.value]] else [], false, Some(held[d]))
    case NewInference(n, ifm, ofm, _, _) =>
      Made(Inference, [held[n]] + Denoted(held, ifm) + Denoted(held, ofm), true, None)
    case NewInferenceOver(n, a, _, _) => Made(Inference, [held[n], held[a]], false, None)
  }

  /** A constructor returned: v denotes a new object, and former objects and variables are as they were. */
  predicate Defined(t: Table, t': Table, held: map<nat, Id>, held': map<nat, Id>, v: nat, w: Made) {
    && v in held' && held' == held[v := held'[v]]
    && var x := held'[v];
    && x !in t.objects && x in t'.objects && t'.objects[x].kind == w.kind && t'.objects[x].device == w.device
    && Holds(t, t'.objects[x].refs, w)
    && forall y :: y in t.objects ==> y in t'.objects && t'.objects[y] == t.objects[y]
  }

  predicate Holds(t: Table, refs: seq<Id>, w: Made) {
    if w.arena then refs != [] && refs == w.members + [Last(refs)] && Last(refs) !in t.objects else refs == w.members
  }

  /** The library, the client's variables, and how many calls of the kernel have failed. */
  datatype Moment = Moment(t: Table, held: map<nat, Id>, failures: nat)

  /** A constructor ran: it defined v, or it threw, which takes a failed call or an excessive argument. */
  predicate Constructed(m: Moment, m': Moment, v: nat, w: Made, excess: bool) {
    && m.failures <= m'.failures
    && if v in m'.held then Defined(m.t, m'.t, m.held, m'.held, v, w)
       else m'.t == m.t && m'.held == m.held && (m.failures < m'.failures || excess)
  }

  predicate Excessive(c: Command) {
    match c
    case NewInference(_, ifm, ofm, counters, _) => counters > 4 || |ifm| > 16 || |ofm| > 16
    case NewInferenceOver(_, _, counters, _) => counters > 4
    case _ => false
  }

  /** A variable ended: a device is gone, another object exactly if the variable was its last owner. */
  predicate Ended(m: Moment, m': Moment, v: nat)
    requires v in m.held
  {
    var x := m.held[v];
    && m'.held == m.held - {v} && m'.failures == m.failures
    && x in m.t.objects && x in m.t.owners
    && (forall y :: y in m'.t.objects ==> y in m.t.objects && m'.t.objects[y] == m.t.objects[y])
    && (x in m'.t.objects <==> m.t.owners[x] != multiset{Handle(v)})
    && (m.t.objects[x].kind == Device ==> m'.t.objects == m.t.objects - {x})
  }

  /**
   * What one statement does. It leaves every open network its device unless it is the one that destroys a device some
   * network still refers to.
   */
  ghost predicate Executed(m: Moment, c: Command, m': Moment)
    requires Legal(m.t.objects, m.held, c)
  {
    && (DevicesOpen(m.t) ==> (DevicesOpen(m'.t) <==> !Orphans(m.t, m.held, c)))
    && match c
       case Destroy(v) => Ended(m, m', v)
       case Copy(f, v) => m'.held == m.held[v := m.held[f]] && m'.t.objects == m.t.objects && m'.failures == m.failures
       case _ => Constructed(m, m', c.name, MadeBy(m.t.objects, m.held, c), Excessive(c))
  }

  /** The statements in turn, leaving out those that have no meaning where they come. */
  ghost predicate Traced(trace: seq<Moment>, program: seq<Command>) {
    && |trace| == |program| + 1
    && forall i {:trigger program[i]} :: 0 <= i < |program| ==>
         if Legal(trace[i].t.objects, trace[i].held, program[i]) then Executed(trace[i], program[i], trace[i + 1])
         else trace[i + 1] == trace[i]
  }

  lemma OneStepOn(trace: seq<Moment>, program: seq<Command>, c: Command, m: Moment)
    requires Traced(trace, program)
    requires var last := trace[|program|];
             if Legal(last.t.objects, last.held, c) then Executed(last, c, m) else m == last
    ensures Traced(trace + [m], program + [c])
  {
    var t, p := trace + [m], program + [c];
    forall i | 0 <= i < |p|
      ensures if Legal(t[i].t.objects, t[i].held, p[i]) then Executed(t[i], p[i], t[i + 1]) else t[i + 1] == t[i]
    {
      if i < |program| {
        assert p[i] == program[i] && t[i] == trace[i] && t[i + 1] == trace[i + 1];
      }
    }
  }

  class Session {
    const lib: Library
    var held: map<nat, Id>

    ghost predicate Valid()
      reads this, lib
    {
      lib.Valid() && Settled(lib.T()) && Matches(lib.T(), held)
    }

    constructor (lib: Library)
      requires lib.Valid() && Settled(lib.T()) && lib.objects == map[]
      ensures Valid() && this.lib == lib && held == map[]
    {
      this.lib, held := lib, map[];
      new;
      forall x, v
        ensures Booked(lib.T(), map[], x, v)
      {
        assert ObjectOk(lib.T(), x);
      }
      forall v, w
        ensures Sole(lib.T(), map[], v, w)
      {
      }
    }

    ghost function Now(): Moment
      reads this, lib, lib.calls
    {
      Moment(lib.T(), held, lib.calls.failures)
    }

    /** A creation, from table t, which is the former one or (for an inference with its own arena) has a buffer more. */
    method Define(v: nat, x: Id, ghost before: Table, ghost t: Table, ghost kind: Kind, ghost refs: seq<Id>,
        ghost device: Option<Id>, ghost w: Made)
      requires lib.Valid() && Settled(lib.T()) && Good(t) && Matches(t, held) && v !in held
      requires Created(t, lib.T(), x, kind, refs, device, v) && (device.Some? ==> IsOpenDevice(t, device.value))
      requires forall y :: y in before.objects ==> y in t.objects && t.objects[y] == before.objects[y]
      requires w.kind == kind && w.device == device && Holds(before, refs, w)
      modifies this`held
      ensures Valid() && Defined(before, lib.T(), old(held), held, v, w)
      ensures DevicesOpen(t) ==> DevicesOpen(lib.T())
    {
      CreatedMatches(t, lib.T(), x, kind, refs, device, v, held);
      if DevicesOpen(t) {
        CreatedDevicesOpen(t, lib.T(), x, kind, refs, device, v);
      }
      held := held[v := x];
    }

    method Construct(c: Command)
      requires Valid() && Legal(lib.objects, held, c) && !c.Copy? && !c.Destroy?
      modifies this, lib, lib.calls
      ensures Valid()
      ensures Constructed(old(Now()), Now(), c.name, MadeBy(old(lib.objects), old(held), c), Excessive(c))
      ensures old(DevicesOpen(lib.T())) ==> DevicesOpen(lib.T())
    {
      match c
      case OpenDevice(v) => MakeDevice(v);
      case NewBuffer(d, v) => MakeBuffer(d, v);
      case NewNetwork(d, m, v) => MakeNetwork(d, m, v);
      case NewInference(n, ifm, ofm, counters, v) => MakeInference(n, ifm, ofm, counters, v);
      case NewInferenceOver(n, a, counters, v) => MakeInferenceOver(n, a, counters, v);
    }

    method MakeDevice(v: nat)
      requires Valid() && v !in held
      modifies this, lib, lib.calls
      ensures Valid()
      ensures Constructed(old(Now()), Now(), v, Made(Device, [], false, None), false)
      ensures old(DevicesOpen(lib.T())) ==> DevicesOpen(lib.T())
    {
      ghost var t := lib.T();
      var x := lib.OpenDevice(v);
      if x.Some? {
        Define(v, x.value, t, t, Device, [], None, Made(Device, [], false, None));
      }
    }

    method MakeBuffer(d: nat, v: nat)
      requires Valid() && v !in held && Names(lib.objects, held, d, Device)
      modifies this, lib, lib.calls
      ensures Valid()
      ensures Constructed(old(Now()), Now(), v, Made(Buffer, [], false, None), false)
      ensures old(DevicesOpen(lib.T())) ==> DevicesOpen(lib.T())
    {
      ghost var t := lib.T();
      HeldIsOwned(t, held, d);
      var x := lib.NewBuffer(held[d], v);
      if x.Some? {
        Define(v, x.value, t, t, Buffer, [], None, Made(Buffer, [], false, None));
      }
    }

    method MakeNetwork(d: nat, m: Option<nat>, v: nat)
      requires Valid() && v !in held && Names(lib.objects, held, d, Device)
      requires m.Some? ==> Names(lib.objects, held, m.value, Buffer)
      modifies this, lib, lib.calls
      ensures Valid()
      ensures var members := if m.Some? then [old(held)[m.value]] else [];
              Constructed(old(Now()), Now(), v, Made(Network, members, false, Some(old(held)[d])), false)
      ensures old(DevicesOpen(lib.T())) ==> DevicesOpen(lib.T())
    {
      ghost var t := lib.T();
      HeldIsOwned(t, held, d);
      if m.Some? {
        HeldIsOwned(t, held, m.value);
      }
      var buffer := if m.Some? then Some(held[m.value]) else None;
      var x := lib.NewNetwork(held[d], buffer, v);
      if x.Some? {
        Define(v, x.value, t, t, Network, Listed(buffer), Some(held[d]),
               Made(Network, Listed(buffer), false, Some(held[d])));
      }
    }

    method MakeInferenceOver(n: nat, a: nat, counters: nat, v: nat)
      requires Valid() && v !in held && Names(lib.objects, held, n, Network) && Names(lib.objects, held, a, Buffer)
      modifies this, lib, lib.calls
      ensures Valid()
      ensures var members := [old(held)[n], old(held)[a]];
              Constructed(old(Now()), Now(), v, Made(Inference, members, false, None), counters > 4)
      ensures old(DevicesOpen(lib.T())) ==> DevicesOpen(lib.T())
    {
      ghost var t := lib.T();
      HeldIsOwned(t, held, n);
      HeldIsOwned(t, held, a);
      var x := lib.NewInferenceOver(held[n], held[a], counters, v);
      if x.Some? {
        Define(v, x.value, t, t, Inference, [held[n], held[a]], None,
               Made(Inference, [held[n], held[a]], false, None));
      }
    }

    method MakeInference(n: nat, ifm: seq<nat>, ofm: seq<nat>, counters: nat, v: nat)
      requires Valid() && v !in held && Names(lib.objects, held, n, Network) && HasDevice(lib.objects, held, n)
      requires |ifm| != 16
      requires AllBuffers(lib.objects, held, ifm) && AllBuffers(lib.objects, held, ofm)
      modifies this, lib, lib.calls
      ensures Valid()
      ensures var members := [old(held)[n]] + Denoted(old(held), ifm) + Denoted(old(held), ofm);
              Constructed(old(Now()), Now(), v, Made(Inference, members, true, None),
                          counters > 4 || |ifm| > 16 || |ofm| > 16)
      ensures old(DevicesOpen(lib.T())) ==> DevicesOpen(lib.T())
    {
      ghost var t := lib.T();
      HeldIsOwned(t, held, n);
      var ins, outs := Denoted(held, ifm), Denoted(held, ofm);
      BuffersOwned(ifm);
      BuffersOwned(ofm);
      var x, overrun, base, a := lib.NewInference(held[n], ins, outs, counters, v);
      if x.Some? {
        AddedBufferMatches(t, base, a, held);
        AddedBufferKeeps(t, base, a);
        Define(v, x.value, t, base, Inference, [held[n]] + ins + outs + [a], None,
               Made(Inference, [held[n]] + ins + outs, true, None));
      }
    }

    lemma BuffersOwned(vs: seq<nat>)
      requires Valid() && AllBuffers(lib.objects, held, vs)
      ensures forall x :: x in Denoted(held, vs) ==> Owned(lib.T(), x) && lib.objects[x].kind == Buffer
    {
      forall x | x in Denoted(held, vs)
        ensures Owned(lib.T(), x) && lib.objects[x].kind == Buffer
      {
        var b :| b in vs && held[b] == x;
        HeldIsOwned(lib.T(), held, b);
      }
    }

    method Duplicate(f: nat, v: nat)
      requires Valid() && v !in held && f in held && !Names(lib.objects, held, f, Device)
      modifies this, lib
      ensures Valid() && lib.objects == old(lib.objects) && held == old(held)[v := old(held)[f]]
      ensures old(DevicesOpen(lib.T())) ==> DevicesOpen(lib.T())
    {
      HeldIsOwned(lib.T(), held, f);
      GrantMatches(lib.T(), held[f], v, held);
      ghost var t := lib.T();
      lib.Acquire(held[f], v);
      held := held[v := held[f]];
      assert DevicesOpen(t) ==> DevicesOpen(lib.T()) by { SameObjectsSameDevices(t, lib.T()); }
    }

    /** The end of a variable: a device is destroyed, another object loses an owner. */
    method Release(v: nat)
      requires Valid() && v in held
      modifies this, lib
      ensures Valid() && Ended(old(Now()), Now(), v)
      ensures old(DevicesOpen(lib.T())) ==> (DevicesOpen(lib.T()) <==> !Orphans(old(lib.T()), old(held), Destroy(v)))
    {
      var x := held[v];
      HeldIsOwned(lib.T(), held, v);
      if lib.objects[x].kind == Device {
        DeviceSole(lib.T(), held, v);
        lib.CloseDevice(x, v);
        DeviceGoneMatches(old(lib.T()), lib.T(), v, held);
        held := held - {v};
      } else {
        ReleaseShared(v, x);
      }
    }

    method ReleaseShared(v: nat, x: Id)
      requires Valid() && v in held && held[v] == x && x in lib.objects && lib.objects[x].kind != Device
      modifies this, lib
      ensures Valid() && Ended(old(Now()), Now(), v)
      ensures old(DevicesOpen(lib.T())) ==> DevicesOpen(lib.T())
    {
      ghost var t := lib.T();
      HeldIsOwned(t, held, v);
      AllClosed(t);
      RevokeMatches(t, v, held);
      RevokeKeeps(t, x, v);
      LastOwner(t.owners[x], Handle(v));
      ghost var revoked, F := Revoke(t, x, v), t.objects.Keys;
      lib.Drop(x, v, F);
      held := held - {v};
      if t.owners[x] == multiset{Handle(v)} {
        KeptMatches(revoked, lib.T(), F, x, held);
        KeptRecords(revoked, lib.T(), F, x);
      }
      if DevicesOpen(t) {
        SharedGoneDevicesOpen(t, revoked, lib.T(), F, x, v);
      }
    }

    /** One statement. */
    method Step(c: Command)
      requires Valid() && Legal(lib.objects, held, c)
      modifies this, lib, lib.calls
      ensures Valid() && Executed(old(Now()), c, Now())
    {
      match c
      case Destroy(v) => Release(v);
      case Copy(f, v) => Duplicate(f, v);
      case _ => Construct(c);
    }

    /** A program: statements without meaning, such as those that need what a throw has not defined, are not reached. */
    method Run(program: seq<Command>) returns (ghost trace: seq<Moment>)
      requires Valid()
      modifies this, lib, lib.calls
      ensures Valid() && Traced(trace, program) && trace[0] == old(Now()) && trace[|program|] == Now()
    {
      trace := [Now()];
      for i := 0 to |program|
        invariant Valid() && Traced(trace, program[..i]) && trace[0] == old(Now()) && trace[i] == Now()
      {
        ghost var before := trace;
        if Legal(lib.objects, held, program[i]) {
          Step(program[i]);
        }
        trace := trace + [Now()];
        OneStepOn(before, program[..i], program[i], Now());
        assert program[..i] + [program[i]] == program[..i + 1];
      }
      assert program[..|program|] == program;
    }

    /** All remaining variables end, in any order. */
    method Finish()
      requires Valid()
      modifies this, lib
      ensures Valid() && held == map[]
      ensures lib.objects == map[] && lib.fds == {} && lib.maps == {}
    {
      while held != map[]
        invariant Valid()
        decreases |held|
      {
        var v :| v in held;
        ghost var before := held;
        Release(v);
        assert |held.Keys| == |before.Keys - {v}|;
      }
      forall x, v | x in lib.owners
        ensures lib.owners[x][Handle(v)] == 0
      {
        assert Booked(lib.T(), held, x, v);
      }
      NothingLeaks(lib.T());
    }
  }

  /** Any program, to its end, leaves no object, no descriptor and no mapping. */
  method Program(program: seq<Command>) returns (lib: Library, ghost trace: seq<Moment>)
    ensures Traced(trace, program) && trace[0].held == map[] && trace[0].t.objects == map[]
    ensures lib.Valid() && lib.objects == map[] && lib.fds == {} && lib.maps == {}
  {
    lib := new Library();
    var s := new Session(lib);
    trace := s.Run(program);
    s.Finish();
  }

  /** A network that outlives its device: the session stays valid, but the device order is lost. */
  method DeviceFirst() returns (s: Session, orphaned: bool)
    ensures s.Valid() && (if orphaned then !DevicesOpen(s.lib.T()) else s.lib.calls.failures > 0)
  {
    var lib := new Library();
    s := new Session(lib);
    orphaned := false;
    s.Step(OpenDevice(0));
    if 0 in s.held {
      orphaned := OrphanOn(s);
    }
  }

  /** A network on the device of variable 0, which then ends. */
  method OrphanOn(s: Session) returns (orphaned: bool)
    requires s.Valid() && s.held.Keys == {0} && Names(s.lib.objects, s.held, 0, Device) && DevicesOpen(s.lib.T())
    modifies s, s.lib, s.lib.calls
    ensures s.Valid() && (if orphaned then !DevicesOpen(s.lib.T()) else s.lib.calls.failures > 0)
  {
    s.Step(NewNetwork(0, None, 1));
    if 1 !in s.held {
      return false;
    }
    HeldIsOwned(s.lib.T(), s.held, 1);
    assert RefersTo(s.lib.T(), s.held[1], s.held[0]);
    s.Step(Destroy(0));
    return true;
  }
}
