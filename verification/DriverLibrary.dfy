/**
 * The driver library over a kernel whose calls may fail: Device, Buffer, Network and Inference objects, created and
 * destroyed step by step. Valid holds after every single kernel call.
 */
module DriverLibrary {
  import opened Bytes
  import opened Ownership

  /** Some number no open descriptor (or mapping) uses. */
  lemma Unused(s: set<nat>) returns (n: nat)
    ensures n !in s
  {
    if s == {} {
      n := 0;
    } else {
      n := Above(s);
    }
  }

  lemma Above(s: set<nat>) returns (n: nat)
    ensures forall x :: x in s ==> x < n
  {
    if s == {} {
      n := 0;
    } else {
      var x :| x in s;
      var m := Above(s - {x});
      n := if m > x then m else x + 1;
      assert forall y :: y in s ==> y == x || y in s - {x};
    }
  }

  const PMU_EVENT_MAX := 4
  const FD_MAX := 16

  /** Overrun: the request is written past the end of its input array, which C++ leaves undefined. */
  datatype Creation = Opened | Threw | Overrun

  /** An inference request: the descriptor it is issued on, and the descriptors of its buffers in order. */
  datatype Request = Request(on: nat, inputs: seq<nat>, outputs: seq<nat>)

  /** A network request: the device's descriptor, and that of the buffer with the model, if it is not built in. */
  datatype NetworkRequest = NetworkRequest(on: nat, model: Option<nat>)

  /** The creating and querying calls of the kernel: how many failed, and the requests issued. */
  class Journal {
    ghost var failures: nat
    ghost var networks: seq<NetworkRequest>
    ghost var requests: seq<Request>

    constructor ()
      ensures failures == 0 && networks == [] && requests == []
    {
      failures, networks, requests := 0, [], [];
    }
  }

  /** Exactly one network request was issued, on this device, for this model. */
  ghost predicate NetworkIssued(before: seq<NetworkRequest>, after: seq<NetworkRequest>, t: Table, dev: Id,
      model: Option<Id>) {
    && |after| == |before| + 1 && after[..|before|] == before
    && IsOpen(t, dev) && after[|before|].on == t.objects[dev].fd.value
    && match model
       case None => after[|before|].model == None
       case Some(b) => IsOpen(t, b) && after[|before|].model == t.objects[b].fd
  }

  /** The request names the network it is issued on, and these buffers. */
  ghost predicate Asks(t: Table, q: Request, net: Id, inputs: seq<Id>, outputs: seq<Id>) {
    && IsOpen(t, net) && q.on == t.objects[net].fd.value
    && AllOpen(t, inputs) && q.inputs == FdsOf(t, inputs)
    && AllOpen(t, outputs) && q.outputs == FdsOf(t, outputs)
  }

  /** Exactly one request was issued, on this network, for these buffers. */
  ghost predicate Issued(before: seq<Request>, after: seq<Request>, t: Table, net: Id, inputs: seq<Id>,
      outputs: seq<Id>) {
    |after| == |before| + 1 && after[..|before|] == before && Asks(t, after[|before|], net, inputs, outputs)
  }

  /** The request still names the same objects once the network has its descriptor and owner. */
  lemma NetworkStillIssued(before: seq<NetworkRequest>, after: seq<NetworkRequest>, t: Table, t': Table, x: Id, dev: Id,
        model: Option<Id>)
    requires |after| == |before| + 1 && after[..|before|] == before && IsOpen(t, dev) && x != dev && model != Some(x)
    requires after[|before|].on == t.objects[dev].fd.value && (model.Some? ==> IsOpen(t, model.value))
    requires after[|before|].model == if model.Some? then t.objects[model.value].fd else None
    requires x in t'.objects && t'.objects == t.objects[x := t'.objects[x]]
    ensures NetworkIssued(before, after, t', dev, model)
  {
  }

  lemma CreatedNetwork(t: Table, linked: Table, x: Id, refs: seq<Id>, dev: Id, f: nat, h: nat)
    requires Good(t) && x !in t.objects && x !in refs && f !in t.holder
    requires PlusRefs(AddObject(t, x, Network, Some(dev)), linked, x, refs)
    ensures x in linked.owners && var t' := Grant(OpenFd(linked, x, f), x, h);
            Created(t, t', x, Network, refs, Some(dev), h) && (Settled(t) ==> Settled(t'))
  {
    StepsCreate(t, linked, x, Network, refs, Some(dev), f, h);
    if Settled(t) {
      CreatedSettled(t, Grant(OpenFd(linked, x, f), x, h), x, Network, refs, Some(dev), h);
    }
  }

  lemma SameFds(t: Table, t': Table, xs: seq<Id>)
    requires AllOpen(t, xs) && forall y :: y in xs ==> y in t'.objects && t'.objects[y] == t.objects[y]
    ensures AllOpen(t', xs) && FdsOf(t', xs) == FdsOf(t, xs)
  {
    forall i | 0 <= i < |xs|
      ensures IsOpen(t', xs[i]) && t'.objects[xs[i]] == t.objects[xs[i]]
    {
      assert xs[i] in xs;
    }
    assert forall i :: 0 <= i < |xs| ==> FdsOf(t', xs)[i] == FdsOf(t, xs)[i];
  }

  /** A request still names the same objects where those are as they were. */
  lemma StillIssued(before: seq<Request>, after: seq<Request>, t: Table, t': Table, net: Id, inputs: seq<Id>,
      outputs: seq<Id>)
    requires Issued(before, after, t, net, inputs, outputs)
    requires forall y :: y == net || y in inputs || y in outputs ==> y in t'.objects && t'.objects[y] == t.objects[y]
    ensures Issued(before, after, t', net, inputs, outputs)
  {
    SameFds(t, t', inputs);
    SameFds(t, t', outputs);
  }

  /** Giving another object its descriptor and owner does not change what a request names. */
  lemma OpenedStillIssued(before: seq<Request>, after: seq<Request>, t: Table, t': Table, x: Id, net: Id,
        inputs: seq<Id>, outputs: seq<Id>)
    requires Issued(before, after, t, net, inputs, outputs) && x in t'.objects
    requires t'.objects == t.objects[x := t'.objects[x]] && x != net && x !in inputs && x !in outputs
    ensures Issued(before, after, t', net, inputs, outputs)
  {
    forall y | y == net || y in inputs || y in outputs
      ensures y in t'.objects && t'.objects[y] == t.objects[y]
    {
      if y in inputs { InputOpen(t, inputs, y); }
      if y in outputs { InputOpen(t, outputs, y); }
    }
    StillIssued(before, after, t, t', net, inputs, outputs);
  }

  lemma InputOpen(t: Table, xs: seq<Id>, y: Id)
    requires AllOpen(t, xs) && y in xs
    ensures IsOpen(t, y)
  {
    var i :| 0 <= i < |xs| && xs[i] == y;
  }

  /** With its descriptor and first owner, an inference that has its arena is created from the table with the arena. */
  lemma CreatedOverArena(t: Table, linked: Table, full: Table, x: Id, a: Id, members: seq<Id>, f: nat, h: nat)
    returns (base: Table)
    requires Good(t) && x !in t.objects && a !in members && x !in members && x != a && f !in full.holder
    requires PlusRefs(AddObject(t, x, Inference, None), linked, x, members) && WithArena(linked, full, x, a)
    ensures AddedBuffer(t, base, a) && x in full.objects && x in full.owners
    ensures var t' := Grant(OpenFd(full, x, f), x, h);
            Created(base, t', x, Inference, members + [a], None, h) && (Settled(t) ==> Settled(t'))
  {
    base := ArenaBase(t, linked, full, x, a, members);
    StepsCreate(base, full, x, Inference, members + [a], None, f, h);
    if Settled(t) {
      CreatedSettled(base, Grant(OpenFd(full, x, f), x, h), x, Inference, members + [a], None, h);
    }
  }

  lemma MembersOpen(t: Table, x: Id, net: Id, a: Id, members: seq<Id>, ifm: seq<Id>, ofm: seq<Id>)
    requires Good(t) && x in t.objects && t.objects[x].refs == members + [a]
    requires net in members && forall b :: b in ifm + ofm ==> b in members
    ensures IsOpen(t, net) && IsOpen(t, a) && AllOpen(t, ifm) && AllOpen(t, ofm)
  {
    assert forall b :: b in members ==> b in members + [a];
    assert forall b :: b in ifm || b in ofm ==> b in ifm + ofm;
    RefsOpen(t, x, a, ifm);
    RefsOpen(t, x, a, ofm);
    OpenNeedsOpen(t, x);
  }

  lemma NewIsNoMember(linked: Table, begun: Table, x: Id, members: seq<Id>, a: Id)
    requires PlusRefs(begun, linked, x, members) && Linkable(begun, x, members) && a !in linked.objects
    ensures a !in members
  {
    assert a in members ==> Owned(begun, a);
  }

  lemma MembersAre(net: Id, ifm: seq<Id>, ofm: seq<Id>)
    ensures net in [net] + ifm + ofm
    ensures forall b :: b in [net] + ifm + ofm <==> b == net || b in ifm + ofm
  {
  }

  lemma NotAmong(x: Id, a: Id, ifm: seq<Id>, ofm: seq<Id>, members: seq<Id>)
    requires x != a && x !in members && forall b :: b in ifm + ofm ==> b in members
    ensures x !in [a] + ifm && x !in ofm
  {
    assert x in ifm ==> x in ifm + ofm;
    assert x in ofm ==> x in ifm + ofm;
  }

  class Library {
    const calls: Journal
    var objects: map<Id, Object>
    var counts: map<Id, nat>     // use counts of the shared pointers
    var fds: set<nat>            // the kernel's open descriptors
    var maps: set<nat>           // the kernel's mappings
    var next: Id
    ghost var owners: map<Id, multiset<Owner>>
    ghost var holder: map<nat, Id>
    ghost var mapper: map<nat, Id>

    ghost function T(): Table
      reads this
    {
      Table(objects, owners, holder, mapper)
    }

    /** Identities are never reused, so no new object gets that of a device some network refers to. */
    ghost predicate Valid()
      reads this
    {
      && Good(T())
      && fds == holder.Keys && maps == mapper.Keys
      && counts.Keys == owners.Keys && (forall x :: x in owners ==> counts[x] == |owners[x]|)
      && (forall x :: x in objects ==> x < next)
      && (forall x :: x in objects && objects[x].device.Some? ==> objects[x].device.value < next)
    }

    constructor ()
      ensures Valid() && Settled(T()) && objects == map[] && fds == {} && maps == {}
      ensures fresh(calls) && calls.failures == 0 && calls.networks == [] && calls.requests == []
    {
      calls := new Journal();
      objects, counts, fds, maps, next := map[], map[], {}, {}, 0;
      owners, holder, mapper := map[], map[], map[];
    }

    // Single steps.

    method Begin(kind: Kind, device: Option<Id>) returns (x: Id)
      requires Valid() && (device.Some? ==> device.value < next)
      modifies this
      ensures Valid() && x == old(next) && x !in old(objects) && T() == AddObject(old(T()), x, kind, device)
    {
      x := next;
      AddObjectKeeps(T(), x, kind, device);
      objects := objects[x := Object(kind, None, None, [], device)];
      owners := owners[x := multiset{}];
      counts := counts[x := 0];
      next := next + 1;
    }

    /** Any call that may fail, as far as its outcome. */
    method Ask() returns (ok: bool)
      modifies calls`failures
      ensures calls.failures == old(calls.failures) + if ok then 0 else 1
    {
      if * {
        calls.failures := calls.failures + 1;
        return false;
      }
      return true;
    }

    /** A call that gives an object its descriptor, or fails. */
    method CreateFd(x: Id) returns (ok: bool)
      requires Valid() && x in objects && objects[x].fd == None
      modifies this`objects, this`fds, this`holder, calls`failures
      ensures calls.failures == old(calls.failures) + if ok then 0 else 1
      ensures Valid() && (!ok ==> T() == old(T()))
      ensures ok ==> IsOpen(T(), x) && objects[x].fd.value !in old(fds)
      ensures ok ==> T() == OpenFd(old(T()), x, objects[x].fd.value)
    {
      ok := Ask();
      if !ok {
        return;
      }
      ghost var unused := Unused(fds);
      var f: nat :| f !in fds;
      OpenFdKeeps(T(), x, f);
      objects := objects[x := objects[x].(fd := Some(f))];
      fds := fds + {f};
      holder := holder[f := x];
      return true;
    }

    method MapMemory(x: Id) returns (ok: bool)
      requires Valid() && x in objects && objects[x].mapping == None && objects[x].kind == Buffer
      modifies this`objects, this`maps, this`mapper, calls`failures
      ensures calls.failures == old(calls.failures) + if ok then 0 else 1
      ensures Valid() && (!ok ==> T() == old(T()))
      ensures ok ==> x in objects && objects[x].mapping.Some? && objects[x].mapping.value !in old(maps)
      ensures ok ==> T() == OpenMap(old(T()), x, objects[x].mapping.value)
    {
      ok := Ask();
      if !ok {
        return;
      }
      ghost var unused := Unused(maps);
      var m: nat :| m !in maps;
      OpenMapKeeps(T(), x, m);
      objects := objects[x := objects[x].(mapping := Some(m))];
      maps := maps + {m};
      mapper := mapper[m := x];
      return true;
    }

    /** close: only on an open descriptor. */
    method CloseDescriptor(x: Id)
      requires Valid() && IsOpen(T(), x) && x in owners && owners[x] == multiset{}
      modifies this`objects, this`fds, this`holder
      ensures Valid() && T() == CloseFd(old(T()), x)
    {
      CloseFdKeeps(T(), x);
      fds := fds - {objects[x].fd.value};
      holder := holder - {objects[x].fd.value};
      objects := objects[x := objects[x].(fd := None)];
    }

    method UnmapMemory(x: Id)
      requires Valid() && x in objects && objects[x].mapping.Some? && x in owners && owners[x] == multiset{}
      modifies this`objects, this`maps, this`mapper
      ensures Valid() && T() == CloseMap(old(T()), x)
    {
      CloseMapKeeps(T(), x);
      maps := maps - {objects[x].mapping.value};
      mapper := mapper - {objects[x].mapping.value};
      objects := objects[x := objects[x].(mapping := None)];
    }

    /** Copies a shared pointer to r into a member of x. */
    method Share(x: Id, r: Id)
      requires Valid() && x in objects && r in objects && r in owners && owners[r] != multiset{}
      requires objects[r].kind != Device && Rank(objects[r].kind) < Rank(objects[x].kind)
      modifies this`objects, this`counts, this`owners
      ensures Valid() && T() == AddRef(old(T()), x, r)
    {
      AddRefKeeps(T(), x, r);
      objects := objects[x := objects[x].(refs := objects[x].refs + [r])];
      counts := counts[r := counts[r] + 1];
      owners := owners[r := owners[r] + multiset{Member(x)}];
    }

    /** Drops the last shared pointer of x, without looking at the count yet. */
    method Unshare(x: Id) returns (r: Id)
      requires Valid() && x in objects && objects[x].refs != []
      modifies this`objects, this`counts, this`owners
      ensures r == Last(old(objects[x].refs)) && r in old(owners)
      ensures Valid() && T() == DropRef(old(T()), x)
    {
      r := Last(objects[x].refs);
      DropRefKeeps(T(), x);
      objects := objects[x := objects[x].(refs := objects[x].refs[..|objects[x].refs| - 1])];
      counts := counts[r := counts[r] - 1];
      owners := owners[r := owners[r] - multiset{Member(x)}];
    }

    method Free(x: Id)
      requires Valid() && x in objects && x in owners && owners[x] == multiset{}
      requires objects[x].refs == [] && objects[x].fd == None && objects[x].mapping == None
      modifies this`objects, this`counts, this`owners
      ensures Valid() && T() == RemoveObject(old(T()), x)
    {
      RemoveObjectKeeps(T(), x);
      objects := objects - {x};
      counts := counts - {x};
      owners := owners - {x};
    }

    method Acquire(x: Id, h: nat)
      requires Valid() && IsOpen(T(), x) && x in owners && (objects[x].kind == Buffer ==> objects[x].mapping.Some?)
      modifies this`counts, this`owners
      ensures Valid() && T() == Grant(old(T()), x, h)
    {
      GrantKeeps(T(), x, h);
      counts := counts[x := counts[x] + 1];
      owners := owners[x := owners[x] + multiset{Handle(h)}];
    }

    method LetGo(x: Id, h: nat)
      requires Valid() && x in objects && x in owners && Handle(h) in owners[x]
      modifies this`counts, this`owners
      ensures Valid() && T() == Revoke(old(T()), x, h)
    {
      RevokeKeeps(T(), x, h);
      counts := counts[x := counts[x] - 1];
      owners := owners[x := owners[x] - multiset{Handle(h)}];
    }

    /** The destructor body: unmap, then close. */
    method Shut(x: Id)
      requires Valid() && x in objects && x in owners && owners[x] == multiset{} && objects[x].kind != Device
      modifies this`objects, this`fds, this`holder, this`maps, this`mapper
      ensures Valid() && T() == Emptied(old(T()), x)
    {
      if objects[x].mapping.Some? {
        UnmapMemory(x);
      }
      if objects[x].fd.Some? {
        CloseDescriptor(x);
      }
    }

    /** The members of a dying object go, last to first. */
    method DropMembers(x: Id, ghost F: set<Id>)
      requires Valid() && x in objects && x in owners && owners[x] == multiset{} && Closed(T(), F) && x in F
      modifies this
      ensures Valid() && x in objects && x in owners && owners[x] == multiset{}
      ensures objects[x] == old(objects[x]).(refs := [])
      ensures OthersKept(old(T()), T(), F, x)
      decreases Rank(objects[x].kind), 1
    {
      while objects[x].refs != []
        invariant Valid() && x in objects && x in owners && owners[x] == multiset{}
        invariant objects[x] == old(objects[x]).(refs := objects[x].refs)
        invariant Closed(T(), F) && OthersKept(old(T()), T(), F, x)
        decreases |objects[x].refs|
      {
        ghost var before := T();
        assert PairOk(T(), x, Last(objects[x].refs)) && Last(objects[x].refs) in objects[x].refs;
        var r := Unshare(x);
        ReapMember(before, x, r, F);
        KeptTransitive(old(T()), before, T(), F, x);
      }
    }

    /** Looks after the target r of the pointer that x has just dropped. */
    method ReapMember(ghost before: Table, x: Id, r: Id, ghost F: set<Id>)
      requires Valid() && Good(before) && x in before.objects && before.objects[x].refs != []
      requires r == Last(before.objects[x].refs) && r in before.owners && T() == DropRef(before, x)
      requires x in owners && owners[x] == multiset{} && Closed(before, F) && x in F
      modifies this
      ensures Valid() && x in objects && x in owners && owners[x] == multiset{}
      ensures objects[x] == old(objects[x]) && Closed(T(), F) && OthersKept(before, T(), F, x)
      decreases Rank(objects[x].kind), 0
    {
      assert PairOk(before, x, r) && r in before.objects[x].refs;
      DropRefKeepsClosed(before, x, F);
      Reap(r, F);
      if old(owners[r]) == multiset{} {
        assert Kept(old(T()), T(), F, x) && ObjectOk(T(), x);
        KeptClosed(old(T()), T(), F, r);
      }
      DropThenReapKeeps(before, T(), F, x);
    }

    /** What a shared pointer does after dropping its count: at zero the object is destroyed. */
    method Reap(x: Id, ghost F: set<Id>)
      requires Valid() && x in objects && x in owners && objects[x].kind != Device
      requires x in F && Closed(T(), F)
      modifies this
      ensures Valid()
      ensures old(owners[x]) != multiset{} ==> T() == old(T())
      ensures old(owners[x]) == multiset{} ==> x !in objects && x !in owners && OthersKept(old(T()), T(), F, x)
      decreases Rank(objects[x].kind), 2
    {
      if counts[x] > 0 {
        return;
      }
      assert |owners[x]| == 0;
      Shut(x);
      ghost var shut := T();
      DropMembers(x, F);
      ghost var bare := T();
      Free(x);
      forall y | y != x
        ensures Kept(old(T()), T(), F, y)
      {
        assert Kept(shut, bare, F, y);
      }
    }

    // The public constructors and destructors. None is the exception thrown out of a constructor.

    method OpenDevice(h: nat) returns (r: Option<Id>)
      requires Valid()
      modifies this, calls`failures
      ensures calls.failures >= old(calls.failures) && (r == None <==> calls.failures > old(calls.failures))
      ensures Valid()
      ensures r == None ==> T() == old(T())
      ensures old(Settled(T())) ==> Settled(T())
      ensures r.Some? ==> r.value >= old(next) && Created(old(T()), T(), r.value, Device, [], None, h)
    {
      var x := Begin(Device, None);
      AddThenRemove(old(T()), x, Device, None);
      ghost var begun := T();
      PlusNone(begun, x);
      var ok := CreateFd(x);
      if !ok {
        Free(x);
        return None;
      }
      StepsCreate(old(T()), begun, x, Device, [], None, objects[x].fd.value, h);
      Acquire(x, h);
      if old(Settled(T())) {
        CreatedSettled(old(T()), T(), x, Device, [], None, h);
      }
      return Some(x);
    }

    method NewBuffer(dev: Id, h: nat) returns (r: Option<Id>)
      requires Valid() && IsOpenDevice(T(), dev)
      modifies this, calls`failures
      ensures calls.failures >= old(calls.failures) && (r == None <==> calls.failures > old(calls.failures))
      ensures Valid()
      ensures r == None ==> T() == old(T())
      ensures old(Settled(T())) ==> Settled(T())
      ensures r.Some? ==> Created(old(T()), T(), r.value, Buffer, [], None, h)
    {
      var x := Begin(Buffer, None);
      AddThenRemove(old(T()), x, Buffer, None);
      ghost var begun := T();
      var ok := CreateFd(x);
      if !ok {
        Free(x);
        return None;
      }
      ghost var f := objects[x].fd.value;
      ok := MapMemory(x);
      if !ok {
        CloseDescriptor(x);
        OpenThenClose(begun, x, f);
        Free(x);
        return None;
      }
      StepsCreateBuffer(old(T()), x, f, objects[x].mapping.value, h);
      Acquire(x, h);
      if old(Settled(T())) {
        CreatedSettled(old(T()), T(), x, Buffer, [], None, h);
      }
      return Some(x);
    }

    /** Copies shared pointers into members of x, one after the other. */
    method ShareAll(x: Id, rs: seq<Id>, ghost t: Table)
      requires Valid() && x in objects && PlusRefs(t, T(), x, objects[x].refs) && Linkable(t, x, rs)
      modifies this
      ensures Valid() && PlusRefs(t, T(), x, old(objects[x].refs) + rs)
    {
      var i := 0;
      assert old(objects[x].refs) + rs[..0] == old(objects[x].refs);
      while i < |rs|
        invariant 0 <= i <= |rs|
        invariant Valid() && PlusRefs(t, T(), x, old(objects[x].refs) + rs[..i])
      {
        ghost var refs := objects[x].refs;
        assert rs[i] in rs;
        StillOwned(t, T(), x, refs, rs[i]);
        PlusOne(t, T(), x, refs, rs[i]);
        Share(x, rs[i]);
        assert old(objects[x].refs) + rs[..i] + [rs[i]] == old(objects[x].refs) + rs[..i + 1];
        i := i + 1;
      }
      assert rs[..|rs|] == rs;
    }

    /** A constructor that throws destroys the members made so far; all their targets have other owners. */
    method Abandon(x: Id, ghost t: Table)
      requires Valid() && x in objects && PlusRefs(t, T(), x, objects[x].refs) && Linkable(t, x, objects[x].refs)
      requires x in t.owners && t.owners[x] == multiset{} && t.objects[x].fd == None && t.objects[x].mapping == None
      modifies this
      ensures Valid() && T() == RemoveObject(t, x)
    {
      while objects[x].refs != []
        invariant Valid() && x in objects && PlusRefs(t, T(), x, objects[x].refs) && Linkable(t, x, objects[x].refs)
        decreases |objects[x].refs|
      {
        ghost var before, refs := T(), objects[x].refs;
        assert Last(refs) in refs;
        StillOwned(t, before, x, refs, Last(refs));
        MinusOne(t, before, x, refs);
        LastCount(refs);
        var r := Unshare(x);
        StillOwned(t, T(), x, objects[x].refs, r);
        assert Closed(T(), T().objects.Keys) by { AllClosed(T()); }
        Reap(r, T().objects.Keys);
      }
      PlusNoneIs(t, T(), x);
      Free(x);
    }

    /** The model comes from a buffer, or (None) from an index the firmware knows. */
    method NewNetwork(dev: Id, buffer: Option<Id>, h: nat) returns (r: Option<Id>)
      requires Valid() && IsOpenDevice(T(), dev)
      requires buffer.Some? ==> Owned(T(), buffer.value) && objects[buffer.value].kind == Buffer
      modifies this, calls`failures, calls`networks
      ensures calls.failures >= old(calls.failures) && (r == None <==> calls.failures > old(calls.failures))
      ensures Valid()
      ensures r == None ==> T() == old(T())
      ensures old(Settled(T())) ==> Settled(T())
      ensures r.Some? ==> Created(old(T()), T(), r.value, Network, Listed(buffer), Some(dev), h)
      ensures r.Some? ==> NetworkIssued(old(calls.networks), calls.networks, T(), dev, buffer)
    {
      var x := Begin(Network, Some(dev));
      ghost var begun := T();
      AddThenRemove(old(T()), x, Network, Some(dev));
      PlusNone(begun, x);
      ShareAll(x, Listed(buffer), begun);
      assert [] + Listed(buffer) == Listed(buffer);
      OpenNeedsOpen(T(), x);
      assert buffer.Some? ==> buffer.value in objects[x].refs;
      var ok := CreateNetwork(x, buffer, dev, h, old(T()), begun);
      return if ok then Some(x) else None;
    }

    /** The creating call on the device's descriptor. */
    method IssueNetwork(x: Id, dev: Id, model: Option<nat>) returns (ok: bool)
      requires Valid() && x in objects && objects[x].fd == None && IsOpen(T(), dev)
      modifies this`objects, this`fds, this`holder, calls`failures, calls`networks
      ensures calls.networks == old(calls.networks) + [NetworkRequest(old(objects[dev].fd.value), model)]
      ensures calls.failures == old(calls.failures) + if ok then 0 else 1
      ensures Valid() && (!ok ==> T() == old(T()))
      ensures ok ==> IsOpen(T(), x) && objects[x].fd.value !in old(fds)
      ensures ok ==> T() == OpenFd(old(T()), x, objects[x].fd.value)
    {
      calls.networks := calls.networks + [NetworkRequest(objects[dev].fd.value, model)];
      ok := CreateFd(x);
    }

    /** The calls of the constructor, on a network that has its members. */
    method CreateNetwork(x: Id, buffer: Option<Id>, dev: Id, h: nat, ghost t: Table, ghost begun: Table)
      returns (ok: bool)
      requires Valid() && Good(t) && x !in t.objects && begun == AddObject(t, x, Network, Some(dev))
      requires PlusRefs(begun, T(), x, Listed(buffer)) && Linkable(begun, x, Listed(buffer)) && buffer != Some(x)
      requires IsOpen(T(), dev) && (buffer.Some? ==> IsOpen(T(), buffer.value))
      modifies this, calls`failures, calls`networks
      ensures calls.failures >= old(calls.failures) && (!ok <==> calls.failures > old(calls.failures))
      ensures Valid()
      ensures !ok ==> T() == RemoveObject(begun, x)
      ensures ok ==> Created(t, T(), x, Network, Listed(buffer), Some(dev), h) && (Settled(t) ==> Settled(T()))
      ensures ok ==> NetworkIssued(old(calls.networks), calls.networks, T(), dev, buffer)
    {
      ghost var linked, refs := T(), Listed(buffer);
      ok := IssueNetwork(x, dev, if buffer.Some? then objects[buffer.value].fd else None);
      if !ok {
        Abandon(x, begun);
        return;
      }
      ghost var f := objects[x].fd.value;
      ok := Ask();
      if !ok {
        // collectNetworkInfo threw
        AbandonOpened(x, f, linked, begun, refs);
        return;
      }
      CreatedNetwork(t, linked, x, refs, dev, f, h);
      Acquire(x, h);
      NetworkStillIssued(old(calls.networks), calls.networks, linked, T(), x, dev, buffer);
    }

    /** The constructor throws once it has its descriptor. */
    method AbandonOpened(x: Id, ghost f: nat, ghost linked: Table, ghost begun: Table, ghost refs: seq<Id>)
      requires Valid() && x in linked.objects && linked.objects[x].fd == None && f !in linked.holder
      requires T() == OpenFd(linked, x, f) && PlusRefs(begun, linked, x, refs) && Linkable(begun, x, refs) && x !in refs
      requires x in begun.owners && begun.owners[x] == multiset{}
      requires begun.objects[x].fd == None && begun.objects[x].mapping == None
      modifies this
      ensures Valid() && T() == RemoveObject(begun, x)
    {
      UnownedYet(begun, linked, x, refs);
      CloseDescriptor(x);
      OpenThenClose(linked, x, f);
      Abandon(x, begun);
    }

    /** The member initialisers of an inference: it shares its network and buffers. */
    method BeginInference(members: seq<Id>) returns (x: Id, ghost begun: Table)
      requires Valid() && (forall b :: b in members ==> Owned(T(), b) && objects[b].kind in {Buffer, Network})
      modifies this
      ensures Valid() && x !in old(objects) && x in objects && x !in members
      ensures begun == AddObject(old(T()), x, Inference, None) && RemoveObject(begun, x) == old(T())
      ensures PlusRefs(begun, T(), x, members) && Linkable(begun, x, members)
      ensures objects[x].refs == members && x in owners && owners[x] == multiset{}
    {
      x := Begin(Inference, None);
      begun := T();
      AddThenRemove(old(T()), x, Inference, None);
      PlusNone(begun, x);
      ShareAll(x, members, begun);
      assert [] + members == members;
      UnownedYet(begun, T(), x, members);
    }

    /** Fills one descriptor array of the request, from index `count` on. */
    method FillFds(fd: array<nat>, count: nat, xs: seq<Id>)
      requires AllOpen(T(), xs) && count + |xs| <= fd.Length
      modifies fd
      ensures fd[..count] == old(fd[..count]) && fd[count..count + |xs|] == FdsOf(T(), xs)
    {
      ghost var fds := FdsOf(T(), xs);
      var i := 0;
      while i < |xs|
        invariant 0 <= i <= |xs|
        invariant fd[..count] == old(fd[..count]) && fd[count..count + i] == fds[..i]
      {
        fd[count + i] := objects[xs[i]].fd.value;
        i := i + 1;
      }
    }

    /**
     * The request of Inference::create: sixteen slots for inputs, the arena in the first, and sixteen for outputs. Its
     * caller checks for more than sixteen inputs, but there is room for fifteen.
     */
    method FillRequest(arena: Id, ifm: seq<Id>, ofm: seq<Id>) returns (ifmFd: array<nat>, ofmFd: array<nat>)
      requires IsOpen(T(), arena) && AllOpen(T(), ifm) && AllOpen(T(), ofm)
      requires |ifm| + 1 <= FD_MAX && |ofm| <= FD_MAX
      ensures fresh(ifmFd) && fresh(ofmFd) && ifmFd.Length == ofmFd.Length == FD_MAX
      ensures ifmFd[..|ifm| + 1] == [objects[arena].fd.value] + FdsOf(T(), ifm) && ofmFd[..|ofm|] == FdsOf(T(), ofm)
    {
      ifmFd := FillInputs(arena, ifm);
      ofmFd := new nat[FD_MAX];
      FillFds(ofmFd, 0, ofm);
    }

    method FillInputs(arena: Id, ifm: seq<Id>) returns (fd: array<nat>)
      requires IsOpen(T(), arena) && AllOpen(T(), ifm) && |ifm| + 1 <= FD_MAX
      ensures fresh(fd) && fd.Length == FD_MAX
      ensures fd[..|ifm| + 1] == [objects[arena].fd.value] + FdsOf(T(), ifm)
    {
      fd := new nat[FD_MAX];
      fd[0] := objects[arena].fd.value;
      assert fd[..1] == [objects[arena].fd.value];
      FillFds(fd, 1, ifm);
      assert fd[..|ifm| + 1] == fd[..1] + fd[1..1 + |ifm|];
    }

    /** The call on the network's descriptor, with the filled part of the request. */
    method IssueInference(x: Id, net: Id, ifmFd: array<nat>, ifmCount: nat, ofmFd: array<nat>, ofmCount: nat)
      returns (ok: bool)
      requires Valid() && x in objects && objects[x].fd == None && IsOpen(T(), net)
      requires ifmCount <= ifmFd.Length && ofmCount <= ofmFd.Length
      modifies this`objects, this`fds, this`holder, calls
      ensures calls.requests
           == old(calls.requests) + [old(Request(objects[net].fd.value, ifmFd[..ifmCount], ofmFd[..ofmCount]))]
      ensures calls.failures == old(calls.failures) + if ok then 0 else 1
      ensures Valid() && (!ok ==> T() == old(T()))
      ensures ok ==> IsOpen(T(), x) && objects[x].fd.value !in old(fds)
      ensures ok ==> T() == OpenFd(old(T()), x, objects[x].fd.value)
    {
      calls.requests := calls.requests + [Request(objects[net].fd.value, ifmFd[..ifmCount], ofmFd[..ofmCount])];
      ok := CreateFd(x);
    }

    /** Inference::create: the size checks, the request, the call on the network's descriptor. */
    method Create(x: Id, net: Id, arena: Id, ifm: seq<Id>, ofm: seq<Id>) returns (r: Creation)
      requires Valid() && x in objects && objects[x].fd == None && IsOpen(T(), net)
      requires IsOpen(T(), arena) && AllOpen(T(), ifm) && AllOpen(T(), ofm)
      modifies this`objects, this`fds, this`holder, calls
      ensures calls.failures >= old(calls.failures)
      ensures Valid() && (r != Opened ==> T() == old(T()))
      ensures r == Overrun <==> |ifm| == 16 && |ofm| <= 16
      ensures |ifm| > 16 || |ofm| > 16 ==> r == Threw && calls.requests == old(calls.requests)
      ensures r == Threw <==> calls.failures > old(calls.failures) || |ifm| > 16 || |ofm| > 16
      ensures r == Opened ==> IsOpen(T(), x) && objects[x].fd.value !in old(fds) && |ifm| < 16 && |ofm| <= 16
      ensures r == Opened ==> T() == OpenFd(old(T()), x, objects[x].fd.value)
      ensures r == Opened ==> Issued(old(calls.requests), calls.requests, old(T()), net, [arena] + ifm, ofm)
    {
      if |ifm| > FD_MAX || |ofm| > FD_MAX {
        return Threw;
      }
      if |ifm| + 1 > FD_MAX {
        return Overrun;
      }
      var ifmFd, ofmFd := FillRequest(arena, ifm, ofm);
      assert ([arena] + ifm)[1..] == ifm;
      ghost var t := T();
      var ok := IssueInference(x, net, ifmFd, |ifm| + 1, ofmFd, |ofm|);
      assert calls.requests[|old(calls.requests)|].inputs == FdsOf(t, [arena] + ifm);
      return if ok then Opened else Threw;
    }

    /** An inference over an arena the caller shares, as the interpreter makes them; it has no other buffers. */
    method NewInferenceOver(net: Id, arena: Id, counters: nat, h: nat) returns (r: Option<Id>)
      requires Valid() && Owned(T(), net) && objects[net].kind == Network
      requires Owned(T(), arena) && objects[arena].kind == Buffer
      modifies this, calls
      ensures calls.failures >= old(calls.failures)
      ensures r == None <==> calls.failures > old(calls.failures) || counters > 4
      ensures Valid()
      ensures r == None ==> T() == old(T())
      ensures old(Settled(T())) ==> Settled(T())
      ensures r.Some? ==> counters <= 4 && Created(old(T()), T(), r.value, Inference, [net, arena], None, h)
      ensures r.Some? ==> Issued(old(calls.requests), calls.requests, T(), net, [arena], [])
    {
      var x, begun := BeginInference([net, arena]);
      ghost var linked := T();
      if counters > PMU_EVENT_MAX {
        Abandon(x, begun);
        return None;
      }
      OpenNeedsOpen(linked, x);
      var c := Create(x, net, arena, [], []);
      if c != Opened {
        Abandon(x, begun);
        return None;
      }
      assert [arena] + [] == [arena];
      StepsCreate(old(T()), linked, x, Inference, [net, arena], None, objects[x].fd.value, h);
      Acquire(x, h);
      if old(Settled(T())) {
        CreatedSettled(old(T()), T(), x, Inference, [net, arena], None, h);
      }
      OpenedStillIssued(old(calls.requests), calls.requests, linked, T(), x, net, [arena], []);
      return Some(x);
    }

    /**
     * An inference with its own arena: members in the order network, inputs, outputs, arena. The result is created in
     * `base`, which is the former table with the arena a, still without owner, added. An overrun is possible for
     * exactly sixteen inputs, since the arena takes the first of sixteen slots; then the call does not return.
     */
    method NewInference(net: Id, ifm: seq<Id>, ofm: seq<Id>, counters: nat, h: nat)
      returns (r: Option<Id>, overrun: bool, ghost base: Table, ghost a: Id)
      requires Valid() && Owned(T(), net) && objects[net].kind == Network
      requires objects[net].device.Some? && IsOpenDevice(T(), objects[net].device.value)
      requires forall b :: b in ifm + ofm ==> Owned(T(), b) && objects[b].kind == Buffer
      modifies this, calls
      ensures calls.failures >= old(calls.failures)
      ensures overrun ==> r == None && counters <= 4 && |ifm| == 16 && |ofm| <= 16
      ensures Valid()
      ensures !overrun && r == None ==> T() == old(T())
      ensures !overrun && old(Settled(T())) ==> Settled(T())
      ensures counters > 4 || |ifm| >= 16 || |ofm| > 16 ==> r == None
      ensures r == None <==>
                overrun || calls.failures > old(calls.failures) || counters > 4 || |ifm| > 16 || |ofm| > 16
      ensures r.Some? ==> && AddedBuffer(old(T()), base, a)
                          && Created(base, T(), r.value, Inference, [net] + ifm + ofm + [a], None, h)
                          && Issued(old(calls.requests), calls.requests, T(), net, [a] + ifm, ofm)
    {
      base, a, overrun := T(), 0, false;
      var members := [net] + ifm + ofm;
      MembersAre(net, ifm, ofm);
      var x, begun := BeginInference(members);
      if counters > PMU_EVENT_MAX {
        Abandon(x, begun);
        return None, false, base, a;
      }
      r, overrun, base, a := FinishInference(x, net, members, ifm, ofm, h, old(T()), begun);
    }

    /** The arena, and the last step. */
    method FinishInference(x: Id, net: Id, members: seq<Id>, ifm: seq<Id>, ofm: seq<Id>, h: nat,
        ghost t: Table, ghost begun: Table)
      returns (r: Option<Id>, overrun: bool, ghost base: Table, ghost a: Id)
      requires Valid() && Good(t) && x !in t.objects && begun == AddObject(t, x, Inference, None)
      requires x in objects && PlusRefs(begun, T(), x, members) && Linkable(begun, x, members)
      requires x in owners && owners[x] == multiset{} && objects[x].refs == members
      requires net in objects && objects[net].device.Some? && IsOpenDevice(T(), objects[net].device.value)
      requires x !in members && net in members && forall b :: b in ifm + ofm ==> b in members
      modifies this, calls
      ensures calls.failures >= old(calls.failures)
      ensures overrun ==> r == None && |ifm| == 16 && |ofm| <= 16
      ensures r == None <==> overrun || calls.failures > old(calls.failures) || |ifm| > 16 || |ofm| > 16
      ensures r.Some? ==> Issued(old(calls.requests), calls.requests, T(), net, [a] + ifm, ofm)
      ensures Valid()
      ensures !overrun && r == None ==> T() == RemoveObject(begun, x)
      ensures |ifm| >= 16 || |ofm| > 16 ==> r == None
      ensures r.Some? ==> r.value == x && AddedBuffer(t, base, a)
                          && Created(base, T(), x, Inference, members + [a], None, h)
      ensures r.Some? && Settled(t) ==> Settled(T())
    {
      ghost var linked := T();
      var arena := MakeArena(x, objects[net].device.value, h);
      if arena == None {
        Abandon(x, begun);
        return None, false, t, 0;
      }
      a := arena.value;
      NewIsNoMember(linked, begun, x, members, a);
      r, overrun, base := CreateOverArena(x, net, arena.value, members, ifm, ofm, h, t, begun, linked);
    }

    /** The last step of the constructor: the inference x has all its members, the arena last. */
    method CreateOverArena(x: Id, net: Id, a: Id, members: seq<Id>, ifm: seq<Id>, ofm: seq<Id>, h: nat,
        ghost t: Table, ghost begun: Table, ghost linked: Table)
      returns (r: Option<Id>, overrun: bool, ghost base: Table)
      requires Valid() && Good(t) && x !in t.objects && begun == AddObject(t, x, Inference, None)
      requires Good(linked) && PlusRefs(begun, linked, x, members) && Linkable(begun, x, members)
      requires x in linked.owners && linked.owners[x] == multiset{} && WithArena(linked, T(), x, a)
      requires a !in members && x !in members && net in members && forall b :: b in ifm + ofm ==> b in members
      modifies this, calls
      ensures calls.failures >= old(calls.failures)
      ensures overrun ==> r == None && |ifm| == 16 && |ofm| <= 16
      ensures r == None <==> overrun || calls.failures > old(calls.failures) || |ifm| > 16 || |ofm| > 16
      ensures r.Some? ==> Issued(old(calls.requests), calls.requests, T(), net, [a] + ifm, ofm)
      ensures Valid()
      ensures !overrun && r == None ==> T() == RemoveObject(begun, x)
      ensures |ifm| >= 16 || |ofm| > 16 ==> r == None
      ensures r.Some? ==> r.value == x && AddedBuffer(t, base, a)
                          && Created(base, T(), x, Inference, members + [a], None, h)
      ensures r.Some? && Settled(t) ==> Settled(T())
    {
      base, overrun := t, false;
      ghost var full := T();
      MembersOpen(full, x, net, a, members, ifm, ofm);
      var c := Create(x, net, a, ifm, ofm);
      match c {
        case Overrun =>
          return None, true, base;
        case Threw =>
          AbandonWithArena(x, a, linked, begun);
          return None, false, base;
        case Opened =>
          base := CreatedOverArena(t, linked, full, x, a, members, objects[x].fd.value, h);
          Acquire(x, h);
          NotAmong(x, a, ifm, ofm, members);
          OpenedStillIssued(old(calls.requests), calls.requests, full, T(), x, net, [a] + ifm, ofm);
          return Some(x), false, base;
      }
    }

    /** The constructor throws once it has its arena. */
    method AbandonWithArena(x: Id, a: Id, ghost linked: Table, ghost begun: Table)
      requires Valid() && Good(linked) && x in linked.objects && PlusRefs(begun, linked, x, linked.objects[x].refs)
      requires Linkable(begun, x, linked.objects[x].refs) && begun.objects[x].kind == Inference
      requires x in begun.owners && begun.owners[x] == multiset{}
      requires begun.objects[x].fd == None && begun.objects[x].mapping == None
      requires x in linked.owners && linked.owners[x] == multiset{} && WithArena(linked, T(), x, a)
      modifies this
      ensures Valid() && T() == RemoveObject(begun, x)
    {
      LoseArena(x, a, linked);
      Abandon(x, begun);
    }

    /** Creates the arena of x and sets its size; a failure leaves nothing behind. */
    method MakeArena(x: Id, dev: Id, h: nat) returns (r: Option<Id>)
      requires Valid() && x in objects && x in owners && owners[x] == multiset{} && objects[x].kind == Inference
      requires IsOpenDevice(T(), dev)
      modifies this, calls`failures
      ensures calls.failures >= old(calls.failures) && (r == None <==> calls.failures > old(calls.failures))
      ensures Valid() && (r == None ==> T() == old(T()))
      ensures r.Some? ==> WithArena(old(T()), T(), x, r.value)
    {
      var arena := NewBuffer(dev, h);
      if arena == None {
        return None;
      }
      AdoptArena(x, arena.value, h, old(T()));
      var ok := Ask();
      if !ok {
        // resize threw
        LoseArena(x, arena.value, old(T()));
        return None;
      }
      return arena;
    }

    /** The new arena becomes the last member of x, its temporary owner goes. */
    method AdoptArena(x: Id, a: Id, h: nat, ghost linked: Table)
      requires Valid() && Good(linked) && x in linked.objects && x in linked.owners && linked.owners[x] == multiset{}
      requires linked.objects[x].kind == Inference && Created(linked, T(), a, Buffer, [], None, h)
      modifies this
      ensures Valid() && WithArena(linked, T(), x, a)
    {
      HandOver(linked, T(), x, a, h);
      Share(x, a);
      LetGo(a, h);
    }

    /** The arena is the first member destroyed, and nobody else has it. */
    method LoseArena(x: Id, a: Id, ghost linked: Table)
      requires Valid() && Good(linked) && x in linked.objects && x in linked.owners && WithArena(linked, T(), x, a)
      modifies this
      ensures Valid() && T() == linked
    {
      var r := Unshare(x);
      assert multiset{Member(x)} - multiset{Member(x)} == multiset{};
      ghost var dropped := T();
      assert objects[x].refs == linked.objects[x].refs;
      assert dropped.owners == linked.owners[a := multiset{}];
      assert dropped.objects == linked.objects[a := dropped.objects[a]];
      Reap(a, {a});
      ArenaGone(linked, dropped, T(), a);
    }

    /** A client lets go of its shared pointer. */
    method Drop(x: Id, h: nat, ghost F: set<Id>)
      requires Valid() && x in objects && x in owners && Handle(h) in owners[x] && objects[x].kind != Device
      requires x in F && Closed(T(), F)
      modifies this
      ensures Valid()
      ensures old(owners[x]) == multiset{Handle(h)} ==>
                x !in objects && x !in owners && OthersKept(Revoke(old(T()), x, h), T(), F, x)
      ensures old(owners[x]) != multiset{Handle(h)} ==> T() == Revoke(old(T()), x, h)
      ensures old(Settled(T())) ==> Settled(T())
    {
      LetGo(x, h);
      ghost var revoked := T();
      LastOwner(old(owners[x]), Handle(h));
      Reap(x, F);
      if revoked.owners[x] == multiset{} && old(Settled(T())) {
        KeptSettled(revoked, T(), F, x);
      }
    }

    /** A device is no shared object: its owner destroys it, whether or not a network still refers to it. */
    method CloseDevice(x: Id, h: nat)
      requires Valid() && x in objects && x in owners && objects[x].kind == Device && owners[x] == multiset{Handle(h)}
      modifies this
      ensures Valid()
      ensures objects == old(objects) - {x} && owners == old(owners) - {x}
      ensures old(Settled(T())) ==> Settled(T())
      ensures old(DevicesOpen(T())) ==> (DevicesOpen(T()) <==> forall y :: y != x ==> !RefersTo(old(T()), y, x))
    {
      assert ObjectOk(T(), x);
      LevelZeroHasNoRefs(T(), x);
      LastOwner(owners[x], Handle(h));
      DeviceGone(T(), x, h);
      LetGo(x, h);
      CloseDescriptor(x);
      Free(x);
      if old(Settled(T())) {
        StillSettled(old(owners), x);
      }
      if old(DevicesOpen(T())) {
        ClosedDevicesOpenIff(old(T()), T(), x);
      }
    }
  }
}
