/** Interpreter: a device, a model buffer, its network, a tensor arena and the inference of the last Invoke. */
module Interpreters {
  import opened Bytes
  import opened Ownership
  import opened DriverLibrary

  /** The members made so far; the device is always first. */
  datatype Parts = Parts(device: Id, model: Option<Id>, arena: Option<Id>, network: Option<Id>, inference: Option<Id>) {

    /** What the library objects among them are; all pointers from these stay among them. */
    function Shared(): set<Id> {
      Single(model) + Single(arena) + Single(network) + Single(inference)
    }

    function All(): set<Id> {
      {device} + Shared()
    }
  }

  function Single(x: Option<Id>): set<Id> {
    if x.Some? then {x.value} else {}
  }

  /** The member itself and, if it exists, the object that points to it. */
  function OwnedBy(h: nat, up: Option<Id>): multiset<Owner> {
    if up.Some? then multiset{Handle(h), Member(up.value)} else multiset{Handle(h)}
  }

  predicate Is(t: Table, x: Option<Id>, kind: Kind, refs: seq<Id>, owners: multiset<Owner>) {
    x.Some? ==>
      && x.value in t.objects && x.value in t.owners
      && t.objects[x.value].kind == kind && t.objects[x.value].refs == refs && t.owners[x.value] == owners
      && (kind != Network ==> t.objects[x.value].device == None)
  }

  /** The interpreter of client h consists of these parts, which nobody else owns or refers to. */
  ghost predicate Held(t: Table, p: Parts, h: nat) {
    && Is(t, Some(p.device), Device, [], multiset{Handle(h)})
    && Is(t, p.model, Buffer, [], OwnedBy(h, p.network))
    && Is(t, p.network, Network, Listed(p.model), OwnedBy(h, p.inference))
    && Is(t, p.arena, Buffer, [], OwnedBy(h, p.inference))
    && Is(t, p.inference, Inference, Listed(p.network) + Listed(p.arena), multiset{Handle(h)})
    && (p.network.Some? ==> p.model.Some? && t.objects[p.network.value].device == Some(p.device))
    && (p.inference.Some? ==> p.network.Some? && p.arena.Some?)
    && (p.model.Some? ==> p.model != p.arena)
    && (forall y :: y in t.objects && t.objects[y].device == Some(p.device) ==> p.network == Some(y))
  }

  ghost predicate SameAt(t: Table, t': Table, y: Id) {
    && (y in t.objects <==> y in t'.objects) && (y in t.objects ==> t'.objects[y] == t.objects[y])
    && (y in t.owners <==> y in t'.owners) && (y in t.owners ==> t'.owners[y] == t.owners[y])
  }

  /** Nothing changed for any object outside S. */
  ghost predicate Outside(t: Table, t': Table, S: set<Id>) {
    forall y {:trigger SameAt(t, t', y)} :: y !in S ==> SameAt(t, t', y)
  }

  lemma OutsideTransitive(t0: Table, t1: Table, t2: Table, S: set<Id>)
    requires Outside(t0, t1, S) && Outside(t1, t2, S)
    ensures Outside(t0, t2, S)
  {
    forall y | y !in S
      ensures SameAt(t0, t2, y)
    {
      assert SameAt(t0, t1, y) && SameAt(t1, t2, y);
    }
  }

  lemma SameOutside(t: Table, S: set<Id>)
    ensures Outside(t, t, S)
  {
    forall y
      ensures SameAt(t, t, y)
    {
    }
  }

  /** Equal outside S and both without S: equal. */
  lemma OutsideIsAll(t: Table, t': Table, S: set<Id>)
    requires Good(t) && Good(t') && Outside(t, t', S)
    requires forall x :: x in S ==> x !in t.objects && x !in t'.objects
    ensures t == t'
  {
    forall y
      ensures y in t.objects <==> y in t'.objects
      ensures y in t.objects ==> t'.objects[y] == t.objects[y]
      ensures y in t.owners <==> y in t'.owners
      ensures y in t.owners ==> t'.owners[y] == t.owners[y]
    {
      assert y !in S ==> SameAt(t, t', y);
      assert ObjectOk(t, y) && ObjectOk(t', y);
    }
    assert t.objects == t'.objects && t.owners == t'.owners;
    SameObjectsSameKernel(t, t');
  }

  /** Creating an object changes nothing but itself and what it points to. */
  lemma CreatedOutside(t: Table, t': Table, x: Id, kind: Kind, refs: seq<Id>, device: Option<Id>, h: nat, S: set<Id>)
    requires Good(t) && Created(t, t', x, kind, refs, device, h)
    requires x in S && forall r :: r in refs ==> r in S
    ensures Outside(t, t', S)
  {
    forall y | y !in S
      ensures SameAt(t, t', y)
    {
      assert PlusAt(t, t', x, refs, y) && PairOk(t, x, y);
      assert multiset(refs)[y] == 0;
    }
  }

  /** A release within F changes nothing outside F. */
  lemma KeptOutside(t: Table, t': Table, F: set<Id>, x: Id, h: nat, S: set<Id>)
    requires Good(t) && Good(t') && x in t.owners && OthersKept(Revoke(t, x, h), t', F, x)
    requires x in S && F <= S
    ensures Outside(t, t', S)
  {
    forall y | y !in S
      ensures SameAt(t, t', y)
    {
      assert Kept(Revoke(t, x, h), t', F, y);
      assert ObjectOk(t, y) && ObjectOk(t', y);
    }
  }

  /** An object whose only other owner was the released one is left with its client. */
  lemma LeftWithClient(t: Table, t': Table, F: set<Id>, x: Id, y: Id, h: nat)
    requires Good(t) && Good(t') && x in t.owners && y in t.objects && y in t.owners && y != x && x !in t'.objects
    requires Kept(Revoke(t, x, h), t', F, y)
    requires t.owners[y] == multiset{Handle(h), Member(x)} || t.owners[y] == multiset{Handle(h)}
    ensures y in t'.objects && y in t'.owners && t'.objects[y] == t.objects[y] && t'.owners[y] == multiset{Handle(h)}
  {
    assert t.owners[y][Handle(h)] == 1;
    assert ObjectOk(t', y) && PairOk(t', x, y);
    assert t'.owners[y] <= t.owners[y];
    assert t'.owners[y][Member(x)] == 0 && t'.owners[y][Handle(h)] == 1;
  }

  /** An object with one other owner, not released, keeps both. */
  lemma LeftAlone(t: Table, t': Table, F: set<Id>, x: Id, y: Id, z: Id, h: nat)
    requires Good(t) && Good(t') && x in t.owners && y in t.objects && y in t.owners && y != x
    requires z in t.objects && z in t'.objects && t'.objects[z] == t.objects[z]
    requires Kept(Revoke(t, x, h), t', F, y) && t.owners[y] == multiset{Handle(h), Member(z)}
    ensures y in t'.objects && y in t'.owners && t'.objects[y] == t.objects[y] && t'.owners[y] == t.owners[y]
  {
    assert t.owners[y][Handle(h)] == 1 && t.owners[y][Member(z)] == 1;
    assert ObjectOk(t', y) && PairOk(t', z, y) && PairOk(t, z, y);
  }

  lemma HeldClosed(t: Table, p: Parts, h: nat)
    requires Held(t, p, h)
    ensures Closed(t, p.Shared())
  {
  }

  /** x was the client's, was released and is gone; the rest of F lost no more than pointers from x. */
  ghost predicate Released(t: Table, t': Table, x: Id, F: set<Id>, h: nat) {
    && Good(t) && Good(t') && x in t.owners && x in t.objects
    && x !in t'.objects && x !in t'.owners && OthersKept(Revoke(t, x, h), t', F, x)
  }

  /** What is not in F, such as the device, is as before. */
  lemma Untouched(t: Table, t': Table, x: Id, F: set<Id>, h: nat, y: Id)
    requires Released(t, t', x, F, h) && y in t.objects && y in t.owners && y !in F && y != x
    ensures y in t'.objects && y in t'.owners && t'.objects[y] == t.objects[y] && t'.owners[y] == t.owners[y]
  {
    assert Kept(Revoke(t, x, h), t', F, y) && ObjectOk(t', y);
  }

  lemma NoNewNetwork(t: Table, t': Table, x: Id, F: set<Id>, h: nat, dev: Id)
    requires Released(t, t', x, F, h)
    ensures forall y :: y in t'.objects && t'.objects[y].device == Some(dev) ==>
                          y != x && y in t.objects && t.objects[y].device == Some(dev)
  {
    forall y | y in t'.objects
      ensures y != x && y in t.objects && t'.objects[y] == t.objects[y]
    {
      assert Kept(Revoke(t, x, h), t', F, y);
    }
  }

  lemma ReleasedInference(t: Table, t': Table, p: Parts, h: nat)
    requires Held(t, p, h) && p.inference.Some? && Released(t, t', p.inference.value, p.Shared(), h)
    ensures Held(t', p.(inference := None), h)
  {
    var x, F := p.inference.value, p.Shared();
    var n, a, m := p.network.value, p.arena.value, p.model.value;
    Untouched(t, t', x, F, h, p.device);
    assert Kept(Revoke(t, x, h), t', F, n) && Kept(Revoke(t, x, h), t', F, a) && Kept(Revoke(t, x, h), t', F, m);
    LeftWithClient(t, t', F, x, n, h);
    LeftWithClient(t, t', F, x, a, h);
    LeftAlone(t, t', F, x, m, n, h);
    NoNewNetwork(t, t', x, F, h, p.device);
  }

  lemma ReleasedNetwork(t: Table, t': Table, p: Parts, h: nat)
    requires Held(t, p, h) && p.inference == None && p.network.Some? && Released(t, t', p.network.value, p.Shared(), h)
    ensures Held(t', p.(network := None), h)
  {
    var x, F := p.network.value, p.Shared();
    Untouched(t, t', x, F, h, p.device);
    assert Kept(Revoke(t, x, h), t', F, p.model.value);
    LeftWithClient(t, t', F, x, p.model.value, h);
    if p.arena.Some? {
      assert Kept(Revoke(t, x, h), t', F, p.arena.value);
      LeftWithClient(t, t', F, x, p.arena.value, h);
    }
    NoNewNetwork(t, t', x, F, h, p.device);
  }

  lemma ReleasedArena(t: Table, t': Table, p: Parts, h: nat)
    requires Held(t, p, h) && p.network == None && p.arena.Some? && Released(t, t', p.arena.value, p.Shared(), h)
    ensures Held(t', p.(arena := None), h)
  {
    var x, F := p.arena.value, p.Shared();
    Untouched(t, t', x, F, h, p.device);
    if p.model.Some? {
      assert Kept(Revoke(t, x, h), t', F, p.model.value);
      LeftWithClient(t, t', F, x, p.model.value, h);
    }
    NoNewNetwork(t, t', x, F, h, p.device);
  }

  lemma ReleasedModel(t: Table, t': Table, p: Parts, h: nat)
    requires Held(t, p, h) && p.network == None && p.arena == None && p.model.Some?
        && Released(t, t', p.model.value, p.Shared(), h)
    ensures Held(t', p.(model := None), h)
  {
    Untouched(t, t', p.model.value, p.Shared(), h, p.device);
    NoNewNetwork(t, t', p.model.value, p.Shared(), h, p.device);
  }

  lemma OutsideWeaken(t: Table, t': Table, S: set<Id>, S': set<Id>)
    requires Outside(t, t', S) && S <= S'
    ensures Outside(t, t', S')
  {
    forall y | y !in S'
      ensures SameAt(t, t', y)
    {
      assert SameAt(t, t', y);
    }
  }

  /** Objects a new one does not point to keep their owners. */
  lemma CreatedKeeps(t: Table, t': Table, x: Id, kind: Kind, refs: seq<Id>, device: Option<Id>, h: nat, y: Id)
    requires Good(t) && Created(t, t', x, kind, refs, device, h) && y in t.objects && y in t.owners && y !in refs
    ensures y in t'.objects && y in t'.owners && t'.objects[y] == t.objects[y] && t'.owners[y] == t.owners[y]
  {
    assert PlusAt(t, t', x, refs, y) && PairOk(t, x, y);
    assert multiset(refs)[y] == 0;
  }

  /** A target with only its client gets the new object as second owner. */
  lemma CreatedShares(t: Table, t': Table, x: Id, kind: Kind, refs: seq<Id>, device: Option<Id>, h: nat, y: Id)
    requires Good(t) && Created(t, t', x, kind, refs, device, h) && y in t.objects && y in t.owners
    requires multiset(refs)[y] == 1
    ensures y in t'.objects && y in t'.owners && t'.objects[y] == t.objects[y]
    ensures t'.owners[y] == t.owners[y] + multiset{Member(x)}
  {
    assert PlusAt(t, t', x, refs, y) && PairOk(t, x, y);
    assert t.owners[y][Member(x)] == 0;
  }

  lemma MadeDevice(t: Table, t': Table, x: Id, h: nat)
    requires Good(t) && Created(t, t', x, Device, [], None, h)
    requires forall y :: y in t.objects ==> t.objects[y].device != Some(x)
    ensures Held(t', Parts(x, None, None, None, None), h)
  {
  }

  lemma MadeModel(t: Table, t': Table, p: Parts, x: Id, h: nat)
    requires Good(t) && Held(t, p, h) && p.model == p.arena == p.network == p.inference == None
    requires Created(t, t', x, Buffer, [], None, h)
    ensures Held(t', p.(model := Some(x)), h)
  {
    CreatedKeeps(t, t', x, Buffer, [], None, h, p.device);
  }

  lemma MadeNetwork(t: Table, t': Table, p: Parts, x: Id, h: nat)
    requires Good(t) && Held(t, p, h) && p.model.Some? && p.arena == p.network == p.inference == None
    requires Created(t, t', x, Network, [p.model.value], Some(p.device), h)
    ensures Held(t', p.(network := Some(x)), h)
  {
    CreatedKeeps(t, t', x, Network, [p.model.value], Some(p.device), h, p.device);
    CreatedShares(t, t', x, Network, [p.model.value], Some(p.device), h, p.model.value);
  }

  lemma MadeArena(t: Table, t': Table, p: Parts, x: Id, h: nat)
    requires Good(t) && Held(t, p, h) && p.network.Some? && p.arena == p.inference == None
    requires Created(t, t', x, Buffer, [], None, h)
    ensures Held(t', p.(arena := Some(x)), h)
  {
    CreatedKeeps(t, t', x, Buffer, [], None, h, p.device);
    CreatedKeeps(t, t', x, Buffer, [], None, h, p.model.value);
    CreatedKeeps(t, t', x, Buffer, [], None, h, p.network.value);
  }

  /** Between calls no other object than the inference points to the network. */
  lemma OnlyInference(t: Table, p: Parts, h: nat, y: Id)
    requires Good(t) && Held(t, p, h) && p.network.Some? && y in t.objects && p.network.value in t.objects[y].refs
    ensures p.inference == Some(y)
  {
    assert PairOk(t, y, p.network.value);
    assert multiset(t.objects[y].refs)[p.network.value] > 0;
  }

  lemma PartsOwned(t: Table, p: Parts, h: nat)
    requires Good(t) && Held(t, p, h)
    ensures IsOpenDevice(t, p.device)
    ensures p.model.Some? ==> Owned(t, p.model.value) && t.objects[p.model.value].kind == Buffer
    ensures p.arena.Some? ==> Owned(t, p.arena.value) && t.objects[p.arena.value].kind == Buffer
    ensures p.network.Some? ==> Owned(t, p.network.value) && t.objects[p.network.value].kind == Network
    ensures p.inference.Some? ==> p.inference.value in t.objects
  {
    assert ObjectOk(t, p.device);
  }

  /** While the inference exists, everything below it is open. */
  lemma ChainOpen(t: Table, p: Parts, h: nat)
    requires Good(t) && Held(t, p, h) && p.network.Some?
    ensures IsOpen(t, p.network.value) && IsOpen(t, p.model.value) && IsOpen(t, p.device)
    ensures p.arena.Some? ==> IsOpen(t, p.arena.value)
    ensures p.inference.Some? ==> IsOpen(t, p.inference.value)
  {
    assert ObjectOk(t, p.network.value) && ObjectOk(t, p.model.value) && ObjectOk(t, p.device);
    if p.arena.Some? {
      assert ObjectOk(t, p.arena.value);
    }
    if p.inference.Some? {
      assert ObjectOk(t, p.inference.value);
    }
  }

  /**
   * Nothing that was absent has appeared, nothing has lost its last owner without going, and no open network has lost
   * its device.
   */
  ghost predicate Shrunk(t: Table, t': Table) {
    && (forall y :: y in t'.objects ==> y in t.objects) && (Settled(t) ==> Settled(t'))
    && (DevicesOpen(t) ==> DevicesOpen(t'))
  }

  /** Releases member x, of which the client is the only owner left. */
  method ReleaseMember(lib: Library, p: Parts, h: nat, x: Id)
    requires lib.Valid() && Held(lib.T(), p, h) && x in p.Shared() && lib.owners[x] == multiset{Handle(h)}
    modifies lib
    ensures lib.Valid() && Released(old(lib.T()), lib.T(), x, p.Shared(), h)
    ensures Outside(old(lib.T()), lib.T(), p.All()) && Shrunk(old(lib.T()), lib.T())
  {
    HeldClosed(lib.T(), p, h);
    ghost var t := lib.T();
    lib.Drop(x, h, p.Shared());
    KeptOutside(t, lib.T(), p.Shared(), x, h, p.All());
    forall y | y in lib.objects
      ensures y in t.objects
    {
      assert Kept(Revoke(t, x, h), lib.T(), p.Shared(), y);
    }
    if DevicesOpen(t) {
      RevokeKeeps(t, x, h);
      SameObjectsSameDevices(t, Revoke(t, x, h));
      ReleasedDevicesOpen(Revoke(t, x, h), lib.T(), p.Shared(), x);
    }
  }

  method TearInference(lib: Library, p: Parts, h: nat, ghost S: set<Id>) returns (q: Parts)
    requires lib.Valid() && Held(lib.T(), p, h) && p.All() <= S
    modifies lib
    ensures lib.Valid() && q == p.(inference := None) && Held(lib.T(), q, h)
    ensures Outside(old(lib.T()), lib.T(), S) && Shrunk(old(lib.T()), lib.T())
    ensures p.inference.Some? ==> p.inference.value !in lib.objects
  {
    q := p;
    if p.inference.Some? {
      ReleaseMember(lib, p, h, p.inference.value);
      ReleasedInference(old(lib.T()), lib.T(), p, h);
      OutsideWeaken(old(lib.T()), lib.T(), p.All(), S);
      q := p.(inference := None);
    }
  }

  method TearNetwork(lib: Library, p: Parts, h: nat, ghost S: set<Id>) returns (q: Parts)
    requires lib.Valid() && Held(lib.T(), p, h) && p.inference == None && p.All() <= S
    modifies lib
    ensures lib.Valid() && q == p.(network := None) && Held(lib.T(), q, h)
    ensures Outside(old(lib.T()), lib.T(), S) && Shrunk(old(lib.T()), lib.T())
    ensures p.network.Some? ==> p.network.value !in lib.objects
  {
    q := p;
    if p.network.Some? {
      ReleaseMember(lib, p, h, p.network.value);
      ReleasedNetwork(old(lib.T()), lib.T(), p, h);
      OutsideWeaken(old(lib.T()), lib.T(), p.All(), S);
      q := p.(network := None);
    }
  }

  method TearArena(lib: Library, p: Parts, h: nat, ghost S: set<Id>) returns (q: Parts)
    requires lib.Valid() && Held(lib.T(), p, h) && p.network == None && p.All() <= S
    modifies lib
    ensures lib.Valid() && q == p.(arena := None) && Held(lib.T(), q, h)
    ensures Outside(old(lib.T()), lib.T(), S) && Shrunk(old(lib.T()), lib.T())
    ensures p.arena.Some? ==> p.arena.value !in lib.objects
  {
    q := p;
    if p.arena.Some? {
      ReleaseMember(lib, p, h, p.arena.value);
      ReleasedArena(old(lib.T()), lib.T(), p, h);
      OutsideWeaken(old(lib.T()), lib.T(), p.All(), S);
      q := p.(arena := None);
    }
  }

  method TearModel(lib: Library, p: Parts, h: nat, ghost S: set<Id>) returns (q: Parts)
    requires lib.Valid() && Held(lib.T(), p, h) && p.network == p.arena == None && p.All() <= S
    modifies lib
    ensures lib.Valid() && q == p.(model := None) && Held(lib.T(), q, h)
    ensures Outside(old(lib.T()), lib.T(), S) && Shrunk(old(lib.T()), lib.T())
    ensures p.model.Some? ==> p.model.value !in lib.objects
  {
    q := p;
    if p.model.Some? {
      ReleaseMember(lib, p, h, p.model.value);
      ReleasedModel(old(lib.T()), lib.T(), p, h);
      OutsideWeaken(old(lib.T()), lib.T(), p.All(), S);
      q := p.(model := None);
    }
  }

  method TearDevice(lib: Library, p: Parts, h: nat, ghost S: set<Id>)
    requires lib.Valid() && Held(lib.T(), p, h) && p.network == None && p.device in S
    modifies lib
    ensures lib.Valid() && Outside(old(lib.T()), lib.T(), S) && Shrunk(old(lib.T()), lib.T())
        && p.device !in lib.objects
  {
    lib.CloseDevice(p.device, h);
    forall y | y !in S
      ensures SameAt(old(lib.T()), lib.T(), y)
    {
    }
  }

  predicate Gone(t: Table, x: Option<Id>) {
    x.Some? ==> x.value !in t.objects
  }

  /** ~Interpreter as far as the arena: inference, network, arena. */
  method TearUpper(lib: Library, parts: Parts, h: nat, ghost S: set<Id>) returns (p: Parts)
    requires lib.Valid() && Held(lib.T(), parts, h) && parts.All() <= S
    modifies lib
    ensures lib.Valid() && p == Parts(parts.device, parts.model, None, None, None) && Held(lib.T(), p, h)
    ensures Outside(old(lib.T()), lib.T(), S) && Shrunk(old(lib.T()), lib.T())
    ensures Gone(lib.T(), parts.inference) && Gone(lib.T(), parts.network) && Gone(lib.T(), parts.arena)
  {
    p := TearInference(lib, parts, h, S);
    ghost var t1 := lib.T();
    p := TearNetwork(lib, p, h, S);
    ghost var t2 := lib.T();
    OutsideTransitive(old(lib.T()), t1, t2, S);
    p := TearArena(lib, p, h, S);
    OutsideTransitive(old(lib.T()), t2, lib.T(), S);
  }

  /** And the rest: model buffer, device. */
  method TearLower(lib: Library, p: Parts, h: nat, ghost S: set<Id>)
    requires lib.Valid() && Held(lib.T(), p, h) && p == Parts(p.device, p.model, None, None, None) && p.All() <= S
    modifies lib
    ensures lib.Valid() && Outside(old(lib.T()), lib.T(), S) && Shrunk(old(lib.T()), lib.T())
    ensures Gone(lib.T(), p.model) && p.device !in lib.objects
  {
    var q := TearModel(lib, p, h, S);
    ghost var t := lib.T();
    TearDevice(lib, q, h, S);
    OutsideTransitive(old(lib.T()), t, lib.T(), S);
  }

  /**
   * Destroys the members, last declared first: inference, network, arena, model buffer, device. The destructor does
   * this, and so does a constructor that throws, with the members it has made.
   */
  method TearDown(lib: Library, parts: Parts, h: nat)
    requires lib.Valid() && Held(lib.T(), parts, h)
    modifies lib
    ensures lib.Valid() && Outside(old(lib.T()), lib.T(), parts.All()) && Shrunk(old(lib.T()), lib.T())
    ensures forall x :: x in parts.All() ==> x !in lib.objects
  {
    ghost var S := parts.All();
    var p := TearUpper(lib, parts, h, S);
    ghost var t := lib.T();
    TearLower(lib, p, h, S);
    OutsideTransitive(old(lib.T()), t, lib.T(), S);
    AllGone(t, lib.T(), parts);
  }

  lemma AllGone(t: Table, t': Table, p: Parts)
    requires Gone(t, p.inference) && Gone(t, p.network) && Gone(t, p.arena) && Shrunk(t, t')
    requires Gone(t', p.model) && p.device !in t'.objects
    ensures forall x :: x in p.All() ==> x !in t'.objects
  {
  }

  /** The constructor's unwinding restores the library and the kernel exactly. */
  method Unwind(lib: Library, p: Parts, h: nat, ghost t0: Table)
    requires lib.Valid() && Held(lib.T(), p, h)
    requires Good(t0) && Outside(t0, lib.T(), p.All()) && forall x :: x in p.All() ==> x !in t0.objects
    modifies lib
    ensures lib.Valid() && lib.T() == t0
  {
    ghost var t := lib.T();
    TearDown(lib, p, h);
    OutsideTransitive(t0, t, lib.T(), p.All());
    OutsideIsAll(t0, lib.T(), p.All());
  }

  /** A released inference leaves its network and arena to the client and to the inference that replaced it. */
  lemma LeftWithNext(t: Table, t': Table, F: set<Id>, x: Id, z: Id, y: Id, h: nat)
    requires Released(t, t', x, F, h) && y in t.objects && y in t.owners && y != x && z != x
    requires z in t.objects && z in t'.objects && t'.objects[z] == t.objects[z]
    requires t.owners[y] == multiset{Handle(h), Member(x), Member(z)}
    ensures y in t'.objects && y in t'.owners && t'.objects[y] == t.objects[y]
    ensures t'.owners[y] == multiset{Handle(h), Member(z)}
  {
    assert Kept(Revoke(t, x, h), t', F, y);
    assert t.owners[y][Handle(h)] == 1 && t.owners[y][Member(z)] == 1;
    assert ObjectOk(t', y) && PairOk(t', x, y) && PairOk(t', z, y) && PairOk(t, z, y);
  }

  lemma MadeInference(t: Table, t': Table, p: Parts, x: Id, h: nat)
    requires Good(t) && Held(t, p, h) && p.network.Some? && p.arena.Some? && p.inference == None
    requires Created(t, t', x, Inference, [p.network.value, p.arena.value], None, h)
    ensures Held(t', p.(inference := Some(x)), h)
  {
    var refs := [p.network.value, p.arena.value];
    CreatedKeeps(t, t', x, Inference, refs, None, h, p.device);
    CreatedKeeps(t, t', x, Inference, refs, None, h, p.model.value);
    CreatedShares(t, t', x, Inference, refs, None, h, p.network.value);
    CreatedShares(t, t', x, Inference, refs, None, h, p.arena.value);
  }

  /** For a moment two inferences share the network and the arena. */
  ghost predicate HeldTwice(t: Table, p: Parts, x: Id, h: nat) {
    && p.inference.Some? && p.network.Some? && p.arena.Some? && p.model.Some?
    && Is(t, Some(p.device), Device, [], multiset{Handle(h)})
    && Is(t, p.model, Buffer, [], OwnedBy(h, p.network))
    && Is(t, p.network, Network, [p.model.value], multiset{Handle(h), Member(p.inference.value), Member(x)})
    && Is(t, p.arena, Buffer, [], multiset{Handle(h), Member(p.inference.value), Member(x)})
    && Is(t, p.inference, Inference, [p.network.value, p.arena.value], multiset{Handle(h)})
    && Is(t, Some(x), Inference, [p.network.value, p.arena.value], multiset{Handle(h)})
    && x != p.inference.value && p.model != p.arena
    && t.objects[p.network.value].device == Some(p.device)
    && (forall y :: y in t.objects && t.objects[y].device == Some(p.device) ==> p.network == Some(y))
  }

  lemma MadeSecond(t: Table, t': Table, p: Parts, x: Id, h: nat)
    requires Good(t) && Held(t, p, h) && p.inference.Some?
    requires Created(t, t', x, Inference, [p.network.value, p.arena.value], None, h)
    ensures HeldTwice(t', p, x, h)
  {
    var refs := [p.network.value, p.arena.value];
    CreatedKeeps(t, t', x, Inference, refs, None, h, p.device);
    CreatedKeeps(t, t', x, Inference, refs, None, h, p.model.value);
    CreatedKeeps(t, t', x, Inference, refs, None, h, p.inference.value);
    CreatedShares(t, t', x, Inference, refs, None, h, p.network.value);
    CreatedShares(t, t', x, Inference, refs, None, h, p.arena.value);
    ThreeOwners(h, p.inference.value, x);
  }

  lemma ThreeOwners(h: nat, i: Id, x: Id)
    ensures multiset{Handle(h), Member(i)} + multiset{Member(x)} == multiset{Handle(h), Member(i), Member(x)}
  {
  }

  lemma TwiceClosed(t: Table, p: Parts, x: Id, h: nat)
    requires HeldTwice(t, p, x, h)
    ensures Closed(t, p.Shared() + {x})
  {
  }

  lemma ReleasedFirst(t: Table, t': Table, p: Parts, x: Id, h: nat)
    requires HeldTwice(t, p, x, h) && Released(t, t', p.inference.value, p.Shared() + {x}, h)
    ensures Held(t', p.(inference := Some(x)), h)
  {
    var i, F := p.inference.value, p.Shared() + {x};
    var n, a, m := p.network.value, p.arena.value, p.model.value;
    Untouched(t, t', i, F, h, p.device);
    assert Kept(Revoke(t, i, h), t', F, x) && Kept(Revoke(t, i, h), t', F, m) && Kept(Revoke(t, i, h), t', F, n);
    LeftWithClient(t, t', F, i, x, h);
    LeftWithNext(t, t', F, i, x, n, h);
    LeftWithNext(t, t', F, i, x, a, h);
    LeftAlone(t, t', F, i, m, n, h);
    NoNewNetwork(t, t', i, F, h, p.device);
  }

  /** A new inference has replaced the old one, upon one request, on the network, for the arena alone. */
  ghost predicate Renewed(t: Table, t': Table, p: Parts, p': Parts, before: seq<Request>, after: seq<Request>) {
    && p'.inference.Some? && p'.inference.value !in t.objects && Gone(t', p.inference)
    && p'.network.Some? && p'.arena.Some?
    && Issued(before, after, t', p'.network.value, [p'.arena.value], [])
  }

  /** Client h's interpreter. */
  class Interpreter {
    const lib: Library
    const h: nat
    var parts: Parts
    var pmuCounters: seq<int>

    /** Constructed, and perhaps invoked. */
    ghost predicate Valid()
      reads this, lib
    {
      lib.Valid() && Settled(lib.T()) && Held(lib.T(), parts, h) && Complete()
    }

    /** The constructor has made everything, and the counters have been set rightly if at all. */
    predicate Complete()
      reads this
    {
      parts.network.Some? && parts.arena.Some? && |pmuCounters| in {0, PMU_EVENT_MAX}
    }

    constructor (lib: Library, parts: Parts, h: nat)
      ensures this.lib == lib && this.parts == parts && this.h == h && pmuCounters == []
    {
      this.lib, this.parts, this.h, pmuCounters := lib, parts, h, [];
    }

    /** False is the exception for a wrong number of counters. */
    method SetPmuCycleCounters(counters: seq<int>) returns (ok: bool)
      requires Valid()
      modifies this`pmuCounters
      ensures Valid() && (ok <==> |counters| == PMU_EVENT_MAX)
      ensures pmuCounters == if ok then counters else old(pmuCounters)
    {
      ok := |counters| == PMU_EVENT_MAX;
      if ok {
        pmuCounters := counters;
      }
    }

    /** The assignment of a new inference to the member: the old one, if any, is released after the new one exists. */
    method Assign(x: Id, ghost t: Table)
      requires Good(t) && Settled(t) && Held(t, parts, h) && parts.network.Some? && parts.arena.Some? && lib.Valid()
      requires |pmuCounters| in {0, PMU_EVENT_MAX}
      requires Created(t, lib.T(), x, Inference, [parts.network.value, parts.arena.value], None, h)
      modifies this`parts, lib
      ensures Valid() && parts == old(parts).(inference := Some(x))
      ensures Outside(t, lib.T(), old(parts).All() + {x})
      ensures Gone(lib.T(), old(parts).inference)
      ensures forall y :: y in lib.objects ==> y in old(lib.objects) && lib.objects[y] == old(lib.objects)[y]
    {
      ghost var refs, S := [parts.network.value, parts.arena.value], parts.All() + {x};
      ghost var t' := lib.T();
      CreatedSettled(t, t', x, Inference, refs, None, h);
      CreatedOutside(t, t', x, Inference, refs, None, h, S);
      if parts.inference == None {
        MadeInference(t, t', parts, x, h);
      } else {
        MadeSecond(t, t', parts, x, h);
        ReleaseOld(x, S);
        OutsideTransitive(t, t', lib.T(), S);
      }
      parts := parts.(inference := Some(x));
    }

    method ReleaseOld(x: Id, ghost S: set<Id>)
      requires lib.Valid() && Settled(lib.T()) && HeldTwice(lib.T(), parts, x, h) && parts.All() + {x} <= S
      modifies lib
      ensures lib.Valid() && Settled(lib.T()) && Held(lib.T(), parts.(inference := Some(x)), h)
      ensures Outside(old(lib.T()), lib.T(), S) && Gone(lib.T(), parts.inference)
      ensures forall y :: y in lib.objects ==> y in old(lib.objects) && lib.objects[y] == old(lib.objects)[y]
    {
      ghost var t, F := lib.T(), parts.Shared() + {x};
      TwiceClosed(t, parts, x, h);
      lib.Drop(parts.inference.value, h, F);
      ReleasedFirst(t, lib.T(), parts, x, h);
      KeptOutside(t, lib.T(), F, parts.inference.value, h, S);
      forall y | y in lib.objects
        ensures y in t.objects && lib.objects[y] == t.objects[y]
      {
        assert Kept(Revoke(t, parts.inference.value, h), lib.T(), F, y);
      }
    }

    /** The new inference becomes the member; its request still names the members' descriptors. */
    method Adopt(x: Id, ghost t: Table, ghost before: seq<Request>)
      requires Good(t) && Settled(t) && Held(t, parts, h) && parts.network.Some? && parts.arena.Some? && lib.Valid()
      requires |pmuCounters| in {0, PMU_EVENT_MAX}
      requires Created(t, lib.T(), x, Inference, [parts.network.value, parts.arena.value], None, h)
      requires Issued(before, lib.calls.requests, lib.T(), parts.network.value, [parts.arena.value], [])
      modifies this`parts, lib
      ensures Valid() && parts == old(parts).(inference := Some(x))
      ensures Outside(t, lib.T(), old(parts).All() + parts.All()) && Gone(lib.T(), old(parts).inference)
      ensures Issued(before, lib.calls.requests, lib.T(), parts.network.value, [parts.arena.value], [])
    {
      ghost var made := lib.T();
      Assign(x, t);
      StillIssued(before, lib.calls.requests, made, lib.T(), parts.network.value, [parts.arena.value], []);
      OutsideWeaken(t, lib.T(), old(parts).All() + {x}, old(parts).All() + parts.All());
    }

    /** make_shared and the assignment: a new inference replaces the old one, or creating it failed. */
    method Renew() returns (made: bool)
      requires Valid()
      modifies this`parts, lib, lib.calls
      ensures Valid() && parts == old(parts).(inference := parts.inference)
      ensures !made ==> parts == old(parts) && lib.T() == old(lib.T())
      ensures made ==> parts.inference != old(parts.inference)
      ensures made ==> Renewed(old(lib.T()), lib.T(), old(parts), parts, old(lib.calls.requests), lib.calls.requests)
      ensures made <==> lib.calls.failures == old(lib.calls.failures)
      ensures lib.calls.failures >= old(lib.calls.failures)
      ensures Outside(old(lib.T()), lib.T(), old(parts).All() + parts.All())
    {
      ghost var t := lib.T();
      PartsOwned(t, parts, h);
      var i := lib.NewInferenceOver(parts.network.value, parts.arena.value, |pmuCounters|, h);
      if i == None {
        SameOutside(t, parts.All() + parts.All());
        return false;
      }
      Adopt(i.value, t, old(lib.calls.requests));
      return true;
    }

    /**
     * Runs one inference. True is an exception: creating it failed and nothing changed, or waiting for it failed or its
     * status was not OK, and the new inference is kept. The one request issued is for the arena alone.
     */
    method Invoke(statusOk: bool) returns (threw: bool)
      requires Valid()
      modifies this`parts, lib, lib.calls
      ensures Valid() && parts == old(parts).(inference := parts.inference)
      ensures parts.inference == old(parts.inference) ==> threw && lib.T() == old(lib.T())
      ensures parts.inference != old(parts.inference) ==>
                Renewed(old(lib.T()), lib.T(), old(parts), parts, old(lib.calls.requests), lib.calls.requests)
      ensures threw <==> !statusOk || lib.calls.failures > old(lib.calls.failures)
      ensures lib.calls.failures == old(lib.calls.failures) ==> parts.inference != old(parts.inference)
      ensures lib.calls.failures >= old(lib.calls.failures)
      ensures Outside(old(lib.T()), lib.T(), old(parts).All() + parts.All())
    {
      var made := Renew();
      if !made {
        return true;
      }
      ghost var t, requests := lib.T(), lib.calls.requests;
      var waited := lib.Ask();
      assert lib.T() == t && lib.calls.requests == requests;
      return !waited || !statusOk;
    }

    /** ~Interpreter. */
    method Destroy()
      requires Valid()
      modifies lib
      ensures lib.Valid() && Settled(lib.T()) && Outside(old(lib.T()), lib.T(), parts.All())
      ensures forall x :: x in parts.All() ==> x !in lib.objects
      ensures old(DevicesOpen(lib.T())) ==> DevicesOpen(lib.T())
    {
      TearDown(lib, parts, h);
    }
  }

  /** The parts made so far belong to a constructor under way that started from t0. */
  ghost predicate Progress(t0: Table, t: Table, p: Parts, h: nat) {
    && Good(t0) && Held(t, p, h) && Outside(t0, t, p.All())
    && forall x :: x in p.All() ==> x !in t0.objects
  }

  /** One more member made: the constructor is still on its way. */
  lemma ProgressOn(t0: Table, t: Table, t': Table, p: Parts, p': Parts, x: Id, kind: Kind, refs: seq<Id>,
      device: Option<Id>, h: nat)
    requires Good(t) && Progress(t0, t, p, h) && Settled(t) && Created(t, t', x, kind, refs, device, h)
    requires Held(t', p', h) && p'.All() == p.All() + {x} && forall r :: r in refs ==> r in p.All()
    ensures Progress(t0, t', p', h) && Settled(t')
  {
    CreatedSettled(t, t', x, kind, refs, device, h);
    CreatedOutside(t, t', x, kind, refs, device, h, p'.All());
    assert SameAt(t0, t, x) || x in p.All();
    OutsideWeaken(t0, t, p.All(), p'.All());
    OutsideTransitive(t0, t, t', p'.All());
  }

  lemma ModelOn(t0: Table, t: Table, t': Table, p: Parts, x: Id, h: nat)
    requires Good(t) && Progress(t0, t, p, h) && Settled(t) && Created(t, t', x, Buffer, [], None, h)
    requires p == Parts(p.device, None, None, None, None)
    ensures Progress(t0, t', p.(model := Some(x)), h) && Settled(t')
  {
    MadeModel(t, t', p, x, h);
    ProgressOn(t0, t, t', p, p.(model := Some(x)), x, Buffer, [], None, h);
  }

  lemma NetworkOn(t0: Table, t: Table, t': Table, p: Parts, x: Id, h: nat)
    requires Good(t) && Progress(t0, t, p, h) && Settled(t)
    requires p.model.Some? && p.arena == p.network == p.inference == None
    requires Created(t, t', x, Network, [p.model.value], Some(p.device), h)
    ensures Progress(t0, t', p.(network := Some(x)), h) && Settled(t')
  {
    MadeNetwork(t, t', p, x, h);
    ProgressOn(t0, t, t', p, p.(network := Some(x)), x, Network, [p.model.value], Some(p.device), h);
  }

  lemma ArenaOn(t0: Table, t: Table, t': Table, p: Parts, x: Id, h: nat)
    requires Good(t) && Progress(t0, t, p, h) && Settled(t) && Created(t, t', x, Buffer, [], None, h)
    requires p.network.Some? && p.arena == p.inference == None
    ensures Progress(t0, t', p.(arena := Some(x)), h) && Settled(t')
  {
    MadeArena(t, t', p, x, h);
    ProgressOn(t0, t, t', p, p.(arena := Some(x)), x, Buffer, [], None, h);
  }

  /** Device(_device). */
  method MakeDevice(lib: Library, h: nat) returns (r: Option<Parts>)
    requires lib.Valid() && Settled(lib.T())
    modifies lib, lib.calls`failures
    ensures lib.calls.failures >= old(lib.calls.failures)
    ensures r == None <==> lib.calls.failures > old(lib.calls.failures)
    ensures lib.Valid() && (r == None ==> lib.T() == old(lib.T()))
    ensures r.Some? ==> Progress(old(lib.T()), lib.T(), r.value, h) && Settled(lib.T())
    ensures r.Some? ==> r.value == Parts(r.value.device, None, None, None, None)
  {
    ghost var t0 := lib.T();
    var d := lib.OpenDevice(h);
    if d == None {
      return None;
    }
    var p := Parts(d.value, None, None, None, None);
    MadeDevice(t0, lib.T(), d.value, h);
    CreatedSettled(t0, lib.T(), d.value, Device, [], None, h);
    CreatedOutside(t0, lib.T(), d.value, Device, [], None, h, p.All());
    return Some(p);
  }

  /** A step that makes no member; unless it went well, the constructor unwinds. */
  method Check(lib: Library, p: Parts, h: nat, well: bool, ghost t0: Table) returns (r: Option<Parts>)
    requires lib.Valid() && Progress(t0, lib.T(), p, h)
    modifies lib
    ensures lib.Valid() && (r == None ==> lib.T() == t0)
    ensures r.Some? <==> well
    ensures r.Some? ==> r.value == p && lib.T() == old(lib.T())
  {
    if !well {
      Unwind(lib, p, h, t0);
      return None;
    }
    return Some(p);
  }

  /** Capabilities, the model file, and its buffer. */
  method MakeModel(lib: Library, p: Parts, h: nat, opens: bool, ghost t0: Table) returns (r: Option<Parts>)
    requires lib.Valid() && Settled(lib.T()) && Progress(t0, lib.T(), p, h)
        && p == Parts(p.device, None, None, None, None)
    modifies lib, lib.calls`failures
    ensures lib.calls.failures >= old(lib.calls.failures)
    ensures r == None <==> lib.calls.failures > old(lib.calls.failures) || !opens
    ensures lib.Valid() && (r == None ==> lib.T() == t0)
    ensures r.Some? ==> Progress(t0, lib.T(), r.value, h) && Settled(lib.T())
    ensures r.Some? ==> r.value == p.(model := r.value.model) && r.value.model.Some?
  {
    var asked := lib.Ask();  // the capabilities request
    r := Check(lib, p, h, asked && opens, t0);
    if r == None {
      return;
    }
    PartsOwned(lib.T(), p, h);
    var b := lib.NewBuffer(p.device, h);
    if b == None {
      Unwind(lib, p, h, t0);
      return None;
    }
    var q := p.(model := b);
    ModelOn(t0, old(lib.T()), lib.T(), p, b.value, h);
    var resized := lib.Ask();
    r := Check(lib, q, h, resized, t0);
  }

  method MakeNetwork(lib: Library, p: Parts, h: nat, vela: bool, ghost t0: Table) returns (r: Option<Parts>)
    requires lib.Valid() && Settled(lib.T()) && Progress(t0, lib.T(), p, h)
    requires p.model.Some? && p.arena == p.network == p.inference == None
    modifies lib, lib.calls`failures, lib.calls`networks
    ensures lib.calls.failures >= old(lib.calls.failures)
    ensures r == None <==> lib.calls.failures > old(lib.calls.failures) || !vela
    ensures lib.Valid() && (r == None ==> lib.T() == t0)
    ensures r.Some? ==> Progress(t0, lib.T(), r.value, h) && Settled(lib.T())
    ensures r.Some? ==> r.value == p.(network := r.value.network) && r.value.network.Some?
  {
    PartsOwned(lib.T(), p, h);
    var n := lib.NewNetwork(p.device, p.model, h);
    if n == None {
      Unwind(lib, p, h, t0);
      return None;
    }
    r := CheckNetwork(lib, p, n.value, h, vela, t0, old(lib.T()));
  }

  /** A new network becomes a member and must turn out to be compiled by Vela. */
  method CheckNetwork(lib: Library, p: Parts, n: Id, h: nat, vela: bool, ghost t0: Table, ghost t: Table)
    returns (r: Option<Parts>)
    requires lib.Valid() && Good(t) && Settled(t) && Progress(t0, t, p, h)
    requires p.model.Some? && p.arena == p.network == p.inference == None
    requires Created(t, lib.T(), n, Network, [p.model.value], Some(p.device), h)
    modifies lib
    ensures lib.Valid() && (r == None ==> lib.T() == t0)
    ensures r.Some? <==> vela
    ensures r.Some? ==> Progress(t0, lib.T(), r.value, h) && Settled(lib.T()) && r.value == p.(network := Some(n))
  {
    NetworkOn(t0, t, lib.T(), p, n, h);
    r := Check(lib, p.(network := Some(n)), h, vela, t0);
  }

  method MakeArena(lib: Library, p: Parts, h: nat, ghost t0: Table) returns (r: Option<Parts>)
    requires lib.Valid() && Settled(lib.T()) && Progress(t0, lib.T(), p, h)
    requires p.network.Some? && p.arena == p.inference == None
    modifies lib, lib.calls`failures
    ensures lib.calls.failures >= old(lib.calls.failures)
    ensures r == None <==> lib.calls.failures > old(lib.calls.failures)
    ensures lib.Valid() && (r == None ==> lib.T() == t0)
    ensures r.Some? ==> Progress(t0, lib.T(), r.value, h) && Settled(lib.T())
    ensures r.Some? ==> r.value == p.(arena := r.value.arena) && r.value.arena.Some?
  {
    PartsOwned(lib.T(), p, h);
    var a := lib.NewBuffer(p.device, h);
    if a == None {
      Unwind(lib, p, h, t0);
      return None;
    }
    var q := p.(arena := a);
    ArenaOn(t0, old(lib.T()), lib.T(), p, a.value, h);
    var resized := lib.Ask();
    r := Check(lib, q, h, resized, t0);
  }

  /**
   * Interpreter's constructor; null is the exception. It takes a failed call, a model file that does not open, or a
   * model that is not compiled by Vela.
   */
  method Construct(lib: Library, h: nat, opens: bool, vela: bool) returns (r: Interpreter?)
    requires lib.Valid() && Settled(lib.T())
    modifies lib, lib.calls`failures, lib.calls`networks
    ensures lib.calls.failures >= old(lib.calls.failures)
    ensures r == null <==> lib.calls.failures > old(lib.calls.failures) || !opens || !vela
    ensures lib.Valid()
    ensures r == null ==> lib.T() == old(lib.T())
    ensures r != null ==>
              && fresh(r) && r.lib == lib && r.h == h && r.Valid() && r.parts.inference == None
              && Progress(old(lib.T()), lib.T(), r.parts, h)
  {
    var p := MakeDevice(lib, h);
    if p.Some? {
      p := MakeModel(lib, p.value, h, opens, old(lib.T()));
    }
    if p.Some? {
      p := MakeNetwork(lib, p.value, h, vela, old(lib.T()));
    }
    if p.Some? {
      p := MakeArena(lib, p.value, h, old(lib.T()));
    }
    if p == None {
      return null;
    }
    r := new Interpreter(lib, p.value, h);
  }

  /** Replacing the inference keeps an interpreter the only difference from the table it was constructed in. */
  lemma InvokedProgress(t0: Table, t: Table, t': Table, p: Parts, p': Parts, h: nat)
    requires Good(t0) && Good(t') && Progress(t0, t, p, h) && Held(t', p', h) && p' == p.(inference := p'.inference)
    requires Outside(t, t', p.All() + p'.All())
    requires p'.inference != p.inference ==>
               Gone(t', p.inference) && p'.inference.Some? && p'.inference.value !in t.objects
    ensures Progress(t0, t', p', h)
  {
    if p'.inference != p.inference {
      var x := p'.inference.value;
      assert x !in p.All() ==> SameAt(t0, t, x);
    }
    forall y | y !in p'.All()
      ensures SameAt(t0, t', y)
    {
      if y in p.All() {
        assert ObjectOk(t0, y) && ObjectOk(t', y);
      } else {
        assert SameAt(t0, t, y) && SameAt(t, t', y);
      }
    }
  }

  /** A valid interpreter, and nothing else since t0. */
  ghost predicate Alone(i: Interpreter, t0: Table)
    reads i, i.lib
  {
    i.Complete() && i.lib.Valid() && Settled(i.lib.T()) && Progress(t0, i.lib.T(), i.parts, i.h)
  }

  /** One invocation. */
  method InvokeOnce(i: Interpreter, statusOk: bool, ghost t0: Table) returns (threw: bool)
    requires Alone(i, t0)
    modifies i`parts, i.lib, i.lib.calls
    ensures Alone(i, t0)
    ensures i.lib.calls.failures >= old(i.lib.calls.failures)
    ensures i.lib.calls.failures == old(i.lib.calls.failures) ==>
              threw == !statusOk && |i.lib.calls.requests| == |old(i.lib.calls.requests)| + 1
  {
    ghost var t, p := i.lib.T(), i.parts;
    threw := i.Invoke(statusOk);
    InvokedProgress(t0, t, i.lib.T(), p, i.parts, i.h);
  }

  function Negated(s: seq<bool>): (r: seq<bool>)
    ensures |r| == |s| && forall k :: 0 <= k < |s| ==> r[k] == !s[k]
  {
    seq(|s|, k requires 0 <= k < |s| => !s[k])
  }

  /** What some invocations did to the journal: if no call failed, one request each, and bad statuses threw. */
  ghost predicate AllIssued(failed: bool, before: nat, after: nat, statuses: seq<bool>, threw: seq<bool>) {
    |threw| == |statuses| && (!failed ==> after == before + |statuses| && threw == Negated(statuses))
  }

  lemma IssuedFirst(failed: bool, failed': bool, before: nat, middle: nat, after: nat, statuses: seq<bool>,
        first: bool, rest: seq<bool>)
    requires statuses != [] && AllIssued(failed, middle, after, statuses[1..], rest) && (failed ==> failed')
    requires !failed' ==> middle == before + 1 && first == !statuses[0]
    ensures AllIssued(failed', before, after, statuses, [first] + rest)
  {
  }

  /** Invocations that end with these statuses, each of which may throw. */
  method InvokeMany(i: Interpreter, statuses: seq<bool>, ghost t0: Table) returns (threw: seq<bool>)
    requires Alone(i, t0)
    modifies i`parts, i.lib, i.lib.calls
    ensures Alone(i, t0)
    ensures i.lib.calls.failures >= old(i.lib.calls.failures)
    ensures AllIssued(i.lib.calls.failures > old(i.lib.calls.failures), |old(i.lib.calls.requests)|,
                      |i.lib.calls.requests|, statuses, threw)
    decreases |statuses|
  {
    if statuses == [] {
      return [];
    }
    var first := InvokeOnce(i, statuses[0], t0);
    ghost var failed, middle := i.lib.calls.failures, |i.lib.calls.requests|;
    var rest := InvokeMany(i, statuses[1..], t0);
    IssuedFirst(i.lib.calls.failures > failed, i.lib.calls.failures > old(i.lib.calls.failures),
                |old(i.lib.calls.requests)|, middle, |i.lib.calls.requests|, statuses, first, rest);
    threw := [first] + rest;
  }

  method Finish(i: Interpreter, ghost t0: Table)
    requires Alone(i, t0)
    modifies i.lib
    ensures i.lib.Valid() && i.lib.T() == t0
  {
    ghost var t, S := i.lib.T(), i.parts.All();
    i.Destroy();
    OutsideTransitive(t0, t, i.lib.T(), S);
    OutsideIsAll(t0, i.lib.T(), S);
  }

  /** From construction to destruction. */
  method LiveOn(i: Interpreter, statuses: seq<bool>, ghost t0: Table) returns (threw: seq<bool>)
    requires Alone(i, t0)
    modifies i`parts, i.lib, i.lib.calls
    ensures i.lib.Valid() && i.lib.T() == t0 && i.lib.calls.failures >= old(i.lib.calls.failures)
    ensures AllIssued(i.lib.calls.failures > old(i.lib.calls.failures), |old(i.lib.calls.requests)|,
                      |i.lib.calls.requests|, statuses, threw)
  {
    threw := InvokeMany(i, statuses, t0);
    Finish(i, t0);
  }

  /**
   * A whole life: construction, an invocation for each status, destruction, with any call of the kernel failing. It
   * leaves the library and the kernel exactly as it found them, and if no call failed, then one request was issued for
   * each invocation, and exactly those threw that ended with a bad status.
   */
  method Life(lib: Library, h: nat, opens: bool, vela: bool, statuses: seq<bool>)
    returns (constructed: bool, threw: seq<bool>)
    requires lib.Valid() && Settled(lib.T())
    modifies lib, lib.calls
    ensures lib.Valid() && lib.T() == old(lib.T())
    ensures constructed ==> opens && vela && |threw| == |statuses|
    ensures lib.calls.failures == old(lib.calls.failures) && opens && vela ==>
              && constructed && |lib.calls.requests| == |old(lib.calls.requests)| + |statuses|
              && threw == Negated(statuses)
  {
    var i := Construct(lib, h, opens, vela);
    if i == null {
      return false, [];
    }
    threw := LiveOn(i, statuses, old(lib.T()));
    return true, threw;
  }
}
