/**
 * What owns what in the driver library: objects, the descriptors and mappings they hold, and the shared pointers
 * between them. An object whose constructor or destructor is under way is in the table too, with what it then holds.
 */
module Ownership {
  import opened Bytes

  type Id = nat

  datatype Kind = Device | Buffer | Network | Inference

  /** Shared pointers lead from a higher rank to a lower one. */
  function Rank(k: Kind): nat {
    match k case Device => 0 case Buffer => 1 case Network => 2 case Inference => 3
  }

  /**
   * `refs` are the shared pointers among the members, in the order they were made, and they are destroyed last to
   * first; `device` is the reference a network keeps to its device.
   */
  datatype Object = Object(kind: Kind, fd: Option<nat>, mapping: Option<nat>, refs: seq<Id>, device: Option<Id>)

  /** Holder of one shared pointer (or, for a device, of the object itself): a client or another object. */
  datatype Owner = Handle(client: nat) | Member(of: Id)

  /** `holder` and `mapper` say whose each open descriptor and each mapping is. */
  datatype Table = Table(objects: map<Id, Object>, owners: map<Id, multiset<Owner>>, holder: map<nat, Id>,
      mapper: map<nat, Id>)

  predicate IsOpen(t: Table, x: Id) {
    x in t.objects && t.objects[x].fd.Some?
  }

  predicate IsOpenDevice(t: Table, x: Id) {
    IsOpen(t, x) && t.objects[x].kind == Device
  }

  /** Whatever anybody owns is fully constructed and not being destroyed. */
  ghost predicate OwnedIsOpen(t: Table, x: Id)
    requires x in t.objects && x in t.owners
  {
    t.owners[x] != multiset{} ==> t.objects[x].fd.Some? && (t.objects[x].kind == Buffer ==> t.objects[x].mapping.Some?)
  }

  /** Every open descriptor and every mapping is held by the object it is booked to. */
  predicate KernelOk(t: Table, f: nat) {
    && (f in t.holder ==> t.holder[f] in t.objects && t.objects[t.holder[f]].fd == Some(f))
    && (f in t.mapper ==> t.mapper[f] in t.objects && t.objects[t.mapper[f]].mapping == Some(f))
  }

  /** What an object holds is booked to it, and if owned it is open. */
  ghost predicate ObjectOk(t: Table, x: Id) {
    && (x in t.objects <==> x in t.owners)
    && (x in t.objects ==>
          var o := t.objects[x];
          && (o.fd.Some? ==> o.fd.value in t.holder && t.holder[o.fd.value] == x)
          && (o.mapping.Some? ==> o.kind == Buffer && o.mapping.value in t.mapper && t.mapper[o.mapping.value] == x)
          && OwnedIsOpen(t, x))
  }

  /** x is an owner of y once for every shared pointer it has to it, and such pointers lead down in rank. */
  ghost predicate PairOk(t: Table, x: Id, y: Id) {
    && (y in t.owners ==> t.owners[y][Member(x)] == if x in t.objects then multiset(t.objects[x].refs)[y] else 0)
    && (x in t.objects && y in t.objects[x].refs ==>
          && y in t.owners && y in t.objects
          && t.objects[y].kind != Device && Rank(t.objects[y].kind) < Rank(t.objects[x].kind))
  }

  ghost predicate Good(t: Table) {
    && (forall f {:trigger KernelOk(t, f)} :: KernelOk(t, f))
    && (forall x {:trigger ObjectOk(t, x)} :: ObjectOk(t, x))
    && (forall x, y {:trigger PairOk(t, x, y)} :: PairOk(t, x, y))
  }

  /** Between calls nothing is half-built: every object has an owner. */
  ghost predicate Settled(t: Table) {
    forall x :: x in t.owners ==> t.owners[x] != multiset{}
  }

  /** An object, open or not, has everything it points to open. */
  lemma OpenNeedsOpen(t: Table, x: Id)
    requires Good(t) && x in t.objects
    ensures forall r :: r in t.objects[x].refs ==> IsOpen(t, r)
  {
    assert ObjectOk(t, x);
    forall r | r in t.objects[x].refs
      ensures IsOpen(t, r)
    {
      assert PairOk(t, x, r) && ObjectOk(t, r);
      assert multiset(t.objects[x].refs)[r] > 0;
      assert t.owners[r][Member(x)] > 0;
    }
  }

  ghost predicate AllOpen(t: Table, xs: seq<Id>) {
    forall i :: 0 <= i < |xs| ==> IsOpen(t, xs[i])
  }

  /** The descriptors of open objects. */
  ghost function FdsOf(t: Table, xs: seq<Id>): (r: seq<nat>)
    requires AllOpen(t, xs)
    ensures |r| == |xs| && forall i :: 0 <= i < |r| ==> t.objects[xs[i]].fd == Some(r[i])
  {
    if xs == [] then []
    else
      [t.objects[xs[0]].fd.value] + FdsOf(t, xs[1..])
  }

  lemma RefsOpen(t: Table, x: Id, a: Id, xs: seq<Id>)
    requires Good(t) && x in t.objects && a in t.objects[x].refs && forall y :: y in xs ==> y in t.objects[x].refs
    ensures IsOpen(t, a) && AllOpen(t, xs)
  {
    OpenNeedsOpen(t, x);
  }

  // The steps constructors and destructors are made of.

  function AddObject(t: Table, x: Id, kind: Kind, device: Option<Id>): Table {
    t.(objects := t.objects[x := Object(kind, None, None, [], device)], owners := t.owners[x := multiset{}])
  }

  lemma AddObjectKeeps(t: Table, x: Id, kind: Kind, device: Option<Id>)
    requires Good(t) && x !in t.objects
    ensures Good(AddObject(t, x, kind, device))
  {
    var t' := AddObject(t, x, kind, device);
    forall f
      ensures KernelOk(t', f)
    {
      assert KernelOk(t, f);
    }
    forall y
      ensures ObjectOk(t', y)
    {
      assert ObjectOk(t, y);
    }
    forall y, z
      ensures PairOk(t', y, z)
    {
      assert PairOk(t, y, z);
    }
  }

  function AddRef(t: Table, x: Id, r: Id): Table
    requires x in t.objects && r in t.owners
  {
    t.(objects := t.objects[x := t.objects[x].(refs := t.objects[x].refs + [r])],
       owners := t.owners[r := t.owners[r] + multiset{Member(x)}])
  }

  lemma AddRefPair(t: Table, x: Id, r: Id, y: Id, z: Id)
    requires x in t.objects && r in t.objects && r in t.owners && PairOk(t, y, z)
    requires t.objects[r].kind != Device && Rank(t.objects[r].kind) < Rank(t.objects[x].kind)
    ensures PairOk(AddRef(t, x, r), y, z)
  {
    var refs := t.objects[x].refs;
    assert multiset(refs + [r]) == multiset(refs) + multiset{r};
  }

  lemma AddRefKeeps(t: Table, x: Id, r: Id)
    requires Good(t) && x in t.objects && r in t.objects && r in t.owners && t.owners[r] != multiset{}
    requires t.objects[r].kind != Device && Rank(t.objects[r].kind) < Rank(t.objects[x].kind)
    ensures Good(AddRef(t, x, r))
  {
    var t' := AddRef(t, x, r);
    forall f
      ensures KernelOk(t', f)
    {
      assert KernelOk(t, f);
    }
    forall y
      ensures ObjectOk(t', y)
    {
      assert ObjectOk(t, y);
    }
    forall y, z
      ensures PairOk(t', y, z)
    {
      assert PairOk(t, y, z);
      AddRefPair(t, x, r, y, z);
    }
  }

  function OpenFd(t: Table, x: Id, f: nat): Table
    requires x in t.objects
  {
    t.(objects := t.objects[x := t.objects[x].(fd := Some(f))], holder := t.holder[f := x])
  }

  lemma OpenFdKeeps(t: Table, x: Id, f: nat)
    requires Good(t) && x in t.objects && f !in t.holder && t.objects[x].fd == None
    ensures Good(OpenFd(t, x, f))
  {
    var t' := OpenFd(t, x, f);
    forall f
      ensures KernelOk(t', f)
    {
      assert KernelOk(t, f);
    }
    forall y
      ensures ObjectOk(t', y)
    {
      assert ObjectOk(t, y);
    }
    forall y, z
      ensures PairOk(t', y, z)
    {
      assert PairOk(t, y, z);
    }
  }

  function CloseFd(t: Table, x: Id): Table
    requires IsOpen(t, x)
  {
    t.(objects := t.objects[x := t.objects[x].(fd := None)], holder := t.holder - {t.objects[x].fd.value})
  }

  lemma CloseFdKeeps(t: Table, x: Id)
    requires Good(t) && IsOpen(t, x) && x in t.owners && t.owners[x] == multiset{}
    ensures Good(CloseFd(t, x))
  {
    var t' := CloseFd(t, x);
    assert ObjectOk(t, x);
    forall f
      ensures KernelOk(t', f)
    {
      assert KernelOk(t, f);
    }
    forall y
      ensures ObjectOk(t', y)
    {
      assert ObjectOk(t, y);
    }
    forall y, z
      ensures PairOk(t', y, z)
    {
      assert PairOk(t, y, z);
    }
  }

  function OpenMap(t: Table, x: Id, m: nat): Table
    requires x in t.objects
  {
    t.(objects := t.objects[x := t.objects[x].(mapping := Some(m))], mapper := t.mapper[m := x])
  }

  lemma OpenMapKeeps(t: Table, x: Id, m: nat)
    requires Good(t) && x in t.objects && m !in t.mapper && t.objects[x].mapping == None && t.objects[x].kind == Buffer
    ensures Good(OpenMap(t, x, m))
  {
    var t' := OpenMap(t, x, m);
    forall f
      ensures KernelOk(t', f)
    {
      assert KernelOk(t, f);
    }
    forall y
      ensures ObjectOk(t', y)
    {
      assert ObjectOk(t, y);
    }
    forall y, z
      ensures PairOk(t', y, z)
    {
      assert PairOk(t, y, z);
    }
  }

  function CloseMap(t: Table, x: Id): Table
    requires x in t.objects && t.objects[x].mapping.Some?
  {
    t.(objects := t.objects[x := t.objects[x].(mapping := None)], mapper := t.mapper - {t.objects[x].mapping.value})
  }

  lemma CloseMapKeeps(t: Table, x: Id)
    requires Good(t) && x in t.objects && t.objects[x].mapping.Some? && x in t.owners && t.owners[x] == multiset{}
    ensures Good(CloseMap(t, x))
  {
    var t' := CloseMap(t, x);
    assert ObjectOk(t, x);
    forall f
      ensures KernelOk(t', f)
    {
      assert KernelOk(t, f);
    }
    forall y
      ensures ObjectOk(t', y)
    {
      assert ObjectOk(t, y);
    }
    forall y, z
      ensures PairOk(t', y, z)
    {
      assert PairOk(t, y, z);
    }
  }

  function Last(s: seq<Id>): Id
    requires s != []
  {
    s[|s| - 1]
  }

  function DropRef(t: Table, x: Id): Table
    requires x in t.objects && t.objects[x].refs != [] && Last(t.objects[x].refs) in t.owners
  {
    var refs := t.objects[x].refs;
    t.(objects := t.objects[x := t.objects[x].(refs := refs[..|refs| - 1])],
       owners := t.owners[Last(refs) := t.owners[Last(refs)] - multiset{Member(x)}])
  }

  lemma LastCount(s: seq<Id>)
    requires s != []
    ensures multiset(s) == multiset(s[..|s| - 1]) + multiset{Last(s)}
    ensures forall r :: r in s[..|s| - 1] ==> r in s
  {
    assert s == s[..|s| - 1] + [Last(s)];
  }

  lemma LastCountAt(s: seq<Id>, z: Id)
    requires s != []
    ensures multiset(s)[z] == multiset(s[..|s| - 1])[z] + (if z == Last(s) then 1 else 0)
    ensures z in s[..|s| - 1] ==> z in s
  {
    LastCount(s);
  }

  lemma OneOwnerLess(m: multiset<Owner>, o: Owner, p: Owner)
    requires o in m
    ensures (m - multiset{o})[p] == m[p] - (if p == o then 1 else 0)
  {
  }

  lemma DropRefPair(t: Table, x: Id, y: Id, z: Id)
    requires x in t.objects && t.objects[x].refs != [] && Last(t.objects[x].refs) in t.owners
    requires PairOk(t, y, z) && PairOk(t, x, Last(t.objects[x].refs))
    ensures PairOk(DropRef(t, x), y, z)
  {
    var r := Last(t.objects[x].refs);
    var t' := DropRef(t, x);
    LastCountAt(t.objects[x].refs, r);
    if z == r {
      OneOwnerLess(t.owners[r], Member(x), Member(y));
    }
    if y == x {
      LastCountAt(t.objects[x].refs, z);
      assert t'.objects[x].refs == t.objects[x].refs[..|t.objects[x].refs| - 1];
    } else {
      assert y in t'.objects <==> y in t.objects;
      assert y in t.objects ==> t'.objects[y] == t.objects[y];
    }
  }

  lemma DropRefKeeps(t: Table, x: Id)
    requires Good(t) && x in t.objects && t.objects[x].refs != []
    ensures var r := Last(t.objects[x].refs);
            r in t.owners && Member(x) in t.owners[r] && Good(DropRef(t, x))
  {
    var r := Last(t.objects[x].refs);
    LastCount(t.objects[x].refs);
    assert PairOk(t, x, r);
    var t' := DropRef(t, x);
    forall f
      ensures KernelOk(t', f)
    {
      assert KernelOk(t, f);
    }
    forall y
      ensures ObjectOk(t', y)
    {
      assert ObjectOk(t, y);
    }
    forall y, z
      ensures PairOk(t', y, z)
    {
      assert PairOk(t, y, z);
      DropRefPair(t, x, y, z);
    }
  }

  function RemoveObject(t: Table, x: Id): Table {
    t.(objects := t.objects - {x}, owners := t.owners - {x})
  }

  lemma RemoveObjectKeeps(t: Table, x: Id)
    requires Good(t) && x in t.objects && x in t.owners && t.owners[x] == multiset{}
    requires t.objects[x].refs == [] && t.objects[x].fd == None && t.objects[x].mapping == None
    ensures Good(RemoveObject(t, x))
  {
    var t' := RemoveObject(t, x);
    forall f
      ensures KernelOk(t', f)
    {
      assert KernelOk(t, f);
    }
    forall y
      ensures ObjectOk(t', y)
    {
      assert ObjectOk(t, y);
    }
    forall y, z
      ensures PairOk(t', y, z)
    {
      assert PairOk(t, y, z);
    }
  }

  function Grant(t: Table, x: Id, h: nat): Table
    requires x in t.owners
  {
    t.(owners := t.owners[x := t.owners[x] + multiset{Handle(h)}])
  }

  lemma GrantKeeps(t: Table, x: Id, h: nat)
    requires Good(t) && IsOpen(t, x) && x in t.owners && (t.objects[x].kind == Buffer ==> t.objects[x].mapping.Some?)
    ensures Good(Grant(t, x, h))
  {
    var t' := Grant(t, x, h);
    forall f
      ensures KernelOk(t', f)
    {
      assert KernelOk(t, f);
    }
    forall y
      ensures ObjectOk(t', y)
    {
      assert ObjectOk(t, y);
    }
    forall y, z
      ensures PairOk(t', y, z)
    {
      assert PairOk(t, y, z);
    }
  }

  function Revoke(t: Table, x: Id, h: nat): Table
    requires x in t.owners
  {
    t.(owners := t.owners[x := t.owners[x] - multiset{Handle(h)}])
  }

  lemma RevokeKeeps(t: Table, x: Id, h: nat)
    requires Good(t) && x in t.objects && x in t.owners && Handle(h) in t.owners[x]
    ensures Good(Revoke(t, x, h)) && |Revoke(t, x, h).owners[x]| == |t.owners[x]| - 1
  {
    var t' := Revoke(t, x, h);
    forall f
      ensures KernelOk(t', f)
    {
      assert KernelOk(t, f);
    }
    forall y
      ensures ObjectOk(t', y)
    {
      assert ObjectOk(t, y);
    }
    forall y, z
      ensures PairOk(t', y, z)
    {
      assert PairOk(t, y, z);
    }
  }

  // What a release leaves alone.

  /** All pointers from F stay in F. */
  ghost predicate Closed(t: Table, F: set<Id>) {
    forall x, r :: x in F && x in t.objects && r in t.objects[x].refs ==> r in F
  }

  /**
   * From t to t', nothing happened to object y beyond losing pointers from other objects: its record and its clients
   * are the same, it did not lose its last owner, and it is gone only if it had none but such pointers. Outside F
   * nothing happened at all.
   */
  ghost predicate Kept(t: Table, t': Table, F: set<Id>, y: Id) {
    && (y in t'.objects ==> y in t.objects && t'.objects[y] == t.objects[y])
    && (y in t'.owners ==>
          && y in t.owners
          && t'.owners[y] <= t.owners[y]
          && (forall h :: t'.owners[y][Handle(h)] == t.owners[y][Handle(h)])
          && (t'.owners[y] == multiset{} ==> t.owners[y] == multiset{}))
    && (y in t.owners && y !in t'.owners ==>
          y in F && t.owners[y] != multiset{} && forall h :: t.owners[y][Handle(h)] == 0)
    && (y !in F && y in t.owners ==> y in t'.owners && t'.owners[y] == t.owners[y])
  }

  ghost predicate OthersKept(t: Table, t': Table, F: set<Id>, x: Id) {
    forall y {:trigger Kept(t, t', F, y)} :: y != x ==> Kept(t, t', F, y)
  }

  /** The pointer from x to r is dropped, then r is looked after: for all others that is one release. */
  lemma DropThenReapKeeps(t: Table, t': Table, F: set<Id>, x: Id)
    requires Good(t) && x in t.objects && t.objects[x].refs != [] && Last(t.objects[x].refs) in t.owners
    requires Last(t.objects[x].refs) != x && Last(t.objects[x].refs) in F
    requires var d, r := DropRef(t, x), Last(t.objects[x].refs);
             if d.owners[r] == multiset{} then r !in t'.objects && r !in t'.owners
                 && OthersKept(d, t', F, r) else t' == d
    ensures OthersKept(t, t', F, x)
  {
    var d, r := DropRef(t, x), Last(t.objects[x].refs);
    forall y | y != x
      ensures Kept(t, t', F, y)
    {
      if y == r {
        DropRefKeeps(t, x);
        if d.owners[r] == multiset{} {
          forall h
            ensures t.owners[r][Handle(h)] == 0
          {
            assert d.owners[r][Handle(h)] == 0;
          }
        }
      } else if d.owners[r] == multiset{} {
        assert Kept(d, t', F, y);
      }
    }
  }

  lemma KeptTransitive(t0: Table, t1: Table, t2: Table, F: set<Id>, x: Id)
    requires OthersKept(t0, t1, F, x) && OthersKept(t1, t2, F, x)
    ensures OthersKept(t0, t2, F, x)
  {
    forall y | y != x
      ensures Kept(t0, t2, F, y)
    {
      assert Kept(t0, t1, F, y) && Kept(t1, t2, F, y);
    }
  }

  lemma DropRefKeepsClosed(t: Table, x: Id, F: set<Id>)
    requires Closed(t, F) && x in t.objects && t.objects[x].refs != [] && Last(t.objects[x].refs) in t.owners
    ensures Closed(DropRef(t, x), F)
  {
    LastCount(t.objects[x].refs);
  }

  lemma KeptClosed(t: Table, t': Table, F: set<Id>, x: Id)
    requires Closed(t, F) && OthersKept(t, t', F, x) && x !in t'.objects
    ensures Closed(t', F)
  {
    forall y, r | y in F && y in t'.objects && r in t'.objects[y].refs
      ensures r in F
    {
      assert Kept(t, t', F, y);
    }
  }

  /** x after the body of its destructor. */
  function Emptied(t: Table, x: Id): Table
    requires x in t.objects
  {
    var o := t.objects[x];
    Table(t.objects[x := o.(fd := None, mapping := None)], t.owners,
          if o.fd.Some? then t.holder - {o.fd.value} else t.holder,
          if o.mapping.Some? then t.mapper - {o.mapping.value} else t.mapper)
  }

  /** The kernel tables are determined by the objects. */
  lemma SameObjectsSameKernel(t: Table, t': Table)
    requires Good(t) && Good(t') && t.objects == t'.objects
    ensures t.holder == t'.holder && t.mapper == t'.mapper
  {
    forall f
      ensures f in t.holder <==> f in t'.holder
      ensures f in t.holder ==> t.holder[f] == t'.holder[f]
      ensures f in t.mapper <==> f in t'.mapper
      ensures f in t.mapper ==> t.mapper[f] == t'.mapper[f]
    {
      assert KernelOk(t, f) && KernelOk(t', f);
      assert f in t.holder ==> ObjectOk(t', t.holder[f]);
      assert f in t'.holder ==> ObjectOk(t, t'.holder[f]);
      assert f in t.mapper ==> ObjectOk(t', t.mapper[f]);
      assert f in t'.mapper ==> ObjectOk(t, t'.mapper[f]);
    }
  }

  /**
   * Between calls the open descriptors are the disjoint union of one descriptor per object, and the mappings one per
   * buffer.
   */
  lemma ExactAccounting(t: Table)
    requires Good(t) && Settled(t)
    ensures forall x :: x in t.objects ==>
                          t.objects[x].fd.Some? && (t.objects[x].mapping.Some? <==> t.objects[x].kind == Buffer)
    ensures forall x, y :: x in t.objects && y in t.objects && x != y ==> t.objects[x].fd != t.objects[y].fd
    ensures forall x, y :: x in t.objects && y in t.objects && x != y && t.objects[x].kind == Buffer ==>
                             t.objects[x].mapping != t.objects[y].mapping
    ensures t.holder.Keys == set x | x in t.objects && t.objects[x].fd.Some? :: t.objects[x].fd.value
    ensures t.mapper.Keys == set x | x in t.objects && t.objects[x].mapping.Some? :: t.objects[x].mapping.value
  {
    forall x | x in t.objects
      ensures t.objects[x].fd.Some? && (t.objects[x].mapping.Some? <==> t.objects[x].kind == Buffer)
      ensures t.objects[x].fd.value in t.holder && t.holder[t.objects[x].fd.value] == x
      ensures t.objects[x].mapping.Some? ==>
                t.objects[x].mapping.value in t.mapper && t.mapper[t.objects[x].mapping.value] == x
    {
      assert ObjectOk(t, x);
    }
    forall f
      ensures f in t.holder ==> t.holder[f] in t.objects && t.objects[t.holder[f]].fd == Some(f)
      ensures f in t.mapper ==> t.mapper[f] in t.objects && t.objects[t.mapper[f]].mapping == Some(f)
    {
      assert KernelOk(t, f);
    }
  }

  /** From t to t', y gained an owner for every pointer to it in refs, a list of members of the new object x. */
  ghost predicate PlusAt(t: Table, t': Table, x: Id, refs: seq<Id>, y: Id) {
    && (y in t.owners <==> y in t'.owners)
    && (y in t.owners ==> t'.owners[y] == t.owners[y][Member(x) := multiset(refs)[y]])
  }

  /** t' is t after x, which had no pointers, got these. */
  ghost predicate PlusRefs(t: Table, t': Table, x: Id, refs: seq<Id>)
  {
    && x in t.objects && t'.objects == t.objects[x := t.objects[x].(refs := refs)]
    && t'.holder == t.holder && t'.mapper == t.mapper
    && forall y {:trigger PlusAt(t, t', x, refs, y)} :: PlusAt(t, t', x, refs, y)
  }

  lemma OneMore(m: multiset<Owner>, o: Owner, n: nat)
    ensures m[o := n] + multiset{o} == m[o := n + 1] && m[o := n + 1] - multiset{o} == m[o := n]
  {
  }

  lemma PlusOne(t: Table, t': Table, x: Id, refs: seq<Id>, r: Id)
    requires PlusRefs(t, t', x, refs) && r in t'.owners
    ensures PlusRefs(t, AddRef(t', x, r), x, refs + [r])
  {
    var t'' := AddRef(t', x, r);
    forall y
      ensures PlusAt(t, t'', x, refs + [r], y)
    {
      assert PlusAt(t, t', x, refs, y);
      LastCountAt(refs + [r], y);
      assert (refs + [r])[..|refs|] == refs;
      if y == r {
        OneMore(t.owners[y], Member(x), multiset(refs)[y]);
      }
    }
  }

  lemma MinusOne(t: Table, t': Table, x: Id, refs: seq<Id>)
    requires PlusRefs(t, t', x, refs) && refs != [] && Last(refs) in t'.owners
    ensures PlusRefs(t, DropRef(t', x), x, refs[..|refs| - 1])
  {
    var r, rest := Last(refs), refs[..|refs| - 1];
    var t'' := DropRef(t', x);
    forall y
      ensures PlusAt(t, t'', x, rest, y)
    {
      assert PlusAt(t, t', x, refs, y);
      LastCountAt(refs, y);
      if y == r && y in t.owners {
        OneMore(t.owners[y], Member(x), multiset(rest)[y]);
      }
    }
  }

  lemma PlusNone(t: Table, x: Id)
    requires Good(t) && x in t.objects && t.objects[x].refs == []
    ensures PlusRefs(t, t, x, [])
  {
    forall y
      ensures PlusAt(t, t, x, [], y)
    {
      assert PairOk(t, x, y);
    }
  }

  lemma PlusNoneIs(t: Table, t': Table, x: Id)
    requires Good(t) && x in t.objects && t.objects[x].refs == [] && PlusRefs(t, t', x, [])
    ensures t' == t
  {
    PlusNone(t, x);
    forall y
      ensures y in t.owners <==> y in t'.owners
      ensures y in t.owners ==> t.owners[y] == t'.owners[y]
    {
      assert PlusAt(t, t', x, [], y) && PlusAt(t, t, x, [], y);
    }
    assert t.owners == t'.owners;
  }

  lemma StillOwned(t: Table, t': Table, x: Id, refs: seq<Id>, r: Id)
    requires Good(t) && x in t.objects && t.objects[x].refs == [] && PlusRefs(t, t', x, refs)
    requires r in t.owners && t.owners[r] != multiset{}
    ensures r in t'.owners && t'.owners[r] != multiset{}
  {
    assert PairOk(t, x, r) && PlusAt(t, t', x, refs, r);
    var o :| o in t.owners[r];
    assert o in t'.owners[r];
  }

  lemma AddThenRemove(t: Table, x: Id, kind: Kind, device: Option<Id>)
    requires Good(t) && x !in t.objects
    ensures RemoveObject(AddObject(t, x, kind, device), x) == t
  {
    assert ObjectOk(t, x);
  }

  lemma OpenThenClose(t: Table, x: Id, f: nat)
    requires x in t.objects && t.objects[x].fd == None && f !in t.holder
    ensures CloseFd(OpenFd(t, x, f), x) == t
  {
    assert t.objects[x := t.objects[x]] == t.objects;
  }

  /** t' is t with one more object, complete, and owned by client h alone. */
  ghost predicate Created(t: Table, t': Table, x: Id, kind: Kind, refs: seq<Id>, device: Option<Id>, h: nat) {
    && x !in t.objects && x in t'.objects && x in t'.owners
    && var o := t'.objects[x];
    && o.kind == kind && o.refs == refs && o.device == device
    && o.fd.Some? && o.fd.value !in t.holder
    && (kind == Buffer <==> o.mapping.Some?) && (kind == Buffer ==> o.mapping.value !in t.mapper)
    && t'.objects == t.objects[x := o]
    && t'.holder == t.holder[o.fd.value := x]
    && t'.mapper == (if kind == Buffer then t.mapper[o.mapping.value := x] else t.mapper)
    && t'.owners[x] == multiset{Handle(h)}
    && forall y {:trigger PlusAt(t, t', x, refs, y)} :: y != x ==> PlusAt(t, t', x, refs, y)
  }

  /** An object that got its pointers, its descriptor and its first client is created. */
  lemma StepsCreate(t: Table, w: Table, x: Id, kind: Kind, refs: seq<Id>, device: Option<Id>, f: nat, h: nat)
    requires Good(t) && x !in t.objects && x !in refs && kind != Buffer && f !in t.holder
    requires PlusRefs(AddObject(t, x, kind, device), w, x, refs)
    ensures x in w.owners && Created(t, Grant(OpenFd(w, x, f), x, h), x, kind, refs, device, h)
  {
    var a := AddObject(t, x, kind, device);
    assert PlusAt(a, w, x, refs, x);
    assert multiset(refs)[x] == 0;
    assert multiset{}[Member(x) := 0] == multiset{};
    assert multiset{} + multiset{Handle(h)} == multiset{Handle(h)};
    var t' := Grant(OpenFd(w, x, f), x, h);
    forall y | y != x
      ensures PlusAt(t, t', x, refs, y)
    {
      assert PlusAt(a, w, x, refs, y);
    }
  }

  lemma LastUpdate(m: map<Id, Object>, x: Id, o: Object, p: Object, q: Object)
    ensures m[x := o][x := p][x := q] == m[x := q]
  {
  }

  lemma StepsCreateBuffer(t: Table, x: Id, f: nat, m: nat, h: nat)
    requires Good(t) && x !in t.objects && f !in t.holder && m !in t.mapper
    ensures Created(t, Grant(OpenMap(OpenFd(AddObject(t, x, Buffer, None), x, f), x, m), x, h), x, Buffer, [], None, h)
  {
    assert multiset{} + multiset{Handle(h)} == multiset{Handle(h)};
    var t' := Grant(OpenMap(OpenFd(AddObject(t, x, Buffer, None), x, f), x, m), x, h);
    var o := Object(Buffer, None, None, [], None);
    LastUpdate(t.objects, x, o, o.(fd := Some(f)), Object(Buffer, Some(f), Some(m), [], None));
    forall y | y != x
      ensures PlusAt(t, t', x, [], y)
    {
      assert PairOk(t, x, y);
    }
  }

  ghost predicate Owned(t: Table, x: Id) {
    x in t.objects && x in t.owners && t.owners[x] != multiset{}
  }

  function Listed(x: Option<Id>): seq<Id> {
    if x.Some? then [x.value] else []
  }

  /** x, still without pointers in t, may get pointers to all of these. */
  ghost predicate Linkable(t: Table, x: Id, rs: seq<Id>) {
    && Good(t) && x in t.objects && t.objects[x].refs == []
    && forall r :: r in rs ==>
         r != x && Owned(t, r) && t.objects[r].kind != Device && Rank(t.objects[r].kind) < Rank(t.objects[x].kind)
  }

  lemma AllClosed(t: Table)
    requires Good(t)
    ensures Closed(t, t.objects.Keys)
  {
    forall x, r | x in t.objects && r in t.objects[x].refs
      ensures r in t.objects
    {
      assert PairOk(t, x, r);
    }
  }

  lemma UnownedYet(t: Table, t': Table, x: Id, refs: seq<Id>)
    requires PlusRefs(t, t', x, refs) && x !in refs && x in t.owners && t.owners[x] == multiset{}
    ensures x in t'.owners && t'.owners[x] == multiset{}
  {
    assert PlusAt(t, t', x, refs, x);
    assert multiset(refs)[x] == 0;
    assert multiset{}[Member(x) := 0] == multiset{};
  }

  /** Shared pointers lead to lower ranks, so a device has none. */
  lemma LevelZeroHasNoRefs(t: Table, x: Id)
    requires Good(t) && x in t.objects && t.objects[x].kind == Device
    ensures t.objects[x].refs == []
  {
    var refs := t.objects[x].refs;
    var r := if refs == [] then 0 else refs[0];
    assert PairOk(t, x, r);
  }

  lemma CreatedBufferOwners(t: Table, t': Table, a: Id, h: nat)
    requires Good(t) && Created(t, t', a, Buffer, [], None, h)
    ensures t'.owners == t.owners[a := multiset{Handle(h)}]
  {
    forall y | y != a
      ensures y in t'.owners <==> y in t.owners
      ensures y in t.owners ==> t'.owners[y] == t.owners[y]
    {
      assert PlusAt(t, t', a, [], y) && PairOk(t, a, y);
    }
  }

  /** t' is t with a new open buffer a that x alone points to, as its last member. */
  ghost predicate WithArena(t: Table, t': Table, x: Id, a: Id)
    requires x in t.objects
  {
    && a !in t.objects && a != x && a in t'.objects && x in t'.objects
    && IsNewBuffer(t, t'.objects[a])
    && t'.objects == t.objects[a := t'.objects[a]][x := t.objects[x].(refs := t.objects[x].refs + [a])]
    && t'.owners == t.owners[a := multiset{Member(x)}]
    && t'.holder == t.holder[t'.objects[a].fd.value := a] && t'.mapper == t.mapper[t'.objects[a].mapping.value := a]
  }

  predicate IsNewBuffer(t: Table, o: Object) {
    && o.kind == Buffer && o.refs == [] && o.device == None
    && o.fd.Some? && o.fd.value !in t.holder && o.mapping.Some? && o.mapping.value !in t.mapper
  }

  /** t' is t with a new open buffer that nobody owns. */
  predicate AddedBuffer(t: Table, t': Table, a: Id) {
    && a !in t.objects && a in t'.objects && IsNewBuffer(t, t'.objects[a])
    && t' == Table(t.objects[a := t'.objects[a]], t.owners[a := multiset{}],
                   t.holder[t'.objects[a].fd.value := a], t.mapper[t'.objects[a].mapping.value := a])
  }

  lemma AddedBufferGood(t: Table, o: Object, a: Id) returns (t': Table)
    requires Good(t) && a !in t.objects && IsNewBuffer(t, o)
    ensures Good(t') && AddedBuffer(t, t', a) && t'.objects[a] == o
  {
    AddObjectKeeps(t, a, Buffer, None);
    var t1 := AddObject(t, a, Buffer, None);
    OpenFdKeeps(t1, a, o.fd.value);
    var t2 := OpenFd(t1, a, o.fd.value);
    OpenMapKeeps(t2, a, o.mapping.value);
    t' := OpenMap(t2, a, o.mapping.value);
  }

  lemma ArenaIsNew(t: Table, linked: Table, full: Table, x: Id, a: Id, members: seq<Id>)
    requires PlusRefs(AddObject(t, x, Inference, None), linked, x, members) && WithArena(linked, full, x, a)
    ensures a != x && a !in t.objects && a in full.objects && IsNewBuffer(t, full.objects[a])
  {
  }

  /** The table the inference with its own arena is created in. */
  lemma ArenaBase(t: Table, linked: Table, full: Table, x: Id, a: Id, members: seq<Id>) returns (base: Table)
    requires Good(t) && x !in t.objects && a !in members
    requires PlusRefs(AddObject(t, x, Inference, None), linked, x, members) && WithArena(linked, full, x, a)
    ensures Good(base) && AddedBuffer(t, base, a)
    ensures PlusRefs(AddObject(base, x, Inference, None), full, x, members + [a])
    ensures x !in base.objects && base.holder == full.holder
  {
    ArenaIsNew(t, linked, full, x, a, members);
    base := AddedBufferGood(t, full.objects[a], a);
    ArenaObjects(t, base, linked, full, x, a, members);
    ArenaOwners(t, base, linked, full, x, a);
    var begun, begun' := AddObject(t, x, Inference, None), AddObject(base, x, Inference, None);
    forall y
      ensures PlusAt(begun', full, x, members + [a], y)
    {
      assert PlusAt(begun, linked, x, members, y);
      ArenaPlusAt(begun, begun', linked, full, x, a, members, y);
    }
  }

  lemma ArenaObjects(t: Table, base: Table, linked: Table, full: Table, x: Id, a: Id, members: seq<Id>)
    requires x !in t.objects && AddedBuffer(t, base, a) && a in full.objects && base.objects[a] == full.objects[a]
    requires PlusRefs(AddObject(t, x, Inference, None), linked, x, members) && WithArena(linked, full, x, a)
    ensures var begun' := AddObject(base, x, Inference, None);
            x !in base.objects && full.objects == begun'.objects[x := begun'.objects[x].(refs := members + [a])]
    ensures full.holder == base.holder && full.mapper == base.mapper
  {
    var begun := Object(Inference, None, None, [], None);
    var o := begun.(refs := members);
    var done := begun.(refs := members + [a]);
    assert linked.objects == t.objects[x := begun][x := o];
    SameUpdates(t.objects, x, begun, o, done, a, full.objects[a]);
  }

  /** Of several updates of one entry the last counts, whatever happens to another in between. */
  lemma SameUpdates(m: map<Id, Object>, x: Id, o: Object, p: Object, q: Object, a: Id, b: Object)
    requires a != x
    ensures m[x := o][x := p][a := b][x := q] == m[a := b][x := o][x := q]
  {
  }

  lemma ArenaOwners(t: Table, base: Table, linked: Table, full: Table, x: Id, a: Id)
    requires AddedBuffer(t, base, a) && x in linked.objects && WithArena(linked, full, x, a)
    ensures full.owners == linked.owners[a := multiset{Member(x)}]
    ensures AddObject(base, x, Inference, None).owners
         == AddObject(t, x, Inference, None).owners[a := multiset{}][x := multiset{}]
  {
  }

  lemma ArenaPlusAt(begun: Table, begun': Table, linked: Table, full: Table, x: Id, a: Id, members: seq<Id>, y: Id)
    requires PlusAt(begun, linked, x, members, y) && a != x && a !in members
    requires full.owners == linked.owners[a := multiset{Member(x)}]
    requires begun'.owners == begun.owners[a := multiset{}][x := multiset{}] && x in begun.owners
        && begun.owners[x] == multiset{}
    ensures PlusAt(begun', full, x, members + [a], y)
  {
    LastCountAt(members + [a], y);
    assert (members + [a])[..|members|] == members;
    if y == a {
      assert multiset(members)[a] == 0;
      assert multiset{}[Member(x) := 1] == multiset{Member(x)};
    }
  }

  lemma ArenaGone(linked: Table, dropped: Table, t: Table, a: Id)
    requires Good(linked) && Good(t) && a !in linked.objects && a in dropped.objects
    requires dropped.objects == linked.objects[a := dropped.objects[a]]
        && dropped.owners == linked.owners[a := multiset{}]
    requires a !in t.objects && a !in t.owners && OthersKept(dropped, t, {a}, a)
    ensures t == linked
  {
    assert ObjectOk(linked, a);
    forall y | y != a
      ensures y in t.objects <==> y in linked.objects
      ensures y in t.objects ==> t.objects[y] == linked.objects[y]
      ensures y in t.owners <==> y in linked.owners
      ensures y in t.owners ==> t.owners[y] == linked.owners[y]
    {
      assert Kept(dropped, t, {a}, y) && ObjectOk(t, y) && ObjectOk(linked, y);
    }
    assert t.objects == linked.objects && t.owners == linked.owners;
    SameObjectsSameKernel(t, linked);
  }

  /** Handing the new buffer over from its first client to x. */
  lemma HandOver(linked: Table, t: Table, x: Id, a: Id, h: nat)
    requires Good(linked) && x in linked.objects && Created(linked, t, a, Buffer, [], None, h)
    ensures a in t.owners && WithArena(linked, Revoke(AddRef(t, x, a), a, h), x, a)
  {
    CreatedBufferOwners(linked, t, a, h);
    Exchange(linked.owners, a, Handle(h), Member(x));
  }

  lemma Exchange(owners: map<Id, multiset<Owner>>, a: Id, o: Owner, p: Owner)
    ensures var m := owners[a := multiset{o}];
            var n := m[a := m[a] + multiset{p}];
            n[a := n[a] - multiset{o}] == owners[a := multiset{p}]
  {
    assert multiset{o} + multiset{p} - multiset{o} == multiset{p};
  }

  lemma LastOwner(m: multiset<Owner>, o: Owner)
    requires o in m
    ensures m - multiset{o} == multiset{} <==> m == multiset{o}
  {
    assert m == m - multiset{o} + multiset{o};
  }

  /** A release leaves nobody but its own target without an owner. */
  lemma KeptSettled(t: Table, t': Table, F: set<Id>, x: Id)
    requires OthersKept(t, t', F, x) && x !in t'.owners
    requires forall y :: y in t.owners && y != x ==> t.owners[y] != multiset{}
    ensures Settled(t')
  {
    forall y | y in t'.owners
      ensures t'.owners[y] != multiset{}
    {
      assert Kept(t, t', F, y);
    }
  }

  /** After a creation everything has an owner, if only targets of the new object could lack one. */
  lemma CreatedSettled(t: Table, t': Table, x: Id, kind: Kind, refs: seq<Id>, device: Option<Id>, h: nat)
    requires Good(t) && Created(t, t', x, kind, refs, device, h)
    requires forall y :: y in t.owners ==> t.owners[y] != multiset{} || y in refs
    ensures Settled(t')
  {
    forall y | y in t'.owners && y != x
      ensures t'.owners[y] != multiset{}
    {
      assert PlusAt(t, t', x, refs, y) && PairOk(t, x, y);
      if y in refs {
        assert t'.owners[y][Member(x)] > 0;
      } else {
        var o :| o in t.owners[y];
        assert o in t'.owners[y];
      }
    }
  }

  /** Above every object, along the pointers to it, there is a client. */
  lemma {:induction false} ClientAbove(t: Table, x: Id) returns (y: Id, h: nat)
    requires Good(t) && Settled(t) && x in t.objects
    ensures y in t.owners && t.owners[y][Handle(h)] > 0
    decreases 3 - Rank(t.objects[x].kind)
  {
    assert ObjectOk(t, x);
    var o :| o in t.owners[x];
    match o
    case Handle(c) => return x, c;
    case Member(z) =>
      assert PairOk(t, z, x);
      assert t.owners[x][Member(z)] > 0;
      y, h := ClientAbove(t, z);
  }

  /** Nothing leaks: once no client holds anything, no object, no descriptor and no mapping is left. */
  lemma NothingLeaks(t: Table)
    requires Good(t) && Settled(t)
    requires forall x, h :: x in t.owners ==> t.owners[x][Handle(h)] == 0
    ensures t.objects == map[] && t.holder == map[] && t.mapper == map[]
  {
    if t.objects != map[] {
      var x :| x in t.objects;
      var y, h := ClientAbove(t, x);
    }
    forall f
      ensures f !in t.holder && f !in t.mapper
    {
      assert KernelOk(t, f);
    }
  }

  // The reference of a network to its device is no shared pointer: nothing keeps the device open.

  /** If y is open, so is the device it refers to. */
  predicate DeviceOpen(t: Table, y: Id) {
    IsOpen(t, y) && t.objects[y].device.Some? ==> IsOpenDevice(t, t.objects[y].device.value)
  }

  ghost predicate DevicesOpen(t: Table) {
    forall y {:trigger DeviceOpen(t, y)} :: DeviceOpen(t, y)
  }

  predicate RefersTo(t: Table, y: Id, dev: Id) {
    IsOpen(t, y) && t.objects[y].device == Some(dev)
  }

  lemma CreatedDevicesOpen(t: Table, t': Table, x: Id, kind: Kind, refs: seq<Id>, device: Option<Id>, h: nat)
    requires DevicesOpen(t) && Created(t, t', x, kind, refs, device, h)
    requires device.Some? ==> IsOpenDevice(t, device.value)
    ensures DevicesOpen(t')
  {
    forall y
      ensures DeviceOpen(t', y)
    {
      assert DeviceOpen(t, y);
    }
  }

  lemma MemberIsRef(t: Table, z: Id, d: Id)
    requires Good(t) && d in t.owners && t.owners[d][Member(z)] > 0
    ensures z in t.objects && d in t.objects[z].refs && d in t.objects && t.objects[d].kind != Device
  {
    assert PairOk(t, z, d);
  }

  lemma SameObjectsSameDevices(t: Table, t': Table)
    requires t'.objects == t.objects
    ensures DevicesOpen(t') <==> DevicesOpen(t)
  {
    forall y
      ensures DeviceOpen(t', y) <==> DeviceOpen(t, y)
    {
    }
  }

  lemma AddedBufferKeeps(t: Table, t': Table, a: Id)
    requires Good(t) && AddedBuffer(t, t', a)
    ensures Good(t') && (DevicesOpen(t) ==> DevicesOpen(t'))
  {
    var t'' := AddedBufferGood(t, t'.objects[a], a);
    if DevicesOpen(t) {
      forall y
        ensures DeviceOpen(t', y)
      {
        assert DeviceOpen(t, y);
      }
    }
  }

  /** A device has clients only. */
  lemma DeviceOwners(t: Table, d: Id, o: Owner)
    requires Good(t) && d in t.objects && t.objects[d].kind == Device && d in t.owners && o in t.owners[d]
    ensures o.Handle?
  {
    match o
    case Handle(_) =>
    case Member(z) =>
      var n := t.owners[d][Member(z)];
      assert n > 0;
      MemberIsRef(t, z, d);
  }

  /** Releasing shared objects destroys no device. */
  lemma ReleasedDevicesOpen(t: Table, t': Table, F: set<Id>, x: Id)
    requires Good(t) && Good(t') && DevicesOpen(t) && OthersKept(t, t', F, x)
    requires x in t.objects && t.objects[x].kind != Device && x !in t'.objects
    ensures DevicesOpen(t')
  {
    forall y
      ensures DeviceOpen(t', y)
    {
      assert y != x ==> Kept(t, t', F, y) && DeviceOpen(t, y);
      if y != x && IsOpen(t', y) && t.objects[y].device.Some? {
        var d := t.objects[y].device.value;
        assert Kept(t, t', F, d) && ObjectOk(t, d) && ObjectOk(t', d);
        if d !in t'.owners {
          var o :| o in t.owners[d];
          DeviceOwners(t, d, o);
        }
      }
    }
  }

  lemma DeviceGone(t: Table, x: Id, h: nat)
    requires x in t.objects && x in t.owners && IsOpen(Revoke(t, x, h), x)
    ensures var t' := RemoveObject(CloseFd(Revoke(t, x, h), x), x);
            t'.objects == t.objects - {x} && t'.owners == t.owners - {x}
  {
  }

  lemma StillSettled(owners: map<Id, multiset<Owner>>, x: Id)
    requires forall y :: y in owners ==> owners[y] != multiset{}
    ensures forall y :: y in owners - {x} ==> (owners - {x})[y] != multiset{}
  {
  }

  /** Destroying a device leaves every open network a device if and only if none refers to it. */
  lemma ClosedDevicesOpenIff(t: Table, t': Table, x: Id)
    requires DevicesOpen(t) && x in t.objects && t'.objects == t.objects - {x}
    ensures DevicesOpen(t') <==> forall y :: y != x ==> !RefersTo(t, y, x)
  {
    forall y | y != x
      ensures DeviceOpen(t', y) <==> !RefersTo(t, y, x)
    {
      assert DeviceOpen(t, y);
    }
    assert DeviceOpen(t', x);
  }
}
