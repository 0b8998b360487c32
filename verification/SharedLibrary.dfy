/** Two interpreters of different clients on one library do not disturb each other. */
module SharedLibraries {
  import opened Bytes
  import opened Ownership
  import opened DriverLibrary
  import opened Interpreters

  /** An object of an interpreter is owned by that interpreter's client. */
  lemma PartHasClient(t: Table, p: Parts, h: nat, x: Id)
    requires Held(t, p, h) && x in p.All()
    ensures x in t.objects && x in t.owners && t.owners[x][Handle(h)] > 0
    ensures forall k :: k != h ==> t.owners[x][Handle(k)] == 0
    ensures t.objects[x].device.Some? ==> t.objects[x].device == Some(p.device) || p.network == Some(x)
  {
  }

  lemma Disjoint(t: Table, p: Parts, h: nat, q: Parts, k: nat)
    requires Held(t, p, h) && Held(t, q, k) && h != k
    ensures p.All() !! q.All()
  {
    forall x | x in p.All() && x in q.All()
      ensures false
    {
      PartHasClient(t, p, h, x);
      PartHasClient(t, q, k, x);
    }
  }

  /** What happens apart from an interpreter's parts, without referring to its device, leaves it as it is. */
  lemma Undisturbed(t: Table, t': Table, S: set<Id>, q: Parts, k: nat)
    requires Held(t, q, k) && Outside(t, t', S) && S !! q.All()
    requires forall y :: y in S && y in t'.objects ==> t'.objects[y].device != Some(q.device)
    ensures Held(t', q, k)
  {
    forall x | x in q.All()
      ensures SameAt(t, t', x)
    {
    }
    forall y | y in t'.objects && t'.objects[y].device == Some(q.device)
      ensures q.network == Some(y)
    {
      assert SameAt(t, t', y);
    }
  }

  /** Parts of p refer to no device but p's. */
  lemma OwnDeviceOnly(t: Table, p: Parts, h: nat, q: Parts, y: Id)
    requires Held(t, p, h) && y in p.All() && q.device != p.device
    ensures y in t.objects && t.objects[y].device != Some(q.device)
  {
  }

  /** Two interpreters are the only difference from the table t0. */
  ghost predicate Both(t0: Table, t: Table, p: Parts, h: nat, q: Parts, k: nat) {
    && Good(t0) && Held(t, p, h) && Held(t, q, k) && h != k && Outside(t0, t, p.All() + q.All())
    && forall x :: x in p.All() + q.All() ==> x !in t0.objects
  }

  lemma BothSwaps(t0: Table, t: Table, p: Parts, h: nat, q: Parts, k: nat)
    requires Both(t0, t, p, h, q, k)
    ensures Both(t0, t, q, k, p, h)
  {
    assert p.All() + q.All() == q.All() + p.All();
  }

  /** A second interpreter is constructed beside the first. */
  lemma SecondMade(t0: Table, t: Table, t': Table, p: Parts, h: nat, q: Parts, k: nat)
    requires Progress(t0, t, p, h) && Progress(t, t', q, k) && h != k
    ensures Both(t0, t', p, h, q, k)
  {
    forall x | x in p.All()
      ensures x !in q.All()
    {
      PartHasClient(t, p, h, x);
    }
    PartHasClient(t, p, h, p.device);
    forall y | y in q.All()
      ensures y in t'.objects && t'.objects[y].device != Some(p.device)
    {
      OwnDeviceOnly(t', q, k, p, y);
    }
    Undisturbed(t, t', q.All(), p, h);
    forall y | y in q.All()
      ensures y !in t0.objects
    {
      assert y !in p.All() ==> SameAt(t0, t, y);
    }
    OutsideWeaken(t0, t, p.All(), p.All() + q.All());
    OutsideWeaken(t, t', q.All(), p.All() + q.All());
    OutsideTransitive(t0, t, t', p.All() + q.All());
  }

  /** One of two interpreters replaces its inference, or leaves everything as it is. */
  lemma OneInvoked(t0: Table, t: Table, t': Table, p: Parts, p': Parts, h: nat, q: Parts, k: nat)
    requires Both(t0, t, p, h, q, k) && Good(t) && Good(t') && Held(t', p', h)
    requires p' == p.(inference := p'.inference) && Outside(t, t', p.All() + p'.All())
    requires p'.inference != p.inference ==>
               Gone(t', p.inference) && p'.inference.Some? && p'.inference.value !in t.objects
    ensures Both(t0, t', p', h, q, k)
  {
    var S := p.All() + p'.All();
    Disjoint(t, p, h, q, k);
    forall x | x in S
      ensures x !in q.All() && x !in t0.objects
      ensures x in t'.objects ==> x in p'.All()
    {
      if x !in p.All() {
        assert x !in t.objects;
        if x in q.All() { PartHasClient(t, q, k, x); }
        assert SameAt(t0, t, x);
      }
    }
    forall y | y in S && y in t'.objects
      ensures t'.objects[y].device != Some(q.device)
    {
      OwnDeviceOnly(t', p', h, q, y);
    }
    Undisturbed(t, t', S, q, k);
    forall y | y !in p'.All() + q.All()
      ensures SameAt(t0, t', y)
    {
      if y in S {
        assert ObjectOk(t0, y) && ObjectOk(t', y);
      } else {
        assert SameAt(t0, t, y) && SameAt(t, t', y);
      }
    }
  }

  /** One of two interpreters is destroyed: the other is left as if alone. */
  lemma OneDestroyed(t0: Table, t: Table, t': Table, p: Parts, h: nat, q: Parts, k: nat)
    requires Both(t0, t, p, h, q, k) && Good(t') && Outside(t, t', p.All())
    requires forall x :: x in p.All() ==> x !in t'.objects
    ensures Progress(t0, t', q, k)
  {
    Disjoint(t, p, h, q, k);
    Undisturbed(t, t', p.All(), q, k);
    forall y | y !in q.All()
      ensures SameAt(t0, t', y)
    {
      if y in p.All() {
        assert ObjectOk(t0, y) && ObjectOk(t', y);
      } else {
        assert SameAt(t0, t, y) && SameAt(t, t', y);
      }
    }
  }

  /** Two interpreters, both valid, on one library, and nothing else since t0. */
  ghost predicate Beside(i: Interpreter, j: Interpreter, t0: Table)
    reads i, j, i.lib
  {
    && i != j && i.lib == j.lib && i.Complete() && j.Complete()
    && i.lib.Valid() && Settled(i.lib.T()) && Both(t0, i.lib.T(), i.parts, i.h, j.parts, j.h)
  }

  /** Invoke of i leaves j, which it does not touch, valid. */
  method InvokeBeside(i: Interpreter, j: Interpreter, ghost t0: Table)
    requires Beside(i, j, t0)
    modifies i`parts, i.lib, i.lib.calls
    ensures Beside(i, j, t0)
    ensures i.lib.calls.failures >= old(i.lib.calls.failures)
    ensures i.lib.calls.failures == old(i.lib.calls.failures) ==>
              |i.lib.calls.requests| == |old(i.lib.calls.requests)| + 1
  {
    ghost var t, p := i.lib.T(), i.parts;
    var statusOk := *;
    var threw := i.Invoke(statusOk);
    OneInvoked(t0, t, i.lib.T(), p, i.parts, i.h, j.parts, j.h);
  }

  /** Destruction of i leaves j valid, and alone. */
  method DestroyBeside(i: Interpreter, j: Interpreter, ghost t0: Table)
    requires Beside(i, j, t0)
    modifies i.lib
    ensures Alone(j, t0)
  {
    ghost var t := i.lib.T();
    i.Destroy();
    OneDestroyed(t0, t, i.lib.T(), i.parts, i.h, j.parts, j.h);
  }

  /** An invocation of either. */
  method InvokeEither(i: Interpreter, j: Interpreter, first: bool, ghost t0: Table)
    requires Beside(i, j, t0)
    modifies i`parts, j`parts, i.lib, i.lib.calls
    ensures Beside(i, j, t0)
    ensures i.lib.calls.failures >= old(i.lib.calls.failures)
    ensures i.lib.calls.failures == old(i.lib.calls.failures) ==>
              |i.lib.calls.requests| == |old(i.lib.calls.requests)| + 1
  {
    if first {
      InvokeBeside(i, j, t0);
    } else {
      BothSwaps(t0, i.lib.T(), i.parts, i.h, j.parts, j.h);
      InvokeBeside(j, i, t0);
      BothSwaps(t0, i.lib.T(), j.parts, j.h, i.parts, i.h);
    }
  }

  method FinishBoth(i: Interpreter, j: Interpreter, firstGoesFirst: bool, ghost t0: Table)
    requires Beside(i, j, t0)
    modifies i.lib
    ensures i.lib.Valid() && i.lib.T() == t0
  {
    if firstGoesFirst {
      DestroyBeside(i, j, t0);
      Finish(j, t0);
    } else {
      BothSwaps(t0, i.lib.T(), i.parts, i.h, j.parts, j.h);
      DestroyBeside(j, i, t0);
      Finish(i, t0);
    }
  }

  /** The second interpreter's construction. */
  method ConstructBeside(i: Interpreter, k: nat, opens: bool, vela: bool, ghost t0: Table) returns (j: Interpreter?)
    requires Alone(i, t0) && i.h != k
    modifies i.lib, i.lib.calls`failures, i.lib.calls`networks
    ensures j == null ==> Alone(i, t0)
    ensures j != null ==> fresh(j) && Beside(i, j, t0)
    ensures i.lib.calls.failures >= old(i.lib.calls.failures)
    ensures j == null <==> i.lib.calls.failures > old(i.lib.calls.failures) || !opens || !vela
  {
    ghost var t1 := i.lib.T();
    j := Interpreters.Construct(i.lib, k, opens, vela);
    if j != null {
      SecondMade(t0, t1, i.lib.T(), i.parts, i.h, j.parts, k);
    }
  }

  /** That, and what follows. */
  method SecondLife(i: Interpreter, k: nat, opens: bool, vela: bool, schedule: seq<bool>, firstGoesFirst: bool,
        ghost t0: Table)
    requires Alone(i, t0) && i.h != k
    modifies i`parts, i.lib, i.lib.calls
    ensures i.lib.Valid() && i.lib.T() == t0 && i.lib.calls.failures >= old(i.lib.calls.failures)
    ensures i.lib.calls.failures == old(i.lib.calls.failures) && opens && vela ==>
              |i.lib.calls.requests| == |old(i.lib.calls.requests)| + |schedule|
  {
    var j := ConstructBeside(i, k, opens, vela, t0);
    ghost var failures, requests := i.lib.calls.failures, |i.lib.calls.requests|;
    assert requests == |old(i.lib.calls.requests)|;
    if j == null {
      Finish(i, t0);
      assert i.lib.calls.failures == failures;
    } else {
      LiveTogether(i, j, schedule, firstGoesFirst, t0);
      assert i.lib.calls.failures == failures ==> |i.lib.calls.requests| == requests + |schedule|;
    }
  }

  /** Invocations of either, in any order, then the end of both. */
  method LiveTogether(i: Interpreter, j: Interpreter, schedule: seq<bool>, firstGoesFirst: bool, ghost t0: Table)
    requires Beside(i, j, t0)
    modifies i`parts, j`parts, i.lib, i.lib.calls
    ensures i.lib.Valid() && i.lib.T() == t0 && i.lib.calls.failures >= old(i.lib.calls.failures)
    ensures i.lib.calls.failures == old(i.lib.calls.failures) ==>
              |i.lib.calls.requests| == |old(i.lib.calls.requests)| + |schedule|
    decreases |schedule|
  {
    if schedule == [] {
      FinishBoth(i, j, firstGoesFirst, t0);
    } else {
      InvokeEither(i, j, schedule[0], t0);
      LiveTogether(i, j, schedule[1..], firstGoesFirst, t0);
    }
  }

  /**
   * Two lives on one library: invocations interleave as scheduled, either interpreter goes first, and any call may
   * fail. The library and the kernel are left exactly as they were found, and if no call failed, then one request was
   * issued for each invocation.
   */
  method TwoLives(lib: Library, h: nat, k: nat, opens: bool, vela: bool, schedule: seq<bool>, firstGoesFirst: bool)
    requires lib.Valid() && Settled(lib.T()) && h != k
    modifies lib, lib.calls
    ensures lib.Valid() && lib.T() == old(lib.T())
    ensures lib.calls.failures == old(lib.calls.failures) && opens && vela ==>
              |lib.calls.requests| == |old(lib.calls.requests)| + |schedule|
  {
    ghost var t0 := lib.T();
    var i := Interpreters.Construct(lib, h, opens, vela);
    if i != null {
      SecondLife(i, k, opens, vela, schedule, firstGoesFirst, t0);
    }
  }
}
