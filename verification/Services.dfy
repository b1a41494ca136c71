/** The code around the gate: the event handler that settles expectations, and the pass over the owned
Services that registers them.  Their effects are the steps of `ServiceGate`. */
module Services {
  import opened Options
  import opened Expectations
  import G = ServiceGate

  /** A Service as an event carries it, with the request its owner reference resolves to. */
  datatype Object = Object(uid: nat, name: string, stamped: bool, owner: Option<string>)

  datatype Queued = Nothing | Later(key: string) | Now(key: string)

  class OwnedByExpectation {
    const expectations: ControllerExpectations

    constructor (expectations: ControllerExpectations)
      ensures this.expectations == expectations
    {
      this.expectations := expectations;
    }

    /** A creation settles its expectation; a creation nobody waited for is queued with a delay. */
    method Create(obj: Object, now: int, later: int) returns (queued: Queued)
      modifies expectations
      ensures obj.owner.None? ==> expectations.cache == old(expectations.cache) && queued == Nothing
      ensures obj.owner.Some? ==>
                var key, c := obj.owner.value, old(expectations.cache);
                && expectations.cache == G.Handled(c, key, if obj.stamped then G.Stamped(obj.uid, obj.name) else G.Created(obj.uid, obj.name), now)
                && queued == (if !obj.stamped && PendingFor(c, key) == {} then Later(key) else Now(key))
                && PendingFor(expectations.cache, key) == PendingFor(c, key) - {Pending(if obj.stamped then Deletions else Creations, obj.name)}
    {
      hide PendingFor, Observed, Checked;
      if obj.stamped {
        queued := Delete(obj);
        return;
      }
      if obj.owner.None? {
        return Nothing;
      }
      var key := obj.owner.value;
      ghost var c := expectations.cache;
      var satisfied, _ := expectations.SatisfiedExpectations(key, now, later);
      SatisfiedIsNothingPending(c, key, now, later);
      G.WaitsAfter(c, key, Creations, obj.name, now);
      G.WaitsAfter(Checked(c, key, now), key, Creations, obj.name, now);
      expectations.Observe(key, Creations, obj.name);
      queued := if satisfied then Later(key) else Now(key);
    }

    method Update(obj: Object) returns (queued: Queued)
      modifies expectations
      ensures obj.owner.None? || !obj.stamped ==> expectations.cache == old(expectations.cache) && queued == Nothing
      ensures obj.owner.Some? && obj.stamped ==>
                && expectations.cache == G.Handled(old(expectations.cache), obj.owner.value, G.Stamped(obj.uid, obj.name), 0)
                && queued == Now(obj.owner.value)
                && PendingFor(expectations.cache, obj.owner.value)
                   == PendingFor(old(expectations.cache), obj.owner.value) - {Pending(Deletions, obj.name)}
    {
      queued := Nothing;
      if obj.stamped {
        queued := Delete(obj);
      }
    }

    method Delete(obj: Object) returns (queued: Queued)
      modifies expectations
      ensures obj.owner.None? ==> expectations.cache == old(expectations.cache) && queued == Nothing
      ensures obj.owner.Some? ==>
                && expectations.cache == G.Handled(old(expectations.cache), obj.owner.value, G.Removed(obj.uid, obj.name), 0)
                && queued == Now(obj.owner.value)
                && PendingFor(expectations.cache, obj.owner.value)
                   == PendingFor(old(expectations.cache), obj.owner.value) - {Pending(Deletions, obj.name)}
    {
      hide PendingFor, Observed;
      if obj.owner.None? {
        return Nothing;
      }
      G.WaitsAfter(expectations.cache, obj.owner.value, Deletions, obj.name, 0);
      expectations.Observe(obj.owner.value, Deletions, obj.name);
      return Now(obj.owner.value);
    }
  }

  lemma SatisfiedIsNothingPending(c: Cache, key: string, now: int, later: int)
    ensures AnswerOf(c, key, now, later).satisfied <==> PendingFor(c, key) == {}
  {
    if key in c {
      WaitingIsPending(c, key);
    }
  }

  // ----- The pass over the owned Services

  /** The Services of other names, in the order they are listed. */
  function Others(services: seq<G.Service>, name: string): seq<G.Service> {
    if services == [] then []
    else
      var n := |services| - 1;
      Others(services[..n], name) + (if services[n].name == name then [] else [services[n]])
  }

  function Deletes(services: seq<G.Service>): set<Pending> {
    set x | x in services :: Pending(Deletions, x.name)
  }

  /** A deletion asked of the API server, whether it succeeds, and what is expected at that moment. */
  datatype Call = Call(service: G.Service, works: bool, waits: set<Pending>)

  /** The calls go to these Services in order, and each deletion is expected already when it is asked for, as
  are those before it. */
  predicate CallsAre(calls: seq<Call>, others: seq<G.Service>, before: set<Pending>) {
    |calls| <= |others| && forall i :: 0 <= i < |calls| ==> CallIs(calls[i], others, i, before)
  }

  predicate CallIs(call: Call, others: seq<G.Service>, i: nat, before: set<Pending>) {
    i < |others| && call.service == others[i] && call.waits == before + Deletes(others[..i + 1])
  }

  predicate AllWork(calls: seq<Call>) {
    forall c :: c in calls ==> c.works
  }

  lemma CallsMore(calls: seq<Call>, others: seq<G.Service>, before: set<Pending>, x: G.Service, works: bool)
    requires CallsAre(calls, others, before) && |calls| == |others|
    ensures CallsAre(calls + [Call(x, works, before + Deletes(others) + {Pending(Deletions, x.name)})], others + [x], before)
  {
    hide Deletes;
    DeletesMore(others, x);
    var more, all := others + [x], calls + [Call(x, works, before + Deletes(others) + {Pending(Deletions, x.name)})];
    forall i | 0 <= i < |all| ensures CallIs(all[i], more, i, before) {
      if i < |others| {
        assert CallIs(calls[i], others, i, before);
        assert more[..i + 1] == others[..i + 1];
      } else {
        assert more[..i + 1] == more;
      }
    }
  }

  lemma CallsWiden(calls: seq<Call>, some: seq<G.Service>, others: seq<G.Service>, before: set<Pending>)
    requires CallsAre(calls, some, before) && some <= others
    ensures CallsAre(calls, others, before)
  {
    hide Deletes;
    forall i | 0 <= i < |calls| ensures CallIs(calls[i], others, i, before) {
      assert CallIs(calls[i], some, i, before);
      assert others[..i + 1] == some[..i + 1];
    }
  }

  /** Keeps the Service of the wanted name and deletes the others, up to the first failure.  Every
  deletion is expected before it is asked for; that of a failed one is taken back. */
  method SyncActivatedObject(services: seq<G.Service>, name: string, expectations: ControllerExpectations, key: string, works: nat -> bool)
    returns (activated: Option<G.Service>, deleted: seq<G.Service>, failed: bool, ghost calls: seq<Call>)
    modifies expectations
    ensures CallsAre(calls, Others(services, name), PendingFor(old(expectations.cache), key))
    ensures |calls| == |deleted| + (if failed then 1 else 0) && AllWork(calls[..|deleted|]) && (failed ==> !calls[|deleted|].works)
    ensures deleted <= Others(services, name) && (!failed ==> deleted == Others(services, name))
    ensures !failed ==> (activated.None? <==> forall x :: x in services ==> x.name != name)
    ensures activated.Some? ==> activated.value in services && activated.value.name == name
    ensures !failed ==> PendingFor(expectations.cache, key) == PendingFor(old(expectations.cache), key) + Deletes(deleted)
    ensures failed ==> exists i: nat :: !works(i)
    ensures failed ==> deleted < Others(services, name)
                       && PendingFor(expectations.cache, key)
                          == PendingFor(old(expectations.cache), key) + Deletes(deleted) - {Pending(Deletions, Others(services, name)[|deleted|].name)}
  {
    hide Expected, Observed, PendingFor, Others, Deletes, CallsAre;
    activated, deleted, failed, calls := None, [], false, [];
    ghost var before := PendingFor(expectations.cache, key);
    NothingDeleted(services, name);
    NothingCalled(before);
    var i := 0;
    while i < |services|
      invariant 0 <= i <= |services|
      invariant deleted == Others(services[..i], name) && CallsAre(calls, deleted, before) && |calls| == |deleted| && AllWork(calls)
      invariant activated.None? <==> forall x :: x in services[..i] ==> x.name != name
      invariant activated.Some? ==> activated.value in services && activated.value.name == name
      invariant PendingFor(expectations.cache, key) == before + Deletes(deleted)
    {
      var obj := services[i];
      OthersNext(services, name, i);
      if obj.name == name {
        activated := Some(obj);
      } else {
        G.WaitsAfter(expectations.cache, key, Deletions, obj.name, 0);
        expectations.Expect(key, Deletions, obj.name);
        CallsMore(calls, deleted, before, obj, works(i));
        ghost var earlier := calls;
        calls := calls + [Call(obj, works(i), PendingFor(expectations.cache, key))];
        assert calls[..|deleted|] == earlier;
        if !works(i) {
          OthersPrefix(services, name, i + 1);
          CallsWiden(calls, deleted + [obj], Others(services, name), before);
          G.WaitsAfter(expectations.cache, key, Deletions, obj.name, 0);
          expectations.Observe(key, Deletions, obj.name);
          failed := true;
          return;
        }
        DeletesMore(deleted, obj);
        deleted := deleted + [obj];
      }
      i := i + 1;
    }
    assert services[..i] == services && calls[..|deleted|] == calls;
  }

  lemma NothingCalled(before: set<Pending>)
    ensures CallsAre([], [], before)
  {
  }

  lemma NothingDeleted(services: seq<G.Service>, name: string)
    ensures Others(services[..0], name) == [] && Deletes([]) == {}
  {
  }

  lemma DeletesMore(deleted: seq<G.Service>, x: G.Service)
    ensures Deletes(deleted + [x]) == Deletes(deleted) + {Pending(Deletions, x.name)}
  {
  }

  lemma OthersNext(services: seq<G.Service>, name: string, i: nat)
    requires i < |services|
    ensures Others(services[..i + 1], name) == Others(services[..i], name) + (if services[i].name == name then [] else [services[i]])
    ensures services[..i + 1] == services[..i] + [services[i]]
  {
    assert services[..i + 1][..i] == services[..i];
  }

  lemma {:induction false} OthersPrefix(services: seq<G.Service>, name: string, i: nat)
    requires i <= |services|
    ensures Others(services[..i], name) <= Others(services, name)
    decreases |services| - i
  {
    if i < |services| {
      OthersNext(services, name, i);
      OthersPrefix(services, name, i + 1);
    } else {
      assert services[..i] == services;
    }
  }

  datatype Outcome = Failed | Created | Present(service: G.Service)

  /** Brings the owned Services in line: exactly when none of them bears the wanted name, one is
  created, and its creation stays expected until it is seen.  `asked` is what is expected at the moment the
  creation is asked for, if it is. */
  method SyncService(services: seq<G.Service>, name: string, expectations: ControllerExpectations, key: string, works: nat -> bool, creates: bool)
    returns (outcome: Outcome, ghost calls: seq<Call>, ghost asked: Option<set<Pending>>)
    modifies expectations
    ensures CallsAre(calls, Others(services, name), PendingFor(old(expectations.cache), key))
    ensures asked.Some? || outcome.Present? ==> AllWork(calls) && |calls| == |Others(services, name)|
    ensures outcome == Created <==> asked.Some? && creates
    ensures asked.Some? ==> (forall x :: x in services ==> x.name != name)
                            && asked.value == PendingFor(old(expectations.cache), key) + Deletes(Others(services, name)) + {Pending(Creations, name)}
    ensures outcome.Present? ==> outcome.service in services && outcome.service.name == name
    ensures outcome == Created ==> creates && forall x :: x in services ==> x.name != name
    ensures outcome.Present? ==> PendingFor(expectations.cache, key) == PendingFor(old(expectations.cache), key) + Deletes(Others(services, name))
    ensures outcome == Created ==>
              PendingFor(expectations.cache, key) == PendingFor(old(expectations.cache), key) + Deletes(Others(services, name)) + {Pending(Creations, name)}
    ensures (forall i: nat :: works(i)) && creates ==> outcome != Failed
  {
    hide Expected, Observed, PendingFor, CallsAre, Deletes;
    var activated, deleted, failed;
    activated, deleted, failed, calls := SyncActivatedObject(services, name, expectations, key, works);
    asked := None;
    assert !failed ==> calls[..|deleted|] == calls;
    if failed {
      return Failed, calls, asked;
    }
    if |services| == 0 || activated.None? {
      ghost var c := expectations.cache;
      G.WaitsAfter(c, key, Creations, name, 0);
      expectations.Expect(key, Creations, name);
      asked := Some(PendingFor(expectations.cache, key));
      if !creates {
        expectations.Observe(key, Creations, name);
        return Failed, calls, asked;
      }
      return Created, calls, asked;
    }
    return Present(activated.value), calls, asked;
  }
}
