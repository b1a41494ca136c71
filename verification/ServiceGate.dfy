/** The gate in front of the Services of one ExternalProxy.

The API server is the log of what happened to its Services.  The watch cache shows a prefix of the log
and the event handler has seen a prefix of that; both lag behind as long as they like.  Somebody else
may stamp or remove a Service at any time, but only this controller creates them, and it reconciles
the resource once at a time.
*/
module ServiceGate {
  import opened Expectations

  datatype Happening = Created(uid: nat, name: string) | Stamped(uid: nat, name: string) | Removed(uid: nat, name: string)

  datatype Service = Service(uid: nat, name: string)

  type Log = seq<Happening>

  predicate Goes(h: Happening, uid: nat) {
    !h.Created? && h.uid == uid
  }

  /** Within the first `n` happenings the Service was stamped for deletion or removed. */
  predicate GoneIn(log: Log, n: nat, uid: nat) {
    exists e :: 0 <= e < n && e < |log| && Goes(log[e], uid)
  }

  predicate RemovedIn(log: Log, n: nat, uid: nat) {
    exists e :: 0 <= e < n && e < |log| && log[e].Removed? && log[e].uid == uid
  }

  predicate CreatedAt(log: Log, c: nat, s: Service) {
    c < |log| && log[c] == Created(s.uid, s.name)
  }

  predicate CreatedIn(log: Log, n: nat, s: Service) {
    exists c: nat :: c < n && CreatedAt(log, c, s)
  }

  /** What a list of owned Services returns on a cache that shows `n` happenings. */
  ghost predicate Listed(log: Log, n: nat, s: Service) {
    CreatedIn(log, n, s) && !GoneIn(log, n, s.uid)
  }

  /** Where a reconcile is; `view` is how far the cache was when it listed the Services. */
  datatype Pc =
    | Idle
    | Passed(desired: string)
    | Acting(desired: string, view: nat, rest: set<Service>)
    | Deleting(desired: string, view: nat, rest: set<Service>, victim: Service)
    | Creating(desired: string)

  datatype System = System(
    log: Log, cached: nat, handled: nat,
    key: string, exp: Cache,
    deleted: set<Service>,     // Services whose deletion this controller asked for, successfully
    pc: Pc)

  function Waits(s: System): set<Pending> {
    PendingFor(s.exp, s.key)
  }

  // ----- Steps of the controller

  /** The gate: nothing is pending, or the reconcile is put off. */
  ghost predicate Gate(s: System, s': System, desired: string, now: int, later: int) {
    && s.pc == Idle && AnswerOf(s.exp, s.key, now, later).satisfied
    && s' == s.(exp := Checked(s.exp, s.key, now), pc := Passed(desired))
  }

  ghost predicate PutOff(s: System, s': System, now: int) {
    s.pc == Idle && s' == s.(exp := Checked(s.exp, s.key, now))
  }

  ghost predicate List(s: System, s': System, rest: set<Service>) {
    && s.pc.Passed? && (forall x :: x in rest <==> Listed(s.log, s.cached, x) && x.name != s.pc.desired)
    && s' == s.(pc := Acting(s.pc.desired, s.cached, rest))
  }

  ghost predicate ExpectDeletion(s: System, s': System, victim: Service) {
    && s.pc.Acting? && victim in s.pc.rest
    && s' == s.(exp := Expected(s.exp, s.key, Deletions, victim.name), pc := Deleting(s.pc.desired, s.pc.view, s.pc.rest - {victim}, victim))
  }

  /** The API server accepts the deletion: the object is stamped, or removed at once, or it had been
  stamped already and nothing happens. */
  ghost predicate Delete(s: System, s': System, atOnce: bool) {
    && s.pc.Deleting? && !RemovedIn(s.log, |s.log|, s.pc.victim.uid)
    && var v := s.pc.victim;
       var h := if GoneIn(s.log, |s.log|, v.uid) then [] else [if atOnce then Removed(v.uid, v.name) else Stamped(v.uid, v.name)];
       s' == s.(log := s.log + h, deleted := s.deleted + {v}, pc := Acting(s.pc.desired, s.pc.view, s.pc.rest))
  }

  ghost predicate DeleteFails(s: System, s': System) {
    && s.pc.Deleting?
    && s' == s.(exp := Observed(s.exp, s.key, Deletions, s.pc.victim.name), pc := Idle)
  }

  /** With the others out of the way and no Service of the desired name listed, one is created. */
  ghost predicate ExpectCreation(s: System, s': System) {
    && s.pc.Acting? && s.pc.rest == {} && (forall x :: Listed(s.log, s.pc.view, x) ==> x.name != s.pc.desired)
    && s' == s.(exp := Expected(s.exp, s.key, Creations, s.pc.desired), pc := Creating(s.pc.desired))
  }

  /** A name is free once every earlier Service that bore it is removed. */
  ghost predicate Free(log: Log, name: string) {
    forall x: Service :: x.name == name && CreatedIn(log, |log|, x) ==> RemovedIn(log, |log|, x.uid)
  }

  ghost predicate Create(s: System, s': System, uid: nat) {
    && s.pc.Creating? && Free(s.log, s.pc.desired) && (forall e :: 0 <= e < |s.log| ==> s.log[e].uid != uid)
    && s' == s.(log := s.log + [Created(uid, s.pc.desired)], pc := Idle)
  }

  ghost predicate CreateFails(s: System, s': System) {
    && s.pc.Creating?
    && s' == s.(exp := Observed(s.exp, s.key, Creations, s.pc.desired), pc := Idle)
  }

  /** The reconcile ends, after an update or with an error. */
  ghost predicate Finish(s: System, s': System) {
    (s.pc.Passed? || s.pc.Acting?) && s' == s.(pc := Idle)
  }

  // ----- Steps of everybody else

  ghost predicate Interfere(s: System, s': System, x: Service, stamp: bool) {
    && CreatedIn(s.log, |s.log|, x)
    && (if stamp then !GoneIn(s.log, |s.log|, x.uid) else !RemovedIn(s.log, |s.log|, x.uid))
    && s' == s.(log := s.log + [if stamp then Stamped(x.uid, x.name) else Removed(x.uid, x.name)])
  }

  ghost predicate CacheCatchesUp(s: System, s': System) {
    s.cached < |s.log| && s' == s.(cached := s.cached + 1)
  }

  /** The handler takes the next event: a creation is checked and observed, an update to a stamped
  object and a deletion are observed as deletions. */
  function Handled(exp: Cache, key: string, h: Happening, now: int): Cache {
    match h
    case Created(_, name) => Observed(Checked(exp, key, now), key, Creations, name)
    case Stamped(_, name) => Observed(exp, key, Deletions, name)
    case Removed(_, name) => Observed(exp, key, Deletions, name)
  }

  ghost predicate Handle(s: System, s': System, now: int) {
    && s.handled < s.cached && s.handled < |s.log|
    && s' == s.(handled := s.handled + 1, exp := Handled(s.exp, s.key, s.log[s.handled], now))
  }

  ghost predicate Next(s: System, s': System) {
    || (exists desired, now, later :: Gate(s, s', desired, now, later))
    || (exists now :: PutOff(s, s', now))
    || (exists rest :: List(s, s', rest))
    || (exists victim :: ExpectDeletion(s, s', victim))
    || (exists atOnce :: Delete(s, s', atOnce))
    || DeleteFails(s, s')
    || ExpectCreation(s, s')
    || (exists uid :: Create(s, s', uid))
    || CreateFails(s, s')
    || Finish(s, s')
    || (exists x, stamp :: Interfere(s, s', x, stamp))
    || CacheCatchesUp(s, s')
    || (exists now :: Handle(s, s', now))
  }

  ghost predicate Init(s: System) {
    s.log == [] && s.cached == 0 && s.handled == 0 && s.exp == map[] && s.deleted == {} && s.pc == Idle
  }

  // ----- Invariants

  /** What the API server guarantees about its log. */
  ghost predicate LogOk(log: Log) {
    && (forall e: nat :: e < |log| && !log[e].Created? ==> CreatedIn(log, e, Service(log[e].uid, log[e].name)))
    && (forall i: nat, j: nat :: i < j < |log| && log[i].Created? && log[j].Created? ==> log[i].uid != log[j].uid)
    && (forall i: nat, j: nat :: i < j < |log| && log[i].Created? && log[j].Created? && log[i].name == log[j].name ==> RemovedIn(log, j, log[i].uid))
    && (forall i: nat, j: nat :: i < j < |log| && log[i].Removed? ==> log[j].uid != log[i].uid)
  }

  /** Everything created was handled. */
  predicate AllCreationsHandled(s: System) {
    forall e: nat :: s.handled <= e < |s.log| ==> !s.log[e].Created?
  }

  ghost predicate CreationsInv(s: System) {
    && (s.pc != Idle ==> AllCreationsHandled(s))
    && (forall e: nat :: s.handled <= e < |s.log| && s.log[e].Created? ==> Pending(Creations, s.log[e].name) in Waits(s))
    && forall i: nat, j: nat :: s.handled <= i < j < |s.log| ==> !(s.log[i].Created? && s.log[j].Created?)
  }

  /** No Service of this name was created later. */
  predicate LatestOfName(log: Log, c: nat, name: string) {
    forall e: nat :: c < e < |log| && log[e].Created? ==> log[e].name != name
  }

  /** The handler has seen that the Service goes, or its deletion is pending. */
  ghost predicate Settling(s: System, x: Service) {
    exists c: nat :: c < s.handled && CreatedAt(s.log, c, x)
                     && (GoneIn(s.log, s.handled, x.uid) || (Pending(Deletions, x.name) in Waits(s) && LatestOfName(s.log, c, x.name)))
  }

  ghost predicate DeletionsInv(s: System) {
    && (forall x :: x in s.deleted ==> Settling(s, x))
    && (s.pc.Passed? ==> forall x :: x in s.deleted ==> GoneIn(s.log, s.handled, x.uid))
    && (s.pc != Idle ==> forall x :: x in s.deleted && x.name == s.pc.desired ==> GoneIn(s.log, s.handled, x.uid))
  }

  ghost predicate PcInv(s: System) {
    match s.pc
    case Idle => true
    case Passed(_) => true
    case Acting(desired, view, rest) => Looking(s, desired, view, rest)
    case Deleting(desired, view, rest, victim) =>
      && Looking(s, desired, view, rest) && Found(s, desired, view, victim) && victim !in rest && Settling(s, victim)
    case Creating(desired) => NoneLive(s.log, desired) && Pending(Creations, desired) in Waits(s)
  }

  /** The reconcile works on what the cache showed after `view` happenings. */
  ghost predicate Looking(s: System, desired: string, view: nat, rest: set<Service>) {
    view <= s.cached && AllBefore(s.log, view) && forall x :: x in rest ==> Found(s, desired, view, x)
  }

  predicate AllBefore(log: Log, n: nat) {
    forall e: nat :: n <= e < |log| ==> !log[e].Created?
  }

  /** A Service to be deleted: listed, of another name, and not deleted by this controller before. */
  ghost predicate Found(s: System, desired: string, view: nat, x: Service) {
    x.name != desired && Listed(s.log, view, x) && CreatedIn(s.log, s.handled, x) && x !in s.deleted
  }

  /** No Service of this name exists that is not going already. */
  ghost predicate NoneLive(log: Log, name: string) {
    forall x: Service :: x.name == name && CreatedIn(log, |log|, x) ==> GoneIn(log, |log|, x.uid)
  }

  ghost predicate Inv(s: System) {
    s.handled <= s.cached <= |s.log| && LogOk(s.log) && CreationsInv(s) && DeletionsInv(s) && PcInv(s)
  }

  // ----- Appending to the log

  /** What a prefix shows does not depend on what is appended. */
  lemma PrefixSame(log: Log, h: Happening, n: nat, x: Service)
    requires n <= |log|
    ensures CreatedIn(log + [h], n, x) <==> CreatedIn(log, n, x)
    ensures GoneIn(log + [h], n, x.uid) <==> GoneIn(log, n, x.uid)
    ensures RemovedIn(log + [h], n, x.uid) <==> RemovedIn(log, n, x.uid)
  {
    var log' := log + [h];
    if CreatedIn(log, n, x) {
      var c: nat :| c < n && CreatedAt(log, c, x);
      assert CreatedAt(log', c, x);
    }
    if CreatedIn(log', n, x) {
      var c: nat :| c < n && CreatedAt(log', c, x);
      assert CreatedAt(log, c, x);
    }
    if GoneIn(log, n, x.uid) {
      var e :| 0 <= e < n && e < |log| && Goes(log[e], x.uid);
      assert Goes(log'[e], x.uid);
    }
    if RemovedIn(log, n, x.uid) {
      var e :| 0 <= e < n && e < |log| && log[e].Removed? && log[e].uid == x.uid;
      assert log'[e].Removed?;
    }
  }

  lemma GoneLater(log: Log, m: nat, n: nat, uid: nat)
    requires m <= n
    ensures GoneIn(log, m, uid) ==> GoneIn(log, n, uid)
    ensures RemovedIn(log, m, uid) ==> RemovedIn(log, n, uid)
    ensures RemovedIn(log, n, uid) ==> GoneIn(log, n, uid)
  {
    if GoneIn(log, m, uid) {
      var e :| 0 <= e < m && e < |log| && Goes(log[e], uid);
    }
    if RemovedIn(log, m, uid) {
      var e :| 0 <= e < m && e < |log| && log[e].Removed? && log[e].uid == uid;
    }
    if RemovedIn(log, n, uid) {
      var e :| 0 <= e < n && e < |log| && log[e].Removed? && log[e].uid == uid;
      assert Goes(log[e], uid);
    }
  }

  lemma SettlingKept(s: System, h: Happening, x: Service, exp: Cache)
    requires Settling(s, x) && s.handled <= |s.log| && Waits(s) <= PendingFor(exp, s.key)
    requires h.Created? ==> h.name != x.name || GoneIn(s.log, s.handled, x.uid)
    ensures Settling(s.(log := s.log + [h], exp := exp), x)
  {
    var c: nat :| c < s.handled && CreatedAt(s.log, c, x)
                  && (GoneIn(s.log, s.handled, x.uid) || (Pending(Deletions, x.name) in Waits(s) && LatestOfName(s.log, c, x.name)));
    PrefixSame(s.log, h, s.handled, x);
    var s' := s.(log := s.log + [h], exp := exp);
    assert CreatedAt(s'.log, c, x);
  }

  lemma RemovedShows(log: Log, i: nat)
    requires i < |log| && log[i].Removed?
    ensures RemovedIn(log, |log|, log[i].uid)
  {
  }

  lemma LogGrows(log: Log, h: Happening)
    requires LogOk(log)
    requires if h.Created? then Free(log, h.name) && forall e :: 0 <= e < |log| ==> log[e].uid != h.uid
             else CreatedIn(log, |log|, Service(h.uid, h.name)) && !RemovedIn(log, |log|, h.uid)
    ensures LogOk(log + [h])
  {
    var log' := log + [h];
    forall e: nat | e < |log'| && !log'[e].Created? ensures CreatedIn(log', e, Service(log'[e].uid, log'[e].name)) {
      PrefixSame(log, h, e, Service(log'[e].uid, log'[e].name));
    }
    forall i: nat, j: nat | i < j < |log'| && log'[i].Created? && log'[j].Created? && log'[i].name == log'[j].name
      ensures RemovedIn(log', j, log'[i].uid)
    {
      var x := Service(log'[i].uid, log'[i].name);
      PrefixSame(log, h, j, x);
      if j == |log| {
        assert CreatedAt(log, i, x);
      }
    }
    forall i: nat, j: nat | i < j < |log'| && log'[i].Removed? ensures log'[j].uid != log'[i].uid {
      if j == |log| {
        RemovedShows(log, i);
      }
    }
  }

  /** Stamps and removals keep the invariant, whoever causes them. */
  lemma GoingInv(s: System, h: Happening)
    requires Inv(s) && !h.Created? && CreatedIn(s.log, |s.log|, Service(h.uid, h.name)) && !RemovedIn(s.log, |s.log|, h.uid)
    ensures Inv(s.(log := s.log + [h]))
  {
    hide GoneIn, CreatedIn, RemovedIn, Settling, LogOk;
    var s' := s.(log := s.log + [h]);
    LogGrows(s.log, h);
    forall x | Settling(s, x) ensures Settling(s', x) {
      SettlingKept(s, h, x, s.exp);
    }
    forall x: Service ensures (CreatedIn(s'.log, s.handled, x) <==> CreatedIn(s.log, s.handled, x))
                              && (GoneIn(s'.log, s.handled, x.uid) <==> GoneIn(s.log, s.handled, x.uid)) {
      PrefixSame(s.log, h, s.handled, x);
    }
    if s.pc.Creating? {
      StillNoneLive(s.log, h, s.pc.desired);
    }
    if s.pc.Acting? || s.pc.Deleting? {
      forall x: Service | Listed(s.log, s.pc.view, x) ensures Listed(s'.log, s.pc.view, x) {
        PrefixSame(s.log, h, s.pc.view, x);
      }
    }
  }

  lemma StillNoneLive(log: Log, h: Happening, name: string)
    requires NoneLive(log, name) && !h.Created?
    ensures NoneLive(log + [h], name)
  {
    forall x: Service | x.name == name && CreatedIn(log + [h], |log| + 1, x) ensures GoneIn(log + [h], |log| + 1, x.uid) {
      var c: nat :| c < |log| + 1 && CreatedAt(log + [h], c, x);
      assert CreatedAt(log, c, x);
      PrefixSame(log, h, |log|, x);
      GoneLater(log + [h], |log|, |log| + 1, x.uid);
    }
  }

  // ----- What the store of expectations does to the pending set

  lemma WaitsAfter(c: Cache, key: string, action: Action, name: string, now: int)
    ensures PendingFor(Expected(c, key, action, name), key) == PendingFor(c, key) + {Pending(action, name)}
    ensures PendingFor(Observed(c, key, action, name), key) == PendingFor(c, key) - {Pending(action, name)}
    ensures PendingFor(Checked(c, key, now), key) == PendingFor(c, key)
  {
    hide Expected, Observed, Checked, PendingFor;
    forall p
      ensures p in PendingFor(Expected(c, key, action, name), key) <==> p in PendingFor(c, key) || p == Pending(action, name)
      ensures p in PendingFor(Observed(c, key, action, name), key) <==> p in PendingFor(c, key) && p != Pending(action, name)
      ensures p in PendingFor(Checked(c, key, now), key) <==> p in PendingFor(c, key)
    {
      StepPending(c, Expect(key, action, name), key, p);
      StepPending(c, Observe(key, action, name), key, p);
      StepPending(c, Check(key, now, now), key, p);
    }
  }

  lemma SatisfiedMeansNothing(c: Cache, key: string, now: int, later: int)
    requires AnswerOf(c, key, now, later).satisfied
    ensures PendingFor(c, key) == {}
  {
    if key in c {
      WaitingIsPending(c, key);
    }
  }

  /** More expectations, everything else as it is. */
  lemma ExpectInv(s: System, exp: Cache)
    requires Inv(s) && Waits(s) <= PendingFor(exp, s.key)
    ensures Inv(s.(exp := exp))
  {
    hide GoneIn, CreatedIn, RemovedIn, LogOk, PendingFor, LatestOfName;
    assert forall x :: Settling(s, x) ==> Settling(s.(exp := exp), x);
  }

  lemma GateInv(s: System, s': System, desired: string, now: int, later: int)
    requires Inv(s) && Gate(s, s', desired, now, later)
    ensures Inv(s') && AllCreationsHandled(s) && forall x :: x in s.deleted ==> GoneIn(s.log, s.handled, x.uid)
  {
    hide GoneIn, CreatedIn, RemovedIn, LogOk, PendingFor, LatestOfName, Checked, AnswerOf;
    SatisfiedMeansNothing(s.exp, s.key, now, later);
    WaitsAfter(s.exp, s.key, Creations, "", now);
    assert forall x :: x in s.deleted ==> Settling(s, x);
    assert forall x :: Settling(s, x) ==> Settling(s', x);
  }

  lemma ListInv(s: System, s': System, rest: set<Service>)
    requires Inv(s) && List(s, s', rest)
    ensures Inv(s')
  {
    hide RemovedIn, LogOk, PendingFor, LatestOfName;
    assert forall x :: Settling(s, x) ==> Settling(s', x);
    forall x | x in rest ensures Found(s', s.pc.desired, s.cached, x) {
      var c: nat :| c < s.cached && CreatedAt(s.log, c, x);
      assert c < s.handled;
      GoneLater(s.log, s.handled, s.cached, x.uid);
    }
  }

  /** A listed Service is the latest of its name. */
  lemma ListedIsLatest(s: System, view: nat, x: Service, c: nat)
    requires LogOk(s.log) && AllBefore(s.log, view) && Listed(s.log, view, x) && CreatedAt(s.log, c, x)
    ensures LatestOfName(s.log, c, x.name)
  {
    forall e: nat | c < e < |s.log| && s.log[e].Created? ensures s.log[e].name != x.name {
      if s.log[e].name == x.name {
        assert RemovedIn(s.log, e, s.log[c].uid);
        GoneLater(s.log, e, view, x.uid);
        GoneLater(s.log, view, view, x.uid);
      }
    }
  }

  lemma ExpectDeletionInv(s: System, s': System, victim: Service)
    requires Inv(s) && ExpectDeletion(s, s', victim)
    ensures Inv(s')
  {
    hide GoneIn, RemovedIn, LogOk, PendingFor, LatestOfName, Expected;
    WaitsAfter(s.exp, s.key, Deletions, victim.name, 0);
    assert forall x :: Settling(s, x) ==> Settling(s', x);
    assert Found(s, s.pc.desired, s.pc.view, victim);
    var c: nat :| c < s.handled && CreatedAt(s.log, c, victim);
    ListedIsLatest(s, s.pc.view, victim, c);
    assert Settling(s', victim);
  }

  lemma DeleteInv(s: System, s': System, atOnce: bool)
    requires Inv(s) && Delete(s, s', atOnce)
    ensures Inv(s')
  {
    hide GoneIn, RemovedIn, CreatedIn, LogOk, PendingFor, LatestOfName;
    var v := s.pc.victim;
    var h := if atOnce then Removed(v.uid, v.name) else Stamped(v.uid, v.name);
    var s1 := if GoneIn(s.log, |s.log|, v.uid) then s else s.(log := s.log + [h]);
    if !GoneIn(s.log, |s.log|, v.uid) {
      CreatedLater(s.log, s.handled, |s.log|, v);
      GoingInv(s, h);
    } else {
      assert s.log + [] == s.log;
    }
    assert Inv(s1) && s' == s1.(deleted := s.deleted + {v}, pc := Acting(s.pc.desired, s.pc.view, s.pc.rest));
    assert forall x :: Settling(s1, x) ==> Settling(s', x);
  }

  lemma CreatedLater(log: Log, m: nat, n: nat, x: Service)
    requires m <= n && CreatedIn(log, m, x)
    ensures CreatedIn(log, n, x)
  {
    var c: nat :| c < m && CreatedAt(log, c, x);
  }

  /** Two Services of one name: the one that was listed is not the one still settling. */
  lemma SettlingIsGone(s: System, view: nat, victim: Service, x: Service)
    requires LogOk(s.log) && AllBefore(s.log, view) && Listed(s.log, view, victim) && s.handled <= |s.log|
    requires Settling(s, x) && x.name == victim.name && x != victim
    ensures GoneIn(s.log, s.handled, x.uid)
  {
    hide RemovedIn, PendingFor;
    var v: nat :| v < view && CreatedAt(s.log, v, victim);
    ListedIsLatest(s, view, victim, v);
    var c: nat :| c < s.handled && CreatedAt(s.log, c, x)
                  && (GoneIn(s.log, s.handled, x.uid) || (Pending(Deletions, x.name) in Waits(s) && LatestOfName(s.log, c, x.name)));
    NotAfterLatest(s.log, v, c, x.name);
    assert s.log[v].Created? && s.log[v].name == x.name;
  }

  lemma NotAfterLatest(log: Log, latest: nat, c: nat, name: string)
    requires LatestOfName(log, latest, name) && c < |log| && log[c].Created? && log[c].name == name
    ensures c <= latest
  {
  }

  lemma DeleteFailsInv(s: System, s': System)
    requires Inv(s) && DeleteFails(s, s')
    ensures Inv(s')
  {
    hide GoneIn, RemovedIn, CreatedIn, LogOk, PendingFor, LatestOfName, Observed, Listed;
    var v := s.pc.victim;
    WaitsAfter(s.exp, s.key, Deletions, v.name, 0);
    forall x | x in s.deleted ensures Settling(s', x) {
      assert Settling(s, x) && x != v;
      if x.name == v.name {
        SettlingIsGone(s, s.pc.view, v, x);
      }
      SettlingUnder(s, s', x);
    }
  }

  lemma SettlingUnder(s: System, s': System, x: Service)
    requires Settling(s, x) && s'.log == s.log && s'.handled == s.handled
    requires GoneIn(s.log, s.handled, x.uid) || (Pending(Deletions, x.name) in Waits(s) ==> Pending(Deletions, x.name) in Waits(s'))
    ensures Settling(s', x)
  {
    hide GoneIn, PendingFor, LatestOfName;
    var c: nat :| c < s.handled && CreatedAt(s.log, c, x)
                  && (GoneIn(s.log, s.handled, x.uid) || (Pending(Deletions, x.name) in Waits(s) && LatestOfName(s.log, c, x.name)));
    assert CreatedAt(s'.log, c, x);
  }

  lemma ExpectCreationInv(s: System, s': System)
    requires Inv(s) && ExpectCreation(s, s')
    ensures Inv(s')
  {
    hide GoneIn, RemovedIn, LogOk, PendingFor, LatestOfName, Expected, Listed;
    WaitsAfter(s.exp, s.key, Creations, s.pc.desired, 0);
    forall x | Settling(s, x) ensures Settling(s', x) {
      SettlingUnder(s, s', x);
    }
    NothingListed(s.log, s.pc.view, s.pc.desired);
  }

  lemma NothingListed(log: Log, view: nat, name: string)
    requires view <= |log| && AllBefore(log, view) && forall x :: Listed(log, view, x) ==> x.name != name
    ensures NoneLive(log, name)
  {
    hide GoneIn;
    forall x: Service | x.name == name && CreatedIn(log, |log|, x) ensures GoneIn(log, |log|, x.uid) {
      var c: nat :| c < |log| && CreatedAt(log, c, x);
      assert c < view;
      assert !Listed(log, view, x);
      GoneLater(log, view, |log|, x.uid);
    }
  }

  lemma CreateInv(s: System, s': System, uid: nat)
    requires Inv(s) && Create(s, s', uid)
    ensures Inv(s')
  {
    hide GoneIn, RemovedIn, CreatedIn, LogOk, PendingFor, LatestOfName, Settling, Free;
    var h := Created(uid, s.pc.desired);
    LogGrows(s.log, h);
    forall x | x in s.deleted ensures Settling(s', x) {
      SettlingKept(s, h, x, s.exp);
      assert Settling(s.(log := s.log + [h], exp := s.exp), x);
      IdleSettling(s.(log := s.log + [h]), x);
    }
  }

  lemma IdleSettling(s: System, x: Service)
    ensures Settling(s, x) <==> Settling(s.(pc := Idle), x)
  {
  }

  lemma CreateFailsInv(s: System, s': System)
    requires Inv(s) && CreateFails(s, s')
    ensures Inv(s')
  {
    hide GoneIn, RemovedIn, CreatedIn, LogOk, PendingFor, LatestOfName, Observed;
    WaitsAfter(s.exp, s.key, Creations, s.pc.desired, 0);
    forall x | Settling(s, x) ensures Settling(s', x) {
      SettlingUnder(s, s', x);
    }
  }

  lemma FinishInv(s: System, s': System)
    requires Inv(s) && Finish(s, s')
    ensures Inv(s')
  {
    hide GoneIn, RemovedIn, CreatedIn, LogOk, PendingFor, LatestOfName, Settling;
    forall x | Settling(s, x) ensures Settling(s', x) {
      IdleSettling(s, x);
    }
  }

  lemma CacheInv(s: System, s': System)
    requires Inv(s) && CacheCatchesUp(s, s')
    ensures Inv(s')
  {
    hide GoneIn, RemovedIn, CreatedIn, LogOk, PendingFor, LatestOfName;
    assert forall x :: Settling(s, x) ==> Settling(s', x);
  }

  /** An event about a Service whose name the settling one bears concerns that very Service. */
  lemma EventSettles(s: System, x: Service, c: nat)
    requires LogOk(s.log) && c < s.handled < |s.log| && CreatedAt(s.log, c, x) && LatestOfName(s.log, c, x.name)
    requires !s.log[s.handled].Created? && s.log[s.handled].name == x.name
    ensures GoneIn(s.log, s.handled + 1, x.uid)
  {
    var e, h := s.handled, s.log[s.handled];
    assert CreatedIn(s.log, e, Service(h.uid, h.name));
    var c': nat :| c' < e && CreatedAt(s.log, c', Service(h.uid, h.name));
    NotAfterLatest(s.log, c, c', x.name);
    SilentAfterSuccessor(s.log, c', c, e);
    assert Goes(s.log[e], x.uid);
  }

  /** Once the name is taken again, nothing happens to the earlier Service any more. */
  lemma SilentAfterSuccessor(log: Log, c: nat, d: nat, e: nat)
    requires LogOk(log) && c <= d < e < |log| && log[c].Created? && log[d].Created? && log[c].name == log[d].name
    ensures c < d ==> log[e].uid != log[c].uid
  {
    if c < d {
      assert RemovedIn(log, d, log[c].uid);
      var r :| 0 <= r < d && r < |log| && log[r].Removed? && log[r].uid == log[c].uid;
      assert log[e].uid != log[r].uid;
    }
  }

  lemma HandleSettles(s: System, s': System, now: int, x: Service)
    requires Inv(s) && Handle(s, s', now) && Settling(s, x)
    ensures Settling(s', x)
  {
    hide RemovedIn, PendingFor, LatestOfName, Observed, Checked, LogOk;
    var h := s.log[s.handled];
    WaitsAfter(s.exp, s.key, Creations, h.name, now);
    WaitsAfter(Checked(s.exp, s.key, now), s.key, Creations, h.name, now);
    WaitsAfter(s.exp, s.key, Deletions, h.name, now);
    var c: nat :| c < s.handled && CreatedAt(s.log, c, x)
                  && (GoneIn(s.log, s.handled, x.uid) || (Pending(Deletions, x.name) in Waits(s) && LatestOfName(s.log, c, x.name)));
    GoneLater(s.log, s.handled, s.handled + 1, x.uid);
    if !GoneIn(s.log, s.handled, x.uid) && !h.Created? && h.name == x.name {
      EventSettles(s, x, c);
    }
    assert CreatedAt(s'.log, c, x);
  }

  lemma HandleInv(s: System, s': System, now: int)
    requires Inv(s) && Handle(s, s', now)
    ensures Inv(s')
  {
    hide RemovedIn, GoneIn, CreatedIn, PendingFor, LatestOfName, Observed, Checked, LogOk, Settling, Handled, Listed;
    var h := s.log[s.handled];
    HandleWaits(s, s', now);
    forall x | Settling(s, x) ensures Settling(s', x) {
      HandleSettles(s, s', now, x);
    }
    forall x: Service ensures (CreatedIn(s.log, s.handled, x) ==> CreatedIn(s.log, s.handled + 1, x))
                              && (GoneIn(s.log, s.handled, x.uid) ==> GoneIn(s.log, s.handled + 1, x.uid)) {
      GoneLater(s.log, s.handled, s.handled + 1, x.uid);
      if CreatedIn(s.log, s.handled, x) {
        CreatedLater(s.log, s.handled, s.handled + 1, x);
      }
    }
  }

  lemma HandleWaits(s: System, s': System, now: int)
    requires Handle(s, s', now)
    ensures var h := s.log[s.handled];
            Waits(s') == Waits(s) - {Pending(if h.Created? then Creations else Deletions, h.name)}
  {
    hide PendingFor, Observed, Checked;
    var h := s.log[s.handled];
    WaitsAfter(s.exp, s.key, Creations, h.name, now);
    WaitsAfter(Checked(s.exp, s.key, now), s.key, Creations, h.name, now);
    WaitsAfter(s.exp, s.key, Deletions, h.name, now);
  }

  lemma InitInv(s: System)
    requires Init(s)
    ensures Inv(s)
  {
  }

  lemma NextInv(s: System, s': System)
    requires Inv(s) && Next(s, s')
    ensures Inv(s')
  {
    hide Inv, Gate, List, ExpectDeletion, Delete, DeleteFails, ExpectCreation, Create, CreateFails, Finish, CacheCatchesUp, Handle, Interfere, PutOff;
    if desired, now, later :| Gate(s, s', desired, now, later) {
      GateInv(s, s', desired, now, later);
    } else if now :| PutOff(s, s', now) {
      PutOffInv(s, s', now);
    } else if rest :| List(s, s', rest) {
      ListInv(s, s', rest);
    } else if victim :| ExpectDeletion(s, s', victim) {
      ExpectDeletionInv(s, s', victim);
    } else if atOnce :| Delete(s, s', atOnce) {
      DeleteInv(s, s', atOnce);
    } else if DeleteFails(s, s') {
      DeleteFailsInv(s, s');
    } else if ExpectCreation(s, s') {
      ExpectCreationInv(s, s');
    } else if uid :| Create(s, s', uid) {
      CreateInv(s, s', uid);
    } else if CreateFails(s, s') {
      CreateFailsInv(s, s');
    } else if Finish(s, s') {
      FinishInv(s, s');
    } else if x, stamp :| Interfere(s, s', x, stamp) {
      InterfereInv(s, s', x, stamp);
    } else if CacheCatchesUp(s, s') {
      CacheInv(s, s');
    } else {
      var now :| Handle(s, s', now);
      HandleInv(s, s', now);
    }
  }

  lemma PutOffInv(s: System, s': System, now: int)
    requires Inv(s) && PutOff(s, s', now)
    ensures Inv(s')
  {
    hide Inv, PendingFor, Checked;
    WaitsAfter(s.exp, s.key, Creations, "", now);
    ExpectInv(s, Checked(s.exp, s.key, now));
  }

  lemma InterfereInv(s: System, s': System, x: Service, stamp: bool)
    requires Inv(s) && Interfere(s, s', x, stamp)
    ensures Inv(s')
  {
    hide Inv, GoneIn, RemovedIn;
    GoneLater(s.log, |s.log|, |s.log|, x.uid);
    GoingInv(s, if stamp then Stamped(x.uid, x.name) else Removed(x.uid, x.name));
  }

  // ----- What the gate guarantees

  ghost predicate Run(states: seq<System>) {
    && states != [] && Init(states[0])
    && forall i: nat :: i + 1 < |states| ==> Steps(states, i)
  }

  ghost predicate Steps(states: seq<System>, i: nat)
    requires i + 1 < |states|
  {
    Next(states[i], states[i + 1])
  }

  lemma {:induction false} RunInv(states: seq<System>, i: nat)
    requires Run(states) && i < |states|
    ensures Inv(states[i])
  {
    hide Init, Next, Inv;
    if i == 0 {
      InitInv(states[0]);
    } else {
      RunInv(states, i - 1);
      assert Steps(states, i - 1);
      NextInv(states[i - 1], states[i]);
    }
  }

  /** Among the first `n` happenings is a stamp or the removal of this very Service. */
  ghost predicate GoingAt(log: Log, n: nat, uid: nat) {
    exists e :: 0 <= e < n && e < |log| && log[e].uid == uid && (log[e].Stamped? || log[e].Removed?)
  }

  lemma GoneIsGoing(log: Log, n: nat, uid: nat)
    ensures GoneIn(log, n, uid) <==> GoingAt(log, n, uid)
  {
    if GoneIn(log, n, uid) {
      var e :| 0 <= e < n && e < |log| && Goes(log[e], uid);
      assert log[e].uid == uid;
    }
    if GoingAt(log, n, uid) {
      var e :| 0 <= e < n && e < |log| && log[e].uid == uid && (log[e].Stamped? || log[e].Removed?);
      assert Goes(log[e], uid);
    }
  }

  /** In every run: a reconcile that passes the gate finds all Services that were ever created in the
  cache, and every Service it has deleted before is gone from it. */
  lemma GateShowsEverything(states: seq<System>, i: nat, desired: string, now: int, later: int)
    requires Run(states) && i + 1 < |states| && Gate(states[i], states[i + 1], desired, now, later)
    ensures var s := states[i];
            && (forall c: nat, x :: CreatedAt(s.log, c, x) ==> CreatedIn(s.log, s.cached, x))
            && (forall x :: x in s.deleted ==> CreatedIn(s.log, s.cached, x) && GoingAt(s.log, s.cached, x.uid))
  {
    hide Run, Gate, LogOk, PendingFor, GoneIn, GoingAt;
    var s := states[i];
    RunInv(states, i);
    GateInv(s, states[i + 1], desired, now, later);
    forall c: nat, x | CreatedAt(s.log, c, x) ensures CreatedIn(s.log, s.cached, x) {
      assert c < s.handled;
    }
    forall x | x in s.deleted ensures CreatedIn(s.log, s.cached, x) && GoingAt(s.log, s.cached, x.uid) {
      assert Settling(s, x);
      GoneLater(s.log, s.handled, s.cached, x.uid);
      GoneIsGoing(s.log, s.cached, x.uid);
    }
  }

  /** In every run: whenever a Service is about to be created, no Service of that name exists that is
  not going already. */
  lemma NeverCreatedTwice(states: seq<System>, i: nat)
    requires Run(states) && i < |states| && states[i].pc.Creating?
    ensures var log := states[i].log;
            forall c: nat, x :: CreatedAt(log, c, x) && x.name == states[i].pc.desired ==> GoingAt(log, |log|, x.uid)
  {
    hide GoneIn, GoingAt, LogOk, CreationsInv, DeletionsInv;
    RunInv(states, i);
    var log := states[i].log;
    forall c: nat, x | CreatedAt(log, c, x) && x.name == states[i].pc.desired ensures GoingAt(log, |log|, x.uid) {
      assert CreatedIn(log, |log|, x);
      GoneIsGoing(log, |log|, x.uid);
    }
  }

  /** In every run: what a reconcile deletes bears another name than the one wanted, and it is never
  something this controller has deleted before. */
  lemma NeverDeletesTheWanted(states: seq<System>, i: nat)
    requires Run(states) && i < |states| && states[i].pc.Deleting?
    ensures states[i].pc.victim.name != states[i].pc.desired && states[i].pc.victim !in states[i].deleted
  {
    RunInv(states, i);
  }

  // ----- The others go first

  /** Every Service of another name that was listed is still to be deleted, or its deletion has been asked for. */
  ghost predicate Remaining(s: System) {
    match s.pc
    case Acting(desired, view, rest) => view <= |s.log| && forall x :: Listed(s.log, view, x) && x.name != desired ==> x in rest || x in s.deleted
    case Deleting(desired, view, rest, victim) =>
      view <= |s.log| && forall x :: Listed(s.log, view, x) && x.name != desired ==> x in rest || x in s.deleted || x == victim
    case _ => true
  }

  lemma RemainingGrows(s: System, log': Log)
    requires Remaining(s) && s.log <= log' && |log'| <= |s.log| + 1
    ensures Remaining(s.(log := log'))
  {
    hide CreatedIn, GoneIn;
    if |log'| == |s.log| {
      assert log' == s.log;
    } else if s.pc.Acting? || s.pc.Deleting? {
      assert log' == s.log + [log'[|s.log|]];
      forall x: Service ensures Listed(log', s.pc.view, x) <==> Listed(s.log, s.pc.view, x) {
        PrefixSame(s.log, log'[|s.log|], s.pc.view, x);
      }
    }
  }

  lemma DeleteRemaining(s: System, s': System, atOnce: bool)
    requires Remaining(s) && Delete(s, s', atOnce)
    ensures Remaining(s')
  {
    hide GoneIn, RemovedIn, Listed;
    RemainingGrows(s, s'.log);
  }

  /** Steps that leave the reconcile where it is. */
  lemma OtherRemaining(s: System, s': System)
    requires Remaining(s) && s'.pc == s.pc && s'.deleted == s.deleted && s.log <= s'.log && |s'.log| <= |s.log| + 1
    ensures Remaining(s')
  {
    hide Listed;
    RemainingGrows(s, s'.log);
  }

  lemma NextRemaining(s: System, s': System)
    requires Inv(s) && Remaining(s) && Next(s, s')
    ensures Remaining(s')
  {
    hide Inv, Gate, Delete, GoneIn, RemovedIn, CreatedIn, Expected, Observed, Checked, Handled, Free, Listed;
    if rest :| List(s, s', rest) {
      CachedWithin(s);
    } else if atOnce :| Delete(s, s', atOnce) {
      DeleteRemaining(s, s', atOnce);
    } else if desired, now, later :| Gate(s, s', desired, now, later) {
      PassedRemaining(s, s', desired, now, later);
    } else if s'.pc == s.pc {
      OtherRemaining(s, s');
    }
  }

  lemma CachedWithin(s: System)
    requires Inv(s)
    ensures s.cached <= |s.log|
  {
  }

  lemma PassedRemaining(s: System, s': System, desired: string, now: int, later: int)
    requires Gate(s, s', desired, now, later)
    ensures Remaining(s')
  {
  }

  lemma {:induction false} RunRemaining(states: seq<System>, i: nat)
    requires Run(states) && i < |states|
    ensures Remaining(states[i])
  {
    hide Next, Inv;
    if i > 0 {
      RunRemaining(states, i - 1);
      RunInv(states, i - 1);
      assert Steps(states, i - 1);
      NextRemaining(states[i - 1], states[i]);
    }
  }

  /** In every run: when a creation is begun, the deletion of every listed Service of another name has been
  asked for. */
  lemma OthersFirst(states: seq<System>, i: nat, x: Service)
    requires Run(states) && i + 1 < |states| && ExpectCreation(states[i], states[i + 1])
    requires Listed(states[i].log, states[i].pc.view, x)
    ensures x in states[i].deleted
  {
    hide Run, Listed;
    RunRemaining(states, i);
  }
}
