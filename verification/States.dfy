/** The state in which a turn records every port, told from what the guard held when the turn began and from
how its calls come out, without the order the turn works in.
*/
module States {
  import opened Encoding
  import opened Options
  import opened PortDiff
  import opened Guard
  import opened NodeSync
  import opened Tracking
  import S = Sorting

  /** The guard holds the port that the entry names. */
  predicate InGuard(held: set<Listen>, e: ForwardedPort) {
    e.sourcePort.FromInt? && 0 < e.sourcePort.value < 0x1_0000 && Listen(e.protocol, e.sourcePort.value) in held
  }

  /** The guard takes a port on that it does not hold: its protocol is TCP or UDP, nobody listens on it, and
  the underlying call succeeds. */
  predicate Accepts(e: ForwardedPort, check: Check, works: bool) {
    (e.protocol == TCP || e.protocol == UDP) && check == Free && works
  }

  /** An unchanged entry: without a port number its state is unknown, held it keeps its state, and otherwise
  it is ready if the guard takes it on again and failed if not. */
  function KeptState(held: set<Listen>, e: ForwardedPort, check: Check, works: bool, atoi: string -> int): State {
    if (match e.sourcePort case FromInt(n) => n % 0x1_0000 == 0 case FromString(text) => atoi(text) % 0x1_0000 == 0) then Unknown
    else if InGuard(held, e) then e.state
    else if Accepts(e, check, works) then Ready
    else Failed
  }

  /** A new entry: a conflict if the port is held, rejected if somebody listens on it, ready if the guard
  takes it on, and failed otherwise. */
  function AddedState(held: bool, e: ForwardedPort, check: Check, works: bool): State {
    if held then Conflict
    else if (e.protocol == TCP || e.protocol == UDP) && check == Busy then Rejected
    else if Accepts(e, check, works) then Ready
    else Failed
  }

  function KeptEntries(held: set<Listen>, es: seq<ForwardedPort>, t: Turn): (r: seq<ForwardedPort>)
    ensures |r| == |es|
  {
    seq(|es|, i requires 0 <= i < |es| => es[i].(state := KeptState(held, es[i], t.again.check(i), t.again.works(i), t.atoi)))
  }

  /** Held ports whose removal fails. */
  function Residuals(held: set<Listen>, es: seq<ForwardedPort>, t: Turn, n: nat): seq<ForwardedPort>
    requires n <= |es|
  {
    if n == 0 then []
    else Residuals(held, es, t, n - 1) + (if InGuard(held, es[n - 1]) && !t.removes(n - 1) then [es[n - 1].(state := Residual)] else [])
  }

  /** Some deletion of this very port succeeds. */
  predicate Removed(deletions: seq<ForwardedPort>, t: Turn, e: ForwardedPort) {
    exists j: nat :: j < |deletions| && SamePort(deletions[j], e) && t.removes(j)
  }

  function AddedEntries(held: set<Listen>, deletions: seq<ForwardedPort>, es: seq<ForwardedPort>, t: Turn): (r: seq<ForwardedPort>)
    ensures |r| == |es|
  {
    seq(|es|, i requires 0 <= i < |es| =>
      es[i].(state := AddedState(InGuard(held, es[i]) && !Removed(deletions, t, es[i]), es[i], t.adds.check(i), t.adds.works(i))))
  }

  // ----- One entry

  lemma GuardSays(held: set<Listen>, e: ForwardedPort, atoi: string -> int)
    requires Proper(e) && OnlyChecked(held)
    ensures InGuard(held, e) <==> ListenOf(e, atoi) in held
    ensures e.protocol == TCP || e.protocol == UDP ==> Port16(Number(e.sourcePort, atoi)) > 0
  {
  }

  lemma KeepOneStates(s: Progress, e: ForwardedPort, atoi: string -> int, check: Check, works: bool)
    requires Proper(e) && OnlyChecked(s.held)
    ensures KeepOne(s, e, atoi, check, works).out == s.out + [e.(state := KeptState(s.held, e, check, works, atoi))]
  {
    GuardSays(s.held, e, atoi);
  }

  lemma AddOneStates(s: Progress, e: ForwardedPort, atoi: string -> int, check: Check, works: bool)
    requires Proper(e) && OnlyChecked(s.held) && e.state == Ready
    ensures AddOne(s, e, atoi, check, works).out == s.out + [e.(state := AddedState(InGuard(s.held, e), e, check, works))]
  {
    GuardSays(s.held, e, atoi);
  }

  lemma DropOneStates(s: Progress, e: ForwardedPort, atoi: string -> int, works: bool)
    requires Proper(e) && OnlyChecked(s.held)
    ensures DropOne(s, e, atoi, works).out == s.out + if InGuard(s.held, e) && !works then [e.(state := Residual)] else []
    ensures forall l :: l in DropOne(s, e, atoi, works).held <==>
                          l in s.held && !(works && e.protocol == l.protocol && e.sourcePort == FromInt(l.port))
  {
    GuardSays(s.held, e, atoi);
  }

  // ----- The three loops

  /** Other entries do not make the guard hold the port of this one. */
  lemma KeptBefore(s: Progress, es: seq<ForwardedPort>, t: Turn, n: nat, e: ForwardedPort)
    requires n <= |es| && AllProper(es) && OnlyChecked(s.held) && forall j :: 0 <= j < n ==> es[j].sourcePort != e.sourcePort
    ensures InGuard(KeepAll(s, es, t, n).held, e) <==> InGuard(s.held, e)
    ensures OnlyChecked(KeepAll(s, es, t, n).held)
  {
    KeepAllHolds(s, es, t, n);
  }

  lemma AddedBefore(s: Progress, es: seq<ForwardedPort>, t: Turn, n: nat, e: ForwardedPort)
    requires n <= |es| && AllProper(es) && OnlyChecked(s.held) && forall j :: 0 <= j < n ==> es[j].sourcePort != e.sourcePort
    ensures InGuard(AddAll(s, es, t, n).held, e) <==> InGuard(s.held, e)
    ensures OnlyChecked(AddAll(s, es, t, n).held)
  {
    AddAllHolds(s, es, t, n);
  }

  lemma {:induction false} KeptStates(s: Progress, es: seq<ForwardedPort>, t: Turn, n: nat)
    requires n <= |es| && AllProper(es) && DistinctSources(es) && OnlyChecked(s.held)
    ensures KeepAll(s, es, t, n).out == s.out + KeptEntries(s.held, es, t)[..n]
  {
    hide KeptState, KeepOne, InGuard, OnlyChecked, Proper;
    if n > 0 {
      KeptStates(s, es, t, n - 1);
      assert es[n - 1] in es;
      KeptBefore(s, es, t, n - 1, es[n - 1]);
      KeepOneStates(KeepAll(s, es, t, n - 1), es[n - 1], t.atoi, t.again.check(n - 1), t.again.works(n - 1));
      SameKept(s.held, KeepAll(s, es, t, n - 1).held, es[n - 1], t.again.check(n - 1), t.again.works(n - 1), t.atoi);
      var r := KeptEntries(s.held, es, t);
      assert r[..n] == r[..n - 1] + [r[n - 1]];
    }
  }

  lemma SameKept(held: set<Listen>, held': set<Listen>, e: ForwardedPort, check: Check, works: bool, atoi: string -> int)
    requires InGuard(held', e) <==> InGuard(held, e)
    ensures KeptState(held', e, check, works, atoi) == KeptState(held, e, check, works, atoi)
  {
  }

  lemma {:induction false} AddedStates(s: Progress, es: seq<ForwardedPort>, t: Turn, n: nat, held: set<Listen>, deletions: seq<ForwardedPort>)
    requires n <= |es| && AllProper(es) && DistinctSources(es) && OnlyChecked(s.held) && forall e :: e in es ==> e.state == Ready
    requires forall e :: e in es ==> (InGuard(s.held, e) <==> InGuard(held, e) && !Removed(deletions, t, e))
    ensures AddAll(s, es, t, n).out == s.out + AddedEntries(held, deletions, es, t)[..n]
  {
    hide AddedState, AddOne, InGuard, OnlyChecked, Proper, Removed;
    if n > 0 {
      AddedStates(s, es, t, n - 1, held, deletions);
      assert es[n - 1] in es;
      AddedBefore(s, es, t, n - 1, es[n - 1]);
      AddOneStates(AddAll(s, es, t, n - 1), es[n - 1], t.atoi, t.adds.check(n - 1), t.adds.works(n - 1));
      var r := AddedEntries(held, deletions, es, t);
      assert r[..n] == r[..n - 1] + [r[n - 1]];
    }
  }

  /** What is held after the deletions: all but what a successful one names. */
  lemma {:induction false} DroppedHeld(s: Progress, es: seq<ForwardedPort>, t: Turn, n: nat)
    requires n <= |es| && AllProper(es) && OnlyChecked(s.held)
    ensures OnlyChecked(DropAll(s, es, t, n).held)
    ensures forall l :: l in DropAll(s, es, t, n).held <==> l in s.held && !TakenBy(es, t, n, l)
  {
    hide DropOne, Proper;
    if n > 0 {
      DroppedHeld(s, es, t, n - 1);
      assert es[n - 1] in es;
      DropOneStates(DropAll(s, es, t, n - 1), es[n - 1], t.atoi, t.removes(n - 1));
      forall l ensures TakenBy(es, t, n, l) <==>
                         TakenBy(es, t, n - 1, l) || (t.removes(n - 1) && es[n - 1].protocol == l.protocol && es[n - 1].sourcePort == FromInt(l.port))
      {
        TakenNext(es, t, n, l);
      }
    }
  }

  predicate TakenBy(es: seq<ForwardedPort>, t: Turn, n: nat, l: Listen)
    requires n <= |es|
  {
    exists j: nat :: j < n && TakesAt(es, t, j, l)
  }

  predicate TakesAt(es: seq<ForwardedPort>, t: Turn, j: nat, l: Listen)
    requires j < |es|
  {
    t.removes(j) && es[j].protocol == l.protocol && es[j].sourcePort == FromInt(l.port)
  }

  lemma TakenNext(es: seq<ForwardedPort>, t: Turn, n: nat, l: Listen)
    requires 0 < n <= |es|
    ensures TakenBy(es, t, n, l) <==> TakenBy(es, t, n - 1, l) || TakesAt(es, t, n - 1, l)
  {
    if TakenBy(es, t, n - 1, l) {
      var j: nat :| j < n - 1 && TakesAt(es, t, j, l);
      assert TakenBy(es, t, n, l);
    }
  }

  lemma {:induction false} ResidualStates(s: Progress, es: seq<ForwardedPort>, t: Turn, n: nat, held: set<Listen>)
    requires n <= |es| && AllProper(es) && DistinctSources(es) && OnlyChecked(s.held)
    requires forall e :: e in es ==> (InGuard(s.held, e) <==> InGuard(held, e))
    ensures DropAll(s, es, t, n).out == s.out + Residuals(held, es, t, n)
  {
    hide DropOne, Proper, OnlyChecked;
    if n > 0 {
      ResidualStates(s, es, t, n - 1, held);
      var e := es[n - 1];
      assert e in es;
      DroppedHeld(s, es, t, n - 1);
      DropOneStates(DropAll(s, es, t, n - 1), e, t.atoi, t.removes(n - 1));
      StillInGuard(s, es, t, n - 1, e);
      assert s.out + Residuals(held, es, t, n - 1) + [] == s.out + Residuals(held, es, t, n - 1);
    }
  }

  lemma StillInGuard(s: Progress, es: seq<ForwardedPort>, t: Turn, n: nat, e: ForwardedPort)
    requires n <= |es| && (forall j :: 0 <= j < n ==> es[j].sourcePort != e.sourcePort)
    requires forall l :: l in DropAll(s, es, t, n).held <==> l in s.held && !TakenBy(es, t, n, l)
    ensures InGuard(DropAll(s, es, t, n).held, e) <==> InGuard(s.held, e)
  {
  }

  // ----- The whole pass

  lemma {:induction false} AdditionsReady(t: Turn, rec: map<IntOrString, ForwardedPort>, n: nat)
    requires t.service.Some? && n <= |t.spec|
    ensures forall e :: e in Additions(WantedBy(t), rec, n) ==> e.state == Ready
  {
    hide Stays, Wants;
    if n > 0 {
      AdditionsReady(t, rec, n - 1);
      WantedReady(t, n - 1);
    }
  }

  lemma WantedReady(t: Turn, i: nat)
    requires t.service.Some? && i < |t.spec|
    ensures WantedBy(t)[i].Some? ==> WantedBy(t)[i].value.state == Ready
  {
    hide TargetHosts, ServicePortFor;
  }

  lemma {:induction false} KeptOwned(w: Wanted, rec: map<IntOrString, ForwardedPort>, n: nat)
    requires n <= |w| && forall sp :: sp in rec ==> rec[sp].sourcePort == sp
    ensures forall e :: e in Kept(w, rec, n) ==> exists i :: 0 <= i < n && Stays(w, rec, i) && w[i].Some? && w[i].value.sourcePort == e.sourcePort
  {
    hide Owns;
    if n > 0 {
      KeptOwned(w, rec, n - 1);
      StaysOwns(w, rec, n - 1);
    }
  }

  lemma KeptApartFromAdded(w: Wanted, rec: map<IntOrString, ForwardedPort>)
    requires DistinctWants(w) && forall sp :: sp in rec ==> rec[sp].sourcePort == sp
    ensures forall x, y :: x in Kept(w, rec, |w|) && y in Additions(w, rec, |w|) ==> x.sourcePort != y.sourcePort
  {
    hide Owns, DistinctWants;
    KeptOwned(w, rec, |w|);
    AdditionsDistinct(w, rec, |w|);
    forall x, y | x in Kept(w, rec, |w|) && y in Additions(w, rec, |w|) ensures x.sourcePort != y.sourcePort {
      var i :| 0 <= i < |w| && Stays(w, rec, i) && w[i].Some? && w[i].value.sourcePort == x.sourcePort;
      var j :| 0 <= j < |w| && w[j] == Some(y) && !Stays(w, rec, j);
      StaysOwns(w, rec, i);
      if x.sourcePort == y.sourcePort {
        SameWant(w, i, j);
      }
    }
  }

  lemma DeletionsDistinct(w: Wanted, rec: map<IntOrString, ForwardedPort>, deletions: seq<ForwardedPort>)
    requires DiffOf(w, rec, deletions) && forall sp :: sp in rec ==> rec[sp].sourcePort == sp
    ensures DistinctSources(deletions)
  {
    hide Owns, Kept, Claimed;
    var replaced := Replaced(w, rec, |w|);
    var rest := deletions[|replaced|..];
    SplitUpTo(w, rec, |w|);
    assert ElsewhereSourced(replaced, rest) by {
      forall x, y | x in replaced && y in rest ensures x.sourcePort != y.sourcePort {
        assert y.sourcePort in rec - Claimed(w, |w|);
      }
    }
    ConcatDistinct(replaced, rest);
    assert deletions == replaced + rest;
  }

  /** Held after the deletions. */
  lemma HeldThen(s: Progress, deletions: seq<ForwardedPort>, t: Turn, e: ForwardedPort)
    requires AllProper(deletions) && OnlyChecked(s.held)
    ensures InGuard(DropAll(s, deletions, t, |deletions|).held, e) <==> InGuard(s.held, e) && !Removed(deletions, t, e)
  {
    DroppedHeld(s, deletions, t, |deletions|);
    if InGuard(s.held, e) {
      var l := Listen(e.protocol, e.sourcePort.value);
      if Removed(deletions, t, e) {
        var j: nat :| j < |deletions| && SamePort(deletions[j], e) && t.removes(j);
        assert TakesAt(deletions, t, j, l);
      }
      if TakenBy(deletions, t, |deletions|, l) {
        var j: nat :| j < |deletions| && TakesAt(deletions, t, j, l);
        assert SamePort(deletions[j], e);
      }
    }
  }

  /** What a turn with a service lists, entry by entry: the errors, the unchanged entries, the held ports whose
  removal fails and the new entries, each in its state. */
  function Listing(held: set<Listen>, seen: seq<ForwardedPort>, t: Turn, deletions: seq<ForwardedPort>): seq<ForwardedPort>
    requires t.service.Some?
  {
    var w, rec, n := WantedBy(t), BySource(seen), |t.spec|;
    Errors(t.spec, w, n) + KeptEntries(held, Kept(w, rec, n), t) + Residuals(held, deletions, t, |deletions|)
    + AddedEntries(held, deletions, Additions(w, rec, n), t)
  }

  lemma PassListing(v: NodeState, t: Turn, deletions: seq<ForwardedPort>)
    requires Worked(v.recorded, t, deletions) && OnlyChecked(v.held) && DistinctWants(WantedBy(t))
    ensures Pass(v, t, deletions).out == Listing(v.held, v.recorded, t, deletions)
  {
    hide Wants, Kept, BySource, Additions, Errors, KeepAll, DropAll, AddAll, DistinctSources, DistinctWants, InGuard, Removed, Proper, OnlyChecked, DiffOf,
      KeptEntries, AddedEntries, Residuals, Latest;
    var w, rec, n := WantedBy(t), BySource(v.recorded), |t.spec|;
    var kept, additions, p0 := Kept(w, rec, n), Additions(w, rec, n), Progress(v.held, Errors(t.spec, w, n));
    ListsProper(v.recorded, t, deletions);
    BySourceKeys(v.recorded);
    SplitUpTo(w, rec, n);
    DeletionsDistinct(w, rec, deletions);
    AdditionsDistinct(w, rec, n);
    AdditionsReady(t, rec, n);
    KeptApartFromAdded(w, rec);
    KeptStates(p0, kept, t, |kept|);
    var p1 := KeepAll(p0, kept, t, |kept|);
    forall e | e in deletions || e in additions ensures InGuard(p1.held, e) <==> InGuard(v.held, e) {
      KeptElsewhere(w, rec, deletions, kept, e);
      KeptBefore(p0, kept, t, |kept|, e);
    }
    StillChecked(p0, kept, t);
    ResidualStates(p1, deletions, t, |deletions|, v.held);
    var p2 := DropAll(p1, deletions, t, |deletions|);
    DroppedHeld(p1, deletions, t, |deletions|);
    forall e | e in additions ensures InGuard(p2.held, e) <==> InGuard(v.held, e) && !Removed(deletions, t, e) {
      HeldThen(p1, deletions, t, e);
    }
    AddedStates(p2, additions, t, |additions|, v.held, deletions);
    Whole(KeptEntries(v.held, kept, t));
    Whole(AddedEntries(v.held, deletions, additions, t));
  }

  lemma Whole(s: seq<ForwardedPort>)
    ensures s[..|s|] == s
  {
  }

  lemma StillChecked(s: Progress, es: seq<ForwardedPort>, t: Turn)
    requires AllProper(es) && OnlyChecked(s.held)
    ensures OnlyChecked(KeepAll(s, es, t, |es|).held)
  {
    KeepAllHolds(s, es, t, |es|);
  }

  lemma KeptElsewhere(w: Wanted, rec: map<IntOrString, ForwardedPort>, deletions: seq<ForwardedPort>, kept: seq<ForwardedPort>, e: ForwardedPort)
    requires DiffOf(w, rec, deletions) && (forall sp :: sp in rec ==> rec[sp].sourcePort == sp) && DistinctWants(w)
    requires kept == Kept(w, rec, |w|) && (e in deletions || e in Additions(w, rec, |w|))
    ensures forall j :: 0 <= j < |kept| ==> kept[j].sourcePort != e.sourcePort
  {
    hide DiffOf, DistinctWants, Kept, Additions;
    KeptApartFromAdded(w, rec);
    forall j | 0 <= j < |kept| ensures kept[j].sourcePort != e.sourcePort {
      assert kept[j] in kept;
      KeptNotDeleted(w, rec, deletions, kept[j]);
    }
  }

  function PortOf(e: ForwardedPort, atoi: string -> int): int {
    match e.sourcePort
    case FromInt(n) => n
    case FromString(text) => atoi(text)
  }

  lemma OrderedByPort(out: seq<ForwardedPort>, atoi: string -> int)
    ensures var r := Ordered(out, atoi); forall i, j :: 0 <= i < j < |r| ==> PortOf(r[i], atoi) <= PortOf(r[j], atoi)
  {
    S.SortSorts(out, (e: ForwardedPort) => Number(e.sourcePort, atoi));
  }

  /** A written turn with distinct wanted ports records exactly these entries, each in the state that tells
  what has become of its port, in the order of the port numbers. */
  lemma StatesExactly(s: NodeState, seen: seq<ForwardedPort>, t: Turn, deletions: seq<ForwardedPort>)
    requires t.service.Some? && t.patched && ProperWants(t) && Fits(seen, t, deletions) && AllProper(seen) && OnlyChecked(s.held)
    requires DistinctWants(WantedBy(t))
    ensures multiset(After(s, seen, t, deletions).recorded) == multiset(Listing(s.held, seen, t, deletions))
    ensures var r := After(s, seen, t, deletions).recorded; forall i, j :: 0 <= i < j < |r| ==> PortOf(r[i], t.atoi) <= PortOf(r[j], t.atoi)
  {
    hide Pass, Ordered, Listing, Wants, Proper, OnlyChecked, DistinctWants, Fits;
    PassListing(Seen(s, seen), t, deletions);
    OrderedByPort(Pass(Seen(s, seen), t, deletions).out, t.atoi);
    OrderedSame(Pass(Seen(s, seen), t, deletions).out, t.atoi);
  }

  // ----- Removing everything

  /** What is recorded after the removal: every entry with a port number, without its targets. */
  function RemovedEntries(es: seq<ForwardedPort>, atoi: string -> int): seq<ForwardedPort> {
    if es == [] then []
    else
      var e, n := es[|es| - 1], |es| - 1;
      RemovedEntries(es[..n], atoi)
      + if (match e.sourcePort case FromInt(number) => number % 0x1_0000 == 0 case FromString(text) => atoi(text) % 0x1_0000 == 0) then []
        else [ForwardedPort(e.protocol, e.sourcePort, [], 0, NoTarget)]
  }

  /** The removal of a held port fails. */
  predicate Blocked(held: set<Listen>, es: seq<ForwardedPort>, t: Turn, n: nat)
    requires n <= |es|
  {
    exists j :: 0 <= j < n && BlockedAt(held, es, t, j)
  }

  predicate BlockedAt(held: set<Listen>, es: seq<ForwardedPort>, t: Turn, j: nat)
    requires j < |es|
  {
    InGuard(held, es[j]) && !t.removes(j)
  }

  /** One entry of a removal that has not failed yet. */
  lemma RemoveStep(r: Removal, e: ForwardedPort, atoi: string -> int, works: bool)
    requires Proper(e) && OnlyChecked(r.held) && !r.failed
    ensures var r' := RemoveOne(r, e, atoi, works);
            && (r'.failed <==> InGuard(r.held, e) && !works)
            && (!r'.failed ==> r'.out == r.out + RemovedEntries([e], atoi))
            && (!r'.failed ==> forall l :: l in r'.held <==> l in r.held && !(e.protocol == l.protocol && e.sourcePort == FromInt(l.port)))
  {
    GuardSays(r.held, e, atoi);
    assert [e][..0] == [] && RemovedEntries([], atoi) == [];
  }

  lemma RemovedMore(es: seq<ForwardedPort>, e: ForwardedPort, atoi: string -> int)
    ensures RemovedEntries(es + [e], atoi) == RemovedEntries(es, atoi) + RemovedEntries([e], atoi)
  {
    assert (es + [e])[..|es|] == es && [e][..0] == [];
    assert RemovedEntries([], atoi) == [];
  }

  lemma NamedMore(es: seq<ForwardedPort>, e: ForwardedPort, l: Listen)
    ensures Named(es + [e], l) <==> Named(es, l) || (e.protocol == l.protocol && e.sourcePort == FromInt(l.port))
  {
    if Named(es, l) {
      var x :| x in es && x.protocol == l.protocol && x.sourcePort == FromInt(l.port);
      assert x in es + [e];
    }
    assert e in es + [e];
  }

  lemma {:induction false} RemovesAll(held: set<Listen>, es: seq<ForwardedPort>, t: Turn, n: nat)
    requires n <= |es| && AllProper(es) && DistinctSources(es) && OnlyChecked(held) && !Blocked(held, es, t, n)
    ensures var r := RemoveAll(held, es, t, n);
            && !r.failed && OnlyChecked(r.held) && r.out == RemovedEntries(es[..n], t.atoi)
            && forall l :: l in r.held <==> l in held && !Named(es[..n], l)
  {
    hide RemoveOne, RemovedEntries, Proper, Named;
    if n > 0 {
      var before, e, front := RemoveAll(held, es, t, n - 1), es[n - 1], es[..n - 1];
      assert forall j :: 0 <= j < n - 1 && BlockedAt(held, es, t, j) ==> Blocked(held, es, t, n);
      RemovesAll(held, es, t, n - 1);
      assert e in es && es[..n] == front + [e];
      NotNamedBefore(es, n);
      RemoveStep(before, e, t.atoi, t.removes(n - 1));
      assert InGuard(before.held, e) <==> InGuard(held, e);
      assert InGuard(held, e) && !t.removes(n - 1) ==> BlockedAt(held, es, t, n - 1);
      RemovedMore(front, e, t.atoi);
      forall l ensures Named(front + [e], l) <==> Named(front, l) || (e.protocol == l.protocol && e.sourcePort == FromInt(l.port)) {
        NamedMore(front, e, l);
      }
    } else {
      assert es[..0] == [] && forall l :: !Named([], l) by {
        NothingNamed(t.atoi);
      }
      NothingNamed(t.atoi);
    }
  }

  lemma NothingNamed(atoi: string -> int)
    ensures RemovedEntries([], atoi) == [] && forall l :: !Named([], l)
  {
  }

  lemma NotNamedBefore(es: seq<ForwardedPort>, n: nat)
    requires 0 < n <= |es| && DistinctSources(es)
    ensures forall l: Listen :: es[n - 1].sourcePort == FromInt(l.port) ==> !Named(es[..n - 1], l)
  {
  }

  lemma {:induction false} RemovalFails(held: set<Listen>, es: seq<ForwardedPort>, t: Turn, n: nat)
    requires n <= |es| && AllProper(es) && DistinctSources(es) && OnlyChecked(held) && Blocked(held, es, t, n)
    ensures RemoveAll(held, es, t, n).failed
  {
    hide RemovedEntries, Proper, Named, DistinctSources;
    if Blocked(held, es, t, n - 1) {
      RemovalFails(held, es, t, n - 1);
    } else {
      RemovesAll(held, es, t, n - 1);
      NotNamedBefore(es, n);
      assert es[n - 1] in es;
      RemoveStep(RemoveAll(held, es, t, n - 1), es[n - 1], t.atoi, t.removes(n - 1));
    }
  }

  /** A turn without a service fails exactly when the removal of a held port fails.  Otherwise, if there are any
  entries, the guard gives up all the ports they name, and the entries are recorded without targets. */
  lemma RemovalExactly(s: NodeState, seen: seq<ForwardedPort>, t: Turn)
    requires t.service.None? && t.patched && seen != [] && AllProper(seen) && DistinctSources(seen) && OnlyChecked(s.held)
    ensures var s', failed := After(s, seen, t, []), Blocked(s.held, seen, t, |seen|);
            && (Finished(Seen(s, seen), t) <==> !failed)
            && (s'.recorded == if failed then s.recorded else RemovedEntries(seen, t.atoi))
            && (!failed ==> forall l :: l in s'.held <==> l in s.held && !Named(seen, l))
  {
    hide RemoveAll, RemovedEntries, Proper, OnlyChecked, DistinctSources, Blocked;
    assert seen[..|seen|] == seen;
    if Blocked(s.held, seen, t, |seen|) {
      RemovalFails(s.held, seen, t, |seen|);
    } else {
      RemovesAll(s.held, seen, t, |seen|);
    }
  }
}
