/** Whether a node's record names every port its guard holds, turn by turn and over whole runs.

A turn may work on any earlier version of the node's record, removals and additions may fail, and the
status may not get written.
*/
module Tracking {
  import opened Options
  import opened PortDiff
  import opened Guard
  import opened NodeSync
  import S = Sorting

  predicate Proper(e: ForwardedPort) {
    Checked(e.protocol) ==> e.sourcePort.FromInt? && 0 < e.sourcePort.value < 0x1_0000
  }

  predicate AllProper(entries: seq<ForwardedPort>) {
    forall e :: e in entries ==> Proper(e)
  }

  /** Some entry names the port by protocol and number. */
  predicate Named(entries: seq<ForwardedPort>, l: Listen) {
    exists e :: e in entries && e.protocol == l.protocol && e.sourcePort == FromInt(l.port)
  }

  /** A turn reads a record by source port: of several entries for one the last counts. */
  predicate Latest(seen: seq<ForwardedPort>, e: ForwardedPort) {
    e.sourcePort in BySource(seen) && BySource(seen)[e.sourcePort] == e
  }

  /** The entry that a turn reads for the port's number has its protocol. */
  predicate Known(seen: seq<ForwardedPort>, l: Listen) {
    FromInt(l.port) in BySource(seen) && BySource(seen)[FromInt(l.port)].protocol == l.protocol
  }

  predicate Covered(held: set<Listen>, recorded: seq<ForwardedPort>) {
    forall l :: l in held ==> Named(recorded, l)
  }

  ghost predicate Consistent(s: NodeState) {
    && OnlyChecked(s.held) && DistinctSources(s.recorded) && AllProper(s.recorded) && Covered(s.held, s.recorded)
  }

  ghost predicate ProperWants(t: Turn) {
    t.service.Some? ==> forall x :: x in WantedBy(t) && x.Some? ==> Proper(x.value)
  }

  /** Entries of a phase that the guard would accept are named by a record. */
  predicate AcceptedNamed(entries: seq<ForwardedPort>, answers: Answers, recorded: seq<ForwardedPort>) {
    forall i: nat :: i < |entries| && Checked(entries[i].protocol) && answers.check(i) == Free && answers.works(i) ==>
                       Named(recorded, Listen(entries[i].protocol, Port16(entries[i].sourcePort.IntVal())))
  }

  predicate WantsPort(w: Wanted, l: Listen) {
    exists i :: 0 <= i < |w| && w[i].Some? && w[i].value.protocol == l.protocol && w[i].value.sourcePort == FromInt(l.port)
  }

  /** When a turn leaves every held port recorded.  If it writes the status, each port held before must
  be known from what the turn has read or be wanted still; if it does not, whatever the guard takes on
  must be recorded already. */
  ghost predicate KeepsTrack(s: NodeState, seen: seq<ForwardedPort>, t: Turn) {
    if t.service.None? then Writes(Seen(s, seen), t) ==> Covered(s.held, seen)
    else if t.patched then forall l :: l in s.held ==> Known(seen, l) || WantsPort(WantedBy(t), l)
    else && AcceptedNamed(Kept(WantedBy(t), BySource(seen), |t.spec|), t.again, s.recorded)
         && AcceptedNamed(Additions(WantedBy(t), BySource(seen), |t.spec|), t.adds, s.recorded)
  }

  // ----- What the three loops hold and list

  lemma ProperListen(e: ForwardedPort, atoi: string -> int)
    requires Proper(e) && Checked(e.protocol)
    ensures ListenOf(e, atoi).port > 0 && ListenOf(e, atoi) == Listen(e.protocol, Port16(e.sourcePort.IntVal()))
    ensures e.sourcePort == FromInt(ListenOf(e, atoi).port)
  {
  }

  lemma {:induction false} KeepAllHolds(s: Progress, es: seq<ForwardedPort>, t: Turn, n: nat)
    requires n <= |es| && AllProper(es)
    ensures var r := KeepAll(s, es, t, n);
            && s.held <= r.held && (OnlyChecked(s.held) ==> OnlyChecked(r.held))
            && (forall l :: l in r.held && l !in s.held ==> exists j: nat :: j < n && AcceptedAt(es, t.again, j, l))
            && forall j: nat, l :: j < n && AcceptedAt(es, t.again, j, l) ==> l in r.held
  {
    if n > 0 {
      KeepAllHolds(s, es, t, n - 1);
      assert es[n - 1] in es;
      var before, r := KeepAll(s, es, t, n - 1), KeepAll(s, es, t, n);
      forall l | l in r.held && l !in before.held ensures AcceptedAt(es, t.again, n - 1, l) {
        assert l == ListenOf(es[n - 1], t.atoi);
      }
    }
  }

  lemma {:induction false} AddAllHolds(s: Progress, es: seq<ForwardedPort>, t: Turn, n: nat)
    requires n <= |es| && AllProper(es)
    ensures var r := AddAll(s, es, t, n);
            && s.held <= r.held && (OnlyChecked(s.held) ==> OnlyChecked(r.held))
            && (forall l :: l in r.held && l !in s.held ==> exists j: nat :: j < n && AcceptedAt(es, t.adds, j, l))
            && forall j: nat, l :: j < n && AcceptedAt(es, t.adds, j, l) ==> l in r.held
  {
    if n > 0 {
      AddAllHolds(s, es, t, n - 1);
      assert es[n - 1] in es;
      var before, r := AddAll(s, es, t, n - 1), AddAll(s, es, t, n);
      forall l | l in r.held && l !in before.held ensures AcceptedAt(es, t.adds, n - 1, l) {
        assert l == ListenOf(es[n - 1], t.atoi);
      }
    }
  }

  /** Entry `j` names the port `l`, and nothing but holding it already keeps the guard from taking it on. */
  predicate AcceptedAt(es: seq<ForwardedPort>, answers: Answers, j: nat, l: Listen) {
    && j < |es| && Checked(l.protocol) && answers.check(j) == Free && answers.works(j)
    && es[j].protocol == l.protocol && es[j].sourcePort == FromInt(l.port)
  }

  lemma AcceptedExactly(entries: seq<ForwardedPort>, answers: Answers, recorded: seq<ForwardedPort>)
    requires AllProper(entries)
    ensures AcceptedNamed(entries, answers, recorded) <==> forall j: nat, l :: AcceptedAt(entries, answers, j, l) ==> Named(recorded, l)
  {
    hide Named;
    if AcceptedNamed(entries, answers, recorded) {
      forall j: nat, l | AcceptedAt(entries, answers, j, l) ensures Named(recorded, l) {
        assert entries[j] in entries;
        assert l == Listen(entries[j].protocol, Port16(entries[j].sourcePort.IntVal()));
      }
    }
    if forall j: nat, l :: AcceptedAt(entries, answers, j, l) ==> Named(recorded, l) {
      forall i: nat | i < |entries| && Checked(entries[i].protocol) && answers.check(i) == Free && answers.works(i)
        ensures Named(recorded, Listen(entries[i].protocol, Port16(entries[i].sourcePort.IntVal())))
      {
        assert entries[i] in entries;
        assert AcceptedAt(entries, answers, i, Listen(entries[i].protocol, Port16(entries[i].sourcePort.IntVal())));
      }
    }
  }

  /** Removals take nothing but what an entry names, and what an entry names is gone or listed. */
  lemma {:induction false} DropAllHolds(s: Progress, es: seq<ForwardedPort>, t: Turn, n: nat)
    requires n <= |es| && AllProper(es)
    ensures var r := DropAll(s, es, t, n);
            && r.held <= s.held && s.out <= r.out
            && (forall l :: l in s.held && Checked(l.protocol) && !Named(es, l) ==> l in r.held)
            && forall l :: l in r.held && Checked(l.protocol) && Named(es[..n], l) ==> Named(r.out, l)
  {
    if n > 0 {
      DropAllHolds(s, es, t, n - 1);
      var before, r, e := DropAll(s, es, t, n - 1), DropAll(s, es, t, n), es[n - 1];
      assert e in es && es[..n] == es[..n - 1] + [e];
      forall l | l in r.held && Checked(l.protocol) && Named(es[..n], l) ensures Named(r.out, l) {
        if Named(es[..n - 1], l) {
          var x :| x in before.out && x.protocol == l.protocol && x.sourcePort == FromInt(l.port);
          assert x in r.out;
        } else {
          assert e.protocol == l.protocol && e.sourcePort == FromInt(l.port);
          assert r.out == before.out + [e.(state := Residual)];
          assert e.(state := Residual) in r.out;
        }
      }
      forall l | l in s.held && Checked(l.protocol) && !Named(es, l) ensures l in r.held {
        assert e.protocol == l.protocol ==> e.sourcePort != FromInt(l.port);
      }
    }
  }

  lemma {:induction false} DropAllLists(s: Progress, es: seq<ForwardedPort>, t: Turn, n: nat)
    requires n <= |es|
    ensures forall x :: x in DropAll(s, es, t, n).out ==> x in s.out || exists e :: e in es && SamePort(x, e)
  {
    if n > 0 {
      DropAllLists(s, es, t, n - 1);
      assert es[n - 1] in es;
    }
  }

  // ----- One turn with a service

  /** A turn that works through a difference whose entries are all proper. */
  ghost predicate Worked(seen: seq<ForwardedPort>, t: Turn, deletions: seq<ForwardedPort>) {
    && t.service.Some? && ProperWants(t) && Fits(seen, t, deletions) && AllProper(seen)
  }

  lemma ListsProper(seen: seq<ForwardedPort>, t: Turn, deletions: seq<ForwardedPort>)
    requires Worked(seen, t, deletions)
    ensures var w, rec, n := WantedBy(t), BySource(seen), |t.spec|;
            && AllProper(Kept(w, rec, n)) && AllProper(Additions(w, rec, n)) && AllProper(deletions)
            && (forall e :: e in deletions || e in Kept(w, rec, n) <==> Latest(seen, e))
  {
    hide Wants, Kept, BySource, Additions, Lists, Claimed, DistinctSources, Proper;
    var w, rec, n := WantedBy(t), BySource(seen), |t.spec|;
    DifferenceLists(w, seen, deletions);
    AdditionsWanted(w, rec, n);
    forall e | e in Additions(w, rec, n) ensures Proper(e) {
      var i :| 0 <= i < |w| && w[i] == Some(e);
      assert w[i] in w;
    }
    forall e | Latest(seen, e) ensures Proper(e) {
      assert e in seen;
    }
  }

  lemma ListsMember(s: seq<ForwardedPort>, m: map<IntOrString, ForwardedPort>, e: ForwardedPort)
    requires Lists(s, m)
    ensures e in s <==> e.sourcePort in m && m[e.sourcePort] == e
  {
  }

  lemma InParts(e: ForwardedPort, a: seq<ForwardedPort>, b: seq<ForwardedPort>, c: seq<ForwardedPort>)
    ensures e in a + b + c <==> e in a || e in b + c
  {
  }

  /** Deletions and unchanged entries are what is read of the record. */
  lemma DifferenceLists(w: Wanted, seen: seq<ForwardedPort>, deletions: seq<ForwardedPort>)
    requires DiffOf(w, BySource(seen), deletions)
    ensures forall e :: e in deletions || e in Kept(w, BySource(seen), |w|) <==> Latest(seen, e)
  {
    hide Kept, Replaced, BySource, Claimed, DistinctSources, Split, Lists;
    var rec := BySource(seen);
    var kept, replaced := Kept(w, rec, |w|), Replaced(w, rec, |w|);
    var rest := deletions[|replaced|..];
    SplitUpTo(w, rec, |w|);
    PartsList(w, rec, kept, replaced, rest);
    assert deletions == replaced + rest;
    forall e ensures e in deletions || e in kept <==> Latest(seen, e) {
      InParts(e, kept, replaced, rest);
      ListsMember(kept + replaced + rest, rec, e);
    }
  }

  /** A port that is neither kept nor deleted but wanted is added, and every addition is wanted. */
  lemma AddedAreWanted(seen: seq<ForwardedPort>, w: Wanted, l: Listen)
    ensures WantsPort(w, l) ==> Known(seen, l) || Named(Additions(w, BySource(seen), |w|), l)
    ensures Named(Additions(w, BySource(seen), |w|), l) ==> WantsPort(w, l)
    ensures WantsPort(w, l) ==> Named(Kept(w, BySource(seen), |w|), l) || Named(Additions(w, BySource(seen), |w|), l)
  {
    hide BySource, Owns;
    var rec := BySource(seen);
    AdditionsWanted(w, rec, |w|);
    if WantsPort(w, l) {
      var i :| 0 <= i < |w| && w[i].Some? && w[i].value.protocol == l.protocol && w[i].value.sourcePort == FromInt(l.port);
      StaysOwns(w, rec, i);
      if Stays(w, rec, i) {
        KeptThere(w, rec, |w|, i);
        var e := rec[w[i].value.sourcePort];
        assert e in Kept(w, rec, |w|) && e.protocol == l.protocol && e.sourcePort == FromInt(l.port);
      } else {
        PortDiff.Added(w, rec, |w|, i);
      }
    }
  }

  lemma {:induction false} AdditionsWanted(w: Wanted, rec: map<IntOrString, ForwardedPort>, n: nat)
    requires n <= |w|
    ensures forall e :: e in Additions(w, rec, n) ==> exists i :: 0 <= i < |w| && w[i] == Some(e)
  {
    hide Stays;
    if n > 0 {
      AdditionsWanted(w, rec, n - 1);
    }
  }

  lemma NamedWithin(a: seq<ForwardedPort>, b: seq<ForwardedPort>, l: Listen)
    requires forall e :: e in a ==> e in b
    ensures Named(a, l) ==> Named(b, l)
  {
  }

  lemma LatestKnown(es: seq<ForwardedPort>, seen: seq<ForwardedPort>, l: Listen)
    requires forall e :: e in es ==> Latest(seen, e)
    ensures Named(es, l) ==> Known(seen, l)
  {
  }

  lemma LatestNamed(es: seq<ForwardedPort>, seen: seq<ForwardedPort>, l: Listen)
    requires forall e :: e in es ==> Latest(seen, e)
    ensures Named(es, l) ==> Named(seen, l)
  {
  }

  /** What is held after the pass: what was held before, except what a deletion took, and what the
  guard accepted. */
  lemma PassHolds(v: NodeState, t: Turn, deletions: seq<ForwardedPort>)
    requires Worked(v.recorded, t, deletions) && OnlyChecked(v.held)
    ensures var w, rec, n, p := WantedBy(t), BySource(v.recorded), |t.spec|, Pass(v, t, deletions);
            && OnlyChecked(p.held)
            && (forall l :: l in p.held ==>
                  || l in v.held || (exists j: nat :: AcceptedAt(Kept(w, rec, n), t.again, j, l))
                  || (exists j: nat :: AcceptedAt(Additions(w, rec, n), t.adds, j, l)))
            && (forall j: nat, l :: AcceptedAt(Kept(w, rec, n), t.again, j, l) || AcceptedAt(Additions(w, rec, n), t.adds, j, l) ==> l in p.held)
            && (forall l :: l in v.held && !Known(v.recorded, l) ==> l in p.held)
  {
    hide Wants, Kept, BySource, Additions, Errors, KeepAll, DropAll, AddAll, DistinctSources, AcceptedAt, Proper, Fits;
    var w, rec, n := WantedBy(t), BySource(v.recorded), |t.spec|;
    var kept, additions, p0 := Kept(w, rec, n), Additions(w, rec, n), Progress(v.held, Errors(t.spec, w, n));
    ListsProper(v.recorded, t, deletions);
    AcceptedInRange(kept, t.again);
    AcceptedInRange(additions, t.adds);
    KeepAllHolds(p0, kept, t, |kept|);
    var p1 := KeepAll(p0, kept, t, |kept|);
    DropAllHolds(p1, deletions, t, |deletions|);
    var p2 := DropAll(p1, deletions, t, |deletions|);
    AddAllHolds(p2, additions, t, |additions|);
    forall l | l in v.held && !Known(v.recorded, l) ensures l in p2.held {
      LatestKnown(deletions, v.recorded, l);
    }
    forall j: nat, l | AcceptedAt(kept, t.again, j, l) ensures l in p2.held {
      AcceptedIsKept(v.recorded, t, deletions, kept, j, l);
    }
  }

  lemma AcceptedInRange(es: seq<ForwardedPort>, answers: Answers)
    ensures forall j: nat, l :: AcceptedAt(es, answers, j, l) ==> j < |es|
  {
  }

  /** A kept port is not named by a deletion. */
  lemma AcceptedIsKept(seen: seq<ForwardedPort>, t: Turn, deletions: seq<ForwardedPort>, kept: seq<ForwardedPort>, j: nat, l: Listen)
    requires Worked(seen, t, deletions) && kept == Kept(WantedBy(t), BySource(seen), |t.spec|) && AcceptedAt(kept, t.again, j, l)
    ensures !Named(deletions, l) && Checked(l.protocol)
  {
    hide Wants, Kept, BySource, DistinctSources;
    var w, rec := WantedBy(t), BySource(seen);
    BySourceKeys(seen);
    KeptNotDeleted(w, rec, deletions, kept[j]);
  }

  lemma BySourceKeys(seen: seq<ForwardedPort>)
    ensures forall sp :: sp in BySource(seen) ==> BySource(seen)[sp].sourcePort == sp
  {
  }

  /** What the pass lists: the errors, the kept entries, failed removals and the additions. */
  lemma PassLists(v: NodeState, t: Turn, deletions: seq<ForwardedPort>, l: Listen)
    requires Worked(v.recorded, t, deletions) && Checked(l.protocol)
    ensures var p := Pass(v, t, deletions);
            && (Named(p.out, l) ==> Known(v.recorded, l) || WantsPort(WantedBy(t), l))
            && (WantsPort(WantedBy(t), l) ==> Named(p.out, l))
            && (l in p.held && Known(v.recorded, l) ==> Named(p.out, l))
  {
    hide Wants, Kept, BySource, Additions, Errors, KeepAll, DropAll, AddAll, DistinctSources, AcceptedAt, Proper, WantsPort, Fits;
    var w, rec, n := WantedBy(t), BySource(v.recorded), |t.spec|;
    var errors, kept, additions := Errors(t.spec, w, n), Kept(w, rec, n), Additions(w, rec, n);
    var p0 := Progress(v.held, errors);
    ListsProper(v.recorded, t, deletions);
    AddedAreWanted(v.recorded, w, l);
    ErrorsFailed(t.spec, w, n);
    KeepAllHolds(p0, kept, t, |kept|);
    var p1 := KeepAll(p0, kept, t, |kept|);
    DropAllHolds(p1, deletions, t, |deletions|);
    DropAllLists(p1, deletions, t, |deletions|);
    var p2 := DropAll(p1, deletions, t, |deletions|);
    AddAllHolds(p2, additions, t, |additions|);
    var p := AddAll(p2, additions, t, |additions|);
    KeepAllAlike(p0, kept, t, |kept|);
    AddAllAlike(p2, additions, t, |additions|);
    assert kept[..|kept|] == kept && additions[..|additions|] == additions && deletions[..|deletions|] == deletions;
    SameNames(p0.out, p1.out, kept, l);
    SameNames(p2.out, p.out, additions, l);
    if Named(p2.out, l) && !Named(p1.out, l) {
      var x :| x in p2.out && x.protocol == l.protocol && x.sourcePort == FromInt(l.port);
      var e :| e in deletions && SamePort(x, e);
      assert Named(deletions, l);
    }
    NamedWithin(p1.out, p2.out, l);
    LatestKnown(kept, v.recorded, l);
    LatestKnown(deletions, v.recorded, l);
    if l in p.held && Known(v.recorded, l) && !Named(kept, l) {
      var e := BySource(v.recorded)[FromInt(l.port)];
      assert Latest(v.recorded, e);
      assert e in deletions && Named(deletions, l);
      if l !in p2.held {
        AddedNames(p2, additions, t, l);
      }
    }
  }

  lemma SameNames(a: seq<ForwardedPort>, b: seq<ForwardedPort>, es: seq<ForwardedPort>, l: Listen)
    requires Alike(b, a + es)
    ensures Named(b, l) <==> Named(a, l) || Named(es, l)
  {
    if Named(b, l) {
      var x :| x in b && x.protocol == l.protocol && x.sourcePort == FromInt(l.port);
      AlikeHas(a + es, b, x);
    }
    if Named(a, l) || Named(es, l) {
      var e :| e in a + es && e.protocol == l.protocol && e.sourcePort == FromInt(l.port);
      AlikeHas(b, a + es, e);
    }
  }

  lemma AddedNames(s: Progress, es: seq<ForwardedPort>, t: Turn, l: Listen)
    requires AllProper(es) && l in AddAll(s, es, t, |es|).held && l !in s.held
    ensures Named(es, l)
  {
    AddAllHolds(s, es, t, |es|);
    var j: nat :| j < |es| && AcceptedAt(es, t.adds, j, l);
    assert es[j] in es;
  }

  lemma AcceptedIsNamed(es: seq<ForwardedPort>, answers: Answers, j: nat, l: Listen)
    requires AcceptedAt(es, answers, j, l)
    ensures Named(es, l)
  {
    assert es[j] in es;
  }

  lemma WrittenTracksExactly(v: NodeState, t: Turn, deletions: seq<ForwardedPort>)
    requires Worked(v.recorded, t, deletions) && OnlyChecked(v.held)
    ensures Covered(Pass(v, t, deletions).held, Pass(v, t, deletions).out)
            <==> forall l :: l in v.held ==> Known(v.recorded, l) || WantsPort(WantedBy(t), l)
  {
    hide Pass, Wants, BySource, Kept, Additions, Named, WantsPort, AcceptedAt, Fits, ProperWants, DistinctSources, AllProper;
    var p, w := Pass(v, t, deletions), WantedBy(t);
    PassHolds(v, t, deletions);
    forall l: Listen | Checked(l.protocol)
      ensures (Named(p.out, l) ==> Known(v.recorded, l) || WantsPort(w, l)) && (WantsPort(w, l) ==> Named(p.out, l))
      ensures l in p.held && Known(v.recorded, l) ==> Named(p.out, l)
    {
      PassLists(v, t, deletions, l);
    }
    forall l | l in p.held && l !in v.held ensures Known(v.recorded, l) || WantsPort(w, l) {
      TakenOn(v, t, deletions, l);
    }
  }

  /** A port taken on in a pass is recorded or wanted. */
  lemma TakenOn(v: NodeState, t: Turn, deletions: seq<ForwardedPort>, l: Listen)
    requires Worked(v.recorded, t, deletions) && OnlyChecked(v.held) && l in Pass(v, t, deletions).held && l !in v.held
    ensures Known(v.recorded, l) || WantsPort(WantedBy(t), l)
  {
    hide Pass, Wants, BySource, Kept, Additions, Named, WantsPort, AcceptedAt, DistinctSources, AllProper;
    var w, rec, n := WantedBy(t), BySource(v.recorded), |t.spec|;
    PassHolds(v, t, deletions);
    ListsProper(v.recorded, t, deletions);
    AddedAreWanted(v.recorded, w, l);
    if j: nat :| AcceptedAt(Kept(w, rec, n), t.again, j, l) {
      AcceptedIsNamed(Kept(w, rec, n), t.again, j, l);
      LatestKnown(Kept(w, rec, n), v.recorded, l);
    } else {
      var j: nat :| AcceptedAt(Additions(w, rec, n), t.adds, j, l);
      AcceptedIsNamed(Additions(w, rec, n), t.adds, j, l);
    }
  }

  lemma UnwrittenTracksExactly(v: NodeState, recorded: seq<ForwardedPort>, t: Turn, deletions: seq<ForwardedPort>)
    requires Worked(v.recorded, t, deletions) && OnlyChecked(v.held) && Covered(v.held, recorded)
    ensures var w, rec, n := WantedBy(t), BySource(v.recorded), |t.spec|;
            Covered(Pass(v, t, deletions).held, recorded)
            <==> AcceptedNamed(Kept(w, rec, n), t.again, recorded) && AcceptedNamed(Additions(w, rec, n), t.adds, recorded)
  {
    hide Pass, Wants, BySource, Kept, Additions, Named, AcceptedAt, AcceptedNamed, DistinctSources, AllProper;
    var w, rec, n := WantedBy(t), BySource(v.recorded), |t.spec|;
    PassHolds(v, t, deletions);
    ListsProper(v.recorded, t, deletions);
    AcceptedExactly(Kept(w, rec, n), t.again, recorded);
    AcceptedExactly(Additions(w, rec, n), t.adds, recorded);
  }

  // ----- One turn without a service

  lemma {:induction false} RemoveAllInOrder(held: set<Listen>, es: seq<ForwardedPort>, t: Turn, n: nat)
    requires n <= |es| && DistinctSources(es) && AllProper(es)
    ensures var r := RemoveAll(held, es, t, n);
            && DistinctSources(r.out) && AllProper(r.out)
            && forall x :: x in r.out ==> exists j :: 0 <= j < n && SamePort(x, es[j])
  {
    if n > 0 {
      RemoveAllInOrder(held, es, t, n - 1);
      var before, e := RemoveAll(held, es, t, n - 1), es[n - 1];
      assert e in es && Proper(e);
      forall x | x in before.out ensures x.sourcePort != e.sourcePort {
        var j :| 0 <= j < n - 1 && SamePort(x, es[j]);
      }
    }
  }

  /** Removing everything takes exactly the ports that are named, unless it fails. */
  lemma {:induction false} RemoveAllClears(held: set<Listen>, es: seq<ForwardedPort>, t: Turn, n: nat)
    requires n <= |es| && AllProper(es)
    ensures var r := RemoveAll(held, es, t, n);
            && r.held <= held
            && (forall l :: l in held && Checked(l.protocol) && !Named(es, l) ==> l in r.held)
            && (!r.failed ==> forall j :: 0 <= j < n && Checked(es[j].protocol) ==> ListenOf(es[j], t.atoi) !in r.held)
  {
    if n > 0 {
      RemoveAllClears(held, es, t, n - 1);
      var e := es[n - 1];
      assert e in es && Proper(e);
      forall l | l in held && Checked(l.protocol) && !Named(es, l) ensures l in RemoveAll(held, es, t, n).held {
        assert e.protocol == l.protocol ==> e.sourcePort != FromInt(l.port);
      }
    }
  }

  lemma RemovedTracksExactly(held: set<Listen>, seen: seq<ForwardedPort>, t: Turn)
    requires OnlyChecked(held) && AllProper(seen) && !RemoveAll(held, seen, t, |seen|).failed
    ensures var r := RemoveAll(held, seen, t, |seen|);
            Covered(r.held, r.out) <==> Covered(held, seen)
    ensures Covered(held, seen) ==> RemoveAll(held, seen, t, |seen|).held == {}
  {
    hide RemoveAll;
    var r := RemoveAll(held, seen, t, |seen|);
    RemoveAllClears(held, seen, t, |seen|);
    RemoveAllOut(held, seen, t, |seen|);
    forall l | l in held && Named(seen, l) ensures l !in r.held {
      var j :| 0 <= j < |seen| && seen[j].protocol == l.protocol && seen[j].sourcePort == FromInt(l.port);
      assert seen[j] in seen;
      assert ListenOf(seen[j], t.atoi) == l;
    }
    forall l | Named(r.out, l) ensures Named(seen, l) {
      var x :| x in r.out && x.protocol == l.protocol && x.sourcePort == FromInt(l.port);
      var e :| e in seen && SamePort(x, e);
    }
  }

  // ----- Exactly when a turn keeps track

  /** A turn of any kind, on a record of any age, leaves every held port recorded exactly when it keeps
  track, whatever removals and additions fail. */
  lemma TracksExactly(s: NodeState, seen: seq<ForwardedPort>, t: Turn, deletions: seq<ForwardedPort>)
    requires OnlyChecked(s.held) && Covered(s.held, s.recorded) && AllProper(seen)
    requires Fits(seen, t, deletions) && ProperWants(t)
    ensures Covered(After(s, seen, t, deletions).held, After(s, seen, t, deletions).recorded) <==> KeepsTrack(s, seen, t)
  {
    hide Pass, RemoveAll, Wants, BySource, Kept, Additions, Ordered, DistinctSources, WantsPort, AcceptedNamed, Fits, ProperWants, AllProper;
    var v := Seen(s, seen);
    if t.service.None? {
      RemovalTracks(s, seen, t);
    } else if t.patched {
      WrittenTracksExactly(v, t, deletions);
      OrderedSame(Pass(v, t, deletions).out, t.atoi);
      SameCover(Pass(v, t, deletions).held, Pass(v, t, deletions).out, Ordered(Pass(v, t, deletions).out, t.atoi));
    } else {
      UnwrittenTracksExactly(v, s.recorded, t, deletions);
    }
  }

  lemma SameCover(held: set<Listen>, a: seq<ForwardedPort>, b: seq<ForwardedPort>)
    requires forall e :: e in a <==> e in b
    ensures Covered(held, a) <==> Covered(held, b)
  {
    hide Named;
    forall l ensures Named(a, l) <==> Named(b, l) {
      NamedWithin(a, b, l);
      NamedWithin(b, a, l);
    }
  }

  lemma RemovalTracks(s: NodeState, seen: seq<ForwardedPort>, t: Turn)
    requires t.service.None? && OnlyChecked(s.held) && Covered(s.held, s.recorded) && AllProper(seen)
    ensures Covered(After(s, seen, t, []).held, After(s, seen, t, []).recorded) <==> KeepsTrack(s, seen, t)
  {
    hide RemoveAll, DistinctSources, AllProper, Named;
    RemoveAllClears(s.held, seen, t, |seen|);
    if Writes(Seen(s, seen), t) {
      RemovedTracksExactly(s.held, seen, t);
    }
  }

  /** A turn that reads the record in force loses track exactly when it takes on a port that is not
  recorded and then fails to write the status. */
  lemma FreshTracksExactly(s: NodeState, t: Turn, deletions: seq<ForwardedPort>)
    requires Consistent(s) && Fits(s.recorded, t, deletions) && ProperWants(t)
    ensures Covered(After(s, s.recorded, t, deletions).held, After(s, s.recorded, t, deletions).recorded) <==>
              (t.service.None? || t.patched || AcceptedNamed(Additions(WantedBy(t), BySource(s.recorded), |t.spec|), t.adds, s.recorded))
  {
    hide After, Wants, BySource, Kept, Additions, DistinctSources, WantsPort, AllProper, Fits, ProperWants;
    TracksExactly(s, s.recorded, t, deletions);
    NamedAreKnown(s.recorded);
    if t.service.Some? && !t.patched {
      KeptAreNamed(s.recorded, t, deletions);
    }
  }

  lemma NamedAreKnown(seen: seq<ForwardedPort>)
    requires DistinctSources(seen)
    ensures forall l :: Named(seen, l) ==> Known(seen, l)
  {
    BySourceExact(seen);
  }

  lemma KeptAreNamed(seen: seq<ForwardedPort>, t: Turn, deletions: seq<ForwardedPort>)
    requires Worked(seen, t, deletions)
    ensures AcceptedNamed(Kept(WantedBy(t), BySource(seen), |t.spec|), t.again, seen)
  {
    hide Wants, BySource, Kept, Additions, DistinctSources, Named, AcceptedNamed, AcceptedAt, AllProper;
    var kept := Kept(WantedBy(t), BySource(seen), |t.spec|);
    ListsProper(seen, t, deletions);
    AcceptedExactly(kept, t.again, seen);
    forall j: nat, l | AcceptedAt(kept, t.again, j, l) ensures Named(seen, l) {
      AcceptedIsNamed(kept, t.again, j, l);
      LatestNamed(kept, seen, l);
    }
  }

  // ----- Records stay in order

  /** The source port that spec port `i` ends up under: the one it resolves to, or its own target. */
  function Asked(spec: seq<PortSpec>, w: Wanted, i: nat): IntOrString
    requires i < |w| == |spec|
  {
    if w[i].Some? then w[i].value.sourcePort else spec[i].target
  }

  predicate DistinctAsked(spec: seq<PortSpec>, w: Wanted)
    requires |w| == |spec|
  {
    forall i, j :: 0 <= i < j < |w| ==> Asked(spec, w, i) != Asked(spec, w, j)
  }

  /** A turn in which no removal fails and the spec is in order. */
  ghost predicate Tidy(t: Turn) {
    && (forall i: nat :: t.removes(i)) && ProperWants(t)
    && (t.service.Some? ==> DistinctAsked(t.spec, WantedBy(t)))
  }

  lemma {:induction false} ErrorsAsked(spec: seq<PortSpec>, w: Wanted, n: nat)
    requires n <= |w| == |spec| && DistinctAsked(spec, w)
    ensures DistinctSources(Errors(spec, w, n))
    ensures forall e :: e in Errors(spec, w, n) ==> exists i :: 0 <= i < n && w[i].None? && e.sourcePort == Asked(spec, w, i)
  {
    if n > 0 {
      ErrorsAsked(spec, w, n - 1);
      if w[n - 1].None? {
        forall e | e in Errors(spec, w, n - 1) ensures e.sourcePort != Asked(spec, w, n - 1) {
          var i :| 0 <= i < n - 1 && w[i].None? && e.sourcePort == Asked(spec, w, i);
        }
      }
    }
  }

  lemma {:induction false} KeptAsked(spec: seq<PortSpec>, w: Wanted, rec: map<IntOrString, ForwardedPort>, n: nat)
    requires n <= |w| == |spec| && forall sp :: sp in rec ==> rec[sp].sourcePort == sp
    ensures forall e :: e in Kept(w, rec, n) ==> exists i :: 0 <= i < n && Stays(w, rec, i) && e.sourcePort == Asked(spec, w, i)
  {
    hide Owns;
    if n > 0 {
      KeptAsked(spec, w, rec, n - 1);
      StaysOwns(w, rec, n - 1);
    }
  }

  lemma AsksDistinctWants(spec: seq<PortSpec>, w: Wanted)
    requires |w| == |spec| && DistinctAsked(spec, w)
    ensures DistinctWants(w)
  {
    forall i, j | 0 <= j < i < |w| && w[i].Some? ensures Differs(w, i, j) {
      assert Asked(spec, w, j) != Asked(spec, w, i);
    }
  }

  lemma AskedOnce(spec: seq<PortSpec>, w: Wanted, i: nat, j: nat)
    requires |w| == |spec| && DistinctAsked(spec, w) && i < |w| && j < |w| && i != j
    ensures Asked(spec, w, i) != Asked(spec, w, j)
  {
    if j < i {
      assert Asked(spec, w, j) != Asked(spec, w, i);
    }
  }

  /** The entries a turn records have distinct source ports. */
  lemma OutcomeDistinct(spec: seq<PortSpec>, w: Wanted, rec: map<IntOrString, ForwardedPort>)
    requires |w| == |spec| && DistinctAsked(spec, w) && forall sp :: sp in rec ==> rec[sp].sourcePort == sp
    ensures DistinctSources(Errors(spec, w, |w|) + Kept(w, rec, |w|) + Additions(w, rec, |w|))
  {
    hide Owns, DistinctAsked, DistinctSources, DistinctWants, Errors, Kept, Additions, Asked, Split;
    var n := |w|;
    var errors, kept, additions := Errors(spec, w, n), Kept(w, rec, n), Additions(w, rec, n);
    AsksDistinctWants(spec, w);
    ErrorsAsked(spec, w, n);
    KeptAsked(spec, w, rec, n);
    AdditionsDistinct(w, rec, n);
    KeptDistinct(w, rec);
    forall x, y | x in errors && y in kept ensures x.sourcePort != y.sourcePort {
      var i :| 0 <= i < n && w[i].None? && x.sourcePort == Asked(spec, w, i);
      var j :| 0 <= j < n && Stays(w, rec, j) && y.sourcePort == Asked(spec, w, j);
      StaysOwns(w, rec, j);
      AskedOnce(spec, w, i, j);
    }
    forall x, y | x in errors + kept && y in additions ensures x.sourcePort != y.sourcePort {
      var j :| 0 <= j < n && w[j] == Some(y) && !Stays(w, rec, j);
      AskedResolved(spec, w, j);
      if x in errors {
        var i :| 0 <= i < n && w[i].None? && x.sourcePort == Asked(spec, w, i);
        AskedOnce(spec, w, i, j);
      } else {
        var i :| 0 <= i < n && Stays(w, rec, i) && x.sourcePort == Asked(spec, w, i);
        AskedOnce(spec, w, i, j);
      }
    }
    ConcatDistinct(errors, kept);
    ConcatDistinct(errors + kept, additions);
  }

  lemma AskedResolved(spec: seq<PortSpec>, w: Wanted, i: nat)
    requires i < |w| == |spec| && w[i].Some?
    ensures Asked(spec, w, i) == w[i].value.sourcePort
  {
  }

  lemma KeptDistinct(w: Wanted, rec: map<IntOrString, ForwardedPort>)
    requires forall sp :: sp in rec ==> rec[sp].sourcePort == sp
    ensures DistinctSources(Kept(w, rec, |w|))
  {
    SplitUpTo(w, rec, |w|);
  }

  /** Entry by entry the same protocols and source ports. */
  predicate Alike(a: seq<ForwardedPort>, b: seq<ForwardedPort>) {
    |a| == |b| && forall i :: 0 <= i < |a| ==> SamePort(a[i], b[i])
  }

  lemma AlikeDistinct(a: seq<ForwardedPort>, b: seq<ForwardedPort>)
    requires Alike(a, b) && DistinctSources(b)
    ensures DistinctSources(a)
  {
  }

  lemma PermutedDistinct(a: seq<ForwardedPort>, b: seq<ForwardedPort>)
    requires multiset(a) == multiset(b) && DistinctSources(b)
    ensures DistinctSources(a)
  {
    forall i, j | 0 <= i < j < |a| ensures a[i].sourcePort != a[j].sourcePort {
      assert a[i] in multiset(b) && a[j] in multiset(b);
      CountDistinct(b, a[i]);
      if a[i] == a[j] {
        TwiceCounted(a, i, j);
      }
    }
  }

  lemma TwiceCounted(a: seq<ForwardedPort>, i: nat, j: nat)
    requires i < j < |a| && a[i] == a[j]
    ensures multiset(a)[a[i]] >= 2
  {
    assert a == a[..j] + [a[j]] + a[j + 1..];
    assert a[..j][i] in a[..j];
    assert multiset(a) == multiset(a[..j]) + multiset{a[j]} + multiset(a[j + 1..]);
  }

  lemma {:induction false} KeepAllAlike(s: Progress, es: seq<ForwardedPort>, t: Turn, n: nat)
    requires n <= |es|
    ensures Alike(KeepAll(s, es, t, n).out, s.out + es[..n])
  {
    if n > 0 {
      KeepAllAlike(s, es, t, n - 1);
      assert es[..n] == es[..n - 1] + [es[n - 1]];
    }
  }

  lemma {:induction false} AddAllAlike(s: Progress, es: seq<ForwardedPort>, t: Turn, n: nat)
    requires n <= |es|
    ensures Alike(AddAll(s, es, t, n).out, s.out + es[..n])
  {
    if n > 0 {
      AddAllAlike(s, es, t, n - 1);
      assert es[..n] == es[..n - 1] + [es[n - 1]];
    }
  }

  predicate AllRemoved(t: Turn, n: nat) {
    forall i :: 0 <= i < n ==> t.removes(i)
  }

  lemma {:induction false} DropAllSame(s: Progress, es: seq<ForwardedPort>, t: Turn, n: nat)
    requires n <= |es| && AllRemoved(t, n)
    ensures DropAll(s, es, t, n).out == s.out
  {
    if n > 0 {
      DropAllSame(s, es, t, n - 1);
    }
  }

  lemma AlikeHas(a: seq<ForwardedPort>, b: seq<ForwardedPort>, y: ForwardedPort)
    requires (Alike(a, b) || Alike(b, a)) && y in b
    ensures exists x :: x in a && SamePort(x, y)
  {
    var i :| 0 <= i < |b| && b[i] == y;
    assert SamePort(a[i], y) && a[i] in a;
  }

  /** A tidy pass records the errors, the kept and the added entries, in that order. */
  lemma PassRecords(v: NodeState, t: Turn, deletions: seq<ForwardedPort>)
    requires t.service.Some? && Tidy(t)
    ensures var w, rec, n := WantedBy(t), BySource(v.recorded), |t.spec|;
            Alike(Pass(v, t, deletions).out, Errors(t.spec, w, n) + Kept(w, rec, n) + Additions(w, rec, n))
  {
    hide Wants, Kept, BySource, Additions, Errors, KeepAll, DropAll, AddAll, DistinctAsked, ProperWants;
    var w, rec, n := WantedBy(t), BySource(v.recorded), |t.spec|;
    var kept, additions, p0 := Kept(w, rec, n), Additions(w, rec, n), Progress(v.held, Errors(t.spec, w, n));
    KeepAllAlike(p0, kept, t, |kept|);
    var p1 := KeepAll(p0, kept, t, |kept|);
    DropAllSame(p1, deletions, t, |deletions|);
    var p2 := DropAll(p1, deletions, t, |deletions|);
    AddAllAlike(p2, additions, t, |additions|);
    assert kept[..|kept|] == kept && additions[..|additions|] == additions;
  }

  ghost predicate InOrder(recorded: seq<ForwardedPort>) {
    DistinctSources(recorded) && AllProper(recorded)
  }

  lemma PassInOrder(v: NodeState, t: Turn, deletions: seq<ForwardedPort>)
    requires t.service.Some? && Tidy(t) && InOrder(v.recorded) && Fits(v.recorded, t, deletions)
    ensures InOrder(Ordered(Pass(v, t, deletions).out, t.atoi))
  {
    hide Wants, Kept, BySource, Additions, Errors, Pass, Ordered, DistinctSources, DistinctAsked, Alike, Fits;
    var w, rec, n, p := WantedBy(t), BySource(v.recorded), |t.spec|, Pass(v, t, deletions);
    var listing := Errors(t.spec, w, n) + Kept(w, rec, n) + Additions(w, rec, n);
    PassRecords(v, t, deletions);
    BySourceKeys(v.recorded);
    OutcomeDistinct(t.spec, w, rec);
    AlikeDistinct(p.out, listing);
    OrderedSame(p.out, t.atoi);
    PermutedDistinct(Ordered(p.out, t.atoi), p.out);
    ListsProper(v.recorded, t, deletions);
    ErrorsFailed(t.spec, w, n);
    forall x | x in p.out ensures Proper(x) {
      AlikeHas(listing, p.out, x);
      var y :| y in listing && SamePort(y, x);
      assert y in Errors(t.spec, w, n) || y in Kept(w, rec, n) || y in Additions(w, rec, n);
    }
  }

  /** Tidy turns write records in which every source port occurs once and is a number in range. */
  lemma StaysInOrder(s: NodeState, seen: seq<ForwardedPort>, t: Turn, deletions: seq<ForwardedPort>)
    requires Tidy(t) && Fits(seen, t, deletions) && InOrder(seen) && InOrder(s.recorded) && OnlyChecked(s.held)
    ensures InOrder(After(s, seen, t, deletions).recorded) && OnlyChecked(After(s, seen, t, deletions).held)
  {
    hide Pass, RemoveAll, Ordered, DistinctSources, AllProper, Wants, DistinctAsked, ProperWants;
    if t.service.Some? {
      PassInOrder(Seen(s, seen), t, deletions);
      assert Worked(seen, t, deletions);
      PassHolds(Seen(s, seen), t, deletions);
    } else {
      RemoveAllClears(s.held, seen, t, |seen|);
      RemoveAllInOrder(s.held, seen, t, |seen|);
    }
  }

  /** What is held is recorded: a tidy turn that reads the record in force and writes the status keeps
  this, and one without a service leaves nothing held at all. */
  lemma HeldIsRecorded(s: NodeState, t: Turn, deletions: seq<ForwardedPort>)
    requires Tidy(t) && t.patched && Consistent(s) && Fits(s.recorded, t, deletions)
    ensures Consistent(After(s, s.recorded, t, deletions)) && Finished(s, t)
    ensures t.service.None? ==> After(s, s.recorded, t, deletions).held == {}
  {
    hide Pass, RemoveAll, Wants, BySource, Kept, Additions, Ordered, DistinctSources, AllProper, Fits, DistinctAsked, ProperWants, Covered;
    FreshTracksExactly(s, t, deletions);
    StaysInOrder(s, s.recorded, t, deletions);
    if t.service.None? {
      RemoveAllSucceeds(s.held, s.recorded, t, |s.recorded|);
      RemovedTracksExactly(s.held, s.recorded, t);
    }
  }

  lemma {:induction false} RemoveAllSucceeds(held: set<Listen>, es: seq<ForwardedPort>, t: Turn, n: nat)
    requires n <= |es| && AllRemoved(t, n)
    ensures !RemoveAll(held, es, t, n).failed
  {
    if n > 0 {
      RemoveAllSucceeds(held, es, t, n - 1);
    }
  }

  // ----- Whole runs

  /** A run: `states[i + 1]` is the node after turn `i`, which read the record of `states[views[i]]`. */
  ghost predicate Run(states: seq<NodeState>, turns: seq<Turn>, views: seq<nat>) {
    && |states| == |turns| + 1 && |views| == |turns| && states[0] == NodeState({}, [])
    && (forall i :: 0 <= i < |views| ==> views[i] <= i)
    && forall i: nat :: i < |turns| ==> Steps(states, turns, views, i)
  }

  ghost predicate Steps(states: seq<NodeState>, turns: seq<Turn>, views: seq<nat>, i: nat)
    requires |states| == |turns| + 1 && |views| == |turns| && i < |turns| && views[i] <= i
  {
    CanStep(states[i], ReadAt(states, views, i), turns[i], states[i + 1])
  }

  ghost predicate CanStep(s: NodeState, seen: seq<ForwardedPort>, t: Turn, s': NodeState) {
    exists deletions :: StepWith(s, seen, t, deletions, s')
  }

  ghost predicate StepWith(s: NodeState, seen: seq<ForwardedPort>, t: Turn, deletions: seq<ForwardedPort>, s': NodeState) {
    Fits(seen, t, deletions) && s' == After(s, seen, t, deletions)
  }

  /** The record that turn `i` works on. */
  function ReadAt(states: seq<NodeState>, views: seq<nat>, i: nat): seq<ForwardedPort>
    requires i < |views| < |states| && views[i] <= i
  {
    states[views[i]].recorded
  }

  /** Whatever a pass lists is an error or names what is recorded or wanted. */
  lemma PassOrigin(v: NodeState, t: Turn, deletions: seq<ForwardedPort>)
    requires t.service.Some? && Fits(v.recorded, t, deletions)
    ensures forall x :: x in Pass(v, t, deletions).out ==> Origin(x, v.recorded, WantedBy(t))
  {
    hide Wants, Kept, BySource, Additions, Errors, KeepAll, DropAll, AddAll, Alike, Latest, Fits;
    var w, rec, n := WantedBy(t), BySource(v.recorded), |t.spec|;
    var kept, additions, p0 := Kept(w, rec, n), Additions(w, rec, n), Progress(v.held, Errors(t.spec, w, n));
    ErrorsFailed(t.spec, w, n);
    AdditionsWanted(w, rec, n);
    DifferenceIsRecorded(v.recorded, t, deletions);
    KeepAllOut(p0, kept, t, |kept|);
    var p1 := KeepAll(p0, kept, t, |kept|);
    DropAllLists(p1, deletions, t, |deletions|);
    var p2 := DropAll(p1, deletions, t, |deletions|);
    AddAllAlike(p2, additions, t, |additions|);
    assert additions[..|additions|] == additions;
    forall x | x in AddAll(p2, additions, t, |additions|).out ensures Origin(x, v.recorded, w) {
      AlikeHas(p2.out + additions, AddAll(p2, additions, t, |additions|).out, x);
      var y :| y in p2.out + additions && SamePort(y, x);
      if y in additions {
        var i :| 0 <= i < |w| && w[i] == Some(y);
      }
    }
  }

  lemma DifferenceIsRecorded(seen: seq<ForwardedPort>, t: Turn, deletions: seq<ForwardedPort>)
    requires t.service.Some? && Fits(seen, t, deletions)
    ensures forall e :: e in deletions || e in Kept(WantedBy(t), BySource(seen), |t.spec|) ==> e in seen
  {
    hide Wants, Kept, BySource, DiffOf;
    DifferenceLists(WantedBy(t), seen, deletions);
  }

  /** An error, or the protocol and source port of a recorded or a wanted entry. */
  predicate Origin(x: ForwardedPort, seen: seq<ForwardedPort>, w: Wanted) {
    || x.protocol == NoProtocol
    || (exists e :: e in seen && SamePort(e, x))
    || exists i :: 0 <= i < |w| && w[i].Some? && SamePort(w[i].value, x)
  }

  /** What a turn records has such an origin too, unless the record stays. */
  lemma AfterOrigin(s: NodeState, seen: seq<ForwardedPort>, t: Turn, deletions: seq<ForwardedPort>)
    requires Fits(seen, t, deletions)
    ensures forall x :: x in After(s, seen, t, deletions).recorded ==>
                          x in s.recorded || Origin(x, seen, if t.service.Some? then WantedBy(t) else [])
  {
    hide Pass, RemoveAll, Ordered, Fits, Wants;
    if t.service.Some? {
      PassOrigin(Seen(s, seen), t, deletions);
      OrderedSame(Pass(Seen(s, seen), t, deletions).out, t.atoi);
    } else {
      RemoveAllOut(s.held, seen, t, |seen|);
    }
  }

  lemma OriginSane(x: ForwardedPort, seen: seq<ForwardedPort>, w: Wanted)
    requires Origin(x, seen, w)
    ensures AllSane(seen) && (forall y :: y in w && y.Some? ==> Sane(y.value)) ==> Sane(x)
    ensures AllProper(seen) && (forall y :: y in w && y.Some? ==> Proper(y.value)) ==> Proper(x)
  {
    if i :| 0 <= i < |w| && w[i].Some? && SamePort(w[i].value, x) {
      assert w[i] in w;
    }
  }

  lemma SaneAfter(s: NodeState, seen: seq<ForwardedPort>, t: Turn, deletions: seq<ForwardedPort>)
    requires Fits(seen, t, deletions) && AllSane(seen) && AllSane(s.recorded) && OnlyChecked(s.held) && SaneTurn(t)
    ensures AllSane(After(s, seen, t, deletions).recorded) && OnlyChecked(After(s, seen, t, deletions).held)
  {
    hide After, Fits, Origin, Wants;
    AfterOrigin(s, seen, t, deletions);
    HoldsChecked(s, seen, t, deletions);
    forall x | x in After(s, seen, t, deletions).recorded ensures Sane(x) {
      if x !in s.recorded {
        OriginSane(x, seen, if t.service.Some? then WantedBy(t) else []);
      }
    }
  }

  lemma HoldsChecked(s: NodeState, seen: seq<ForwardedPort>, t: Turn, deletions: seq<ForwardedPort>)
    requires Fits(seen, t, deletions) && AllSane(seen) && OnlyChecked(s.held)
    ensures OnlyChecked(After(s, seen, t, deletions).held)
  {
    hide Pass, RemoveAll, Ordered, Fits, Wants;
    if t.service.Some? {
      PassReady(Seen(s, seen), t, deletions);
    } else {
      RemoveAllOut(s.held, seen, t, |seen|);
    }
  }

  /** Source ports in records stay numbers in range, whatever fails. */
  lemma ProperAfter(s: NodeState, seen: seq<ForwardedPort>, t: Turn, deletions: seq<ForwardedPort>)
    requires Fits(seen, t, deletions) && AllProper(seen) && AllProper(s.recorded) && OnlyChecked(s.held) && ProperWants(t)
    ensures AllProper(After(s, seen, t, deletions).recorded) && OnlyChecked(After(s, seen, t, deletions).held)
  {
    hide After, Fits, Origin, Wants;
    AfterOrigin(s, seen, t, deletions);
    HoldsChecked(s, seen, t, deletions);
    forall x | x in After(s, seen, t, deletions).recorded ensures Proper(x) {
      if x !in s.recorded {
        OriginSane(x, seen, if t.service.Some? then WantedBy(t) else []);
      }
    }
  }

  lemma {:induction false} RunSane(states: seq<NodeState>, turns: seq<Turn>, views: seq<nat>, n: nat)
    requires Run(states, turns, views) && n < |states| && forall t :: t in turns ==> SaneTurn(t)
    ensures forall i :: 0 <= i <= n ==> AllSane(states[i].recorded) && OnlyChecked(states[i].held)
  {
    hide SaneTurn, Fits, After, AllSane, OnlyChecked;
    if n == 0 {
      NothingSane();
    } else {
      var i := n - 1;
      RunSane(states, turns, views, i);
      assert Steps(states, turns, views, i) && turns[i] in turns;
      var deletions :| StepWith(states[i], ReadAt(states, views, i), turns[i], deletions, states[n]);
      SaneAfter(states[i], ReadAt(states, views, i), turns[i], deletions);
    }
  }

  lemma NothingSane()
    ensures AllSane([]) && AllProper([]) && OnlyChecked({}) && Covered({}, []) && Consistent(NodeState({}, []))
  {
  }

  /** In every run, whatever fails and however old the records are that turns read: after each turn that
  writes the status, what is marked ready is held. */
  lemma RunReadyIsHeld(states: seq<NodeState>, turns: seq<Turn>, views: seq<nat>, i: nat)
    requires Run(states, turns, views) && i < |turns| && forall t :: t in turns ==> SaneTurn(t)
    requires Writes(Seen(states[i], ReadAt(states, views, i)), turns[i])
    ensures ReadyHeld(states[i + 1].held, states[i + 1].recorded, turns[i].atoi)
  {
    hide SaneTurn, Fits, After, Writes, AllSane, OnlyChecked;
    RunSane(states, turns, views, i);
    assert Steps(states, turns, views, i);
    var deletions :| StepWith(states[i], ReadAt(states, views, i), turns[i], deletions, states[i + 1]);
    ReadyIsHeld(states[i], ReadAt(states, views, i), turns[i], deletions);
  }

  lemma {:induction false} RunProper(states: seq<NodeState>, turns: seq<Turn>, views: seq<nat>, n: nat)
    requires Run(states, turns, views) && n < |states| && forall t :: t in turns ==> ProperWants(t)
    ensures forall i :: 0 <= i <= n ==> AllProper(states[i].recorded) && OnlyChecked(states[i].held)
  {
    hide ProperWants, Fits, After, AllProper, OnlyChecked;
    if n == 0 {
      NothingSane();
    } else {
      var i := n - 1;
      RunProper(states, turns, views, i);
      assert Steps(states, turns, views, i) && turns[i] in turns;
      var deletions :| StepWith(states[i], ReadAt(states, views, i), turns[i], deletions, states[n]);
      ProperAfter(states[i], ReadAt(states, views, i), turns[i], deletions);
    }
  }

  ghost predicate Tracked(s: NodeState) {
    Covered(s.held, s.recorded)
  }

  lemma StepTracks(states: seq<NodeState>, turns: seq<Turn>, views: seq<nat>, i: nat)
    requires Run(states, turns, views) && i < |turns| && (forall t :: t in turns ==> ProperWants(t)) && Tracked(states[i])
    ensures Tracked(states[i + 1]) <==> KeepsTrack(states[i], ReadAt(states, views, i), turns[i])
  {
    hide Fits, After, AllProper, ProperWants, Covered, KeepsTrack;
    RunProper(states, turns, views, i);
    assert Steps(states, turns, views, i) && turns[i] in turns;
    var deletions :| StepWith(states[i], ReadAt(states, views, i), turns[i], deletions, states[i + 1]);
    TracksExactly(states[i], ReadAt(states, views, i), turns[i], deletions);
  }

  /** In a run what the guard holds is recorded all the way exactly when every turn keeps track, whatever
  removals and additions fail, whether statuses are written or not, and however old the records are
  that turns read. */
  lemma {:induction false} RunTracksExactly(states: seq<NodeState>, turns: seq<Turn>, views: seq<nat>, n: nat)
    requires Run(states, turns, views) && n < |states| && forall t :: t in turns ==> ProperWants(t)
    ensures (forall i :: 0 <= i <= n ==> Tracked(states[i])) <==>
            (forall i :: 0 <= i < n ==> KeepsTrack(states[i], ReadAt(states, views, i), turns[i]))
  {
    hide ProperWants, Tracked, KeepsTrack, Run, ReadAt;
    if n == 0 {
      RunStarts(states, turns, views);
    } else {
      RunShape(states, turns, views);
      RunTracksExactly(states, turns, views, n - 1);
      if forall i :: 0 <= i <= n - 1 ==> Tracked(states[i]) {
        StepTracks(states, turns, views, n - 1);
      }
    }
  }

  lemma RunShape(states: seq<NodeState>, turns: seq<Turn>, views: seq<nat>)
    requires Run(states, turns, views)
    ensures |states| == |turns| + 1 && |views| == |turns| && forall i :: 0 <= i < |views| ==> views[i] <= i
  {
  }

  lemma RunStarts(states: seq<NodeState>, turns: seq<Turn>, views: seq<nat>)
    requires Run(states, turns, views)
    ensures Tracked(states[0])
  {
  }

  /** In particular: in every run of tidy turns that read the record in force and write the status. */
  lemma {:induction false} RunHeldIsRecorded(states: seq<NodeState>, turns: seq<Turn>, views: seq<nat>, n: nat)
    requires Run(states, turns, views) && n < |states|
    requires forall i :: 0 <= i < |turns| ==> Tidy(turns[i]) && turns[i].patched && views[i] == i
    ensures Consistent(states[n])
  {
    hide Tidy, Fits, After, Consistent;
    if n == 0 {
      NothingSane();
    } else {
      var i := n - 1;
      RunHeldIsRecorded(states, turns, views, i);
      assert Steps(states, turns, views, i);
      var deletions :| StepWith(states[i], ReadAt(states, views, i), turns[i], deletions, states[n]);
      HeldIsRecorded(states[i], turns[i], deletions);
    }
  }

  // ----- Losing track

  /** A first turn that adds a port but fails to write the status leaves the port held and unknown to the
  record, where no later turn will look for it. */
  lemma UnpatchedTurnLosesTrack(t: Turn, deletions: seq<ForwardedPort>)
    requires t.service.Some? && ProperWants(t) && Fits([], t, deletions)
    requires |t.spec| == 1 && WantedBy(t)[0].Some? && Checked(WantedBy(t)[0].value.protocol)
    requires t.adds.check(0) == Free && t.adds.works(0) && !t.patched
    ensures After(NodeState({}, []), [], t, deletions).recorded == []
    ensures ListenOf(WantedBy(t)[0].value, t.atoi) in After(NodeState({}, []), [], t, deletions).held
  {
    hide Wants, Pass, BySource;
    var v, w, e := NodeState({}, []), WantedBy(t), WantedBy(t)[0].value;
    AddsFirst(v.recorded, w);
    assert w[0] in w;
    ProperListen(e, t.atoi);
    PassHolds(v, t, deletions);
    assert AcceptedAt(Additions(w, BySource(v.recorded), |t.spec|), t.adds, 0, ListenOf(e, t.atoi));
    assert Seen(v, []) == v;
  }

  lemma AddsFirst(seen: seq<ForwardedPort>, w: Wanted)
    requires seen == [] && |w| == 1 && w[0].Some?
    ensures Additions(w, BySource(seen), 1) == [w[0].value]
  {
    var none := BySource(seen);
    assert !Owns(w, none, 0) && !Stays(w, none, 0);
    assert Additions(w, none, 1) == Additions(w, none, 0) + [w[0].value];
  }

  /** A turn that still sees the empty record while a port is held, and whose spec has become empty,
  leaves the port held and writes a record without it. */
  lemma StaleReadLosesTrack(s: NodeState, t: Turn, deletions: seq<ForwardedPort>)
    requires t.service.Some? && t.spec == [] && t.patched && OnlyChecked(s.held) && s.held != {} && Fits([], t, deletions)
    ensures var s' := After(s, [], t, deletions); s'.held == s.held && s'.recorded == [] && !Tracked(s')
  {
    var w := WantedBy(t);
    assert Replaced(w, BySource([]), 0) == [] && BySource([]) - Claimed(w, 0) == map[];
    NothingListed(deletions);
    var p := Progress(s.held, []);
    assert Pass(Seen(s, []), t, deletions) == p;
    OrderedSame([], t.atoi);
    var l :| l in s.held;
    assert !Named([], l);
  }

  /** A held port that is neither known from the record in force nor wanted stays held and is forgotten. */
  lemma HiddenIsForgotten(s: NodeState, t: Turn, deletions: seq<ForwardedPort>, l: Listen)
    requires t.service.Some? && t.patched && ProperWants(t) && Fits(s.recorded, t, deletions)
    requires OnlyChecked(s.held) && AllProper(s.recorded)
    requires l in s.held && !Known(s.recorded, l) && !WantsPort(WantedBy(t), l)
    ensures var s' := After(s, s.recorded, t, deletions); l in s'.held && !Named(s'.recorded, l)
  {
    hide Pass, Ordered, Wants, WantsPort, Known, AllProper, Fits, AcceptedAt;
    assert Seen(s, s.recorded) == s;
    var p := Pass(s, t, deletions);
    PassHolds(s, t, deletions);
    PassLists(s, t, deletions, l);
    OrderedSame(p.out, t.atoi);
    NamedWithin(Ordered(p.out, t.atoi), p.out, l);
  }

  /** The only spec port has moved to another protocol under the same number. */
  ghost predicate Moved(s: NodeState, t: Turn) {
    && t.service.Some? && t.patched && ProperWants(t) && |t.spec| == 1 && |s.recorded| == 1
    && AllProper(s.recorded) && OnlyChecked(s.held)
    && WantedBy(t)[0].Some? && Checked(WantedBy(t)[0].value.protocol) && Checked(s.recorded[0].protocol)
    && WantedBy(t)[0].value.sourcePort == s.recorded[0].sourcePort && WantedBy(t)[0].value.protocol != s.recorded[0].protocol
  }

  lemma MovedDifference(s: NodeState, t: Turn, deletions: seq<ForwardedPort>)
    requires Moved(s, t) && Fits(s.recorded, t, deletions)
    ensures var w, rec := WantedBy(t), BySource(s.recorded);
            Kept(w, rec, 1) == [] && Additions(w, rec, 1) == [w[0].value] && Errors(t.spec, w, 1) == [] && deletions == s.recorded
  {
    hide Wants;
    var w, old_ := WantedBy(t), s.recorded[0];
    var rec := BySource(s.recorded);
    assert s.recorded == [old_] && rec == map[old_.sourcePort := old_];
    assert Owns(w, rec, 0) && !Stays(w, rec, 0);
    assert Replaced(w, rec, 1) == Replaced(w, rec, 0) + [old_];
    assert Kept(w, rec, 1) == Kept(w, rec, 0) && Additions(w, rec, 1) == Additions(w, rec, 0) + [w[0].value];
    assert w[0].value.sourcePort in Claimed(w, 1);
    assert rec - Claimed(w, 1) == map[];
    NothingListed(deletions[1..]);
  }

  /** When the removal under the old protocol fails, the pass lists both ports under the one number. */
  lemma MovedPass(s: NodeState, t: Turn, deletions: seq<ForwardedPort>)
    requires Moved(s, t) && Fits(s.recorded, t, deletions) && ListenOf(s.recorded[0], t.atoi) in s.held && !t.removes(0)
    ensures var p := Pass(s, t, deletions);
            && s.held <= p.held && |p.out| == 2 && SamePort(p.out[0], s.recorded[0]) && SamePort(p.out[1], WantedBy(t)[0].value)
  {
    hide Wants, BySource, ProperWants, Fits;
    var old_, new_ := s.recorded[0], WantedBy(t)[0].value;
    assert old_ in s.recorded;
    ProperListen(old_, t.atoi);
    MovedDifference(s, t, deletions);
    assert s.recorded == [old_];
    var p1 := DropOne(Progress(s.held, []), old_, t.atoi, false);
    assert DropAll(Progress(s.held, []), [old_], t, 1) == p1 && p1.held == s.held;
    assert AddAll(p1, [new_], t, 1) == AddOne(p1, new_, t.atoi, t.adds.check(0), t.adds.works(0));
  }

  /** A turn then reads the later of the two entries only. */
  lemma MovedIsHidden(s: NodeState, t: Turn, deletions: seq<ForwardedPort>)
    requires Moved(s, t) && Fits(s.recorded, t, deletions) && ListenOf(s.recorded[0], t.atoi) in s.held && !t.removes(0)
    ensures var s', l := After(s, s.recorded, t, deletions), ListenOf(s.recorded[0], t.atoi);
            l in s'.held && Named(s'.recorded, l) && !Known(s'.recorded, l)
  {
    hide Wants, Pass, Fits, ProperWants;
    assert s.recorded[0] in s.recorded;
    ProperListen(s.recorded[0], t.atoi);
    MovedPass(s, t, deletions);
    assert Seen(s, s.recorded) == s;
    var first, second := Pass(s, t, deletions).out[0], Pass(s, t, deletions).out[1];
    assert Pass(s, t, deletions).out == [first, second];
    PairInOrder(first, second, t.atoi);
    LastIsRead(first, second);
    assert first in [first, second];
  }

  lemma LastIsRead(a: ForwardedPort, b: ForwardedPort)
    requires a.sourcePort == b.sourcePort
    ensures BySource([a, b]) == map[b.sourcePort := b]
  {
    assert [a, b][..1] == [a] && [a][..0] == [];
  }

  lemma PairInOrder(a: ForwardedPort, b: ForwardedPort, atoi: string -> int)
    requires a.sourcePort == b.sourcePort
    ensures Ordered([a, b], atoi) == [a, b]
  {
    var rank := (e: ForwardedPort) => Number(e.sourcePort, atoi);
    assert [a, b][1..] == [b] && [b][1..] == [];
    assert S.Sort([b], rank) == [b];
  }

  /** A spec port changes its protocol and the removal under the old one fails: after the next turn,
  which sees the same spec, that port is still held and no longer recorded. */
  lemma FailedRemovalLosesTrack(s: NodeState, t: Turn, deletions: seq<ForwardedPort>, again: seq<ForwardedPort>)
    requires Moved(s, t) && Fits(s.recorded, t, deletions) && ListenOf(s.recorded[0], t.atoi) in s.held && !t.removes(0)
    requires Fits(After(s, s.recorded, t, deletions).recorded, t, again)
    ensures var s', l := After(s, s.recorded, t, deletions), ListenOf(s.recorded[0], t.atoi);
            var s'' := After(s', s'.recorded, t, again);
            l in s''.held && !Named(s''.recorded, l)
  {
    hide After, Wants, Known, Fits;
    var s', l := After(s, s.recorded, t, deletions), ListenOf(s.recorded[0], t.atoi);
    assert s.recorded[0] in s.recorded;
    ProperListen(s.recorded[0], t.atoi);
    MovedIsHidden(s, t, deletions);
    ProperAfter(s, s.recorded, t, deletions);
    HiddenIsForgotten(s', t, again, l);
  }
}
