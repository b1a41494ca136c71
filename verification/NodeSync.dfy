/** One node reconciling one resource: the difference is applied through the guard and the outcome is
recorded in the node's status.

A turn may see any service and any spec, and the world may answer every call with a failure.
*/
module NodeSync {
  import opened Encoding
  import opened Options
  import opened PortDiff
  import opened Guard
  import opened Searching
  import S = Sorting

  /** How the calls of one phase come out, call by call. */
  datatype Answers = Answers(check: nat -> Check, works: nat -> bool)

  /** Everything one turn depends on besides the node itself. */
  datatype Turn = Turn(
    service: Option<Service>, spec: seq<PortSpec>, slices: seq<EndpointSlice>,
    rank: string -> int,      // addresses as numbers
    atoi: string -> int,      // `strconv.Atoi`, 0 when it fails
    again: Answers, removes: nat -> bool, adds: Answers,
    patched: bool)

  datatype NodeState = NodeState(held: set<Listen>, recorded: seq<ForwardedPort>)

  function Number(sp: IntOrString, atoi: string -> int): int {
    match sp
    case FromInt(n) => n
    case FromString(s) => atoi(s)
  }

  /** Conversion to `uint16`. */
  function Port16(n: int): uint16 {
    n % 0x1_0000
  }

  // ----- The three loops

  datatype Progress = Progress(held: set<Listen>, out: seq<ForwardedPort>)

  function AddTo(held: set<Listen>, l: Listen, reply: Reply): set<Listen> {
    if reply == Done then held + {l} else held
  }

  /** An unchanged entry is added again in case the guard lost it. */
  function KeepOne(s: Progress, e: ForwardedPort, atoi: string -> int, check: Check, works: bool): Progress {
    var port := Port16(Number(e.sourcePort, atoi));
    if port > 0 then
      var reply := AddReply(s.held, Listen(e.protocol, port), check, works);
      Progress(AddTo(s.held, Listen(e.protocol, port), reply),
               s.out + [e.(state := if reply == Done then Ready else if reply == AlreadyForwarded then e.state else Failed)])
    else Progress(s.held, s.out + [e.(state := Unknown)])
  }

  function DropOne(s: Progress, e: ForwardedPort, atoi: string -> int, works: bool): Progress {
    if Port16(Number(e.sourcePort, atoi)) > 0 then
      var l := Listen(e.protocol, Port16(e.sourcePort.IntVal()));
      var reply := RemoveReply(s.held, l, works);
      Progress(if reply == Done then s.held - {l} else s.held, if reply == Failure then s.out + [e.(state := Residual)] else s.out)
    else s
  }

  function AddOne(s: Progress, e: ForwardedPort, atoi: string -> int, check: Check, works: bool): Progress {
    var l := Listen(e.protocol, Port16(Number(e.sourcePort, atoi)));
    var reply := AddReply(s.held, l, check, works);
    var state := if reply == Done then e.state else if reply == AlreadyForwarded then Conflict else if reply == InUse then Rejected else Failed;
    Progress(AddTo(s.held, l, reply), s.out + [e.(state := state)])
  }

  function KeepAll(s: Progress, es: seq<ForwardedPort>, t: Turn, n: nat): Progress
    requires n <= |es|
  {
    if n == 0 then s else KeepOne(KeepAll(s, es, t, n - 1), es[n - 1], t.atoi, t.again.check(n - 1), t.again.works(n - 1))
  }

  function DropAll(s: Progress, es: seq<ForwardedPort>, t: Turn, n: nat): Progress
    requires n <= |es|
  {
    if n == 0 then s else DropOne(DropAll(s, es, t, n - 1), es[n - 1], t.atoi, t.removes(n - 1))
  }

  function AddAll(s: Progress, es: seq<ForwardedPort>, t: Turn, n: nat): Progress
    requires n <= |es|
  {
    if n == 0 then s else AddOne(AddAll(s, es, t, n - 1), es[n - 1], t.atoi, t.adds.check(n - 1), t.adds.works(n - 1))
  }

  function WantedBy(t: Turn): Wanted
    requires t.service.Some?
  {
    Wants(t.spec, t.service.value, t.slices, t.rank)
  }

  /** The whole pass over the difference. */
  function Pass(s: NodeState, t: Turn, deletions: seq<ForwardedPort>): Progress
    requires t.service.Some?
  {
    var w, rec, n := WantedBy(t), BySource(s.recorded), |t.spec|;
    var kept, additions := Kept(w, rec, n), Additions(w, rec, n);
    var p0 := Progress(s.held, Errors(t.spec, w, n));
    var p1 := KeepAll(p0, kept, t, |kept|);
    var p2 := DropAll(p1, deletions, t, |deletions|);
    AddAll(p2, additions, t, |additions|)
  }

  function Ordered(out: seq<ForwardedPort>, atoi: string -> int): seq<ForwardedPort> {
    S.Sort(out, (e: ForwardedPort) => Number(e.sourcePort, atoi))
  }

  // ----- Removing everything

  datatype Removal = Removal(held: set<Listen>, out: seq<ForwardedPort>, failed: bool)

  function RemoveOne(r: Removal, e: ForwardedPort, atoi: string -> int, works: bool): Removal {
    var port := Port16(Number(e.sourcePort, atoi));
    if r.failed || port == 0 then r
    else
      var l := Listen(e.protocol, port);
      var reply := RemoveReply(r.held, l, works);
      if reply == Failure then r.(failed := true)
      else Removal(if reply == Done then r.held - {l} else r.held, r.out + [ForwardedPort(e.protocol, e.sourcePort, [], 0, NoTarget)], false)
  }

  lemma RemoveSteps(r: Removal, e: ForwardedPort, atoi: string -> int, works: bool)
    requires !r.failed
    ensures var port := Port16(Number(e.sourcePort, atoi));
            var reply := RemoveReply(r.held, Listen(e.protocol, port), works);
            && (port == 0 ==> RemoveOne(r, e, atoi, works) == r)
            && (port > 0 ==> reply == Done || reply == NotForwarded || reply == Failure)
            && (port > 0 && reply == Failure ==> RemoveOne(r, e, atoi, works) == r.(failed := true))
            && (port > 0 && reply != Failure ==>
                  RemoveOne(r, e, atoi, works) == Removal(if reply == Done then r.held - {Listen(e.protocol, port)} else r.held,
                                                          r.out + [ForwardedPort(e.protocol, e.sourcePort, [], 0, NoTarget)], false))
  {
  }

  /** Entries are removed one after the other, up to the first failure. */
  function RemoveAll(held: set<Listen>, es: seq<ForwardedPort>, t: Turn, n: nat): Removal
    requires n <= |es|
  {
    if n == 0 then Removal(held, [], false) else RemoveOne(RemoveAll(held, es, t, n - 1), es[n - 1], t.atoi, t.removes(n - 1))
  }

  // ----- One turn

  /** A turn works on the record it has read, which may be older than the one in force. */
  function Seen(s: NodeState, seen: seq<ForwardedPort>): NodeState {
    s.(recorded := seen)
  }

  /** The turn gets as far as writing the node's status. */
  predicate Writes(s: NodeState, t: Turn) {
    t.patched && (t.service.Some? || (s.recorded != [] && !RemoveAll(s.held, s.recorded, t, |s.recorded|).failed))
  }

  /** The turn reports no error. */
  predicate Finished(s: NodeState, t: Turn) {
    Writes(s, t) || (t.service.None? && s.recorded == [])
  }

  /** The node after a turn that has read the record `seen`. */
  function After(s: NodeState, seen: seq<ForwardedPort>, t: Turn, deletions: seq<ForwardedPort>): NodeState {
    var v := Seen(s, seen);
    if t.service.Some? then
      var p := Pass(v, t, deletions);
      NodeState(p.held, if Writes(v, t) then Ordered(p.out, t.atoi) else s.recorded)
    else
      var r := RemoveAll(s.held, seen, t, |seen|);
      NodeState(r.held, if Writes(v, t) then r.out else s.recorded)
  }

  /** `deletions` fits the difference that the turn computes; their order is up to the run. */
  ghost predicate Fits(seen: seq<ForwardedPort>, t: Turn, deletions: seq<ForwardedPort>) {
    t.service.Some? ==> DiffOf(WantedBy(t), BySource(seen), deletions)
  }

  class Node {
    const name: string
    const forwarder: GuardPortForwarding
    var recorded: seq<ForwardedPort>

    ghost predicate Valid()
      reads this, forwarder
    {
      forwarder.Valid()
    }

    ghost function State(): NodeState
      requires Valid()
      reads this, forwarder
    {
      NodeState(forwarder.Held(), recorded)
    }

    constructor (name: string, forwarder: GuardPortForwarding)
      ensures this.name == name && this.forwarder == forwarder && recorded == []
    {
      this.name, this.forwarder, recorded := name, forwarder, [];
    }

    method KeepPorts(es: seq<ForwardedPort>, t: Turn, start: seq<ForwardedPort>) returns (out: seq<ForwardedPort>)
      requires Valid()
      modifies forwarder
      ensures Valid() && Progress(forwarder.Held(), out) == KeepAll(Progress(old(forwarder.Held()), start), es, t, |es|)
    {
      hide Number, Port16;
      out := start;
      var i := 0;
      while i < |es|
        invariant 0 <= i <= |es| && Valid()
        invariant Progress(forwarder.Held(), out) == KeepAll(Progress(old(forwarder.Held()), start), es, t, i)
      {
        var elem := es[i];
        var port := Port16(Number(elem.sourcePort, t.atoi));
        if port > 0 {
          var err := forwarder.AddForwarding(elem.protocol, port, t.again.check(i), t.again.works(i));
          if err != Done {
            if err != AlreadyForwarded {
              elem := elem.(state := Failed);
            }
          } else {
            elem := elem.(state := Ready);
          }
        } else {
          elem := elem.(state := Unknown);
        }
        out := out + [elem];
        i := i + 1;
      }
    }

    method DropPorts(es: seq<ForwardedPort>, t: Turn, start: seq<ForwardedPort>) returns (out: seq<ForwardedPort>)
      requires Valid()
      modifies forwarder
      ensures Valid() && Progress(forwarder.Held(), out) == DropAll(Progress(old(forwarder.Held()), start), es, t, |es|)
    {
      hide Number, Port16;
      out := start;
      ghost var held := forwarder.Held();
      var i := 0;
      while i < |es|
        invariant 0 <= i <= |es| && Valid()
        invariant Progress(forwarder.Held(), out) == DropAll(Progress(held, start), es, t, i)
      {
        var elem := es[i];
        if Port16(Number(elem.sourcePort, t.atoi)) > 0 {
          var err := forwarder.RemoveForwarding(elem.protocol, Port16(elem.sourcePort.IntVal()), t.removes(i));
          if err != Done && err != NotForwarded {
            out := out + [elem.(state := Residual)];
          }
        }
        i := i + 1;
      }
    }

    method AddPorts(es: seq<ForwardedPort>, t: Turn, start: seq<ForwardedPort>) returns (out: seq<ForwardedPort>)
      requires Valid()
      modifies forwarder
      ensures Valid() && Progress(forwarder.Held(), out) == AddAll(Progress(old(forwarder.Held()), start), es, t, |es|)
    {
      hide Number, Port16;
      out := start;
      ghost var held := forwarder.Held();
      var i := 0;
      while i < |es|
        invariant 0 <= i <= |es| && Valid()
        invariant Progress(forwarder.Held(), out) == AddAll(Progress(held, start), es, t, i)
      {
        var elem := es[i];
        var err := forwarder.AddForwarding(elem.protocol, Port16(Number(elem.sourcePort, t.atoi)), t.adds.check(i), t.adds.works(i));
        if err != Done {
          elem := elem.(state := if err == AlreadyForwarded then Conflict else if err == InUse then Rejected else Failed);
        }
        out := out + [elem];
        i := i + 1;
      }
    }

    method RemovePorts(es: seq<ForwardedPort>, t: Turn) returns (out: seq<ForwardedPort>, failed: bool)
      requires Valid()
      modifies forwarder
      ensures Valid() && Removal(forwarder.Held(), out, failed) == RemoveAll(old(forwarder.Held()), es, t, |es|)
    {
      hide RemoveOne, RemoveReply, Number, Port16;
      out, failed := [], false;
      ghost var start := forwarder.Held();
      var i := 0;
      while i < |es|
        invariant 0 <= i <= |es| && Valid()
        invariant Removal(forwarder.Held(), out, failed) == RemoveAll(start, es, t, i) && !failed
      {
        var elem := es[i];
        ghost var before := Removal(forwarder.Held(), out, failed);
        RemoveSteps(before, elem, t.atoi, t.removes(i));
        assert RemoveAll(start, es, t, i + 1) == RemoveOne(before, elem, t.atoi, t.removes(i));
        var port := Port16(Number(elem.sourcePort, t.atoi));
        if port > 0 {
          var err := forwarder.RemoveForwarding(elem.protocol, port, t.removes(i));
          if err != Done && err != NotForwarded {
            failed := true;
            FailureStays(start, es, t, i + 1);
            return;
          }
          out := out + [ForwardedPort(elem.protocol, elem.sourcePort, [], 0, NoTarget)];
        }
        i := i + 1;
      }
    }

    method RemovePortForwarding(seen: seq<ForwardedPort>, t: Turn) returns (done: bool)
      requires Valid() && t.service.None?
      modifies this, forwarder
      ensures Valid() && State() == After(old(State()), seen, t, []) && done == Finished(Seen(old(State()), seen), t)
      ensures seen == [] ==> done && State() == old(State())
    {
      if seen == [] {
        return true;
      }
      var ports, failed := RemovePorts(seen, t);
      if failed {
        return false;
      }
      if t.patched {
        recorded := ports;
      }
      return t.patched;
    }

    method SyncPortForwarding(seen: seq<ForwardedPort>, t: Turn) returns (ghost deletions: seq<ForwardedPort>, done: bool)
      requires Valid()
      modifies this, forwarder
      ensures Valid() && Fits(seen, t, deletions)
      ensures State() == After(old(State()), seen, t, deletions) && done == Finished(Seen(old(State()), seen), t)
      ensures t.service.Some? ==> done == t.patched
      ensures !t.patched ==> recorded == old(recorded)
    {
      deletions := [];
      if t.service.None? {
        done := RemovePortForwarding(seen, t);
        return;
      }
      OwnStatus(name, seen);
      var additions, gone, kept, errors := SyncForwardingPorts([NodeStatus(name, seen)], name, t.spec, t.service.value, t.slices, t.rank);
      deletions := gone;
      var ports := KeepPorts(kept, t, errors);
      ports := DropPorts(gone, t, ports);
      ports := AddPorts(additions, t, ports);
      if t.patched {
        recorded := Ordered(ports, t.atoi);
      }
      return deletions, t.patched;
    }
  }

  lemma {:induction false} FailureStays(held: set<Listen>, es: seq<ForwardedPort>, t: Turn, i: nat)
    requires i <= |es| && RemoveAll(held, es, t, i).failed
    ensures RemoveAll(held, es, t, |es|) == RemoveAll(held, es, t, i)
    decreases |es| - i
  {
    if i < |es| {
      assert RemoveAll(held, es, t, i + 1) == RemoveAll(held, es, t, i);
      FailureStays(held, es, t, i + 1);
    }
  }

  lemma OwnStatus(name: string, recorded: seq<ForwardedPort>)
    ensures RecordedFor([NodeStatus(name, recorded)], name) == recorded
  {
    var own := [NodeStatus(name, recorded)];
    FirstIs(own, (s: NodeStatus) => s.node == name, 0);
  }

  // ----- Ready means held

  function ListenOf(e: ForwardedPort, atoi: string -> int): Listen {
    Listen(e.protocol, Port16(Number(e.sourcePort, atoi)))
  }

  predicate ReadyHeld(held: set<Listen>, entries: seq<ForwardedPort>, atoi: string -> int) {
    forall e :: e in entries && e.state == Ready ==> ListenOf(e, atoi) in held
  }

  /** An entry the guard may hold has a port number for a source port. */
  predicate Sane(e: ForwardedPort) {
    Checked(e.protocol) ==> e.sourcePort.FromInt? && 0 <= e.sourcePort.value < 0x1_0000
  }

  predicate AllSane(entries: seq<ForwardedPort>) {
    forall e :: e in entries ==> Sane(e)
  }

  predicate OnlyChecked(held: set<Listen>) {
    forall l :: l in held ==> Checked(l.protocol)
  }

  ghost predicate SaneTurn(t: Turn) {
    t.service.Some? ==> forall x :: x in WantedBy(t) && x.Some? ==> Sane(x.value)
  }

  lemma KeepOneReady(s: Progress, e: ForwardedPort, atoi: string -> int, check: Check, works: bool)
    requires ReadyHeld(s.held, s.out, atoi) && OnlyChecked(s.held)
    ensures var r := KeepOne(s, e, atoi, check, works); ReadyHeld(r.held, r.out, atoi) && OnlyChecked(r.held)
  {
  }

  lemma AddOneReady(s: Progress, e: ForwardedPort, atoi: string -> int, check: Check, works: bool)
    requires ReadyHeld(s.held, s.out, atoi) && OnlyChecked(s.held)
    ensures var r := AddOne(s, e, atoi, check, works); ReadyHeld(r.held, r.out, atoi) && OnlyChecked(r.held)
  {
  }

  lemma {:induction false} KeepAllReady(s: Progress, es: seq<ForwardedPort>, t: Turn, n: nat)
    requires n <= |es| && ReadyHeld(s.held, s.out, t.atoi) && OnlyChecked(s.held)
    ensures var r := KeepAll(s, es, t, n); ReadyHeld(r.held, r.out, t.atoi) && OnlyChecked(r.held)
  {
    hide ReadyHeld, OnlyChecked, KeepOne;
    if n > 0 {
      KeepAllReady(s, es, t, n - 1);
      KeepOneReady(KeepAll(s, es, t, n - 1), es[n - 1], t.atoi, t.again.check(n - 1), t.again.works(n - 1));
    }
  }

  lemma {:induction false} AddAllReady(s: Progress, es: seq<ForwardedPort>, t: Turn, n: nat)
    requires n <= |es| && ReadyHeld(s.held, s.out, t.atoi) && OnlyChecked(s.held)
    ensures var r := AddAll(s, es, t, n); ReadyHeld(r.held, r.out, t.atoi) && OnlyChecked(r.held)
  {
    hide ReadyHeld, OnlyChecked, AddOne;
    if n > 0 {
      AddAllReady(s, es, t, n - 1);
      AddOneReady(AddAll(s, es, t, n - 1), es[n - 1], t.atoi, t.adds.check(n - 1), t.adds.works(n - 1));
    }
  }

  predicate Spares(es: seq<ForwardedPort>, l: Listen) {
    forall e :: e in es ==> Listen(e.protocol, Port16(e.sourcePort.IntVal())) != l
  }

  /** Removals only take what they name. */
  lemma {:induction false} DropAllSpares(s: Progress, es: seq<ForwardedPort>, t: Turn, n: nat, l: Listen)
    requires n <= |es| && l in s.held && Spares(es, l)
    ensures l in DropAll(s, es, t, n).held
  {
    if n > 0 {
      DropAllSpares(s, es, t, n - 1, l);
      assert es[n - 1] in es;
    }
  }

  lemma {:induction false} DropAllOut(s: Progress, es: seq<ForwardedPort>, t: Turn, n: nat)
    requires n <= |es|
    ensures var r := DropAll(s, es, t, n);
            && (forall e :: e in r.out && e.state == Ready ==> e in s.out)
            && (OnlyChecked(s.held) ==> OnlyChecked(r.held)) && r.held <= s.held
  {
    if n > 0 {
      DropAllOut(s, es, t, n - 1);
    }
  }

  /** A kept entry and a deleted one never name the same port. */
  lemma DeletionsSpareKept(s: NodeState, t: Turn, deletions: seq<ForwardedPort>, e: ForwardedPort)
    requires t.service.Some? && Fits(s.recorded, t, deletions) && AllSane(s.recorded)
    requires e in Kept(WantedBy(t), BySource(s.recorded), |t.spec|) && Checked(e.protocol)
    ensures Spares(deletions, ListenOf(e, t.atoi))
  {
    hide Wants, Kept, BySource, Claimed, Owns, DistinctSources, Replaced, ElsewhereSourced, Lists;
    var w, rec := WantedBy(t), BySource(s.recorded);
    SplitUpTo(w, rec, |w|);
    DeletedAreRecorded(w, rec, deletions);
    assert rec[e.sourcePort] == e;
    KeptNotDeleted(w, rec, deletions, e);
    forall d | d in deletions ensures Listen(d.protocol, Port16(d.sourcePort.IntVal())) != ListenOf(e, t.atoi) {
      assert rec[d.sourcePort] == d && d.sourcePort != e.sourcePort;
      if d.protocol == e.protocol {
        assert Sane(d) && Sane(e);
      }
    }
  }

  lemma DeletedAreRecorded(w: Wanted, rec: map<IntOrString, ForwardedPort>, deletions: seq<ForwardedPort>)
    requires DiffOf(w, rec, deletions) && forall sp :: sp in rec ==> rec[sp].sourcePort == sp
    ensures forall d :: d in deletions ==> d.sourcePort in rec && rec[d.sourcePort] == d
  {
    hide Claimed, Owns;
    SplitUpTo(w, rec, |w|);
    var replaced := Replaced(w, rec, |w|);
    forall d | d in deletions ensures d.sourcePort in rec && rec[d.sourcePort] == d {
      if d !in replaced {
        assert d in deletions[|replaced|..];
      }
    }
  }

  lemma KeptNotDeleted(w: Wanted, rec: map<IntOrString, ForwardedPort>, deletions: seq<ForwardedPort>, e: ForwardedPort)
    requires DiffOf(w, rec, deletions) && (forall sp :: sp in rec ==> rec[sp].sourcePort == sp) && e in Kept(w, rec, |w|)
    ensures forall d :: d in deletions ==> d.sourcePort != e.sourcePort
  {
    hide Claimed, Owns;
    SplitUpTo(w, rec, |w|);
    var replaced := Replaced(w, rec, |w|);
    forall d | d in deletions ensures d.sourcePort != e.sourcePort {
      if d !in replaced {
        assert d in deletions[|replaced|..];
      }
    }
  }

  predicate SamePort(a: ForwardedPort, b: ForwardedPort) {
    a.protocol == b.protocol && a.sourcePort == b.sourcePort
  }

  lemma {:induction false} KeepAllOut(s: Progress, es: seq<ForwardedPort>, t: Turn, n: nat)
    requires n <= |es|
    ensures forall x :: x in KeepAll(s, es, t, n).out ==> x in s.out || exists e :: e in es && SamePort(x, e)
  {
    if n > 0 {
      KeepAllOut(s, es, t, n - 1);
      var r, r' := KeepAll(s, es, t, n - 1), KeepAll(s, es, t, n);
      assert r'.out == r.out + [r'.out[|r.out|]] && SamePort(r'.out[|r.out|], es[n - 1]) && es[n - 1] in es;
    }
  }

  lemma {:induction false} ErrorsFailed(spec: seq<PortSpec>, w: Wanted, n: nat)
    requires n <= |w| == |spec|
    ensures forall e :: e in Errors(spec, w, n) ==> e.state == Failed && e.protocol == NoProtocol
  {
    if n > 0 {
      ErrorsFailed(spec, w, n - 1);
    }
  }

  /** After the pass over a difference every entry marked ready is held. */
  lemma PassReady(s: NodeState, t: Turn, deletions: seq<ForwardedPort>)
    requires t.service.Some? && Fits(s.recorded, t, deletions) && AllSane(s.recorded) && OnlyChecked(s.held)
    ensures var p := Pass(s, t, deletions); ReadyHeld(p.held, p.out, t.atoi) && OnlyChecked(p.held)
  {
    hide Wants, Kept, BySource, Additions, Errors, KeepAll, DropAll, AddAll, Spares, Fits;
    var w, rec, n := WantedBy(t), BySource(s.recorded), |t.spec|;
    var kept, p0 := Kept(w, rec, n), Progress(s.held, Errors(t.spec, w, n));
    ErrorsFailed(t.spec, w, n);
    KeepAllReady(p0, kept, t, |kept|);
    KeepAllOut(p0, kept, t, |kept|);
    var p1 := KeepAll(p0, kept, t, |kept|);
    DropAllOut(p1, deletions, t, |deletions|);
    var p2 := DropAll(p1, deletions, t, |deletions|);
    forall x | x in p2.out && x.state == Ready ensures ListenOf(x, t.atoi) in p2.held {
      var e :| e in kept && SamePort(x, e);
      DeletionsSpareKept(s, t, deletions, e);
      DropAllSpares(p1, deletions, t, |deletions|, ListenOf(x, t.atoi));
    }
    AddAllReady(p2, Additions(w, rec, n), t, |Additions(w, rec, n)|);
  }

  lemma {:induction false} RemoveAllOut(held: set<Listen>, es: seq<ForwardedPort>, t: Turn, n: nat)
    requires n <= |es|
    ensures var r := RemoveAll(held, es, t, n);
            && r.held <= held
            && forall x :: x in r.out ==> x.state == NoTarget && exists e :: e in es && SamePort(x, e)
  {
    if n > 0 {
      RemoveAllOut(held, es, t, n - 1);
      assert es[n - 1] in es;
    }
  }

  lemma OrderedSame(out: seq<ForwardedPort>, atoi: string -> int)
    ensures forall e :: e in Ordered(out, atoi) <==> e in out
    ensures multiset(Ordered(out, atoi)) == multiset(out)
  {
    forall e ensures e in Ordered(out, atoi) <==> e in out {
      assert e in Ordered(out, atoi) <==> e in multiset(Ordered(out, atoi));
    }
  }

  /** After every turn that writes the status each entry marked ready is held by the guard, whatever
  record the turn had read, whatever is in force and whatever failed on the way. */
  lemma ReadyIsHeld(s: NodeState, seen: seq<ForwardedPort>, t: Turn, deletions: seq<ForwardedPort>)
    requires Fits(seen, t, deletions) && AllSane(seen) && OnlyChecked(s.held)
    requires Writes(Seen(s, seen), t)
    ensures var s' := After(s, seen, t, deletions); ReadyHeld(s'.held, s'.recorded, t.atoi)
  {
    hide Pass, RemoveAll, Ordered, Fits;
    if t.service.Some? {
      PassReady(Seen(s, seen), t, deletions);
      OrderedSame(Pass(Seen(s, seen), t, deletions).out, t.atoi);
    } else {
      RemoveAllOut(s.held, seen, t, |seen|);
    }
  }
}
