/** Deleting a resource while many nodes still forward its ports.

The API object is the sequence of its versions since the deletion was stamped.  Every read may return
any of them, a write succeeds only on top of the latest, and the nodes interleave freely.
*/
module Finalizer {
  import opened PortDiff
  import opened Guard
  import opened NodeSync
  import opened Tracking
  import opened Searching

  datatype Object = Object(statuses: seq<NodeStatus>, finalizer: bool)

  // ----- One node's entry

  predicate DistinctNames(statuses: seq<NodeStatus>) {
    forall i, j :: 0 <= i < j < |statuses| ==> statuses[i].node != statuses[j].node
  }

  predicate Mine(s: NodeStatus, node: string) {
    s.node == node && s.ports != []
  }

  /** What a node takes for its own recorded ports when it removes them. */
  function OwnPorts(statuses: seq<NodeStatus>, node: string): seq<ForwardedPort> {
    var i := First(statuses, (s: NodeStatus) => Mine(s, node));
    if i < |statuses| then statuses[i].ports else []
  }

  /** The statuses after one node's entry is overwritten, or appended. */
  function Patched(statuses: seq<NodeStatus>, node: string, ports: seq<ForwardedPort>): (r: seq<NodeStatus>)
    ensures |statuses| <= |r| <= |statuses| + 1
  {
    var i := First(statuses, (s: NodeStatus) => s.node == node);
    if i < |statuses| then statuses[i := NodeStatus(statuses[i].node, ports)] else statuses + [NodeStatus(node, ports)]
  }

  method PatchEntry(statuses: seq<NodeStatus>, node: string, ports: seq<ForwardedPort>) returns (r: seq<NodeStatus>)
    ensures r == Patched(statuses, node, ports)
    ensures forall x: nat :: x < |statuses| && statuses[x].node == node && (forall y :: 0 <= y < x ==> statuses[y].node != node) ==>
              r == statuses[..x] + [NodeStatus(node, ports)] + statuses[x + 1..]
    ensures (forall x :: 0 <= x < |statuses| ==> statuses[x].node != node) ==> r == statuses + [NodeStatus(node, ports)]
  {
    var index := -1;
    var i := 0;
    while i < |statuses| && index < 0
      invariant 0 <= i <= |statuses|
      invariant if index < 0 then forall x :: 0 <= x < i ==> statuses[x].node != node
                else index < |statuses| && statuses[index].node == node && forall x :: 0 <= x < index ==> statuses[x].node != node
      decreases |statuses| - i, index < 0
    {
      if statuses[i].node == node {
        index := i;
      } else {
        i := i + 1;
      }
    }
    FirstIs(statuses, (s: NodeStatus) => s.node == node, if index >= 0 then index else |statuses|);
    if index >= 0 {
      r := statuses[index := NodeStatus(statuses[index].node, ports)];
    } else {
      r := statuses + [NodeStatus(node, ports)];
    }
  }

  /** A patch sets the node's own entry and leaves the entry of every other node alone. */
  lemma PatchIsLocal(statuses: seq<NodeStatus>, node: string, ports: seq<ForwardedPort>, other: string)
    requires DistinctNames(statuses)
    ensures DistinctNames(Patched(statuses, node, ports))
    ensures OwnPorts(Patched(statuses, node, ports), other) == if other == node then ports else OwnPorts(statuses, other)
  {
    var i, r := First(statuses, (s: NodeStatus) => s.node == node), Patched(statuses, node, ports);
    var p, q := First(statuses, (s: NodeStatus) => Mine(s, other)), First(r, (s: NodeStatus) => Mine(s, other));
    if other == node {
      var at := if i < |statuses| then i else |statuses|;
      assert r[at] == NodeStatus(node, ports);
      if q < |r| {
        assert r[q].node == node;
        assert q == at;
      }
      if ports != [] {
        assert Mine(r[at], node);
      }
    } else {
      assert forall x :: 0 <= x < |statuses| ==> (Mine(statuses[x], other) <==> Mine(r[x], other));
      if p < |statuses| {
        FirstIs(r, (s: NodeStatus) => Mine(s, other), p);
      } else {
        FirstIs(r, (s: NodeStatus) => Mine(s, other), |r|);
      }
    }
  }

  predicate NothingRecorded(statuses: seq<NodeStatus>) {
    forall s :: s in statuses ==> s.ports == []
  }

  method StillRecorded(statuses: seq<NodeStatus>) returns (requeue: bool)
    ensures requeue <==> !NothingRecorded(statuses)
  {
    var i := 0;
    while i < |statuses|
      invariant 0 <= i <= |statuses|
      invariant forall x :: 0 <= x < i ==> statuses[x].ports == []
    {
      if |statuses[i].ports| != 0 {
        assert statuses[i] in statuses;
        return true;
      }
      i := i + 1;
    }
    return false;
  }

  lemma NothingMine(statuses: seq<NodeStatus>, node: string)
    requires NothingRecorded(statuses)
    ensures OwnPorts(statuses, node) == []
  {
  }

  // ----- The system

  /** Where a node is in its reconciliation; `snap` is the version it started from. */
  datatype Pc = Idle | Patching(snap: nat) | Writing(snap: nat, read: nat) | Finalizing(snap: nat) | Unfinalizing(snap: nat, read: nat)

  datatype System = System(history: seq<Object>, held: map<string, set<Listen>>, pcs: map<string, Pc>) {
    function Latest(): nat
      requires history != []
    {
      |history| - 1
    }
    function At(node: string, pc: Pc): System {
      this.(pcs := pcs[node := pc])
    }
  }

  /** A node's recorded ports in one version. */
  function Entry(history: seq<Object>, i: nat, node: string): seq<ForwardedPort>
    requires i < |history|
  {
    OwnPorts(history[i].statuses, node)
  }

  function LastEntry(history: seq<Object>, node: string): seq<ForwardedPort>
    requires history != []
  {
    Entry(history, |history| - 1, node)
  }

  predicate IsNode(s: System, node: string) {
    node in s.held && node in s.pcs
  }

  /** A node starts: it takes its own ports out of the guard and goes on to the patch, or straight on
  to the finalizer when it has none. */
  ghost predicate Start(s: System, s': System, node: string, snap: nat, t: Turn)
    requires s.history != []
  {
    && IsNode(s, node) && s.pcs[node] == Idle && snap < |s.history| && s.history[snap].finalizer
    && var own := Entry(s.history, snap, node);
       var r := RemoveAll(s.held[node], own, t, |own|);
       if own == [] then s' == s.At(node, Finalizing(snap))
       else s' == s.(held := s.held[node := r.held]).At(node, if r.failed then Idle else Patching(snap))
  }

  ghost predicate ReadForPatch(s: System, s': System, node: string, read: nat)
    requires s.history != []
  {
    && IsNode(s, node) && s.pcs[node].Patching? && read < |s.history|
    && s' == s.At(node, Writing(s.pcs[node].snap, read))
  }

  ghost predicate WritePatch(s: System, s': System, node: string)
    requires s.history != []
  {
    && IsNode(s, node) && s.pcs[node].Writing?
    && var pc := s.pcs[node];
       if pc.read == s.Latest() then
         s' == s.(history := s.history + [Object(Patched(s.history[pc.read].statuses, node, []), s.history[pc.read].finalizer)])
               .At(node, Finalizing(pc.snap))
       else s' == s.At(node, Patching(pc.snap))
  }

  /** The test is made on the version the node started from, not on the one just read. */
  ghost predicate ReadForFinalizer(s: System, s': System, node: string, read: nat)
    requires s.history != []
  {
    && IsNode(s, node) && s.pcs[node].Finalizing? && read < |s.history| && s.pcs[node].snap < |s.history|
    && s' == s.At(node,
                  if s.history[read].finalizer && NothingRecorded(s.history[s.pcs[node].snap].statuses) then Unfinalizing(s.pcs[node].snap, read)
                  else Idle)
  }

  ghost predicate RemoveFinalizer(s: System, s': System, node: string)
    requires s.history != []
  {
    && IsNode(s, node) && s.pcs[node].Unfinalizing?
    && var pc := s.pcs[node];
       if pc.read == s.Latest() then
         s' == s.(history := s.history + [s.history[pc.read].(finalizer := false)]).At(node, Idle)
       else s' == s.At(node, Finalizing(pc.snap))
  }

  /** A node gives up with an error. */
  ghost predicate GiveUp(s: System, s': System, node: string) {
    IsNode(s, node) && s' == s.At(node, Idle)
  }

  /** Somebody else writes the object without touching the recorded ports or this finalizer. */
  ghost predicate Foreign(s: System, s': System)
    requires s.history != []
  {
    s' == s.(history := s.history + [s.history[s.Latest()]])
  }

  ghost predicate Next(s: System, s': System)
    requires s.history != []
  {
    || (exists node, snap, t :: Start(s, s', node, snap, t))
    || (exists node, read :: ReadForPatch(s, s', node, read))
    || (exists node :: WritePatch(s, s', node))
    || (exists node, read :: ReadForFinalizer(s, s', node, read))
    || (exists node :: RemoveFinalizer(s, s', node))
    || (exists node :: GiveUp(s, s', node))
    || Foreign(s, s')
  }

  /** Deletion was just stamped and every earlier sync has finished in good order. */
  ghost predicate Init(s: System) {
    && |s.history| == 1 && s.history[0].finalizer && DistinctNames(s.history[0].statuses)
    && s.held.Keys == s.pcs.Keys
    && (forall node :: node in s.pcs ==> s.pcs[node] == Idle)
    && forall node :: node in s.held ==> Consistent(NodeState(s.held[node], Entry(s.history, 0, node)))
  }

  // ----- The invariant

  /** Recorded lists only go from what they were to empty. */
  ghost predicate Emptying(history: seq<Object>, node: string)
    requires history != []
  {
    && (forall i: nat :: i < |history| ==> Entry(history, i, node) == Entry(history, 0, node) || Entry(history, i, node) == [])
    && forall i: nat, j: nat :: i <= j < |history| && Entry(history, i, node) == [] ==> Entry(history, j, node) == []
  }

  ghost predicate Accounted(s: System, node: string)
    requires s.history != [] && IsNode(s, node)
  {
    && OnlyChecked(s.held[node]) && Covered(s.held[node], Entry(s.history, 0, node))
    && (s.held[node] != {} ==> Entry(s.history, s.Latest(), node) != [])
  }

  ghost predicate PcInv(s: System, node: string)
    requires s.history != [] && IsNode(s, node)
  {
    match s.pcs[node]
    case Idle => true
    case Patching(snap) => snap < |s.history| && s.held[node] == {}
    case Writing(snap, read) => snap < |s.history| && read < |s.history| && s.held[node] == {}
    case Finalizing(snap) => snap < |s.history| && LastEntry(s.history, node) == []
    case Unfinalizing(snap, read) =>
      snap < |s.history| && read < |s.history| && NothingRecorded(s.history[snap].statuses) && LastEntry(s.history, node) == []
  }

  ghost predicate Inv(s: System) {
    && s.history != [] && s.held.Keys == s.pcs.Keys
    && (forall i: nat :: i < |s.history| ==> DistinctNames(s.history[i].statuses))
    && (forall node :: Emptying(s.history, node))
    && (forall node :: node in s.held ==> AllProper(Entry(s.history, 0, node)) && DistinctSources(Entry(s.history, 0, node)))
    && (forall node :: node in s.held ==> Accounted(s, node) && PcInv(s, node))
    && forall i: nat :: i < |s.history| && !s.history[i].finalizer ==> forall node :: Entry(s.history, i, node) == []
  }

  lemma InitInv(s: System)
    requires Init(s)
    ensures Inv(s)
  {
    hide Covered, OwnPorts, DistinctSources, AllProper;
    forall node | node in s.held ensures Accounted(s, node) {
      assert Consistent(NodeState(s.held[node], Entry(s.history, 0, node)));
      if s.held[node] != {} {
        NothingUncovered(s.held[node], Entry(s.history, 0, node));
      }
    }
  }

  lemma NothingUncovered(held: set<Listen>, recorded: seq<ForwardedPort>)
    requires Covered(held, recorded) && held != {}
    ensures recorded != []
  {
    var l :| l in held;
  }

  /** A node that removed all its recorded ports without a failure holds nothing any more. */
  lemma NothingHeld(held: set<Listen>, own: seq<ForwardedPort>, t: Turn)
    requires OnlyChecked(held) && Covered(held, own) && AllProper(own) && DistinctSources(own) && !RemoveAll(held, own, t, |own|).failed
    ensures RemoveAll(held, own, t, |own|).held == {}
  {
    RemoveAllClears(held, own, t, |own|);
    forall l | l in held ensures l !in RemoveAll(held, own, t, |own|).held {
      var e :| e in own && e.protocol == l.protocol && e.sourcePort == FromInt(l.port);
      var j :| 0 <= j < |own| && own[j] == e;
      assert ListenOf(e, t.atoi) == l;
    }
  }

  /** A node may always hold less, if it is not counting on holding something. */
  lemma HoldLessInv(s: System, node: string, fewer: set<Listen>)
    requires Inv(s) && IsNode(s, node) && fewer <= s.held[node]
    ensures Inv(s.(held := s.held[node := fewer]))
  {
    hide Covered, OwnPorts, DistinctSources, AllProper, NothingRecorded, DistinctNames, Emptying, OnlyChecked;
    var s' := s.(held := s.held[node := fewer]);
    assert Accounted(s, node) && PcInv(s, node);
    FewerCovered(s.held[node], fewer, Entry(s.history, 0, node));
    forall n | n in s'.held ensures Accounted(s', n) && PcInv(s', n) {
      assert Accounted(s, n) && PcInv(s, n);
    }
  }

  lemma StartInv(s: System, s': System, node: string, snap: nat, t: Turn)
    requires Inv(s) && Start(s, s', node, snap, t)
    ensures Inv(s')
  {
    hide Covered, OwnPorts, DistinctSources, AllProper, RemoveAll, NothingRecorded, DistinctNames, OnlyChecked;
    var own := Entry(s.history, snap, node);
    if own == [] {
      assert Emptying(s.history, node);
      MoveInv(s, node, Finalizing(snap));
    } else {
      var r := RemoveAll(s.held[node], own, t, |own|);
      assert Emptying(s.history, node) && own == Entry(s.history, 0, node);
      assert Accounted(s, node);
      RemoveAllOut(s.held[node], own, t, |own|);
      HoldLessInv(s, node, r.held);
      if !r.failed {
        NothingHeld(s.held[node], own, t);
      }
      MoveInv(s.(held := s.held[node := r.held]), node, if r.failed then Idle else Patching(snap));
    }
  }

  lemma FewerCovered(held: set<Listen>, fewer: set<Listen>, recorded: seq<ForwardedPort>)
    requires Covered(held, recorded) && OnlyChecked(held) && fewer <= held
    ensures Covered(fewer, recorded) && OnlyChecked(fewer)
  {
  }

  /** Only the node's own program counter changes. */
  lemma MoveInv(s: System, node: string, pc: Pc)
    requires Inv(s) && IsNode(s, node)
    requires PcInv(s.At(node, pc), node)
    ensures Inv(s.At(node, pc))
  {
    hide Covered, OwnPorts, DistinctSources, AllProper, NothingRecorded, DistinctNames;
    var s' := s.At(node, pc);
    assert forall n :: n in s.held ==> Accounted(s, n) && PcInv(s, n);
    assert forall n :: n in s'.held ==> Accounted(s', n) && PcInv(s', n);
  }

  /** A new version in which every node's entry is what it was or, for nodes that hold nothing, empty. */
  lemma GrowInv(s: System, o: Object)
    requires Inv(s) && DistinctNames(o.statuses)
    requires forall node :: OwnPorts(o.statuses, node) == Entry(s.history, s.Latest(), node)
                            || (OwnPorts(o.statuses, node) == [] && (node in s.held ==> s.held[node] == {}))
    requires o.finalizer || forall node :: OwnPorts(o.statuses, node) == []
    ensures Inv(s.(history := s.history + [o]))
  {
    hide Covered, OwnPorts, DistinctSources, AllProper, NothingRecorded, DistinctNames;
    var s', n := s.(history := s.history + [o]), |s.history|;
    assert forall i: nat, node :: i < n ==> Entry(s'.history, i, node) == Entry(s.history, i, node);
    forall node ensures Emptying(s'.history, node) {
      assert Emptying(s.history, node);
    }
    forall node | node in s'.held ensures Accounted(s', node) && PcInv(s', node) {
      assert Accounted(s, node) && PcInv(s, node);
    }
  }

  lemma WritePatchInv(s: System, s': System, node: string)
    requires Inv(s) && WritePatch(s, s', node)
    ensures Inv(s')
  {
    hide OwnPorts, NothingRecorded, DistinctNames, Patched, Covered, Emptying, AllProper, DistinctSources;
    assert Accounted(s, node) && PcInv(s, node);
    var pc := s.pcs[node];
    if pc.read == s.Latest() {
      var latest := s.history[pc.read];
      var o := Object(Patched(latest.statuses, node, []), latest.finalizer);
      PatchIsLocal(latest.statuses, node, [], node);
      forall other ensures OwnPorts(o.statuses, other) == if other == node then [] else Entry(s.history, s.Latest(), other) {
        PatchIsLocal(latest.statuses, node, [], other);
      }
      assert !o.finalizer ==> forall other :: Entry(s.history, s.Latest(), other) == [];
      GrowInv(s, o);
      MoveInv(s.(history := s.history + [o]), node, Finalizing(pc.snap));
    } else {
      MoveInv(s, node, Patching(pc.snap));
    }
  }

  /** Where nothing was recorded once, nothing is recorded later and nothing is held. */
  lemma EmptyStaysEmpty(s: System, i: nat)
    requires Inv(s) && i < |s.history| && NothingRecorded(s.history[i].statuses)
    ensures forall j: nat, node :: i <= j < |s.history| ==> Entry(s.history, j, node) == []
    ensures forall node :: node in s.held ==> s.held[node] == {}
  {
    hide OwnPorts, NothingRecorded, DistinctNames, Covered, AllProper, DistinctSources;
    forall j: nat, node | i <= j < |s.history| ensures Entry(s.history, j, node) == [] {
      NothingMine(s.history[i].statuses, node);
      assert Emptying(s.history, node) && Entry(s.history, i, node) == [];
    }
    forall node | node in s.held ensures s.held[node] == {} {
      assert Accounted(s, node);
      assert Entry(s.history, s.Latest(), node) == [];
    }
  }

  lemma RemoveFinalizerInv(s: System, s': System, node: string)
    requires Inv(s) && RemoveFinalizer(s, s', node)
    ensures Inv(s')
  {
    hide OwnPorts, NothingRecorded, DistinctNames, Covered, Emptying, AllProper, DistinctSources;
    assert PcInv(s, node);
    var pc := s.pcs[node];
    if pc.read == s.Latest() {
      var o := s.history[pc.read].(finalizer := false);
      EmptyStaysEmpty(s, pc.snap);
      assert forall other :: OwnPorts(o.statuses, other) == Entry(s.history, s.Latest(), other);
      GrowInv(s, o);
      MoveInv(s.(history := s.history + [o]), node, Idle);
    } else {
      MoveInv(s, node, Finalizing(pc.snap));
    }
  }

  lemma ForeignInv(s: System, s': System)
    requires Inv(s) && Foreign(s, s')
    ensures Inv(s')
  {
    hide OwnPorts, NothingRecorded, DistinctNames, Covered, Emptying, AllProper, DistinctSources;
    var o := s.history[s.Latest()];
    assert forall other :: OwnPorts(o.statuses, other) == Entry(s.history, s.Latest(), other);
    GrowInv(s, o);
  }

  lemma NextInv(s: System, s': System)
    requires s.history != [] && Inv(s) && Next(s, s')
    ensures Inv(s')
  {
    hide Inv, Start, Foreign, RemoveFinalizer, WritePatch, RemoveAll, NothingRecorded;
    if node, snap, t :| Start(s, s', node, snap, t) {
      StartInv(s, s', node, snap, t);
    } else if node, read :| ReadForPatch(s, s', node, read) {
      ReadInv(s, s', node, read);
    } else if node :| WritePatch(s, s', node) {
      WritePatchInv(s, s', node);
    } else if node, read :| ReadForFinalizer(s, s', node, read) {
      ReadInv(s, s', node, read);
    } else if node :| RemoveFinalizer(s, s', node) {
      RemoveFinalizerInv(s, s', node);
    } else if node :| GiveUp(s, s', node) {
      MoveInv(s, node, Idle);
    } else {
      ForeignInv(s, s');
    }
  }

  lemma ReadInv(s: System, s': System, node: string, read: nat)
    requires Inv(s) && (ReadForPatch(s, s', node, read) || ReadForFinalizer(s, s', node, read))
    ensures Inv(s')
  {
    hide OwnPorts, NothingRecorded, DistinctNames, Covered, Emptying, AllProper, DistinctSources;
    assert PcInv(s, node);
    MoveInv(s, node, s'.pcs[node]);
  }

  // ----- Safety

  ghost predicate Run(states: seq<System>) {
    && states != [] && Init(states[0])
    && forall i: nat :: i + 1 < |states| ==> Steps(states, i)
  }

  ghost predicate Steps(states: seq<System>, i: nat)
    requires i + 1 < |states|
  {
    states[i].history != [] && Next(states[i], states[i + 1])
  }

  lemma {:induction false} RunInv(states: seq<System>, i: nat)
    requires Run(states) && i < |states|
    ensures Inv(states[i])
  {
    hide Init, Next, Inv;
    if i == 0 {
      InitInv(states[0]);
    } else {
      RunInv(states, i - 1);
      assert Steps(states, i - 1);
      NextInv(states[i - 1], states[i]);
    }
  }

  /** However the nodes interleave and however stale their reads are: once some version is without the
  finalizer, no node holds a port. */
  lemma FinalizerGoneNothingHeld(states: seq<System>, i: nat, v: nat)
    requires Run(states) && i < |states| && v < |states[i].history| && !states[i].history[v].finalizer
    ensures forall node :: node in states[i].held ==> states[i].held[node] == {}
    ensures forall w: nat, node :: v <= w < |states[i].history| ==> Entry(states[i].history, w, node) == []
  {
    hide Run, OwnPorts, Covered;
    var s := states[i];
    RunInv(states, i);
    forall w: nat, node | v <= w < |s.history| ensures Entry(s.history, w, node) == [] {
      assert Emptying(s.history, node) && Entry(s.history, v, node) == [];
    }
    forall node | node in s.held ensures s.held[node] == {} {
      assert Accounted(s, node) && Entry(s.history, s.Latest(), node) == [];
    }
  }

  /** A node turns to the finalizer only once it holds nothing and its entry in the latest version is empty. */
  lemma EmptyBeforeFinalizer(states: seq<System>, i: nat, node: string)
    requires Run(states) && i < |states| && IsNode(states[i], node) && (states[i].pcs[node].Finalizing? || states[i].pcs[node].Unfinalizing?)
    ensures states[i].history != [] && states[i].held[node] == {} && LastEntry(states[i].history, node) == []
  {
    hide Run, OwnPorts, Covered;
    RunInv(states, i);
    assert Accounted(states[i], node) && PcInv(states[i], node);
  }

  /** The test on a stale snapshot is safe: if nothing was recorded in any earlier version, nothing
  has been recorded since and no node holds a port. */
  lemma StaleSnapshotIsSafe(states: seq<System>, i: nat, snap: nat)
    requires Run(states) && i < |states| && snap < |states[i].history| && NothingRecorded(states[i].history[snap].statuses)
    ensures forall node :: node in states[i].held ==> states[i].held[node] == {}
    ensures forall w: nat, node :: snap <= w < |states[i].history| ==> Entry(states[i].history, w, node) == []
  {
    hide Run, Inv;
    RunInv(states, i);
    EmptyStaysEmpty(states[i], snap);
  }

  /** No step of the system loses or changes another node's entry: in a new version every node has
  the entry it had, except the one node that wrote its own empty list. */
  lemma StepsKeepOthersEntries(states: seq<System>, i: nat) returns (writer: string)
    requires Run(states) && i + 1 < |states|
    ensures var h, h' := states[i].history, states[i + 1].history;
            && 0 < |h| <= |h'| <= |h| + 1 && h <= h'
            && (forall other :: other != writer ==> LastEntry(h', other) == LastEntry(h, other))
            && (LastEntry(h', writer) == LastEntry(h, writer) || LastEntry(h', writer) == [])
  {
    hide Run, OwnPorts, Patched, DistinctNames, RemoveAll, NothingRecorded;
    var s, s' := states[i], states[i + 1];
    RunInv(states, i);
    StepOf(states, i);
    writer := "";
    if node :| WritePatch(s, s', node) {
      writer := node;
      var pc := s.pcs[node];
      if pc.read == s.Latest() {
        forall other ensures OwnPorts(Patched(s.history[pc.read].statuses, node, []), other)
                             == if other == node then [] else OwnPorts(s.history[pc.read].statuses, other) {
          PatchIsLocal(s.history[pc.read].statuses, node, [], other);
        }
      }
    }
  }

  lemma StepOf(states: seq<System>, i: nat)
    requires Run(states) && i + 1 < |states|
    ensures states[i].history != [] && Next(states[i], states[i + 1])
  {
    assert Steps(states, i);
  }
}
