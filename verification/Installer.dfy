/** Starting an instance, and adding and removing forwardings while it runs.

The four regular chains hold the rules of the installed forwardings, in order.  Each of the four
mutations of a call reads the ruleset afresh and is flushed before the next one.  Cleaning up passes
over a hook without a base chain.
*/
module Installer {
  import opened Encoding
  import opened Conditions
  import opened RuleCache
  import opened Kernels
  import opened Mutations
  import opened Searching
  import opened Forwardings
  import opened Meaning
  import opened Startup
  import Userdata
  import F = Foundation
  import T = Teardown

  /** Position of the first forwarding's rule. */
  function Offset(hook: Hook): nat {
    if hook.Forward? then 1 else 0
  }

  // ----- Which rules a forwarding's condition recognises

  lemma {:induction false} TotalLength(cs: seq<Condition>)
    ensures |BuiltAll(cs)| == if cs == [] then 0 else |Built(cs[0])| + |BuiltAll(cs[1..])|
  {
  }

  /** The length of what five or six members build, its last expression and its fifth. */
  lemma JoinedShape(cs: seq<Condition>)
    requires 5 <= |cs| <= 6 && |Built(cs[|cs| - 1])| > 0 && |Built(cs[2])| > 0
    ensures |BuiltAll(cs)| == |Built(cs[0])| + |Built(cs[1])| + |Built(cs[2])| + |Built(cs[3])| + |Built(cs[4])|
                              + (if |cs| == 6 then |Built(cs[5])| else 0)
    ensures BuiltAll(cs)[|BuiltAll(cs)| - 1] in Built(cs[|cs| - 1])
    ensures |Built(cs[0])| + |Built(cs[1])| == 4 ==> BuiltAll(cs)[4] in Built(cs[2])
  {
    hide Built, BuiltAll;
    var n := |cs| - 1;
    TotalLength(cs);
    TotalLength(cs[1..]);
    TotalLength(cs[2..]);
    TotalLength(cs[3..]);
    TotalLength(cs[4..]);
    TotalLength(cs[5..]);
    TotalLength([]);
    assert cs[|cs|..] == [];
    BuiltAllSplit(cs, n);
    assert cs[n + 1..] == [];
    BuiltAllSplit(cs, 2);
    TotalLength(cs[..2]);
    TotalLength(cs[..2][1..]);
    assert cs[..2][1..] == [cs[1]] && [cs[1]][1..] == [];
    TotalLength([cs[1]]);
  }

  /** A member other than a counter builds no counter. */
  lemma MemberShape(c: Condition)
    requires !c.Combine? && (c.DestinationIp? ==> !c.target.LoadBalancing?)
    ensures !c.Counter? ==> forall e :: e in Built(c) ==> !e.Counter?
    ensures if c.DestinationNat? then 3 <= |Built(c)| <= 4 else |Built(c)| == Width(c)
  {
    if c.DestinationNat? {
      assert |BuiltDynamic(c.target, 1)| <= 2;
    }
  }

  lemma RuleShape(instance: string, f: Forwarding, hook: Hook, id: uint32)
    requires Valid(f)
    ensures var exprs := RuleExprs(instance, f, hook, id);
            && 10 <= |exprs| <= 11 && !exprs[|exprs| - 1].Counter? && (|exprs| == 11 ==> !exprs[10].Counter?)
            && (hook.Forward? ==> |exprs| == 10 && !exprs[4].Counter?)
  {
    hide Built, BuiltAll, Outgoing, Incoming, ProtoByte;
    var cs := RuleCondition(instance, f, hook, id).conditions;
    IncomingPlain(instance, f, hook, id);
    MemberShape(cs[0]);
    MemberShape(cs[1]);
    MemberShape(cs[2]);
    MemberShape(cs[3]);
    MemberShape(cs[4]);
    MemberShape(cs[|cs| - 1]);
    CombineBuilds(cs);
    JoinedShape(cs);
    match hook {
      case Prerouting => assert |BuiltAll(cs)| == 7 + |Built(cs[4])|;
      case Postrouting => assert |BuiltAll(cs)| == 10;
      case Forward => assert |BuiltAll(cs)| == 10;
      case Output => assert |BuiltAll(cs)| == 7 + |Built(cs[4])|;
    }
  }

  lemma CombineBuilds(cs: seq<Condition>)
    ensures Built(Combine(cs)) == BuiltAll(cs)
  {
  }

  lemma EstablishedIgnored(instance: string, f: Forwarding, id: uint32)
    requires Valid(f)
    ensures FlatMatch(RuleExprs(instance, f, Forward, id), Built(EstablishedRule)) == Matched(0)
  {
    RuleShape(instance, f, Forward, id);
    PeelBuilt(EstablishedRule.conditions);
    PeelBuilt(EstablishedRule.conditions[1..]);
    assert BuiltAll(EstablishedRule.conditions[2..]) == [];
    assert |Built(EstablishedRule)| == 4;
  }

  lemma RecognitionAt(instance: string, fs: seq<Forwarding>, ids: seq<Ids>, hook: Hook, g: Forwarding, id: uint32, rules: seq<Rule>, i: nat)
    requires |fs| == |ids| && AllValid(fs) && Valid(g) && ExprsOf(rules) == Regular(instance, fs, ids, hook) && i < |fs|
    ensures |rules| == Offset(hook) + |fs|
    ensures var cond, r := RuleCondition(instance, g, hook, id), rules[Offset(hook) + i];
            (Recognised(cond, r.exprs) <==> SameRule(g, fs[i], hook)) && !Panics(cond, r.exprs)
  {
    hide RuleCondition, Built, SameRule, FlatMatch;
    var off, all := Offset(hook), Regular(instance, fs, ids, hook);
    assert rules[off + i].exprs == ExprsOf(rules)[off + i] == all[off + i] == RuleList(instance, fs, ids, hook)[i];
    RecognisesExactly(instance, hook, g, id, fs[i], ids[i].For(hook));
    RuleShape(instance, g, hook, id);
    RuleShape(instance, fs[i], hook, ids[i].For(hook));
    NoPanicOnLong(RuleExprs(instance, g, hook, id), RuleExprs(instance, fs[i], hook, ids[i].For(hook)));
  }

  lemma RecognitionEstablished(instance: string, fs: seq<Forwarding>, ids: seq<Ids>, g: Forwarding, id: uint32, rules: seq<Rule>)
    requires |fs| == |ids| && Valid(g) && ExprsOf(rules) == Regular(instance, fs, ids, Forward)
    ensures var cond := RuleCondition(instance, g, Forward, id);
            |rules| > 0 && !Recognised(cond, rules[0].exprs) && !Panics(cond, rules[0].exprs)
  {
    hide RuleCondition, Built, FlatMatch;
    EstablishedIgnored(instance, g, id);
    EstablishedHasRules();
    assert rules[0].exprs == ExprsOf(rules)[0] == Regular(instance, fs, ids, Forward)[0] == Built(EstablishedRule);
  }

  /** Among the rules of the installed forwardings a condition recognises exactly those of
  forwardings that share its rule, and it never panics on any of them. */
  lemma Recognition(instance: string, fs: seq<Forwarding>, ids: seq<Ids>, hook: Hook, g: Forwarding, id: uint32, rules: seq<Rule>)
    requires |fs| == |ids| && AllValid(fs) && Valid(g) && ExprsOf(rules) == Regular(instance, fs, ids, hook)
    ensures |rules| == Offset(hook) + |fs|
    ensures forall i :: 0 <= i < |fs| ==>
              (Recognised(RuleCondition(instance, g, hook, id), rules[Offset(hook) + i].exprs) <==> SameRule(g, fs[i], hook))
    ensures hook.Forward? ==> !Recognised(RuleCondition(instance, g, hook, id), rules[0].exprs)
    ensures forall r :: r in rules ==> !Panics(RuleCondition(instance, g, hook, id), r.exprs)
  {
    hide RuleCondition, SameRule, Recognised, Panics;
    assert |rules| == |ExprsOf(rules)| == Offset(hook) + |fs|;
    forall i | 0 <= i < |fs|
      ensures var cond, r := RuleCondition(instance, g, hook, id), rules[Offset(hook) + i];
              (Recognised(cond, r.exprs) <==> SameRule(g, fs[i], hook)) && !Panics(cond, r.exprs)
    {
      RecognitionAt(instance, fs, ids, hook, g, id, rules, i);
    }
    if hook.Forward? {
      RecognitionEstablished(instance, fs, ids, g, id, rules);
    }
    forall r | r in rules ensures !Panics(RuleCondition(instance, g, hook, id), r.exprs) {
      var x :| 0 <= x < |rules| && rules[x] == r;
      if x >= Offset(hook) {
        RecognitionAt(instance, fs, ids, hook, g, id, rules, x - Offset(hook));
      }
    }
  }

  lemma EstablishedHasRules()
    ensures Built(EstablishedRule) != []
  {
    PeelBuilt(EstablishedRule.conditions);
  }

  lemma NoPanicOnLong(want: Exprs, have: Exprs)
    requires |have| >= 10 && 10 <= |want| <= 11 && (|want| == 11 ==> !want[10].Counter?)
    ensures FlatMatch(want, have) != OutOfRange
  {
  }

  // ----- Rules of forwardings do not jump

  predicate Plain(exprs: Exprs) {
    forall e :: e in exprs ==> !F.IsJump(e)
  }

  lemma {:induction false} PlainMembers(cs: seq<Condition>)
    requires forall c :: c in cs ==> !c.Combine? && !c.Jump?
    ensures Plain(BuiltAll(cs))
  {
    if cs != [] {
      PlainMember(cs[0]);
      PlainMembers(cs[1..]);
    }
  }

  lemma PlainMember(c: Condition)
    requires !c.Combine? && !c.Jump?
    ensures Plain(Built(c))
  {
  }

  lemma PlainRule(instance: string, f: Forwarding, hook: Hook, id: uint32)
    ensures Plain(RuleExprs(instance, f, hook, id))
  {
    hide Built, BuiltAll, Outgoing, Incoming, ProtoByte;
    var cs := RuleCondition(instance, f, hook, id).conditions;
    PlainMembers(cs);
    CombineBuilds(cs);
  }

  // ----- The state of an instance

  /** The ruleset after one mutation of `AddForwarding`. */
  function PresentedOn(k: Kernel, instance: string, tables: Tables, hook: Hook, f: Forwarding, id: uint32, comment: Bytes): Kernel {
    var k1 := if |f.targets| == 1 then k
              else k.(sets := k.sets[InternalName(instance, f.from, hook) := SetElements(f, hook)]);
    Apply(k1, AddRule(tables.For(hook), NameOf(instance, hook), RuleExprs(instance, f, hook, id), false, Userdata.Stored(comment)))
  }

  /** The ruleset after the first `n` mutations of `AddForwarding`. */
  function Added(k: Kernel, instance: string, tables: Tables, f: Forwarding, ids: Ids, comment: Bytes, n: nat): Kernel
    requires n <= 4
  {
    if n == 0 then k
    else PresentedOn(Added(k, instance, tables, f, ids, comment, n - 1), instance, tables, HOOKS[n - 1], f, ids.For(HOOKS[n - 1]), comment)
  }

  /** The ruleset after one mutation of `RemoveForwarding`. */
  function RemovedOn(k: Kernel, instance: string, tables: Tables, hook: Hook, g: Forwarding, id: uint32): Kernel {
    if Based(k, hook) then Without(k, ChainOf(instance, tables, hook), RuleCondition(instance, g, hook, id)) else k
  }

  function Removed(k: Kernel, instance: string, tables: Tables, g: Forwarding, ids: Ids, n: nat): Kernel
    requires n <= 4
  {
    if n == 0 then k
    else RemovedOn(Removed(k, instance, tables, g, ids, n - 1), instance, tables, HOOKS[n - 1], g, ids.For(HOOKS[n - 1]))
  }

  /** No installed forwarding has this protocol and host port. */
  predicate Unused(fs: seq<Forwarding>, f: Forwarding) {
    forall i :: 0 <= i < |fs| ==> fs[i].proto != f.proto || fs[i].from != f.from
  }

  lemma BatchPresents(k: Kernel, instance: string, tables: Tables, hook: Hook, f: Forwarding, id: uint32, comment: Bytes,
                      table: seq<Command>, sets: seq<Command>)
    requires table == [] || table == [AddTable(tables.For(hook))]
    requires sets == if |f.targets| == 1 then [] else [AddSet(tables.For(hook), id, InternalName(instance, f.from, hook), SetElements(f, hook))]
    ensures var add := AddRule(tables.For(hook), NameOf(instance, hook), RuleExprs(instance, f, hook, id), false, Userdata.Stored(comment));
            ApplyAll(k, table + sets + [add]) == PresentedOn(k, instance, tables, hook, f, id, comment)
  {
    hide RuleExprs, InternalName, SetElements, NameOf;
    var add := AddRule(tables.For(hook), NameOf(instance, hook), RuleExprs(instance, f, hook, id), false, Userdata.Stored(comment));
    ApplyConcat(k, table + sets, [add]);
    ApplyConcat(k, table, sets);
    ApplyOne(k, AddTable(tables.For(hook)));
    ApplyOne(k, AddSet(tables.For(hook), id, InternalName(instance, f.from, hook), SetElements(f, hook)));
    ApplyOne(ApplyAll(k, sets), add);
  }

  lemma BatchAccepted(k: Kernel, instance: string, tables: Tables, hook: Hook, f: Forwarding, id: uint32, comment: Bytes,
                      table: seq<Command>, sets: seq<Command>)
    requires table == [] || table == [AddTable(tables.For(hook))]
    requires sets == if |f.targets| == 1 then [] else [AddSet(tables.For(hook), id, InternalName(instance, f.from, hook), SetElements(f, hook))]
    requires ChainOf(instance, tables, hook) in k.rules
    ensures var add := AddRule(tables.For(hook), NameOf(instance, hook), RuleExprs(instance, f, hook, id), false, Userdata.Stored(comment));
            F.Accepted(k, table + sets + [add])
  {
    hide RuleExprs, InternalName, SetElements, NameOf;
    var add := AddRule(tables.For(hook), NameOf(instance, hook), RuleExprs(instance, f, hook, id), false, Userdata.Stored(comment));
    var k1 := ApplyAll(k, sets);
    ApplyOne(k, AddTable(tables.For(hook)));
    ApplyOne(k, AddSet(tables.For(hook), id, InternalName(instance, f.from, hook), SetElements(f, hook)));
    F.AcceptedOne(k, AddTable(tables.For(hook)));
    F.AcceptedOne(k, AddSet(tables.For(hook), id, InternalName(instance, f.from, hook), SetElements(f, hook)));
    assert F.Admits(k1, add) by {
      PlainRule(instance, f, hook, id);
    }
    F.AcceptedOne(k1, add);
    F.AcceptedConcat(k, table, sets);
    F.AcceptedConcat(k, table + sets, [add]);
    ApplyConcat(k, table, sets);
  }

  class NfTables {
    const instance: string
    ghost const tables: Tables
    const name: Bytes      // the instance name, as comment of the structure's rules
    var started: bool
    var kernel: Kernel

    constructor (instance: string, ghost tables: Tables, name: Bytes, kernel: Kernel)
      ensures this.instance == instance && this.tables == tables && this.name == name
      ensures !started && this.kernel == kernel
    {
      this.instance, this.tables, this.name, this.started, this.kernel := instance, tables, name, false, kernel;
    }

    /** Cleans up the structure at the four hooks. */
    method Close()
      requires Restartable(kernel, instance, tables)
      modifies this`kernel
      ensures kernel == Cleared(old(kernel), instance, tables, 4)
    {
      hide T.CleanedUp, F.Accepted, F.Sound, F.Ready, T.OnlyOwnJumps, T.CleanUpBatch, F.Sane, WellFormed;
      ghost var k := kernel;
      var i := 0;
      while i < |HOOKS|
        invariant 0 <= i <= |HOOKS|
        invariant kernel == Cleared(k, instance, tables, i)
      {
        ClearedChains(k, instance, tables, i);
        ReadyAt(kernel, instance, tables, HOOKS[i]);
        FoundSite(kernel, instance, tables, HOOKS[i]);
        T.CleanUpReached(kernel, instance, SiteOf(instance, tables, HOOKS[i]));
        var queued := T.CleanUpFoundation(kernel, instance, SiteIn(kernel, instance, HOOKS[i]));
        kernel := F.Flushed(kernel, queued);
        i := i + 1;
      }
    }

    /** Clears what an earlier run left behind, then presents the structure at the four hooks. */
    method Start()
      requires Restartable(kernel, instance, tables)
      modifies this`kernel
      ensures kernel == Started(old(kernel), instance, tables, Userdata.Stored(name))
    {
      hide F.Presented, T.Removable, F.Accepted, F.Sound, T.OnlyOwnJumps, Cleared, Userdata.Stored, F.PresentBatch, F.Ready, F.Sane, WellFormed;
      ClearedChains(kernel, instance, tables, 4);
      Close();
      ghost var k, comment := kernel, Userdata.Stored(name);
      var i := 0;
      while i < |HOOKS|
        invariant 0 <= i <= |HOOKS|
        invariant kernel == Laid(k, instance, tables, comment, i)
      {
        LaidChains(k, instance, tables, comment, i);
        ReadyAt(kernel, instance, tables, HOOKS[i]);
        FoundSite(kernel, instance, tables, HOOKS[i]);
        F.PresentReached(kernel, instance, SiteOf(instance, tables, HOOKS[i]), comment);
        var table := FindTable(kernel, HOOKS[i]);
        var site := F.Site(HookNumber(HOOKS[i]), table, BaseName(HOOKS[i]), NameOf(instance, HOOKS[i]), HOOKS[i].Forward?);
        assert site == SiteIn(kernel, instance, HOOKS[i]);
        var queued := F.PresentFoundation(kernel, instance, site, name);
        kernel := F.Flushed(kernel, queued);
        i := i + 1;
      }
    }

    /** The ruleset the next addition works on: the first one starts the instance. */
    ghost function Opened(): Kernel
      reads this
    {
      if started then kernel else Started(kernel, instance, tables, Userdata.Stored(name))
    }

    /** One mutation of `AddForwarding`: fresh reader/writer, table, set, rule, flush. */
    method PresentOn(hook: Hook, f: Forwarding, id: uint32, comment: Bytes, ghost fs: seq<Forwarding>, ghost ids: seq<Ids>)
      requires Valid(f) && Unused(fs, f) && |fs| == |ids| && AllValid(fs) && WellFormed(kernel)
      requires ChainHolds(kernel, instance, tables, fs, ids, hook) && InTable(kernel, tables, hook)
      modifies this`kernel
      ensures kernel == PresentedOn(old(kernel), instance, tables, hook, f, id, comment)
    {
      hide RuleCondition, Built, Recognised, Panics, Solid, Fetched, SameRule, Selector, InternalName, SetElements, PresentedOn, First, NoPanic,
        NameOf, ChainHolds, WellFormed, F.Accepted, GroupTable, InTable;
      FoundTable(kernel, tables, hook);
      var table := FindTable(kernel, hook);
      var chain, cond := NameOf(instance, hook), RuleCondition(instance, f, hook, id);
      ghost var s, m := Fetched(kernel, instance), Selector(FAMILY, table, chain, cond);
      RuleConditionSolid(instance, f, hook, id);
      NotYetThere(kernel, instance, tables, fs, ids, hook, f, id);
      var rw := Refresh(kernel, instance);
      if !Based(kernel, hook) {
        rw.queued := rw.queued + [AddTable(table)];
      }
      ghost var before := rw.queued;
      if |f.targets| != 1 {
        rw.queued := rw.queued + [AddSet(table, id, InternalName(instance, f.from, hook), SetElements(f, hook))];
      }
      ghost var sets := rw.queued[|before|..];
      assert rw.queued == before + sets;
      PresentRule(rw, table, chain, cond, false, comment);
      assert rw.queued == before + sets + [AddRule(table, chain, Built(cond), false, Userdata.Stored(comment))];
      BatchPresents(kernel, instance, tables, hook, f, id, comment, before, sets);
      ChainIsThere(kernel, instance, tables, fs, ids, hook);
      BatchAccepted(kernel, instance, tables, hook, f, id, comment, before, sets);
      kernel := F.Flushed(kernel, rw.queued);
    }

    /** Starts the instance if this is the first addition, then adds the forwarding at the four hooks. */
    method AddForwarding(f: Forwarding, draw: Ids, comment: Bytes, ghost fs: seq<Forwarding>, ghost ids: seq<Ids>)
      requires !started ==> Restartable(kernel, instance, tables)
      requires Carries(Opened(), instance, tables, fs, ids) && Valid(f) && Unused(fs, f)
      modifies this
      ensures started && kernel == Added(old(Opened()), instance, tables, f, draw, comment, 4)
    {
      hide PresentedOn, ChainHolds, WellFormed, Started, Restartable, InTable, AllValid, Distinct, Unused, Valid, Extended, Userdata.Stored;
      if !started {
        started := true;
        Start();
      }
      ghost var k := kernel;
      var i := 0;
      while i < |HOOKS|
        invariant 0 <= i <= |HOOKS| && started
        invariant kernel == Added(k, instance, tables, f, draw, comment, i)
      {
        AddedChains(k, instance, tables, f, draw, comment, i, fs, ids);
        PresentOn(HOOKS[i], f, draw.For(HOOKS[i]), comment, fs, ids);
        i := i + 1;
      }
    }

    /** One mutation of `RemoveForwarding`: nothing without a base chain. */
    method CleanUpOn(hook: Hook, g: Forwarding, id: uint32, ghost fs: seq<Forwarding>, ghost ids: seq<Ids>)
      requires Valid(g) && |fs| == |ids| && AllValid(fs) && Distinct(fs) && WellFormed(kernel)
      requires ChainMissing(kernel, instance, tables, hook) || ChainHolds(kernel, instance, tables, fs, ids, hook)
      requires InTable(kernel, tables, hook)
      modifies this`kernel
      ensures kernel == RemovedOn(old(kernel), instance, tables, hook, g, id)
    {
      hide RuleCondition, Built, Recognised, Panics, Solid, Fetched, SameRule, Selector, InternalName, SetElements, Keep, CleaningUp, Remains,
        ChainHolds, ChainMissing, WellFormed, Without, F.Accepted, GroupTable, InTable;
      var rw := Refresh(kernel, instance);
      if !Based(kernel, hook) {
        return;
      }
      FoundTable(kernel, tables, hook);
      var table, chain, cond := GroupTable(kernel, hook), NameOf(instance, hook), RuleCondition(instance, g, hook, id);
      RuleConditionSolid(instance, g, hook, id);
      if ChainMissing(kernel, instance, tables, hook) {
        NothingToRemove(kernel, instance, tables, hook, g, id);
      } else {
        CleanUpIsSafe(kernel, instance, tables, fs, ids, hook, g, id);
      }
      ghost var batch := CleaningUp(rw.Rules(), ChainOf(instance, tables, hook), cond);
      CleanUpRule(rw, table, chain, cond);
      assert rw.queued == [] + batch == batch;
      if ChainMissing(kernel, instance, tables, hook) {
        NothingRemoved(kernel, instance, tables, hook, g, id);
      } else {
        CleanUpRemoves(kernel, instance, tables, fs, ids, hook, g, id);
      }
      kernel := F.Flushed(kernel, rw.queued);
    }

    /** Removes the forwarding at the four hooks; regular chains that are not there are passed over. */
    method RemoveForwarding(g: Forwarding, draw: Ids, ghost fs: seq<Forwarding>, ghost ids: seq<Ids>)
      requires Valid(g) && |fs| == |ids| && AllValid(fs) && Distinct(fs) && WellFormed(kernel)
      requires forall hook :: ChainMissing(kernel, instance, tables, hook) || ChainHolds(kernel, instance, tables, fs, ids, hook)
      requires forall hook :: InTable(kernel, tables, hook)
      modifies this`kernel
      ensures kernel == Removed(old(kernel), instance, tables, g, draw, 4)
    {
      hide RemovedOn, ChainHolds, ChainMissing, WellFormed, InTable, AllValid, Distinct, Valid;
      ghost var k := kernel;
      var i := 0;
      while i < |HOOKS|
        invariant 0 <= i <= |HOOKS|
        invariant kernel == Removed(k, instance, tables, g, draw, i)
      {
        RemovedLeaves(k, instance, tables, g, draw, i);
        StillThere(k, kernel, instance, tables, fs, ids, HOOKS[i]);
        CleanUpOn(HOOKS[i], g, draw.For(HOOKS[i]), fs, ids);
        i := i + 1;
      }
    }
  }

  /** The site of a hook as a mutation makes it out. */
  function SiteIn(k: Kernel, instance: string, hook: Hook): F.Site {
    F.Site(HookNumber(hook), GroupTable(k, hook), BaseName(hook), NameOf(instance, hook), hook.Forward?)
  }

  lemma FoundSite(k: Kernel, instance: string, tables: Tables, hook: Hook)
    requires Restartable(k, instance, tables)
    ensures SiteIn(k, instance, hook) == SiteOf(instance, tables, hook)
  {
    hide Restartable, InTable, NameOf, GroupTable;
    RestartableInTable(k, instance, tables, hook);
    FoundTable(k, tables, hook);
  }

  lemma ChainIsThere(k: Kernel, instance: string, tables: Tables, fs: seq<Forwarding>, ids: seq<Ids>, hook: Hook)
    requires |fs| == |ids| && ChainHolds(k, instance, tables, fs, ids, hook)
    ensures ChainOf(instance, tables, hook) in k.rules
  {
    hide Regular, NameOf;
  }

  predicate ChainMissing(k: Kernel, instance: string, tables: Tables, hook: Hook) {
    ChainOf(instance, tables, hook) !in k.rules
  }

  /** Hooks that are still to come have their chains as they were. */
  lemma {:induction false} RemovedLeaves(k: Kernel, instance: string, tables: Tables, g: Forwarding, draw: Ids, n: nat)
    requires n <= 4 && WellFormed(k)
    ensures var k' := Removed(k, instance, tables, g, draw, n);
            WellFormed(k') && SameFrame(k, k') && forall hook :: !Done(hook, n) ==>
              F.RulesIn(k', ChainOf(instance, tables, hook)) == F.RulesIn(k, ChainOf(instance, tables, hook))
  {
    hide RuleCondition, Recognised, Keep, NameOf, WellFormed, F.Bases;
    if n > 0 {
      RemovedLeaves(k, instance, tables, g, draw, n - 1);
      var before, a := Removed(k, instance, tables, g, draw, n - 1), HOOKS[n - 1];
      if ChainOf(instance, tables, a) in before.rules {
        WithoutKeepsWellFormed(before, ChainOf(instance, tables, a), RuleCondition(instance, g, a, draw.For(a)));
      }
      forall hook: Hook | !Done(hook, n) ensures ChainOf(instance, tables, hook) != ChainOf(instance, tables, a) {
        ChainsDiffer(instance, tables, hook, a);
      }
    }
  }

  lemma StillThere(k: Kernel, k': Kernel, instance: string, tables: Tables, fs: seq<Forwarding>, ids: seq<Ids>, hook: Hook)
    requires |fs| == |ids| && SameFrame(k, k') && InTable(k, tables, hook)
    requires F.RulesIn(k', ChainOf(instance, tables, hook)) == F.RulesIn(k, ChainOf(instance, tables, hook))
    requires ChainMissing(k, instance, tables, hook) || ChainHolds(k, instance, tables, fs, ids, hook)
    ensures ChainMissing(k', instance, tables, hook) || ChainHolds(k', instance, tables, fs, ids, hook)
    ensures InTable(k', tables, hook)
  {
    hide NameOf, Regular, F.Bases;
    SameFrameSameBases(k, k');
  }

  lemma NothingToRemove(k: Kernel, instance: string, tables: Tables, hook: Hook, g: Forwarding, id: uint32)
    requires WellFormed(k) && ChainMissing(k, instance, tables, hook)
    ensures NoPanic(FAMILY, tables.For(hook), NameOf(instance, hook), RuleCondition(instance, g, hook, id), Fetched(k, instance))
    ensures Clean(Fetched(k, instance), Selector(FAMILY, tables.For(hook), NameOf(instance, hook), RuleCondition(instance, g, hook, id)))
  {
    hide RuleCondition, Recognised, Panics, Fetched, NameOf, WellFormed;
    F.NotFetched(k, instance, ChainOf(instance, tables, hook));
  }

  lemma NothingRemoved(k: Kernel, instance: string, tables: Tables, hook: Hook, g: Forwarding, id: uint32)
    requires WellFormed(k) && ChainMissing(k, instance, tables, hook)
    ensures F.Flushed(k, CleaningUp(Fetched(k, instance), ChainOf(instance, tables, hook), RuleCondition(instance, g, hook, id)))
              == RemovedOn(k, instance, tables, hook, g, id)
  {
    hide RuleCondition, Recognised, Gone, NameOf, WellFormed, Selector, Fetched, Clean, F.Admits;
    NothingToRemove(k, instance, tables, hook, g, id);
    assert Fetched(k, instance)[0..] == Fetched(k, instance);
    NothingGone(Fetched(k, instance), 0, At(ChainOf(instance, tables, hook), RuleCondition(instance, g, hook, id)));
    NoDelCommands(tables.For(hook), NameOf(instance, hook));
  }

  lemma ReadyAt(k: Kernel, instance: string, tables: Tables, hook: Hook)
    requires Restartable(k, instance, tables)
    ensures T.Removable(k, instance, SiteOf(instance, tables, hook)) && F.Ready(k, instance, SiteOf(instance, tables, hook))
    ensures F.Sane(k, SiteOf(instance, tables, hook)) && WellFormed(k)
  {
    hide F.Ready, T.OnlyOwnJumps, F.Sane, WellFormed;
    assert T.Removable(k, instance, SiteOf(instance, tables, hook));
    F.ReadyIsSane(k, instance, SiteOf(instance, tables, hook));
    F.ReadyIsWellFormed(k, instance, SiteOf(instance, tables, hook));
  }

  // ----- What the mutations do to the chains

  lemma ChainsDiffer(instance: string, tables: Tables, a: Hook, b: Hook)
    ensures ChainOf(instance, tables, a) == ChainOf(instance, tables, b) <==> a == b
  {
    NamesDiffer(instance, a, b);
  }

  /** The same chains, in the same order and at the same hooks. */
  predicate SameFrame(k: Kernel, k': Kernel) {
    k'.rules.Keys == k.rules.Keys && k'.order == k.order && k'.hooked == k.hooked
  }

  lemma PresentedChains(k: Kernel, instance: string, tables: Tables, hook: Hook, f: Forwarding, id: uint32, comment: Bytes)
    requires WellFormed(k) && ChainOf(instance, tables, hook) in k.rules
    ensures var k', chain := PresentedOn(k, instance, tables, hook, f, id, comment), ChainOf(instance, tables, hook);
            && WellFormed(k') && SameFrame(k, k')
            && (forall other :: other in k.rules && other != chain ==> k'.rules[other] == k.rules[other])
            && |k'.rules[chain]| == |k.rules[chain]| + 1 && k'.rules[chain][..|k.rules[chain]|] == k.rules[chain]
            && k'.rules[chain][|k.rules[chain]|].exprs == RuleExprs(instance, f, hook, id)
            && k'.rules[chain][|k.rules[chain]|].comment == Userdata.Stored(comment)
  {
    hide RuleExprs, InternalName, SetElements, NameOf, WellFormed, Userdata.Stored;
    var k1 := if |f.targets| == 1 then k
              else k.(sets := k.sets[InternalName(instance, f.from, hook) := SetElements(f, hook)]);
    SetsAside(k, k1.sets);
    AddRuleKeepsWellFormed(k1, tables.For(hook), NameOf(instance, hook), RuleExprs(instance, f, hook, id), false, Userdata.Stored(comment));
  }

  lemma SetsAside(k: Kernel, sets: map<string, map<Bytes, Bytes>>)
    ensures WellFormed(k.(sets := sets)) <==> WellFormed(k)
  {
    hide ChainWellFormed;
  }

  /** The first `n` chains have one rule more, the other chains are as they were. */
  ghost predicate Extended(k: Kernel, k': Kernel, instance: string, tables: Tables, f: Forwarding, draw: Ids, n: nat) {
    && SameFrame(k, k')
    && (forall hook :: !Done(hook, n) ==> SameChain(k, k', ChainOf(instance, tables, hook)))
    && (forall hook :: Done(hook, n) ==> Grown(k, k', instance, tables, hook, f, draw.For(hook)))
    && (forall id :: id in k.rules && (forall hook :: id != ChainOf(instance, tables, hook)) ==> k'.rules[id] == k.rules[id])
  }

  lemma ExtendedNext(k: Kernel, before: Kernel, after: Kernel, instance: string, tables: Tables, f: Forwarding, draw: Ids, n: nat)
    requires 0 < n <= 4 && Extended(k, before, instance, tables, f, draw, n - 1)
    requires var chain := ChainOf(instance, tables, HOOKS[n - 1]);
             && chain in before.rules && SameFrame(before, after)
             && (forall other :: other in before.rules && other != chain ==> after.rules[other] == before.rules[other])
             && Grown(before, after, instance, tables, HOOKS[n - 1], f, draw.For(HOOKS[n - 1]))
    ensures Extended(k, after, instance, tables, f, draw, n)
  {
    hide RuleExprs, NameOf;
    var hook := HOOKS[n - 1];
    forall other: Hook ensures ChainOf(instance, tables, other) == ChainOf(instance, tables, hook) <==> other == hook {
      ChainsDiffer(instance, tables, other, hook);
    }
    forall other: Hook | !Done(other, n) ensures SameChain(k, after, ChainOf(instance, tables, other)) {
      assert !Done(other, n - 1) && other != hook;
    }
    forall other: Hook | Done(other, n) ensures Grown(k, after, instance, tables, other, f, draw.For(other)) {
      if other == hook {
        assert !Done(other, n - 1);
        assert SameChain(k, before, ChainOf(instance, tables, other));
      } else {
        assert Done(other, n - 1);
      }
    }
  }

  /** After the first `n` mutations the first `n` chains have one rule more. */
  lemma {:induction false} AddedChains(k: Kernel, instance: string, tables: Tables, f: Forwarding, draw: Ids, comment: Bytes, n: nat,
                                       fs: seq<Forwarding>, ids: seq<Ids>)
    requires n <= 4 && Carries(k, instance, tables, fs, ids)
    ensures var k' := Added(k, instance, tables, f, draw, comment, n);
            && WellFormed(k') && Extended(k, k', instance, tables, f, draw, n) && (forall hook :: InTable(k', tables, hook))
            && forall hook :: !Done(hook, n) ==> ChainHolds(k', instance, tables, fs, ids, hook)
  {
    hide PresentedOn, RuleExprs, Regular, NameOf, Extended, WellFormed, InTable, F.Bases;
    forall other: Hook ensures ChainOf(instance, tables, other) in k.rules {
      assert ChainHolds(k, instance, tables, fs, ids, other);
    }
    if n == 0 {
      ExtendedStart(k, instance, tables, f, draw);
    } else {
      AddedChains(k, instance, tables, f, draw, comment, n - 1, fs, ids);
      var before, hook := Added(k, instance, tables, f, draw, comment, n - 1), HOOKS[n - 1];
      ExtendedKeeps(k, before, instance, tables, f, draw, n - 1);
      PresentedChains(before, instance, tables, hook, f, draw.For(hook), comment);
      ExtendedNext(k, before, Added(k, instance, tables, f, draw, comment, n), instance, tables, f, draw, n);
    }
    ExtendedKeeps(k, Added(k, instance, tables, f, draw, comment, n), instance, tables, f, draw, n);
    StillCarries(k, Added(k, instance, tables, f, draw, comment, n), instance, tables, n, fs, ids);
  }

  lemma ExtendedStart(k: Kernel, instance: string, tables: Tables, f: Forwarding, draw: Ids)
    requires forall hook :: ChainOf(instance, tables, hook) in k.rules
    ensures Extended(k, k, instance, tables, f, draw, 0)
  {
    assert forall other :: !Done(other, 0);
  }

  lemma ExtendedKeeps(k: Kernel, k': Kernel, instance: string, tables: Tables, f: Forwarding, draw: Ids, n: nat)
    requires Extended(k, k', instance, tables, f, draw, n)
    ensures SameFrame(k, k') && forall hook :: !Done(hook, n) ==> SameChain(k, k', ChainOf(instance, tables, hook))
  {
  }

  lemma StillCarries(k: Kernel, k': Kernel, instance: string, tables: Tables, n: nat, fs: seq<Forwarding>, ids: seq<Ids>)
    requires Carries(k, instance, tables, fs, ids) && SameFrame(k, k')
    requires forall hook :: !Done(hook, n) ==> SameChain(k, k', ChainOf(instance, tables, hook))
    ensures forall hook :: InTable(k', tables, hook)
    ensures forall hook :: !Done(hook, n) ==> ChainHolds(k', instance, tables, fs, ids, hook)
  {
    hide Regular, NameOf, Grown, RuleExprs, F.HookedOf;
    SameFrameSameBases(k, k');
    forall hook: Hook ensures InTable(k', tables, hook) {
      assert InTable(k, tables, hook);
    }
    forall hook: Hook | !Done(hook, n) ensures ChainHolds(k', instance, tables, fs, ids, hook) {
      assert ChainHolds(k, instance, tables, fs, ids, hook) && SameChain(k, k', ChainOf(instance, tables, hook));
    }
  }

  lemma SameFrameSameBases(k: Kernel, k': Kernel)
    requires SameFrame(k, k')
    ensures forall hook :: F.Bases(k', hook) == F.Bases(k, hook)
    ensures forall hook :: Based(k', hook) <==> Based(k, hook)
  {
  }

  predicate SameChain(k: Kernel, k': Kernel, id: ChainId) {
    id in k.rules && id in k'.rules && k'.rules[id] == k.rules[id]
  }

  predicate Shrunk(k: Kernel, k': Kernel, instance: string, tables: Tables, hook: Hook, g: Forwarding, id: uint32) {
    var chain := ChainOf(instance, tables, hook);
    && chain in k.rules && chain in k'.rules
    && k'.rules[chain] == Keep(k.rules[chain], ByCondition(RuleCondition(instance, g, hook, id)))
  }

  /** What cleaning up one hook does to its chain: nothing without a base chain. */
  predicate Cleaned(k: Kernel, k': Kernel, instance: string, tables: Tables, hook: Hook, g: Forwarding, id: uint32) {
    if Based(k, hook) then Shrunk(k, k', instance, tables, hook, g, id) else SameChain(k, k', ChainOf(instance, tables, hook))
  }

  predicate Grown(k: Kernel, k': Kernel, instance: string, tables: Tables, hook: Hook, f: Forwarding, id: uint32) {
    var chain := ChainOf(instance, tables, hook);
    && chain in k.rules && chain in k'.rules
    && |k'.rules[chain]| == |k.rules[chain]| + 1 && k'.rules[chain][..|k.rules[chain]|] == k.rules[chain]
    && k'.rules[chain][|k.rules[chain]|].exprs == RuleExprs(instance, f, hook, id)
  }

  lemma NotYetThere(k: Kernel, instance: string, tables: Tables, fs: seq<Forwarding>, ids: seq<Ids>, hook: Hook, f: Forwarding, id: uint32)
    requires Valid(f) && Unused(fs, f) && |fs| == |ids| && AllValid(fs) && WellFormed(k)
    requires ChainHolds(k, instance, tables, fs, ids, hook)
    ensures var table, chain, cond := tables.For(hook), NameOf(instance, hook), RuleCondition(instance, f, hook, id);
            var s := Fetched(k, instance);
            && NoPanic(FAMILY, table, chain, cond, s)
            && First(s, Selector(FAMILY, table, chain, cond)) == |s|
  {
    hide RuleCondition, Recognised, Panics;
    var table, chain, cond := tables.For(hook), NameOf(instance, hook), RuleCondition(instance, f, hook, id);
    var rules := k.rules[Id(table, chain)];
    Recognition(instance, fs, ids, hook, f, id, rules);
    assert NoneRecognised(cond, rules) by {
      forall x | 0 <= x < |rules| ensures !Recognised(cond, rules[x].exprs) {
        if x >= Offset(hook) {
          var i := x - Offset(hook);
          assert rules[Offset(hook) + i] == rules[x] && !SameRule(f, fs[i], hook);
        }
      }
    }
    SelectsInChain(k, instance, table, chain, cond);
  }

  lemma CleanUpIsSafe(k: Kernel, instance: string, tables: Tables, fs: seq<Forwarding>, ids: seq<Ids>, hook: Hook, g: Forwarding, id: uint32)
    requires Valid(g) && |fs| == |ids| && AllValid(fs) && WellFormed(k) && ChainHolds(k, instance, tables, fs, ids, hook)
    ensures NoPanic(FAMILY, tables.For(hook), NameOf(instance, hook), RuleCondition(instance, g, hook, id), Fetched(k, instance))
  {
    hide RuleCondition, Recognised, Panics;
    var table, chain, cond := tables.For(hook), NameOf(instance, hook), RuleCondition(instance, g, hook, id);
    Recognition(instance, fs, ids, hook, g, id, k.rules[Id(table, chain)]);
    SelectsInChain(k, instance, table, chain, cond);
  }

  lemma SameRuleUnique(fs: seq<Forwarding>, hook: Hook, g: Forwarding, i: nat, j: nat)
    requires Distinct(fs) && i < |fs| && j < |fs| && SameRule(g, fs[i], hook) && SameRule(g, fs[j], hook)
    ensures i == j
  {
  }

  lemma RecognitionByPosition(instance: string, fs: seq<Forwarding>, ids: seq<Ids>, hook: Hook, g: Forwarding, id: uint32, rules: seq<Rule>)
    requires |fs| == |ids| && AllValid(fs) && Valid(g) && ExprsOf(rules) == Regular(instance, fs, ids, hook)
    ensures |rules| == Offset(hook) + |fs|
    ensures forall x :: 0 <= x < |rules| ==>
              (Recognised(RuleCondition(instance, g, hook, id), rules[x].exprs) <==> x >= Offset(hook) && SameRule(g, fs[x - Offset(hook)], hook))
  {
    hide RuleCondition, Recognised, Regular, SameRule;
    Recognition(instance, fs, ids, hook, g, id, rules);
    forall x | 0 <= x < |rules|
      ensures Recognised(RuleCondition(instance, g, hook, id), rules[x].exprs) <==> x >= Offset(hook) && SameRule(g, fs[x - Offset(hook)], hook)
    {
      if x >= Offset(hook) {
        assert rules[Offset(hook) + (x - Offset(hook))] == rules[x];
      }
    }
  }

  /** At most one installed rule is recognised. */
  lemma Candidate(instance: string, fs: seq<Forwarding>, ids: seq<Ids>, hook: Hook, g: Forwarding, id: uint32, rules: seq<Rule>) returns (j: nat)
    requires |fs| == |ids| && AllValid(fs) && Distinct(fs) && Valid(g) && ExprsOf(rules) == Regular(instance, fs, ids, hook)
    ensures var cond := RuleCondition(instance, g, hook, id);
            if j < |rules| then OnlyRecognised(cond, rules, j) && j >= Offset(hook) && SameRule(g, fs[j - Offset(hook)], hook)
            else NoneRecognised(cond, rules) && forall i :: 0 <= i < |fs| ==> !SameRule(g, fs[i], hook)
  {
    hide RuleCondition, Recognised, Regular, SameRule, Distinct, ExprsOf, AllValid, Valid;
    var off, cond := Offset(hook), RuleCondition(instance, g, hook, id);
    RecognitionByPosition(instance, fs, ids, hook, g, id, rules);
    if i :| 0 <= i < |fs| && SameRule(g, fs[i], hook) {
      j := off + i;
      forall x | 0 <= x < |rules| && x != j ensures !Recognised(cond, rules[x].exprs) {
        if x >= off && SameRule(g, fs[x - off], hook) {
          SameRuleUnique(fs, hook, g, i, x - off);
        }
      }
    } else {
      j := |rules|;
    }
  }

  lemma CleanUpRemoves(k: Kernel, instance: string, tables: Tables, fs: seq<Forwarding>, ids: seq<Ids>, hook: Hook, g: Forwarding, id: uint32)
    requires Valid(g) && |fs| == |ids| && AllValid(fs) && Distinct(fs) && WellFormed(k) && ChainHolds(k, instance, tables, fs, ids, hook)
    requires Based(k, hook)
    ensures F.Flushed(k, CleaningUp(Fetched(k, instance), ChainOf(instance, tables, hook), RuleCondition(instance, g, hook, id)))
              == RemovedOn(k, instance, tables, hook, g, id)
  {
    hide RuleCondition, Recognised, Gone, SameRule, Regular, NameOf, WellFormed, OnlyRecognised, NoneRecognised, Without, Selector, Fetched, F.Accepted;
    var table, chain, cond := tables.For(hook), NameOf(instance, hook), RuleCondition(instance, g, hook, id);
    var rules, s, m := k.rules[Id(table, chain)], Fetched(k, instance), At(ChainOf(instance, tables, hook), cond);
    var j := Candidate(instance, fs, ids, hook, g, id, rules);
    ListedByName(k, instance, tables, hook);
    SelectsInChain(k, instance, table, chain, cond);
    if j < |rules| {
      var x: nat :| OnlyMatch(s, 0, m, x) && s[x] == rules[j];
      OneGone(s, 0, m, x);
      var c := DelRule(table, chain, rules[j].handle);
      assert CleaningUp(s, ChainOf(instance, tables, hook), cond) == [c];
      ApplyOne(k, c);
      T.HandleFound(rules, j);
      F.AcceptedOne(k, c);
      WithoutOne(k, table, chain, cond, j);
    } else {
      assert s[0..] == s;
      NothingGone(s, 0, m);
      NoDelCommands(table, chain);
      F.AcceptedNothing(k);
      WithoutNone(k, Id(table, chain), cond);
    }
  }

  lemma ListedByName(k: Kernel, instance: string, tables: Tables, hook: Hook)
    ensures Listed(k, instance, ChainOf(instance, tables, hook))
  {
  }

  lemma RemovedOnChains(k: Kernel, instance: string, tables: Tables, hook: Hook, g: Forwarding, id: uint32)
    requires WellFormed(k) && ChainOf(instance, tables, hook) in k.rules
    ensures var k' := RemovedOn(k, instance, tables, hook, g, id);
            && WellFormed(k') && SameFrame(k, k') && Cleaned(k, k', instance, tables, hook, g, id)
            && forall other :: other in k.rules && other != ChainOf(instance, tables, hook) ==> k'.rules[other] == k.rules[other]
  {
    hide RuleCondition, Recognised, WellFormed, Keep, F.Bases;
    if Based(k, hook) {
      WithoutKeepsWellFormed(k, ChainOf(instance, tables, hook), RuleCondition(instance, g, hook, id));
    }
  }

  lemma WithoutKeepsWellFormed(k: Kernel, id: ChainId, cond: Condition)
    requires WellFormed(k) && id in k.rules
    ensures WellFormed(Without(k, id, cond))
  {
    hide Recognised, Keep, ChainWellFormed;
    KeepWellFormed(id, k.rules[id], NextHandle(k, id.table), ByCondition(cond));
  }

  /** The first `n` chains have lost the recognised rules, where there is a base chain; the other chains are
  as they were. */
  ghost predicate Reduced(k: Kernel, k': Kernel, instance: string, tables: Tables, g: Forwarding, draw: Ids, n: nat) {
    && SameFrame(k, k')
    && (forall hook :: !Done(hook, n) ==> SameChain(k, k', ChainOf(instance, tables, hook)))
    && (forall hook :: Done(hook, n) ==> Cleaned(k, k', instance, tables, hook, g, draw.For(hook)))
    && (forall id :: id in k.rules && (forall hook :: id != ChainOf(instance, tables, hook)) ==> k'.rules[id] == k.rules[id])
  }

  lemma ReducedNext(k: Kernel, before: Kernel, after: Kernel, instance: string, tables: Tables, g: Forwarding, draw: Ids, n: nat)
    requires 0 < n <= 4 && Reduced(k, before, instance, tables, g, draw, n - 1)
    requires var chain := ChainOf(instance, tables, HOOKS[n - 1]);
             && chain in before.rules && SameFrame(before, after)
             && (forall other :: other in before.rules && other != chain ==> after.rules[other] == before.rules[other])
             && Cleaned(before, after, instance, tables, HOOKS[n - 1], g, draw.For(HOOKS[n - 1]))
    ensures Reduced(k, after, instance, tables, g, draw, n)
  {
    hide RuleCondition, Recognised, NameOf, Keep, Based;
    var hook := HOOKS[n - 1];
    SameFrameSameBases(k, before);
    forall other: Hook ensures ChainOf(instance, tables, other) == ChainOf(instance, tables, hook) <==> other == hook {
      ChainsDiffer(instance, tables, other, hook);
    }
    forall other: Hook | !Done(other, n) ensures SameChain(k, after, ChainOf(instance, tables, other)) {
      assert !Done(other, n - 1) && other != hook;
    }
    forall other: Hook | Done(other, n) ensures Cleaned(k, after, instance, tables, other, g, draw.For(other)) {
      if other == hook {
        assert !Done(other, n - 1);
        assert SameChain(k, before, ChainOf(instance, tables, other));
      } else {
        assert Done(other, n - 1);
      }
    }
  }

  lemma ReducedStart(k: Kernel, instance: string, tables: Tables, g: Forwarding, draw: Ids)
    requires forall hook :: ChainOf(instance, tables, hook) in k.rules
    ensures Reduced(k, k, instance, tables, g, draw, 0)
  {
    assert forall other :: !Done(other, 0);
  }

  lemma ReducedKeeps(k: Kernel, k': Kernel, instance: string, tables: Tables, g: Forwarding, draw: Ids, n: nat)
    requires Reduced(k, k', instance, tables, g, draw, n)
    ensures SameFrame(k, k') && forall hook :: !Done(hook, n) ==> SameChain(k, k', ChainOf(instance, tables, hook))
  {
  }

  /** After the first `n` mutations the recognised rules are gone from the first `n` chains. */
  lemma {:induction false} RemovedChains(k: Kernel, instance: string, tables: Tables, g: Forwarding, draw: Ids, n: nat,
                                         fs: seq<Forwarding>, ids: seq<Ids>)
    requires n <= 4 && Carries(k, instance, tables, fs, ids)
    ensures var k' := Removed(k, instance, tables, g, draw, n);
            && WellFormed(k') && Reduced(k, k', instance, tables, g, draw, n) && (forall hook :: InTable(k', tables, hook))
            && (forall hook :: !Done(hook, n) ==> ChainHolds(k', instance, tables, fs, ids, hook))
  {
    hide RuleCondition, Recognised, Regular, NameOf, Keep, Reduced, WellFormed, RemovedOn, InTable, F.Bases, Cleaned;
    forall other: Hook ensures ChainOf(instance, tables, other) in k.rules {
      assert ChainHolds(k, instance, tables, fs, ids, other);
    }
    if n == 0 {
      ReducedStart(k, instance, tables, g, draw);
    } else {
      RemovedChains(k, instance, tables, g, draw, n - 1, fs, ids);
      var before, hook := Removed(k, instance, tables, g, draw, n - 1), HOOKS[n - 1];
      ReducedKeeps(k, before, instance, tables, g, draw, n - 1);
      RemovedOnChains(before, instance, tables, hook, g, draw.For(hook));
      ReducedNext(k, before, Removed(k, instance, tables, g, draw, n), instance, tables, g, draw, n);
    }
    ReducedKeeps(k, Removed(k, instance, tables, g, draw, n), instance, tables, g, draw, n);
    StillCarries(k, Removed(k, instance, tables, g, draw, n), instance, tables, n, fs, ids);
  }

  // ----- Main results

  lemma RegularGrows(k: Kernel, k': Kernel, instance: string, tables: Tables, f: Forwarding, draw: Ids, fs: seq<Forwarding>, ids: seq<Ids>, hook: Hook)
    requires |fs| == |ids| && ChainHolds(k, instance, tables, fs, ids, hook)
    requires Grown(k, k', instance, tables, hook, f, draw.For(hook))
    ensures ChainHolds(k', instance, tables, fs + [f], ids + [draw], hook)
  {
    hide RuleExprs, NameOf;
    var chain, new_ := ChainOf(instance, tables, hook), RuleExprs(instance, f, hook, draw.For(hook));
    var rules, rules' := k.rules[chain], k'.rules[chain];
    assert forall x :: 0 <= x < |rules| ==> rules'[x] == rules'[..|rules|][x];
    assert ExprsOf(rules') == ExprsOf(rules) + [new_];
    assert RuleList(instance, fs + [f], ids + [draw], hook) == RuleList(instance, fs, ids, hook) + [new_];
  }

  /** Adding an unused forwarding appends its rules to the four chains and changes no other chain;
  the sets are those of the forwardings in order. */
  lemma AddedCarries(k: Kernel, instance: string, tables: Tables, f: Forwarding, draw: Ids, comment: Bytes, fs: seq<Forwarding>, ids: seq<Ids>)
    requires Carries(k, instance, tables, fs, ids) && Valid(f) && Unused(fs, f)
    ensures var k' := Added(k, instance, tables, f, draw, comment, 4);
            && Carries(k', instance, tables, fs + [f], ids + [draw]) && SameFrame(k, k') && k'.sets == WithSets(instance, f, k.sets)
            && forall id :: id in k.rules && (forall hook :: id != ChainOf(instance, tables, hook)) ==> k'.rules[id] == k.rules[id]
  {
    hide Added, NameOf, ChainHolds, Grown, InTable;
    var k' := Added(k, instance, tables, f, draw, comment, 4);
    AddedChains(k, instance, tables, f, draw, comment, 4, fs, ids);
    AddedSets(k, instance, tables, f, draw, comment);
    forall hook: Hook ensures ChainHolds(k', instance, tables, fs + [f], ids + [draw], hook) {
      assert Done(hook, 4);
      RegularGrows(k, k', instance, tables, f, draw, fs, ids, hook);
    }
  }

  /** A ruleset that serves some forwardings serves one more after an addition. */
  lemma AddedServes(k: Kernel, instance: string, tables: Tables, f: Forwarding, draw: Ids, comment: Bytes, fs: seq<Forwarding>, ids: seq<Ids>)
    requires Serves(k, instance, tables, fs, ids) && Valid(f) && Unused(fs, f)
    ensures Serves(Added(k, instance, tables, f, draw, comment, 4), instance, tables, fs + [f], ids + [draw])
  {
    hide Added, Carries, Based;
    AddedCarries(k, instance, tables, f, draw, comment, fs, ids);
    SameFrameSameBases(k, Added(k, instance, tables, f, draw, comment, 4));
  }

  lemma PresentedSets(k: Kernel, instance: string, tables: Tables, hook: Hook, f: Forwarding, id: uint32, comment: Bytes)
    ensures PresentedOn(k, instance, tables, hook, f, id, comment).sets ==
              if |f.targets| == 1 then k.sets else k.sets[InternalName(instance, f.from, hook) := SetElements(f, hook)]
  {
    hide InternalName, SetElements, RuleExprs;
  }

  lemma AddedSets(k: Kernel, instance: string, tables: Tables, f: Forwarding, draw: Ids, comment: Bytes)
    ensures Added(k, instance, tables, f, draw, comment, 4).sets == WithSets(instance, f, k.sets)
  {
    hide InternalName, SetElements, PresentedOn;
    var k1 := Added(k, instance, tables, f, draw, comment, 1);
    var k2 := Added(k, instance, tables, f, draw, comment, 2);
    var k3 := Added(k, instance, tables, f, draw, comment, 3);
    PresentedSets(k, instance, tables, Prerouting, f, draw.pre, comment);
    PresentedSets(k1, instance, tables, Postrouting, f, draw.post, comment);
    PresentedSets(k2, instance, tables, Forward, f, draw.forward, comment);
    PresentedSets(k3, instance, tables, Output, f, draw.output, comment);
    assert Added(k, instance, tables, f, draw, comment, 0) == k;
    assert k1 == PresentedOn(k, instance, tables, Prerouting, f, draw.pre, comment);
    assert k2 == PresentedOn(k1, instance, tables, Postrouting, f, draw.post, comment);
    assert k3 == PresentedOn(k2, instance, tables, Forward, f, draw.forward, comment);
  }

  /** Removing undoes adding, whatever the order of the targets and the random ids, exactly when every hook
  has a base chain: all chains then have their old rules, handles included. */
  lemma AddThenRemove(k: Kernel, instance: string, tables: Tables, f: Forwarding, draw: Ids, comment: Bytes,
                      targets: seq<Ip>, draw': Ids, fs: seq<Forwarding>, ids: seq<Ids>)
    requires Carries(k, instance, tables, fs, ids) && Valid(f) && Unused(fs, f) && multiset(targets) == multiset(f.targets)
    ensures var added := Added(k, instance, tables, f, draw, comment, 4);
            (forall hook :: Based(k, hook)) <==> Removed(added, instance, tables, f.(targets := targets), draw', 4).rules == k.rules
  {
    hide Added, Removed, NameOf, Cleaned, Grown, Carries, Based, InTable, Valid, Unused;
    var added, g := Added(k, instance, tables, f, draw, comment, 4), f.(targets := targets);
    CarriedChains(k, instance, tables, fs, ids);
    AddedCarries(k, instance, tables, f, draw, comment, fs, ids);
    AddedChains(k, instance, tables, f, draw, comment, 4, fs, ids);
    PermutedIsSame(f, targets, Forward);
    RemovedChains(added, instance, tables, g, draw', 4, fs + [f], ids + [draw]);
    SameFrameSameBases(k, added);
    var removed := Removed(added, instance, tables, g, draw', 4);
    forall hook: Hook ensures TakenBack(k, removed, instance, tables, hook) <==> Based(k, hook) {
      assert Done(hook, 4);
      HookTakenBack(k, added, removed, instance, tables, f, draw, g, draw', fs, ids, hook);
    }
    AllTakenBack(k, added, removed, instance, tables);
  }

  lemma CarriedChains(k: Kernel, instance: string, tables: Tables, fs: seq<Forwarding>, ids: seq<Ids>)
    requires Carries(k, instance, tables, fs, ids)
    ensures |fs| == |ids| && forall hook :: ChainOf(instance, tables, hook) in k.rules
  {
    hide Regular, NameOf;
    forall hook: Hook ensures ChainOf(instance, tables, hook) in k.rules {
      assert ChainHolds(k, instance, tables, fs, ids, hook);
    }
  }

  predicate TakenBack(k: Kernel, k': Kernel, instance: string, tables: Tables, hook: Hook) {
    SameChain(k, k', ChainOf(instance, tables, hook))
  }

  /** Where only regular chains may differ, all chains agree when those do. */
  lemma AllTakenBack(k: Kernel, added: Kernel, removed: Kernel, instance: string, tables: Tables)
    requires SameFrame(k, added) && SameFrame(added, removed)
    requires forall hook :: ChainOf(instance, tables, hook) in k.rules
    requires forall id :: id in k.rules && (forall hook :: id != ChainOf(instance, tables, hook)) ==> added.rules[id] == k.rules[id]
    requires forall id :: id in added.rules && (forall hook :: id != ChainOf(instance, tables, hook)) ==> removed.rules[id] == added.rules[id]
    ensures removed.rules == k.rules <==> forall hook :: TakenBack(k, removed, instance, tables, hook)
  {
    hide NameOf;
    if forall hook :: TakenBack(k, removed, instance, tables, hook) {
      forall id | id in k.rules ensures removed.rules[id] == k.rules[id] {
        if hook :| id == ChainOf(instance, tables, hook) {
          assert TakenBack(k, removed, instance, tables, hook);
        }
      }
    }
  }

  lemma HookTakenBack(k: Kernel, added: Kernel, removed: Kernel, instance: string, tables: Tables, f: Forwarding, draw: Ids, g: Forwarding, draw': Ids,
                      fs: seq<Forwarding>, ids: seq<Ids>, hook: Hook)
    requires Carries(added, instance, tables, fs + [f], ids + [draw]) && |fs| == |ids| && Valid(f)
    requires Grown(k, added, instance, tables, hook, f, draw.For(hook)) && Cleaned(added, removed, instance, tables, hook, g, draw'.For(hook))
    requires g == f.(targets := g.targets) && multiset(g.targets) == multiset(f.targets)
    ensures TakenBack(k, removed, instance, tables, hook) <==> Based(added, hook)
  {
    hide RuleExprs, NameOf, RuleCondition, Recognised, Keep, Carries, Based;
    if Based(added, hook) {
      LastRuleRemoved(k, added, instance, tables, f, draw, g, draw', fs, ids, hook);
    }
  }

  lemma PermutedIsSame(f: Forwarding, targets: seq<Ip>, hook: Hook)
    requires Valid(f) && multiset(targets) == multiset(f.targets)
    ensures Valid(f.(targets := targets)) && SameRule(f.(targets := targets), f, hook)
  {
    assert |targets| == |multiset(targets)| == |multiset(f.targets)| == |f.targets|;
    if |targets| == 1 {
      assert targets[0] in multiset(f.targets);
    }
  }

  lemma LastRuleRemoved(k: Kernel, added: Kernel, instance: string, tables: Tables, f: Forwarding, draw: Ids, g: Forwarding, draw': Ids,
                        fs: seq<Forwarding>, ids: seq<Ids>, hook: Hook)
    requires Carries(added, instance, tables, fs + [f], ids + [draw]) && |fs| == |ids| && Valid(f)
    requires Grown(k, added, instance, tables, hook, f, draw.For(hook))
    requires g == f.(targets := g.targets) && multiset(g.targets) == multiset(f.targets)
    ensures var chain := ChainOf(instance, tables, hook);
            Keep(added.rules[chain], ByCondition(RuleCondition(instance, g, hook, draw'.For(hook)))) == k.rules[chain]
  {
    hide RuleExprs, NameOf, RuleCondition, Recognised;
    var chain, cond := ChainOf(instance, tables, hook), RuleCondition(instance, g, hook, draw'.For(hook));
    var rules, fs' := added.rules[chain], fs + [f];
    PermutedIsSame(f, g.targets, hook);
    assert ChainHolds(added, instance, tables, fs', ids + [draw], hook);
    var j := Candidate(instance, fs', ids + [draw], hook, g, draw'.For(hook), rules);
    assert SameRule(g, fs'[|fs|], hook);
    assert |rules| == Offset(hook) + |fs| + 1 by {
      Recognition(instance, fs', ids + [draw], hook, g, draw'.For(hook), rules);
    }
    var i := j - Offset(hook);
    assert i == |fs|;
    KeepAllBut(rules, ByCondition(cond), j);
    assert rules[..j] + rules[j + 1..] == rules[..|k.rules[chain]|];
  }
}
