/** What removing leaves of the installed forwardings.

A removal finds the rules of a forwarding at each hook on its own.  Where the counts of several targets
differ, it finds them at the two hooks that filter and misses them at the two that rewrite.
*/
module Removal {
  import opened Encoding
  import opened Conditions
  import opened RuleCache
  import opened Kernels
  import opened Searching
  import opened Forwardings
  import opened Meaning
  import opened Startup
  import opened Installer

  /** The rules of `f` are taken for those of `g` at some hooks only. */
  predicate Partly(g: Forwarding, f: Forwarding) {
    && g.proto == f.proto && g.from == f.from && g.to == f.to
    && |g.targets| != 1 && |f.targets| != 1 && |g.targets| != |f.targets|
  }

  lemma PartlyExactly(g: Forwarding, f: Forwarding)
    ensures Partly(g, f) <==> exists a, b :: SameRule(g, f, a) && !SameRule(g, f, b)
  {
    if Partly(g, f) {
      assert SameRule(g, f, Forward) && !SameRule(g, f, Prerouting);
    }
  }

  predicate NonePartly(fs: seq<Forwarding>, g: Forwarding) {
    forall i :: 0 <= i < |fs| ==> !Partly(g, fs[i])
  }

  /** The installed forwarding whose rules are removed, or the length of the list. */
  function Victim(fs: seq<Forwarding>, g: Forwarding): nat {
    First(fs, f => SameRule(g, f, Prerouting))
  }

  function WithoutAt<T>(s: seq<T>, i: nat): seq<T> {
    if i < |s| then s[..i] + s[i + 1..] else s
  }

  /** The forwardings that stay. */
  function Remaining(fs: seq<Forwarding>, g: Forwarding): seq<Forwarding> {
    WithoutAt(fs, Victim(fs, g))
  }

  lemma RegularWithout(instance: string, fs: seq<Forwarding>, ids: seq<Ids>, hook: Hook, v: nat, rules: seq<Rule>)
    requires |fs| == |ids| && v < |fs| && ExprsOf(rules) == Regular(instance, fs, ids, hook)
    ensures |rules| == Offset(hook) + |fs|
    ensures ExprsOf(WithoutAt(rules, Offset(hook) + v)) == Regular(instance, WithoutAt(fs, v), WithoutAt(ids, v), hook)
  {
    hide RuleExprs, Built, EstablishedRule;
    var all, less, off := Regular(instance, fs, ids, hook), WithoutAt(rules, Offset(hook) + v), Offset(hook);
    assert |rules| == |ExprsOf(rules)| == off + |fs|;
    var want := Regular(instance, WithoutAt(fs, v), WithoutAt(ids, v), hook);
    assert |want| == |less|;
    forall x | 0 <= x < |less| ensures ExprsOf(less)[x] == want[x] {
      ExprsWithout(rules, off + v, x);
      RegularElement(instance, fs, ids, hook, v, x);
    }
  }

  function Skip(v: nat, x: nat): nat {
    if x < v then x else x + 1
  }

  lemma ExprsWithout(rules: seq<Rule>, v: nat, x: nat)
    requires v < |rules| && x < |rules| - 1
    ensures |WithoutAt(rules, v)| == |rules| - 1 && ExprsOf(WithoutAt(rules, v))[x] == ExprsOf(rules)[Skip(v, x)]
  {
  }

  lemma ShorterBy<T>(s: seq<T>, v: nat)
    requires v < |s|
    ensures |WithoutAt(s, v)| == |s| - 1
    ensures forall y :: 0 <= y < |s| - 1 ==> WithoutAt(s, v)[y] == s[Skip(v, y)]
  {
  }

  lemma ListElement(instance: string, fs: seq<Forwarding>, ids: seq<Ids>, hook: Hook, y: nat)
    requires |fs| == |ids| && y < |fs|
    ensures RuleList(instance, fs, ids, hook)[y] == RuleExprs(instance, fs[y], hook, ids[y].For(hook))
  {
    hide RuleExprs;
  }

  lemma RegularElement(instance: string, fs: seq<Forwarding>, ids: seq<Ids>, hook: Hook, v: nat, x: nat)
    requires |fs| == |ids| && v < |fs| && x < Offset(hook) + |fs| - 1
    ensures Regular(instance, WithoutAt(fs, v), WithoutAt(ids, v), hook)[x] == Regular(instance, fs, ids, hook)[Skip(Offset(hook) + v, x)]
  {
    hide RuleExprs, Built, RuleList, WithoutAt;
    ShorterBy(fs, v);
    ShorterBy(ids, v);
    if x >= Offset(hook) {
      var y := x - Offset(hook);
      ListElement(instance, fs, ids, hook, Skip(v, y));
      ListElement(instance, WithoutAt(fs, v), WithoutAt(ids, v), hook, y);
    }
  }

  /** The rules of one hook lose at most one: that of the forwarding whose rule is taken for `g`'s. */
  lemma KeptRules(instance: string, fs: seq<Forwarding>, ids: seq<Ids>, hook: Hook, g: Forwarding, id: uint32, rules: seq<Rule>) returns (v: nat)
    requires |fs| == |ids| && AllValid(fs) && Distinct(fs) && Valid(g) && ExprsOf(rules) == Regular(instance, fs, ids, hook)
    ensures |rules| == Offset(hook) + |fs|
    ensures var kept := Keep(rules, ByCondition(RuleCondition(instance, g, hook, id)));
            if v < |fs| then SameRule(g, fs[v], hook) && kept == WithoutAt(rules, Offset(hook) + v)
            else kept == rules && forall i :: 0 <= i < |fs| ==> !SameRule(g, fs[i], hook)
  {
    hide RuleCondition, Recognised, SameRule, Regular, Keep, AllValid, Distinct, Valid, ExprsOf, FlatMatch;
    var cond := RuleCondition(instance, g, hook, id);
    RecognitionByPosition(instance, fs, ids, hook, g, id, rules);
    var j := Candidate(instance, fs, ids, hook, g, id, rules);
    if j < |rules| {
      KeepAllBut(rules, ByCondition(cond), j);
      v := j - Offset(hook);
    } else {
      NoneKept(rules, cond);
      v := |fs|;
    }
  }

  lemma NoneKept(rules: seq<Rule>, cond: Condition)
    requires NoneRecognised(cond, rules)
    ensures Keep(rules, ByCondition(cond)) == rules
  {
    hide Recognised;
    CleanIsKept(rules, ByCondition(cond));
  }

  lemma OneVictim(fs: seq<Forwarding>, g: Forwarding, hook: Hook, i: nat)
    requires Distinct(fs) && NonePartly(fs, g) && i < |fs| && SameRule(g, fs[i], hook)
    ensures Victim(fs, g) == i
  {
    assert !Partly(g, fs[i]) && SameRule(g, fs[i], Prerouting);
    SameRuleUnique(fs, Prerouting, g, i, Victim(fs, g));
  }

  lemma VictimEverywhere(fs: seq<Forwarding>, g: Forwarding, hook: Hook)
    requires Victim(fs, g) < |fs|
    ensures SameRule(g, fs[Victim(fs, g)], hook)
  {
  }

  lemma ChainAfter(k: Kernel, k': Kernel, instance: string, tables: Tables, g: Forwarding, draw: Ids, fs: seq<Forwarding>, ids: seq<Ids>, hook: Hook)
    requires Carries(k, instance, tables, fs, ids) && Valid(g) && NonePartly(fs, g)
    requires Shrunk(k, k', instance, tables, hook, g, draw.For(hook))
    ensures ChainHolds(k', instance, tables, Remaining(fs, g), WithoutAt(ids, Victim(fs, g)), hook)
  {
    hide RuleCondition, Recognised, SameRule, Regular, Keep, NameOf, NonePartly, WithoutAt, Victim, AllValid, Distinct, Valid;
    var rules := k.rules[ChainOf(instance, tables, hook)];
    assert ChainHolds(k, instance, tables, fs, ids, hook);
    var v := KeptRules(instance, fs, ids, hook, g, draw.For(hook), rules);
    if v < |fs| {
      OneVictim(fs, g, hook, v);
      RegularWithout(instance, fs, ids, hook, v, rules);
    } else {
      NoVictim(fs, ids, g, hook);
    }
  }

  lemma NoVictim(fs: seq<Forwarding>, ids: seq<Ids>, g: Forwarding, hook: Hook)
    requires |fs| == |ids| && forall i :: 0 <= i < |fs| ==> !SameRule(g, fs[i], hook)
    ensures Remaining(fs, g) == fs && WithoutAt(ids, Victim(fs, g)) == ids
  {
    hide SameRule;
    if Victim(fs, g) < |fs| {
      VictimEverywhere(fs, g, hook);
    }
  }

  lemma RestFits(fs: seq<Forwarding>, g: Forwarding)
    requires AllValid(fs) && Distinct(fs)
    ensures AllValid(Remaining(fs, g)) && Distinct(Remaining(fs, g))
  {
    hide Victim, Valid;
    var v, rest := Victim(fs, g), Remaining(fs, g);
    forall i, j | 0 <= i < j < |rest| ensures rest[i].proto != rest[j].proto || rest[i].from != rest[j].from {
      assert rest[i] == fs[if i < v then i else i + 1] && rest[j] == fs[if j < v then j else j + 1];
    }
  }

  /** Where no installed forwarding is found in part, a removal leaves the chains of the others. */
  lemma RemovedServes(k: Kernel, instance: string, tables: Tables, g: Forwarding, draw: Ids, fs: seq<Forwarding>, ids: seq<Ids>)
    requires Serves(k, instance, tables, fs, ids) && Valid(g) && NonePartly(fs, g)
    ensures Serves(Removed(k, instance, tables, g, draw, 4), instance, tables, Remaining(fs, g), WithoutAt(ids, Victim(fs, g)))
  {
    hide Removed, NameOf, ChainHolds, Shrunk, InTable, Remaining, Victim, WithoutAt, NonePartly, AllValid, Distinct, Based, WellFormed;
    var k' := Removed(k, instance, tables, g, draw, 4);
    RemovedChains(k, instance, tables, g, draw, 4, fs, ids);
    SameFrameSameBases(k, k');
    RestFits(fs, g);
    SameLength(fs, ids, g);
    forall hook: Hook ensures ChainHolds(k', instance, tables, Remaining(fs, g), WithoutAt(ids, Victim(fs, g)), hook) {
      assert Done(hook, 4) && Based(k, hook);
      ChainAfter(k, k', instance, tables, g, draw, fs, ids, hook);
    }
  }

  lemma SameLength(fs: seq<Forwarding>, ids: seq<Ids>, g: Forwarding)
    requires |fs| == |ids|
    ensures |Remaining(fs, g)| == |WithoutAt(ids, Victim(fs, g))|
  {
    hide Victim;
  }

  /** The number of rules one hook is left with. */
  lemma LengthAfter(k: Kernel, k': Kernel, instance: string, tables: Tables, g: Forwarding, draw: Ids, fs: seq<Forwarding>, ids: seq<Ids>, hook: Hook, i: nat)
    requires Carries(k, instance, tables, fs, ids) && Valid(g) && i < |fs| && Partly(g, fs[i])
    requires Shrunk(k, k', instance, tables, hook, g, draw.For(hook))
    ensures |k'.rules[ChainOf(instance, tables, hook)]| == Offset(hook) + |fs| - if SameRule(g, fs[i], hook) then 1 else 0
  {
    hide RuleCondition, Recognised, Regular, Keep, NameOf, AllValid;
    assert ChainHolds(k, instance, tables, fs, ids, hook);
    var v := KeptRules(instance, fs, ids, hook, g, draw.For(hook), k.rules[ChainOf(instance, tables, hook)]);
  }

  /** A removal leaves the chains of some list of forwardings exactly when no installed one is found in
  part. */
  lemma RemovedServesExactly(k: Kernel, instance: string, tables: Tables, g: Forwarding, draw: Ids, fs: seq<Forwarding>, ids: seq<Ids>)
    requires Serves(k, instance, tables, fs, ids) && Valid(g)
    ensures var k' := Removed(k, instance, tables, g, draw, 4);
            NonePartly(fs, g) <==> exists fs', ids' :: Serves(k', instance, tables, fs', ids')
  {
    hide Removed, NameOf, Regular, Shrunk, InTable, Remaining, Victim, WithoutAt, AllValid, Distinct, Based, WellFormed, Partly, Serves;
    var k' := Removed(k, instance, tables, g, draw, 4);
    if NonePartly(fs, g) {
      RemovedServes(k, instance, tables, g, draw, fs, ids);
    } else {
      forall fs', ids' | Serves(k', instance, tables, fs', ids') ensures false {
        HalvesServeNothing(k, instance, tables, g, draw, fs, ids, fs', ids');
      }
    }
  }

  lemma HalvesServeNothing(k: Kernel, instance: string, tables: Tables, g: Forwarding, draw: Ids, fs: seq<Forwarding>, ids: seq<Ids>,
                           fs': seq<Forwarding>, ids': seq<Ids>)
    requires Serves(k, instance, tables, fs, ids) && Valid(g) && !NonePartly(fs, g)
    ensures !Serves(Removed(k, instance, tables, g, draw, 4), instance, tables, fs', ids')
  {
    hide Removed, NameOf, Shrunk, InTable, AllValid, Distinct, Based, WellFormed, ChainHolds;
    var k' := Removed(k, instance, tables, g, draw, 4);
    RemovedChains(k, instance, tables, g, draw, 4, fs, ids);
    var i :| 0 <= i < |fs| && Partly(g, fs[i]);
    forall hook: Hook ensures Shrunk(k, k', instance, tables, hook, g, draw.For(hook)) {
      assert Done(hook, 4) && Based(k, hook);
    }
    LengthAfter(k, k', instance, tables, g, draw, fs, ids, Prerouting, i);
    LengthAfter(k, k', instance, tables, g, draw, fs, ids, Forward, i);
    assert SameRule(g, fs[i], Forward) && !SameRule(g, fs[i], Prerouting);
    if Serves(k', instance, tables, fs', ids') {
      HeldLength(k', instance, tables, fs', ids', Prerouting);
      HeldLength(k', instance, tables, fs', ids', Forward);
    }
  }

  lemma HeldLength(k: Kernel, instance: string, tables: Tables, fs: seq<Forwarding>, ids: seq<Ids>, hook: Hook)
    requires Carries(k, instance, tables, fs, ids)
    ensures ChainOf(instance, tables, hook) in k.rules
    ensures |k.rules[ChainOf(instance, tables, hook)]| == Offset(hook) + |fs|
  {
    hide NameOf, RuleExprs;
    assert ChainHolds(k, instance, tables, fs, ids, hook);
    assert |ExprsOf(k.rules[ChainOf(instance, tables, hook)])| == Offset(hook) + |fs|;
  }

  const TwoTargets := Forwarding(TCP, 80, [[10, 0, 0, 1], [10, 0, 0, 2]], 8080)
  const ThreeTargets := Forwarding(TCP, 80, [[10, 0, 0, 1], [10, 0, 0, 2], [10, 0, 0, 3]], 8080)

  /** Two targets are installed and a removal names three: half of the rules stay. */
  lemma HalfRemoved(instance: string, name: Bytes, comment: Bytes, draw: Ids, draw': Ids, fs: seq<Forwarding>, ids: seq<Ids>)
    ensures var empty := Kernel([], map[], map[], map[], map[]);
            var k := Added(Started(empty, instance, STANDARD, name), instance, STANDARD, TwoTargets, draw, comment, 4);
            && Serves(k, instance, STANDARD, [TwoTargets], [draw])
            && !Serves(Removed(k, instance, STANDARD, ThreeTargets, draw', 4), instance, STANDARD, fs, ids)
  {
    hide Started, Added, Removed, Restartable, Serves, Fresh;
    var empty := Kernel([], map[], map[], map[], map[]);
    EmptyIsRestartable(instance, STANDARD);
    StartedServesExactly(empty, instance, STANDARD, name);
    var start := Started(empty, instance, STANDARD, name);
    AddedServes(start, instance, STANDARD, TwoTargets, draw, comment, [], []);
    var k := Added(start, instance, STANDARD, TwoTargets, draw, comment, 4);
    assert [] + [TwoTargets] == [TwoTargets] && [] + [draw] == [draw];
    assert Partly(ThreeTargets, [TwoTargets][0]);
    HalvesServeNothing(k, instance, STANDARD, ThreeTargets, draw', [TwoTargets], [draw], fs, ids);
  }
}
