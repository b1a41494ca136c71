/** Cleaning up the chain structure of one hook, with force.

The jumps go first, base chain by base chain, while the cached rules shrink; then the regular chain
loses its own rule and is deleted.  Presenting and cleaning up leave everybody else's rules alone.
*/
module Teardown {
  import opened Encoding
  import opened Options
  import opened Conditions
  import opened RuleCache
  import opened Kernels
  import opened Mutations
  import opened Foundation
  import Meaning
  import E = Expressions

  predicate JumpsTo(exprs: Exprs, chain: string) {
    exists e :: e in exprs && IsJump(e) && e.chain == chain
  }

  /** Whoever jumps to the regular chain is the structure's own jump in a base chain of the hook. */
  ghost predicate OnlyOwnJumps(k: Kernel, site: Site) {
    forall id :: id in k.rules && id != site.Target() && id.table == site.Target().table ==>
                   OwnJumps(site, id in k.hooked && k.hooked[id] == site.hook, k.rules[id])
  }

  predicate OwnJumps(site: Site, base: bool, rules: seq<Rule>) {
    forall r :: r in rules && JumpsTo(r.exprs, site.chain) ==> base && Recognised(site.Jump(), r.exprs)
  }

  ghost predicate Removable(k: Kernel, instance: string, site: Site) {
    Ready(k, instance, site) && OnlyOwnJumps(k, site)
  }

  // ----- What is left

  function WithoutJumps(k: Kernel, ids: seq<ChainId>, cond: Condition): Kernel
    decreases |ids|
  {
    if ids == [] then k
    else
      var n := |ids| - 1;
      Without(WithoutJumps(k, ids[..n], cond), ids[n], cond)
  }

  /** The ruleset after the structure of a site is cleaned up; nothing happens without a base chain. */
  function CleanedUp(k: Kernel, site: Site): Kernel {
    var bases := Bases(k, site.hook);
    if bases == [] then k else Apply(WithoutJumps(k, bases, site.Jump()), DelChain(site.table, site.chain))
  }

  lemma {:induction false} WithoutJumpsChains(k: Kernel, ids: seq<ChainId>, cond: Condition)
    requires Once(ids)
    ensures var k' := WithoutJumps(k, ids, cond);
            && k'.order == k.order && k'.hooked == k.hooked && k'.rules.Keys == k.rules.Keys
            && k'.handles == k.handles && k'.sets == k.sets
            && (forall id :: id in ids && id in k.rules ==> k'.rules[id] == Keep(k.rules[id], ByCondition(cond)))
            && forall id :: id in k.rules && id !in ids ==> k'.rules[id] == k.rules[id]
    decreases |ids|
  {
    hide Keep;
    if ids != [] {
      var n := |ids| - 1;
      WithoutJumpsChains(k, ids[..n], cond);
      assert ids == ids[..n] + [ids[n]];
    }
  }

  lemma {:induction false} WithoutJumpsFrame(k: Kernel, ids: seq<ChainId>, cond: Condition)
    ensures var k' := WithoutJumps(k, ids, cond); k'.order == k.order && k'.hooked == k.hooked
    decreases |ids|
  {
    hide Keep, Recognised;
    if ids != [] {
      WithoutJumpsFrame(k, ids[..|ids| - 1], cond);
    }
  }

  // ----- The shrinking cache

  /** The cached rules show a chain as it is, as far as the condition is concerned. */
  ghost predicate Cached(s: seq<Rule>, id: ChainId, cond: Condition, rules: seq<Rule>) {
    var m := Selector(FAMILY, id.table.name, id.chain, cond);
    && (NoneRecognised(cond, rules) ==> Clean(s, m))
    && (forall j: nat :: OnlyRecognised(cond, rules, j) ==> exists x: nat :: OnlyMatch(s, 0, m, x) && s[x] == rules[j])
  }

  lemma StillClean(s: seq<Rule>, m: Rule -> bool, handle: nat)
    requires Clean(s, m)
    ensures Clean(WithoutFirst(s, handle), m)
  {
    assert forall r :: r in WithoutFirst(s, handle) ==> r in s;
  }

  lemma StillOnly(s: seq<Rule>, m: Rule -> bool, handle: nat, x: nat) returns (x': nat)
    requires OnlyMatch(s, 0, m, x) && s[x].handle != handle
    ensures OnlyMatch(WithoutFirst(s, handle), 0, m, x') && WithoutFirst(s, handle)[x'] == s[x]
  {
    var f := FirstWith(s, handle);
    x' := if x < f then x else x - 1;
  }

  /** Closing the gap of a rule elsewhere does not hide this chain's rule. */
  lemma StillCached(s: seq<Rule>, id: ChainId, cond: Condition, rules: seq<Rule>, handle: nat)
    requires Cached(s, id, cond, rules) && forall r :: r in rules ==> r.handle != handle
    ensures Cached(WithoutFirst(s, handle), id, cond, rules)
  {
    var m, s' := Selector(FAMILY, id.table.name, id.chain, cond), WithoutFirst(s, handle);
    hide Recognised, Selector, WithoutFirst, OnlyMatch;
    if NoneRecognised(cond, rules) {
      StillClean(s, m, handle);
    }
    forall j: nat | OnlyRecognised(cond, rules, j) ensures exists x: nat :: OnlyMatch(s', 0, m, x) && s'[x] == rules[j] {
      var x: nat :| OnlyMatch(s, 0, m, x) && s[x] == rules[j];
      assert rules[j] in rules;
      var x' := StillOnly(s, m, handle, x);
    }
  }

  lemma FetchedShows(k: Kernel, instance: string, id: ChainId, cond: Condition)
    requires WellFormed(k) && id.table.family == FAMILY && (id in k.rules ==> Listed(k, instance, id))
    ensures Cached(Fetched(k, instance), id, cond, RulesIn(k, id))
  {
    hide Recognised, Fetched;
    if id in k.rules {
      assert id == Id(id.table.name, id.chain);
      SelectsInChain(k, instance, id.table.name, id.chain, cond);
    } else {
      NotFetched(k, instance, id);
    }
  }

  lemma OneOrNone(cond: Condition, rules: seq<Rule>) returns (j: nat)
    requires AtMostOne(cond, rules)
    ensures if j < |rules| then OnlyRecognised(cond, rules, j) else NoneRecognised(cond, rules)
  {
    hide Recognised;
    if NoneRecognised(cond, rules) {
      j := |rules|;
    } else {
      j :| 0 <= j < |rules| && Recognised(cond, rules[j].exprs);
    }
  }

  /** What a sweep does to the cache: at most the first rule with the handle of one of `rules` goes. */
  predicate Shrunk(s: seq<Rule>, s': seq<Rule>, rules: seq<Rule>) {
    s' == s || exists r :: r in rules && s' == WithoutFirst(s, r.handle)
  }

  /** Cleaning up a rule in a chain that has it at most once. */
  lemma SweepReached(k: Kernel, queued: seq<Command>, now: Kernel, id: ChainId, cond: Condition, s: seq<Rule>)
    requires Reached(k, queued, now) && id.table.family == FAMILY && AtMostOne(cond, RulesIn(now, id)) && Cached(s, id, cond, RulesIn(now, id))
    ensures Reached(k, queued + CleaningUp(s, id, cond), Without(now, id, cond))
    ensures Shrunk(s, Remains(s, 0, At(id, cond)), RulesIn(now, id))
  {
    hide Recognised, Gone, Remains, Selector, JumpsResolve, WellFormed, HandlesApart, OnlyRecognised, NoneRecognised, Without, AtMostOne, Accepted;
    var table, chain, rules := id.table.name, id.chain, RulesIn(now, id);
    assert id == Id(table, chain);
    var j := OneOrNone(cond, rules);
    if j < |rules| {
      var x: nat :| OnlyMatch(s, 0, Selector(FAMILY, table, chain, cond), x) && s[x] == rules[j];
      OneGone(s, 0, At(id, cond), x);
      var c := DelRule(table, chain, rules[j].handle);
      assert CleaningUp(s, id, cond) == [c];
      WithoutOne(now, table, chain, cond, j);
      HandleFound(rules, j);
      AdmittedStep(k, queued, now, c);
      WithoutKeepsSound(now, id, cond);
      assert rules[j] in rules;
    } else {
      assert s[0..] == s;
      NothingGone(s, 0, At(id, cond));
      NoDelCommands(table, chain);
      assert queued + [] == queued;
      NothingWithout(now, id, cond);
    }
  }

  lemma HandleFound(rules: seq<Rule>, j: nat)
    requires j < |rules|
    ensures FirstWith(rules, rules[j].handle) < |rules|
  {
  }

  lemma NothingWithout(k: Kernel, id: ChainId, cond: Condition)
    requires NoneRecognised(cond, RulesIn(k, id))
    ensures Without(k, id, cond) == k
  {
    hide Recognised;
    if id in k.rules {
      WithoutNone(k, id, cond);
    }
  }

  // ----- The batch

  /** The cache after a rule is cleaned up in the first `n` chains. */
  function SweptCache(s: seq<Rule>, ids: seq<ChainId>, n: nat, cond: Condition): seq<Rule>
    requires n <= |ids|
  {
    if n == 0 then s else Remains(SweptCache(s, ids, n - 1, cond), 0, At(ids[n - 1], cond))
  }

  function SweepBatch(s: seq<Rule>, ids: seq<ChainId>, n: nat, cond: Condition): seq<Command>
    requires n <= |ids|
  {
    if n == 0 then []
    else SweepBatch(s, ids, n - 1, cond) + CleaningUp(SweptCache(s, ids, n - 1, cond), ids[n - 1], cond)
  }

  /** The regular chain: its own rule if it has one, then the chain if it is there. */
  function DropBatch(k: Kernel, s: seq<Rule>, site: Site): seq<Command> {
    (if site.established then CleaningUp(s, site.Target(), Meaning.EstablishedRule) else [])
    + (if site.Target() in k.order then [DelChain(site.table, site.chain)] else [])
  }

  /** What cleaning up the structure of a site queues: nothing without a base chain, else the jumps go base
  chain by base chain while the cache shrinks, and then the regular chain. */
  function CleanUpBatch(k: Kernel, instance: string, site: Site): seq<Command>
    requires WellFormed(k)
  {
    var s, bases := Fetched(k, instance), Bases(k, site.hook);
    if bases == [] then []
    else SweepBatch(s, bases, |bases|, site.Jump()) + DropBatch(k, SweptCache(s, bases, |bases|, site.Jump()), site)
  }

  // ----- The loop over the base chains

  /** The cache still shows the base chains from position `i` on and the regular chain. */
  ghost predicate StillShown(k: Kernel, instance: string, site: Site, bases: seq<ChainId>, i: nat, s: seq<Rule>)
    requires WellFormed(k)
  {
    && (forall r :: r in s ==> r in Fetched(k, instance))
    && (forall j :: i <= j < |bases| ==> Cached(s, bases[j], site.Jump(), RulesIn(k, bases[j])))
    && (site.established ==> Cached(s, site.Target(), Meaning.EstablishedRule, RulesIn(k, site.Target())))
  }

  lemma ShownAtStart(k: Kernel, instance: string, site: Site, bases: seq<ChainId>)
    requires Ready(k, instance, site) && bases == Bases(k, site.hook)
    ensures StillShown(k, instance, site, bases, 0, Fetched(k, instance))
  {
    hide Fetched, Cached, AtMostOne, WellFormed, HandlesApart, JumpsResolve;
    forall j | 0 <= j < |bases| ensures Cached(Fetched(k, instance), bases[j], site.Jump(), RulesIn(k, bases[j])) {
      assert bases[j] in bases;
      FetchedShows(k, instance, bases[j], site.Jump());
    }
    FetchedShows(k, instance, site.Target(), Meaning.EstablishedRule);
  }

  lemma ShownNext(k: Kernel, instance: string, site: Site, bases: seq<ChainId>, i: nat, s: seq<Rule>, s': seq<Rule>)
    requires Ready(k, instance, site) && bases == Bases(k, site.hook) && i < |bases| && Once(bases)
    requires StillShown(k, instance, site, bases, i, s) && Shrunk(s, s', RulesIn(k, bases[i]))
    ensures StillShown(k, instance, site, bases, i + 1, s')
  {
    hide Fetched, Cached, AtMostOne, WellFormed, JumpsResolve, WithoutFirst, Apart;
    if s' != s {
      var r :| r in RulesIn(k, bases[i]) && s' == WithoutFirst(s, r.handle);
      FewerRules(s, r.handle);
      assert bases[i] in bases && bases[i] != site.Target();
      forall j | i + 1 <= j < |bases| ensures Cached(s', bases[j], site.Jump(), RulesIn(k, bases[j])) {
        assert bases[j] in bases && bases[i] != bases[j];
        ApartFrom(k, bases[i], bases[j], r);
        StillCached(s, bases[j], site.Jump(), RulesIn(k, bases[j]), r.handle);
      }
      if site.established {
        ApartFrom(k, bases[i], site.Target(), r);
        StillCached(s, site.Target(), Meaning.EstablishedRule, RulesIn(k, site.Target()), r.handle);
      }
    }
  }

  lemma FewerRules(s: seq<Rule>, handle: nat)
    ensures forall r :: r in WithoutFirst(s, handle) ==> r in s
  {
  }

  lemma ApartFrom(k: Kernel, a: ChainId, b: ChainId, r: Rule)
    requires HandlesApart(k) && a != b && a.table == b.table && r in RulesIn(k, a)
    ensures forall x :: x in RulesIn(k, b) ==> x.handle != r.handle
  {
    if b in k.rules {
      assert Apart(k.rules[a], k.rules[b]);
    }
  }

  /** One turn of the loop over the base chains. */
  lemma JumpSwept(k: Kernel, instance: string, queued: seq<Command>, site: Site, bases: seq<ChainId>, i: nat, now: Kernel, s: seq<Rule>)
    requires Ready(k, instance, site) && bases == Bases(k, site.hook) && i < |bases| && Once(bases)
    requires StillShown(k, instance, site, bases, i, s)
    requires now == WithoutJumps(k, bases[..i], site.Jump()) && Reached(k, queued, now)
    ensures StillShown(k, instance, site, bases, i + 1, Remains(s, 0, At(bases[i], site.Jump())))
    ensures Reached(k, queued + CleaningUp(s, bases[i], site.Jump()), Without(now, bases[i], site.Jump()))
  {
    hide Reached, Fetched, AtMostOne, Recognised, Without, Cached, Shrunk, WellFormed, JumpsResolve, HandlesApart, CleaningUp, Remains;
    BaseIsReady(k, instance, site, bases, i);
    WithoutJumpsChains(k, bases[..i], site.Jump());
    assert RulesIn(now, bases[i]) == RulesIn(k, bases[i]);
    SweepReached(k, queued, now, bases[i], site.Jump(), s);
    ShownNext(k, instance, site, bases, i, s, Remains(s, 0, At(bases[i], site.Jump())));
  }

  lemma {:induction false} JumpsSwept(k: Kernel, instance: string, site: Site, bases: seq<ChainId>, n: nat)
    requires Ready(k, instance, site) && bases == Bases(k, site.hook) && n <= |bases| && Once(bases)
    ensures StillShown(k, instance, site, bases, n, SweptCache(Fetched(k, instance), bases, n, site.Jump()))
    ensures Reached(k, SweepBatch(Fetched(k, instance), bases, n, site.Jump()), WithoutJumps(k, bases[..n], site.Jump()))
  {
    hide Reached, Fetched, Without, Cached, Ready, WithoutJumps, CleaningUp, Remains, Bases, Once, StillShown, Sound, WellFormed, At;
    ReadyIsWellFormed(k, instance, site);
    if n == 0 {
      ReadyIsSound(k, instance, site);
      ReachedStart(k);
      NoJumpsWithout(k, site.Jump());
      ShownAtStart(k, instance, site, bases);
    } else {
      JumpsSwept(k, instance, site, bases, n - 1);
      var s := Fetched(k, instance);
      JumpSwept(k, instance, SweepBatch(s, bases, n - 1, site.Jump()), site, bases, n - 1, WithoutJumps(k, bases[..n - 1], site.Jump()),
                SweptCache(s, bases, n - 1, site.Jump()));
      NextWithoutJumps(k, bases, n - 1, site.Jump());
    }
  }

  /** The ruleset just before the regular chain goes. */
  function Bare(k: Kernel, site: Site): Kernel {
    var now := WithoutJumps(k, Bases(k, site.hook), site.Jump());
    if site.established then Without(now, site.Target(), Meaning.EstablishedRule) else now
  }

  lemma ChainReached(k: Kernel, queued: seq<Command>, now: Kernel, table: string, chain: string)
    requires Reached(k, queued, now) && Admits(now, DelChain(table, chain))
    ensures Reached(k, queued + [DelChain(table, chain)], Apply(now, DelChain(table, chain)))
  {
    hide JumpsResolve, WellFormed, HandlesApart, Admits, Accepted;
    AdmittedStep(k, queued, now, DelChain(table, chain));
    DelChainKeepsSound(now, table, chain);
  }

  lemma {:induction false} NoRecognisedKept(rules: seq<Rule>, m: Rule -> bool)
    ensures Clean(Keep(rules, m), m)
    ensures forall r :: r in Keep(rules, m) ==> r in rules
  {
    if rules != [] {
      NoRecognisedKept(rules[1..], m);
    }
  }

  lemma NoneJumps(site: Site, base: bool, rules: seq<Rule>)
    requires OwnJumps(site, base, rules)
    ensures NoJumpTo(if base then Keep(rules, ByCondition(site.Jump())) else rules, site.chain)
  {
    hide Recognised;
    NoRecognisedKept(rules, ByCondition(site.Jump()));
    var left := if base then Keep(rules, ByCondition(site.Jump())) else rules;
    forall r, e | r in left && e in r.exprs && IsJump(e) ensures e.chain != site.chain {
      assert e.chain == site.chain ==> JumpsTo(r.exprs, site.chain);
    }
  }

  /** With the jumps out of the base chains nothing refers to the regular chain any more. */
  lemma NobodyJumps(k: Kernel, instance: string, site: Site)
    requires Removable(k, instance, site) && site.Target() in k.rules
    ensures Admits(Bare(k, site), DelChain(site.table, site.chain))
  {
    hide Recognised, WellFormed, HandlesApart, JumpsResolve, AtMostOne, Keep, BaseReady, OwnJumps, NoJumpTo;
    var bases, now := Bases(k, site.hook), Bare(k, site);
    assert Once(bases) && WithoutJumps(k, bases, site.Jump()).rules.Keys == k.rules.Keys by {
      BasesOnce(k, site.hook);
      WithoutJumpsChains(k, bases, site.Jump());
    }
    forall id | id in now.rules && id != site.Target() && id.table == TableId(FAMILY, site.table) ensures NoJumpTo(now.rules[id], site.chain) {
      WithoutJumpsChains(k, bases, site.Jump());
      var base := id in k.hooked && k.hooked[id] == site.hook;
      assert base <==> id in bases by {
        hide Ready;
        OrderedChains(k);
      }
      NoneJumps(site, base, k.rules[id]);
    }
  }

  lemma OrderedChains(k: Kernel)
    requires WellFormed(k)
    ensures forall id :: id in k.order <==> id in k.rules
  {
  }

  lemma DropForgets(k: Kernel, table: string, chain: string, cond: Condition)
    ensures Apply(Without(k, Id(table, chain), cond), DelChain(table, chain)) == Apply(k, DelChain(table, chain))
  {
    hide Recognised, Keep;
    assert Without(k, Id(table, chain), cond).rules - {Id(table, chain)} == k.rules - {Id(table, chain)};
  }

  lemma DropNothing(k: Kernel, table: string, chain: string)
    requires Id(table, chain) !in k.order && Id(table, chain) !in k.rules && Id(table, chain) !in k.hooked
    ensures Apply(k, DelChain(table, chain)) == k
  {
    var id := Id(table, chain);
    DropsOne(k.order, id);
    assert k.rules - {id} == k.rules && k.hooked - {id} == k.hooked;
  }

  lemma RegularKnown(k: Kernel, instance: string, site: Site)
    requires Ready(k, instance, site)
    ensures var now, id := WithoutJumps(k, Bases(k, site.hook), site.Jump()), site.Target();
            && now.order == k.order && now.hooked == k.hooked && now.rules.Keys == k.rules.Keys
            && id !in k.hooked && (id in k.order <==> id in k.rules)
  {
    hide Recognised, Keep, HandlesApart, JumpsResolve, AtMostOne, BaseReady, ChainWellFormed;
    BasesOnce(k, site.hook);
    WithoutJumpsChains(k, Bases(k, site.hook), site.Jump());
  }

  /** The regular chain loses its own rule and is deleted. */
  lemma RegularDropped(k: Kernel, instance: string, queued: seq<Command>, site: Site, s: seq<Rule>)
    requires Removable(k, instance, site) && StillShown(k, instance, site, [], 0, s)
    requires Reached(k, queued, WithoutJumps(k, Bases(k, site.hook), site.Jump()))
    ensures Reached(k, queued + DropBatch(k, s, site), Apply(WithoutJumps(k, Bases(k, site.hook), site.Jump()), DelChain(site.table, site.chain)))
  {
    hide Reached, Fetched, AtMostOne, Recognised, Cached, Shrunk, WellFormed, JumpsResolve, HandlesApart, Once, BaseReady, Without, Built, OwnJumps,
      Admits, CleaningUp, Remains, Bases, OnlyOwnJumps;
    var now, target := WithoutJumps(k, Bases(k, site.hook), site.Jump()), site.Target();
    var own := if site.established then CleaningUp(s, target, Meaning.EstablishedRule) else [];
    TargetUntouched(k, instance, site);
    if site.established {
      SweepReached(k, queued, now, target, Meaning.EstablishedRule, s);
    } else {
      assert queued + own == queued;
    }
    RegularKnown(k, instance, site);
    DropForgets(now, site.table, site.chain, Meaning.EstablishedRule);
    if target in k.order {
      NobodyJumps(k, instance, site);
      ChainReached(k, queued + own, Bare(k, site), site.table, site.chain);
      assert queued + own + [DelChain(site.table, site.chain)] == queued + DropBatch(k, s, site);
    } else {
      NoRegular(now, target);
      DropNothing(now, site.table, site.chain);
      assert queued + own == queued + DropBatch(k, s, site);
    }
  }

  lemma NoRegular(k: Kernel, id: ChainId)
    requires id !in k.rules
    ensures Without(k, id, Meaning.EstablishedRule) == k
  {
  }

  lemma TargetUntouched(k: Kernel, instance: string, site: Site)
    requires Ready(k, instance, site)
    ensures RulesIn(WithoutJumps(k, Bases(k, site.hook), site.Jump()), site.Target()) == RulesIn(k, site.Target())
    ensures AtMostOne(Meaning.EstablishedRule, RulesIn(k, site.Target()))
  {
    hide HandlesApart, JumpsResolve, BaseReady, Recognised, Keep;
    BasesOnce(k, site.hook);
    WithoutJumpsChains(k, Bases(k, site.hook), site.Jump());
  }

  lemma ReadyIsSound(k: Kernel, instance: string, site: Site)
    requires Ready(k, instance, site)
    ensures Sound(k)
  {
  }

  lemma ShownAtEnd(k: Kernel, instance: string, site: Site, bases: seq<ChainId>, s: seq<Rule>)
    requires WellFormed(k) && StillShown(k, instance, site, bases, |bases|, s)
    ensures StillShown(k, instance, site, [], 0, s)
  {
  }

  lemma NoJumpsWithout(k: Kernel, cond: Condition)
    ensures WithoutJumps(k, [], cond) == k
  {
  }

  lemma NextWithoutJumps(k: Kernel, ids: seq<ChainId>, i: nat, cond: Condition)
    requires i < |ids|
    ensures WithoutJumps(k, ids[..i + 1], cond) == Without(WithoutJumps(k, ids[..i], cond), ids[i], cond)
  {
    assert ids[..i + 1][..i] == ids[..i];
  }

  /** Where every base chain has the jump at most once, the batch is taken command by command and leaves
  nothing of the structure. */
  lemma CleanUpReached(k: Kernel, instance: string, site: Site)
    requires Removable(k, instance, site)
    ensures Reached(k, CleanUpBatch(k, instance, site), CleanedUp(k, site))
  {
    hide Reached, Fetched, AtMostOne, Cached, WellFormed, JumpsResolve, HandlesApart, Once, BaseReady, Without, OnlyOwnJumps, StillShown, WithoutJumps,
      Bases, Ready, SweepBatch, SweptCache, DropBatch;
    ReadyIsSound(k, instance, site);
    ReadyIsWellFormed(k, instance, site);
    var s, bases := Fetched(k, instance), Bases(k, site.hook);
    if bases == [] {
      ReachedStart(k);
    } else {
      BasesOnce(k, site.hook);
      JumpsSwept(k, instance, site, bases, |bases|);
      assert bases[..|bases|] == bases;
      ShownAtEnd(k, instance, site, bases, SweptCache(s, bases, |bases|, site.Jump()));
      RegularDropped(k, instance, SweepBatch(s, bases, |bases|, site.Jump()), site, SweptCache(s, bases, |bases|, site.Jump()));
    }
  }

  // ----- The method

  /** Cleaning up the structure of one hook. */
  method CleanUpFoundation(k: Kernel, instance: string, site: Site) returns (queued: seq<Command>)
    requires Sane(k, site)
    ensures queued == CleanUpBatch(k, instance, site)
  {
    hide Fetched, Recognised, Panics, Solid, WellFormed, Bases, CleaningUp, Remains, NoPanic, NoHollow, Built;
    var rw := Refresh(k, instance);
    ghost var s := Fetched(k, instance);
    var bases := Bases(k, site.hook);
    if bases == [] {
      return rw.queued;
    }
    var i := 0;
    while i < |bases|
      invariant 0 <= i <= |bases| && fresh(rw.backing) && rw.Valid()
      invariant rw.Rules() == SweptCache(s, bases, i, site.Jump()) && forall r :: r in rw.Rules() ==> r in s
      invariant rw.queued == SweepBatch(s, bases, i, site.Jump())
    {
      assert bases[i] in bases;
      JumpIsSafe(k, instance, site, bases[i], rw.Rules());
      RemainsOld(rw.Rules(), 0, At(bases[i], site.Jump()));
      CleanUpRule(rw, site.table, bases[i].chain, site.Jump());
      i := i + 1;
    }
    ghost var swept, before := rw.Rules(), rw.queued;
    if site.established {
      EstablishedIsSafe(site, rw.Rules());
      CleanUpRule(rw, site.table, site.chain, Meaning.EstablishedRule);
    }
    if site.Target() in k.order {
      rw.queued := rw.queued + [DelChain(site.table, site.chain)];
    }
    assert rw.queued == before + DropBatch(k, swept, site);
    queued := rw.queued;
  }

  // ----- Presenting, then cleaning up

  /** A base chain after its jump is presented: still one jump at most, and the other rules as before. */
  lemma JumpThere(site: Site, rules: seq<Rule>, rules': seq<Rule>)
    requires RuleThere(rules, rules', site.Jump(), false)
    requires AtMostOne(site.Jump(), rules) && OwnJumps(site, true, rules) && forall r :: r in rules ==> r.exprs != []
    ensures AtMostOne(site.Jump(), rules') && OwnJumps(site, true, rules') && forall r :: r in rules' ==> r.exprs != []
    ensures Keep(rules', ByCondition(site.Jump())) == Keep(rules, ByCondition(site.Jump()))
  {
    hide Recognised, JumpsTo, Built;
    JumpRuleExprs(site.chain);
    if NoneRecognised(site.Jump(), rules) {
      KeepAllBut(rules', ByCondition(site.Jump()), |rules|);
      CleanIsKept(rules, ByCondition(site.Jump()));
      assert rules' == rules + [rules'[|rules|]];
    }
  }

  lemma EstablishedThere(rules: seq<Rule>, rules': seq<Rule>)
    requires RuleThere(rules, rules', Meaning.EstablishedRule, true) && AtMostOne(Meaning.EstablishedRule, rules)
    ensures AtMostOne(Meaning.EstablishedRule, rules')
  {
    hide Recognised, Built;
    if NoneRecognised(Meaning.EstablishedRule, rules) {
      assert rules' == [rules'[0]] + rules;
    }
  }

  /** The base chains of the hook once the structure is in place. */
  function BasesAfter(k: Kernel, site: Site): seq<ChainId> {
    if Bases(k, site.hook) == [] then [Id(site.table, site.base)] else Bases(k, site.hook)
  }

  /** The regular chain has its own rule, if the site asks for one, in front of what it had. */
  predicate OwnRuleThere(site: Site, rules: seq<Rule>, rules': seq<Rule>) {
    if site.established then RuleThere(rules, rules', Meaning.EstablishedRule, true) else rules' == rules
  }

  /** The ruleset with the structure in place, chain by chain. */
  ghost predicate InPlace(k: Kernel, site: Site, k': Kernel) {
    var target, bases := site.Target(), BasesAfter(k, site);
    && k'.rules.Keys == k.rules.Keys + {target} + (set id | id in bases)
    && k'.hooked == (if Bases(k, site.hook) == [] then k.hooked[bases[0] := site.hook] else k.hooked)
    && Bases(k', site.hook) == bases
    && OwnRuleThere(site, RulesIn(k, target), k'.rules[target]) && AtMostOne(Meaning.EstablishedRule, k'.rules[target])
    && (forall id :: id in bases ==> RuleThere(RulesIn(k, id), k'.rules[id], site.Jump(), false))
    && forall id :: id in k.rules && id != target && id !in bases ==> k'.rules[id] == k.rules[id]
  }

  lemma RegularSound(k: Kernel, instance: string, site: Site, comment: Bytes)
    requires Ready(k, instance, site)
    ensures Sound(WithRegular(k, site, comment))
  {
    hide Sound, Built, NoneRecognised, ExprsResolve, WithRule, BaseReady;
    AddChainKeepsSound(k, site.table, site.chain, None);
    if site.established {
      var now := Apply(k, AddChain(site.table, site.chain, None));
      EstablishedExprs();
      NoJumpsResolve(Built(Meaning.EstablishedRule), site.Target().table, now.rules.Keys);
      WithRuleKeepsSound(now, site.Target(), Meaning.EstablishedRule, true, comment);
    }
  }

  lemma PresentedSound(k: Kernel, instance: string, site: Site, comment: Bytes)
    requires Ready(k, instance, site)
    ensures Sound(Presented(k, site, comment))
  {
    hide Recognised, Built, Sound, RuleThere, AtMostOne, WithRule, NoneRecognised, ExprsResolve, BaseReady, WithRegular;
    var k1, bases := WithRegular(k, site, comment), Bases(k, site.hook);
    RegularThere(k, instance, site, comment);
    RegularSound(k, instance, site, comment);
    JumpResolves(site, k1.rules.Keys);
    if bases == [] {
      var k2 := Apply(k1, AddChain(site.table, site.base, Some(site.hook)));
      AddChainKeepsSound(k1, site.table, site.base, Some(site.hook));
      JumpResolves(site, k2.rules.Keys);
      WithRuleKeepsSound(k2, Id(site.table, site.base), site.Jump(), false, comment);
    } else {
      BasesOnceReady(k, instance, site);
      WithJumpsKeepsSound(k1, bases, site.Jump(), TableId(FAMILY, site.table), comment);
    }
  }

  lemma PresentedThere(k: Kernel, instance: string, site: Site, comment: Bytes)
    requires Ready(k, instance, site) && Bases(k, site.hook) != []
    ensures InPlace(k, site, Presented(k, site, comment))
  {
    hide Recognised, Built, Sound, RuleThere, AtMostOne, WithRule, NoneRecognised, BaseReady, WithRegular, HookedOf;
    var k1, bases := WithRegular(k, site, comment), Bases(k, site.hook);
    RegularThere(k, instance, site, comment);
    BasesOnceReady(k, instance, site);
    WithJumpsThere(k1, bases, site.Jump(), comment);
    AtMostOneThere(k, instance, site, k1.rules[site.Target()]);
    BasesKept(k, instance, site, Presented(k, site, comment));
  }

  lemma BasesKept(k: Kernel, instance: string, site: Site, k': Kernel)
    requires Ready(k, instance, site) && k'.hooked == k.hooked
    requires k'.order == (if site.Target() in k.rules then k.order else k.order + [site.Target()])
    ensures Bases(k', site.hook) == Bases(k, site.hook)
  {
    hide Sound, AtMostOne, BaseReady;
    HookedAppend(k.hooked, k.order, site.Target(), site.hook);
  }

  lemma Regrouped<T>(a: seq<T>, b: seq<T>, c: seq<T>)
    ensures a + (b + c) == (a + b) + c
  {
  }

  lemma {:induction false} HookedAppend(hooked: map<ChainId, nat>, ids: seq<ChainId>, id: ChainId, hook: nat)
    ensures HookedOf(hooked, ids + [id], hook) == HookedOf(hooked, ids, hook) + HookedOf(hooked, [id], hook)
  {
    if ids == [] {
      assert ids + [id] == [id];
    } else {
      HookedAppend(hooked, ids[1..], id, hook);
      assert (ids + [id])[1..] == ids[1..] + [id];
      var first := if ids[0] in hooked && hooked[ids[0]] == hook then [ids[0]] else [];
      Regrouped(first, HookedOf(hooked, ids[1..], hook), HookedOf(hooked, [id], hook));
    }
  }

  lemma {:induction false} HookedElsewhere(hooked: map<ChainId, nat>, ids: seq<ChainId>, id: ChainId, hook: nat, h: nat)
    requires id !in ids
    ensures HookedOf(hooked[id := h], ids, hook) == HookedOf(hooked, ids, hook)
  {
    if ids != [] {
      HookedElsewhere(hooked, ids[1..], id, hook, h);
    }
  }

  lemma PresentedAnew(k: Kernel, instance: string, site: Site, comment: Bytes)
    requires Ready(k, instance, site) && Bases(k, site.hook) == []
    ensures InPlace(k, site, Presented(k, site, comment))
  {
    hide Recognised, Built, Sound, RuleThere, AtMostOne, WithRule, NoneRecognised, BaseReady, WithRegular, HookedOf, Bases, Ready, RulesIn, Apply,
      Presented, OwnRuleThere;
    var k1, id := WithRegular(k, site, comment), Id(site.table, site.base);
    RegularThere(k, instance, site, comment);
    OwnRuleIsThere(site, RulesIn(k, site.Target()), k1.rules[site.Target()]);
    BaseUnlisted(k, instance, site);
    var k2 := Apply(k1, AddChain(site.table, site.base, Some(site.hook)));
    BaseAdded(k1, site);
    PresentedOnNewBase(k, site, comment);
    WithRuleThere(k2, id, site.Jump(), false, comment);
    AtMostOneThere(k, instance, site, k1.rules[site.Target()]);
    BaseCreated(k, instance, site, k1, Presented(k, site, comment));
  }

  lemma OwnRuleIsThere(site: Site, rules: seq<Rule>, rules': seq<Rule>)
    requires if site.established then RuleThere(rules, rules', Meaning.EstablishedRule, true) else rules' == rules
    ensures OwnRuleThere(site, rules, rules')
  {
  }

  lemma BaseAdded(k: Kernel, site: Site)
    requires Id(site.table, site.base) !in k.rules
    ensures var k', id := Apply(k, AddChain(site.table, site.base, Some(site.hook))), Id(site.table, site.base);
            && k'.order == k.order + [id] && k'.hooked == k.hooked[id := site.hook] && k'.rules.Keys == k.rules.Keys + {id}
            && k'.rules[id] == [] && forall other :: other in k.rules ==> k'.rules[other] == k.rules[other]
  {
  }

  lemma PresentedOnNewBase(k: Kernel, site: Site, comment: Bytes)
    requires Bases(k, site.hook) == []
    ensures var k2 := Apply(WithRegular(k, site, comment), AddChain(site.table, site.base, Some(site.hook)));
            Presented(k, site, comment) == WithRule(k2, Id(site.table, site.base), site.Jump(), false, comment)
  {
    hide Bases, WithRegular, WithRule, Apply;
  }

  lemma BaseCreated(k: Kernel, instance: string, site: Site, k1: Kernel, k': Kernel)
    requires Ready(k, instance, site) && Bases(k, site.hook) == [] && k1.hooked == k.hooked
    requires k1.order == (if site.Target() in k.rules then k.order else k.order + [site.Target()])
    requires k'.order == k1.order + [Id(site.table, site.base)] && k'.hooked == k.hooked[Id(site.table, site.base) := site.hook]
    ensures Bases(k', site.hook) == [Id(site.table, site.base)]
  {
    hide Sound, AtMostOne, BaseReady;
    var id := Id(site.table, site.base);
    BasesKept(k, instance, site, k1);
    HookedAppend(k'.hooked, k1.order, id, site.hook);
    BaseUnlisted(k, instance, site);
    HookedElsewhere(k.hooked, k1.order, id, site.hook, site.hook);
  }

  lemma BaseUnlisted(k: Kernel, instance: string, site: Site)
    requires Ready(k, instance, site) && Bases(k, site.hook) == []
    ensures var id := Id(site.table, site.base);
            id !in k.order && id !in k.rules && RulesIn(k, id) == [] && id != site.Target()
  {
  }

  lemma AtMostOneThere(k: Kernel, instance: string, site: Site, rules: seq<Rule>)
    requires Ready(k, instance, site)
    requires OwnRuleThere(site, RulesIn(k, site.Target()), rules)
    ensures AtMostOne(Meaning.EstablishedRule, rules)
  {
    hide Recognised, Built, Sound, RuleThere;
    if site.established {
      EstablishedThere(RulesIn(k, site.Target()), rules);
    }
  }

  lemma BasesOnceReady(k: Kernel, instance: string, site: Site)
    requires Ready(k, instance, site)
    ensures Once(Bases(k, site.hook)) && site.Target() !in Bases(k, site.hook)
    ensures forall id :: id in Bases(k, site.hook) ==> id in k.rules && id.table == TableId(FAMILY, site.table) && BaseReady(site, id, k.rules[id])
  {
    hide AtMostOne, Recognised;
    BasesOnce(k, site.hook);
  }

  lemma InPlaceAfter(k: Kernel, instance: string, site: Site, comment: Bytes)
    requires Ready(k, instance, site)
    ensures InPlace(k, site, Presented(k, site, comment)) && Sound(Presented(k, site, comment))
  {
    hide InPlace, Sound, Presented;
    PresentedSound(k, instance, site, comment);
    if Bases(k, site.hook) == [] {
      PresentedAnew(k, instance, site, comment);
    } else {
      PresentedThere(k, instance, site, comment);
    }
  }

  /** One base chain with the structure in place. */
  lemma BaseAfter(k: Kernel, instance: string, site: Site, k': Kernel, id: ChainId)
    requires Removable(k, instance, site) && InPlace(k, site, k') && id in BasesAfter(k, site)
    ensures id in k'.rules && BaseReady(site, id, k'.rules[id]) && OwnJumps(site, true, k'.rules[id])
    ensures Keep(k'.rules[id], ByCondition(site.Jump())) == Keep(RulesIn(k, id), ByCondition(site.Jump()))
    ensures id != site.Target() && id.chain != site.chain
  {
    hide Recognised, Sound, JumpsTo, Built, RuleThere, Keep;
    var rules := RulesIn(k, id);
    if Bases(k, site.hook) == [] {
      BaseUnlisted(k, instance, site);
    } else {
      BasesOnceReady(k, instance, site);
      assert OwnJumps(site, id in k.hooked && k.hooked[id] == site.hook, k.rules[id]);
    }
    JumpThere(site, rules, k'.rules[id]);
  }

  lemma PresentedReady(k: Kernel, instance: string, site: Site, k': Kernel)
    requires Removable(k, instance, site) && InPlace(k, site, k') && Sound(k')
    ensures Ready(k', instance, site)
  {
    hide Recognised, Sound, JumpsTo, Built, RuleThere, AtMostOne, BaseReady, OwnJumps, OnlyOwnJumps, OwnRuleThere, HookedOf, JumpTo;
    BasesHooked(k');
    forall id | id in BasesAfter(k, site) ensures id in k'.rules && BaseReady(site, id, k'.rules[id]) && id.chain != site.chain {
      BaseAfter(k, instance, site, k', id);
    }
  }

  lemma InPlaceHooks(k: Kernel, site: Site, k': Kernel)
    requires InPlace(k, site, k')
    ensures forall id :: id in BasesAfter(k, site) ==> id in k'.hooked && k'.hooked[id] == site.hook
  {
    hide BasesAfter, RuleThere, OwnRuleThere, AtMostOne;
    assert Bases(k', site.hook) == BasesAfter(k, site);
  }

  lemma ElsewhereAfter(k: Kernel, site: Site, k': Kernel, id: ChainId)
    requires InPlace(k, site, k') && OnlyOwnJumps(k, site) && (forall base :: base in k.hooked ==> base in k.rules)
    requires id in k'.rules && id != site.Target() && id.table == site.Target().table && id !in BasesAfter(k, site)
    ensures OwnJumps(site, id in k'.hooked && k'.hooked[id] == site.hook, k'.rules[id])
  {
    hide AtMostOne, RuleThere, OwnRuleThere, OwnJumps, Bases;
    assert OwnJumps(site, id in k.hooked && k.hooked[id] == site.hook, k.rules[id]);
  }

  lemma PresentedOwnJumps(k: Kernel, instance: string, site: Site, k': Kernel)
    requires Removable(k, instance, site) && InPlace(k, site, k') && Sound(k')
    ensures OnlyOwnJumps(k', site)
  {
    hide Recognised, Sound, JumpsTo, Built, RuleThere, AtMostOne, BaseReady, OwnJumps, OwnRuleThere, Bases;
    InPlaceHooks(k, site, k');
    hide InPlace, BasesAfter;
    forall id | id in k'.rules && id != site.Target() && id.table == site.Target().table
      ensures OwnJumps(site, id in k'.hooked && k'.hooked[id] == site.hook, k'.rules[id])
    {
      if id in BasesAfter(k, site) {
        BaseAfter(k, instance, site, k', id);
      } else {
        ElsewhereAfter(k, site, k', id);
      }
    }
  }

  /** A structure in place can be cleaned up, or presented again. */
  lemma PresentedRemovable(k: Kernel, instance: string, site: Site, comment: Bytes)
    requires Removable(k, instance, site)
    ensures Removable(Presented(k, site, comment), instance, site)
  {
    hide InPlace, Sound, Presented, OnlyOwnJumps;
    InPlaceAfter(k, instance, site, comment);
    PresentedReady(k, instance, site, Presented(k, site, comment));
    PresentedOwnJumps(k, instance, site, Presented(k, site, comment));
  }

  lemma BasesHooked(k: Kernel)
    requires Sound(k)
    ensures forall id, hook :: id in k.rules && id in k.hooked && k.hooked[id] == hook ==> id in Bases(k, hook)
  {
  }

  lemma CleanedChains(k: Kernel, site: Site)
    requires Sound(k) && Bases(k, site.hook) != []
    ensures var k' := CleanedUp(k, site);
            && k'.rules.Keys == k.rules.Keys - {site.Target()}
            && (forall id :: id in Bases(k, site.hook) && id in k'.rules ==> k'.rules[id] == Keep(k.rules[id], ByCondition(site.Jump())))
            && forall id :: id in k'.rules && id !in Bases(k, site.hook) ==> k'.rules[id] == k.rules[id]
  {
    hide Recognised, WellFormed, HandlesApart, JumpsResolve, Keep, HookedOf;
    BasesOnce(k, site.hook);
    WithoutJumpsChains(k, Bases(k, site.hook), site.Jump());
  }

  /** Presenting a structure and then cleaning it up with force: the regular chain is gone, the base
  chains have the rules they had, in their order, without any jump to it, and every other chain is
  untouched.  A base chain that had to be created stays behind, empty. */
  lemma PresentThenCleanUp(k: Kernel, instance: string, site: Site, comment: Bytes)
    requires Removable(k, instance, site)
    ensures var k', bases := CleanedUp(Presented(k, site, comment), site), BasesAfter(k, site);
            && k'.rules.Keys == k.rules.Keys + (set id | id in bases) - {site.Target()}
            && (forall id :: id in bases ==> k'.rules[id] == Keep(RulesIn(k, id), ByCondition(site.Jump())))
            && forall id :: id in k.rules && id != site.Target() && id !in bases ==> k'.rules[id] == k.rules[id]
  {
    hide Recognised, Sound, Built, RuleThere, Presented, AtMostOne, BaseReady, OwnJumps, Keep, OnlyOwnJumps, CleanedUp, Bases;
    var k1, bases := Presented(k, site, comment), BasesAfter(k, site);
    InPlaceAfter(k, instance, site, comment);
    assert Bases(k1, site.hook) == bases;
    CleanedChains(k1, site);
    forall id | id in bases
      ensures id in k1.rules && id != site.Target()
      ensures Keep(k1.rules[id], ByCondition(site.Jump())) == Keep(RulesIn(k, id), ByCondition(site.Jump()))
    {
      BaseAfter(k, instance, site, k1, id);
    }
  }

  /** Where the regular chain was not there before, all rules are exactly what they were. */
  lemma PresentThenCleanUpRestores(k: Kernel, instance: string, site: Site, comment: Bytes)
    requires Removable(k, instance, site) && site.Target() !in k.rules
    ensures var k' := CleanedUp(Presented(k, site, comment), site);
            forall id :: id in k.rules ==> id in k'.rules && k'.rules[id] == k.rules[id]
  {
    hide Recognised, Built, CleanedUp, Presented, AtMostOne, BaseReady, OwnJumps, Keep, HandlesApart, WellFormed, ExprsResolve;
    PresentThenCleanUp(k, instance, site, comment);
    forall id | id in k.rules && id in Bases(k, site.hook) ensures Keep(k.rules[id], ByCondition(site.Jump())) == k.rules[id] {
      BasesOnceReady(k, instance, site);
      BaseHasExprs(site, id, k.rules[id]);
      NoJumpYet(site, k.rules[id], k.rules.Keys);
      CleanIsKept(k.rules[id], ByCondition(site.Jump()));
    }
  }

  lemma BaseHasExprs(site: Site, id: ChainId, rules: seq<Rule>)
    requires BaseReady(site, id, rules)
    ensures forall r :: r in rules ==> r.exprs != []
  {
  }

  lemma RecognisedJumps(site: Site, exprs: Exprs)
    requires exprs != [] && Recognised(site.Jump(), exprs)
    ensures JumpsTo(exprs, site.chain)
  {
    hide Recognised, Built;
    JumpRuleExprs(site.chain);
    assert exprs[1..][0] == E.Verdict(E.JumpVerdict, site.chain) && exprs[1] in exprs;
  }

  lemma NoJumpYet(site: Site, rules: seq<Rule>, chains: set<ChainId>)
    requires site.Target() !in chains && Resolve(rules, TableId(FAMILY, site.table), chains) && forall r :: r in rules ==> r.exprs != []
    ensures Clean(rules, ByCondition(site.Jump()))
  {
    hide Recognised, Built;
    forall r | r in rules ensures !Recognised(site.Jump(), r.exprs) {
      if Recognised(site.Jump(), r.exprs) {
        RecognisedJumps(site, r.exprs);
      }
    }
  }
}
