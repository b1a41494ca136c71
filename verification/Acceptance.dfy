/** When the kernel takes the batch that cleans up the structure of a hook.

Any number of base chains may hold the jump any number of times.  The sweeps work through the base chains
in listing order while the cache shrinks; whether each of them is complete, and whether it queues a deletion
twice, can still be read off the rules as they were fetched.
*/
module Acceptance {
  import opened Encoding
  import opened Options
  import opened Searching
  import opened Conditions
  import opened RuleCache
  import opened Kernels
  import opened Mutations
  import opened Foundation
  import opened Teardown
  import opened Duplicates
  import Meaning
  import E = Expressions

  // ----- Chains among the fetched rules stand in listing order

  lemma BeforeConcat(head: seq<Rule>, rest: seq<Rule>, a: Rule -> bool, b: Rule -> bool)
    requires forall r :: r in head ==> !b(r)
    requires (forall r :: r in rest ==> !a(r)) || ((forall r :: r in head ==> !a(r)) && Before(rest, a, b))
    ensures Before(head + rest, a, b)
  {
    var s := head + rest;
    assert forall x :: 0 <= x < |head| ==> s[x] == head[x] && s[x] in head;
    assert forall x :: |head| <= x < |s| ==> s[x] == rest[x - |head|] && s[x] in rest;
  }

  lemma NotAmongRest(k: Kernel, instance: string, ids: seq<ChainId>, cond: Condition)
    requires ids != [] && (forall id :: id in ids ==> id in k.rules) && Once(ids)
    requires forall id, r :: id in k.rules && r in k.rules[id] ==> r.table == id.table && r.chain == id.chain
    ensures forall r :: r in RulesOf(k, instance, ids[1..]) ==> !At(ids[0], cond)(r)
  {
    hide Recognised, RulesOf;
    RulesComeFrom(k, instance, ids[1..]);
    forall r | r in RulesOf(k, instance, ids[1..]) ensures !At(ids[0], cond)(r) {
      var id :| id in ids[1..] && r in k.rules[id];
      assert id != ids[0];
    }
  }

  lemma {:induction false} ListedInOrder(k: Kernel, instance: string, ids: seq<ChainId>, x: nat, y: nat, cond: Condition)
    requires (forall id :: id in ids ==> id in k.rules) && Once(ids) && x < y < |ids|
    requires forall id, r :: id in k.rules && r in k.rules[id] ==> r.table == id.table && r.chain == id.chain
    ensures Before(RulesOf(k, instance, ids), At(ids[x], cond), At(ids[y], cond))
    decreases x
  {
    hide Recognised, Before, At, Once, Listed;
    var head, rest := if Listed(k, instance, ids[0]) then k.rules[ids[0]] else [], RulesOf(k, instance, ids[1..]);
    var a, b := At(ids[x], cond), At(ids[y], cond);
    OnceOnly(ids, y);
    OtherChain(head, ids[0], ids[y], cond);
    if x == 0 {
      NotAmongRest(k, instance, ids, cond);
    } else {
      OnceOnly(ids, x);
      OtherChain(head, ids[0], ids[x], cond);
      ListedInOrder(k, instance, ids[1..], x - 1, y - 1, cond);
    }
    BeforeConcat(head, rest, a, b);
  }

  lemma OnceOnly(ids: seq<ChainId>, x: nat)
    requires Once(ids) && 0 < x < |ids|
    ensures ids[x] != ids[0] && Once(ids[1..])
  {
  }

  lemma OtherChain(rules: seq<Rule>, id: ChainId, other: ChainId, cond: Condition)
    requires id != other && forall r :: r in rules ==> r.table == id.table && r.chain == id.chain
    ensures forall r :: r in rules ==> !At(other, cond)(r)
  {
    hide Recognised;
  }

  lemma {:induction false} HookedPosition(hooked: map<ChainId, nat>, ids: seq<ChainId>, hook: nat, j: nat) returns (y: nat)
    requires j < |HookedOf(hooked, ids, hook)|
    ensures y < |ids| && ids[y] == HookedOf(hooked, ids, hook)[j]
  {
    var head := if ids[0] in hooked && hooked[ids[0]] == hook then 1 else 0;
    if j < head {
      y := 0;
    } else {
      y := HookedPosition(hooked, ids[1..], hook, j - head);
      y := y + 1;
    }
  }

  lemma {:induction false} HookedPositions(hooked: map<ChainId, nat>, ids: seq<ChainId>, hook: nat, i: nat, j: nat) returns (x: nat, y: nat)
    requires i < j < |HookedOf(hooked, ids, hook)|
    ensures x < y < |ids| && ids[x] == HookedOf(hooked, ids, hook)[i] && ids[y] == HookedOf(hooked, ids, hook)[j]
  {
    hide HookedOf;
    HookedFirst(hooked, ids, hook);
    var rest := HookedOf(hooked, ids[1..], hook);
    if HookedOf(hooked, ids, hook) == rest {
      x, y := HookedPositions(hooked, ids[1..], hook, i, j);
      x := x + 1;
    } else if i == 0 {
      x := 0;
      y := HookedPosition(hooked, ids[1..], hook, j - 1);
    } else {
      x, y := HookedPositions(hooked, ids[1..], hook, i - 1, j - 1);
      x := x + 1;
    }
    y := y + 1;
  }

  lemma HookedFirst(hooked: map<ChainId, nat>, ids: seq<ChainId>, hook: nat)
    requires HookedOf(hooked, ids, hook) != []
    ensures ids != []
    ensures var rest := HookedOf(hooked, ids[1..], hook); HookedOf(hooked, ids, hook) == rest || HookedOf(hooked, ids, hook) == [ids[0]] + rest
  {
  }

  lemma BasesInOrder(k: Kernel, instance: string, hook: nat, i: nat, j: nat, cond: Condition)
    requires WellFormed(k) && i < j < |Bases(k, hook)|
    ensures Before(Fetched(k, instance), At(Bases(k, hook)[i], cond), At(Bases(k, hook)[j], cond))
  {
    hide Recognised, Before, RulesOf, HookedOf;
    var x, y := HookedPositions(k.hooked, k.order, hook, i, j);
    forall other, r | other in k.rules && r in k.rules[other] ensures r.table == other.table && r.chain == other.chain {
      assert ChainWellFormed(other, k.rules[other], NextHandle(k, other.table));
    }
    ListedInOrder(k, instance, k.order, x, y, cond);
  }

  // ----- One base chain when its turn comes

  /** What cleaning up a hook can be asked for: one table, no rule without expressions, and whoever jumps to
  the regular chain is the structure's own jump in a base chain of the hook. */
  ghost predicate Cleanable(k: Kernel, instance: string, site: Site) {
    && Sound(k) && Sane(k, site) && instance <= site.chain && OnlyOwnJumps(k, site)
    && forall id :: id in Bases(k, site.hook) ==> id.chain != site.chain
  }

  /** Among the fetched rules the sweep of a chain is complete, and queues nothing twice. */
  predicate Clear(s: seq<Rule>, id: ChainId, cond: Condition) {
    !InnerPair(s, 0, At(id, cond)) && Again(s, 0, At(id, cond)) == []
  }

  lemma BaseThere(k: Kernel, instance: string, site: Site, i: nat)
    requires WellFormed(k) && Sane(k, site) && i < |Bases(k, site.hook)|
    ensures var id := Bases(k, site.hook)[i];
            id in k.rules && id.table == TableId(FAMILY, site.table) && Listed(k, instance, id) && NoHollow(k.rules[id])
  {
    hide ChainWellFormed, HookedOf, NoHollow;
    assert Bases(k, site.hook)[i] in Bases(k, site.hook);
  }

  /** The sweep of the base chain whose turn it is goes as it would on the fetched rules. */
  lemma TurnAlike(k: Kernel, instance: string, site: Site, j: nat)
    requires Sound(k) && Sane(k, site) && j < |Bases(k, site.hook)|
    ensures var s, bases := Fetched(k, instance), Bases(k, site.hook);
            var c, m := SweptCache(s, bases, j, site.Jump()), At(bases[j], site.Jump());
            && SelectedApart(c, 0, m) && (forall r :: r in c && m(r) ==> r in k.rules[bases[j]])
            && (InnerPair(c, 0, m) <==> InnerPair(s, 0, m)) && Again(c, 0, m) == Again(s, 0, m)
            && forall r :: m(r) ==> (r in c <==> r in s)
  {
    hide Fetched, Sane, JumpsResolve, HandlesApart, WellFormed, Bases, SelectedApart, Before, At, Again, InnerPair, FromFirst, CountWith;
    var s, bases := Fetched(k, instance), Bases(k, site.hook);
    var m := At(bases[j], site.Jump());
    BaseThere(k, instance, site, j);
    FetchedSelected(k, instance, bases[j], site.Jump());
    SweptKeeps(s, bases, j, site.Jump(), m, m);
    forall i | 0 <= i < j ensures SelectedApart(s, 0, At(bases[i], site.Jump())) && Before(s, At(bases[i], site.Jump()), m) {
      BaseThere(k, instance, site, i);
      FetchedSelected(k, instance, bases[i], site.Jump());
      BasesInOrder(k, instance, site.hook, i, j, site.Jump());
    }
    SweptTail(s, bases, j, site.Jump(), m);
    forall r | r in s && m(r) ensures CountWith(SweptCache(s, bases, j, site.Jump()), r.handle) == CountWith(s, r.handle) {
      OthersHandles(k, instance, site, j, r);
      SweptCount(s, bases, j, site.Jump(), r.handle);
    }
    SweptAlike(s, SweptCache(s, bases, j, site.Jump()), m);
  }

  lemma OthersHandles(k: Kernel, instance: string, site: Site, j: nat, r: Rule)
    requires Sound(k) && Sane(k, site) && j < |Bases(k, site.hook)| && r in k.rules[Bases(k, site.hook)[j]]
    ensures forall i, d :: 0 <= i < j && d in Fetched(k, instance) && At(Bases(k, site.hook)[i], site.Jump())(d) ==> d.handle != r.handle
  {
    hide Fetched, Sane, JumpsResolve, WellFormed, Bases, At, Recognised;
    var s, bases := Fetched(k, instance), Bases(k, site.hook);
    BaseThere(k, instance, site, j);
    BasesOnce(k, site.hook);
    forall i, d | 0 <= i < j && d in s && At(bases[i], site.Jump())(d) ensures d.handle != r.handle {
      BaseThere(k, instance, site, i);
      FetchedSelected(k, instance, bases[i], site.Jump());
      assert bases[i] != bases[j];
      assert Apart(k.rules[bases[i]], k.rules[bases[j]]);
    }
  }

  // ----- All base chains

  /** What the sweep of one base chain has left of it. */
  ghost predicate BaseSwept(k: Kernel, instance: string, site: Site, id: ChainId, now: Kernel)
    requires WellFormed(k)
  {
    && id in k.rules && id in now.rules && (forall r :: r in now.rules[id] ==> r in k.rules[id])
    && (forall r :: r in k.rules[id] && !Recognised(site.Jump(), r.exprs) ==> r in now.rules[id])
    && ((forall r :: r in now.rules[id] ==> !Recognised(site.Jump(), r.exprs)) <==> !InnerPair(Fetched(k, instance), 0, At(id, site.Jump())))
  }

  ghost predicate SweptTo(k: Kernel, instance: string, site: Site, n: nat, now: Kernel)
    requires WellFormed(k) && n <= |Bases(k, site.hook)|
  {
    && now.rules.Keys == k.rules.Keys && now.hooked == k.hooked
    && (forall id :: id in k.rules && id !in Bases(k, site.hook)[..n] ==> now.rules[id] == k.rules[id])
    && forall i :: 0 <= i < n ==> BaseSwept(k, instance, site, Bases(k, site.hook)[i], now)
  }

  lemma SweepOne(k: Kernel, instance: string, site: Site, j: nat, now: Kernel)
    requires Sound(k) && Sane(k, site) && j < |Bases(k, site.hook)| && SweptTo(k, instance, site, j, now)
    ensures var s, id := Fetched(k, instance), Bases(k, site.hook)[j];
            var cs := CleaningUp(SweptCache(s, Bases(k, site.hook), j, site.Jump()), id, site.Jump());
            && (Accepted(now, cs) <==> Again(s, 0, At(id, site.Jump())) == [])
            && SweptTo(k, instance, site, j + 1, ApplyAll(now, cs))
  {
    hide Fetched, Sane, JumpsResolve, HandlesApart, WellFormed, Bases, SelectedApart, Again, InnerPair, Accepted, ApplyAll, Recognised, DistinctHandles,
      BaseSwept, Gone, SweptCache, NoHollow;
    var s, bases := Fetched(k, instance), Bases(k, site.hook);
    var id, c, m := bases[j], SweptCache(s, bases, j, site.Jump()), At(bases[j], site.Jump());
    BaseThere(k, instance, site, j);
    BasesOnce(k, site.hook);
    FetchedSelected(k, instance, id, site.Jump());
    TurnAlike(k, instance, site, j);
    assert id !in bases[..j];
    assert id == Id(id.table.name, id.chain) && c[0..] == c;
    SweepAccepted(now, id.table.name, id.chain, c, 0, m);
    SweepEffect(now, id.table.name, id.chain, site.Jump(), c, 0);
    var after := ApplyAll(now, CleaningUp(c, id, site.Jump()));
    SweptHere(k, instance, site, id, now, after, c);
    forall i | 0 <= i < j + 1 ensures BaseSwept(k, instance, site, bases[i], after) {
      if i < j {
        BaseThere(k, instance, site, i);
        assert bases[i] != bases[j];
        StaysSwept(k, instance, site, bases[i], now, after);
      }
    }
    assert bases[..j + 1] == bases[..j] + [id];
  }

  lemma StaysSwept(k: Kernel, instance: string, site: Site, id: ChainId, now: Kernel, after: Kernel)
    requires WellFormed(k) && BaseSwept(k, instance, site, id, now) && id in after.rules && after.rules[id] == now.rules[id]
    ensures BaseSwept(k, instance, site, id, after)
  {
    hide Recognised, InnerPair, Fetched, WellFormed;
  }

  lemma SweptHere(k: Kernel, instance: string, site: Site, id: ChainId, now: Kernel, after: Kernel, c: seq<Rule>)
    requires WellFormed(k) && id in k.rules && id in now.rules && now.rules[id] == k.rules[id] && id in after.rules
    requires var m, s := At(id, site.Jump()), Fetched(k, instance);
             && (forall r :: r in after.rules[id] ==> r in k.rules[id])
             && (forall r :: r in k.rules[id] && !Recognised(site.Jump(), r.exprs) ==> r in after.rules[id])
             && ((forall r :: r in after.rules[id] && r in c ==> !Recognised(site.Jump(), r.exprs)) <==> !InnerPair(c, 0, m))
             && (InnerPair(c, 0, m) <==> InnerPair(s, 0, m)) && (forall r :: m(r) ==> (r in c <==> r in s))
             && forall r :: r in k.rules[id] ==> r in s && InChain(FAMILY, id.table.name, id.chain, r)
    requires id.table.family == FAMILY
    ensures BaseSwept(k, instance, site, id, after)
  {
    hide Recognised, InnerPair, Fetched, WellFormed;
    forall r | r in after.rules[id] && Recognised(site.Jump(), r.exprs) ensures r in c {
      assert At(id, site.Jump())(r);
    }
  }

  lemma SoundIsWellFormed(k: Kernel)
    requires Sound(k)
    ensures WellFormed(k)
  {
    hide WellFormed, HandlesApart, JumpsResolve;
  }

  lemma {:induction false} SweepAll(k: Kernel, instance: string, site: Site, n: nat)
    requires Sound(k) && Sane(k, site) && n <= |Bases(k, site.hook)|
    ensures var s, bases := Fetched(k, instance), Bases(k, site.hook);
            var cs := SweepBatch(s, bases, n, site.Jump());
            && SweptTo(k, instance, site, n, ApplyAll(k, cs))
            && (Accepted(k, cs) <==> forall i :: 0 <= i < n ==> Again(s, 0, At(bases[i], site.Jump())) == [])
  {
    hide Fetched, Sane, Sound, WellFormed, Bases, Again, Accepted, ApplyAll, SweptTo, CleaningUp, At, SweptCache;
    SoundIsWellFormed(k);
    var s, bases := Fetched(k, instance), Bases(k, site.hook);
    if n == 0 {
      AcceptedNothing(k);
      NothingSweptYet(k, instance, site);
    } else {
      var before := SweepBatch(s, bases, n - 1, site.Jump());
      var cs := CleaningUp(SweptCache(s, bases, n - 1, site.Jump()), bases[n - 1], site.Jump());
      SweepAll(k, instance, site, n - 1);
      SweepOne(k, instance, site, n - 1, ApplyAll(k, before));
      ApplyConcat(k, before, cs);
      AcceptedConcat(k, before, cs);
    }
  }

  lemma NothingSweptYet(k: Kernel, instance: string, site: Site)
    requires WellFormed(k)
    ensures SweptTo(k, instance, site, 0, k)
  {
    hide BaseSwept, WellFormed, Bases;
  }

  // ----- The regular chain

  lemma OwnAccepted(k: Kernel, instance: string, site: Site, c: seq<Rule>, now: Kernel)
    requires Sound(k) && instance <= site.chain && (forall r :: r in c ==> r in Fetched(k, instance))
    requires SelectedApart(c, 0, At(site.Target(), Meaning.EstablishedRule))
    requires site.Target() in k.rules ==> site.Target() in now.rules && now.rules[site.Target()] == k.rules[site.Target()]
    ensures var cs := CleaningUp(c, site.Target(), Meaning.EstablishedRule);
            && (Accepted(now, cs) <==> Again(c, 0, At(site.Target(), Meaning.EstablishedRule)) == [])
            && (site.Target() !in k.rules ==> ApplyAll(now, cs) == now)
  {
    hide Fetched, JumpsResolve, HandlesApart, WellFormed, SelectedApart, Again, Accepted, ApplyAll, Recognised, DistinctHandles, Gone, Meaning.EstablishedRule;
    var m := At(site.Target(), Meaning.EstablishedRule);
    FetchedSelected(k, instance, site.Target(), Meaning.EstablishedRule);
    if site.Target() in k.rules {
      SweepAccepted(now, site.table, site.chain, c, 0, m);
    } else {
      assert c[0..] == c;
      NothingGone(c, 0, m);
      NothingAgain(c, 0, m);
      NoDelCommands(site.table, site.chain);
      AcceptedNothing(now);
    }
  }

  lemma NothingAgain(s: seq<Rule>, p: nat, m: Rule -> bool)
    requires Gone(s, p, m) == []
    ensures Again(s, p, m) == []
  {
    hide CountWith, Deleted, Spare, Again;
  }

  lemma TargetMissing(k: Kernel, instance: string, site: Site, id: ChainId)
    requires Sound(k) && Sane(k, site) && id in Bases(k, site.hook) && site.Target() !in k.rules
    ensures Clear(Fetched(k, instance), id, site.Jump())
    ensures forall r :: r in RulesIn(k, id) ==> !Recognised(site.Jump(), r.exprs)
  {
    hide Fetched, HandlesApart, WellFormed, Recognised, Again, ExprsResolve, Gone, Bases;
    BaseOfHook(k, site, id);
    FetchedSelected(k, instance, id, site.Jump());
    NoJumpYet(site, k.rules[id], k.rules.Keys);
    var s, m := Fetched(k, instance), At(id, site.Jump());
    assert s[0..] == s && Clean(s, m);
    NothingGone(s, 0, m);
    NothingAgain(s, 0, m);
  }

  lemma BaseOfHook(k: Kernel, site: Site, id: ChainId)
    requires WellFormed(k) && Sane(k, site) && id in Bases(k, site.hook)
    ensures id in k.rules && id in k.hooked && k.hooked[id] == site.hook && id.table == TableId(FAMILY, site.table) && NoHollow(k.rules[id])
  {
    hide ChainWellFormed, HookedOf, NoHollow;
  }

  /** The regular chain may go exactly when every base chain has lost its jumps. */
  lemma DropAdmitted(k: Kernel, instance: string, site: Site, now: Kernel)
    requires Cleanable(k, instance, site) && site.Target() in k.rules && now.rules.Keys == k.rules.Keys
    requires forall id :: id in k.rules && id !in Bases(k, site.hook) && id != site.Target() ==> now.rules[id] == k.rules[id]
    requires forall id :: id in Bases(k, site.hook) ==> BaseSwept(k, instance, site, id, now)
    ensures Admits(now, DelChain(site.table, site.chain)) <==>
              forall id :: id in Bases(k, site.hook) ==> !InnerPair(Fetched(k, instance), 0, At(id, site.Jump()))
  {
    hide Fetched, HandlesApart, WellFormed, Recognised, InnerPair, Bases, JumpTo, NoJumpTo, OwnJumps, Sane, JumpsResolve;
    forall id | id in Bases(k, site.hook)
      ensures id in now.rules && id != site.Target() && id.table == TableId(FAMILY, site.table)
      ensures NoJumpTo(now.rules[id], site.chain) <==> !InnerPair(Fetched(k, instance), 0, At(id, site.Jump()))
    {
      BaseOfHook(k, site, id);
      assert BaseSwept(k, instance, site, id, now);
      JumpsGone(site, k.rules[id], now.rules[id]);
    }
    BasesHooked(k);
    forall id | id in now.rules && id !in Bases(k, site.hook) && id != site.Target() && id.table == TableId(FAMILY, site.table)
      ensures NoJumpTo(now.rules[id], site.chain)
    {
      NoneJumps(site, false, k.rules[id]);
    }
  }

  lemma JumpsGone(site: Site, rules: seq<Rule>, less: seq<Rule>)
    requires OwnJumps(site, true, rules) && NoHollow(rules) && forall r :: r in less ==> r in rules
    ensures NoJumpTo(less, site.chain) <==> forall r :: r in less ==> !Recognised(site.Jump(), r.exprs)
  {
    hide Recognised, JumpTo;
    forall r | r in less && Recognised(site.Jump(), r.exprs) ensures JumpsTo(r.exprs, site.chain) {
      RecognisedJumps(site, r.exprs);
    }
    forall r, e | r in less && e in r.exprs && IsJump(e) && e.chain == site.chain ensures Recognised(site.Jump(), r.exprs) {
      assert JumpsTo(r.exprs, site.chain);
    }
  }

  // ----- The whole batch

  /** No base chain has two jumps in a row, unless at the very end of the cache, and no sweep queues a
  deletion twice. */
  ghost predicate Untangled(k: Kernel, instance: string, site: Site)
    requires WellFormed(k)
  {
    var s, bases := Fetched(k, instance), Bases(k, site.hook);
    bases != [] ==>
      && (forall id :: id in bases ==> Clear(s, id, site.Jump()))
      && (site.established ==> Again(SweptCache(s, bases, |bases|, site.Jump()), 0, At(site.Target(), Meaning.EstablishedRule)) == [])
  }

  /** The ruleset after the sweeps and the regular chain's own one, before the chain goes. */
  lemma SweptAndOwn(k: Kernel, instance: string, site: Site)
    requires Cleanable(k, instance, site) && Bases(k, site.hook) != []
    ensures var s, bases, target := Fetched(k, instance), Bases(k, site.hook), site.Target();
            var c := SweptCache(s, bases, |bases|, site.Jump());
            var own := if site.established then CleaningUp(c, target, Meaning.EstablishedRule) else [];
            var sweeps := SweepBatch(s, bases, |bases|, site.Jump());
            var now := ApplyAll(k, sweeps + own);
            && now.rules.Keys == k.rules.Keys
            && (forall id :: id in k.rules && id !in bases && id != target ==> now.rules[id] == k.rules[id])
            && (forall id :: id in bases ==> BaseSwept(k, instance, site, id, now))
            && (Accepted(k, sweeps + own) <==>
                  && (forall id :: id in bases ==> Again(s, 0, At(id, site.Jump())) == [])
                  && (site.established ==> Again(c, 0, At(target, Meaning.EstablishedRule)) == []))
  {
    hide Fetched, Sane, JumpsResolve, HandlesApart, WellFormed, Bases, Again, Accepted, ApplyAll, CleaningUp, At, OnlyOwnJumps, SweptCache, SweepBatch,
      SelectedApart, Before, BaseSwept, Meaning.EstablishedRule;
    var s, bases, target := Fetched(k, instance), Bases(k, site.hook), site.Target();
    var c, m := SweptCache(s, bases, |bases|, site.Jump()), At(target, Meaning.EstablishedRule);
    var own := if site.established then CleaningUp(c, target, Meaning.EstablishedRule) else [];
    var sweeps := SweepBatch(s, bases, |bases|, site.Jump());
    var swept := ApplyAll(k, sweeps);
    SweepAll(k, instance, site, |bases|);
    assert bases[..|bases|] == bases;
    ApplyConcat(k, sweeps, own);
    AcceptedConcat(k, sweeps, own);
    FetchedSelected(k, instance, target, Meaning.EstablishedRule);
    SweptKeeps(s, bases, |bases|, site.Jump(), m, m);
    OwnAccepted(k, instance, site, c, swept);
    AcceptedNothing(swept);
    if target in k.rules {
      OwnElsewhere(swept, site, c);
    }
    forall id | id in bases ensures BaseSwept(k, instance, site, id, ApplyAll(k, sweeps + own)) {
      var i :| 0 <= i < |bases| && bases[i] == id;
      BaseThere(k, instance, site, i);
      StaysSwept(k, instance, site, id, swept, ApplyAll(k, sweeps + own));
    }
  }

  lemma OwnElsewhere(k: Kernel, site: Site, c: seq<Rule>)
    requires site.Target() in k.rules
    ensures var now := ApplyAll(k, CleaningUp(c, site.Target(), Meaning.EstablishedRule));
            now.rules.Keys == k.rules.Keys && forall id :: id in k.rules && id != site.Target() ==> now.rules[id] == k.rules[id]
  {
    hide Gone, At, ApplyAll, Meaning.EstablishedRule;
    DeletionsShrink(k, site.table, site.chain, Gone(c, 0, At(site.Target(), Meaning.EstablishedRule)));
  }

  /** Whatever base chains there are and however often each holds the jump: the kernel takes the batch exactly
  when the sweeps are untangled, and then no jump is left, nothing else is lost and the regular chain is
  gone. */
  lemma CleanUpAcceptedExactly(k: Kernel, instance: string, site: Site)
    requires Cleanable(k, instance, site)
    ensures var cs, k' := CleanUpBatch(k, instance, site), ApplyAll(k, CleanUpBatch(k, instance, site));
            && (Accepted(k, cs) <==> Untangled(k, instance, site))
            && (Untangled(k, instance, site) ==> JumpsResolve(k'))
            && (Untangled(k, instance, site) && Bases(k, site.hook) != [] ==>
                  && site.Target() !in k'.rules
                  && forall id :: id in Bases(k, site.hook) ==> id in k'.rules && JumpsOut(site, k.rules[id], k'.rules[id]))
  {
    hide Fetched, Sane, JumpsResolve, HandlesApart, WellFormed, Bases, Again, Accepted, ApplyAll, CleaningUp, At, OnlyOwnJumps, SweptCache, SweepBatch,
      BaseSwept, Meaning.EstablishedRule, JumpsOut;
    var s, bases, target, cs := Fetched(k, instance), Bases(k, site.hook), site.Target(), CleanUpBatch(k, instance, site);
    if bases == [] {
      AcceptedNothing(k);
    } else {
      SweptAndOwn(k, instance, site);
      OrderedChains(k);
      var own := if site.established then CleaningUp(SweptCache(s, bases, |bases|, site.Jump()), target, Meaning.EstablishedRule) else [];
      var first, last := SweepBatch(s, bases, |bases|, site.Jump()) + own, if target in k.order then [DelChain(site.table, site.chain)] else [];
      assert cs == first + last;
      AcceptedConcat(k, first, last);
      ApplyConcat(k, first, last);
      Dropped(ApplyAll(k, first), site);
      if target in k.rules {
        DropAdmitted(k, instance, site, ApplyAll(k, first));
      } else {
        forall id | id in bases ensures Clear(s, id, site.Jump()) {
          TargetMissing(k, instance, site, id);
        }
      }
      if Untangled(k, instance, site) {
        BasesAreOut(k, instance, site, ApplyAll(k, first), ApplyAll(k, cs));
      }
    }
    if Untangled(k, instance, site) {
      AcceptedResolves(k, cs, |cs|);
      assert cs[..|cs|] == cs;
    }
  }

  /** The recognised rules are out, and no other. */
  ghost predicate JumpsOut(site: Site, rules: seq<Rule>, left: seq<Rule>) {
    forall r :: r in left <==> r in rules && !Recognised(site.Jump(), r.exprs)
  }

  lemma Dropped(k: Kernel, site: Site)
    ensures var cs := [DelChain(site.table, site.chain)];
            && ApplyAll(k, cs).rules == k.rules - {site.Target()} && ApplyAll(k, []) == k
            && (Accepted(k, cs) <==> Admits(k, DelChain(site.table, site.chain))) && Accepted(k, [])
  {
    hide Admits;
    ApplyOne(k, DelChain(site.table, site.chain));
    AcceptedOne(k, DelChain(site.table, site.chain));
    AcceptedNothing(k);
  }

  lemma BasesAreOut(k: Kernel, instance: string, site: Site, now: Kernel, k': Kernel)
    requires Cleanable(k, instance, site) && forall id :: id in Bases(k, site.hook) ==> BaseSwept(k, instance, site, id, now) && Clear(Fetched(k, instance), id, site.Jump())
    requires now.rules.Keys == k.rules.Keys && k'.rules == (if site.Target() in k.rules then now.rules - {site.Target()} else now.rules)
    ensures site.Target() !in k'.rules
    ensures forall id :: id in Bases(k, site.hook) ==> id in k'.rules && JumpsOut(site, k.rules[id], k'.rules[id])
  {
    hide Fetched, JumpsResolve, HandlesApart, WellFormed, Bases, Again, InnerPair, Recognised, OnlyOwnJumps, Sane;
    forall id | id in Bases(k, site.hook) ensures id in k'.rules && JumpsOut(site, k.rules[id], k'.rules[id]) {
      BaseOfHook(k, site, id);
      assert BaseSwept(k, instance, site, id, now) && Clear(Fetched(k, instance), id, site.Jump());
      assert id != site.Target();
    }
  }

  /** A structure with one jump per base chain is cleaned up in any case. */
  lemma RemovableIsUntangled(k: Kernel, instance: string, site: Site)
    requires Removable(k, instance, site)
    ensures Cleanable(k, instance, site) && Untangled(k, instance, site)
  {
    hide JumpsResolve, HandlesApart, WellFormed, Accepted, CleanUpBatch, CleanedUp, OnlyOwnJumps, Untangled, Sane, AtMostOne, BaseReady;
    ReadyIsSane(k, instance, site);
    ReadyIsWellFormed(k, instance, site);
    forall id | id in Bases(k, site.hook) ensures id.chain != site.chain {
      BaseOfHook(k, site, id);
    }
    CleanUpReached(k, instance, site);
    CleanUpAcceptedExactly(k, instance, site);
  }

  // ----- Presenting

  /** Presenting finds no rule, or queues no deletion twice behind the first one. */
  predicate NoRepeat(s: seq<Rule>, id: ChainId, cond: Condition) {
    First(s, At(id, cond)) == |s| || Again(s, First(s, At(id, cond)) + 1, At(id, cond)) == []
  }

  lemma PresentOne(k: Kernel, instance: string, id: ChainId, cond: Condition, first: bool, data: Bytes, c: seq<Rule>, now: Kernel)
    requires WellFormed(k) && id.table.family == FAMILY && (id in k.rules ==> Listed(k, instance, id))
    requires id in now.rules && now.rules[id] == RulesIn(k, id) && ExprsResolve(Built(cond), id.table, now.rules.Keys)
    requires (forall r :: r in c ==> r in Fetched(k, instance)) && SelectedApart(c, 0, At(id, cond))
    ensures var cs := Presenting(c, id, cond, first, data);
            && (Accepted(now, cs) <==> NoRepeat(c, id, cond))
            && ApplyAll(now, cs).rules.Keys == now.rules.Keys
            && forall other :: other in now.rules && other != id ==> ApplyAll(now, cs).rules[other] == now.rules[other]
  {
    hide Fetched, WellFormed, Again, Gone, Accepted, ApplyAll, First, SelectedApart, Built, ExprsResolve, DistinctHandles, At, Listed, Admits, Apply;
    var m, f := At(id, cond), First(c, At(id, cond));
    assert id == Id(id.table.name, id.chain);
    FetchedSelected(k, instance, id, cond);
    if f == |c| {
      RuleAdmitted(now, id, Built(cond), first, data);
    } else {
      assert id in k.rules by {
        assert c[f] in c;
      }
      ApartFromThere(c, f + 1, m);
      SweepTaken(now, id, cond, c, f + 1);
      DeletionsShrink(now, id.table.name, id.chain, Gone(c, f + 1, m));
    }
  }

  lemma SweepTaken(k: Kernel, id: ChainId, cond: Condition, s: seq<Rule>, p: nat)
    requires id.table.family == FAMILY && id in k.rules && DistinctHandles(k.rules[id]) && p <= |s| && SelectedApart(s, p, At(id, cond))
    requires forall r :: r in s && At(id, cond)(r) ==> r in k.rules[id]
    ensures Accepted(k, DelCommands(id.table.name, id.chain, Gone(s, p, At(id, cond)))) <==> Again(s, p, At(id, cond)) == []
  {
    hide Recognised, Again, Gone, Accepted, SelectedApart, DistinctHandles;
    assert id == Id(id.table.name, id.chain);
    SweepAccepted(k, id.table.name, id.chain, s, p, At(id, cond));
  }

  lemma RuleAdmitted(k: Kernel, id: ChainId, exprs: Exprs, first: bool, data: Bytes)
    requires id.table.family == FAMILY && id in k.rules && ExprsResolve(exprs, id.table, k.rules.Keys)
    ensures var cs := [AddRule(id.table.name, id.chain, exprs, first, data)];
            && Accepted(k, cs) && ApplyAll(k, cs).rules.Keys == k.rules.Keys
            && forall other :: other in k.rules && other != id ==> ApplyAll(k, cs).rules[other] == k.rules[other]
  {
    hide ExprsResolve;
    assert id == Id(id.table.name, id.chain);
    AcceptedOne(k, AddRule(id.table.name, id.chain, exprs, first, data));
    ApplyOne(k, AddRule(id.table.name, id.chain, exprs, first, data));
  }

  lemma ApartFromThere(s: seq<Rule>, p: nat, m: Rule -> bool)
    requires SelectedApart(s, 0, m)
    ensures SelectedApart(s, p, m)
  {
  }

  lemma PresentedKeeps(s: seq<Rule>, id: ChainId, cond: Condition, a: Rule -> bool)
    ensures SelectedApart(s, 0, a) ==> SelectedApart(PresentedCache(s, id, cond), 0, a)
    ensures forall r :: r in PresentedCache(s, id, cond) ==> r in s
  {
    hide WithoutAll, Gone, SelectedApart, First;
    PresentedCacheOld(s, id, cond);
    if First(s, At(id, cond)) < |s| {
      WithoutAllKeeps(s, Gone(s, First(s, At(id, cond)) + 1, At(id, cond)), a, a);
    }
  }

  lemma {:induction false} JumpsKeep(s: seq<Rule>, ids: seq<ChainId>, n: nat, cond: Condition, a: Rule -> bool)
    requires n <= |ids|
    ensures SelectedApart(s, 0, a) ==> SelectedApart(JumpsCache(s, ids, n, cond), 0, a)
    ensures forall r :: r in JumpsCache(s, ids, n, cond) ==> r in s
  {
    hide PresentedCache, SelectedApart;
    if n > 0 {
      JumpsKeep(s, ids, n - 1, cond, a);
      PresentedKeeps(JumpsCache(s, ids, n - 1, cond), ids[n - 1], cond, a);
    }
  }

  /** What presenting at a hook can be asked for. */
  ghost predicate Presentable(k: Kernel, instance: string, site: Site) {
    && WellFormed(k) && Sane(k, site) && instance <= site.chain && site.base != site.chain
    && (forall id :: id in Bases(k, site.hook) ==> id.chain != site.chain)
    && (Bases(k, site.hook) == [] && Id(site.table, site.base) in k.rules ==> Listed(k, instance, Id(site.table, site.base)))
  }

  /** The chains other than the regular one and those behind are as before. */
  ghost predicate PresentedTo(k: Kernel, site: Site, n: nat, now: Kernel)
    requires n <= |Bases(k, site.hook)|
  {
    && now.rules.Keys == k.rules.Keys + {site.Target()}
    && forall id :: id in k.rules && id != site.Target() && id !in Bases(k, site.hook)[..n] ==> now.rules[id] == k.rules[id]
  }

  lemma {:induction false} JumpsAccepted(k: Kernel, instance: string, site: Site, data: Bytes, n: nat, s: seq<Rule>, start: Kernel)
    requires Presentable(k, instance, site) && n <= |Bases(k, site.hook)| && PresentedTo(k, site, 0, start)
    requires (forall r :: r in s ==> r in Fetched(k, instance))
    requires forall id :: id in Bases(k, site.hook) ==> SelectedApart(s, 0, At(id, site.Jump()))
    ensures var bases := Bases(k, site.hook);
            var cs := JumpsBatch(s, bases, n, site.Jump(), data);
            && PresentedTo(k, site, n, ApplyAll(start, cs))
            && (Accepted(start, cs) <==> forall j :: 0 <= j < n ==> NoRepeat(JumpsCache(s, bases, j, site.Jump()), bases[j], site.Jump()))
  {
    hide Fetched, WellFormed, Sane, Bases, Accepted, ApplyAll, NoRepeat, Presenting, JumpsCache, SelectedApart, At, PresentedTo, ExprsResolve, Built;
    var bases := Bases(k, site.hook);
    if n == 0 {
      AcceptedNothing(start);
    } else {
      var before, c := JumpsBatch(s, bases, n - 1, site.Jump(), data), JumpsCache(s, bases, n - 1, site.Jump());
      var cs := Presenting(c, bases[n - 1], site.Jump(), false, data);
      JumpsAccepted(k, instance, site, data, n - 1, s, start);
      JumpsKeep(s, bases, n - 1, site.Jump(), At(bases[n - 1], site.Jump()));
      JumpAccepted(k, instance, site, data, n - 1, c, ApplyAll(start, before));
      ApplyConcat(start, before, cs);
      AcceptedConcat(start, before, cs);
    }
  }

  lemma JumpAccepted(k: Kernel, instance: string, site: Site, data: Bytes, j: nat, c: seq<Rule>, now: Kernel)
    requires Presentable(k, instance, site) && j < |Bases(k, site.hook)| && PresentedTo(k, site, j, now)
    requires (forall r :: r in c ==> r in Fetched(k, instance)) && SelectedApart(c, 0, At(Bases(k, site.hook)[j], site.Jump()))
    ensures var cs := Presenting(c, Bases(k, site.hook)[j], site.Jump(), false, data);
            && (Accepted(now, cs) <==> NoRepeat(c, Bases(k, site.hook)[j], site.Jump())) && PresentedTo(k, site, j + 1, ApplyAll(now, cs))
  {
    hide Fetched, WellFormed, Sane, Accepted, ApplyAll, NoRepeat, Presenting, SelectedApart, At, Bases, ExprsResolve, Built, Listed;
    var bases := Bases(k, site.hook);
    BaseThere(k, instance, site, j);
    BasesOnce(k, site.hook);
    assert bases[j] in bases && bases[j] !in bases[..j] && bases[j] in bases[..j + 1];
    assert forall id :: id in bases[..j] ==> id in bases[..j + 1];
    JumpResolves(site, now.rules.Keys);
    PresentOne(k, instance, bases[j], site.Jump(), false, data, c, now);
  }

  /** What the batch must not do: queue a deletion twice, in the regular chain or in a base chain. */
  ghost predicate PresentsOnce(k: Kernel, instance: string, site: Site)
    requires WellFormed(k)
  {
    var s, bases := Fetched(k, instance), Bases(k, site.hook);
    && (site.established ==> NoRepeat(s, site.Target(), Meaning.EstablishedRule))
    && (bases == [] ==> NoRepeat(OwnCache(s, site), Id(site.table, site.base), site.Jump()))
    && forall j :: 0 <= j < |bases| ==> NoRepeat(JumpsCache(OwnCache(s, site), bases, j, site.Jump()), bases[j], site.Jump())
  }

  lemma RegularAccepted(k: Kernel, instance: string, site: Site, data: Bytes, table: seq<Command>)
    requires Presentable(k, instance, site) && (table == [] || table == [AddTable(site.table)])
    ensures var s := Fetched(k, instance);
            var cs := table + RegularBatch(s, site, data);
            && PresentedTo(k, site, 0, ApplyAll(k, cs))
            && (Accepted(k, cs) <==> (site.established ==> NoRepeat(s, site.Target(), Meaning.EstablishedRule)))
  {
    hide Fetched, WellFormed, Sane, Accepted, ApplyAll, NoRepeat, Presenting, SelectedApart, At, Bases, ExprsResolve, Built, Meaning.EstablishedRule;
    var s, chain := Fetched(k, instance), [AddChain(site.table, site.chain, None)];
    var own, k1 := OwnBatch(s, site, data), Apply(k, chain[0]);
    ApplyOne(k, AddTable(site.table));
    AcceptedOne(k, AddTable(site.table));
    AcceptedNothing(k);
    ApplyOne(k, chain[0]);
    AcceptedOne(k, chain[0]);
    assert table + RegularBatch(s, site, data) == table + chain + own;
    ApplyConcat(k, table + chain, own);
    AcceptedConcat(k, table + chain, own);
    ApplyConcat(k, table, chain);
    AcceptedConcat(k, table, chain);
    AcceptedNothing(k1);
    if site.established {
      EstablishedExprs();
      NoJumpsResolve(Built(Meaning.EstablishedRule), site.Target().table, k1.rules.Keys);
      FetchedSelected(k, instance, site.Target(), Meaning.EstablishedRule);
      PresentOne(k, instance, site.Target(), Meaning.EstablishedRule, true, data, s, k1);
    }
  }

  /** The kernel takes the batch that presents the structure of a hook, whatever base chains there are and
  however often each holds the jump, exactly when no deletion is queued twice. */
  lemma PresentAcceptedExactly(k: Kernel, instance: string, site: Site, data: Bytes)
    requires Presentable(k, instance, site)
    ensures Accepted(k, PresentBatch(k, instance, site, data)) <==> PresentsOnce(k, instance, site)
  {
    hide Fetched, WellFormed, Sane, Accepted, ApplyAll, NoRepeat, Presenting, SelectedApart, At, Bases, ExprsResolve, Built, Listed, JumpsBatch, JumpsCache,
      RegularBatch, OwnCache, Meaning.EstablishedRule;
    var s, bases := Fetched(k, instance), Bases(k, site.hook);
    var s1, table := OwnCache(s, site), if bases == [] then [AddTable(site.table)] else [];
    var regular := table + RegularBatch(s, site, data);
    RegularAccepted(k, instance, site, data, table);
    OwnCacheOld(s, site);
    if bases == [] {
      NewBaseAccepted(k, instance, site, data, s1, ApplyAll(k, regular));
      var rest := [AddChain(site.table, site.base, Some(site.hook))] + Presenting(s1, Id(site.table, site.base), site.Jump(), false, data);
      assert PresentBatch(k, instance, site, data) == regular + rest;
      AcceptedConcat(k, regular, rest);
    } else {
      forall id | id in bases ensures SelectedApart(s1, 0, At(id, site.Jump())) {
        var j :| 0 <= j < |bases| && bases[j] == id;
        BaseThere(k, instance, site, j);
        OwnCacheApart(k, instance, site, id);
      }
      assert [] + RegularBatch(s, site, data) == RegularBatch(s, site, data);
      JumpsAccepted(k, instance, site, data, |bases|, s1, ApplyAll(k, regular));
      AcceptedConcat(k, regular, JumpsBatch(s1, bases, |bases|, site.Jump(), data));
    }
  }

  lemma OwnCacheApart(k: Kernel, instance: string, site: Site, id: ChainId)
    requires WellFormed(k) && id.table.family == FAMILY && (id in k.rules ==> Listed(k, instance, id))
    ensures SelectedApart(OwnCache(Fetched(k, instance), site), 0, At(id, site.Jump()))
  {
    hide Fetched, WellFormed, SelectedApart, At, PresentedCache, Meaning.EstablishedRule;
    FetchedSelected(k, instance, id, site.Jump());
    PresentedKeeps(Fetched(k, instance), site.Target(), Meaning.EstablishedRule, At(id, site.Jump()));
  }

  lemma NewBaseAccepted(k: Kernel, instance: string, site: Site, data: Bytes, c: seq<Rule>, now: Kernel)
    requires Presentable(k, instance, site) && Bases(k, site.hook) == [] && PresentedTo(k, site, 0, now) && c == OwnCache(Fetched(k, instance), site)
    ensures var id := Id(site.table, site.base);
            var cs := [AddChain(site.table, site.base, Some(site.hook))] + Presenting(c, id, site.Jump(), false, data);
            Accepted(now, cs) <==> NoRepeat(c, id, site.Jump())
  {
    hide Fetched, WellFormed, Sane, Accepted, ApplyAll, NoRepeat, Presenting, SelectedApart, At, Bases, ExprsResolve, Built, Listed, OwnCache;
    var id, add := Id(site.table, site.base), AddChain(site.table, site.base, Some(site.hook));
    var k1 := Apply(now, add);
    OwnCacheApart(k, instance, site, id);
    OwnCacheOld(Fetched(k, instance), site);
    JumpResolves(site, k1.rules.Keys);
    PresentOne(k, instance, id, site.Jump(), false, data, c, k1);
    ApplyOne(now, add);
    AcceptedOne(now, add);
    AcceptedConcat(now, [add], Presenting(c, id, site.Jump(), false, data));
  }

  // ----- Two inputs

  const ExampleSite := Site(0, "nat", "PREROUTING", "X-PREROUTING", false)
  const BaseId := Id("nat", "PREROUTING")
  const TargetId := Id("nat", "X-PREROUTING")

  function JumpRuleOf(handle: nat): Rule {
    Rule(BaseId.table, BaseId.chain, handle, [E.Counter(0, 0), E.Verdict(E.JumpVerdict, "X-PREROUTING")], [])
  }

  function OtherRule(id: ChainId, handle: nat): Rule {
    Rule(id.table, id.chain, handle, [E.Verdict(E.AcceptVerdict, "")], [])
  }

  /** Two jumps in a row, with another rule behind them. */
  function Doubled(): Kernel {
    Kernel([BaseId, TargetId], map[BaseId := [JumpRuleOf(1), JumpRuleOf(2), OtherRule(BaseId, 3)], TargetId := []], map[BaseId := 0],
           map[BaseId.table := 4], map[])
  }

  /** Two jumps with another rule between them; in another table a base chain, listed first, has a rule with
  the handle of the second jump. */
  function Shared(): Kernel {
    var forward := Id("filter", "FORWARD");
    Kernel([forward, TargetId, BaseId],
           map[forward := [OtherRule(forward, 3)], TargetId := [], BaseId := [JumpRuleOf(1), OtherRule(BaseId, 2), JumpRuleOf(3)]],
           map[forward := 2, BaseId := 0], map[forward.table := 4, BaseId.table := 4], map[])
  }

  lemma ExampleExprs()
    ensures Recognised(ExampleSite.Jump(), JumpRuleOf(1).exprs) && !Recognised(ExampleSite.Jump(), OtherRule(BaseId, 1).exprs)
    ensures !JumpsTo(OtherRule(BaseId, 1).exprs, "X-PREROUTING")
  {
    hide Recognised, JumpTo, Built;
    JumpRuleExprs("X-PREROUTING");
    assert forall e :: e in [E.Verdict(E.AcceptVerdict, "")] ==> !IsJump(e);
  }

  lemma ExampleIds()
    ensures BaseId != TargetId && Id("filter", "FORWARD") != BaseId && Id("filter", "FORWARD") != TargetId
    ensures "X" <= TargetId.chain && !("X" <= BaseId.chain)
  {
    assert |BaseId.chain| == 10 && |TargetId.chain| == 12 && |"nat"| != |"filter"|;
    assert BaseId.chain[0] == 'P';
  }

  lemma JumpsThere(handle: nat, chains: set<ChainId>)
    requires TargetId in chains
    ensures ExprsResolve(JumpRuleOf(handle).exprs, BaseId.table, chains) && ExprsResolve(OtherRule(BaseId, handle).exprs, BaseId.table, chains)
  {
  }

  lemma ApartNothing(rules: seq<Rule>)
    ensures Apart(rules, []) && Apart([], rules)
  {
  }

  lemma ThreeRules(a: Rule, b: Rule, c: Rule, chains: set<ChainId>)
    requires TargetId in chains && a == JumpRuleOf(1) && (b == JumpRuleOf(2) || b == OtherRule(BaseId, 2)) && (c == JumpRuleOf(3) || c == OtherRule(BaseId, 3))
    ensures ChainWellFormed(BaseId, [a, b, c], 4) && Resolve([a, b, c], BaseId.table, chains)
  {
    hide ExprsResolve;
    JumpsThere(1, chains);
    JumpsThere(2, chains);
    JumpsThere(3, chains);
  }

  lemma DoubledSound()
    ensures Sound(Doubled())
  {
    hide ChainWellFormed, Resolve, Apart;
    var k := Doubled();
    ExampleIds();
    ThreeRules(JumpRuleOf(1), JumpRuleOf(2), OtherRule(BaseId, 3), k.rules.Keys);
    NothingIn(TargetId, 4, k.rules.Keys);
    ApartNothing(k.rules[BaseId]);
  }

  lemma DoubledFetched()
    ensures WellFormed(Doubled()) && Bases(Doubled(), 0) == [BaseId] && Fetched(Doubled(), "X") == Doubled().rules[BaseId]
  {
    hide WellFormed;
    DoubledSound();
    ExampleIds();
    var k := Doubled();
    assert k.order[1..] == [TargetId] && [TargetId][1..] == [];
    assert RulesOf(k, "X", [TargetId]) == [] && HookedOf(k.hooked, [TargetId], 0) == [];
  }

  /** The sweep deletes the first jump and skips the second, which names the chain to be deleted. */
  lemma DoubledRefused()
    ensures Cleanable(Doubled(), "X", ExampleSite) && !Accepted(Doubled(), CleanUpBatch(Doubled(), "X", ExampleSite))
    ensures !Clear(Fetched(Doubled(), "X"), BaseId, ExampleSite.Jump())
  {
    hide Recognised, JumpTo, Built, Fetched, WellFormed, JumpsResolve, HandlesApart, Bases, Accepted, CleanUpBatch, Again;
    DoubledSound();
    DoubledFetched();
    var k, s, m := Doubled(), Fetched(Doubled(), "X"), At(BaseId, ExampleSite.Jump());
    ExampleExprs();
    ExampleIds();
    assert |s| == 3 && m(s[0]) && m(s[1]);
    assert InnerPair(s, 0, m);
    CleanUpAcceptedExactly(k, "X", ExampleSite);
  }

  lemma SharedSound()
    ensures Sound(Shared())
  {
    hide ChainWellFormed, Resolve, Apart;
    var k, forward := Shared(), Id("filter", "FORWARD");
    ExampleIds();
    ThreeRules(JumpRuleOf(1), OtherRule(BaseId, 2), JumpRuleOf(3), k.rules.Keys);
    NothingIn(TargetId, 4, k.rules.Keys);
    ForwardAlone(forward, k.rules.Keys);
    assert |forward.table.name| != |BaseId.table.name|;
    ThreeChains(k, forward, TargetId, BaseId);
  }

  lemma ThreeChains(k: Kernel, a: ChainId, b: ChainId, c: ChainId)
    requires k.order == [a, b, c] && a != b && a != c && b != c && a.table != b.table && b.table == c.table
    requires k.rules.Keys == {a, b, c} && k.rules[b] == []
    requires forall id :: id in {a, b, c} ==> ChainWellFormed(id, k.rules[id], NextHandle(k, id.table)) && Resolve(k.rules[id], id.table, k.rules.Keys)
    ensures Sound(k)
  {
    hide ChainWellFormed, Resolve, Apart;
    ApartNothing(k.rules[c]);
  }

  lemma ForwardAlone(id: ChainId, chains: set<ChainId>)
    ensures ChainWellFormed(id, [OtherRule(id, 3)], 4) && Resolve([OtherRule(id, 3)], id.table, chains)
  {
  }

  lemma SharedFetched()
    ensures WellFormed(Shared()) && Bases(Shared(), 0) == [BaseId] && TargetId in Shared().order
    ensures Fetched(Shared(), "X") == [OtherRule(Id("filter", "FORWARD"), 3), JumpRuleOf(1), OtherRule(BaseId, 2), JumpRuleOf(3)]
  {
    hide WellFormed, Fetched, Bases, JumpsResolve, HandlesApart, JumpRuleOf, OtherRule;
    SharedSound();
    ExampleIds();
    var k, forward := Shared(), Id("filter", "FORWARD");
    ThreeFetched(k, "X", forward, TargetId, BaseId, 0);
    assert k.rules[forward] + k.rules[BaseId] == [OtherRule(forward, 3), JumpRuleOf(1), OtherRule(BaseId, 2), JumpRuleOf(3)];
  }

  lemma ThreeFetched(k: Kernel, instance: string, a: ChainId, b: ChainId, c: ChainId, hook: nat)
    requires WellFormed(k) && k.order == [a, b, c] && k.hooked.Keys == {a, c} && k.rules.Keys == {a, b, c} && k.rules[b] == []
    requires a != b && b != c && k.hooked[a] != hook && k.hooked[c] == hook
    ensures Fetched(k, instance) == k.rules[a] + k.rules[c] && Bases(k, hook) == [c]
  {
    hide WellFormed;
    assert k.order[1..] == [b, c] && [b, c][1..] == [c] && [c][1..] == [];
    assert RulesOf(k, instance, [c]) == k.rules[c] && RulesOf(k, instance, [b, c]) == k.rules[c];
    assert HookedOf(k.hooked, [c], hook) == [c] && HookedOf(k.hooked, [b, c], hook) == [c];
  }

  /** The second jump is met again in the stale slot behind the slice, as its handle is still found. */
  lemma FirstAndLast(s: seq<Rule>, m: Rule -> bool)
    requires |s| == 4 && !m(s[0]) && m(s[1]) && !m(s[2]) && m(s[3])
    requires s[0].handle == s[3].handle && s[1].handle != s[3].handle && s[2].handle != s[3].handle
    ensures !InnerPair(s, 0, m) && Again(s, 0, m) == [s[3]] && Gone(s, 0, m) == [s[1], s[3], s[3]]
  {
    hide CountWith;
    assert Deleted(s, 3, m) == [s[3]];
    assert Deleted(s, 1, m) == [s[1]] + Deleted(s, 3, m);
    assert Deleted(s, 0, m) == Deleted(s, 1, m);
    assert Spare(s, 3, m) == 0 && Spare(s, 1, m) == 1 && Spare(s, 0, m) == 1;
    var h := s[3].handle;
    assert s == [s[0]] + ([s[1]] + ([s[2]] + [s[3]])) && Deleted(s, 0, m) == [s[1]] + [s[3]];
    CountConcat([s[0]], [s[1]] + ([s[2]] + [s[3]]), h);
    CountConcat([s[1]], [s[2]] + [s[3]], h);
    CountConcat([s[2]], [s[3]], h);
    CountConcat([s[1]], [s[3]], h);
    CountOne(s[0], h);
    CountOne(s[1], h);
    CountOne(s[2], h);
    CountOne(s[3], h);
    assert Copies(s[3], 1) == [s[3]];
  }

  lemma SharedSelected(s: seq<Rule>)
    requires s == [OtherRule(Id("filter", "FORWARD"), 3), JumpRuleOf(1), OtherRule(BaseId, 2), JumpRuleOf(3)]
    ensures var m := At(BaseId, ExampleSite.Jump()); !m(s[0]) && m(s[1]) && !m(s[2]) && m(s[3])
  {
    hide Recognised, JumpTo, Built;
    ExampleExprs();
    ExampleIds();
  }

  lemma SharedCleanable()
    ensures Cleanable(Shared(), "X", ExampleSite) && BaseId in Bases(Shared(), 0)
  {
    hide Recognised, JumpTo, Built, Fetched, WellFormed, JumpsResolve, HandlesApart, Bases;
    SharedSound();
    ExampleExprs();
    ExampleIds();
    SharedOwnJumps();
  }

  lemma OneBaseBatch(k: Kernel, instance: string, site: Site, base: ChainId)
    requires WellFormed(k) && Bases(k, site.hook) == [base] && !site.established && site.Target() in k.order
    ensures CleanUpBatch(k, instance, site) == CleaningUp(Fetched(k, instance), base, site.Jump()) + [DelChain(site.table, site.chain)]
  {
    hide WellFormed, Fetched, Bases, CleaningUp;
    assert SweepBatch(Fetched(k, instance), [base], 1, site.Jump()) == CleaningUp(Fetched(k, instance), base, site.Jump());
  }

  lemma ThreeCommands(table: string, chain: string, a: Rule, b: Rule, c: Rule)
    ensures DelCommands(table, chain, [a, b, c]) == [DelRule(table, chain, a.handle), DelRule(table, chain, b.handle), DelRule(table, chain, c.handle)]
  {
  }

  lemma SharedBatch()
    ensures WellFormed(Shared()) && CleanUpBatch(Shared(), "X", ExampleSite) ==
              [DelRule("nat", "PREROUTING", 1), DelRule("nat", "PREROUTING", 3), DelRule("nat", "PREROUTING", 3), DelChain("nat", "X-PREROUTING")]
    ensures var s, m := Fetched(Shared(), "X"), At(BaseId, ExampleSite.Jump()); !InnerPair(s, 0, m) && Again(s, 0, m) != []
  {
    hide Shared, CleanUpBatch, DelCommands, At, Recognised, JumpTo, Built, Fetched, WellFormed, JumpsResolve, HandlesApart, Bases, Again, Gone, InnerPair;
    SharedFetched();
    SharedSelected(Fetched(Shared(), "X"));
    var s := Fetched(Shared(), "X");
    FirstAndLast(s, At(BaseId, ExampleSite.Jump()));
    OneBaseBatch(Shared(), "X", ExampleSite, BaseId);
    ThreeCommands("nat", "PREROUTING", s[1], s[3], s[3]);
  }

  /** No two jumps stand in a row and none is left behind, but the second is deleted twice. */
  lemma SharedRefused()
    ensures Cleanable(Shared(), "X", ExampleSite) && !InnerPair(Fetched(Shared(), "X"), 0, At(BaseId, ExampleSite.Jump()))
    ensures CleanUpBatch(Shared(), "X", ExampleSite) ==
              [DelRule("nat", "PREROUTING", 1), DelRule("nat", "PREROUTING", 3), DelRule("nat", "PREROUTING", 3), DelChain("nat", "X-PREROUTING")]
    ensures !Accepted(Shared(), CleanUpBatch(Shared(), "X", ExampleSite))
  {
    hide Shared, Recognised, JumpTo, Built, Fetched, WellFormed, JumpsResolve, HandlesApart, Bases, Accepted, Again, Gone, InnerPair, Remains,
      Cleanable, CleanUpBatch;
    SharedBatch();
    SharedCleanable();
    CleanUpAcceptedExactly(Shared(), "X", ExampleSite);
  }

  lemma SharedOwnJumps()
    ensures OnlyOwnJumps(Shared(), ExampleSite)
  {
    hide Recognised, JumpTo, Built;
    ExampleExprs();
    ExampleIds();
    assert |"filter"| != |"nat"|;
  }
}
