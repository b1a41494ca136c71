/** Rules that are there several times.

The sweep over the cached rules skips the rule behind a deleted one, and it may meet the last rule again in
the stale slots behind the shortened slice.  A jump it leaves behind still names the regular chain that is
to be deleted, and a deletion it queues twice finds nothing the second time.  In both cases the kernel
refuses the whole batch, and exactly then.
*/
module Duplicates {
  import opened Encoding
  import opened Conditions
  import opened RuleCache
  import opened Kernels
  import opened Mutations
  import opened Searching
  import opened Foundation
  import opened Teardown

  // ----- What a sweep takes, rule by rule

  lemma {:induction false} SweepSplits(s: seq<Rule>, p: nat, m: Rule -> bool)
    requires p <= |s| && SelectedApart(s, p, m)
    ensures forall r :: m(r) ==> (r in s[p..] <==> r in Survivors(s, p, m) || r in Deleted(s, p, m))
    ensures forall r, d :: m(r) && r in Survivors(s, p, m) && d in Deleted(s, p, m) ==> r.handle != d.handle
    ensures forall d :: d in Deleted(s, p, m) ==> m(d) && d in s[p..]
    ensures DistinctHandles(Deleted(s, p, m))
    decreases |s| - p
  {
    if p < |s| {
      Behind(s, p, m);
      if !m(s[p]) {
        SweepSplits(s, p + 1, m);
      } else if p + 1 < |s| && !(p + 2 == |s| && m(s[p + 1])) {
        Behind(s, p + 1, m);
        SweepSplits(s, p + 2, m);
        HeadDistinct(s[p], Deleted(s, p + 2, m));
      } else if p + 1 < |s| {
        Behind(s, p + 1, m);
      }
    }
  }

  lemma HeadDistinct(r: Rule, rest: seq<Rule>)
    requires DistinctHandles(rest) && forall d :: d in rest ==> d.handle != r.handle
    ensures DistinctHandles([r] + rest)
  {
  }

  /** The selected rules behind a selected one have other handles. */
  lemma Behind(s: seq<Rule>, p: nat, m: Rule -> bool)
    requires p < |s| && SelectedApart(s, p, m)
    ensures forall r :: r in s[p..] <==> r == s[p] || r in s[p + 1..]
    ensures m(s[p]) ==> forall r :: r in s[p + 1..] && m(r) ==> r.handle != s[p].handle
  {
    assert s[p..] == [s[p]] + s[p + 1..];
    if m(s[p]) {
      forall r | r in s[p + 1..] && m(r) ensures r.handle != s[p].handle {
        var x :| 0 <= x < |s[p + 1..]| && s[p + 1..][x] == r;
        assert s[p + 1 + x] == r;
      }
    }
  }

  // ----- What the queued deletions do in the kernel

  lemma WithoutHandle(rules: seq<Rule>, handle: nat)
    requires DistinctHandles(rules)
    ensures DistinctHandles(WithoutFirst(rules, handle))
    ensures forall r :: r in WithoutFirst(rules, handle) <==> r in rules && r.handle != handle
  {
    var i, left := FirstWith(rules, handle), WithoutFirst(rules, handle);
    forall x | 0 <= x < |left| ensures left[x] == rules[if x < i then x else x + 1] && left[x].handle != handle {
    }
    forall r | r in rules && r.handle != handle ensures r in left {
      var x :| 0 <= x < |rules| && rules[x] == r;
      assert x != i;
      assert left[if x < i then x else x - 1] == r;
    }
  }

  predicate HandleAmong(rules: seq<Rule>, handle: nat) {
    exists d :: d in rules && d.handle == handle
  }

  /** Deletions in one chain leave the other chains alone. */
  lemma {:induction false} DeletionsShrink(k: Kernel, table: string, chain: string, gone: seq<Rule>)
    requires Id(table, chain) in k.rules
    ensures var k', id := ApplyAll(k, DelCommands(table, chain, gone)), Id(table, chain);
            && k'.rules.Keys == k.rules.Keys && k'.hooked == k.hooked && (forall r :: r in k'.rules[id] ==> r in k.rules[id])
            && forall other :: other in k.rules && other != id ==> k'.rules[other] == k.rules[other]
    decreases |gone|
  {
    var cs := DelCommands(table, chain, gone);
    if gone != [] {
      assert cs[1..] == DelCommands(table, chain, gone[1..]);
      FewerRules(k.rules[Id(table, chain)], gone[0].handle);
      DeletionsShrink(Apply(k, cs[0]), table, chain, gone[1..]);
    }
  }

  /** The queued deletions take the rules with these handles out of the chain. */
  lemma {:induction false} DeletionsApplied(k: Kernel, table: string, chain: string, gone: seq<Rule>)
    requires Id(table, chain) in k.rules && DistinctHandles(k.rules[Id(table, chain)])
    ensures var k', id := ApplyAll(k, DelCommands(table, chain, gone)), Id(table, chain);
            && id in k'.rules && DistinctHandles(k'.rules[id])
            && forall r :: r in k'.rules[id] <==> r in k.rules[id] && !HandleAmong(gone, r.handle)
    decreases |gone|
  {
    hide DistinctHandles, WithoutFirst;
    var id, cs := Id(table, chain), DelCommands(table, chain, gone);
    if gone != [] {
      var k1 := Apply(k, cs[0]);
      assert cs[1..] == DelCommands(table, chain, gone[1..]);
      WithoutHandle(k.rules[id], gone[0].handle);
      DeletionsApplied(k1, table, chain, gone[1..]);
      assert forall h :: HandleAmong(gone, h) <==> gone[0].handle == h || HandleAmong(gone[1..], h) by {
        assert gone == [gone[0]] + gone[1..];
      }
    }
  }

  /** Deletions of rules of the chain, each named once, are taken. */
  lemma {:induction false} DeletionsAccepted(k: Kernel, table: string, chain: string, gone: seq<Rule>)
    requires Id(table, chain) in k.rules && DistinctHandles(k.rules[Id(table, chain)])
    requires DistinctHandles(gone) && forall d :: d in gone ==> d in k.rules[Id(table, chain)]
    ensures Accepted(k, DelCommands(table, chain, gone))
    decreases |gone|
  {
    hide WithoutFirst;
    var id, cs := Id(table, chain), DelCommands(table, chain, gone);
    if gone != [] {
      var k1 := Apply(k, cs[0]);
      assert cs[1..] == DelCommands(table, chain, gone[1..]);
      assert gone[0] in gone;
      HandleThere(k.rules[id], gone[0]);
      WithoutHandle(k.rules[id], gone[0].handle);
      forall d | d in gone[1..] ensures d in gone && d.handle != gone[0].handle {
        var x :| 0 <= x < |gone[1..]| && gone[1..][x] == d;
        assert gone[x + 1] == d;
      }
      DeletionsAccepted(k1, table, chain, gone[1..]);
    }
  }

  lemma HandleThere(rules: seq<Rule>, d: Rule)
    requires d in rules
    ensures FirstWith(rules, d.handle) < |rules|
  {
    var x :| 0 <= x < |rules| && rules[x] == d;
  }

  lemma HandleGone(rules: seq<Rule>, handle: nat)
    requires forall r :: r in rules ==> r.handle != handle
    ensures FirstWith(rules, handle) == |rules|
  {
    assert forall x :: 0 <= x < |rules| ==> rules[x] in rules;
  }

  /** A deletion that was queued before is not taken. */
  lemma RepeatRefused(k: Kernel, table: string, chain: string, gone: seq<Rule>, last: Rule, n: nat)
    requires Id(table, chain) in k.rules && DistinctHandles(k.rules[Id(table, chain)]) && last in gone && n > 0
    ensures !Accepted(k, DelCommands(table, chain, gone + Copies(last, n)))
  {
    hide DistinctHandles;
    var dels, more, id := DelCommands(table, chain, gone), DelCommands(table, chain, Copies(last, n)), Id(table, chain);
    assert DelCommands(table, chain, gone + Copies(last, n)) == dels + more;
    AcceptedConcat(k, dels, more);
    DeletionsApplied(k, table, chain, gone);
    var k1 := ApplyAll(k, dels);
    assert HandleAmong(gone, last.handle);
    HandleGone(k1.rules[id], last.handle);
    assert more[0] == DelRule(table, chain, last.handle);
  }

  /** What a sweep queues is taken exactly when nothing is queued twice. */
  lemma SweepAccepted(k: Kernel, table: string, chain: string, s: seq<Rule>, p: nat, m: Rule -> bool)
    requires Id(table, chain) in k.rules && DistinctHandles(k.rules[Id(table, chain)])
    requires p <= |s| && SelectedApart(s, p, m) && forall r :: r in s && m(r) ==> r in k.rules[Id(table, chain)]
    ensures Accepted(k, DelCommands(table, chain, Gone(s, p, m))) <==> Again(s, p, m) == []
  {
    hide DistinctHandles, SelectedApart, Survivors, Accepted;
    var gone := Deleted(s, p, m);
    SweepSplits(s, p, m);
    forall d | d in gone ensures d in k.rules[Id(table, chain)] {
      assert d in s[p..];
      InWhole(s, p, d);
    }
    if Again(s, p, m) == [] {
      assert Gone(s, p, m) == gone;
      DeletionsAccepted(k, table, chain, gone);
    } else {
      var last := s[|s| - 1];
      AgainNeedsTail(s, p, m);
      DeletedAreSelected(s, p, m);
      assert last in gone;
      RepeatRefused(k, table, chain, gone, last, |Again(s, p, m)|);
      assert Again(s, p, m) == Copies(last, |Again(s, p, m)|);
    }
  }

  lemma InWhole(s: seq<Rule>, p: nat, r: Rule)
    requires p <= |s| && r in s[p..]
    ensures r in s
  {
  }

  lemma AgainNeedsTail(s: seq<Rule>, p: nat, m: Rule -> bool)
    requires p <= |s| && Again(s, p, m) != []
    ensures p < |s| && m(s[|s| - 1])
  {
    hide CountWith;
    Exhausted(s, m);
  }

  /** What a sweep leaves of the chain it works on: recognised rules from the position on are gone exactly
  when the cache has no two of them in a row there, the very end excepted. */
  lemma SweepEffect(k: Kernel, table: string, chain: string, cond: Condition, s: seq<Rule>, p: nat)
    requires Id(table, chain) in k.rules && DistinctHandles(k.rules[Id(table, chain)])
    requires var m := Selector(FAMILY, table, chain, cond);
             && p <= |s| && SelectedApart(s, p, m) && (forall r :: r in s && m(r) ==> r in k.rules[Id(table, chain)])
             && forall r :: r in k.rules[Id(table, chain)] ==> InChain(FAMILY, table, chain, r)
    ensures var m, id := Selector(FAMILY, table, chain, cond), Id(table, chain);
            var k' := ApplyAll(k, DelCommands(table, chain, Gone(s, p, m)));
            && k'.rules.Keys == k.rules.Keys && k'.hooked == k.hooked && DistinctHandles(k'.rules[id])
            && (forall r :: r in k'.rules[id] ==> r in k.rules[id])
            && (forall r :: r in k.rules[id] && (r !in s[p..] || !Recognised(cond, r.exprs)) ==> r in k'.rules[id])
            && (forall other :: other in k.rules && other != id ==> k'.rules[other] == k.rules[other])
            && ((forall r :: r in k'.rules[id] && r in s[p..] ==> !Recognised(cond, r.exprs)) <==> !InnerPair(s, p, m))
  {
    hide Recognised, Survivors, Deleted, DistinctHandles, InnerPair, DelCommands, HandleAmong, ApplyAll, SelectedApart, Again;
    var id, m := Id(table, chain), Selector(FAMILY, table, chain, cond);
    var gone, rules, rules' := Gone(s, p, m), k.rules[Id(table, chain)], RulesIn(ApplyAll(k, DelCommands(table, chain, Gone(s, p, m))), Id(table, chain));
    DeletionsShrink(k, table, chain, gone);
    DeletionsApplied(k, table, chain, gone);
    SweepSplits(s, p, m);
    CleansExactly(s, p, m);
    SameHandlesGone(s, p, m);
    forall r | r in rules && r !in Deleted(s, p, m) ensures !HandleAmong(gone, r.handle) {
      OwnHandle(rules, Deleted(s, p, m), r);
    }
    forall r | r in Deleted(s, p, m) ensures HandleAmong(gone, r.handle) {
      Among(Deleted(s, p, m), r);
    }
    forall r | r in s[p..] ensures r in s {
      InWhole(s, p, r);
    }
    if InnerPair(s, p, m) {
      var r :| r in Survivors(s, p, m) && m(r);
      assert r in s[p..] && r !in Deleted(s, p, m) && r in rules;
    }
  }

  lemma Among(gone: seq<Rule>, r: Rule)
    requires r in gone
    ensures HandleAmong(gone, r.handle)
  {
  }

  /** The repeated deletions bring in no new handle. */
  lemma SameHandlesGone(s: seq<Rule>, p: nat, m: Rule -> bool)
    requires p <= |s|
    ensures forall h :: HandleAmong(Gone(s, p, m), h) <==> HandleAmong(Deleted(s, p, m), h)
  {
    hide CountWith, Deleted, Spare;
    if Again(s, p, m) != [] {
      AgainNeedsTail(s, p, m);
      DeletedAreSelected(s, p, m);
      assert forall r :: r in Again(s, p, m) ==> r == s[|s| - 1];
      assert s[|s| - 1] in Deleted(s, p, m);
    }
  }

  lemma OwnHandle(rules: seq<Rule>, gone: seq<Rule>, r: Rule)
    requires DistinctHandles(rules) && r in rules && r !in gone && forall d :: d in gone ==> d in rules
    ensures !HandleAmong(gone, r.handle)
  {
    forall d | d in gone ensures d.handle != r.handle {
      var x :| 0 <= x < |rules| && rules[x] == r;
      var y :| 0 <= y < |rules| && rules[y] == d;
      assert x != y;
    }
  }

  // ----- One chain among the fetched rules

  /** The rules selected from the fetched ones are rules of that chain, each there once. */
  lemma FetchedSelected(k: Kernel, instance: string, id: ChainId, cond: Condition)
    requires WellFormed(k) && id.table.family == FAMILY && (id in k.rules ==> Listed(k, instance, id))
    ensures SelectedApart(Fetched(k, instance), 0, At(id, cond))
    ensures forall r :: r in Fetched(k, instance) && At(id, cond)(r) ==> id in k.rules && r in k.rules[id]
    ensures id in k.rules ==> DistinctHandles(k.rules[id])
    ensures id in k.rules ==> forall r :: r in k.rules[id] ==> r in Fetched(k, instance) && InChain(FAMILY, id.table.name, id.chain, r)
  {
    hide Recognised, Fetched;
    var s, m := Fetched(k, instance), At(id, cond);
    if id in k.rules {
      assert id == Id(id.table.name, id.chain);
      assert ChainWellFormed(id, k.rules[id], NextHandle(k, id.table));
      ChainDistinct(id, k.rules[id], NextHandle(k, id.table));
      var front, back := ChainSegment(k, instance, id.table.name, id.chain);
      SegmentApart(front, k.rules[id], back, m);
    } else {
      NotFetched(k, instance, id);
    }
    FetchedOfChain(k, instance, id);
  }

  lemma ChainDistinct(id: ChainId, rules: seq<Rule>, next: nat)
    requires ChainWellFormed(id, rules, next)
    ensures DistinctHandles(rules) && forall r :: r in rules ==> r.table == id.table && r.chain == id.chain
  {
  }

  lemma SegmentApart(front: seq<Rule>, rules: seq<Rule>, back: seq<Rule>, m: Rule -> bool)
    requires DistinctHandles(rules) && forall r :: r in front || r in back ==> !m(r)
    ensures SelectedApart(front + rules + back, 0, m)
    ensures forall r :: r in front + rules + back <==> r in front || r in rules || r in back
  {
    var s := front + rules + back;
    assert forall i :: 0 <= i < |front| ==> s[i] == front[i] && s[i] in front;
    assert forall i :: |front| + |rules| <= i < |s| ==> s[i] == back[i - |front| - |rules|] && s[i] in back;
    assert forall i :: |front| <= i < |front| + |rules| ==> s[i] == rules[i - |front|];
  }

  /** A sweep of the fetched rules, whatever other tables hold: recognised rules from the position on are gone
  exactly when the cache has no two of them in a row there, the very end excepted; no other rule goes; and
  the kernel takes it exactly when nothing is queued twice. */
  lemma SweepClearsExactly(k: Kernel, instance: string, table: string, chain: string, cond: Condition, p: nat)
    requires WellFormed(k) && Id(table, chain) in k.rules && Listed(k, instance, Id(table, chain)) && p <= |Fetched(k, instance)|
    ensures var s, m, id := Fetched(k, instance), Selector(FAMILY, table, chain, cond), Id(table, chain);
            var cs := DelCommands(table, chain, Gone(s, p, m));
            var rules := RulesIn(ApplyAll(k, cs), id);
            && (Accepted(k, cs) <==> Again(s, p, m) == [])
            && (forall r :: r in rules ==> r in k.rules[id])
            && (forall r :: r in k.rules[id] && (r !in s[p..] || !Recognised(cond, r.exprs)) ==> r in rules)
            && (forall other :: other in k.rules && other != id ==> RulesIn(ApplyAll(k, cs), other) == k.rules[other])
            && ((forall r :: r in rules && r in s[p..] ==> !Recognised(cond, r.exprs)) <==> !InnerPair(s, p, m))
  {
    hide Recognised, Fetched, Gone, Again, DistinctHandles, ApplyAll, Accepted, InnerPair;
    var s, m, id := Fetched(k, instance), Selector(FAMILY, table, chain, cond), Id(table, chain);
    FetchedSelected(k, instance, id, cond);
    assert SelectedApart(s, p, m);
    SweepAccepted(k, table, chain, s, p, m);
    SweepEffect(k, table, chain, cond, s, p);
  }

  /** Presenting a rule that is there several times leaves just the first exactly when no two of the others
  stand in a row, the very end excepted; the kernel takes it exactly when nothing is queued twice. */
  lemma PresentLeavesOneExactly(k: Kernel, instance: string, table: string, chain: string, cond: Condition, first: bool, data: Bytes)
    requires WellFormed(k) && Id(table, chain) in k.rules && Listed(k, instance, Id(table, chain))
    requires First(Fetched(k, instance), At(Id(table, chain), cond)) < |Fetched(k, instance)|
    ensures var s, m := Fetched(k, instance), At(Id(table, chain), cond);
            var f, cs := First(s, m), Presenting(s, Id(table, chain), cond, first, data);
            var rules := RulesIn(ApplyAll(k, cs), Id(table, chain));
            && (Accepted(k, cs) <==> Again(s, f + 1, m) == [])
            && s[f] in rules && Recognised(cond, s[f].exprs)
            && ((forall r :: r in rules && Recognised(cond, r.exprs) ==> r == s[f]) <==> !InnerPair(s, f + 1, m))
  {
    hide Recognised, Fetched, Gone, Again, DistinctHandles, ApplyAll, Accepted, InnerPair, First, WellFormed, Listed;
    var s, m, id := Fetched(k, instance), At(Id(table, chain), cond), Id(table, chain);
    var f := First(s, m);
    SweepClearsExactly(k, instance, table, chain, cond, f + 1);
    FetchedSelected(k, instance, id, cond);
    assert Presenting(s, id, cond, first, data) == DelCommands(table, chain, Gone(s, f + 1, m));
    assert SelectedApart(s, f, m);
    Behind(s, f, m);
    FirstAlone(s, m, f);
    assert s[f] in s;
  }

  lemma FirstAlone(s: seq<Rule>, m: Rule -> bool, f: nat)
    requires f < |s| && m(s[f]) && forall j :: 0 <= j < f ==> !m(s[j])
    ensures forall r :: r in s && m(r) ==> r == s[f] || r in s[f + 1..]
  {
    forall r | r in s && m(r) && r != s[f] ensures r in s[f + 1..] {
      var x :| 0 <= x < |s| && s[x] == r;
      assert x > f && s[f + 1..][x - f - 1] == r;
    }
  }

  // ----- What earlier sweeps leave of the cache

  /** Whatever `a` selects stands before whatever `b` selects. */
  predicate Before(s: seq<Rule>, a: Rule -> bool, b: Rule -> bool) {
    forall x, y :: 0 <= x < |s| && 0 <= y < |s| && a(s[x]) && b(s[y]) ==> x < y
  }

  lemma LessKeeps(s: seq<Rule>, handle: nat, a: Rule -> bool, b: Rule -> bool)
    ensures SelectedApart(s, 0, a) ==> SelectedApart(WithoutFirst(s, handle), 0, a)
    ensures Before(s, a, b) ==> Before(WithoutFirst(s, handle), a, b)
  {
    hide FirstWith;
    var i, left := FirstWith(s, handle), WithoutFirst(s, handle);
    forall x | 0 <= x < |left| ensures left[x] == s[Skip(i, x)] {
    }
  }

  function Skip(i: nat, x: nat): nat {
    if x < i then x else x + 1
  }

  lemma {:induction false} WithoutAllKeeps(s: seq<Rule>, gone: seq<Rule>, a: Rule -> bool, b: Rule -> bool)
    ensures SelectedApart(s, 0, a) ==> SelectedApart(WithoutAll(s, gone), 0, a)
    ensures Before(s, a, b) ==> Before(WithoutAll(s, gone), a, b)
  {
    hide WithoutFirst, SelectedApart, Before;
    if gone != [] {
      WithoutAllKeeps(s, gone[..|gone| - 1], a, b);
      LessKeeps(WithoutAll(s, gone[..|gone| - 1]), gone[|gone| - 1].handle, a, b);
    }
  }

  lemma {:induction false} SweptKeeps(s: seq<Rule>, ids: seq<ChainId>, n: nat, cond: Condition, a: Rule -> bool, b: Rule -> bool)
    requires n <= |ids|
    ensures SelectedApart(s, 0, a) ==> SelectedApart(SweptCache(s, ids, n, cond), 0, a)
    ensures Before(s, a, b) ==> Before(SweptCache(s, ids, n, cond), a, b)
    ensures forall r :: r in SweptCache(s, ids, n, cond) ==> r in s
  {
    hide WithoutAll, SelectedApart, Before, Gone, At;
    if n > 0 {
      SweptKeeps(s, ids, n - 1, cond, a, b);
      var before, m := SweptCache(s, ids, n - 1, cond), At(ids[n - 1], cond);
      WithoutAllKeeps(before, Gone(before, 0, m), a, b);
      WithoutAllOld(before, Gone(before, 0, m));
    }
  }

  /** The cache from the first selected rule on. */
  function FromFirst(s: seq<Rule>, m: Rule -> bool): seq<Rule> {
    s[First(s, m)..]
  }

  lemma {:induction false} StaysIn(s: seq<Rule>, gone: seq<Rule>, d: Rule)
    requires d in s && forall g :: g in gone ==> g.handle != d.handle
    ensures d in WithoutAll(s, gone)
  {
    hide FirstWith;
    if gone != [] {
      StaysIn(s, gone[..|gone| - 1], d);
      var before, h := WithoutAll(s, gone[..|gone| - 1]), gone[|gone| - 1].handle;
      var i := FirstWith(before, h);
      var x :| 0 <= x < |before| && before[x] == d;
      assert gone[|gone| - 1] in gone;
      assert WithoutFirst(before, h)[if x < i then x else x - 1] == d;
    }
  }

  lemma WithoutInFront(front: seq<Rule>, tail: seq<Rule>, handle: nat)
    requires FirstWith(front, handle) < |front|
    ensures WithoutFirst(front + tail, handle) == WithoutFirst(front, handle) + tail
  {
    var i := FirstWith(front, handle);
    assert (front + tail)[i] == front[i] && forall j :: 0 <= j < i ==> (front + tail)[j] == front[j];
    assert FirstWith(front + tail, handle) == i;
    assert (front + tail)[..i] + (front + tail)[i + 1..] == front[..i] + front[i + 1..] + tail;
  }

  lemma {:induction false} AllInFront(front: seq<Rule>, tail: seq<Rule>, gone: seq<Rule>)
    requires DistinctHandles(gone) && forall d :: d in gone ==> d in front
    ensures WithoutAll(front + tail, gone) == WithoutAll(front, gone) + tail
  {
    hide WithoutFirst;
    if gone != [] {
      var n := |gone| - 1;
      AllInFront(front, tail, gone[..n]);
      StaysIn(front, gone[..n], gone[n]);
      HandleThere(WithoutAll(front, gone[..n]), gone[n]);
      WithoutInFront(WithoutAll(front, gone[..n]), tail, gone[n].handle);
    }
  }

  /** A sweep of rules that stand before the selected ones leaves those, and all behind them, as they are. */
  lemma RemainsTail(s: seq<Rule>, a: Rule -> bool, b: Rule -> bool)
    requires SelectedApart(s, 0, a) && Before(s, a, b)
    ensures FromFirst(Remains(s, 0, a), b) == FromFirst(s, b)
  {
    hide WithoutAll, Survivors, Deleted, Spare, CountWith, DistinctHandles;
    var f, left := First(s, b), Remains(s, 0, a);
    RemainsOld(s, 0, a);
    if f == |s| {
      NoneFirst(left, s, b);
    } else {
      assert a(s[|s| - 1]) ==> |s| - 1 < f;
      var gone, front, tail := Deleted(s, 0, a), s[..f], s[f..];
      assert Gone(s, 0, a) == gone;
      SweepSplits(s, 0, a);
      assert s[0..] == s == front + tail;
      forall d | d in gone ensures d in front {
        var x :| 0 <= x < |s| && s[x] == d;
        assert front[x] == d;
      }
      AllInFront(front, tail, gone);
      WithoutAllOld(front, gone);
      FirstBehind(WithoutAll(front, gone), tail, b, front);
    }
  }

  lemma NoneFirst(less: seq<Rule>, s: seq<Rule>, m: Rule -> bool)
    requires First(s, m) == |s| && forall r :: r in less ==> r in s
    ensures First(less, m) == |less|
  {
    hide First;
    forall x | 0 <= x < |less| ensures !m(less[x]) {
      assert less[x] in less;
      var y :| 0 <= y < |s| && s[y] == less[x];
    }
  }

  lemma FirstBehind(less: seq<Rule>, tail: seq<Rule>, m: Rule -> bool, front: seq<Rule>)
    requires tail != [] && m(tail[0]) && (forall x :: 0 <= x < |front| ==> !m(front[x])) && forall r :: r in less ==> r in front
    ensures First(less + tail, m) == |less| && (less + tail)[|less|..] == tail
  {
    hide First;
    var s := less + tail;
    forall x | 0 <= x < |less| ensures !m(s[x]) {
      assert less[x] in less;
      var y :| 0 <= y < |front| && front[y] == less[x];
    }
    assert s[|less|] == tail[0];
    FirstIs(s, m, |less|);
  }

  lemma {:induction false} SweptTail(s: seq<Rule>, ids: seq<ChainId>, n: nat, cond: Condition, b: Rule -> bool)
    requires n <= |ids| && forall i :: 0 <= i < n ==> SelectedApart(s, 0, At(ids[i], cond)) && Before(s, At(ids[i], cond), b)
    ensures FromFirst(SweptCache(s, ids, n, cond), b) == FromFirst(s, b)
  {
    hide Remains, SelectedApart, Before, At, First;
    if n > 0 {
      SweptTail(s, ids, n - 1, cond, b);
      SweptKeeps(s, ids, n - 1, cond, At(ids[n - 1], cond), b);
      RemainsTail(SweptCache(s, ids, n - 1, cond), At(ids[n - 1], cond), b);
    }
  }

  lemma {:induction false} WithoutAllCount(s: seq<Rule>, gone: seq<Rule>, handle: nat)
    requires forall d :: d in gone ==> d.handle != handle
    ensures CountWith(WithoutAll(s, gone), handle) == CountWith(s, handle)
  {
    hide CountWith, FirstWith;
    if gone != [] {
      WithoutAllCount(s, gone[..|gone| - 1], handle);
      var before, d := WithoutAll(s, gone[..|gone| - 1]), gone[|gone| - 1];
      assert d in gone;
      if FirstWith(before, d.handle) < |before| {
        CountWithoutFirst(before, d.handle, handle);
      }
    }
  }

  lemma {:induction false} SweptCount(s: seq<Rule>, ids: seq<ChainId>, n: nat, cond: Condition, handle: nat)
    requires n <= |ids| && forall i, r :: 0 <= i < n && r in s && At(ids[i], cond)(r) ==> r.handle != handle
    ensures CountWith(SweptCache(s, ids, n, cond), handle) == CountWith(s, handle)
  {
    hide CountWith, At, Remains, SelectedApart, Before;
    if n > 0 {
      SweptCount(s, ids, n - 1, cond, handle);
      var before, m := SweptCache(s, ids, n - 1, cond), At(ids[n - 1], cond);
      SweptKeeps(s, ids, n - 1, cond, m, m);
      RemainsCount(before, m, handle);
    }
  }

  lemma RemainsCount(s: seq<Rule>, m: Rule -> bool, handle: nat)
    requires forall r :: r in s && m(r) ==> r.handle != handle
    ensures CountWith(Remains(s, 0, m), handle) == CountWith(s, handle)
  {
    hide CountWith, WithoutAll, Gone;
    GoneSelected(s, 0, m);
    WithoutAllCount(s, Gone(s, 0, m), handle);
  }

  lemma GoneSelected(s: seq<Rule>, p: nat, m: Rule -> bool)
    requires p <= |s|
    ensures forall d :: d in Gone(s, p, m) ==> m(d) && d in s
  {
    hide CountWith, Deleted, Spare;
    DeletedAreSelected(s, p, m);
    assert forall r :: r in Again(s, p, m) ==> r == s[|s| - 1] && m(r);
  }

  // ----- The condition, read off the rules from the first selected one on

  lemma {:induction false} Shifted(front: seq<Rule>, tail: seq<Rule>, q: nat, m: Rule -> bool)
    requires q <= |tail|
    ensures Deleted(front + tail, |front| + q, m) == Deleted(tail, q, m)
    ensures Spare(front + tail, |front| + q, m) == Spare(tail, q, m)
    decreases |tail| - q
  {
    if q < |tail| {
      assert (front + tail)[|front| + q] == tail[q];
      Shifted(front, tail, q + 1, m);
      if q + 1 < |tail| {
        assert (front + tail)[|front| + q + 1] == tail[q + 1];
        Shifted(front, tail, q + 2, m);
      }
    }
  }

  lemma {:induction false} FrontSkipped(s: seq<Rule>, p: nat, f: nat, m: Rule -> bool)
    requires p <= f <= |s| && forall x :: p <= x < f ==> !m(s[x])
    ensures Deleted(s, p, m) == Deleted(s, f, m) && Spare(s, p, m) == Spare(s, f, m)
    decreases f - p
  {
    if p < f {
      FrontSkipped(s, p + 1, f, m);
    }
  }

  lemma TailDecides(s: seq<Rule>, m: Rule -> bool)
    ensures var t := FromFirst(s, m);
            && Deleted(s, 0, m) == Deleted(t, 0, m) && Spare(s, 0, m) == Spare(t, 0, m)
            && (InnerPair(s, 0, m) <==> InnerPair(t, 0, m))
            && (forall r :: m(r) ==> (r in s <==> r in t))
            && (s != [] && m(s[|s| - 1]) ==> t != []) && (t != [] ==> s != [] && t[|t| - 1] == s[|s| - 1])
  {
    hide First, Deleted, Spare;
    var f, t := First(s, m), FromFirst(s, m);
    assert s == s[..f] + t;
    Shifted(s[..f], t, 0, m);
    FrontSkipped(s, 0, f, m);
    forall q | 0 <= q && q + 2 < |s| && m(s[q]) && m(s[q + 1]) ensures InnerPair(t, 0, m) {
      assert t[q - f] == s[q] && t[q - f + 1] == s[q + 1];
    }
    forall q | 0 <= q && q + 2 < |t| && m(t[q]) && m(t[q + 1]) ensures InnerPair(s, 0, m) {
      assert s[q + f] == t[q] && s[q + f + 1] == t[q + 1];
    }
    forall r | m(r) && r in s ensures r in t {
      var x :| 0 <= x < |s| && s[x] == r;
      assert t[x - f] == r;
    }
  }

  /** Two caches with the same rules from the first selected one on, and as many with the handles of those,
  are swept alike. */
  lemma SweptAlike(s: seq<Rule>, c: seq<Rule>, m: Rule -> bool)
    requires FromFirst(s, m) == FromFirst(c, m) && forall r :: r in s && m(r) ==> CountWith(c, r.handle) == CountWith(s, r.handle)
    ensures InnerPair(c, 0, m) <==> InnerPair(s, 0, m)
    ensures Again(c, 0, m) == Again(s, 0, m)
    ensures forall r :: m(r) ==> (r in c <==> r in s)
  {
    hide CountWith, Deleted, Spare, FromFirst, InnerPair;
    TailDecides(s, m);
    TailDecides(c, m);
    if s != [] && m(s[|s| - 1]) {
      assert s[|s| - 1] in s && c[|c| - 1] == s[|s| - 1];
    }
  }
}
