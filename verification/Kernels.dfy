/** The kernel's ruleset as far as the forwarder sees it, and the effect of queued commands. */
module Kernels {
  import opened Encoding
  import opened Conditions
  import opened RuleCache

  const FAMILY := 2  // NFPROTO_IPV4

  datatype ChainId = ChainId(table: TableId, chain: string)

  datatype Kernel = Kernel(
    order: seq<ChainId>,                   // chains in listing order
    rules: map<ChainId, seq<Rule>>,
    hooked: map<ChainId, nat>,             // base chains and their hooks
    handles: map<TableId, nat>,            // next rule handle, table by table
    sets: map<string, map<Bytes, Bytes>>)

  function Id(table: string, chain: string): ChainId {
    ChainId(TableId(FAMILY, table), chain)
  }

  function NextHandle(k: Kernel, table: TableId): nat {
    if table in k.handles then k.handles[table] else 1
  }

  /** Chains are listed once, rules know their chain, and handles are unique within a chain. */
  ghost predicate WellFormed(k: Kernel) {
    && Once(k.order)
    && (forall id :: id in k.order <==> id in k.rules)
    && (forall id :: id in k.rules ==> ChainWellFormed(id, k.rules[id], NextHandle(k, id.table)))
  }

  predicate Once(ids: seq<ChainId>) {
    forall i, j :: 0 <= i < j < |ids| ==> ids[i] != ids[j]
  }

  predicate ChainWellFormed(id: ChainId, rules: seq<Rule>, next: nat) {
    && DistinctHandles(rules)
    && forall r :: r in rules ==> r.table == id.table && r.chain == id.chain && r.handle < next
  }

  // ----- Listing rules

  /** Rules are fetched for base chains and for chains whose name starts with the instance name. */
  predicate Listed(k: Kernel, instance: string, id: ChainId) {
    id in k.hooked || instance <= id.chain
  }

  function RulesOf(k: Kernel, instance: string, ids: seq<ChainId>): (r: seq<Rule>)
    requires forall id :: id in ids ==> id in k.rules
  {
    if ids == [] then []
    else (if Listed(k, instance, ids[0]) then k.rules[ids[0]] else []) + RulesOf(k, instance, ids[1..])
  }

  function Fetched(k: Kernel, instance: string): seq<Rule>
    requires WellFormed(k)
  {
    RulesOf(k, instance, k.order)
  }

  method Refresh(k: Kernel, instance: string) returns (rw: ReadWriter)
    requires WellFormed(k)
    ensures fresh(rw) && fresh(rw.backing) && rw.Valid() && rw.family == FAMILY
    ensures rw.Rules() == Fetched(k, instance) && rw.queued == []
  {
    var s := Fetched(k, instance);
    var backing := new Rule[|s|](i requires 0 <= i < |s| => s[i]);
    assert backing[..] == s;
    rw := new ReadWriter(FAMILY, backing);
    assert rw.Rules() == backing[..];
  }

  // ----- Commands

  function Drop(order: seq<ChainId>, id: ChainId): seq<ChainId> {
    if order == [] then [] else (if order[0] == id then [] else [order[0]]) + Drop(order[1..], id)
  }

  function NewRule(k: Kernel, id: ChainId, exprs: Exprs, comment: Bytes): Rule {
    Rule(id.table, id.chain, NextHandle(k, id.table), exprs, comment)
  }

  function Apply(k: Kernel, c: Command): Kernel {
    match c
    case AddTable(_) => k
    case AddChain(table, chain, hook) =>
      var id := Id(table, chain);
      if id in k.rules then k
      else k.(order := k.order + [id], rules := k.rules[id := []],
              hooked := if hook.Some? then k.hooked[id := hook.value] else k.hooked)
    case DelChain(table, chain) =>
      var id := Id(table, chain);
      k.(order := Drop(k.order, id), rules := k.rules - {id}, hooked := k.hooked - {id})
    case AddRule(table, chain, exprs, first, comment) =>
      var id := Id(table, chain);
      if id !in k.rules then k
      else
        var r := NewRule(k, id, exprs, comment);
        k.(rules := k.rules[id := if first then [r] + k.rules[id] else k.rules[id] + [r]],
           handles := k.handles[id.table := r.handle + 1])
    case DelRule(table, chain, handle) =>
      var id := Id(table, chain);
      if id !in k.rules then k else k.(rules := k.rules[id := WithoutFirst(k.rules[id], handle)])
    case AddSet(_, _, name, elements) => k.(sets := k.sets[name := elements])
  }

  function ApplyAll(k: Kernel, cs: seq<Command>): Kernel
    decreases |cs|
  {
    if cs == [] then k else ApplyAll(Apply(k, cs[0]), cs[1..])
  }

  lemma {:induction false} ApplyConcat(k: Kernel, a: seq<Command>, b: seq<Command>)
    ensures ApplyAll(k, a + b) == ApplyAll(ApplyAll(k, a), b)
    decreases |a|
  {
    if a == [] {
      assert a + b == b;
    } else {
      assert (a + b)[0] == a[0] && (a + b)[1..] == a[1..] + b;
      ApplyConcat(Apply(k, a[0]), a[1..], b);
    }
  }

  lemma AddRuleKeepsWellFormed(k: Kernel, table: string, chain: string, exprs: Exprs, first: bool, comment: Bytes)
    requires WellFormed(k)
    ensures WellFormed(Apply(k, AddRule(table, chain, exprs, first, comment)))
  {
    hide ChainWellFormed;
    var id, k' := Id(table, chain), Apply(k, AddRule(table, chain, exprs, first, comment));
    if id in k.rules {
      forall other | other in k'.rules
        ensures ChainWellFormed(other, k'.rules[other], NextHandle(k', other.table))
      {
        MoreHandles(other, k.rules[other], NextHandle(k, other.table), NextHandle(k', other.table));
        if other == id {
          NewHandle(id, k.rules[id], NewRule(k, id, exprs, comment), first);
        }
      }
    }
  }

  lemma MoreHandles(id: ChainId, rules: seq<Rule>, next: nat, more: nat)
    requires ChainWellFormed(id, rules, next) && next <= more
    ensures ChainWellFormed(id, rules, more)
  {
  }

  lemma NewHandle(id: ChainId, rules: seq<Rule>, r: Rule, first: bool)
    requires ChainWellFormed(id, rules, r.handle) && r.table == id.table && r.chain == id.chain
    ensures ChainWellFormed(id, if first then [r] + rules else rules + [r], r.handle + 1)
  {
  }

  lemma WithoutKeeps(id: ChainId, rules: seq<Rule>, next: nat, handle: nat)
    requires ChainWellFormed(id, rules, next)
    ensures ChainWellFormed(id, WithoutFirst(rules, handle), next)
  {
    var i, left := FirstWith(rules, handle), WithoutFirst(rules, handle);
    forall x, y | 0 <= x < y < |left| ensures left[x].handle != left[y].handle {
      assert left[x] == rules[if x < i then x else x + 1] && left[y] == rules[if y < i then y else y + 1];
    }
    assert forall r :: r in left ==> r in rules;
  }

  lemma DelRuleKeepsWellFormed(k: Kernel, table: string, chain: string, handle: nat)
    requires WellFormed(k)
    ensures WellFormed(Apply(k, DelRule(table, chain, handle)))
  {
    var id := Id(table, chain);
    if id in k.rules {
      WithoutKeeps(id, k.rules[id], NextHandle(k, id.table), handle);
    }
  }

  // ----- One chain among the fetched rules

  lemma {:induction false} FetchedSplit(k: Kernel, instance: string, ids: seq<ChainId>, p: nat) returns (front: seq<Rule>, back: seq<Rule>)
    requires forall id :: id in ids ==> id in k.rules
    requires p < |ids| && Listed(k, instance, ids[p])
    requires Once(ids)
    requires forall id, r :: id in k.rules && r in k.rules[id] ==> r.table == id.table && r.chain == id.chain
    ensures RulesOf(k, instance, ids) == front + k.rules[ids[p]] + back
    ensures forall r :: r in front || r in back ==> ChainId(r.table, r.chain) != ids[p]
    decreases p
  {
    if p == 0 {
      front, back := [], RulesOf(k, instance, ids[1..]);
      RulesComeFrom(k, instance, ids[1..]);
    } else {
      var head := if Listed(k, instance, ids[0]) then k.rules[ids[0]] else [];
      var inner;
      inner, back := FetchedSplit(k, instance, ids[1..], p - 1);
      front := head + inner;
      assert head + (inner + k.rules[ids[p]] + back) == front + k.rules[ids[p]] + back;
    }
  }

  lemma {:induction false} RulesComeFrom(k: Kernel, instance: string, ids: seq<ChainId>)
    requires forall id :: id in ids ==> id in k.rules
    ensures forall r :: r in RulesOf(k, instance, ids) ==> exists id :: id in ids && r in k.rules[id]
  {
    if ids != [] {
      RulesComeFrom(k, instance, ids[1..]);
      forall r | r in RulesOf(k, instance, ids) ensures exists id :: id in ids && r in k.rules[id] {
        if r in RulesOf(k, instance, ids[1..]) {
          var id :| id in ids[1..] && r in k.rules[id];
          assert id in ids;
        } else {
          assert ids[0] in ids && r in k.rules[ids[0]];
        }
      }
    }
  }

  predicate OnlyRecognised(cond: Condition, rules: seq<Rule>, j: nat) {
    && j < |rules| && Recognised(cond, rules[j].exprs)
    && forall i :: 0 <= i < |rules| && i != j ==> !Recognised(cond, rules[i].exprs)
  }

  predicate NoneRecognised(cond: Condition, rules: seq<Rule>) {
    forall i :: 0 <= i < |rules| ==> !Recognised(cond, rules[i].exprs)
  }

  /** The rules of a chain stand together among the fetched rules, and no other rule claims it. */
  lemma ChainSegment(k: Kernel, instance: string, table: string, chain: string) returns (front: seq<Rule>, back: seq<Rule>)
    requires WellFormed(k) && Id(table, chain) in k.rules && Listed(k, instance, Id(table, chain))
    ensures Fetched(k, instance) == front + k.rules[Id(table, chain)] + back
    ensures forall r :: r in front || r in back ==> !InChain(FAMILY, table, chain, r)
  {
    hide RulesOf;
    var id := Id(table, chain);
    var p :| 0 <= p < |k.order| && k.order[p] == id;
    forall other, r | other in k.rules && r in k.rules[other] ensures r.table == other.table && r.chain == other.chain {
      assert ChainWellFormed(other, k.rules[other], NextHandle(k, other.table));
    }
    front, back := FetchedSplit(k, instance, k.order, p);
  }

  lemma SegmentMatch(front: seq<Rule>, rules: seq<Rule>, back: seq<Rule>, m: Rule -> bool, j: nat)
    requires j < |rules| && m(rules[j])
    requires forall i :: 0 <= i < |rules| && i != j ==> !m(rules[i])
    requires forall r :: r in front || r in back ==> !m(r)
    ensures OnlyMatch(front + rules + back, 0, m, |front| + j) && (front + rules + back)[|front| + j] == rules[j]
  {
    var s, x := front + rules + back, |front| + j;
    forall i | 0 <= i < |s| && i != x ensures !m(s[i]) {
      if i < |front| {
        assert s[i] == front[i];
      } else if i < |front| + |rules| {
        assert s[i] == rules[i - |front|];
      } else {
        assert s[i] == back[i - |front| - |rules|];
      }
    }
  }

  /** A condition that recognises no rule of a chain selects nothing from the cache, and one that
  recognises a single rule of it selects just that rule. */
  lemma SelectsInChain(k: Kernel, instance: string, table: string, chain: string, cond: Condition)
    requires WellFormed(k) && Id(table, chain) in k.rules && Listed(k, instance, Id(table, chain))
    ensures var rules, s, m := k.rules[Id(table, chain)], Fetched(k, instance), Selector(FAMILY, table, chain, cond);
            && (forall r :: r in s && InChain(FAMILY, table, chain, r) ==> r in rules)
            && (NoneRecognised(cond, rules) ==> Clean(s, m))
            && (forall j: nat :: OnlyRecognised(cond, rules, j) ==> exists x: nat :: OnlyMatch(s, 0, m, x) && s[x] == rules[j])
  {
    hide Recognised, Fetched;
    var rules, s, m := k.rules[Id(table, chain)], Fetched(k, instance), Selector(FAMILY, table, chain, cond);
    assert ChainWellFormed(Id(table, chain), rules, NextHandle(k, Id(table, chain).table));
    var front, back := ChainSegment(k, instance, table, chain);
    assert forall r :: r in s <==> r in front || r in rules || r in back;
    forall i | 0 <= i < |rules| ensures m(rules[i]) <==> Recognised(cond, rules[i].exprs) {
      assert rules[i] in rules;
    }
    forall j: nat | OnlyRecognised(cond, rules, j) ensures exists x: nat :: OnlyMatch(s, 0, m, x) && s[x] == rules[j] {
      SegmentMatch(front, rules, back, m, j);
      assert OnlyMatch(s, 0, m, |front| + j) && s[|front| + j] == rules[j];
    }
  }

  // ----- Removing what a condition recognises

  function ByCondition(cond: Condition): Rule -> bool {
    (r: Rule) => Recognised(cond, r.exprs)
  }

  lemma {:induction false} KeepAllBut(rules: seq<Rule>, m: Rule -> bool, j: nat)
    requires j < |rules| && m(rules[j]) && forall i :: 0 <= i < |rules| && i != j ==> !m(rules[i])
    ensures Keep(rules, m) == rules[..j] + rules[j + 1..]
  {
    if j == 0 {
      CleanIsKept(rules[1..], m);
    } else {
      KeepAllBut(rules[1..], m, j - 1);
      assert rules[..j] == [rules[0]] + rules[1..][..j - 1];
    }
  }

  /** The ruleset without the rules of one chain that a condition recognises. */
  function Without(k: Kernel, id: ChainId, cond: Condition): Kernel {
    if id !in k.rules then k else k.(rules := k.rules[id := Keep(k.rules[id], ByCondition(cond))])
  }

  lemma WithoutOne(k: Kernel, table: string, chain: string, cond: Condition, j: nat)
    requires WellFormed(k) && Id(table, chain) in k.rules
    requires OnlyRecognised(cond, k.rules[Id(table, chain)], j)
    ensures Apply(k, DelRule(table, chain, k.rules[Id(table, chain)][j].handle)) == Without(k, Id(table, chain), cond)
  {
    hide Recognised;
    var rules := k.rules[Id(table, chain)];
    KeepAllBut(rules, ByCondition(cond), j);
    assert ChainWellFormed(Id(table, chain), rules, NextHandle(k, Id(table, chain).table));
    assert FirstWith(rules, rules[j].handle) == j;
  }

  lemma WithoutNone(k: Kernel, id: ChainId, cond: Condition)
    requires id in k.rules && NoneRecognised(cond, k.rules[id])
    ensures Without(k, id, cond) == k
  {
    hide Recognised;
    CleanIsKept(k.rules[id], ByCondition(cond));
    assert k.rules[id := k.rules[id]] == k.rules;
  }

  lemma {:induction false} KeepWellFormed(id: ChainId, rules: seq<Rule>, next: nat, m: Rule -> bool)
    requires ChainWellFormed(id, rules, next)
    ensures ChainWellFormed(id, Keep(rules, m), next)
    ensures forall r :: r in Keep(rules, m) ==> r in rules
  {
    if rules != [] {
      assert forall r :: r in rules[1..] ==> r in rules;
      KeepWellFormed(id, rules[1..], next, m);
      var rest := Keep(rules[1..], m);
      forall r | r in rest ensures r.handle != rules[0].handle {
        var x :| 0 <= x < |rules[1..]| && rules[1..][x] == r;
        assert rules[x + 1] == r;
      }
    }
  }

  lemma ApplyOne(k: Kernel, c: Command)
    ensures ApplyAll(k, [c]) == Apply(k, c)
  {
    assert [c][1..] == [];
  }
}
