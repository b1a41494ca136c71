/** The chain structure of one hook: a regular chain and a jump to it from every base chain.

Presenting it and cleaning it up each queue one batch of commands.  The batch is followed command by
command: at no point does a jump name a chain that does not exist.
*/
module Foundation {
  import opened Encoding
  import opened Options
  import opened Conditions
  import opened RuleCache
  import opened Kernels
  import opened Mutations
  import opened Searching
  import Meaning
  import Userdata
  import E = Expressions

  /** Where the structure of one hook goes.  All base chains of the hook are in `table`; `base` names
  the one to create when there is none. */
  datatype Site = Site(hook: nat, table: string, base: string, chain: string, established: bool) {
    function Target(): ChainId {
      Id(table, chain)
    }
    function Jump(): Condition {
      JumpTo(chain)
    }
  }

  function JumpTo(chain: string): Condition {
    Combine([Counter, Jump(chain)])
  }

  function HookedOf(hooked: map<ChainId, nat>, ids: seq<ChainId>, hook: nat): (r: seq<ChainId>)
    ensures forall id :: id in r <==> id in ids && id in hooked && hooked[id] == hook
  {
    if ids == [] then []
    else (if ids[0] in hooked && hooked[ids[0]] == hook then [ids[0]] else []) + HookedOf(hooked, ids[1..], hook)
  }

  /** The base chains of a hook in listing order. */
  function Bases(k: Kernel, hook: nat): (r: seq<ChainId>)
    ensures forall id :: id in r <==> id in k.order && id in k.hooked && k.hooked[id] == hook
  {
    HookedOf(k.hooked, k.order, hook)
  }

  // ----- Jumps

  predicate IsJump(e: E.Expr) {
    e.Verdict? && e.kind == E.JumpVerdict
  }

  /** Every jump names a chain of its own table that exists. */
  ghost predicate JumpsResolve(k: Kernel) {
    forall id :: id in k.rules ==> Resolve(k.rules[id], id.table, k.rules.Keys)
  }

  predicate Resolve(rules: seq<Rule>, table: TableId, chains: set<ChainId>) {
    forall r :: r in rules ==> ExprsResolve(r.exprs, table, chains)
  }

  predicate ExprsResolve(exprs: Exprs, table: TableId, chains: set<ChainId>) {
    forall e :: e in exprs && IsJump(e) ==> ChainId(table, e.chain) in chains
  }

  // ----- What the kernel takes

  /** The kernel takes a command: what it works on is there, a new rule's jumps lead somewhere, and nothing
  jumps to a chain that is deleted. */
  predicate Admits(k: Kernel, c: Command) {
    match c
    case AddRule(table, chain, exprs, _, _) =>
      Id(table, chain) in k.rules && ExprsResolve(exprs, TableId(FAMILY, table), k.rules.Keys)
    case DelRule(table, chain, handle) =>
      Id(table, chain) in k.rules && FirstWith(k.rules[Id(table, chain)], handle) < |k.rules[Id(table, chain)]|
    case DelChain(table, chain) =>
      && Id(table, chain) in k.rules
      && forall id :: id in k.rules && id != Id(table, chain) && id.table == TableId(FAMILY, table) ==> NoJumpTo(k.rules[id], chain)
    case _ => true
  }

  predicate Accepted(k: Kernel, cs: seq<Command>)
    decreases |cs|
  {
    cs == [] || (Admits(k, cs[0]) && Accepted(Apply(k, cs[0]), cs[1..]))
  }

  /** A batch is applied as a whole or not at all. */
  function Flushed(k: Kernel, cs: seq<Command>): Kernel {
    if Accepted(k, cs) then ApplyAll(k, cs) else k
  }

  lemma {:induction false} AcceptedConcat(k: Kernel, a: seq<Command>, b: seq<Command>)
    ensures Accepted(k, a + b) <==> Accepted(k, a) && Accepted(ApplyAll(k, a), b)
    decreases |a|
  {
    hide Admits, Apply;
    if a == [] {
      assert a + b == b;
    } else {
      assert (a + b)[0] == a[0] && (a + b)[1..] == a[1..] + b;
      AcceptedConcat(Apply(k, a[0]), a[1..], b);
    }
  }

  lemma AcceptedNothing(k: Kernel)
    ensures Accepted(k, []) && ApplyAll(k, []) == k
  {
  }

  lemma AcceptedOne(k: Kernel, c: Command)
    ensures Accepted(k, [c]) <==> Admits(k, c)
  {
    hide Admits, Apply;
    assert [c][1..] == [];
  }

  /** At no point of an accepted batch does a jump name a chain that does not exist. */
  lemma {:induction false} AcceptedResolves(k: Kernel, cs: seq<Command>, n: nat)
    requires JumpsResolve(k) && Accepted(k, cs) && n <= |cs|
    ensures JumpsResolve(ApplyAll(k, cs[..n]))
    decreases n
  {
    hide JumpsResolve, Admits, Apply;
    if n > 0 {
      AdmittedResolves(k, cs[0]);
      AcceptedResolves(Apply(k, cs[0]), cs[1..], n - 1);
      assert cs[..n][0] == cs[0] && cs[..n][1..] == cs[1..][..n - 1];
    }
  }

  predicate NoJumpTo(rules: seq<Rule>, chain: string) {
    forall r, e :: r in rules && e in r.exprs && IsJump(e) ==> e.chain != chain
  }

  lemma AdmittedResolves(k: Kernel, c: Command)
    requires JumpsResolve(k) && Admits(k, c)
    ensures JumpsResolve(Apply(k, c))
  {
    var k' := Apply(k, c);
    if c.DelChain? {
      forall id | id in k'.rules ensures Resolve(k'.rules[id], id.table, k'.rules.Keys) {
        assert Resolve(k.rules[id], id.table, k.rules.Keys);
      }
    }
    if c.DelRule? && Id(c.table, c.chain) in k.rules {
      var rules := k.rules[Id(c.table, c.chain)];
      assert forall r :: r in WithoutFirst(rules, c.handle) ==> r in rules;
    }
  }

  lemma AdmittedStep(k: Kernel, cs: seq<Command>, k': Kernel, c: Command)
    requires Accepted(k, cs) && ApplyAll(k, cs) == k' && Admits(k', c)
    ensures Accepted(k, cs + [c]) && ApplyAll(k, cs + [c]) == Apply(k', c)
  {
    hide Admits, Apply;
    AcceptedOne(k', c);
    AcceptedConcat(k, cs, [c]);
    ApplyConcat(k, cs, [c]);
    ApplyOne(k', c);
  }

  lemma JumpRuleExprs(chain: string)
    ensures Built(JumpTo(chain)) == [E.Counter(0, 0), E.Verdict(E.JumpVerdict, chain)] && Solid(JumpTo(chain))
    ensures forall exprs :: Panics(JumpTo(chain), exprs) ==> exprs == []
    ensures Recognised(JumpTo(chain), Built(JumpTo(chain)))
    ensures forall exprs :: exprs != [] && Recognised(JumpTo(chain), exprs) ==> exprs[1..] == [E.Verdict(E.JumpVerdict, chain)]
  {
    var cs := JumpTo(chain).conditions;
    PeelBuilt(cs);
    PeelBuilt(cs[1..]);
    assert cs[1..][1..] == [];
    var want := Built(JumpTo(chain));
    assert want == [E.Counter(0, 0), E.Verdict(E.JumpVerdict, chain)];
    RecognisedExactly(JumpTo(chain), want);
    forall exprs | exprs != [] && Recognised(JumpTo(chain), exprs) ensures exprs[1..] == [E.Verdict(E.JumpVerdict, chain)] {
      RecognisedExactly(JumpTo(chain), exprs);
      assert E.Agrees(want[1], exprs[1]);
    }
    LeafBuilds(Counter);
    LeafBuilds(Jump(chain));
  }

  lemma EstablishedExprs()
    ensures Solid(Meaning.EstablishedRule) && forall exprs :: !Panics(Meaning.EstablishedRule, exprs)
    ensures forall e :: e in Built(Meaning.EstablishedRule) ==> !IsJump(e)
  {
    var cs := Meaning.EstablishedRule.conditions;
    PeelBuilt(cs);
    PeelBuilt(cs[1..]);
    assert cs[1..][1..] == [];
    assert Built(Meaning.EstablishedRule) == Built(TrackingEstablishedRelated) + Built(Accept);
    LeafBuilds(TrackingEstablishedRelated);
    LeafBuilds(Accept);
  }

  // ----- Sound rulesets

  /** The handles of a table are unique across its chains. */
  ghost predicate HandlesApart(k: Kernel) {
    forall a, b :: a in k.rules && b in k.rules && a != b && a.table == b.table ==> Apart(k.rules[a], k.rules[b])
  }

  predicate Apart(xs: seq<Rule>, ys: seq<Rule>) {
    forall x, y :: x in xs && y in ys ==> x.handle != y.handle
  }

  ghost predicate Sound(k: Kernel) {
    WellFormed(k) && HandlesApart(k) && JumpsResolve(k)
  }

  lemma AddRuleKeepsSound(k: Kernel, table: string, chain: string, exprs: Exprs, first: bool, comment: Bytes)
    requires Sound(k) && ExprsResolve(exprs, TableId(FAMILY, table), k.rules.Keys)
    ensures Sound(Apply(k, AddRule(table, chain, exprs, first, comment)))
  {
    AddRuleKeepsWellFormed(k, table, chain, exprs, first, comment);
    if Id(table, chain) in k.rules {
      AdmittedResolves(k, AddRule(table, chain, exprs, first, comment));
    }
    AddRuleKeepsApart(k, table, chain, exprs, first, comment);
  }

  lemma AddRuleKeepsApart(k: Kernel, table: string, chain: string, exprs: Exprs, first: bool, comment: Bytes)
    requires WellFormed(k) && HandlesApart(k)
    ensures HandlesApart(Apply(k, AddRule(table, chain, exprs, first, comment)))
  {
    var k', id := Apply(k, AddRule(table, chain, exprs, first, comment)), Id(table, chain);
    if id in k.rules {
      forall other | other in k.rules && other != id && other.table == id.table ensures Apart(k'.rules[id], k'.rules[other]) && Apart(k'.rules[other], k'.rules[id]) {
        assert ChainWellFormed(other, k.rules[other], NextHandle(k, other.table));
        assert Apart(k.rules[id], k.rules[other]) && Apart(k.rules[other], k.rules[id]);
      }
    }
  }

  lemma AddChainKeepsSound(k: Kernel, table: string, chain: string, hook: Option<nat>)
    requires Sound(k)
    ensures Sound(Apply(k, AddChain(table, chain, hook)))
  {
    hide ChainWellFormed, Resolve, WellFormed, ExprsResolve;
    var id, k' := Id(table, chain), Apply(k, AddChain(table, chain, hook));
    AddChainKeepsWellFormed(k, table, chain, hook);
    NothingIn(id, NextHandle(k, id.table), k'.rules.Keys);
    forall other | other in k.rules && other != id ensures Resolve(k'.rules[other], other.table, k'.rules.Keys) {
      MoreChains(k.rules[other], other.table, k.rules.Keys, k'.rules.Keys);
    }
  }

  lemma AddChainKeepsWellFormed(k: Kernel, table: string, chain: string, hook: Option<nat>)
    requires WellFormed(k)
    ensures WellFormed(Apply(k, AddChain(table, chain, hook)))
  {
    hide ChainWellFormed;
    NothingIn(Id(table, chain), NextHandle(k, TableId(FAMILY, table)), {});
  }

  lemma NothingIn(id: ChainId, next: nat, chains: set<ChainId>)
    ensures ChainWellFormed(id, [], next) && Resolve([], id.table, chains)
  {
  }

  lemma MoreChains(rules: seq<Rule>, table: TableId, chains: set<ChainId>, more: set<ChainId>)
    requires Resolve(rules, table, chains) && chains <= more
    ensures Resolve(rules, table, more)
  {
  }

  lemma DelChainKeepsSound(k: Kernel, table: string, chain: string)
    requires Sound(k) && Admits(k, DelChain(table, chain))
    ensures Sound(Apply(k, DelChain(table, chain)))
  {
    AdmittedResolves(k, DelChain(table, chain));
    DropsOne(k.order, Id(table, chain));
  }

  lemma {:induction false} DropsOne(order: seq<ChainId>, id: ChainId)
    ensures forall other :: other in Drop(order, id) <==> other in order && other != id
    ensures Once(order) ==> Once(Drop(order, id))
    ensures id !in order ==> Drop(order, id) == order
  {
    if order != [] {
      DropsOne(order[1..], id);
      if Once(order) {
        assert Once(order[1..]);
        OnceMore(order[0], Drop(order[1..], id));
      }
    }
  }

  lemma OnceMore(id: ChainId, ids: seq<ChainId>)
    requires Once(ids) && id !in ids
    ensures Once([id] + ids)
  {
  }

  lemma WithoutKeepsSound(k: Kernel, id: ChainId, cond: Condition)
    requires Sound(k)
    ensures Sound(Without(k, id, cond))
  {
    if id in k.rules {
      KeepWellFormed(id, k.rules[id], NextHandle(k, id.table), ByCondition(cond));
      ShrinkKeepsSound(k, id, Keep(k.rules[id], ByCondition(cond)));
    }
  }

  lemma ShrinkKeepsSound(k: Kernel, id: ChainId, fewer: seq<Rule>)
    requires Sound(k) && id in k.rules && ChainWellFormed(id, fewer, NextHandle(k, id.table))
    requires forall r :: r in fewer ==> r in k.rules[id]
    ensures Sound(k.(rules := k.rules[id := fewer]))
  {
    hide ChainWellFormed, ExprsResolve;
    var k' := k.(rules := k.rules[id := fewer]);
    assert k'.rules.Keys == k.rules.Keys;
    forall a, b | a in k.rules && b in k.rules && a != b && a.table == b.table ensures Apart(k'.rules[a], k'.rules[b]) {
      assert Apart(k.rules[a], k.rules[b]);
    }
    assert Resolve(k.rules[id], id.table, k.rules.Keys);
  }

  // ----- Rules present at most once

  predicate AtMostOne(cond: Condition, rules: seq<Rule>) {
    forall i, j :: 0 <= i < j < |rules| ==> !Recognised(cond, rules[i].exprs) || !Recognised(cond, rules[j].exprs)
  }

  /** What makes the structure of a site well posed in a ruleset: the base chains of the hook are in
  one table, each has at most one jump to the regular chain, and the name of the regular chain is
  not taken by a base chain. */
  ghost predicate Ready(k: Kernel, instance: string, site: Site) {
    && Sound(k) && instance <= site.chain && site.base != site.chain
    && (forall id :: id in k.hooked ==> id in k.rules && id.chain != site.chain)
    && (site.Target() in k.rules ==> AtMostOne(Meaning.EstablishedRule, k.rules[site.Target()]))
    && (forall id :: id in k.hooked && k.hooked[id] == site.hook ==> id in k.rules && BaseReady(site, id, k.rules[id]))
    && (Bases(k, site.hook) == [] ==> Id(site.table, site.base) !in k.rules)
  }

  predicate BaseReady(site: Site, id: ChainId, rules: seq<Rule>) {
    && id.table == TableId(FAMILY, site.table)
    && AtMostOne(site.Jump(), rules)
    && forall r :: r in rules ==> r.exprs != []
  }

  // ----- Presenting

  function WithRule(k: Kernel, id: ChainId, cond: Condition, first: bool, comment: Bytes): Kernel {
    if id in k.rules && NoneRecognised(cond, k.rules[id]) then
      Apply(k, AddRule(id.table.name, id.chain, Built(cond), first, comment))
    else k
  }

  function WithJumps(k: Kernel, ids: seq<ChainId>, cond: Condition, comment: Bytes): Kernel
    decreases |ids|
  {
    if ids == [] then k
    else
      var n := |ids| - 1;
      WithRule(WithJumps(k, ids[..n], cond, comment), ids[n], cond, false, comment)
  }

  /** The ruleset after the regular chain, with its own rule if it has one, is there. */
  function WithRegular(k: Kernel, site: Site, comment: Bytes): Kernel {
    var k1 := Apply(k, AddChain(site.table, site.chain, None));
    if site.established then WithRule(k1, site.Target(), Meaning.EstablishedRule, true, comment) else k1
  }

  /** The ruleset after the structure of a site is presented. */
  function Presented(k: Kernel, site: Site, comment: Bytes): Kernel {
    var k1, bases := WithRegular(k, site, comment), Bases(k, site.hook);
    if bases == [] then
      WithRule(Apply(k1, AddChain(site.table, site.base, Some(site.hook))), Id(site.table, site.base), site.Jump(), false, comment)
    else WithJumps(k1, bases, site.Jump(), comment)
  }

  /** Adding rules changes neither the chains nor their order. */
  lemma WithRuleFrame(k: Kernel, id: ChainId, cond: Condition, first: bool, comment: Bytes)
    ensures var k' := WithRule(k, id, cond, first, comment);
            k'.order == k.order && k'.hooked == k.hooked && (id.table.family == FAMILY ==> k'.rules.Keys == k.rules.Keys)
  {
    hide Built, NoneRecognised;
    assert id.table.family == FAMILY ==> id == Id(id.table.name, id.chain);
  }

  lemma {:induction false} WithJumpsFrame(k: Kernel, ids: seq<ChainId>, cond: Condition, comment: Bytes)
    ensures var k' := WithJumps(k, ids, cond, comment); k'.order == k.order && k'.hooked == k.hooked
    decreases |ids|
  {
    hide WithRule;
    if ids != [] {
      var n := |ids| - 1;
      WithJumpsFrame(k, ids[..n], cond, comment);
      WithRuleFrame(WithJumps(k, ids[..n], cond, comment), ids[n], cond, false, comment);
    }
  }

  /** How presenting a rule changes the rules of its chain. */
  predicate RuleThere(rules: seq<Rule>, rules': seq<Rule>, cond: Condition, first: bool) {
    if NoneRecognised(cond, rules) then
      && rules' != [] && rules == (if first then rules'[1..] else rules'[..|rules'| - 1])
      && (if first then rules'[0] else rules'[|rules'| - 1]).exprs == Built(cond)
    else rules' == rules
  }

  lemma RuleAdded(k: Kernel, id: ChainId, exprs: Exprs, first: bool, comment: Bytes)
    requires id.table.family == FAMILY && id in k.rules
    ensures var k', r := Apply(k, AddRule(id.table.name, id.chain, exprs, first, comment)), NewRule(k, id, exprs, comment);
            && k'.order == k.order && k'.hooked == k.hooked && k'.rules.Keys == k.rules.Keys
            && k'.rules[id] == (if first then [r] + k.rules[id] else k.rules[id] + [r])
            && forall other :: other in k.rules && other != id ==> k'.rules[other] == k.rules[other]
  {
    assert id == Id(id.table.name, id.chain);
  }

  lemma NewRuleThere(rules: seq<Rule>, r: Rule, cond: Condition, first: bool)
    requires NoneRecognised(cond, rules) && r.exprs == Built(cond)
    ensures RuleThere(rules, if first then [r] + rules else rules + [r], cond, first)
  {
    hide NoneRecognised, Built;
    assert ([r] + rules)[1..] == rules && (rules + [r])[..|rules|] == rules;
  }

  lemma WithRuleThere(k: Kernel, id: ChainId, cond: Condition, first: bool, comment: Bytes)
    requires id.table.family == FAMILY && id in k.rules
    ensures var k' := WithRule(k, id, cond, first, comment);
            && k'.order == k.order && k'.hooked == k.hooked && k'.rules.Keys == k.rules.Keys
            && RuleThere(k.rules[id], k'.rules[id], cond, first)
            && forall other :: other in k.rules && other != id ==> k'.rules[other] == k.rules[other]
  {
    hide NoneRecognised, Built, Apply;
    if NoneRecognised(cond, k.rules[id]) {
      RuleAdded(k, id, Built(cond), first, comment);
      NewRuleThere(k.rules[id], NewRule(k, id, Built(cond), comment), cond, first);
    }
  }

  /** Presenting the jump in base chains one after the other changes exactly those chains. */
  lemma {:induction false} WithJumpsThere(k: Kernel, ids: seq<ChainId>, cond: Condition, comment: Bytes)
    requires Once(ids)
    requires forall id :: id in ids ==> id.table.family == FAMILY && id in k.rules
    ensures var k' := WithJumps(k, ids, cond, comment);
            && k'.order == k.order && k'.hooked == k.hooked && k'.rules.Keys == k.rules.Keys
            && (forall id :: id in ids ==> RuleThere(k.rules[id], k'.rules[id], cond, false))
            && forall id :: id in k.rules && id !in ids ==> k'.rules[id] == k.rules[id]
    decreases |ids|
  {
    hide RuleThere, WithRule;
    if ids != [] {
      var n := |ids| - 1;
      WithJumpsThere(k, ids[..n], cond, comment);
      WithRuleThere(WithJumps(k, ids[..n], cond, comment), ids[n], cond, false, comment);
      assert ids == ids[..n] + [ids[n]];
    }
  }

  lemma WithRuleKeepsSound(k: Kernel, id: ChainId, cond: Condition, first: bool, comment: Bytes)
    requires Sound(k) && id.table.family == FAMILY && ExprsResolve(Built(cond), id.table, k.rules.Keys)
    ensures Sound(WithRule(k, id, cond, first, comment))
  {
    hide Sound, NoneRecognised, ExprsResolve, Built;
    if id in k.rules && NoneRecognised(cond, k.rules[id]) {
      AddRuleKeepsSound(k, id.table.name, id.chain, Built(cond), first, comment);
    }
  }

  lemma {:induction false} WithJumpsKeepsSound(k: Kernel, ids: seq<ChainId>, cond: Condition, table: TableId, comment: Bytes)
    requires Sound(k) && table.family == FAMILY && ExprsResolve(Built(cond), table, k.rules.Keys)
    requires forall id :: id in ids ==> id.table == table && id in k.rules
    requires Once(ids)
    ensures Sound(WithJumps(k, ids, cond, comment))
    decreases |ids|
  {
    hide Sound, NoneRecognised, ExprsResolve, Built, WithRule, RuleThere;
    if ids != [] {
      var n := |ids| - 1;
      WithJumpsKeepsSound(k, ids[..n], cond, table, comment);
      WithJumpsThere(k, ids[..n], cond, comment);
      WithRuleKeepsSound(WithJumps(k, ids[..n], cond, comment), ids[n], cond, false, comment);
    }
  }

  // ----- What the reader sees

  /** A chain that the condition recognises at most one rule of is never swept by `Present`. */
  lemma FirstInChain(k: Kernel, instance: string, id: ChainId, cond: Condition)
    requires WellFormed(k) && id.table.family == FAMILY && (id in k.rules ==> Listed(k, instance, id) && AtMostOne(cond, k.rules[id]))
    ensures var s, m := Fetched(k, instance), Selector(FAMILY, id.table.name, id.chain, cond);
            && (First(s, m) == |s| <==> id !in k.rules || NoneRecognised(cond, k.rules[id]))
            && (First(s, m) < |s| ==> Clean(s[First(s, m) + 1..], m))
  {
    hide Recognised, Fetched, First;
    var table, chain := id.table.name, id.chain;
    assert id == Id(table, chain);
    var s, m := Fetched(k, instance), Selector(FAMILY, table, chain, cond);
    if id !in k.rules {
      NotFetched(k, instance, id);
      NoFirst(s, m);
    } else {
      var rules := k.rules[id];
      SelectsInChain(k, instance, table, chain, cond);
      if NoneRecognised(cond, rules) {
        NoFirst(s, m);
      } else {
        var j :| 0 <= j < |rules| && Recognised(cond, rules[j].exprs);
        assert OnlyRecognised(cond, rules, j);
        var x: nat :| OnlyMatch(s, 0, m, x) && s[x] == rules[j];
        assert First(s, m) == x;
        forall r | r in s[x + 1..] ensures !m(r) {
          var y :| 0 <= y < |s[x + 1..]| && s[x + 1..][y] == r;
          assert s[x + 1 + y] == r;
        }
      }
    }
  }

  lemma NoFirst(s: seq<Rule>, m: Rule -> bool)
    requires Clean(s, m)
    ensures First(s, m) == |s|
  {
    hide First;
    assert forall j :: 0 <= j < |s| ==> s[j] in s;
  }

  lemma NotFetched(k: Kernel, instance: string, id: ChainId)
    requires WellFormed(k) && id !in k.rules && id.table.family == FAMILY
    ensures forall r :: r in Fetched(k, instance) ==> !InChain(FAMILY, id.table.name, id.chain, r)
  {
    RulesComeFrom(k, instance, k.order);
    forall r | r in Fetched(k, instance) ensures !InChain(FAMILY, id.table.name, id.chain, r) {
      var other :| other in k.order && r in k.rules[other];
      assert ChainWellFormed(other, k.rules[other], NextHandle(k, other.table));
    }
  }

  /** Rules of a chain among the fetched ones are rules of that chain. */
  lemma FetchedOfChain(k: Kernel, instance: string, id: ChainId)
    requires WellFormed(k) && id.table.family == FAMILY
    ensures forall r :: r in Fetched(k, instance) && InChain(FAMILY, id.table.name, id.chain, r) ==> id in k.rules && r in k.rules[id]
  {
    RulesComeFrom(k, instance, k.order);
    forall r | r in Fetched(k, instance) && InChain(FAMILY, id.table.name, id.chain, r) ensures id in k.rules && r in k.rules[id] {
      var other :| other in k.order && r in k.rules[other];
      assert ChainWellFormed(other, k.rules[other], NextHandle(k, other.table));
    }
  }

  // ----- How far a batch gets

  /** Where a batch has got to: `now` is the ruleset after the commands queued so far. */
  ghost predicate Reached(k: Kernel, queued: seq<Command>, now: Kernel) {
    Accepted(k, queued) && ApplyAll(k, queued) == now && Sound(now)
  }

  function RulesIn(k: Kernel, id: ChainId): seq<Rule> {
    if id in k.rules then k.rules[id] else []
  }

  lemma RuleReached(k: Kernel, queued: seq<Command>, now: Kernel, id: ChainId, cond: Condition, first: bool, comment: Bytes)
    requires Reached(k, queued, now) && id.table.family == FAMILY && id in now.rules && NoneRecognised(cond, now.rules[id])
    requires ExprsResolve(Built(cond), id.table, now.rules.Keys)
    ensures Reached(k, queued + [AddRule(id.table.name, id.chain, Built(cond), first, comment)], WithRule(now, id, cond, first, comment))
  {
    hide NoneRecognised, JumpsResolve, WellFormed, HandlesApart, ExprsResolve;
    var c := AddRule(id.table.name, id.chain, Built(cond), first, comment);
    AddRuleKeepsSound(now, id.table.name, id.chain, Built(cond), first, comment);
    AdmittedStep(k, queued, now, c);
  }

  lemma KeptRule(k: Kernel, id: ChainId, cond: Condition, first: bool, comment: Bytes)
    requires id in k.rules && !NoneRecognised(cond, k.rules[id])
    ensures WithRule(k, id, cond, first, comment) == k
  {
  }

  /** Presenting a rule in a chain that has it at most once, whose cached rules are the current ones. */
  lemma PresentingReached(k: Kernel, instance: string, queued: seq<Command>, now: Kernel, id: ChainId, cond: Condition, first: bool, data: Bytes)
    requires WellFormed(k) && id.table.family == FAMILY && (id in k.rules ==> Listed(k, instance, id) && AtMostOne(cond, k.rules[id]))
    requires Reached(k, queued, now) && id in now.rules && now.rules[id] == RulesIn(k, id)
    requires ExprsResolve(Built(cond), id.table, now.rules.Keys)
    ensures PresentedCache(Fetched(k, instance), id, cond) == Fetched(k, instance)
    ensures Reached(k, queued + Presenting(Fetched(k, instance), id, cond, first, data), WithRule(now, id, cond, first, data))
  {
    hide Reached, Fetched, AtMostOne, Recognised, ExprsResolve, WellFormed, Gone, Remains, First, Selector, Listed, WithRule;
    FirstInChain(k, instance, id, cond);
    var s := Fetched(k, instance);
    assert NoneRecognised(cond, []);
    if NoneRecognised(cond, now.rules[id]) {
      RuleReached(k, queued, now, id, cond, first, data);
    } else {
      NothingGone(s, First(s, At(id, cond)) + 1, At(id, cond));
      NoDelCommands(id.table.name, id.chain);
      assert queued + [] == queued;
      KeptRule(now, id, cond, first, data);
    }
  }

  lemma ReachedStart(k: Kernel)
    requires Sound(k)
    ensures Reached(k, [], k)
  {
  }

  lemma ReachedTable(k: Kernel, queued: seq<Command>, now: Kernel, name: string)
    requires Reached(k, queued, now)
    ensures Reached(k, queued + [AddTable(name)], now)
  {
    hide JumpsResolve, WellFormed, HandlesApart;
    AdmittedStep(k, queued, now, AddTable(name));
  }

  lemma ReachedChain(k: Kernel, queued: seq<Command>, now: Kernel, table: string, chain: string, hook: Option<nat>)
    requires Reached(k, queued, now)
    ensures Reached(k, queued + [AddChain(table, chain, hook)], Apply(now, AddChain(table, chain, hook)))
  {
    hide JumpsResolve, WellFormed, HandlesApart;
    AdmittedStep(k, queued, now, AddChain(table, chain, hook));
    AddChainKeepsSound(now, table, chain, hook);
  }

  /** Before the jumps are added only the regular chain differs. */
  lemma RegularThere(k: Kernel, instance: string, site: Site, comment: Bytes)
    requires Ready(k, instance, site)
    ensures var k1, target := WithRegular(k, site, comment), site.Target();
            && k1.hooked == k.hooked && k1.rules.Keys == k.rules.Keys + {target}
            && k1.order == (if target in k.rules then k.order else k.order + [target])
            && (site.established ==> RuleThere(RulesIn(k, target), k1.rules[target], Meaning.EstablishedRule, true))
            && (!site.established ==> k1.rules[target] == RulesIn(k, target))
            && forall id :: id in k.rules && id != target ==> k1.rules[id] == k.rules[id]
  {
    hide Sound, AtMostOne, BaseReady, Built, RuleThere, NoneRecognised;
    var k0 := Apply(k, AddChain(site.table, site.chain, None));
    if site.established {
      WithRuleThere(k0, site.Target(), Meaning.EstablishedRule, true, comment);
    }
  }

  lemma {:induction false} HookedOnce(hooked: map<ChainId, nat>, ids: seq<ChainId>, hook: nat)
    requires Once(ids)
    ensures Once(HookedOf(hooked, ids, hook))
  {
    if ids != [] {
      assert Once(ids[1..]);
      HookedOnce(hooked, ids[1..], hook);
      if ids[0] in hooked && hooked[ids[0]] == hook {
        OnceMore(ids[0], HookedOf(hooked, ids[1..], hook));
      }
    }
  }

  lemma BasesOnce(k: Kernel, hook: nat)
    requires WellFormed(k)
    ensures Once(Bases(k, hook))
  {
    HookedOnce(k.hooked, k.order, hook);
  }

  // ----- The batch

  /** The regular chain's own rule, if the site has one. */
  function OwnBatch(s: seq<Rule>, site: Site, data: Bytes): seq<Command> {
    if site.established then Presenting(s, site.Target(), Meaning.EstablishedRule, true, data) else []
  }

  function OwnCache(s: seq<Rule>, site: Site): seq<Rule> {
    if site.established then PresentedCache(s, site.Target(), Meaning.EstablishedRule) else s
  }

  function RegularBatch(s: seq<Rule>, site: Site, data: Bytes): seq<Command> {
    [AddChain(site.table, site.chain, None)] + OwnBatch(s, site, data)
  }

  /** The cache after a rule is presented in the first `n` chains. */
  function JumpsCache(s: seq<Rule>, ids: seq<ChainId>, n: nat, cond: Condition): seq<Rule>
    requires n <= |ids|
  {
    if n == 0 then s else PresentedCache(JumpsCache(s, ids, n - 1, cond), ids[n - 1], cond)
  }

  function JumpsBatch(s: seq<Rule>, ids: seq<ChainId>, n: nat, cond: Condition, data: Bytes): seq<Command>
    requires n <= |ids|
  {
    if n == 0 then []
    else JumpsBatch(s, ids, n - 1, cond, data) + Presenting(JumpsCache(s, ids, n - 1, cond), ids[n - 1], cond, false, data)
  }

  /** What presenting the structure of a site queues. */
  function PresentBatch(k: Kernel, instance: string, site: Site, data: Bytes): seq<Command>
    requires WellFormed(k)
  {
    var s, bases := Fetched(k, instance), Bases(k, site.hook);
    if bases == [] then
      [AddTable(site.table)] + RegularBatch(s, site, data) + [AddChain(site.table, site.base, Some(site.hook))]
      + Presenting(OwnCache(s, site), Id(site.table, site.base), site.Jump(), false, data)
    else RegularBatch(s, site, data) + JumpsBatch(OwnCache(s, site), bases, |bases|, site.Jump(), data)
  }

  lemma RegularReached(k: Kernel, instance: string, queued: seq<Command>, site: Site, data: Bytes)
    requires Ready(k, instance, site) && Reached(k, queued, k)
    ensures OwnCache(Fetched(k, instance), site) == Fetched(k, instance)
    ensures Reached(k, queued + RegularBatch(Fetched(k, instance), site, data), WithRegular(k, site, data))
  {
    hide Reached, Fetched, AtMostOne, Recognised, ExprsResolve, Built, NoneRecognised, BaseReady, JumpsResolve, HandlesApart, WellFormed, WithRule,
      Presenting, PresentedCache;
    var now, first := Apply(k, AddChain(site.table, site.chain, None)), [AddChain(site.table, site.chain, None)];
    ReachedChain(k, queued, k, site.table, site.chain, None);
    if site.established {
      EstablishedExprs();
      NoJumpsResolve(Built(Meaning.EstablishedRule), site.Target().table, now.rules.Keys);
      PresentingReached(k, instance, queued + first, now, site.Target(), Meaning.EstablishedRule, true, data);
      assert queued + first + OwnBatch(Fetched(k, instance), site, data) == queued + RegularBatch(Fetched(k, instance), site, data);
    } else {
      assert first + [] == first;
    }
  }

  /** There is no base chain of the hook yet: one is created, with the jump. */
  lemma NewBaseReached(k: Kernel, instance: string, queued: seq<Command>, site: Site, data: Bytes)
    requires Ready(k, instance, site) && Bases(k, site.hook) == [] && Reached(k, queued, WithRegular(k, site, data))
    ensures var add := [AddChain(site.table, site.base, Some(site.hook))];
            Reached(k, queued + add + Presenting(Fetched(k, instance), Id(site.table, site.base), site.Jump(), false, data), Presented(k, site, data))
  {
    hide Reached, Fetched, AtMostOne, Recognised, ExprsResolve, Built, NoneRecognised, WithRegular, JumpsResolve, HandlesApart, WellFormed, RuleThere,
      WithRule, Listed, Bases, Presenting, PresentedCache;
    var regular := WithRegular(k, site, data);
    RegularThere(k, instance, site, data);
    ReachedChain(k, queued, regular, site.table, site.base, Some(site.hook));
    var now := Apply(regular, AddChain(site.table, site.base, Some(site.hook)));
    JumpResolves(site, now.rules.Keys);
    PresentingReached(k, instance, queued + [AddChain(site.table, site.base, Some(site.hook))], now, Id(site.table, site.base), site.Jump(), false, data);
  }

  lemma NoJumpsResolve(exprs: Exprs, table: TableId, chains: set<ChainId>)
    requires forall e :: e in exprs ==> !IsJump(e)
    ensures ExprsResolve(exprs, table, chains)
  {
  }

  lemma JumpResolves(site: Site, chains: set<ChainId>)
    requires site.Target() in chains
    ensures ExprsResolve(Built(site.Jump()), TableId(FAMILY, site.table), chains)
  {
    JumpRuleExprs(site.chain);
  }

  lemma NoJumpsWith(k: Kernel, cond: Condition, comment: Bytes)
    ensures WithJumps(k, [], cond, comment) == k
  {
  }

  lemma NextWithJumps(k: Kernel, ids: seq<ChainId>, i: nat, cond: Condition, comment: Bytes)
    requires i < |ids|
    ensures WithJumps(k, ids[..i + 1], cond, comment) == WithRule(WithJumps(k, ids[..i], cond, comment), ids[i], cond, false, comment)
  {
    assert ids[..i + 1][..i] == ids[..i];
  }

  lemma BaseIsReady(k: Kernel, instance: string, site: Site, bases: seq<ChainId>, i: nat)
    requires Ready(k, instance, site) && bases == Bases(k, site.hook) && i < |bases| && Once(bases)
    ensures bases[i] in k.hooked && bases[i] in k.rules && BaseReady(site, bases[i], k.rules[bases[i]])
    ensures bases[i] != site.Target() && bases[i] !in bases[..i]
    ensures Once(bases[..i]) && forall id :: id in bases[..i] ==> id in k.rules && id.table.family == FAMILY
  {
    hide Sound, AtMostOne;
    assert bases[i] in bases;
    forall id | id in bases[..i] ensures id in k.rules && id.table.family == FAMILY {
      assert id in bases;
    }
  }

  lemma JumpReached(k: Kernel, instance: string, queued: seq<Command>, site: Site, data: Bytes, bases: seq<ChainId>, i: nat, regular: Kernel, now: Kernel)
    requires Ready(k, instance, site) && bases == Bases(k, site.hook) && i < |bases| && Once(bases)
    requires regular.rules.Keys == k.rules.Keys + {site.Target()}
    requires forall id :: id in k.rules && id != site.Target() ==> regular.rules[id] == k.rules[id]
    requires now == WithJumps(regular, bases[..i], site.Jump(), data) && Reached(k, queued, now)
    ensures PresentedCache(Fetched(k, instance), bases[i], site.Jump()) == Fetched(k, instance)
    ensures Reached(k, queued + Presenting(Fetched(k, instance), bases[i], site.Jump(), false, data), WithRule(now, bases[i], site.Jump(), false, data))
  {
    hide Reached, Fetched, AtMostOne, Recognised, ExprsResolve, Built, NoneRecognised, JumpsResolve, HandlesApart, WellFormed, RuleThere, WithRule,
      Presenting, PresentedCache;
    BaseIsReady(k, instance, site, bases, i);
    WithJumpsThere(regular, bases[..i], site.Jump(), data);
    JumpResolves(site, now.rules.Keys);
    PresentingReached(k, instance, queued, now, bases[i], site.Jump(), false, data);
  }

  lemma {:induction false} JumpsReached(k: Kernel, instance: string, queued: seq<Command>, site: Site, data: Bytes, bases: seq<ChainId>, n: nat,
                                        regular: Kernel)
    requires Ready(k, instance, site) && bases == Bases(k, site.hook) && n <= |bases| && Once(bases)
    requires regular.rules.Keys == k.rules.Keys + {site.Target()}
    requires forall id :: id in k.rules && id != site.Target() ==> regular.rules[id] == k.rules[id]
    requires Reached(k, queued, regular)
    ensures JumpsCache(Fetched(k, instance), bases, n, site.Jump()) == Fetched(k, instance)
    ensures Reached(k, queued + JumpsBatch(Fetched(k, instance), bases, n, site.Jump(), data), WithJumps(regular, bases[..n], site.Jump(), data))
  {
    hide Ready, Reached, Fetched, WithRule, Presenting, PresentedCache, Bases, Once, WellFormed;
    ReadyIsWellFormed(k, instance, site);
    if n == 0 {
      assert queued + [] == queued;
      NoJumpsWith(regular, site.Jump(), data);
    } else {
      JumpsReached(k, instance, queued, site, data, bases, n - 1, regular);
      var s, before := Fetched(k, instance), JumpsBatch(Fetched(k, instance), bases, n - 1, site.Jump(), data);
      JumpReached(k, instance, queued + before, site, data, bases, n - 1, regular, WithJumps(regular, bases[..n - 1], site.Jump(), data));
      NextWithJumps(regular, bases, n - 1, site.Jump(), data);
      assert queued + before + Presenting(s, bases[n - 1], site.Jump(), false, data) == queued + JumpsBatch(s, bases, n, site.Jump(), data);
    }
  }

  /** Where every base chain has the jump at most once, the batch is taken command by command and leads to
  the structure: the regular chain, its own rule, then the jumps. */
  lemma PresentReached(k: Kernel, instance: string, site: Site, data: Bytes)
    requires Ready(k, instance, site)
    ensures Reached(k, PresentBatch(k, instance, site, data), Presented(k, site, data))
  {
    hide Reached, Fetched, AtMostOne, Recognised, Built, NoneRecognised, WithRegular, JumpsResolve, HandlesApart, WellFormed, Once, RuleThere, WithRule,
      Bases, WithJumps, Presenting, RegularBatch, OwnCache, JumpsBatch, JumpsCache;
    var s, bases, regular := Fetched(k, instance), Bases(k, site.hook), WithRegular(k, site, data);
    ReachedStart(k);
    if bases == [] {
      ReachedTable(k, [], k, site.table);
      assert [] + [AddTable(site.table)] == [AddTable(site.table)];
      RegularReached(k, instance, [AddTable(site.table)], site, data);
      NewBaseReached(k, instance, [AddTable(site.table)] + RegularBatch(s, site, data), site, data);
    } else {
      RegularReached(k, instance, [], site, data);
      assert [] + RegularBatch(s, site, data) == RegularBatch(s, site, data);
      RegularThere(k, instance, site, data);
      BasesOnce(k, site.hook);
      JumpsReached(k, instance, RegularBatch(s, site, data), site, data, bases, |bases|, regular);
      assert bases[..|bases|] == bases;
    }
  }

  // ----- The methods

  predicate NoHollow(rules: seq<Rule>) {
    forall r :: r in rules ==> r.exprs != []
  }

  /** Nothing panics: all base chains of the hook are in the table of the site, and they and the chain that
  may be made one have no rule without expressions. */
  ghost predicate Sane(k: Kernel, site: Site) {
    && WellFormed(k)
    && (forall id :: id in Bases(k, site.hook) ==> id.table == TableId(FAMILY, site.table) && NoHollow(RulesIn(k, id)))
    && (Bases(k, site.hook) == [] ==> NoHollow(RulesIn(k, Id(site.table, site.base))))
  }

  lemma ReadyIsSane(k: Kernel, instance: string, site: Site)
    requires Ready(k, instance, site)
    ensures Sane(k, site)
  {
    hide AtMostOne, HandlesApart, JumpsResolve, ChainWellFormed;
  }

  lemma ReadyIsWellFormed(k: Kernel, instance: string, site: Site)
    requires Ready(k, instance, site)
    ensures WellFormed(k)
  {
    hide WellFormed, AtMostOne, HandlesApart, JumpsResolve, BaseReady;
  }

  lemma JumpIsSafe(k: Kernel, instance: string, site: Site, id: ChainId, s: seq<Rule>)
    requires WellFormed(k) && id.table.family == FAMILY && NoHollow(RulesIn(k, id)) && forall r :: r in s ==> r in Fetched(k, instance)
    ensures Solid(site.Jump()) && NoPanic(FAMILY, id.table.name, id.chain, site.Jump(), s)
  {
    hide Panics, Recognised, Solid, Fetched;
    JumpRuleExprs(site.chain);
    FetchedOfChain(k, instance, id);
  }

  lemma EstablishedIsSafe(site: Site, s: seq<Rule>)
    ensures Solid(Meaning.EstablishedRule) && NoPanic(FAMILY, site.table, site.chain, Meaning.EstablishedRule, s)
  {
    hide Panics;
    EstablishedExprs();
  }

  lemma PresentedCacheOld(s: seq<Rule>, id: ChainId, cond: Condition)
    ensures forall r :: r in PresentedCache(s, id, cond) ==> r in s
  {
    hide Recognised, First, Remains;
    if First(s, At(id, cond)) < |s| {
      RemainsOld(s, First(s, At(id, cond)) + 1, At(id, cond));
    }
  }

  /** The regular chain and its own rule. */
  method PresentRegular(k: Kernel, instance: string, rw: ReadWriter, site: Site, comment: Bytes)
    requires WellFormed(k) && rw.Valid() && rw.family == FAMILY && rw.Rules() == Fetched(k, instance)
    modifies rw`live, rw`queued, rw.backing
    ensures rw.Valid() && rw.Rules() == OwnCache(Fetched(k, instance), site)
    ensures rw.queued == old(rw.queued) + RegularBatch(Fetched(k, instance), site, Userdata.Stored(comment))
  {
    hide Fetched, Recognised, Panics, Solid, Built, NoPanic, Presenting, PresentedCache;
    rw.queued := rw.queued + [AddChain(site.table, site.chain, None)];
    if site.established {
      EstablishedIsSafe(site, rw.Rules());
      PresentRule(rw, site.table, site.chain, Meaning.EstablishedRule, true, comment);
    }
  }

  /** Presenting the structure of one hook: the regular chain, its own rule, then the jump in every base
  chain, or in a new one. */
  method PresentFoundation(k: Kernel, instance: string, site: Site, comment: Bytes) returns (queued: seq<Command>)
    requires Sane(k, site)
    ensures queued == PresentBatch(k, instance, site, Userdata.Stored(comment))
  {
    hide Fetched, Recognised, Panics, Solid, Built, WellFormed, NoHollow, Bases, Presenting, PresentedCache, NoPanic, RegularBatch;
    var rw := Refresh(k, instance);
    ghost var s, data := Fetched(k, instance), Userdata.Stored(comment);
    var bases := Bases(k, site.hook);
    if bases == [] {
      rw.queued := rw.queued + [AddTable(site.table)];
    }
    ghost var first := rw.queued;
    PresentRegular(k, instance, rw, site, comment);
    OwnCacheOld(s, site);
    if bases == [] {
      rw.queued := rw.queued + [AddChain(site.table, site.base, Some(site.hook))];
      JumpIsSafe(k, instance, site, Id(site.table, site.base), rw.Rules());
      PresentRule(rw, site.table, site.base, site.Jump(), false, comment);
      return rw.queued;
    }
    ghost var s1, regular := rw.Rules(), rw.queued;
    assert first == [] && regular == RegularBatch(s, site, data) by {
      assert [] + RegularBatch(s, site, data) == RegularBatch(s, site, data);
    }
    var i := 0;
    while i < |bases|
      invariant 0 <= i <= |bases| && fresh(rw.backing) && rw.Valid()
      invariant rw.Rules() == JumpsCache(s1, bases, i, site.Jump()) && forall r :: r in rw.Rules() ==> r in s
      invariant rw.queued == regular + JumpsBatch(s1, bases, i, site.Jump(), data)
    {
      assert bases[i] in bases;
      JumpIsSafe(k, instance, site, bases[i], rw.Rules());
      PresentedCacheOld(rw.Rules(), bases[i], site.Jump());
      PresentRule(rw, site.table, bases[i].chain, site.Jump(), false, comment);
      i := i + 1;
    }
    queued := rw.queued;
  }

  lemma OwnCacheOld(s: seq<Rule>, site: Site)
    ensures forall r :: r in OwnCache(s, site) ==> r in s
  {
    hide PresentedCache;
    PresentedCacheOld(s, site.Target(), Meaning.EstablishedRule);
  }
}
