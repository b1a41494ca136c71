/** What a packet meets at the kernel's hooks, at every point of an instance's history.

Hooks go by the kernel's numbers: 0 is prerouting, 2 forward, 3 output and 4 postrouting.  A packet walks the
rules that the ruleset holds for the base chains of a number, with the chains of their table at hand.
*/
module Hooks {
  import opened Encoding
  import opened Conditions
  import opened RuleCache
  import opened Kernels
  import opened Forwardings
  import opened Interpreter
  import opened Meaning
  import opened Startup
  import opened Installer
  import opened Removal
  import opened Delivery
  import E = Expressions
  import F = Foundation
  import T = Teardown

  // ----- Walking the ruleset

  function TableChains(k: Kernel, table: TableId): Chains {
    map id | id in k.rules && id.table == table :: id.chain := ExprsOf(k.rules[id])
  }

  /** What becomes of a packet in a chain of the ruleset, from a rule on. */
  function From(k: Kernel, id: ChainId, p: nat, pkt: Packet, tick: nat): Interpreter.Outcome
    requires id in k.rules && p <= |k.rules[id]|
  {
    Walk(TableChains(k, id.table), ExprsOf(k.rules[id])[p..], pkt, Env(k.sets, tick), 16)
  }

  /** The rule counts and jumps, and does nothing else. */
  predicate JumpsOnly(exprs: Exprs, chain: string) {
    |exprs| == 2 && exprs[0].Counter? && exprs[1] == E.Verdict(E.JumpVerdict, chain)
  }

  predicate JumpAt(k: Kernel, id: ChainId, p: nat, chain: string) {
    id in k.rules && p < |k.rules[id]| && JumpsOnly(k.rules[id][p].exprs, chain)
  }

  /** There is a base chain at the hook of this number, and every one there jumps to the chain. */
  ghost predicate Led(k: Kernel, number: nat, chain: string) {
    && (exists id :: id in k.hooked && k.hooked[id] == number)
    && forall id :: id in k.hooked && k.hooked[id] == number ==> exists p: nat :: JumpAt(k, id, p, chain)
  }

  /** From the jump on a packet at the hook of this number is decided like this, or goes on behind the jump. */
  ghost predicate Meets(k: Kernel, number: nat, chain: string, pkt: Packet, tick: nat, outcome: Interpreter.Outcome) {
    forall id, p: nat :: id in k.hooked && k.hooked[id] == number && JumpAt(k, id, p, chain) ==>
      From(k, id, p, pkt, tick) == if outcome.Decided? then outcome else From(k, id, p + 1, outcome.pkt, tick)
  }

  // ----- Rules without jumps

  lemma {:induction false} PlainEval(exprs: Exprs, regs: Registers, pkt: Packet, env: Env)
    requires Plain(exprs)
    ensures !EvalAll(exprs, regs, pkt, env).Enter?
  {
    if exprs != [] {
      assert !F.IsJump(exprs[0]);
      match Eval(exprs[0], regs, pkt, env)
      case Go(regs', pkt') => PlainEval(exprs[1..], regs', pkt', env);
      case other =>
    }
  }

  /** Rules without jumps do the same whatever chains there are. */
  lemma {:induction false} PlainWalk(a: Chains, b: Chains, rules: seq<Exprs>, pkt: Packet, env: Env, depth: nat)
    requires forall exprs :: exprs in rules ==> Plain(exprs)
    ensures Walk(a, rules, pkt, env, depth) == Walk(b, rules, pkt, env, depth)
  {
    hide EvalAll, Plain;
    if rules != [] {
      assert rules[0] in rules;
      PlainEval(rules[0], map[], pkt, env);
      match EvalAll(rules[0], map[], pkt, env)
      case Go(_, pkt') => PlainWalk(a, b, rules[1..], pkt', env, depth);
      case Stop(pkt') => PlainWalk(a, b, rules[1..], pkt', env, depth);
      case other =>
    }
  }

  lemma RegularIsPlain(instance: string, fs: seq<Forwarding>, ids: seq<Ids>, hook: Hook)
    requires |fs| == |ids|
    ensures forall exprs :: exprs in Regular(instance, fs, ids, hook) ==> Plain(exprs)
  {
    hide RuleExprs, Plain, Built;
    PlainEstablished();
    forall i | 0 <= i < |fs| ensures Plain(RuleList(instance, fs, ids, hook)[i]) {
      PlainRule(instance, fs[i], hook, ids[i].For(hook));
    }
  }

  // ----- Through the jump

  lemma JumpEnters(exprs: Exprs, chain: string, pkt: Packet, env: Env)
    requires JumpsOnly(exprs, chain)
    ensures EvalAll(exprs, map[], pkt, env) == Enter(pkt, chain)
  {
    assert exprs == [exprs[0], exprs[1]];
    EvalTwo(exprs[0], exprs[1], map[], pkt, env);
  }

  lemma FromJump(k: Kernel, id: ChainId, p: nat, chain: string, pkt: Packet, tick: nat)
    requires JumpAt(k, id, p, chain) && ChainId(id.table, chain) in k.rules
    ensures var inner := Walk(TableChains(k, id.table), ExprsOf(k.rules[ChainId(id.table, chain)]), pkt, Env(k.sets, tick), 15);
            From(k, id, p, pkt, tick) == if inner.Passed? then From(k, id, p + 1, inner.pkt, tick) else inner
  {
    hide EvalAll, JumpsOnly;
    var rules, chains, env := ExprsOf(k.rules[id]), TableChains(k, id.table), Env(k.sets, tick);
    assert rules[p..][0] == k.rules[id][p].exprs && rules[p..][1..] == rules[p + 1..];
    JumpEnters(rules[p], chain, pkt, env);
    assert chain in chains && chains[chain] == ExprsOf(k.rules[ChainId(id.table, chain)]);
  }

  /** At its hook a packet meets the chain that the rules of the forwardings are compiled for. */
  lemma HookMeets(k: Kernel, instance: string, tables: Tables, fs: seq<Forwarding>, ids: seq<Ids>, hook: Hook, pkt: Packet, tick: nat)
    requires Carries(k, instance, tables, fs, ids) && forall id :: id in k.hooked ==> id in k.order
    ensures Meets(k, HookNumber(hook), NameOf(instance, hook), pkt, tick, Traverse(instance, fs, ids, hook, pkt, Env(k.sets, tick)))
  {
    hide Walk, Regular, Installed, WellFormed, AllValid, Distinct, Voted, HookNumber, NameOf, JumpsOnly, TableChains, From, Traverse, F.HookedOf;
    var chain, env := NameOf(instance, hook), Env(k.sets, tick);
    assert ChainHolds(k, instance, tables, fs, ids, hook) && InTable(k, tables, hook);
    TraverseEntersRegular(instance, fs, ids, hook, pkt, env);
    RegularIsPlain(instance, fs, ids, hook);
    forall id, p: nat | id in k.hooked && k.hooked[id] == HookNumber(hook) && JumpAt(k, id, p, chain)
      ensures var outcome := Traverse(instance, fs, ids, hook, pkt, env);
              From(k, id, p, pkt, tick) == if outcome.Decided? then outcome else From(k, id, p + 1, outcome.pkt, tick)
    {
      assert id in F.Bases(k, HookNumber(hook));
      assert ChainId(id.table, chain) == ChainOf(instance, tables, hook);
      FromJump(k, id, p, chain, pkt, tick);
      PlainWalk(TableChains(k, id.table), Installed(instance, fs, ids), Regular(instance, fs, ids, hook), pkt, env, 15);
    }
  }

  // ----- Every base chain holds the jump

  ghost predicate LeadsTo(k: Kernel, site: F.Site) {
    forall id :: id in k.hooked && k.hooked[id] == site.hook ==> id in k.rules && HasJump(k.rules[id], site.chain)
  }

  predicate HasJump(rules: seq<Rule>, chain: string) {
    exists p :: 0 <= p < |rules| && JumpsOnly(rules[p].exprs, chain)
  }

  lemma JumpRecognised(exprs: Exprs, chain: string)
    requires exprs != []
    ensures Recognised(F.JumpTo(chain), exprs) <==> JumpsOnly(exprs, chain)
    ensures JumpsOnly(Built(F.JumpTo(chain)), chain)
  {
    hide Recognised;
    F.JumpRuleExprs(chain);
    RecognisedExactly(F.JumpTo(chain), exprs);
  }

  /** A presented jump is there. */
  lemma JumpThere(rules: seq<Rule>, rules': seq<Rule>, chain: string)
    requires F.RuleThere(rules, rules', F.JumpTo(chain), false) && forall r :: r in rules ==> r.exprs != []
    ensures HasJump(rules', chain)
    ensures forall r :: r in rules' ==> r in rules || JumpsOnly(r.exprs, chain)
    ensures (exists r :: r in rules && JumpsOnly(r.exprs, chain)) ==> rules' == rules
    ensures |rules'| <= |rules| + 1
  {
    hide Recognised, Built, F.JumpTo, JumpsOnly;
    forall r | r in rules ensures Recognised(F.JumpTo(chain), r.exprs) <==> JumpsOnly(r.exprs, chain) {
      JumpRecognised(r.exprs, chain);
    }
    if NoneRecognised(F.JumpTo(chain), rules) {
      JumpRecognised([E.Masq], chain);
      assert JumpsOnly(rules'[|rules'| - 1].exprs, chain);
    } else {
      var i :| 0 <= i < |rules| && Recognised(F.JumpTo(chain), rules[i].exprs);
      assert rules[i] in rules && JumpsOnly(rules'[i].exprs, chain);
    }
  }

  lemma BaseRules(k: Kernel, instance: string, p: F.Site, id: ChainId)
    requires F.Ready(k, instance, p) && id in k.hooked && k.hooked[id] == p.hook
    ensures id in k.rules && id in F.Bases(k, p.hook) && forall r :: r in k.rules[id] ==> r.exprs != []
  {
    hide F.AtMostOne, F.HandlesApart, F.JumpsResolve, ChainWellFormed;
  }

  lemma PresentedLeads(k: Kernel, instance: string, p: F.Site, comment: Bytes)
    requires T.Removable(k, instance, p)
    ensures LeadsTo(F.Presented(k, p, comment), p)
  {
    hide F.Presented, F.Sound, T.OnlyOwnJumps, F.RuleThere, T.OwnRuleThere, HasJump, F.Bases, F.Ready, F.JumpTo;
    var k' := F.Presented(k, p, comment);
    T.InPlaceAfter(k, instance, p, comment);
    T.PresentedRemovable(k, instance, p, comment);
    forall id | id in k'.hooked && k'.hooked[id] == p.hook ensures id in k'.rules && HasJump(k'.rules[id], p.chain) {
      BaseRules(k', instance, p, id);
      BasesInRules(k, instance, p);
      var rules := F.RulesIn(k, id);
      if id in k.rules && id in F.Bases(k, p.hook) {
        BaseRules(k, instance, p, id);
      }
      JumpThere(rules, k'.rules[id], p.chain);
    }
  }

  lemma LeadsKept(k: Kernel, instance: string, p: F.Site, q: F.Site, k': Kernel)
    requires F.Ready(k, instance, p) && T.InPlace(k, p, k') && SitesDiffer(p, q) && LeadsTo(k, q)
    ensures LeadsTo(k', q)
  {
    hide F.Ready, T.InPlace, HasJump, F.Bases;
    KeysAfter(k, instance, p, k');
    HookedInRules(k, instance, p);
    forall id | id in k'.hooked && k'.hooked[id] == q.hook ensures id in k'.rules && HasJump(k'.rules[id], q.chain) {
      assert id in k.hooked && k.hooked[id] == q.hook;
      Untouched(k, instance, p, k', id);
    }
  }

  lemma {:induction false} LaidLeads(k: Kernel, instance: string, tables: Tables, comment: Bytes, n: nat)
    requires n <= 4 && Restartable(k, instance, tables)
    ensures forall hook :: Done(hook, n) ==> LeadsTo(Laid(k, instance, tables, comment, n), SiteOf(instance, tables, hook))
  {
    hide Restartable, F.Presented, F.Ready, T.InPlace, LeadsTo, SitesDiffer, NameOf, Begun, F.Bases, T.OnlyOwnJumps, F.Sound;
    if n > 0 {
      LaidLeads(k, instance, tables, comment, n - 1);
      LaidChains(k, instance, tables, comment, n - 1);
      var before, a := Laid(k, instance, tables, comment, n - 1), HOOKS[n - 1];
      ReadyAt(before, instance, tables, a);
      PresentedLeads(before, instance, SiteOf(instance, tables, a), comment);
      T.InPlaceAfter(before, instance, SiteOf(instance, tables, a), comment);
      forall hook: Hook | Done(hook, n) && hook != a
        ensures LeadsTo(Laid(k, instance, tables, comment, n), SiteOf(instance, tables, hook))
      {
        assert Done(hook, n - 1);
        SitesOfHooks(instance, tables, a, hook);
        LeadsKept(before, instance, SiteOf(instance, tables, a), SiteOf(instance, tables, hook), Laid(k, instance, tables, comment, n));
      }
    }
  }

  lemma StartedLeads(k: Kernel, instance: string, tables: Tables, comment: Bytes)
    requires Restartable(k, instance, tables)
    ensures forall hook :: LeadsTo(Started(k, instance, tables, comment), SiteOf(instance, tables, hook))
  {
    hide Restartable, Cleared, Laid, LeadsTo, NameOf, F.Bases, F.RulesIn;
    ClearedChains(k, instance, tables, 4);
    LaidLeads(Cleared(k, instance, tables, 4), instance, tables, comment, 4);
    assert forall hook :: Done(hook, 4);
  }

  /** Base chains are the same where only regular chains may differ. */
  lemma BasesUntouched(k: Kernel, k': Kernel, instance: string, tables: Tables, id: ChainId)
    requires Restartable(k, instance, tables) && SameElsewhere(k, k', instance, tables) && id in k.hooked
    ensures id in k.rules && id in k'.rules && k'.rules[id] == k.rules[id]
  {
    hide Restartable, NameOf;
    NotRegular(k, instance, tables, id);
  }

  lemma LeadsStill(k: Kernel, k': Kernel, instance: string, tables: Tables, hook: Hook)
    requires Restartable(k, instance, tables) && SameElsewhere(k, k', instance, tables) && LeadsTo(k, SiteOf(instance, tables, hook))
    ensures LeadsTo(k', SiteOf(instance, tables, hook))
  {
    hide Restartable, NameOf, HasJump;
    forall id | id in k.hooked && k.hooked[id] == HookNumber(hook) ensures id in k'.rules && k'.rules[id] == k.rules[id] {
      BasesUntouched(k, k', instance, tables, id);
    }
  }

  /** An addition or a removal changes the regular chains only. */
  lemma StepElsewhere(k: Kernel, instance: string, tables: Tables, comment: Bytes, es: seq<Entry>, r: Request)
    requires Working(k, instance, tables, es) && Allowed(Forwarded(es), r) && !r.Restart?
    ensures SameElsewhere(k, Step(k, instance, tables, comment, r), instance, tables)
  {
    hide Restartable, Added, Removed, Bound, NoClash, Unused, Based, NonePartly, Carries, Valid;
    match r
    case Add(f, draw, text) => AddedCarries(k, instance, tables, f, draw, text, Forwarded(es), Draws(es));
    case Remove(g, draw) => RemovedElsewhere(k, instance, tables, g, draw, Forwarded(es), Draws(es));
  }

  lemma {:induction false} HistoryLeads(k: Kernel, instance: string, tables: Tables, comment: Bytes, rs: seq<Request>)
    requires Restartable(k, instance, tables) && (forall hook :: Fresh(k, instance, tables, hook)) && Orderly(rs)
    ensures forall hook :: LeadsTo(After(k, instance, tables, comment, rs), SiteOf(instance, tables, hook))
  {
    hide Restartable, Fresh, Serves, Started, Step, Allowed, LeadsTo, NameOf, SameElsewhere, Bound;
    if rs == [] {
      StartedLeads(k, instance, tables, comment);
    } else {
      var front, r := rs[..|rs| - 1], rs[|rs| - 1];
      var before := After(k, instance, tables, comment, front);
      HistoryLeads(k, instance, tables, comment, front);
      HistoryWorks(k, instance, tables, comment, front);
      if r.Restart? {
        RestartLeads(before, instance, tables, comment, r);
      } else {
        StepElsewhere(before, instance, tables, comment, Wanted(front), r);
        forall hook: Hook ensures LeadsTo(Step(before, instance, tables, comment, r), SiteOf(instance, tables, hook)) {
          LeadsStill(before, Step(before, instance, tables, comment, r), instance, tables, hook);
        }
      }
    }
  }

  lemma RestartLeads(k: Kernel, instance: string, tables: Tables, comment: Bytes, r: Request)
    requires Restartable(k, instance, tables) && r.Restart?
    ensures forall hook :: LeadsTo(Step(k, instance, tables, comment, r), SiteOf(instance, tables, hook))
  {
    hide Restartable, Started, LeadsTo, NameOf;
    StartedLeads(k, instance, tables, comment);
  }

  lemma LedAt(k: Kernel, instance: string, tables: Tables, hook: Hook)
    requires Based(k, hook) && LeadsTo(k, SiteOf(instance, tables, hook))
    ensures Led(k, HookNumber(hook), NameOf(instance, hook))
  {
    hide NameOf, JumpsOnly, F.HookedOf, HookNumber;
    var number, chain := HookNumber(hook), NameOf(instance, hook);
    assert F.Bases(k, number)[0] in F.Bases(k, number);
    forall id | id in k.hooked && k.hooked[id] == number ensures exists p: nat :: JumpAt(k, id, p, chain) {
      assert HasJump(k.rules[id], chain);
      var p :| 0 <= p < |k.rules[id]| && JumpsOnly(k.rules[id][p].exprs, chain);
      assert JumpAt(k, id, p, chain);
    }
  }

  // ----- What becomes of a packet

  /** Every base chain at the four numbers leads to the chain of its hook, and from there every packet is
  redirected and filtered as the forwardings ask. */
  ghost predicate Forwards(k: Kernel, instance: string, fs: seq<Forwarding>, pkt: Packet, tick: nat)
    requires AllValid(fs)
  {
    && Led(k, 0, instance + "-PREROUTING") && Led(k, 2, instance + "-FORWARD")
    && Led(k, 3, instance + "-OUTPUT") && Led(k, 4, instance + "-POSTROUTING")
    && Redirects(k, instance, fs, pkt, tick) && Filters(k, instance, fs, pkt, tick)
    && forall i :: 0 <= i < |fs| && Applies(pkt, fs[i]) ==> Delivers(k, instance, pkt, Delivered(pkt, fs[i], tick), tick)
  }

  /** A packet for a forwarded port is redirected at 0 to this place, let through at 2 and masqueraded at 4. */
  ghost predicate Delivers(k: Kernel, instance: string, pkt: Packet, there: Packet, tick: nat) {
    && Meets(k, 0, instance + "-PREROUTING", pkt, tick, Decided(there, true))
    && Meets(k, 2, instance + "-FORWARD", there, tick, Decided(there, true))
    && Meets(k, 4, instance + "-POSTROUTING", there, tick, Decided(there.(masqueraded := true), true))
  }

  /** At 3 a packet for a forwarded port is redirected if it comes from a local address.  A packet for no
  forwarded port is left alone at 0 and 3. */
  ghost predicate Redirects(k: Kernel, instance: string, fs: seq<Forwarding>, pkt: Packet, tick: nat)
    requires AllValid(fs)
  {
    && (forall i :: 0 <= i < |fs| && Applies(pkt, fs[i]) && pkt.sourceType == 2 ==>
          Meets(k, 3, instance + "-OUTPUT", pkt, tick, Decided(Redirected(pkt, fs[i], tick), true)))
    && ((forall i :: 0 <= i < |fs| ==> !Applies(pkt, fs[i])) ==> Meets(k, 0, instance + "-PREROUTING", pkt, tick, Passed(pkt)))
    && ((forall i :: 0 <= i < |fs| ==> !Applies(pkt, fs[i])) || pkt.sourceType != 2 ==> Meets(k, 3, instance + "-OUTPUT", pkt, tick, Passed(pkt)))
  }

  /** At 2 exactly packets of established connections and admitted ones are accepted, at 4 exactly admitted ones
  masqueraded. */
  ghost predicate Filters(k: Kernel, instance: string, fs: seq<Forwarding>, pkt: Packet, tick: nat) {
    && Meets(k, 2, instance + "-FORWARD", pkt, tick, if Established(pkt) || AdmittedBySome(fs, pkt) then Decided(pkt, true) else Passed(pkt))
    && Meets(k, 4, instance + "-POSTROUTING", pkt, tick,
             if AdmittedBySome(fs, pkt) then Decided(pkt.(masqueraded := true), true) else Passed(pkt))
  }

  /** Some forwarding admits the packet: it carries its mark and is addressed to one of its targets. */
  predicate AdmittedBySome(fs: seq<Forwarding>, pkt: Packet) {
    exists i :: 0 <= i < |fs| && Admitted(pkt, fs[i])
  }

  lemma HooksMeet(k: Kernel, instance: string, tables: Tables, fs: seq<Forwarding>, ids: seq<Ids>, pkt: Packet, tick: nat)
    requires Carries(k, instance, tables, fs, ids) && forall id :: id in k.hooked ==> id in k.order
    ensures var env := Env(k.sets, tick);
            && Meets(k, 0, instance + "-PREROUTING", pkt, tick, Traverse(instance, fs, ids, Prerouting, pkt, env))
            && Meets(k, 2, instance + "-FORWARD", pkt, tick, Traverse(instance, fs, ids, Forward, pkt, env))
            && Meets(k, 3, instance + "-OUTPUT", pkt, tick, Traverse(instance, fs, ids, Output, pkt, env))
            && Meets(k, 4, instance + "-POSTROUTING", pkt, tick, Traverse(instance, fs, ids, Postrouting, pkt, env))
  {
    hide Traverse, Meets, Carries;
    Names(instance);
    HookMeets(k, instance, tables, fs, ids, Prerouting, pkt, tick);
    HookMeets(k, instance, tables, fs, ids, Forward, pkt, tick);
    HookMeets(k, instance, tables, fs, ids, Output, pkt, tick);
    HookMeets(k, instance, tables, fs, ids, Postrouting, pkt, tick);
  }

  lemma Names(instance: string)
    ensures NameOf(instance, Prerouting) == instance + "-PREROUTING" && NameOf(instance, Forward) == instance + "-FORWARD"
    ensures NameOf(instance, Output) == instance + "-OUTPUT" && NameOf(instance, Postrouting) == instance + "-POSTROUTING"
  {
    assert "-" + "PREROUTING" == "-PREROUTING" && "-" + "FORWARD" == "-FORWARD";
    assert "-" + "OUTPUT" == "-OUTPUT" && "-" + "POSTROUTING" == "-POSTROUTING";
    assert instance + "-" + "PREROUTING" == instance + ("-" + "PREROUTING") && instance + "-" + "FORWARD" == instance + ("-" + "FORWARD");
    assert instance + "-" + "OUTPUT" == instance + ("-" + "OUTPUT") && instance + "-" + "POSTROUTING" == instance + ("-" + "POSTROUTING");
  }

  lemma KernelForwards(k: Kernel, instance: string, tables: Tables, fs: seq<Forwarding>, ids: seq<Ids>, pkt: Packet, tick: nat)
    requires Serves(k, instance, tables, fs, ids) && Bound(instance, fs, k.sets) && |pkt.network| >= 20
    requires (forall id :: id in k.hooked ==> id in k.order) && forall hook :: LeadsTo(k, SiteOf(instance, tables, hook))
    ensures Forwards(k, instance, fs, pkt, tick)
  {
    hide Bound, Delivered, NameOf, Applies, Meets, Led, Carries, LeadsTo, Based, AllValid, Distinct, Redirects, Filters, Delivers;
    CarriedLists(k, instance, tables, fs, ids);
    Names(instance);
    LedAt(k, instance, tables, Prerouting);
    LedAt(k, instance, tables, Forward);
    LedAt(k, instance, tables, Output);
    LedAt(k, instance, tables, Postrouting);
    KernelRedirects(k, instance, tables, fs, ids, pkt, tick);
    KernelFilters(k, instance, tables, fs, ids, pkt, tick);
    forall i | 0 <= i < |fs| && Applies(pkt, fs[i]) ensures Delivers(k, instance, pkt, Delivered(pkt, fs[i], tick), tick) {
      KernelDelivers(k, instance, tables, fs, ids, pkt, tick, i);
    }
  }

  lemma KernelRedirects(k: Kernel, instance: string, tables: Tables, fs: seq<Forwarding>, ids: seq<Ids>, pkt: Packet, tick: nat)
    requires Carries(k, instance, tables, fs, ids) && Bound(instance, fs, k.sets) && |pkt.network| >= 20 && AllValid(fs)
    requires forall id :: id in k.hooked ==> id in k.order
    ensures Redirects(k, instance, fs, pkt, tick)
  {
    hide Bound, Redirected, Delivered, Applies, Meets, Carries, Traverse, AllValid, Distinct;
    CarriedLists(k, instance, tables, fs, ids);
    HooksMeet(k, instance, tables, fs, ids, pkt, tick);
    PreroutingMeans(instance, fs, ids, pkt, Env(k.sets, tick));
    OutputMeans(instance, fs, ids, pkt, Env(k.sets, tick));
  }

  lemma KernelFilters(k: Kernel, instance: string, tables: Tables, fs: seq<Forwarding>, ids: seq<Ids>, pkt: Packet, tick: nat)
    requires Carries(k, instance, tables, fs, ids) && Bound(instance, fs, k.sets) && |pkt.network| >= 20
    requires forall id :: id in k.hooked ==> id in k.order
    ensures Filters(k, instance, fs, pkt, tick)
  {
    hide Bound, Admitted, Established, Meets, Carries, Traverse, AllValid, Distinct;
    CarriedLists(k, instance, tables, fs, ids);
    HooksMeet(k, instance, tables, fs, ids, pkt, tick);
    ForwardMeans(instance, fs, ids, pkt, Env(k.sets, tick));
    PostroutingMeans(instance, fs, ids, pkt, Env(k.sets, tick));
  }

  lemma KernelDelivers(k: Kernel, instance: string, tables: Tables, fs: seq<Forwarding>, ids: seq<Ids>, pkt: Packet, tick: nat, i: nat)
    requires Carries(k, instance, tables, fs, ids) && Bound(instance, fs, k.sets) && forall id :: id in k.hooked ==> id in k.order
    requires i < |fs| && Applies(pkt, fs[i]) && AllValid(fs)
    ensures Delivers(k, instance, pkt, Delivered(pkt, fs[i], tick), tick)
  {
    hide Bound, Delivered, Applies, Admitted, Meets, Carries, Traverse, AllValid, Distinct;
    CarriedLists(k, instance, tables, fs, ids);
    ForwardingMeans(instance, fs, ids, pkt, Env(k.sets, tick), i);
    HooksMeet(k, instance, tables, fs, ids, pkt, tick);
    HooksMeet(k, instance, tables, fs, ids, Delivered(pkt, fs[i], tick), tick);
  }

  lemma CarriedLists(k: Kernel, instance: string, tables: Tables, fs: seq<Forwarding>, ids: seq<Ids>)
    requires Carries(k, instance, tables, fs, ids)
    ensures AllValid(fs) && Distinct(fs) && |fs| == |ids| && WellFormed(k)
  {
  }

  lemma HookedListed(k: Kernel, instance: string, tables: Tables)
    requires Restartable(k, instance, tables)
    ensures forall id :: id in k.hooked ==> id in k.order
  {
    hide F.AtMostOne, F.BaseReady, NameOf, T.OnlyOwnJumps, F.HandlesApart, F.JumpsResolve, ChainWellFormed, Voted;
    assert T.Removable(k, instance, SiteOf(instance, tables, Forward));
  }

  /** At every point of every history the base chains at the kernel's hooks lead every packet to what the
  forwardings installed by then ask for, whatever other rules and base chains there are. */
  lemma HistoryForwards(k: Kernel, instance: string, tables: Tables, comment: Bytes, rs: seq<Request>, pkt: Packet, tick: nat)
    requires Restartable(k, instance, tables) && (forall hook :: Fresh(k, instance, tables, hook)) && Orderly(rs) && |pkt.network| >= 20
    ensures AllValid(Forwarded(Wanted(rs)))
    ensures Forwards(After(k, instance, tables, comment, rs), instance, Forwarded(Wanted(rs)), pkt, tick)
  {
    hide Restartable, Fresh, After, Wanted, Orderly, Bound, Forwards, Carries, LeadsTo, NameOf, Based;
    var k' := After(k, instance, tables, comment, rs);
    HistoryWorks(k, instance, tables, comment, rs);
    HistoryLeads(k, instance, tables, comment, rs);
    HookedListed(k', instance, tables);
    CarriedLists(k', instance, tables, Forwarded(Wanted(rs)), Draws(Wanted(rs)));
    KernelForwards(k', instance, tables, Forwarded(Wanted(rs)), Draws(Wanted(rs)), pkt, tick);
  }

  // ----- From the empty ruleset

  function BaseOf(hook: Hook): ChainId {
    Id(STANDARD.For(hook), BaseName(hook))
  }

  /** The hook has no other base chain than the program's, and that holds at most the jump. */
  ghost predicate OwnBase(k: Kernel, instance: string, hook: Hook) {
    forall id :: id in k.hooked && k.hooked[id] == HookNumber(hook) ==>
                   id == BaseOf(hook) && id in k.rules && OwnRules(k.rules[id], NameOf(instance, hook))
  }

  predicate OwnRules(rules: seq<Rule>, chain: string) {
    |rules| <= 1 && forall r :: r in rules ==> JumpsOnly(r.exprs, chain)
  }

  ghost predicate OwnBases(k: Kernel, instance: string) {
    && (forall hook :: OwnBase(k, instance, hook))
    && forall id :: id in k.hooked ==> exists hook :: k.hooked[id] == HookNumber(hook)
  }

  lemma {:induction false} FewerKept(rules: seq<Rule>, m: Rule -> bool)
    ensures |Keep(rules, m)| <= |rules| && forall r :: r in Keep(rules, m) ==> r in rules
  {
    if rules != [] {
      FewerKept(rules[1..], m);
    }
  }

  lemma CleanedOwn(k: Kernel, instance: string, a: Hook)
    requires Restartable(k, instance, STANDARD) && OwnBases(k, instance)
    ensures OwnBases(T.CleanedUp(k, SiteOf(instance, STANDARD, a)), instance)
  {
    hide Restartable, T.CleanedUp, F.Ready, T.OnlyOwnJumps, Keep, NameOf, HookNumber, F.Bases, JumpsOnly, BaseOf, F.JumpTo;
    var p := SiteOf(instance, STANDARD, a);
    var k' := T.CleanedUp(k, p);
    ReadyAt(k, instance, STANDARD, a);
    if F.Bases(k, p.hook) == [] {
      NothingCleaned(k, p);
    } else {
      CleanedTrims(k, instance, p);
      HookedInRules(k, instance, p);
      forall hook: Hook ensures OwnBase(k', instance, hook) {
        assert OwnBase(k, instance, hook);
        forall id | id in k'.hooked && k'.hooked[id] == HookNumber(hook)
          ensures id in k'.rules && OwnRules(k'.rules[id], NameOf(instance, hook))
        {
          FewerKept(k.rules[id], ByCondition(p.Jump()));
        }
      }
    }
  }

  lemma PresentedOwn(k: Kernel, instance: string, a: Hook, comment: Bytes)
    requires Restartable(k, instance, STANDARD) && OwnBases(k, instance)
    ensures OwnBases(F.Presented(k, SiteOf(instance, STANDARD, a), comment), instance)
  {
    hide Restartable, F.Presented, F.Ready, T.InPlace, T.OnlyOwnJumps, NameOf, HookNumber, F.Bases, JumpsOnly, OwnRules, F.JumpTo, F.Sound;
    var p := SiteOf(instance, STANDARD, a);
    var k' := F.Presented(k, p, comment);
    ReadyAt(k, instance, STANDARD, a);
    T.InPlaceAfter(k, instance, p, comment);
    KeysAfter(k, instance, p, k');
    assert Id(p.table, p.base) == BaseOf(a);
    forall hook: Hook ensures OwnBase(k', instance, hook) {
      assert OwnBase(k, instance, hook);
      SitesApart(instance, STANDARD, a, hook);
      forall id | id in k'.hooked && k'.hooked[id] == HookNumber(hook)
        ensures id == BaseOf(hook) && id in k'.rules && OwnRules(k'.rules[id], NameOf(instance, hook))
      {
        if hook == a {
          OwnAfter(k, instance, a, comment, id);
        } else {
          HookedInRules(k, instance, p);
          Untouched(k, instance, p, k', id);
        }
      }
    }
  }

  /** Presenting leaves the base chain of its hook with the jump alone. */
  lemma OwnAfter(k: Kernel, instance: string, a: Hook, comment: Bytes, id: ChainId)
    requires Restartable(k, instance, STANDARD) && OwnBase(k, instance, a)
    requires var k' := F.Presented(k, SiteOf(instance, STANDARD, a), comment); id in k'.hooked && k'.hooked[id] == HookNumber(a)
    ensures var k' := F.Presented(k, SiteOf(instance, STANDARD, a), comment);
            id == BaseOf(a) && id in k'.rules && OwnRules(k'.rules[id], NameOf(instance, a))
  {
    hide Restartable, F.Presented, F.Ready, T.OnlyOwnJumps, NameOf, HookNumber, F.Bases, JumpsOnly, F.JumpTo, F.Sound, F.RuleThere, T.OwnRuleThere;
    var p := SiteOf(instance, STANDARD, a);
    var k' := F.Presented(k, p, comment);
    ReadyAt(k, instance, STANDARD, a);
    T.InPlaceAfter(k, instance, p, comment);
    T.PresentedRemovable(k, instance, p, comment);
    BaseRules(k', instance, p, id);
    BasesInRules(k, instance, p);
    if id in F.Bases(k, p.hook) {
      BaseRules(k, instance, p, id);
    }
    JumpThere(F.RulesIn(k, id), k'.rules[id], p.chain);
    if F.RulesIn(k, id) != [] {
      assert F.RulesIn(k, id)[0] in F.RulesIn(k, id);
    }
  }

  lemma {:induction false} ClearedOwn(k: Kernel, instance: string, n: nat)
    requires n <= 4 && Restartable(k, instance, STANDARD) && OwnBases(k, instance)
    ensures OwnBases(Cleared(k, instance, STANDARD, n), instance)
  {
    hide Restartable, T.CleanedUp, OwnBases, F.Bases, F.RulesIn, NameOf;
    if n > 0 {
      ClearedOwn(k, instance, n - 1);
      ClearedChains(k, instance, STANDARD, n - 1);
      CleanedOwn(Cleared(k, instance, STANDARD, n - 1), instance, HOOKS[n - 1]);
    }
  }

  lemma {:induction false} LaidOwn(k: Kernel, instance: string, comment: Bytes, n: nat)
    requires n <= 4 && Restartable(k, instance, STANDARD) && OwnBases(k, instance)
    ensures OwnBases(Laid(k, instance, STANDARD, comment, n), instance)
  {
    hide Restartable, F.Presented, OwnBases, F.Bases, F.RulesIn, Begun;
    if n > 0 {
      LaidOwn(k, instance, comment, n - 1);
      LaidChains(k, instance, STANDARD, comment, n - 1);
      PresentedOwn(Laid(k, instance, STANDARD, comment, n - 1), instance, HOOKS[n - 1], comment);
    }
  }

  lemma StartedOwn(k: Kernel, instance: string, comment: Bytes)
    requires Restartable(k, instance, STANDARD) && OwnBases(k, instance)
    ensures OwnBases(Started(k, instance, STANDARD, comment), instance)
  {
    hide Restartable, Cleared, Laid, OwnBases, F.Bases, F.RulesIn;
    ClearedOwn(k, instance, 4);
    ClearedChains(k, instance, STANDARD, 4);
    LaidOwn(Cleared(k, instance, STANDARD, 4), instance, comment, 4);
  }

  lemma OwnStill(k: Kernel, k': Kernel, instance: string)
    requires Restartable(k, instance, STANDARD) && SameElsewhere(k, k', instance, STANDARD) && OwnBases(k, instance)
    ensures OwnBases(k', instance)
  {
    hide Restartable, NameOf, OwnRules, HookNumber, BaseOf;
    forall hook: Hook ensures OwnBase(k', instance, hook) {
      assert OwnBase(k, instance, hook);
      forall id | id in k'.hooked && k'.hooked[id] == HookNumber(hook)
        ensures id == BaseOf(hook) && id in k'.rules && OwnRules(k'.rules[id], NameOf(instance, hook))
      {
        BasesUntouched(k, k', instance, STANDARD, id);
      }
    }
  }

  lemma {:induction false} HistoryOwn(k: Kernel, instance: string, comment: Bytes, rs: seq<Request>)
    requires Restartable(k, instance, STANDARD) && OwnBases(k, instance) && (forall hook :: Fresh(k, instance, STANDARD, hook)) && Orderly(rs)
    ensures OwnBases(After(k, instance, STANDARD, comment, rs), instance)
  {
    hide Restartable, Fresh, Serves, Started, Allowed, OwnBases, NameOf, SameElsewhere, Bound, Added, Removed;
    if rs == [] {
      StartedOwn(k, instance, comment);
    } else {
      var front, r := rs[..|rs| - 1], rs[|rs| - 1];
      var before := After(k, instance, STANDARD, comment, front);
      HistoryOwn(k, instance, comment, front);
      HistoryWorks(k, instance, STANDARD, comment, front);
      if r.Restart? {
        StartedOwn(before, instance, comment);
      } else {
        StepElsewhere(before, instance, STANDARD, comment, Wanted(front), r);
        OwnStill(before, Step(before, instance, STANDARD, comment, r), instance);
      }
    }
  }

  const EMPTY := Kernel([], map[], map[], map[], map[])

  /** In a table of its own the base chain of a hook holds nothing but the jump to the instance's chain. */
  ghost predicate OnlyJump(k: Kernel, table: string, base: string, number: nat, chain: string) {
    var id := Id(table, base);
    && id in k.hooked && k.hooked[id] == number && id in k.rules
    && |k.rules[id]| == 1 && JumpsOnly(k.rules[id][0].exprs, chain)
  }

  lemma OnlyJumpAt(k: Kernel, instance: string, hook: Hook)
    requires OwnBases(k, instance) && Based(k, hook) && LeadsTo(k, SiteOf(instance, STANDARD, hook))
    ensures OnlyJump(k, STANDARD.For(hook), BaseName(hook), HookNumber(hook), NameOf(instance, hook))
  {
    hide NameOf, JumpsOnly, HookNumber, F.HookedOf;
    assert OwnBase(k, instance, hook);
    var id := F.Bases(k, HookNumber(hook))[0];
    assert id in F.Bases(k, HookNumber(hook));
    assert HasJump(k.rules[id], NameOf(instance, hook));
  }

  /** An instance that starts on the empty ruleset: after every history there are four base chains, nat
  PREROUTING, OUTPUT and POSTROUTING at the numbers 0, 3 and 4 and filter FORWARD at 2, each with the jump to
  the instance's chain alone. */
  lemma FromNothing(instance: string, comment: Bytes, rs: seq<Request>)
    requires Orderly(rs)
    ensures var k := After(EMPTY, instance, STANDARD, comment, rs);
            && OnlyJump(k, "nat", "PREROUTING", 0, instance + "-PREROUTING") && OnlyJump(k, "filter", "FORWARD", 2, instance + "-FORWARD")
            && OnlyJump(k, "nat", "OUTPUT", 3, instance + "-OUTPUT") && OnlyJump(k, "nat", "POSTROUTING", 4, instance + "-POSTROUTING")
            && k.hooked.Keys == {Id("nat", "PREROUTING"), Id("filter", "FORWARD"), Id("nat", "OUTPUT"), Id("nat", "POSTROUTING")}
            && forall id :: id in k.hooked ==> id.table.family == 2
  {
    hide Restartable, Fresh, After, Orderly, OwnBase, LeadsTo, NameOf, Based, Carries, OnlyJump, Wanted;
    var k := After(EMPTY, instance, STANDARD, comment, rs);
    EmptyIsRestartable(instance, STANDARD);
    EmptyOwn(instance);
    HistoryOwn(EMPTY, instance, comment, rs);
    HistoryWorks(EMPTY, instance, STANDARD, comment, rs);
    HistoryLeads(EMPTY, instance, STANDARD, comment, rs);
    Names(instance);
    OnlyJumpAt(k, instance, Prerouting);
    OnlyJumpAt(k, instance, Forward);
    OnlyJumpAt(k, instance, Output);
    OnlyJumpAt(k, instance, Postrouting);
    assert k.hooked.Keys == {Id("nat", "PREROUTING"), Id("filter", "FORWARD"), Id("nat", "OUTPUT"), Id("nat", "POSTROUTING")} by {
      OnlyJumpThere(k, "nat", "PREROUTING", 0, instance + "-PREROUTING");
      OnlyJumpThere(k, "filter", "FORWARD", 2, instance + "-FORWARD");
      OnlyJumpThere(k, "nat", "OUTPUT", 3, instance + "-OUTPUT");
      OnlyJumpThere(k, "nat", "POSTROUTING", 4, instance + "-POSTROUTING");
      BaseNames();
      FourBases(k, instance);
    }
  }

  lemma OnlyJumpThere(k: Kernel, table: string, base: string, number: nat, chain: string)
    requires OnlyJump(k, table, base, number, chain)
    ensures Id(table, base) in k.hooked
  {
  }

  lemma EmptyOwn(instance: string)
    ensures OwnBases(EMPTY, instance)
  {
  }

  lemma FourBases(k: Kernel, instance: string)
    requires OwnBases(k, instance)
    requires BaseOf(Prerouting) in k.hooked && BaseOf(Forward) in k.hooked && BaseOf(Output) in k.hooked && BaseOf(Postrouting) in k.hooked
    ensures k.hooked.Keys == {BaseOf(Prerouting), BaseOf(Forward), BaseOf(Output), BaseOf(Postrouting)}
  {
    hide OwnBases, BaseOf;
    forall id | id in k.hooked ensures id in {BaseOf(Prerouting), BaseOf(Forward), BaseOf(Output), BaseOf(Postrouting)} {
      var hook := HookOf(k, instance, id);
      match hook
      case Prerouting =>
      case Postrouting =>
      case Forward =>
      case Output =>
    }
  }

  lemma HookOf(k: Kernel, instance: string, id: ChainId) returns (hook: Hook)
    requires OwnBases(k, instance) && id in k.hooked
    ensures id == BaseOf(hook)
  {
    hide NameOf, OwnRules, BaseOf, HookNumber;
    hook :| k.hooked[id] == HookNumber(hook);
    assert OwnBase(k, instance, hook);
  }

  lemma BaseNames()
    ensures BaseOf(Prerouting) == Id("nat", "PREROUTING") && BaseOf(Forward) == Id("filter", "FORWARD")
    ensures BaseOf(Output) == Id("nat", "OUTPUT") && BaseOf(Postrouting) == Id("nat", "POSTROUTING")
  {
  }

  /** In such a base chain the packet's whole way is the one described. */
  lemma AloneDecides(k: Kernel, table: string, base: string, number: nat, chain: string, pkt: Packet, tick: nat, outcome: Interpreter.Outcome)
    requires OnlyJump(k, table, base, number, chain) && Meets(k, number, chain, pkt, tick, outcome)
    ensures From(k, Id(table, base), 0, pkt, tick) == outcome
  {
    hide JumpsOnly, TableChains;
    var id := Id(table, base);
    assert JumpAt(k, id, 0, chain);
    assert ExprsOf(k.rules[id])[1..] == [];
  }
}
