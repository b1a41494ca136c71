/** From a start through any history of an instance.

Additions, removals and restarts follow one another.  At every point the four chains serve the
forwardings installed by then, and the instance can be started in again.
*/
module Delivery {
  import opened Encoding
  import opened Conditions
  import opened RuleCache
  import opened Kernels
  import opened Forwardings
  import opened Meaning
  import opened Startup
  import opened Installer
  import opened Removal
  import Userdata
  import F = Foundation
  import T = Teardown

  // ----- Chains with the rules of forwardings

  lemma NotEstablished(instance: string, f: Forwarding, hook: Hook, id: uint32)
    requires Valid(f)
    ensures !Recognised(EstablishedRule, RuleExprs(instance, f, hook, id))
  {
    hide RuleExprs, Built, Recognised;
    RuleShape(instance, f, hook, id);
    EstablishedLength();
    RecognisedExactly(EstablishedRule, RuleExprs(instance, f, hook, id));
  }

  lemma EstablishedLength()
    ensures |Built(EstablishedRule)| == 4
  {
    PeelBuilt(EstablishedRule.conditions);
    PeelBuilt(EstablishedRule.conditions[1..]);
    assert BuiltAll(EstablishedRule.conditions[2..]) == [];
  }

  /** A chain with the rules of forwardings has no jumps, and its own rule at most once. */
  lemma ServedChain(instance: string, fs: seq<Forwarding>, ids: seq<Ids>, hook: Hook, rules: seq<Rule>)
    requires |fs| == |ids| && AllValid(fs) && ExprsOf(rules) == Regular(instance, fs, ids, hook)
    ensures forall r :: r in rules ==> Plain(r.exprs)
    ensures F.AtMostOne(EstablishedRule, rules)
  {
    hide RuleExprs, Built, Recognised, Plain;
    assert |rules| == |ExprsOf(rules)| == Offset(hook) + |fs|;
    forall x | 0 <= x < |rules|
      ensures Plain(rules[x].exprs) && (x >= Offset(hook) ==> !Recognised(EstablishedRule, rules[x].exprs))
    {
      assert rules[x].exprs == ExprsOf(rules)[x] == Regular(instance, fs, ids, hook)[x];
      if x >= Offset(hook) {
        var y := x - Offset(hook);
        ListElement(instance, fs, ids, hook, y);
        PlainRule(instance, fs[y], hook, ids[y].For(hook));
        NotEstablished(instance, fs[y], hook, ids[y].For(hook));
      } else {
        PlainEstablished();
      }
    }
  }

  lemma PlainEstablished()
    ensures Plain(Built(EstablishedRule))
  {
    F.EstablishedExprs();
  }

  // ----- Additions and removals leave a ruleset that can be started in again

  lemma SoundWithSets(k: Kernel, sets: map<string, map<Bytes, Bytes>>)
    requires F.Sound(k)
    ensures F.Sound(k.(sets := sets))
  {
    hide ChainWellFormed, F.Apart, F.Resolve;
  }

  lemma {:induction false} AddedSound(k: Kernel, instance: string, tables: Tables, f: Forwarding, draw: Ids, comment: Bytes, n: nat)
    requires F.Sound(k) && n <= 4
    ensures F.Sound(Added(k, instance, tables, f, draw, comment, n))
  {
    hide F.Sound, RuleExprs, NameOf, InternalName, SetElements;
    if n > 0 {
      AddedSound(k, instance, tables, f, draw, comment, n - 1);
      var before, hook := Added(k, instance, tables, f, draw, comment, n - 1), HOOKS[n - 1];
      PresentedSoundOn(before, instance, tables, hook, f, draw.For(hook), comment);
    }
  }

  lemma PresentedSoundOn(k: Kernel, instance: string, tables: Tables, hook: Hook, f: Forwarding, id: uint32, comment: Bytes)
    requires F.Sound(k)
    ensures F.Sound(PresentedOn(k, instance, tables, hook, f, id, comment))
  {
    hide F.Sound, RuleExprs, NameOf, InternalName, SetElements, Apply;
    var k1 := if |f.targets| == 1 then k
              else k.(sets := k.sets[InternalName(instance, f.from, hook) := SetElements(f, hook)]);
    SoundWithSets(k, k1.sets);
    PlainRule(instance, f, hook, id);
    F.AddRuleKeepsSound(k1, tables.For(hook), NameOf(instance, hook), RuleExprs(instance, f, hook, id), false, Userdata.Stored(comment));
  }

  lemma {:induction false} RemovedSound(k: Kernel, instance: string, tables: Tables, g: Forwarding, draw: Ids, n: nat)
    requires F.Sound(k) && n <= 4
    ensures F.Sound(Removed(k, instance, tables, g, draw, n)) && Removed(k, instance, tables, g, draw, n).sets == k.sets
  {
    hide F.Sound, Without, RuleCondition, NameOf, Based;
    if n > 0 {
      RemovedSound(k, instance, tables, g, draw, n - 1);
      var before, hook := Removed(k, instance, tables, g, draw, n - 1), HOOKS[n - 1];
      F.WithoutKeepsSound(before, ChainOf(instance, tables, hook), RuleCondition(instance, g, hook, draw.For(hook)));
      WithoutKeepsSets(before, ChainOf(instance, tables, hook), RuleCondition(instance, g, hook, draw.For(hook)));
    }
  }

  lemma WithoutKeepsSets(k: Kernel, id: ChainId, cond: Condition)
    ensures Without(k, id, cond).sets == k.sets
  {
    hide Recognised, Keep;
  }

  /** Only the regular chains may differ. */
  ghost predicate SameElsewhere(k: Kernel, k': Kernel, instance: string, tables: Tables) {
    && SameFrame(k, k')
    && forall id :: id in k.rules && (forall hook :: id != ChainOf(instance, tables, hook)) ==> k'.rules[id] == k.rules[id]
  }

  lemma StillReady(k: Kernel, k': Kernel, instance: string, tables: Tables, fs: seq<Forwarding>, ids: seq<Ids>, hook: Hook)
    requires Restartable(k, instance, tables) && F.Sound(k') && SameElsewhere(k, k', instance, tables) && Carries(k', instance, tables, fs, ids)
    ensures F.Ready(k', instance, SiteOf(instance, tables, hook))
  {
    hide F.Sound, F.AtMostOne, F.BaseReady, NameOf, T.OnlyOwnJumps, Regular, WellFormed, AllValid, Distinct, InTable, F.HookedOf;
    var q := SiteOf(instance, tables, hook);
    assert T.Removable(k, instance, q);
    assert ChainHolds(k', instance, tables, fs, ids, hook);
    ServedChain(instance, fs, ids, hook, k'.rules[q.Target()]);
    SameFrameSameBases(k, k');
    forall id | id in k'.hooked && k'.hooked[id] == q.hook ensures id in k'.rules && F.BaseReady(q, id, k'.rules[id]) {
      NotRegular(k, instance, tables, id);
    }
  }

  lemma NotRegular(k: Kernel, instance: string, tables: Tables, id: ChainId)
    requires Restartable(k, instance, tables) && id in k.hooked
    ensures id in k.rules && forall hook :: id != ChainOf(instance, tables, hook)
  {
    hide F.Sound, F.AtMostOne, F.BaseReady, NameOf, T.OnlyOwnJumps;
    forall hook: Hook ensures id in k.rules && id != ChainOf(instance, tables, hook) {
      assert T.Removable(k, instance, SiteOf(instance, tables, hook));
    }
    assert id in k.rules by {
      assert T.Removable(k, instance, SiteOf(instance, tables, Forward));
    }
  }

  lemma StillOwnJumps(k: Kernel, k': Kernel, instance: string, tables: Tables, fs: seq<Forwarding>, ids: seq<Ids>, hook: Hook)
    requires Restartable(k, instance, tables) && SameElsewhere(k, k', instance, tables) && Carries(k', instance, tables, fs, ids)
    ensures T.OnlyOwnJumps(k', SiteOf(instance, tables, hook))
  {
    hide F.Ready, NameOf, Regular, WellFormed, AllValid, Distinct, InTable, T.OwnJumps;
    var q := SiteOf(instance, tables, hook);
    assert T.Removable(k, instance, q);
    forall id | id in k'.rules && id != q.Target() && id.table == q.Target().table
      ensures T.OwnJumps(q, id in k'.hooked && k'.hooked[id] == q.hook, k'.rules[id])
    {
      if other :| id == ChainOf(instance, tables, other) {
        assert ChainHolds(k', instance, tables, fs, ids, other);
        ServedChain(instance, fs, ids, other, k'.rules[id]);
        PlainOwnJumps(q, id in k'.hooked && k'.hooked[id] == q.hook, k'.rules[id]);
      }
    }
  }

  lemma PlainOwnJumps(q: F.Site, base: bool, rules: seq<Rule>)
    requires forall r :: r in rules ==> Plain(r.exprs)
    ensures T.OwnJumps(q, base, rules)
  {
    hide Recognised;
  }

  lemma CarriedVotes(k: Kernel, instance: string, tables: Tables, fs: seq<Forwarding>, ids: seq<Ids>)
    requires Carries(k, instance, tables, fs, ids)
    ensures forall hook :: Voted(k, tables, hook)
  {
    hide Voted, ChainHolds;
    forall hook: Hook ensures Voted(k, tables, hook) {
      assert InTable(k, tables, hook);
    }
  }

  lemma StillRestartable(k: Kernel, k': Kernel, instance: string, tables: Tables, fs: seq<Forwarding>, ids: seq<Ids>)
    requires Restartable(k, instance, tables) && F.Sound(k') && SameElsewhere(k, k', instance, tables) && Carries(k', instance, tables, fs, ids)
    ensures Restartable(k', instance, tables)
  {
    hide F.Ready, T.OnlyOwnJumps, F.Sound, SameElsewhere, Carries, Voted;
    forall hook: Hook ensures T.Removable(k', instance, SiteOf(instance, tables, hook)) {
      StillReady(k, k', instance, tables, fs, ids, hook);
      StillOwnJumps(k, k', instance, tables, fs, ids, hook);
    }
    CarriedVotes(k', instance, tables, fs, ids);
  }

  // ----- Histories

  datatype Request =
    | Add(f: Forwarding, draw: Ids, comment: Bytes)
    | Remove(g: Forwarding, draws: Ids)
    | Restart

  /** The ruleset after one request. */
  function Step(k: Kernel, instance: string, tables: Tables, comment: Bytes, r: Request): Kernel {
    match r
    case Add(f, draw, text) => Added(k, instance, tables, f, draw, text, 4)
    case Remove(g, draw) => Removed(k, instance, tables, g, draw, 4)
    case Restart => Started(k, instance, tables, comment)
  }

  /** The ruleset after the start and the requests. */
  function After(k: Kernel, instance: string, tables: Tables, comment: Bytes, rs: seq<Request>): Kernel {
    if rs == [] then Started(k, instance, tables, comment)
    else Step(After(k, instance, tables, comment, rs[..|rs| - 1]), instance, tables, comment, rs[|rs| - 1])
  }

  /** An installed forwarding with the ids of its sets. */
  datatype Entry = Entry(f: Forwarding, ids: Ids)

  function Forwarded(es: seq<Entry>): (fs: seq<Forwarding>)
    ensures |fs| == |es|
  {
    seq(|es|, i requires 0 <= i < |es| => es[i].f)
  }

  function Draws(es: seq<Entry>): (ids: seq<Ids>)
    ensures |ids| == |es|
  {
    seq(|es|, i requires 0 <= i < |es| => es[i].ids)
  }

  /** What should be installed after the requests. */
  function Wanted(rs: seq<Request>): seq<Entry> {
    if rs == [] then []
    else
      var es, r := Wanted(rs[..|rs| - 1]), rs[|rs| - 1];
      match r
      case Add(f, draw, _) => es + [Entry(f, draw)]
      case Remove(g, _) => WithoutAt(es, Victim(Forwarded(es), g))
      case Restart => []
  }

  /** What a caller has to see to: a new protocol and host port, no host port shared by different targets,
  no removal that names another number of targets. */
  predicate Allowed(fs: seq<Forwarding>, r: Request) {
    match r
    case Add(f, _, _) => Valid(f) && Unused(fs, f) && NoClash(fs + [f])
    case Remove(g, _) => Valid(g) && NonePartly(fs, g)
    case Restart => true
  }

  predicate Orderly(rs: seq<Request>) {
    rs == [] || (Orderly(rs[..|rs| - 1]) && Allowed(Forwarded(Wanted(rs[..|rs| - 1])), rs[|rs| - 1]))
  }

  /** The instance works: it serves these forwardings with the right sets, and can be started again. */
  ghost predicate Working(k: Kernel, instance: string, tables: Tables, es: seq<Entry>) {
    && Restartable(k, instance, tables) && Serves(k, instance, tables, Forwarded(es), Draws(es))
    && Bound(instance, Forwarded(es), k.sets)
  }

  lemma AddKeepsWorking(k: Kernel, instance: string, tables: Tables, es: seq<Entry>, f: Forwarding, draw: Ids, comment: Bytes)
    requires Working(k, instance, tables, es) && Valid(f) && Unused(Forwarded(es), f) && NoClash(Forwarded(es) + [f])
    ensures Working(Added(k, instance, tables, f, draw, comment, 4), instance, tables, es + [Entry(f, draw)])
  {
    hide Restartable, Added, Bound, NoClash, Unused, Carries, F.Sound, Based;
    var k', fs, ids := Added(k, instance, tables, f, draw, comment, 4), Forwarded(es), Draws(es);
    assert Forwarded(es + [Entry(f, draw)]) == fs + [f] && Draws(es + [Entry(f, draw)]) == ids + [draw];
    AddedServes(k, instance, tables, f, draw, comment, fs, ids);
    AddedCarries(k, instance, tables, f, draw, comment, fs, ids);
    RestartableSound(k, instance, tables);
    AddedSound(k, instance, tables, f, draw, comment, 4);
    StillRestartable(k, k', instance, tables, fs + [f], ids + [draw]);
    BoundAdded(instance, fs, f, k.sets);
  }

  lemma RestartableSound(k: Kernel, instance: string, tables: Tables)
    requires Restartable(k, instance, tables)
    ensures F.Sound(k)
  {
    hide F.Sound, NameOf;
    assert T.Removable(k, instance, SiteOf(instance, tables, Forward));
  }

  lemma BoundAdded(instance: string, fs: seq<Forwarding>, f: Forwarding, sets: map<string, map<Bytes, Bytes>>)
    requires Bound(instance, fs, sets) && NoClash(fs + [f])
    ensures Bound(instance, fs + [f], WithSets(instance, f, sets))
  {
    hide InternalName, SetElements, WithSets, Sorted;
    var all, after := fs + [f], WithSets(instance, f, sets);
    forall i, hook | 0 <= i < |all| && |all[i].targets| != 1
      ensures InternalName(instance, all[i].from, hook) in after && after[InternalName(instance, all[i].from, hook)] == SetElements(all[i], hook)
    {
      WithSetsAt(instance, f, sets, all[i].from, hook);
      if i < |fs| {
        assert all[i] == fs[i];
        if |f.targets| != 1 && f.from == fs[i].from {
          assert all[|fs|] == f && Sorted(all[i]) == Sorted(all[|fs|]);
          SameTargetsSameSets(fs[i], f, hook);
        }
      }
    }
  }

  lemma RemoveKeepsWorking(k: Kernel, instance: string, tables: Tables, es: seq<Entry>, g: Forwarding, draw: Ids)
    requires Working(k, instance, tables, es) && Valid(g) && NonePartly(Forwarded(es), g)
    ensures Working(Removed(k, instance, tables, g, draw, 4), instance, tables, WithoutAt(es, Victim(Forwarded(es), g)))
  {
    hide Restartable, Removed, NonePartly, Carries, F.Sound, Based, Bound, Victim, WithoutAt;
    var k', fs, ids, v := Removed(k, instance, tables, g, draw, 4), Forwarded(es), Draws(es), Victim(Forwarded(es), g);
    EntriesWithout(es, v);
    RemovedServes(k, instance, tables, g, draw, fs, ids);
    RestartableSound(k, instance, tables);
    RemovedSound(k, instance, tables, g, draw, 4);
    RemovedElsewhere(k, instance, tables, g, draw, fs, ids);
    StillRestartable(k, k', instance, tables, Remaining(fs, g), WithoutAt(ids, v));
    BoundRest(instance, fs, v, k.sets);
  }

  lemma EntriesWithout(es: seq<Entry>, v: nat)
    ensures Forwarded(WithoutAt(es, v)) == WithoutAt(Forwarded(es), v) && Draws(WithoutAt(es, v)) == WithoutAt(Draws(es), v)
  {
  }

  lemma RemovedElsewhere(k: Kernel, instance: string, tables: Tables, g: Forwarding, draw: Ids, fs: seq<Forwarding>, ids: seq<Ids>)
    requires Carries(k, instance, tables, fs, ids)
    ensures SameElsewhere(k, Removed(k, instance, tables, g, draw, 4), instance, tables)
  {
    hide Removed, Carries, Cleaned, NameOf;
    RemovedChains(k, instance, tables, g, draw, 4, fs, ids);
  }

  lemma BoundRest(instance: string, fs: seq<Forwarding>, v: nat, sets: map<string, map<Bytes, Bytes>>)
    requires Bound(instance, fs, sets)
    ensures Bound(instance, WithoutAt(fs, v), sets)
  {
    hide InternalName, SetElements;
    forall i, hook | 0 <= i < |WithoutAt(fs, v)| && |WithoutAt(fs, v)[i].targets| != 1
      ensures InternalName(instance, WithoutAt(fs, v)[i].from, hook) in sets
      ensures sets[InternalName(instance, WithoutAt(fs, v)[i].from, hook)] == SetElements(WithoutAt(fs, v)[i], hook)
    {
      assert WithoutAt(fs, v)[i] == fs[if i < v then i else i + 1];
    }
  }

  lemma StartWorks(k: Kernel, instance: string, tables: Tables, comment: Bytes)
    requires Restartable(k, instance, tables) && forall hook :: Fresh(k, instance, tables, hook)
    ensures Working(Started(k, instance, tables, comment), instance, tables, [])
  {
    hide Restartable, Started, Serves, Fresh;
    StartedServesExactly(k, instance, tables, comment);
    assert Forwarded([]) == [] && Draws([]) == [];
  }

  lemma BasedIsFresh(k: Kernel, instance: string, tables: Tables, fs: seq<Forwarding>, ids: seq<Ids>)
    requires Serves(k, instance, tables, fs, ids)
    ensures forall hook :: Fresh(k, instance, tables, hook)
  {
    hide Carries, Based, NameOf;
  }

  /** Whatever an earlier run left behind that the start can clear, and whatever is added, removed and
  restarted in whatever order: the instance works at every point. */
  lemma {:induction false} HistoryWorks(k: Kernel, instance: string, tables: Tables, comment: Bytes, rs: seq<Request>)
    requires Restartable(k, instance, tables) && (forall hook :: Fresh(k, instance, tables, hook)) && Orderly(rs)
    ensures Working(After(k, instance, tables, comment, rs), instance, tables, Wanted(rs))
  {
    hide Restartable, Fresh, Serves, Added, Removed, Started, Bound, Unused, NoClash, NonePartly, Victim, WithoutAt, Valid;
    if rs == [] {
      StartWorks(k, instance, tables, comment);
    } else {
      var front, r := rs[..|rs| - 1], rs[|rs| - 1];
      HistoryWorks(k, instance, tables, comment, front);
      var before, es := After(k, instance, tables, comment, front), Wanted(front);
      match r {
        case Add(f, draw, text) => AddKeepsWorking(before, instance, tables, es, f, draw, text);
        case Remove(g, draw) => RemoveKeepsWorking(before, instance, tables, es, g, draw);
        case Restart =>
          BasedIsFresh(before, instance, tables, Forwarded(es), Draws(es));
          StartWorks(before, instance, tables, comment);
      }
    }
  }
}
