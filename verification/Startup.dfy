/** Starting an instance: what an earlier run left behind is cleaned up at the four hooks, then the chain
structure is presented there.

Cleaning up does nothing at a hook without a base chain.  A regular chain left over there survives the
start with its rules, and the new jump leads into it.
*/
module Startup {
  import opened Encoding
  import opened Conditions
  import opened RuleCache
  import opened Kernels
  import opened Forwardings
  import opened Meaning
  import opened Options
  import F = Foundation
  import T = Teardown
  import E = Expressions
  import V = TableVote

  /** The table that each hook's chains are in. */
  datatype Tables = Tables(pre: string, post: string, forward: string, output: string) {
    function For(hook: Hook): string {
      match hook
      case Prerouting => pre
      case Postrouting => post
      case Forward => forward
      case Output => output
    }
  }

  const HOOKS: seq<Hook> := [Prerouting, Postrouting, Forward, Output]

  /** The hook is among the first `n`. */
  predicate Done(hook: Hook, n: nat) {
    match hook
    case Prerouting => n > 0
    case Postrouting => n > 1
    case Forward => n > 2
    case Output => n > 3
  }

  function HookNumber(hook: Hook): nat {
    match hook
    case Prerouting => 0
    case Forward => 2
    case Output => 3
    case Postrouting => 4
  }

  function ChainOf(instance: string, tables: Tables, hook: Hook): ChainId {
    Id(tables.For(hook), NameOf(instance, hook))
  }

  function SiteOf(instance: string, tables: Tables, hook: Hook): F.Site {
    F.Site(HookNumber(hook), tables.For(hook), BaseName(hook), NameOf(instance, hook), hook.Forward?)
  }

  function ExprsOf(rules: seq<Rule>): (r: seq<Exprs>)
    ensures |r| == |rules|
  {
    seq(|rules|, i requires 0 <= i < |rules| => rules[i].exprs)
  }

  // ----- Serving forwardings

  ghost predicate ChainHolds(k: Kernel, instance: string, tables: Tables, fs: seq<Forwarding>, ids: seq<Ids>, hook: Hook)
    requires |fs| == |ids|
  {
    && ChainOf(instance, tables, hook) in k.rules
    && ExprsOf(k.rules[ChainOf(instance, tables, hook)]) == Regular(instance, fs, ids, hook)
  }

  // ----- The table of a hook

  datatype Kind = Nat | Filter

  /** The type of the base chains at a hook. */
  function KindAt(hook: nat): Kind {
    if hook == HookNumber(Prerouting) || hook == HookNumber(Postrouting) || hook == HookNumber(Output) then Nat else Filter
  }

  /** The table a hook's chains go to when no base chain has a say. */
  function Fallback(hook: Hook): string {
    if hook.Forward? then "filter" else "nat"
  }

  const STANDARD := Tables("nat", "nat", "filter", "nat")

  function Ballots(hooked: map<ChainId, nat>, ids: seq<ChainId>): seq<V.Chain<Kind>> {
    if ids == [] then []
    else (if ids[0] in hooked && ids[0].table.family == FAMILY then [V.Chain(ids[0].table.name, KindAt(hooked[ids[0]]))] else [])
         + Ballots(hooked, ids[1..])
  }

  /** The chains that take part in the vote, in listing order: regular chains have no type. */
  function Voters(k: Kernel): seq<V.Chain<Kind>> {
    Ballots(k.hooked, k.order)
  }

  function VotedTable(k: Kernel, hook: Hook): string {
    V.Poll(Voters(k), KindAt(HookNumber(hook)), Fallback(hook)).name
  }

  /** The table a mutation works in: that of the hook's base chains, or the one voted for. */
  function GroupTable(k: Kernel, hook: Hook): string {
    var bases := F.Bases(k, HookNumber(hook));
    if bases == [] then VotedTable(k, hook) else bases[0].table.name
  }

  method FindTable(k: Kernel, hook: Hook) returns (table: string)
    ensures table == GroupTable(k, hook)
  {
    var bases := F.Bases(k, HookNumber(hook));
    if bases == [] {
      table := V.MostFrequencyTable(Voters(k), KindAt(HookNumber(hook)), Fallback(hook));
    } else {
      table := bases[0].table.name;
    }
  }

  /** Without a base chain the vote decides for the hook's table. */
  predicate Voted(k: Kernel, tables: Tables, hook: Hook) {
    F.Bases(k, HookNumber(hook)) == [] ==> VotedTable(k, hook) == tables.For(hook)
  }

  /** What base chains the hook has are in its table; if it has none, that is the table voted for. */
  ghost predicate InTable(k: Kernel, tables: Tables, hook: Hook) {
    && (forall id :: id in F.Bases(k, HookNumber(hook)) ==> id.table == TableId(FAMILY, tables.For(hook)))
    && Voted(k, tables, hook)
  }

  /** The table found is the one the hook's chains are in or belong in. */
  lemma FoundTable(k: Kernel, tables: Tables, hook: Hook)
    requires InTable(k, tables, hook)
    ensures GroupTable(k, hook) == tables.For(hook)
  {
    var bases := F.Bases(k, HookNumber(hook));
    assert bases != [] ==> bases[0] in bases;
  }

  /** Votes cast for a table, the fallback's own included. */
  function VotesFor(k: Kernel, hook: Hook, table: string): nat {
    V.Count(V.Votes(Voters(k), KindAt(HookNumber(hook)), Fallback(hook)), table)
  }

  /** More than half of the votes decide, in whatever order the chains are listed. */
  lemma MajorityIsFound(k: Kernel, hook: Hook, table: string)
    requires F.Bases(k, HookNumber(hook)) == []
    requires 2 * VotesFor(k, hook, table) > |V.Votes(Voters(k), KindAt(HookNumber(hook)), Fallback(hook))|
    ensures GroupTable(k, hook) == table
  {
    V.MajorityWins(Voters(k), KindAt(HookNumber(hook)), Fallback(hook), table);
  }

  /** Base chains of a type that are all in the usual table keep the vote there. */
  lemma UsualTableIsFound(k: Kernel, hook: Hook)
    requires forall id :: id in k.hooked && KindAt(k.hooked[id]) == KindAt(HookNumber(hook)) ==> id.table.name == Fallback(hook)
    ensures GroupTable(k, hook) == Fallback(hook)
  {
    var bases := F.Bases(k, HookNumber(hook));
    if bases == [] {
      BallotsAreHooked(k.hooked, k.order);
      V.MajorityWins(Voters(k), KindAt(HookNumber(hook)), Fallback(hook), Fallback(hook));
    } else {
      assert bases[0] in bases;
    }
  }

  /** The same by the kernel's numbers: while all base chains at 0, 3 and 4 are in the table nat, the chains for
  these hooks go there, and while all others are in the table filter, those of the forward hook go there. */
  lemma UsualTablesAreFound(k: Kernel)
    ensures (forall id :: id in k.hooked && (k.hooked[id] == 0 || k.hooked[id] == 3 || k.hooked[id] == 4) ==> id.table.name == "nat") ==>
              GroupTable(k, Prerouting) == "nat" && GroupTable(k, Postrouting) == "nat" && GroupTable(k, Output) == "nat"
    ensures (forall id :: id in k.hooked && k.hooked[id] != 0 && k.hooked[id] != 3 && k.hooked[id] != 4 ==> id.table.name == "filter") ==>
              GroupTable(k, Forward) == "filter"
  {
    hide GroupTable;
    if forall id :: id in k.hooked && (k.hooked[id] == 0 || k.hooked[id] == 3 || k.hooked[id] == 4) ==> id.table.name == "nat" {
      UsualTableIsFound(k, Prerouting);
      UsualTableIsFound(k, Postrouting);
      UsualTableIsFound(k, Output);
    }
    if forall id :: id in k.hooked && k.hooked[id] != 0 && k.hooked[id] != 3 && k.hooked[id] != 4 ==> id.table.name == "filter" {
      UsualTableIsFound(k, Forward);
    }
  }

  lemma {:induction false} BallotsAreHooked(hooked: map<ChainId, nat>, ids: seq<ChainId>)
    ensures forall c :: c in Ballots(hooked, ids) ==> exists id :: id in hooked && c == V.Chain(id.table.name, KindAt(hooked[id]))
  {
    if ids != [] {
      BallotsAreHooked(hooked, ids[1..]);
    }
  }

  // ----- What starts and stops a vote

  lemma {:induction false} BallotsAppend(hooked: map<ChainId, nat>, ids: seq<ChainId>, id: ChainId)
    ensures Ballots(hooked, ids + [id]) == Ballots(hooked, ids) + Ballots(hooked, [id])
  {
    if ids == [] {
      assert [] + [id] == [id];
    } else {
      assert (ids + [id])[1..] == ids[1..] + [id];
      BallotsAppend(hooked, ids[1..], id);
    }
  }

  lemma {:induction false} BallotsBefore(hooked: map<ChainId, nat>, ids: seq<ChainId>, id: ChainId, hook: nat)
    requires id !in ids
    ensures Ballots(hooked[id := hook], ids) == Ballots(hooked, ids)
  {
    if ids != [] {
      BallotsBefore(hooked, ids[1..], id, hook);
    }
  }

  lemma {:induction false} BallotsDrop(hooked: map<ChainId, nat>, ids: seq<ChainId>, id: ChainId)
    requires id !in hooked
    ensures Ballots(hooked, Drop(ids, id)) == Ballots(hooked, ids)
  {
    if ids != [] {
      BallotsDrop(hooked, ids[1..], id);
      if ids[0] == id {
        assert Drop(ids, id) == Drop(ids[1..], id);
      } else {
        assert Drop(ids, id)[0] == ids[0] && Drop(ids, id)[1..] == Drop(ids[1..], id);
      }
    }
  }

  /** Cleaning up deletes no base chain and so casts no vote. */
  lemma CleanedVotes(k: Kernel, instance: string, p: F.Site)
    requires F.Ready(k, instance, p)
    ensures Voters(T.CleanedUp(k, p)) == Voters(k)
  {
    hide F.Sound, F.AtMostOne, F.BaseReady, F.Bases, T.WithoutJumps;
    if F.Bases(k, p.hook) != [] {
      var now := T.WithoutJumps(k, F.Bases(k, p.hook), p.Jump());
      T.WithoutJumpsFrame(k, F.Bases(k, p.hook), p.Jump());
      BallotsDrop(k.hooked, k.order, p.Target());
      assert now.hooked - {p.Target()} == k.hooked;
    }
  }

  /** Presenting casts the vote of the base chain it adds, if it adds one. */
  lemma PresentedVotes(k: Kernel, instance: string, p: F.Site, comment: Bytes)
    requires F.Ready(k, instance, p)
    ensures Voters(F.Presented(k, p, comment)) ==
              Voters(k) + if F.Bases(k, p.hook) == [] then [V.Chain(p.table, KindAt(p.hook))] else []
  {
    hide F.Ready, F.Bases, F.WithRule, F.WithJumps, F.WithRegular, Apply, Built, F.JumpTo, KindAt;
    var k1, base := F.WithRegular(k, p, comment), Id(p.table, p.base);
    RegularVotes(k, instance, p, comment);
    if F.Bases(k, p.hook) == [] {
      var k2 := Apply(k1, AddChain(p.table, p.base, Some(p.hook)));
      F.WithRuleFrame(k2, base, p.Jump(), false, comment);
      BaseVotes(k1, p);
    } else {
      F.WithJumpsFrame(k1, F.Bases(k, p.hook), p.Jump(), comment);
    }
  }

  lemma BaseVotes(k: Kernel, p: F.Site)
    requires Id(p.table, p.base) !in k.rules && Id(p.table, p.base) !in k.order
    ensures Voters(Apply(k, AddChain(p.table, p.base, Some(p.hook)))) == Voters(k) + [V.Chain(p.table, KindAt(p.hook))]
  {
    var base := Id(p.table, p.base);
    BallotsAppend(k.hooked[base := p.hook], k.order, base);
    BallotsBefore(k.hooked, k.order, base, p.hook);
  }

  /** A regular chain casts no vote. */
  lemma RegularVotes(k: Kernel, instance: string, p: F.Site, comment: Bytes)
    requires F.Ready(k, instance, p)
    ensures var k1, base := F.WithRegular(k, p, comment), Id(p.table, p.base);
            Voters(k1) == Voters(k) && (F.Bases(k, p.hook) == [] ==> base !in k1.rules && base !in k1.order)
  {
    hide F.Ready, F.Bases, F.WithRegular, KindAt;
    RegularFrame(k, p, comment);
    HookedInRules(k, instance, p);
    OrderedInRules(k, instance, p);
    if p.Target() !in k.rules {
      BallotsAppend(k.hooked, k.order, p.Target());
      assert Ballots(k.hooked, [p.Target()]) == [] by {
        assert p.Target() !in k.hooked && [p.Target()][1..] == [];
      }
    }
  }

  lemma RegularFrame(k: Kernel, p: F.Site, comment: Bytes)
    ensures var k1 := F.WithRegular(k, p, comment);
            && k1.hooked == k.hooked && k1.rules.Keys == k.rules.Keys + {p.Target()}
            && k1.order == if p.Target() in k.rules then k.order else k.order + [p.Target()]
  {
    hide F.WithRule, Built, EstablishedRule;
    F.WithRuleFrame(Apply(k, AddChain(p.table, p.chain, None)), p.Target(), EstablishedRule, true, comment);
  }

  lemma OrderedInRules(k: Kernel, instance: string, p: F.Site)
    requires F.Ready(k, instance, p)
    ensures forall id :: id in k.order <==> id in k.rules
    ensures F.Bases(k, p.hook) == [] ==> Id(p.table, p.base) !in k.rules && Id(p.table, p.base) != p.Target()
  {
    hide F.AtMostOne, F.BaseReady, ChainWellFormed, F.HandlesApart, F.JumpsResolve;
  }

  lemma StillVoted(k: Kernel, k': Kernel, tables: Tables)
    requires (forall hook :: Voted(k, tables, hook)) && Voters(k') == Voters(k)
    requires forall hook :: F.Bases(k', HookNumber(hook)) == [] <==> F.Bases(k, HookNumber(hook)) == []
    ensures forall hook :: Voted(k', tables, hook)
  {
    hide F.Bases, Voters;
    forall hook: Hook ensures Voted(k', tables, hook) {
      assert Voted(k, tables, hook);
    }
  }

  /** A base chain added in the voted table leaves every vote as it was. */
  lemma VotedAfterPresenting(k: Kernel, k': Kernel, tables: Tables, a: Hook)
    requires (forall hook :: Voted(k, tables, hook)) && F.Bases(k', HookNumber(a)) != []
    requires Voters(k') == Voters(k) + if F.Bases(k, HookNumber(a)) == [] then [V.Chain(tables.For(a), KindAt(HookNumber(a)))] else []
    requires forall b :: b != a ==> (F.Bases(k', HookNumber(b)) == [] <==> F.Bases(k, HookNumber(b)) == [])
    ensures forall hook :: Voted(k', tables, hook)
  {
    hide F.Bases, Voters, V.Poll, KindAt, HookNumber, Fallback;
    forall b: Hook | F.Bases(k', HookNumber(b)) == [] ensures Voted(k', tables, b) {
      assert Voted(k, tables, a) && Voted(k, tables, b);
      assert b != a && F.Bases(k, HookNumber(b)) == [];
      KindsFallBack(a, b);
      if F.Bases(k, HookNumber(a)) != [] {
        assert Voters(k') == Voters(k);
      } else {
        V.WinnerStays(Voters(k), V.Chain(tables.For(a), KindAt(HookNumber(a))), KindAt(HookNumber(b)), Fallback(b));
      }
    }
  }

  lemma KindsFallBack(a: Hook, b: Hook)
    ensures KindAt(HookNumber(a)) == KindAt(HookNumber(b)) <==> Fallback(a) == Fallback(b)
  {
  }

  // ----- What the chains hold

  /** The four regular chains hold exactly the rules of the forwardings `fs`. */
  ghost predicate Carries(k: Kernel, instance: string, tables: Tables, fs: seq<Forwarding>, ids: seq<Ids>) {
    && |fs| == |ids| && AllValid(fs) && Distinct(fs) && WellFormed(k)
    && forall hook :: ChainHolds(k, instance, tables, fs, ids, hook) && InTable(k, tables, hook)
  }

  /** The hook has a base chain. */
  predicate Based(k: Kernel, hook: Hook) {
    F.Bases(k, HookNumber(hook)) != []
  }

  /** The chains hold the rules, and every hook has a base chain to lead into them. */
  ghost predicate Serves(k: Kernel, instance: string, tables: Tables, fs: seq<Forwarding>, ids: seq<Ids>) {
    Carries(k, instance, tables, fs, ids) && forall hook :: Based(k, hook)
  }

  // ----- The start

  /** A ruleset an instance can be started in, left over from earlier runs or not. */
  ghost predicate Restartable(k: Kernel, instance: string, tables: Tables) {
    && (forall hook :: T.Removable(k, instance, SiteOf(instance, tables, hook)))
    && forall hook :: Voted(k, tables, hook)
  }

  /** The ruleset after the structure is cleaned up at the first `n` hooks. */
  function Cleared(k: Kernel, instance: string, tables: Tables, n: nat): Kernel
    requires n <= 4
  {
    if n == 0 then k else T.CleanedUp(Cleared(k, instance, tables, n - 1), SiteOf(instance, tables, HOOKS[n - 1]))
  }

  /** The ruleset after the structure is presented at the first `n` hooks. */
  function Laid(k: Kernel, instance: string, tables: Tables, comment: Bytes, n: nat): Kernel
    requires n <= 4
  {
    if n == 0 then k else F.Presented(Laid(k, instance, tables, comment, n - 1), SiteOf(instance, tables, HOOKS[n - 1]), comment)
  }

  /** The ruleset after the start. */
  function Started(k: Kernel, instance: string, tables: Tables, comment: Bytes): Kernel {
    Laid(Cleared(k, instance, tables, 4), instance, tables, comment, 4)
  }

  /** Nothing of an earlier run is in the way at this hook: there is a base chain, so that cleaning up
  happens, or the regular chain is missing, empty or already as it should be. */
  predicate Fresh(k: Kernel, instance: string, tables: Tables, hook: Hook) {
    || Based(k, hook)
    || F.RulesIn(k, ChainOf(instance, tables, hook)) == []
    || ExprsOf(F.RulesIn(k, ChainOf(instance, tables, hook))) == Regular(instance, [], [], hook)
  }

  // ----- Sites

  lemma SitesApart(instance: string, tables: Tables, a: Hook, b: Hook)
    ensures HookNumber(a) == HookNumber(b) <==> a == b
    ensures a != b ==> NameOf(instance, a) != NameOf(instance, b) && BaseName(a) != BaseName(b)
    ensures NameOf(instance, a) != BaseName(b)
  {
    NamesDiffer(instance, a, b);
    assert forall i :: 0 <= i < |BaseName(b)| ==> BaseName(b)[i] != '-';
    assert NameOf(instance, a)[|instance|] == '-';
  }

  predicate SitesDiffer(p: F.Site, q: F.Site) {
    p.hook != q.hook && p.chain != q.chain && p.base != q.base && p.chain != q.base && p.base != q.chain
  }

  lemma SitesOfHooks(instance: string, tables: Tables, a: Hook, b: Hook)
    ensures a != b ==> SitesDiffer(SiteOf(instance, tables, a), SiteOf(instance, tables, b))
    ensures SiteOf(instance, tables, a).Target() == ChainOf(instance, tables, a)
  {
    hide NameOf;
    SitesApart(instance, tables, a, b);
    SitesApart(instance, tables, b, a);
  }

  // ----- Cleaning up one hook

  lemma {:induction false} WithoutJumpsSound(k: Kernel, ids: seq<ChainId>, cond: Condition)
    requires F.Sound(k)
    ensures F.Sound(T.WithoutJumps(k, ids, cond))
    decreases |ids|
  {
    hide F.Sound, Without;
    if ids != [] {
      var n := |ids| - 1;
      WithoutJumpsSound(k, ids[..n], cond);
      F.WithoutKeepsSound(T.WithoutJumps(k, ids[..n], cond), ids[n], cond);
    }
  }

  lemma CleanedSound(k: Kernel, instance: string, p: F.Site)
    requires T.Removable(k, instance, p)
    ensures F.Sound(T.CleanedUp(k, p))
  {
    hide F.Sound, T.Removable, T.WithoutJumps, Without, F.Admits, F.Bases;
    SoundlyRemovable(k, instance, p);
    var now := T.WithoutJumps(k, F.Bases(k, p.hook), p.Jump());
    WithoutJumpsSound(k, F.Bases(k, p.hook), p.Jump());
    F.WithoutKeepsSound(now, p.Target(), EstablishedRule);
    T.DropForgets(now, p.table, p.chain, EstablishedRule);
    if p.Target() in k.rules {
      T.NobodyJumps(k, instance, p);
      F.DelChainKeepsSound(T.Bare(k, p), p.table, p.chain);
    } else {
      T.RegularKnown(k, instance, p);
      T.DropNothing(now, p.table, p.chain);
    }
  }

  lemma SoundlyRemovable(k: Kernel, instance: string, p: F.Site)
    requires T.Removable(k, instance, p)
    ensures F.Sound(k) && F.Ready(k, instance, p)
    ensures WellFormed(k)
  {
    hide F.HandlesApart, F.JumpsResolve, WellFormed, F.AtMostOne, F.BaseReady;
  }

  /** Chain by chain: untouched, or a base chain of the hook without its jumps; the regular chain is gone. */
  ghost predicate Trimmed(k: Kernel, p: F.Site, k': Kernel) {
    && k'.hooked == k.hooked && k'.rules.Keys == k.rules.Keys - {p.Target()}
    && (forall id :: id in k'.rules && id in F.Bases(k, p.hook) ==> k'.rules[id] == Keep(k.rules[id], ByCondition(p.Jump())))
    && forall id :: id in k'.rules && id !in F.Bases(k, p.hook) ==> k'.rules[id] == k.rules[id]
  }

  lemma CleanedTrims(k: Kernel, instance: string, p: F.Site)
    requires T.Removable(k, instance, p) && F.Bases(k, p.hook) != []
    ensures Trimmed(k, p, T.CleanedUp(k, p))
  {
    hide F.Sound, T.Removable, T.WithoutJumps, F.Bases, Keep;
    SoundlyRemovable(k, instance, p);
    T.CleanedChains(k, p);
    T.RegularKnown(k, instance, p);
    var now := T.WithoutJumps(k, F.Bases(k, p.hook), p.Jump());
    assert now.hooked - {p.Target()} == k.hooked;
  }

  /** The base chains of a hook, read off the map of base chains. */
  lemma BasesExactly(k: Kernel, instance: string, p: F.Site, hook: nat)
    requires F.Ready(k, instance, p)
    ensures forall id :: id in F.Bases(k, hook) <==> id in k.hooked && k.hooked[id] == hook
    ensures forall id :: id in k.hooked ==> id in k.rules
  {
    hide F.HandlesApart, F.JumpsResolve, F.AtMostOne, F.BaseReady, ChainWellFormed;
  }

  lemma SameBases(k: Kernel, k': Kernel, hook: nat)
    requires WellFormed(k) && WellFormed(k') && k'.hooked == k.hooked
    requires forall id :: id in k.hooked ==> id in k.rules && id in k'.rules
    ensures forall id :: id in F.Bases(k', hook) <==> id in F.Bases(k, hook)
    ensures F.Bases(k', hook) == [] <==> F.Bases(k, hook) == []
  {
    hide ChainWellFormed;
    if F.Bases(k, hook) != [] {
      assert F.Bases(k, hook)[0] in F.Bases(k, hook);
    }
    if F.Bases(k', hook) != [] {
      assert F.Bases(k', hook)[0] in F.Bases(k', hook);
    }
  }

  lemma FewerOwnJumps(q: F.Site, base: bool, rules: seq<Rule>, fewer: seq<Rule>)
    requires T.OwnJumps(q, base, rules) && forall r :: r in fewer ==> r in rules
    ensures T.OwnJumps(q, base, fewer)
  {
    hide Recognised, T.JumpsTo;
  }

  lemma KeptBaseReady(q: F.Site, id: ChainId, rules: seq<Rule>)
    requires F.BaseReady(q, id, rules)
    ensures F.BaseReady(q, id, Keep(rules, ByCondition(q.Jump())))
  {
    hide Recognised;
    var left := Keep(rules, ByCondition(q.Jump()));
    T.NoRecognisedKept(rules, ByCondition(q.Jump()));
    forall i | 0 <= i < |left| ensures !Recognised(q.Jump(), left[i].exprs) {
      assert left[i] in left;
    }
  }

  lemma TrimmedOwnJumps(k: Kernel, p: F.Site, q: F.Site, k': Kernel)
    requires Trimmed(k, p, k') && T.OnlyOwnJumps(k, q)
    ensures T.OnlyOwnJumps(k', q)
  {
    hide Recognised, T.OwnJumps, Keep, F.Bases;
    forall id | id in k'.rules && id != q.Target() && id.table == q.Target().table
      ensures T.OwnJumps(q, id in k'.hooked && k'.hooked[id] == q.hook, k'.rules[id])
    {
      T.NoRecognisedKept(k.rules[id], ByCondition(p.Jump()));
      FewerOwnJumps(q, id in k.hooked && k.hooked[id] == q.hook, k.rules[id], k'.rules[id]);
    }
  }

  lemma SoundIsWellFormed(k: Kernel)
    requires F.Sound(k)
    ensures WellFormed(k)
  {
  }

  /** Cleaning up one hook leaves every hook ready to be cleaned up or presented. */
  lemma TrimmedReady(k: Kernel, instance: string, p: F.Site, q: F.Site, k': Kernel)
    requires F.Ready(k, instance, p) && F.Ready(k, instance, q) && (p == q || SitesDiffer(p, q))
    requires Trimmed(k, p, k') && F.Sound(k')
    ensures F.Ready(k', instance, q)
    ensures forall id :: id in F.Bases(k', q.hook) <==> id in F.Bases(k, q.hook)
    ensures F.Bases(k', q.hook) == [] <==> F.Bases(k, q.hook) == []
  {
    hide F.Sound, F.AtMostOne, F.BaseReady, Keep, Recognised, F.Bases, EstablishedRule, WellFormed;
    T.ReadyIsSound(k, instance, p);
    SoundIsWellFormed(k);
    SoundIsWellFormed(k');
    BasesExactly(k, instance, p, p.hook);
    BasesExactly(k, instance, q, q.hook);
    SameBases(k, k', q.hook);
    forall id | id in k.hooked && k.hooked[id] == q.hook ensures F.BaseReady(q, id, k'.rules[id]) {
      if id in F.Bases(k, p.hook) {
        KeptBaseReady(q, id, k.rules[id]);
      }
    }
    assert q.Target() in k'.rules ==> q.Target() !in F.Bases(k, p.hook) && q.Target() in k.rules;
  }

  /** A chain that is neither the regular chain nor a base chain of the hook is as it was. */
  lemma TrimmedElsewhere(k: Kernel, instance: string, p: F.Site, q: F.Site, k': Kernel)
    requires F.Ready(k, instance, q) && p != q && SitesDiffer(p, q) && Trimmed(k, p, k')
    ensures F.RulesIn(k', q.Target()) == F.RulesIn(k, q.Target())
  {
    hide F.Sound, F.AtMostOne, F.BaseReady, Keep;
  }

  lemma CleanedStep(k: Kernel, instance: string, tables: Tables, a: Hook)
    requires Restartable(k, instance, tables)
    ensures var k' := T.CleanedUp(k, SiteOf(instance, tables, a));
            && Restartable(k', instance, tables)
            && (forall b :: F.Bases(k', HookNumber(b)) == [] <==> F.Bases(k, HookNumber(b)) == [])
            && (forall b :: b != a ==> F.RulesIn(k', ChainOf(instance, tables, b)) == F.RulesIn(k, ChainOf(instance, tables, b)))
            && F.RulesIn(k', ChainOf(instance, tables, a)) ==
                 if F.Bases(k, HookNumber(a)) == [] then F.RulesIn(k, ChainOf(instance, tables, a)) else []
  {
    hide F.Ready, T.OnlyOwnJumps, T.CleanedUp, F.Sound, NameOf, F.Bases, SitesDiffer, Voted, Voters;
    var p := SiteOf(instance, tables, a);
    var k' := T.CleanedUp(k, p);
    if F.Bases(k, p.hook) == [] {
      NothingCleaned(k, p);
    } else {
      CleanedSound(k, instance, p);
      CleanedTrims(k, instance, p);
      RemovableReady(k, instance, p);
      CleanedVotes(k, instance, p);
      forall b: Hook
        ensures T.Removable(k', instance, SiteOf(instance, tables, b))
        ensures F.Bases(k', HookNumber(b)) == [] <==> F.Bases(k, HookNumber(b)) == []
        ensures b != a ==> F.RulesIn(k', ChainOf(instance, tables, b)) == F.RulesIn(k, ChainOf(instance, tables, b))
      {
        var q := SiteOf(instance, tables, b);
        SitesOfHooks(instance, tables, a, b);
        TrimmedReady(k, instance, p, q, k');
        TrimmedOwnJumps(k, p, q, k');
        if b != a {
          DifferentSites(p, q);
          TrimmedElsewhere(k, instance, p, q, k');
        }
      }
      StillVoted(k, k', tables);
    }
  }

  lemma RemovableReady(k: Kernel, instance: string, p: F.Site)
    requires T.Removable(k, instance, p)
    ensures F.Ready(k, instance, p)
  {
  }

  lemma DifferentSites(p: F.Site, q: F.Site)
    requires SitesDiffer(p, q)
    ensures p != q
  {
  }

  lemma NothingCleaned(k: Kernel, p: F.Site)
    requires F.Bases(k, p.hook) == []
    ensures T.CleanedUp(k, p) == k
  {
  }

  /** After the structure is cleaned up at the first `n` hooks: hooks with a base chain have lost their
  regular chain, the others are as they were. */
  ghost predicate ClearedUpTo(k: Kernel, k': Kernel, instance: string, tables: Tables, n: nat) {
    && Restartable(k', instance, tables)
    && (forall hook :: F.Bases(k', HookNumber(hook)) == [] <==> F.Bases(k, HookNumber(hook)) == [])
    && forall hook :: F.RulesIn(k', ChainOf(instance, tables, hook)) ==
                        if Done(hook, n) && F.Bases(k, HookNumber(hook)) != [] then [] else F.RulesIn(k, ChainOf(instance, tables, hook))
  }

  lemma {:induction false} ClearedChains(k: Kernel, instance: string, tables: Tables, n: nat)
    requires n <= 4 && Restartable(k, instance, tables)
    ensures ClearedUpTo(k, Cleared(k, instance, tables, n), instance, tables, n)
  {
    hide Restartable, T.CleanedUp, F.Bases, F.RulesIn, NameOf;
    if n == 0 {
      assert forall hook :: !Done(hook, 0);
    } else {
      ClearedChains(k, instance, tables, n - 1);
      CleanedStep(Cleared(k, instance, tables, n - 1), instance, tables, HOOKS[n - 1]);
      assert forall hook :: Done(hook, n) <==> Done(hook, n - 1) || hook == HOOKS[n - 1];
    }
  }

  // ----- Presenting at one hook

  /** Chains after presenting: those before, the regular chain and the base chain that may be created. */
  lemma KeysAfter(k: Kernel, instance: string, p: F.Site, k': Kernel)
    requires F.Ready(k, instance, p) && T.InPlace(k, p, k')
    ensures forall id :: id in k'.rules ==> id in k.rules || id == p.Target() || id == Id(p.table, p.base)
    ensures forall id :: id in k.rules ==> id in k'.rules
    ensures forall id :: id in k'.hooked ==> id in k.hooked || (id == Id(p.table, p.base) && k'.hooked[id] == p.hook)
    ensures forall id :: id in k.hooked ==> id in k'.hooked && k'.hooked[id] == k.hooked[id]
    ensures forall id :: id in k'.hooked ==> id in k'.rules
  {
    hide F.Sound, F.AtMostOne, F.RuleThere, F.BaseReady, T.OwnRuleThere, F.HookedOf, F.Bases, F.Ready;
    BasesInRules(k, instance, p);
    HookedInRules(k, instance, p);
  }

  lemma BasesInRules(k: Kernel, instance: string, p: F.Site)
    requires F.Ready(k, instance, p)
    ensures forall id :: id in F.Bases(k, p.hook) ==> id in k.rules && id in k.hooked && k.hooked[id] == p.hook
    ensures F.Bases(k, p.hook) == [] ==> Id(p.table, p.base) !in k.rules && Id(p.table, p.base) !in k.hooked
  {
    hide F.Sound, F.AtMostOne, F.BaseReady;
  }

  /** A chain that is neither the regular chain nor a base chain of the hook is untouched. */
  lemma Untouched(k: Kernel, instance: string, p: F.Site, k': Kernel, id: ChainId)
    requires F.Ready(k, instance, p) && T.InPlace(k, p, k') && id != p.Target()
    requires (id in k.rules || id != Id(p.table, p.base)) && (id !in k.hooked || k.hooked[id] != p.hook)
    ensures F.RulesIn(k', id) == F.RulesIn(k, id) && (id in k'.rules <==> id in k.rules)
  {
    hide F.Sound, F.AtMostOne, F.RuleThere, F.BaseReady, T.OwnRuleThere;
    BasesInRules(k, instance, p);
    assert id !in T.BasesAfter(k, p);
  }

  lemma BasesElsewhere(k: Kernel, instance: string, p: F.Site, q: F.Site, k': Kernel)
    requires F.Ready(k, instance, p) && F.Ready(k, instance, q) && T.InPlace(k, p, k') && F.Sound(k') && SitesDiffer(p, q)
    ensures forall id :: id in F.Bases(k', q.hook) <==> id in F.Bases(k, q.hook)
    ensures F.Bases(k', q.hook) == [] <==> F.Bases(k, q.hook) == []
  {
    hide F.AtMostOne, F.RuleThere, F.BaseReady, T.OwnRuleThere, T.InPlace, F.Bases, F.Ready, F.HandlesApart, F.JumpsResolve, ChainWellFormed;
    KeysAfter(k, instance, p, k');
    T.ReadyIsSound(k, instance, p);
    HookedInRules(k, instance, q);
    HookedOrdered(k, q.hook);
    HookedOrdered(k', q.hook);
    if F.Bases(k, q.hook) != [] {
      assert F.Bases(k, q.hook)[0] in F.Bases(k, q.hook);
    }
    if F.Bases(k', q.hook) != [] {
      assert F.Bases(k', q.hook)[0] in F.Bases(k', q.hook);
    }
  }

  lemma HookedInRules(k: Kernel, instance: string, q: F.Site)
    requires F.Ready(k, instance, q)
    ensures forall id :: id in k.hooked ==> id in k.rules && id.chain != q.chain
  {
    hide F.Sound, F.AtMostOne, F.BaseReady;
  }

  lemma HookedOrdered(k: Kernel, hook: nat)
    requires F.Sound(k)
    ensures forall id :: id in F.Bases(k, hook) <==> id in k.rules && id in k.hooked && k.hooked[id] == hook
  {
    hide F.HandlesApart, F.JumpsResolve, ChainWellFormed;
  }

  /** Presenting the structure at one hook leaves another hook ready. */
  lemma PresentedReadyElsewhere(k: Kernel, instance: string, p: F.Site, q: F.Site, k': Kernel)
    requires F.Ready(k, instance, p) && F.Ready(k, instance, q) && T.InPlace(k, p, k') && F.Sound(k') && SitesDiffer(p, q)
    ensures F.Ready(k', instance, q) && F.RulesIn(k', q.Target()) == F.RulesIn(k, q.Target())
  {
    hide F.Sound, F.AtMostOne, F.BaseReady, T.InPlace, F.Bases, F.RulesIn, EstablishedRule;
    KeysAfter(k, instance, p, k');
    BasesElsewhere(k, instance, p, q, k');
    HookedInRules(k, instance, q);
    Untouched(k, instance, p, k', q.Target());
    TargetKnown(k, instance, q, k');
    BasesInRules(k, instance, q);
    forall id | id in k'.hooked && k'.hooked[id] == q.hook ensures id in k'.rules && F.BaseReady(q, id, k'.rules[id]) {
      Untouched(k, instance, p, k', id);
      KnownRules(k, k', id);
    }
  }

  lemma KnownRules(k: Kernel, k': Kernel, id: ChainId)
    requires F.RulesIn(k', id) == F.RulesIn(k, id) && id in k.rules && id in k'.rules
    ensures k'.rules[id] == k.rules[id]
  {
  }

  lemma TargetKnown(k: Kernel, instance: string, q: F.Site, k': Kernel)
    requires F.Ready(k, instance, q) && F.RulesIn(k', q.Target()) == F.RulesIn(k, q.Target()) && (q.Target() in k'.rules <==> q.Target() in k.rules)
    ensures q.Target() in k'.rules ==> F.AtMostOne(EstablishedRule, k'.rules[q.Target()])
  {
    hide F.Sound, F.BaseReady, Recognised;
  }

  lemma OwnJumpsThere(q: F.Site, base: bool, rules: seq<Rule>, rules': seq<Rule>, cond: Condition, first: bool)
    requires F.RuleThere(rules, rules', cond, first) && T.OwnJumps(q, base, rules) && !T.JumpsTo(Built(cond), q.chain)
    ensures T.OwnJumps(q, base, rules')
  {
    hide Recognised, NoneRecognised, T.JumpsTo, Built;
    if NoneRecognised(cond, rules) {
      assert rules' == if first then [rules'[0]] + rules else rules + [rules'[|rules'| - 1]];
    }
  }

  lemma JumpsElsewhere(p: F.Site, q: F.Site)
    requires SitesDiffer(p, q)
    ensures !T.JumpsTo(Built(p.Jump()), q.chain) && !T.JumpsTo(Built(EstablishedRule), q.chain)
  {
    F.JumpRuleExprs(p.chain);
    F.EstablishedExprs();
  }

  /** The rules of one chain after the structure is presented at hook `p`. */
  lemma ChainThere(k: Kernel, instance: string, p: F.Site, k': Kernel, id: ChainId)
    requires F.Ready(k, instance, p) && T.InPlace(k, p, k') && id in k'.rules
    ensures || k'.rules[id] == F.RulesIn(k, id) || F.RuleThere(F.RulesIn(k, id), k'.rules[id], p.Jump(), false)
            || F.RuleThere(F.RulesIn(k, id), k'.rules[id], EstablishedRule, true)
  {
    hide F.Sound, F.AtMostOne, F.RuleThere, F.BaseReady, NoneRecognised;
  }

  lemma PresentedOwnJumpsElsewhere(k: Kernel, instance: string, p: F.Site, q: F.Site, k': Kernel)
    requires F.Ready(k, instance, p) && T.OnlyOwnJumps(k, q) && T.InPlace(k, p, k') && SitesDiffer(p, q)
    ensures T.OnlyOwnJumps(k', q)
  {
    hide F.Ready, T.InPlace, F.RuleThere, T.OwnJumps, T.JumpsTo, Built, F.JumpTo;
    KeysAfter(k, instance, p, k');
    JumpsElsewhere(p, q);
    forall id | id in k'.rules && id != q.Target() && id.table == q.Target().table
      ensures T.OwnJumps(q, id in k'.hooked && k'.hooked[id] == q.hook, k'.rules[id])
    {
      var base := id in k'.hooked && k'.hooked[id] == q.hook;
      assert base <==> id in k.hooked && k.hooked[id] == q.hook;
      NoJumpsInNothing(q, base);
      ChainThere(k, instance, p, k', id);
      if k'.rules[id] != F.RulesIn(k, id) {
        if F.RuleThere(F.RulesIn(k, id), k'.rules[id], p.Jump(), false) {
          OwnJumpsThere(q, base, F.RulesIn(k, id), k'.rules[id], p.Jump(), false);
        } else {
          OwnJumpsThere(q, base, F.RulesIn(k, id), k'.rules[id], EstablishedRule, true);
        }
      }
    }
  }

  lemma NoJumpsInNothing(q: F.Site, base: bool)
    ensures T.OwnJumps(q, base, [])
  {
  }

  /** The structure is in place at a hook, in front of what its regular chain had. */
  ghost predicate Begun(k: Kernel, k': Kernel, instance: string, tables: Tables, hook: Hook) {
    var site := SiteOf(instance, tables, hook);
    site.Target() in k'.rules && T.OwnRuleThere(site, F.RulesIn(k, site.Target()), k'.rules[site.Target()])
  }

  lemma PresentedStep(k: Kernel, instance: string, tables: Tables, comment: Bytes, a: Hook)
    requires Restartable(k, instance, tables)
    ensures var k' := F.Presented(k, SiteOf(instance, tables, a), comment);
            && Restartable(k', instance, tables) && Begun(k, k', instance, tables, a)
            && F.Bases(k', HookNumber(a)) != []
            && (forall b :: b != a ==> (F.Bases(k', HookNumber(b)) == [] <==> F.Bases(k, HookNumber(b)) == []))
            && forall b :: b != a ==>
                 && F.RulesIn(k', ChainOf(instance, tables, b)) == F.RulesIn(k, ChainOf(instance, tables, b))
                 && (ChainOf(instance, tables, b) in k'.rules <==> ChainOf(instance, tables, b) in k.rules)
  {
    hide F.Ready, T.OnlyOwnJumps, T.InPlace, F.Presented, F.Sound, NameOf, F.Bases, F.RulesIn, SitesDiffer, Begun, Voted, Voters;
    var p := SiteOf(instance, tables, a);
    var k' := F.Presented(k, p, comment);
    T.InPlaceAfter(k, instance, p, comment);
    T.PresentedRemovable(k, instance, p, comment);
    BegunHere(k, instance, tables, a, k');
    forall b: Hook | b != a
      ensures T.Removable(k', instance, SiteOf(instance, tables, b))
      ensures F.Bases(k', HookNumber(b)) == [] <==> F.Bases(k, HookNumber(b)) == []
      ensures F.RulesIn(k', ChainOf(instance, tables, b)) == F.RulesIn(k, ChainOf(instance, tables, b))
      ensures ChainOf(instance, tables, b) in k'.rules <==> ChainOf(instance, tables, b) in k.rules
    {
      var q := SiteOf(instance, tables, b);
      SitesOfHooks(instance, tables, a, b);
      PresentedReadyElsewhere(k, instance, p, q, k');
      PresentedOwnJumpsElsewhere(k, instance, p, q, k');
      BasesElsewhere(k, instance, p, q, k');
      UntouchedTarget(k, instance, p, q, k');
    }
    RemovableReady(k, instance, p);
    PresentedVotes(k, instance, p, comment);
    VotedAfterPresenting(k, k', tables, a);
  }

  lemma UntouchedTarget(k: Kernel, instance: string, p: F.Site, q: F.Site, k': Kernel)
    requires F.Ready(k, instance, p) && F.Ready(k, instance, q) && T.InPlace(k, p, k') && SitesDiffer(p, q)
    ensures q.Target() in k'.rules <==> q.Target() in k.rules
  {
    hide F.Sound, F.AtMostOne, F.BaseReady, T.InPlace;
    Untouched(k, instance, p, k', q.Target());
  }

  lemma BegunHere(k: Kernel, instance: string, tables: Tables, a: Hook, k': Kernel)
    requires T.InPlace(k, SiteOf(instance, tables, a), k')
    ensures Begun(k, k', instance, tables, a) && F.Bases(k', HookNumber(a)) != []
  {
    hide F.RuleThere, F.AtMostOne, NameOf;
  }

  /** After the structure is presented at the first `n` hooks: it is in place there, and the regular chains
  of the other hooks are as they were. */
  ghost predicate LaidUpTo(k: Kernel, k': Kernel, instance: string, tables: Tables, n: nat) {
    && Restartable(k', instance, tables)
    && (forall hook :: Done(hook, n) ==> Begun(k, k', instance, tables, hook) && F.Bases(k', HookNumber(hook)) != [])
    && forall hook :: !Done(hook, n) ==> F.RulesIn(k', ChainOf(instance, tables, hook)) == F.RulesIn(k, ChainOf(instance, tables, hook))
  }

  lemma {:induction false} LaidChains(k: Kernel, instance: string, tables: Tables, comment: Bytes, n: nat)
    requires n <= 4 && Restartable(k, instance, tables)
    ensures LaidUpTo(k, Laid(k, instance, tables, comment, n), instance, tables, n)
  {
    hide Restartable, F.Presented, F.Bases, F.RulesIn, Begun;
    if n == 0 {
      assert forall hook :: !Done(hook, 0);
    } else {
      LaidChains(k, instance, tables, comment, n - 1);
      var before, a := Laid(k, instance, tables, comment, n - 1), HOOKS[n - 1];
      PresentedStep(before, instance, tables, comment, a);
      var k' := Laid(k, instance, tables, comment, n);
      assert forall hook :: Done(hook, n) <==> Done(hook, n - 1) || hook == a;
      forall hook: Hook | Done(hook, n) ensures Begun(k, k', instance, tables, hook) && F.Bases(k', HookNumber(hook)) != [] {
        if hook == a {
          SameBefore(k, before, k', instance, tables, a);
        } else {
          StillBegun(k, before, k', instance, tables, hook);
        }
      }
    }
  }

  lemma SameBefore(k: Kernel, before: Kernel, k': Kernel, instance: string, tables: Tables, hook: Hook)
    requires Begun(before, k', instance, tables, hook)
    requires F.RulesIn(before, ChainOf(instance, tables, hook)) == F.RulesIn(k, ChainOf(instance, tables, hook))
    ensures Begun(k, k', instance, tables, hook)
  {
    hide F.RulesIn, T.OwnRuleThere, NameOf;
  }

  lemma StillBegun(k: Kernel, before: Kernel, k': Kernel, instance: string, tables: Tables, hook: Hook)
    requires Begun(k, before, instance, tables, hook)
    requires ChainOf(instance, tables, hook) in k'.rules <==> ChainOf(instance, tables, hook) in before.rules
    requires F.RulesIn(k', ChainOf(instance, tables, hook)) == F.RulesIn(before, ChainOf(instance, tables, hook))
    ensures Begun(k, k', instance, tables, hook)
  {
    hide T.OwnRuleThere, NameOf;
  }

  // ----- What the start achieves

  /** The regular chain of a hook holds the rules of no forwarding exactly when it was missing, empty or
  already right when the structure was presented. */
  lemma HoldsNothingExactly(k: Kernel, k': Kernel, instance: string, tables: Tables, hook: Hook)
    requires Begun(k, k', instance, tables, hook)
    ensures var had := F.RulesIn(k, ChainOf(instance, tables, hook));
            ChainHolds(k', instance, tables, [], [], hook) <==> had == [] || ExprsOf(had) == Regular(instance, [], [], hook)
  {
    hide Recognised, Built, NameOf;
    var site := SiteOf(instance, tables, hook);
    var had, holds := F.RulesIn(k, site.Target()), k'.rules[site.Target()];
    if site.established {
      assert Regular(instance, [], [], hook) == [Built(EstablishedRule)];
      EstablishedFound();
      assert ExprsOf(had) == [Built(EstablishedRule)] ==> Recognised(EstablishedRule, had[0].exprs) by {
        assert |had| == 1 ==> ExprsOf(had)[0] == had[0].exprs;
      }
      if had == [] {
        assert NoneRecognised(EstablishedRule, had) && ExprsOf(holds) == [Built(EstablishedRule)];
      }
    } else {
      assert Regular(instance, [], [], hook) == [];
    }
  }

  lemma EstablishedFound()
    ensures Recognised(EstablishedRule, Built(EstablishedRule)) && Built(EstablishedRule) != []
  {
    F.EstablishedExprs();
    PeelBuilt(EstablishedRule.conditions);
    RecognisedExactly(EstablishedRule, Built(EstablishedRule));
  }

  lemma RestartableInTable(k: Kernel, instance: string, tables: Tables, hook: Hook)
    requires Restartable(k, instance, tables)
    ensures InTable(k, tables, hook) && WellFormed(k)
  {
    hide F.Sound, T.OnlyOwnJumps, F.AtMostOne, NameOf, VotedTable;
    var site := SiteOf(instance, tables, hook);
    assert T.Removable(k, instance, site) && Voted(k, tables, hook);
    SoundlyRemovable(k, instance, site);
    BasesInRules(k, instance, site);
  }

  /** The start makes the four chains serve no forwarding, with nothing else in them, exactly when no hook
  has a leftover regular chain without a base chain; and the ruleset can be started in again. */
  lemma StartedServesExactly(k: Kernel, instance: string, tables: Tables, comment: Bytes)
    requires Restartable(k, instance, tables)
    ensures Restartable(Started(k, instance, tables, comment), instance, tables)
    ensures Serves(Started(k, instance, tables, comment), instance, tables, [], []) <==> forall hook :: Fresh(k, instance, tables, hook)
  {
    hide Restartable, Cleared, Laid, F.Bases, F.RulesIn, Begun, ChainHolds, NameOf, InTable, WellFormed, Regular, ExprsOf;
    var cleared, k' := Cleared(k, instance, tables, 4), Started(k, instance, tables, comment);
    ClearedChains(k, instance, tables, 4);
    LaidChains(cleared, instance, tables, comment, 4);
    RestartableInTable(k', instance, tables, Prerouting);
    forall hook: Hook
      ensures Based(k', hook) && InTable(k', tables, hook)
      ensures ChainHolds(k', instance, tables, [], [], hook) <==> Fresh(k, instance, tables, hook)
    {
      assert Done(hook, 4);
      RestartableInTable(k', instance, tables, hook);
      HoldsNothingExactly(cleared, k', instance, tables, hook);
    }
  }

  /** A leftover chain at a hook without a base chain: all its rules are still there after the start. */
  lemma LeftoverSurvives(k: Kernel, instance: string, tables: Tables, comment: Bytes, hook: Hook)
    requires Restartable(k, instance, tables) && F.Bases(k, HookNumber(hook)) == []
    ensures var chain, k' := ChainOf(instance, tables, hook), Started(k, instance, tables, comment);
            chain in k'.rules && forall r :: r in F.RulesIn(k, chain) ==> r in k'.rules[chain]
  {
    hide Restartable, Cleared, Laid, F.Bases, NameOf, NoneRecognised;
    var cleared, k' := Cleared(k, instance, tables, 4), Started(k, instance, tables, comment);
    ClearedChains(k, instance, tables, 4);
    LaidChains(cleared, instance, tables, comment, 4);
    assert Done(hook, 4) && Begun(cleared, k', instance, tables, hook);
  }

  /** A ruleset with nothing but a regular chain of the instance, left over with one accepting rule. */
  function Leftover(instance: string): Kernel {
    var id := ChainOf(instance, STANDARD, Prerouting);
    Kernel([id], map[id := [Rule(id.table, id.chain, 1, [E.Verdict(E.AcceptVerdict, "")], [])]], map[], map[id.table := 2], map[])
  }

  lemma LeftoverRestartable(instance: string)
    ensures Restartable(Leftover(instance), instance, STANDARD)
  {
    hide NameOf, Recognised, VotedTable;
    var k, id := Leftover(instance), ChainOf(instance, STANDARD, Prerouting);
    assert F.Sound(k) by {
      assert F.ExprsResolve([E.Verdict(E.AcceptVerdict, "")], id.table, {id});
    }
    forall hook: Hook ensures T.Removable(k, instance, SiteOf(instance, STANDARD, hook)) && Voted(k, STANDARD, hook) {
      InstancePrefix(instance, hook);
      SitesApart(instance, STANDARD, hook, hook);
      SitesApart(instance, STANDARD, Prerouting, hook);
      assert !T.JumpsTo([E.Verdict(E.AcceptVerdict, "")], NameOf(instance, hook));
      NoBasesNoVotes(k, hook);
    }
  }

  lemma NoBasesNoVotes(k: Kernel, hook: Hook)
    requires k.hooked == map[]
    ensures F.Bases(k, HookNumber(hook)) == [] && VotedTable(k, hook) == Fallback(hook) == STANDARD.For(hook)
  {
    NoneIn(F.Bases(k, HookNumber(hook)));
    UsualTableIsFound(k, hook);
  }

  lemma NoneIn(ids: seq<ChainId>)
    ensures (forall id :: id !in ids) ==> ids == []
  {
    if ids != [] {
      assert ids[0] in ids;
    }
  }

  lemma InstancePrefix(instance: string, hook: Hook)
    ensures instance <= NameOf(instance, hook)
  {
  }

  /** The start does not make this ruleset serve: the stale rule stays, and a fresh jump leads to it. */
  lemma LeftoverNotServed(instance: string, comment: Bytes)
    ensures Restartable(Leftover(instance), instance, STANDARD)
    ensures !Serves(Started(Leftover(instance), instance, STANDARD, comment), instance, STANDARD, [], [])
  {
    hide Restartable, Started, Serves, NameOf;
    LeftoverRestartable(instance);
    var k := Leftover(instance);
    StartedServesExactly(k, instance, STANDARD, comment);
    var rules := F.RulesIn(k, ChainOf(instance, STANDARD, Prerouting));
    NoneIn(F.Bases(k, HookNumber(Prerouting)));
    assert |rules| == 1 && ExprsOf(rules) != [] && Regular(instance, [], [], Prerouting) == [];
    assert !Fresh(k, instance, STANDARD, Prerouting);
  }

  /** The empty ruleset can be started in, for every instance name, exactly in the usual tables. */
  lemma EmptyIsRestartable(instance: string, tables: Tables)
    ensures var k := Kernel([], map[], map[], map[], map[]);
            && (Restartable(k, instance, tables) <==> tables == STANDARD)
            && forall hook :: Fresh(k, instance, tables, hook)
  {
    hide NameOf, VotedTable;
    var k := Kernel([], map[], map[], map[], map[]);
    forall hook: Hook
      ensures NameOf(instance, hook) != BaseName(hook) && instance <= NameOf(instance, hook)
      ensures Voted(k, tables, hook) <==> tables.For(hook) == STANDARD.For(hook)
    {
      SitesApart(instance, tables, hook, hook);
      InstancePrefix(instance, hook);
      NoBasesNoVotes(k, hook);
    }
    if Restartable(k, instance, tables) {
      assert Voted(k, tables, Prerouting) && Voted(k, tables, Postrouting) && Voted(k, tables, Forward) && Voted(k, tables, Output);
    }
  }
}
