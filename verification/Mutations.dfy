/** The rule mutation: making a rule present once, and removing it. */
module Mutations {
  import opened Encoding
  import opened Conditions
  import opened RuleCache
  import opened Kernels
  import opened Searching
  import Userdata

  predicate NoPanic(family: nat, table: string, chain: string, cond: Condition, s: seq<Rule>) {
    forall r :: r in s && InChain(family, table, chain, r) ==> !Panics(cond, r.exprs)
  }

  /** The rules of a chain that a condition recognises. */
  function At(id: ChainId, cond: Condition): Rule -> bool {
    Selector(id.table.family, id.table.name, id.chain, cond)
  }

  /** What `rule.Present` queues when the cache holds `s`. */
  function Presenting(s: seq<Rule>, id: ChainId, cond: Condition, first: bool, data: Bytes): seq<Command> {
    var f := First(s, At(id, cond));
    if f == |s| then [AddRule(id.table.name, id.chain, Built(cond), first, data)]
    else DelCommands(id.table.name, id.chain, Gone(s, f + 1, At(id, cond)))
  }

  /** What it leaves in the cache. */
  function PresentedCache(s: seq<Rule>, id: ChainId, cond: Condition): seq<Rule> {
    var f := First(s, At(id, cond));
    if f == |s| then s else Remains(s, f + 1, At(id, cond))
  }

  /** What `rule.CleanUp` queues. */
  function CleaningUp(s: seq<Rule>, id: ChainId, cond: Condition): seq<Command> {
    DelCommands(id.table.name, id.chain, Gone(s, 0, At(id, cond)))
  }

  /** `rule.Present`: adds the rule if the chain has none like it; otherwise keeps the first one and
  sweeps the rest for duplicates. */
  method PresentRule(rw: ReadWriter, table: string, chain: string, cond: Condition, first: bool, comment: Bytes)
    requires rw.Valid() && Solid(cond) && NoPanic(rw.family, table, chain, cond, rw.Rules())
    modifies rw`live, rw`queued, rw.backing
    ensures rw.Valid()
    ensures var s, id := old(rw.Rules()), ChainId(TableId(rw.family, table), chain);
            && rw.Rules() == PresentedCache(s, id, cond)
            && rw.queued == old(rw.queued) + Presenting(s, id, cond, first, Userdata.Stored(comment))
  {
    hide Gone, Remains, DelCommands, First, Recognised, Panics, Solid, Selector;
    ghost var s, id := rw.Rules(), ChainId(TableId(rw.family, table), chain);
    ghost var m := At(id, cond);
    var i := 0;
    while i < rw.live
      invariant 0 <= i <= rw.live
      invariant rw.Valid() && i <= rw.live && rw.Rules() == s && rw.queued == old(rw.queued)
      invariant forall j :: 0 <= j < i ==> !m(s[j])
    {
      var elem := rw.backing[i];
      assert elem == s[i];
      var chosen := rw.Selects(table, chain, cond, elem);
      if chosen {
        assert First(s, m) == i;
        rw.DeleteMatching(table, chain, cond, i + 1);
        return;
      }
      i := i + 1;
    }
    assert First(s, m) == |s|;
    var exprs := Build(cond);
    var data := Userdata.Marshal(comment);
    rw.queued := rw.queued + [AddRule(table, chain, exprs, first, data)];
  }

  /** `rule.CleanUp`: sweeps the whole cache. */
  method CleanUpRule(rw: ReadWriter, table: string, chain: string, cond: Condition)
    requires rw.Valid() && Solid(cond) && NoPanic(rw.family, table, chain, cond, rw.Rules())
    modifies rw`live, rw`queued, rw.backing
    ensures rw.Valid()
    ensures var s, id := old(rw.Rules()), ChainId(TableId(rw.family, table), chain);
            rw.Rules() == Remains(s, 0, At(id, cond)) && rw.queued == old(rw.queued) + CleaningUp(s, id, cond)
  {
    rw.DeleteMatching(table, chain, cond, 0);
  }
}
