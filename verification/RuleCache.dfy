/** The cached rules of a reader/writer, and deletion while ranging over them.

`DeleteRule` closes the gap in the array that the caller is still iterating over: the element
after a deleted one is skipped, and the slots behind the shortened slice, which keep stale copies
of the last rule, are visited at the end.
*/
module RuleCache {
  import opened Encoding
  import opened Options
  import opened Conditions
  import S = Searching

  datatype TableId = TableId(family: nat, name: string)

  datatype Rule = Rule(table: TableId, chain: string, handle: nat, exprs: Exprs, comment: Bytes)

  /** What a reader/writer queues for the kernel. */
  datatype Command =
    | AddTable(name: string)
    | AddChain(table: string, chain: string, hook: Option<nat>)
    | DelChain(table: string, chain: string)
    | AddRule(table: string, chain: string, exprs: Exprs, first: bool, comment: Bytes)
    | DelRule(table: string, chain: string, handle: nat)
    | AddSet(table: string, setId: uint32, setName: string, elements: map<Bytes, Bytes>)

  // ----- Which rules an iteration selects

  /** Rules of one chain that a condition recognises: the filters of `Rules(table)`,
  `RuleChainName` and `RuleExpr` in a row. */
  predicate InChain(family: nat, table: string, chain: string, r: Rule) {
    r.table == TableId(family, table) && r.chain == chain
  }

  function Selector(family: nat, table: string, chain: string, cond: Condition): Rule -> bool {
    r => InChain(family, table, chain, r) && Recognised(cond, r.exprs)
  }

  // ----- What the iteration leaves behind

  /** The rules that survive an iteration over `s` from position `p` on. */
  function Survivors(s: seq<Rule>, p: nat, m: Rule -> bool): (r: seq<Rule>)
    decreases |s| - p
  {
    if p >= |s| then []
    else if !m(s[p]) then [s[p]] + Survivors(s, p + 1, m)
    else if p + 1 == |s| || (p + 2 == |s| && m(s[p + 1])) then []
    else [s[p + 1]] + Survivors(s, p + 2, m)
  }

  /** The rules it deletes, in order. */
  function Deleted(s: seq<Rule>, p: nat, m: Rule -> bool): (r: seq<Rule>)
    decreases |s| - p
  {
    if p >= |s| then []
    else if !m(s[p]) then Deleted(s, p + 1, m)
    else if p + 2 == |s| && m(s[p + 1]) then [s[p], s[p + 1]]
    else [s[p]] + Deleted(s, p + 2, m)
  }

  function Keep(s: seq<Rule>, m: Rule -> bool): seq<Rule> {
    if s == [] then [] else (if m(s[0]) then [] else [s[0]]) + Keep(s[1..], m)
  }

  /** Two selected rules in a row, not at the very end. */
  predicate InnerPair(s: seq<Rule>, p: nat, m: Rule -> bool) {
    exists q :: p <= q && q + 2 < |s| && m(s[q]) && m(s[q + 1])
  }

  predicate Clean(s: seq<Rule>, m: Rule -> bool) {
    forall r :: r in s ==> !m(r)
  }

  /** No rule outside the selection is lost or moved. */
  lemma {:induction false} OthersSurvive(s: seq<Rule>, p: nat, m: Rule -> bool)
    requires p <= |s|
    ensures Keep(Survivors(s, p, m), m) == Keep(s[p..], m)
    decreases |s| - p
  {
    if p < |s| {
      var rest := Survivors(s, p, m);
      assert s[p..][1..] == s[p + 1..];
      if !m(s[p]) {
        OthersSurvive(s, p + 1, m);
        assert rest[1..] == Survivors(s, p + 1, m);
      } else if p + 1 < |s| {
        assert s[p + 1..][1..] == s[p + 2..];
        if p + 2 == |s| && m(s[p + 1]) {
          assert Keep(s[p + 2..], m) == [];
        } else {
          OthersSurvive(s, p + 2, m);
          assert rest[1..] == Survivors(s, p + 2, m);
        }
      }
    }
  }

  lemma {:induction false} CleanIsKept(s: seq<Rule>, m: Rule -> bool)
    requires Clean(s, m)
    ensures Keep(s, m) == s
  {
    if s != [] {
      CleanIsKept(s[1..], m);
    }
  }

  /** The iteration gets rid of every selected rule exactly when no two of them are neighbours,
  except at the very end; it then leaves precisely the other rules, in order. */
  lemma {:induction false} CleansExactly(s: seq<Rule>, p: nat, m: Rule -> bool)
    requires p <= |s|
    ensures Clean(Survivors(s, p, m), m) <==> !InnerPair(s, p, m)
    ensures !InnerPair(s, p, m) ==> Survivors(s, p, m) == Keep(s[p..], m)
    decreases |s| - p
  {
    OthersSurvive(s, p, m);
    var rest := Survivors(s, p, m);
    if p < |s| {
      if !m(s[p]) {
        CleansExactly(s, p + 1, m);
        PairsFrom(s, p, p + 1, m);
        assert Clean(rest, m) <==> Clean(Survivors(s, p + 1, m), m);
      } else if p + 1 < |s| && !(p + 2 == |s| && m(s[p + 1])) {
        CleansExactly(s, p + 2, m);
        assert Clean(rest, m) <==> !m(s[p + 1]) && Clean(Survivors(s, p + 2, m), m);
        if m(s[p + 1]) {
          assert p + 2 < |s| && m(s[p]) && m(s[p + 1]);
        } else {
          PairsFrom(s, p, p + 2, m);
        }
      }
    }
    if Clean(rest, m) {
      CleanIsKept(rest, m);
    }
  }

  lemma PairsFrom(s: seq<Rule>, p: nat, p': nat, m: Rule -> bool)
    requires (p' == p + 1 && p < |s| && !m(s[p])) || (p' == p + 2 && p + 1 < |s| && !m(s[p + 1]))
    ensures InnerPair(s, p, m) <==> InnerPair(s, p', m)
  {
    if InnerPair(s, p, m) {
      var q :| p <= q && q + 2 < |s| && m(s[q]) && m(s[q + 1]);
      assert q >= p';
    }
  }

  // ----- Handles

  predicate DistinctHandles(s: seq<Rule>) {
    forall i, j :: 0 <= i < j < |s| ==> s[i].handle != s[j].handle
  }

  function HasHandle(handle: nat): Rule -> bool {
    (r: Rule) => r.handle == handle
  }

  /** The position of the first rule with a handle, or the length. */
  function FirstWith(s: seq<Rule>, handle: nat): (i: nat)
    ensures i <= |s| && (i < |s| ==> s[i].handle == handle)
    ensures forall j :: 0 <= j < i ==> s[j].handle != handle
  {
    S.First(s, HasHandle(handle))
  }

  function WithoutFirst(s: seq<Rule>, handle: nat): seq<Rule> {
    var i := FirstWith(s, handle);
    if i == |s| then s else s[..i] + s[i + 1..]
  }

  function DelCommands(table: string, chain: string, rules: seq<Rule>): seq<Command> {
    seq(|rules|, i requires 0 <= i < |rules| => DelRule(table, chain, rules[i].handle))
  }

  /** `s[k]` is the one selected rule from position `p` on. */
  predicate OnlyMatch(s: seq<Rule>, p: nat, m: Rule -> bool, k: nat) {
    p <= k < |s| && m(s[k]) && forall i :: p <= i < |s| && i != k ==> !m(s[i])
  }

  /** What is left of the slice after the rules `gone` were deleted by handle, each time the first that has
  it. */
  function WithoutAll(s: seq<Rule>, gone: seq<Rule>): seq<Rule> {
    if gone == [] then s else WithoutFirst(WithoutAll(s, gone[..|gone| - 1]), gone[|gone| - 1].handle)
  }

  function CountWith(s: seq<Rule>, handle: nat): nat {
    if s == [] then 0 else (if s[0].handle == handle then 1 else 0) + CountWith(s[1..], handle)
  }

  lemma {:induction false} CountConcat(a: seq<Rule>, b: seq<Rule>, handle: nat)
    ensures CountWith(a + b, handle) == CountWith(a, handle) + CountWith(b, handle)
  {
    if a == [] {
      assert a + b == b;
    } else {
      assert (a + b)[1..] == a[1..] + b;
      CountConcat(a[1..], b, handle);
    }
  }

  lemma {:induction false} CountZero(s: seq<Rule>, handle: nat)
    ensures CountWith(s, handle) == 0 <==> forall x :: 0 <= x < |s| ==> s[x].handle != handle
  {
    if s != [] {
      CountZero(s[1..], handle);
      assert forall x :: 0 <= x < |s[1..]| ==> s[1..][x] == s[x + 1];
      if CountWith(s, handle) == 0 {
        forall x | 0 <= x < |s| ensures s[x].handle != handle {
          assert x > 0 ==> s[x] == s[1..][x - 1];
        }
      }
    }
  }

  lemma CountOne(r: Rule, handle: nat)
    ensures CountWith([r], handle) == if r.handle == handle then 1 else 0
  {
    assert [r][1..] == [];
  }

  /** Deleting a handle that is there takes one rule with it and no other. */
  lemma CountWithoutFirst(s: seq<Rule>, gone: nat, handle: nat)
    requires FirstWith(s, gone) < |s|
    ensures CountWith(WithoutFirst(s, gone), handle) + (if handle == gone then 1 else 0) == CountWith(s, handle)
  {
    hide CountWith, FirstWith;
    var i := FirstWith(s, gone);
    assert s == s[..i] + ([s[i]] + s[i + 1..]);
    CountConcat(s[..i], [s[i]] + s[i + 1..], handle);
    CountConcat([s[i]], s[i + 1..], handle);
    CountConcat(s[..i], s[i + 1..], handle);
    CountOne(s[i], handle);
  }

  lemma FoundExactly(s: seq<Rule>, handle: nat)
    ensures FirstWith(s, handle) < |s| <==> CountWith(s, handle) > 0
  {
    hide CountWith;
    CountZero(s, handle);
    var i := FirstWith(s, handle);
    assert i < |s| ==> s[i].handle == handle;
  }

  // ----- What an iteration deletes, stale slots included

  function Least(a: nat, b: nat): nat {
    if a < b then a else b
  }

  /** How many rules are deleted before the iteration gets to the last rule, or to the last but one if it
  skips the last.  So many stale slots, each a copy of the last rule, are visited after that. */
  function Spare(s: seq<Rule>, p: nat, m: Rule -> bool): nat
    decreases |s| - p
  {
    if p >= |s| then 0
    else if !m(s[p]) then Spare(s, p + 1, m)
    else if p + 2 >= |s| then 0
    else 1 + Spare(s, p + 2, m)
  }

  function Copies(r: Rule, n: nat): (rs: seq<Rule>)
    ensures |rs| == n && forall x :: 0 <= x < n ==> rs[x] == r
  {
    seq(n, _ => r)
  }

  /** Cached rules with this handle that the deletions in order leave over. */
  function Over(s: seq<Rule>, start: nat, m: Rule -> bool, handle: nat): nat {
    var all, taken := CountWith(s, handle), CountWith(Deleted(s, start, m), handle);
    if taken < all then all - taken else 0
  }

  /** The last rule is deleted again from its stale slots, as long as some cached rule, of whatever table,
  has its handle. */
  function Again(s: seq<Rule>, start: nat, m: Rule -> bool): seq<Rule> {
    if s != [] && m(s[|s| - 1]) then
      var last := s[|s| - 1];
      Copies(last, Least(Spare(s, start, m), Over(s, start, m, last.handle)))
    else []
  }

  /** The rules whose deletion an iteration from position `start` on queues. */
  function Gone(s: seq<Rule>, start: nat, m: Rule -> bool): seq<Rule> {
    Deleted(s, start, m) + Again(s, start, m)
  }

  /** What it leaves in the cache. */
  function Remains(s: seq<Rule>, start: nat, m: Rule -> bool): seq<Rule> {
    WithoutAll(s, Gone(s, start, m))
  }

  lemma Unfold(s: seq<Rule>, p: nat, m: Rule -> bool)
    requires p < |s|
    ensures !m(s[p]) ==> Deleted(s, p, m) == Deleted(s, p + 1, m) && Spare(s, p, m) == Spare(s, p + 1, m)
    ensures m(s[p]) && p + 1 == |s| ==> Deleted(s, p, m) == [s[p]] && Spare(s, p, m) == 0
    ensures m(s[p]) && p + 2 == |s| ==> Spare(s, p, m) == 0
    ensures m(s[p]) && p + 2 == |s| ==> Deleted(s, p, m) == if m(s[p + 1]) then [s[p], s[p + 1]] else [s[p]]
    ensures m(s[p]) && p + 2 < |s| ==> Deleted(s, p, m) == [s[p]] + Deleted(s, p + 2, m) && Spare(s, p, m) == 1 + Spare(s, p + 2, m)
  {
  }

  lemma Exhausted(s: seq<Rule>, m: Rule -> bool)
    ensures Deleted(s, |s|, m) == [] && Spare(s, |s|, m) == 0
  {
  }

  /** What the iteration maintains: `b` is the array, `live` the length of the shortened slice, `i` the
  position about to be visited, `gone` what was deleted. */
  ghost predicate Maintained(s: seq<Rule>, start: nat, m: Rule -> bool, b: seq<Rule>, live: nat, i: nat, gone: seq<Rule>) {
    && start <= i <= |s| == |b| && live + |gone| == |s|
    && b[..live] == WithoutAll(s, gone)
    && (forall x :: 0 <= x < |b| ==> b[x] in s)
    && (forall x :: live <= x && i <= x < |b| ==> b[x] == s[|s| - 1])
    && (forall h :: CountWith(b[..live], h) + CountWith(gone, h) == CountWith(s, h))
    && if i < live then Scanning(s, start, m, b, live, i, gone) else Behind(s, start, m, b, live, i, gone)
  }

  /** Position `i` holds what was as many positions further right as rules were deleted. */
  predicate Scanning(s: seq<Rule>, start: nat, m: Rule -> bool, b: seq<Rule>, live: nat, i: nat, gone: seq<Rule>)
    requires i < live <= |b| && live + |gone| == |s|
  {
    var p := i + |gone|;
    && b[i..live] == s[p..]
    && gone + Deleted(s, p, m) == Deleted(s, start, m)
    && |gone| + Spare(s, p, m) == Spare(s, start, m)
  }

  /** Only stale slots are left.  The last rule is either still to be met in the first of them, or has been
  deleted and then once more from each slot visited since, as long as its handle was found. */
  predicate Behind(s: seq<Rule>, start: nat, m: Rule -> bool, b: seq<Rule>, live: nat, i: nat, gone: seq<Rule>)
    requires live <= i <= |s| == |b|
  {
    if s == [] || !m(s[|s| - 1]) then gone == Deleted(s, start, m)
    else
      var last, spare := s[|s| - 1], Spare(s, start, m);
      || (live > 0 && b[live - 1] == last && gone + [last] == Deleted(s, start, m) && |s| - i == spare + 1)
      || (|s| - i <= spare && gone == Deleted(s, start, m) + Copies(last, Least(spare - (|s| - i), Over(s, start, m, last.handle))))
  }

  lemma MaintainedAtStart(s: seq<Rule>, start: nat, m: Rule -> bool)
    requires start <= |s|
    ensures Maintained(s, start, m, s, |s|, start, [])
  {
    hide CountWith, Deleted, Spare;
    assert s[start..|s|] == s[start..] && s[..|s|] == s;
    Exhausted(s, m);
    forall h ensures CountWith([], h) == 0 {
      CountZero([], h);
    }
    if start == |s| && s != [] {
      assert Copies(s[|s| - 1], 0) == [];
    }
  }

  lemma MaintainedAtEnd(s: seq<Rule>, start: nat, m: Rule -> bool, b: seq<Rule>, live: nat, gone: seq<Rule>)
    requires Maintained(s, start, m, b, live, |s|, gone)
    ensures live <= |b| && gone == Gone(s, start, m) && b[..live] == Remains(s, start, m)
  {
    hide CountWith, Deleted, Spare;
  }

  lemma MaintainedElement(s: seq<Rule>, start: nat, m: Rule -> bool, b: seq<Rule>, live: nat, i: nat, gone: seq<Rule>)
    requires Maintained(s, start, m, b, live, i, gone) && i < |s|
    ensures |b| == |s| && live <= |s| && b[i] in s
  {
  }

  lemma Passes(s: seq<Rule>, start: nat, m: Rule -> bool, b: seq<Rule>, live: nat, i: nat, gone: seq<Rule>)
    requires Maintained(s, start, m, b, live, i, gone) && i < |s| && !m(b[i])
    ensures Maintained(s, start, m, b, live, i + 1, gone)
  {
    hide CountWith, Deleted, Spare, WithoutAll;
    if i < live {
      var p := i + |gone|;
      assert b[i] == b[i..live][0] == s[p];
      assert b[i + 1..live] == b[i..live][1..] == s[p + 1..];
      Unfold(s, p, m);
      Exhausted(s, m);
      assert gone + [] == gone;
    }
  }

  /** The array after `DeleteRule` closed the gap at position `j`. */
  predicate Closed(b: seq<Rule>, live: nat, j: nat, b': seq<Rule>) {
    && j < live <= |b| == |b'|
    && b'[..live - 1] == b[..j] + b[j + 1..live]
    && b'[live - 1] == b[live - 1]
    && b'[live..] == b[live..]
  }

  function AfterGap(b: seq<Rule>, live: nat, j: nat, x: nat): Rule
    requires live <= |b| && x < |b|
  {
    if j <= x && x + 1 < live then b[x + 1] else b[x]
  }

  lemma GapClosed(b: seq<Rule>, live: nat, j: nat, b': seq<Rule>)
    requires Closed(b, live, j, b')
    ensures |b'| == |b|
    ensures forall x :: 0 <= x < |b| ==> b'[x] == AfterGap(b, live, j, x)
  {
    forall x | 0 <= x < |b| ensures b'[x] == AfterGap(b, live, j, x) {
      if x < live - 1 {
        assert b'[x] == b'[..live - 1][x];
      } else if x >= live {
        assert b'[live..][x - live] == b[live..][x - live];
      }
    }
  }

  lemma ClosedPrefix(b: seq<Rule>, live: nat, j: nat, b': seq<Rule>, n: nat)
    requires Closed(b, live, j, b') && live <= n <= |b|
    ensures Closed(b[..n], live, j, b'[..n])
  {
    assert b'[..n][..live - 1] == b'[..live - 1];
    assert b[..n][..j] == b[..j] && b[..n][j + 1..live] == b[j + 1..live];
    assert b'[..n][live..] == b'[live..][..n - live] == b[live..][..n - live] == b[..n][live..];
  }

  lemma Deletes(s: seq<Rule>, start: nat, m: Rule -> bool, b: seq<Rule>, live: nat, i: nat, gone: seq<Rule>, b': seq<Rule>)
    requires Maintained(s, start, m, b, live, i, gone) && i < |s| && m(b[i])
    requires var j := FirstWith(b[..live], b[i].handle); j < live && Closed(b, live, j, b')
    ensures Maintained(s, start, m, b', live - 1, i + 1, gone + [b[i]])
  {
    hide CountWith, WithoutAll, Scanning, Behind;
    var j, gone' := FirstWith(b[..live], b[i].handle), gone + [b[i]];
    GapClosed(b, live, j, b');
    GoneOneMore(s, b[..live], gone, b[i]);
    assert b'[..live - 1] == WithoutFirst(b[..live], b[i].handle);
    if i < live {
      assert j <= i by {
        assert b[..live][i].handle == b[i].handle;
      }
      DeletesScanning(s, start, m, b, live, i, gone, b', j);
    } else {
      FoundExactly(b[..live], b[i].handle);
      DeletesBehind(s, start, m, b, live, i, gone, b');
    }
  }

  lemma GoneOneMore(s: seq<Rule>, short: seq<Rule>, gone: seq<Rule>, r: Rule)
    requires short == WithoutAll(s, gone) && FirstWith(short, r.handle) < |short|
    requires forall h :: CountWith(short, h) + CountWith(gone, h) == CountWith(s, h)
    ensures WithoutFirst(short, r.handle) == WithoutAll(s, gone + [r])
    ensures forall h :: CountWith(WithoutFirst(short, r.handle), h) + CountWith(gone + [r], h) == CountWith(s, h)
  {
    hide CountWith, FirstWith, WithoutFirst;
    assert (gone + [r])[..|gone|] == gone;
    forall h ensures CountWith(WithoutFirst(short, r.handle), h) + CountWith(gone + [r], h) == CountWith(s, h) {
      CountWithoutFirst(short, r.handle, h);
      CountConcat(gone, [r], h);
      CountOne(r, h);
    }
  }

  /** A deletion ahead of the stale slots: the next rule slips into the position just visited. */
  lemma DeletesScanning(s: seq<Rule>, start: nat, m: Rule -> bool, b: seq<Rule>, live: nat, i: nat, gone: seq<Rule>, b': seq<Rule>, j: nat)
    requires start <= i < live <= |s| == |b| == |b'| && live + |gone| == |s| && j <= i && m(b[i])
    requires Scanning(s, start, m, b, live, i, gone) && forall x :: 0 <= x < |b| ==> b'[x] == AfterGap(b, live, j, x)
    ensures if i + 1 < live - 1 then Scanning(s, start, m, b', live - 1, i + 1, gone + [b[i]])
            else Behind(s, start, m, b', live - 1, i + 1, gone + [b[i]])
    ensures b'[live - 1] == s[|s| - 1]
  {
    hide CountWith, Deleted, Spare;
    var p, n, gone' := i + |gone|, |s|, gone + [b[i]];
    assert b[i] == b[i..live][0] == s[p] && b[live - 1] == b[i..live][live - 1 - i] == s[n - 1];
    Unfold(s, p, m);
    Exhausted(s, m);
    if p + 2 < n {
      assert b'[i + 1..live - 1] == b[i..live][2..] == s[p + 2..];
      assert gone' + Deleted(s, p + 2, m) == gone + ([s[p]] + Deleted(s, p + 2, m));
    } else if p + 2 == n {
      assert b[i..live][1] == s[p + 1];
      assert b'[live - 2] == s[n - 1];
      assert gone' + [s[n - 1]] == gone + [s[p], s[n - 1]];
    } else {
      assert Copies(s[n - 1], 0) == [] && gone' + [] == gone';
    }
  }

  /** A stale slot once more deletes a rule with the last one's handle. */
  lemma DeletesBehind(s: seq<Rule>, start: nat, m: Rule -> bool, b: seq<Rule>, live: nat, i: nat, gone: seq<Rule>, b': seq<Rule>)
    requires live <= i < |s| == |b| == |b'| && m(b[i]) && b[i] == s[|s| - 1] && Behind(s, start, m, b, live, i, gone)
    requires live > 0 && CountWith(b[..live], b[i].handle) > 0
    requires CountWith(b[..live], b[i].handle) + CountWith(gone, b[i].handle) == CountWith(s, b[i].handle)
    ensures Behind(s, start, m, b', live - 1, i + 1, gone + [b[i]])
  {
    hide CountWith, Deleted, Spare;
    var last, spare, over := s[|s| - 1], Spare(s, start, m), Over(s, start, m, b[i].handle);
    if gone + [last] == Deleted(s, start, m) && |s| - i == spare + 1 {
      assert Copies(last, 0) == [] && gone + [last] + [] == gone + [last];
    } else {
      var r := Least(spare - (|s| - i), over);
      OverCounts(s, start, m, last, gone, r);
      assert gone + [last] == Deleted(s, start, m) + Copies(last, r + 1);
    }
  }

  lemma {:induction false} CountCopies(r: Rule, n: nat)
    ensures CountWith(Copies(r, n), r.handle) == n
  {
    if n > 0 {
      CountCopies(r, n - 1);
      assert Copies(r, n)[1..] == Copies(r, n - 1);
    }
  }

  lemma OverCounts(s: seq<Rule>, start: nat, m: Rule -> bool, last: Rule, gone: seq<Rule>, r: nat)
    requires gone == Deleted(s, start, m) + Copies(last, r)
    ensures CountWith(gone, last.handle) == CountWith(Deleted(s, start, m), last.handle) + r
  {
    CountConcat(Deleted(s, start, m), Copies(last, r), last.handle);
    CountCopies(last, r);
  }

  lemma NotFound(b: seq<Rule>, live: nat, i: nat)
    requires live <= |b| && i < |b| && FirstWith(b[..live], b[i].handle) == live
    ensures live <= i && (live > 0 ==> b[live - 1].handle != b[i].handle)
  {
    var short := b[..live];
    assert live > 0 ==> short[live - 1].handle != b[i].handle;
  }

  lemma Misses(s: seq<Rule>, start: nat, m: Rule -> bool, b: seq<Rule>, live: nat, i: nat, gone: seq<Rule>)
    requires Maintained(s, start, m, b, live, i, gone) && i < |s| && m(b[i])
    requires FirstWith(b[..live], b[i].handle) == live
    ensures Maintained(s, start, m, b, live, i + 1, gone)
  {
    hide CountWith, Deleted, Spare, WithoutAll, FirstWith;
    NotFound(b, live, i);
    FoundExactly(b[..live], b[i].handle);
    var last, spare := s[|s| - 1], Spare(s, start, m);
    OverCounts(s, start, m, last, gone, Least(spare - (|s| - i), Over(s, start, m, last.handle)));
  }

  lemma DeleteStep(s: seq<Rule>, start: nat, m: Rule -> bool, whole: seq<Rule>, live: nat, i: nat, gone: seq<Rule>, after: seq<Rule>)
    requires |s| <= |whole| == |after| && live <= |s| && i < |s| && m(whole[i])
    requires Maintained(s, start, m, whole[..|s|], live, i, gone)
    requires var j := FirstWith(whole[..live], whole[i].handle); if j == live then after == whole else Closed(whole, live, j, after)
    ensures var j := FirstWith(whole[..live], whole[i].handle);
            j <= live && if j == live then Maintained(s, start, m, after[..|s|], live, i + 1, gone)
                         else Maintained(s, start, m, after[..|s|], live - 1, i + 1, gone + [whole[i]])
  {
    hide Maintained, Closed;
    var b, j := whole[..|s|], FirstWith(whole[..live], whole[i].handle);
    assert b[..live] == whole[..live];
    if j == live {
      Misses(s, start, m, b, live, i, gone);
    } else {
      ClosedPrefix(whole, live, j, after, |s|);
      Deletes(s, start, m, b, live, i, gone, after[..|s|]);
    }
  }

  lemma NoDelCommands(table: string, chain: string)
    ensures DelCommands(table, chain, []) == []
  {
  }

  lemma ExtendDelCommands(table: string, chain: string, rules: seq<Rule>, r: Rule)
    ensures DelCommands(table, chain, rules + [r]) == DelCommands(table, chain, rules) + [DelRule(table, chain, r.handle)]
  {
  }

  class ReadWriter {
    const family: nat
    var backing: array<Rule>   // the array behind the slice of cached rules
    var live: nat              // the length of that slice
    var queued: seq<Command>

    ghost predicate Valid()
      reads this, backing
    {
      live <= backing.Length
    }

    function Rules(): seq<Rule>
      reads this, backing
      requires Valid()
    {
      backing[..live]
    }

    constructor (family: nat, rules: array<Rule>)
      ensures Valid() && this.family == family && backing == rules && live == rules.Length && queued == []
    {
      this.family := family;
      backing, live, queued := rules, rules.Length, [];
    }

    /** Closes the gap of the first cached rule with this handle, whatever its table, and queues
    the deletion; does nothing when there is none. */
    method DeleteRule(table: string, chain: string, handle: nat)
      requires Valid()
      modifies this`live, this`queued, backing
      ensures Valid()
      ensures var s, i := old(Rules()), FirstWith(old(Rules()), handle);
              if i == |s| then live == old(live) && queued == old(queued) && backing[..] == old(backing[..])
              else && live == old(live) - 1
                   && queued == old(queued) + [DelRule(table, chain, handle)]
                   && Closed(old(backing[..]), old(live), i, backing[..])
    {
      var i := 0;
      while i < live && backing[i].handle != handle
        invariant 0 <= i <= live
        invariant forall j :: 0 <= j < i ==> backing[j].handle != handle
      {
        i := i + 1;
      }
      ghost var s := Rules();
      assert FirstWith(s, handle) == i by {
        var f := FirstWith(s, handle);
        assert f < |s| ==> backing[f].handle == handle;
        assert i < |s| ==> s[i].handle == handle;
      }
      if i < live {
        CloseGap(i);
        queued := queued + [DelRule(table, chain, handle)];
      }
    }

    /** Moves the rules behind position `j` down by one, in place; the last slot keeps its old rule. */
    method CloseGap(j: nat)
      requires Valid() && j < live
      modifies this`live, backing
      ensures live == old(live) - 1 && Closed(old(backing[..]), old(live), j, backing[..])
    {
      ghost var s := Rules();
      var k := j;
      while k + 1 < live
        invariant j <= k < live == old(live) <= backing.Length
        invariant forall x :: j <= x < k ==> backing[x] == s[x + 1]
        invariant forall x :: 0 <= x < j || k <= x < backing.Length ==> backing[x] == old(backing[x])
      {
        backing[k] := backing[k + 1];
        k := k + 1;
      }
      live := live - 1;
      assert backing[..live] == old(backing[..j]) + old(backing[j + 1..live]);
    }

    /** The filters of an iteration, applied to one rule. */
    method Selects(table: string, chain: string, cond: Condition, elem: Rule) returns (chosen: bool)
      requires Solid(cond) && (InChain(family, table, chain, elem) ==> !Panics(cond, elem.exprs))
      ensures chosen == Selector(family, table, chain, cond)(elem)
    {
      hide Recognised, Panics, Solid;
      chosen := false;
      if elem.table == TableId(family, table) && elem.chain == chain {
        chosen := RuleExpr(cond, elem.exprs);
      }
    }

    /** `for elem := range rules-of-the-chain-that-match { DeleteRule(elem.Handle) }`, from a
    position on. */
    method DeleteMatching(table: string, chain: string, cond: Condition, start: nat)
      requires Valid() && start <= live && Solid(cond)
      requires forall r :: r in Rules() && InChain(family, table, chain, r) ==> !Panics(cond, r.exprs)
      modifies this`live, this`queued, backing
      ensures Valid() && Rules() == Remains(old(Rules()), start, Selector(family, table, chain, cond))
      ensures queued == old(queued) + DelCommands(table, chain, Gone(old(Rules()), start, Selector(family, table, chain, cond)))
    {
      hide Maintained, Gone, Remains, Survivors, Deleted, FirstWith, Closed, DelCommands, Recognised, Panics, Solid, Selector;
      ghost var s, m, before := Rules(), Selector(family, table, chain, cond), queued;
      ghost var gone: seq<Rule> := [];
      MaintainedAtStart(s, start, m);
      NoDelCommands(table, chain);
      var n := live;
      var i := start;
      assert backing[..n] == s;
      while i < n
        invariant start <= i <= n == |s| <= backing.Length && live <= n
        invariant Maintained(s, start, m, backing[..n], live, i, gone)
        invariant queued == before + DelCommands(table, chain, gone)
      {
        var elem := backing[i];
        ghost var whole, was := backing[..], live;
        MaintainedElement(s, start, m, whole[..n], live, i, gone);
        var chosen := Selects(table, chain, cond, elem);
        if chosen {
          DeleteRule(table, chain, elem.handle);
          DeleteStep(s, start, m, whole, was, i, gone, backing[..]);
          if live < was {
            ExtendDelCommands(table, chain, gone, elem);
            gone := gone + [elem];
          }
        } else {
          Passes(s, start, m, whole[..n], live, i, gone);
        }
        i := i + 1;
      }
      MaintainedAtEnd(s, start, m, backing[..n], live, gone);
      assert Rules() == backing[..n][..live];
    }
  }

  lemma {:induction false} WithoutAllOld(s: seq<Rule>, gone: seq<Rule>)
    ensures forall r :: r in WithoutAll(s, gone) ==> r in s
  {
    if gone != [] {
      WithoutAllOld(s, gone[..|gone| - 1]);
    }
  }

  lemma RemainsOld(s: seq<Rule>, start: nat, m: Rule -> bool)
    ensures forall r :: r in Remains(s, start, m) ==> r in s
  {
    WithoutAllOld(s, Gone(s, start, m));
  }

  // ----- Where handles do not coincide

  lemma NothingGone(s: seq<Rule>, start: nat, m: Rule -> bool)
    requires start <= |s| && Clean(s[start..], m)
    ensures Gone(s, start, m) == [] && Remains(s, start, m) == s
  {
    hide CountWith;
    NoneDeleted(s, start, m);
    if start < |s| {
      LastInTail(s, start);
    }
  }

  lemma LastInTail(s: seq<Rule>, start: nat)
    requires start < |s|
    ensures s[|s| - 1] in s[start..]
  {
    assert s[start..][|s| - 1 - start] == s[|s| - 1];
  }

  lemma {:induction false} NoneDeleted(s: seq<Rule>, p: nat, m: Rule -> bool)
    requires p <= |s| && Clean(s[p..], m)
    ensures Deleted(s, p, m) == [] && Spare(s, p, m) == 0
    decreases |s| - p
  {
    if p < |s| {
      assert s[p..][0] == s[p] && forall r :: r in s[p + 1..] ==> r in s[p..];
      NoneDeleted(s, p + 1, m);
    }
  }

  lemma OneGone(s: seq<Rule>, start: nat, m: Rule -> bool, k: nat)
    requires OnlyMatch(s, start, m, k)
    ensures Gone(s, start, m) == [s[k]] && Remains(s, start, m) == WithoutFirst(s, s[k].handle)
  {
    hide CountWith, FirstWith;
    OneDeleted(s, start, m, k);
    assert [s[k]][..0] == [];
    assert WithoutAll(s, [s[k]]) == WithoutFirst(WithoutAll(s, []), s[k].handle);
  }

  lemma {:induction false} OneDeleted(s: seq<Rule>, p: nat, m: Rule -> bool, k: nat)
    requires OnlyMatch(s, p, m, k)
    ensures Deleted(s, p, m) == [s[k]] && (k == |s| - 1 ==> Spare(s, p, m) == 0)
    decreases |s| - p
  {
    if p < k {
      OneDeleted(s, p + 1, m, k);
    } else if k + 2 <= |s| {
      forall r | r in s[k + 2..] ensures !m(r) {
        var x :| 0 <= x < |s[k + 2..]| && s[k + 2..][x] == r;
        assert s[k + 2 + x] == r;
      }
      NoneDeleted(s, k + 2, m);
    }
  }

  /** The selected rules from a position on have handles of their own; others may share one with them. */
  predicate SelectedApart(s: seq<Rule>, p: nat, m: Rule -> bool) {
    forall i, j :: p <= i < j < |s| && m(s[i]) && m(s[j]) ==> s[i].handle != s[j].handle
  }

  lemma {:induction false} DeletedAreSelected(s: seq<Rule>, p: nat, m: Rule -> bool)
    requires p <= |s|
    ensures forall r :: r in Deleted(s, p, m) ==> m(r) && r in s[p..]
    ensures p < |s| && m(s[|s| - 1]) ==> Deleted(s, p, m) != [] && Deleted(s, p, m)[|Deleted(s, p, m)| - 1] == s[|s| - 1]
    decreases |s| - p
  {
    if p < |s| {
      assert forall r :: r in s[p..] <==> r == s[p] || r in s[p + 1..] by {
        assert s[p..] == [s[p]] + s[p + 1..];
      }
      if !m(s[p]) {
        DeletedAreSelected(s, p + 1, m);
      } else if p + 2 < |s| {
        assert s[p + 1..] == [s[p + 1]] + s[p + 2..];
        DeletedAreSelected(s, p + 2, m);
      }
    }
  }

  /** The last rule, if it is selected, is deleted in order just once. */
  lemma {:induction false} LastDeletedOnce(s: seq<Rule>, p: nat, m: Rule -> bool)
    requires p < |s| && m(s[|s| - 1]) && SelectedApart(s, p, m)
    ensures CountWith(Deleted(s, p, m), s[|s| - 1].handle) == 1
    decreases |s| - p
  {
    var last := s[|s| - 1];
    Unfold(s, p, m);
    if !m(s[p]) {
      LastDeletedOnce(s, p + 1, m);
    } else if p + 2 < |s| {
      LastDeletedOnce(s, p + 2, m);
      CountConcat([s[p]], Deleted(s, p + 2, m), last.handle);
      CountOne(s[p], last.handle);
    } else if p + 2 == |s| {
      CountConcat([s[p]], [last], last.handle);
      CountOne(s[p], last.handle);
      CountOne(last, last.handle);
      assert [s[p], last] == [s[p]] + [last];
    } else {
      CountOne(last, last.handle);
    }
  }

  /** A deletion is queued twice exactly when the last cached rule is selected, an earlier rule is deleted
  before the iteration gets to it, and another cached rule, of whatever table, has its handle. */
  lemma RepeatsExactly(s: seq<Rule>, start: nat, m: Rule -> bool)
    requires start <= |s| && SelectedApart(s, start, m)
    ensures Again(s, start, m) != [] <==>
              && start < |s| && m(s[|s| - 1]) && Spare(s, start, m) > 0
              && exists x :: 0 <= x < |s| - 1 && s[x].handle == s[|s| - 1].handle
  {
    hide CountWith, Deleted, Spare;
    Exhausted(s, m);
    if start < |s| && m(s[|s| - 1]) {
      var last, n := s[|s| - 1], |s| - 1;
      LastDeletedOnce(s, start, m);
      assert s == s[..n] + [last];
      CountConcat(s[..n], [last], last.handle);
      CountOne(last, last.handle);
      CountZero(s[..n], last.handle);
      assert forall x :: 0 <= x < n ==> s[..n][x] == s[x];
    }
  }

  /** With handles all distinct nothing is queued twice, and the cache keeps the survivors. */
  lemma DistinctSweep(s: seq<Rule>, start: nat, m: Rule -> bool)
    requires start <= |s| && DistinctHandles(s)
    ensures Gone(s, start, m) == Deleted(s, start, m)
    ensures Remains(s, start, m) == s[..start] + Survivors(s, start, m)
  {
    hide CountWith, Deleted, Spare, Survivors, WithoutAll, Again;
    RepeatsExactly(s, start, m);
    assert Deleted(s, start, m) + [] == Deleted(s, start, m);
    assert s == s[..start] + s[start..];
    NoneWithout(s);
    assert [] + Deleted(s, start, m) == Deleted(s, start, m);
    WithoutDeleted(s, start, m, s[..start], []);
  }

  lemma NoneWithout(s: seq<Rule>)
    ensures WithoutAll(s, []) == s
  {
  }

  lemma UnfoldSurvivors(s: seq<Rule>, p: nat, m: Rule -> bool)
    requires p < |s|
    ensures !m(s[p]) ==> Survivors(s, p, m) == [s[p]] + Survivors(s, p + 1, m)
    ensures m(s[p]) && (p + 1 == |s| || (p + 2 == |s| && m(s[p + 1]))) ==> Survivors(s, p, m) == []
    ensures m(s[p]) && p + 2 == |s| && !m(s[p + 1]) ==> Survivors(s, p, m) == [s[p + 1]]
    ensures m(s[p]) && p + 2 < |s| ==> Survivors(s, p, m) == [s[p + 1]] + Survivors(s, p + 2, m)
  {
  }

  lemma {:induction false} WithoutDeleted(s: seq<Rule>, p: nat, m: Rule -> bool, front: seq<Rule>, gone: seq<Rule>)
    requires p <= |s| && WithoutAll(s, gone) == front + s[p..] && DistinctHandles(front + s[p..])
    ensures WithoutAll(s, gone + Deleted(s, p, m)) == front + Survivors(s, p, m)
    decreases |s| - p
  {
    hide FirstWith, DistinctHandles, WithoutAll, Deleted, Survivors;
    if p == |s| {
      NothingLeft(s, m);
      assert gone + [] == gone && front + s[p..] == front + [];
    } else {
      Unfold(s, p, m);
      UnfoldSurvivors(s, p, m);
      assert s[p..] == [s[p]] + s[p + 1..];
      if !m(s[p]) {
        assert front + s[p..] == front + [s[p]] + s[p + 1..];
        WithoutDeleted(s, p + 1, m, front + [s[p]], gone);
        assert front + [s[p]] + Survivors(s, p + 1, m) == front + ([s[p]] + Survivors(s, p + 1, m));
      } else {
        assert front + s[p..] == front + [s[p]] + s[p + 1..];
        WithoutNext(s, gone, front, s[p], s[p + 1..]);
        WithoutSecond(s, p, m, front, gone + [s[p]]);
        assert p + 2 == |s| ==> gone + [s[p]] + [s[p + 1]] == gone + [s[p], s[p + 1]];
        if p + 2 < |s| {
          WithoutDeleted(s, p + 2, m, front + [s[p + 1]], gone + [s[p]]);
          assert gone + [s[p]] + Deleted(s, p + 2, m) == gone + ([s[p]] + Deleted(s, p + 2, m));
          assert front + [s[p + 1]] + Survivors(s, p + 2, m) == front + ([s[p + 1]] + Survivors(s, p + 2, m));
        }
      }
    }
  }

  lemma NothingLeft(s: seq<Rule>, m: Rule -> bool)
    ensures Survivors(s, |s|, m) == [] && Deleted(s, |s|, m) == []
  {
  }

  /** After rule `p` is deleted: the rest, the next rule apart, or the end. */
  lemma WithoutSecond(s: seq<Rule>, p: nat, m: Rule -> bool, front: seq<Rule>, gone: seq<Rule>)
    requires p < |s| && WithoutAll(s, gone) == front + s[p + 1..] && DistinctHandles(front + s[p + 1..])
    ensures p + 1 < |s| ==> front + s[p + 1..] == front + [s[p + 1]] + s[p + 2..]
    ensures p + 1 == |s| ==> WithoutAll(s, gone) == front + []
    ensures p + 2 == |s| ==> WithoutAll(s, gone) == front + [s[p + 1]] && WithoutAll(s, gone + [s[p + 1]]) == front + []
  {
    hide FirstWith, DistinctHandles, WithoutAll;
    if p + 1 < |s| {
      assert s[p + 1..] == [s[p + 1]] + s[p + 2..];
      if p + 2 == |s| {
        assert front + s[p + 1..] == front + [s[p + 1]] + [];
        WithoutNext(s, gone, front, s[p + 1], []);
      }
    }
  }

  lemma WithoutNext(s: seq<Rule>, gone: seq<Rule>, front: seq<Rule>, r: Rule, rest: seq<Rule>)
    requires WithoutAll(s, gone) == front + [r] + rest && DistinctHandles(front + [r] + rest)
    ensures WithoutAll(s, gone + [r]) == front + rest && DistinctHandles(front + rest)
  {
    var all, less := front + [r] + rest, front + rest;
    assert (gone + [r])[..|gone|] == gone;
    assert all[|front|] == r;
    assert FirstWith(all, r.handle) == |front|;
    forall x, y | 0 <= x < y < |less| ensures less[x].handle != less[y].handle {
      assert less[x] == all[if x < |front| then x else x + 1] && less[y] == all[if y < |front| then y else y + 1];
    }
  }
}
