/** The vote that picks a table for a hook that has no chain yet.

`mostFrequencyTable` keeps one candidate and a counter.  That finds a majority, not the
most frequent name, whatever the comment above it says.
*/
module TableVote {

  datatype Chain<K> = Chain(table: string, kind: K)

  /** The fallback's own vote, then one vote for the table of each chain of the wanted kind. */
  function Votes<K(==)>(chains: seq<Chain<K>>, kind: K, fallback: string): (votes: seq<string>)
    ensures |votes| > 0
  {
    if chains == [] then [fallback]
    else
      var last := chains[|chains| - 1];
      var before := Votes(chains[..|chains| - 1], kind, fallback);
      if last.kind == kind then before + [last.table] else before
  }

  function Count(votes: seq<string>, name: string): (n: nat) {
    multiset(votes)[name]
  }

  datatype Ballot = Ballot(name: string, count: int)

  /** The candidate and counter after polling the chains in order. */
  function Poll<K(==)>(chains: seq<Chain<K>>, kind: K, fallback: string): Ballot {
    if chains == [] then Ballot(fallback, 1)
    else
      var last := chains[|chains| - 1];
      var b := Poll(chains[..|chains| - 1], kind, fallback);
      if last.kind != kind then b
      else if last.table == b.name then Ballot(b.name, b.count + 1)
      else if b.count - 1 < 0 then Ballot(last.table, 1)
      else Ballot(b.name, b.count - 1)
  }

  method MostFrequencyTable<K(==)>(chains: seq<Chain<K>>, kind: K, fallback: string) returns (name: string)
    ensures name == Poll(chains, kind, fallback).name
  {
    var count: int;
    name, count := fallback, 1;
    var i := 0;
    while i < |chains|
      invariant 0 <= i <= |chains|
      invariant Ballot(name, count) == Poll(chains[..i], kind, fallback)
    {
      var elem := chains[i];
      assert chains[..i + 1][..i] == chains[..i];
      if elem.kind == kind {
        if elem.table == name {
          count := count + 1;
        } else {
          count := count - 1;
          if count < 0 {
            name := elem.table;
            count := 1;
          }
        }
      }
      i := i + 1;
    }
    assert chains[..i] == chains;
  }

  /** A name other than the candidate has `count` votes against it, and the candidate has at
  most `count` votes that are not cancelled by others. */
  lemma {:induction false} Uncancelled<K>(chains: seq<Chain<K>>, kind: K, fallback: string, x: string)
    ensures var votes, b := Votes(chains, kind, fallback), Poll(chains, kind, fallback);
            && b.count >= 0
            && b.name in votes
            && 2 * Count(votes, x) <= |votes| + (if x == b.name then b.count else -b.count)
  {
    if chains != [] {
      Uncancelled(chains[..|chains| - 1], kind, fallback, x);
    }
  }

  /** More than half of all votes, the fallback's included, always wins; and the winner is the
  fallback or the table of a chain of the wanted kind. */
  lemma MajorityWins<K>(chains: seq<Chain<K>>, kind: K, fallback: string, x: string)
    ensures var votes, name := Votes(chains, kind, fallback), Poll(chains, kind, fallback).name;
            && (2 * Count(votes, x) > |votes| ==> name == x)
            && (name == fallback || exists c :: c in chains && c.kind == kind && c.table == name)
  {
    Uncancelled(chains, kind, fallback, x);
    VotersAreChains(chains, kind, fallback, Poll(chains, kind, fallback).name);
  }

  lemma {:induction false} VotersAreChains<K>(chains: seq<Chain<K>>, kind: K, fallback: string, name: string)
    requires name in Votes(chains, kind, fallback)
    ensures name == fallback || exists c :: c in chains && c.kind == kind && c.table == name
  {
    if chains != [] {
      var last := chains[|chains| - 1];
      if last.kind == kind && last.table == name {
        assert last in chains;
      } else {
        VotersAreChains(chains[..|chains| - 1], kind, fallback, name);
      }
    }
  }

  /** Another vote for the winner, and a chain of another kind, change nothing. */
  lemma WinnerStays<K>(chains: seq<Chain<K>>, more: Chain<K>, kind: K, fallback: string)
    requires more.kind == kind ==> more.table == Poll(chains, kind, fallback).name
    ensures Poll(chains + [more], kind, fallback).name == Poll(chains, kind, fallback).name
  {
    assert (chains + [more])[..|chains|] == chains;
  }

  /** The most frequent table need not win, and neither need the fallback: with two chains in
  table A, one in B, one in C and fallback F, the vote returns C. */
  lemma PluralityIsNotFound()
    ensures var chains := [Chain("A", 0), Chain("A", 0), Chain("B", 0), Chain("C", 0)];
            && Poll(chains, 0, "F").name == "C"
            && Count(Votes(chains, 0, "F"), "A") == 2
            && Count(Votes(chains, 0, "F"), "C") == 1
  {
    var a, b, c := Chain("A", 0), Chain("B", 0), Chain("C", 0);
    assert [a, a, b, c][..3] == [a, a, b];
    assert [a, a, b][..2] == [a, a];
    assert [a, a][..1] == [a];
    assert [a][..0] == [];
    assert Poll([a], 0, "F") == Ballot("F", 0);
    assert Poll([a, a], 0, "F") == Ballot("A", 1);
    assert Poll([a, a, b], 0, "F") == Ballot("A", 0);
    assert Votes([a], 0, "F") == ["F", "A"];
    assert Votes([a, a], 0, "F") == ["F", "A", "A"];
    assert Votes([a, a, b, c], 0, "F") == ["F", "A", "A", "B", "C"];
  }
}
