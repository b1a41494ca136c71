/** Sorting by an integer rank, the part of `slices.SortFunc` that the program relies on. */
module Sorting {

  predicate SortedBy<T>(s: seq<T>, rank: T -> int) {
    forall i, j :: 0 <= i < j < |s| ==> rank(s[i]) <= rank(s[j])
  }

  predicate InjectiveOn<T(==)>(s: seq<T>, rank: T -> int) {
    forall x, y :: x in s && y in s && rank(x) == rank(y) ==> x == y
  }

  function Insert<T>(x: T, s: seq<T>, rank: T -> int): (r: seq<T>)
    ensures multiset(r) == multiset{x} + multiset(s)
    ensures |r| == |s| + 1
  {
    if s == [] then [x]
    else if rank(x) <= rank(s[0]) then [x] + s
    else
      assert s == [s[0]] + s[1..];
      [s[0]] + Insert(x, s[1..], rank)
  }

  function Sort<T>(s: seq<T>, rank: T -> int): (r: seq<T>)
    ensures multiset(r) == multiset(s)
    ensures |r| == |s|
  {
    if s == [] then []
    else
      assert s == [s[0]] + s[1..];
      Insert(s[0], Sort(s[1..], rank), rank)
  }

  lemma {:induction false} InsertKeepsSorted<T>(x: T, s: seq<T>, rank: T -> int)
    requires SortedBy(s, rank)
    ensures SortedBy(Insert(x, s, rank), rank)
  {
    if s != [] && rank(x) > rank(s[0]) {
      var rest := Insert(x, s[1..], rank);
      InsertKeepsSorted(x, s[1..], rank);
      forall k | 0 <= k < |rest| ensures rank(s[0]) <= rank(rest[k]) {
        assert rest[k] in multiset(rest);
        assert rest[k] == x || rest[k] in s[1..];
      }
    }
  }

  lemma {:induction false} SortSorts<T>(s: seq<T>, rank: T -> int)
    ensures SortedBy(Sort(s, rank), rank)
  {
    if s != [] {
      SortSorts(s[1..], rank);
      InsertKeepsSorted(s[0], Sort(s[1..], rank), rank);
    }
  }

  /** With distinct ranks there is only one sorted arrangement. */
  lemma {:induction false} SortedUnique<T>(a: seq<T>, b: seq<T>, rank: T -> int)
    requires SortedBy(a, rank) && SortedBy(b, rank) && InjectiveOn(a, rank)
    requires multiset(a) == multiset(b)
    ensures a == b
  {
    hide SortedBy, InjectiveOn;
    SameSize(a, b);
    if a != [] {
      SameHead(a, b, rank);
      SameTails(a, b);
      TailSorted(a, rank);
      TailSorted(b, rank);
      SortedUnique(a[1..], b[1..], rank);
      assert a == [a[0]] + a[1..] && b == [b[0]] + b[1..];
    }
  }

  lemma SameSize<T>(a: seq<T>, b: seq<T>)
    requires multiset(a) == multiset(b)
    ensures |a| == |b|
  {
    assert |multiset(a)| == |a| && |multiset(b)| == |b|;
  }

  lemma TailSorted<T>(a: seq<T>, rank: T -> int)
    requires a != [] && SortedBy(a, rank)
    ensures SortedBy(a[1..], rank)
    ensures InjectiveOn(a, rank) ==> InjectiveOn(a[1..], rank)
  {
    assert forall x :: x in a[1..] ==> x in a;
  }

  lemma SameTails<T>(a: seq<T>, b: seq<T>)
    requires a != [] && b != [] && a[0] == b[0] && multiset(a) == multiset(b)
    ensures multiset(a[1..]) == multiset(b[1..])
  {
    TailMultiset(a);
    TailMultiset(b);
  }

  lemma SameHead<T>(a: seq<T>, b: seq<T>, rank: T -> int)
    requires a != [] && b != [] && SortedBy(a, rank) && SortedBy(b, rank) && InjectiveOn(a, rank)
    requires multiset(a) == multiset(b)
    ensures a[0] == b[0]
  {
    HeadIsLeast(a, b, rank);
    HeadIsLeast(b, a, rank);
    assert b[0] in multiset(a);
    assert b[0] in a;
  }

  lemma TailMultiset<T>(a: seq<T>)
    requires a != []
    ensures multiset(a[1..]) == multiset(a) - multiset{a[0]}
  {
    assert a == [a[0]] + a[1..];
  }

  /** The head of one arrangement can be taken out of the other. */
  lemma TakeHead<T>(a: seq<T>, b: seq<T>) returns (j: nat)
    requires a != [] && multiset(a) == multiset(b)
    ensures j < |b| && b == b[..j] + [a[0]] + b[j + 1..]
    ensures multiset(a[1..]) == multiset(b[..j] + b[j + 1..])
  {
    assert a[0] in multiset(b);
    j :| 0 <= j < |b| && b[j] == a[0];
    assert b == b[..j] + [b[j]] + b[j + 1..];
    TailMultiset(a);
  }

  lemma HeadIsLeast<T>(a: seq<T>, b: seq<T>, rank: T -> int)
    requires a != [] && b != [] && SortedBy(a, rank) && multiset(a) == multiset(b)
    ensures rank(a[0]) <= rank(b[0])
  {
    assert b[0] in multiset(a);
    var k :| 0 <= k < |a| && a[k] == b[0];
  }

  /** Sorting forgets the order it started from. */
  lemma SortIgnoresOrder<T>(s: seq<T>, t: seq<T>, rank: T -> int)
    requires multiset(s) == multiset(t) && InjectiveOn(s, rank)
    ensures Sort(s, rank) == Sort(t, rank)
  {
    SortSorts(s, rank);
    SortSorts(t, rank);
    forall x | x in Sort(s, rank) ensures x in s {
      assert x in multiset(s);
    }
    SortedUnique(Sort(s, rank), Sort(t, rank), rank);
  }
}
