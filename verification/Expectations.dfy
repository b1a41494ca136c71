/** The controller's memory of creates and deletes that its watch has not shown yet. */
module Expectations {
  import opened Options

  datatype Action = Creations | Deletions

  datatype Store = Store(objects: map<Action, set<string>>, firstUnsatisfied: Option<int>)

  type Cache = map<string, Store>

  datatype Pending = Pending(action: Action, name: string)

  function NamesOf(objects: map<Action, set<string>>, action: Action): set<string> {
    if action in objects then objects[action] else {}
  }

  predicate Waiting(objects: map<Action, set<string>>) {
    exists action :: action in objects && objects[action] != {}
  }

  function NamedBy(objects: map<Action, set<string>>, action: Action): (r: set<Pending>)
    ensures forall p :: p in r <==> p.action == action && p.name in NamesOf(objects, action)
  {
    set n | n in NamesOf(objects, action) :: Pending(action, n)
  }

  /** What a key waits for. */
  function PendingFor(c: Cache, key: string): (r: set<Pending>)
    ensures forall p :: p in r <==> key in c && p.name in NamesOf(c[key].objects, p.action)
  {
    if key !in c then {} else NamedBy(c[key].objects, Creations) + NamedBy(c[key].objects, Deletions)
  }

  lemma WaitingIsPending(c: Cache, key: string)
    requires key in c
    ensures Waiting(c[key].objects) <==> PendingFor(c, key) != {}
  {
    if Waiting(c[key].objects) {
      var action :| action in c[key].objects && c[key].objects[action] != {};
      var name :| name in c[key].objects[action];
      assert Pending(action, name) in PendingFor(c, key);
    } else {
      forall p ensures p !in PendingFor(c, key) {
        assert p.action in c[key].objects ==> c[key].objects[p.action] == {};
      }
    }
  }

  /** No store is kept without a pending expectation. */
  predicate NoEmptyStore(c: Cache) {
    forall key :: key in c ==> Waiting(c[key].objects)
  }

  // ----- The operations

  function Expected(c: Cache, key: string, action: Action, name: string): Cache {
    var store := if key in c then c[key] else Store(map[], None);
    c[key := store.(objects := store.objects[action := NamesOf(store.objects, action) + {name}])]
  }

  function Observed(c: Cache, key: string, action: Action, name: string): Cache {
    if key !in c || action !in c[key].objects then c
    else
      var left := c[key].objects[action := c[key].objects[action] - {name}];
      if Waiting(left) then c[key := c[key].(objects := left)] else c - {key}
  }

  datatype Answer = Answer(satisfied: bool, waited: int)

  /** A check at time `now`; the waiting time is measured by a second look at the clock. */
  function Checked(c: Cache, key: string, now: int): Cache {
    if key !in c then c
    else if !Waiting(c[key].objects) then c - {key}
    else if c[key].firstUnsatisfied.Some? then c
    else c[key := c[key].(firstUnsatisfied := Some(now))]
  }

  function AnswerOf(c: Cache, key: string, now: int, later: int): Answer {
    if key in c && Waiting(c[key].objects) then Answer(false, later - Deref(c[key].firstUnsatisfied, now)) else Answer(true, 0)
  }

  method AnyLeft(objects: map<Action, set<string>>) returns (left: bool)
    ensures left <==> Waiting(objects)
  {
    var rest := objects.Keys;
    while rest != {}
      invariant rest <= objects.Keys
      invariant forall action :: action in objects && action !in rest ==> objects[action] == {}
      decreases |rest|
    {
      var action :| action in rest;
      if |objects[action]| > 0 {
        return true;
      }
      rest := rest - {action};
    }
    return false;
  }

  class ControllerExpectations {
    var cache: Cache

    constructor ()
      ensures cache == map[]
    {
      cache := map[];
    }

    method Expect(key: string, action: Action, name: string)
      modifies this
      ensures cache == Expected(old(cache), key, action, name)
    {
      var store := Store(map[], None);
      if key in cache {
        store := cache[key];
      }
      if action !in store.objects {
        assert NamesOf(store.objects, action) + {name} == {name};
        store := store.(objects := store.objects[action := {name}]);
      } else {
        store := store.(objects := store.objects[action := store.objects[action] + {name}]);
      }
      cache := cache[key := store];
    }

    method Observe(key: string, action: Action, name: string)
      modifies this
      ensures cache == Observed(old(cache), key, action, name)
    {
      if key !in cache {
        return;
      }
      var store := cache[key];
      if action in store.objects {
        store := store.(objects := store.objects[action := store.objects[action] - {name}]);
        var left := AnyLeft(store.objects);
        if left {
          cache := cache[key := store];
        } else {
          cache := cache - {key};
        }
      }
    }

    method SatisfiedExpectations(key: string, now: int, later: int) returns (satisfied: bool, waited: int)
      modifies this
      ensures cache == Checked(old(cache), key, now)
      ensures Answer(satisfied, waited) == AnswerOf(old(cache), key, now, later)
    {
      if key !in cache {
        return true, 0;
      }
      var store := cache[key];
      var left := AnyLeft(store.objects);
      if left {
        if store.firstUnsatisfied.None? {
          store := store.(firstUnsatisfied := Some(now));
          cache := cache[key := store];
        }
        return false, later - store.firstUnsatisfied.value;
      }
      cache := cache - {key};
      return true, 0;
    }

    method DeleteExpectations(key: string)
      modifies this
      ensures cache == old(cache) - {key}
    {
      cache := cache - {key};
    }
  }

  // ----- Traces

  datatype Event =
    | Expect(key: string, action: Action, name: string)
    | Observe(key: string, action: Action, name: string)
    | Forget(key: string)
    | Check(key: string, now: int, later: int)

  function Apply(c: Cache, e: Event): Cache {
    match e
    case Expect(key, action, name) => Expected(c, key, action, name)
    case Observe(key, action, name) => Observed(c, key, action, name)
    case Forget(key) => c - {key}
    case Check(key, now, _) => Checked(c, key, now)
  }

  /** The cache after a trace. */
  function After(events: seq<Event>): Cache {
    if events == [] then map[] else Apply(After(events[..|events| - 1]), events[|events| - 1])
  }

  predicate Relevant(e: Event, key: string, p: Pending) {
    match e
    case Expect(k, a, n) => k == key && Pending(a, n) == p
    case Observe(k, a, n) => k == key && Pending(a, n) == p
    case Forget(k) => k == key
    case Check(_, _, _) => false
  }

  /** The last event that bears on an expectation registers it. */
  predicate LastExpects(events: seq<Event>, key: string, p: Pending) {
    if events == [] then false
    else
      var e := events[|events| - 1];
      if Relevant(e, key, p) then e.Expect? else LastExpects(events[..|events| - 1], key, p)
  }

  lemma StepPending(c: Cache, e: Event, key: string, p: Pending)
    ensures p in PendingFor(Apply(c, e), key) <==> if Relevant(e, key, p) then e.Expect? else p in PendingFor(c, key)
  {
    if e.Observe? && key == e.key && key in c && e.action in c[key].objects {
      var left := c[key].objects[e.action := c[key].objects[e.action] - {e.name}];
      if !Waiting(left) {
        assert forall a :: a in left ==> left[a] == {};
        assert p.action in c[key].objects ==> p.action in left;
      }
    }
    if e.Check? && key == e.key && key in c {
      WaitingIsPending(c, key);
    }
  }

  /** An expectation is pending exactly when the last event that bears on it is the one that
  registered it. */
  lemma {:induction false} PendingExactly(events: seq<Event>, key: string, p: Pending)
    ensures p in PendingFor(After(events), key) <==> LastExpects(events, key, p)
  {
    if events != [] {
      var front := events[..|events| - 1];
      PendingExactly(front, key, p);
      StepPending(After(front), events[|events| - 1], key, p);
    }
  }

  lemma {:induction false} NoStoreIsEmpty(events: seq<Event>)
    ensures NoEmptyStore(After(events))
  {
    if events != [] {
      NoStoreIsEmpty(events[..|events| - 1]);
      StepKeepsStores(After(events[..|events| - 1]), events[|events| - 1]);
    }
  }

  lemma StepKeepsStores(c: Cache, e: Event)
    requires NoEmptyStore(c)
    ensures NoEmptyStore(Apply(c, e))
  {
    if e.Expect? {
      var objects := Expected(c, e.key, e.action, e.name)[e.key].objects;
      assert e.action in objects && e.name in objects[e.action];
    }
  }

  /** After any trace a check answers "satisfied" exactly when nothing is pending, and a cached key
  always has something pending. */
  lemma SatisfiedExactly(events: seq<Event>, key: string, now: int, later: int)
    ensures AnswerOf(After(events), key, now, later).satisfied <==> PendingFor(After(events), key) == {}
    ensures key in After(events) <==> PendingFor(After(events), key) != {}
  {
    NoStoreIsEmpty(events);
    if key in After(events) {
      WaitingIsPending(After(events), key);
    }
  }

  /** The key has something pending after every prefix from `i` to `j`. */
  predicate StaysPending(events: seq<Event>, key: string, i: nat, j: nat)
    requires i <= j <= |events|
  {
    forall x :: i <= x <= j ==> PendingFor(After(events[..x]), key) != {}
  }

  lemma FirstKept(c: Cache, e: Event, key: string)
    requires key in c && c[key].firstUnsatisfied.Some? && PendingFor(Apply(c, e), key) != {}
    ensures key in Apply(c, e) && Apply(c, e)[key].firstUnsatisfied == c[key].firstUnsatisfied
  {
  }

  lemma {:induction false} FirstStays(events: seq<Event>, key: string, i: nat, j: nat)
    requires i <= j <= |events| && StaysPending(events, key, i, j)
    requires key in After(events[..i]) && After(events[..i])[key].firstUnsatisfied.Some?
    ensures key in After(events[..j]) && After(events[..j])[key].firstUnsatisfied == After(events[..i])[key].firstUnsatisfied
  {
    hide Apply, PendingFor;
    if i < j {
      FirstStays(events, key, i, j - 1);
      var c, e := After(events[..j - 1]), events[j - 1];
      assert events[..j][..j - 1] == events[..j - 1];
      assert After(events[..j]) == Apply(c, e) && key in c;
      assert PendingFor(After(events[..j]), key) != {};
      FirstKept(c, e, key);
    }
  }

  /** While a key stays pending its waiting time grows exactly as the clock does, so that a clock
  that does not go backwards never makes it shrink. */
  lemma WaitsNeverShrink(events: seq<Event>, key: string, i: nat, j: nat)
    requires i < j < |events| && events[i].Check? && events[j].Check? && events[i].key == events[j].key == key
    requires StaysPending(events, key, i, j)
    ensures var a, b := AnswerOf(After(events[..i]), key, events[i].now, events[i].later), AnswerOf(After(events[..j]), key, events[j].now, events[j].later);
            !a.satisfied && !b.satisfied && b.waited - a.waited == events[j].later - events[i].later
  {
    SatisfiedExactly(events[..i], key, events[i].now, events[i].later);
    SatisfiedExactly(events[..j], key, events[j].now, events[j].later);
    assert events[..i + 1][..i] == events[..i];
    assert After(events[..i + 1]) == Checked(After(events[..i]), key, events[i].now);
    FirstStays(events, key, i + 1, j);
  }

  /** No check of the key among the events from `m` up to `i`. */
  predicate Unchecked(events: seq<Event>, key: string, m: nat, i: nat)
    requires m <= i <= |events|
  {
    forall x :: m <= x < i ==> !(events[x].Check? && events[x].key == key)
  }

  lemma NoFirstYet(c: Cache, e: Event, key: string)
    requires key in c ==> c[key].firstUnsatisfied.None?
    requires !(e.Check? && e.key == key)
    ensures key in Apply(c, e) ==> Apply(c, e)[key].firstUnsatisfied.None?
  {
  }

  lemma {:induction false} NoneChecked(events: seq<Event>, key: string, m: nat, i: nat)
    requires m <= i <= |events| && Unchecked(events, key, m, i) && PendingFor(After(events[..m]), key) == {}
    ensures key in After(events[..i]) ==> After(events[..i])[key].firstUnsatisfied.None?
  {
    hide Apply, PendingFor;
    if i == m {
      NoStoreIsEmpty(events[..m]);
      if key in After(events[..m]) {
        WaitingIsPending(After(events[..m]), key);
      }
    } else {
      NoneChecked(events, key, m, i - 1);
      assert events[..i][..i - 1] == events[..i - 1];
      NoFirstYet(After(events[..i - 1]), events[i - 1], key);
    }
  }

  /** The wait that a check reports: nothing was pending after `m` events, the key stays pending from then on,
  and `i` is the first check of it.  From that check on, every check says how long ago `i` was. */
  lemma WaitsSinceFirstCheck(events: seq<Event>, key: string, m: nat, i: nat, j: nat)
    requires m <= i <= j < |events| && PendingFor(After(events[..m]), key) == {} && m < i && StaysPending(events, key, m + 1, j)
    requires Unchecked(events, key, m, i) && events[i].Check? && events[j].Check? && events[i].key == events[j].key == key
    ensures AnswerOf(After(events[..j]), key, events[j].now, events[j].later) == Answer(false, events[j].later - events[i].now)
  {
    hide After, PendingFor, Unchecked, AnswerOf, Checked;
    SatisfiedExactly(events[..i], key, events[i].now, events[i].later);
    SatisfiedExactly(events[..j], key, events[j].now, events[j].later);
    NoneChecked(events, key, m, i);
    if i == j {
      AnswerWaits(After(events[..i]), key, events[i].now, events[i].later);
    } else {
      CheckFixes(events, key, i);
      FirstStays(events, key, i + 1, j);
      AnswerWaits(After(events[..j]), key, events[j].now, events[j].later);
    }
  }

  lemma AnswerWaits(c: Cache, key: string, now: int, later: int)
    requires key in c && !AnswerOf(c, key, now, later).satisfied
    ensures c[key].firstUnsatisfied.None? ==> AnswerOf(c, key, now, later) == Answer(false, later - now)
    ensures c[key].firstUnsatisfied.Some? ==> AnswerOf(c, key, now, later) == Answer(false, later - c[key].firstUnsatisfied.value)
  {
  }

  lemma CheckFixes(events: seq<Event>, key: string, i: nat)
    requires i < |events| && events[i].Check? && events[i].key == key && key in After(events[..i])
    requires After(events[..i])[key].firstUnsatisfied.None? && PendingFor(After(events[..i]), key) != {}
    ensures key in After(events[..i + 1]) && After(events[..i + 1])[key].firstUnsatisfied == Some(events[i].now)
  {
    hide PendingFor;
    assert events[..i + 1][..i] == events[..i];
    WaitingIsPending(After(events[..i]), key);
  }
}
