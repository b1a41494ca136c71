/** The endpoint slices behind an ExternalProxy, and their reconciliation.

Each backend becomes a slice of IPv4 and a slice of IPv6 endpoints.  A slice carries the revision of
the resource it was written for, and a slice with the current revision is not written again.
*/
module EndpointSlices {
  import opened Encoding
  import D = PortDiff

  /** What `net.ParseIP` makes of a text; the canonical form is `ip.String()`. */
  datatype Parsed = Invalid | V4(canonical: string) | V6(canonical: string)

  type Parser = string -> Parsed

  datatype Family = IPv4 | IPv6

  datatype Backend = Backend(addresses: seq<string>, ports: seq<D.EndpointPort>)

  datatype Proxy = Proxy(service: string, backends: seq<Backend>, generation: nat)

  datatype Slice = Slice(name: string, family: Family, endpoints: seq<string>, ports: seq<D.EndpointPort>,
                         labels: map<string, string>, annotations: map<string, string>)

  const REVISION := "networking.kertical.com/external-proxy-revision"

  const MANAGED_BY := "endpointslice.kubernetes.io/managed-by"

  const SERVICE_NAME := "kubernetes.io/service-name"

  const CONTROLLER := "kertical"

  // ----- Desired slices

  predicate Belongs(a: Parsed, family: Family) {
    (family == IPv4 && a.V4?) || (family == IPv6 && a.V6?)
  }

  /** The endpoints of one family, in the order of the addresses. */
  function Endpoints(addresses: seq<string>, family: Family, parse: Parser): seq<string> {
    if addresses == [] then []
    else
      var n := |addresses| - 1;
      Endpoints(addresses[..n], family, parse)
      + (if Belongs(parse(addresses[n]), family) then [parse(addresses[n]).canonical] else [])
  }

  function SliceName(p: Proxy, i: nat, family: Family): string {
    p.service + ("-be" + (Decimal(i) + (if family == IPv4 then "v4" else "v6")))
  }

  function Labels(p: Proxy): map<string, string> {
    map[MANAGED_BY := CONTROLLER, SERVICE_NAME := p.service]
  }

  function Revision(p: Proxy): map<string, string> {
    map[REVISION := Decimal(p.generation)]
  }

  function SliceFor(p: Proxy, i: nat, family: Family, parse: Parser): Slice
    requires i < |p.backends|
  {
    Slice(SliceName(p, i, family), family, Endpoints(p.backends[i].addresses, family, parse), p.backends[i].ports, Labels(p), Revision(p))
  }

  function NonEmpty(s: Slice): seq<Slice> {
    if s.endpoints == [] then [] else [s]
  }

  /** The slices wanted for the first `n` backends. */
  function Desired(p: Proxy, n: nat, parse: Parser): seq<Slice>
    requires n <= |p.backends|
  {
    if n == 0 then []
    else Desired(p, n - 1, parse) + NonEmpty(SliceFor(p, n - 1, IPv4, parse)) + NonEmpty(SliceFor(p, n - 1, IPv6, parse))
  }

  function AllDesired(p: Proxy, parse: Parser): seq<Slice> {
    Desired(p, |p.backends|, parse)
  }

  method NewEndpointSliceFromBackend(name: string, backend: Backend, family: Family, parse: Parser) returns (s: Slice)
    ensures s == Slice(name, family, Endpoints(backend.addresses, family, parse), backend.ports, map[], map[])
  {
    var endpoints := [];
    var i := 0;
    while i < |backend.addresses|
      invariant 0 <= i <= |backend.addresses|
      invariant endpoints == Endpoints(backend.addresses[..i], family, parse)
    {
      assert backend.addresses[..i + 1][..i] == backend.addresses[..i];
      var ip := parse(backend.addresses[i]);
      if Belongs(ip, family) {
        endpoints := endpoints + [ip.canonical];
      }
      i := i + 1;
    }
    assert backend.addresses[..i] == backend.addresses;
    s := Slice(name, family, endpoints, backend.ports, map[], map[]);
  }

  /** One slice of one backend, with the labels and the revision of the resource. */
  method NewSlice(p: Proxy, i: nat, family: Family, parse: Parser) returns (s: Slice)
    requires i < |p.backends|
    ensures s == SliceFor(p, i, family, parse)
  {
    s := NewEndpointSliceFromBackend(SliceName(p, i, family), p.backends[i], family, parse);
    s := s.(annotations := Revision(p), labels := Labels(p));
  }

  method NewEndpointSlices(p: Proxy, parse: Parser) returns (res: seq<Slice>)
    ensures res == AllDesired(p, parse) == AllSlices(p, 0, parse)
  {
    hide SliceFor, AllSlices;
    DesiredExactly(p, parse);
    res := [];
    var i := 0;
    while i < |p.backends|
      invariant 0 <= i <= |p.backends|
      invariant res == Desired(p, i, parse)
    {
      var v4 := NewSlice(p, i, IPv4, parse);
      var v6 := NewSlice(p, i, IPv6, parse);
      ghost var before := res;
      if |v4.endpoints| != 0 {
        res := res + [v4];
      }
      assert res == before + NonEmpty(v4);
      if |v6.endpoints| != 0 {
        res := res + [v6];
      }
      assert res == before + NonEmpty(v4) + NonEmpty(v6);
      i := i + 1;
    }
  }

  // ----- What the slices say

  /** The canonical forms of the addresses that parse as IPv4, in order. */
  function V4s(addresses: seq<string>, parse: Parser): seq<string> {
    if addresses == [] then []
    else (match parse(addresses[0]) case V4(text) => [text] case _ => []) + V4s(addresses[1..], parse)
  }

  /** Those of the addresses that parse as IPv6. */
  function V6s(addresses: seq<string>, parse: Parser): seq<string> {
    if addresses == [] then []
    else (match parse(addresses[0]) case V6(text) => [text] case _ => []) + V6s(addresses[1..], parse)
  }

  function Labelled(name: string, family: Family, endpoints: seq<string>, ports: seq<D.EndpointPort>, p: Proxy): Slice {
    Slice(name, family, endpoints, ports,
          map["endpointslice.kubernetes.io/managed-by" := "kertical", "kubernetes.io/service-name" := p.service],
          map["networking.kertical.com/external-proxy-revision" := Decimal(p.generation)])
  }

  /** A slice for the IPv4 addresses of backend `i` if it has any, then one for its IPv6 addresses if it has any. */
  function SlicesOf(p: Proxy, i: nat, parse: Parser): seq<Slice>
    requires i < |p.backends|
  {
    var b, name := p.backends[i], p.service + ("-be" + Decimal(i));
    var v4, v6 := V4s(b.addresses, parse), V6s(b.addresses, parse);
    (if v4 == [] then [] else [Labelled(name + "v4", IPv4, v4, b.ports, p)])
    + (if v6 == [] then [] else [Labelled(name + "v6", IPv6, v6, b.ports, p)])
  }

  /** Backend by backend. */
  function AllSlices(p: Proxy, i: nat, parse: Parser): seq<Slice>
    requires i <= |p.backends|
    decreases |p.backends| - i
  {
    if i == |p.backends| then [] else SlicesOf(p, i, parse) + AllSlices(p, i + 1, parse)
  }

  lemma {:induction false} EndpointsFront(addresses: seq<string>, family: Family, parse: Parser)
    requires addresses != []
    ensures Endpoints(addresses, family, parse)
              == (if Belongs(parse(addresses[0]), family) then [parse(addresses[0]).canonical] else []) + Endpoints(addresses[1..], family, parse)
  {
    var n := |addresses| - 1;
    if n > 0 {
      EndpointsFront(addresses[..n], family, parse);
      assert addresses[..n][1..] == addresses[1..][..n - 1] && addresses[1..][n - 1] == addresses[n];
    } else {
      assert addresses[..0] == [] && addresses[1..] == [];
    }
  }

  lemma {:induction false} FamiliesListed(addresses: seq<string>, parse: Parser)
    ensures Endpoints(addresses, IPv4, parse) == V4s(addresses, parse) && Endpoints(addresses, IPv6, parse) == V6s(addresses, parse)
  {
    if addresses != [] {
      EndpointsFront(addresses, IPv4, parse);
      EndpointsFront(addresses, IPv6, parse);
      FamiliesListed(addresses[1..], parse);
    }
  }

  lemma SlicesListed(p: Proxy, i: nat, parse: Parser)
    requires i < |p.backends|
    ensures NonEmpty(SliceFor(p, i, IPv4, parse)) + NonEmpty(SliceFor(p, i, IPv6, parse)) == SlicesOf(p, i, parse)
  {
    hide Endpoints, V4s, V6s, Decimal;
    FamiliesListed(p.backends[i].addresses, parse);
    var number := Decimal(i);
    assert "-be" + number + "v4" == "-be" + (number + "v4") && "-be" + number + "v6" == "-be" + (number + "v6");
    assert p.service + ("-be" + number) + "v4" == p.service + ("-be" + number + "v4");
    assert p.service + ("-be" + number) + "v6" == p.service + ("-be" + number + "v6");
  }

  lemma {:induction false} DesiredSpelled(p: Proxy, i: nat, parse: Parser)
    requires i <= |p.backends|
    ensures AllDesired(p, parse) == Desired(p, i, parse) + AllSlices(p, i, parse)
    decreases |p.backends| - i
  {
    hide SliceFor, SlicesOf, NonEmpty;
    if i < |p.backends| {
      DesiredSpelled(p, i + 1, parse);
      SlicesListed(p, i, parse);
      var v4, v6 := NonEmpty(SliceFor(p, i, IPv4, parse)), NonEmpty(SliceFor(p, i, IPv6, parse));
      assert Desired(p, i, parse) + v4 + v6 == Desired(p, i, parse) + (v4 + v6);
    }
  }

  /** The desired slices: for each backend in order one for the addresses that parse as IPv4 and one for those
  that parse as IPv6, each exactly if there are any, with the backend's ports. */
  lemma DesiredExactly(p: Proxy, parse: Parser)
    ensures AllDesired(p, parse) == AllSlices(p, 0, parse)
  {
    hide Desired, AllSlices;
    DesiredSpelled(p, 0, parse);
    NothingDesired(p, parse);
  }

  lemma NothingDesired(p: Proxy, parse: Parser)
    ensures Desired(p, 0, parse) == []
  {
  }

  // ----- The split of the addresses

  function Valid(addresses: seq<string>, parse: Parser): seq<string> {
    if addresses == [] then []
    else
      var n := |addresses| - 1;
      Valid(addresses[..n], parse) + (if parse(addresses[n]).Invalid? then [] else [parse(addresses[n]).canonical])
  }

  /** Every valid address is an endpoint of exactly one of the two families, an invalid one of none. */
  lemma {:induction false} FamiliesSplit(addresses: seq<string>, parse: Parser)
    ensures multiset(Endpoints(addresses, IPv4, parse)) + multiset(Endpoints(addresses, IPv6, parse)) == multiset(Valid(addresses, parse))
  {
    if addresses != [] {
      FamiliesSplit(addresses[..|addresses| - 1], parse);
    }
  }

  // ----- Names

  lemma NamesDiffer(p: Proxy, i: nat, f: Family, j: nat, g: Family)
    requires SliceName(p, i, f) == SliceName(p, j, g)
    ensures i == j && f == g
  {
    var a, b := "v4", "v6";
    var s, t := if f == IPv4 then a else b, if g == IPv4 then a else b;
    var x, y := "-be" + (Decimal(i) + s), "-be" + (Decimal(j) + t);
    SuffixSame(p.service, x, y);
    SuffixSame("-be", Decimal(i) + s, Decimal(j) + t);
    NumeralPrefixInjective(i, j, s, t);
    assert a[1] != b[1];
  }

  lemma SuffixSame(a: string, x: string, y: string)
    requires a + x == a + y
    ensures x == y
  {
    assert (a + x)[|a|..] == x && (a + y)[|a|..] == y;
  }

  predicate DistinctNames(slices: seq<Slice>) {
    forall i, j :: 0 <= i < j < |slices| ==> slices[i].name != slices[j].name
  }

  lemma {:induction false} DesiredNamed(p: Proxy, n: nat, parse: Parser)
    requires n <= |p.backends|
    ensures forall s :: s in Desired(p, n, parse) ==> exists i: nat, f :: i < n && s == SliceFor(p, i, f, parse)
  {
    hide SliceFor;
    if n > 0 {
      DesiredNamed(p, n - 1, parse);
      forall s | s in Desired(p, n, parse) ensures exists i: nat, f :: i < n && s == SliceFor(p, i, f, parse) {
        if s in Desired(p, n - 1, parse) {
          var i: nat, f :| i < n - 1 && s == SliceFor(p, i, f, parse);
        } else {
          assert s == SliceFor(p, n - 1, IPv4, parse) || s == SliceFor(p, n - 1, IPv6, parse);
        }
      }
    }
  }

  lemma AddedDistinct(slices: seq<Slice>, s: Slice)
    requires DistinctNames(slices) && forall x :: x in slices ==> x.name != s.name
    ensures DistinctNames(slices + NonEmpty(s))
    ensures forall x :: x in slices + NonEmpty(s) ==> x in slices || x == s
  {
  }

  /** The names of the desired slices are pairwise distinct, whatever the service is called. */
  lemma {:induction false} DesiredNamesDistinct(p: Proxy, n: nat, parse: Parser)
    requires n <= |p.backends|
    ensures DistinctNames(Desired(p, n, parse))
  {
    hide SliceFor, SliceName, DistinctNames, NonEmpty;
    if n == 0 {
      assert Desired(p, 0, parse) == [];
      NothingDistinct();
    } else {
      DesiredNamesDistinct(p, n - 1, parse);
      var before := Desired(p, n - 1, parse);
      var v4, v6 := SliceFor(p, n - 1, IPv4, parse), SliceFor(p, n - 1, IPv6, parse);
      NamesOf(p, n - 1, parse);
      forall s | s in before ensures s.name != v4.name && s.name != v6.name {
        EarlierNamed(p, n - 1, parse, s);
      }
      if v4.name == v6.name {
        NamesDiffer(p, n - 1, IPv4, n - 1, IPv6);
      }
      AddedDistinct(before, v4);
      AddedDistinct(before + NonEmpty(v4), v6);
    }
  }

  lemma EarlierNamed(p: Proxy, n: nat, parse: Parser, s: Slice)
    requires n < |p.backends| && s in Desired(p, n, parse)
    ensures forall f :: s.name != SliceFor(p, n, f, parse).name
  {
    hide SliceFor, SliceName, Desired;
    DesiredNamed(p, n, parse);
    var i: nat, g :| i < n && s == SliceFor(p, i, g, parse);
    NamesOf(p, i, parse);
    NamesOf(p, n, parse);
    forall f | s.name == SliceFor(p, n, f, parse).name ensures false {
      NamesDiffer(p, i, g, n, f);
    }
  }

  lemma NothingDistinct()
    ensures DistinctNames([])
  {
  }

  lemma NamesOf(p: Proxy, i: nat, parse: Parser)
    requires i < |p.backends|
    ensures forall f :: SliceFor(p, i, f, parse).name == SliceName(p, i, f)
  {
  }

  // ----- Reconciling

  type Owned = map<string, Slice>

  predicate UpToDate(p: Proxy, s: Slice) {
    REVISION in s.annotations && s.annotations[REVISION] == Decimal(p.generation)
  }

  /** An existing slice overwritten with the desired state; labels and annotations of others stay. */
  function Merged(old_: Slice, d: Slice): Slice {
    Slice(old_.name, d.family, d.endpoints, d.ports, old_.labels + d.labels, old_.annotations + d.annotations)
  }

  /** A slice says what is wanted: the same endpoints and ports, and at least the wanted labels. */
  predicate Says(s: Slice, d: Slice) {
    && s.name == d.name && s.family == d.family && s.endpoints == d.endpoints && s.ports == d.ports
    && forall k :: k in d.labels ==> k in s.labels && s.labels[k] == d.labels[k]
  }

  predicate Keyed(api: Owned) {
    forall name :: name in api ==> api[name].name == name
  }

  /** What one desired slice becomes. */
  function Target(p: Proxy, old_: Owned, d: Slice): Slice {
    if d.name !in old_ then d else if UpToDate(p, old_[d.name]) then old_[d.name] else Merged(old_[d.name], d)
  }

  /** The state after the first `n` desired slices are written. */
  function Written(p: Proxy, old_: Owned, ds: seq<Slice>, n: nat): Owned
    requires n <= |ds|
  {
    if n == 0 then old_ else Written(p, old_, ds, n - 1)[ds[n - 1].name := Target(p, old_, ds[n - 1])]
  }

  function Names(ds: seq<Slice>): set<string> {
    set d | d in ds :: d.name
  }

  predicate AlreadyDone(p: Proxy, old_: Owned, d: Slice) {
    d.name in old_ && UpToDate(p, old_[d.name])
  }

  /** The number of writes the first `n` desired slices take. */
  function Writes(p: Proxy, old_: Owned, ds: seq<Slice>, n: nat): nat
    requires n <= |ds|
  {
    if n == 0 then 0 else Writes(p, old_, ds, n - 1) + (if AlreadyDone(p, old_, ds[n - 1]) then 0 else 1)
  }

  /** What a reconciliation that fails on the way may leave behind. */
  ghost predicate Interrupted(p: Proxy, old_: Owned, ds: seq<Slice>, now: Owned) {
    exists n: nat, gone :: n <= |ds| && gone <= old_.Keys - Names(ds) && now == Written(p, old_, ds, n) - gone
  }

  lemma InterruptedAt(p: Proxy, old_: Owned, ds: seq<Slice>, n: nat, gone: set<string>)
    requires n <= |ds| && gone <= old_.Keys - Names(ds)
    ensures Interrupted(p, old_, ds, Written(p, old_, ds, n) - gone)
  {
  }

  lemma NoNames(ds: seq<Slice>)
    ensures Names(ds[..0]) == {}
  {
  }

  class Api {
    var slices: Owned

    constructor (slices: Owned)
      ensures this.slices == slices
    {
      this.slices := slices;
    }

    /** Writes one desired slice, if it has to be written. */
    method WriteOne(p: Proxy, owned: Owned, d: Slice, found: bool, works: nat -> bool, start: nat) returns (failed: bool, writes: nat)
      requires found == (d.name in owned) && (found ==> d.name in slices && slices[d.name] == owned[d.name])
      modifies this
      ensures !failed ==> slices == old(slices)[d.name := Target(p, owned, d)] && writes == start + (if AlreadyDone(p, owned, d) then 0 else 1)
      ensures failed ==> slices == old(slices) && !works(start)
    {
      failed, writes := false, start;
      if found {
        if !UpToDate(p, owned[d.name]) {
          if !works(writes) {
            failed := true;
            return;
          }
          slices := slices[d.name := Merged(owned[d.name], d)];
          writes := writes + 1;
        }
      } else {
        if !works(writes) {
          failed := true;
          return;
        }
        slices := slices[d.name := d];
        writes := writes + 1;
      }
    }

    /** One reconciliation on an up-to-date list of the owned slices; `works` tells whether the next
    write succeeds.  Slices that are not wanted are deleted in no particular order. */
    method SyncEndpointSlices(p: Proxy, parse: Parser, works: nat -> bool) returns (failed: bool, writes: nat)
      modifies this
      ensures var ds, old_ := AllDesired(p, parse), old(slices);
              && (!failed ==> slices == Written(p, old_, ds, |ds|) - (old_.Keys - Names(ds)))
              && (!failed ==> writes == Writes(p, old_, ds, |ds|) + |old_.Keys - Names(ds)|)
              && (failed ==> Interrupted(p, old_, ds, slices))
      ensures failed ==> exists i: nat :: !works(i)
    {
      hide SliceFor, Target, Endpoints, AlreadyDone, Desired, Names, AllSlices, UpToDate, Merged;
      var owned := slices;
      var left := slices.Keys;
      writes := 0;
      var ds := NewEndpointSlices(p, parse);
      DesiredNamesDistinct(p, |p.backends|, parse);
      NoNames(ds);
      var i := 0;
      while i < |ds|
        invariant 0 <= i <= |ds|
        invariant slices == Written(p, owned, ds, i) && left == owned.Keys - Names(ds[..i]) && writes == Writes(p, owned, ds, i)
      {
        NotYetWritten(p, owned, ds, i);
        var found := ds[i].name in left;
        left := left - {ds[i].name};
        failed, writes := WriteOne(p, owned, ds[i], found, works, writes);
        if failed {
          InterruptedAt(p, owned, ds, i, {});
          NothingGone(slices);
          return;
        }
        i := i + 1;
      }
      assert ds[..i] == ds;
      failed, writes := DeleteLeft(left, works, writes);
    }

    method DeleteLeft(names: set<string>, works: nat -> bool, start: nat) returns (failed: bool, writes: nat)
      modifies this
      ensures !failed ==> slices == old(slices) - names && writes == start + |names|
      ensures failed ==> exists gone :: gone <= names && slices == old(slices) - gone
      ensures failed ==> exists i: nat :: !works(i)
    {
      var left := names;
      writes := start;
      NothingGone(slices);
      while left != {}
        invariant left <= names && slices == old(slices) - (names - left)
        invariant writes + |left| == start + |names|
        decreases |left|
      {
        var name :| name in left;
        if !works(writes) {
          failed := true;
          assert names - left <= names;
          return;
        }
        slices := slices - {name};
        left := left - {name};
        writes := writes + 1;
      }
      failed := false;
    }
  }

  lemma NothingGone(api: Owned)
    ensures api - {} == api
  {
  }

  lemma {:induction false} WrittenElsewhere(p: Proxy, old_: Owned, ds: seq<Slice>, n: nat, name: string)
    requires n <= |ds| && forall i :: 0 <= i < n ==> ds[i].name != name
    ensures (name in Written(p, old_, ds, n) <==> name in old_) && (name in old_ ==> Written(p, old_, ds, n)[name] == old_[name])
  {
    hide Target;
    if n > 0 {
      WrittenElsewhere(p, old_, ds, n - 1, name);
    }
  }

  lemma NotYetWritten(p: Proxy, old_: Owned, ds: seq<Slice>, i: nat)
    requires i < |ds| && DistinctNames(ds)
    ensures var name := ds[i].name;
            && name !in Names(ds[..i]) && Names(ds[..i + 1]) == Names(ds[..i]) + {name}
            && (name in Written(p, old_, ds, i) <==> name in old_) && (name in old_ ==> Written(p, old_, ds, i)[name] == old_[name])
  {
    WrittenElsewhere(p, old_, ds, i, ds[i].name);
    assert ds[..i + 1] == ds[..i] + [ds[i]];
  }

  // ----- Convergence

  /** Every generation the resource ever had. */
  type History = nat -> Proxy

  predicate Wanted(p: Proxy, parse: Parser, s: Slice, d: Slice) {
    d in AllDesired(p, parse) && d.name == s.name && Says(s, d)
  }

  /** A slice that carries the revision of a generation says what that generation wanted. */
  ghost predicate Sound(api: Owned, past: History, parse: Parser) {
    && Keyed(api)
    && forall name, g: nat :: name in api && Carries(api[name], g) ==> Backed(api[name], past(g), parse)
  }

  ghost predicate Backed(s: Slice, p: Proxy, parse: Parser) {
    exists d :: Wanted(p, parse, s, d)
  }

  predicate Carries(s: Slice, g: nat) {
    REVISION in s.annotations && s.annotations[REVISION] == Decimal(g)
  }

  lemma {:induction false} DesiredCarry(p: Proxy, n: nat, parse: Parser)
    requires n <= |p.backends|
    ensures forall d :: d in Desired(p, n, parse) ==> Carries(d, p.generation)
  {
    hide Endpoints;
    if n > 0 {
      DesiredCarry(p, n - 1, parse);
    }
  }

  lemma SameName(ds: seq<Slice>, a: Slice, b: Slice)
    requires DistinctNames(ds) && a in ds && b in ds && a.name == b.name
    ensures a == b
  {
  }

  /** A slice that is not written again says what is wanted already. */
  lemma SkippingIsSound(api: Owned, past: History, parse: Parser, p: Proxy, d: Slice)
    requires Sound(api, past, parse) && past(p.generation) == p && d in AllDesired(p, parse) && AlreadyDone(p, api, d)
    ensures Says(api[d.name], d)
  {
    hide Desired;
    assert Carries(api[d.name], p.generation);
    var d' :| Wanted(p, parse, api[d.name], d');
    DesiredNamesDistinct(p, |p.backends|, parse);
    SameName(AllDesired(p, parse), d, d');
  }

  lemma TargetSays(api: Owned, past: History, parse: Parser, p: Proxy, d: Slice)
    requires Sound(api, past, parse) && past(p.generation) == p && d in AllDesired(p, parse)
    ensures Says(Target(p, api, d), d) && UpToDate(p, Target(p, api, d)) && Target(p, api, d).name == d.name
    ensures forall g: nat :: Carries(Target(p, api, d), g) ==> g == p.generation
  {
    hide Desired;
    DesiredCarry(p, |p.backends|, parse);
    if AlreadyDone(p, api, d) {
      SkippingIsSound(api, past, parse, p, d);
    }
    forall g: nat | Carries(Target(p, api, d), g) ensures g == p.generation {
      DecimalInjective(g, p.generation);
    }
  }

  lemma {:induction false} WrittenSound(api: Owned, past: History, parse: Parser, p: Proxy, n: nat)
    requires Sound(api, past, parse) && past(p.generation) == p && n <= |AllDesired(p, parse)|
    ensures Sound(Written(p, api, AllDesired(p, parse), n), past, parse)
  {
    hide Desired, Target, Says, Carries;
    var ds := AllDesired(p, parse);
    if n > 0 {
      WrittenSound(api, past, parse, p, n - 1);
      var before, d := Written(p, api, ds, n - 1), ds[n - 1];
      var after := before[d.name := Target(p, api, d)];
      TargetSays(api, past, parse, p, d);
      assert Backed(after[d.name], p, parse) by {
        assert Wanted(p, parse, after[d.name], d);
      }
      forall name, g: nat | name in after && Carries(after[name], g) ensures Backed(after[name], past(g), parse) {
        if name == d.name {
          assert Carries(Target(p, api, d), g);
        }
      }
    }
  }

  /** Whether a reconciliation succeeds or stops at any point: afterwards every slice still says what
  its revision stands for. */
  lemma ReconcilingKeepsSound(api: Owned, past: History, parse: Parser, p: Proxy, now: Owned)
    requires Sound(api, past, parse) && past(p.generation) == p
    requires var ds := AllDesired(p, parse); Interrupted(p, api, ds, now) || now == Written(p, api, ds, |ds|) - (api.Keys - Names(ds))
    ensures Sound(now, past, parse)
  {
    hide Desired, Written, Names, Carries;
    var ds := AllDesired(p, parse);
    if Interrupted(p, api, ds, now) {
      var n: nat, gone :| n <= |ds| && gone <= api.Keys - Names(ds) && now == Written(p, api, ds, n) - gone;
      WrittenSound(api, past, parse, p, n);
      FewerSound(Written(p, api, ds, n), past, parse, gone);
    } else {
      WrittenSound(api, past, parse, p, |ds|);
      FewerSound(Written(p, api, ds, |ds|), past, parse, api.Keys - Names(ds));
    }
  }

  lemma FewerSound(api: Owned, past: History, parse: Parser, gone: set<string>)
    requires Sound(api, past, parse)
    ensures Sound(api - gone, past, parse)
  {
    hide Backed, Carries;
    assert forall name :: name in api - gone ==> name in api && (api - gone)[name] == api[name];
  }

  lemma {:induction false} WrittenThere(p: Proxy, old_: Owned, ds: seq<Slice>, n: nat)
    requires n <= |ds| && DistinctNames(ds)
    ensures Written(p, old_, ds, n).Keys == old_.Keys + Names(ds[..n])
    ensures forall i :: 0 <= i < n ==> Written(p, old_, ds, n)[ds[i].name] == Target(p, old_, ds[i])
  {
    hide Target, Names;
    if n == 0 {
      NoNames(ds);
    } else {
      WrittenThere(p, old_, ds, n - 1);
      NotYetWritten(p, old_, ds, n - 1);
    }
  }

  /** The state a run of successful writes ends in. */
  function Converged(p: Proxy, api: Owned, parse: Parser): Owned {
    var ds := AllDesired(p, parse);
    Written(p, api, ds, |ds|) - (api.Keys - Names(ds))
  }

  /** A run of successful writes makes the owned slices exactly the desired ones. */
  lemma SlicesConverge(api: Owned, past: History, parse: Parser, p: Proxy)
    requires Sound(api, past, parse) && past(p.generation) == p
    ensures var now, ds := Converged(p, api, parse), AllDesired(p, parse);
            && now.Keys == Names(ds)
            && forall d :: d in ds ==> d.name in now && Says(now[d.name], d) && UpToDate(p, now[d.name]) && KeepsOthers(api, d, now[d.name])
  {
    hide Desired, Target, Written, KeepsOthers;
    var now, ds := Converged(p, api, parse), AllDesired(p, parse);
    DesiredNamesDistinct(p, |p.backends|, parse);
    WrittenThere(p, api, ds, |ds|);
    assert ds[..|ds|] == ds;
    forall d | d in ds ensures d.name in now && Says(now[d.name], d) && UpToDate(p, now[d.name]) && KeepsOthers(api, d, now[d.name]) {
      var i :| 0 <= i < |ds| && ds[i] == d;
      TargetSays(api, past, parse, p, d);
      TargetKeeps(p, api, d);
    }
  }

  /** A slice that was not there is the desired one; one that was there keeps the labels and annotations that
  are not the controller's. */
  predicate KeepsOthers(api: Owned, d: Slice, s: Slice) {
    if d.name !in api then s == d
    else
      && (forall k :: k in api[d.name].labels && k !in d.labels ==> k in s.labels && s.labels[k] == api[d.name].labels[k])
      && forall k :: k in api[d.name].annotations && k !in d.annotations ==> k in s.annotations && s.annotations[k] == api[d.name].annotations[k]
  }

  lemma TargetKeeps(p: Proxy, api: Owned, d: Slice)
    ensures KeepsOthers(api, d, Target(p, api, d))
  {
  }

  lemma {:induction false} NoWrites(p: Proxy, api: Owned, ds: seq<Slice>, n: nat)
    requires n <= |ds| && forall d :: d in ds ==> AlreadyDone(p, api, d)
    ensures Writes(p, api, ds, n) == 0 && Written(p, api, ds, n) == api
  {
    if n > 0 {
      NoWrites(p, api, ds, n - 1);
      assert ds[n - 1] in ds;
      assert api[ds[n - 1].name := api[ds[n - 1].name]] == api;
    }
  }

  /** An immediate second run writes and deletes nothing. */
  lemma SecondRunWritesNothing(api: Owned, past: History, parse: Parser, p: Proxy)
    requires Sound(api, past, parse) && past(p.generation) == p
    ensures var now, ds := Converged(p, api, parse), AllDesired(p, parse);
            Writes(p, now, ds, |ds|) + |now.Keys - Names(ds)| == 0 && Converged(p, now, parse) == now
  {
    hide Desired, Target, Written, Writes;
    var now, ds := Converged(p, api, parse), AllDesired(p, parse);
    SlicesConverge(api, past, parse, p);
    NoWrites(p, now, ds, |ds|);
    assert now.Keys - Names(ds) == {};
    NothingGone(now);
  }
}
