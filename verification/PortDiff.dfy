/** What a node has to forward for one resource, and the difference to what it recorded.

The specification goes by position: it says for every spec port whether it becomes an addition, stays
unchanged or is an error, without the map that the code empties on the way.
*/
module PortDiff {
  import opened Options
  import opened Searching
  import S = Sorting

  type int32 = n: int | -0x8000_0000 <= n < 0x8000_0000

  datatype Protocol = TCP | UDP | NoProtocol | OtherProtocol(name: string)

  datatype IntOrString = FromInt(value: int32) | FromString(text: string) {
    function IntVal(): int32 { if FromInt? then value else 0 }
    function StrVal(): string { if FromString? then text else "" }
  }

  datatype ServicePort = ServicePort(name: string, protocol: Protocol, port: int32, targetPort: IntOrString)
  datatype Service = Service(clusterIP: string, ports: seq<ServicePort>)
  datatype EndpointPort = EndpointPort(name: Option<string>, protocol: Option<Protocol>, port: Option<int32>)
  datatype Endpoint = Endpoint(ready: Option<bool>, addresses: seq<string>)
  datatype EndpointSlice = EndpointSlice(ports: seq<EndpointPort>, endpoints: seq<Endpoint>)
  datatype PortSpec = PortSpec(target: IntOrString, hostPort: Option<int32>)

  datatype State = Ready | Conflict | Rejected | Residual | Failed | Unknown | NoTarget

  datatype ForwardedPort = ForwardedPort(protocol: Protocol, sourcePort: IntOrString, targetHosts: seq<string>, targetPort: int32, state: State)

  datatype NodeStatus = NodeStatus(node: string, ports: seq<ForwardedPort>)

  const NONE := "None"  // the cluster IP of a headless service

  // ----- Resolving a target

  predicate EndpointPortMatches(p: EndpointPort, target: IntOrString) {
    Deref(p.name, "") == target.StrVal() || Deref(p.port, 0) == target.IntVal()
  }

  predicate ServicePortMatches(p: ServicePort, target: IntOrString) {
    p.port == target.IntVal() || p.name == target.StrVal()
  }

  function SlicePort(slice: EndpointSlice, target: IntOrString): Option<EndpointPort> {
    if |slice.ports| == 1 then Some(slice.ports[0])
    else
      var i := First(slice.ports, (p: EndpointPort) => EndpointPortMatches(p, target));
      if i < |slice.ports| then Some(slice.ports[i]) else None
  }

  /** The port of the first slice that offers one. */
  function EndpointPortFor(target: IntOrString, slices: seq<EndpointSlice>): Option<EndpointPort> {
    var i := First(slices, (s: EndpointSlice) => SlicePort(s, target).Some?);
    if i < |slices| then SlicePort(slices[i], target) else None
  }

  /** The service port behind a target: the first match, for a headless service replaced by the
  endpoint port it leads to. */
  function ServicePortFor(svc: Service, target: IntOrString, slices: seq<EndpointSlice>): Option<ServicePort> {
    var i := First(svc.ports, (p: ServicePort) => ServicePortMatches(p, target));
    if i == |svc.ports| then None
    else if svc.clusterIP != NONE then Some(svc.ports[i])
    else
      var e := EndpointPortFor(svc.ports[i].targetPort, slices);
      if e.None? then None
      else Some(ServicePort(Deref(e.value.name, ""), Deref(e.value.protocol, TCP), Deref(e.value.port, 0), FromInt(0)))
  }

  method FindEndpointSlicePort(target: IntOrString, slices: seq<EndpointSlice>) returns (r: Option<EndpointPort>)
    ensures r == EndpointPortFor(target, slices)
    ensures r.Some? <==> exists i: nat, j: nat :: FirstOffer(slices, target, i, j)
    ensures forall i: nat, j: nat :: FirstOffer(slices, target, i, j) ==> j < |slices[i].ports| && r == Some(slices[i].ports[j])
  {
    hide FirstOffer;
    var i := 0;
    while i < |slices|
      invariant 0 <= i <= |slices|
      invariant forall x :: 0 <= x < i ==> SlicePort(slices[x], target).None?
    {
      var ports := slices[i].ports;
      if |ports| == 1 {
        FirstIs(slices, (s: EndpointSlice) => SlicePort(s, target).Some?, i);
        FirstOffers(slices, target);
        return Some(ports[0]);
      }
      var j := 0;
      while j < |ports|
        invariant 0 <= j <= |ports|
        invariant forall y :: 0 <= y < j ==> !EndpointPortMatches(ports[y], target)
      {
        if Deref(ports[j].name, "") == target.StrVal() || Deref(ports[j].port, 0) == target.IntVal() {
          FirstIs(ports, (p: EndpointPort) => EndpointPortMatches(p, target), j);
          FirstIs(slices, (s: EndpointSlice) => SlicePort(s, target).Some?, i);
          FirstOffers(slices, target);
          return Some(ports[j]);
        }
        j := j + 1;
      }
      FirstIs(ports, (p: EndpointPort) => EndpointPortMatches(p, target), j);
      i := i + 1;
    }
    FirstIs(slices, (s: EndpointSlice) => SlicePort(s, target).Some?, i);
    FirstOffers(slices, target);
    return None;
  }

  method FindServicePort(svc: Service, target: IntOrString, slices: seq<EndpointSlice>) returns (r: Option<ServicePort>)
    ensures r == ServicePortFor(svc, target, slices)
    ensures forall protocol, number :: Resolves(svc, target, slices, protocol, number) <==> r.Some? && r.value.protocol == protocol && r.value.port == number
  {
    hide Resolves;
    FoundMeans(svc, target, slices);
    var i := 0;
    while i < |svc.ports|
      invariant 0 <= i <= |svc.ports|
      invariant forall x :: 0 <= x < i ==> !ServicePortMatches(svc.ports[x], target)
    {
      var port := svc.ports[i];
      if port.port == target.IntVal() || port.name == target.StrVal() {
        FirstIs(svc.ports, (p: ServicePort) => ServicePortMatches(p, target), i);
        if svc.clusterIP == NONE {
          var e := FindEndpointSlicePort(port.targetPort, slices);
          if e.None? {
            break;
          }
          return Some(ServicePort(Deref(e.value.name, ""), Deref(e.value.protocol, TCP), Deref(e.value.port, 0), FromInt(0)));
        }
        return Some(port);
      }
      i := i + 1;
    }
    if i == |svc.ports| {
      FirstIs(svc.ports, (p: ServicePort) => ServicePortMatches(p, target), i);
    }
    return None;
  }

  /** A number names the first port that carries it or has no name, so it is certain to find the
  port with that number exactly when no unnamed port with another number comes first. */
  lemma NumberFindsNumber(svc: Service, n: int32, slices: seq<EndpointSlice>)
    requires svc.clusterIP != NONE && exists p :: p in svc.ports && p.port == n
    ensures var r := ServicePortFor(svc, FromInt(n), slices);
            r.Some? && (r.value.port == n <==>
                        First(svc.ports, (p: ServicePort) => p.port == n) <= First(svc.ports, (p: ServicePort) => p.name == "" && p.port != n))
  {
    var m := First(svc.ports, (p: ServicePort) => ServicePortMatches(p, FromInt(n)));
    var x, y := First(svc.ports, (p: ServicePort) => p.port == n), First(svc.ports, (p: ServicePort) => p.name == "" && p.port != n);
    var p :| p in svc.ports && p.port == n;
    assert x < |svc.ports|;
    assert ServicePortMatches(svc.ports[x], FromInt(n));
    assert y < |svc.ports| ==> ServicePortMatches(svc.ports[y], FromInt(n));
    assert m < |svc.ports|;
  }

  // ----- What a spec port wants

  function ReadyAddresses(endpoints: seq<Endpoint>): seq<string> {
    if endpoints == [] then []
    else (if Deref(endpoints[0].ready, false) then endpoints[0].addresses else []) + ReadyAddresses(endpoints[1..])
  }

  function AllAddresses(slices: seq<EndpointSlice>): seq<string> {
    if slices == [] then [] else ReadyAddresses(slices[0].endpoints) + AllAddresses(slices[1..])
  }

  /** The target hosts, sorted by address: the cluster IP, or the ready endpoints of a headless service. */
  function TargetHosts(svc: Service, slices: seq<EndpointSlice>, rank: string -> int): seq<string> {
    S.Sort(if svc.clusterIP != NONE then [svc.clusterIP] else AllAddresses(slices), rank)
  }

  /** The entry a spec port asks for, if its target resolves. */
  function Want(p: PortSpec, svc: Service, slices: seq<EndpointSlice>, rank: string -> int): Option<ForwardedPort> {
    var found := ServicePortFor(svc, p.target, slices);
    if found.None? then None
    else Some(ForwardedPort(found.value.protocol, FromInt(Deref(p.hostPort, found.value.port)),
                            TargetHosts(svc, slices, rank), found.value.port, Ready))
  }

  function Wants(spec: seq<PortSpec>, svc: Service, slices: seq<EndpointSlice>, rank: string -> int): (w: seq<Option<ForwardedPort>>)
    ensures |w| == |spec|
  {
    seq(|spec|, i requires 0 <= i < |spec| => Want(spec[i], svc, slices, rank))
  }

  // ----- What that means for the Service and its slices

  /** The service port has the target's number or its name; a number also fits a port without a name, and a
  name a port with number 0. */
  predicate Fitting(p: ServicePort, target: IntOrString) {
    match target
    case FromInt(n) => p.port == n || p.name == ""
    case FromString(text) => p.port == 0 || p.name == text
  }

  predicate FirstFitting(svc: Service, target: IntOrString, j: nat) {
    j < |svc.ports| && Fitting(svc.ports[j], target) && forall x :: 0 <= x < j ==> !Fitting(svc.ports[x], target)
  }

  predicate FittingEndpoint(p: EndpointPort, target: IntOrString) {
    var name, number := if p.name.Some? then p.name.value else "", if p.port.Some? then p.port.value else 0;
    match target
    case FromInt(n) => number == n || name == ""
    case FromString(text) => number == 0 || name == text
  }

  /** A slice offers its only port, or its first fitting one. */
  predicate OffersAt(slice: EndpointSlice, target: IntOrString, j: nat) {
    && j < |slice.ports|
    && (|slice.ports| == 1 || (FittingEndpoint(slice.ports[j], target) && forall x :: 0 <= x < j ==> !FittingEndpoint(slice.ports[x], target)))
  }

  predicate OffersNothing(slice: EndpointSlice, target: IntOrString) {
    |slice.ports| != 1 && forall x :: 0 <= x < |slice.ports| ==> !FittingEndpoint(slice.ports[x], target)
  }

  /** The first slice that offers a port, and the port it offers. */
  predicate FirstOffer(slices: seq<EndpointSlice>, target: IntOrString, i: nat, j: nat) {
    i < |slices| && OffersAt(slices[i], target, j) && forall x :: 0 <= x < i ==> OffersNothing(slices[x], target)
  }

  /** The target stands for this protocol and number: those of the first fitting service port, or, for a
  headless service, of the endpoint port that this one leads to, TCP and 0 if left out. */
  ghost predicate Resolves(svc: Service, target: IntOrString, slices: seq<EndpointSlice>, protocol: Protocol, number: int32) {
    exists j: nat :: FirstFitting(svc, target, j) && LeadsTo(svc, j, slices, protocol, number)
  }

  ghost predicate LeadsTo(svc: Service, j: nat, slices: seq<EndpointSlice>, protocol: Protocol, number: int32)
    requires j < |svc.ports|
  {
    if svc.clusterIP == "None" then
      exists x: nat, y: nat :: FirstOffer(slices, svc.ports[j].targetPort, x, y) && EndpointSays(slices[x].ports[y], protocol, number)
    else protocol == svc.ports[j].protocol && number == svc.ports[j].port
  }

  predicate EndpointSays(p: EndpointPort, protocol: Protocol, number: int32) {
    && protocol == (if p.protocol.Some? then p.protocol.value else TCP)
    && number == (if p.port.Some? then p.port.value else 0)
  }

  /** The addresses of the ready endpoints, each as often as it is listed. */
  function ReadyIn(endpoints: seq<Endpoint>): multiset<string> {
    if endpoints == [] then multiset{}
    else (if endpoints[0].ready == Some(true) then multiset(endpoints[0].addresses) else multiset{}) + ReadyIn(endpoints[1..])
  }

  function ReadyInAll(slices: seq<EndpointSlice>): multiset<string> {
    if slices == [] then multiset{} else ReadyIn(slices[0].endpoints) + ReadyInAll(slices[1..])
  }

  /** The cluster IP alone, or all ready endpoints of all slices in the order of their addresses. */
  ghost predicate HostsFor(svc: Service, slices: seq<EndpointSlice>, rank: string -> int, hosts: seq<string>) {
    if svc.clusterIP == "None" then multiset(hosts) == ReadyInAll(slices) && S.SortedBy(hosts, rank)
    else hosts == [svc.clusterIP]
  }

  /** The entry is what the spec port asks for: its host port, or the number its target stands for. */
  ghost predicate AsksFor(p: PortSpec, svc: Service, slices: seq<EndpointSlice>, rank: string -> int, e: ForwardedPort) {
    && Resolves(svc, p.target, slices, e.protocol, e.targetPort)
    && e.sourcePort == FromInt(if p.hostPort.Some? then p.hostPort.value else e.targetPort)
    && HostsFor(svc, slices, rank, e.targetHosts) && e.state == Ready
  }

  lemma FittingFirst(svc: Service, target: IntOrString)
    ensures var i := First(svc.ports, (p: ServicePort) => ServicePortMatches(p, target));
            && (i < |svc.ports| ==> FirstFitting(svc, target, i))
            && forall j: nat :: FirstFitting(svc, target, j) ==> i == j && j < |svc.ports|
  {
    var i := First(svc.ports, (p: ServicePort) => ServicePortMatches(p, target));
    assert forall p :: Fitting(p, target) <==> ServicePortMatches(p, target);
    forall j: nat | FirstFitting(svc, target, j) ensures i == j {
      FirstIs(svc.ports, (p: ServicePort) => ServicePortMatches(p, target), j);
    }
  }

  lemma SliceOffers(slice: EndpointSlice, target: IntOrString)
    ensures SlicePort(slice, target).None? <==> OffersNothing(slice, target)
    ensures forall j: nat :: OffersAt(slice, target, j) ==> SlicePort(slice, target) == Some(slice.ports[j])
    ensures SlicePort(slice, target).Some? ==> exists j: nat :: OffersAt(slice, target, j)
  {
    assert forall p :: FittingEndpoint(p, target) <==> EndpointPortMatches(p, target);
    var i := First(slice.ports, (p: EndpointPort) => EndpointPortMatches(p, target));
    forall j: nat | OffersAt(slice, target, j) && |slice.ports| != 1 ensures i == j {
      FirstIs(slice.ports, (p: EndpointPort) => EndpointPortMatches(p, target), j);
    }
    if SlicePort(slice, target).Some? {
      assert OffersAt(slice, target, if |slice.ports| == 1 then 0 else i);
    }
  }

  lemma FirstOffers(slices: seq<EndpointSlice>, target: IntOrString)
    ensures forall x: nat, y: nat :: FirstOffer(slices, target, x, y) ==>
              x < |slices| && y < |slices[x].ports| && EndpointPortFor(target, slices) == Some(slices[x].ports[y])
    ensures EndpointPortFor(target, slices).Some? ==> exists x: nat, y: nat :: FirstOffer(slices, target, x, y)
  {
    hide OffersAt, OffersNothing, SlicePort;
    OffersInRange(slices, target);
    forall s: EndpointSlice
      ensures SlicePort(s, target).None? <==> OffersNothing(s, target)
      ensures forall j: nat :: OffersAt(s, target, j) ==> SlicePort(s, target).Some?
    {
      SliceOffers(s, target);
    }
    var i := First(slices, (s: EndpointSlice) => SlicePort(s, target).Some?);
    forall x: nat, y: nat | FirstOffer(slices, target, x, y)
      ensures x < |slices| && y < |slices[x].ports| && EndpointPortFor(target, slices) == Some(slices[x].ports[y])
    {
      OfferWithin(slices[x], target, y);
      SliceOffers(slices[x], target);
      FirstIs(slices, (s: EndpointSlice) => SlicePort(s, target).Some?, x);
    }
    if i < |slices| {
      SliceOffers(slices[i], target);
      var y: nat :| OffersAt(slices[i], target, y);
      assert FirstOffer(slices, target, i, y);
    }
  }

  lemma OfferWithin(slice: EndpointSlice, target: IntOrString, j: nat)
    requires OffersAt(slice, target, j)
    ensures j < |slice.ports|
  {
  }

  /** The search finds a port exactly when the target stands for one, and finds that. */
  lemma FoundMeans(svc: Service, target: IntOrString, slices: seq<EndpointSlice>)
    ensures forall protocol, number :: Resolves(svc, target, slices, protocol, number) <==>
              var r := ServicePortFor(svc, target, slices); r.Some? && r.value.protocol == protocol && r.value.port == number
  {
    hide FirstFitting, EndpointPortFor, FirstOffer;
    FittingFirst(svc, target);
    var i := First(svc.ports, (p: ServicePort) => ServicePortMatches(p, target));
    var r := ServicePortFor(svc, target, slices);
    if i < |svc.ports| {
      FirstOffers(slices, svc.ports[i].targetPort);
    }
    forall protocol, number
      ensures Resolves(svc, target, slices, protocol, number) <==> r.Some? && r.value.protocol == protocol && r.value.port == number
    {
      if Resolves(svc, target, slices, protocol, number) {
        var j: nat :| FirstFitting(svc, target, j) && LeadsTo(svc, j, slices, protocol, number);
        assert j == i;
      }
      if r.Some? && r.value.protocol == protocol && r.value.port == number {
        assert FirstFitting(svc, target, i);
        assert LeadsTo(svc, i, slices, protocol, number);
      }
    }
  }

  lemma OffersInRange(slices: seq<EndpointSlice>, target: IntOrString)
    ensures forall x: nat, y: nat :: FirstOffer(slices, target, x, y) ==> x < |slices| && y < |slices[x].ports|
  {
  }

  lemma {:induction false} ReadyCounted(endpoints: seq<Endpoint>)
    ensures multiset(ReadyAddresses(endpoints)) == ReadyIn(endpoints)
  {
    if endpoints != [] {
      ReadyCounted(endpoints[1..]);
    }
  }

  lemma {:induction false} AllCounted(slices: seq<EndpointSlice>)
    ensures multiset(AllAddresses(slices)) == ReadyInAll(slices)
  {
    if slices != [] {
      ReadyCounted(slices[0].endpoints);
      AllCounted(slices[1..]);
    }
  }

  lemma HostsMean(svc: Service, slices: seq<EndpointSlice>, rank: string -> int)
    ensures HostsFor(svc, slices, rank, TargetHosts(svc, slices, rank))
  {
    AllCounted(slices);
    S.SortSorts(AllAddresses(slices), rank);
  }

  /** A spec port gets an entry exactly when its target stands for a port, and that entry is what it asks for. */
  lemma WantMeans(p: PortSpec, svc: Service, slices: seq<EndpointSlice>, rank: string -> int)
    ensures var w := Want(p, svc, slices, rank);
            && (w.Some? <==> exists protocol, number :: Resolves(svc, p.target, slices, protocol, number))
            && (w.Some? ==> AsksFor(p, svc, slices, rank, w.value))
  {
    hide Resolves, TargetHosts, HostsFor, ServicePortFor;
    FoundMeans(svc, p.target, slices);
    HostsMean(svc, slices, rank);
    var r := ServicePortFor(svc, p.target, slices);
    assert r.Some? ==> Resolves(svc, p.target, slices, r.value.protocol, r.value.port);
  }

  /** The target stands for some port. */
  ghost predicate Stands(svc: Service, target: IntOrString, slices: seq<EndpointSlice>) {
    exists protocol, number :: Resolves(svc, target, slices, protocol, number)
  }

  predicate KeptAs(kept: seq<ForwardedPort>, a: ForwardedPort) {
    exists k :: k in kept && k.sourcePort == a.sourcePort && k.protocol == a.protocol && k.targetHosts == a.targetHosts
  }

  /** A spec port whose target stands for a port has what it asks for added or kept, any other one an error. */
  ghost predicate AnsweredAt(p: PortSpec, svc: Service, slices: seq<EndpointSlice>, rank: string -> int,
                             additions: seq<ForwardedPort>, kept: seq<ForwardedPort>, errors: seq<ForwardedPort>) {
    if Stands(svc, p.target, slices) then exists a :: AsksFor(p, svc, slices, rank, a) && (a in additions || KeptAs(kept, a))
    else ForwardedPort(NoProtocol, p.target, [], 0, Failed) in errors
  }

  ghost predicate AnswersSpec(spec: seq<PortSpec>, svc: Service, slices: seq<EndpointSlice>, rank: string -> int,
                              additions: seq<ForwardedPort>, kept: seq<ForwardedPort>, errors: seq<ForwardedPort>) {
    && |additions| + |kept| + |errors| == |spec|
    && (forall i :: 0 <= i < |spec| ==> AnsweredAt(spec[i], svc, slices, rank, additions, kept, errors))
    && (forall e :: e in additions ==> exists i :: 0 <= i < |spec| && AsksFor(spec[i], svc, slices, rank, e))
    && forall e :: e in errors ==> exists i :: 0 <= i < |spec| && !Stands(svc, spec[i].target, slices) && e == ForwardedPort(NoProtocol, spec[i].target, [], 0, Failed)
  }

  lemma {:induction false} ErrorsUnresolved(spec: seq<PortSpec>, w: Wanted, n: nat)
    requires n <= |w| == |spec|
    ensures forall e :: e in Errors(spec, w, n) ==> exists i :: 0 <= i < n && w[i].None? && e == ForwardedPort(NoProtocol, spec[i].target, [], 0, Failed)
    ensures forall i :: 0 <= i < n && w[i].None? ==> ForwardedPort(NoProtocol, spec[i].target, [], 0, Failed) in Errors(spec, w, n)
  {
    if n > 0 {
      ErrorsUnresolved(spec, w, n - 1);
      forall e | e in Errors(spec, w, n) ensures exists i :: 0 <= i < n && w[i].None? && e == ForwardedPort(NoProtocol, spec[i].target, [], 0, Failed) {
        if e in Errors(spec, w, n - 1) {
          var i :| 0 <= i < n - 1 && w[i].None? && e == ForwardedPort(NoProtocol, spec[i].target, [], 0, Failed);
        }
      }
    }
  }

  lemma WantsMean(spec: seq<PortSpec>, svc: Service, slices: seq<EndpointSlice>, rank: string -> int, i: nat)
    requires i < |spec|
    ensures var w := Wants(spec, svc, slices, rank)[i];
            && (w.Some? <==> Stands(svc, spec[i].target, slices)) && (w.Some? ==> AsksFor(spec[i], svc, slices, rank, w.value))
  {
    hide Resolves, AsksFor, Want;
    WantMeans(spec[i], svc, slices, rank);
  }

  lemma KeptIsWanted(w: Wanted, rec: map<IntOrString, ForwardedPort>, i: nat)
    requires i < |w| && Stays(w, rec, i) && forall sp :: sp in rec ==> rec[sp].sourcePort == sp
    ensures w[i].Some? && KeptAs(Kept(w, rec, |w|), w[i].value)
  {
    hide Owns;
    StaysOwns(w, rec, i);
    KeptThere(w, rec, |w|, i);
  }

  /** What the difference comes to for the spec. */
  lemma SpecAnswered(spec: seq<PortSpec>, svc: Service, slices: seq<EndpointSlice>, rank: string -> int, rec: map<IntOrString, ForwardedPort>)
    requires forall sp :: sp in rec ==> rec[sp].sourcePort == sp
    ensures var w := Wants(spec, svc, slices, rank);
            AnswersSpec(spec, svc, slices, rank, Additions(w, rec, |w|), Kept(w, rec, |w|), Errors(spec, w, |w|))
  {
    hide Wants, Stands, AsksFor, KeptAs, Stays, Additions, Kept, Errors;
    var w := Wants(spec, svc, slices, rank);
    var additions, kept, errors := Additions(w, rec, |w|), Kept(w, rec, |w|), Errors(spec, w, |w|);
    EveryPortAnswered(spec, w, rec, |w|);
    ErrorsUnresolved(spec, w, |w|);
    forall i | 0 <= i < |spec| ensures AnsweredAt(spec[i], svc, slices, rank, additions, kept, errors) {
      WantsMean(spec, svc, slices, rank, i);
      if w[i].Some? {
        if Stays(w, rec, i) {
          KeptIsWanted(w, rec, i);
        } else {
          Added(w, rec, |w|, i);
        }
      }
    }
    forall e | e in additions ensures exists i :: 0 <= i < |spec| && AsksFor(spec[i], svc, slices, rank, e) {
      var i :| 0 <= i < |w| && w[i] == Some(e) && !Stays(w, rec, i);
      WantsMean(spec, svc, slices, rank, i);
    }
    forall e | e in errors
      ensures exists i :: 0 <= i < |spec| && !Stands(svc, spec[i].target, slices) && e == ForwardedPort(NoProtocol, spec[i].target, [], 0, Failed)
    {
      var i :| 0 <= i < |w| && w[i].None? && e == ForwardedPort(NoProtocol, spec[i].target, [], 0, Failed);
      WantsMean(spec, svc, slices, rank, i);
    }
  }

  // ----- The recorded entries

  /** The ports recorded for a node: those of the first status with its name. */
  function RecordedFor(statuses: seq<NodeStatus>, node: string): seq<ForwardedPort> {
    var i := First(statuses, (s: NodeStatus) => s.node == node);
    if i < |statuses| then statuses[i].ports else []
  }

  /** By source port; of several entries for a port the last one counts. */
  function BySource(entries: seq<ForwardedPort>): (m: map<IntOrString, ForwardedPort>)
    ensures forall sp :: sp in m ==> m[sp] in entries && m[sp].sourcePort == sp
    ensures forall e :: e in entries ==> e.sourcePort in m
  {
    if entries == [] then map[]
    else BySource(entries[..|entries| - 1])[entries[|entries| - 1].sourcePort := entries[|entries| - 1]]
  }

  predicate DistinctSources(entries: seq<ForwardedPort>) {
    forall i, j :: 0 <= i < j < |entries| ==> entries[i].sourcePort != entries[j].sourcePort
  }

  lemma {:induction false} BySourceExact(entries: seq<ForwardedPort>)
    requires DistinctSources(entries)
    ensures forall e :: e in entries ==> BySource(entries)[e.sourcePort] == e
  {
    if entries != [] {
      var front, last := entries[..|entries| - 1], entries[|entries| - 1];
      BySourceExact(front);
      forall e | e in entries ensures BySource(entries)[e.sourcePort] == e {
        if e != last {
          assert e in front;
        }
      }
    }
  }

  // ----- The difference, position by position

  type Wanted = seq<Option<ForwardedPort>>

  /** Spec port `i` is the first to ask for its source port, and the port is recorded. */
  predicate Owns(w: Wanted, rec: map<IntOrString, ForwardedPort>, i: nat)
    requires i < |w|
  {
    && w[i].Some? && w[i].value.sourcePort in rec
    && forall j :: 0 <= j < i ==> Differs(w, i, j)
  }

  predicate Differs(w: Wanted, i: nat, j: nat)
    requires i < |w| && j < |w| && w[i].Some?
  {
    w[j].Some? ==> w[j].value.sourcePort != w[i].value.sourcePort
  }

  predicate SameForwarding(a: ForwardedPort, b: ForwardedPort) {
    a.protocol == b.protocol && a.targetHosts == b.targetHosts
  }

  predicate Stays(w: Wanted, rec: map<IntOrString, ForwardedPort>, i: nat)
    requires i < |w|
  {
    Owns(w, rec, i) && SameForwarding(rec[w[i].value.sourcePort], w[i].value)
  }

  function Additions(w: Wanted, rec: map<IntOrString, ForwardedPort>, n: nat): seq<ForwardedPort>
    requires n <= |w|
  {
    if n == 0 then []
    else Additions(w, rec, n - 1) + (if w[n - 1].Some? && !Stays(w, rec, n - 1) then [w[n - 1].value] else [])
  }

  function Kept(w: Wanted, rec: map<IntOrString, ForwardedPort>, n: nat): seq<ForwardedPort>
    requires n <= |w|
  {
    if n == 0 then []
    else Kept(w, rec, n - 1) + (if Stays(w, rec, n - 1) then [rec[w[n - 1].value.sourcePort]] else [])
  }

  function Replaced(w: Wanted, rec: map<IntOrString, ForwardedPort>, n: nat): seq<ForwardedPort>
    requires n <= |w|
  {
    if n == 0 then []
    else Replaced(w, rec, n - 1) + (if Owns(w, rec, n - 1) && !Stays(w, rec, n - 1) then [rec[w[n - 1].value.sourcePort]] else [])
  }

  function Errors(spec: seq<PortSpec>, w: Wanted, n: nat): seq<ForwardedPort>
    requires n <= |w| == |spec|
  {
    if n == 0 then []
    else Errors(spec, w, n - 1) + (if w[n - 1].None? then [ForwardedPort(NoProtocol, spec[n - 1].target, [], 0, Failed)] else [])
  }

  function Claimed(w: Wanted, n: nat): set<IntOrString>
    requires n <= |w|
  {
    set i | 0 <= i < n && w[i].Some? :: w[i].value.sourcePort
  }

  /** `s` lists the values of a map by source port, in some order. */
  predicate Lists(s: seq<ForwardedPort>, m: map<IntOrString, ForwardedPort>) {
    && DistinctSources(s)
    && (forall e :: e in s ==> e.sourcePort in m && m[e.sourcePort] == e)
    && forall sp :: sp in m ==> m[sp] in s
  }

  method ListAll(m: map<IntOrString, ForwardedPort>) returns (s: seq<ForwardedPort>)
    requires forall sp :: sp in m ==> m[sp].sourcePort == sp
    ensures Lists(s, m)
  {
    hide Lists;
    s := [];
    var rest := m;
    ListsNothing(m);
    while rest != map[]
      invariant rest.Keys <= m.Keys && forall sp :: sp in rest ==> rest[sp] == m[sp]
      invariant Lists(s, m - rest.Keys)
      decreases |rest|
    {
      var sp :| sp in rest;
      ListsMore(s, m, rest.Keys, sp);
      s := s + [rest[sp]];
      rest := rest - {sp};
      assert rest.Keys == rest.Keys + {};
    }
    assert m - {} == m;
  }

  lemma ListsNothing(m: map<IntOrString, ForwardedPort>)
    ensures Lists([], m - m.Keys)
  {
  }

  lemma ListsMore(s: seq<ForwardedPort>, m: map<IntOrString, ForwardedPort>, rest: set<IntOrString>, sp: IntOrString)
    requires Lists(s, m - rest) && sp in rest && sp in m && m[sp].sourcePort == sp
    ensures Lists(s + [m[sp]], m - (rest - {sp}))
  {
    forall x | x in m - (rest - {sp}) ensures m[x] in s + [m[sp]] {
      if x != sp {
        assert x in m - rest && (m - rest)[x] in s;
      }
    }
  }

  method Collect(ports: seq<ForwardedPort>) returns (m: map<IntOrString, ForwardedPort>)
    ensures m == BySource(ports)
  {
    m := map[];
    var j := 0;
    while j < |ports|
      invariant 0 <= j <= |ports| && m == BySource(ports[..j])
    {
      assert ports[..j + 1][..j] == ports[..j];
      m := m[ports[j].sourcePort := ports[j]];
      j := j + 1;
    }
    assert ports[..j] == ports;
  }

  method FindRecorded(statuses: seq<NodeStatus>, node: string) returns (m: map<IntOrString, ForwardedPort>)
    ensures m == BySource(RecordedFor(statuses, node))
  {
    m := map[];
    var i := 0;
    while i < |statuses|
      invariant 0 <= i <= |statuses| && m == map[]
      invariant forall x :: 0 <= x < i ==> statuses[x].node != node
    {
      if statuses[i].node == node {
        FirstIs(statuses, (s: NodeStatus) => s.node == node, i);
        m := Collect(statuses[i].ports);
        return;
      }
      i := i + 1;
    }
    FirstIs(statuses, (s: NodeStatus) => s.node == node, i);
  }

  method ReadyHosts(endpoints: seq<Endpoint>) returns (hosts: seq<string>)
    ensures hosts == ReadyAddresses(endpoints)
  {
    hosts := [];
    var j := 0;
    assert endpoints[0..] == endpoints;
    while j < |endpoints|
      invariant 0 <= j <= |endpoints|
      invariant hosts + ReadyAddresses(endpoints[j..]) == ReadyAddresses(endpoints)
    {
      if Deref(endpoints[j].ready, false) {
        hosts := hosts + endpoints[j].addresses;
      }
      assert endpoints[j..][1..] == endpoints[j + 1..];
      j := j + 1;
    }
    assert endpoints[j..] == [];
  }

  method HostsOf(svc: Service, slices: seq<EndpointSlice>, rank: string -> int) returns (hosts: seq<string>)
    ensures hosts == TargetHosts(svc, slices, rank)
  {
    hosts := [];
    if svc.clusterIP != NONE {
      hosts := hosts + [svc.clusterIP];
    } else {
      var i := 0;
      assert slices[0..] == slices;
      while i < |slices|
        invariant 0 <= i <= |slices|
        invariant hosts + AllAddresses(slices[i..]) == AllAddresses(slices)
      {
        var ready := ReadyHosts(slices[i].endpoints);
        assert slices[i..][1..] == slices[i + 1..] && slices[i..][0] == slices[i];
        assert hosts + ready + AllAddresses(slices[i + 1..]) == hosts + (ready + AllAddresses(slices[i + 1..]));
        hosts := hosts + ready;
        i := i + 1;
      }
      assert slices[i..] == [];
    }
    assert hosts == if svc.clusterIP != NONE then [svc.clusterIP] else AllAddresses(slices);
    hosts := S.Sort(hosts, rank);
  }

  method SyncForwardingPorts(statuses: seq<NodeStatus>, node: string, spec: seq<PortSpec>, svc: Service, slices: seq<EndpointSlice>, rank: string -> int)
    returns (additions: seq<ForwardedPort>, deletions: seq<ForwardedPort>, kept: seq<ForwardedPort>, errors: seq<ForwardedPort>)
    ensures var w, rec, n := Wants(spec, svc, slices, rank), BySource(RecordedFor(statuses, node)), |spec|;
            && additions == Additions(w, rec, n) && kept == Kept(w, rec, n) && errors == Errors(spec, w, n)
            && Replaced(w, rec, n) <= deletions && Lists(deletions[|Replaced(w, rec, n)|..], rec - Claimed(w, n))
    ensures AnswersSpec(spec, svc, slices, rank, additions, kept, errors)
  {
    hide TargetHosts, ServicePortFor, RecordedFor, BySource, AnswersSpec, Resolves;
    var left := FindRecorded(statuses, node);
    ghost var w, rec := Wants(spec, svc, slices, rank), left;
    additions, deletions, kept, errors := [], [], [], [];
    var i := 0;
    while i < |spec|
      invariant 0 <= i <= |spec| && left == rec - Claimed(w, i)
      invariant additions == Additions(w, rec, i) && kept == Kept(w, rec, i) && errors == Errors(spec, w, i)
      invariant deletions == Replaced(w, rec, i)
    {
      var found := FindServicePort(svc, spec[i].target, slices);
      if found.None? {
        assert !Owns(w, rec, i) && !Stays(w, rec, i);
        errors := errors + [ForwardedPort(NoProtocol, spec[i].target, [], 0, Failed)];
        NothingClaimed(w, i);
      } else {
        var hosts := HostsOf(svc, slices, rank);
        var source := FromInt(Deref(spec[i].hostPort, found.value.port));
        var entry := ForwardedPort(found.value.protocol, source, hosts, found.value.port, Ready);
        assert w[i] == Some(entry);
        OwnsLeft(w, rec, i);
        if source in left {
          var old_ := left[source];
          assert rec[source].sourcePort == source && (Stays(w, rec, i) <==> SameForwarding(old_, entry));
          if old_.protocol != entry.protocol || old_.sourcePort != source || old_.targetHosts != hosts {
            deletions := deletions + [old_];
            additions := additions + [entry];
          } else {
            kept := kept + [old_];
          }
          left := left - {source};
          assert left == rec - Claimed(w, i + 1);
        } else {
          assert !Owns(w, rec, i) && !Stays(w, rec, i);
          additions := additions + [entry];
          assert left == rec - Claimed(w, i + 1);
        }
      }
      i := i + 1;
    }
    var rest := ListAll(left);
    deletions := deletions + rest;
    SpecAnswered(spec, svc, slices, rank, rec);
  }

  lemma OwnsLeft(w: Wanted, rec: map<IntOrString, ForwardedPort>, i: nat)
    requires i < |w| && w[i].Some?
    ensures Owns(w, rec, i) <==> w[i].value.sourcePort in rec - Claimed(w, i)
    ensures Claimed(w, i + 1) == Claimed(w, i) + {w[i].value.sourcePort}
  {
    if w[i].value.sourcePort !in Claimed(w, i) {
      forall j | 0 <= j < i ensures Differs(w, i, j) {
        assert w[j].Some? ==> w[j].value.sourcePort in Claimed(w, i);
      }
    } else {
      var j :| 0 <= j < i && w[j].Some? && w[j].value.sourcePort == w[i].value.sourcePort;
      assert !Differs(w, i, j);
    }
  }

  lemma NothingClaimed(w: Wanted, i: nat)
    requires i < |w| && w[i].None?
    ensures Claimed(w, i + 1) == Claimed(w, i)
  {
  }

  // ----- The difference is exact

  lemma {:induction false} CountDistinct(s: seq<ForwardedPort>, e: ForwardedPort)
    requires DistinctSources(s)
    ensures multiset(s)[e] == if e in s then 1 else 0
  {
    if s != [] {
      CountDistinct(s[1..], e);
      assert s == [s[0]] + s[1..];
    }
  }

  /** Two listings of the same map are permutations of each other. */
  lemma ListsAgree(a: seq<ForwardedPort>, b: seq<ForwardedPort>, m: map<IntOrString, ForwardedPort>)
    requires Lists(a, m) && Lists(b, m)
    ensures multiset(a) == multiset(b)
  {
    forall e: ForwardedPort ensures multiset(a)[e] == multiset(b)[e] {
      CountDistinct(a, e);
      CountDistinct(b, e);
      assert e in a <==> e in b;
    }
  }

  predicate ElsewhereSourced(a: seq<ForwardedPort>, b: seq<ForwardedPort>) {
    forall x, y :: x in a && y in b ==> x.sourcePort != y.sourcePort
  }

  /** What is decided up to position `n`: the claimed part of the record, split in two. */
  ghost predicate Split(w: Wanted, rec: map<IntOrString, ForwardedPort>, n: nat, kept: seq<ForwardedPort>, replaced: seq<ForwardedPort>)
    requires n <= |w|
  {
    && DistinctSources(kept) && DistinctSources(replaced) && ElsewhereSourced(kept, replaced)
    && (forall e :: e in kept || e in replaced ==> e.sourcePort in rec && e.sourcePort in Claimed(w, n) && rec[e.sourcePort] == e)
    && forall sp :: sp in rec && sp in Claimed(w, n) ==> rec[sp] in kept || rec[sp] in replaced
  }

  lemma {:induction false} SplitUpTo(w: Wanted, rec: map<IntOrString, ForwardedPort>, n: nat)
    requires n <= |w| && forall sp :: sp in rec ==> rec[sp].sourcePort == sp
    ensures Split(w, rec, n, Kept(w, rec, n), Replaced(w, rec, n))
  {
    hide Owns, Claimed, Split, Stays;
    if n == 0 {
      NothingYet(w, rec);
    } else {
      SplitUpTo(w, rec, n - 1);
      StaysOwns(w, rec, n - 1);
      if Owns(w, rec, n - 1) {
        OwnsLeft(w, rec, n - 1);
        SplitGrows(w, rec, n - 1, Kept(w, rec, n - 1), Replaced(w, rec, n - 1), rec[w[n - 1].value.sourcePort], Stays(w, rec, n - 1));
      } else {
        SplitSame(w, rec, n - 1, Kept(w, rec, n - 1), Replaced(w, rec, n - 1));
        assert Kept(w, rec, n) == Kept(w, rec, n - 1) && Replaced(w, rec, n) == Replaced(w, rec, n - 1);
      }
    }
  }

  lemma NoOwner(w: Wanted, rec: map<IntOrString, ForwardedPort>, i: nat)
    requires i < |w| && w[i].None?
    ensures !Owns(w, rec, i)
  {
  }

  lemma StaysOwns(w: Wanted, rec: map<IntOrString, ForwardedPort>, i: nat)
    requires i < |w|
    ensures Stays(w, rec, i) ==> Owns(w, rec, i)
    ensures Owns(w, rec, i) ==> w[i].Some? && w[i].value.sourcePort in rec
  {
  }

  lemma NothingYet(w: Wanted, rec: map<IntOrString, ForwardedPort>)
    ensures Split(w, rec, 0, [], [])
  {
  }

  lemma SplitSame(w: Wanted, rec: map<IntOrString, ForwardedPort>, n: nat, kept: seq<ForwardedPort>, replaced: seq<ForwardedPort>)
    requires n < |w| && Split(w, rec, n, kept, replaced) && !Owns(w, rec, n)
    ensures Split(w, rec, n + 1, kept, replaced)
  {
    hide Claimed, Owns;
    if w[n].Some? {
      OwnsLeft(w, rec, n);
    } else {
      NothingClaimed(w, n);
    }
  }

  lemma SplitGrows(w: Wanted, rec: map<IntOrString, ForwardedPort>, n: nat, kept: seq<ForwardedPort>, replaced: seq<ForwardedPort>,
                   e: ForwardedPort, stays: bool)
    requires n < |w| && Split(w, rec, n, kept, replaced) && e.sourcePort in rec && rec[e.sourcePort] == e && e.sourcePort !in Claimed(w, n)
    requires Claimed(w, n + 1) == Claimed(w, n) + {e.sourcePort}
    ensures Split(w, rec, n + 1, kept + (if stays then [e] else []), replaced + (if stays then [] else [e]))
  {
    hide Claimed;
    assert kept + [] == kept && replaced + [] == replaced;
  }

  /** With distinct recorded source ports the deletions and the unchanged entries are a partition of
  the recorded ones. */
  lemma DiffPartitions(w: Wanted, entries: seq<ForwardedPort>, deletions: seq<ForwardedPort>)
    requires DistinctSources(entries)
    requires var rec, n := BySource(entries), |w|;
             Replaced(w, rec, n) <= deletions && Lists(deletions[|Replaced(w, rec, n)|..], rec - Claimed(w, n))
    ensures multiset(deletions) + multiset(Kept(w, BySource(entries), |w|)) == multiset(entries)
  {
    hide Claimed, Lists, Split, DistinctSources, Kept, Replaced, BySource;
    var rec, n := BySource(entries), |w|;
    var kept, replaced := Kept(w, rec, n), Replaced(w, rec, n);
    var rest := deletions[|replaced|..];
    SplitUpTo(w, rec, n);
    EntriesListed(entries);
    PartsList(w, rec, kept, replaced, rest);
    ListsAgree(kept + replaced + rest, entries, rec);
    assert deletions == replaced + rest;
    Regroup(kept, replaced, rest);
  }

  lemma Regroup(a: seq<ForwardedPort>, b: seq<ForwardedPort>, c: seq<ForwardedPort>)
    ensures multiset(a + b + c) == multiset(b + c) + multiset(a)
  {
  }

  lemma EntriesListed(entries: seq<ForwardedPort>)
    requires DistinctSources(entries)
    ensures Lists(entries, BySource(entries))
  {
    BySourceExact(entries);
  }

  lemma PartsList(w: Wanted, rec: map<IntOrString, ForwardedPort>, kept: seq<ForwardedPort>, replaced: seq<ForwardedPort>, rest: seq<ForwardedPort>)
    requires Split(w, rec, |w|, kept, replaced) && Lists(rest, rec - Claimed(w, |w|))
    ensures Lists(kept + replaced + rest, rec)
  {
    hide Claimed, DistinctSources;
    var claimed := Claimed(w, |w|);
    assert ElsewhereSourced(kept + replaced, rest);
    ConcatDistinct(kept, replaced);
    ConcatDistinct(kept + replaced, rest);
    forall sp | sp in rec ensures rec[sp] in kept + replaced + rest {
      if sp !in claimed {
        assert sp in rec - claimed && (rec - claimed)[sp] in rest;
      }
    }
  }

  lemma ConcatDistinct(a: seq<ForwardedPort>, b: seq<ForwardedPort>)
    requires DistinctSources(a) && DistinctSources(b) && ElsewhereSourced(a, b)
    ensures DistinctSources(a + b)
  {
  }

  /** Every spec port is answered once: by an error, by its recorded entry, or by its own new entry. */
  lemma {:induction false} EveryPortAnswered(spec: seq<PortSpec>, w: Wanted, rec: map<IntOrString, ForwardedPort>, n: nat)
    requires n <= |w| == |spec|
    ensures |Additions(w, rec, n)| + |Kept(w, rec, n)| + |Errors(spec, w, n)| == n
    ensures forall i :: 0 <= i < n && w[i].None? ==> exists e :: e in Errors(spec, w, n) && e.sourcePort == spec[i].target && e.state == Failed
    ensures forall i :: 0 <= i < n && Stays(w, rec, i) ==> rec[w[i].value.sourcePort] in Kept(w, rec, n)
    ensures forall i :: 0 <= i < n && w[i].Some? && !Stays(w, rec, i) ==> w[i].value in Additions(w, rec, n)
    ensures forall e :: e in Additions(w, rec, n) ==> exists i :: 0 <= i < n && w[i] == Some(e) && !Stays(w, rec, i)
  {
    hide Owns;
    if n > 0 {
      EveryPortAnswered(spec, w, rec, n - 1);
      if w[n - 1].None? {
        NoOwner(w, rec, n - 1);
        assert ForwardedPort(NoProtocol, spec[n - 1].target, [], 0, Failed) in Errors(spec, w, n);
        forall i | 0 <= i < n && w[i].None?
          ensures exists e :: e in Errors(spec, w, n) && e.sourcePort == spec[i].target && e.state == Failed
        {
          if i < n - 1 {
            var e :| e in Errors(spec, w, n - 1) && e.sourcePort == spec[i].target && e.state == Failed;
            assert e in Errors(spec, w, n);
          }
        }
      }
    }
  }

  // ----- Replaying the difference

  predicate DistinctWants(w: Wanted) {
    forall i, j :: 0 <= j < i < |w| && w[i].Some? ==> Differs(w, i, j)
  }

  function Sources(s: seq<ForwardedPort>): set<IntOrString> {
    set e | e in s :: e.sourcePort
  }

  /** The record after the deletions are taken out and the additions put in. */
  function Replay(rec: map<IntOrString, ForwardedPort>, deletions: seq<ForwardedPort>, additions: seq<ForwardedPort>): map<IntOrString, ForwardedPort> {
    (rec - Sources(deletions)) + BySource(additions)
  }

  ghost predicate DiffOf(w: Wanted, rec: map<IntOrString, ForwardedPort>, deletions: seq<ForwardedPort>) {
    Replaced(w, rec, |w|) <= deletions && Lists(deletions[|Replaced(w, rec, |w|)|..], rec - Claimed(w, |w|))
  }

  lemma {:induction false} AdditionsDistinct(w: Wanted, rec: map<IntOrString, ForwardedPort>, n: nat)
    requires n <= |w| && DistinctWants(w)
    ensures DistinctSources(Additions(w, rec, n))
    ensures forall e :: e in Additions(w, rec, n) ==> exists i :: 0 <= i < n && w[i] == Some(e) && !Stays(w, rec, i)
  {
    hide Owns;
    if n > 0 {
      AdditionsDistinct(w, rec, n - 1);
      if w[n - 1].Some? && !Stays(w, rec, n - 1) {
        forall e | e in Additions(w, rec, n - 1) ensures e.sourcePort != w[n - 1].value.sourcePort {
          var i :| 0 <= i < n - 1 && w[i] == Some(e) && !Stays(w, rec, i);
          assert Differs(w, n - 1, i);
        }
      }
    }
  }

  /** The source port of spec port `i` after the replay. */
  lemma ReplayAt(w: Wanted, rec: map<IntOrString, ForwardedPort>, deletions: seq<ForwardedPort>, i: nat)
    requires DistinctWants(w) && (forall sp :: sp in rec ==> rec[sp].sourcePort == sp) && DiffOf(w, rec, deletions)
    requires i < |w| && w[i].Some?
    ensures var after, sp := Replay(rec, deletions, Additions(w, rec, |w|)), w[i].value.sourcePort;
            sp in after && after[sp] == if Stays(w, rec, i) then rec[sp] else w[i].value
  {
    hide Claimed, Owns;
    var additions, sp := Additions(w, rec, |w|), w[i].value.sourcePort;
    AdditionsDistinct(w, rec, |w|);
    BySourceExact(additions);
    if Stays(w, rec, i) {
      StaysOwns(w, rec, i);
      forall e | e in additions ensures e.sourcePort != sp {
        var j :| 0 <= j < |w| && w[j] == Some(e) && !Stays(w, rec, j);
        assert j != i && (if j < i then Differs(w, i, j) else Differs(w, j, i));
      }
      KeptIsNotDeleted(w, rec, deletions, i);
      assert sp !in BySource(additions);
    } else {
      Added(w, rec, |w|, i);
      assert BySource(additions)[sp] == w[i].value;
    }
  }

  lemma {:induction false} Added(w: Wanted, rec: map<IntOrString, ForwardedPort>, n: nat, i: nat)
    requires i < n <= |w| && w[i].Some? && !Stays(w, rec, i)
    ensures w[i].value in Additions(w, rec, n)
  {
    if i < n - 1 {
      Added(w, rec, n - 1, i);
    }
  }

  lemma {:induction false} KeptThere(w: Wanted, rec: map<IntOrString, ForwardedPort>, n: nat, i: nat)
    requires i < n <= |w| && Stays(w, rec, i)
    ensures rec[w[i].value.sourcePort] in Kept(w, rec, n)
  {
    if i < n - 1 {
      KeptThere(w, rec, n - 1, i);
    }
  }

  lemma KeptIsNotDeleted(w: Wanted, rec: map<IntOrString, ForwardedPort>, deletions: seq<ForwardedPort>, i: nat)
    requires (forall sp :: sp in rec ==> rec[sp].sourcePort == sp) && DiffOf(w, rec, deletions) && i < |w| && Stays(w, rec, i)
    ensures w[i].value.sourcePort !in Sources(deletions)
  {
    hide Claimed, Owns, DistinctSources;
    var replaced := Replaced(w, rec, |w|);
    StaysOwns(w, rec, i);
    SplitUpTo(w, rec, |w|);
    KeptThere(w, rec, |w|, i);
    forall e | e in deletions ensures e.sourcePort != w[i].value.sourcePort {
      if e !in replaced {
        assert e in deletions[|replaced|..];
        assert e.sourcePort !in Claimed(w, |w|);
      }
    }
  }

  lemma ClaimedExactly(w: Wanted, n: nat)
    requires n <= |w|
    ensures forall sp :: sp in Claimed(w, n) <==> exists i :: 0 <= i < n && w[i].Some? && w[i].value.sourcePort == sp
  {
  }

  /** Replaying deletions and additions on the record leaves exactly the wanted source ports, each
  with the wanted protocol and hosts, whatever was recorded before. */
  lemma ReplayGivesTheWanted(w: Wanted, rec: map<IntOrString, ForwardedPort>, deletions: seq<ForwardedPort>)
    requires DistinctWants(w) && (forall sp :: sp in rec ==> rec[sp].sourcePort == sp) && DiffOf(w, rec, deletions)
    ensures var after := Replay(rec, deletions, Additions(w, rec, |w|));
            && after.Keys == Claimed(w, |w|)
            && forall i :: 0 <= i < |w| && w[i].Some? ==>
                 var e := after[w[i].value.sourcePort]; e.protocol == w[i].value.protocol && e.targetHosts == w[i].value.targetHosts
  {
    hide Claimed, Owns, DistinctSources;
    var additions := Additions(w, rec, |w|);
    var after := Replay(rec, deletions, additions);
    ClaimedExactly(w, |w|);
    forall sp | sp in Claimed(w, |w|) ensures sp in after {
      var i :| 0 <= i < |w| && w[i].Some? && w[i].value.sourcePort == sp;
      ReplayAt(w, rec, deletions, i);
    }
    forall sp | sp in after ensures sp in Claimed(w, |w|) {
      OnlyClaimedLeft(w, rec, deletions, sp);
    }
    forall i | 0 <= i < |w| && w[i].Some? ensures SameForwarding(after[w[i].value.sourcePort], w[i].value) {
      ReplayAt(w, rec, deletions, i);
    }
  }

  lemma OnlyClaimedLeft(w: Wanted, rec: map<IntOrString, ForwardedPort>, deletions: seq<ForwardedPort>, sp: IntOrString)
    requires DistinctWants(w) && DiffOf(w, rec, deletions) && sp in Replay(rec, deletions, Additions(w, rec, |w|))
    requires forall x :: x in rec ==> rec[x].sourcePort == x
    ensures sp in Claimed(w, |w|)
  {
    hide Claimed, Owns, DistinctSources;
    var additions := Additions(w, rec, |w|);
    ClaimedExactly(w, |w|);
    AdditionsDistinct(w, rec, |w|);
    if sp in BySource(additions) {
      var e := BySource(additions)[sp];
      assert e in additions;
    } else {
      UnclaimedDeleted(w, rec, deletions, sp);
    }
  }

  lemma UnclaimedDeleted(w: Wanted, rec: map<IntOrString, ForwardedPort>, deletions: seq<ForwardedPort>, sp: IntOrString)
    requires DiffOf(w, rec, deletions) && sp in rec && rec[sp].sourcePort == sp
    ensures sp in Claimed(w, |w|) || sp in Sources(deletions)
  {
    hide Claimed, Owns, DistinctSources, Replaced;
    if sp !in Claimed(w, |w|) {
      var rest := deletions[|Replaced(w, rec, |w|)|..];
      assert (rec - Claimed(w, |w|))[sp] in rest;
      assert rec[sp] in deletions;
    }
  }

  /** The replay also gets the target ports right exactly when no recorded entry that agrees with
  what is wanted in source port, protocol and hosts has another target port: the target port is
  never compared. */
  lemma TargetPortsRightExactly(w: Wanted, rec: map<IntOrString, ForwardedPort>, deletions: seq<ForwardedPort>)
    requires DistinctWants(w) && (forall sp :: sp in rec ==> rec[sp].sourcePort == sp) && DiffOf(w, rec, deletions)
    ensures var after := Replay(rec, deletions, Additions(w, rec, |w|));
            (forall i :: 0 <= i < |w| && w[i].Some? ==> w[i].value.sourcePort in after && after[w[i].value.sourcePort].targetPort == w[i].value.targetPort)
            <==> forall i :: 0 <= i < |w| && w[i].Some? ==> !StaleAt(w, rec, i)
  {
    hide Claimed, Owns, DistinctSources, DiffOf, Replay;
    forall i | 0 <= i < |w| && w[i].Some?
      ensures var after, sp := Replay(rec, deletions, Additions(w, rec, |w|)), w[i].value.sourcePort;
              sp in after && (after[sp].targetPort == w[i].value.targetPort <==> !StaleAt(w, rec, i))
    {
      ReplayAt(w, rec, deletions, i);
      AllOwn(w, rec, i);
    }
  }

  predicate StaleAt(w: Wanted, rec: map<IntOrString, ForwardedPort>, i: nat)
    requires i < |w| && w[i].Some?
  {
    var sp := w[i].value.sourcePort;
    sp in rec && SameForwarding(rec[sp], w[i].value) && rec[sp].targetPort != w[i].value.targetPort
  }

  lemma AllOwn(w: Wanted, rec: map<IntOrString, ForwardedPort>, i: nat)
    requires DistinctWants(w) && i < |w| && w[i].Some?
    ensures Owns(w, rec, i) <==> w[i].value.sourcePort in rec
  {
    forall j | 0 <= j < i ensures Differs(w, i, j) {
    }
  }

  // ----- The difference is stable

  function Stateless(e: ForwardedPort): ForwardedPort {
    e.(state := Unknown)
  }

  /** What is recorded after a sync: the unchanged and the added entries in any order, in any states. */
  ghost predicate RecordedAfter(entries: seq<ForwardedPort>, w: Wanted, rec: map<IntOrString, ForwardedPort>) {
    exists order: seq<ForwardedPort> ::
      multiset(order) == multiset(Kept(w, rec, |w|) + Additions(w, rec, |w|)) && SameButState(entries, order)
  }

  /** Entry `e` says what spec port `i` wants. */
  predicate Answers(e: ForwardedPort, w: Wanted, i: nat) {
    i < |w| && w[i].Some? && w[i].value.sourcePort == e.sourcePort && SameForwarding(e, w[i].value)
  }

  /** Entries that say for each wanted source port what is wanted, and nothing else. */
  ghost predicate Reflects(entries: seq<ForwardedPort>, w: Wanted) {
    && (forall e :: e in entries ==> exists i: nat :: Answers(e, w, i))
    && forall i: nat :: i < |w| && w[i].Some? ==> exists e :: e in entries && Answers(e, w, i)
  }

  lemma {:induction false} KeptReflects(w: Wanted, rec: map<IntOrString, ForwardedPort>, n: nat)
    requires n <= |w| && forall sp :: sp in rec ==> rec[sp].sourcePort == sp
    ensures forall e :: e in Kept(w, rec, n) ==> exists i: nat :: Answers(e, w, i)
  {
    hide Owns;
    if n > 0 {
      KeptReflects(w, rec, n - 1);
      StaysOwns(w, rec, n - 1);
      if Stays(w, rec, n - 1) {
        assert Answers(rec[w[n - 1].value.sourcePort], w, n - 1);
      }
    }
  }

  lemma {:induction false} AdditionsReflect(w: Wanted, rec: map<IntOrString, ForwardedPort>, n: nat)
    requires n <= |w|
    ensures forall e :: e in Additions(w, rec, n) ==> exists i: nat :: Answers(e, w, i)
  {
    hide Stays;
    if n > 0 {
      AdditionsReflect(w, rec, n - 1);
      assert w[n - 1].Some? ==> Answers(w[n - 1].value, w, n - 1);
    }
  }

  lemma OutcomeAt(w: Wanted, rec: map<IntOrString, ForwardedPort>, i: nat) returns (e: ForwardedPort)
    requires i < |w| && w[i].Some? && forall sp :: sp in rec ==> rec[sp].sourcePort == sp
    ensures e in Kept(w, rec, |w|) + Additions(w, rec, |w|) && Answers(e, w, i)
  {
    hide Owns;
    StaysOwns(w, rec, i);
    if Stays(w, rec, i) {
      KeptThere(w, rec, |w|, i);
      e := rec[w[i].value.sourcePort];
    } else {
      Added(w, rec, |w|, i);
      e := w[i].value;
    }
  }

  lemma AnswersAlike(a: ForwardedPort, b: ForwardedPort, w: Wanted, i: nat)
    requires Stateless(a) == Stateless(b)
    ensures Answers(a, w, i) <==> Answers(b, w, i)
  {
    assert Stateless(a).sourcePort == a.sourcePort && Stateless(b).sourcePort == b.sourcePort;
  }

  predicate SameButState(a: seq<ForwardedPort>, b: seq<ForwardedPort>) {
    |a| == |b| && forall i :: 0 <= i < |a| ==> Stateless(a[i]) == Stateless(b[i])
  }

  lemma RecordedReflects(entries: seq<ForwardedPort>, w: Wanted, rec: map<IntOrString, ForwardedPort>)
    requires (forall sp :: sp in rec ==> rec[sp].sourcePort == sp) && RecordedAfter(entries, w, rec)
    ensures Reflects(entries, w)
  {
    hide Additions, Kept, Answers, Stateless;
    var all := Kept(w, rec, |w|) + Additions(w, rec, |w|);
    var order :| multiset(order) == multiset(all) && SameButState(entries, order);
    KeptReflects(w, rec, |w|);
    AdditionsReflect(w, rec, |w|);
    forall e | e in entries ensures exists i: nat :: Answers(e, w, i) {
      var x :| 0 <= x < |entries| && entries[x] == e;
      assert order[x] in multiset(all) && Stateless(e) == Stateless(order[x]);
      assert order[x] in all;
      var i: nat :| Answers(order[x], w, i);
      AnswersAlike(e, order[x], w, i);
    }
    forall i: nat | i < |w| && w[i].Some? ensures exists e :: e in entries && Answers(e, w, i) {
      var e := OutcomeAt(w, rec, i);
      assert e in multiset(all);
      assert e in multiset(order);
      var x :| 0 <= x < |order| && order[x] == e;
      assert Stateless(entries[x]) == Stateless(e) && entries[x] in entries;
      AnswersAlike(entries[x], e, w, i);
    }
  }

  lemma {:induction false} NothingToDo(w: Wanted, rec: map<IntOrString, ForwardedPort>, n: nat)
    requires n <= |w| && forall i :: 0 <= i < |w| ==> w[i].Some? && Stays(w, rec, i)
    ensures Additions(w, rec, n) == [] && Replaced(w, rec, n) == [] && |Kept(w, rec, n)| == n
  {
    if n > 0 {
      NothingToDo(w, rec, n - 1);
    }
  }

  lemma ReflectedStays(entries: seq<ForwardedPort>, w: Wanted, i: nat)
    requires DistinctWants(w) && Reflects(entries, w) && i < |w| && w[i].Some?
    ensures Stays(w, BySource(entries), i)
  {
    hide Owns, BySource, DistinctWants;
    var rec, sp := BySource(entries), w[i].value.sourcePort;
    var e :| e in entries && Answers(e, w, i);
    assert sp in rec;
    var j: nat :| Answers(rec[sp], w, j);
    SameWant(w, i, j);
    AllOwn(w, rec, i);
  }

  lemma SameWant(w: Wanted, i: nat, j: nat)
    requires DistinctWants(w) && i < |w| && j < |w| && w[i].Some? && w[j].Some? && w[i].value.sourcePort == w[j].value.sourcePort
    ensures i == j
  {
    assert j < i ==> Differs(w, i, j);
    assert i < j ==> Differs(w, j, i);
  }

  predicate SamePorts(a: seq<EndpointSlice>, b: seq<EndpointSlice>) {
    |a| == |b| && forall i :: 0 <= i < |a| ==> a[i].ports == b[i].ports && multiset(a[i].endpoints) == multiset(b[i].endpoints)
  }

  lemma {:induction false} ReadyAddressesPermuted(a: seq<Endpoint>, b: seq<Endpoint>)
    requires multiset(a) == multiset(b)
    ensures multiset(ReadyAddresses(a)) == multiset(ReadyAddresses(b))
    decreases |a|
  {
    S.SameSize(a, b);
    if a != [] {
      var j := S.TakeHead(a, b);
      var b' := b[..j] + b[j + 1..];
      ReadyAddressesPermuted(a[1..], b');
      ReadyAddressesSplit(b[..j], a[0], b[j + 1..]);
    }
  }

  lemma {:induction false} ReadyAddressesSplit(a: seq<Endpoint>, e: Endpoint, b: seq<Endpoint>)
    ensures multiset(ReadyAddresses(a + [e] + b)) == multiset(if Deref(e.ready, false) then e.addresses else []) + multiset(ReadyAddresses(a + b))
  {
    if a == [] {
      assert [] + [e] + b == [e] + b && [] + b == b && ([e] + b)[1..] == b;
    } else {
      assert (a + [e] + b)[1..] == a[1..] + [e] + b && (a + b)[1..] == a[1..] + b;
      ReadyAddressesSplit(a[1..], e, b);
    }
  }

  lemma {:induction false} AllAddressesPermuted(a: seq<EndpointSlice>, b: seq<EndpointSlice>)
    requires SamePorts(a, b)
    ensures multiset(AllAddresses(a)) == multiset(AllAddresses(b))
  {
    if a != [] {
      assert a[0].ports == b[0].ports;
      ReadyAddressesPermuted(a[0].endpoints, b[0].endpoints);
      assert forall i :: 0 <= i < |a| - 1 ==> a[1..][i] == a[i + 1] && b[1..][i] == b[i + 1];
      AllAddressesPermuted(a[1..], b[1..]);
    }
  }

  /** The order of the endpoints inside their slices does not matter. */
  lemma WantsIgnoreOrder(spec: seq<PortSpec>, svc: Service, a: seq<EndpointSlice>, b: seq<EndpointSlice>, rank: string -> int)
    requires SamePorts(a, b) && S.InjectiveOn(AllAddresses(a), rank)
    ensures Wants(spec, svc, a, rank) == Wants(spec, svc, b, rank)
  {
    AllAddressesPermuted(a, b);
    S.SortIgnoresOrder(AllAddresses(a), AllAddresses(b), rank);
    forall i | 0 <= i < |spec| ensures Want(spec[i], svc, a, rank) == Want(spec[i], svc, b, rank) {
      SameService(svc, spec[i].target, a, b);
    }
  }

  lemma SameService(svc: Service, target: IntOrString, a: seq<EndpointSlice>, b: seq<EndpointSlice>)
    requires SamePorts(a, b)
    ensures ServicePortFor(svc, target, a) == ServicePortFor(svc, target, b)
  {
    var i := First(svc.ports, (p: ServicePort) => ServicePortMatches(p, target));
    if i < |svc.ports| {
      SameEndpointPort(svc.ports[i].targetPort, a, b);
    }
  }

  lemma SameEndpointPort(target: IntOrString, a: seq<EndpointSlice>, b: seq<EndpointSlice>)
    requires SamePorts(a, b)
    ensures EndpointPortFor(target, a) == EndpointPortFor(target, b)
  {
    hide First, EndpointPortMatches;
    var p := (s: EndpointSlice) => SlicePort(s, target).Some?;
    forall x | 0 <= x < |a| ensures SlicePort(a[x], target) == SlicePort(b[x], target) {
      SameSlicePort(a[x], b[x], target);
    }
    FirstIs(b, p, First(a, p));
  }

  lemma SameSlicePort(a: EndpointSlice, b: EndpointSlice, target: IntOrString)
    requires a.ports == b.ports
    ensures SlicePort(a, target) == SlicePort(b, target)
  {
  }

  /** If every spec port resolves, to a source port of its own, a second look finds nothing to add or
  to delete, even after the endpoints were shuffled inside their slices and whatever became of the
  states; `entries` are what the first sync left, however they are ordered. */
  lemma SecondSyncDoesNothing(spec: seq<PortSpec>, svc: Service, a: seq<EndpointSlice>, b: seq<EndpointSlice>, rank: string -> int,
                              rec: map<IntOrString, ForwardedPort>, entries: seq<ForwardedPort>, deletions: seq<ForwardedPort>)
    requires SamePorts(a, b) && S.InjectiveOn(AllAddresses(a), rank) && forall sp :: sp in rec ==> rec[sp].sourcePort == sp
    requires DistinctWants(Wants(spec, svc, a, rank)) && forall x :: x in Wants(spec, svc, a, rank) ==> x.Some?
    requires RecordedAfter(entries, Wants(spec, svc, a, rank), rec)
    requires DiffOf(Wants(spec, svc, b, rank), BySource(entries), deletions)
    ensures Additions(Wants(spec, svc, b, rank), BySource(entries), |spec|) == [] && deletions == []
    ensures |Kept(Wants(spec, svc, b, rank), BySource(entries), |spec|)| == |spec|
  {
    hide Want, Owns, Stays, RecordedAfter, Reflects, SamePorts, Wants, BySource;
    var w, rec' := Wants(spec, svc, b, rank), BySource(entries);
    WantsIgnoreOrder(spec, svc, a, b, rank);
    RecordedReflects(entries, w, rec);
    forall i | 0 <= i < |w| ensures w[i].Some? && Stays(w, rec', i) {
      assert w[i] in w;
      ReflectedStays(entries, w, i);
    }
    NothingToDo(w, rec', |w|);
    AllClaimed(entries, w);
    assert rec' - Claimed(w, |w|) == map[];
    NothingListed(deletions);
    assert deletions[0..] == deletions;
  }

  lemma NothingListed(s: seq<ForwardedPort>)
    ensures Lists(s, map[]) ==> s == []
  {
    assert s != [] ==> s[0] in s;
  }

  lemma AllClaimed(entries: seq<ForwardedPort>, w: Wanted)
    requires Reflects(entries, w)
    ensures forall sp :: sp in BySource(entries) ==> sp in Claimed(w, |w|)
  {
    hide Claimed;
    ClaimedExactly(w, |w|);
    forall sp | sp in BySource(entries) ensures sp in Claimed(w, |w|) {
      var i: nat :| Answers(BySource(entries)[sp], w, i);
    }
  }

  /** A service that moves from port 80 to 8080 behind a fixed host port keeps its old entry. */
  lemma StaleTargetPort(rank: string -> int)
    ensures var target, host := FromString("http"), FromInt(30080);
            var svc := Service("10.0.0.1", [ServicePort("http", TCP, 8080, target)]);
            var w := Wants([PortSpec(target, Some(30080))], svc, [], rank);
            var old_ := ForwardedPort(TCP, host, ["10.0.0.1"], 80, Ready);
            Additions(w, map[host := old_], 1) == [] && Kept(w, map[host := old_], 1) == [old_] && w[0].Some? && w[0].value.targetPort == 8080
  {
    var target, host := FromString("http"), FromInt(30080);
    var port := ServicePort("http", TCP, 8080, target);
    var svc := Service("10.0.0.1", [port]);
    var w := Wants([PortSpec(target, Some(30080))], svc, [], rank);
    assert ServicePortMatches(port, target);
    FirstIs(svc.ports, (p: ServicePort) => ServicePortMatches(p, target), 0);
    assert S.Sort(["10.0.0.1"], rank) == ["10.0.0.1"] by {
      assert S.Sort(["10.0.0.1"][1..], rank) == [];
    }
    assert w[0] == Want(PortSpec(target, Some(30080)), svc, [], rank);
    var rec := map[host := ForwardedPort(TCP, host, ["10.0.0.1"], 80, Ready)];
    assert Stays(w, rec, 0);
    assert Additions(w, rec, 0) == [] && Kept(w, rec, 0) == [];
  }
}
