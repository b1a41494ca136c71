/** Defaults for an ExternalProxy, and the name checks its service ports have to pass. */
module Defaulting {
  import opened Options
  import opened PortDiff

  datatype BackendPort = BackendPort(name: Option<string>, protocol: Option<string>, appProtocol: Option<string>, port: Option<int32>)

  datatype Backend = Backend(addresses: seq<string>, ports: seq<BackendPort>)

  datatype SvcPort = SvcPort(name: string, protocol: string, appProtocol: Option<string>, port: int32, targetPort: IntOrString)

  datatype PortRef = PortRef(name: string, number: int32)

  datatype Path = Path(path: string, pathType: Option<string>, backend: Option<PortRef>)

  datatype Rule = Rule(host: string, http: Option<seq<Path>>)

  datatype Ingress = Ingress(name: string, defaultBackend: Option<PortRef>, rules: seq<Rule>)

  datatype Spec = Spec(serviceName: string, serviceType: string, servicePorts: seq<SvcPort>, backends: seq<Backend>, ingress: Option<Ingress>)

  datatype Defaults = Defaults(serviceType: string, protocol: string, pathType: string)

  // ----- Backend ports

  function WithProtocol(p: BackendPort, protocol: string): BackendPort {
    if p.protocol.None? then p.(protocol := Some(protocol)) else p
  }

  function PortsWithProtocol(ports: seq<BackendPort>, protocol: string): (r: seq<BackendPort>)
    ensures |r| == |ports|
  {
    seq(|ports|, i requires 0 <= i < |ports| => WithProtocol(ports[i], protocol))
  }

  function BackendsWithProtocol(backends: seq<Backend>, protocol: string): (r: seq<Backend>)
    ensures |r| == |backends|
  {
    seq(|backends|, i requires 0 <= i < |backends| => backends[i].(ports := PortsWithProtocol(backends[i].ports, protocol)))
  }

  /** All backend ports in order. */
  function Flat(backends: seq<Backend>): seq<BackendPort> {
    if backends == [] then [] else Flat(backends[..|backends| - 1]) + backends[|backends| - 1].ports
  }

  // ----- Generated service ports

  predicate Named(p: BackendPort) {
    p.name.Some? && p.name.value != ""
  }

  /** Port `i` has a name that no port before it has. */
  predicate IsFirst(ports: seq<BackendPort>, i: nat)
    requires i < |ports|
  {
    Named(ports[i]) && forall j :: 0 <= j < i ==> ports[j].name != ports[i].name
  }

  function ServicePortOf(p: BackendPort): SvcPort {
    SvcPort(Deref(p.name, ""), Deref(p.protocol, ""), p.appProtocol, Deref(p.port, 0), FromString(Deref(p.name, "")))
  }

  /** The service ports generated for the first `n` backend ports: first occurrences, in order. */
  function Generated(ports: seq<BackendPort>, n: nat): seq<SvcPort>
    requires n <= |ports|
  {
    if n == 0 then [] else Generated(ports, n - 1) + (if IsFirst(ports, n - 1) then [ServicePortOf(ports[n - 1])] else [])
  }

  // ----- The ingress

  function DefaultedRef(r: Option<PortRef>, number: int32): PortRef {
    var ref := Deref(r, PortRef("", 0));
    if ref.name == "" && ref.number == 0 then ref.(number := number) else ref
  }

  function DefaultedPath(p: Path, number: int32, pathType: string): Path {
    Path(p.path, Some(Deref(p.pathType, pathType)), Some(DefaultedRef(p.backend, number)))
  }

  function DefaultedPaths(paths: seq<Path>, number: int32, pathType: string): (r: seq<Path>)
    ensures |r| == |paths|
  {
    seq(|paths|, i requires 0 <= i < |paths| => DefaultedPath(paths[i], number, pathType))
  }

  function PathsOf(r: Rule): seq<Path> {
    if r.http.Some? then r.http.value else [Path("/", None, None)]
  }

  function DefaultedRules(rules: seq<Rule>, number: int32, pathType: string): (r: seq<Rule>)
    ensures |r| == |rules|
  {
    seq(|rules|, i requires 0 <= i < |rules| => Rule(rules[i].host, Some(DefaultedPaths(PathsOf(rules[i]), number, pathType))))
  }

  function DefaultedIngress(name: string, ingress: Ingress, ports: seq<SvcPort>, pathType: string): Ingress {
    var named := ingress.(name := if ingress.name == "" then name else ingress.name);
    if |ports| != 1 then named
    else if ingress.rules == [] then named.(defaultBackend := Some(PortRef("", ports[0].port)))
    else named.(rules := DefaultedRules(ingress.rules, ports[0].port, pathType))
  }

  // ----- The whole

  function PortsAfter(s: Spec, d: Defaults): seq<SvcPort> {
    var ports := Flat(BackendsWithProtocol(s.backends, d.protocol));
    if s.servicePorts == [] then Generated(ports, |ports|) else s.servicePorts
  }

  function Defaulted(name: string, s: Spec, d: Defaults): Spec {
    var ports := PortsAfter(s, d);
    Spec(if s.serviceName == "" then name else s.serviceName, if s.serviceType == "" then d.serviceType else s.serviceType,
         ports, BackendsWithProtocol(s.backends, d.protocol),
         if s.ingress.None? then None else Some(DefaultedIngress(name, s.ingress.value, ports, d.pathType)))
  }

  predicate Numbered(ports: seq<BackendPort>, n: nat)
    requires n <= |ports|
  {
    forall i :: 0 <= i < n && IsFirst(ports, i) ==> ports[i].port.Some?
  }

  predicate HostOrHttp(rules: seq<Rule>) {
    forall i :: 0 <= i < |rules| ==> rules[i].host != "" || rules[i].http.Some?
  }

  /** When the defaults can be applied: otherwise a nil pointer is dereferenced. */
  predicate Safe(s: Spec, d: Defaults) {
    && (s.servicePorts == [] ==> Numbered(Flat(s.backends), |Flat(s.backends)|))
    && (s.ingress.Some? && |PortsAfter(s, d)| == 1 ==> HostOrHttp(s.ingress.value.rules))
  }

  lemma {:induction false} FlatWithProtocol(backends: seq<Backend>, protocol: string)
    ensures Flat(BackendsWithProtocol(backends, protocol)) == PortsWithProtocol(Flat(backends), protocol)
  {
    if backends != [] {
      var n := |backends| - 1;
      FlatWithProtocol(backends[..n], protocol);
      assert BackendsWithProtocol(backends, protocol)[..n] == BackendsWithProtocol(backends[..n], protocol);
      assert PortsWithProtocol(Flat(backends[..n]) + backends[n].ports, protocol)
          == PortsWithProtocol(Flat(backends[..n]), protocol) + PortsWithProtocol(backends[n].ports, protocol);
    }
  }

  lemma AllHaveProtocol(backends: seq<Backend>, protocol: string)
    ensures forall p :: p in Flat(BackendsWithProtocol(backends, protocol)) ==> p.protocol.Some?
    ensures |BackendsWithProtocol(backends, protocol)| == |backends|
  {
    hide Flat;
    FlatWithProtocol(backends, protocol);
  }

  lemma SameFirsts(ports: seq<BackendPort>, protocol: string)
    ensures forall i :: 0 <= i < |ports| ==> (IsFirst(PortsWithProtocol(ports, protocol), i) <==> IsFirst(ports, i))
    ensures Numbered(PortsWithProtocol(ports, protocol), |ports|) <==> Numbered(ports, |ports|)
  {
    var r := PortsWithProtocol(ports, protocol);
    assert forall i :: 0 <= i < |ports| ==> r[i].name == ports[i].name && r[i].port == ports[i].port;
  }

  class ExternalProxy {
    const name: string
    var spec: Spec

    constructor (name: string, spec: Spec)
      ensures this.name == name && this.spec == spec
    {
      this.name, this.spec := name, spec;
    }

    method DefaultBackends(protocol: string)
      modifies this
      ensures spec == old(spec).(backends := BackendsWithProtocol(old(spec.backends), protocol))
    {
      var i := 0;
      while i < |spec.backends|
        invariant 0 <= i <= |old(spec.backends)| == |spec.backends|
        invariant spec == old(spec).(backends := spec.backends)
        invariant forall x :: 0 <= x < i ==> spec.backends[x] == BackendsWithProtocol(old(spec.backends), protocol)[x]
        invariant forall x :: i <= x < |spec.backends| ==> spec.backends[x] == old(spec.backends)[x]
      {
        var ports := spec.backends[i].ports;
        var j := 0;
        while j < |ports|
          invariant 0 <= j <= |ports| == |spec.backends[i].ports|
          invariant forall x :: 0 <= x < j ==> ports[x] == WithProtocol(spec.backends[i].ports[x], protocol)
          invariant forall x :: j <= x < |ports| ==> ports[x] == spec.backends[i].ports[x]
        {
          if ports[j].protocol.None? {
            ports := ports[j := ports[j].(protocol := Some(protocol))];
          }
          j := j + 1;
        }
        assert ports == PortsWithProtocol(spec.backends[i].ports, protocol);
        spec := spec.(backends := spec.backends[i := spec.backends[i].(ports := ports)]);
        i := i + 1;
      }
      assert spec.backends == BackendsWithProtocol(old(spec.backends), protocol);
    }

    /** Takes one backend port over, unless its name is registered already. */
    method RegisterPort(port: BackendPort, registered: map<string, BackendPort>) returns (ok: bool, r: map<string, BackendPort>)
      requires port.protocol.Some?
      modifies this
      ensures var fresh_ := Named(port) && port.name.value !in registered;
              && ok == (fresh_ ==> port.port.Some?)
              && r == (if fresh_ then registered[port.name.value := port] else registered)
              && (ok ==> spec == old(spec).(servicePorts := old(spec.servicePorts) + (if fresh_ then [ServicePortOf(port)] else [])))
      ensures ok && Named(port) && port.name.value !in registered ==>
                spec.servicePorts == old(spec.servicePorts)
                  + [SvcPort(port.name.value, port.protocol.value, port.appProtocol, port.port.value, FromString(port.name.value))]
    {
      ok, r := true, registered;
      if port.name.Some? && |port.name.value| != 0 {
        if port.name.value !in registered {
          r := registered[port.name.value := port];
          if port.port.None? {
            ok := false;
            return;
          }
          spec := spec.(servicePorts := spec.servicePorts + [SvcPort(port.name.value, port.protocol.value, port.appProtocol,
                                                                     port.port.value, FromString(port.name.value))]);
        }
      }
    }

    /** Takes over the ports of one backend, which start at position `start` among all ports. */
    method RegisterPorts(ports: seq<BackendPort>, registered: map<string, BackendPort>, ghost all: seq<BackendPort>, ghost start: nat)
      returns (ok: bool, r: map<string, BackendPort>)
      requires start + |ports| <= |all| && ports == all[start..start + |ports|] && Numbered(all, start)
      requires (forall p :: p in ports ==> p.protocol.Some?) && forall name :: name in registered <==> Registered(all, start, name)
      requires spec.servicePorts == Generated(all, start)
      modifies this
      ensures ok == Numbered(all, start + |ports|)
      ensures ok ==> spec == old(spec).(servicePorts := Generated(all, start + |ports|))
      ensures ok ==> forall name :: name in r <==> Registered(all, start + |ports|, name)
    {
      hide Registered, IsFirst, Numbered;
      r := registered;
      var j := 0;
      while j < |ports|
        invariant 0 <= j <= |ports| && Numbered(all, start + j)
        invariant spec == old(spec).(servicePorts := Generated(all, start + j))
        invariant forall name :: name in r <==> Registered(all, start + j, name)
      {
        assert ports[j] == all[start + j] && ports[j] in ports;
        NextPort(all, start + j);
        ok, r := RegisterPort(ports[j], r);
        if !ok {
          NotNumbered(all, start + j, start + |ports|);
          return;
        }
        j := j + 1;
      }
      ok := true;
    }

    /** Extracts service ports from the backend ports; stops at a first occurrence without number. */
    method GeneratePorts() returns (ok: bool)
      requires spec.servicePorts == [] && forall p :: p in Flat(spec.backends) ==> p.protocol.Some?
      modifies this
      ensures var ports := Flat(old(spec.backends));
              && ok == Numbered(ports, |ports|)
              && (ok ==> spec == old(spec).(servicePorts := Generated(ports, |ports|)))
    {
      hide Registered, IsFirst, Numbered, Flat, Generated;
      var backends := spec.backends;
      ghost var all := Flat(backends);
      var registered: map<string, BackendPort> := map[];
      NothingRegistered(all);
      FlatStarts(backends);
      ghost var n := 0;
      var i := 0;
      while i < |backends|
        invariant 0 <= i <= |backends| && n == |Flat(backends[..i])| <= |all| && Numbered(all, n)
        invariant spec == old(spec).(servicePorts := Generated(all, n))
        invariant forall name :: name in registered <==> Registered(all, n, name)
      {
        var ports := backends[i].ports;
        FlatPrefix(backends, i);
        assert forall p :: p in ports ==> p in all[n..n + |ports|];
        ok, registered := RegisterPorts(ports, registered, all, n);
        if !ok {
          NumberedPrefix(all, n + |ports|);
          return;
        }
        n := n + |ports|;
        i := i + 1;
      }
      assert backends[..i] == backends;
      return true;
    }

    method DefaultPaths(paths: seq<Path>, number: int32, pathType: string) returns (r: seq<Path>)
      ensures r == DefaultedPaths(paths, number, pathType)
    {
      r := paths;
      var j := 0;
      while j < |paths|
        invariant 0 <= j <= |paths| == |r|
        invariant forall x :: 0 <= x < j ==> r[x] == DefaultedPath(paths[x], number, pathType)
        invariant forall x :: j <= x < |r| ==> r[x] == paths[x]
      {
        var path := r[j];
        if path.pathType.None? {
          path := path.(pathType := Some(pathType));
        }
        if path.backend.None? {
          path := path.(backend := Some(PortRef("", 0)));
        }
        if |path.backend.value.name| == 0 && path.backend.value.number == 0 {
          path := path.(backend := Some(path.backend.value.(number := number)));
        }
        r := r[j := path];
        j := j + 1;
      }
    }

    /** Default traffic rules for a service with one port; stops at a rule with neither host nor HTTP. */
    method DefaultRules(rules: seq<Rule>, number: int32, pathType: string) returns (ok: bool, r: seq<Rule>)
      ensures ok == HostOrHttp(rules)
      ensures ok ==> r == DefaultedRules(rules, number, pathType)
    {
      r := rules;
      var i := 0;
      while i < |rules|
        invariant 0 <= i <= |rules| == |r|
        invariant forall x :: 0 <= x < i ==> (rules[x].host != "" || rules[x].http.Some?) && r[x] == DefaultedRules(rules, number, pathType)[x]
        invariant forall x :: i <= x < |r| ==> r[x] == rules[x]
      {
        var rule := r[i];
        if rule.host != "" && rule.http.None? {
          rule := rule.(http := Some([Path("/", None, None)]));
        }
        if rule.http.None? {
          return false, r;
        }
        if |rule.http.value| != 0 {
          var paths := DefaultPaths(rule.http.value, number, pathType);
          rule := rule.(http := Some(paths));
        }
        assert rule.http.value == DefaultedPaths(PathsOf(rules[i]), number, pathType);
        r := r[i := rule];
        i := i + 1;
      }
      ok := true;
    }

    /** Applies the defaults.  It fails, by a nil pointer, exactly when they are not safe to apply. */
    method ApplyDefaults(d: Defaults) returns (ok: bool)
      modifies this
      ensures ok == Safe(old(spec), d) == NoNil(old(spec), PortsAfter(old(spec), d))
      ensures ok ==> spec == Defaulted(name, old(spec), d) && Filled(name, old(spec), spec, d)
    {
      hide Filled, DefaultedRules, IsFirst, BackendsWithProtocol, PortsWithProtocol;
      AllHaveProtocol(spec.backends, d.protocol);
      DefaultsFilled(name, spec, d);
      SafeExactly(spec, d);
      if |spec.serviceName| == 0 {
        spec := spec.(serviceName := name);
      }
      if |spec.serviceType| == 0 {
        spec := spec.(serviceType := d.serviceType);
      }
      ghost var ports := Flat(spec.backends);
      FlatWithProtocol(spec.backends, d.protocol);
      SameFirsts(ports, d.protocol);
      DefaultBackends(d.protocol);
      if |spec.servicePorts| == 0 && |spec.backends| != 0 {
        ok := GeneratePorts();
        if !ok {
          return;
        }
      }
      assert spec.servicePorts == PortsAfter(old(spec), d);
      if spec.ingress.Some? {
        var ingress := spec.ingress.value;
        if |ingress.name| == 0 {
          ingress := ingress.(name := name);
        }
        if |spec.servicePorts| == 1 && |ingress.rules| == 0 {
          ingress := ingress.(defaultBackend := Some(PortRef("", spec.servicePorts[0].port)));
        }
        if |spec.servicePorts| == 1 && |ingress.rules| != 0 {
          var rules;
          ok, rules := DefaultRules(ingress.rules, spec.servicePorts[0].port, d.pathType);
          if !ok {
            return;
          }
          ingress := ingress.(rules := rules);
        }
        spec := spec.(ingress := Some(ingress));
      }
      ok := true;
    }
  }

  /** The name occurs among the first `n` ports. */
  predicate Registered(ports: seq<BackendPort>, n: nat, name: string)
    requires n <= |ports|
  {
    name != "" && exists j :: 0 <= j < n && ports[j].name == Some(name)
  }

  lemma NextPort(ports: seq<BackendPort>, n: nat)
    requires n < |ports|
    ensures IsFirst(ports, n) <==> Named(ports[n]) && !Registered(ports, n, Deref(ports[n].name, ""))
    ensures forall name :: Registered(ports, n + 1, name) <==> Registered(ports, n, name) || (Named(ports[n]) && ports[n].name.value == name)
    ensures Numbered(ports, n) ==> (Numbered(ports, n + 1) <==> (IsFirst(ports, n) ==> ports[n].port.Some?))
  {
  }

  lemma FlatStarts(backends: seq<Backend>)
    ensures |Flat(backends[..0])| == 0
    ensures Generated(Flat(backends), 0) == []
  {
  }

  lemma NothingRegistered(ports: seq<BackendPort>)
    ensures Numbered(ports, 0) && forall name :: !Registered(ports, 0, name)
  {
  }

  lemma NotNumbered(ports: seq<BackendPort>, i: nat, n: nat)
    requires i < n <= |ports| && !Numbered(ports, i + 1)
    ensures !Numbered(ports, n)
  {
  }

  lemma NumberedPrefix(ports: seq<BackendPort>, n: nat)
    requires n <= |ports|
    ensures Numbered(ports, |ports|) ==> Numbered(ports, n)
  {
  }

  lemma {:induction false} FlatPrefix(backends: seq<Backend>, i: nat)
    requires i < |backends|
    ensures Flat(backends[..i + 1]) == Flat(backends[..i]) + backends[i].ports
    ensures Flat(backends[..i + 1]) <= Flat(backends)
    ensures var n := |Flat(backends[..i])|; n + |backends[i].ports| <= |Flat(backends)| && Flat(backends)[n..n + |backends[i].ports|] == backends[i].ports
    decreases |backends|
  {
    assert backends[..i + 1][..i] == backends[..i];
    if i == |backends| - 1 {
      assert backends[..i + 1] == backends;
    } else {
      var front := backends[..|backends| - 1];
      FlatPrefix(front, i);
      assert front[..i + 1] == backends[..i + 1] && front[..i] == backends[..i];
    }
  }

  // ----- Applying twice

  lemma PortsTwice(ports: seq<BackendPort>, protocol: string)
    ensures PortsWithProtocol(PortsWithProtocol(ports, protocol), protocol) == PortsWithProtocol(ports, protocol)
  {
  }

  lemma BackendsTwice(backends: seq<Backend>, protocol: string)
    ensures BackendsWithProtocol(BackendsWithProtocol(backends, protocol), protocol) == BackendsWithProtocol(backends, protocol)
  {
    var once := BackendsWithProtocol(backends, protocol);
    forall i | 0 <= i < |backends| ensures BackendsWithProtocol(once, protocol)[i] == once[i] {
      PortsTwice(backends[i].ports, protocol);
    }
  }

  lemma PathsTwice(paths: seq<Path>, number: int32, pathType: string)
    ensures DefaultedPaths(DefaultedPaths(paths, number, pathType), number, pathType) == DefaultedPaths(paths, number, pathType)
  {
  }

  lemma RulesTwice(rules: seq<Rule>, number: int32, pathType: string)
    ensures DefaultedRules(DefaultedRules(rules, number, pathType), number, pathType) == DefaultedRules(rules, number, pathType)
    ensures HostOrHttp(DefaultedRules(rules, number, pathType))
  {
    forall i | 0 <= i < |rules|
      ensures DefaultedRules(DefaultedRules(rules, number, pathType), number, pathType)[i] == DefaultedRules(rules, number, pathType)[i]
    {
      PathsTwice(PathsOf(rules[i]), number, pathType);
    }
  }

  lemma IngressTwice(name: string, ingress: Ingress, ports: seq<SvcPort>, pathType: string)
    ensures DefaultedIngress(name, DefaultedIngress(name, ingress, ports, pathType), ports, pathType) == DefaultedIngress(name, ingress, ports, pathType)
    ensures |ports| == 1 ==> HostOrHttp(DefaultedIngress(name, ingress, ports, pathType).rules)
  {
    hide DefaultedRules, HostOrHttp;
    if |ports| == 1 {
      RulesTwice(ingress.rules, ports[0].port, pathType);
      NoRules();
    }
  }

  lemma NoRules()
    ensures HostOrHttp([])
  {
  }

  /** Defaulting is idempotent, and whatever went through once goes through again. */
  lemma DefaultingIsIdempotent(name: string, s: Spec, d: Defaults)
    requires Safe(s, d)
    ensures Defaulted(name, Defaulted(name, s, d), d) == Defaulted(name, s, d) && Safe(Defaulted(name, s, d), d)
  {
    hide DefaultedIngress, HostOrHttp;
    var once := Defaulted(name, s, d);
    var ports := PortsAfter(s, d);
    BackendsTwice(s.backends, d.protocol);
    FlatWithProtocol(s.backends, d.protocol);
    SameFirsts(Flat(s.backends), d.protocol);
    assert PortsAfter(once, d) == ports;
    if s.ingress.Some? {
      IngressTwice(name, s.ingress.value, ports, d.pathType);
    }
  }

  // ----- What is filled in

  predicate PortFilled(p: BackendPort, q: BackendPort, protocol: string) {
    && q.name == p.name && q.appProtocol == p.appProtocol && q.port == p.port
    && q.protocol == (if p.protocol.Some? then p.protocol else Some(protocol))
  }

  predicate BackendFilled(a: Backend, b: Backend, protocol: string) {
    && b.addresses == a.addresses && |b.ports| == |a.ports|
    && forall j :: 0 <= j < |a.ports| ==> PortFilled(a.ports[j], b.ports[j], protocol)
  }

  /** A path without a port reference refers to the only service port. */
  predicate PathFilled(p: Path, q: Path, number: int32, pathType: string) {
    && q.path == p.path && q.pathType == (if p.pathType.Some? then p.pathType else Some(pathType))
    && q.backend == (if p.backend.None? || p.backend == Some(PortRef("", 0)) then Some(PortRef("", number)) else p.backend)
  }

  /** A rule without an HTTP part gets one path, the root. */
  predicate RuleFilled(r: Rule, q: Rule, number: int32, pathType: string) {
    && q.host == r.host && q.http.Some?
    && if r.http.None? then q.http.value == [Path("/", Some(pathType), Some(PortRef("", number)))]
       else && |q.http.value| == |r.http.value|
            && forall j :: 0 <= j < |r.http.value| ==> PathFilled(r.http.value[j], q.http.value[j], number, pathType)
  }

  /** Only with a single service port are there default rules: a default backend if no rule is given, and
  otherwise what the rules leave out. */
  predicate IngressFilled(name: string, a: Ingress, b: Ingress, ports: seq<SvcPort>, pathType: string) {
    && b.name == (if a.name == "" then name else a.name)
    && if |ports| != 1 then b.rules == a.rules && b.defaultBackend == a.defaultBackend
       else if a.rules == [] then b.rules == [] && b.defaultBackend == Some(PortRef("", ports[0].port))
       else && b.defaultBackend == a.defaultBackend && |b.rules| == |a.rules|
            && forall i :: 0 <= i < |a.rules| ==> RuleFilled(a.rules[i], b.rules[i], ports[0].port, pathType)
  }

  predicate Filled(name: string, a: Spec, b: Spec, d: Defaults) {
    && b.serviceName == (if a.serviceName == "" then name else a.serviceName)
    && b.serviceType == (if a.serviceType == "" then d.serviceType else a.serviceType)
    && (a.servicePorts != [] ==> b.servicePorts == a.servicePorts)
    && |b.backends| == |a.backends| && (forall i :: 0 <= i < |a.backends| ==> BackendFilled(a.backends[i], b.backends[i], d.protocol))
    && (b.ingress.None? <==> a.ingress.None?)
    && (a.ingress.Some? ==> IngressFilled(name, a.ingress.value, b.ingress.value, b.servicePorts, d.pathType))
  }

  /** No nil pointer is dereferenced: if the service ports are to be generated, the first backend port of every
  name has a number, and with a single service port no ingress rule lacks both host and HTTP part. */
  predicate NoNil(s: Spec, ports: seq<SvcPort>) {
    && (s.servicePorts == [] ==>
          var all := Flat(s.backends);
          forall i :: 0 <= i < |all| && all[i].name.Some? && all[i].name.value != "" && (forall j :: 0 <= j < i ==> all[j].name != all[i].name) ==> all[i].port.Some?)
    && (s.ingress.Some? && |ports| == 1 ==> forall r :: r in s.ingress.value.rules ==> r.host != "" || r.http.Some?)
  }

  lemma SafeExactly(s: Spec, d: Defaults)
    ensures Safe(s, d) == NoNil(s, PortsAfter(s, d))
  {
    hide Flat, PortsAfter;
    if s.ingress.Some? {
      HostOrHttpExactly(s.ingress.value.rules);
    }
  }

  lemma HostOrHttpExactly(rules: seq<Rule>)
    ensures HostOrHttp(rules) <==> forall r :: r in rules ==> r.host != "" || r.http.Some?
  {
    forall i | 0 <= i < |rules| ensures rules[i] in rules {
    }
  }

  lemma RulesFilled(r: Rule, number: int32, pathType: string)
    ensures RuleFilled(r, Rule(r.host, Some(DefaultedPaths(PathsOf(r), number, pathType))), number, pathType)
  {
  }

  /** Every field of the defaulted object is as given or filled in as described. */
  lemma DefaultsFilled(name: string, s: Spec, d: Defaults)
    ensures Filled(name, s, Defaulted(name, s, d), d)
  {
    hide Flat, Generated, RuleFilled, DefaultedPaths;
    forall r: Rule, number ensures RuleFilled(r, Rule(r.host, Some(DefaultedPaths(PathsOf(r), number, d.pathType))), number, d.pathType) {
      RulesFilled(r, number, d.pathType);
    }
  }

  // ----- The name checks

  datatype NameError = NoPorts | Missing(index: nat) | Duplicate(index: nat)

  predicate Repeats(ports: seq<SvcPort>, i: nat)
    requires i < |ports|
  {
    ports[i].name != "" && exists j :: 0 <= j < i && ports[j].name == ports[i].name
  }

  /** What is wrong with the name of port `i`. */
  function ErrorsAt(ports: seq<SvcPort>, i: nat): seq<NameError>
    requires i < |ports|
  {
    if |ports| > 1 && ports[i].name == "" then [Missing(i)] else if Repeats(ports, i) then [Duplicate(i)] else []
  }

  function NameErrors(ports: seq<SvcPort>, n: nat): seq<NameError>
    requires n <= |ports|
  {
    if n == 0 then (if ports == [] then [NoPorts] else []) else NameErrors(ports, n - 1) + ErrorsAt(ports, n - 1)
  }

  method ValidateServiceNames(ports: seq<SvcPort>) returns (errs: seq<NameError>)
    ensures errs == NameErrors(ports, |ports|)
    ensures errs == [] <==> ports != [] && DistinctNamed(ports)
    ensures forall i: nat :: Missing(i) in errs <==> i < |ports| && |ports| > 1 && ports[i].name == ""
    ensures forall i: nat :: Duplicate(i) in errs <==> i < |ports| && Repeats(ports, i)
    ensures NoPorts in errs <==> ports == []
  {
    hide DistinctNamed;
    errs := [];
    if |ports| == 0 {
      errs := [NoPorts];
    }
    var portNames: set<string> := {};
    var requireName := |ports| > 1;
    var i := 0;
    while i < |ports|
      invariant 0 <= i <= |ports| && errs == NameErrors(ports, i)
      invariant forall name :: name in portNames <==> name != "" && exists j :: 0 <= j < i && ports[j].name == name
    {
      var port := ports[i];
      if requireName && |port.name| == 0 {
        errs := errs + [Missing(i)];
      } else if |port.name| != 0 {
        if port.name in portNames {
          errs := errs + [Duplicate(i)];
        } else {
          portNames := portNames + {port.name};
        }
      }
      i := i + 1;
    }
    NameErrorsExactly(ports);
    ErrorsSaid(ports, |ports|);
  }

  predicate DistinctNamed(ports: seq<SvcPort>) {
    && (|ports| > 1 ==> forall i :: 0 <= i < |ports| ==> ports[i].name != "")
    && forall i, j :: 0 <= j < i < |ports| && ports[i].name != "" ==> ports[j].name != ports[i].name
  }

  lemma {:induction false} ErrorsSaid(ports: seq<SvcPort>, n: nat)
    requires n <= |ports|
    ensures forall i: nat :: Missing(i) in NameErrors(ports, n) <==> i < n && |ports| > 1 && ports[i].name == ""
    ensures forall i: nat :: Duplicate(i) in NameErrors(ports, n) <==> i < n && Repeats(ports, i)
    ensures NoPorts in NameErrors(ports, n) <==> ports == []
  {
    hide ErrorsAt, Repeats;
    if n > 0 {
      ErrorsSaid(ports, n - 1);
      ErrorAtSaid(ports, n - 1);
    }
  }

  lemma ErrorAtSaid(ports: seq<SvcPort>, i: nat)
    requires i < |ports|
    ensures forall e :: e in ErrorsAt(ports, i) ==> e == Missing(i) || e == Duplicate(i)
    ensures Missing(i) in ErrorsAt(ports, i) <==> |ports| > 1 && ports[i].name == ""
    ensures Duplicate(i) in ErrorsAt(ports, i) <==> Repeats(ports, i)
  {
    hide Repeats;
    assert Repeats(ports, i) ==> ports[i].name != "" by {
      RepeatsNamed(ports, i);
    }
  }

  lemma RepeatsNamed(ports: seq<SvcPort>, i: nat)
    requires i < |ports|
    ensures Repeats(ports, i) ==> ports[i].name != ""
  {
  }

  lemma {:induction false} NameErrorsUpTo(ports: seq<SvcPort>, n: nat)
    requires n <= |ports|
    ensures NameErrors(ports, n) == [] <==> ports != [] && forall i :: 0 <= i < n ==> ErrorsAt(ports, i) == []
  {
    hide ErrorsAt;
    if n > 0 {
      NameErrorsUpTo(ports, n - 1);
    }
  }

  /** The checks find nothing exactly when there is a port, the names are distinct, and none is missing
  where there are several. */
  lemma NameErrorsExactly(ports: seq<SvcPort>)
    ensures NameErrors(ports, |ports|) == [] <==> ports != [] && DistinctNamed(ports)
  {
    hide ErrorsAt, DistinctNamed;
    NameErrorsUpTo(ports, |ports|);
    if DistinctNamed(ports) {
      forall i | 0 <= i < |ports| ensures ErrorsAt(ports, i) == [] {
        FineAt(ports, i);
      }
    }
    if forall i :: 0 <= i < |ports| ==> ErrorsAt(ports, i) == [] {
      FineEverywhere(ports);
    }
  }

  lemma FineAt(ports: seq<SvcPort>, i: nat)
    requires DistinctNamed(ports) && i < |ports|
    ensures ErrorsAt(ports, i) == []
  {
  }

  lemma FineEverywhere(ports: seq<SvcPort>)
    requires forall i :: 0 <= i < |ports| ==> ErrorsAt(ports, i) == []
    ensures DistinctNamed(ports)
  {
    forall i | 0 <= i < |ports| ensures (|ports| > 1 ==> ports[i].name != "") && !Repeats(ports, i) {
      assert ErrorsAt(ports, i) == [];
    }
    forall i, j | 0 <= j < i < |ports| && ports[i].name != "" ensures ports[j].name != ports[i].name {
      assert !Repeats(ports, i);
    }
  }

  // ----- What is generated

  /** The service port carries over the name, protocol and number of backend port `i`, the first of its name,
  and has the name for a target. */
  predicate FirstAt(ports: seq<BackendPort>, i: nat, s: SvcPort) {
    && i < |ports| && ports[i].name.Some? && ports[i].name.value != "" && (forall j :: 0 <= j < i ==> ports[j].name != ports[i].name)
    && s.name == ports[i].name.value && s.targetPort == FromString(ports[i].name.value) && s.appProtocol == ports[i].appProtocol
    && s.protocol == (if ports[i].protocol.Some? then ports[i].protocol.value else "")
    && s.port == (if ports[i].port.Some? then ports[i].port.value else 0)
  }

  lemma {:induction false} GeneratedAreFirsts(ports: seq<BackendPort>, n: nat)
    requires n <= |ports|
    ensures forall s :: s in Generated(ports, n) ==> exists i: nat :: i < n && FirstAt(ports, i, s)
  {
    hide FirstAt, IsFirst;
    if n > 0 {
      GeneratedAreFirsts(ports, n - 1);
      if IsFirst(ports, n - 1) {
        FirstItself(ports, n - 1);
      }
    }
  }

  lemma FirstItself(ports: seq<BackendPort>, i: nat)
    requires i < |ports| && IsFirst(ports, i)
    ensures FirstAt(ports, i, ServicePortOf(ports[i]))
  {
  }

  lemma FirstIsService(ports: seq<BackendPort>, i: nat, s: SvcPort)
    ensures FirstAt(ports, i, s) <==> i < |ports| && IsFirst(ports, i) && s == ServicePortOf(ports[i])
  {
  }

  lemma TwoFirstsDiffer(ports: seq<BackendPort>, i: nat, j: nat, s: SvcPort, u: SvcPort)
    requires i < j && FirstAt(ports, i, s) && FirstAt(ports, j, u)
    ensures s.name != u.name && s.name != "" && u.name != ""
  {
    assert ports[i].name != ports[j].name;
  }

  lemma {:induction false} GeneratedDistinct(ports: seq<BackendPort>, n: nat)
    requires n <= |ports|
    ensures forall x, y :: 0 <= x < y < |Generated(ports, n)| ==> Generated(ports, n)[x].name != Generated(ports, n)[y].name
  {
    hide FirstAt, IsFirst;
    if n > 0 {
      GeneratedDistinct(ports, n - 1);
      GeneratedAreFirsts(ports, n - 1);
      var before := Generated(ports, n - 1);
      if IsFirst(ports, n - 1) {
        FirstItself(ports, n - 1);
        forall x | 0 <= x < |before| ensures before[x].name != ServicePortOf(ports[n - 1]).name {
          assert before[x] in before;
          var i: nat :| i < n - 1 && FirstAt(ports, i, before[x]);
          TwoFirstsDiffer(ports, i, n - 1, before[x], ServicePortOf(ports[n - 1]));
        }
      }
    }
  }

  lemma OneFirst(ports: seq<BackendPort>, i: nat, j: nat, s: SvcPort)
    requires FirstAt(ports, i, s) && FirstAt(ports, j, s)
    ensures i == j
  {
    hide FirstAt;
    if i < j {
      TwoFirstsDiffer(ports, i, j, s, s);
    } else if j < i {
      TwoFirstsDiffer(ports, j, i, s, s);
    }
  }

  lemma {:induction false} GeneratedOrdered(ports: seq<BackendPort>, n: nat, x: nat, y: nat, i: nat, j: nat)
    requires n <= |ports| && x < y < |Generated(ports, n)|
    requires FirstAt(ports, i, Generated(ports, n)[x]) && FirstAt(ports, j, Generated(ports, n)[y])
    ensures i < j
  {
    hide FirstAt, IsFirst;
    var before := Generated(ports, n - 1);
    if y < |before| {
      GeneratedOrdered(ports, n - 1, x, y, i, j);
    } else {
      FirstItself(ports, n - 1);
      OneFirst(ports, j, n - 1, ServicePortOf(ports[n - 1]));
      GeneratedAreFirsts(ports, n - 1);
      assert before[x] in before;
      var f: nat :| f < n - 1 && FirstAt(ports, f, before[x]);
      OneFirst(ports, i, f, before[x]);
    }
  }

  lemma FirstOccurrence(ports: seq<BackendPort>, i: nat) returns (f: nat)
    requires i < |ports| && Named(ports[i])
    ensures f <= i && IsFirst(ports, f) && ports[f].name == ports[i].name
    decreases i
  {
    if IsFirst(ports, i) {
      f := i;
    } else {
      var j :| 0 <= j < i && ports[j].name == ports[i].name;
      f := FirstOccurrence(ports, j);
    }
  }

  lemma {:induction false} FirstIsGenerated(ports: seq<BackendPort>, n: nat, i: nat)
    requires i < n <= |ports| && IsFirst(ports, i)
    ensures ServicePortOf(ports[i]) in Generated(ports, n)
  {
    if i < n - 1 {
      FirstIsGenerated(ports, n - 1, i);
    }
  }

  ghost predicate GeneratedFor(ports: seq<BackendPort>, s: SvcPort) {
    exists i: nat :: FirstAt(ports, i, s)
  }

  /** Generated ports carry the distinct non-empty backend port names, each with the number of its
  first occurrence and in the order of these, and no name is left out. */
  lemma GeneratedExactly(ports: seq<BackendPort>)
    ensures forall s :: s in Generated(ports, |ports|) <==> GeneratedFor(ports, s)
    ensures forall i :: 0 <= i < |ports| && Named(ports[i]) ==> exists s :: s in Generated(ports, |ports|) && s.name == ports[i].name.value
    ensures forall x, y :: 0 <= x < y < |Generated(ports, |ports|)| ==> Generated(ports, |ports|)[x].name != Generated(ports, |ports|)[y].name
    ensures forall x, y, i: nat, j: nat ::
              0 <= x < y < |Generated(ports, |ports|)| && FirstAt(ports, i, Generated(ports, |ports|)[x]) && FirstAt(ports, j, Generated(ports, |ports|)[y])
              ==> i < j
  {
    hide Generated;
    GeneratedAreFirsts(ports, |ports|);
    forall x, y, i: nat, j: nat | 0 <= x < y < |Generated(ports, |ports|)|
        && FirstAt(ports, i, Generated(ports, |ports|)[x]) && FirstAt(ports, j, Generated(ports, |ports|)[y])
      ensures i < j
    {
      GeneratedOrdered(ports, |ports|, x, y, i, j);
    }
    GeneratedDistinct(ports, |ports|);
    forall s ensures s in Generated(ports, |ports|) <==> GeneratedFor(ports, s) {
      if GeneratedFor(ports, s) {
        var i: nat :| FirstAt(ports, i, s);
        FirstIsService(ports, i, s);
        FirstIsGenerated(ports, |ports|, i);
      }
    }
    forall i | 0 <= i < |ports| && Named(ports[i]) ensures exists s :: s in Generated(ports, |ports|) && s.name == ports[i].name.value {
      var f := FirstOccurrence(ports, i);
      FirstIsGenerated(ports, |ports|, f);
    }
  }

  /** The validator finds no missing and no duplicate name among generated ports. */
  lemma GeneratedPassTheChecks(name: string, s: Spec, d: Defaults)
    requires Safe(s, d) && s.servicePorts == []
    ensures var ports := Defaulted(name, s, d).servicePorts;
            NameErrors(ports, |ports|) == if ports == [] then [NoPorts] else []
  {
    hide Generated;
    var all := Flat(BackendsWithProtocol(s.backends, d.protocol));
    GeneratedExactly(all);
    var ports := Defaulted(name, s, d).servicePorts;
    NameErrorsExactly(ports);
    forall x | 0 <= x < |ports| ensures ports[x].name != "" {
      assert ports[x] in ports && GeneratedFor(all, ports[x]);
    }
  }
}
