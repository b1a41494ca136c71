/** The compiler from a forwarding to the rules and sets of four chains. */
module Forwardings {
  import opened Encoding
  import opened Conditions
  import Sorting
  import E = Expressions

  datatype Transport = TCP | UDP

  /** An IPv4 address in network byte order. */
  type Ip = b: Bytes | |b| == 4 witness [0, 0, 0, 0]

  datatype Forwarding = Forwarding(proto: Transport, from: uint16, targets: seq<Ip>, to: uint16)

  /** The hook of each of the four chains. */
  datatype Hook = Prerouting | Postrouting | Forward | Output

  /** The random ids drawn for the sets of one forwarding. */
  datatype Ids = Ids(pre: uint32, post: uint32, forward: uint32, output: uint32) {
    function For(hook: Hook): uint32 {
      match hook
      case Prerouting => pre
      case Postrouting => post
      case Forward => forward
      case Output => output
    }
  }

  /** Callers pass at least one parsed IPv4 address. */
  predicate Valid(f: Forwarding) {
    0 < |f.targets| < 0x1_0000_0000
  }

  function ProtoByte(proto: Transport): byte {
    if proto.TCP? then 6 else 17
  }

  // ----- Targets in canonical order

  /** For addresses of one length the order of `bytes.Compare` is that of the numbers they spell. */
  function IpRank(ip: Ip): int {
    Spelled(ip)
  }

  function Sorted(f: Forwarding): (r: seq<Ip>)
    ensures multiset(r) == multiset(f.targets) && |r| == |f.targets|
  {
    Sorting.Sort(f.targets, IpRank)
  }

  lemma SortedIgnoresOrder(f: Forwarding, g: Forwarding)
    requires multiset(f.targets) == multiset(g.targets)
    ensures Sorted(f) == Sorted(g)
  {
    forall x, y | x in f.targets && y in f.targets && IpRank(x) == IpRank(y) ensures x == y {
      SpelledInjective(x, y);
    }
    Sorting.SortIgnoresOrder(f.targets, g.targets, IpRank);
  }

  /** `a` is the smaller address, compared byte by byte. */
  predicate Smaller(a: Ip, b: Ip) {
    exists k :: 0 <= k < 4 && a[..k] == b[..k] && a[k] < b[k]
  }

  lemma SpelledFour(a: Ip)
    ensures Spelled(a) == Word16(Word16(Word16(a[0], a[1]), a[2]), a[3])
  {
    assert a[..3][..2] == a[..2] && a[..2][..1] == a[..1];
    assert Spelled(a[..1]) == Spelled(a[..1][..0]) * 0x100 + a[0];
    assert Spelled(a[..2]) == Spelled(a[..1]) * 0x100 + a[1];
    assert Spelled(a[..3]) == Spelled(a[..2]) * 0x100 + a[2];
  }

  lemma SmallerSpells(a: Ip, b: Ip)
    requires a != b && Spelled(a) <= Spelled(b)
    ensures Smaller(a, b)
  {
    SpelledFour(a);
    SpelledFour(b);
    var k := if a[0] != b[0] then 0 else if a[1] != b[1] then 1 else if a[2] != b[2] then 2 else 3;
    assert a == [a[0], a[1], a[2], a[3]] && b == [b[0], b[1], b[2], b[3]];
    assert a[..k] == b[..k] && a[k] < b[k];
  }

  /** The targets come in the order of their bytes, from the smallest on. */
  lemma SortedInOrder(f: Forwarding)
    ensures var ips := Sorted(f); forall i, j :: 0 <= i < j < |ips| && ips[i] != ips[j] ==> Smaller(ips[i], ips[j])
  {
    var ips := Sorted(f);
    Sorting.SortSorts(f.targets, IpRank);
    forall i, j | 0 <= i < j < |ips| && ips[i] != ips[j] ensures Smaller(ips[i], ips[j]) {
      assert IpRank(ips[i]) <= IpRank(ips[j]);
      SmallerSpells(ips[i], ips[j]);
    }
  }

  // ----- Names

  function LowerChar(c: char): char {
    if 'A' <= c <= 'Z' then (c as int + 32) as char else c
  }

  function ToLower(s: string): (r: string)
    ensures |r| == |s|
  {
    seq(|s|, i requires 0 <= i < |s| => LowerChar(s[i]))
  }

  function Suffix(hook: Hook): string {
    match hook
    case Prerouting => "pre"
    case Postrouting => "post"
    case Forward => "forward"
    case Output => "output"
  }

  function InternalName(instance: string, from: uint16, hook: Hook): string {
    ToLower("__map_" + instance + "_" + Decimal(from) + "_" + Suffix(hook))
  }

  /** Within one instance a set name determines port and chain; the protocol is not part of it. */
  lemma InternalNameExactly(instance: string, p: uint16, a: Hook, q: uint16, b: Hook)
    ensures InternalName(instance, p, a) == InternalName(instance, q, b) <==> p == q && a == b
  {
    hide ToLower, Decimal, Suffix;
    var prefix := "__map_" + instance + "_";
    var s, t := "_" + Suffix(a), "_" + Suffix(b);
    var x, y := ToLower(prefix + Decimal(p) + s), ToLower(prefix + Decimal(q) + t);
    assert "__map_" + instance + "_" + Decimal(p) + "_" + Suffix(a) == prefix + Decimal(p) + s;
    assert "__map_" + instance + "_" + Decimal(q) + "_" + Suffix(b) == prefix + Decimal(q) + t;
    if x == y {
      NameParts(prefix, p, a);
      NameParts(prefix, q, b);
      assert Decimal(p) + s == x[|prefix|..] == y[|prefix|..] == Decimal(q) + t;
      NumeralPrefixInjective(p, q, s, t);
      assert Suffix(a) == s[1..] == t[1..] == Suffix(b);
      SuffixInjective(a, b);
    }
  }

  lemma SuffixInjective(a: Hook, b: Hook)
    requires Suffix(a) == Suffix(b)
    ensures a == b
  {
    assert |Suffix(a)| == |Suffix(b)| && Suffix(a)[0] == Suffix(b)[0];
  }

  lemma NameParts(prefix: string, p: uint16, a: Hook)
    ensures var s := "_" + Suffix(a);
            ToLower(prefix + Decimal(p) + s) == ToLower(prefix) + (Decimal(p) + s)
  {
    var s := "_" + Suffix(a);
    assert forall i :: 0 <= i < |s| ==> LowerChar(s[i]) == s[i];
    assert forall i :: 0 <= i < |Decimal(p)| ==> LowerChar(Decimal(p)[i]) == Decimal(p)[i];
  }

  /** Kind, instance, port and chain, the instance in lower case. */
  lemma InternalNameSpelled(instance: string, from: uint16, hook: Hook)
    ensures InternalName(instance, from, hook) ==
              ToLower("__map_" + instance + "_") + (Decimal(from) + match hook case Prerouting => "_pre" case Postrouting => "_post"
                                                                             case Forward => "_forward" case Output => "_output")
  {
    hide ToLower, Decimal;
    var prefix, s := "__map_" + instance + "_", "_" + Suffix(hook);
    assert prefix + Decimal(from) + "_" + Suffix(hook) == prefix + Decimal(from) + s;
    NameParts(prefix, from, hook);
    match hook
    case Prerouting => assert s == "_pre";
    case Postrouting => assert s == "_post";
    case Forward => assert s == "_forward";
    case Output => assert s == "_output";
  }

  lemma TwoDigits(tens: nat, units: nat)
    requires 0 < tens < 10 && units < 10
    ensures Decimal(10 * tens + units) == [DigitChar(tens), DigitChar(units)]
  {
    LowAndRest(10 * tens + units, 10);
    assert Low(10 * tens + units, 10) == units && Rest(10 * tens + units, 10) == tens;
  }

  /** Kind, instance, port and chain, all in lower case. */
  lemma InternalNameExample()
    ensures InternalName("NODE", 53, Prerouting) == "__map_node_53_pre"
  {
    TwoDigits(5, 3);
    assert Decimal(53) == "53";
  }

  // ----- Rules

  function Outgoing(instance: string, f: Forwarding, hook: Hook, id: uint32): Dynamic {
    var ips := Sorted(f);
    if |ips| == 1 then ImmediateIp(ips[0])
    else LoadBalancing(id, InternalName(instance, f.from, hook), Wrap32(|f.targets|))
  }

  function Incoming(instance: string, f: Forwarding, hook: Hook, id: uint32): Dynamic {
    var ips := Sorted(f);
    if |ips| == 1 then CompareEqualsIp(ips[0]) else LookupIp(id, InternalName(instance, f.from, hook))
  }

  /** The rule that a forwarding contributes to a chain; `id` is the random id of its set. */
  function RuleCondition(instance: string, f: Forwarding, hook: Hook, id: uint32): (c: Condition)
    ensures c.Combine? && |c.conditions| >= 5 && forall i :: 0 <= i < |c.conditions| ==> !c.conditions[i].Combine?
  {
    match hook
    case Prerouting => Combine([
      TransportProtocol(ProtoByte(f.proto)),
      DestinationPort(f.from),
      Counter,
      SetTrackingMark(f.from),
      DestinationNat(Outgoing(instance, f, hook, id), f.to)])
    case Postrouting => Combine([
      DestinationIp(Incoming(instance, f, hook, id)),
      TransportProtocol(ProtoByte(f.proto)),
      DestinationPort(f.to),
      TrackingMark(f.from),
      Counter,
      Masquerade])
    case Forward => Combine([
      DestinationIp(Incoming(instance, f, hook, id)),
      TransportProtocol(ProtoByte(f.proto)),
      DestinationPort(f.to),
      TrackingMark(f.from),
      Counter,
      Accept])
    case Output => Combine([
      SourceLocalAddr,
      TransportProtocol(ProtoByte(f.proto)),
      DestinationPort(f.from),
      Counter,
      DestinationNat(Outgoing(instance, f, hook, id), f.to)])
  }

  function RuleExprs(instance: string, f: Forwarding, hook: Hook, id: uint32): Exprs {
    Built(RuleCondition(instance, f, hook, id))
  }

  /** The elements of the set behind a rule, if the rule needs one: targets by index for the
  chains that rewrite, plain addresses for the chains that filter. */
  function SetElements(f: Forwarding, hook: Hook): (elements: map<Bytes, Bytes>) {
    if hook.Prerouting? || hook.Output? then IndexMap(Sorted(f), |f.targets|)
    else map ip | ip in Sorted(f) :: []
  }

  function IndexMap(ips: seq<Ip>, n: nat): map<Bytes, Bytes>
    requires n <= |ips|
  {
    if n == 0 then map[] else IndexMap(ips, n - 1)[NativeEndian32(Wrap32(n - 1)) := ips[n - 1]]
  }

  // ----- Recognition

  /** When the rule of one forwarding is taken for the rule of another. */
  predicate SameRule(f: Forwarding, g: Forwarding, hook: Hook) {
    && f.proto == g.proto && f.from == g.from && f.to == g.to
    && (if |f.targets| == 1 || |g.targets| == 1 then f.targets == g.targets
        else (hook.Prerouting? || hook.Output?) ==> |f.targets| == |g.targets|)
  }

  lemma SingleTarget(f: Forwarding)
    ensures |f.targets| == 1 ==> Sorted(f) == f.targets
  {
    if |f.targets| == 1 {
      assert Sorted(f)[0] in multiset(f.targets);
    }
  }

  predicate ConditionsAgree(cs: seq<Condition>, ds: seq<Condition>)
    requires |cs| == |ds|
  {
    forall i :: 0 <= i < |cs| ==> E.AgreesPointwise(Built(cs[i]), Built(ds[i]))
  }

  /** Two combinations whose members have equal lengths, the last one excepted, agree exactly
  when their members do. */
  lemma {:induction false} MembersAgree(cs: seq<Condition>, ds: seq<Condition>)
    requires |cs| == |ds| > 0
    requires forall i :: 0 <= i < |cs| - 1 ==> |Built(cs[i])| == |Built(ds[i])|
    ensures E.AgreesPointwise(BuiltAll(cs), BuiltAll(ds)) <==> ConditionsAgree(cs, ds)
  {
    if |cs| == 1 {
      assert BuiltAll(cs[1..]) == [] && BuiltAll(ds[1..]) == [];
      assert BuiltAll(cs) == Built(cs[0]) && BuiltAll(ds) == Built(ds[0]);
    } else {
      AgreesPointwiseConcat(Built(cs[0]), BuiltAll(cs[1..]), Built(ds[0]), BuiltAll(ds[1..]));
      MembersAgree(cs[1..], ds[1..]);
      if ConditionsAgree(cs[1..], ds[1..]) && E.AgreesPointwise(Built(cs[0]), Built(ds[0])) {
        forall i | 0 <= i < |cs| ensures E.AgreesPointwise(Built(cs[i]), Built(ds[i])) {
          if i > 0 {
            assert cs[i] == cs[1..][i - 1] && ds[i] == ds[1..][i - 1];
          }
        }
      }
      if ConditionsAgree(cs, ds) {
        forall i | 0 <= i < |cs| - 1 ensures E.AgreesPointwise(Built(cs[1..][i]), Built(ds[1..][i])) {
          assert cs[1..][i] == cs[i + 1] && ds[1..][i] == ds[i + 1];
        }
      }
    }
  }

  predicate DynamicAgrees(a: Dynamic, b: Dynamic) {
    match a
    case ImmediateIp(ip) => a == b
    case CompareEqualsIp(ip) => a == b
    case LoadBalancing(id, name, size) => b.LoadBalancing? && b.size == size && (b.setId == id || b.setName == name)
    case LookupIp(id, name) => b.LookupIp? && (b.setId == id || b.setName == name)
  }

  /** Member by member, agreement compares exactly the parameters of the two conditions. */
  lemma MemberAgrees(c: Condition, d: Condition)
    requires !c.Combine? && !d.Combine?
    ensures c.Counter? && d.Counter? ==> E.AgreesPointwise(Built(c), Built(d))
    ensures c == d ==> E.AgreesPointwise(Built(c), Built(d))
    ensures c.TransportProtocol? && d.TransportProtocol? ==> (E.AgreesPointwise(Built(c), Built(d)) <==> c == d)
    ensures c.DestinationPort? && d.DestinationPort? ==> (E.AgreesPointwise(Built(c), Built(d)) <==> c == d)
    ensures c.TrackingMark? && d.TrackingMark? ==> (E.AgreesPointwise(Built(c), Built(d)) <==> c == d)
    ensures c.SetTrackingMark? && d.SetTrackingMark? ==> (E.AgreesPointwise(Built(c), Built(d)) <==> c == d)
  {
    var x, y := Built(c), Built(d);
    if c.TransportProtocol? && d.TransportProtocol? {
      assert E.AgreesPointwise(x, y) ==> E.Agrees(x[1], y[1]) && [c.proto][0] == [d.proto][0];
    } else if c.DestinationPort? && d.DestinationPort? {
      assert E.AgreesPointwise(x, y) ==> E.Agrees(x[1], y[1]);
      BigEndian16Injective(c.port, d.port);
    } else if c.TrackingMark? && d.TrackingMark? {
      assert E.AgreesPointwise(x, y) ==> E.Agrees(x[1], y[1]);
      NativeEndian32Injective(c.mark, d.mark);
    } else if c.SetTrackingMark? && d.SetTrackingMark? {
      assert E.AgreesPointwise(x, y) ==> E.Agrees(x[0], y[0]);
      NativeEndian32Injective(c.mark, d.mark);
    }
  }

  lemma DynamicMemberAgrees(a: Dynamic, b: Dynamic, reg: E.Register)
    ensures E.AgreesPointwise(BuiltDynamic(a, reg), BuiltDynamic(b, reg)) <==> DynamicAgrees(a, b)
  {
    var x, y := BuiltDynamic(a, reg), BuiltDynamic(b, reg);
    assert E.AgreesPointwise(x, y) ==> E.Agrees(x[0], y[0]) && E.Agrees(x[|x| - 1], y[|y| - 1]);
  }

  lemma TargetMemberAgrees(a: Dynamic, b: Dynamic, p: uint16, q: uint16)
    ensures E.AgreesPointwise(Built(DestinationIp(a)), Built(DestinationIp(b))) <==> DynamicAgrees(a, b)
    ensures E.AgreesPointwise(Built(DestinationNat(a, p)), Built(DestinationNat(b, q))) <==> DynamicAgrees(a, b) && p == q
  {
    var x, y := BuiltDynamic(a, 1), BuiltDynamic(b, 1);
    var load := [E.Payload(E.NetworkHeader, 16, 4, 1)];
    DynamicMemberAgrees(a, b, 1);
    AgreesPointwiseConcat(load, x, load, y);
    var m, n := [E.Immediate(2, BigEndian16(p)), E.DestNat(1, 2, true)], [E.Immediate(2, BigEndian16(q)), E.DestNat(1, 2, true)];
    BigEndian16Injective(p, q);
    if |x| == |y| {
      AgreesPointwiseConcat(x, m, y, n);
      assert E.AgreesPointwise(m, n) <==> E.Agrees(m[0], n[0]);
    }
  }

  /** Recognition ignores the random ids, never confuses two protocols or two host ports, and sees
  several targets only through their number, in the filtering chains not even that. */
  lemma RecognisesExactly(instance: string, hook: Hook, f: Forwarding, id: uint32, g: Forwarding, id': uint32)
    requires Valid(f) && Valid(g)
    ensures Recognised(RuleCondition(instance, f, hook, id), RuleExprs(instance, g, hook, id')) <==> SameRule(f, g, hook)
  {
    var c, d := RuleCondition(instance, f, hook, id), RuleCondition(instance, g, hook, id');
    RuleConditionSolid(instance, f, hook, id);
    RuleConditionSolid(instance, g, hook, id');
    RecognisedExactly(c, Built(d));
    RuleLengths(instance, hook, f, id, g, id');
    if hook.Prerouting? || hook.Output? {
      RewritersAgree(instance, hook, f, id, g, id');
    } else {
      FiltersAgree(instance, hook, f, id, g, id');
    }
    MembersAgree(c.conditions, d.conditions);
  }

  predicate MemberSame(c: Condition, d: Condition) {
    E.AgreesPointwise(Built(c), Built(d))
  }

  lemma AgreeHeadTail(c: Condition, cs: seq<Condition>, d: Condition, ds: seq<Condition>)
    requires |cs| == |ds|
    ensures ConditionsAgree([c] + cs, [d] + ds) <==> MemberSame(c, d) && ConditionsAgree(cs, ds)
  {
    var xs, ys := [c] + cs, [d] + ds;
    if ConditionsAgree(xs, ys) {
      assert MemberSame(xs[0], ys[0]);
      forall i | 0 <= i < |cs| ensures MemberSame(cs[i], ds[i]) {
        assert MemberSame(xs[i + 1], ys[i + 1]);
      }
    }
  }

  lemma AgreeFour(c: seq<Condition>, d: seq<Condition>)
    requires |c| == |d| == 4
    ensures ConditionsAgree(c, d) <==>
              MemberSame(c[0], d[0]) && MemberSame(c[1], d[1]) && MemberSame(c[2], d[2]) && MemberSame(c[3], d[3])
  {
    if MemberSame(c[0], d[0]) && MemberSame(c[1], d[1]) && MemberSame(c[2], d[2]) && MemberSame(c[3], d[3]) {
      forall i | 0 <= i < 4 ensures MemberSame(c[i], d[i]) {
        assert i == 0 || i == 1 || i == 2 || i == 3;
      }
    }
  }

  lemma AgreeSix(c: seq<Condition>, d: seq<Condition>)
    requires |c| == |d| && 5 <= |c| <= 6
    ensures ConditionsAgree(c, d) <==>
              && MemberSame(c[0], d[0]) && MemberSame(c[1], d[1]) && MemberSame(c[2], d[2])
              && MemberSame(c[3], d[3]) && MemberSame(c[4], d[4]) && (|c| == 6 ==> MemberSame(c[5], d[5]))
  {
    hide MemberSame, ConditionsAgree;
    assert c == [c[0]] + c[1..] && d == [d[0]] + d[1..];
    AgreeHeadTail(c[0], c[1..], d[0], d[1..]);
    if |c| == 5 {
      AgreeFour(c[1..], d[1..]);
    } else {
      assert c[1..] == [c[1]] + c[2..] && d[1..] == [d[1]] + d[2..];
      AgreeHeadTail(c[1], c[2..], d[1], d[2..]);
      AgreeFour(c[2..], d[2..]);
    }
  }

  /** The number of expressions of a condition that is neither a combination nor a rewrite. */
  function Width(c: Condition): nat {
    match c
    case Counter => 1
    case Masquerade => 1
    case Accept => 1
    case Jump(_) => 1
    case TrackingEstablishedRelated => 3
    case _ => 2
  }

  lemma WidthIsLength(c: Condition)
    requires !c.Combine? && !c.DestinationNat? && (c.DestinationIp? ==> !c.target.LoadBalancing?)
    ensures |Built(c)| == Width(c)
  {
  }

  lemma IncomingPlain(instance: string, f: Forwarding, hook: Hook, id: uint32)
    ensures !Incoming(instance, f, hook, id).LoadBalancing?
  {
  }

  lemma RuleLengths(instance: string, hook: Hook, f: Forwarding, id: uint32, g: Forwarding, id': uint32)
    ensures var cs, ds := RuleCondition(instance, f, hook, id).conditions, RuleCondition(instance, g, hook, id').conditions;
            && |cs| == |ds|
            && forall i :: 0 <= i < |cs| - 1 ==> |Built(cs[i])| == |Built(ds[i])|
  {
    hide Built, Outgoing, Incoming, ProtoByte;
    IncomingPlain(instance, f, hook, id);
    IncomingPlain(instance, g, hook, id');
    var cs, ds := RuleCondition(instance, f, hook, id).conditions, RuleCondition(instance, g, hook, id').conditions;
    forall i | 0 <= i < |cs| - 1 ensures |Built(cs[i])| == |Built(ds[i])| {
      WidthIsLength(cs[i]);
      WidthIsLength(ds[i]);
    }
  }

  lemma RewritersAgree(instance: string, hook: Hook, f: Forwarding, id: uint32, g: Forwarding, id': uint32)
    requires Valid(f) && Valid(g) && (hook.Prerouting? || hook.Output?)
    ensures var cs, ds := RuleCondition(instance, f, hook, id).conditions, RuleCondition(instance, g, hook, id').conditions;
            |cs| == |ds| && (ConditionsAgree(cs, ds) <==> SameRule(f, g, hook))
  {
    hide MemberSame, ConditionsAgree, Outgoing, Incoming, Built;
    var cs, ds := RuleCondition(instance, f, hook, id).conditions, RuleCondition(instance, g, hook, id').conditions;
    AgreeSix(cs, ds);
    MatchersAgree(f, g);
    TargetsAgree(instance, hook, f, id, g, id');
  }

  lemma FiltersAgree(instance: string, hook: Hook, f: Forwarding, id: uint32, g: Forwarding, id': uint32)
    requires Valid(f) && Valid(g) && (hook.Postrouting? || hook.Forward?)
    ensures var cs, ds := RuleCondition(instance, f, hook, id).conditions, RuleCondition(instance, g, hook, id').conditions;
            |cs| == |ds| && (ConditionsAgree(cs, ds) <==> SameRule(f, g, hook))
  {
    hide MemberSame, ConditionsAgree, Outgoing, Incoming, Built;
    var cs, ds := RuleCondition(instance, f, hook, id).conditions, RuleCondition(instance, g, hook, id').conditions;
    AgreeSix(cs, ds);
    MatchersAgree(f, g);
    TargetsAgree(instance, hook, f, id, g, id');
  }

  lemma MatchersAgree(f: Forwarding, g: Forwarding)
    ensures MemberSame(TransportProtocol(ProtoByte(f.proto)), TransportProtocol(ProtoByte(g.proto))) <==> f.proto == g.proto
    ensures MemberSame(DestinationPort(f.from), DestinationPort(g.from)) <==> f.from == g.from
    ensures MemberSame(DestinationPort(f.to), DestinationPort(g.to)) <==> f.to == g.to
    ensures MemberSame(SetTrackingMark(f.from), SetTrackingMark(g.from)) <==> f.from == g.from
    ensures MemberSame(TrackingMark(f.from), TrackingMark(g.from)) <==> f.from == g.from
    ensures MemberSame(Counter, Counter) && MemberSame(SourceLocalAddr, SourceLocalAddr)
    ensures MemberSame(Accept, Accept) && MemberSame(Masquerade, Masquerade)
  {
    MemberAgrees(TransportProtocol(ProtoByte(f.proto)), TransportProtocol(ProtoByte(g.proto)));
    MemberAgrees(DestinationPort(f.from), DestinationPort(g.from));
    MemberAgrees(DestinationPort(f.to), DestinationPort(g.to));
    MemberAgrees(SetTrackingMark(f.from), SetTrackingMark(g.from));
    MemberAgrees(TrackingMark(f.from), TrackingMark(g.from));
    MemberAgrees(Counter, Counter);
    MemberAgrees(SourceLocalAddr, SourceLocalAddr);
    MemberAgrees(Accept, Accept);
    MemberAgrees(Masquerade, Masquerade);
  }

  /** The dynamic part agrees when both sides have one target and it is the same, or both have
  several and, for the chains that rewrite, equally many. */
  lemma TargetsAgree(instance: string, hook: Hook, f: Forwarding, id: uint32, g: Forwarding, id': uint32)
    requires Valid(f) && Valid(g)
    ensures var c := DestinationNat(Outgoing(instance, f, hook, id), f.to);
            var d := DestinationNat(Outgoing(instance, g, hook, id'), g.to);
            f.from == g.from && (hook.Prerouting? || hook.Output?) ==>
              (MemberSame(c, d) && f.proto == g.proto <==> SameRule(f, g, hook))
    ensures var c := DestinationNat(Outgoing(instance, f, hook, id), f.to);
            var d := DestinationNat(Outgoing(instance, g, hook, id'), g.to);
            (hook.Prerouting? || hook.Output?) && SameRule(f, g, hook) ==> MemberSame(c, d)
    ensures var c := DestinationIp(Incoming(instance, f, hook, id));
            var d := DestinationIp(Incoming(instance, g, hook, id'));
            f.from == g.from && (hook.Postrouting? || hook.Forward?) ==>
              (MemberSame(c, d) && f.proto == g.proto && f.to == g.to <==> SameRule(f, g, hook))
  {
    hide InternalName, Built, Sorted;
    SingleTarget(f);
    SingleTarget(g);
    TargetMemberAgrees(Outgoing(instance, f, hook, id), Outgoing(instance, g, hook, id'), f.to, g.to);
    TargetMemberAgrees(Incoming(instance, f, hook, id), Incoming(instance, g, hook, id'), f.to, g.to);
  }

  lemma RuleConditionSolid(instance: string, f: Forwarding, hook: Hook, id: uint32)
    ensures Solid(RuleCondition(instance, f, hook, id))
    ensures RuleExprs(instance, f, hook, id) != []
  {
    var c := RuleCondition(instance, f, hook, id);
    forall d | d in c.conditions ensures Solid(d) && Built(d) != [] {
      LeafBuilds(d);
    }
    assert c.conditions[0] in c.conditions;
    assert Built(c) == Built(c.conditions[0]) + BuiltAll(c.conditions[1..]);
  }
}
