/** Conditions build the expressions of a rule and recognise them again.

The methods follow the code; the specification of matching, `FlatMatch`, looks only at the flat
list that the condition builds.
*/
module Conditions {
  import opened Encoding
  import E = Expressions

  type Exprs = seq<E.Expr>

  datatype Dynamic =
    | ImmediateIp(target: Bytes)
    | LoadBalancing(setId: uint32, setName: string, size: uint32)
    | CompareEqualsIp(target: Bytes)
    | LookupIp(setId: uint32, setName: string)

  datatype Condition =
    | Combine(conditions: seq<Condition>)
    | Counter
    | TransportProtocol(proto: byte)
    | DestinationPort(port: uint16)
    | SourcePort(port: uint16)
    | DestinationIp(target: Dynamic)
    | DestinationNat(target: Dynamic, port: uint16)
    | Masquerade
    | SourceLocalAddr
    | TrackingEstablishedRelated
    | SetTrackingMark(mark: uint32)
    | TrackingMark(mark: uint32)
    | Accept
    | Jump(chain: string)

  const RTN_LOCAL: uint32 := 2
  const CT_STATE_ESTABLISHED_RELATED: uint32 := 6

  function BuiltDynamic(d: Dynamic, reg: E.Register): (r: Exprs)
    ensures |r| > 0 && forall i :: 0 <= i < |r| ==> !r[i].Counter?
  {
    match d
    case ImmediateIp(ip) => [E.Immediate(reg, ip)]
    case LoadBalancing(id, name, size) => [E.Numgen(reg, size), E.Lookup(reg, reg, true, id, name, false)]
    case CompareEqualsIp(ip) => [E.Cmp(reg, E.Eq, ip)]
    case LookupIp(id, name) => [E.Lookup(reg, 0, false, id, name, false)]
  }

  function BuiltAll(cs: seq<Condition>): Exprs {
    if cs == [] then [] else Built(cs[0]) + BuiltAll(cs[1..])
  }

  function Built(c: Condition): Exprs {
    match c
    case Combine(cs) => BuiltAll(cs)
    case Counter => [E.Counter(0, 0)]
    case TransportProtocol(proto) => [E.Meta(E.L4Proto, 1), E.Cmp(1, E.Eq, [proto])]
    case DestinationPort(port) => [E.Payload(E.TransportHeader, 2, 2, 1), E.Cmp(1, E.Eq, BigEndian16(port))]
    case SourcePort(port) => [E.Payload(E.TransportHeader, 0, 2, 1), E.Cmp(1, E.Eq, BigEndian16(port))]
    case DestinationIp(target) => [E.Payload(E.NetworkHeader, 16, 4, 1)] + BuiltDynamic(target, 1)
    case DestinationNat(target, port) => BuiltDynamic(target, 1) + [E.Immediate(2, BigEndian16(port)), E.DestNat(1, 2, true)]
    case Masquerade => [E.Masq]
    case SourceLocalAddr => [E.Fib(1, true, true), E.Cmp(1, E.Eq, NativeEndian32(RTN_LOCAL))]
    case TrackingEstablishedRelated =>
      [E.Ct(1, E.CtState, false),
       E.Bitwise(1, 1, 4, NativeEndian32(CT_STATE_ESTABLISHED_RELATED), NativeEndian32(0)),
       E.Cmp(1, E.Neq, NativeEndian32(0))]
    case SetTrackingMark(mark) => [E.Immediate(1, NativeEndian32(mark)), E.Ct(1, E.CtMark, true)]
    case TrackingMark(mark) => [E.Ct(1, E.CtMark, false), E.Cmp(1, E.Eq, NativeEndian32(mark))]
    case Accept => [E.Verdict(E.AcceptVerdict, "")]
    case Jump(chain) => [E.Verdict(E.JumpVerdict, chain)]
  }

  /** No combination contains, at any depth, a member that builds nothing. */
  predicate Solid(c: Condition) {
    c.Combine? ==> forall d :: d in c.conditions ==> Solid(d) && Built(d) != []
  }

  lemma PeelBuilt(cs: seq<Condition>)
    requires cs != []
    ensures BuiltAll(cs) == Built(cs[0]) + BuiltAll(cs[1..])
  {
  }

  lemma {:induction false} BuiltAllSplit(cs: seq<Condition>, i: nat)
    requires i < |cs|
    ensures BuiltAll(cs) == BuiltAll(cs[..i]) + Built(cs[i]) + BuiltAll(cs[i + 1..])
    ensures BuiltAll(cs[..i + 1]) == BuiltAll(cs[..i]) + Built(cs[i])
  {
    hide Built;
    if i > 0 {
      BuiltAllSplit(cs[1..], i - 1);
      assert cs[..i] == [cs[0]] + cs[1..][..i - 1];
      assert cs[..i + 1] == [cs[0]] + cs[1..][..i];
      assert cs[1..][i..] == cs[i + 1..];
    } else {
      assert cs[..1] == [cs[0]] && BuiltAll(cs[1..1]) == [];
    }
  }

  lemma LeafBuilds(c: Condition)
    requires !c.Combine?
    ensures Built(c) != [] && Solid(c)
  {
  }

  // ----- Building

  method Build(c: Condition) returns (res: Exprs)
    ensures res == Built(c)
    decreases c
  {
    if !c.Combine? {
      return Built(c);
    }
    res := [];
    var i := 0;
    while i < |c.conditions|
      invariant 0 <= i <= |c.conditions|
      invariant res == BuiltAll(c.conditions[..i])
    {
      var part := Build(c.conditions[i]);
      BuiltAllSplit(c.conditions, i);
      res := res + part;
      i := i + 1;
    }
    assert c.conditions[..i] == c.conditions;
  }

  // ----- Matching

  /** The number of matched expressions, or the index panic of a counter asked to match nothing. */
  datatype MatchResult = Matched(count: nat) | OutOfRange

  function FlatMatch(want: Exprs, have: Exprs): MatchResult {
    if |have| >= |want| then
      Matched(if E.AgreesPointwise(want, have[..|want|]) then |want| else 0)
    else if E.AgreesPointwise(want[..|have|], have) && want[|have|].Counter? then
      OutOfRange
    else
      Matched(0)
  }

  lemma AgreesPointwiseConcat(a: Exprs, b: Exprs, x: Exprs, y: Exprs)
    requires |a| == |x|
    ensures E.AgreesPointwise(a + b, x + y) <==> E.AgreesPointwise(a, x) && E.AgreesPointwise(b, y)
  {
    if E.AgreesPointwise(a + b, x + y) {
      forall i | 0 <= i < |a| ensures E.Agrees(a[i], x[i]) {
        assert E.Agrees((a + b)[i], (x + y)[i]);
      }
      forall i | 0 <= i < |b| ensures E.Agrees(b[i], y[i]) {
        assert E.Agrees((a + b)[|a| + i], (x + y)[|a| + i]);
      }
    }
  }

  lemma FlatMatchConcat(a: Exprs, b: Exprs, have: Exprs)
    requires a != []
    ensures FlatMatch(a, have) == Matched(|a|) && |have| >= |a| ==>
              FlatMatch(a + b, have) ==
                (match FlatMatch(b, have[|a|..])
                 case OutOfRange => OutOfRange
                 case Matched(n) => if n == |b| then Matched(|a| + n) else Matched(0))
    ensures FlatMatch(a, have) != Matched(|a|) ==> FlatMatch(a + b, have) == FlatMatch(a, have)
  {
    var whole := a + b;
    if |have| < |a| {
      assert whole[..|have|] == a[..|have|];
    } else {
      var rest := have[|a|..];
      assert have[..|a|] + rest == have;
      if |have| >= |whole| {
        assert have[..|whole|] == have[..|a|] + rest[..|b|];
        AgreesPointwiseConcat(a, b, have[..|a|], rest[..|b|]);
      } else {
        assert whole[..|have|] == a + b[..|rest|];
        AgreesPointwiseConcat(a, b[..|rest|], have[..|a|], rest);
      }
    }
  }

  method PrefixMatch(expected: Exprs, actual: Exprs) returns (n: nat)
    requires forall i :: 0 <= i < |expected| ==> !expected[i].Counter?
    ensures FlatMatch(expected, actual) == Matched(n)
  {
    var el, al := |expected|, |actual|;
    if al >= el {
      var i := 0;
      while i < el
        invariant 0 <= i <= el
        invariant forall j :: 0 <= j < i ==> E.Agrees(expected[j], actual[j])
      {
        if !E.CompareExprEquals(expected[i], actual[i]) {
          assert !E.Agrees(expected[i], actual[..el][i]);
          return 0;
        }
        i := i + 1;
      }
      return el;
    }
    return 0;
  }

  /** `Match` as coded.  It refines `FlatMatch` on the built list for every input, short ones and
  panics included, as long as no member of a combination builds nothing; a combination with
  such a member matches nothing at all. */
  method Match(c: Condition, have: Exprs) returns (r: MatchResult)
    ensures Solid(c) ==> r == FlatMatch(Built(c), have)
    ensures !Solid(c) ==> r == Matched(0) || r == OutOfRange
    decreases c
  {
    match c {
      case Combine(cs) =>
        r := MatchAll(c, have);
      case Counter =>
        if |have| == 0 {
          return OutOfRange;
        }
        assert have[..1][0] == have[0];
        r := Matched(if have[0].Counter? then 1 else 0);
      case DestinationIp(target) =>
        var allBuilt, targetBuilt := Built(c), BuiltDynamic(target, 1);
        var fixed := allBuilt[..|allBuilt| - |targetBuilt|];
        assert allBuilt == fixed + targetBuilt;
        FlatMatchConcat(fixed, targetBuilt, have);
        var matched := PrefixMatch(fixed, have);
        r := Matched(0);
        if matched != 0 {
          var targetMatched := PrefixMatch(targetBuilt, have[matched..]);
          if targetMatched != 0 {
            r := Matched(matched + targetMatched);
          }
        }
      case DestinationNat(target, port) =>
        var allBuilt, targetBuilt := Built(c), BuiltDynamic(target, 1);
        var targetMatched := PrefixMatch(targetBuilt, have);
        FlatMatchConcat(targetBuilt, allBuilt[|targetBuilt|..], have);
        assert allBuilt == targetBuilt + allBuilt[|targetBuilt|..];
        r := Matched(0);
        if targetMatched == |targetBuilt| {
          var fixedMatched := PrefixMatch(allBuilt[targetMatched..], have[targetMatched..]);
          if fixedMatched != 0 {
            r := Matched(targetMatched + fixedMatched);
          }
        }
      case _ =>
        var n := PrefixMatch(Built(c), have);
        r := Matched(n);
    }
  }

  /** One more member: it is matched against what the members before it left over, and decides the
  whole when it does not match. */
  lemma MemberMatched(cs: seq<Condition>, i: nat, have: Exprs, matched: nat)
    requires i < |cs| && matched == |BuiltAll(cs[..i])| <= |have| && FlatMatch(BuiltAll(cs[..i]), have) == Matched(matched)
    requires i > 0 ==> matched > 0
    ensures var part, r := Built(cs[i]), FlatMatch(Built(cs[i]), have[matched..]);
            && |BuiltAll(cs[..i + 1])| == matched + |part|
            && (part != [] && r == Matched(|part|) ==> FlatMatch(BuiltAll(cs[..i + 1]), have) == Matched(matched + |part|) && matched + |part| <= |have|)
            && (part != [] && r != Matched(|part|) ==> FlatMatch(BuiltAll(cs), have) == if r == OutOfRange then OutOfRange else Matched(0))
  {
    var front, part, rest := BuiltAll(cs[..i]), Built(cs[i]), BuiltAll(cs[i + 1..]);
    BuiltAllSplit(cs, i);
    if front != [] {
      FlatMatchConcat(front, part, have);
    } else {
      assert front + part == part && have[matched..] == have;
    }
    if part != [] {
      FlatMatchConcat(front + part, rest, have);
    }
  }

  method MatchAll(c: Condition, have: Exprs) returns (r: MatchResult)
    requires c.Combine?
    ensures Solid(c) ==> r == FlatMatch(Built(c), have)
    ensures !Solid(c) ==> r == Matched(0) || r == OutOfRange
    decreases c, 0
  {
    var cs := c.conditions;
    var matched := 0;
    var i := 0;
    while i < |cs|
      invariant 0 <= i <= |cs|
      invariant forall j :: 0 <= j < i ==> Solid(cs[j]) && Built(cs[j]) != []
      invariant matched == |BuiltAll(cs[..i])| <= |have|
      invariant FlatMatch(BuiltAll(cs[..i]), have) == Matched(matched)
      invariant i > 0 ==> matched > 0
    {
      var matches := Match(cs[i], have[matched..]);
      MemberMatched(cs, i, have, matched);
      if matches.OutOfRange? || matches.count == 0 {
        assert cs[i] in c.conditions;
        return matches;
      }
      matched := matched + matches.count;
      i := i + 1;
    }
    assert cs[..i] == cs;
    return Matched(matched);
  }

  // ----- What recognition means

  /** `filter.RuleExpr`: the whole rule is matched. */
  predicate Recognised(c: Condition, exprs: Exprs) {
    FlatMatch(Built(c), exprs) == Matched(|exprs|)
  }

  /** Matching panics on this rule: it agrees with the built list up to a counter and ends there. */
  predicate Panics(c: Condition, exprs: Exprs) {
    FlatMatch(Built(c), exprs) == OutOfRange
  }

  method RuleExpr(c: Condition, exprs: Exprs) returns (accepted: bool)
    requires Solid(c) && !Panics(c, exprs)
    ensures accepted <==> Recognised(c, exprs)
  {
    var r := Match(c, exprs);
    accepted := r.count == |exprs|;
  }

  /** A rule with expressions is recognised exactly when it agrees with the built list in full,
  and so every condition recognises what it builds.  A rule without expressions is accepted by
  every condition that does not start with a counter. */
  lemma RecognisedExactly(c: Condition, exprs: Exprs)
    requires Built(c) != []
    ensures exprs != [] ==> (Recognised(c, exprs) <==> E.AgreesPointwise(Built(c), exprs))
    ensures Recognised(c, [])  <==> !Built(c)[0].Counter?
    ensures Recognised(c, Built(c))
  {
    var want := Built(c);
    if |exprs| == |want| {
      assert exprs[..|want|] == exprs;
    }
    assert want[..|want|] == want;
  }

  /** A condition that is not solid does not even match what it builds itself. */
  method HollowNeverMatches(c: Condition) returns (r: MatchResult)
    requires !Solid(c) && Built(c) != []
    ensures r != Matched(|Built(c)|)
  {
    var built := Build(c);
    r := Match(c, built);
  }
}
