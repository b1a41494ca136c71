/** A small nftables: what the expressions of a rule do to a packet.

Offsets are those of section 3.1 of RFC 791 (protocol in byte 9, destination address in bytes 16
to 19) and of section 3.1 of RFC 9293 and the header format of RFC 768 (destination port in bytes 2 and 3).
*/
module Interpreter {
  import opened Encoding
  import opened Options
  import opened Conditions
  import E = Expressions

  /** A packet with what connection tracking and the routing table know about it. */
  datatype Packet = Packet(
    network: Bytes,
    transport: Bytes,
    mark: Bytes,          // conntrack mark
    ctState: uint32,      // conntrack state bits
    sourceType: uint32,   // address type of the source address
    masqueraded: bool)

  /** The sets that lookups name, and the value of the counter behind `numgen inc`. */
  datatype Env = Env(sets: map<string, map<Bytes, Bytes>>, tick: nat)

  type Registers = map<E.Register, Bytes>

  datatype Flow =
    | Go(regs: Registers, pkt: Packet)        // on to the next expression
    | Stop(pkt: Packet)                       // the rule does not apply
    | Decide(pkt: Packet, accepted: bool)     // a final verdict
    | Enter(pkt: Packet, chain: string)       // jump

  function BitAnd(a: nat, b: nat): nat {
    if b == 0 then 0 else (a % 2) * (b % 2) + 2 * BitAnd(a / 2, b / 2)
  }

  function BitXor(a: nat, b: nat): nat
    decreases a + b
  {
    if b == 0 then a else if a == 0 then b else (a % 2 + b % 2) % 2 + 2 * BitXor(a / 2, b / 2)
  }

  function Masked(source: Bytes, mask: Bytes, xor: Bytes): (r: Bytes)
    requires |source| == |mask| == |xor|
    ensures |r| == |source|
  {
    seq(|source|, i requires 0 <= i < |source| => BitXor(BitAnd(source[i], mask[i]), xor[i]) % 0x100)
  }

  function Rewritten(pkt: Packet, ip: Bytes, port: Bytes): Packet
    requires |pkt.network| >= 20 && |pkt.transport| >= 4
  {
    pkt.(network := pkt.network[..16] + ip + pkt.network[20..],
         transport := pkt.transport[..2] + port + pkt.transport[4..])
  }

  function Eval(e: E.Expr, regs: Registers, pkt: Packet, env: Env): Flow {
    match e
    case Counter(_, _) => Go(regs, pkt)
    case Meta(L4Proto, reg) =>
      if |pkt.network| <= 9 then Stop(pkt) else Go(regs[reg := [pkt.network[9]]], pkt)
    case Cmp(reg, op, data) =>
      if reg in regs && (op == E.Eq <==> regs[reg] == data) then Go(regs, pkt) else Stop(pkt)
    case Payload(base, offset, len, reg) =>
      var header := if base == E.NetworkHeader then pkt.network else pkt.transport;
      if offset + len > |header| then Stop(pkt) else Go(regs[reg := header[offset..offset + len]], pkt)
    case Immediate(reg, data) => Go(regs[reg := data], pkt)
    case DestNat(addr, port, _) =>
      if && addr in regs && |regs[addr]| == 4 && port in regs && |regs[port]| == 2
         && |pkt.network| >= 20 && |pkt.transport| >= 4
      then Decide(Rewritten(pkt, regs[addr], regs[port]), true)
      else Stop(pkt)
    case Masq => Decide(pkt.(masqueraded := true), true)
    case Fib(reg, true, true) => Go(regs[reg := NativeEndian32(pkt.sourceType)], pkt)
    case Ct(reg, CtState, false) => Go(regs[reg := NativeEndian32(pkt.ctState)], pkt)
    case Ct(reg, CtMark, false) => Go(regs[reg := pkt.mark], pkt)
    case Ct(reg, CtMark, true) => if reg in regs then Go(regs, pkt.(mark := regs[reg])) else Stop(pkt)
    case Bitwise(source, dest, len, mask, xor) =>
      if source in regs && |regs[source]| == |mask| == |xor| == len then
        Go(regs[dest := Masked(regs[source], mask, xor)], pkt)
      else Stop(pkt)
    case Verdict(AcceptVerdict, _) => Decide(pkt, true)
    case Verdict(DropVerdict, _) => Decide(pkt, false)
    case Verdict(JumpVerdict, chain) => Enter(pkt, chain)
    case Numgen(reg, modulus) =>
      if modulus == 0 then Stop(pkt) else Go(regs[reg := NativeEndian32(env.tick % modulus)], pkt)
    case Lookup(source, dest, isDestRegSet, _, name, invert) =>
      if source !in regs || name !in env.sets then Stop(pkt)
      else if (regs[source] in env.sets[name]) == invert then Stop(pkt)
      else if isDestRegSet && !invert then Go(regs[dest := env.sets[name][regs[source]]], pkt)
      else Go(regs, pkt)
    case _ => Stop(pkt)  // nothing the forwarder builds
  }

  function EvalAll(exprs: Exprs, regs: Registers, pkt: Packet, env: Env): Flow {
    if exprs == [] then Go(regs, pkt)
    else
      match Eval(exprs[0], regs, pkt, env)
      case Go(regs', pkt') => EvalAll(exprs[1..], regs', pkt', env)
      case other => other
  }

  lemma {:induction false} EvalConcat(a: Exprs, b: Exprs, regs: Registers, pkt: Packet, env: Env)
    ensures EvalAll(a + b, regs, pkt, env) ==
              (match EvalAll(a, regs, pkt, env)
               case Go(regs', pkt') => EvalAll(b, regs', pkt', env)
               case other => other)
  {
    if a == [] {
      assert a + b == b;
    } else {
      assert (a + b)[0] == a[0] && (a + b)[1..] == a[1..] + b;
      match Eval(a[0], regs, pkt, env)
      case Go(regs', pkt') => EvalConcat(a[1..], b, regs', pkt', env);
      case other =>
    }
  }

  datatype Outcome = Decided(pkt: Packet, accepted: bool) | Passed(pkt: Packet)

  type Chains = map<string, seq<Exprs>>

  const JUMP_STACK_SIZE := 16

  /** Runs rules in order.  A jump that finds no chain or no room on the jump stack drops. */
  function Walk(chains: Chains, rules: seq<Exprs>, pkt: Packet, env: Env, depth: nat): Outcome
    decreases depth, |rules|
  {
    if rules == [] then Passed(pkt)
    else
      match EvalAll(rules[0], map[], pkt, env)
      case Go(_, pkt') => Walk(chains, rules[1..], pkt', env, depth)
      case Stop(pkt') => Walk(chains, rules[1..], pkt', env, depth)
      case Decide(pkt', accepted) => Decided(pkt', accepted)
      case Enter(pkt', chain) =>
        if depth == 0 || chain !in chains then Decided(pkt', false)
        else
          match Walk(chains, chains[chain], pkt', env, depth - 1)
          case Passed(pkt'') => Walk(chains, rules[1..], pkt'', env, depth)
          case decided => decided
  }

  // ----- Conditions on packets

  /** What a condition says about a packet, without registers. */
  datatype Sense = Holds(pkt: Packet) | Fails(pkt: Packet) | Final(pkt: Packet, accepted: bool) | Leaves(pkt: Packet, chain: string)

  /** The address that a dynamic target loads. */
  function Target(d: Dynamic, env: Env): Option<Bytes> {
    match d
    case ImmediateIp(ip) => Some(ip)
    case LoadBalancing(_, name, size) =>
      if size == 0 || name !in env.sets then None
      else
        var key := NativeEndian32(env.tick % size);
        if key in env.sets[name] then Some(env.sets[name][key]) else None
    case _ => None
  }

  /** Whether a dynamic constraint admits an address. */
  predicate Admits(d: Dynamic, ip: Bytes, env: Env) {
    match d
    case CompareEqualsIp(target) => ip == target
    case LookupIp(_, name) => name in env.sets && ip in env.sets[name]
    case _ => false
  }

  predicate Suitable(c: Condition) {
    && (c.DestinationIp? ==> c.target.CompareEqualsIp? || c.target.LookupIp?)
    && (c.DestinationNat? ==> c.target.ImmediateIp? || c.target.LoadBalancing?)
    && (c.Combine? ==> forall d :: d in c.conditions ==> Suitable(d))
  }

  function SenseOf(c: Condition, pkt: Packet, env: Env): Sense {
    match c
    case Combine(cs) => SenseOfAll(cs, pkt, env)
    case Counter => Holds(pkt)
    case TransportProtocol(proto) => When(|pkt.network| > 9 && pkt.network[9] == proto, pkt)
    case DestinationPort(port) => When(|pkt.transport| >= 4 && pkt.transport[2..4] == BigEndian16(port), pkt)
    case SourcePort(port) => When(|pkt.transport| >= 2 && pkt.transport[0..2] == BigEndian16(port), pkt)
    case DestinationIp(target) => When(|pkt.network| >= 20 && Admits(target, pkt.network[16..20], env), pkt)
    case DestinationNat(target, port) =>
      (match Target(target, env)
       case Some(ip) =>
         if |ip| == 4 && |pkt.network| >= 20 && |pkt.transport| >= 4 then
           Final(Rewritten(pkt, ip, BigEndian16(port)), true)
         else Fails(pkt)
       case None => Fails(pkt))
    case Masquerade => Final(pkt.(masqueraded := true), true)
    case SourceLocalAddr => When(pkt.sourceType == RTN_LOCAL, pkt)
    case TrackingEstablishedRelated => When(pkt.ctState / 2 % 2 == 1 || pkt.ctState / 4 % 2 == 1, pkt)
    case SetTrackingMark(mark) => Holds(pkt.(mark := NativeEndian32(mark)))
    case TrackingMark(mark) => When(pkt.mark == NativeEndian32(mark), pkt)
    case Accept => Final(pkt, true)
    case Jump(chain) => Leaves(pkt, chain)
  }

  function When(holds: bool, pkt: Packet): Sense {
    if holds then Holds(pkt) else Fails(pkt)
  }

  function SenseOfAll(cs: seq<Condition>, pkt: Packet, env: Env): Sense {
    if cs == [] then Holds(pkt)
    else
      match SenseOf(cs[0], pkt, env)
      case Holds(pkt') => SenseOfAll(cs[1..], pkt', env)
      case other => other
  }

  predicate Denotes(flow: Flow, sense: Sense) {
    match sense
    case Holds(pkt) => flow.Go? && flow.pkt == pkt
    case Fails(pkt) => flow == Stop(pkt)
    case Final(pkt, accepted) => flow == Decide(pkt, accepted)
    case Leaves(pkt, chain) => flow == Enter(pkt, chain)
  }

  lemma {:induction false} EvalTwo(a: E.Expr, b: E.Expr, regs: Registers, pkt: Packet, env: Env)
    ensures EvalAll([a, b], regs, pkt, env) ==
              (match Eval(a, regs, pkt, env)
               case Go(regs', pkt') => Eval(b, regs', pkt', env)
               case other => other)
  {
    assert [a, b][1..] == [b] && [b][1..] == [];
    match Eval(a, regs, pkt, env)
    case Go(regs', pkt') =>
      assert EvalAll([b], regs', pkt', env) == Eval(b, regs', pkt', env) by {
        match Eval(b, regs', pkt', env)
        case Go(r, p) => assert EvalAll([], r, p, env) == Go(r, p);
        case other =>
      }
    case other =>
  }

  lemma EvalOne(a: E.Expr, regs: Registers, pkt: Packet, env: Env)
    ensures EvalAll([a], regs, pkt, env) == Eval(a, regs, pkt, env)
  {
    assert [a][1..] == [];
  }

  lemma TargetMeans(d: Dynamic, regs: Registers, pkt: Packet, env: Env)
    requires d.ImmediateIp? || d.LoadBalancing?
    ensures var flow := EvalAll(BuiltDynamic(d, 1), regs, pkt, env);
            match Target(d, env)
            case Some(ip) => flow.Go? && flow.pkt == pkt && 1 in flow.regs && flow.regs[1] == ip
            case None => flow == Stop(pkt)
  {
    match d
    case ImmediateIp(ip) => EvalOne(E.Immediate(1, ip), regs, pkt, env);
    case LoadBalancing(id, name, size) =>
      EvalTwo(E.Numgen(1, size), E.Lookup(1, 1, true, id, name, false), regs, pkt, env);
  }

  lemma NatMeans(target: Dynamic, port: uint16, regs: Registers, pkt: Packet, env: Env)
    requires target.ImmediateIp? || target.LoadBalancing?
    ensures Denotes(EvalAll(Built(DestinationNat(target, port)), regs, pkt, env), SenseOf(DestinationNat(target, port), pkt, env))
  {
    var load, apply := E.Immediate(2, BigEndian16(port)), E.DestNat(1, 2, true);
    TargetMeans(target, regs, pkt, env);
    EvalConcat(BuiltDynamic(target, 1), [load, apply], regs, pkt, env);
    match EvalAll(BuiltDynamic(target, 1), regs, pkt, env)
    case Go(regs', pkt') => EvalTwo(load, apply, regs', pkt', env);
    case other =>
  }

  lemma AddressMeans(target: Dynamic, regs: Registers, pkt: Packet, env: Env)
    requires target.CompareEqualsIp? || target.LookupIp?
    ensures Denotes(EvalAll(Built(DestinationIp(target)), regs, pkt, env), SenseOf(DestinationIp(target), pkt, env))
  {
    var load, test := E.Payload(E.NetworkHeader, 16, 4, 1), BuiltDynamic(target, 1)[0];
    assert Built(DestinationIp(target)) == [load, test];
    EvalTwo(load, test, regs, pkt, env);
  }

  lemma AndSix(a: nat)
    ensures BitAnd(a, 6) == 2 * (a / 2 % 2) + 4 * (a / 4 % 2)
  {
    var b := a / 2;
    var c := b / 2;
    assert BitAnd(c, 1) == c % 2 + 2 * BitAnd(c / 2, 0);
    assert BitAnd(b, 3) == b % 2 + 2 * BitAnd(c, 1);
    assert BitAnd(a, 6) == 2 * BitAnd(b, 3);
    assert c == a / 4;
  }

  lemma Halves(a: nat, b: nat)
    ensures (2 * a + b) / 2 == a + b / 2 && (2 * a + b) % 2 == b % 2
  {
  }

  lemma LowByteBits(state: uint32)
    ensures state % 0x100 / 2 % 2 == state / 2 % 2 && state % 0x100 / 4 % 2 == state / 4 % 2
  {
    var q, r := state / 0x100, state % 0x100;
    assert state == 0x100 * q + r;
    Halves(128 * q, r);
    Halves(64 * q, r / 2);
    Halves(32 * q, r / 2 / 2);
    assert r / 2 / 2 == r / 4;
    assert state / 4 == 64 * q + r / 4;
  }

  lemma MaskBits(state: uint32)
    ensures Masked(NativeEndian32(state), NativeEndian32(CT_STATE_ESTABLISHED_RELATED), NativeEndian32(0))
              == [2 * (state / 2 % 2) + 4 * (state / 4 % 2), 0, 0, 0]
  {
    hide NativeEndian32;
    NativeEndian32Bytes(state);
    NativeEndian32Bytes(CT_STATE_ESTABLISHED_RELATED);
    NativeEndian32Bytes(0);
    var source, mask, zero := NativeEndian32(state), NativeEndian32(CT_STATE_ESTABLISHED_RELATED), NativeEndian32(0);
    assert mask == [6, 0, 0, 0] && zero == [0, 0, 0, 0];
    AndSix(source[0]);
    LowByteBits(state);
    var r := Masked(source, mask, zero);
    assert r[0] == BitXor(BitAnd(source[0], 6), 0) % 0x100;
    assert r[1] == r[2] == r[3] == 0;
  }

  lemma EstablishedMeans(regs: Registers, pkt: Packet, env: Env)
    ensures Denotes(EvalAll(Built(TrackingEstablishedRelated), regs, pkt, env), SenseOf(TrackingEstablishedRelated, pkt, env))
  {
    var load := E.Ct(1, E.CtState, false);
    var mask, zero := NativeEndian32(CT_STATE_ESTABLISHED_RELATED), NativeEndian32(0);
    var bits, test := E.Bitwise(1, 1, 4, mask, zero), E.Cmp(1, E.Neq, zero);
    assert Built(TrackingEstablishedRelated) == [load] + [bits, test];
    EvalConcat([load], [bits, test], regs, pkt, env);
    EvalOne(load, regs, pkt, env);
    var regs' := regs[1 := NativeEndian32(pkt.ctState)];
    EvalTwo(bits, test, regs', pkt, env);
    MaskBits(pkt.ctState);
    assert zero[0] == 0 && zero == [0, 0, 0, 0];
  }

  /** The expressions of every condition do to a packet what the condition says. */
  lemma {:induction false} ConditionMeans(c: Condition, regs: Registers, pkt: Packet, env: Env)
    requires Suitable(c)
    ensures Denotes(EvalAll(Built(c), regs, pkt, env), SenseOf(c, pkt, env))
    decreases c
  {
    match c
    case Combine(cs) => CombinationMeans(c, cs, regs, pkt, env);
    case DestinationIp(target) => AddressMeans(target, regs, pkt, env);
    case DestinationNat(target, port) => NatMeans(target, port, regs, pkt, env);
    case TrackingEstablishedRelated => EstablishedMeans(regs, pkt, env);
    case _ => SimpleMeans(c, regs, pkt, env);
  }

  lemma {:induction false} CombinationMeans(c: Condition, cs: seq<Condition>, regs: Registers, pkt: Packet, env: Env)
    requires forall d :: d in cs ==> Suitable(d) && d < c
    ensures Denotes(EvalAll(BuiltAll(cs), regs, pkt, env), SenseOfAll(cs, pkt, env))
    decreases c, 0, |cs|
  {
    if cs != [] {
      assert cs[0] in cs;
      ConditionMeans(cs[0], regs, pkt, env);
      EvalConcat(Built(cs[0]), BuiltAll(cs[1..]), regs, pkt, env);
      match EvalAll(Built(cs[0]), regs, pkt, env)
      case Go(regs', pkt') => CombinationMeans(c, cs[1..], regs', pkt', env);
      case other =>
    }
  }

  lemma SimpleMeans(c: Condition, regs: Registers, pkt: Packet, env: Env)
    requires !c.Combine? && !c.DestinationIp? && !c.DestinationNat? && !c.TrackingEstablishedRelated?
    ensures Denotes(EvalAll(Built(c), regs, pkt, env), SenseOf(c, pkt, env))
  {
    hide NativeEndian32, BigEndian16, Target, SenseOfAll, EvalAll, Rewritten;
    var exprs := Built(c);
    if |exprs| == 1 {
      assert exprs == [exprs[0]];
      EvalOne(exprs[0], regs, pkt, env);
    } else {
      assert exprs == [exprs[0], exprs[1]];
      EvalTwo(exprs[0], exprs[1], regs, pkt, env);
      if c.SourceLocalAddr? {
        NativeEndian32Injective(pkt.sourceType, RTN_LOCAL);
      } else if c.TransportProtocol? && |pkt.network| > 9 {
        assert [pkt.network[9]][0] == pkt.network[9] && [c.proto][0] == c.proto;
      }
    }
  }
}
