/** What the compiled rules do to packets, for any list of forwardings. */
module Meaning {
  import opened Encoding
  import opened Options
  import opened Conditions
  import opened Forwardings
  import opened Interpreter

  predicate Distinct(fs: seq<Forwarding>) {
    forall i, j :: 0 <= i < j < |fs| ==> fs[i].proto != fs[j].proto || fs[i].from != fs[j].from
  }

  predicate AllValid(fs: seq<Forwarding>) {
    forall i :: 0 <= i < |fs| ==> Valid(fs[i])
  }

  // ----- The installed chains

  function BaseName(hook: Hook): string {
    match hook
    case Prerouting => "PREROUTING"
    case Postrouting => "POSTROUTING"
    case Forward => "FORWARD"
    case Output => "OUTPUT"
  }

  function NameOf(instance: string, hook: Hook): string {
    instance + "-" + BaseName(hook)
  }

  function RuleList(instance: string, fs: seq<Forwarding>, ids: seq<Ids>, hook: Hook): (rules: seq<Exprs>)
    requires |fs| == |ids|
    ensures |rules| == |fs|
  {
    seq(|fs|, i requires 0 <= i < |fs| => RuleExprs(instance, fs[i], hook, ids[i].For(hook)))
  }

  /** The rule that lets established connections through, first in the FORWARD chain. */
  const EstablishedRule := Combine([TrackingEstablishedRelated, Accept])

  function Regular(instance: string, fs: seq<Forwarding>, ids: seq<Ids>, hook: Hook): seq<Exprs>
    requires |fs| == |ids|
  {
    (if hook.Forward? then [Built(EstablishedRule)] else []) + RuleList(instance, fs, ids, hook)
  }

  function JumpRule(instance: string, hook: Hook): Condition {
    Combine([Counter, Jump(NameOf(instance, hook))])
  }

  function Installed(instance: string, fs: seq<Forwarding>, ids: seq<Ids>): Chains
    requires |fs| == |ids|
  {
    map[NameOf(instance, Prerouting) := Regular(instance, fs, ids, Prerouting),
        NameOf(instance, Postrouting) := Regular(instance, fs, ids, Postrouting),
        NameOf(instance, Forward) := Regular(instance, fs, ids, Forward),
        NameOf(instance, Output) := Regular(instance, fs, ids, Output)]
  }

  /** A packet meets the hook's base chain, which holds only the jump. */
  function Traverse(instance: string, fs: seq<Forwarding>, ids: seq<Ids>, hook: Hook, pkt: Packet, env: Env): Outcome
    requires |fs| == |ids|
  {
    Walk(Installed(instance, fs, ids), [Built(JumpRule(instance, hook))], pkt, env, JUMP_STACK_SIZE)
  }

  lemma NamesDiffer(instance: string, a: Hook, b: Hook)
    ensures NameOf(instance, a) == NameOf(instance, b) <==> a == b
  {
    var prefix := instance + "-";
    if NameOf(instance, a) == NameOf(instance, b) {
      assert BaseName(a) == NameOf(instance, a)[|prefix|..] == NameOf(instance, b)[|prefix|..] == BaseName(b);
      assert |BaseName(a)| == |BaseName(b)| && BaseName(a)[0] == BaseName(b)[0] && BaseName(a)[1] == BaseName(b)[1];
    }
  }

  /** Peeling members off a combination one at a time. */
  lemma Peel(c: Condition, cs: seq<Condition>, pkt: Packet, env: Env)
    ensures var first := SenseOf(c, pkt, env);
            SenseOfAll([c] + cs, pkt, env) == if first.Holds? then SenseOfAll(cs, first.pkt, env) else first
  {
    assert ([c] + cs)[1..] == cs;
  }

  lemma JumpRuleMeans(instance: string, hook: Hook, pkt: Packet, env: Env)
    ensures EvalAll(Built(JumpRule(instance, hook)), map[], pkt, env) == Enter(pkt, NameOf(instance, hook))
  {
    hide Built, EvalAll, NameOf;
    var rule, jump := JumpRule(instance, hook), Jump(NameOf(instance, hook));
    ConditionMeans(rule, map[], pkt, env);
    assert rule.conditions == [Counter] + ([jump] + []);
    Peel(Counter, [jump] + [], pkt, env);
    Peel(jump, [], pkt, env);
  }

  lemma InstalledAt(instance: string, fs: seq<Forwarding>, ids: seq<Ids>, hook: Hook)
    requires |fs| == |ids|
    ensures NameOf(instance, hook) in Installed(instance, fs, ids)
    ensures Installed(instance, fs, ids)[NameOf(instance, hook)] == Regular(instance, fs, ids, hook)
  {
    hide NameOf, Regular;
    NamesDiffer(instance, hook, Prerouting);
    NamesDiffer(instance, hook, Postrouting);
    NamesDiffer(instance, hook, Forward);
    NamesDiffer(instance, hook, Output);
  }

  lemma TraverseEntersRegular(instance: string, fs: seq<Forwarding>, ids: seq<Ids>, hook: Hook, pkt: Packet, env: Env)
    requires |fs| == |ids|
    ensures Traverse(instance, fs, ids, hook, pkt, env)
              == Walk(Installed(instance, fs, ids), Regular(instance, fs, ids, hook), pkt, env, JUMP_STACK_SIZE - 1)
  {
    hide Built, EvalAll, NameOf, Regular, Installed, JumpRule;
    JumpRuleMeans(instance, hook, pkt, env);
    InstalledAt(instance, fs, ids, hook);
    var chains, rules := Installed(instance, fs, ids), [Built(JumpRule(instance, hook))];
    assert rules[1..] == [];
    var inner := Walk(chains, chains[NameOf(instance, hook)], pkt, env, JUMP_STACK_SIZE - 1);
    assert inner.Passed? ==> Walk(chains, [], inner.pkt, env, JUMP_STACK_SIZE) == inner;
  }

  /** Rules that do not apply are passed over; the first that decides ends the walk. */
  lemma {:induction false} FirstDecides(chains: Chains, rules: seq<Exprs>, pkt: Packet, env: Env, depth: nat, k: nat)
    requires k <= |rules|
    requires forall j :: 0 <= j < k ==> EvalAll(rules[j], map[], pkt, env) == Stop(pkt)
    requires k < |rules| ==> EvalAll(rules[k], map[], pkt, env).Decide?
    ensures Walk(chains, rules, pkt, env, depth) ==
              if k == |rules| then Passed(pkt)
              else var d := EvalAll(rules[k], map[], pkt, env); Decided(d.pkt, d.accepted)
  {
    if k > 0 {
      assert EvalAll(rules[0], map[], pkt, env) == Stop(pkt);
      FirstDecides(chains, rules[1..], pkt, env, depth, k - 1);
    }
  }

  // ----- Sets

  /** Every lookup of a compiled rule finds the elements compiled for that rule. */
  predicate Bound(instance: string, fs: seq<Forwarding>, sets: map<string, map<Bytes, Bytes>>) {
    forall i, hook :: 0 <= i < |fs| && |fs[i].targets| != 1 ==>
      && InternalName(instance, fs[i].from, hook) in sets
      && sets[InternalName(instance, fs[i].from, hook)] == SetElements(fs[i], hook)
  }

  /** Adds the four sets of one forwarding, replacing sets of the same names. */
  function WithSets(instance: string, f: Forwarding, sets: map<string, map<Bytes, Bytes>>): map<string, map<Bytes, Bytes>> {
    if |f.targets| == 1 then sets
    else sets[InternalName(instance, f.from, Prerouting) := SetElements(f, Prerouting)]
             [InternalName(instance, f.from, Postrouting) := SetElements(f, Postrouting)]
             [InternalName(instance, f.from, Forward) := SetElements(f, Forward)]
             [InternalName(instance, f.from, Output) := SetElements(f, Output)]
  }

  function AllSets(instance: string, fs: seq<Forwarding>): map<string, map<Bytes, Bytes>> {
    if fs == [] then map[]
    else WithSets(instance, fs[|fs| - 1], AllSets(instance, fs[..|fs| - 1]))
  }

  lemma WithSetsAt(instance: string, f: Forwarding, sets: map<string, map<Bytes, Bytes>>, port: uint16, hook: Hook)
    ensures var name, after := InternalName(instance, port, hook), WithSets(instance, f, sets);
            if |f.targets| != 1 && f.from == port then name in after && after[name] == SetElements(f, hook)
            else (name in after <==> name in sets) && (name in sets ==> after[name] == sets[name])
  {
    hide InternalName, SetElements;
    InternalNameExactly(instance, port, hook, f.from, Prerouting);
    InternalNameExactly(instance, port, hook, f.from, Postrouting);
    InternalNameExactly(instance, port, hook, f.from, Forward);
    InternalNameExactly(instance, port, hook, f.from, Output);
    InternalNameExactly(instance, f.from, Prerouting, f.from, Postrouting);
    InternalNameExactly(instance, f.from, Prerouting, f.from, Forward);
    InternalNameExactly(instance, f.from, Prerouting, f.from, Output);
    InternalNameExactly(instance, f.from, Postrouting, f.from, Forward);
    InternalNameExactly(instance, f.from, Postrouting, f.from, Output);
    InternalNameExactly(instance, f.from, Forward, f.from, Output);
  }

  /** Two forwardings of one host port, one per protocol, share their set names.  That is harmless
  only when both have one target or both have the same targets. */
  predicate NoClash(fs: seq<Forwarding>) {
    forall i, j :: 0 <= i < j < |fs| && fs[i].from == fs[j].from && |fs[i].targets| != 1 && |fs[j].targets| != 1 ==>
      Sorted(fs[i]) == Sorted(fs[j])
  }

  /** The last forwarding of a host port that has several targets, or -1. */
  function Owner(fs: seq<Forwarding>, port: uint16): (k: int)
    ensures -1 <= k < |fs|
    ensures k >= 0 ==> fs[k].from == port && |fs[k].targets| != 1
    ensures forall j :: k < j < |fs| && fs[j].from == port ==> |fs[j].targets| == 1
  {
    if fs == [] then -1
    else
      var n := |fs| - 1;
      if fs[n].from == port && |fs[n].targets| != 1 then n else Owner(fs[..n], port)
  }

  lemma {:induction false} OwnerBinds(instance: string, fs: seq<Forwarding>, port: uint16, hook: Hook)
    requires Owner(fs, port) >= 0
    ensures InternalName(instance, port, hook) in AllSets(instance, fs)
    ensures AllSets(instance, fs)[InternalName(instance, port, hook)] == SetElements(fs[Owner(fs, port)], hook)
  {
    hide InternalName, SetElements, WithSets;
    var n := |fs| - 1;
    WithSetsAt(instance, fs[n], AllSets(instance, fs[..n]), port, hook);
    if fs[n].from != port || |fs[n].targets| == 1 {
      OwnerBinds(instance, fs[..n], port, hook);
    }
  }

  lemma {:induction false} IndexMapEntries(ips: seq<Ip>, n: nat)
    requires n <= |ips| && n < 0x1_0000_0000
    ensures forall k: nat :: k < n ==> NativeEndian32(k) in IndexMap(ips, n) && IndexMap(ips, n)[NativeEndian32(k)] == ips[k]
    ensures forall key :: key in IndexMap(ips, n) ==> exists k: nat :: k < n && key == NativeEndian32(k)
    ensures |IndexMap(ips, n)| == n
  {
    hide NativeEndian32;
    if n > 0 {
      IndexMapEntries(ips, n - 1);
      forall k: nat | k < n - 1 ensures NativeEndian32(k) != NativeEndian32(n - 1) {
        NativeEndian32Injective(k, n - 1);
      }
      assert NativeEndian32(n - 1) !in IndexMap(ips, n - 1);
    }
  }

  /** The index map of a rewriting chain determines the sorted targets. */
  lemma SetsDetermineTargets(f: Forwarding, g: Forwarding)
    requires Valid(f) && Valid(g) && SetElements(f, Prerouting) == SetElements(g, Prerouting)
    ensures Sorted(f) == Sorted(g)
  {
    hide NativeEndian32, IndexMap, Sorted;
    IndexMapEntries(Sorted(f), |f.targets|);
    IndexMapEntries(Sorted(g), |g.targets|);
    forall k: nat | k < |f.targets| ensures Sorted(f)[k] == Sorted(g)[k] {
      assert NativeEndian32(k) in SetElements(f, Prerouting);
    }
  }

  lemma SameTargetsSameSets(f: Forwarding, g: Forwarding, hook: Hook)
    requires Sorted(f) == Sorted(g)
    ensures SetElements(f, hook) == SetElements(g, hook)
  {
  }

  /** Whatever the sets of the kernel hold: if every lookup finds the elements compiled for its rule, no
  two forwardings with several targets share a host port, except with the same targets. */
  lemma BoundOnlyWithoutClash(instance: string, fs: seq<Forwarding>, sets: map<string, map<Bytes, Bytes>>)
    requires AllValid(fs) && Bound(instance, fs, sets)
    ensures NoClash(fs)
  {
    hide InternalName, SetElements;
    forall i, j | 0 <= i < j < |fs| && fs[i].from == fs[j].from && |fs[i].targets| != 1 && |fs[j].targets| != 1
      ensures Sorted(fs[i]) == Sorted(fs[j])
    {
      var name := InternalName(instance, fs[i].from, Prerouting);
      assert sets[name] == SetElements(fs[i], Prerouting);
      assert sets[name] == SetElements(fs[j], Prerouting);
      SetsDetermineTargets(fs[i], fs[j]);
    }
  }

  lemma AllSetsBind(instance: string, fs: seq<Forwarding>)
    requires NoClash(fs)
    ensures Bound(instance, fs, AllSets(instance, fs))
  {
    hide InternalName, SetElements, AllSets;
    forall i, hook | 0 <= i < |fs| && |fs[i].targets| != 1
      ensures InternalName(instance, fs[i].from, hook) in AllSets(instance, fs)
      ensures AllSets(instance, fs)[InternalName(instance, fs[i].from, hook)] == SetElements(fs[i], hook)
    {
      OwnerBinds(instance, fs, fs[i].from, hook);
      assert Owner(fs, fs[i].from) >= i;
      SameTargetsSameSets(fs[i], fs[Owner(fs, fs[i].from)], hook);
    }
  }

  /** Some contents of the named sets serve every lookup of the compiled rules exactly when no two
  forwardings with several targets share a host port, except with the same targets. */
  lemma ServableExactly(instance: string, fs: seq<Forwarding>)
    requires AllValid(fs)
    ensures (exists sets :: Bound(instance, fs, sets)) <==> NoClash(fs)
  {
    hide Bound, NoClash, AllSets, AllValid;
    if sets :| Bound(instance, fs, sets) {
      BoundOnlyWithoutClash(instance, fs, sets);
    }
    if NoClash(fs) {
      AllSetsBind(instance, fs);
    }
  }

  // ----- One rule

  /** The packet is addressed to the forwarded protocol and host port: protocol 6 or 17 in byte 9 of the
  IPv4 header, the port in bytes 2 and 3 of the transport header, high byte first. */
  predicate Applies(pkt: Packet, f: Forwarding) {
    && |pkt.network| >= 20 && |pkt.transport| >= 4
    && pkt.network[9] == (match f.proto case TCP => 6 case UDP => 17)
    && Word16(pkt.transport[2], pkt.transport[3]) == f.from
  }

  /** The packet carries the host port as mark and is addressed to the target port of one of the targets,
  in bytes 16 to 19 of the IPv4 header. */
  predicate Admitted(pkt: Packet, f: Forwarding) {
    && |pkt.network| >= 20 && |pkt.transport| >= 4
    && pkt.network[9] == (match f.proto case TCP => 6 case UDP => 17)
    && Word16(pkt.transport[2], pkt.transport[3]) == f.to
    && pkt.network[16..20] in f.targets
    && pkt.mark == [f.from % 256, f.from / 256, 0, 0]
  }

  // ----- What the compiled tests test

  lemma TwoBytes(bytes: Bytes, port: uint16)
    requires |bytes| == 2
    ensures bytes == BigEndian16(port) <==> Word16(bytes[0], bytes[1]) == port
  {
    hide BigEndian16;
    BigEndian16Bytes(port);
    var high, low := bytes[0], bytes[1];
    assert Word16(high, low) == port ==> high == port / 0x100 && low == port % 0x100;
    assert bytes == [high, low];
  }

  lemma MarkBytes(port: uint16)
    ensures NativeEndian32(port) == [port % 256, port / 256, 0, 0]
  {
    hide NativeEndian32;
    NativeEndian32Bytes(port);
  }

  lemma PortTest(pkt: Packet, port: uint16)
    requires |pkt.transport| >= 4
    ensures pkt.transport[2..4] == BigEndian16(port) <==> Word16(pkt.transport[2], pkt.transport[3]) == port
  {
    hide BigEndian16;
    TwoBytes(pkt.transport[2..4], port);
  }

  lemma AppliesTest(pkt: Packet, f: Forwarding)
    requires |pkt.network| >= 20
    ensures Applies(pkt, f) <==> && pkt.network[9] == ProtoByte(f.proto)
                                 && |pkt.transport| >= 4 && pkt.transport[2..4] == BigEndian16(f.from)
  {
    hide BigEndian16;
    if |pkt.transport| >= 4 {
      PortTest(pkt, f.from);
    }
  }

  lemma AdmittedTest(pkt: Packet, f: Forwarding)
    requires |pkt.network| >= 20
    ensures Admitted(pkt, f) <==> && pkt.network[16..20] in f.targets && pkt.network[9] == ProtoByte(f.proto)
                                  && |pkt.transport| >= 4 && pkt.transport[2..4] == BigEndian16(f.to) && pkt.mark == NativeEndian32(f.from)
  {
    hide BigEndian16, NativeEndian32;
    MarkBytes(f.from);
    if |pkt.transport| >= 4 {
      PortTest(pkt, f.to);
    }
  }

  /** Round robin over the targets in canonical order. */
  function Choice(f: Forwarding, tick: nat): (ip: Bytes)
    requires Valid(f)
    ensures |ip| == 4 && ip in f.targets
  {
    assert Sorted(f)[tick % |f.targets|] in multiset(Sorted(f));
    Sorted(f)[tick % |f.targets|]
  }

  predicate BoundOne(instance: string, f: Forwarding, sets: map<string, map<Bytes, Bytes>>) {
    forall hook :: |f.targets| != 1 ==>
      && InternalName(instance, f.from, hook) in sets
      && sets[InternalName(instance, f.from, hook)] == SetElements(f, hook)
  }

  lemma TargetIsChoice(instance: string, f: Forwarding, hook: Hook, id: uint32, env: Env)
    requires Valid(f) && BoundOne(instance, f, env.sets) && (hook.Prerouting? || hook.Output?)
    ensures Target(Outgoing(instance, f, hook, id), env) == Some(Choice(f, env.tick))
  {
    hide NativeEndian32, InternalName, IndexMap;
    SingleTarget(f);
    if |f.targets| != 1 {
      var n := |f.targets|;
      var k := env.tick % n;
      IndexMapEntries(Sorted(f), n);
      assert Outgoing(instance, f, hook, id) == LoadBalancing(id, InternalName(instance, f.from, hook), n);
      assert NativeEndian32(k) in env.sets[InternalName(instance, f.from, hook)];
    }
  }

  lemma AdmitsTargets(instance: string, f: Forwarding, hook: Hook, id: uint32, ip: Bytes, env: Env)
    requires Valid(f) && BoundOne(instance, f, env.sets) && (hook.Postrouting? || hook.Forward?)
    ensures Admits(Incoming(instance, f, hook, id), ip, env) <==> ip in f.targets
  {
    hide InternalName, Sorted, NativeEndian32, IndexMap, Wrap32;
    SingleTarget(f);
    assert forall x :: x in f.targets <==> x in multiset(f.targets);
    assert forall x :: x in Sorted(f) <==> x in multiset(Sorted(f));
  }

  /** The destination is the target whose turn it is; the rest of the packet is as it was. */
  function Redirected(pkt: Packet, f: Forwarding, tick: nat): (r: Packet)
    requires Valid(f) && Applies(pkt, f)
    ensures |r.network| == |pkt.network| && |r.transport| == |pkt.transport|
    ensures r.network[16..20] == Choice(f, tick) && Word16(r.transport[2], r.transport[3]) == f.to
    ensures r.network[..16] == pkt.network[..16] && r.network[20..] == pkt.network[20..]
    ensures r.transport[..2] == pkt.transport[..2] && r.transport[4..] == pkt.transport[4..]
    ensures r == pkt.(network := r.network, transport := r.transport)
  {
    RewrittenParts(pkt, Choice(f, tick), f.to);
    Rewritten(pkt, Choice(f, tick), BigEndian16(f.to))
  }

  lemma RewrittenParts(pkt: Packet, ip: Bytes, port: uint16)
    requires |pkt.network| >= 20 && |pkt.transport| >= 4 && |ip| == 4
    ensures var r := Rewritten(pkt, ip, BigEndian16(port));
            && |r.network| == |pkt.network| && |r.transport| == |pkt.transport|
            && r.network[16..20] == ip && Word16(r.transport[2], r.transport[3]) == port
            && r.network[..16] == pkt.network[..16] && r.network[20..] == pkt.network[20..]
            && r.transport[..2] == pkt.transport[..2] && r.transport[4..] == pkt.transport[4..]
            && r == pkt.(network := r.network, transport := r.transport)
  {
    hide BigEndian16;
    var r := Rewritten(pkt, ip, BigEndian16(port));
    assert r.transport[2..4] == BigEndian16(port);
    PortTest(r, port);
  }

  lemma RuleConditionSuitable(instance: string, f: Forwarding, hook: Hook, id: uint32)
    ensures Suitable(RuleCondition(instance, f, hook, id))
  {
    hide InternalName, Sorted, ProtoByte, Wrap32, RuleCondition;
    var c := RuleCondition(instance, f, hook, id);
    forall d | d in c.conditions ensures Suitable(d) {
      MembersSuitable(instance, f, hook, id);
    }
  }

  lemma MembersSuitable(instance: string, f: Forwarding, hook: Hook, id: uint32)
    ensures forall d :: d in RuleCondition(instance, f, hook, id).conditions ==>
              && !d.Combine? && (d.DestinationIp? ==> d.target.CompareEqualsIp? || d.target.LookupIp?)
              && (d.DestinationNat? ==> d.target.ImmediateIp? || d.target.LoadBalancing?)
  {
    hide InternalName, Sorted, ProtoByte, Wrap32;
  }

  lemma PreroutingSense(instance: string, f: Forwarding, id: uint32, pkt: Packet, env: Env)
    ensures var dnat := DestinationNat(Outgoing(instance, f, Prerouting, id), f.to);
            SenseOf(RuleCondition(instance, f, Prerouting, id), pkt, env) ==
              if |pkt.network| > 9 && pkt.network[9] == ProtoByte(f.proto)
                 && |pkt.transport| >= 4 && pkt.transport[2..4] == BigEndian16(f.from)
              then SenseOf(dnat, pkt.(mark := NativeEndian32(f.from)), env) else Fails(pkt)
  {
    hide NativeEndian32, BigEndian16, Outgoing, Target;
    var proto, port := TransportProtocol(ProtoByte(f.proto)), DestinationPort(f.from);
    var mark, dnat := SetTrackingMark(f.from), DestinationNat(Outgoing(instance, f, Prerouting, id), f.to);
    assert RuleCondition(instance, f, Prerouting, id).conditions == [proto] + ([port] + ([Counter] + ([mark] + ([dnat] + []))));
    Peel(proto, [port] + ([Counter] + ([mark] + ([dnat] + []))), pkt, env);
    Peel(port, [Counter] + ([mark] + ([dnat] + [])), pkt, env);
    Peel(Counter, [mark] + ([dnat] + []), pkt, env);
    Peel(mark, [dnat] + [], pkt, env);
    Peel(dnat, [], pkt.(mark := NativeEndian32(f.from)), env);
  }

  lemma OutputSense(instance: string, f: Forwarding, id: uint32, pkt: Packet, env: Env)
    ensures var dnat := DestinationNat(Outgoing(instance, f, Output, id), f.to);
            SenseOf(RuleCondition(instance, f, Output, id), pkt, env) ==
              if && pkt.sourceType == RTN_LOCAL && |pkt.network| > 9 && pkt.network[9] == ProtoByte(f.proto)
                 && |pkt.transport| >= 4 && pkt.transport[2..4] == BigEndian16(f.from)
              then SenseOf(dnat, pkt, env) else Fails(pkt)
  {
    hide NativeEndian32, BigEndian16, Outgoing, Target;
    var proto, port := TransportProtocol(ProtoByte(f.proto)), DestinationPort(f.from);
    var dnat := DestinationNat(Outgoing(instance, f, Output, id), f.to);
    assert RuleCondition(instance, f, Output, id).conditions == [SourceLocalAddr] + ([proto] + ([port] + ([Counter] + ([dnat] + []))));
    Peel(SourceLocalAddr, [proto] + ([port] + ([Counter] + ([dnat] + []))), pkt, env);
    Peel(proto, [port] + ([Counter] + ([dnat] + [])), pkt, env);
    Peel(port, [Counter] + ([dnat] + []), pkt, env);
    Peel(Counter, [dnat] + [], pkt, env);
    Peel(dnat, [], pkt, env);
  }

  lemma FilterSense(instance: string, f: Forwarding, hook: Hook, id: uint32, pkt: Packet, env: Env)
    requires (hook.Postrouting? || hook.Forward?) && |pkt.network| >= 20
    ensures SenseOf(RuleCondition(instance, f, hook, id), pkt, env) ==
              if && Admits(Incoming(instance, f, hook, id), pkt.network[16..20], env)
                 && pkt.network[9] == ProtoByte(f.proto)
                 && |pkt.transport| >= 4 && pkt.transport[2..4] == BigEndian16(f.to)
                 && pkt.mark == NativeEndian32(f.from)
              then Final(if hook.Postrouting? then pkt.(masqueraded := true) else pkt, true) else Fails(pkt)
  {
    hide NativeEndian32, BigEndian16, Incoming, Admits, SenseOf, SenseOfAll;
    var address, proto := DestinationIp(Incoming(instance, f, hook, id)), TransportProtocol(ProtoByte(f.proto));
    var port, mark, last := DestinationPort(f.to), TrackingMark(f.from), if hook.Postrouting? then Masquerade else Accept;
    var tail := [port] + ([mark] + ([Counter] + ([last] + [])));
    assert RuleCondition(instance, f, hook, id).conditions == [address] + ([proto] + tail);
    CombinationSense([address] + ([proto] + tail), pkt, env);
    Peel(address, [proto] + tail, pkt, env);
    Peel(proto, tail, pkt, env);
    MatcherSense(Incoming(instance, f, hook, id), f, pkt, env);
    FilterTailSense(f, last, pkt, env);
  }

  lemma CombinationSense(cs: seq<Condition>, pkt: Packet, env: Env)
    ensures SenseOf(Combine(cs), pkt, env) == SenseOfAll(cs, pkt, env)
  {
  }

  lemma MatcherSense(target: Dynamic, f: Forwarding, pkt: Packet, env: Env)
    requires |pkt.network| >= 20
    ensures SenseOf(DestinationIp(target), pkt, env) == if Admits(target, pkt.network[16..20], env) then Sense.Holds(pkt) else Fails(pkt)
    ensures SenseOf(TransportProtocol(ProtoByte(f.proto)), pkt, env) == if pkt.network[9] == ProtoByte(f.proto) then Sense.Holds(pkt) else Fails(pkt)
  {
    hide Admits, ProtoByte;
  }

  /** Port, mark, counter and the decision. */
  lemma FilterTailSense(f: Forwarding, last: Condition, pkt: Packet, env: Env)
    requires last == Masquerade || last == Accept
    ensures SenseOfAll([DestinationPort(f.to)] + ([TrackingMark(f.from)] + ([Counter] + ([last] + []))), pkt, env) ==
              if |pkt.transport| >= 4 && pkt.transport[2..4] == BigEndian16(f.to) && pkt.mark == NativeEndian32(f.from)
              then Final(if last == Masquerade then pkt.(masqueraded := true) else pkt, true) else Fails(pkt)
  {
    hide NativeEndian32, BigEndian16, SenseOfAll;
    var port, mark := DestinationPort(f.to), TrackingMark(f.from);
    Peel(port, [mark] + ([Counter] + ([last] + [])), pkt, env);
    Peel(mark, [Counter] + ([last] + []), pkt, env);
    Peel(Counter, [last] + [], pkt, env);
    Peel(last, [], pkt, env);
  }

  lemma RewriteRule(instance: string, f: Forwarding, hook: Hook, id: uint32, pkt: Packet, env: Env)
    requires Valid(f) && BoundOne(instance, f, env.sets) && |pkt.network| >= 20
    requires hook.Prerouting? || hook.Output?
    ensures EvalAll(RuleExprs(instance, f, hook, id), map[], pkt, env) ==
              if !Applies(pkt, f) || (hook.Output? && pkt.sourceType != RTN_LOCAL) then Stop(pkt)
              else Decide(Redirected(if hook.Prerouting? then pkt.(mark := NativeEndian32(f.from)) else pkt, f, env.tick), true)
  {
    hide NativeEndian32, BigEndian16, InternalName, EvalAll, Built, Outgoing, Target, RuleCondition, Suitable, Choice, ProtoByte, BoundOne, Applies;
    AppliesTest(pkt, f);
    TargetIsChoice(instance, f, hook, id, env);
    RuleConditionSuitable(instance, f, hook, id);
    ConditionMeans(RuleCondition(instance, f, hook, id), map[], pkt, env);
    if hook.Prerouting? {
      PreroutingSense(instance, f, id, pkt, env);
    } else {
      OutputSense(instance, f, id, pkt, env);
    }
  }

  lemma FilterRule(instance: string, f: Forwarding, hook: Hook, id: uint32, pkt: Packet, env: Env)
    requires Valid(f) && BoundOne(instance, f, env.sets) && |pkt.network| >= 20
    requires hook.Postrouting? || hook.Forward?
    ensures EvalAll(RuleExprs(instance, f, hook, id), map[], pkt, env) ==
              if !Admitted(pkt, f) then Stop(pkt)
              else Decide(if hook.Postrouting? then pkt.(masqueraded := true) else pkt, true)
  {
    hide NativeEndian32, BigEndian16, InternalName, EvalAll, Built, Incoming, Admits, RuleCondition, Suitable, Admitted, ProtoByte;
    AdmittedTest(pkt, f);
    AdmitsTargets(instance, f, hook, id, pkt.network[16..20], env);
    RuleConditionSuitable(instance, f, hook, id);
    ConditionMeans(RuleCondition(instance, f, hook, id), map[], pkt, env);
    FilterSense(instance, f, hook, id, pkt, env);
  }

  // ----- The four hooks

  /** PREROUTING sends a packet for a forwarded protocol and host port to the target whose turn it
  is, with the host port as mark, and leaves every other packet alone. */
  lemma PreroutingMeans(instance: string, fs: seq<Forwarding>, ids: seq<Ids>, pkt: Packet, env: Env)
    requires |fs| == |ids| && AllValid(fs) && Distinct(fs) && Bound(instance, fs, env.sets) && |pkt.network| >= 20
    ensures forall i :: 0 <= i < |fs| && Applies(pkt, fs[i]) ==>
              Traverse(instance, fs, ids, Prerouting, pkt, env) == Decided(Delivered(pkt, fs[i], env.tick), true)
    ensures (forall i :: 0 <= i < |fs| ==> !Applies(pkt, fs[i])) ==>
              Traverse(instance, fs, ids, Prerouting, pkt, env) == Passed(pkt)
  {
    RewriteHook(instance, fs, ids, Prerouting, pkt, env);
  }

  /** OUTPUT does the same for packets from a local address, which is address type 2, except that it sets no mark. */
  lemma OutputMeans(instance: string, fs: seq<Forwarding>, ids: seq<Ids>, pkt: Packet, env: Env)
    requires |fs| == |ids| && AllValid(fs) && Distinct(fs) && Bound(instance, fs, env.sets) && |pkt.network| >= 20
    ensures forall i :: 0 <= i < |fs| && Applies(pkt, fs[i]) && pkt.sourceType == 2 ==>
              Traverse(instance, fs, ids, Output, pkt, env) == Decided(Redirected(pkt, fs[i], env.tick), true)
    ensures (forall i :: 0 <= i < |fs| ==> !Applies(pkt, fs[i])) || pkt.sourceType != 2 ==>
              Traverse(instance, fs, ids, Output, pkt, env) == Passed(pkt)
  {
    RewriteHook(instance, fs, ids, Output, pkt, env);
  }

  lemma RewriteHook(instance: string, fs: seq<Forwarding>, ids: seq<Ids>, hook: Hook, pkt: Packet, env: Env)
    requires |fs| == |ids| && AllValid(fs) && Distinct(fs) && Bound(instance, fs, env.sets) && |pkt.network| >= 20
    requires hook.Prerouting? || hook.Output?
    ensures forall i :: 0 <= i < |fs| && Applies(pkt, fs[i]) && (hook.Output? ==> pkt.sourceType == RTN_LOCAL) ==>
              Traverse(instance, fs, ids, hook, pkt, env)
                == Decided(Redirected(if hook.Prerouting? then pkt.(mark := NativeEndian32(fs[i].from)) else pkt, fs[i], env.tick), true)
    ensures (forall i :: 0 <= i < |fs| ==> !Applies(pkt, fs[i])) || (hook.Output? && pkt.sourceType != RTN_LOCAL) ==>
              Traverse(instance, fs, ids, hook, pkt, env) == Passed(pkt)
  {
    hide NativeEndian32, BigEndian16, InternalName, EvalAll, RuleExprs, Installed, Traverse, Walk, Redirected;
    var rules := Regular(instance, fs, ids, hook);
    var chains := Installed(instance, fs, ids);
    TraverseEntersRegular(instance, fs, ids, hook, pkt, env);
    forall i | 0 <= i < |fs|
      ensures rules[i] == RuleExprs(instance, fs[i], hook, ids[i].For(hook))
      ensures EvalAll(rules[i], map[], pkt, env) ==
                if !Applies(pkt, fs[i]) || (hook.Output? && pkt.sourceType != RTN_LOCAL) then Stop(pkt)
                else Decide(Redirected(if hook.Prerouting? then pkt.(mark := NativeEndian32(fs[i].from)) else pkt, fs[i], env.tick), true)
    {
      RewriteRule(instance, fs[i], hook, ids[i].For(hook), pkt, env);
    }
    if hook.Output? && pkt.sourceType != RTN_LOCAL {
      FirstDecides(chains, rules, pkt, env, JUMP_STACK_SIZE - 1, |rules|);
    } else if k :| 0 <= k < |fs| && Applies(pkt, fs[k]) {
      forall i | 0 <= i < |fs| && i != k ensures !Applies(pkt, fs[i]) {
        AppliesOnce(fs, pkt, k, i);
      }
      FirstDecides(chains, rules, pkt, env, JUMP_STACK_SIZE - 1, k);
    } else {
      FirstDecides(chains, rules, pkt, env, JUMP_STACK_SIZE - 1, |rules|);
    }
  }

  predicate Established(pkt: Packet) {
    pkt.ctState / 2 % 2 == 1 || pkt.ctState / 4 % 2 == 1
  }

  lemma EstablishedRuleMeans(pkt: Packet, env: Env)
    ensures EvalAll(Built(EstablishedRule), map[], pkt, env) == if Established(pkt) then Decide(pkt, true) else Stop(pkt)
  {
    hide Built, EvalAll;
    assert EstablishedRule.conditions == [TrackingEstablishedRelated] + ([Accept] + []);
    ConditionMeans(EstablishedRule, map[], pkt, env);
    Peel(TrackingEstablishedRelated, [Accept] + [], pkt, env);
    Peel(Accept, [], pkt, env);
  }

  /** FORWARD accepts exactly the packets of established or related connections and those that a
  forwarding admits; the rest goes on to the base chain, unchanged. */
  lemma ForwardMeans(instance: string, fs: seq<Forwarding>, ids: seq<Ids>, pkt: Packet, env: Env)
    requires |fs| == |ids| && AllValid(fs) && Bound(instance, fs, env.sets) && |pkt.network| >= 20
    ensures Traverse(instance, fs, ids, Forward, pkt, env) ==
              if Established(pkt) || exists i :: 0 <= i < |fs| && Admitted(pkt, fs[i]) then Decided(pkt, true) else Passed(pkt)
  {
    var rules := Regular(instance, fs, ids, Forward);
    var chains := Installed(instance, fs, ids);
    TraverseEntersRegular(instance, fs, ids, Forward, pkt, env);
    EstablishedRuleMeans(pkt, env);
    assert rules[0] == Built(EstablishedRule);
    assert EvalAll(rules[0], map[], pkt, env) == if Established(pkt) then Decide(pkt, true) else Stop(pkt);
    if Established(pkt) {
      FirstDecides(chains, rules, pkt, env, JUMP_STACK_SIZE - 1, 0);
    } else {
      assert rules[1..] == RuleList(instance, fs, ids, Forward);
      FilterHook(instance, fs, ids, Forward, pkt, env);
    }
  }

  /** POSTROUTING masquerades exactly the packets that a forwarding admits. */
  lemma PostroutingMeans(instance: string, fs: seq<Forwarding>, ids: seq<Ids>, pkt: Packet, env: Env)
    requires |fs| == |ids| && AllValid(fs) && Bound(instance, fs, env.sets) && |pkt.network| >= 20
    ensures Traverse(instance, fs, ids, Postrouting, pkt, env) ==
              if exists i :: 0 <= i < |fs| && Admitted(pkt, fs[i]) then Decided(pkt.(masqueraded := true), true) else Passed(pkt)
  {
    TraverseEntersRegular(instance, fs, ids, Postrouting, pkt, env);
    assert Regular(instance, fs, ids, Postrouting) == RuleList(instance, fs, ids, Postrouting);
    FilterHook(instance, fs, ids, Postrouting, pkt, env);
  }

  lemma FilterHook(instance: string, fs: seq<Forwarding>, ids: seq<Ids>, hook: Hook, pkt: Packet, env: Env)
    requires |fs| == |ids| && AllValid(fs) && Bound(instance, fs, env.sets) && |pkt.network| >= 20
    requires hook.Postrouting? || hook.Forward?
    ensures Walk(Installed(instance, fs, ids), RuleList(instance, fs, ids, hook), pkt, env, JUMP_STACK_SIZE - 1) ==
              if exists i :: 0 <= i < |fs| && Admitted(pkt, fs[i])
              then Decided(if hook.Postrouting? then pkt.(masqueraded := true) else pkt, true) else Passed(pkt)
  {
    hide NativeEndian32, BigEndian16, InternalName, EvalAll, RuleExprs, Installed, Traverse, Walk;
    var rules := RuleList(instance, fs, ids, hook);
    forall i | 0 <= i < |fs|
      ensures EvalAll(rules[i], map[], pkt, env) ==
                if !Admitted(pkt, fs[i]) then Stop(pkt)
                else Decide(if hook.Postrouting? then pkt.(masqueraded := true) else pkt, true)
    {
      FilterRule(instance, fs[i], hook, ids[i].For(hook), pkt, env);
    }
    var k := FirstAdmitting(fs, pkt);
    FirstDecides(Installed(instance, fs, ids), rules, pkt, env, JUMP_STACK_SIZE - 1, k);
  }

  lemma FirstAdmitting(fs: seq<Forwarding>, pkt: Packet) returns (k: nat)
    ensures k <= |fs| && (k < |fs| ==> Admitted(pkt, fs[k]))
    ensures forall i :: 0 <= i < k ==> !Admitted(pkt, fs[i])
  {
    k := 0;
    while k < |fs| && !Admitted(pkt, fs[k])
      invariant k <= |fs| && forall i :: 0 <= i < k ==> !Admitted(pkt, fs[i])
    {
      k := k + 1;
    }
  }

  // ----- The whole path

  /** Marked with the host port and sent to the target whose turn it is. */
  function Delivered(pkt: Packet, f: Forwarding, tick: nat): (r: Packet)
    requires Valid(f) && Applies(pkt, f)
    ensures |r.network| == |pkt.network| && |r.transport| == |pkt.transport|
    ensures r.network[16..20] == Choice(f, tick) && Word16(r.transport[2], r.transport[3]) == f.to
    ensures r.network[..16] == pkt.network[..16] && r.network[20..] == pkt.network[20..]
    ensures r.transport[..2] == pkt.transport[..2] && r.transport[4..] == pkt.transport[4..]
    ensures r == pkt.(network := r.network, transport := r.transport, mark := [f.from % 256, f.from / 256, 0, 0])
    ensures Admitted(r, f)
  {
    MarkBytes(f.from);
    AppliesUnmarked(pkt, NativeEndian32(f.from), f);
    var r := Redirected(pkt.(mark := NativeEndian32(f.from)), f, tick);
    assert r.network[9] == r.network[..16][9] == pkt.network[..16][9] == pkt.network[9];
    r
  }

  /** A packet for a forwarded port is redirected, let through and masqueraded, if lookups find their
  own elements. */
  lemma ForwardingMeans(instance: string, fs: seq<Forwarding>, ids: seq<Ids>, pkt: Packet, env: Env, i: nat)
    requires |fs| == |ids| && AllValid(fs) && Distinct(fs) && Bound(instance, fs, env.sets)
    requires i < |fs| && Applies(pkt, fs[i])
    ensures Traverse(instance, fs, ids, Prerouting, pkt, env) == Decided(Delivered(pkt, fs[i], env.tick), true)
    ensures Traverse(instance, fs, ids, Forward, Delivered(pkt, fs[i], env.tick), env)
              == Decided(Delivered(pkt, fs[i], env.tick), true)
    ensures Traverse(instance, fs, ids, Postrouting, Delivered(pkt, fs[i], env.tick), env)
              == Decided(Delivered(pkt, fs[i], env.tick).(masqueraded := true), true)
  {
    PreroutingMeans(instance, fs, ids, pkt, env);
    var delivered := Delivered(pkt, fs[i], env.tick);
    ForwardMeans(instance, fs, ids, delivered, env);
    PostroutingMeans(instance, fs, ids, delivered, env);
  }

  // ----- Fairness

  /** PREROUTING rewrites the packet to this address. */
  predicate SentTo(instance: string, fs: seq<Forwarding>, ids: seq<Ids>, pkt: Packet, env: Env, ip: Bytes)
    requires |fs| == |ids|
  {
    var result := Traverse(instance, fs, ids, Prerouting, pkt, env);
    result.Decided? && |result.pkt.network| >= 20 && result.pkt.network[16..20] == ip
  }

  /** How many of `n` consecutive new connections, counted from `first`, are sent to an address; `pkts`
  gives the first packet of each. */
  function Sent(instance: string, fs: seq<Forwarding>, ids: seq<Ids>, pkts: nat -> Packet, sets: map<string, map<Bytes, Bytes>>,
                first: nat, n: nat, ip: Bytes): nat
    requires |fs| == |ids|
  {
    if n == 0 then 0
    else
      var t := first + n - 1;
      Sent(instance, fs, ids, pkts, sets, first, n - 1, ip) + if SentTo(instance, fs, ids, pkts(t), Env(sets, t), ip) then 1 else 0
  }

  /** How often an address is chosen. */
  function Turns(f: Forwarding, first: nat, n: nat, ip: Bytes): nat
    requires Valid(f)
  {
    if n == 0 then 0 else Turns(f, first, n - 1, ip) + if Choice(f, first + n - 1) == ip then 1 else 0
  }

  /** Round robin is fair: of as many consecutive new connections to a forwarded port as it has targets,
  wherever the counter stands, each address gets as many as it is listed times. */
  lemma RoundRobinIsFair(instance: string, fs: seq<Forwarding>, ids: seq<Ids>, pkts: nat -> Packet, sets: map<string, map<Bytes, Bytes>>,
                         i: nat, first: nat, ip: Ip)
    requires |fs| == |ids| && AllValid(fs) && Distinct(fs) && Bound(instance, fs, sets)
    requires i < |fs| && forall t :: Applies(pkts(t), fs[i])
    ensures Sent(instance, fs, ids, pkts, sets, first, |fs[i].targets|, ip) == multiset(fs[i].targets)[ip]
  {
    hide Turns, Sent, Bound, Distinct, Applies, Choice;
    SentAreTurns(instance, fs, ids, pkts, sets, i, first, |fs[i].targets|, ip);
    FullTurn(fs[i], first, ip);
  }

  lemma {:induction false} SentAreTurns(instance: string, fs: seq<Forwarding>, ids: seq<Ids>, pkts: nat -> Packet,
                                        sets: map<string, map<Bytes, Bytes>>, i: nat, first: nat, n: nat, ip: Bytes)
    requires |fs| == |ids| && AllValid(fs) && Distinct(fs) && Bound(instance, fs, sets)
    requires i < |fs| && forall t :: Applies(pkts(t), fs[i])
    ensures Sent(instance, fs, ids, pkts, sets, first, n, ip) == Turns(fs[i], first, n, ip)
  {
    hide Bound, Distinct, Choice, Traverse, BigEndian16, NativeEndian32;
    if n > 0 {
      SentAreTurns(instance, fs, ids, pkts, sets, i, first, n - 1, ip);
      SentToChoice(instance, fs, ids, pkts(first + n - 1), Env(sets, first + n - 1), i, ip);
    }
  }

  lemma SentToChoice(instance: string, fs: seq<Forwarding>, ids: seq<Ids>, pkt: Packet, env: Env, i: nat, ip: Bytes)
    requires |fs| == |ids| && AllValid(fs) && Distinct(fs) && Bound(instance, fs, env.sets) && i < |fs| && Applies(pkt, fs[i])
    ensures SentTo(instance, fs, ids, pkt, env, ip) <==> Choice(fs[i], env.tick) == ip
  {
    hide Bound, Distinct, Choice, Traverse, BigEndian16, NativeEndian32, Applies;
    LongEnough(pkt, fs[i]);
    PreroutingMeans(instance, fs, ids, pkt, env);
    assert Traverse(instance, fs, ids, Prerouting, pkt, env) == Decided(Delivered(pkt, fs[i], env.tick), true);
  }

  lemma LongEnough(pkt: Packet, f: Forwarding)
    requires Applies(pkt, f)
    ensures |pkt.network| >= 20 && |pkt.transport| >= 4
  {
  }

  lemma {:induction false} TurnsFromZero(f: Forwarding, n: nat, ip: Ip)
    requires Valid(f) && n <= |f.targets|
    ensures Turns(f, 0, n, ip) == multiset(Sorted(f)[..n])[ip]
  {
    hide Sorted, Choice;
    if n > 0 {
      TurnsFromZero(f, n - 1, ip);
      ChoiceEarly(f, n - 1);
      assert Sorted(f)[..n] == Sorted(f)[..n - 1] + [Sorted(f)[n - 1]];
    }
  }

  lemma ChoiceEarly(f: Forwarding, k: nat)
    requires Valid(f) && k < |f.targets|
    ensures Choice(f, k) == Sorted(f)[k]
  {
    hide Sorted;
    SmallResidue(k, |f.targets|);
  }

  lemma SmallResidue(k: nat, n: nat)
    requires k < n
    ensures k % n == k
  {
  }

  /** Dropping the first connection of a window. */
  lemma {:induction false} TurnsShift(f: Forwarding, first: nat, n: nat, ip: Bytes)
    requires Valid(f)
    ensures Turns(f, first, n + 1, ip) == (if Choice(f, first) == ip then 1 else 0) + Turns(f, first + 1, n, ip)
  {
    hide Choice;
    if n > 0 {
      TurnsShift(f, first, n - 1, ip);
    } else {
      assert Turns(f, first, 1, ip) == Turns(f, first, 0, ip) + if Choice(f, first + 1 - 1) == ip then 1 else 0;
    }
  }

  lemma {:induction false} FullTurn(f: Forwarding, first: nat, ip: Ip)
    requires Valid(f)
    ensures Turns(f, first, |f.targets|, ip) == multiset(f.targets)[ip]
  {
    hide Sorted, Choice;
    var n := |f.targets|;
    if first == 0 {
      TurnsFromZero(f, n, ip);
      assert Sorted(f)[..n] == Sorted(f);
    } else {
      FullTurn(f, first - 1, ip);
      TurnsShift(f, first - 1, n, ip);
      ChoiceRecurs(f, first - 1);
      assert Turns(f, first - 1, n + 1, ip) == Turns(f, first - 1, n, ip) + if Choice(f, first - 1 + n) == ip then 1 else 0;
    }
  }

  lemma ChoiceRecurs(f: Forwarding, tick: nat)
    requires Valid(f)
    ensures Choice(f, tick + |f.targets|) == Choice(f, tick)
  {
    hide Sorted;
    var n := |f.targets|;
    SameResidue(tick, n);
  }

  lemma SameResidue(t: nat, n: nat)
    requires n > 0
    ensures (t + n) % n == t % n
  {
    var d := (t + n) / n - t / n - 1;
    assert n * d == t % n - (t + n) % n by {
      assert t == n * (t / n) + t % n && t + n == n * ((t + n) / n) + (t + n) % n;
      assert n * ((t + n) / n) - n * (t / n) - n * 1 == n * d;
    }
    SmallMultiple(n, d);
  }

  lemma SmallMultiple(n: nat, d: int)
    requires n > 0
    ensures n * d < n && n * d > 0 - n ==> d == 0
  {
    if d >= 1 {
      assert n * d >= n;
    } else if d <= -1 {
      assert n * d <= 0 - n;
    }
  }

  // ----- Shared set names

  /** What PREROUTING does to a packet for forwarding `i`, whatever the sets hold: it is sent where the set
  of that name leads, or nowhere. */
  lemma PreroutingFollowsSet(instance: string, fs: seq<Forwarding>, ids: seq<Ids>, pkt: Packet, env: Env, i: nat)
    requires |fs| == |ids| && Distinct(fs) && i < |fs| && Applies(pkt, fs[i])
    ensures var marked, to := pkt.(mark := NativeEndian32(fs[i].from)), Target(Outgoing(instance, fs[i], Prerouting, ids[i].pre), env);
            Traverse(instance, fs, ids, Prerouting, pkt, env) ==
              if to.Some? && |to.value| == 4 then Decided(Rewritten(marked, to.value, BigEndian16(fs[i].to)), true) else Passed(marked)
  {
    hide NativeEndian32, BigEndian16, EvalAll, RuleExprs, Installed, Traverse, Walk, Outgoing, Target, Applies, RuleList;
    var rules, chains, marked := Regular(instance, fs, ids, Prerouting), Installed(instance, fs, ids), pkt.(mark := NativeEndian32(fs[i].from));
    TraverseEntersRegular(instance, fs, ids, Prerouting, pkt, env);
    RegularRules(instance, fs, ids);
    LongEnough(pkt, fs[i]);
    AppliesUnmarked(pkt, marked.mark, fs[i]);
    forall j, p | 0 <= j < |fs| && j != i && (p == pkt || p == marked) ensures EvalAll(rules[j], map[], p, env) == Stop(p) {
      AppliesOnce(fs, p, i, j);
      LookupRule(instance, fs[j], ids[j].pre, p, env);
    }
    LookupRule(instance, fs[i], ids[i].pre, pkt, env);
    OneDecides(chains, rules, pkt, marked, env, JUMP_STACK_SIZE - 1, i);
  }

  lemma RegularRules(instance: string, fs: seq<Forwarding>, ids: seq<Ids>)
    requires |fs| == |ids|
    ensures |Regular(instance, fs, ids, Prerouting)| == |fs|
    ensures forall j :: 0 <= j < |fs| ==> Regular(instance, fs, ids, Prerouting)[j] == RuleExprs(instance, fs[j], Prerouting, ids[j].pre)
  {
    hide RuleExprs;
  }

  lemma AppliesUnmarked(pkt: Packet, mark: Bytes, f: Forwarding)
    ensures Applies(pkt.(mark := mark), f) <==> Applies(pkt, f)
  {
  }

  lemma AppliesOnce(fs: seq<Forwarding>, pkt: Packet, i: nat, j: nat)
    requires Distinct(fs) && i < |fs| && j < |fs| && i != j && Applies(pkt, fs[i])
    ensures !Applies(pkt, fs[j])
  {
  }

  lemma LookupRule(instance: string, f: Forwarding, id: uint32, pkt: Packet, env: Env)
    requires |pkt.network| >= 20
    ensures var marked, to := pkt.(mark := NativeEndian32(f.from)), Target(Outgoing(instance, f, Prerouting, id), env);
            EvalAll(RuleExprs(instance, f, Prerouting, id), map[], pkt, env) ==
              if !Applies(pkt, f) then Stop(pkt)
              else if to.Some? && |to.value| == 4 then Decide(Rewritten(marked, to.value, BigEndian16(f.to)), true)
              else Stop(marked)
  {
    hide NativeEndian32, BigEndian16, EvalAll, Built, Outgoing, Target, RuleCondition, Suitable, Applies, ProtoByte;
    AppliesTest(pkt, f);
    RuleConditionSuitable(instance, f, Prerouting, id);
    ConditionMeans(RuleCondition(instance, f, Prerouting, id), map[], pkt, env);
    PreroutingSense(instance, f, id, pkt, env);
  }

  /** Rules that do not apply are passed over, before and after the one that does. */
  lemma {:induction false} OneDecides(chains: Chains, rules: seq<Exprs>, pkt: Packet, marked: Packet, env: Env, depth: nat, k: nat)
    requires k < |rules|
    requires forall j :: 0 <= j < k ==> EvalAll(rules[j], map[], pkt, env) == Stop(pkt)
    requires forall j :: k < j < |rules| ==> EvalAll(rules[j], map[], marked, env) == Stop(marked)
    requires var flow := EvalAll(rules[k], map[], pkt, env); flow.Decide? || flow == Stop(marked)
    ensures var flow := EvalAll(rules[k], map[], pkt, env);
            Walk(chains, rules, pkt, env, depth) == if flow.Decide? then Decided(flow.pkt, flow.accepted) else Passed(marked)
  {
    if k > 0 {
      assert EvalAll(rules[0], map[], pkt, env) == Stop(pkt);
      OneDecides(chains, rules[1..], pkt, marked, env, depth, k - 1);
    } else if EvalAll(rules[0], map[], pkt, env) == Stop(marked) {
      FirstDecides(chains, rules[1..], marked, env, depth, |rules| - 1);
    }
  }

  /** Two forwardings of one host port with several targets share their sets by name.  Where their target
  lists differ, no contents of the sets sends packets for both to their own targets. */
  lemma SharedNameMisroutes(instance: string, fs: seq<Forwarding>, ids: seq<Ids>, sets: map<string, map<Bytes, Bytes>>,
                            i: nat, a: Packet, t: nat, j: nat, b: Packet, u: nat)
    requires |fs| == |ids| && AllValid(fs) && Distinct(fs) && i < |fs| && j < |fs| && i != j && fs[i].from == fs[j].from
    requires |fs[i].targets| != 1 && |fs[j].targets| != 1 && Applies(a, fs[i]) && Applies(b, fs[j])
    requires t % |fs[i].targets| == u % |fs[j].targets| && Choice(fs[i], t) != Choice(fs[j], u)
    ensures !SentTo(instance, fs, ids, a, Env(sets, t), Choice(fs[i], t)) || !SentTo(instance, fs, ids, b, Env(sets, u), Choice(fs[j], u))
  {
    hide Choice, Traverse, Applies, Distinct;
    SentWhereSetLeads(instance, fs, ids, a, Env(sets, t), i);
    SentWhereSetLeads(instance, fs, ids, b, Env(sets, u), j);
  }

  /** A packet that is sent anywhere is sent where the set has the index whose turn it is. */
  lemma SentWhereSetLeads(instance: string, fs: seq<Forwarding>, ids: seq<Ids>, pkt: Packet, env: Env, i: nat)
    requires |fs| == |ids| && AllValid(fs) && Distinct(fs) && i < |fs| && Applies(pkt, fs[i]) && |fs[i].targets| != 1
    ensures var name, key := InternalName(instance, fs[i].from, Prerouting), NativeEndian32(env.tick % |fs[i].targets|);
            forall ip :: SentTo(instance, fs, ids, pkt, env, ip) ==> name in env.sets && key in env.sets[name] && ip == env.sets[name][key]
  {
    hide NativeEndian32, BigEndian16, Traverse, Applies, InternalName, Distinct;
    var f := fs[i];
    PreroutingFollowsSet(instance, fs, ids, pkt, env, i);
    assert Outgoing(instance, f, Prerouting, ids[i].pre) == LoadBalancing(ids[i].pre, InternalName(instance, f.from, Prerouting), |f.targets|) by {
      WrapSmall(|f.targets|);
    }
    LongEnough(pkt, f);
  }

  lemma WrapSmall(n: nat)
    ensures n < 0x1_0000_0000 ==> Wrap32(n) == n
  {
  }

  const SharedTcp := Forwarding(TCP, 53, [[10, 0, 0, 1], [10, 0, 0, 2]], 53)
  const SharedUdp := Forwarding(UDP, 53, [[10, 0, 0, 3], [10, 0, 0, 4]], 53)

  /** Host port 53 forwarded for both protocols to two targets each: no sets serve both. */
  lemma SharedNameExample(instance: string, sets: map<string, map<Bytes, Bytes>>)
    ensures AllValid([SharedTcp, SharedUdp]) && Distinct([SharedTcp, SharedUdp]) && !Bound(instance, [SharedTcp, SharedUdp], sets)
  {
    hide Bound, Sorted;
    var fs := [SharedTcp, SharedUdp];
    assert forall x :: x in SharedUdp.targets ==> x[3] == 3 || x[3] == 4;
    SortedDiffer(SharedTcp, SharedUdp, SharedTcp.targets[0]);
    assert fs[0].from == fs[1].from;
    assert !NoClash(fs);
    if Bound(instance, fs, sets) {
      BoundOnlyWithoutClash(instance, fs, sets);
    }
  }

  lemma SortedDiffer(f: Forwarding, g: Forwarding, ip: Ip)
    requires ip in f.targets && ip !in g.targets
    ensures Sorted(f) != Sorted(g)
  {
    assert ip in multiset(f.targets) && ip !in multiset(g.targets);
  }
}
