/** The rule expressions of nftables that the forwarder builds or has to recognise. */
module Expressions {
  import opened Encoding

  type Register = uint32

  datatype PayloadBase = NetworkHeader | TransportHeader
  datatype CmpOp = Eq | Neq
  datatype CtKey = CtState | CtMark
  datatype MetaKey = L4Proto | OtherMeta(key: nat)
  datatype VerdictKind = AcceptVerdict | DropVerdict | JumpVerdict

  /** Fields that the forwarder always leaves at their zero value are not listed: an expression
  of somebody else's rule that sets one of them is `Foreign`. */
  datatype Expr =
    | Counter(bytes: nat, packets: nat)
    | Meta(key: MetaKey, register: Register)
    | Cmp(register: Register, op: CmpOp, data: Bytes)
    | Payload(base: PayloadBase, offset: nat, len: nat, destRegister: Register)
    | Immediate(register: Register, data: Bytes)
    | DestNat(regAddr: Register, regProto: Register, specified: bool)
    | Masq
    | Fib(register: Register, resultAddrType: bool, flagSaddr: bool)
    | Ct(register: Register, ctKey: CtKey, sourceRegister: bool)
    | Bitwise(source: Register, dest: Register, len: nat, mask: Bytes, xor: Bytes)
    | Verdict(kind: VerdictKind, chain: string)
    | Numgen(register: Register, modulus: uint32)
    | Lookup(source: Register, dest: Register, isDestRegSet: bool, setId: uint32, setName: string, invert: bool)
    | Foreign(tag: nat)

  /** Two lookups are the same when either reference to the set is. */
  predicate LookupEquals(a: Expr, b: Expr) {
    && a.Lookup? && b.Lookup?
    && a.source == b.source
    && a.dest == b.dest
    && a.isDestRegSet == b.isDestRegSet
    && (a.setId == b.setId || a.setName == b.setName)
    && a.invert == b.invert
  }

  /** `compareExprEquals`: the registered comparator for lookups, deep equality otherwise. */
  predicate CompareExprEquals(a: Expr, b: Expr) {
    if a.Lookup? then LookupEquals(a, b) else a == b
  }

  /** What recognising a built expression amounts to: a counter's numbers do not matter. */
  predicate Agrees(want: Expr, have: Expr) {
    if want.Counter? then have.Counter? else CompareExprEquals(want, have)
  }

  predicate AgreesPointwise(want: seq<Expr>, have: seq<Expr>) {
    |want| == |have| && forall i :: 0 <= i < |want| ==> Agrees(want[i], have[i])
  }

  /** Agreement is no equivalence: a set known by id to one lookup and by name to another links
  two lookups that share neither. */
  lemma AgreementIsNotTransitive()
    ensures exists a, b, c :: Agrees(a, b) && Agrees(b, c) && !Agrees(a, c)
  {
    var a, b, c := Lookup(1, 0, false, 7, "x", false), Lookup(1, 0, false, 7, "y", false), Lookup(1, 0, false, 8, "y", false);
    assert Agrees(a, b) && Agrees(b, c) && !Agrees(a, c);
  }
}
