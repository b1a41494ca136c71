/** Fixed-width integers, their byte encodings and decimal numerals.

The compiled rules compare header bytes with encoded ports and marks, and the names of
sets and endpoint slices end in a decimal index.  What every later proof needs from an
encoding is that it is injective.
*/
module Encoding {

  type byte = b: int | 0 <= b < 0x100
  type uint16 = n: int | 0 <= n < 0x1_0000
  type uint32 = n: int | 0 <= n < 0x1_0000_0000
  type Bytes = seq<byte>

  /** The lowest digit to a base and the rest, by repeated subtraction: proofs that only move digits
  around need no division then.  `LowAndRest` says what they are. */
  function Low(n: nat, base: nat): (d: nat)
    requires base > 0
    ensures d < base
  {
    if n < base then n else Low(n - base, base)
  }

  function Rest(n: nat, base: nat): (r: nat)
    requires base > 0
    ensures r <= n && (base > 1 && n > 0 ==> r < n)
  {
    if n < base then 0 else 1 + Rest(n - base, base)
  }

  lemma {:induction false} LowAndRest(n: nat, base: nat)
    requires base > 0
    ensures n == base * Rest(n, base) + Low(n, base)
  {
    if n >= base {
      LowAndRest(n - base, base);
      assert base * (1 + Rest(n - base, base)) == base + base * Rest(n - base, base);
    }
  }

  /** The octet number `k` of `n`, the least significant first. */
  function Octet(n: nat, k: nat): byte
    decreases k
  {
    if k == 0 then Low(n, 0x100) else Octet(Rest(n, 0x100), k - 1)
  }

  /** Conversion to `uint32`: multiples of 2^32 drop out. */
  function Wrap32(n: nat): uint32 {
    if n < 0x1_0000_0000 then n else Wrap32(n - 0x1_0000_0000)
  }

  lemma OctetDivision(n: nat)
    ensures Low(n, 0x100) == n % 0x100 && Rest(n, 0x100) == n / 0x100
  {
    LowAndRest(n, 0x100);
  }

  /** The octets of a 32-bit number by plain division. */
  lemma Octets(n: uint32)
    ensures Octet(n, 0) == n % 0x100 && Octet(n, 1) == n / 0x100 % 0x100
    ensures Octet(n, 2) == n / 0x1_0000 % 0x100 && Octet(n, 3) == n / 0x100_0000
  {
    var a, b, c := n / 0x100, n / 0x100 / 0x100, n / 0x100 / 0x100 / 0x100;
    OctetDivision(n);
    OctetDivision(a);
    OctetDivision(b);
    OctetDivision(c);
    assert Octet(n, 1) == Octet(a, 0) && Octet(n, 2) == Octet(a, 1) == Octet(b, 0);
    assert Octet(n, 3) == Octet(a, 2) == Octet(b, 1) == Octet(c, 0);
  }

  /** The number that bytes spell, the most significant first. */
  function Spelled(b: Bytes): nat {
    if b == [] then 0 else Spelled(b[..|b| - 1]) * 0x100 + b[|b| - 1]
  }

  lemma {:induction false} SpelledInjective(a: Bytes, b: Bytes)
    requires |a| == |b| && Spelled(a) == Spelled(b)
    ensures a == b
  {
    if a != [] {
      var n := |a| - 1;
      SpelledInjective(a[..n], b[..n]);
      assert a == a[..n] + [a[n]] && b == b[..n] + [b[n]];
    }
  }

  /** Network byte order, as `binaryutil.BigEndian.PutUint16` writes it. */
  function BigEndian16(n: uint16): (bytes: Bytes)
    ensures |bytes| == 2
  {
    [Octet(n, 1), Octet(n, 0)]
  }

  /** `binaryutil.NativeEndian.PutUint32` on a little-endian host. */
  function NativeEndian32(n: uint32): (bytes: Bytes)
    ensures |bytes| == 4
  {
    [Octet(n, 0), Octet(n, 1), Octet(n, 2), Octet(n, 3)]
  }

  lemma BigEndian16Bytes(n: uint16)
    ensures BigEndian16(n) == [n / 0x100, n % 0x100]
  {
    Octets(n);
  }

  lemma BigEndian16Injective(m: uint16, n: uint16)
    ensures BigEndian16(m) == BigEndian16(n) <==> m == n
  {
    hide BigEndian16;
    BigEndian16Bytes(m);
    BigEndian16Bytes(n);
    if BigEndian16(m) == BigEndian16(n) {
      assert BigEndian16(m)[0] == BigEndian16(n)[0] && BigEndian16(m)[1] == BigEndian16(n)[1];
    }
  }

  function Word16(high: int, low: int): int {
    high * 0x100 + low
  }

  function FromNative32(b: Bytes): int
    requires |b| == 4
  {
    Word16(Word16(Word16(b[3], b[2]), b[1]), b[0])
  }

  lemma NativeEndian32Bytes(n: uint32)
    ensures NativeEndian32(n) == [n % 0x100, n / 0x100 % 0x100, n / 0x1_0000 % 0x100, n / 0x100_0000]
  {
    Octets(n);
  }

  lemma NativeEndian32Value(n: uint32)
    ensures FromNative32(NativeEndian32(n)) == n
  {
    hide NativeEndian32;
    NativeEndian32Bytes(n);
    var q1, q2, q3 := n / 0x100, n / 0x1_0000, n / 0x100_0000;
    assert q2 == q1 / 0x100 && q3 == q2 / 0x100;
    assert NativeEndian32(n) == [n % 0x100, q1 % 0x100, q2 % 0x100, q3];
  }

  lemma NativeEndian32Injective(m: uint32, n: uint32)
    ensures NativeEndian32(m) == NativeEndian32(n) <==> m == n
  {
    NativeEndian32Value(m);
    NativeEndian32Value(n);
  }

  predicate IsDigit(c: char) {
    '0' <= c <= '9'
  }

  function DigitChar(d: nat): (c: char)
    requires d < 10
    ensures IsDigit(c)
  {
    ['0', '1', '2', '3', '4', '5', '6', '7', '8', '9'][d]
  }

  lemma DigitCharInjective(d: nat, e: nat)
    requires d < 10 && e < 10 && DigitChar(d) == DigitChar(e)
    ensures d == e
  {
  }

  /** Decimal numeral without leading zeros, as `strconv.Itoa` prints a natural number. */
  function Decimal(n: nat): (s: string)
    ensures |s| > 0 && forall i :: 0 <= i < |s| ==> IsDigit(s[i])
  {
    if n < 10 then [DigitChar(n)] else Decimal(Rest(n, 10)) + [DigitChar(Low(n, 10))]
  }

  lemma {:induction false} DecimalLength(n: nat)
    ensures n >= 10 <==> |Decimal(n)| >= 2
  {
  }

  lemma {:induction false} DecimalInjective(m: nat, n: nat)
    ensures Decimal(m) == Decimal(n) ==> m == n
  {
    hide DigitChar, Low, Rest;
    if Decimal(m) == Decimal(n) {
      var s := Decimal(m);
      assert m < 10 <==> n < 10 by {
        DecimalLength(m);
        DecimalLength(n);
      }
      if m >= 10 {
        LowAndRest(m, 10);
        LowAndRest(n, 10);
        assert DigitChar(Low(m, 10)) == s[|s| - 1] == DigitChar(Low(n, 10));
        assert Decimal(Rest(m, 10)) == s[..|s| - 1] == Decimal(Rest(n, 10));
        DecimalInjective(Rest(m, 10), Rest(n, 10));
        DigitCharInjective(Low(m, 10), Low(n, 10));
      } else {
        assert DigitChar(m) == s[0] == DigitChar(n);
        DigitCharInjective(m, n);
      }
    }
  }

  /** A numeral followed by a non-digit can be read back off the front of a string. */
  lemma NumeralPrefixInjective(m: nat, n: nat, s: string, t: string)
    requires |s| > 0 && |t| > 0 && !IsDigit(s[0]) && !IsDigit(t[0])
    requires Decimal(m) + s == Decimal(n) + t
    ensures m == n && s == t
  {
    var a, b := Decimal(m), Decimal(n);
    var whole := a + s;
    assert IsDigit(whole[|a|]) <==> IsDigit(s[0]);
    assert IsDigit(whole[|b|]) <==> IsDigit(t[0]);
    assert |a| == |b|;
    assert a == whole[..|a|] == (b + t)[..|b|] == b;
    assert s == whole[|a|..] == (b + t)[|b|..] == t;
    DecimalInjective(m, n);
  }
}
