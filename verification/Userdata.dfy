/** The length-prefixed comment stored in a rule's user data. */
module Userdata {
  import opened Encoding

  /** A Go slice expression or nil dereference either yields a value or panics. */
  datatype Outcome<T> = Value(value: T) | Panic

  /** The stored form: a 16-bit length that counts the terminating zero, the text, the zero. */
  function Stored(comment: Bytes): (data: Bytes) {
    if comment == [] then [] else BigEndian16((|comment| + 1) % 0x1_0000) + comment + [0]
  }

  method Marshal(comment: Bytes) returns (data: Bytes)
    ensures data == Stored(comment)
  {
    if |comment| == 0 {
      return [];
    }
    hide BigEndian16;
    var buf := new byte[|comment| + 3](_ => 0);
    var length: uint16 := (|comment| + 1) % 0x1_0000;
    buf[0] := length / 0x100;
    buf[1] := length % 0x100;
    var i := 0;
    while i < |comment|
      invariant 0 <= i <= |comment|
      invariant buf[0] == length / 0x100 && buf[1] == length % 0x100
      invariant buf[2..2 + i] == comment[..i]
      invariant buf[|comment| + 2] == 0
    {
      buf[2 + i] := comment[i];
      i := i + 1;
    }
    BigEndian16Bytes(length);
    assert buf[..] == BigEndian16(length) + buf[2..2 + |comment|] + [0];
    return buf[..];
  }

  /** Two bytes of length, high byte first, counting the zero; the text; the zero. */
  lemma StoredBytes(comment: Bytes)
    requires comment != []
    ensures var data := Stored(comment);
            && |data| == |comment| + 3 && Word16(data[0], data[1]) == (|comment| + 1) % 0x1_0000
            && data[2..|comment| + 2] == comment && data[|comment| + 2] == 0
  {
    hide BigEndian16;
    BigEndian16Bytes((|comment| + 1) % 0x1_0000);
  }

  function Unmarshal(data: Bytes): (r: Outcome<Bytes>)
    ensures r.Panic? <==> |data| >= 2 && |data| >= Word16(data[0], data[1]) + 2
                          && (Word16(data[0], data[1]) == 0 || Word16(data[0], data[1]) == 0xFFFF)
  {
    if |data| < 2 then Value([])
    else
      var sz: uint16 := Word16(data[0], data[1]);
      if |data| < sz + 2 then Value([])
      else
        var end: uint16 := (1 + sz) % 0x1_0000;  // the sum is computed in 16 bits
        if end < 2 then Panic else Value(data[2..end])
  }

  /** Decoding what was stored, for every comment: the 16-bit length counts the zero behind the text, so
  it says zero after 65535 bytes and 65535 after 65534 bytes, modulo 65536, and decoding panics; a
  longer comment comes back cut to what the length says. */
  lemma UnmarshalStored(comment: Bytes)
    requires comment != []
    ensures var sz := (|comment| + 1) % 0x1_0000;
            Unmarshal(Stored(comment)) == if sz == 0 || sz == 0xFFFF then Panic else Value(comment[..sz - 1])
  {
    hide BigEndian16;
    var data := Stored(comment);
    var sz := (|comment| + 1) % 0x1_0000;
    BigEndian16Bytes(sz);
    assert data[0] == sz / 0x100 && data[1] == sz % 0x100;
    assert Word16(data[0], data[1]) == sz;
    if 0 < sz < 0xFFFF {
      assert data[2..1 + sz] == comment[..sz - 1];
    }
  }

  /** The comment comes back exactly when it has at most 65533 bytes. */
  lemma RoundTripExactly(comment: Bytes)
    ensures Unmarshal(Stored(comment)) == Value(comment) <==> |comment| <= 65533
  {
    hide Stored, Unmarshal;
    if comment == [] {
      EmptyComment();
    } else {
      UnmarshalStored(comment);
      if |comment| <= 65533 {
        assert comment[..|comment|] == comment;
      }
    }
  }

  lemma EmptyComment()
    ensures Unmarshal(Stored([])) == Value([])
  {
  }

  /** The first lengths that fail: two that panic, then one that reads as empty. */
  lemma TooLong(comment: Bytes)
    ensures |comment| == 65534 || |comment| == 65535 ==> Unmarshal(Stored(comment)) == Panic
    ensures |comment| == 65536 ==> Unmarshal(Stored(comment)) == Value([])
  {
    hide Stored, Unmarshal;
    if comment != [] {
      UnmarshalStored(comment);
    }
  }
}
