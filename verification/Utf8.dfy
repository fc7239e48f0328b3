/** Well-formed byte strings are the encodings of sequences of Unicode scalar values
    (section 3.9 of the Unicode Standard). */
module Utf8 {
  import opened Bytes

  predicate IsScalar(c: nat) {
    c < 0xD800 || 0xE000 <= c < 0x11_0000
  }

  function EncodeScalar(c: nat): (r: Bytes)
    requires IsScalar(c)
    ensures |r| > 0
  {
    if c < 0x80 then [c]
    else if c < 0x800 then [0xC0 + c / 64, 0x80 + c % 64]
    else if c < 0x1_0000 then [0xE0 + c / 4096, 0x80 + c / 64 % 64, 0x80 + c % 64]
    else [0xF0 + c / 262144, 0x80 + c / 4096 % 64, 0x80 + c / 64 % 64, 0x80 + c % 64]
  }

  predicate AllScalars(cs: seq<nat>) {
    forall i :: 0 <= i < |cs| ==> IsScalar(cs[i])
  }

  function EncodeAll(cs: seq<nat>): Bytes
    requires AllScalars(cs)
  {
    if |cs| == 0 then [] else EncodeScalar(cs[0]) + EncodeAll(cs[1..])
  }

  lemma HeadOfScalar(c: nat, rest: Bytes)
    requires IsScalar(c)
    ensures Utf8Head(EncodeScalar(c) + rest) == |EncodeScalar(c)|
    ensures (EncodeScalar(c) + rest)[|EncodeScalar(c)|..] == rest
  {
  }

  lemma ScalarOfTwo(x: nat, y: nat)
    requires 2 <= x < 32 && y < 64
    ensures IsScalar(64 * x + y) && EncodeScalar(64 * x + y) == [0xC0 + x, 0x80 + y]
  {
  }

  lemma ScalarOfThree(x: nat, y: nat, z: nat)
    requires x < 16 && y < 64 && z < 64 && (x == 0 ==> y >= 32) && (x == 13 ==> y < 32)
    ensures var c := 4096 * x + 64 * y + z; IsScalar(c) && EncodeScalar(c) == [0xE0 + x, 0x80 + y, 0x80 + z]
  {
    var c := 4096 * x + 64 * y + z;
    assert c / 64 == 64 * x + y;
  }

  lemma ScalarOfFour(x: nat, y: nat, z: nat, w: nat)
    requires x < 5 && y < 64 && z < 64 && w < 64 && (x == 0 ==> y >= 16) && (x == 4 ==> y < 16)
    ensures var c := 262144 * x + 4096 * y + 64 * z + w;
      IsScalar(c) && EncodeScalar(c) == [0xF0 + x, 0x80 + y, 0x80 + z, 0x80 + w]
  {
    var c := 262144 * x + 4096 * y + 64 * z + w;
    assert c / 64 == 4096 * x + 64 * y + z && c / 4096 == 64 * x + y;
  }

  function Low(b: Byte): nat { b % 64 }

  /** The scalar value at the head of a well-formed string. */
  lemma ScalarOfHead(bs: Bytes) returns (c: nat)
    requires Utf8Head(bs) > 0
    ensures IsScalar(c) && EncodeScalar(c) == bs[..Utf8Head(bs)]
  {
    var n := Utf8Head(bs);
    hide EncodeScalar, IsScalar;
    if n == 1 {
      c := bs[0];
      AsciiScalar(c);
    } else if n == 2 {
      c := 64 * (bs[0] % 32) + Low(bs[1]);
      ScalarOfTwo(bs[0] % 32, Low(bs[1]));
    } else if n == 3 {
      c := 4096 * (bs[0] % 16) + 64 * Low(bs[1]) + Low(bs[2]);
      ScalarOfThree(bs[0] % 16, Low(bs[1]), Low(bs[2]));
    } else {
      c := 262144 * (bs[0] % 8) + 4096 * Low(bs[1]) + 64 * Low(bs[2]) + Low(bs[3]);
      ScalarOfFour(bs[0] % 8, Low(bs[1]), Low(bs[2]), Low(bs[3]));
    }
  }

  lemma AsciiScalar(c: nat)
    requires c < 0x80
    ensures IsScalar(c) && EncodeScalar(c) == [c]
  {
  }

  lemma {:induction false} EncodedIsValid(cs: seq<nat>)
    requires AllScalars(cs)
    ensures ValidUtf8(EncodeAll(cs))
  {
    hide Utf8Head, EncodeScalar;
    if |cs| > 0 {
      HeadOfScalar(cs[0], EncodeAll(cs[1..]));
      EncodedIsValid(cs[1..]);
    }
  }

  lemma {:induction false} ValidIsEncoded(bs: Bytes) returns (cs: seq<nat>)
    requires ValidUtf8(bs)
    ensures AllScalars(cs) && EncodeAll(cs) == bs
  {
    hide Utf8Head, EncodeScalar, IsScalar;
    if |bs| == 0 {
      cs := [];
    } else {
      var n := Utf8Head(bs);
      var c := ScalarOfHead(bs);
      var rest := ValidIsEncoded(bs[n..]);
      cs := [c] + rest;
      assert cs[1..] == rest && bs == bs[..n] + bs[n..];
    }
  }

  lemma Utf8Exactly(bs: Bytes)
    ensures ValidUtf8(bs) <==> exists cs :: AllScalars(cs) && EncodeAll(cs) == bs
  {
    hide ValidUtf8, EncodeAll, IsScalar;
    if ValidUtf8(bs) {
      var cs := ValidIsEncoded(bs);
    }
    if cs :| AllScalars(cs) && EncodeAll(cs) == bs {
      EncodedIsValid(cs);
    }
  }
}
