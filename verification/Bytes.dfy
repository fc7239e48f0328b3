/** Byte strings, fixed-width little-endian words and UTF-8 well-formedness. */
module Bytes {
  type Byte = x: int | 0 <= x < 256
  type Bytes = seq<Byte>

  const U64_LIMIT: nat := 0x1_0000_0000_0000_0000

  datatype Option<+T> = None | Some(value: T)

  function Min(a: nat, b: nat): nat { if a <= b then a else b }

  /** Byte strings one after another. */
  function Flatten(parts: seq<Bytes>): Bytes {
    if |parts| == 0 then [] else parts[0] + Flatten(parts[1..])
  }

  lemma {:induction false} FlattenAppend(parts: seq<Bytes>, last: Bytes)
    ensures Flatten(parts + [last]) == Flatten(parts) + last
  {
    if |parts| == 0 {
      assert parts + [last] == [last] && [last][1..] == [];
    } else {
      assert (parts + [last])[1..] == parts[1..] + [last];
      FlattenAppend(parts[1..], last);
    }
  }

  function Pow2(n: nat): (r: nat)
    ensures r > 0
  {
    if n == 0 then 1 else 2 * Pow2(n - 1)
  }

  function Pow256(n: nat): (r: nat)
    ensures r > 0
  {
    if n == 0 then 1 else 256 * Pow256(n - 1)
  }

  lemma Pow256Of8()
    ensures Pow256(1) == 0x100 && Pow256(2) == 0x1_0000
    ensures Pow256(4) == 0x1_0000_0000 && Pow256(8) == U64_LIMIT
  {
    assert Pow256(4) == 256 * (256 * (256 * (256 * Pow256(0))));
    assert Pow256(8) == 256 * (256 * (256 * (256 * Pow256(4))));
  }

  /** `enc` is what stands in `d` from position `pos` on. */
  predicate Holds(d: Bytes, pos: nat, enc: Bytes) {
    pos + |enc| <= |d| && d[pos..pos + |enc|] == enc
  }

  lemma HoldsSplit(d: Bytes, pos: nat, a: Bytes, b: Bytes)
    requires Holds(d, pos, a + b)
    ensures Holds(d, pos, a) && Holds(d, pos + |a|, b)
  {
    var ab := d[pos..pos + |a + b|];
    assert a == ab[..|a|] && b == ab[|a|..];
  }

  // ----- little-endian words -----

  /** The `width` low bytes of `n`, least significant first. */
  function ToLE(width: nat, n: nat): (r: Bytes)
    ensures |r| == width
  {
    if width == 0 then [] else [n % 256] + ToLE(width - 1, n / 256)
  }

  function FromLE(bs: Bytes): nat {
    if |bs| == 0 then 0 else bs[0] + 256 * FromLE(bs[1..])
  }

  lemma {:induction false} FromLEToLE(width: nat, n: nat)
    requires n < Pow256(width)
    ensures FromLE(ToLE(width, n)) == n
  {
    if width > 0 {
      FromLEToLE(width - 1, n / 256);
      assert ToLE(width, n)[1..] == ToLE(width - 1, n / 256);
    }
  }

  /** The vector `ws` as the raw memory of an array of `width`-byte words. */
  function PackWords(width: nat, ws: seq<nat>): (r: Bytes)
    ensures |r| == width * |ws|
  {
    if |ws| == 0 then [] else ToLE(width, ws[0]) + PackWords(width, ws[1..])
  }

  function UnpackWords(width: nat, count: nat, bs: Bytes): (r: seq<nat>)
    requires |bs| == width * count
    ensures |r| == count
  {
    if count == 0 then []
    else
      MulStep(width, count);
      [FromLE(bs[..width])] + UnpackWords(width, count - 1, bs[width..])
  }

  lemma MulStep(width: nat, count: nat)
    requires count > 0
    ensures width * count == width + width * (count - 1)
    ensures width * (count - 1) >= 0
  {
  }

  lemma {:induction false} UnpackPack(width: nat, ws: seq<nat>)
    requires forall i :: 0 <= i < |ws| ==> ws[i] < Pow256(width)
    ensures UnpackWords(width, |ws|, PackWords(width, ws)) == ws
  {
    if |ws| > 0 {
      var bs := PackWords(width, ws);
      MulStep(width, |ws|);
      assert bs[..width] == ToLE(width, ws[0]) && bs[width..] == PackWords(width, ws[1..]);
      FromLEToLE(width, ws[0]);
      UnpackPack(width, ws[1..]);
      assert ws == [ws[0]] + ws[1..];
    }
  }

  lemma {:induction false} PackWordsAppend(width: nat, a: seq<nat>, b: seq<nat>)
    ensures PackWords(width, a + b) == PackWords(width, a) + PackWords(width, b)
  {
    if |a| == 0 {
      assert a + b == b;
    } else {
      assert (a + b)[1..] == a[1..] + b;
      PackWordsAppend(width, a[1..], b);
    }
  }

  // ----- UTF-8 (section 3.9, table 3-7 of the Unicode Standard) -----

  predicate Continuation(b: Byte) { 0x80 <= b <= 0xBF }

  /** Length of the well-formed sequence at the head of `bs`; 0 when there is none. */
  function Utf8Head(bs: Bytes): (n: nat)
    ensures n <= |bs| && n <= 4
  {
    if |bs| == 0 then 0
    else if bs[0] < 0x80 then 1
    else if |bs| < 2 then 0
    else if 0xC2 <= bs[0] <= 0xDF && Continuation(bs[1]) then 2
    else if |bs| < 3 || !Continuation(bs[2]) then 0
    else if bs[0] == 0xE0 && 0xA0 <= bs[1] <= 0xBF then 3
    else if (0xE1 <= bs[0] <= 0xEC || 0xEE <= bs[0] <= 0xEF) && Continuation(bs[1]) then 3
    else if bs[0] == 0xED && 0x80 <= bs[1] <= 0x9F then 3
    else if |bs| < 4 || !Continuation(bs[3]) then 0
    else if bs[0] == 0xF0 && 0x90 <= bs[1] <= 0xBF then 4
    else if 0xF1 <= bs[0] <= 0xF3 && Continuation(bs[1]) then 4
    else if bs[0] == 0xF4 && 0x80 <= bs[1] <= 0x8F then 4
    else 0
  }

  predicate ValidUtf8(bs: Bytes) {
    |bs| == 0 || (var n := Utf8Head(bs); n > 0 && ValidUtf8(bs[n..]))
  }

  // ----- ASCII text -----

  predicate Ascii(s: string) {
    forall i :: 0 <= i < |s| ==> s[i] < 128 as char
  }

  /** The bytes of an ASCII string; the type names of the protocol are all of this kind. */
  function Encode(s: string): (r: Bytes)
    requires Ascii(s)
    ensures |r| == |s|
  {
    seq(|s|, i requires 0 <= i < |s| => s[i] as int)
  }

  /** One character for each byte. */
  function Decode(bs: Bytes): (s: string)
    ensures |s| == |bs|
  {
    seq(|bs|, i requires 0 <= i < |bs| => bs[i] as char)
  }

  lemma DecodeEncode(s: string)
    requires Ascii(s)
    ensures Decode(Encode(s)) == s
  {
  }

  lemma {:induction false} AsciiIsUtf8(s: string)
    requires Ascii(s)
    ensures ValidUtf8(Encode(s))
  {
    if |s| > 0 {
      assert Encode(s)[1..] == Encode(s[1..]);
      AsciiIsUtf8(s[1..]);
    }
  }
}
