/** Unsigned LEB128 varints: `put_uvarint` and `read_uvarint`
    (section 7.6 of DWARF Version 5). */
module Uvarint {
  import opened Bytes
  import opened Parsed

  const MAX_VARINT_LEN64: nat := 10

  // ----- reference definitions -----

  /** The canonical encoding of `x`. */
  function Leb(x: nat): (r: Bytes)
    ensures |r| > 0
  {
    if x < 0x80 then [x] else [x % 0x80 + 0x80] + Leb(x / 0x80)
  }

  /** The number a string of 7-bit groups denotes; the top bit of a byte carries no value. */
  function LebValue(bs: Bytes): nat {
    if |bs| == 0 then 0 else bs[0] % 0x80 + 0x80 * LebValue(bs[1..])
  }

  /** Where the first byte without a continuation bit stands. */
  function Terminator(d: Bytes, pos: nat): (t: Option<nat>)
    requires pos <= |d|
    ensures t.Some? ==> pos <= t.value < |d| && d[t.value] < 0x80
    ensures t.Some? ==> forall i :: pos <= i < t.value ==> d[i] >= 0x80
    ensures t.None? ==> forall i :: pos <= i < |d| ==> d[i] >= 0x80
    decreases |d| - pos
  {
    if pos == |d| then None
    else if d[pos] < 0x80 then Some(pos)
    else Terminator(d, pos + 1)
  }

  /** What `read_uvarint` answers on the bytes of `d` from `pos` on. */
  function ReadUvarint(d: Bytes, pos: nat): (r: Parsed<nat>)
    requires pos <= |d|
    ensures r.Within(pos, d)
    ensures !r.WouldBlock? ==> pos < r.pos
  {
    match Terminator(d, pos)
    case None => WouldBlock
    case Some(t) =>
      var n := t + 1 - pos;
      if n > MAX_VARINT_LEN64 || (n == MAX_VARINT_LEN64 && d[t] > 1) then Err(Overflow, t + 1)
      else Ok(LebValue(d[pos..t + 1]), t + 1)
  }

  // ----- arithmetic of the loops -----

  /** Bitwise or. */
  function BitOr(a: nat, b: nat): nat {
    if a == 0 && b == 0 then 0
    else (if a % 2 == 1 || b % 2 == 1 then 1 else 0) + 2 * BitOr(a / 2, b / 2)
  }

  function Wrap64(v: nat): nat { v % U64_LIMIT }

  /** `v << s` on a 64-bit word: the shift count is taken modulo 64. */
  function Shl64(v: nat, s: nat): nat {
    Wrap64(v * Pow2(s % 64))
  }

  function Pow128(n: nat): (r: nat)
    ensures r > 0
  {
    if n == 0 then 1 else 0x80 * Pow128(n - 1)
  }

  lemma {:induction false} OrZero(b: nat)
    ensures BitOr(0, b) == b && BitOr(b, 0) == b
  {
    if b > 0 { OrZero(b / 2); }
  }

  /** Numbers without a common bit: or is addition. */
  lemma {:induction false} OrDisjoint(a: nat, b: nat, s: nat)
    requires a < Pow2(s)
    ensures BitOr(a, b * Pow2(s)) == a + b * Pow2(s)
  {
    if s == 0 {
      OrZero(b);
    } else {
      var c := b * Pow2(s - 1);
      assert b * Pow2(s) == 2 * c;
      OrDisjoint(a / 2, b, s - 1);
    }
  }

  lemma {:induction false} Pow2Add(a: nat, b: nat)
    ensures Pow2(a + b) == Pow2(a) * Pow2(b)
  {
    if a > 0 { Pow2Add(a - 1, b); }
  }

  lemma {:induction false} Pow2Sevens(n: nat)
    ensures Pow2(7 * n) == Pow128(n)
  {
    if n > 0 {
      Pow2Sevens(n - 1);
      Pow2Add(7, 7 * (n - 1));
      assert Pow2(7) == 0x80;
    }
  }

  lemma {:induction false} Pow128Mono(a: nat, b: nat)
    requires a <= b
    ensures Pow128(a) <= Pow128(b)
    decreases b
  {
    if a < b { Pow128Mono(a, b - 1); }
  }

  lemma Pow128Of9()
    ensures Pow128(8) == 0x100_0000_0000_0000 && Pow128(9) == 0x8000_0000_0000_0000
    ensures Pow128(10) == 0x80 * 0x8000_0000_0000_0000
  {
    assert Pow128(4) == 0x1000_0000;
    assert Pow128(8) == 0x100_0000_0000_0000;
  }

  lemma {:induction false} LebValueBound(bs: Bytes)
    ensures LebValue(bs) < Pow128(|bs|)
  {
    if |bs| > 0 { LebValueBound(bs[1..]); }
  }

  lemma {:induction false} LebValueAppend(bs: Bytes, b: Byte)
    ensures LebValue(bs + [b]) == LebValue(bs) + b % 0x80 * Pow128(|bs|)
  {
    if |bs| == 0 {
      assert bs + [b] == [b];
      assert LebValue([b]) == b % 0x80 + 0x80 * LebValue([]);
    } else {
      assert (bs + [b])[1..] == bs[1..] + [b];
      LebValueAppend(bs[1..], b);
      Distribute(LebValue(bs[1..]), b % 0x80, Pow128(|bs| - 1));
    }
  }

  lemma Distribute(v: nat, g: nat, p: nat)
    ensures 0x80 * (v + g * p) == 0x80 * v + g * (0x80 * p)
  {
  }

  lemma ProductBound(a: nat, b: nat, p: nat, q: nat)
    requires a <= b && p <= q
    ensures a * p <= b * q
  {
    assert a * p <= a * q;
  }

  lemma WrapSmall(v: nat)
    requires v < U64_LIMIT
    ensures Wrap64(v) == v
  {
  }

  lemma GroupFits(v: nat, i: nat)
    requires v < 0x80 && i <= 9
    requires i < 9 || v <= 1
    ensures v * Pow128(i) < U64_LIMIT
  {
    Pow128Of9();
    if i < 9 {
      Pow128Mono(i, 8);
      ProductBound(v, 0x7F, Pow128(i), 0x100_0000_0000_0000);
    } else {
      ProductBound(v, 1, Pow128(i), 0x8000_0000_0000_0000);
    }
  }

  /** A shift of a 7-bit group that loses no bit. */
  lemma ShiftFits(v: nat, i: nat)
    requires v < 0x80 && i <= 9
    requires i < 9 || v <= 1
    ensures Shl64(v, 7 * i) == v * Pow128(i)
  {
    var p := Pow128(i);
    hide Pow128, Pow2, Wrap64;
    assert Pow2(7 * i % 64) == p by {
      assert 7 * i % 64 == 7 * i;
      Pow2Sevens(i);
    }
    GroupFits(v, i);
    WrapSmall(v * p);
  }

  // ----- the properties -----

  /** The encoder never needs more than ten bytes for a 64-bit number, and its
      output ends at its only byte without a continuation bit. */
  lemma {:induction false} LebShape(x: nat, k: nat)
    requires k > 0 && x < Pow128(k)
    ensures |Leb(x)| <= k
    ensures Leb(x)[|Leb(x)| - 1] < 0x80
    ensures forall i :: 0 <= i < |Leb(x)| - 1 ==> Leb(x)[i] >= 0x80
  {
    if x >= 0x80 {
      assert Pow128(k) == 0x80 * Pow128(k - 1);
      LebShape(x / 0x80, k - 1);
    }
  }

  lemma {:induction false} LebValueOfLeb(x: nat)
    ensures LebValue(Leb(x)) == x
  {
    if x < 0x80 {
      assert LebValue([x]) == x % 0x80 + 0x80 * LebValue([]);
    } else {
      LebValueOfLeb(x / 0x80);
      assert Leb(x)[1..] == Leb(x / 0x80);
    }
  }

  lemma LebLength64(x: nat)
    requires x < U64_LIMIT
    ensures |Leb(x)| <= MAX_VARINT_LEN64
  {
    Pow128Of9();
    LebShape(x, 10);
  }

  /** A ten-byte group string stays below 2^64 exactly when its last byte is 0 or 1. */
  lemma TenBytes(bs: Bytes)
    requires |bs| == 10 && bs[9] < 0x80
    ensures LebValue(bs) < U64_LIMIT <==> bs[9] <= 1
  {
    assert bs == bs[..9] + [bs[9]];
    LebValueAppend(bs[..9], bs[9]);
    LebValueBound(bs[..9]);
    Pow128Of9();
  }

  lemma TerminatorAt(d: Bytes, pos: nat, t: nat)
    requires pos <= t < |d| && d[t] < 0x80
    requires forall i :: pos <= i < t ==> d[i] >= 0x80
    ensures Terminator(d, pos) == Some(t)
  {
  }

  /** A terminated byte string is accepted exactly when it has at most ten bytes
      and denotes a number below 2^64; the answer is then that number. */
  lemma UvarintAccepts(d: Bytes, pos: nat, t: nat)
    requires pos <= t < |d| && d[t] < 0x80
    requires forall i :: pos <= i < t ==> d[i] >= 0x80
    ensures ReadUvarint(d, pos).Ok? <==>
              t + 1 - pos <= 10 && LebValue(d[pos..t + 1]) < U64_LIMIT
    ensures ReadUvarint(d, pos).Ok? ==> ReadUvarint(d, pos) == Ok(LebValue(d[pos..t + 1]), t + 1)
    ensures !ReadUvarint(d, pos).Ok? ==> ReadUvarint(d, pos) == Err(Overflow, t + 1)
  {
    TerminatorAt(d, pos, t);
    var bs := d[pos..t + 1];
    if |bs| == 10 {
      TenBytes(bs);
    } else if |bs| < 10 {
      LebValueBound(bs);
      Pow128Of9();
      Pow128Mono(|bs|, 9);
    }
  }

  /** `read_uvarint` inverts `put_uvarint` on every 64-bit number and reads exactly
      the bytes it wrote, whatever follows them. */
  lemma UvarintRoundTrip(x: nat, d: Bytes, pos: nat)
    requires x < U64_LIMIT
    requires Holds(d, pos, Leb(x))
    ensures ReadUvarint(d, pos) == Ok(x, pos + |Leb(x)|)
  {
    Pow128Of9();
    LebShape(x, 10);
    LebValueOfLeb(x);
    var t := pos + |Leb(x)| - 1;
    assert d[pos..t + 1] == Leb(x);
    forall i | pos <= i < t ensures d[i] >= 0x80 {
      assert d[i] == d[pos..t + 1][i - pos];
    }
    assert d[t] == d[pos..t + 1][t - pos];
    UvarintAccepts(d, pos, t);
  }

  /** The answer does not change when more bytes arrive. */
  lemma UvarintMono(d: Bytes, d2: Bytes, pos: nat)
    requires pos <= |d| && d <= d2
    requires !ReadUvarint(d, pos).WouldBlock?
    ensures ReadUvarint(d2, pos) == ReadUvarint(d, pos)
  {
    var t := Terminator(d, pos).value;
    TerminatorAt(d2, pos, t);
    assert d2[pos..t + 1] == d[pos..t + 1];
  }

  // ----- the loop of `put_uvarint` -----

  /** Writes `x` at the start of `buf` and returns how many bytes that took. */
  method PutUvarint(buf: array<Byte>, x: nat) returns (n: nat)
    requires |Leb(x)| <= buf.Length
    modifies buf
    ensures n == |Leb(x)| && buf[..n] == Leb(x)
    ensures buf[n..] == old(buf[n..])
  {
    var i := 0;
    var mx := x;
    while mx >= 0x80
      invariant i + |Leb(mx)| == |Leb(x)|
      invariant buf[..i] + Leb(mx) == Leb(x)
      invariant buf[i..] == old(buf[i..])
    {
      ghost var before := buf[..i];
      assert before + Leb(mx) == (before + [mx % 0x80 + 0x80]) + Leb(mx / 0x80);
      buf[i] := mx % 0x80 + 0x80;   // mx as u8 | 0x80
      assert buf[..i + 1] == before + [mx % 0x80 + 0x80];
      mx := mx / 0x80;
      i := i + 1;
    }
    ghost var before := buf[..i];
    buf[i] := mx;
    assert buf[..i + 1] == before + [mx];
    n := i + 1;
  }
}
