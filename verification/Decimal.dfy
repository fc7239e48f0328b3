/** Decimals: comparison, rescaling, and the integers that decimal columns write. */
module Decimal {
  import opened Bytes
  import opened ReadEx
  import opened Factory
  import opened Columns

  const LAST_FACTOR: nat := 18

  type I64 = x: int | -0x8000_0000_0000_0000 <= x < 0x8000_0000_0000_0000

  type Scale = s: nat | s < 256

  datatype Decimal = Decimal(underlying: I64, precision: nat, scale: Scale, bits: NoBits)

  function Pow10(n: nat): (r: int)
    ensures r > 0
  {
    if n == 0 then 1 else 10 * Pow10(n - 1)
  }

  lemma {:induction false} Pow10Add(a: nat, b: nat)
    ensures Pow10(a + b) == Pow10(a) * Pow10(b)
  {
    if a > 0 {
      Pow10Add(a - 1, b);
      assert 10 * (Pow10(a - 1) * Pow10(b)) == 10 * Pow10(a - 1) * Pow10(b);
    }
  }

  lemma {:induction false} Pow10Mono(a: nat, b: nat)
    requires a <= b
    ensures Pow10(a) <= Pow10(b)
  {
    if a < b { Pow10Mono(a, b - 1); }
  }

  lemma Pow10Fits()
    ensures Pow10(9) == 1_000_000_000 && Pow10(18) == 1_000_000_000_000_000_000
  {
    assert Pow10(9) == 10 * (10 * (10 * (10 * (10 * (10 * (10 * (10 * (10 * Pow10(0)))))))));
    Pow10Add(9, 9);
  }

  // ----- machine integers -----

  predicate Fits(bits: NoBits, x: int) {
    match bits
    case N32 => -0x8000_0000 <= x < 0x8000_0000
    case N64 => -0x8000_0000_0000_0000 <= x < 0x8000_0000_0000_0000
  }

  function BytesOf(bits: NoBits): nat { match bits case N32 => 4 case N64 => 8 }

  function Half(bits: NoBits): nat { match bits case N32 => 0x8000_0000 case N64 => 0x8000_0000_0000_0000 }

  /** Two's complement: the residue of `x` that fits. */
  function Wrap(bits: NoBits, x: int): (r: I64)
    ensures Fits(bits, r) && (Fits(bits, x) <==> r == x)
  {
    (x + Half(bits)) % (2 * Half(bits)) - Half(bits)
  }

  /** The unsigned word that stands for a signed one. */
  function ToWord(bits: NoBits, x: I64): (w: nat)
  {
    x % (2 * Half(bits))
  }

  function FromWord(bits: NoBits, w: nat): (x: I64) {
    Wrap(bits, w)
  }

  lemma WordRoundTrip(bits: NoBits, x: I64)
    ensures ToWord(bits, x) < Pow256(BytesOf(bits)) && FromWord(bits, ToWord(bits, x)) == Wrap(bits, x)
  {
    Pow256Of8();
    var m := 2 * Half(bits);
    assert x == (x / m) * m + x % m;
    WrapPeriodic(bits, x % m, x / m);
  }

  lemma WrapPeriodic(bits: NoBits, x: int, k: int)
    ensures Wrap(bits, x + k * (2 * Half(bits))) == Wrap(bits, x)
  {
    var m := 2 * Half(bits);
    var a := x + Half(bits);
    ModPeriodic(a, k, m);
    assert x + k * m + Half(bits) == a + k * m;
  }

  lemma ModPeriodic(a: int, k: int, m: nat)
    requires m > 0
    ensures (a + k * m) % m == a % m
  {
    Euclid(a, m);
    Distribute(a / m, k, m);
    DivUnique(a + k * m, a / m + k, a % m, m);
  }

  lemma Distribute(x: int, y: int, m: int)
    ensures (x - y) * m == x * m - y * m && (x + y) * m == x * m + y * m && (-x) * m == -(x * m)
  {
  }

  lemma AtLeast(k: int, m: int)
    requires k >= 1 && m >= 0
    ensures k * m >= m
  {
    if k > 1 {
      AtLeast(k - 1, m);
      Distribute(k, 1, m);
    }
  }

  /** A multiple of `m` strictly between `-m` and `m` is zero. */
  lemma SmallMultiple(k: int, m: int)
    requires m > 0 && -m < k * m < m
    ensures k == 0
  {
    if k >= 1 {
      AtLeast(k, m);
    } else if k <= -1 {
      AtLeast(-k, m);
      Distribute(k, 0, m);
    }
  }

  lemma Euclid(a: int, m: int)
    requires m > 0
    ensures a == (a / m) * m + a % m && 0 <= a % m < m
  {
  }

  lemma DivUnique(a: int, q: int, r: int, m: int)
    requires m > 0 && 0 <= r < m && a == q * m + r
    ensures a % m == r && a / m == q
  {
    Euclid(a, m);
    Distribute(q, a / m, m);
    SmallMultiple(q - a / m, m);
  }

  /** Division of the machine, toward zero. */
  function Truncate(a: int, b: int): int
    requires b > 0
  {
    if a >= 0 then a / b else -(-a / b)
  }

  /** `FACTORS10[n]`; the table ends at 10^18, and looking further panics. */
  function Factor(n: nat): Option<int> {
    if n <= LAST_FACTOR then Some(Pow10(n)) else None
  }

  // ----- equality -----

  /** The comparison once the scales are ordered: the smaller one is scaled up, in 64 bits. */
  function EqScaled(lo: Decimal, hi: Decimal): Option<bool>
    requires lo.scale < hi.scale
  {
    match Factor(hi.scale - lo.scale)
    case Some(k) => Some(hi.underlying == Wrap(N64, lo.underlying * k))
    case None => None
  }

  /** `PartialEq`; nothing where it panics. */
  function Eq(a: Decimal, b: Decimal): Option<bool> {
    if a.scale < b.scale then EqScaled(a, b)
    else if a.scale == b.scale then Some(a.underlying == b.underlying)
    else EqScaled(b, a)
  }

  /** Equality of the numbers. */
  predicate Same(a: Decimal, b: Decimal) {
    a.underlying * Pow10(b.scale) == b.underlying * Pow10(a.scale)
  }

  /** The product that the comparison forms stays in 64 bits. */
  predicate Comparable(a: Decimal, b: Decimal) {
    if a.scale < b.scale then Fits(N64, a.underlying * Pow10(b.scale - a.scale))
    else Fits(N64, b.underlying * Pow10(a.scale - b.scale))
  }

  lemma SameScaled(a: Decimal, b: Decimal)
    requires a.scale <= b.scale
    ensures Same(a, b) <==> b.underlying == a.underlying * Pow10(b.scale - a.scale)
  {
    var k, p := Pow10(b.scale - a.scale), Pow10(a.scale);
    Pow10Add(b.scale - a.scale, a.scale);
    Associate(a.underlying, k, p);
    Cancel(a.underlying * k, b.underlying, p);
  }

  lemma Associate(x: int, k: int, p: int)
    ensures x * (k * p) == (x * k) * p
  {
  }

  lemma Cancel(x: int, y: int, p: int)
    requires p > 0
    ensures x * p == y * p <==> x == y
  {
    Distribute(x, y, p);
    if x * p == y * p { SmallMultiple(x - y, p); }
  }

  /** The table has the factor between two scales. */
  predicate Near(s: Scale, t: Scale) {
    s <= t + 18 && t <= s + 18
  }

  /** The comparison panics exactly on scales further apart than the table reaches. Equal
      numbers always compare equal; the answer is right when the product stays in 64 bits. */
  lemma EqIsSame(a: Decimal, b: Decimal)
    ensures Eq(a, b).Some? <==> Near(a.scale, b.scale)
    ensures Eq(a, b).Some? && Same(a, b) ==> Eq(a, b).value
    ensures Eq(a, b).Some? && Comparable(a, b) ==> Eq(a, b).value == Same(a, b)
  {
    if a.scale <= b.scale {
      SameScaled(a, b);
      assert Pow10(0) == 1;
    } else {
      SameScaled(b, a);
    }
  }

  /** The comparison answers, and what it answers is equality of the numbers. */
  predicate Right(a: Decimal, b: Decimal) {
    Eq(a, b) == Some(Same(a, b))
  }

  /** Comparing `a` with numbers of another scale is right for all of them, on either side,
      exactly when the product that scales the number with the smaller scale stays in 64
      bits: here that number is `a`. */
  lemma EqExact(a: Decimal, scale: Scale, precision: nat, bits: NoBits)
    requires a.scale <= scale && Near(a.scale, scale)
    ensures (forall u: I64 :: Right(a, Decimal(u, precision, scale, bits)))
            <==> Fits(N64, a.underlying * Pow10(scale - a.scale))
    ensures (forall u: I64 :: Right(Decimal(u, precision, scale, bits), a))
            <==> Fits(N64, a.underlying * Pow10(scale - a.scale))
  {
    assert Pow10(0) == 1;
    var product := a.underlying * Pow10(scale - a.scale);
    forall u: I64
      ensures Right(a, Decimal(u, precision, scale, bits)) <==> (u == Wrap(N64, product) <==> u == product)
      ensures Right(Decimal(u, precision, scale, bits), a) <==> (u == Wrap(N64, product) <==> u == product)
    {
      SameScaled(a, Decimal(u, precision, scale, bits));
    }
    var w := Wrap(N64, product);
    var hi := Decimal(w, precision, scale, bits);
    if !Fits(N64, product) {
      assert !Right(a, hi) && !Right(hi, a);
    }
  }

  /** Outside 64 bits a nonzero number can compare equal to zero: 2^46 with scale 0, and 0
      with scale 18. */
  lemma WrappedEquality()
    ensures var a, b := Decimal(0x4000_0000_0000, 18, 0, N64), Decimal(0, 18, 18, N64);
      Eq(a, b) == Some(true) && !Same(a, b)
  {
    Pow10Fits();
    hide Pow10;
    assert 0x4000_0000_0000 * 1_000_000_000_000_000_000 == 3814697265625 * 0x1_0000_0000_0000_0000;
    WrapPeriodic(N64, 0, 3814697265625);
  }

  // ----- rescaling -----

  /** `set_scale`; nothing where it panics. */
  function SetScale(d: Decimal, scale: Scale): Option<Decimal> {
    if scale < d.scale then
      match Factor(d.scale - scale)
      case Some(k) =>
        TruncateSmaller(d.underlying, k);
        Some(d.(underlying := Truncate(d.underlying, k), scale := scale))
      case None => None
    else if scale == d.scale then Some(d)
    else
      match Factor(scale - d.scale)
      case Some(k) => Some(d.(underlying := Wrap(N64, d.underlying * k), scale := scale))
      case None => None
  }

  lemma TruncateSmaller(a: int, b: int)
    requires b > 0
    ensures (a >= 0 ==> 0 <= Truncate(a, b) <= a) && (a < 0 ==> a <= Truncate(a, b) <= 0)
    ensures a >= 0 ==> 0 <= a - Truncate(a, b) * b < b
    ensures a < 0 ==> -b < a - Truncate(a, b) * b <= 0
  {
    if a >= 0 {
      QuotientBound(a, b);
    } else {
      QuotientBound(-a, b);
      Distribute(-a / b, 0, b);
    }
  }

  lemma QuotientBound(n: int, b: int)
    requires n >= 0 && b > 0
    ensures 0 <= n / b <= n && 0 <= n - (n / b) * b < b
  {
    Euclid(n, b);
    if n / b >= 1 { AtLeast(b, n / b); }
    if n / b < 0 { AtLeast(-(n / b), b); Distribute(n / b, 0, b); }
  }

  /** Scaling up keeps the number exactly when the product stays in 64 bits. */
  lemma ScaleUp(d: Decimal, scale: Scale)
    requires d.scale <= scale
    ensures SetScale(d, scale).Some? <==> Near(d.scale, scale)
    ensures SetScale(d, scale).Some? ==>
              (Same(d, SetScale(d, scale).value) <==> Fits(N64, d.underlying * Pow10(scale - d.scale)))
              && SetScale(d, scale).value == d.(underlying := SetScale(d, scale).value.underlying, scale := scale)
  {
    assert Pow10(0) == 1;
    if Near(d.scale, scale) { SameScaled(d, SetScale(d, scale).value); }
  }

  /** Scaling down cuts toward zero, by less than one unit in the last place. */
  lemma ScaleDown(d: Decimal, scale: Scale)
    requires scale < d.scale
    ensures SetScale(d, scale).Some? <==> Near(d.scale, scale)
    ensures SetScale(d, scale).Some? ==>
      var r, unit := SetScale(d, scale).value, Pow10(d.scale - scale);
      (d.underlying >= 0 ==> 0 <= d.underlying - r.underlying * unit < unit)
      && (d.underlying < 0 ==> -unit < d.underlying - r.underlying * unit <= 0)
      && (Same(r, d) <==> d.underlying % unit == 0)
      && r == d.(underlying := r.underlying, scale := scale)
  {
    if Near(d.scale, scale) {
      var r, unit := SetScale(d, scale).value, Pow10(d.scale - scale);
      TruncateSmaller(d.underlying, unit);
      SameScaled(r, d);
      var k, u := r.underlying, d.underlying;
      if u % unit == 0 {
        Euclid(u, unit);
        Distribute(u / unit, k, unit);
        SmallMultiple(u / unit - k, unit);
      } else if u == k * unit {
        DivUnique(u, k, 0, unit);
      }
    }
  }

  // ----- columns -----

  /** What the adapter makes of a value for a column of type `Decimal(precision, scale)`. */
  function Cast(d: Decimal, precision: nat, scale: Scale, bits: NoBits): Option<Decimal> {
    match SetScale(d, scale)
    case Some(r) => Some(r.(precision := precision, bits := bits))
    case None => None
  }

  /** The bytes that `save` writes for one value, and the value a column reads from them. */
  function SaveDecimal(d: Decimal): Bytes {
    ToLE(BytesOf(d.bits), ToWord(d.bits, d.underlying))
  }

  function LoadDecimal(bs: Bytes, precision: nat, scale: Scale, bits: NoBits): Decimal {
    Decimal(FromWord(bits, FromLE(bs)), precision, scale, bits)
  }

  lemma LoadSavedDecimal(d: Decimal)
    ensures LoadDecimal(SaveDecimal(d), d.precision, d.scale, d.bits) == d.(underlying := Wrap(d.bits, d.underlying))
  {
    WordRoundTrip(d.bits, d.underlying);
    FromLEToLE(BytesOf(d.bits), ToWord(d.bits, d.underlying));
  }

  /** The integer of a decimal column is the narrowest that holds every magnitude below 10^P,
      and there is one up to 64 bits. */
  lemma NarrowestBits(precision: nat)
    ensures FromPrecision(precision) == Some(N32) <==> Pow10(precision) <= 0x8000_0000
    ensures FromPrecision(precision) == Some(N64)
       <==> 0x8000_0000 < Pow10(precision) <= 0x8000_0000_0000_0000
  {
    Pow10Fits();
    assert Pow10(10) == 10 * Pow10(9) && Pow10(19) == 10 * Pow10(18);
    hide Pow10;
    if precision <= 9 {
      Pow10Mono(precision, 9);
    } else if precision <= 18 {
      Pow10Mono(10, precision);
      Pow10Mono(precision, 18);
    } else {
      Pow10Mono(19, precision);
    }
  }

  /** A magnitude below 10^P fits the integer chosen for the precision P. */
  lemma PrecisionFits(precision: Byte, x: int)
    requires FromPrecision(precision).Some? && -Pow10(precision) < x < Pow10(precision)
    ensures Fits(FromPrecision(precision).value, x)
  {
    Pow10Fits();
    if precision <= 9 { Pow10Mono(precision, 9); } else { Pow10Mono(precision, 18); }
  }

  /** Casting, saving and reading back gives the cast value exactly when it fits the integer
      of the column; a magnitude below 10^P does. */
  lemma CastRoundTrip(d: Decimal, precision: Byte, scale: Scale)
    requires FromPrecision(precision).Some?
    ensures var bits := FromPrecision(precision).value;
      match Cast(d, precision, scale, bits)
      case None => !Near(d.scale, scale)
      case Some(c) =>
        var back := LoadDecimal(SaveDecimal(c), precision, scale, bits);
        Near(d.scale, scale) && (back == c <==> Fits(bits, c.underlying))
        && (-Pow10(precision) < c.underlying < Pow10(precision) ==> back == c)
  {
    var bits := FromPrecision(precision).value;
    if Near(d.scale, scale) {
      var c := Cast(d, precision, scale, bits).value;
      LoadSavedDecimal(c);
      if -Pow10(precision) < c.underlying < Pow10(precision) { PrecisionFits(precision, c.underlying); }
    }
  }

  /** When the scale does not shrink, what is read back is the same number exactly when the
      rescaled magnitude fits the integer of the column. */
  lemma CastKeepsNumber(d: Decimal, precision: Byte, scale: Scale)
    requires FromPrecision(precision).Some? && d.scale <= scale && Near(d.scale, scale)
    ensures var bits := FromPrecision(precision).value;
      Cast(d, precision, scale, bits).Some?
      && var back := LoadDecimal(SaveDecimal(Cast(d, precision, scale, bits).value), precision, scale, bits);
         Same(d, back) <==> Fits(bits, d.underlying * Pow10(scale - d.scale))
  {
    var bits := FromPrecision(precision).value;
    var c := Cast(d, precision, scale, bits).value;
    var back := LoadDecimal(SaveDecimal(c), precision, scale, bits);
    LoadSavedDecimal(c);
    assert Pow10(0) == 1;
    SameScaled(d, back);
  }

  /** A pushed value keeps its integer and takes the scale of the column: the number is kept
      exactly when the scales agree or it is zero. */
  lemma PushedScale(d: Decimal, precision: nat, scale: Scale, bits: NoBits)
    requires Fits(bits, d.underlying)
    ensures var row := Decimal(Wrap(bits, d.underlying), precision, scale, bits);
      Same(d, row) <==> d.scale == scale || d.underlying == 0
  {
    var row := Decimal(Wrap(bits, d.underlying), precision, scale, bits);
    if d.scale < scale {
      SameScaled(d, row);
      OnlyZero(d.underlying, scale - d.scale);
    } else if d.scale > scale {
      SameScaled(row, d);
      OnlyZero(d.underlying, d.scale - scale);
    }
  }

  lemma OnlyZero(u: int, n: nat)
    requires n > 0
    ensures u == u * Pow10(n) <==> u == 0
  {
    var k := Pow10(n);
    Pow10Mono(1, n);
    assert Pow10(1) == 10 * Pow10(0) == 10;
    Distribute(k, 1, u);
    if u > 0 { AtLeast(k - 1, u); } else if u < 0 { AtLeast(k - 1, -u); Distribute(u, 0, k - 1); }
  }

  /** The loop of the adapter's `save`; it panics on the first value whose scale is too far
      from that of the column. */
  method SaveDecimals(ds: seq<Decimal>, s: nat, e: nat, precision: nat, scale: Scale, bits: NoBits, enc: Encoder)
    returns (ok: bool)
    requires s <= e <= |ds|
    modifies enc
    ensures ok <==> forall i :: s <= i < e ==> Near(ds[i].scale, scale)
    ensures match SavedAll(ds[s..e], precision, scale, bits)
            case Some(bs) => ok && enc.buffer == old(enc.buffer) + bs
            case None => !ok
  {
    hide Cast, SetScale, ToWord, ToLE, SavedAll, Wrap;
    assert ds[s..s] == [];
    SavedNone(precision, scale, bits);
    SavedIff(ds[s..e], precision, scale, bits);
    for i := s to e
      invariant SavedAll(ds[s..i], precision, scale, bits).Some?
      invariant enc.buffer == old(enc.buffer) + SavedAll(ds[s..i], precision, scale, bits).value
      invariant forall k :: s <= k < i ==> Near(ds[k].scale, scale)
    {
      var d := Cast(ds[i], precision, scale, bits);
      CastBits(ds[i], precision, scale, bits);
      if d.None? {
        assert ds[s..e][i - s] == ds[i];
        return false;
      }
      enc.Word(BytesOf(bits), ToWord(bits, d.value.underlying));
      SavedMore(ds[s..i], ds[i], precision, scale, bits);
      assert ds[s..i + 1] == ds[s..i] + [ds[i]];
    }
    return true;
  }

  function SavedAll(ds: seq<Decimal>, precision: nat, scale: Scale, bits: NoBits): Option<Bytes> {
    if |ds| == 0 then Some([])
    else
      var n := |ds| - 1;
      match (SavedAll(ds[..n], precision, scale, bits), Cast(ds[n], precision, scale, bits))
      case (Some(bs), Some(d)) => Some(bs + SaveDecimal(d))
      case _ => None
  }

  lemma SavedNone(precision: nat, scale: Scale, bits: NoBits)
    ensures SavedAll([], precision, scale, bits) == Some([])
  {
  }

  lemma CastBits(d: Decimal, precision: nat, scale: Scale, bits: NoBits)
    ensures Cast(d, precision, scale, bits).Some? <==> Near(d.scale, scale)
    ensures Near(d.scale, scale) ==> Cast(d, precision, scale, bits).value.bits == bits
  {
  }

  lemma {:induction false} SavedIff(ds: seq<Decimal>, precision: nat, scale: Scale, bits: NoBits)
    ensures SavedAll(ds, precision, scale, bits).Some? <==> forall i :: 0 <= i < |ds| ==> Near(ds[i].scale, scale)
  {
    hide Cast, SaveDecimal;
    if |ds| > 0 {
      SavedIff(ds[..|ds| - 1], precision, scale, bits);
      CastBits(ds[|ds| - 1], precision, scale, bits);
    }
  }

  lemma SavedMore(ds: seq<Decimal>, d: Decimal, precision: nat, scale: Scale, bits: NoBits)
    requires SavedAll(ds, precision, scale, bits).Some? && Cast(d, precision, scale, bits).Some?
    ensures SavedAll(ds + [d], precision, scale, bits)
         == Some(SavedAll(ds, precision, scale, bits).value + SaveDecimal(Cast(d, precision, scale, bits).value))
  {
    hide Cast, SaveDecimal;
    assert (ds + [d])[..|ds|] == ds;
  }
}
