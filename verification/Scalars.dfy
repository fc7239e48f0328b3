/** Values of fixed width: the bytes of a cell, by the name of its type. */
module Scalars {
  import opened Bytes
  import opened Parsed
  import opened ReadEx
  import opened SqlTypes
  import opened Factory
  import opened Columns
  import opened ColumnCodec

  // ----- names and widths -----

  /** The names of a scalar type in lower case, and the bytes of its cells. */
  predicate Means(l: string, s: Scalar, w: nat) {
    match s
    case Bool => l == "bool" && w == 1
    case UInt8 => l == "uint8" && w == 1
    case UInt16 => l == "uint16" && w == 2
    case UInt32 => l == "uint32" && w == 4
    case UInt64 => l == "uint64" && w == 8
    case UInt128 => l == "uint128" && w == 16
    case Int8 => (l == "int8" || l == "tinyint") && w == 1
    case Int16 => (l == "int16" || l == "smallint") && w == 2
    case Int32 => (l == "int32" || l == "int" || l == "integer") && w == 4
    case Int64 => (l == "int64" || l == "bigint") && w == 8
    case Int128 => l == "int128" && w == 16
    case Float32 => (l == "float32" || l == "float") && w == 4
    case Float64 => (l == "float64" || l == "double") && w == 8
    case Date => l == "date" && w == 2
    case Ipv4 => l == "ipv4" && w == 4
    case Ipv6 => l == "ipv6" && w == 16
    case Uuid => l == "uuid" && w == 16
  }

  lemma OtherMeans(l: string, s: Scalar, w: nat)
    requires Means(l, s, w)
    ensures OtherNamed(l) == if s.Bool? || s.Float32? || s.Float64? || s.Date? || s.Ipv4? || s.Ipv6? || s.Uuid?
                             then Some(Plain(s)) else None
    ensures Width(s) == w
  {
  }

  lemma UnsignedMeans(l: string, s: Scalar, w: nat)
    requires Means(l, s, w) && OtherNamed(l) == None
    ensures UnsignedNamed(l) == if s.UInt8? || s.UInt16? || s.UInt32? || s.UInt64? || s.UInt128?
                                then Some(Plain(s)) else None
  {
  }

  lemma SignedMeans(l: string, s: Scalar, w: nat)
    requires Means(l, s, w) && (s.Int8? || s.Int16? || s.Int32? || s.Int64? || s.Int128?)
    ensures SignedNamed(l) == Some(Plain(s))
  {
  }

  lemma NamedMeans(l: string, s: Scalar)
    requires OtherNamed(l) == Some(Plain(s)) || UnsignedNamed(l) == Some(Plain(s)) || SignedNamed(l) == Some(Plain(s))
    ensures Means(l, s, Width(s))
  {
  }

  predicate MeansText(l: string) {
    l == "string" || l == "char" || l == "varchar" || l == "text" || l == "tinytext" || l == "mediumtext"
    || l == "longtext" || l == "blob" || l == "tinyblob" || l == "mediumblob" || l == "longblob"
  }

  lemma TextMeans(l: string)
    ensures TextNamed(l) == if MeansText(l) then Some(SqlType.Text) else None
    ensures MeansText(l) ==> OtherNamed(l) == None && UnsignedNamed(l) == None && SignedNamed(l) == None
  {
  }

  lemma NamedKinds(l: string)
    ensures OtherNamed(l) != Some(SqlType.Text) && UnsignedNamed(l) != Some(SqlType.Text)
    ensures SignedNamed(l) != Some(SqlType.Text) && !(TextNamed(l).Some? && TextNamed(l).value.Plain?)
  {
  }

  lemma NameMeans(name: string, s: Scalar, w: nat)
    requires Means(LowerAll(name), s, w)
    ensures Dispatch(name) == PlainOf(Plain(s)) && Width(s) == w
  {
    var l := LowerAll(name);
    OtherMeans(l, s, w);
    if OtherNamed(l) == None { UnsignedMeans(l, s, w); }
    if s.Int8? || s.Int16? || s.Int32? || s.Int64? || s.Int128? { SignedMeans(l, s, w); }
    hide Means, OtherNamed, UnsignedNamed, SignedNamed, TextNamed, LowerAll;
  }

  /** Names are looked up in any case of letters; a name stands for a scalar type or a string
      if and only if it is one of its names. */
  lemma PlainNameExactly(name: string, s: Scalar)
    ensures Dispatch(name) == PlainOf(Plain(s)) <==> exists w :: Means(LowerAll(name), s, w)
    ensures Dispatch(name) == PlainOf(SqlType.Text) <==> MeansText(LowerAll(name))
  {
    var l := LowerAll(name);
    hide Means, OtherNamed, UnsignedNamed, SignedNamed, TextNamed, LowerAll, MeansText;
    hide ParseNullable, ParseFixedString, ParseArray, ParseMap, ParseDecimal, ParseLowCardinality;
    TextMeans(l);
    NamedKinds(l);
    if Dispatch(name) == PlainOf(Plain(s)) {
      NamedMeans(l, s);
    } else if w :| Means(l, s, w) {
      NameMeans(name, s, w);
    }
  }

  // ----- columns of cells -----

  /** The i-th piece of `w` bytes from a position on. */
  predicate Piece(d: Bytes, pos: nat, w: nat, i: nat, cell: Bytes) {
    Holds(d, pos + w * i, cell) && |cell| == w
  }

  lemma {:induction false} ChopAt(w: nat, n: nat, d: Bytes, pos: nat, i: nat)
    requires pos + w * n <= |d| && i < n
    ensures Piece(d, pos, w, i, Chop(w, n, d[pos..pos + w * n])[i])
    decreases n
  {
    var bs := d[pos..pos + w * n];
    MulStep(w, n);
    if i > 0 {
      assert bs[w..] == d[pos + w..pos + w + w * (n - 1)];
      ChopAt(w, n - 1, d, pos + w, i - 1);
      assert w * i == w + w * (i - 1);
    } else {
      assert w * 0 == 0 && bs[..w] == d[pos..pos + w];
    }
  }

  lemma LoadPlain(name: string, s: Scalar, n: nat, d: Bytes, pos: nat)
    requires Dispatch(name) == PlainOf(Plain(s)) && pos <= |d|
    ensures Load(name, n, d, pos) == if pos + Width(s) * n > |d| then WouldBlock
      else Ok(Cells(Plain(s), Chop(Width(s), n, d[pos..pos + Width(s) * n])), pos + Width(s) * n)
  {
    hide Dispatch, Chop, Width;
  }

  /** `n` rows of a scalar type take `n` times the bytes of a cell, and row `i` is the i-th
      piece of them; with fewer bytes the call would block. */
  lemma ScalarLoads(name: string, s: Scalar, w: nat, n: nat, d: Bytes, pos: nat)
    requires Means(LowerAll(name), s, w) && pos <= |d|
    ensures var r := Load(name, n, d, pos);
      if pos + w * n > |d| then r.WouldBlock?
      else
        r.Ok? && r.pos == pos + w * n && r.value.Cells? && r.value.ty == Plain(s) && |r.value.cells| == n
        && forall i :: 0 <= i < n ==> Piece(d, pos, w, i, r.value.cells[i])
  {
    NameMeans(name, s, w);
    LoadPlain(name, s, n, d, pos);
    hide Means, Dispatch, LowerAll, Chop, Width, Load, Piece;
    if pos + w * n <= |d| {
      var cells := Chop(w, n, d[pos..pos + w * n]);
      forall i | 0 <= i < n ensures Piece(d, pos, w, i, cells[i]) {
        ChopAt(w, n, d, pos, i);
      }
    }
  }

  // ----- little-endian words -----

  lemma DivDiv(n: nat, b: nat)
    requires b > 0
    ensures n / 256 / b == n / (256 * b)
  {
    var q := n / 256 / b;
    var r := n / 256 - b * q;
    assert n == 256 * b * q + 256 * r + n % 256 by { assert 256 * (b * q) == 256 * b * q; }
    assert 0 <= 256 * r + n % 256 < 256 * b;
    QuotientIs(n, 256 * b, q, 256 * r + n % 256);
  }

  lemma QuotientIs(n: nat, m: nat, q: nat, r: nat)
    requires m > 0 && r < m && n == m * q + r
    ensures n / m == q
  {
    assert m * (q - n / m) == n % m - r;
    Multiple(m, q - n / m);
  }

  lemma Multiple(m: int, k: int)
    requires m >= 0
    ensures k >= 1 ==> m * k >= m
    ensures k <= -1 ==> m * k <= -m
  {
    assert m * k == m + m * (k - 1) && m * k == -m + m * (k + 1);
  }

  /** The least significant byte comes first. */
  lemma {:induction false} LittleEndian(width: nat, n: nat, i: nat)
    requires i < width
    ensures ToLE(width, n)[i] == n / Pow256(i) % 256
  {
    if i > 0 {
      LittleEndian(width - 1, n / 256, i - 1);
      DivDiv(n, Pow256(i - 1));
    }
  }

  lemma HeadAndRest(b: Byte, n: nat)
    ensures (b + 256 * n) % 256 == b && (b + 256 * n) / 256 == n
  {
  }

  lemma {:induction false} WordOf(bs: Bytes)
    ensures FromLE(bs) < Pow256(|bs|) && ToLE(|bs|, FromLE(bs)) == bs
  {
    if |bs| > 0 {
      WordOf(bs[1..]);
      HeadAndRest(bs[0], FromLE(bs[1..]));
      assert ToLE(|bs|, FromLE(bs)) == [bs[0]] + ToLE(|bs| - 1, FromLE(bs[1..]));
    }
  }

  lemma Pow256Of16()
    ensures Pow256(16) == 0x1_0000_0000_0000_0000_0000_0000_0000_0000
  {
    Pow256Of8();
    assert Pow256(12) == 256 * (256 * (256 * (256 * Pow256(8))));
    assert Pow256(16) == 256 * (256 * (256 * (256 * Pow256(12))));
  }

  // ----- integers -----

  /** The integer types with their cells and their least and greatest values. */
  predicate IntegerRange(s: Scalar, w: nat, lo: int, hi: int) {
    match s
    case UInt8 => w == 1 && lo == 0 && hi == 0xFF
    case UInt16 => w == 2 && lo == 0 && hi == 0xFFFF
    case UInt32 => w == 4 && lo == 0 && hi == 0xFFFF_FFFF
    case UInt64 => w == 8 && lo == 0 && hi == 0xFFFF_FFFF_FFFF_FFFF
    case UInt128 => w == 16 && lo == 0 && hi == 0xFFFF_FFFF_FFFF_FFFF_FFFF_FFFF_FFFF_FFFF
    case Int8 => w == 1 && lo == -0x80 && hi == 0x7F
    case Int16 => w == 2 && lo == -0x8000 && hi == 0x7FFF
    case Int32 => w == 4 && lo == -0x8000_0000 && hi == 0x7FFF_FFFF
    case Int64 => w == 8 && lo == -0x8000_0000_0000_0000 && hi == 0x7FFF_FFFF_FFFF_FFFF
    case Int128 =>
      w == 16 && lo == -0x8000_0000_0000_0000_0000_0000_0000_0000
      && hi == 0x7FFF_FFFF_FFFF_FFFF_FFFF_FFFF_FFFF_FFFF
    case _ => false
  }

  /** Two's complement. */
  function IntegerCell(w: nat, x: int): Bytes { ToLE(w, x % Pow256(w)) }

  /** The integer that a cell holds. */
  function IntegerValue(lo: int, cell: Bytes): int {
    var n := FromLE(cell);
    if lo < 0 && n >= -lo then n + 2 * lo else n
  }

  lemma RangeIsWhole(s: Scalar, w: nat, lo: int, hi: int)
    requires IntegerRange(s, w, lo, hi)
    ensures lo <= 0 <= hi && hi - lo + 1 == Pow256(w) && w == Width(s)
    ensures lo < 0 ==> hi == -lo - 1
  {
    Pow256Of8();
    Pow256Of16();
    hide Pow256;
  }

  /** Every integer of the range has a cell, and every cell holds one integer of the range. */
  lemma IntegerReturns(s: Scalar, w: nat, lo: int, hi: int, x: int)
    requires IntegerRange(s, w, lo, hi) && lo <= x <= hi
    ensures |IntegerCell(w, x)| == w && IntegerValue(lo, IntegerCell(w, x)) == x
  {
    RangeIsWhole(s, w, lo, hi);
    hide IntegerRange, Pow256;
    Residue(x, Pow256(w));
    FromLEToLE(w, x % Pow256(w));
  }

  lemma Residue(x: int, m: nat)
    requires m > 0 && x + m >= 0 && x < m
    ensures x % m == if x >= 0 then x else x + m
  {
    if x < 0 { assert x % m == (x + m) % m; }
  }

  lemma CellReturns(s: Scalar, w: nat, lo: int, hi: int, cell: Bytes)
    requires IntegerRange(s, w, lo, hi) && |cell| == w
    ensures lo <= IntegerValue(lo, cell) <= hi && IntegerCell(w, IntegerValue(lo, cell)) == cell
  {
    RangeIsWhole(s, w, lo, hi);
    WordOf(cell);
    hide IntegerRange, Pow256;
    Residue(IntegerValue(lo, cell), Pow256(w));
  }

  function IntegerCells(w: nat, xs: seq<int>): (r: seq<Bytes>)
    ensures |r| == |xs| && forall i :: 0 <= i < |xs| ==> r[i] == IntegerCell(w, xs[i])
  {
    seq(|xs|, i requires 0 <= i < |xs| => IntegerCell(w, xs[i]))
  }

  /** Integers of any width that the client saves are saved cell by cell, least significant
      byte first, and a column of any name of the type holds the same integers. */
  lemma IntegersReturn(name: string, s: Scalar, w: nat, lo: int, hi: int, xs: seq<int>, d: Bytes, pos: nat)
    requires Means(LowerAll(name), s, w) && IntegerRange(s, w, lo, hi) && |xs| < U64_LIMIT
    requires forall i :: 0 <= i < |xs| ==> lo <= xs[i] <= hi
    ensures var c := Cells(Plain(s), IntegerCells(w, xs));
      WellFormed(c)
      && (forall i :: 0 <= i < |xs| ==>
            At(c, i) == Cell(IntegerCell(w, xs[i])) && IntegerValue(lo, At(c, i).bytes) == xs[i])
      && (Holds(d, pos, Save(c, 0, |xs|)) ==> Load(name, |xs|, d, pos) == Ok(c, pos + w * |xs|))
  {
    NameMeans(name, s, w);
    hide Means, Dispatch, LowerAll, IntegerRange, IntegerValue, Width, Chop;
    var cells := IntegerCells(w, xs);
    var c := Cells(Plain(s), cells);
    forall i | 0 <= i < |xs|
      ensures |IntegerCell(w, xs[i])| == w && IntegerValue(lo, IntegerCell(w, xs[i])) == xs[i]
    {
      IntegerReturns(s, w, lo, hi, xs[i]);
    }
    hide IntegerCell;
    assert cells[0..|xs|] == cells;
    if Holds(d, pos, Save(c, 0, |xs|)) {
      CellsAt(d, pos, w, cells);
    }
  }
}
