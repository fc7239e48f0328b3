/** The column tree: what a column holds, the value in each row, and the bytes it saves. */
module Columns {
  import opened Bytes
  import opened Uvarint
  import opened ReadEx
  import opened SqlTypes
  import opened Factory

  /** Width of the codes of a low-cardinality index. */
  datatype IndexType = IxUInt8 | IxUInt16 | IxUInt32 | IxUInt64

  function IndexWidth(t: IndexType): (w: nat)
    ensures w > 0
  {
    match t case IxUInt8 => 1 case IxUInt16 => 2 case IxUInt32 => 4 case IxUInt64 => 8
  }

  datatype Column =
    | Cells(ty: SqlType, cells: seq<Bytes>)                 // fixed-width scalars, FixedString
    | Strings(items: seq<Bytes>)
    | NullableCol(nulls: Bytes, inner: Column)
    | ArrayCol(offsets: seq<nat>, inner: Column)
    | MapCol(offsets: seq<nat>, keys: Column, values: Column)
    | LowCardinalityCol(index: IndexType, codes: seq<nat>, dict: Column)
    | DecimalCol(precision: Byte, scale: Byte, bits: NoBits, inner: Column)
    | ChunkCol(data: Column, lo: nat, hi: nat)              // a row range of another column

  /** What one row holds. The entries of a map row stand in storage order. */
  datatype Value =
    | Cell(bytes: Bytes)
    | Str(bytes: Bytes)
    | Null
    | Present(value: Value)
    | List(items: seq<Value>)
    | Entries(entries: seq<(Value, Value)>)
    | DecimalValue(precision: Byte, scale: Byte, underlying: Value)

  function CellWidth(t: SqlType): nat {
    match t
    case Plain(s) => Width(s)
    case FixedString(n) => n
    case _ => 0
  }

  function IntegerOf(bits: NoBits): SqlType {
    match bits case N32 => Plain(Int32) case N64 => Plain(Int64)
  }

  function TypeOf(c: Column): SqlType {
    match c
    case Cells(t, _) => t
    case Strings(_) => SqlType.Text
    case NullableCol(_, i) => Nullable(TypeOf(i))
    case ArrayCol(_, i) => Array(TypeOf(i))
    case MapCol(_, k, v) => Map(TypeOf(k), TypeOf(v))
    case LowCardinalityCol(_, _, d) => LowCardinality(TypeOf(d))
    case DecimalCol(p, s, _, _) => Decimal(p, s)
    case ChunkCol(d, _, _) => TypeOf(d)
  }

  function Len(c: Column): nat {
    match c
    case Cells(_, cells) => |cells|
    case Strings(items) => |items|
    case NullableCol(_, i) => Len(i)
    case ArrayCol(offs, _) => |offs|
    case MapCol(offs, _, _) => |offs|
    case LowCardinalityCol(_, codes, _) => |codes|
    case DecimalCol(_, _, _, i) => Len(i)
    case ChunkCol(_, lo, hi) => if lo <= hi then hi - lo else 0
  }

  /** The last offset, 0 when there is none: how many inner rows belong to the rows. */
  function Total(offs: seq<nat>): nat {
    if |offs| == 0 then 0 else offs[|offs| - 1]
  }

  /** Where row `i` begins among the inner rows. */
  function RowStart(offs: seq<nat>, i: nat): nat
    requires i <= |offs|
  {
    if i == 0 then 0 else offs[i - 1]
  }

  predicate Monotone(offs: seq<nat>) {
    forall i, j :: 0 <= i <= j < |offs| ==> offs[i] <= offs[j]
  }

  /** The invariant of a column that the client builds. A row range is taken of whole
      columns only, never of an inner one. */
  predicate WellFormed(c: Column) {
    Len(c) < U64_LIMIT &&
    match c
    case Cells(t, cells) =>
      (t.Plain? || t.FixedString?) && CellWidth(t) > 0
      && forall i :: 0 <= i < |cells| ==> |cells[i]| == CellWidth(t)
    case Strings(items) => forall i :: 0 <= i < |items| ==> |items[i]| < U64_LIMIT
    case NullableCol(nulls, i) => !i.ChunkCol? && WellFormed(i) && |nulls| == Len(i)
    case ArrayCol(offs, i) => !i.ChunkCol? && WellFormed(i) && Monotone(offs) && Total(offs) == Len(i)
    case MapCol(offs, k, v) =>
      !k.ChunkCol? && !v.ChunkCol? && WellFormed(k) && WellFormed(v)
      && Monotone(offs) && Total(offs) == Len(k) == Len(v)
    case LowCardinalityCol(ix, codes, d) =>
      !d.ChunkCol? && WellFormed(d)
      && forall i :: 0 <= i < |codes| ==> codes[i] < Len(d) && codes[i] < Pow256(IndexWidth(ix))
    case DecimalCol(p, s, bits, i) =>
      WellFormed(i) && FromPrecision(p) == Some(bits) && TypeOf(i) == IntegerOf(bits) && i.Cells?
    case ChunkCol(d, lo, hi) => WellFormed(d) && lo <= hi <= Len(d)
  }

  /** The value in row `i`. */
  function At(c: Column, i: nat): Value
    requires WellFormed(c) && i < Len(c)
  {
    match c
    case Cells(t, cells) => if t.FixedString? then Str(cells[i]) else Cell(cells[i])
    case Strings(items) => Str(items[i])
    case NullableCol(nulls, inner) => if nulls[i] == 1 then Null else Present(At(inner, i))
    case ArrayCol(offs, inner) => List(Range(inner, RowStart(offs, i), offs[i]))
    case MapCol(offs, k, v) =>
      var ks := Range(k, RowStart(offs, i), offs[i]);
      var vs := Range(v, RowStart(offs, i), offs[i]);
      Entries(seq(|ks|, j requires 0 <= j < |ks| => (ks[j], vs[j])))
    case LowCardinalityCol(_, codes, d) => At(d, codes[i])
    case DecimalCol(p, s, _, inner) => DecimalValue(p, s, At(inner, i))
    case ChunkCol(d, lo, _) => At(d, lo + i)
  }

  /** The values in rows `a` to `b`, the latter excluded. */
  function Range(c: Column, a: nat, b: nat): (r: seq<Value>)
    requires WellFormed(c) && a <= b <= Len(c)
    ensures |r| == b - a
    decreases c, b
  {
    seq(b - a, i requires 0 <= i < b - a => At(c, a + i))
  }

  function Rows(c: Column): (r: seq<Value>)
    requires WellFormed(c)
    ensures |r| == Len(c)
  {
    Range(c, 0, Len(c))
  }

  // ----- saving -----

  function Blobs(items: seq<Bytes>): Bytes {
    if |items| == 0 then [] else Blob(items[0]) + Blobs(items[1..])
  }

  const LOW_CARDINALITY_VERSION: nat := 1

  function TypeCode(t: IndexType): nat {
    match t case IxUInt8 => 0 case IxUInt16 => 1 case IxUInt32 => 2 case IxUInt64 => 3
  }

  /** HAS_ADDITIONAL_KEYS and NEED_UPDATE_DICTIONARY with the code of the width. */
  function Flags(t: IndexType): nat {
    TypeCode(t) + 0x200 + 0x400
  }

  /** The bytes that `save(start, end)` appends. */
  function Save(c: Column, s: nat, e: nat): Bytes
    requires WellFormed(c) && s <= e <= Len(c)
  {
    match c
    case Cells(_, cells) => Flatten(cells[s..e])
    case Strings(items) => Blobs(items[s..e])
    case NullableCol(nulls, i) => nulls[s..e] + Save(i, s, e)
    case ArrayCol(offs, i) => PackWords(8, offs[s..e]) + Save(i, 0, Total(offs[s..e]))
    case MapCol(offs, k, v) =>
      PackWords(8, offs[s..e]) + (Save(k, 0, Total(offs[s..e])) + Save(v, 0, Total(offs[s..e])))
    case LowCardinalityCol(ix, codes, d) =>
      if s == e then []
      else
        ToLE(8, LOW_CARDINALITY_VERSION) + (ToLE(8, Flags(ix)) + (ToLE(8, Len(d))
        + (Save(d, 0, Len(d)) + (ToLE(8, e - s) + PackWords(IndexWidth(ix), codes[s..e])))))
    case DecimalCol(_, _, _, i) => Save(i, s, e)
    case ChunkCol(d, lo, hi) => Save(d, lo + s, Min(hi, lo + e))
  }
}
