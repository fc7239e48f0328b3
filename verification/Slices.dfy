/** The rows that come back when a row range of a column is saved and loaded. */
module Slices {
  import opened Bytes
  import opened SqlTypes
  import opened Factory
  import opened Columns
  import opened ColumnCodec

  /** When the rows `s` to `e` survive: an array or map row at the head of the range
      must not have inner rows in front of it, because its offsets are saved as they
      stand in the whole column. */
  predicate SliceExact(c: Column, s: nat, e: nat)
    requires WellFormed(c) && s <= e <= Len(c)
  {
    match c
    case Cells(_, _) | Strings(_) | LowCardinalityCol(_, _, _) | DecimalCol(_, _, _, _) => true
    case NullableCol(nulls, i) => s == e || nulls[s] == 1 || SliceExact(i, s, e)
    case ArrayCol(offs, _) => s == e || RowStart(offs, s) == 0
    case MapCol(offs, _, _) => s == e || RowStart(offs, s) == 0
    case ChunkCol(d, lo, _) => SliceExact(d, lo + s, lo + e)
  }

  /** Whole columns always survive. */
  lemma {:induction false} ExactFromZero(c: Column, e: nat)
    requires WellFormed(c) && e <= Len(c) && !c.ChunkCol?
    ensures SliceExact(c, 0, e)
  {
    if c.NullableCol? { ExactFromZero(c.inner, e); }
  }

  /** Types in which no range of rows is damaged, wherever it begins. */
  predicate Sliceable(t: SqlType) {
    match t
    case Array(_) | Map(_, _) => false
    case Nullable(i) => Sliceable(i)
    case _ => true
  }

  lemma {:induction false} SliceableIsExact(c: Column, s: nat, e: nat)
    requires WellFormed(c) && s <= e <= Len(c) && Sliceable(TypeOf(c))
    ensures SliceExact(c, s, e)
  {
    match c
    case NullableCol(_, i) => SliceableIsExact(i, s, e);
    case ChunkCol(d, lo, _) => SliceableIsExact(d, lo + s, lo + e);
    case _ =>
  }

  lemma OffsetsWellFormed(offs: seq<nat>, s: nat, e: nat)
    requires Monotone(offs) && s <= e <= |offs|
    ensures Monotone(offs[s..e]) && Total(offs[s..e]) <= Total(offs)
  {
  }

  lemma ArrayWellFormed(offs: seq<nat>, i: Column)
    requires WellFormed(i) && !i.ChunkCol? && Monotone(offs) && Total(offs) == Len(i) && |offs| < U64_LIMIT
    ensures WellFormed(ArrayCol(offs, i))
  {
  }

  lemma MapWellFormed(offs: seq<nat>, k: Column, v: Column)
    requires WellFormed(k) && WellFormed(v) && !k.ChunkCol? && !v.ChunkCol?
    requires Monotone(offs) && Total(offs) == Len(k) == Len(v) && |offs| < U64_LIMIT
    ensures WellFormed(MapCol(offs, k, v))
  {
  }

  lemma LowCardinalityWellFormed(ix: IndexType, codes: seq<nat>, d: Column)
    requires WellFormed(d) && !d.ChunkCol? && |codes| < U64_LIMIT
    requires forall i :: 0 <= i < |codes| ==> codes[i] < Len(d) && codes[i] < Pow256(IndexWidth(ix))
    ensures WellFormed(LowCardinalityCol(ix, codes, d))
  {
  }

  lemma {:induction false} ReloadArrayWellFormed(c: Column, s: nat, e: nat)
    requires WellFormed(c) && s <= e <= Len(c) && c.ArrayCol?
    ensures WellFormed(Reload(c, s, e))
    decreases c, 0
  {
    var offs, n := c.offsets[s..e], Total(c.offsets[s..e]);
    OffsetsWellFormed(c.offsets, s, e);
    ReloadWellFormed(c.inner, 0, n);
    ArrayWellFormed(offs, Reload(c.inner, 0, n));
  }

  lemma {:induction false} ReloadMapWellFormed(c: Column, s: nat, e: nat)
    requires WellFormed(c) && s <= e <= Len(c) && c.MapCol?
    ensures WellFormed(Reload(c, s, e))
    decreases c, 0
  {
    var offs, n := c.offsets[s..e], Total(c.offsets[s..e]);
    OffsetsWellFormed(c.offsets, s, e);
    ReloadWellFormed(c.keys, 0, n);
    ReloadWellFormed(c.values, 0, n);
    MapWellFormed(offs, Reload(c.keys, 0, n), Reload(c.values, 0, n));
  }

  lemma {:induction false} ReloadIndexWellFormed(c: Column, s: nat, e: nat)
    requires WellFormed(c) && s <= e <= Len(c) && c.LowCardinalityCol?
    ensures WellFormed(Reload(c, s, e))
    decreases c, 0
  {
    var d := c.dict;
    if s == e {
      ReloadWellFormed(d, 0, 0);
      LowCardinalityWellFormed(IxUInt8, [], Reload(d, 0, 0));
    } else {
      ReloadWellFormed(d, 0, Len(d));
      LowCardinalityWellFormed(c.index, c.codes[s..e], Reload(d, 0, Len(d)));
    }
  }

  lemma {:induction false} ReloadWellFormed(c: Column, s: nat, e: nat)
    requires WellFormed(c) && s <= e <= Len(c)
    ensures WellFormed(Reload(c, s, e)) && !Reload(c, s, e).ChunkCol?
    decreases c, 1
  {
    match c
    case Cells(_, _) | Strings(_) =>
    case NullableCol(_, i) => ReloadWellFormed(i, s, e);
    case ArrayCol(_, _) => ReloadArrayWellFormed(c, s, e);
    case MapCol(_, _, _) => ReloadMapWellFormed(c, s, e);
    case LowCardinalityCol(_, _, _) => ReloadIndexWellFormed(c, s, e);
    case DecimalCol(_, _, _, i) =>
      ReloadWellFormed(i, s, e);
      ReloadType(i, s, e);
    case ChunkCol(d, lo, _) => ReloadWellFormed(d, lo + s, lo + e);
  }

  /** Inner rows of a reloaded array or map. */
  lemma {:induction false} InnerRange(i: Column, n: nat, a: nat, b: nat)
    requires WellFormed(i) && !i.ChunkCol? && a <= b <= n <= Len(i)
    ensures WellFormed(Reload(i, 0, n)) && Range(Reload(i, 0, n), a, b) == Range(i, a, b)
    decreases i, 2
  {
    ReloadWellFormed(i, 0, n);
    ExactFromZero(i, n);
    forall k | a <= k < b ensures At(Reload(i, 0, n), k) == At(i, k) {
      RowReloaded(i, 0, n, k);
    }
  }

  lemma {:induction false} ArrayRow(c: Column, s: nat, e: nat, i: nat)
    requires WellFormed(c) && s <= e <= Len(c) && i < e - s && c.ArrayCol?
    requires i > 0 || RowStart(c.offsets, s) == 0
    ensures WellFormed(Reload(c, s, e)) && At(Reload(c, s, e), i) == At(c, s + i)
    decreases c, 0
  {
    ReloadWellFormed(c, s, e);
    var offs := c.offsets[s..e];
    OffsetsWellFormed(c.offsets, s, e);
    InnerRange(c.inner, Total(offs), RowStart(offs, i), offs[i]);
    assert RowStart(offs, i) == RowStart(c.offsets, s + i);
  }

  lemma {:induction false} MapRow(c: Column, s: nat, e: nat, i: nat)
    requires WellFormed(c) && s <= e <= Len(c) && i < e - s && c.MapCol?
    requires i > 0 || RowStart(c.offsets, s) == 0
    ensures WellFormed(Reload(c, s, e)) && At(Reload(c, s, e), i) == At(c, s + i)
    decreases c, 0
  {
    ReloadWellFormed(c, s, e);
    var offs := c.offsets[s..e];
    OffsetsWellFormed(c.offsets, s, e);
    InnerRange(c.keys, Total(offs), RowStart(offs, i), offs[i]);
    InnerRange(c.values, Total(offs), RowStart(offs, i), offs[i]);
    assert RowStart(offs, i) == RowStart(c.offsets, s + i);
  }

  lemma {:induction false} NullableRow(c: Column, s: nat, e: nat, i: nat)
    requires WellFormed(c) && s <= e <= Len(c) && i < e - s && c.NullableCol?
    requires i > 0 || SliceExact(c, s, e)
    ensures WellFormed(Reload(c, s, e)) && At(Reload(c, s, e), i) == At(c, s + i)
    decreases c, 0
  {
    ReloadWellFormed(c, s, e);
    if c.nulls[s + i] != 1 { RowReloaded(c.inner, s, e, i); }
  }

  lemma {:induction false} IndexRow(c: Column, s: nat, e: nat, i: nat)
    requires WellFormed(c) && s <= e <= Len(c) && i < e - s && c.LowCardinalityCol?
    ensures WellFormed(Reload(c, s, e)) && At(Reload(c, s, e), i) == At(c, s + i)
    decreases c, 0
  {
    ReloadWellFormed(c, s, e);
    ExactFromZero(c.dict, Len(c.dict));
    RowReloaded(c.dict, 0, Len(c.dict), c.codes[s + i]);
  }

  /** Every row of an exact range comes back; so do the rows behind the first of any range. */
  lemma {:induction false} RowReloaded(c: Column, s: nat, e: nat, i: nat)
    requires WellFormed(c) && s <= e <= Len(c) && i < e - s
    requires i > 0 || SliceExact(c, s, e)
    ensures WellFormed(Reload(c, s, e)) && At(Reload(c, s, e), i) == At(c, s + i)
    decreases c, 1
  {
    match c
    case Cells(_, _) | Strings(_) => ReloadWellFormed(c, s, e);
    case NullableCol(_, _) => NullableRow(c, s, e, i);
    case ArrayCol(_, _) => ArrayRow(c, s, e, i);
    case MapCol(_, _, _) => MapRow(c, s, e, i);
    case LowCardinalityCol(_, _, _) => IndexRow(c, s, e, i);
    case DecimalCol(_, _, _, inner) => ReloadWellFormed(c, s, e); RowReloaded(inner, s, e, i);
    case ChunkCol(d, lo, _) => RowReloaded(d, lo + s, lo + e, i);
  }

  lemma HeadRowGrows(c: Column, s: nat, e: nat)
    requires WellFormed(c) && s <= e <= Len(c) && !SliceExact(c, s, e) && (c.ArrayCol? || c.MapCol?)
    ensures s < e && WellFormed(Reload(c, s, e)) && At(Reload(c, s, e), 0) != At(c, s)
  {
    ReloadWellFormed(c, s, e);
    var r := Reload(c, s, e);
    assert r.offsets[0] == c.offsets[s];
    if c.ArrayCol? {
      assert |At(r, 0).items| == c.offsets[s] && |At(c, s).items| == c.offsets[s] - c.offsets[s - 1];
    } else {
      assert |At(r, 0).entries| == c.offsets[s] && |At(c, s).entries| == c.offsets[s] - c.offsets[s - 1];
    }
  }

  lemma {:induction false} FirstRowDiffers(c: Column, s: nat, e: nat)
    requires WellFormed(c) && s <= e <= Len(c) && !SliceExact(c, s, e)
    ensures s < e && WellFormed(Reload(c, s, e)) && At(Reload(c, s, e), 0) != At(c, s)
  {
    match c
    case NullableCol(_, i) => ReloadWellFormed(c, s, e); FirstRowDiffers(i, s, e);
    case ArrayCol(_, _) => HeadRowGrows(c, s, e);
    case MapCol(_, _, _) => HeadRowGrows(c, s, e);
    case ChunkCol(d, lo, _) => FirstRowDiffers(d, lo + s, lo + e);
  }

  /** Saving rows `s` to `e` and loading them gives those rows exactly when the range is exact. */
  lemma RowsReloaded(c: Column, s: nat, e: nat)
    requires WellFormed(c) && s <= e <= Len(c)
    ensures WellFormed(Reload(c, s, e))
    ensures Rows(Reload(c, s, e)) == Range(c, s, e) <==> SliceExact(c, s, e)
  {
    ReloadWellFormed(c, s, e);
    hide WellFormed, At, Reload, SliceExact, Len, Rows, Range;
    var r := Reload(c, s, e);
    if SliceExact(c, s, e) {
      forall i | 0 <= i < e - s ensures Rows(r)[i] == Range(c, s, e)[i] {
        RowReloaded(c, s, e, i);
        RowsAt(r, i);
        RangeAt(c, s, e, i);
      }
      assert Rows(r) == Range(c, s, e);
    } else {
      FirstRowDiffers(c, s, e);
      RowsAt(r, 0);
      RangeAt(c, s, e, 0);
      assert Rows(r)[0] != Range(c, s, e)[0];
    }
  }

  lemma RangeAt(c: Column, a: nat, b: nat, i: nat)
    requires WellFormed(c) && a <= b <= Len(c) && i < b - a
    ensures Range(c, a, b)[i] == At(c, a + i)
  {
    hide WellFormed, At, Len;
  }

  lemma RowsAt(c: Column, i: nat)
    requires WellFormed(c) && i < Len(c)
    ensures Rows(c)[i] == At(c, i)
  {
    hide WellFormed, At, Len;
  }

  /** The second of two one-element array rows, saved alone, comes back with both elements. */
  lemma ArraySliceExample()
    ensures var c := ArrayCol([1, 2], Cells(Plain(UInt8), [[7], [8]]));
      WellFormed(c) && At(c, 1) == List([Cell([8])])
      && WellFormed(Reload(c, 1, 2)) && At(Reload(c, 1, 2), 0) == List([Cell([7]), Cell([8])])
  {
    var inner := Cells(Plain(UInt8), [[7], [8]]);
    var c := ArrayCol([1, 2], inner);
    assert WellFormed(inner);
    assert Range(inner, 1, 2) == [Cell([8])];
    ReloadWellFormed(c, 1, 2);
    InnerRange(inner, 2, 0, 2);
    assert Range(inner, 0, 2) == [Cell([7]), Cell([8])];
    assert [1, 2][1..2] == [2];
  }
}
