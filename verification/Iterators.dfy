/** The flat iterators over nullable, array and map columns, against row access. */
module Iterators {
  import opened Bytes
  import opened SqlTypes
  import opened Columns

  // ----- what a client sees of a row -----

  /** A row as the client gets it: the entries of a map row are collected into a table. */
  datatype Row =
    | CellRow(bytes: Bytes)
    | StrRow(bytes: Bytes)
    | NullRow
    | PresentRow(row: Row)
    | ListRow(rows: seq<Row>)
    | TableRow(table: map<Row, Row>)
    | DecimalRow(precision: Byte, scale: Byte, underlying: Row)

  function View(v: Value): Row {
    match v
    case Cell(bs) => CellRow(bs)
    case Str(bs) => StrRow(bs)
    case Null => NullRow
    case Present(x) => PresentRow(View(x))
    case List(items) => ListRow(Views(items))
    case Entries(es) => TableRow(TableOf(es))
    case DecimalValue(p, s, x) => DecimalRow(p, s, View(x))
  }

  function Views(vs: seq<Value>): (r: seq<Row>)
    ensures |r| == |vs| && forall i :: 0 <= i < |vs| ==> r[i] == View(vs[i])
  {
    if |vs| == 0 then [] else Views(vs[..|vs| - 1]) + [View(vs[|vs| - 1])]
  }

  /** Entries inserted one after another: the last value of a key stays. */
  function TableOf(es: seq<(Value, Value)>): map<Row, Row> {
    if |es| == 0 then map[]
    else
      var (k, v) := ViewPair(es[|es| - 1]);
      TableOf(es[..|es| - 1])[k := v]
  }

  function ViewPair(e: (Value, Value)): (r: (Row, Row))
    ensures r == (View(e.0), View(e.1))
  {
    (View(e.0), View(e.1))
  }

  /** The table of keys and values in step. */
  function Table(ks: seq<Row>, vs: seq<Row>): map<Row, Row>
    requires |ks| == |vs|
  {
    if |ks| == 0 then map[] else Table(ks[..|ks| - 1], vs[..|vs| - 1])[ks[|ks| - 1] := vs[|vs| - 1]]
  }

  /** The columns that flat iterators run over. */
  predicate Iterable(c: Column) {
    match c
    case Cells(_, _) | Strings(_) => true
    case NullableCol(_, i) => Iterable(i)
    case ArrayCol(_, i) => Iterable(i)
    case MapCol(_, k, v) => Iterable(k) && Iterable(v)
    case LowCardinalityCol(_, _, d) => d.Strings? || (d.Cells? && (d.ty.FixedString? || d.ty == Plain(Date)))
    case DecimalCol(_, _, _, _) => true
    case ChunkCol(_, _, _) => false
  }

  /** The value that the iterator yields for row `i`, its entries not collected yet. It takes
      every null byte but 0 for a null, where row access takes only 1 for one. */
  function Item(c: Column, i: nat): Value
    requires WellFormed(c) && i < Len(c)
  {
    match c
    case Cells(_, _) | Strings(_) | LowCardinalityCol(_, _, _) | DecimalCol(_, _, _, _) | ChunkCol(_, _, _) => At(c, i)
    case NullableCol(nulls, inner) => if nulls[i] != 0 then Null else Present(Item(inner, i))
    case ArrayCol(offs, inner) => List(Items(inner, RowStart(offs, i), offs[i]))
    case MapCol(offs, k, v) =>
      Entries(Zip(Items(k, RowStart(offs, i), offs[i]), Items(v, RowStart(offs, i), offs[i])))
  }

  function Items(c: Column, a: nat, b: nat): (r: seq<Value>)
    requires WellFormed(c) && a <= b <= Len(c)
    ensures |r| == b - a && forall i :: 0 <= i < b - a ==> r[i] == Item(c, a + i)
    decreases c, b
  {
    if a == b then [] else Items(c, a, b - 1) + [Item(c, b - 1)]
  }

  function Zip(ks: seq<Value>, vs: seq<Value>): (r: seq<(Value, Value)>)
    requires |ks| == |vs|
    ensures |r| == |ks| && forall i :: 0 <= i < |r| ==> r[i] == (ks[i], vs[i])
  {
    if |ks| == 0 then [] else Zip(ks[..|ks| - 1], vs[..|vs| - 1]) + [(ks[|ks| - 1], vs[|vs| - 1])]
  }

  lemma {:induction false} TableOfZip(ks: seq<Value>, vs: seq<Value>)
    requires |ks| == |vs|
    ensures TableOf(Zip(ks, vs)) == Table(Views(ks), Views(vs))
  {
    hide View;
    if |ks| > 0 {
      var n := |ks| - 1;
      TableOfZip(ks[..n], vs[..n]);
      assert Zip(ks, vs)[..n] == Zip(ks[..n], vs[..n]);
      assert Views(ks)[..n] == Views(ks[..n]) && Views(vs)[..n] == Views(vs[..n]);
    }
  }

  /** One iterator for each level of the column tree. */
  class FlatIterator {
    const column: Column
    var index: nat
    const inner: FlatIterator?
    const second: FlatIterator?
    ghost const Repr: set<object>

    ghost predicate Owns(it: FlatIterator?, c: Column)
      reads this, Repr
      decreases Repr, 0
    {
      it != null && it in Repr && it.Repr <= Repr - {this} && it.Repr < Repr && it.column == c && it.Valid()
    }

    /** Each inner iterator stands where the rows consumed so far end. */
    ghost predicate Valid()
      reads this, Repr
      decreases Repr, 1
    {
      this in Repr && WellFormed(column) && Iterable(column) && index <= Len(column)
      && match column
         case NullableCol(_, i) => Owns(inner, i) && inner.index == index
         case ArrayCol(offs, i) => Owns(inner, i) && inner.index == RowStart(offs, index)
         case MapCol(offs, k, v) =>
           Owns(inner, k) && Owns(second, v) && inner.Repr !! second.Repr
           && inner.index == RowStart(offs, index) == second.index
         case _ => true
    }

    constructor (c: Column)
      requires WellFormed(c) && Iterable(c)
      ensures Valid() && fresh(Repr) && column == c && index == 0
      decreases c
    {
      var first: FlatIterator? := null;
      var other: FlatIterator? := null;
      ghost var owned: set<object> := {};
      match c {
        case NullableCol(_, i) =>
          first := new FlatIterator(i);
          owned := first.Repr;
        case ArrayCol(_, i) =>
          first := new FlatIterator(i);
          owned := first.Repr;
        case MapCol(_, k, v) =>
          first := new FlatIterator(k);
          other := new FlatIterator(v);
          owned := first.Repr + other.Repr;
        case _ =>
      }
      column := c;
      index := 0;
      inner := first;
      second := other;
      Repr := owned + {this};
    }

    /** Yields the row at `index`, for any nesting: an inner iterator never runs out early. */
    method Next() returns (r: Option<Row>)
      requires Valid()
      modifies Repr
      ensures Valid()
      ensures old(index) < Len(column) ==> r == Some(View(Item(column, old(index)))) && index == old(index) + 1
      ensures old(index) == Len(column) ==> r == None && index == old(index)
      ensures index <= Len(column)
      decreases column, 1
    {
      hide At, WellFormed, Len, View;
      if index == Len(column) {
        return None;
      }
      match column
      case NullableCol(_, _) => r := NextNullable();
      case ArrayCol(_, _) => r := NextArray();
      case MapCol(_, _, _) => r := NextMap();
      case _ =>
        r := Some(View(At(column, index)));
        index := index + 1;
    }

    method NextNullable() returns (r: Option<Row>)
      requires Valid() && column.NullableCol? && index < Len(column)
      modifies Repr
      ensures Valid() && r == Some(View(Item(column, old(index)))) && index == old(index) + 1
      decreases column, 0
    {
      hide At;
      var value := inner.Next();
      var flag := column.nulls[index];
      index := index + 1;
      return Some(if flag != 0 then NullRow else PresentRow(value.value));
    }

    method NextArray() returns (r: Option<Row>)
      requires Valid() && column.ArrayCol? && index < Len(column)
      modifies Repr
      ensures Valid() && r == Some(View(Item(column, old(index)))) && index == old(index) + 1
      decreases column, 0
    {
      hide At, Item, WellFormed, Len, Iterable, Items, Views, View;
      OffsetsInRange(column, index);
      var offs := column.offsets;
      var start, end := RowStart(offs, index), offs[index];
      var v: seq<Row> := [];
      for k := 0 to end - start
        invariant Owns(inner, column.inner) && index == old(index)
        invariant inner.index == start + k && v == Views(Items(column.inner, start, start + k))
      {
        ghost var items := Items(column.inner, start, start + k);
        var item := inner.Next();
        if item.Some? {
          v := v + [item.value];
          ItemsAppend(column.inner, start, start + k);
          ViewsAppend(items, Item(column.inner, start + k));
        }
      }
      index := index + 1;
      ArrayItem(column, index - 1);
      return Some(ListRow(v));
    }

    /** Collects the entries of the row into a table. */
    method NextMap() returns (r: Option<Row>)
      requires Valid() && column.MapCol? && index < Len(column)
      modifies Repr
      ensures Valid() && r == Some(View(Item(column, old(index)))) && index == old(index) + 1
      decreases column, 0
    {
      hide At, Item, WellFormed, Len, Iterable, Zip, Items, Views, View, Table;
      OffsetsInRange(column, index);
      var offs := column.offsets;
      var start, end := RowStart(offs, index), offs[index];
      var t: map<Row, Row> := map[];
      EmptyTable();
      for k := 0 to end - start
        invariant Owns(inner, column.keys) && Owns(second, column.values) && index == old(index)
        invariant inner.index == start + k == second.index
        invariant t == Table(Views(Items(column.keys, start, start + k)), Views(Items(column.values, start, start + k)))
      {
        ghost var ks, vs := Items(column.keys, start, start + k), Items(column.values, start, start + k);
        var key := inner.Next();
        if key.Some? {
          var value := second.Next();
          if value.Some? {
            t := t[key.value := value.value];
            ItemsAppend(column.keys, start, start + k);
            ItemsAppend(column.values, start, start + k);
            ViewsAppend(ks, Item(column.keys, start + k));
            ViewsAppend(vs, Item(column.values, start + k));
            TableAppend(Views(ks), Views(vs), key.value, value.value);
          }
        }
      }
      index := index + 1;
      MapItem(column, index - 1);
      return Some(TableRow(t));
    }
  }

  lemma EmptyTable()
    ensures Table(Views([]), Views([])) == map[]
  {
  }

  lemma TableAppend(ks: seq<Row>, vs: seq<Row>, k: Row, v: Row)
    requires |ks| == |vs|
    ensures Table(ks + [k], vs + [v]) == Table(ks, vs)[k := v]
  {
    assert (ks + [k])[..|ks|] == ks && (vs + [v])[..|vs|] == vs;
  }

  lemma ViewsAppend(vs: seq<Value>, v: Value)
    ensures Views(vs + [v]) == Views(vs) + [View(v)]
  {
    hide View;
  }

  lemma ItemsAppend(c: Column, a: nat, b: nat)
    requires WellFormed(c) && a <= b < Len(c)
    ensures Items(c, a, b + 1) == Items(c, a, b) + [Item(c, b)]
  {
    hide Item;
  }

  lemma ArrayItem(c: Column, i: nat)
    requires WellFormed(c) && i < Len(c) && c.ArrayCol?
    ensures RowStart(c.offsets, i) <= c.offsets[i] <= Len(c.inner)
    ensures View(Item(c, i)) == ListRow(Views(Items(c.inner, RowStart(c.offsets, i), c.offsets[i])))
  {
  }

  lemma MapItem(c: Column, i: nat)
    requires WellFormed(c) && i < Len(c) && c.MapCol?
    ensures RowStart(c.offsets, i) <= c.offsets[i] <= Len(c.keys) == Len(c.values)
    ensures View(Item(c, i)) == TableRow(Table(Views(Items(c.keys, RowStart(c.offsets, i), c.offsets[i])),
                                               Views(Items(c.values, RowStart(c.offsets, i), c.offsets[i]))))
  {
    MapEntries(c, i);
    hide *;
    var a, b := RowStart(c.offsets, i), c.offsets[i];
    var ks, vs := Items(c.keys, a, b), Items(c.values, a, b);
    EntriesView(Zip(ks, vs));
    TableOfZip(ks, vs);
  }

  lemma MapEntries(c: Column, i: nat)
    requires WellFormed(c) && i < Len(c) && c.MapCol?
    ensures i < |c.offsets| && RowStart(c.offsets, i) <= c.offsets[i] <= Len(c.keys) == Len(c.values)
    ensures WellFormed(c.keys) && WellFormed(c.values)
    ensures Item(c, i) == Entries(Zip(Items(c.keys, RowStart(c.offsets, i), c.offsets[i]),
                                      Items(c.values, RowStart(c.offsets, i), c.offsets[i])))
    ensures At(c, i) == Entries(Zip(Range(c.keys, RowStart(c.offsets, i), c.offsets[i]),
                                    Range(c.values, RowStart(c.offsets, i), c.offsets[i])))
  {
    OffsetsInRange(c, i);
    StoredEntries(c, i);
    hide Items, Range, At, Zip, WellFormed;
  }

  lemma StoredEntries(c: Column, i: nat)
    requires WellFormed(c) && i < Len(c) && c.MapCol?
    ensures i < |c.offsets| && RowStart(c.offsets, i) <= c.offsets[i] <= Len(c.keys) == Len(c.values)
    ensures WellFormed(c.keys) && WellFormed(c.values)
    ensures At(c, i) == Entries(Zip(Range(c.keys, RowStart(c.offsets, i), c.offsets[i]),
                                    Range(c.values, RowStart(c.offsets, i), c.offsets[i])))
  {
    OffsetsInRange(c, i);
    hide Range, Zip, WellFormed, Item;
    var a, b := RowStart(c.offsets, i), c.offsets[i];
    var ks, vs := Range(c.keys, a, b), Range(c.values, a, b);
    assert At(c, i).entries == Zip(ks, vs);
  }

  lemma EntriesView(es: seq<(Value, Value)>)
    ensures View(Entries(es)) == TableRow(TableOf(es))
  {
  }

  lemma OffsetsInRange(c: Column, i: nat)
    requires WellFormed(c) && i < Len(c) && (c.ArrayCol? || c.MapCol?)
    ensures i < |c.offsets| && RowStart(c.offsets, i) <= c.offsets[i]
    ensures c.ArrayCol? ==> WellFormed(c.inner) && c.offsets[i] <= Len(c.inner)
    ensures c.MapCol? ==> WellFormed(c.keys) && WellFormed(c.values) && c.offsets[i] <= Len(c.keys) == Len(c.values)
  {
  }

  /** The rows that draining the iterator yields. */
  function Drained(c: Column): (r: seq<Row>)
    requires WellFormed(c)
    ensures |r| == Len(c)
  {
    Views(Items(c, 0, Len(c)))
  }

  method Collect(c: Column) returns (rows: seq<Row>)
    requires WellFormed(c) && Iterable(c)
    ensures rows == Drained(c)
  {
    hide *;
    var it := new FlatIterator(c);
    rows := [];
    DrainedIs(c);
    while true
      invariant it.Valid() && fresh(it.Repr) && it.column == c && it.index <= Len(c)
      invariant rows == Views(Items(c, 0, it.index))
      decreases Len(c) - it.index
    {
      ghost var i := it.index;
      var r := it.Next();
      if r.None? {
        return;
      }
      ItemsAppend(c, 0, i);
      ViewsAppend(Items(c, 0, i), Item(c, i));
      rows := rows + [r.value];
    }
  }

  lemma DrainedIs(c: Column)
    requires WellFormed(c)
    ensures Drained(c) == Views(Items(c, 0, Len(c))) && Views(Items(c, 0, 0)) == []
  {
  }

  // ----- row access -----

  /** Values of these types can be hashed as the keys of a row; hashing any other one panics. */
  predicate KeyHashable(t: SqlType) {
    match t
    case Plain(s) => s in {UInt8, UInt16, UInt32, UInt64, UInt128, Int8, Int16, Int32, Int64, Int128}
    case Text | FixedString(_) => true
    case LowCardinality(i) => KeyHashable(i)
    case _ => false
  }

  /** Strings and integers can be keys of a row that is accessed, dates cannot. */
  lemma KeyHashableExactly(t: SqlType)
    ensures t.Plain? || t.Text? || t.FixedString? ==>
      (KeyHashable(t) <==>
         t == Text || (exists n :: t == FixedString(n))
         || (exists s :: t == Plain(s)
               && s in [UInt8, UInt16, UInt32, UInt64, UInt128, Int8, Int16, Int32, Int64, Int128]))
    ensures t.Nullable? || t.Array? || t.Map? || t.Decimal? ==> !KeyHashable(t)
  {
    match t
    case FixedString(n) => assert t == FixedString(n);
    case _ =>
  }

  /** Row access does not panic: no map row that it reads has an entry whose key cannot be
      hashed. */
  predicate Accessible(c: Column, i: nat)
    requires WellFormed(c) && i < Len(c)
  {
    match c
    case NullableCol(nulls, inner) => nulls[i] == 1 || Accessible(inner, i)
    case ArrayCol(offs, inner) => AllAccessible(inner, RowStart(offs, i), offs[i])
    case MapCol(offs, k, v) =>
      (RowStart(offs, i) == offs[i] || KeyHashable(TypeOf(k)))
      && AllAccessible(k, RowStart(offs, i), offs[i]) && AllAccessible(v, RowStart(offs, i), offs[i])
    case LowCardinalityCol(_, codes, d) => Accessible(d, codes[i])
    case ChunkCol(d, lo, _) => Accessible(d, lo + i)
    case _ => true
  }

  predicate AllAccessible(c: Column, a: nat, b: nat)
    requires WellFormed(c) && a <= b <= Len(c)
    decreases c, b
  {
    forall j :: a <= j < b ==> Accessible(c, j)
  }

  /** What row access answers; nothing where it panics. */
  function Access(c: Column, i: nat): Option<Row>
    requires WellFormed(c) && i < Len(c)
  {
    if Accessible(c, i) then Some(View(At(c, i))) else None
  }

  function Accesses(c: Column): (r: seq<Option<Row>>)
    requires WellFormed(c)
    ensures |r| == Len(c) && forall i :: 0 <= i < Len(c) ==> r[i] == Access(c, i)
  {
    seq(Len(c), i requires 0 <= i < Len(c) => Access(c, i))
  }

  /** A later entry of the row has the key of entry `j`. */
  predicate Overwritten(ks: seq<Row>, j: nat)
    requires j < |ks|
  {
    exists m :: j < m < |ks| && ks[m] == ks[j]
  }

  /** Iterator and row access agree on row `i`: null bytes are 0 or 1 wherever they are seen,
      and a map row with entries has keys that can be hashed. Of the values of a map row, those
      that a later entry overwrites are not seen, but row access must be able to read them. */
  predicate CleanRow(c: Column, i: nat)
    requires WellFormed(c) && i < Len(c)
  {
    match c
    case NullableCol(nulls, inner) => nulls[i] == 1 || (nulls[i] == 0 && CleanRow(inner, i))
    case ArrayCol(offs, inner) => CleanRows(inner, RowStart(offs, i), offs[i])
    case MapCol(offs, k, v) =>
      var a, b := RowStart(offs, i), offs[i];
      a == b || (KeyHashable(TypeOf(k)) && AllAccessible(v, a, b) && CleanEntries(v, a, b, Views(Range(k, a, b))))
    case LowCardinalityCol(_, codes, d) => Accessible(d, codes[i])
    case ChunkCol(d, lo, _) => Accessible(d, lo + i)
    case _ => true
  }

  predicate CleanRows(c: Column, a: nat, b: nat)
    requires WellFormed(c) && a <= b <= Len(c)
    decreases c, b
  {
    forall j :: a <= j < b ==> CleanRow(c, j)
  }

  /** The values of the entries that stay are clean. */
  predicate CleanEntries(v: Column, a: nat, b: nat, ks: seq<Row>)
    requires WellFormed(v) && a <= b <= Len(v) && |ks| == b - a
    decreases v, b
  {
    forall j :: a <= j < b ==> CleanRow(v, j) || Overwritten(ks, j - a)
  }

  // ----- tables -----

  lemma {:induction false} TableKeys(ks: seq<Row>, vs: seq<Row>, j: nat)
    requires |ks| == |vs| && j < |ks|
    ensures ks[j] in Table(ks, vs)
    ensures !Overwritten(ks, j) ==> Table(ks, vs)[ks[j]] == vs[j]
    decreases |ks|
  {
    var n := |ks| - 1;
    if j < n {
      TableKeys(ks[..n], vs[..n], j);
      if !Overwritten(ks, j) {
        assert ks[n] != ks[j];
        assert !Overwritten(ks[..n], j);
      }
    }
  }

  /** Each key of a table comes from an entry that no later one overwrites. */
  lemma {:induction false} TableEntry(ks: seq<Row>, vs: seq<Row>, k: Row) returns (j: nat)
    requires |ks| == |vs| && k in Table(ks, vs)
    ensures j < |ks| && ks[j] == k && !Overwritten(ks, j)
    decreases |ks|
  {
    var n := |ks| - 1;
    if ks[n] == k {
      j := n;
    } else {
      j := TableEntry(ks[..n], vs[..n], k);
      assert forall m :: j < m < n ==> ks[..n][m] != ks[..n][j];
    }
  }

  /** Tables over the same keys agree exactly when all values that stay agree. */
  lemma TablesEqual(ks: seq<Row>, vs: seq<Row>, ws: seq<Row>)
    requires |ks| == |vs| == |ws|
    ensures Table(ks, vs) == Table(ks, ws) <==> forall j :: 0 <= j < |ks| ==> vs[j] == ws[j] || Overwritten(ks, j)
  {
    hide Overwritten, Table;
    var t, u := Table(ks, vs), Table(ks, ws);
    forall j | 0 <= j < |ks|
      ensures ks[j] in t && ks[j] in u
      ensures !Overwritten(ks, j) ==> t[ks[j]] == vs[j] && u[ks[j]] == ws[j]
    {
      TableKeys(ks, vs, j);
      TableKeys(ks, ws, j);
    }
    if forall j :: 0 <= j < |ks| ==> vs[j] == ws[j] || Overwritten(ks, j) {
      forall k | k in t ensures k in u && t[k] == u[k] {
        var j := TableEntry(ks, vs, k);
      }
      forall k | k in u ensures k in t {
        var j := TableEntry(ks, ws, k);
      }
    }
  }

  // ----- iterator against row access -----

  /** Columns of hashable keys have no nulls: iterator and row access read the same. */
  lemma KeysAgree(c: Column, i: nat)
    requires WellFormed(c) && i < Len(c) && KeyHashable(TypeOf(c)) && !c.ChunkCol?
    ensures Accessible(c, i) && Item(c, i) == At(c, i)
  {
    if c.LowCardinalityCol? { KeysAgree(c.dict, c.codes[i]); }
  }

  /** The view of a row is what row access answers exactly for clean rows. */
  lemma {:induction false} ItemIsRow(c: Column, i: nat)
    requires WellFormed(c) && i < Len(c)
    ensures Access(c, i) == Some(View(Item(c, i))) <==> CleanRow(c, i)
    decreases c, i, 1
  {
    hide *;
    match c
    case NullableCol(_, inner) => NullableViews(c, i); ItemIsRow(inner, i);
    case ArrayCol(_, _) => ArrayItemIsRow(c, i);
    case MapCol(_, _, _) => MapItemIsRow(c, i);
    case _ => LeafViews(c, i);
  }

  lemma NullableViews(c: Column, i: nat)
    requires WellFormed(c) && i < Len(c) && c.NullableCol?
    ensures WellFormed(c.inner) && i < Len(c.inner)
    ensures (Access(c, i) == Some(View(Item(c, i))) <==> CleanRow(c, i))
            <== (Access(c.inner, i) == Some(View(Item(c.inner, i))) <==> CleanRow(c.inner, i))
  {
  }

  lemma LeafViews(c: Column, i: nat)
    requires WellFormed(c) && i < Len(c) && !c.NullableCol? && !c.ArrayCol? && !c.MapCol?
    ensures Access(c, i) == Some(View(Item(c, i))) <==> CleanRow(c, i)
  {
    hide View;
  }

  /** Both ways of reading a range of rows. */
  function Reads(c: Column, a: nat, b: nat): (r: (seq<Row>, seq<Row>))
    requires WellFormed(c) && a <= b <= Len(c)
    ensures |r.0| == b - a == |r.1|
    ensures forall j :: a <= j < b ==> r.0[j - a] == View(At(c, j)) && r.1[j - a] == View(Item(c, j))
  {
    var xs, ys := Range(c, a, b), Items(c, a, b);
    assert forall j :: a <= j < b ==> xs[j - a] == At(c, j) && ys[j - a] == Item(c, a + (j - a));
    (Views(xs), Views(ys))
  }

  lemma {:induction false} RowAgrees(c: Column, a: nat, b: nat, j: nat)
    requires WellFormed(c) && a <= j < b <= Len(c)
    ensures Accessible(c, j) && Reads(c, a, b).0[j - a] == Reads(c, a, b).1[j - a] <==> CleanRow(c, j)
    decreases c, j, 2
  {
    ItemIsRow(c, j);
    hide View, At, Item, Reads, CleanRow, Accessible;
  }

  lemma {:induction false} RowsAgree(c: Column, a: nat, b: nat)
    requires WellFormed(c) && a <= b <= Len(c)
    ensures AllAccessible(c, a, b) && Reads(c, a, b).0 == Reads(c, a, b).1 <==> CleanRows(c, a, b)
    decreases c, b, 3
  {
    hide View, At, Item, Reads, CleanRow, Accessible, WellFormed, Len;
    forall j | a <= j < b
      ensures Accessible(c, j) && Reads(c, a, b).0[j - a] == Reads(c, a, b).1[j - a] <==> CleanRow(c, j)
    {
      RowAgrees(c, a, b, j);
    }
    var r := Reads(c, a, b);
    if CleanRows(c, a, b) {
      forall k | 0 <= k < b - a ensures r.0[k] == r.1[k] {
        assert CleanRow(c, a + k);
      }
    }
  }

  lemma {:induction false} EntriesAgree(c: Column, a: nat, b: nat, ks: seq<Row>)
    requires WellFormed(c) && a <= b <= Len(c) && |ks| == b - a && AllAccessible(c, a, b)
    ensures Table(ks, Reads(c, a, b).0) == Table(ks, Reads(c, a, b).1) <==> CleanEntries(c, a, b, ks)
    decreases c, b, 3
  {
    hide View, At, Item, Reads, CleanRow, Accessible, WellFormed, Len, Table, Overwritten, Iterable;
    forall j | a <= j < b
      ensures Reads(c, a, b).0[j - a] == Reads(c, a, b).1[j - a] <==> CleanRow(c, j)
    {
      RowAgrees(c, a, b, j);
    }
    var r := Reads(c, a, b);
    TablesEqual(ks, r.0, r.1);
    if CleanEntries(c, a, b, ks) {
      forall k | 0 <= k < |ks| ensures r.0[k] == r.1[k] || Overwritten(ks, k) {
        assert CleanRow(c, a + k) || Overwritten(ks, a + k - a);
      }
    } else if forall k :: 0 <= k < |ks| ==> r.0[k] == r.1[k] || Overwritten(ks, k) {
      forall j | a <= j < b ensures CleanRow(c, j) || Overwritten(ks, j - a) {
        assert r.0[j - a] == r.1[j - a] || Overwritten(ks, j - a);
      }
    }
  }

  lemma {:induction false} ArrayItemIsRow(c: Column, i: nat)
    requires WellFormed(c) && i < Len(c) && c.ArrayCol?
    ensures Access(c, i) == Some(View(Item(c, i))) <==> CleanRow(c, i)
    decreases c, i, 0
  {
    OffsetsInRange(c, i);
    RowsAgree(c.inner, RowStart(c.offsets, i), c.offsets[i]);
    ArrayViews(c, i);
  }

  lemma ArrayViews(c: Column, i: nat)
    requires WellFormed(c) && i < Len(c) && c.ArrayCol?
    ensures i < |c.offsets| && RowStart(c.offsets, i) <= c.offsets[i] <= Len(c.inner) && WellFormed(c.inner)
    ensures var a, b := RowStart(c.offsets, i), c.offsets[i];
      Access(c, i) == (if AllAccessible(c.inner, a, b) then Some(ListRow(Reads(c.inner, a, b).0)) else None)
      && View(Item(c, i)) == ListRow(Reads(c.inner, a, b).1)
      && CleanRow(c, i) == CleanRows(c.inner, a, b)
  {
    hide Views, Items, Range, AllAccessible, CleanRows;
  }

  lemma {:induction false} MapItemIsRow(c: Column, i: nat)
    requires WellFormed(c) && i < Len(c) && c.MapCol?
    ensures Access(c, i) == Some(View(Item(c, i))) <==> CleanRow(c, i)
    decreases c, i, 0
  {
    hide *;
    MapViews(c, i);
    MapAccess(c, i);
    var a, b := RowStart(c.offsets, i), c.offsets[i];
    if a == b {
      NothingRead(c.keys, c.values, a);
    } else if KeyHashable(TypeOf(c.keys)) {
      MapKeys(c, i);
      if AllAccessible(c.values, a, b) { EntriesAgree(c.values, a, b, Views(Range(c.keys, a, b))); }
    }
  }

  /** Both views of a map row, as tables. */
  lemma MapViews(c: Column, i: nat)
    requires WellFormed(c) && i < Len(c) && c.MapCol?
    ensures i < |c.offsets| && RowStart(c.offsets, i) <= c.offsets[i] <= Len(c.keys) == Len(c.values)
    ensures var a, b := RowStart(c.offsets, i), c.offsets[i];
      WellFormed(c.keys) && WellFormed(c.values)
      && View(At(c, i)) == TableRow(Table(Views(Range(c.keys, a, b)), Reads(c.values, a, b).0))
      && View(Item(c, i)) == TableRow(Table(Views(Items(c.keys, a, b)), Reads(c.values, a, b).1))
  {
    MapEntries(c, i);
    var a, b := RowStart(c.offsets, i), c.offsets[i];
    ReadsAre(c.values, a, b);
    hide *;
    EntriesView(Zip(Range(c.keys, a, b), Range(c.values, a, b)));
    TableOfZip(Range(c.keys, a, b), Range(c.values, a, b));
    EntriesView(Zip(Items(c.keys, a, b), Items(c.values, a, b)));
    TableOfZip(Items(c.keys, a, b), Items(c.values, a, b));
  }

  lemma ReadsAre(c: Column, a: nat, b: nat)
    requires WellFormed(c) && a <= b <= Len(c)
    ensures Reads(c, a, b) == (Views(Range(c, a, b)), Views(Items(c, a, b)))
  {
    hide View, At, Item, Views, Range, Items;
  }

  lemma MapAccess(c: Column, i: nat)
    requires WellFormed(c) && i < Len(c) && c.MapCol?
    ensures i < |c.offsets| && RowStart(c.offsets, i) <= c.offsets[i] <= Len(c.keys) == Len(c.values)
    ensures WellFormed(c.keys) && WellFormed(c.values)
    ensures var a, b := RowStart(c.offsets, i), c.offsets[i];
      Access(c, i) == (if (a == b || KeyHashable(TypeOf(c.keys)))
                          && AllAccessible(c.keys, a, b) && AllAccessible(c.values, a, b)
                       then Some(View(At(c, i))) else None)
      && CleanRow(c, i) == (a == b || (KeyHashable(TypeOf(c.keys)) && AllAccessible(c.values, a, b)
                            && CleanEntries(c.values, a, b, Views(Range(c.keys, a, b)))))
  {
    hide View, Range, Views, AllAccessible, CleanEntries;
  }

  lemma NothingRead(k: Column, v: Column, a: nat)
    requires WellFormed(k) && WellFormed(v) && a <= Len(k) == Len(v)
    ensures AllAccessible(k, a, a) && AllAccessible(v, a, a)
    ensures Views(Range(k, a, a)) == [] == Views(Items(k, a, a)) && Reads(v, a, a) == ([], [])
  {
  }

  lemma MapKeys(c: Column, i: nat)
    requires WellFormed(c) && i < Len(c) && c.MapCol? && KeyHashable(TypeOf(c.keys))
    ensures i < |c.offsets| && RowStart(c.offsets, i) <= c.offsets[i] <= Len(c.keys) && WellFormed(c.keys)
    ensures var a, b := RowStart(c.offsets, i), c.offsets[i];
      AllAccessible(c.keys, a, b) && Items(c.keys, a, b) == Range(c.keys, a, b)
  {
    OffsetsInRange(c, i);
    var k, a, b := c.keys, RowStart(c.offsets, i), c.offsets[i];
    forall j | a <= j < b ensures Accessible(k, j) && Items(k, a, b)[j - a] == Range(k, a, b)[j - a] {
      KeysAgree(k, j);
    }
  }

  // ----- columns on which both always agree -----

  /** Every null byte in the tree is 0 or 1. */
  predicate CleanNulls(c: Column) {
    match c
    case NullableCol(nulls, i) => CleanNulls(i) && forall k :: 0 <= k < |nulls| ==> nulls[k] <= 1
    case ArrayCol(_, i) => CleanNulls(i)
    case MapCol(_, k, v) => CleanNulls(k) && CleanNulls(v)
    case _ => true
  }

  /** Every map in the type has keys that can be hashed. */
  predicate SafeKeys(t: SqlType) {
    match t
    case Nullable(i) => SafeKeys(i)
    case Array(i) => SafeKeys(i)
    case LowCardinality(i) => SafeKeys(i)
    case Map(k, v) => KeyHashable(k) && SafeKeys(v)
    case _ => true
  }

  lemma {:induction false} SafeRow(c: Column, i: nat)
    requires WellFormed(c) && i < Len(c) && Iterable(c) && CleanNulls(c) && SafeKeys(TypeOf(c))
    ensures CleanRow(c, i) && Accessible(c, i)
    decreases c, i, 0
  {
    match c
    case NullableCol(_, inner) => SafeRow(inner, i);
    case ArrayCol(offs, inner) => SafeRows(inner, RowStart(offs, i), offs[i]);
    case MapCol(offs, _, v) =>
      SafeRows(v, RowStart(offs, i), offs[i]);
      MapKeys(c, i);
    case _ =>
  }

  lemma {:induction false} SafeRows(c: Column, a: nat, b: nat)
    requires WellFormed(c) && a <= b <= Len(c) && Iterable(c) && CleanNulls(c) && SafeKeys(TypeOf(c))
    ensures CleanRows(c, a, b) && AllAccessible(c, a, b)
    decreases c, b, 1
  {
    forall j | a <= j < b ensures CleanRow(c, j) && Accessible(c, j) {
      SafeRow(c, j);
    }
  }

  function Somes(rows: seq<Row>): (r: seq<Option<Row>>)
    ensures |r| == |rows| && forall i :: 0 <= i < |rows| ==> r[i] == Some(rows[i])
  {
    if |rows| == 0 then [] else Somes(rows[..|rows| - 1]) + [Some(rows[|rows| - 1])]
  }

  /** Draining the iterator gives what row access gives from the first row to the last,
      without a panic, if and only if all rows are clean; null bytes 0 and 1 and keys that can
      be hashed make them so. */
  lemma DrainedRows(c: Column)
    requires WellFormed(c)
    ensures Accesses(c) == Somes(Drained(c)) <==> CleanRows(c, 0, Len(c))
    ensures Iterable(c) && CleanNulls(c) && SafeKeys(TypeOf(c)) ==> CleanRows(c, 0, Len(c))
  {
    if Iterable(c) && CleanNulls(c) && SafeKeys(TypeOf(c)) { SafeRows(c, 0, Len(c)); }
    hide Accesses, Drained, Somes, CleanRow, WellFormed, Len, Iterable, CleanNulls, SafeKeys, TypeOf;
    var xs, ys := Accesses(c), Somes(Drained(c));
    forall i | 0 <= i < Len(c) ensures xs[i] == ys[i] <==> CleanRow(c, i) {
      DrainedAgrees(c, i);
    }
    if CleanRows(c, 0, Len(c)) {
      assert xs == ys;
    } else if xs == ys {
      forall j | 0 <= j < Len(c) ensures CleanRow(c, j) {
        assert xs[j] == ys[j];
      }
    }
  }

  lemma DrainedAgrees(c: Column, i: nat)
    requires WellFormed(c) && i < Len(c)
    ensures Accesses(c)[i] == Somes(Drained(c))[i] <==> CleanRow(c, i)
  {
    ItemIsRow(c, i);
    hide View, Item, WellFormed, Len, Access, CleanRow;
    assert Items(c, 0, Len(c))[i] == Item(c, 0 + i);
  }

  /** A map with a date as key: the iterator yields its row and row access panics. */
  lemma DateKeyExample()
    ensures var c := MapCol([1], Cells(Plain(Date), [[0, 0]]), Cells(Plain(UInt8), [[7]]));
      WellFormed(c) && Iterable(c) && Access(c, 0) == None && |Drained(c)| == 1
  {
    var k, v := Cells(Plain(Date), [[0, 0]]), Cells(Plain(UInt8), [[7]]);
    assert WellFormed(k) && WellFormed(v);
    var c := MapCol([1], k, v);
    assert WellFormed(c) && !KeyHashable(TypeOf(k));
  }

  /** A null byte of 2: a null for the iterator, a value for row access. */
  lemma NullByteExample()
    ensures var c := NullableCol([2], Cells(Plain(UInt8), [[7]]));
      WellFormed(c) && Iterable(c) && Access(c, 0) == Some(PresentRow(CellRow([7]))) && View(Item(c, 0)) == NullRow
  {
    assert WellFormed(Cells(Plain(UInt8), [[7]]));
  }
}
