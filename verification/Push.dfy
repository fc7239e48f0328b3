/** Pushing one value into a column, at any nesting. */
module Push {
  import opened Bytes
  import opened SqlTypes
  import opened Factory
  import opened Columns

  /** Types whose columns are pushed into without a dictionary or a rescaling. */
  predicate Pushable(t: SqlType) {
    match t
    case Plain(_) | Text | FixedString(_) => true
    case Nullable(i) => Pushable(i)
    case Array(i) => Pushable(i)
    case Map(k, v) => Pushable(k) && Pushable(v)
    case LowCardinality(_) | Decimal(_, _) => false
  }

  function Size(t: SqlType): (n: nat)
    ensures n > 0
  {
    match t
    case Plain(_) | Text | FixedString(_) | Decimal(_, _) => 1
    case Nullable(i) => 1 + Size(i)
    case Array(i) => 1 + Size(i)
    case LowCardinality(i) => 1 + Size(i)
    case Map(k, v) => Size(k) + Size(v) + 1
  }

  function Zeros(n: nat): (r: Bytes)
    ensures |r| == n
  {
    if n == 0 then [] else Zeros(n - 1) + [0]
  }

  /** A `FixedString` cell: cut, or filled up with zeros. */
  function Pad(bs: Bytes, n: nat): (r: Bytes)
    ensures |r| == n
  {
    if |bs| >= n then bs[..n] else bs + Zeros(n - |bs|)
  }

  lemma {:induction false} ZerosAt(n: nat, i: nat)
    requires i < n
    ensures Zeros(n)[i] == 0
  {
    if i < n - 1 { ZerosAt(n - 1, i); }
  }

  lemma PaddedAt(bs: Bytes, n: nat, i: nat)
    requires i < n
    ensures Pad(bs, n)[i] == if i < |bs| then bs[i] else 0
  {
    if |bs| <= i { ZerosAt(n - |bs|, i - |bs|); }
  }

  /** What stands below a null. */
  function Default(t: SqlType): Value {
    match t
    case Plain(s) => Cell(Zeros(Width(s)))
    case Text => Str([])
    case FixedString(n) => Str(Zeros(n))
    case Nullable(_) => Null
    case Array(_) => List([])
    case Map(_, _) => Entries([])
    case LowCardinality(i) => Default(i)
    case Decimal(p, s) => DecimalValue(p, s, Cell(Zeros(8)))
  }

  /** The row that pushing `v` makes in a column of type `t`; nothing where it panics. */
  function Stored(t: SqlType, v: Value): Option<Value>
    decreases t, 0
  {
    match t
    case Plain(s) => if v.Cell? && |v.bytes| == Width(s) then Some(v) else None
    case Text => if v.Str? && |v.bytes| < U64_LIMIT then Some(v) else None
    case FixedString(n) => if v.Str? then Some(Str(Pad(v.bytes, n))) else None
    case Nullable(i) =>
      if v.Null? then (if Stored(i, Default(i)).Some? then Some(Null) else None)
      else Lift(Stored(i, if v.Present? then v.value else v))
    case Array(i) => if v.List? then Listed(StoredAll(i, v.items)) else None
    case Map(k, w) => if v.Entries? then Paired(StoredAll(k, Keys(v.entries)), StoredAll(w, Vals(v.entries))) else None
    case LowCardinality(_) | Decimal(_, _) => None
  }

  function StoredAll(t: SqlType, vs: seq<Value>): (r: Option<seq<Value>>)
    ensures r.Some? ==> |r.value| == |vs|
    decreases t, 1, |vs|
  {
    if |vs| == 0 then Some([])
    else
      match StoredAll(t, vs[..|vs| - 1])
      case None => None
      case Some(rest) =>
        match Stored(t, vs[|vs| - 1])
        case None => None
        case Some(x) => Some(rest + [x])
  }

  function Lift(v: Option<Value>): Option<Value> {
    if v.Some? then Some(Present(v.value)) else None
  }

  function Listed(vs: Option<seq<Value>>): Option<Value> {
    if vs.Some? then Some(List(vs.value)) else None
  }

  function Keys(es: seq<(Value, Value)>): (r: seq<Value>)
    ensures |r| == |es| && forall i :: 0 <= i < |es| ==> r[i] == es[i].0
  {
    if |es| == 0 then [] else Keys(es[..|es| - 1]) + [es[|es| - 1].0]
  }

  function Vals(es: seq<(Value, Value)>): (r: seq<Value>)
    ensures |r| == |es| && forall i :: 0 <= i < |es| ==> r[i] == es[i].1
  {
    if |es| == 0 then [] else Vals(es[..|es| - 1]) + [es[|es| - 1].1]
  }

  function Paired(ks: Option<seq<Value>>, vs: Option<seq<Value>>): Option<Value> {
    if ks.Some? && vs.Some? && |ks.value| == |vs.value| then
      Some(Entries(seq(|ks.value|, i requires 0 <= i < |ks.value| => (ks.value[i], vs.value[i]))))
    else None
  }

  /** A value as it is read from a column of the type. */
  predicate Canonical(t: SqlType, v: Value) {
    match t
    case Plain(s) => v.Cell? && |v.bytes| == Width(s)
    case Text => v.Str? && |v.bytes| < U64_LIMIT
    case FixedString(n) => v.Str? && |v.bytes| == n
    case Nullable(i) => v.Null? || (v.Present? && Canonical(i, v.value))
    case Array(i) => v.List? && forall j :: 0 <= j < |v.items| ==> Canonical(i, v.items[j])
    case Map(k, w) =>
      v.Entries? && forall j :: 0 <= j < |v.entries| ==> Canonical(k, v.entries[j].0) && Canonical(w, v.entries[j].1)
    case LowCardinality(_) | Decimal(_, _) => false
  }

  /** A value is stored as it is if and only if it is one that can be read, and what is stored
      always is one. */
  lemma {:induction false} StoredExactly(t: SqlType, v: Value)
    requires Pushable(t)
    ensures Stored(t, v) == Some(v) <==> Canonical(t, v)
    ensures Stored(t, v).Some? ==> Canonical(t, Stored(t, v).value)
    decreases t, 0
  {
    match t
    case Nullable(i) =>
      DefaultStored(i);
      StoredExactly(i, if v.Present? then v.value else v);
    case Array(i) =>
      if v.List? { StoredAllExactly(i, v.items); }
    case Map(k, w) =>
      if v.Entries? {
        StoredAllExactly(k, Keys(v.entries));
        StoredAllExactly(w, Vals(v.entries));
        EntriesKept(k, w, v.entries);
        CanonicalEntries(k, w, v.entries);
      }
    case FixedString(n) =>
      if v.Str? && |v.bytes| == n { assert v.bytes[..n] == v.bytes; }
    case _ =>
  }

  lemma {:induction false} DefaultStored(t: SqlType)
    requires Pushable(t)
    ensures Stored(t, Default(t)).Some?
  {
    if t.Nullable? { DefaultStored(t.inner); }
  }

  /** Entries are stored as they are if their keys and their values are. */
  lemma EntriesKept(k: SqlType, w: SqlType, es: seq<(Value, Value)>)
    ensures Stored(Map(k, w), Entries(es)) == Some(Entries(es))
       <==> StoredAll(k, Keys(es)) == Some(Keys(es)) && StoredAll(w, Vals(es)) == Some(Vals(es))
  {
    var ks, vs := StoredAll(k, Keys(es)), StoredAll(w, Vals(es));
    assert Stored(Map(k, w), Entries(es)) == Paired(ks, vs);
    hide Stored, StoredAll;
    PairedExactly(ks, vs, es);
  }

  lemma PairedExactly(ks: Option<seq<Value>>, vs: Option<seq<Value>>, es: seq<(Value, Value)>)
    ensures Paired(ks, vs) == Some(Entries(es)) <==> ks == Some(Keys(es)) && vs == Some(Vals(es))
  {
    if ks == Some(Keys(es)) && vs == Some(Vals(es)) {
      assert Paired(ks, vs).value.entries == es;
    }
    if Paired(ks, vs) == Some(Entries(es)) {
      PairedParts(ks, vs, es);
    }
  }

  lemma PairedParts(ks: Option<seq<Value>>, vs: Option<seq<Value>>, es: seq<(Value, Value)>)
    requires Paired(ks, vs) == Some(Entries(es))
    ensures ks == Some(Keys(es)) && vs == Some(Vals(es))
  {
    assert Paired(ks, vs).value.entries == es;
    assert ks.value == Keys(es) && vs.value == Vals(es);
  }

  predicate AllCanonical(t: SqlType, vs: seq<Value>) {
    forall j :: 0 <= j < |vs| ==> Canonical(t, vs[j])
  }

  lemma CanonicalEntries(k: SqlType, w: SqlType, es: seq<(Value, Value)>)
    ensures Canonical(Map(k, w), Entries(es)) <==> AllCanonical(k, Keys(es)) && AllCanonical(w, Vals(es))
  {
    var ks, vs := Keys(es), Vals(es);
    assert Canonical(Map(k, w), Entries(es))
      <==> (forall j :: 0 <= j < |es| ==> Canonical(k, es[j].0) && Canonical(w, es[j].1));
    hide Keys, Vals, Canonical;
    assert forall j :: 0 <= j < |es| ==> ks[j] == es[j].0 && vs[j] == es[j].1;
  }

  lemma {:induction false} StoredAllExactly(t: SqlType, vs: seq<Value>)
    requires Pushable(t)
    ensures StoredAll(t, vs) == Some(vs) <==> AllCanonical(t, vs)
    ensures StoredAll(t, vs).Some? ==> AllCanonical(t, StoredAll(t, vs).value)
    decreases t, 1, |vs|
  {
    hide Canonical, Stored;
    if |vs| > 0 {
      var n := |vs| - 1;
      StoredAllExactly(t, vs[..n]);
      StoredExactly(t, vs[n]);
      LastStored(StoredAll(t, vs[..n]), Stored(t, vs[n]), vs);
      LastCanonical(t, vs);
      if StoredAll(t, vs).Some? {
        hide StoredAll;
        LastCanonical(t, StoredAll(t, vs).value);
      }
    }
  }

  lemma LastCanonical(t: SqlType, vs: seq<Value>)
    requires |vs| > 0
    ensures AllCanonical(t, vs) <==> AllCanonical(t, vs[..|vs| - 1]) && Canonical(t, vs[|vs| - 1])
  {
    hide Canonical;
  }

  lemma LastStored(front: Option<seq<Value>>, last: Option<Value>, vs: seq<Value>)
    requires |vs| > 0 && (front.Some? ==> |front.value| == |vs| - 1)
    ensures front.Some? && last.Some? ==>
              (front.value + [last.value] == vs <==> front.value == vs[..|vs| - 1] && last.value == vs[|vs| - 1])
              && (front.value + [last.value])[..|vs| - 1] == front.value
  {
    if front.Some? && last.Some? && front.value + [last.value] == vs {
      assert front.value == vs[..|vs| - 1];
    }
    assert vs == vs[..|vs| - 1] + [vs[|vs| - 1]];
  }

  // ----- room: no counter passes 64 bits -----

  /** How many rows a value takes at most in any column of the tree. */
  function Cost(v: Value): (n: nat)
    ensures n >= 1
  {
    match v
    case Present(x) => Cost(x)
    case List(items) => 1 + CostAll(items)
    case Entries(es) => 1 + CostPairs(es)
    case _ => 1
  }

  function CostAll(vs: seq<Value>): nat {
    if |vs| == 0 then 0 else CostAll(vs[..|vs| - 1]) + Cost(vs[|vs| - 1])
  }

  function CostPairs(es: seq<(Value, Value)>): nat {
    if |es| == 0 then 0 else CostPairs(es[..|es| - 1]) + CostPair(es[|es| - 1])
  }

  function CostPair(e: (Value, Value)): nat {
    Cost(e.0) + Cost(e.1)
  }

  predicate Room(c: Column, k: nat) {
    Len(c) + k < U64_LIMIT &&
    match c
    case NullableCol(_, i) => Room(i, k)
    case ArrayCol(_, i) => Room(i, k)
    case MapCol(_, a, b) => Room(a, k) && Room(b, k)
    case _ => true
  }

  lemma {:induction false} RoomMono(c: Column, k: nat, n: nat)
    requires Room(c, k) && n <= k
    ensures Room(c, n)
  {
    match c
    case NullableCol(_, i) => RoomMono(i, k, n);
    case ArrayCol(_, i) => RoomMono(i, k, n);
    case MapCol(_, a, b) => RoomMono(a, k, n); RoomMono(b, k, n);
    case _ =>
  }

  // ----- the push -----

  /** What a push has to do: the old rows stay and the stored value comes last. */
  ghost predicate Pushed(c: Column, v: Value, k: nat, r: Option<Column>)
    requires WellFormed(c) && Cost(v) <= k
  {
    match Stored(TypeOf(c), v)
    case None => r.None?
    case Some(x) =>
      r.Some? && WellFormed(r.value) && !r.value.ChunkCol? && TypeOf(r.value) == TypeOf(c)
      && Room(r.value, k - Cost(v)) && Rows(r.value) == Rows(c) + [x]
  }

  lemma CellsPushed(t: SqlType, cells: seq<Bytes>, cell: Bytes)
    requires WellFormed(Cells(t, cells)) && |cell| == CellWidth(t) && |cells| + 1 < U64_LIMIT
    ensures WellFormed(Cells(t, cells + [cell]))
    ensures Rows(Cells(t, cells + [cell])) == Rows(Cells(t, cells)) + [if t.FixedString? then Str(cell) else Cell(cell)]
  {
    var c, r := Cells(t, cells), Cells(t, cells + [cell]);
    forall j | 0 <= j < |cells| ensures At(r, j) == Rows(c)[j] {
      assert Rows(c)[j] == At(c, j);
    }
    RowsAre(r, Rows(c) + [if t.FixedString? then Str(cell) else Cell(cell)]);
  }

  lemma StringsPushed(items: seq<Bytes>, s: Bytes)
    requires WellFormed(Strings(items)) && |s| < U64_LIMIT && |items| + 1 < U64_LIMIT
    ensures WellFormed(Strings(items + [s])) && Rows(Strings(items + [s])) == Rows(Strings(items)) + [Str(s)]
  {
    var c, r := Strings(items), Strings(items + [s]);
    forall j | 0 <= j < |items| ensures At(r, j) == Rows(c)[j] {
      assert Rows(c)[j] == At(c, j);
    }
    RowsAre(r, Rows(c) + [Str(s)]);
  }

  lemma NullablePushed(nulls: Bytes, i: Column, i2: Column, isNull: bool, x: Value)
    requires WellFormed(NullableCol(nulls, i)) && WellFormed(i2) && !i2.ChunkCol? && Rows(i2) == Rows(i) + [x]
    ensures var r := NullableCol(nulls + [if isNull then 1 else 0], i2);
      WellFormed(r) && Rows(r) == Rows(NullableCol(nulls, i)) + [if isNull then Null else Present(x)]
  {
    var c, r := NullableCol(nulls, i), NullableCol(nulls + [if isNull then 1 else 0], i2);
    assert |Rows(i2)| == |Rows(i)| + 1;
    forall j | 0 <= j < Len(c) ensures At(r, j) == At(c, j) {
      assert Rows(i2)[j] == Rows(i)[j];
    }
    assert Rows(i2)[Len(i)] == x;
    RowsAre(r, Rows(c) + [if isNull then Null else Present(x)]);
  }

  lemma RangeOfRows(c: Column, a: nat, b: nat)
    requires WellFormed(c) && a <= b <= Len(c)
    ensures Range(c, a, b) == Rows(c)[a..b]
  {
    hide At;
  }

  lemma RangeKept(i: Column, i2: Column, xs: seq<Value>, a: nat, b: nat)
    requires WellFormed(i) && WellFormed(i2) && Rows(i2) == Rows(i) + xs && a <= b <= Len(i)
    ensures Len(i2) == Len(i) + |xs| && Range(i2, a, b) == Range(i, a, b)
    ensures Range(i2, Len(i), Len(i2)) == xs
  {
    hide At, Range, WellFormed;
    var rows := Rows(i);
    assert |Rows(i2)| == |rows| + |xs|;
    RangeOfRows(i, a, b);
    RangeOfRows(i2, a, b);
    RangeOfRows(i2, Len(i), Len(i2));
    hide Rows, Len;
    assert (rows + xs)[a..b] == rows[a..b];
    assert (rows + xs)[|rows|..|rows| + |xs|] == xs;
  }

  /** The offset invariant holds again after a push. */
  lemma OffsetsPushed(offs: seq<nat>, n: nat)
    requires Monotone(offs)
    ensures Monotone(offs + [Total(offs) + n]) && Total(offs + [Total(offs) + n]) == Total(offs) + n
  {
  }

  lemma ArrayPushed(offs: seq<nat>, i: Column, i2: Column, xs: seq<Value>)
    requires WellFormed(ArrayCol(offs, i)) && WellFormed(i2) && !i2.ChunkCol? && Rows(i2) == Rows(i) + xs
    requires |offs| + 1 < U64_LIMIT
    ensures var r := ArrayCol(offs + [Total(offs) + |xs|], i2);
      WellFormed(r) && Rows(r) == Rows(ArrayCol(offs, i)) + [List(xs)]
  {
    var c, r := ArrayCol(offs, i), ArrayCol(offs + [Total(offs) + |xs|], i2);
    OffsetsPushed(offs, |xs|);
    RangeKept(i, i2, xs, 0, 0);
    assert WellFormed(r);
    hide Range;
    forall j | 0 <= j < |offs| ensures At(r, j) == At(c, j) {
      assert RowStart(r.offsets, j) == RowStart(offs, j);
      RangeKept(i, i2, xs, RowStart(offs, j), offs[j]);
    }
    assert At(r, |offs|) == List(xs);
    RowsAre(r, Rows(c) + [List(xs)]);
  }

  lemma RowsAre(c: Column, rows: seq<Value>)
    requires WellFormed(c) && |rows| == Len(c)
    requires forall j :: 0 <= j < Len(c) ==> At(c, j) == rows[j]
    ensures Rows(c) == rows
  {
    hide At;
  }

  lemma MapAt(c: Column, j: nat)
    requires WellFormed(c) && c.MapCol? && j < Len(c)
    ensures j < |c.offsets| && RowStart(c.offsets, j) <= c.offsets[j] <= Len(c.keys) == Len(c.values)
    ensures WellFormed(c.keys) && WellFormed(c.values)
    ensures Paired(Some(Range(c.keys, RowStart(c.offsets, j), c.offsets[j])),
                   Some(Range(c.values, RowStart(c.offsets, j), c.offsets[j]))) == Some(At(c, j))
  {
    hide Range;
  }

  lemma MapWhole(offs: seq<nat>, k: Column, v: Column)
    requires WellFormed(k) && WellFormed(v) && !k.ChunkCol? && !v.ChunkCol?
    requires Monotone(offs) && Total(offs) == Len(k) == Len(v) && |offs| < U64_LIMIT
    ensures WellFormed(MapCol(offs, k, v)) && Len(MapCol(offs, k, v)) == |offs|
  {
  }

  lemma MapPushed(offs: seq<nat>, k: Column, v: Column, k2: Column, v2: Column, xs: seq<Value>, ys: seq<Value>)
    requires WellFormed(MapCol(offs, k, v)) && WellFormed(k2) && WellFormed(v2) && !k2.ChunkCol? && !v2.ChunkCol?
    requires WellFormed(k) && WellFormed(v)
    requires Rows(k2) == Rows(k) + xs && Rows(v2) == Rows(v) + ys && |xs| == |ys| && |offs| + 1 < U64_LIMIT
    ensures var r := MapCol(offs + [Total(offs) + |xs|], k2, v2);
      WellFormed(r) && Paired(Some(xs), Some(ys)).Some?
      && Rows(r) == Rows(MapCol(offs, k, v)) + [Paired(Some(xs), Some(ys)).value]
  {
    var c, r := MapCol(offs, k, v), MapCol(offs + [Total(offs) + |xs|], k2, v2);
    assert Len(c) == |offs| && Monotone(offs) && Total(offs) == Len(k) == Len(v);
    hide Range, At, WellFormed, Len, Paired;
    OffsetsPushed(offs, |xs|);
    RangeKept(k, k2, xs, 0, 0);
    RangeKept(v, v2, ys, 0, 0);
    MapWhole(r.offsets, k2, v2);
    forall j | 0 <= j < |offs| ensures At(r, j) == At(c, j) {
      MapAt(r, j);
      MapAt(c, j);
      assert RowStart(r.offsets, j) == RowStart(offs, j) && r.offsets[j] == offs[j];
      RangeKept(k, k2, xs, RowStart(offs, j), offs[j]);
      RangeKept(v, v2, ys, RowStart(offs, j), offs[j]);
    }
    MapAt(r, |offs|);
    assert RowStart(r.offsets, |offs|) == Total(offs);
    RowsAre(r, Rows(c) + [Paired(Some(xs), Some(ys)).value]);
  }

  /** What pushing a list of values has to do. */
  ghost predicate PushedAll(c: Column, vs: seq<Value>, k: nat, r: Option<Column>)
    requires WellFormed(c) && CostAll(vs) <= k
  {
    match StoredAll(TypeOf(c), vs)
    case None => r.None?
    case Some(xs) =>
      r.Some? && WellFormed(r.value) && !r.value.ChunkCol? && TypeOf(r.value) == TypeOf(c)
      && Room(r.value, k - CostAll(vs)) && Rows(r.value) == Rows(c) + xs
  }

  lemma PushedIs(c: Column, v: Value, k: nat, r: Column, x: Value)
    requires WellFormed(c) && Cost(v) <= k && Stored(TypeOf(c), v) == Some(x)
    requires WellFormed(r) && !r.ChunkCol? && TypeOf(r) == TypeOf(c) && Room(r, k - Cost(v)) && Rows(r) == Rows(c) + [x]
    ensures Pushed(c, v, k, Some(r))
  {
    hide Stored, WellFormed, Rows, TypeOf, Room, Cost;
  }

  lemma PushedNone(c: Column, v: Value, k: nat)
    requires WellFormed(c) && Cost(v) <= k && Stored(TypeOf(c), v) == None
    ensures Pushed(c, v, k, None)
  {
    hide Stored, WellFormed, Rows, TypeOf, Room, Cost;
  }

  lemma PushedAllGives(c: Column, vs: seq<Value>, k: nat, r: Option<Column>)
    requires WellFormed(c) && CostAll(vs) <= k && PushedAll(c, vs, k, r)
    ensures r.Some? <==> StoredAll(TypeOf(c), vs).Some?
    ensures r.Some? ==>
              WellFormed(r.value) && !r.value.ChunkCol? && TypeOf(r.value) == TypeOf(c)
              && Room(r.value, k - CostAll(vs)) && Rows(r.value) == Rows(c) + StoredAll(TypeOf(c), vs).value
  {
    hide StoredAll, WellFormed, Rows, TypeOf, Room, CostAll;
  }

  lemma {:induction false} StoredPrefix(t: SqlType, vs: seq<Value>, n: nat)
    requires n <= |vs|
    ensures StoredAll(t, vs[..n]).None? ==> StoredAll(t, vs).None?
    ensures CostAll(vs[..n]) <= CostAll(vs)
    decreases |vs| - n
  {
    hide Stored, Cost;
    if n == |vs| {
      assert vs[..n] == vs;
    } else {
      StoredPrefix(t, vs, n + 1);
      assert vs[..n + 1][..n] == vs[..n];
    }
  }

  lemma PushedOneMore(c: Column, vs: seq<Value>, j: nat, k: nat, r: Column, r2: Option<Column>)
    requires WellFormed(c) && j < |vs| && CostAll(vs[..j + 1]) <= k && CostAll(vs[..j]) <= k
    requires PushedAll(c, vs[..j], k, Some(r)) && Cost(vs[j]) <= k - CostAll(vs[..j])
    requires Pushed(r, vs[j], k - CostAll(vs[..j]), r2)
    ensures PushedAll(c, vs[..j + 1], k, r2)
  {
    hide Stored, Cost, WellFormed, Rows, Room, TypeOf;
    assert vs[..j + 1][..j] == vs[..j];
  }

  method PushAll(c: Column, vs: seq<Value>, ghost k: nat) returns (r: Option<Column>)
    requires WellFormed(c) && !c.ChunkCol? && Pushable(TypeOf(c)) && CostAll(vs) <= k && Room(c, k)
    ensures PushedAll(c, vs, k, r)
    decreases Size(TypeOf(c)), 3
  {
    r := Some(c);
    hide WellFormed, Stored, Room, Pushable, TypeOf, Cost, Pushed, Rows;
    assert vs[..0] == [] && Rows(c) + [] == Rows(c);
    for j := 0 to |vs|
      invariant CostAll(vs[..j]) <= k && r.Some? && PushedAll(c, vs[..j], k, r)
    {
      r := PushNext(c, vs, j, k, r.value);
      if r.None? {
        return;
      }
    }
    assert vs[..|vs|] == vs;
  }

  /** `push`: nullable columns push a default below a null, array and map columns push the
      new end and then the items. */
  method PushValue(c: Column, v: Value, ghost k: nat) returns (r: Option<Column>)
    requires WellFormed(c) && !c.ChunkCol? && Pushable(TypeOf(c)) && Cost(v) <= k && Room(c, k)
    ensures Pushed(c, v, k, r)
    decreases Size(TypeOf(c)), 1
  {
    match c
    case Cells(t, cells) =>
      if t.Plain? && v.Cell? && |v.bytes| == Width(t.scalar) {
        CellsPushed(t, cells, v.bytes);
        return Some(Cells(t, cells + [v.bytes]));
      } else if t.FixedString? && v.Str? {
        CellsPushed(t, cells, Pad(v.bytes, t.len));
        return Some(Cells(t, cells + [Pad(v.bytes, t.len)]));
      }
      return None;
    case Strings(items) =>
      if v.Str? && |v.bytes| < U64_LIMIT {
        StringsPushed(items, v.bytes);
        return Some(Strings(items + [v.bytes]));
      }
      return None;
    case NullableCol(_, _) => r := PushNullable(c, v, k);
    case ArrayCol(_, _) => r := PushArray(c, v, k);
    case MapCol(_, _, _) => r := PushMap(c, v, k);
  }

  method PushNullable(c: Column, v: Value, ghost k: nat) returns (r: Option<Column>)
    requires WellFormed(c) && c.NullableCol? && Pushable(TypeOf(c)) && Cost(v) <= k && Room(c, k)
    ensures Pushed(c, v, k, r)
    decreases Size(TypeOf(c)), 0
  {
    var x := if v.Null? then Default(TypeOf(c.inner)) else if v.Present? then v.value else v;
    DefaultCost(TypeOf(c.inner));
    var inner := PushValue(c.inner, x, k);
    if inner.None? {
      return None;
    }
    ghost var stored := Stored(TypeOf(c.inner), x).value;
    NullablePushed(c.nulls, c.inner, inner.value, v.Null?, stored);
    r := Some(NullableCol(c.nulls + [if v.Null? then 1 else 0], inner.value));
  }

  lemma DefaultCost(t: SqlType)
    ensures Cost(Default(t)) == 1
  {
  }

  lemma ArrayParts(c: Column, k: nat)
    requires WellFormed(c) && c.ArrayCol? && Pushable(TypeOf(c)) && Room(c, k)
    ensures WellFormed(c.inner) && !c.inner.ChunkCol? && Pushable(TypeOf(c.inner)) && Room(c.inner, k)
    ensures TypeOf(c) == Array(TypeOf(c.inner)) && Size(TypeOf(c)) == 1 + Size(TypeOf(c.inner))
    ensures |c.offsets| + k < U64_LIMIT
  {
  }

  lemma ListStored(t: SqlType, items: seq<Value>)
    ensures Stored(Array(t), List(items)) == Listed(StoredAll(t, items))
    ensures Cost(List(items)) == 1 + CostAll(items)
  {
    hide StoredAll;
  }

  lemma ArrayRoom(offs: seq<nat>, i: Column, k: nat)
    requires Room(i, k) && |offs| + k < U64_LIMIT
    ensures Room(ArrayCol(offs, i), k) && TypeOf(ArrayCol(offs, i)) == Array(TypeOf(i))
  {
  }

  lemma ArrayStored(c: Column, items: seq<Value>, k: nat, inner: Option<Column>)
    requires WellFormed(c) && c.ArrayCol? && Pushable(TypeOf(c)) && Room(c, k) && Cost(List(items)) <= k
    requires WellFormed(c.inner) && CostAll(items) <= k - 1 && PushedAll(c.inner, items, k - 1, inner)
    ensures Pushed(c, List(items), k,
              if inner.None? then None else Some(ArrayCol(c.offsets + [Total(c.offsets) + |items|], inner.value)))
  {
    hide *;
    ArrayParts(c, k);
    ListStored(TypeOf(c.inner), items);
    PushedAllGives(c.inner, items, k - 1, inner);
    var xs := StoredAll(TypeOf(c.inner), items);
    if xs.Some? {
      var offs := c.offsets + [Total(c.offsets) + |items|];
      ArrayRoom(offs, inner.value, k - Cost(List(items)));
      ArrayPushed(c.offsets, c.inner, inner.value, xs.value);
      ListedIs(xs);
      PushedIs(c, List(items), k, ArrayCol(offs, inner.value), List(xs.value));
    } else {
      ListedIs(xs);
      PushedNone(c, List(items), k);
    }
  }

  lemma ListedIs(xs: Option<seq<Value>>)
    ensures Listed(xs) == if xs.Some? then Some(List(xs.value)) else None
  {
  }

  lemma OtherKind(c: Column, v: Value)
    requires (c.ArrayCol? && !v.List?) || (c.MapCol? && !v.Entries?)
    ensures Stored(TypeOf(c), v) == None
  {
  }

  method PushArray(c: Column, v: Value, ghost k: nat) returns (r: Option<Column>)
    requires WellFormed(c) && c.ArrayCol? && Pushable(TypeOf(c)) && Cost(v) <= k && Room(c, k)
    ensures Pushed(c, v, k, r)
    decreases Size(TypeOf(c)), 0
  {
    hide *;
    if !v.List? {
      OtherKind(c, v);
      PushedNone(c, v, k);
      return None;
    }
    var offs, items := c.offsets, v.items;
    ListStored(TypeOf(c.inner), items);
    ArrayParts(c, k);
    RoomMono(c.inner, k, k - 1);
    var inner := PushAll(c.inner, items, k - 1);
    ArrayStored(c, items, k, inner);
    if inner.None? {
      return None;
    }
    r := Some(ArrayCol(offs + [Total(offs) + |items|], inner.value));
  }

  /** Key and value of each entry in turn. */
  method PushPairs(ks: Column, vs: Column, es: seq<(Value, Value)>, ghost k: nat)
    returns (r: Option<Column>, r2: Option<Column>)
    requires WellFormed(ks) && !ks.ChunkCol? && Pushable(TypeOf(ks)) && Room(ks, k)
    requires WellFormed(vs) && !vs.ChunkCol? && Pushable(TypeOf(vs)) && Room(vs, k)
    requires CostAll(Keys(es)) <= k && CostAll(Vals(es)) <= k
    ensures if StoredAll(TypeOf(ks), Keys(es)).Some? && StoredAll(TypeOf(vs), Vals(es)).Some?
            then r.Some? && r2.Some? && PushedAll(ks, Keys(es), k, r) && PushedAll(vs, Vals(es), k, r2)
            else r.None? && r2.None?
    decreases Size(TypeOf(ks)) + Size(TypeOf(vs)), 4
  {
    var keys, vals := Keys(es), Vals(es);
    r, r2 := Some(ks), Some(vs);
    hide WellFormed, Stored, Room, Pushable, TypeOf, Cost, Pushed, Rows, Keys, Vals;
    assert keys[..0] == [] && vals[..0] == [] && Rows(ks) + [] == Rows(ks) && Rows(vs) + [] == Rows(vs);
    for j := 0 to |es|
      invariant r.Some? && CostAll(keys[..j]) <= k && PushedAll(ks, keys[..j], k, r)
      invariant r2.Some? && CostAll(vals[..j]) <= k && PushedAll(vs, vals[..j], k, r2)
    {
      r := PushNext(ks, keys, j, k, r.value);
      if r.None? {
        return None, None;
      }
      r2 := PushNext(vs, vals, j, k, r2.value);
      if r2.None? {
        return None, None;
      }
    }
    assert keys[..|es|] == keys && vals[..|es|] == vals;
  }

  /** The next value of a list: if it cannot be pushed, the list cannot. */
  method PushNext(c: Column, vs: seq<Value>, j: nat, ghost k: nat, before: Column) returns (r: Option<Column>)
    requires WellFormed(c) && !c.ChunkCol? && Pushable(TypeOf(c)) && CostAll(vs) <= k && j < |vs|
    requires CostAll(vs[..j]) <= k && PushedAll(c, vs[..j], k, Some(before))
    ensures CostAll(vs[..j + 1]) <= k && PushedAll(c, vs[..j + 1], k, r)
    ensures r.None? ==> StoredAll(TypeOf(c), vs).None?
    decreases Size(TypeOf(c)), 2
  {
    hide WellFormed, Stored, Room, Pushable, TypeOf, Cost, Pushed, Rows;
    ghost var left := k - CostAll(vs[..j]);
    StoredPrefix(TypeOf(c), vs, j);
    StoredPrefix(TypeOf(c), vs, j + 1);
    assert vs[..j + 1][..j] == vs[..j];
    r := PushValue(before, vs[j], left);
    PushedOneMore(c, vs, j, k, before, r);
  }

  lemma MapParts(c: Column, k: nat)
    requires WellFormed(c) && c.MapCol? && Pushable(TypeOf(c)) && Room(c, k)
    ensures WellFormed(c.keys) && !c.keys.ChunkCol? && Pushable(TypeOf(c.keys)) && Room(c.keys, k)
    ensures WellFormed(c.values) && !c.values.ChunkCol? && Pushable(TypeOf(c.values)) && Room(c.values, k)
    ensures TypeOf(c) == Map(TypeOf(c.keys), TypeOf(c.values))
    ensures Size(TypeOf(c)) == Size(TypeOf(c.keys)) + Size(TypeOf(c.values)) + 1
    ensures |c.offsets| + k < U64_LIMIT
  {
  }

  lemma EntriesStored(kt: SqlType, vt: SqlType, es: seq<(Value, Value)>)
    ensures Stored(Map(kt, vt), Entries(es)) == Paired(StoredAll(kt, Keys(es)), StoredAll(vt, Vals(es)))
    ensures Cost(Entries(es)) == 1 + CostAll(Keys(es)) + CostAll(Vals(es))
  {
    hide StoredAll, Keys, Vals, CostAll;
    PairCosts(es);
  }

  lemma MapRoom(offs: seq<nat>, ks: Column, vs: Column, kk: nat, vk: nat, k: nat)
    requires Room(ks, kk) && Room(vs, vk) && |offs| + k < U64_LIMIT && k <= kk && k <= vk
    ensures Room(MapCol(offs, ks, vs), k)
  {
    RoomMono(ks, kk, k);
    RoomMono(vs, vk, k);
  }

  lemma MapType(offs: seq<nat>, ks: Column, vs: Column)
    ensures TypeOf(MapCol(offs, ks, vs)) == Map(TypeOf(ks), TypeOf(vs))
  {
  }

  lemma MapStored(c: Column, es: seq<(Value, Value)>, k: nat, ks: Column, vs: Column)
    requires WellFormed(c) && c.MapCol? && Pushable(TypeOf(c)) && Cost(Entries(es)) <= k && Room(c, k)
    requires WellFormed(c.keys) && CostAll(Keys(es)) <= k - 1 && WellFormed(c.values) && CostAll(Vals(es)) <= k - 1
    requires StoredAll(TypeOf(c.keys), Keys(es)).Some? && StoredAll(TypeOf(c.values), Vals(es)).Some?
    requires PushedAll(c.keys, Keys(es), k - 1, Some(ks)) && PushedAll(c.values, Vals(es), k - 1, Some(vs))
    ensures Pushed(c, Entries(es), k, Some(MapCol(c.offsets + [Total(c.offsets) + |es|], ks, vs)))
  {
    hide *;
    MapParts(c, k);
    EntriesStored(TypeOf(c.keys), TypeOf(c.values), es);
    PushedAllGives(c.keys, Keys(es), k - 1, Some(ks));
    PushedAllGives(c.values, Vals(es), k - 1, Some(vs));
    var offs := c.offsets + [Total(c.offsets) + |es|];
    var xs, ys := StoredAll(TypeOf(c.keys), Keys(es)).value, StoredAll(TypeOf(c.values), Vals(es)).value;
    MapRoom(offs, ks, vs, k - 1 - CostAll(Keys(es)), k - 1 - CostAll(Vals(es)), k - Cost(Entries(es)));
    MapType(offs, ks, vs);
    MapPushed(c.offsets, c.keys, c.values, ks, vs, xs, ys);
    PushedIs(c, Entries(es), k, MapCol(offs, ks, vs), Paired(Some(xs), Some(ys)).value);
  }

  lemma PairedNone(ks: Option<seq<Value>>, vs: Option<seq<Value>>)
    requires ks.None? || vs.None?
    ensures Paired(ks, vs) == None
  {
  }

  method PushMap(c: Column, v: Value, ghost k: nat) returns (r: Option<Column>)
    requires WellFormed(c) && c.MapCol? && Pushable(TypeOf(c)) && Cost(v) <= k && Room(c, k)
    ensures Pushed(c, v, k, r)
    decreases Size(TypeOf(c)), 0
  {
    hide *;
    if !v.Entries? {
      OtherKind(c, v);
      PushedNone(c, v, k);
      return None;
    }
    var offs, es := c.offsets, v.entries;
    MapParts(c, k);
    EntriesStored(TypeOf(c.keys), TypeOf(c.values), es);
    RoomMono(c.keys, k, k - 1);
    RoomMono(c.values, k, k - 1);
    var ks, vs := PushPairs(c.keys, c.values, es, k - 1);
    if ks.None? {
      PairedNone(StoredAll(TypeOf(c.keys), Keys(es)), StoredAll(TypeOf(c.values), Vals(es)));
      PushedNone(c, v, k);
      return None;
    }
    MapStored(c, es, k, ks.value, vs.value);
    r := Some(MapCol(offs + [Total(offs) + |es|], ks.value, vs.value));
  }

  lemma {:induction false} PairCosts(es: seq<(Value, Value)>)
    ensures CostPairs(es) == CostAll(Keys(es)) + CostAll(Vals(es))
  {
    if |es| > 0 { PairCosts(es[..|es| - 1]); }
  }
}
