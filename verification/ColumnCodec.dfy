/** Loading a column by its type name, and what loading makes of a saved column. */
module ColumnCodec {
  import opened Bytes
  import opened Parsed
  import opened Uvarint
  import opened ReadEx
  import opened SqlTypes
  import opened Factory
  import opened TypeNames
  import opened Columns

  // ----- parts of a column -----

  /** `n` cells of `w` bytes. */
  function Chop(w: nat, n: nat, bs: Bytes): (r: seq<Bytes>)
    requires |bs| == w * n
    ensures |r| == n
  {
    if n == 0 then []
    else
      MulStep(w, n);
      [bs[..w]] + Chop(w, n - 1, bs[w..])
  }

  function ReadCells(d: Bytes, pos: nat, w: nat, n: nat): (r: Parsed<seq<Bytes>>)
    requires pos <= |d|
    ensures r.Within(pos, d)
  {
    var (bs, p) :- ReadBytes(d, pos, w * n);
    Ok(Chop(w, n, bs), p)
  }

  function ReadWords(d: Bytes, pos: nat, w: nat, n: nat): (r: Parsed<seq<nat>>)
    requires pos <= |d|
    ensures r.Within(pos, d)
    ensures r.Ok? ==> |r.value| == n
  {
    var (bs, p) :- ReadBytes(d, pos, w * n);
    Ok(UnpackWords(w, n, bs), p)
  }

  function ReadBlobs(d: Bytes, pos: nat, n: nat): (r: Parsed<seq<Bytes>>)
    requires pos <= |d|
    ensures r.Within(pos, d)
    decreases n
  {
    if n == 0 then Ok([], pos)
    else
      var (s, p) :- ReadBlob(d, pos);
      var (rest, q) :- ReadBlobs(d, p, n - 1);
      Ok([s] + rest, q)
  }

  function IndexTypeOf(code: nat): Option<IndexType> {
    if code == 0 then Some(IxUInt8)
    else if code == 1 then Some(IxUInt16)
    else if code == 2 then Some(IxUInt32)
    else if code == 3 then Some(IxUInt64)
    else None
  }

  /** Version and flags of a low-cardinality column: the width of its codes, and the flags. */
  function ReadIndexHeader(d: Bytes, pos: nat): (r: Parsed<(IndexType, nat)>)
    requires pos <= |d|
    ensures r.Within(pos, d)
  {
    var (version, p) :- ReadWord(d, pos, 8);
    if version != LOW_CARDINALITY_VERSION then Err(Deserialize, p)
    else
      var (flags, q) :- ReadWord(d, p, 8);
      match IndexTypeOf(flags % 0x100)
      case None => Err(Deserialize, q)
      case Some(ix) =>
        if flags / 0x100 % 2 != 0 then Err(Deserialize, q)       // NEED_GLOBAL_DICTIONARY
        else if flags / 0x200 % 2 == 0 then Err(Deserialize, q)  // HAS_ADDITIONAL_KEYS
        else Ok((ix, flags), q)
  }

  // ----- loading -----

  /** `load_data`: the column of `size` rows that stands at `pos` under the type name `name`. */
  function Load(name: string, size: nat, d: Bytes, pos: nat): (r: Parsed<Column>)
    requires pos <= |d|
    ensures r.Within(pos, d)
    decreases |name|, 0
  {
    match Dispatch(name)
    case PlainOf(t) =>
      if t.Text? then
        var (items, p) :- ReadBlobs(d, pos, size);
        Ok(Strings(items), p)
      else
        var (cells, p) :- ReadCells(d, pos, CellWidth(t), size);
        Ok(Cells(t, cells), p)
    case FixedStringOf(n) =>
      var (cells, p) :- ReadCells(d, pos, n, size);
      Ok(Cells(FixedString(n), cells), p)
    case NullableOf(inner) =>
      var (nulls, p) :- ReadBytes(d, pos, size);
      var (col, q) :- Load(inner, size, d, p);
      Ok(NullableCol(nulls, col), q)
    case ArrayOf(inner) =>
      var (offs, p) :- ReadWords(d, pos, 8, size);
      var (col, q) :- Load(inner, Total(offs), d, p);
      Ok(ArrayCol(offs, col), q)
    case MapOf(key, value) =>
      var (offs, p) :- ReadWords(d, pos, 8, size);
      var (ks, q) :- Load(key, Total(offs), d, p);
      var (vs, q2) :- Load(value, Total(offs), d, q);
      Ok(MapCol(offs, ks, vs), q2)
    case DecimalOf(precision, scale, bits) =>
      IntegerNameIsShort(bits);
      var (col, p) :- Load(IntegerName(bits), size, d, pos);
      Ok(DecimalCol(precision, scale, bits, col), p)
    case LowCardinalityOf(inner) =>
      if size == 0 then
        var (dict, p) :- Load(inner, 0, d, pos);
        Ok(LowCardinalityCol(IxUInt8, [], dict), p)
      else
        LoadIndexed(inner, d, pos)
    case Unsupported => Err(UnsupportedType, pos)
    case Panics => Err(Panicked, pos)
  }

  /** The part of a low-cardinality column behind a nonzero row count. */
  function LoadIndexed(inner: string, d: Bytes, pos: nat): (r: Parsed<Column>)
    requires pos <= |d|
    ensures r.Within(pos, d)
    decreases |inner|, 1
  {
    var (head, p) :- ReadIndexHeader(d, pos);
    var (n, p1) :- ReadWord(d, p, 8);
    var (dict, p2) :- Load(inner, n, d, p1);
    var (k, p3) :- ReadWord(d, p2, 8);
    var (codes, p4) :- ReadWords(d, p3, IndexWidth(head.0), k);
    if head.1 != Flags(head.0) then Err(Panicked, p4)
    else Ok(LowCardinalityCol(head.0, codes, dict), p4)
  }

  function IntegerName(bits: NoBits): string {
    match bits case N32 => "Int32" case N64 => "Int64"
  }

  lemma IntegerNameIsShort(bits: NoBits)
    ensures |IntegerName(bits)| == 5
    ensures Dispatch(IntegerName(bits)) == PlainOf(IntegerOf(bits))
  {
    hide ParsePlain;
    match bits
    case N32 => Int32Name();
    case N64 => LargeSignedNames(Int64);
  }

  /** The type of a loaded column is the type its name stands for. */
  lemma {:induction false} LoadedType(name: string, size: nat, d: Bytes, pos: nat)
    requires pos <= |d| && Load(name, size, d, pos).Ok?
    ensures ParseType(name) == Some(TypeOf(Load(name, size, d, pos).value))
    decreases |name|, 0
  {
    hide Dispatch;
    match Dispatch(name)
    case PlainOf(t) => PlainBranch(name);
    case FixedStringOf(_) =>
    case NullableOf(inner) => LoadedType(inner, size, d, ReadBytes(d, pos, size).pos);
    case ArrayOf(inner) =>
      var offs := ReadWords(d, pos, 8, size);
      LoadedType(inner, Total(offs.value), d, offs.pos);
    case MapOf(key, value) =>
      var offs := ReadWords(d, pos, 8, size);
      LoadedType(key, Total(offs.value), d, offs.pos);
      LoadedType(value, Total(offs.value), d, Load(key, Total(offs.value), d, offs.pos).pos);
    case DecimalOf(_, _, _) =>
    case LowCardinalityOf(inner) =>
      if size == 0 { LoadedType(inner, 0, d, pos); } else { IndexedType(inner, d, pos); }
  }

  lemma {:induction false} IndexedType(inner: string, d: Bytes, pos: nat)
    requires pos <= |d| && LoadIndexed(inner, d, pos).Ok?
    ensures var c := LoadIndexed(inner, d, pos).value;
      c.LowCardinalityCol? && ParseType(inner) == Some(TypeOf(c.dict))
    decreases |inner|, 1
  {
    var head := ReadIndexHeader(d, pos);
    var n := ReadWord(d, head.pos, 8);
    LoadedType(inner, n.value, d, n.pos);
  }

  lemma PlainBranch(name: string)
    requires Dispatch(name).PlainOf?
    ensures Dispatch(name).t.Plain? || Dispatch(name).t.Text?
  {
    PlainIsPlain(name);
    hide ParsePlain;
  }

  // ----- more bytes do not change an answer -----

  lemma CellsMono(d: Bytes, d2: Bytes, pos: nat, w: nat, n: nat)
    requires pos <= |d| && d <= d2
    ensures !ReadCells(d, pos, w, n).WouldBlock? ==> ReadCells(d2, pos, w, n) == ReadCells(d, pos, w, n)
    ensures !ReadWords(d, pos, w, n).WouldBlock? ==> ReadWords(d2, pos, w, n) == ReadWords(d, pos, w, n)
  {
    if !ReadBytes(d, pos, w * n).WouldBlock? { BytesMono(d, d2, pos, w * n); }
  }

  lemma {:induction false} BlobsMono(d: Bytes, d2: Bytes, pos: nat, n: nat)
    requires pos <= |d| && d <= d2
    requires !ReadBlobs(d, pos, n).WouldBlock?
    ensures ReadBlobs(d2, pos, n) == ReadBlobs(d, pos, n)
    decreases n
  {
    if n > 0 {
      BlobMono(d, d2, pos);
      var r := ReadBlob(d, pos);
      if r.Ok? { BlobsMono(d, d2, r.pos, n - 1); }
    }
  }

  lemma IndexHeaderMono(d: Bytes, d2: Bytes, pos: nat)
    requires pos <= |d| && d <= d2
    requires !ReadIndexHeader(d, pos).WouldBlock?
    ensures ReadIndexHeader(d2, pos) == ReadIndexHeader(d, pos)
  {
    WordMono(d, d2, pos, 8);
    var r := ReadWord(d, pos, 8);
    if r.Ok? && r.value == LOW_CARDINALITY_VERSION { WordMono(d, d2, r.pos, 8); }
  }

  lemma {:induction false} LoadMono(name: string, size: nat, d: Bytes, d2: Bytes, pos: nat)
    requires pos <= |d| && d <= d2
    requires !Load(name, size, d, pos).WouldBlock?
    ensures Load(name, size, d2, pos) == Load(name, size, d, pos)
    decreases |name|, 0
  {
    hide Dispatch;
    match Dispatch(name)
    case PlainOf(t) =>
      if t.Text? { BlobsMono(d, d2, pos, size); } else { CellsMono(d, d2, pos, CellWidth(t), size); }
    case FixedStringOf(n) => CellsMono(d, d2, pos, n, size);
    case NullableOf(inner) =>
      BytesMono(d, d2, pos, size);
      LoadMono(inner, size, d, d2, ReadBytes(d, pos, size).pos);
    case ArrayOf(inner) =>
      CellsMono(d, d2, pos, 8, size);
      var offs := ReadWords(d, pos, 8, size);
      LoadMono(inner, Total(offs.value), d, d2, offs.pos);
    case MapOf(key, value) =>
      CellsMono(d, d2, pos, 8, size);
      var offs := ReadWords(d, pos, 8, size);
      LoadMono(key, Total(offs.value), d, d2, offs.pos);
      var ks := Load(key, Total(offs.value), d, offs.pos);
      if ks.Ok? { LoadMono(value, Total(offs.value), d, d2, ks.pos); }
    case DecimalOf(p, s, bits) =>
      IntegerNameIsShort(bits);
      LoadMono(IntegerName(bits), size, d, d2, pos);
    case LowCardinalityOf(inner) =>
      if size == 0 {
        LoadMono(inner, 0, d, d2, pos);
      } else {
        LowCardinalityMono(inner, d, d2, pos);
      }
    case Unsupported =>
    case Panics =>
  }

  lemma LowCardinalityMono(inner: string, d: Bytes, d2: Bytes, pos: nat)
    requires pos <= |d| && d <= d2
    requires !LoadIndexed(inner, d, pos).WouldBlock?
    ensures LoadIndexed(inner, d2, pos) == LoadIndexed(inner, d, pos)
    decreases |inner|, 1
  {
    IndexHeaderMono(d, d2, pos);
    var head := ReadIndexHeader(d, pos);
    if head.Ok? {
      WordMono(d, d2, head.pos, 8);
      var n := ReadWord(d, head.pos, 8);
      LoadMono(inner, n.value, d, d2, n.pos);
      var dict := Load(inner, n.value, d, n.pos);
      if dict.Ok? {
        WordMono(d, d2, dict.pos, 8);
        var k := ReadWord(d, dict.pos, 8);
        CellsMono(d, d2, k.pos, IndexWidth(head.value.0), k.value);
      }
    }
  }

  // ----- what comes back -----

  /** The column that loading makes of `save(s, e)`: array and map offsets stay
      absolute, and a low-cardinality dictionary without rows is not written. */
  function Reload(c: Column, s: nat, e: nat): (r: Column)
    requires WellFormed(c) && s <= e <= Len(c)
    ensures Len(r) == e - s
  {
    match c
    case Cells(t, cells) => Cells(t, cells[s..e])
    case Strings(items) => Strings(items[s..e])
    case NullableCol(nulls, i) => NullableCol(nulls[s..e], Reload(i, s, e))
    case ArrayCol(offs, i) => ArrayCol(offs[s..e], Reload(i, 0, Total(offs[s..e])))
    case MapCol(offs, k, v) =>
      MapCol(offs[s..e], Reload(k, 0, Total(offs[s..e])), Reload(v, 0, Total(offs[s..e])))
    case LowCardinalityCol(ix, codes, d) =>
      if s == e then LowCardinalityCol(IxUInt8, [], Reload(d, 0, 0))
      else LowCardinalityCol(ix, codes[s..e], Reload(d, 0, Len(d)))
    case DecimalCol(p, sc, bits, i) => DecimalCol(p, sc, bits, Reload(i, s, e))
    case ChunkCol(d, lo, hi) => Reload(d, lo + s, lo + e)
  }

  lemma {:induction false} ReloadType(c: Column, s: nat, e: nat)
    requires WellFormed(c) && s <= e <= Len(c)
    ensures TypeOf(Reload(c, s, e)) == TypeOf(c)
  {
    match c
    case Cells(_, _) | Strings(_) =>
    case NullableCol(_, i) => ReloadType(i, s, e);
    case ArrayCol(offs, i) => ReloadType(i, 0, Total(offs[s..e]));
    case MapCol(offs, k, v) =>
      ReloadType(k, 0, Total(offs[s..e]));
      ReloadType(v, 0, Total(offs[s..e]));
    case LowCardinalityCol(_, _, d) => ReloadType(d, 0, if s == e then 0 else Len(d));
    case DecimalCol(_, _, _, i) => ReloadType(i, s, e);
    case ChunkCol(d, lo, hi) => ReloadType(d, lo + s, lo + e);
  }

  lemma {:induction false} SaveNothing(c: Column, k: nat)
    requires WellFormed(c) && k <= Len(c)
    ensures Save(c, k, k) == []
  {
    match c
    case Cells(_, cells) => assert cells[k..k] == [];
    case Strings(items) => assert items[k..k] == [];
    case NullableCol(nulls, i) => SaveNothing(i, k);
    case ArrayCol(offs, i) => assert offs[k..k] == []; SaveNothing(i, 0);
    case MapCol(offs, ks, vs) => assert offs[k..k] == []; SaveNothing(ks, 0); SaveNothing(vs, 0);
    case LowCardinalityCol(_, _, d) =>
    case DecimalCol(_, _, _, i) => SaveNothing(i, k);
    case ChunkCol(d, lo, hi) => SaveNothing(d, lo + k);
  }

  // ----- the round trip, part by part -----

  lemma {:induction false} ChopFlatten(w: nat, cells: seq<Bytes>)
    requires forall i :: 0 <= i < |cells| ==> |cells[i]| == w
    ensures |Flatten(cells)| == w * |cells| && Chop(w, |cells|, Flatten(cells)) == cells
  {
    if |cells| > 0 {
      MulStep(w, |cells|);
      ChopFlatten(w, cells[1..]);
      var bs := Flatten(cells);
      assert bs[..w] == cells[0] && bs[w..] == Flatten(cells[1..]);
      assert cells == [cells[0]] + cells[1..];
    }
  }

  lemma CellsAt(d: Bytes, pos: nat, w: nat, cells: seq<Bytes>)
    requires forall i :: 0 <= i < |cells| ==> |cells[i]| == w
    requires Holds(d, pos, Flatten(cells))
    ensures ReadCells(d, pos, w, |cells|) == Ok(cells, pos + |Flatten(cells)|)
  {
    ChopFlatten(w, cells);
  }

  lemma WordsAt(d: Bytes, pos: nat, w: nat, ws: seq<nat>)
    requires forall i :: 0 <= i < |ws| ==> ws[i] < Pow256(w)
    requires Holds(d, pos, PackWords(w, ws))
    ensures ReadWords(d, pos, w, |ws|) == Ok(ws, pos + |PackWords(w, ws)|)
  {
    UnpackPack(w, ws);
  }

  lemma {:induction false} BlobsAt(d: Bytes, pos: nat, items: seq<Bytes>)
    requires forall i :: 0 <= i < |items| ==> |items[i]| < U64_LIMIT
    requires Holds(d, pos, Blobs(items))
    ensures ReadBlobs(d, pos, |items|) == Ok(items, pos + |Blobs(items)|)
    decreases |items|
  {
    hide Blob, ReadBlob, Holds;
    if |items| == 0 {
      assert items == [];
    } else {
      var p := pos + |Blob(items[0])|;
      HoldsSplit(d, pos, Blob(items[0]), Blobs(items[1..]));
      BlobAt(d, pos, items[0]);
      BlobsAt(d, p, items[1..]);
      assert items == [items[0]] + items[1..];
    }
  }

  lemma IndexHeaderAt(d: Bytes, pos: nat, ix: IndexType)
    requires Holds(d, pos, ToLE(8, LOW_CARDINALITY_VERSION))
    requires Holds(d, pos + 8, ToLE(8, Flags(ix)))
    ensures ReadIndexHeader(d, pos) == Ok((ix, Flags(ix)), pos + 16)
  {
    hide ReadWord, ToLE, Holds;
    Pow256Of8();
    WordAt(d, pos, 8, LOW_CARDINALITY_VERSION);
    WordAt(d, pos + 8, 8, Flags(ix));
  }

  lemma HoldsSplit6(d: Bytes, pos: nat, a: Bytes, b: Bytes, c: Bytes, e: Bytes, f: Bytes, g: Bytes)
    requires Holds(d, pos, a + (b + (c + (e + (f + g)))))
    ensures var p1 := pos + |a|; var p2 := p1 + |b|; var p3 := p2 + |c|; var p4 := p3 + |e|; var p5 := p4 + |f|;
      Holds(d, pos, a) && Holds(d, p1, b) && Holds(d, p2, c) && Holds(d, p3, e) && Holds(d, p4, f) && Holds(d, p5, g)
  {
    hide Holds;
    HoldsSplit(d, pos, a, b + (c + (e + (f + g))));
    HoldsSplit(d, pos + |a|, b, c + (e + (f + g)));
    HoldsSplit(d, pos + |a| + |b|, c, e + (f + g));
    HoldsSplit(d, pos + |a| + |b| + |c|, e, f + g);
    HoldsSplit(d, pos + |a| + |b| + |c| + |e|, f, g);
  }

  /** A low-cardinality column whose dictionary comes back comes back. */
  lemma IndexedAt(d: Bytes, pos: nat, inner: string, ix: IndexType, codes: seq<nat>, dict: Column, n: nat, end: nat)
    requires n < U64_LIMIT && |codes| < U64_LIMIT
    requires forall i :: 0 <= i < |codes| ==> codes[i] < Pow256(IndexWidth(ix))
    requires Holds(d, pos, ToLE(8, LOW_CARDINALITY_VERSION)) && Holds(d, pos + 8, ToLE(8, Flags(ix)))
    requires Holds(d, pos + 16, ToLE(8, n))
    requires Load(inner, n, d, pos + 24) == Ok(dict, end) && end <= |d|
    requires Holds(d, end, ToLE(8, |codes|)) && Holds(d, end + 8, PackWords(IndexWidth(ix), codes))
    ensures LoadIndexed(inner, d, pos)
         == Ok(LowCardinalityCol(ix, codes, dict), end + 8 + |PackWords(IndexWidth(ix), codes)|)
  {
    hide Load, Holds, ReadIndexHeader, ReadWord, ReadWords, ToLE, PackWords, Flags;
    Pow256Of8();
    IndexHeaderAt(d, pos, ix);
    WordAt(d, pos + 16, 8, n);
    WordAt(d, end, 8, |codes|);
    WordsAt(d, end + 8, IndexWidth(ix), codes);
  }

  /** The offsets at the head of a saved array or map. */
  lemma OffsetsAt(offs: seq<nat>, bound: nat, rest: Bytes, d: Bytes, pos: nat)
    requires bound < U64_LIMIT && forall i :: 0 <= i < |offs| ==> offs[i] <= bound
    requires Holds(d, pos, PackWords(8, offs) + rest)
    ensures var p := pos + |PackWords(8, offs)|;
      ReadWords(d, pos, 8, |offs|) == Ok(offs, p) && Holds(d, p, rest)
  {
    hide ReadWords, Holds;
    Pow256Of8();
    HoldsSplit(d, pos, PackWords(8, offs), rest);
    WordsAt(d, pos, 8, offs);
  }

  // ----- the round trip -----

  // What `Load` does on each name, by its branch.

  lemma LoadPlainOf(name: string, t: SqlType, size: nat, d: Bytes, pos: nat)
    requires pos <= |d| && Dispatch(name) == PlainOf(t)
    ensures Load(name, size, d, pos) ==
      if t.Text? then
        (var (items, p) :- ReadBlobs(d, pos, size);
         Ok(Strings(items), p))
      else
        (var (cells, p) :- ReadCells(d, pos, CellWidth(t), size);
         Ok(Cells(t, cells), p))
  {
    hide Dispatch, ReadBlobs, ReadCells, CellWidth;
  }

  lemma LoadFixedStringOf(name: string, n: nat, size: nat, d: Bytes, pos: nat)
    requires pos <= |d| && Dispatch(name) == FixedStringOf(n)
    ensures Load(name, size, d, pos) ==
      (var (cells, p) :- ReadCells(d, pos, n, size);
       Ok(Cells(FixedString(n), cells), p))
  {
    hide Dispatch, ReadCells;
  }

  lemma LoadDecimalOf(name: string, precision: nat, scale: nat, bits: NoBits, size: nat, d: Bytes, pos: nat)
    requires pos <= |d| && Dispatch(name) == DecimalOf(precision, scale, bits)
    ensures Load(name, size, d, pos) ==
      (var (col, p) :- Load(IntegerName(bits), size, d, pos);
       Ok(DecimalCol(precision, scale, bits, col), p))
  {
    hide Dispatch, IntegerName;
  }

  lemma CellsReturn(t: SqlType, cells: seq<Bytes>, d: Bytes, pos: nat)
    requires Recoverable(t) && (t.Plain? || t.FixedString?)
    requires forall i :: 0 <= i < |cells| ==> |cells[i]| == CellWidth(t)
    requires Holds(d, pos, Flatten(cells))
    ensures Load(Name(t), |cells|, d, pos) == Ok(Cells(t, cells), pos + |Flatten(cells)|)
  {
    hide Load, Dispatch, Call, ScalarName, Accepting, ReadCells, Width;
    CellsAt(d, pos, CellWidth(t), cells);
    if t.Plain? {
      PlainAcceptsOnce(t);
      LoadPlainOf(Name(t), t, |cells|, d, pos);
    } else {
      DispatchFixedString(t.len);
      LoadFixedStringOf(Name(t), t.len, |cells|, d, pos);
    }
  }

  lemma StringsReturn(items: seq<Bytes>, d: Bytes, pos: nat)
    requires forall i :: 0 <= i < |items| ==> |items[i]| < U64_LIMIT
    requires Holds(d, pos, Blobs(items))
    ensures Load("String", |items|, d, pos) == Ok(Strings(items), pos + |Blobs(items)|)
  {
    hide Load, Dispatch, Accepting;
    BlobsAt(d, pos, items);
    PlainAcceptsOnce(SqlType.Text);
    LoadPlainOf("String", SqlType.Text, |items|, d, pos);
  }

  lemma IntegersReturn(bits: NoBits, cells: seq<Bytes>, d: Bytes, pos: nat)
    requires forall i :: 0 <= i < |cells| ==> |cells[i]| == CellWidth(IntegerOf(bits))
    requires Holds(d, pos, Flatten(cells))
    ensures Load(IntegerName(bits), |cells|, d, pos) == Ok(Cells(IntegerOf(bits), cells), pos + |Flatten(cells)|)
  {
    IntegerNameIsShort(bits);
    hide Load, Dispatch, ReadCells, IntegerName;
    CellsAt(d, pos, CellWidth(IntegerOf(bits)), cells);
    LoadPlainOf(IntegerName(bits), IntegerOf(bits), |cells|, d, pos);
  }

  lemma LoadSavedDecimal(c: Column, s: nat, e: nat, d: Bytes, pos: nat)
    requires WellFormed(c) && s <= e <= Len(c) && Recoverable(TypeOf(c)) && c.DecimalCol?
    requires Holds(d, pos, Save(c, s, e))
    ensures Load(Name(TypeOf(c)), e - s, d, pos) == Ok(Reload(c, s, e), pos + |Save(c, s, e)|)
  {
    hide Load, Dispatch, Name, Accepting, IntegerName, FromPrecision;
    DispatchDecimal(c.precision, c.scale);
    IntegersReturn(c.bits, c.inner.cells[s..e], d, pos);
    LoadDecimalOf(Name(TypeOf(c)), c.precision, c.scale, c.bits, e - s, d, pos);
  }

  lemma LoadNullableOf(name: string, inner: string, size: nat, d: Bytes, pos: nat)
    requires pos <= |d| && Dispatch(name) == NullableOf(inner)
    ensures Load(name, size, d, pos) ==
      (var (nulls, p) :- ReadBytes(d, pos, size);
       var (col, q) :- Load(inner, size, d, p);
       Ok(NullableCol(nulls, col), q))
  {
    hide Dispatch, ReadBytes;
  }

  lemma LoadArrayOf(name: string, inner: string, size: nat, d: Bytes, pos: nat)
    requires pos <= |d| && Dispatch(name) == ArrayOf(inner)
    ensures Load(name, size, d, pos) ==
      (var (offs, p) :- ReadWords(d, pos, 8, size);
       var (col, q) :- Load(inner, Total(offs), d, p);
       Ok(ArrayCol(offs, col), q))
  {
    hide Dispatch, ReadWords;
  }

  lemma LoadMapOf(name: string, k: string, v: string, size: nat, d: Bytes, pos: nat)
    requires pos <= |d| && Dispatch(name) == MapOf(k, v)
    ensures Load(name, size, d, pos) ==
      (var (offs, p) :- ReadWords(d, pos, 8, size);
       var (ks, q) :- Load(k, Total(offs), d, p);
       var (vs, q2) :- Load(v, Total(offs), d, q);
       Ok(MapCol(offs, ks, vs), q2))
  {
    hide Dispatch, ReadWords;
  }

  lemma LoadLowCardinalityOf(name: string, inner: string, size: nat, d: Bytes, pos: nat)
    requires pos <= |d| && Dispatch(name) == LowCardinalityOf(inner)
    ensures Load(name, size, d, pos) ==
      if size > 0 then LoadIndexed(inner, d, pos)
      else
        (var (dict, p) :- Load(inner, 0, d, pos);
         Ok(LowCardinalityCol(IxUInt8, [], dict), p))
  {
    hide Dispatch, LoadIndexed;
  }

  // The same under the printed names, when the parts come back.

  lemma NullableReturns(t: SqlType, nulls: Bytes, col: Column, d: Bytes, pos: nat, end: nat)
    requires Recoverable(Nullable(t)) && Holds(d, pos, nulls)
    requires Load(Name(t), |nulls|, d, pos + |nulls|) == Ok(col, end)
    ensures Load(Name(Nullable(t)), |nulls|, d, pos) == Ok(NullableCol(nulls, col), end)
  {
    hide Load, Dispatch, Call, ScalarName, Accepting, ReadBytes;
    NullableName(t);
    DispatchNullable(Name(t));
    LoadNullableOf(Name(Nullable(t)), Name(t), |nulls|, d, pos);
    BytesAt(d, pos, nulls);
  }

  lemma ArrayReturns(t: SqlType, offs: seq<nat>, col: Column, d: Bytes, pos: nat, p: nat, end: nat)
    requires pos <= |d| && p <= |d| && ReadWords(d, pos, 8, |offs|) == Ok(offs, p)
    requires Load(Name(t), Total(offs), d, p) == Ok(col, end)
    ensures Load(Name(Array(t)), |offs|, d, pos) == Ok(ArrayCol(offs, col), end)
  {
    hide Load, Dispatch, Call, ScalarName, Accepting, ReadWords;
    DispatchArray(Name(t));
    LoadArrayOf(Name(Array(t)), Name(t), |offs|, d, pos);
  }

  lemma MapReturns(tk: SqlType, tv: SqlType, offs: seq<nat>, ks: Column, vs: Column,
                   d: Bytes, pos: nat, p: nat, q: nat, end: nat)
    requires pos <= |d| && p <= |d| && q <= |d| && !HasComma(tk)
    requires ReadWords(d, pos, 8, |offs|) == Ok(offs, p)
    requires Load(Name(tk), Total(offs), d, p) == Ok(ks, q)
    requires Load(Name(tv), Total(offs), d, q) == Ok(vs, end)
    ensures Load(Name(Map(tk, tv)), |offs|, d, pos) == Ok(MapCol(offs, ks, vs), end)
  {
    hide Load, Dispatch, Call, Pair, ScalarName, Accepting, ReadWords, Find;
    CleanName(tk);
    CleanName(tv);
    NoComma(tk);
    DispatchMap(Name(tk), Name(tv));
    LoadMapOf(Name(Map(tk, tv)), Name(tk), Name(tv), |offs|, d, pos);
  }

  lemma LowCardinalityReturns(t: SqlType, size: nat, d: Bytes, pos: nat)
    requires pos <= |d|
    ensures Load(Name(LowCardinality(t)), size, d, pos) ==
      if size > 0 then LoadIndexed(Name(t), d, pos)
      else
        (var (dict, p) :- Load(Name(t), 0, d, pos);
         Ok(LowCardinalityCol(IxUInt8, [], dict), p))
  {
    hide Load, Dispatch, Call, ScalarName, Accepting, LoadIndexed;
    CleanName(t);
    DispatchLowCardinality(Name(t));
    LoadLowCardinalityOf(Name(LowCardinality(t)), Name(t), size, d, pos);
  }

  lemma HoldsFits(d: Bytes, pos: nat, enc: Bytes)
    requires Holds(d, pos, enc)
    ensures pos + |enc| <= |d|
  {
  }

  lemma {:induction false} LoadSavedNullable(c: Column, s: nat, e: nat, d: Bytes, pos: nat)
    requires WellFormed(c) && s <= e <= Len(c) && Recoverable(TypeOf(c)) && c.NullableCol?
    requires Holds(d, pos, Save(c, s, e))
    ensures Load(Name(TypeOf(c)), e - s, d, pos) == Ok(Reload(c, s, e), pos + |Save(c, s, e)|)
    decreases c, 0
  {
    hide Load, Name;
    var nulls, i := c.nulls[s..e], c.inner;
    HoldsSplit(d, pos, nulls, Save(i, s, e));
    LoadSaved(i, s, e, d, pos + |nulls|);
    NullableReturns(TypeOf(i), nulls, Reload(i, s, e), d, pos, pos + |nulls| + |Save(i, s, e)|);
  }

  lemma {:induction false} LoadSavedArray(c: Column, s: nat, e: nat, d: Bytes, pos: nat)
    requires WellFormed(c) && s <= e <= Len(c) && Recoverable(TypeOf(c)) && c.ArrayCol?
    requires Holds(d, pos, Save(c, s, e))
    ensures Load(Name(TypeOf(c)), e - s, d, pos) == Ok(Reload(c, s, e), pos + |Save(c, s, e)|)
    decreases c, 0
  {
    hide Load, Name, Holds, ReadWords;
    var offs, i := c.offsets[s..e], c.inner;
    var n, p := Total(offs), pos + |PackWords(8, offs)|;
    OffsetsAt(offs, Len(i), Save(i, 0, n), d, pos);
    HoldsFits(d, p, Save(i, 0, n));
    LoadSaved(i, 0, n, d, p);
    ArrayReturns(TypeOf(i), offs, Reload(i, 0, n), d, pos, p, p + |Save(i, 0, n)|);
  }

  lemma {:induction false} LoadSavedMap(c: Column, s: nat, e: nat, d: Bytes, pos: nat)
    requires WellFormed(c) && s <= e <= Len(c) && Recoverable(TypeOf(c)) && c.MapCol?
    requires Holds(d, pos, Save(c, s, e))
    ensures Load(Name(TypeOf(c)), e - s, d, pos) == Ok(Reload(c, s, e), pos + |Save(c, s, e)|)
    decreases c, 0
  {
    hide Load, Name, Holds, ReadWords, PackWords;
    var offs, k, v := c.offsets[s..e], c.keys, c.values;
    var n, p := Total(offs), pos + |PackWords(8, offs)|;
    MapParts(c, s, e, d, pos);
    var q := p + |Save(k, 0, n)|;
    LoadSaved(k, 0, n, d, p);
    LoadSaved(v, 0, n, d, q);
    MapReturns(TypeOf(k), TypeOf(v), offs, Reload(k, 0, n), Reload(v, 0, n), d, pos, p, q, q + |Save(v, 0, n)|);
  }

  lemma MapParts(c: Column, s: nat, e: nat, d: Bytes, pos: nat)
    requires WellFormed(c) && s <= e <= Len(c) && c.MapCol?
    requires Holds(d, pos, Save(c, s, e))
    ensures var offs := c.offsets[s..e]; var n := Total(offs);
      var p := pos + |PackWords(8, offs)|; var q := p + |Save(c.keys, 0, n)|;
      ReadWords(d, pos, 8, |offs|) == Ok(offs, p) && q + |Save(c.values, 0, n)| <= |d|
      && Holds(d, p, Save(c.keys, 0, n)) && Holds(d, q, Save(c.values, 0, n))
  {
    hide Holds, ReadWords, PackWords;
    var offs := c.offsets[s..e];
    var n, p := Total(offs), pos + |PackWords(8, offs)|;
    OffsetsAt(offs, Len(c.keys), Save(c.keys, 0, n) + Save(c.values, 0, n), d, pos);
    HoldsSplit(d, p, Save(c.keys, 0, n), Save(c.values, 0, n));
    HoldsFits(d, p + |Save(c.keys, 0, n)|, Save(c.values, 0, n));
  }

  lemma {:induction false} LoadSavedLowCardinality(c: Column, s: nat, e: nat, d: Bytes, pos: nat)
    requires WellFormed(c) && s <= e <= Len(c) && Recoverable(TypeOf(c)) && c.LowCardinalityCol?
    requires Holds(d, pos, Save(c, s, e))
    ensures Load(Name(TypeOf(c)), e - s, d, pos) == Ok(Reload(c, s, e), pos + |Save(c, s, e)|)
    decreases c, 0
  {
    hide Load, Name, Holds, LoadIndexed, ToLE, PackWords;
    var dict := c.dict;
    HoldsFits(d, pos, Save(c, s, e));
    LowCardinalityReturns(TypeOf(dict), e - s, d, pos);
    if s == e {
      SaveNothing(dict, 0);
      LoadSaved(dict, 0, 0, d, pos);
    } else {
      var n, codes := Len(dict), c.codes[s..e];
      IndexedParts(c, s, e, d, pos);
      LoadSaved(dict, 0, n, d, pos + 24);
      IndexedAt(d, pos, Name(TypeOf(dict)), c.index, codes, Reload(dict, 0, n), n, pos + 24 + |Save(dict, 0, n)|);
    }
  }

  lemma IndexedParts(c: Column, s: nat, e: nat, d: Bytes, pos: nat)
    requires WellFormed(c) && s < e <= Len(c) && c.LowCardinalityCol?
    requires Holds(d, pos, Save(c, s, e))
    ensures var n := Len(c.dict);
      var saved := Save(c.dict, 0, n);
      var p := pos + 24 + |saved|;
      var packed := PackWords(IndexWidth(c.index), c.codes[s..e]);
      Holds(d, pos, ToLE(8, LOW_CARDINALITY_VERSION)) && Holds(d, pos + 8, ToLE(8, Flags(c.index)))
      && Holds(d, pos + 16, ToLE(8, n)) && Holds(d, pos + 24, saved) && p <= |d|
      && Holds(d, p, ToLE(8, e - s)) && Holds(d, p + 8, packed)
      && |Save(c, s, e)| == 32 + |saved| + |packed|
  {
    hide Holds, ToLE, PackWords, Flags;
    var n := Len(c.dict);
    var saved := Save(c.dict, 0, n);
    HoldsSplit6(d, pos, ToLE(8, LOW_CARDINALITY_VERSION), ToLE(8, Flags(c.index)), ToLE(8, n), saved,
                ToLE(8, e - s), PackWords(IndexWidth(c.index), c.codes[s..e]));
    HoldsFits(d, pos + 24, saved);
  }

  /** Loading under the printed type name reads exactly the saved bytes, whatever
      follows them, and makes `Reload` of them. */
  lemma {:induction false} LoadSaved(c: Column, s: nat, e: nat, d: Bytes, pos: nat)
    requires WellFormed(c) && s <= e <= Len(c) && Recoverable(TypeOf(c))
    requires Holds(d, pos, Save(c, s, e))
    ensures Load(Name(TypeOf(c)), e - s, d, pos) == Ok(Reload(c, s, e), pos + |Save(c, s, e)|)
    decreases c, 1
  {
    hide Load;
    match c
    case Cells(t, cells) => CellsReturn(t, cells[s..e], d, pos);
    case Strings(items) => StringsReturn(items[s..e], d, pos);
    case DecimalCol(_, _, _, _) => LoadSavedDecimal(c, s, e, d, pos);
    case NullableCol(_, _) => LoadSavedNullable(c, s, e, d, pos);
    case ArrayCol(_, _) => LoadSavedArray(c, s, e, d, pos);
    case MapCol(_, _, _) => LoadSavedMap(c, s, e, d, pos);
    case LowCardinalityCol(_, _, _) => LoadSavedLowCardinality(c, s, e, d, pos);
    case ChunkCol(dd, lo, hi) => LoadSaved(dd, lo + s, lo + e, d, pos);
  }
}
