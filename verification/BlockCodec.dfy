/** Blocks on the wire: block info, column headers and columns. */
module BlockCodec {
  import opened Bytes
  import opened Parsed
  import opened Uvarint
  import opened ReadEx
  import opened SqlTypes
  import opened Factory
  import opened TypeNames
  import opened Columns
  import opened ColumnCodec
  import opened Slices

  const MIN_REVISION_WITH_CUSTOM_SERIALIZATION: nat := 54454

  type Int32Value = x: int | -0x8000_0000 <= x < 0x8000_0000

  datatype BlockInfo = BlockInfo(isOverflows: bool, bucketNum: Int32Value)

  const DEFAULT_INFO := BlockInfo(false, -1)

  datatype NamedColumn = NamedColumn(name: Bytes, data: Column)

  datatype Block = Block(info: BlockInfo, columns: seq<NamedColumn>)

  function RowCount(b: Block): nat {
    if |b.columns| == 0 then 0 else Len(b.columns[0].data)
  }

  // ----- block info -----

  function ToWord32(x: Int32Value): (w: nat)
    ensures w < 0x1_0000_0000
  {
    x % 0x1_0000_0000
  }

  function FromWord32(w: nat): Int32Value
  {
    var v := w % 0x1_0000_0000;
    if v < 0x8000_0000 then v else v - 0x1_0000_0000
  }

  /** The fields come in any order and any number, up to the end mark. */
  function ReadInfo(d: Bytes, pos: nat, info: BlockInfo): (r: Parsed<BlockInfo>)
    requires pos <= |d|
    ensures r.Within(pos, d)
    decreases |d| - pos
  {
    var (tag, p) :- ReadUvarint(d, pos);
    if tag == 1 then
      var (b, q) :- ReadWord(d, p, 1);
      ReadInfo(d, q, info.(isOverflows := b != 0))
    else if tag == 2 then
      var (w, q) :- ReadWord(d, p, 4);
      ReadInfo(d, q, info.(bucketNum := FromWord32(w)))
    else if tag == 0 then Ok(info, p)
    else Err(UnknownPacket(tag), p)
  }

  function InfoBytes(info: BlockInfo): Bytes {
    Leb(1) + (ToLE(1, if info.isOverflows then 1 else 0) + (Leb(2) + (ToLE(4, ToWord32(info.bucketNum)) + Leb(0))))
  }

  // ----- columns -----

  function ReadMarker(d: Bytes, pos: nat, revision: nat): (r: Parsed<()>)
    requires pos <= |d|
    ensures r.Within(pos, d)
  {
    if revision < MIN_REVISION_WITH_CUSTOM_SERIALIZATION then Ok((), pos)
    else
      var (m, p) :- ReadWord(d, pos, 1);
      if m != 0 then Err(UnsupportedCustomSerialization, p) else Ok((), p)
  }

  function ReadColumn(d: Bytes, pos: nat, size: nat, revision: nat): (r: Parsed<NamedColumn>)
    requires pos <= |d|
    ensures r.Within(pos, d)
  {
    var (name, p) :- ReadString(d, pos);
    var (typeName, q) :- ReadString(d, p);
    var (_, m) :- ReadMarker(d, q, revision);
    var (col, e) :- Load(Decode(typeName), size, d, m);
    Ok(NamedColumn(name, col), e)
  }

  /** Columns whose `len` does not panic. */
  predicate HasLen(c: Column) {
    match c
    case Cells(t, _) => CellWidth(t) > 0
    case NullableCol(nulls, i) => HasLen(i) && |nulls| == Len(i)
    case DecimalCol(_, _, _, i) => HasLen(i)
    case _ => true
  }

  /** `append_column` panics on a column of another length. */
  predicate Fits(columns: seq<NamedColumn>, c: Column) {
    HasLen(c) && (|columns| > 0 ==> Len(columns[0].data) == Len(c))
  }

  function AddColumn(d: Bytes, pos: nat, size: nat, revision: nat, columns: seq<NamedColumn>):
      (r: Parsed<seq<NamedColumn>>)
    requires pos <= |d|
    ensures r.Within(pos, d)
  {
    var (c, p) :- ReadColumn(d, pos, size, revision);
    if !Fits(columns, c.data) then Err(Panicked, p) else Ok(columns + [c], p)
  }

  function ReadColumns(d: Bytes, pos: nat, count: nat, size: nat, revision: nat, columns: seq<NamedColumn>):
      (r: Parsed<seq<NamedColumn>>)
    requires pos <= |d|
    ensures r.Within(pos, d)
    decreases count
  {
    if count == 0 then Ok(columns, pos)
    else
      var (more, p) :- AddColumn(d, pos, size, revision, columns);
      ReadColumns(d, p, count - 1, size, revision, more)
  }

  function RawLoad(d: Bytes, pos: nat, revision: nat): (r: Parsed<Block>)
    requires pos <= |d|
    ensures r.Within(pos, d)
  {
    var (info, p) :- ReadInfo(d, pos, DEFAULT_INFO);
    var (columns, q) :- ReadUvarint(d, p);
    var (rows, q2) :- ReadUvarint(d, q);
    var (cs, e) :- ReadColumns(d, q2, columns, rows, revision, []);
    Ok(Block(info, cs), e)
  }

  function Marker(revision: nat): Bytes {
    if revision >= 54454 then [0] else []
  }

  function TypeBytes(c: Column): (r: Bytes)
    ensures |r| == |Name(TypeOf(c))|
  {
    NameIsAscii(TypeOf(c));
    Encode(Name(TypeOf(c)))
  }

  function ColumnBytes(c: NamedColumn, revision: nat): Bytes
    requires WellFormed(c.data)
  {
    Blob(c.name) + (Blob(TypeBytes(c.data)) + (Marker(revision) + Save(c.data, 0, Len(c.data))))
  }

  /** What the client builds: named columns of one length. */
  predicate WellFormedColumn(c: NamedColumn, rows: nat) {
    WellFormed(c.data) && Len(c.data) == rows && ValidUtf8(c.name)
    && |c.name| < U64_LIMIT && |Name(TypeOf(c.data))| < U64_LIMIT
  }

  predicate WellFormedColumns(cs: seq<NamedColumn>, rows: nat) {
    forall i :: 0 <= i < |cs| ==> WellFormedColumn(cs[i], rows)
  }

  predicate WellFormedBlock(b: Block) {
    |b.columns| < U64_LIMIT && RowCount(b) < U64_LIMIT && WellFormedColumns(b.columns, RowCount(b))
  }

  function ColumnsBytes(cs: seq<NamedColumn>, rows: nat, revision: nat): Bytes
    requires WellFormedColumns(cs, rows)
  {
    if |cs| == 0 then [] else ColumnBytes(cs[0], revision) + ColumnsBytes(cs[1..], rows, revision)
  }

  /** The columns whose printed type name stands for their type. */
  predicate RecoverableColumns(cs: seq<NamedColumn>) {
    forall i :: 0 <= i < |cs| ==> Recoverable(TypeOf(cs[i].data))
  }

  /** The uncompressed branch of `write`. */
  function Write(b: Block, revision: nat): Bytes
    requires WellFormedBlock(b)
  {
    InfoBytes(b.info) + (Leb(|b.columns|) + (Leb(RowCount(b)) + ColumnsBytes(b.columns, RowCount(b), revision)))
  }

  // ----- more bytes do not change an answer -----

  lemma {:induction false} InfoMono(d: Bytes, d2: Bytes, pos: nat, info: BlockInfo)
    requires pos <= |d| && d <= d2 && !ReadInfo(d, pos, info).WouldBlock?
    ensures ReadInfo(d2, pos, info) == ReadInfo(d, pos, info)
    decreases |d| - pos
  {
    UvarintMono(d, d2, pos);
    var tag := ReadUvarint(d, pos);
    if tag.Ok? && tag.value == 1 {
      WordMono(d, d2, tag.pos, 1);
      var b := ReadWord(d, tag.pos, 1);
      InfoMono(d, d2, b.pos, info.(isOverflows := b.value != 0));
    } else if tag.Ok? && tag.value == 2 {
      WordMono(d, d2, tag.pos, 4);
      var w := ReadWord(d, tag.pos, 4);
      InfoMono(d, d2, w.pos, info.(bucketNum := FromWord32(w.value)));
    }
  }

  lemma MarkerMono(d: Bytes, d2: Bytes, pos: nat, revision: nat)
    requires pos <= |d| && d <= d2 && !ReadMarker(d, pos, revision).WouldBlock?
    ensures ReadMarker(d2, pos, revision) == ReadMarker(d, pos, revision)
  {
    if revision >= MIN_REVISION_WITH_CUSTOM_SERIALIZATION { WordMono(d, d2, pos, 1); }
  }

  lemma ColumnMono(d: Bytes, d2: Bytes, pos: nat, size: nat, revision: nat)
    requires pos <= |d| && d <= d2 && !ReadColumn(d, pos, size, revision).WouldBlock?
    ensures ReadColumn(d2, pos, size, revision) == ReadColumn(d, pos, size, revision)
  {
    hide Load, ReadString, ReadMarker;
    StringMono(d, d2, pos);
    var name := ReadString(d, pos);
    if name.Ok? {
      StringMono(d, d2, name.pos);
      var typeName := ReadString(d, name.pos);
      if typeName.Ok? {
        MarkerMono(d, d2, typeName.pos, revision);
        var m := ReadMarker(d, typeName.pos, revision);
        if m.Ok? { LoadMono(Decode(typeName.value), size, d, d2, m.pos); }
      }
    }
  }

  lemma AddMono(d: Bytes, d2: Bytes, pos: nat, size: nat, revision: nat, cs: seq<NamedColumn>)
    requires pos <= |d| && d <= d2 && !AddColumn(d, pos, size, revision, cs).WouldBlock?
    ensures AddColumn(d2, pos, size, revision, cs) == AddColumn(d, pos, size, revision, cs)
  {
    hide ReadColumn, Fits;
    ColumnMono(d, d2, pos, size, revision);
  }

  lemma {:induction false} ColumnsMono(d: Bytes, d2: Bytes, pos: nat, count: nat, size: nat, revision: nat,
        cs: seq<NamedColumn>)
    requires pos <= |d| && d <= d2 && !ReadColumns(d, pos, count, size, revision, cs).WouldBlock?
    ensures ReadColumns(d2, pos, count, size, revision, cs) == ReadColumns(d, pos, count, size, revision, cs)
    decreases count
  {
    hide AddColumn;
    if count > 0 {
      AddMono(d, d2, pos, size, revision, cs);
      var more := AddColumn(d, pos, size, revision, cs);
      if more.Ok? { ColumnsMono(d, d2, more.pos, count - 1, size, revision, more.value); }
    }
  }

  lemma BlockMono(d: Bytes, d2: Bytes, pos: nat, revision: nat)
    requires pos <= |d| && d <= d2 && !RawLoad(d, pos, revision).WouldBlock?
    ensures RawLoad(d2, pos, revision) == RawLoad(d, pos, revision)
  {
    hide ReadInfo, ReadUvarint, ReadColumns;
    InfoMono(d, d2, pos, DEFAULT_INFO);
    var info := ReadInfo(d, pos, DEFAULT_INFO);
    if info.Ok? {
      UvarintMono(d, d2, info.pos);
      var n := ReadUvarint(d, info.pos);
      if n.Ok? {
        UvarintMono(d, d2, n.pos);
        var m := ReadUvarint(d, n.pos);
        if m.Ok? { ColumnsMono(d, d2, m.pos, n.value, m.value, revision, []); }
      }
    }
  }

  // ----- the round trip -----

  lemma SmallLeb(x: nat)
    requires x < 0x80
    ensures Leb(x) == [x]
  {
  }

  lemma Word32RoundTrip(x: Int32Value)
    ensures FromWord32(ToWord32(x)) == x
  {
  }

  lemma InfoParts(info: BlockInfo, d: Bytes, pos: nat)
    requires Holds(d, pos, InfoBytes(info))
    ensures |InfoBytes(info)| == 8 && pos + 8 <= |d|
    ensures Holds(d, pos, Leb(1)) && Holds(d, pos + 1, ToLE(1, if info.isOverflows then 1 else 0))
    ensures Holds(d, pos + 2, Leb(2)) && Holds(d, pos + 3, ToLE(4, ToWord32(info.bucketNum)))
    ensures Holds(d, pos + 7, Leb(0))
  {
    SmallLeb(0);
    SmallLeb(1);
    SmallLeb(2);
    hide Holds, ToLE, Leb;
    var b, w := ToLE(1, if info.isOverflows then 1 else 0), ToLE(4, ToWord32(info.bucketNum));
    HoldsSplit(d, pos, Leb(1), b + (Leb(2) + (w + Leb(0))));
    HoldsSplit(d, pos + 1, b, Leb(2) + (w + Leb(0)));
    HoldsSplit(d, pos + 2, Leb(2), w + Leb(0));
    HoldsSplit(d, pos + 3, w, Leb(0));
    HoldsFits(d, pos + 7, Leb(0));
  }

  lemma InfoAt(info: BlockInfo, d: Bytes, pos: nat)
    requires Holds(d, pos, InfoBytes(info))
    ensures ReadInfo(d, pos, DEFAULT_INFO) == Ok(info, pos + |InfoBytes(info)|)
  {
    InfoParts(info, d, pos);
    Pow256Of8();
    SmallLeb(0);
    SmallLeb(1);
    SmallLeb(2);
    hide ReadUvarint, ReadWord, Holds, ToLE, Pow256, InfoBytes, Leb, FromWord32, ToWord32;
    UvarintRoundTrip(1, d, pos);
    WordAt(d, pos + 1, 1, if info.isOverflows then 1 else 0);
    UvarintRoundTrip(2, d, pos + 2);
    WordAt(d, pos + 3, 4, ToWord32(info.bucketNum));
    UvarintRoundTrip(0, d, pos + 7);
    Word32RoundTrip(info.bucketNum);
    var i1 := DEFAULT_INFO.(isOverflows := info.isOverflows);
    assert ReadInfo(d, pos, DEFAULT_INFO) == ReadInfo(d, pos + 2, i1);
    assert ReadInfo(d, pos + 2, i1) == ReadInfo(d, pos + 7, info);
  }

  function ReloadColumn(c: NamedColumn): NamedColumn
    requires WellFormed(c.data)
  {
    NamedColumn(c.name, Reload(c.data, 0, Len(c.data)))
  }

  function ReloadColumns(cs: seq<NamedColumn>, rows: nat): (r: seq<NamedColumn>)
    requires WellFormedColumns(cs, rows)
    ensures |r| == |cs|
    ensures forall i :: 0 <= i < |cs| ==> WellFormedColumn(cs[i], rows) && r[i] == ReloadColumn(cs[i])
  {
    if |cs| == 0 then [] else [ReloadColumn(cs[0])] + ReloadColumns(cs[1..], rows)
  }

  /** What loading makes of a written block. */
  function ReloadBlock(b: Block): Block
    requires WellFormedBlock(b)
  {
    Block(b.info, ReloadColumns(b.columns, RowCount(b)))
  }

  lemma MarkerAt(d: Bytes, pos: nat, revision: nat)
    requires pos <= |d| && Holds(d, pos, Marker(revision))
    ensures ReadMarker(d, pos, revision) == Ok((), pos + |Marker(revision)|)
  {
    if revision >= 54454 {
      assert ToLE(1, 0) == [0];
      WordAt(d, pos, 1, 0);
    }
  }

  lemma ColumnParts(c: NamedColumn, revision: nat, d: Bytes, pos: nat)
    requires WellFormed(c.data) && Holds(d, pos, ColumnBytes(c, revision))
    ensures var tb, m, saved := TypeBytes(c.data), Marker(revision), Save(c.data, 0, Len(c.data));
      var p := pos + |Blob(c.name)|; var q := p + |Blob(tb)|; var e := q + |m|;
      Holds(d, pos, Blob(c.name)) && Holds(d, p, Blob(tb)) && Holds(d, q, m) && Holds(d, e, saved)
      && e <= |d| && e + |saved| == pos + |ColumnBytes(c, revision)|
  {
    hide Holds, Save, TypeBytes, Blob, Marker, WellFormed;
    var tb, m, saved := TypeBytes(c.data), Marker(revision), Save(c.data, 0, Len(c.data));
    var p := pos + |Blob(c.name)|;
    var q := p + |Blob(tb)|;
    HoldsSplit(d, pos, Blob(c.name), Blob(tb) + (m + saved));
    HoldsSplit(d, p, Blob(tb), m + saved);
    HoldsSplit(d, q, m, saved);
    HoldsFits(d, q, m);
  }

  lemma TypeNameAt(c: Column, d: Bytes, pos: nat)
    requires |Name(TypeOf(c))| < U64_LIMIT && Holds(d, pos, Blob(TypeBytes(c)))
    ensures Decode(TypeBytes(c)) == Name(TypeOf(c))
    ensures ReadString(d, pos) == Ok(TypeBytes(c), pos + |Blob(TypeBytes(c))|)
  {
    hide Name, Holds, ReadString;
    NameIsAscii(TypeOf(c));
    AsciiIsUtf8(Name(TypeOf(c)));
    DecodeEncode(Name(TypeOf(c)));
    StringAt(d, pos, TypeBytes(c));
  }

  lemma ColumnAt(c: NamedColumn, rows: nat, revision: nat, d: Bytes, pos: nat)
    requires WellFormedColumn(c, rows) && Recoverable(TypeOf(c.data))
    requires Holds(d, pos, ColumnBytes(c, revision))
    ensures ReadColumn(d, pos, rows, revision) == Ok(ReloadColumn(c), pos + |ColumnBytes(c, revision)|)
  {
    hide Holds, ReadString, ReadMarker, Load, Marker, Blob, TypeBytes, Name, Save, Reload, WellFormed;
    hide Recoverable, ColumnBytes, Decode, ValidUtf8;
    var tb, m := TypeBytes(c.data), Marker(revision);
    var p := pos + |Blob(c.name)|;
    var q := p + |Blob(tb)|;
    ColumnParts(c, revision, d, pos);
    StringAt(d, pos, c.name);
    TypeNameAt(c.data, d, p);
    MarkerAt(d, q, revision);
    LoadSaved(c.data, 0, rows, d, q + |m|);
  }

  lemma {:induction false} WellFormedHasLen(c: Column)
    requires WellFormed(c)
    ensures HasLen(c)
  {
    match c
    case NullableCol(_, i) => WellFormedHasLen(i);
    case DecimalCol(_, _, _, i) => WellFormedHasLen(i);
    case _ =>
  }

  lemma AddAt(c: NamedColumn, done: seq<NamedColumn>, rows: nat, revision: nat, d: Bytes, pos: nat)
    requires WellFormedColumn(c, rows) && Recoverable(TypeOf(c.data))
    requires |done| > 0 ==> Len(done[0].data) == rows
    requires Holds(d, pos, ColumnBytes(c, revision))
    ensures AddColumn(d, pos, rows, revision, done) == Ok(done + [ReloadColumn(c)], pos + |ColumnBytes(c, revision)|)
  {
    hide ReadColumn, Holds, ColumnBytes, ReloadColumn, HasLen;
    ColumnAt(c, rows, revision, d, pos);
    ColumnReloads(c, rows);
  }

  lemma {:induction false} ColumnsAt(cs: seq<NamedColumn>, done: seq<NamedColumn>, rows: nat, revision: nat,
        d: Bytes, pos: nat)
    requires WellFormedColumns(cs, rows) && RecoverableColumns(cs)
    requires |done| > 0 ==> Len(done[0].data) == rows
    requires Holds(d, pos, ColumnsBytes(cs, rows, revision))
    ensures ReadColumns(d, pos, |cs|, rows, revision, done)
         == Ok(done + ReloadColumns(cs, rows), pos + |ColumnsBytes(cs, rows, revision)|)
    decreases |cs|
  {
    hide AddColumn, Holds, ColumnBytes, ReloadColumn, Recoverable, Name, WellFormed, Len, TypeOf;
    if |cs| == 0 {
      assert done + ReloadColumns(cs, rows) == done;
    } else {
      hide ReadColumns, ColumnsBytes;
      var c, rest := cs[0], cs[1..];
      var r := ReloadColumn(c);
      var p := pos + |ColumnBytes(c, revision)|;
      ColumnsSplit(cs, rows, revision, d, pos);
      ColumnReloads(c, rows);
      AddAt(c, done, rows, revision, d, pos);
      ColumnsAt(rest, done + [r], rows, revision, d, p);
      var e := p + |ColumnsBytes(rest, rows, revision)|;
      ColumnsStep(d, pos, |rest|, rows, revision, done, r, p, ReloadColumns(rest, rows), e);
    }
  }

  lemma ColumnsSplit(cs: seq<NamedColumn>, rows: nat, revision: nat, d: Bytes, pos: nat)
    requires |cs| > 0 && WellFormedColumns(cs, rows)
    requires Holds(d, pos, ColumnsBytes(cs, rows, revision))
    ensures var p := pos + |ColumnBytes(cs[0], revision)|;
      WellFormedColumns(cs[1..], rows) && Holds(d, pos, ColumnBytes(cs[0], revision)) && p <= |d|
      && Holds(d, p, ColumnsBytes(cs[1..], rows, revision))
      && p + |ColumnsBytes(cs[1..], rows, revision)| == pos + |ColumnsBytes(cs, rows, revision)|
  {
    hide Holds, ColumnBytes, WellFormed;
    HoldsSplit(d, pos, ColumnBytes(cs[0], revision), ColumnsBytes(cs[1..], rows, revision));
    HoldsFits(d, pos + |ColumnBytes(cs[0], revision)|, ColumnsBytes(cs[1..], rows, revision));
  }

  lemma ColumnsStep(d: Bytes, pos: nat, n: nat, rows: nat, revision: nat, done: seq<NamedColumn>,
        r: NamedColumn, p: nat, tail: seq<NamedColumn>, e: nat)
    requires pos <= |d| && p <= |d| && AddColumn(d, pos, rows, revision, done) == Ok(done + [r], p)
    requires ReadColumns(d, p, n, rows, revision, done + [r]) == Ok(done + [r] + tail, e)
    ensures ReadColumns(d, pos, n + 1, rows, revision, done) == Ok(done + ([r] + tail), e)
  {
    hide AddColumn;
    assert done + [r] + tail == done + ([r] + tail);
  }

  lemma ColumnReloads(c: NamedColumn, rows: nat)
    requires WellFormedColumn(c, rows)
    ensures Len(ReloadColumn(c).data) == rows && HasLen(ReloadColumn(c).data)
  {
    ReloadWellFormed(c.data, 0, rows);
    WellFormedHasLen(Reload(c.data, 0, rows));
  }

  /** Where the parts of a written block stand. */
  lemma BlockParts(b: Block, revision: nat, d: Bytes, pos: nat)
    requires WellFormedBlock(b) && Holds(d, pos, Write(b, revision))
    ensures var n, rows := Leb(|b.columns|), Leb(RowCount(b));
      var body := ColumnsBytes(b.columns, RowCount(b), revision);
      var p := pos + |InfoBytes(b.info)|; var q := p + |n|; var e := q + |rows|;
      Holds(d, pos, InfoBytes(b.info)) && Holds(d, p, n) && Holds(d, q, rows) && Holds(d, e, body)
      && e <= |d| && e + |body| == pos + |Write(b, revision)|
  {
    hide Holds, InfoBytes, Leb, WellFormedColumns, ColumnsBytes, RowCount;
    var n, rows := Leb(|b.columns|), Leb(RowCount(b));
    var body := ColumnsBytes(b.columns, RowCount(b), revision);
    var p := pos + |InfoBytes(b.info)|;
    var q := p + |n|;
    HoldsSplit(d, pos, InfoBytes(b.info), n + (rows + body));
    HoldsSplit(d, p, n, rows + body);
    HoldsSplit(d, q, rows, body);
    HoldsFits(d, q + |rows|, body);
  }

  /** Loading a written block reads exactly the bytes of the block, at any position and
      with anything behind them. */
  lemma BlockAt(b: Block, revision: nat, d: Bytes, pos: nat)
    requires WellFormedBlock(b) && RecoverableColumns(b.columns)
    requires Holds(d, pos, Write(b, revision))
    ensures RawLoad(d, pos, revision) == Ok(ReloadBlock(b), pos + |Write(b, revision)|)
  {
    hide ReadInfo, ReadUvarint, ReadColumns, Holds, InfoBytes, Leb, ReloadColumns, Write, ColumnsBytes;
    hide WellFormedColumn, RecoverableColumns, Name;
    var n, rows := |b.columns|, RowCount(b);
    var p := pos + |InfoBytes(b.info)|;
    var q := p + |Leb(n)|;
    BlockParts(b, revision, d, pos);
    InfoAt(b.info, d, pos);
    UvarintRoundTrip(n, d, p);
    UvarintRoundTrip(rows, d, q);
    ColumnsAt(b.columns, [], rows, revision, d, q + |Leb(rows)|);
    assert [] + ReloadColumns(b.columns, rows) == ReloadColumns(b.columns, rows);
  }

  /** A block of whole columns comes back with its names, its types and its rows. */
  lemma BlockRoundTrip(b: Block, revision: nat, d: Bytes, pos: nat)
    requires WellFormedBlock(b) && Holds(d, pos, Write(b, revision))
    requires RecoverableColumns(b.columns)
    requires forall i :: 0 <= i < |b.columns| ==> !b.columns[i].data.ChunkCol?
    ensures var r := RawLoad(d, pos, revision);
      r.Ok? && r.pos == pos + |Write(b, revision)| && r.value.info == b.info
      && |r.value.columns| == |b.columns|
      && forall i :: 0 <= i < |b.columns| ==>
           var c, c2 := b.columns[i], r.value.columns[i];
           c2.name == c.name && TypeOf(c2.data) == TypeOf(c.data)
           && WellFormed(c2.data) && Rows(c2.data) == Rows(c.data)
  {
    hide RawLoad, Holds, Write;
    BlockAt(b, revision, d, pos);
    forall i | 0 <= i < |b.columns|
      ensures var c := b.columns[i];
        WellFormed(Reload(c.data, 0, Len(c.data))) && TypeOf(Reload(c.data, 0, Len(c.data))) == TypeOf(c.data)
        && Rows(Reload(c.data, 0, Len(c.data))) == Rows(c.data)
    {
      var c := b.columns[i].data;
      ReloadType(c, 0, Len(c));
      ExactFromZero(c, Len(c));
      RowsReloaded(c, 0, Len(c));
    }
  }

  // ----- only blocks of such types come back -----

  lemma OtherTypeName(c: NamedColumn, rows: nat, revision: nat, d: Bytes, pos: nat)
    requires WellFormedColumn(c, rows) && Holds(d, pos, ColumnBytes(c, revision))
    requires ReadColumn(d, pos, rows, revision).Ok?
    requires TypeOf(ReadColumn(d, pos, rows, revision).value.data) == TypeOf(c.data)
    ensures Recoverable(TypeOf(c.data))
  {
    hide Holds, ReadString, ReadMarker, Load, Marker, Blob, TypeBytes, Name, Save, WellFormed, ColumnBytes;
    hide Decode, ValidUtf8, ParseType, Recoverable;
    var tb, m := TypeBytes(c.data), Marker(revision);
    var p := pos + |Blob(c.name)|;
    var q := p + |Blob(tb)|;
    ColumnParts(c, revision, d, pos);
    StringAt(d, pos, c.name);
    TypeNameAt(c.data, d, p);
    MarkerAt(d, q, revision);
    LoadedType(Name(TypeOf(c.data)), rows, d, q + |m|);
    NameRecovers(TypeOf(c.data));
  }

  lemma {:induction false} ColumnsAppend(d: Bytes, pos: nat, count: nat, size: nat, revision: nat,
        done: seq<NamedColumn>)
    requires pos <= |d| && ReadColumns(d, pos, count, size, revision, done).Ok?
    ensures var r := ReadColumns(d, pos, count, size, revision, done).value;
      done <= r && |r| == |done| + count
    decreases count
  {
    hide ReadColumn, Fits;
    if count > 0 {
      var more := AddColumn(d, pos, size, revision, done);
      ColumnsAppend(d, more.pos, count - 1, size, revision, more.value);
    }
  }

  predicate SameTypes(cs: seq<NamedColumn>, loaded: seq<NamedColumn>) {
    |cs| == |loaded| && forall i :: 0 <= i < |cs| ==> TypeOf(loaded[i].data) == TypeOf(cs[i].data)
  }

  lemma {:induction false} ColumnsOnlyIf(cs: seq<NamedColumn>, done: seq<NamedColumn>, rows: nat, revision: nat,
        d: Bytes, pos: nat)
    requires WellFormedColumns(cs, rows) && Holds(d, pos, ColumnsBytes(cs, rows, revision)) && pos <= |d|
    requires |done| > 0 ==> Len(done[0].data) == rows
    requires ReadColumns(d, pos, |cs|, rows, revision, done).Ok?
    requires |done| <= |ReadColumns(d, pos, |cs|, rows, revision, done).value|
    requires SameTypes(cs, ReadColumns(d, pos, |cs|, rows, revision, done).value[|done|..])
    ensures RecoverableColumns(cs)
    decreases |cs|
  {
    hide Holds, ColumnBytes, ReloadColumn, Name, WellFormed, Len, TypeOf, ColumnsBytes, ReadColumn;
    hide Recoverable, HasLen, Reload;
    if |cs| > 0 {
      var c, rest := cs[0], cs[1..];
      var loaded := ReadColumns(d, pos, |cs|, rows, revision, done).value;
      var more := AddColumn(d, pos, rows, revision, done);
      ColumnsSplit(cs, rows, revision, d, pos);
      ColumnsAppend(d, more.pos, |rest|, rows, revision, more.value);
      assert more.value[|done|] == loaded[|done|];
      OtherTypeName(c, rows, revision, d, pos);
      ColumnReloads(c, rows);
      AddAt(c, done, rows, revision, d, pos);
      assert loaded[|done| + 1..] == loaded[|done|..][1..];
      ColumnsOnlyIf(rest, more.value, rows, revision, d, more.pos);
      assert cs == [c] + rest;
    }
  }

  /** A written block comes back with the types it had exactly when the printed name of
      each of them stands for it. */
  lemma BlockTypesReturn(b: Block, revision: nat, d: Bytes, pos: nat)
    requires WellFormedBlock(b) && Holds(d, pos, Write(b, revision)) && pos <= |d|
    ensures var r := RawLoad(d, pos, revision);
      (r.Ok? && SameTypes(b.columns, r.value.columns)) <==> RecoverableColumns(b.columns)
  {
    hide RawLoad, Holds, Write, WellFormed, ReadColumns, TypeOf, Len, Name, Recoverable;
    var r := RawLoad(d, pos, revision);
    if RecoverableColumns(b.columns) {
      BlockAt(b, revision, d, pos);
      forall i | 0 <= i < |b.columns|
        ensures TypeOf(r.value.columns[i].data) == TypeOf(b.columns[i].data)
      {
        assert WellFormedColumn(b.columns[i], RowCount(b));
        ReloadType(b.columns[i].data, 0, RowCount(b));
      }
    } else if r.Ok? && SameTypes(b.columns, r.value.columns) {
      TypesOnlyIf(b, revision, d, pos);
    }
  }

  lemma TypesOnlyIf(b: Block, revision: nat, d: Bytes, pos: nat)
    requires WellFormedBlock(b) && Holds(d, pos, Write(b, revision)) && pos <= |d|
    requires var r := RawLoad(d, pos, revision); r.Ok? && SameTypes(b.columns, r.value.columns)
    ensures RecoverableColumns(b.columns)
  {
    hide ReadInfo, ReadUvarint, ReadColumns, Holds, InfoBytes, Leb, Write, ColumnsBytes, WellFormedColumn;
    hide RecoverableColumns, Name;
    var n, rows := |b.columns|, RowCount(b);
    var p := pos + |InfoBytes(b.info)|;
    var q := p + |Leb(n)|;
    BlockParts(b, revision, d, pos);
    InfoAt(b.info, d, pos);
    UvarintRoundTrip(n, d, p);
    UvarintRoundTrip(rows, d, q);
    var loaded := RawLoad(d, pos, revision).value.columns;
    assert loaded[0..] == loaded;
    ColumnsOnlyIf(b.columns, [], rows, revision, d, q + |Leb(rows)|);
  }
}
