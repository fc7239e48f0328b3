/** The loops that save and load columns and blocks, over an encoder and a reader. */
module ColumnIo {
  import opened Bytes
  import opened Parsed
  import opened Uvarint
  import opened ReadEx
  import opened SqlTypes
  import opened Factory
  import opened Columns
  import opened ColumnCodec
  import opened BlockCodec
  import StringPool

  // ----- saving -----

  lemma {:induction false} BlobsAppend(a: seq<Bytes>, s: Bytes)
    ensures Blobs(a + [s]) == Blobs(a) + Blob(s)
  {
    hide Blob;
    if |a| == 0 {
      assert a + [s] == [s] && [s][1..] == [];
      assert Blobs([]) == [];
    } else {
      assert (a + [s])[1..] == a[1..] + [s];
      BlobsAppend(a[1..], s);
    }
  }

  method SaveStrings(items: seq<Bytes>, s: nat, e: nat, enc: Encoder)
    requires s <= e <= |items| && forall i :: 0 <= i < |items| ==> |items[i]| < U64_LIMIT
    modifies enc
    ensures enc.buffer == old(enc.buffer) + Blobs(items[s..e])
  {
    hide Blobs, Blob;
    assert items[s..s] == [];
    BlobsEmpty();
    for i := s to e
      invariant enc.buffer == old(enc.buffer) + Blobs(items[s..i])
    {
      enc.ByteString(items[i]);
      assert items[s..i + 1] == items[s..i] + [items[i]];
      BlobsAppend(items[s..i], items[i]);
    }
  }

  lemma BlobsEmpty()
    ensures Blobs([]) == []
  {
  }

  lemma PackWordsOne(width: nat, w: nat)
    ensures PackWords(width, [w]) == ToLE(width, w)
  {
    assert [w][1..] == [];
    assert PackWords(width, []) == [];
  }

  /** Writes the offsets and leaves the last one, up to which the inner rows are saved. */
  method SaveOffsets(offs: seq<nat>, s: nat, e: nat, enc: Encoder) returns (offset: nat)
    requires s <= e <= |offs|
    modifies enc
    ensures enc.buffer == old(enc.buffer) + PackWords(8, offs[s..e]) && offset == Total(offs[s..e])
  {
    hide ToLE, PackWords;
    offset := 0;
    assert offs[s..s] == [] && PackWords(8, []) == [];
    for i := s to e
      invariant enc.buffer == old(enc.buffer) + PackWords(8, offs[s..i])
      invariant offset == Total(offs[s..i])
    {
      offset := offs[i];
      enc.Word(8, offset);
      assert offs[s..i + 1] == offs[s..i] + [offset];
      PackWordsAppend(8, offs[s..i], [offset]);
      PackWordsOne(8, offset);
    }
  }

  lemma InnerFits(c: Column, s: nat, e: nat)
    requires WellFormed(c) && s <= e <= Len(c)
    ensures c.ArrayCol? ==> Total(c.offsets[s..e]) <= Len(c.inner)
    ensures c.MapCol? ==> Total(c.offsets[s..e]) <= Len(c.keys) == Len(c.values)
  {
  }

  /** `save(start, end)` appends the bytes of the rows in that range. */
  method SaveColumn(c: Column, s: nat, e: nat, enc: Encoder)
    requires WellFormed(c) && s <= e <= Len(c)
    modifies enc
    ensures enc.buffer == old(enc.buffer) + Save(c, s, e)
    decreases c, 1
  {
    hide ToLE, PackWords, Blobs, Flags, Pow256;
    match c
    case Cells(_, cells) => enc.WriteBytes(Flatten(cells[s..e]));
    case Strings(items) => SaveStrings(items, s, e, enc);
    case NullableCol(nulls, i) =>
      enc.WriteBytes(nulls[s..e]);
      SaveColumn(i, s, e, enc);
    case ArrayCol(_, _) => SaveArray(c, s, e, enc);
    case MapCol(_, _, _) => SaveMap(c, s, e, enc);
    case LowCardinalityCol(_, _, _) => SaveLowCardinality(c, s, e, enc);
    case DecimalCol(_, _, _, i) => SaveColumn(i, s, e, enc);
    case ChunkCol(d, lo, hi) => SaveColumn(d, lo + s, Min(hi, lo + e), enc);
  }

  method SaveArray(c: Column, s: nat, e: nat, enc: Encoder)
    requires WellFormed(c) && s <= e <= Len(c) && c.ArrayCol?
    modifies enc
    ensures enc.buffer == old(enc.buffer) + Save(c, s, e)
    decreases c, 0
  {
    hide PackWords, Pow256;
    InnerFits(c, s, e);
    var n := SaveOffsets(c.offsets, s, e, enc);
    SaveColumn(c.inner, 0, n, enc);
  }

  method SaveMap(c: Column, s: nat, e: nat, enc: Encoder)
    requires WellFormed(c) && s <= e <= Len(c) && c.MapCol?
    modifies enc
    ensures enc.buffer == old(enc.buffer) + Save(c, s, e)
    decreases c, 0
  {
    hide PackWords, Pow256;
    InnerFits(c, s, e);
    var n := SaveOffsets(c.offsets, s, e, enc);
    SaveColumn(c.keys, 0, n, enc);
    SaveColumn(c.values, 0, n, enc);
  }

  method SaveLowCardinality(c: Column, s: nat, e: nat, enc: Encoder)
    requires WellFormed(c) && s <= e <= Len(c) && c.LowCardinalityCol?
    modifies enc
    ensures enc.buffer == old(enc.buffer) + Save(c, s, e)
    decreases c, 0
  {
    hide ToLE, PackWords, Flags, Pow256;
    var ix, d := c.index, c.dict;
    if s == e {
      return;
    }
    enc.Word(8, LOW_CARDINALITY_VERSION);
    enc.Word(8, Flags(ix));
    enc.Word(8, Len(d));
    SaveColumn(d, 0, Len(d), enc);
    enc.Word(8, e - s);
    enc.WriteBytes(PackWords(IndexWidth(ix), c.codes[s..e]));
  }

  // ----- loading -----

  /** A list already read, with the rest of it in front of what follows. */
  function Prepend<T>(done: seq<T>, r: Parsed<seq<T>>): Parsed<seq<T>> {
    match r
    case Ok(rest, p) => Ok(done + rest, p)
    case WouldBlock => WouldBlock
    case Err(e, p) => Err(e, p)
  }

  lemma PrependNothing<T>(r: Parsed<seq<T>>)
    ensures Prepend([], r) == r
  {
    if r.Ok? { assert [] + r.value == r.value; }
  }

  lemma PrependStep(items: seq<Bytes>, d: Bytes, pos: nat, n: nat)
    requires pos <= |d| && n > 0
    ensures Prepend(items, ReadBlobs(d, pos, n)) ==
      match ReadBlob(d, pos)
      case Ok(s, p) => Prepend(items + [s], ReadBlobs(d, p, n - 1))
      case WouldBlock => WouldBlock
      case Err(e, p) => Err(e, p)
  {
    hide ReadBlob;
    var r, head := ReadBlobs(d, pos, n), ReadBlob(d, pos);
    if r.Ok? {
      var rest := ReadBlobs(d, head.pos, n - 1).value;
      assert items + ([head.value] + rest) == items + [head.value] + rest;
    }
  }

  lemma PrependEnd(items: seq<Bytes>, d: Bytes, pos: nat)
    requires pos <= |d|
    ensures Prepend(items, ReadBlobs(d, pos, 0)) == Ok(items, pos)
  {
    assert items + [] == items;
  }

  /** Reads string after string into a pool; the strings of the column are those of the pool. */
  method LoadStrings(size: nat, reader: Reader) returns (r: Parsed<seq<Bytes>>)
    requires reader.Valid()
    modifies reader`pos
    ensures r == ReadBlobs(reader.data, old(reader.pos), size) && reader.After(r)
  {
    hide ReadBlob, ReadBlobs, Prepend;
    var pool := new StringPool.Pool(size);
    ghost var start := reader.pos;
    PrependNothing(ReadBlobs(reader.data, start, size));
    for i := 0 to size
      invariant reader.Valid() && pool.Valid() && fresh(pool.Repr())
      invariant Prepend(pool.Contents(), ReadBlobs(reader.data, reader.pos, size - i))
             == ReadBlobs(reader.data, start, size)
    {
      PrependStep(pool.Contents(), reader.data, reader.pos, size - i);
      var read :- StringPool.ReadStrIntoBuffer(reader, pool);
    }
    PrependEnd(pool.Contents(), reader.data, reader.pos);
    var items := Listed(pool);
    return Ok(items, reader.pos);
  }

  method Listed(pool: StringPool.Pool) returns (items: seq<Bytes>)
    requires pool.Valid()
    ensures items == pool.Contents()
  {
    items := [];
    for i := 0 to |pool.pointers|
      invariant items == pool.Contents()[..i]
    {
      items := items + [pool.Get(i)];
    }
  }

  lemma {:induction false} ChopAppend(w: nat, n: nat, bs: Bytes, cell: Bytes)
    requires |bs| == w * n && |cell| == w
    ensures |bs + cell| == w * (n + 1)
    ensures Chop(w, n + 1, bs + cell) == Chop(w, n, bs) + [cell]
    decreases n
  {
    MulStep(w, n + 1);
    if n == 0 {
      assert bs + cell == cell && cell[w..] == [] && cell[..w] == cell;
      ChopOne(w, cell);
    } else {
      MulStep(w, n);
      assert (bs + cell)[..w] == bs[..w] && (bs + cell)[w..] == bs[w..] + cell;
      ChopAppend(w, n - 1, bs[w..], cell);
    }
  }

  lemma ChopOne(w: nat, cell: Bytes)
    requires |cell| == w
    ensures w * 1 == w && w * 0 == 0 && Chop(w, 1, cell) == [cell] && Chop(w, 0, []) == []
  {
    assert cell[..w] == cell && cell[w..] == [];
    assert Chop(w, 0, cell[w..]) == [];
  }

  /** Cell by cell, as `FixedString` columns are read. */
  method LoadFixedStrings(w: nat, size: nat, reader: Reader) returns (r: Parsed<seq<Bytes>>)
    requires reader.Valid()
    modifies reader`pos
    ensures r == ReadCells(reader.data, old(reader.pos), w, size) && reader.After(r)
  {
    ghost var start := reader.pos;
    var cells := [];
    assert w * 0 == 0;
    for i := 0 to size
      invariant reader.Valid() && reader.pos == start + w * i
      invariant |reader.data[start..reader.pos]| == w * i
      invariant cells == Chop(w, i, reader.data[start..reader.pos])
    {
      ghost var before := reader.data[start..reader.pos];
      MulStep(w, i + 1);
      MulMono(w, i + 1, size);
      var cell :- reader.TakeBytes(w);
      assert reader.data[start..reader.pos] == before + cell.0;
      ChopAppend(w, i, before, cell.0);
      cells := cells + [cell.0];
    }
    return Ok(cells, reader.pos);
  }

  lemma MulMono(w: nat, a: nat, b: nat)
    requires a <= b
    ensures w * a <= w * b
  {
  }

  method LoadWords(w: nat, size: nat, reader: Reader) returns (r: Parsed<seq<nat>>)
    requires reader.Valid()
    modifies reader`pos
    ensures r == ReadWords(reader.data, old(reader.pos), w, size) && reader.After(r)
  {
    var bs :- reader.TakeBytes(w * size);
    return Ok(UnpackWords(w, size, bs.0), reader.pos);
  }

  method LoadIndexHeader(reader: Reader) returns (r: Parsed<(IndexType, nat)>)
    requires reader.Valid()
    modifies reader`pos
    ensures r == ReadIndexHeader(reader.data, old(reader.pos)) && reader.After(r)
  {
    hide ReadWord;
    var version :- reader.TakeWord(8);
    if version.0 != LOW_CARDINALITY_VERSION {
      return Err(Deserialize, reader.pos);
    }
    var flags :- reader.TakeWord(8);
    var ix := IndexTypeOf(flags.0 % 0x100);
    if ix.None? || flags.0 / 0x100 % 2 != 0 || flags.0 / 0x200 % 2 == 0 {
      return Err(Deserialize, reader.pos);
    }
    return Ok((ix.value, flags.0), reader.pos);
  }

  method LoadLowCardinality(inner: string, reader: Reader) returns (r: Parsed<Column>)
    requires reader.Valid()
    modifies reader`pos
    ensures r == LoadIndexed(inner, reader.data, old(reader.pos)) && reader.After(r)
    decreases |inner|, 1
  {
    hide ReadWord, ReadWords, ReadIndexHeader, Flags, Load;
    var head :- LoadIndexHeader(reader);
    var n :- reader.TakeWord(8);
    var dict :- LoadColumn(inner, n.0, reader);
    var k :- reader.TakeWord(8);
    var codes :- LoadWords(IndexWidth(head.0.0), k.0, reader);
    if head.0.1 != Flags(head.0.0) {
      return Err(Panicked, reader.pos);
    }
    return Ok(LowCardinalityCol(head.0.0, codes.0, dict.0), reader.pos);
  }

  /** `load_data` with the loaders of all column kinds. */
  method LoadColumn(name: string, size: nat, reader: Reader) returns (r: Parsed<Column>)
    requires reader.Valid()
    modifies reader`pos
    ensures r == Load(name, size, reader.data, old(reader.pos)) && reader.After(r)
    decreases |name|, 0
  {
    hide Dispatch, ReadWords, ReadBlobs, LoadIndexed;
    match Dispatch(name)
    case PlainOf(t) =>
      if t.Text? {
        var items :- LoadStrings(size, reader);
        return Ok(Strings(items.0), reader.pos);
      }
      var bs :- reader.TakeBytes(CellWidth(t) * size);
      return Ok(Cells(t, Chop(CellWidth(t), size, bs.0)), reader.pos);
    case FixedStringOf(n) =>
      var cells :- LoadFixedStrings(n, size, reader);
      return Ok(Cells(FixedString(n), cells.0), reader.pos);
    case NullableOf(inner) =>
      var nulls :- reader.TakeBytes(size);
      var col :- LoadColumn(inner, size, reader);
      return Ok(NullableCol(nulls.0, col.0), reader.pos);
    case ArrayOf(inner) =>
      var offs :- LoadWords(8, size, reader);
      var col :- LoadColumn(inner, Total(offs.0), reader);
      return Ok(ArrayCol(offs.0, col.0), reader.pos);
    case MapOf(key, value) =>
      var offs :- LoadWords(8, size, reader);
      var ks :- LoadColumn(key, Total(offs.0), reader);
      var vs :- LoadColumn(value, Total(offs.0), reader);
      return Ok(MapCol(offs.0, ks.0, vs.0), reader.pos);
    case DecimalOf(precision, scale, bits) =>
      IntegerNameIsShort(bits);
      var col :- LoadColumn(IntegerName(bits), size, reader);
      return Ok(DecimalCol(precision, scale, bits, col.0), reader.pos);
    case LowCardinalityOf(inner) =>
      if size == 0 {
        var dict :- LoadColumn(inner, 0, reader);
        return Ok(LowCardinalityCol(IxUInt8, [], dict.0), reader.pos);
      }
      r := LoadLowCardinality(inner, reader);
    case Unsupported => return Err(UnsupportedType, reader.pos);
    case Panics => return Err(Panicked, reader.pos);
  }

  // ----- blocks -----

  method LoadInfo(reader: Reader) returns (r: Parsed<BlockInfo>)
    requires reader.Valid()
    modifies reader`pos
    ensures r == ReadInfo(reader.data, old(reader.pos), DEFAULT_INFO) && reader.After(r)
  {
    hide ReadUvarint, ReadWord, FromWord32;
    var info := DEFAULT_INFO;
    while true
      invariant reader.Valid()
      invariant ReadInfo(reader.data, reader.pos, info) == ReadInfo(reader.data, old(reader.pos), DEFAULT_INFO)
      decreases |reader.data| - reader.pos
    {
      ghost var here := reader.pos;
      var tag :- reader.TakeUvarint();
      UvarintAdvances(reader.data, here);
      if tag.0 == 1 {
        var b :- reader.TakeWord(1);
        info := info.(isOverflows := b.0 != 0);
      } else if tag.0 == 2 {
        var w :- reader.TakeWord(4);
        info := info.(bucketNum := FromWord32(w.0));
      } else if tag.0 == 0 {
        return Ok(info, reader.pos);
      } else {
        return Err(UnknownPacket(tag.0), reader.pos);
      }
    }
  }

  lemma UvarintAdvances(d: Bytes, pos: nat)
    requires pos <= |d| && ReadUvarint(d, pos).Ok?
    ensures pos < ReadUvarint(d, pos).pos <= |d|
  {
  }

  method LoadNamedColumn(size: nat, revision: nat, reader: Reader) returns (r: Parsed<NamedColumn>)
    requires reader.Valid()
    modifies reader`pos
    ensures r == ReadColumn(reader.data, old(reader.pos), size, revision) && reader.After(r)
  {
    hide ReadString, ReadWord, Load;
    var name :- reader.TakeString();
    var typeName :- reader.TakeString();
    if revision >= MIN_REVISION_WITH_CUSTOM_SERIALIZATION {
      var marker :- reader.TakeWord(1);
      if marker.0 != 0 {
        return Err(UnsupportedCustomSerialization, reader.pos);
      }
    }
    var col :- LoadColumn(Decode(typeName.0), size, reader);
    return Ok(NamedColumn(name.0, col.0), reader.pos);
  }

  /** `raw_load`: block info, both counts, then the columns, each of which has to fit. */
  method LoadBlock(revision: nat, reader: Reader) returns (r: Parsed<Block>)
    requires reader.Valid()
    modifies reader`pos
    ensures r == RawLoad(reader.data, old(reader.pos), revision) && reader.After(r)
  {
    hide ReadInfo, ReadUvarint, ReadColumn, Fits;
    var info :- LoadInfo(reader);
    var numColumns :- reader.TakeUvarint();
    var numRows :- reader.TakeUvarint();
    var columns := [];
    ghost var start := reader.pos;
    for i := 0 to numColumns.0
      invariant reader.Valid()
      invariant ReadColumns(reader.data, reader.pos, numColumns.0 - i, numRows.0, revision, columns)
             == ReadColumns(reader.data, start, numColumns.0, numRows.0, revision, [])
    {
      var c :- LoadNamedColumn(numRows.0, revision, reader);
      if !Fits(columns, c.0.data) {
        return Err(Panicked, reader.pos);
      }
      columns := columns + [c.0];
    }
    return Ok(Block(info.0, columns), reader.pos);
  }

  method WriteInfo(info: BlockInfo, enc: Encoder)
    modifies enc
    ensures enc.buffer == old(enc.buffer) + InfoBytes(info)
  {
    hide ToLE, Leb, ToWord32;
    enc.Uvarint(1);
    enc.Word(1, if info.isOverflows then 1 else 0);
    enc.Uvarint(2);
    enc.Word(4, ToWord32(info.bucketNum));
    enc.Uvarint(0);
  }

  method WriteColumn(c: NamedColumn, rows: nat, revision: nat, enc: Encoder)
    requires WellFormedColumn(c, rows)
    modifies enc
    ensures enc.buffer == old(enc.buffer) + ColumnBytes(c, revision)
  {
    hide Blob, TypeBytes, Save, WellFormed, Name, Marker;
    enc.ByteString(c.name);
    enc.ByteString(TypeBytes(c.data));
    enc.WriteBytes(Marker(revision));
    SaveColumn(c.data, 0, Len(c.data), enc);
  }

  /** The uncompressed branch of `write`. */
  method WriteBlock(b: Block, revision: nat, enc: Encoder)
    requires WellFormedBlock(b)
    modifies enc
    ensures enc.buffer == old(enc.buffer) + Write(b, revision)
  {
    hide InfoBytes, Leb, ColumnBytes, WellFormed, Name;
    var rows := RowCount(b);
    WriteInfo(b.info, enc);
    enc.Uvarint(|b.columns|);
    enc.Uvarint(rows);
    ghost var header := enc.buffer;
    assert b.columns[0..] == b.columns;
    for i := 0 to |b.columns|
      invariant enc.buffer + ColumnsBytes(b.columns[i..], rows, revision)
             == header + ColumnsBytes(b.columns, rows, revision)
    {
      ghost var before := enc.buffer;
      ghost var rest := b.columns[i..];
      WriteColumn(b.columns[i], rows, revision, enc);
      assert rest[0] == b.columns[i] && rest[1..] == b.columns[i + 1..];
      assert before + ColumnsBytes(rest, rows, revision)
          == before + ColumnBytes(rest[0], revision) + ColumnsBytes(rest[1..], rows, revision);
    }
    assert ColumnsBytes(b.columns[|b.columns|..], rows, revision) == [];
    assert enc.buffer + [] == enc.buffer;
    assert header == old(enc.buffer) + (InfoBytes(b.info) + (Leb(|b.columns|) + Leb(rows)));
  }

  /** Written by the loops of one side and loaded by those of the other, a block comes back
      and the bytes behind it stay. */
  method WriteAndLoad(b: Block, revision: nat, behind: Bytes) returns (r: Parsed<Block>)
    requires WellFormedBlock(b) && RecoverableColumns(b.columns)
    ensures r == Ok(ReloadBlock(b), |Write(b, revision)|)
  {
    hide *;
    var enc := new Encoder();
    WriteBlock(b, revision, enc);
    assert enc.buffer == Write(b, revision);
    var reader := new Reader(enc.buffer + behind);
    InFront(Write(b, revision), behind);
    BlockAt(b, revision, reader.data, 0);
    StartValid(reader);
    r := LoadBlock(revision, reader);
  }

  lemma InFront(a: Bytes, behind: Bytes)
    ensures Holds(a + behind, 0, a)
  {
  }

  lemma StartValid(reader: Reader)
    requires reader.pos == 0
    ensures reader.Valid()
  {
  }
}
