/** The bytes on the wire, written out. */
module Layouts {
  import opened Bytes
  import opened Parsed
  import opened Uvarint
  import opened ReadEx
  import opened SqlTypes
  import opened Factory
  import opened Columns
  import opened ColumnCodec
  import opened BlockCodec
  import opened Chunks
  import opened Scalars

  // ----- words -----

  function Le1(n: nat): Bytes { [n % 0x100] }

  function Le2(n: nat): Bytes { [n % 0x100, n / 0x100 % 0x100] }

  function Le4(n: nat): Bytes {
    [n % 0x100, n / 0x100 % 0x100, n / 0x1_0000 % 0x100, n / 0x100_0000 % 0x100]
  }

  function Le8(n: nat): Bytes {
    [n % 0x100, n / 0x100 % 0x100, n / 0x1_0000 % 0x100, n / 0x100_0000 % 0x100,
     n / 0x1_0000_0000 % 0x100, n / 0x100_0000_0000 % 0x100, n / 0x1_0000_0000_0000 % 0x100,
     n / 0x100_0000_0000_0000 % 0x100]
  }

  lemma WordBytes(n: nat)
    ensures ToLE(1, n) == Le1(n) && ToLE(2, n) == Le2(n) && ToLE(4, n) == Le4(n) && ToLE(8, n) == Le8(n)
  {
    Powers();
    forall w: nat, i: nat | i < w ensures ToLE(w, n)[i] == n / Pow256(i) % 256 { LittleEndian(w, n, i); }
    hide ToLE, Pow256;
    assert n / 1 == n;
  }

  lemma Powers()
    ensures Pow256(0) == 1 && Pow256(1) == 0x100 && Pow256(2) == 0x1_0000 && Pow256(3) == 0x100_0000
    ensures Pow256(4) == 0x1_0000_0000 && Pow256(5) == 0x100_0000_0000 && Pow256(6) == 0x1_0000_0000_0000
    ensures Pow256(7) == 0x100_0000_0000_0000
  {
    assert Pow256(4) == 256 * (256 * (256 * (256 * Pow256(0))));
    assert Pow256(7) == 256 * (256 * (256 * Pow256(4)));
  }

  /** Offsets are words of eight bytes. */
  function Offsets(ws: seq<nat>): Bytes {
    if |ws| == 0 then [] else Le8(ws[0]) + Offsets(ws[1..])
  }

  lemma {:induction false} OffsetWords(ws: seq<nat>)
    ensures PackWords(8, ws) == Offsets(ws)
  {
    hide ToLE, Le8;
    if |ws| > 0 {
      WordBytes(ws[0]);
      OffsetWords(ws[1..]);
    }
  }

  /** Codes are words of one, two, four or eight bytes. */
  function Codes(ix: IndexType, ws: seq<nat>): Bytes {
    if |ws| == 0 then []
    else
      (match ix
       case IxUInt8 => Le1(ws[0])
       case IxUInt16 => Le2(ws[0])
       case IxUInt32 => Le4(ws[0])
       case IxUInt64 => Le8(ws[0]))
      + Codes(ix, ws[1..])
  }

  lemma {:induction false} CodeWords(ix: IndexType, ws: seq<nat>)
    ensures PackWords(IndexWidth(ix), ws) == Codes(ix, ws)
  {
    hide ToLE, Le1, Le2, Le4, Le8;
    if |ws| > 0 {
      WordBytes(ws[0]);
      CodeWords(ix, ws[1..]);
    }
  }

  // ----- columns -----

  /** A nullable column is one byte a row, and the inner column. */
  lemma NullableLayout(nulls: Bytes, inner: Column, s: nat, e: nat)
    requires WellFormed(NullableCol(nulls, inner)) && s <= e <= |nulls|
    ensures Save(NullableCol(nulls, inner), s, e) == nulls[s..e] + Save(inner, s, e)
  {
  }

  /** The rows of an array stand behind their offsets, from the first inner row on. */
  lemma ArrayLayout(offs: seq<nat>, inner: Column, s: nat, e: nat)
    requires WellFormed(ArrayCol(offs, inner)) && s <= e <= |offs|
    ensures Save(ArrayCol(offs, inner), s, e)
         == Offsets(offs[s..e]) + Save(inner, 0, if s < e then offs[e - 1] else 0)
  {
    OffsetWords(offs[s..e]);
  }

  lemma MapLayout(offs: seq<nat>, keys: Column, values: Column, s: nat, e: nat)
    requires WellFormed(MapCol(offs, keys, values)) && s <= e <= |offs|
    ensures var n := if s < e then offs[e - 1] else 0;
      Save(MapCol(offs, keys, values), s, e) == Offsets(offs[s..e]) + (Save(keys, 0, n) + Save(values, 0, n))
  {
    OffsetWords(offs[s..e]);
  }

  /** The version, and the flags with the width of the codes. */
  function Header(ix: IndexType): Bytes {
    [1, 0, 0, 0, 0, 0, 0, 0]
    + [match ix case IxUInt8 => 0 case IxUInt16 => 1 case IxUInt32 => 2 case IxUInt64 => 3, 6, 0, 0, 0, 0, 0, 0]
  }

  lemma HeaderWords(ix: IndexType)
    ensures ToLE(8, LOW_CARDINALITY_VERSION) + ToLE(8, Flags(ix)) == Header(ix)
  {
    WordBytes(LOW_CARDINALITY_VERSION);
    WordBytes(Flags(ix));
    hide ToLE;
  }

  /** The header of a low-cardinality column is accepted if and only if the version is 1, the
      width is one of four, no global dictionary is needed and there are additional keys. */
  lemma HeaderAccepted(version: nat, flags: nat, d: Bytes, pos: nat)
    requires version < U64_LIMIT && flags < U64_LIMIT && Holds(d, pos, Le8(version) + Le8(flags))
    ensures var r, good := ReadIndexHeader(d, pos),
                version == 1 && flags % 0x100 < 4 && flags / 0x100 % 2 == 0 && flags / 0x200 % 2 == 1;
      (good ==> r.Ok? && r.pos == pos + 16 && r.value.1 == flags
                && IndexWidth(r.value.0) == [1, 2, 4, 8][flags % 0x100])
      && (!good ==> r.Err? && r.error == Deserialize)
  {
    WordBytes(version);
    WordBytes(flags);
    hide Le8, ToLE, ReadWord, Holds;
    HoldsSplit(d, pos, Le8(version), Le8(flags));
    HoldsFits(d, pos + 8, Le8(flags));
    Pow256Of8();
    WordAt(d, pos, 8, version);
    WordAt(d, pos + 8, 8, flags);
  }

  /** The header, the size of the dictionary, the whole dictionary, the number of codes and the
      codes; nothing for no rows. */
  lemma LowCardinalityLayout(ix: IndexType, codes: seq<nat>, dict: Column, s: nat, e: nat)
    requires WellFormed(LowCardinalityCol(ix, codes, dict)) && s <= e <= |codes|
    ensures Save(LowCardinalityCol(ix, codes, dict), s, e) ==
      if s == e then []
      else Header(ix) + (Le8(Len(dict)) + (Save(dict, 0, Len(dict)) + (Le8(e - s) + Codes(ix, codes[s..e]))))
  {
    hide *;
    SavedParts(ix, codes, dict, s, e);
    if s < e {
      HeaderWords(ix);
      Associate(ToLE(8, LOW_CARDINALITY_VERSION), ToLE(8, Flags(ix)),
                ToLE(8, Len(dict)) + (Save(dict, 0, Len(dict))
                + (ToLE(8, e - s) + PackWords(IndexWidth(ix), codes[s..e]))));
      WordBytes(Len(dict));
      WordBytes(e - s);
      CodeWords(ix, codes[s..e]);
    }
  }

  lemma SavedParts(ix: IndexType, codes: seq<nat>, dict: Column, s: nat, e: nat)
    requires WellFormed(LowCardinalityCol(ix, codes, dict)) && s <= e <= |codes|
    ensures WellFormed(dict) && Len(LowCardinalityCol(ix, codes, dict)) == |codes|
    ensures Save(LowCardinalityCol(ix, codes, dict), s, e) ==
      if s == e then []
      else
        ToLE(8, LOW_CARDINALITY_VERSION) + (ToLE(8, Flags(ix)) + (ToLE(8, Len(dict)) + (Save(dict, 0, Len(dict))
        + (ToLE(8, e - s) + PackWords(IndexWidth(ix), codes[s..e])))))
  {
    hide ToLE, PackWords, Flags;
  }

  lemma Associate(a: Bytes, b: Bytes, c: Bytes)
    ensures a + (b + c) == a + b + c
  {
  }

  // ----- blocks -----

  /** The block info is two numbered fields and an end mark. */
  lemma InfoLayout(info: BlockInfo)
    ensures InfoBytes(info)
         == [1] + ([if info.isOverflows then 1 else 0] + ([2] + (Le4(info.bucketNum % 0x1_0000_0000) + [0])))
  {
    WordBytes(if info.isOverflows then 1 else 0);
    WordBytes(ToWord32(info.bucketNum));
    SmallLeb(0);
    SmallLeb(1);
    SmallLeb(2);
    assert Le1(if info.isOverflows then 1 else 0) == [if info.isOverflows then 1 else 0];
    hide ToLE, Leb, Le4, Le1, Le2, Le8;
  }

  /** Fields that are left out have their defaults. */
  lemma InfoDefault(d: Bytes, pos: nat)
    requires pos < |d| && d[pos] == 0
    ensures ReadInfo(d, pos, DEFAULT_INFO) == Ok(BlockInfo(false, -1), pos + 1)
  {
    SmallLeb(0);
    UvarintRoundTrip(0, d, pos);
  }

  /** A field of any other number is an error. */
  lemma InfoUnknown(d: Bytes, pos: nat, info: BlockInfo, tag: nat)
    requires pos <= |d| && tag < U64_LIMIT && Holds(d, pos, Leb(tag))
    ensures ReadInfo(d, pos, info) == Err(UnknownPacket(tag), pos + |Leb(tag)|) <== tag > 2
  {
    UvarintRoundTrip(tag, d, pos);
    hide ReadUvarint, Leb;
  }

  /** Servers that send the serialization byte have to send zero. */
  lemma MarkerExactly(revision: nat, b: Byte, d: Bytes, pos: nat)
    requires pos < |d| && d[pos] == b
    ensures ReadMarker(d, pos, revision)
         == if revision < 54454 then Ok((), pos)
            else if b == 0 then Ok((), pos + 1) else Err(UnsupportedCustomSerialization, pos + 1)
  {
    assert d[pos..pos + 1] == [b];
    assert FromLE([b]) == b + 256 * FromLE([b][1..]) && [b][1..] == [];
  }

  /** The length of a column of strings without bytes is a division by zero. */
  lemma NoWidthPanics(d: Bytes, pos: nat, size: nat, revision: nat, done: seq<NamedColumn>)
    requires pos <= |d|
    requires var r := ReadColumn(d, pos, size, revision);
      r.Ok? && r.value.data.Cells? && r.value.data.ty == FixedString(0)
    ensures var r := AddColumn(d, pos, size, revision, done); r.Err? && r.error == Panicked
  {
    hide ReadColumn;
  }

  /** So is one of nullable values without as many null bytes as values: a low-cardinality
      column below has its own count. */
  lemma UnevenNullablePanics(d: Bytes, pos: nat, size: nat, revision: nat, done: seq<NamedColumn>)
    requires pos <= |d|
    requires var r := ReadColumn(d, pos, size, revision);
      r.Ok? && r.value.data.NullableCol? && |r.value.data.nulls| != Len(r.value.data.inner)
    ensures var r := AddColumn(d, pos, size, revision, done); r.Err? && r.error == Panicked
  {
    hide ReadColumn;
  }

  /** Columns of another length than the first one are a panic. */
  lemma LengthsAgree(d: Bytes, pos: nat, size: nat, revision: nat, done: seq<NamedColumn>)
    requires pos <= |d| && |done| > 0
    requires var r := ReadColumn(d, pos, size, revision); r.Ok? && Len(r.value.data) != Len(done[0].data)
    ensures var r := AddColumn(d, pos, size, revision, done); r.Err? && r.error == Panicked
  {
    hide ReadColumn;
  }

  /** Flags other than those the client writes itself are a panic once the column is read. */
  lemma OtherFlagsPanic(inner: string, d: Bytes, pos: nat)
    requires pos <= |d| && LoadIndexed(inner, d, pos).Ok?
    ensures ReadIndexHeader(d, pos).Ok? && ReadIndexHeader(d, pos).value.1 in [0x600, 0x601, 0x602, 0x603]
  {
    hide Load, ReadWord, ReadWords;
  }

  /** Without rows there is no header, and the codes have one byte. */
  lemma NoCodes(name: string, inner: string, d: Bytes, pos: nat)
    requires pos <= |d| && Dispatch(name) == LowCardinalityOf(inner) && Load(name, 0, d, pos).Ok?
    ensures var c := Load(name, 0, d, pos).value;
      c.LowCardinalityCol? && c.index == IxUInt8 && c.codes == [] && Load(inner, 0, d, pos).Ok?
  {
    hide Dispatch;
  }

  /** Names of no type and names that end too early are different errors. */
  lemma NameErrors(name: string, size: nat, d: Bytes, pos: nat)
    requires pos <= |d|
    ensures Dispatch(name) == Unsupported ==> Load(name, size, d, pos) == Err(UnsupportedType, pos)
    ensures Dispatch(name) == Panics ==> Load(name, size, d, pos) == Err(Panicked, pos)
  {
    hide Dispatch;
  }

  /** A block is its info, both counts, and for each column the name, the type, a zero byte for
      servers that expect it, and the rows. */
  lemma BlockLayout(info: BlockInfo, c: NamedColumn, revision: nat)
    requires WellFormedBlock(Block(info, [c]))
    ensures Write(Block(info, [c]), revision)
         == InfoBytes(info) + ([1] + (Leb(Len(c.data)) + (
              Blob(c.name) + (Blob(TypeBytes(c.data))
              + ((if revision >= 54454 then [0] else []) + Save(c.data, 0, Len(c.data)))))))
  {
    SmallLeb(1);
    assert [c][1..] == [];
    assert ColumnsBytes([c], Len(c.data), revision) == ColumnBytes(c, revision) + [];
    hide Leb, Blob, TypeBytes, Save, InfoBytes;
  }

  /** The block without columns. */
  lemma EmptyLayout(revision: nat)
    ensures WellFormedBlock(EMPTY_BLOCK)
    ensures Write(EMPTY_BLOCK, revision) == [1, 0, 2, 255, 255, 255, 255, 0, 0, 0]
  {
    assert Write(EMPTY_BLOCK, revision) == InfoBytes(DEFAULT_INFO) + (Leb(0) + (Leb(0) + []));
    InfoLayout(DEFAULT_INFO);
    SmallLeb(0);
    assert Le4(-1 % 0x1_0000_0000) == [255, 255, 255, 255];
    hide *;
  }
}
