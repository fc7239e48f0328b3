/** Splitting a block into chunks of rows, and putting the loaded chunks together again. */
module Chunks {
  import opened Bytes
  import opened Parsed
  import opened SqlTypes
  import opened Columns
  import opened ColumnCodec
  import opened Slices
  import opened TypeNames
  import opened BlockCodec
  import opened Concat

  const EMPTY_BLOCK := Block(DEFAULT_INFO, [])

  /** The end of the chunk that begins at row `pos`. */
  function CutAfter(rows: nat, n: nat, pos: nat): (e: nat)
    requires pos <= rows
    ensures pos <= e <= rows && e <= pos + n
    ensures n > 0 && pos < rows ==> pos < e
  {
    pos + Min(n, rows - pos)
  }

  function SliceColumns(cs: seq<NamedColumn>, lo: nat, hi: nat): (r: seq<NamedColumn>)
    ensures |r| == |cs|
    ensures forall j :: 0 <= j < |cs| ==> r[j] == NamedColumn(cs[j].name, ChunkCol(cs[j].data, lo, hi))
  {
    if |cs| == 0 then []
    else SliceColumns(cs[..|cs| - 1], lo, hi) + [NamedColumn(cs[|cs| - 1].name, ChunkCol(cs[|cs| - 1].data, lo, hi))]
  }

  /** The rows `lo` to `hi` of every column; the block info is not taken over. */
  function SliceBlock(b: Block, lo: nat, hi: nat): Block {
    Block(DEFAULT_INFO, SliceColumns(b.columns, lo, hi))
  }

  function ChunksFrom(b: Block, n: nat, pos: nat): seq<Block>
    requires n > 0 && pos <= RowCount(b)
    decreases RowCount(b) - pos
  {
    if pos == RowCount(b) then []
    else
      var e := CutAfter(RowCount(b), n, pos);
      [SliceBlock(b, pos, e)] + ChunksFrom(b, n, e)
  }

  /** All chunks; a block without rows makes one block without columns. */
  function AllChunks(b: Block, n: nat): seq<Block>
    requires n > 0
  {
    if RowCount(b) == 0 then [EMPTY_BLOCK] else ChunksFrom(b, n, 0)
  }

  class ChunkIterator {
    var position: nat
    const size: nat
    const block: Block

    ghost predicate Valid()
      reads this
    {
      size > 0 && position <= Max(1, RowCount(block))
    }

    /** The chunks still to come. */
    ghost function Rest(): seq<Block>
      requires Valid()
      reads this
    {
      if RowCount(block) > 0 then ChunksFrom(block, size, position)
      else if position == 0 then [EMPTY_BLOCK] else []
    }

    constructor (size: nat, block: Block)
      requires size > 0
      ensures Valid() && this.block == block && this.size == size && Rest() == AllChunks(block, size)
    {
      position := 0;
      this.size := size;
      this.block := block;
    }

    method Next() returns (r: Option<Block>)
      requires Valid()
      modifies this
      ensures Valid()
      ensures old(Rest()) == [] ==> r == None && Rest() == []
      ensures old(Rest()) != [] ==> r == Some(old(Rest())[0]) && Rest() == old(Rest())[1..]
    {
      hide Len;
      var m := RowCount(block);
      if m == 0 && position == 0 {
        position := position + 1;
        return Some(EMPTY_BLOCK);
      }
      if position >= m {
        return None;
      }
      var columns := [];
      var k := Min(size, m - position);
      for i := 0 to |block.columns|
        invariant columns == SliceColumns(block.columns[..i], position, position + k)
      {
        assert block.columns[..i + 1][..i] == block.columns[..i];
        var c := block.columns[i];
        columns := columns + [NamedColumn(c.name, ChunkCol(c.data, position, position + k))];
      }
      assert block.columns[..|block.columns|] == block.columns;
      position := position + k;
      return Some(Block(DEFAULT_INFO, columns));
    }
  }

  function Max(a: nat, b: nat): nat { if a >= b then a else b }

  /** What a loop over `chunks(n)` sees. */
  method CollectChunks(b: Block, n: nat) returns (chunks: seq<Block>)
    requires n > 0
    ensures chunks == AllChunks(b, n)
  {
    var it := new ChunkIterator(n, b);
    chunks := [];
    hide *;
    assert [] + it.Rest() == it.Rest();
    while true
      invariant it.Valid() && it.block == b && it.size == n && chunks + it.Rest() == AllChunks(b, n)
      decreases |it.Rest()|
    {
      ghost var before := it.Rest();
      var r := it.Next();
      if r.None? {
        return;
      }
      TakeHead(chunks, before);
      chunks := chunks + [r.value];
    }
  }

  // ----- sizes -----

  /** Every chunk has between 1 and `n` rows, the row counts add up, and each chunk has
      all the columns. */
  lemma {:induction false} ChunkSizes(b: Block, n: nat, pos: nat)
    requires n > 0 && pos <= RowCount(b)
    ensures var cs := ChunksFrom(b, n, pos);
      (|cs| - 1) * n < RowCount(b) - pos <= |cs| * n
      && (forall i :: 0 <= i < |cs| ==> 1 <= RowCount(cs[i]) <= n && |cs[i].columns| == |b.columns|)
      && (forall i :: 0 <= i < |cs| - 1 ==> RowCount(cs[i]) == n)
      && (forall i :: 0 <= i < |cs| ==> cs[i].info == BlockInfo(false, -1))
      && (forall i, j :: 0 <= i < |cs| && 0 <= j < |b.columns| ==> cs[i].columns[j].name == b.columns[j].name)
    decreases RowCount(b) - pos
  {
    hide SliceColumns;
    if pos < RowCount(b) {
      var e := CutAfter(RowCount(b), n, pos);
      ChunkSizes(b, n, e);
      ChunkCount(|ChunksFrom(b, n, e)|, n);
      assert RowCount(SliceBlock(b, pos, e)) == e - pos;
      if e < RowCount(b) { assert e - pos == n; }
    }
  }

  lemma ChunkCount(k: nat, n: nat)
    ensures (k + 1) * n == k * n + n && (k - 1) * n == k * n - n
  {
  }

  // ----- the chunks together -----

  /** The loaded chunks of one column. */
  function Pieces(c: Column, n: nat, pos: nat): seq<Column>
    requires WellFormed(c) && n > 0 && pos <= Len(c)
    decreases Len(c) - pos
  {
    if pos == Len(c) then []
    else
      var e := CutAfter(Len(c), n, pos);
      [Reload(c, pos, e)] + Pieces(c, n, e)
  }

  /** No cut damages a row. */
  predicate CutsExact(c: Column, n: nat, pos: nat)
    requires WellFormed(c) && n > 0 && pos <= Len(c)
    decreases Len(c) - pos
  {
    pos == Len(c)
    || (var e := CutAfter(Len(c), n, pos); SliceExact(c, pos, e) && CutsExact(c, n, e))
  }

  lemma FlatCons(c: Column, rest: seq<Column>)
    requires WellFormed(c) && AllWellFormed(rest)
    ensures AllWellFormed([c] + rest) && Flat([c] + rest) == Rows(c) + Flat(rest)
  {
    hide WellFormed, Rows, Join;
    var cs := [c] + rest;
    assert cs[0] == c && forall i :: 0 <= i < |rest| ==> cs[i + 1] == rest[i];
    var all := RowsOf(cs);
    JoinHead(all, 0);
    assert all[0..] == all && all[0] == Rows(c) && all[1..] == RowsOf(rest);
  }

  lemma FlatNone()
    ensures Flat([]) == []
  {
  }

  lemma RangeSplit(c: Column, a: nat, b: nat, e: nat)
    requires WellFormed(c) && a <= b <= e <= Len(c)
    ensures Range(c, a, e) == Range(c, a, b) + Range(c, b, e)
  {
    hide At;
  }

  lemma ConcatEqual<T>(a: seq<T>, b: seq<T>, x: seq<T>, y: seq<T>)
    requires |a| == |x| && |b| == |y|
    ensures a + b == x + y <==> a == x && b == y
  {
    if a + b == x + y {
      assert a == (a + b)[..|a|] && b == (a + b)[|a|..];
    }
  }

  lemma {:induction false} PiecesType(c: Column, n: nat, pos: nat)
    requires WellFormed(c) && n > 0 && pos <= Len(c)
    ensures forall i :: 0 <= i < |Pieces(c, n, pos)| ==> TypeOf(Pieces(c, n, pos)[i]) == TypeOf(c)
    ensures pos < Len(c) ==> |Pieces(c, n, pos)| > 0
    decreases Len(c) - pos
  {
    hide Reload;
    if pos < Len(c) {
      var e := CutAfter(Len(c), n, pos);
      ReloadType(c, pos, e);
      PiecesType(c, n, e);
    }
  }

  /** The loaded chunks hold the rows of the column, in order, exactly when no cut
      damages a row. */
  lemma {:induction false} PiecesRows(c: Column, n: nat, pos: nat)
    requires WellFormed(c) && n > 0 && pos <= Len(c)
    ensures AllWellFormed(Pieces(c, n, pos)) && |Flat(Pieces(c, n, pos))| == Len(c) - pos
    ensures Flat(Pieces(c, n, pos)) == Range(c, pos, Len(c)) <==> CutsExact(c, n, pos)
    decreases Len(c) - pos
  {
    hide WellFormed, Len, At, Reload, SliceExact, Range, Flat;
    if pos == Len(c) {
      FlatNone();
    } else {
      var e := CutAfter(Len(c), n, pos);
      PiecesRows(c, n, e);
      RowsReloaded(c, pos, e);
      FlatCons(Reload(c, pos, e), Pieces(c, n, e));
      RangeSplit(c, pos, e, Len(c));
      ConcatEqual(Rows(Reload(c, pos, e)), Flat(Pieces(c, n, e)), Range(c, pos, e), Range(c, e, Len(c)));
    }
  }

  lemma {:induction false} SliceableCuts(c: Column, n: nat, pos: nat)
    requires WellFormed(c) && n > 0 && pos <= Len(c) && Sliceable(TypeOf(c))
    ensures CutsExact(c, n, pos)
    decreases Len(c) - pos
  {
    if pos < Len(c) {
      var e := CutAfter(Len(c), n, pos);
      SliceableIsExact(c, pos, e);
      SliceableCuts(c, n, e);
    }
  }

  lemma SliceWellFormed(b: Block, lo: nat, hi: nat)
    requires WellFormedBlock(b) && lo < hi <= RowCount(b)
    ensures WellFormedBlock(SliceBlock(b, lo, hi)) && RowCount(SliceBlock(b, lo, hi)) == hi - lo
    ensures RecoverableColumns(b.columns) ==> RecoverableColumns(SliceBlock(b, lo, hi).columns)
  {
    hide WellFormed, Name, Recoverable;
    var s := SliceBlock(b, lo, hi);
    forall j | 0 <= j < |s.columns|
      ensures WellFormedColumn(s.columns[j], hi - lo) && TypeOf(s.columns[j].data) == TypeOf(b.columns[j].data)
    {
      assert WellFormedColumn(b.columns[j], RowCount(b));
      ChunkWellFormed(b.columns[j].data, lo, hi);
    }
  }

  lemma ChunkWellFormed(c: Column, lo: nat, hi: nat)
    requires WellFormed(c) && lo <= hi <= Len(c)
    ensures WellFormed(ChunkCol(c, lo, hi))
  {
    LenFits(c);
  }

  lemma LenFits(c: Column)
    requires WellFormed(c)
    ensures Len(c) < U64_LIMIT
  {
  }

  /** Column `j` of each block. */
  function Parts(bs: seq<Block>, j: nat): seq<Column>
    requires forall i :: 0 <= i < |bs| ==> j < |bs[i].columns|
  {
    if |bs| == 0 then [] else [bs[0].columns[j].data] + Parts(bs[1..], j)
  }

  /** The blocks that loading makes of the written chunks. */
  function LoadedChunks(b: Block, n: nat, pos: nat): (r: seq<Block>)
    requires WellFormedBlock(b) && n > 0 && pos <= RowCount(b)
    ensures forall i :: 0 <= i < |r| ==> |r[i].columns| == |b.columns|
    decreases RowCount(b) - pos
  {
    if pos == RowCount(b) then []
    else
      var e := CutAfter(RowCount(b), n, pos);
      SliceWellFormed(b, pos, e);
      [ReloadBlock(SliceBlock(b, pos, e))] + LoadedChunks(b, n, e)
  }

  /** What loading makes of all chunks. */
  function LoadedAll(b: Block, n: nat): seq<Block>
    requires WellFormedBlock(b) && n > 0
  {
    if RowCount(b) == 0 then [EMPTY_BLOCK] else LoadedChunks(b, n, 0)
  }

  /** The block without columns comes back as it is. */
  lemma EmptyReturns(revision: nat, d: Bytes, pos: nat)
    requires Holds(d, pos, Write(EMPTY_BLOCK, revision))
    ensures WellFormedBlock(EMPTY_BLOCK)
    ensures RawLoad(d, pos, revision) == Ok(EMPTY_BLOCK, pos + |Write(EMPTY_BLOCK, revision)|)
  {
    BlockAt(EMPTY_BLOCK, revision, d, pos);
  }

  /** Each chunk, written anywhere, is loaded as `LoadedAll` says: there is one loaded block
      for each chunk, also when the block has no rows. */
  lemma EveryChunkLoads(b: Block, n: nat, i: nat, revision: nat, d: Bytes, at: nat)
    requires WellFormedBlock(b) && RecoverableColumns(b.columns) && n > 0 && i < |AllChunks(b, n)|
    requires WellFormedBlock(AllChunks(b, n)[i]) && Holds(d, at, Write(AllChunks(b, n)[i], revision))
    ensures i < |LoadedAll(b, n)|
    ensures RawLoad(d, at, revision) == Ok(LoadedAll(b, n)[i], at + |Write(AllChunks(b, n)[i], revision)|)
  {
    hide Write, RawLoad, ReloadBlock, WellFormedColumns, RecoverableColumns, Holds, LoadedChunks, ChunksFrom;
    if RowCount(b) == 0 { EmptyReturns(revision, d, at); } else { ChunkLoads(b, n, 0, i, revision, d, at); }
  }

  /** Each chunk, written anywhere, is loaded as `LoadedChunks` says. */
  lemma {:induction false} ChunkLoads(b: Block, n: nat, pos: nat, i: nat, revision: nat, d: Bytes, at: nat)
    requires WellFormedBlock(b) && RecoverableColumns(b.columns) && n > 0 && pos <= RowCount(b)
    requires i < |ChunksFrom(b, n, pos)|
    requires WellFormedBlock(ChunksFrom(b, n, pos)[i])
    requires Holds(d, at, Write(ChunksFrom(b, n, pos)[i], revision))
    ensures i < |LoadedChunks(b, n, pos)|
    ensures RawLoad(d, at, revision)
         == Ok(LoadedChunks(b, n, pos)[i], at + |Write(ChunksFrom(b, n, pos)[i], revision)|)
    decreases i
  {
    hide Write, RawLoad, ReloadBlock, WellFormedColumns, RecoverableColumns, Holds, SliceColumns, Len;
    var e := CutAfter(RowCount(b), n, pos);
    SliceWellFormed(b, pos, e);
    if i == 0 {
      BlockAt(SliceBlock(b, pos, e), revision, d, at);
    } else {
      ChunkLoads(b, n, e, i - 1, revision, d, at);
    }
  }

  lemma PartsCons(first: Block, rest: seq<Block>, j: nat)
    requires j < |first.columns| && forall i :: 0 <= i < |rest| ==> j < |rest[i].columns|
    ensures Parts([first] + rest, j) == [first.columns[j].data] + Parts(rest, j)
  {
    assert ([first] + rest)[1..] == rest;
  }

  /** Column `j` of a chunk that was written and loaded. */
  lemma SlicePart(b: Block, lo: nat, hi: nat, j: nat)
    requires WellFormedBlock(b) && lo < hi <= RowCount(b) && j < |b.columns|
    ensures WellFormedBlock(SliceBlock(b, lo, hi)) && |ReloadBlock(SliceBlock(b, lo, hi)).columns| == |b.columns|
    ensures WellFormed(b.columns[j].data) && Len(b.columns[j].data) == RowCount(b)
    ensures ReloadBlock(SliceBlock(b, lo, hi)).columns[j].data == Reload(b.columns[j].data, lo, hi)
  {
    hide WellFormed, Len, Reload, Name, ValidUtf8;
    SliceWellFormed(b, lo, hi);
    var s := SliceBlock(b, lo, hi);
    assert WellFormedColumn(b.columns[j], RowCount(b));
    assert WellFormedColumn(s.columns[j], RowCount(s));
    SliceReload(b.columns[j].data, lo, hi);
  }

  lemma {:induction false} PartsArePieces(b: Block, n: nat, pos: nat, j: nat)
    requires WellFormedBlock(b) && n > 0 && pos <= RowCount(b) && j < |b.columns|
    ensures WellFormedColumn(b.columns[j], RowCount(b))
    ensures Parts(LoadedChunks(b, n, pos), j) == Pieces(b.columns[j].data, n, pos)
    decreases RowCount(b) - pos
  {
    assert WellFormedColumn(b.columns[j], RowCount(b));
    if pos < RowCount(b) {
      hide WellFormed, Len, Reload, SliceColumns, Parts, ReloadBlock, WellFormedColumns, Name, ValidUtf8;
      var e := CutAfter(RowCount(b), n, pos);
      SlicePart(b, pos, e, j);
      PartsArePieces(b, n, e, j);
      PartsCons(ReloadBlock(SliceBlock(b, pos, e)), LoadedChunks(b, n, e), j);
    }
  }

  lemma SliceReload(c: Column, lo: nat, hi: nat)
    requires WellFormed(c) && lo <= hi <= Len(c)
    ensures WellFormed(ChunkCol(c, lo, hi)) && Len(ChunkCol(c, lo, hi)) == hi - lo
    ensures Reload(ChunkCol(c, lo, hi), 0, hi - lo) == Reload(c, lo, hi)
  {
    ChunkWellFormed(c, lo, hi);
  }

  /** Splitting, writing, loading and concatenating. A block without rows comes back as one
      block without columns, names and types lost. Of any other block each column has loaded
      chunks of its own type, which `concat` accepts, and they hold its rows in order exactly
      when no cut damages a row; in columns of sliceable types none does. */
  lemma ChunksRoundTrip(b: Block, n: nat, j: nat)
    requires WellFormedBlock(b) && n > 0 && j < |b.columns|
    ensures RowCount(b) == 0 ==> LoadedAll(b, n) == [EMPTY_BLOCK]
    ensures RowCount(b) > 0 ==>
      var c, loaded := b.columns[j].data, LoadedAll(b, n);
      (forall i :: 0 <= i < |loaded| ==> |loaded[i].columns| == |b.columns|)
      && var parts := Parts(loaded, j);
         WellFormed(c) && Len(c) == RowCount(b)
         && AllWellFormed(parts) && |parts| > 0 && SameType(parts) && TypeOf(parts[0]) == TypeOf(c)
         && (Flat(parts) == Rows(c) <==> CutsExact(c, n, 0))
         && (Sliceable(TypeOf(c)) ==> CutsExact(c, n, 0))
  {
    if RowCount(b) > 0 {
      var c := b.columns[j].data;
      PartsArePieces(b, n, 0, j);
      hide WellFormed, Flat, Range, Parts, LoadedChunks, CutsExact, Sliceable, Len, TypeOf, Pieces;
      assert WellFormedColumn(b.columns[j], RowCount(b));
      PiecesRows(c, n, 0);
      PiecesType(c, n, 0);
      if Sliceable(TypeOf(c)) { SliceableCuts(c, n, 0); }
    }
  }

  /** Two array rows, one chunk each: the second row comes back with the items of both. */
  lemma ArrayChunksExample()
    ensures var c := ArrayCol([1, 2], Cells(Plain(UInt8), [[7], [8]]));
      WellFormed(c) && !CutsExact(c, 1, 0) && CutsExact(c, 2, 0)
  {
    var inner := Cells(Plain(UInt8), [[7], [8]]);
    assert WellFormed(inner);
    var c := ArrayCol([1, 2], inner);
    assert WellFormed(c);
    assert CutAfter(2, 1, 0) == 1 && CutAfter(2, 1, 1) == 2 && CutAfter(2, 2, 0) == 2;
    assert !SliceExact(c, 1, 2) && SliceExact(c, 0, 2);
  }
}
