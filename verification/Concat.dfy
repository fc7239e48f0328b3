/** Concatenated columns: the prefix-sum index, the search in it, and the rows. */
module Concat {
  import opened Bytes
  import opened SqlTypes
  import opened Columns
  import opened Iterators

  function Sum(sizes: seq<nat>): nat {
    if |sizes| == 0 then 0 else Sum(sizes[..|sizes| - 1]) + sizes[|sizes| - 1]
  }

  /** What `build_index` makes of the sizes: entry `k` counts the rows in front of chunk `k`. */
  ghost predicate IndexOf(index: seq<nat>, sizes: seq<nat>) {
    |index| == |sizes| + 1 && forall k :: 0 <= k <= |sizes| ==> index[k] == Sum(sizes[..k])
  }

  lemma {:induction false} SumMono(sizes: seq<nat>, a: nat, b: nat)
    requires a <= b <= |sizes|
    ensures Sum(sizes[..a]) <= Sum(sizes[..b])
    decreases b
  {
    if a < b {
      SumMono(sizes, a, b - 1);
      assert sizes[..b][..b - 1] == sizes[..b - 1];
    }
  }

  lemma IndexMonotone(index: seq<nat>, sizes: seq<nat>)
    requires IndexOf(index, sizes)
    ensures index[0] == 0 && Monotone(index)
  {
    forall i, j | 0 <= i <= j < |index| ensures index[i] <= index[j] {
      SumMono(sizes, i, j);
    }
  }

  method BuildIndex(sizes: seq<nat>) returns (index: seq<nat>)
    ensures IndexOf(index, sizes)
  {
    var acc := 0;
    index := [acc];
    for i := 0 to |sizes|
      invariant acc == Sum(sizes[..i])
      invariant IndexOf(index, sizes[..i])
    {
      assert sizes[..i + 1][..i] == sizes[..i];
      acc := acc + sizes[i];
      index := index + [acc];
      forall k | 0 <= k <= i + 1 ensures index[k] == Sum(sizes[..i + 1][..k]) {
        assert k <= i ==> sizes[..i + 1][..k] == sizes[..i][..k];
        assert sizes[..i + 1][..i + 1] == sizes[..i + 1];
      }
    }
    assert sizes[..|sizes|] == sizes;
  }

  /** Row `ix` lies in chunk `k`. */
  predicate InChunk(index: seq<nat>, ix: nat, k: nat) {
    k + 1 < |index| && index[k] <= ix < index[k + 1]
  }

  /** No row lies in two chunks, however many empty ones stand between them. */
  lemma ChunkUnique(index: seq<nat>, ix: nat, j: nat, k: nat)
    requires Monotone(index) && InChunk(index, ix, j) && InChunk(index, ix, k)
    ensures j == k
  {
  }

  /** A bisection that first walks over empty chunks at the lower end. It finds the one
      chunk that holds the row. */
  method FindChunk(index: seq<nat>, ix: nat) returns (k: nat)
    requires |index| > 0 && index[0] == 0 && Monotone(index)
    ensures if ix < index[|index| - 1] then InChunk(index, ix, k) else k == 0
    ensures forall j: nat :: InChunk(index, ix, j) ==> j == k
  {
    var lo, hi := 0, |index| - 1;
    while lo < hi
      invariant 0 <= lo <= hi < |index|
      invariant index[lo] <= ix
      invariant hi < |index| - 1 ==> ix < index[hi]
    {
      var mid := lo + (hi - lo) / 2;
      if index[lo] == index[lo + 1] {
        lo := lo + 1;
        continue;
      }
      if ix < index[mid] {
        hi := mid;
      } else if ix >= index[mid + 1] {
        lo := mid + 1;
      } else {
        forall j: nat | InChunk(index, ix, j) ensures j == mid {
          ChunkUnique(index, ix, j, mid);
        }
        return mid;
      }
    }
    return 0;
  }

  lemma TakeHead<T>(taken: seq<T>, rest: seq<T>)
    requires |rest| > 0
    ensures taken + rest == taken + [rest[0]] + rest[1..]
  {
    assert rest == [rest[0]] + rest[1..];
  }

  // ----- the rows -----

  /** Lists one after another. */
  function Join<T>(parts: seq<seq<T>>): seq<T> {
    if |parts| == 0 then [] else Join(parts[..|parts| - 1]) + parts[|parts| - 1]
  }

  function Lengths<T>(parts: seq<seq<T>>): (r: seq<nat>)
    ensures |r| == |parts| && forall i :: 0 <= i < |r| ==> r[i] == |parts[i]|
  {
    seq(|parts|, i requires 0 <= i < |parts| => |parts[i]|)
  }

  lemma {:induction false} JoinPrefix<T>(parts: seq<seq<T>>, k: nat)
    requires k <= |parts|
    ensures Join(parts[..k]) <= Join(parts) && |Join(parts[..k])| == Sum(Lengths(parts)[..k])
    decreases |parts|, k
  {
    var n := |parts|;
    if k < n {
      JoinPrefix(parts[..n - 1], k);
      assert parts[..n - 1][..k] == parts[..k];
      assert Lengths(parts[..n - 1])[..k] == Lengths(parts)[..k];
    } else {
      assert parts[..n] == parts;
      if n > 0 {
        JoinPrefix(parts[..n - 1], n - 1);
        assert parts[..n - 1][..n - 1] == parts[..n - 1];
        assert Lengths(parts[..n - 1])[..n - 1] == Lengths(parts)[..n][..n - 1];
      }
    }
  }

  /** Element `ix` of the whole is an element of its part. */
  lemma JoinAt<T>(parts: seq<seq<T>>, index: seq<nat>, ix: nat, k: nat)
    requires IndexOf(index, Lengths(parts)) && InChunk(index, ix, k)
    ensures ix < |Join(parts)| && ix - index[k] < |parts[k]|
    ensures Join(parts)[ix] == parts[k][ix - index[k]]
  {
    JoinPrefix(parts, k);
    JoinPrefix(parts, k + 1);
    assert parts[..k + 1][..k] == parts[..k];
    assert Join(parts[..k + 1]) == Join(parts[..k]) + parts[k];
    assert Join(parts)[ix] == Join(parts[..k + 1])[ix];
  }

  lemma JoinLength<T>(parts: seq<seq<T>>, index: seq<nat>)
    requires IndexOf(index, Lengths(parts))
    ensures |Join(parts)| == index[|index| - 1]
  {
    JoinPrefix(parts, |parts|);
    assert parts[..|parts|] == parts;
  }

  lemma {:induction false} JoinHead<T>(parts: seq<seq<T>>, i: nat)
    requires i < |parts|
    ensures Join(parts[i..]) == parts[i] + Join(parts[i + 1..])
    decreases |parts|
  {
    var n := |parts|;
    if i == n - 1 {
      assert parts[i..] == [parts[i]];
      assert Join([parts[i]]) == Join([]) + parts[i];
    } else {
      JoinHead(parts[..n - 1], i);
      assert parts[i..][..n - i - 1] == parts[..n - 1][i..];
      assert parts[i + 1..][..n - i - 2] == parts[..n - 1][i + 1..];
    }
  }

  /** Two joins of equally long parts agree exactly when all parts do. */
  lemma {:induction false} JoinsEqual<T>(ps: seq<seq<T>>, qs: seq<seq<T>>)
    requires |ps| == |qs| && forall i :: 0 <= i < |ps| ==> |ps[i]| == |qs[i]|
    ensures |Join(ps)| == |Join(qs)|
    ensures Join(ps) == Join(qs) <==> ps == qs
  {
    if |ps| > 0 {
      var n := |ps| - 1;
      JoinsEqual(ps[..n], qs[..n]);
      var a, b, x, y := Join(ps[..n]), ps[n], Join(qs[..n]), qs[n];
      if a + b == x + y {
        assert a == (a + b)[..|a|] && b == (a + b)[|a|..];
        assert ps == ps[..n] + [ps[n]] && qs == qs[..n] + [qs[n]];
      }
    }
  }

  predicate AllWellFormed(chunks: seq<Column>) {
    forall i :: 0 <= i < |chunks| ==> WellFormed(chunks[i])
  }

  predicate AllIterable(chunks: seq<Column>) {
    forall i :: 0 <= i < |chunks| ==> Iterable(chunks[i])
  }

  function Sizes(chunks: seq<Column>): (r: seq<nat>)
    ensures |r| == |chunks| && forall i :: 0 <= i < |r| ==> r[i] == Len(chunks[i])
  {
    seq(|chunks|, i requires 0 <= i < |chunks| => Len(chunks[i]))
  }

  function RowsOf(chunks: seq<Column>): (r: seq<seq<Value>>)
    requires AllWellFormed(chunks)
    ensures |r| == |chunks| && forall i :: 0 <= i < |r| ==> r[i] == Rows(chunks[i])
  {
    seq(|chunks|, i requires 0 <= i < |chunks| => Rows(chunks[i]))
  }

  /** What row access answers in each chunk. */
  function AccessesOf(chunks: seq<Column>): (r: seq<seq<Option<Row>>>)
    requires AllWellFormed(chunks)
    ensures |r| == |chunks| && forall i :: 0 <= i < |r| ==> r[i] == Accesses(chunks[i])
  {
    seq(|chunks|, i requires 0 <= i < |chunks| => Accesses(chunks[i]))
  }

  /** What the iterator over each chunk yields. */
  function DrainedOf(chunks: seq<Column>): (r: seq<seq<Row>>)
    requires AllWellFormed(chunks)
    ensures |r| == |chunks| && forall i :: 0 <= i < |r| ==> r[i] == Drained(chunks[i])
  {
    seq(|chunks|, i requires 0 <= i < |chunks| => Drained(chunks[i]))
  }

  /** The stored rows of the chunks one after another. */
  function Flat(chunks: seq<Column>): seq<Value>
    requires AllWellFormed(chunks)
  {
    Join(RowsOf(chunks))
  }

  /** The sizes of the chunks are the lengths of their lists of rows. */
  lemma SizesAreLengths(chunks: seq<Column>)
    requires AllWellFormed(chunks)
    ensures Sizes(chunks) == Lengths(RowsOf(chunks)) == Lengths(AccessesOf(chunks)) == Lengths(DrainedOf(chunks))
  {
    hide WellFormed, Len, Rows, Accesses, Drained;
  }

  /** Row `ix` of the concatenation is the row of its chunk. */
  lemma FlatAt(chunks: seq<Column>, index: seq<nat>, ix: nat, k: nat)
    requires AllWellFormed(chunks) && IndexOf(index, Sizes(chunks)) && InChunk(index, ix, k)
    ensures ix < |Flat(chunks)| && ix - index[k] < Len(chunks[k])
    ensures Flat(chunks)[ix] == At(chunks[k], ix - index[k])
  {
    hide *;
    FlatIs(chunks);
    ChunkOf(chunks, index, ix, k);
    SizesAreLengths(chunks);
    JoinAt(RowsOf(chunks), index, ix, k);
    RowAt(chunks[k], ix - index[k]);
  }

  lemma FlatIs(chunks: seq<Column>)
    requires AllWellFormed(chunks)
    ensures Flat(chunks) == Join(RowsOf(chunks))
  {
    hide WellFormed;
  }

  lemma ChunkOf(chunks: seq<Column>, index: seq<nat>, ix: nat, k: nat)
    requires AllWellFormed(chunks) && IndexOf(index, Sizes(chunks)) && InChunk(index, ix, k)
    ensures k < |chunks| < |index| && WellFormed(chunks[k]) && index[k] <= ix
  {
    hide WellFormed, Len;
  }

  lemma RowAt(c: Column, i: nat)
    requires WellFormed(c) && i < |Rows(c)|
    ensures i < Len(c) && Rows(c)[i] == At(c, i)
  {
    hide At, Len, WellFormed;
    assert At(c, 0 + i) == At(c, i);
  }

  predicate SameType(chunks: seq<Column>) {
    forall i :: 0 <= i < |chunks| ==> TypeOf(chunks[i]) == TypeOf(chunks[0])
  }

  class ConcatColumn {
    const data: seq<Column>
    const index: seq<nat>

    ghost predicate Valid() {
      |data| > 0 && AllWellFormed(data) && SameType(data) && IndexOf(index, Sizes(data))
    }

    /** What row access answers, chunk after chunk. */
    ghost function Contents(): seq<Option<Row>>
      requires Valid()
    {
      Join(AccessesOf(data))
    }

    constructor (data: seq<Column>, index: seq<nat>)
      ensures this.data == data && this.index == index
    {
      this.data := data;
      this.index := index;
    }

    function Size(): (n: nat)
      requires Valid()
      ensures n == |Contents()|
    {
      SizesAreLengths(data);
      JoinLength(AccessesOf(data), index);
      index[|index| - 1]
    }

    /** Nothing for a row out of range, on which the chunk panics, and for one on which the
        chunk's own row access panics. */
    method Get(ix: nat) returns (r: Option<Row>)
      requires Valid()
      ensures r == if ix < |Contents()| then Contents()[ix] else None
    {
      hide *;
      Indexed();
      var k := FindChunk(index, ix);
      Found(ix, k);
      if ix - index[k] < Len(data[k]) {
        return Access(data[k], ix - index[k]);
      }
      return None;
    }

    lemma Indexed()
      requires Valid()
      ensures |index| > 0 && index[0] == 0 && Monotone(index)
    {
      hide WellFormed, Len;
      IndexMonotone(index, Sizes(data));
    }

    /** What the search says about row `ix`. */
    lemma Found(ix: nat, k: nat)
      requires Valid() && |index| > 0
      requires if ix < index[|index| - 1] then InChunk(index, ix, k) else k == 0
      ensures k < |data| < |index| && index[k] <= ix && WellFormed(data[k])
      ensures ix - index[k] < Len(data[k]) ==> ix < |Contents()| && Contents()[ix] == Access(data[k], ix - index[k])
      ensures ix - index[k] >= Len(data[k]) ==> ix >= |Contents()|
    {
      hide *;
      Given();
      SizesAreLengths(data);
      OutOfRange(data, index);
      JoinLength(AccessesOf(data), index);
      if ix < index[|index| - 1] {
        ChunkOf(data, index, ix, k);
        JoinAt(AccessesOf(data), index, ix, k);
      }
      AccessesAre(data, k);
    }

    lemma Given()
      requires Valid()
      ensures |data| > 0 && AllWellFormed(data) && IndexOf(index, Sizes(data)) && Contents() == Join(AccessesOf(data))
    {
      hide WellFormed, Len, Access;
    }
  }

  lemma AccessesAre(data: seq<Column>, k: nat)
    requires AllWellFormed(data) && k < |data|
    ensures WellFormed(data[k]) && |AccessesOf(data)[k]| == Len(data[k])
    ensures forall i :: 0 <= i < Len(data[k]) ==> AccessesOf(data)[k][i] == Access(data[k], i)
  {
    hide WellFormed, Len, Access;
  }

  lemma OutOfRange(data: seq<Column>, index: seq<nat>)
    requires |data| > 0 && IndexOf(index, Sizes(data))
    ensures |index| == |data| + 1 && index[0] == 0 && Len(data[0]) <= index[|data|]
  {
    hide Len;
    var sizes := Sizes(data);
    assert sizes[..1] == [Len(data[0])];
    assert Sum(sizes[..1]) == Sum([]) + Len(data[0]);
    SumMono(sizes, 1, |data|);
  }

  /** `concat` panics on no chunks and on chunks of different types. */
  method ConcatColumns(data: seq<Column>) returns (r: Option<ConcatColumn>)
    requires AllWellFormed(data)
    ensures r.Some? <==> |data| > 0 && SameType(data)
    ensures r.Some? ==> fresh(r.value) && r.value.data == data && r.value.Valid()
    ensures r.Some? ==> r.value.Contents() == Join(AccessesOf(data))
  {
    if |data| == 0 {
      return None;
    }
    for i := 1 to |data|
      invariant forall k :: 0 <= k < i ==> TypeOf(data[k]) == TypeOf(data[0])
    {
      if TypeOf(data[0]) != TypeOf(data[i]) {
        return None;
      }
    }
    var index := BuildIndex(Sizes(data));
    var c := new ConcatColumn(data, index);
    return Some(c);
  }

  // ----- the iterator over a concatenated column -----

  /** Iterates over the chunks one by one, with a flat iterator over the current one. */
  class ComplexIterator {
    const data: seq<Column>
    var currentIndex: nat
    var current: FlatIterator?

    ghost function Repr(): set<object>
      reads this
    {
      if current == null then {this} else {this, current} + current.Repr
    }

    ghost predicate Valid()
      reads this, Repr()
    {
      AllWellFormed(data) && AllIterable(data) && currentIndex <= |data|
      && (current != null ==> this !in current.Repr && current in current.Repr && current.Valid())
    }

    /** The rows still to come. */
    ghost function Rest(): seq<Row>
      requires Valid()
      reads this, Repr()
    {
      (if current == null then [] else Left(current.column, current.index)) + Join(DrainedOf(data[currentIndex..]))
    }

    constructor (data: seq<Column>)
      requires AllWellFormed(data) && AllIterable(data)
      ensures Valid() && fresh(Repr()) && this.data == data && Rest() == Join(DrainedOf(data))
    {
      this.data := data;
      currentIndex := 0;
      current := null;
      assert data[0..] == data;
    }

    method Next() returns (r: Option<Row>)
      requires Valid()
      modifies Repr()
      ensures Valid() && fresh(Repr() - old(Repr()))
      ensures old(Rest()) == [] ==> r == None && Rest() == []
      ensures old(Rest()) != [] ==> r == Some(old(Rest())[0]) && Rest() == old(Rest())[1..]
      decreases |data| - currentIndex, if current != null then 1 else 0
    {
      hide WellFormed, Iterable, Len, Left, DrainedOf, Join, View, Item;
      if currentIndex == |data| && current == null {
        NothingLeft(data);
        return None;
      }
      if current == null {
        while true
          invariant Valid() && current == null && Rest() == old(Rest())
          invariant old(currentIndex) <= currentIndex
          decreases |data| - currentIndex
        {
          if currentIndex >= |data| {
            NothingLeft(data);
            return None;
          }
          NextChunk(data, currentIndex);
          if Len(data[currentIndex]) > 0 {
            break;
          }
          currentIndex := currentIndex + 1;
        }
        Begin();
      }
      r := Step();
      if r.None? {
        r := Next();
      }
    }

    /** An iterator over the next chunk. */
    method Begin()
      requires Valid() && current == null && currentIndex < |data|
      modifies this
      ensures Valid() && fresh(Repr() - old(Repr())) && Rest() == old(Rest())
      ensures current != null && currentIndex == old(currentIndex) + 1
    {
      hide WellFormed, Iterable, Len, Left, DrainedOf, Join, View, Item;
      NextChunk(data, currentIndex);
      var iter := new FlatIterator(data[currentIndex]);
      current := iter;
      currentIndex := currentIndex + 1;
    }

    /** The next row of the current chunk; at its end the chunk is given up. */
    method Step() returns (r: Option<Row>)
      requires Valid() && current != null
      modifies Repr()
      ensures Valid() && fresh(Repr() - old(Repr())) && currentIndex == old(currentIndex)
      ensures r.None? ==> current == null && Rest() == old(Rest())
      ensures r.Some? ==> old(Rest()) == [r.value] + Rest()
    {
      hide WellFormed, Iterable, Len, Left, DrainedOf, Join, View, Item;
      LeftHead(current.column, current.index);
      ghost var more := Join(DrainedOf(data[currentIndex..]));
      r := current.Next();
      if r.None? {
        current := null;
        assert [] + more == more;
      } else {
        Associate(r.value, Left(current.column, current.index), more);
      }
    }
  }

  lemma Associate<T>(x: T, a: seq<T>, b: seq<T>)
    ensures [x] + a + b == [x] + (a + b)
  {
  }

  /** What a flat iterator that stands at row `i` still yields. */
  function Left(c: Column, i: nat): (r: seq<Row>)
    requires WellFormed(c) && i <= Len(c)
    ensures |r| == Len(c) - i
  {
    Drained(c)[i..]
  }

  lemma LeftHead(c: Column, i: nat)
    requires WellFormed(c) && i <= Len(c)
    ensures i < Len(c) ==> Left(c, i) == [View(Item(c, i))] + Left(c, i + 1)
    ensures i == Len(c) ==> Left(c, i) == []
  {
    hide View, Item, WellFormed, Len;
    if i < Len(c) { assert Items(c, 0, Len(c))[i] == Item(c, 0 + i); }
  }

  lemma NextChunk(data: seq<Column>, i: nat)
    requires AllWellFormed(data) && i < |data|
    ensures Join(DrainedOf(data[i..])) == Left(data[i], 0) + Join(DrainedOf(data[i + 1..]))
    ensures Len(data[i]) == 0 ==> Left(data[i], 0) == []
  {
    hide WellFormed, Len, Drained;
    var parts := DrainedOf(data);
    assert DrainedOf(data[i..]) == parts[i..] && DrainedOf(data[i + 1..]) == parts[i + 1..];
    JoinHead(parts, i);
    assert Left(data[i], 0) == Drained(data[i]);
  }

  lemma NothingLeft(data: seq<Column>)
    requires AllWellFormed(data)
    ensures Join(DrainedOf(data[|data|..])) == []
  {
    assert data[|data|..] == [];
  }

  /** Draining the iterator gives what the iterators over the chunks give, in order. */
  method Drain(data: seq<Column>) returns (rows: seq<Row>)
    requires AllWellFormed(data) && AllIterable(data)
    ensures rows == Join(DrainedOf(data))
  {
    hide WellFormed, Iterable, Len, Left, DrainedOf, Join, View, Item, AllWellFormed, AllIterable;
    var it := new ComplexIterator(data);
    rows := [];
    assert [] + it.Rest() == Join(DrainedOf(data));
    while true
      invariant it.Valid() && fresh(it.Repr()) && it.data == data && rows + it.Rest() == Join(DrainedOf(data))
      decreases |it.Rest()|
    {
      ghost var before := it.Rest();
      var r := it.Next();
      if r.None? {
        return;
      }
      TakeHead(rows, before);
      rows := rows + [r.value];
    }
  }

  /** That is what row access gives from the first row of the concatenation to the last if and
      only if all rows of all chunks are clean. */
  lemma DrainIsAccess(data: seq<Column>)
    requires AllWellFormed(data)
    ensures Join(AccessesOf(data)) == Join(SomesOf(DrainedOf(data)))
            <==> forall i :: 0 <= i < |data| ==> CleanRows(data[i], 0, Len(data[i]))
    ensures Join(SomesOf(DrainedOf(data))) == Somes(Join(DrainedOf(data)))
  {
    var ps, qs := AccessesOf(data), SomesOf(DrainedOf(data));
    forall i | 0 <= i < |data| ensures ps[i] == qs[i] <==> CleanRows(data[i], 0, Len(data[i])) {
      DrainedRows(data[i]);
    }
    hide WellFormed, CleanRows, Len, Accesses, Drained, Somes;
    JoinsEqual(ps, qs);
    if forall i :: 0 <= i < |data| ==> CleanRows(data[i], 0, Len(data[i])) {
      assert ps == qs;
    }
    JoinSomes(DrainedOf(data));
  }

  function SomesOf(parts: seq<seq<Row>>): (r: seq<seq<Option<Row>>>)
    ensures |r| == |parts| && forall i :: 0 <= i < |r| ==> r[i] == Somes(parts[i])
  {
    seq(|parts|, i requires 0 <= i < |parts| => Somes(parts[i]))
  }

  lemma {:induction false} JoinSomes(parts: seq<seq<Row>>)
    ensures Join(SomesOf(parts)) == Somes(Join(parts))
  {
    hide Somes;
    if |parts| == 0 {
      assert Somes([]) == [];
    } else {
      var n := |parts| - 1;
      JoinSomes(parts[..n]);
      assert SomesOf(parts)[..n] == SomesOf(parts[..n]);
      assert Somes(Join(parts[..n]) + parts[n]) == Somes(Join(parts[..n])) + Somes(parts[n]);
    }
  }
}
