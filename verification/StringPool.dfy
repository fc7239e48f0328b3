/** The arena of a string column: chunks of bytes, filled from the front, and a pointer for
    each string. */
module StringPool {
  import opened Bytes
  import opened Parsed
  import opened Uvarint
  import opened ReadEx

  const AVG_STR_SIZE: nat := 80

  datatype StringPtr = StringPtr(chunk: nat, shift: nat, len: nat) {
    function End(): nat { shift + len }

    /** This range lies in front of the other. */
    predicate Before(p: StringPtr) {
      chunk < p.chunk || (chunk == p.chunk && End() <= p.shift)
    }
  }

  /** Two ranges share no byte. */
  predicate Disjoint(p: StringPtr, q: StringPtr) {
    p.chunk != q.chunk || p.End() <= q.shift || q.End() <= p.shift
  }

  /** Copies `s` into the chunk, byte by byte. */
  method Fill(chunk: array<Byte>, shift: nat, s: Bytes)
    requires shift + |s| <= chunk.Length
    modifies chunk
    ensures chunk[shift..shift + |s|] == s
    ensures forall j :: 0 <= j < chunk.Length && (j < shift || shift + |s| <= j) ==> chunk[j] == old(chunk[j])
  {
    for k := 0 to |s|
      invariant forall j :: 0 <= j < k ==> chunk[shift + j] == s[j]
      invariant forall j :: 0 <= j < chunk.Length && (j < shift || shift + k <= j) ==> chunk[j] == old(chunk[j])
    {
      chunk[shift + k] := s[k];
    }
  }

  class Pool {
    var chunks: seq<array<Byte>>
    var pointers: seq<StringPtr>
    var position: nat
    const capacity: nat

    ghost function Repr(): set<object>
      reads this
    {
      {this} + (set c: object | c in chunks)
    }

    predicate InChunk(p: StringPtr)
      reads this
    {
      p.chunk < |chunks| && p.End() <= chunks[p.chunk].Length
    }

    predicate Filled()
      reads this
    {
      if |chunks| == 0 then position == 0 && pointers == []
      else position <= chunks[|chunks| - 1].Length
    }

    /** Each pointer lies in its chunk, behind those before it and in front of the position
        up to which the last chunk is given out. */
    ghost predicate Valid()
      reads this
    {
      Filled()
      && (forall i, j :: 0 <= i < j < |chunks| ==> chunks[i] != chunks[j])
      && (forall i :: 0 <= i < |pointers| ==> InChunk(pointers[i]))
      && (forall i :: 0 <= i < |pointers| ==> pointers[i].Before(StringPtr(|chunks| - 1, position, 0)))
      && (forall i, j :: 0 <= i < j < |pointers| ==> pointers[i].Before(pointers[j]))
    }

    function Read(p: StringPtr): (s: Bytes)
      requires InChunk(p)
      reads this, chunks[p.chunk]
      ensures |s| == p.len
    {
      chunks[p.chunk][p.shift..p.End()]
    }

    /** The strings in order. */
    ghost function Contents(): (r: seq<Bytes>)
      requires Valid()
      reads this, chunks
      ensures |r| == |pointers|
    {
      seq(|pointers|, i requires 0 <= i < |pointers| && InChunk(pointers[i]) reads this, chunks => Read(pointers[i]))
    }

    constructor (capacity: nat)
      ensures Valid() && Contents() == [] && this.capacity == capacity && chunks == []
    {
      chunks := [];
      pointers := [];
      position := 0;
      this.capacity := capacity;
    }

    function FreeSpace(): nat
      requires Filled()
      reads this
    {
      if |chunks| > 0 then chunks[|chunks| - 1].Length - position else 0
    }

    /** A new chunk that is large enough, whatever the capacity. */
    method Reserve(size: nat)
      requires Valid()
      modifies this`position, this`chunks
      ensures Valid() && pointers == old(pointers) && position == 0
      ensures |chunks| == |old(chunks)| + 1 && chunks[..|old(chunks)|] == old(chunks)
      ensures fresh(chunks[|old(chunks)|]) && FreeSpace() >= size
      ensures FreeSpace() == if size > 80 * capacity then size else 80 * capacity
    {
      position := 0;
      var n := if capacity * AVG_STR_SIZE >= size then capacity * AVG_STR_SIZE else size;
      var chunk := new Byte[n](_ => 0);
      chunks := chunks + [chunk];
    }

    method TryAllocate(size: nat) returns (r: Option<StringPtr>)
      requires Valid() && (|chunks| > 0 ==> FreeSpace() >= size)
      modifies this`position, this`pointers
      ensures Valid()
      ensures if |chunks| == 0 then r == None && pointers == old(pointers)
              else r.Some? && r.value.len == size && InChunk(r.value) && pointers == old(pointers) + [r.value]
    {
      if |chunks| > 0 {
        var p := StringPtr(|chunks| - 1, position, size);
        position := position + size;
        pointers := pointers + [p];
        return Some(p);
      }
      return None;
    }

    predicate Full(size: nat)
      requires Filled()
      reads this
    {
      FreeSpace() < size || |chunks| == 0
    }

    /** Gives out a range of `size` bytes. It calls itself at most once, since the reserved
        chunk is large enough. */
    method Allocate(size: nat) returns (p: StringPtr)
      requires Valid()
      modifies this`position, this`pointers, this`chunks
      ensures Valid() && p.len == size && InChunk(p)
      ensures pointers == old(pointers) + [p]
      ensures old(chunks) <= chunks && |chunks| <= |old(chunks)| + 1
      ensures |chunks| > |old(chunks)| ==> fresh(chunks[|old(chunks)|])
      ensures |chunks| > |old(chunks)| <==> old(Full(size))
      decreases if Full(size) then 1 else 0
    {
      if FreeSpace() < size || |chunks| == 0 {
        Reserve(size);
        p := Allocate(size);
        return;
      }
      var r := TryAllocate(size);
      return r.value;
    }

    /** The ranges given out never overlap. */
    lemma PointersDisjoint(i: nat, j: nat)
      requires Valid() && i < |pointers| && j < |pointers| && i != j
      ensures Disjoint(pointers[i], pointers[j])
    {
      if i < j {
        assert pointers[i].Before(pointers[j]);
      } else {
        assert pointers[j].Before(pointers[i]);
      }
    }

    /** Fills the range that has just been given out: no earlier string changes. */
    method FillLast(s: Bytes, ghost before: seq<Bytes>)
      requires Valid() && |pointers| > 0 && pointers[|pointers| - 1].len == |s|
      requires |before| == |pointers| - 1 && before == Contents()[..|before|]
      modifies chunks[pointers[|pointers| - 1].chunk]
      ensures Valid() && Contents() == before + [s]
    {
      var p := pointers[|pointers| - 1];
      var chunk := chunks[p.chunk];
      ghost var old_ := Contents();
      Fill(chunk, p.shift, s);
      forall i | 0 <= i < |before| ensures Read(pointers[i]) == before[i] {
        PointersDisjoint(i, |pointers| - 1);
        var q := pointers[i];
        assert before[i] == old_[i];
        if q.chunk == p.chunk {
          assert forall k :: q.shift <= k < q.End() ==> chunk[k] == old(chunk[k]);
        } else {
          assert chunks[q.chunk] != chunk;
        }
      }
      assert Contents() == before + [s];
    }

    /** Allocates and fills: the string is appended and no earlier one changes. */
    method Push(s: Bytes)
      requires Valid()
      modifies Repr()
      ensures Valid() && Contents() == old(Contents()) + [s]
      ensures fresh(Repr() - old(Repr()))
    {
      ghost var before := Contents();
      var p := Allocate(|s|);
      forall i | 0 <= i < |before| ensures Contents()[i] == before[i] {
        assert pointers[i] == old(pointers[i]);
        assert chunks[pointers[i].chunk] == old(chunks[pointers[i].chunk]);
      }
      assert Contents()[..|before|] == before;
      FillLast(s, before);
    }

    function Get(i: nat): (s: Bytes)
      requires Valid() && i < |pointers|
      reads this, chunks
      ensures s == Contents()[i]
    {
      Read(pointers[i])
    }
  }

  /** The pool made of a list of strings. */
  method FromList(source: seq<Bytes>) returns (pool: Pool)
    ensures fresh(pool.Repr()) && pool.Valid() && pool.Contents() == source
  {
    pool := new Pool(|source|);
    for i := 0 to |source|
      invariant fresh(pool.Repr()) && pool.Valid() && pool.Contents() == source[..i]
    {
      pool.Push(source[i]);
      assert source[..i + 1] == source[..i] + [source[i]];
    }
    assert source[..|source|] == source;
  }

  class StringIter {
    const pool: Pool
    var index: nat

    constructor (pool: Pool)
      ensures this.pool == pool && index == 0
    {
      this.pool := pool;
      index := 0;
    }

    method Next() returns (r: Option<Bytes>)
      requires pool.Valid()
      modifies this
      ensures if old(index) < |pool.Contents()| then r == Some(pool.Contents()[old(index)]) && index == old(index) + 1
              else r == None && index == old(index)
    {
      if index < |pool.pointers| {
        r := Some(pool.Get(index));
        index := index + 1;
        return;
      }
      return None;
    }
  }

  /** `read_str_into_buffer`: a length-prefixed string read straight into the pool. When the
      bytes run out its range stays behind unfilled, and the caller starts over with a new
      pool. */
  method ReadStrIntoBuffer(reader: Reader, pool: Pool) returns (r: Parsed<()>)
    requires reader.Valid() && pool.Valid() && reader !in pool.Repr()
    modifies reader`pos, pool.Repr()
    ensures pool.Valid() && fresh(pool.Repr() - old(pool.Repr())) && reader.After(r)
    ensures match ReadBlob(reader.data, old(reader.pos))
            case Ok(s, p) => r == Ok((), p) && pool.Contents() == old(pool.Contents()) + [s]
            case WouldBlock => r == WouldBlock
            case Err(e, p) => r == Err(e, p)
  {
    hide ReadUvarint, ReadBytes;
    var n :- reader.TakeUvarint();
    ghost var before := pool.Contents();
    var p := pool.Allocate(n.0);
    forall i | 0 <= i < |before| ensures pool.Contents()[i] == before[i] {
      assert pool.pointers[i] == old(pool.pointers[i]);
      assert pool.chunks[pool.pointers[i].chunk] == old(pool.chunks[pool.pointers[i].chunk]);
    }
    assert pool.Contents()[..|before|] == before;
    var s :- reader.TakeBytes(n.0);
    pool.FillLast(s.0, before);
    return Ok((), reader.pos);
  }
}
