/** The reader extensions and the encoder: what each call reads or appends, and the
    loops that do it. */
module ReadEx {
  import opened Bytes
  import opened Parsed
  import opened Uvarint

  // ----- what is read -----

  function ReadBytes(d: Bytes, pos: nat, n: nat): (r: Parsed<Bytes>)
    requires pos <= |d|
    ensures r.Within(pos, d)
    ensures r.Ok? ==> |r.value| == n
  {
    if pos + n <= |d| then Ok(d[pos..pos + n], pos + n) else WouldBlock
  }

  /** A little-endian scalar of `width` bytes. */
  function ReadWord(d: Bytes, pos: nat, width: nat): (r: Parsed<nat>)
    requires pos <= |d|
    ensures r.Within(pos, d)
  {
    var (bs, p) :- ReadBytes(d, pos, width);
    Ok(FromLE(bs), p)
  }

  /** A length-prefixed byte string, not checked. */
  function ReadBlob(d: Bytes, pos: nat): (r: Parsed<Bytes>)
    requires pos <= |d|
    ensures r.Within(pos, d)
    ensures r.Ok? ==> pos < r.pos
  {
    var (n, p) :- ReadUvarint(d, pos);
    ReadBytes(d, p, n)
  }

  /** A length-prefixed string that has to be UTF-8. */
  function ReadString(d: Bytes, pos: nat): (r: Parsed<Bytes>)
    requires pos <= |d|
    ensures r.Within(pos, d)
    ensures r.Ok? ==> pos < r.pos && ValidUtf8(r.value)
  {
    var (s, p) :- ReadBlob(d, pos);
    if ValidUtf8(s) then Ok(s, p) else Err(InvalidUtf8, p)
  }

  function SkipString(d: Bytes, pos: nat): (r: Parsed<()>)
    requires pos <= |d|
    ensures r.Within(pos, d)
  {
    var (s, p) :- ReadBlob(d, pos);
    Ok((), p)
  }

  // ----- what is written -----

  function Blob(s: Bytes): (r: Bytes)
  {
    Leb(|s|) + s
  }

  // ----- round trips -----

  lemma BytesAt(d: Bytes, pos: nat, bs: Bytes)
    requires Holds(d, pos, bs)
    ensures ReadBytes(d, pos, |bs|) == Ok(bs, pos + |bs|)
  {
  }

  lemma WordAt(d: Bytes, pos: nat, width: nat, w: nat)
    requires w < Pow256(width) && Holds(d, pos, ToLE(width, w))
    ensures ReadWord(d, pos, width) == Ok(w, pos + width)
  {
    FromLEToLE(width, w);
  }

  lemma BlobAt(d: Bytes, pos: nat, s: Bytes)
    requires |s| < U64_LIMIT && Holds(d, pos, Blob(s))
    ensures ReadBlob(d, pos) == Ok(s, pos + |Blob(s)|)
  {
    HoldsSplit(d, pos, Leb(|s|), s);
    UvarintRoundTrip(|s|, d, pos);
  }

  /** `read_string` gives back what `byte_string` wrote exactly when that is UTF-8. */
  lemma StringAt(d: Bytes, pos: nat, s: Bytes)
    requires |s| < U64_LIMIT && Holds(d, pos, Blob(s))
    ensures ReadString(d, pos) ==
              if ValidUtf8(s) then Ok(s, pos + |Blob(s)|) else Err(InvalidUtf8, pos + |Blob(s)|)
  {
    BlobAt(d, pos, s);
  }

  // ----- more bytes do not change an answer -----

  lemma BytesMono(d: Bytes, d2: Bytes, pos: nat, n: nat)
    requires pos <= |d| && d <= d2
    requires !ReadBytes(d, pos, n).WouldBlock?
    ensures ReadBytes(d2, pos, n) == ReadBytes(d, pos, n)
  {
    assert d2[pos..pos + n] == d[pos..pos + n];
  }

  lemma WordMono(d: Bytes, d2: Bytes, pos: nat, width: nat)
    requires pos <= |d| && d <= d2
    requires !ReadWord(d, pos, width).WouldBlock?
    ensures ReadWord(d2, pos, width) == ReadWord(d, pos, width)
  {
    BytesMono(d, d2, pos, width);
  }

  lemma BlobMono(d: Bytes, d2: Bytes, pos: nat)
    requires pos <= |d| && d <= d2
    requires !ReadBlob(d, pos).WouldBlock?
    ensures ReadBlob(d2, pos) == ReadBlob(d, pos)
  {
    UvarintMono(d, d2, pos);
    var r := ReadUvarint(d, pos);
    if r.Ok? { BytesMono(d, d2, r.pos, r.value); }
  }

  lemma StringMono(d: Bytes, d2: Bytes, pos: nat)
    requires pos <= |d| && d <= d2
    requires !ReadString(d, pos).WouldBlock?
    ensures ReadString(d2, pos) == ReadString(d, pos)
  {
    BlobMono(d, d2, pos);
  }

  lemma SkipMono(d: Bytes, d2: Bytes, pos: nat)
    requires pos <= |d| && d <= d2
    requires !SkipString(d, pos).WouldBlock?
    ensures SkipString(d2, pos) == SkipString(d, pos)
  {
    BlobMono(d, d2, pos);
  }

  // ----- the cursor -----

  class Reader {
    const data: Bytes
    var pos: nat

    constructor (data: Bytes)
      ensures this.data == data && pos == 0
    {
      this.data := data;
      pos := 0;
    }

    ghost predicate Valid()
      reads this
    {
      pos <= |data|
    }

    /** After a call that answered `r`, the cursor stands where `r` says; after
        `WouldBlock` it stands anywhere, since the caller restarts. */
    ghost predicate After<T>(r: Parsed<T>)
      reads this
    {
      Valid() && (!r.WouldBlock? ==> pos == r.pos)
    }

    /** One `read` call: between one and `n` bytes while there are any, none at the end. */
    method Read(n: nat) returns (chunk: Bytes)
      requires Valid() && n > 0
      modifies this`pos
      ensures Valid() && pos == old(pos) + |chunk|
      ensures |chunk| <= n && chunk == data[old(pos)..pos]
      ensures |chunk| == 0 <==> old(pos) == |data|
    {
      if pos == |data| {
        chunk := [];
      } else {
        var room := if n < |data| - pos then n else |data| - pos;
        var k: nat :| 1 <= k <= room;
        chunk := data[pos..pos + k];
        pos := pos + k;
      }
    }

    method TakeBytes(n: nat) returns (r: Parsed<Bytes>)
      requires Valid()
      modifies this`pos
      ensures r == ReadBytes(data, old(pos), n) && After(r)
    {
      var i := 0;
      var acc := [];
      while i < n
        invariant i <= n && Valid() && pos == old(pos) + i
        invariant acc == data[old(pos)..pos]
      {
        var chunk := Read(n - i);
        if |chunk| == 0 {
          return WouldBlock;
        }
        i := i + |chunk|;
        acc := acc + chunk;
      }
      return Ok(acc, pos);
    }

    method TakeWord(width: nat) returns (r: Parsed<nat>)
      requires Valid()
      modifies this`pos
      ensures r == ReadWord(data, old(pos), width) && After(r)
    {
      var word :- TakeBytes(width);
      return Ok(FromLE(word.0), pos);
    }

    method TakeUvarint() returns (r: Parsed<nat>)
      requires Valid()
      modifies this`pos
      ensures r == ReadUvarint(data, old(pos)) && After(r)
    {
      var x, s, i := 0, 0, 0;
      ghost var start := pos;
      while true
        invariant Valid() && pos == start + i && s == 7 * i
        invariant forall k :: start <= k < pos ==> data[k] >= 0x80
        invariant i <= 9 ==> x == LebValue(data[start..pos])
        decreases |data| - pos
      {
        var byte := TakeByte();
        if byte.WouldBlock? {
          NoTerminator(start);
          return WouldBlock;
        }
        var b := byte.value;
        var next := BitOr(x, Shl64(b % 0x80, s));
        if i <= 9 { OneGroup(start, i, x); }
        if b < 0x80 {
          TerminatorAt(data, start, start + i);
          if i > 9 || (i == 9 && b > 1) {
            return Err(Overflow, pos);
          }
          return Ok(next, pos);
        }
        x := next;
        s := s + 7;
        i := i + 1;
      }
    }

    method TakeByte() returns (r: Parsed<Byte>)
      requires Valid()
      modifies this`pos
      ensures Valid()
      ensures r == if old(pos) < |data| then Ok(data[old(pos)], old(pos) + 1) else WouldBlock
      ensures r.Ok? ==> pos == r.pos
    {
      var one :- TakeBytes(1);
      return Ok(one.0[0], pos);
    }

    lemma NoTerminator(start: nat)
      requires start <= |data| && forall k :: start <= k < |data| ==> data[k] >= 0x80
      ensures ReadUvarint(data, start) == WouldBlock
    {
    }

    /** Adding the next group with a shift and an or is adding it in place, as long
        as no bit is shifted out of the word. */
    lemma OneGroup(start: nat, i: nat, x: nat)
      requires start + i < |data| && i <= 9
      requires x == LebValue(data[start..start + i])
      ensures i < 9 || data[start + i] <= 1 ==>
                BitOr(x, Shl64(data[start + i] % 0x80, 7 * i)) == LebValue(data[start..start + i + 1])
    {
      var bs, b := data[start..start + i], data[start + i];
      if i < 9 || b <= 1 {
        assert data[start..start + i + 1] == bs + [b];
        LebValueBound(bs);
        LebValueAppend(bs, b);
        ShiftFits(b % 0x80, i);
        Pow2Sevens(i);
        OrDisjoint(x, b % 0x80, 7 * i);
      }
    }

    method TakeBlob() returns (r: Parsed<Bytes>)
      requires Valid()
      modifies this`pos
      ensures r == ReadBlob(data, old(pos)) && After(r)
    {
      var n :- TakeUvarint();
      r := TakeBytes(n.0);
    }

    method TakeString() returns (r: Parsed<Bytes>)
      requires Valid()
      modifies this`pos
      ensures r == ReadString(data, old(pos)) && After(r)
    {
      var blob :- TakeBlob();
      if !ValidUtf8(blob.0) {
        return Err(InvalidUtf8, pos);
      }
      return Ok(blob.0, pos);
    }

    method Skip() returns (r: Parsed<()>)
      requires Valid()
      modifies this`pos
      ensures r == SkipString(data, old(pos)) && After(r)
    {
      var blob :- TakeBlob();
      return Ok((), pos);
    }
  }

  // ----- the encoder -----

  class Encoder {
    var buffer: Bytes

    constructor ()
      ensures buffer == []
    {
      buffer := [];
    }

    method WriteBytes(b: Bytes)
      modifies this
      ensures buffer == old(buffer) + b
    {
      buffer := buffer + b;
    }

    /** Encodes into a ten-byte scratch buffer and appends what was filled. */
    method Uvarint(v: nat)
      requires v < U64_LIMIT
      modifies this
      ensures buffer == old(buffer) + Leb(v)
    {
      LebLength64(v);
      var scratch := new Byte[MAX_VARINT_LEN64](_ => 0);
      var n := PutUvarint(scratch, v);
      WriteBytes(scratch[..n]);
    }

    method ByteString(s: Bytes)
      requires |s| < U64_LIMIT
      modifies this
      ensures buffer == old(buffer) + Blob(s)
    {
      Uvarint(|s|);
      WriteBytes(s);
      assert old(buffer) + Leb(|s|) + s == old(buffer) + Blob(s);
    }

    method Word(width: nat, w: nat)
      modifies this
      ensures buffer == old(buffer) + ToLE(width, w)
    {
      WriteBytes(ToLE(width, w));
    }
  }
}
