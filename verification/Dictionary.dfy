/** A low-cardinality column: a dictionary, codes whose width grows with the rows, and a
    map from values to codes. */
module Dictionary {
  import opened Bytes
  import opened SqlTypes
  import opened Factory
  import opened Columns
  import opened ColumnCodec
  import opened Push

  function MaxLen(t: IndexType): nat {
    match t
    case IxUInt8 => 0xFF
    case IxUInt16 => 0xFFFF
    case IxUInt32 => 0xFFFF_FFFF
    case IxUInt64 => 0xFFFF_FFFF_FFFF_FFFF
  }

  lemma MaxLenIsWidth(t: IndexType)
    ensures MaxLen(t) == Pow256(IndexWidth(t)) - 1
  {
    Pow256Of8();
  }

  /** The next wider index. */
  function Wider(t: IndexType): IndexType {
    match t case IxUInt8 => IxUInt16 case IxUInt16 => IxUInt32 case _ => IxUInt64
  }

  /** Widening doubles the width of the codes, up to eight bytes. */
  lemma WiderDoubles(t: IndexType)
    ensures IndexWidth(Wider(t)) == if IndexWidth(t) < 8 then 2 * IndexWidth(t) else 8
  {
  }

  /** The index after a push on `n` rows. */
  function Grow(t: IndexType, n: nat): IndexType {
    if n + 1 > MaxLen(t) then Wider(t) else t
  }

  lemma GrowFits(t: IndexType, n: nat)
    requires n + 1 < U64_LIMIT
    ensures MaxLen(t) <= MaxLen(Grow(t, n))
    ensures n <= MaxLen(t) ==> n + 1 <= MaxLen(Grow(t, n))
  {
  }

  /** The flags that are saved name the width of the codes, and the loader accepts them. */
  lemma FlagsNameWidth(t: IndexType)
    ensures IndexTypeOf(Flags(t) % 0x100) == Some(t)
    ensures Flags(t) / 0x100 % 2 == 0 && Flags(t) / 0x200 % 2 == 1
    ensures match t case IxUInt8 => Flags(t) == 0x600 case IxUInt16 => Flags(t) == 0x601
                    case IxUInt32 => Flags(t) == 0x602 case IxUInt64 => Flags(t) == 0x603
  {
  }

  /** Inner types of low-cardinality columns. */
  predicate Flat(t: SqlType) { t.Plain? || t.Text? || t.FixedString? }

  /** Types of the values that can be hashed; hashing any other one panics. */
  predicate Hashable(t: SqlType) {
    match t
    case Plain(s) => s != Bool && s != Float32 && s != Float64 && s != Ipv4 && s != Ipv6 && s != Uuid
    case Text => true
    case FixedString(_) => true
    case _ => false
  }

  /** Strings, dates and integers can be hashed, and nothing else of the inner types. */
  lemma HashableExactly(t: SqlType)
    requires Flat(t)
    ensures Hashable(t) <==>
      t == SqlType.Text || (exists n :: t == FixedString(n)) || t == Plain(Date)
      || (exists s :: t == Plain(s)
            && s in [UInt8, UInt16, UInt32, UInt64, UInt128, Int8, Int16, Int32, Int64, Int128])
  {
    match t
    case Text =>
    case FixedString(n) => assert t == FixedString(n);
    case Plain(s) =>
  }

  /** What is pushed is what is stored. */
  predicate Lossless(t: SqlType) { t.Plain? || t.Text? }

  lemma StoredLossless(t: SqlType, v: Value)
    requires Lossless(t) && Stored(t, v).Some?
    ensures Stored(t, v) == Some(v)
  {
  }

  /** A stored value is stored as it is. */
  lemma StoredRow(c: Column, k: nat)
    requires WellFormed(c) && k < Len(c) && Flat(TypeOf(c)) && !c.ChunkCol?
    ensures |Rows(c)| == Len(c) && Stored(TypeOf(c), Rows(c)[k]) == Some(Rows(c)[k])
  {
    assert Rows(c)[k] == At(c, k);
    if c.Cells? { assert c.cells[k][..|c.cells[k]|] == c.cells[k]; }
  }

  predicate Distinct(vs: seq<Value>) {
    forall i, j :: 0 <= i < j < |vs| ==> vs[i] != vs[j]
  }

  function EmptyColumn(t: SqlType): Column {
    if t.Text? then Strings([]) else Cells(t, [])
  }

  lemma EmptyIsEmpty(t: SqlType)
    requires Flat(t) && CellWidth(t) + (if t.Text? then 1 else 0) > 0
    ensures WellFormed(EmptyColumn(t)) && TypeOf(EmptyColumn(t)) == t && Rows(EmptyColumn(t)) == []
  {
  }

  lemma DictColumn(ix: IndexType, codes: seq<nat>, inner: Column)
    requires WellFormed(inner) && !inner.ChunkCol? && |codes| < U64_LIMIT
    requires forall i :: 0 <= i < |codes| ==> codes[i] < |Rows(inner)| && codes[i] <= MaxLen(ix)
    ensures WellFormed(LowCardinalityCol(ix, codes, inner))
    ensures Rows(LowCardinalityCol(ix, codes, inner)) == Decoded(codes, Rows(inner))
  {
    MaxLenIsWidth(ix);
    var c := LowCardinalityCol(ix, codes, inner);
    assert WellFormed(c);
    forall i | 0 <= i < |codes| ensures At(c, i) == Decoded(codes, Rows(inner))[i] {
      assert Rows(inner)[codes[i]] == At(inner, codes[i]);
    }
    RowsAre(c, Decoded(codes, Rows(inner)));
  }

  /** The rows that codes stand for. */
  function Decoded(codes: seq<nat>, dict: seq<Value>): (r: seq<Value>)
    requires forall i :: 0 <= i < |codes| ==> codes[i] < |dict|
    ensures |r| == |codes| && forall i :: 0 <= i < |codes| ==> r[i] == dict[codes[i]]
  {
    if |codes| == 0 then [] else Decoded(codes[..|codes| - 1], dict) + [dict[codes[|codes| - 1]]]
  }

  /** The code of each value that occurs in the rows; the last row decides. */
  function ValueMapOf(codes: seq<nat>, dict: seq<Value>): map<Value, nat>
    requires forall i :: 0 <= i < |codes| ==> codes[i] < |dict|
  {
    if |codes| == 0 then map[]
    else
      var code := codes[|codes| - 1];
      ValueMapOf(codes[..|codes| - 1], dict)[dict[code] := code]
  }

  /** When entries are equal, the map has the code of the last row. */
  lemma {:induction false} LastRowDecides(codes: seq<nat>, dict: seq<Value>, i: nat)
    requires forall j :: 0 <= j < |codes| ==> codes[j] < |dict|
    requires i < |codes| && forall j :: i < j < |codes| ==> dict[codes[j]] != dict[codes[i]]
    ensures dict[codes[i]] in ValueMapOf(codes, dict) && ValueMapOf(codes, dict)[dict[codes[i]]] == codes[i]
  {
    if i < |codes| - 1 { LastRowDecides(codes[..|codes| - 1], dict, i); }
  }

  lemma {:induction false} ValueMapHas(codes: seq<nat>, dict: seq<Value>)
    requires forall i :: 0 <= i < |codes| ==> codes[i] < |dict|
    ensures var m := ValueMapOf(codes, dict);
      (forall v <- m :: m[v] < |dict| && dict[m[v]] == v)
      && forall i :: 0 <= i < |codes| ==> dict[codes[i]] in m
  {
    if |codes| > 0 {
      ValueMapHas(codes[..|codes| - 1], dict);
      var c := codes[..|codes| - 1];
      assert forall i :: 0 <= i < |codes| - 1 ==> codes[i] == c[i];
    }
  }

  /** The codes in an index of type `t`. */
  function Truncated(code: nat, t: IndexType): (r: nat)
    ensures r <= MaxLen(t) && r <= code && (code <= MaxLen(t) ==> r == code)
  {
    code % (MaxLen(t) + 1)
  }

  lemma DecodedMore(codes: seq<nat>, dict: seq<Value>, code: nat, dict2: seq<Value>)
    requires forall i :: 0 <= i < |codes| ==> codes[i] < |dict|
    requires dict <= dict2 && code < |dict2|
    ensures Decoded(codes + [code], dict2) == Decoded(codes, dict) + [dict2[code]]
  {
  }

  /** No more entries than rows, and no more rows than the index has codes. */
  predicate Tight(codes: seq<nat>, dict: seq<Value>, index: IndexType) {
    |dict| <= |codes| <= MaxLen(index)
  }

  /** No value is twice in the dictionary, every entry is used, and the map knows them all. */
  predicate Exact(codes: seq<nat>, dict: seq<Value>, m: Option<map<Value, nat>>) {
    Distinct(dict)
    && (forall k: nat :: k < |dict| ==> k in codes)
    && (m.Some? ==> forall k :: 0 <= k < |dict| ==> dict[k] in m.value)
  }

  /** Without loss, a value that the map does not know is not in the dictionary. */
  lemma ExactStep(codes: seq<nat>, dict: seq<Value>, known: map<Value, nat>, v: Value)
    requires Exact(codes, dict, Some(known))
    ensures var code := if v in known then known[v] else |dict|;
      Exact(codes + [code], if v in known then dict else dict + [v], Some(known[v := code]))
  {
    var code := if v in known then known[v] else |dict|;
    var dict2 := if v in known then dict else dict + [v];
    forall k: nat | k < |dict2| ensures k in codes + [code] {
      if k < |dict| { assert k in codes; } else { assert (codes + [code])[|codes|] == k; }
    }
  }

  lemma GrownStep(codes: seq<nat>, dict: seq<Value>, known: map<Value, nat>, v: Value, index: IndexType,
        exact: bool, x: Value)
    requires Tight(codes, dict, index) && |codes| + 1 < U64_LIMIT
    requires forall w <- known :: known[w] < |dict|
    requires exact ==> x == v && Exact(codes, dict, Some(known))
    ensures var code := if v in known then known[v] else |dict|;
      var dict2 := if v in known then dict else dict + [x];
      Tight(codes + [code], dict2, Grow(index, |codes|)) && code <= MaxLen(Grow(index, |codes|))
      && (exact ==> Exact(codes + [code], dict2, Some(known[v := code])))
  {
    GrowFits(index, |codes|);
    if exact { ExactStep(codes, dict, known, v); }
  }

  /** The row that a pushed code stands for: right exactly when the code that was cut to
      the width of the index still stands for the value. */
  lemma PushedRow(codes: seq<nat>, dict: seq<Value>, dict2: seq<Value>, code: nat, t: IndexType)
    requires forall i :: 0 <= i < |codes| ==> codes[i] < |dict|
    requires dict <= dict2 && code < |dict2|
    ensures Decoded(codes + [Truncated(code, t)], dict2) == Decoded(codes, dict) + [dict2[Truncated(code, t)]]
    ensures code <= MaxLen(t) ==> Truncated(code, t) == code
    ensures code == |dict| && dict2[code] !in dict && dict2[Truncated(code, t)] == dict2[code] ==> code <= MaxLen(t)
    ensures OnlyAt(dict2, code) && dict2[Truncated(code, t)] == dict2[code] ==> code <= MaxLen(t)
  {
    DecodedMore(codes, dict, Truncated(code, t), dict2);
    if code > MaxLen(t) { TruncatedLess(code, t); }
    if code > MaxLen(t) && code == |dict| {
      TruncatedLess(code, t);
      assert dict2[Truncated(code, t)] == dict[Truncated(code, t)];
    }
  }

  /** No other entry reads like entry `k`. */
  predicate OnlyAt(dict: seq<Value>, k: nat) {
    k < |dict| && forall j :: 0 <= j < |dict| && j != k ==> dict[j] != dict[k]
  }

  lemma TruncatedLess(code: nat, t: IndexType)
    requires code > MaxLen(t)
    ensures Truncated(code, t) < code
  {
  }

  lemma FlatRoom(c: Column, v: Value)
    requires WellFormed(c) && !c.ChunkCol? && Flat(TypeOf(c)) && Len(c) + Cost(v) < U64_LIMIT
    ensures Room(c, Cost(v)) && Pushable(TypeOf(c))
  {
  }

  lemma FlatPushed(c: Column, v: Value, r: Option<Column>)
    requires WellFormed(c) && Pushed(c, v, Cost(v), r)
    ensures r.Some? <==> Stored(TypeOf(c), v).Some?
    ensures r.Some? ==>
              WellFormed(r.value) && !r.value.ChunkCol? && TypeOf(r.value) == TypeOf(c)
              && Rows(r.value) == Rows(c) + [Stored(TypeOf(c), v).value]
  {
    hide Stored, WellFormed, Rows, TypeOf, Room, Cost;
  }

  class LowCardinalityColumn {
    var inner: Column
    var index: IndexType
    var codes: seq<nat>
    var valueMap: Option<map<Value, nat>>

    ghost function Dict(): seq<Value>
      requires WellFormed(inner)
      reads this`inner
    {
      Rows(inner)
    }

    /** Every code is in the dictionary and fits the index; the map answers with a code
        under which the value is stored. */
    ghost predicate Valid()
      reads this
    {
      WellFormed(inner) && !inner.ChunkCol? && Flat(TypeOf(inner)) && |codes| < U64_LIMIT
      && (forall i :: 0 <= i < |codes| ==> codes[i] < |Dict()| && codes[i] <= MaxLen(index))
      && (valueMap.Some? ==> forall v <- valueMap.value :: Answers(v, valueMap.value[v]))
    }

    ghost predicate Answers(v: Value, code: nat)
      requires WellFormed(inner)
      reads this`inner
    {
      code < |Dict()| && Stored(TypeOf(inner), v) == Some(Dict()[code])
    }

    /** What holds of a column grown from empty by pushes. */
    ghost predicate Grown()
      reads this
    {
      Valid() && Tight(codes, Dict(), index)
      && (Lossless(TypeOf(inner)) ==> Exact(codes, Dict(), valueMap))
    }

    /** The rows. */
    ghost function Contents(): seq<Value>
      requires Valid()
      reads this
    {
      Decoded(codes, Dict())
    }

    constructor Empty(t: SqlType)
      requires Flat(t) && CellWidth(t) + (if t.Text? then 1 else 0) > 0
      ensures Grown() && Contents() == [] && TypeOf(inner) == t && index == IxUInt8
      ensures codes == [] && Dict() == [] && valueMap == None
    {
      inner := EmptyColumn(t);
      index := IxUInt8;
      codes := [];
      valueMap := None;
      EmptyIsEmpty(t);
    }

    constructor Load(inner: Column, index: IndexType, codes: seq<nat>)
      requires WellFormed(inner) && !inner.ChunkCol? && Flat(TypeOf(inner)) && |codes| < U64_LIMIT
      requires forall i :: 0 <= i < |codes| ==> codes[i] < |Rows(inner)| && codes[i] <= MaxLen(index)
      ensures Valid() && this.inner == inner && this.index == index && this.codes == codes && valueMap == None
      ensures Contents() == Decoded(codes, Rows(inner))
    {
      this.inner := inner;
      this.index := index;
      this.codes := codes;
      valueMap := None;
    }

    /** The column as it is saved; saving and loading it are the codec's. */
    lemma AsColumn()
      requires Valid()
      ensures WellFormed(LowCardinalityCol(index, codes, inner))
      ensures Rows(LowCardinalityCol(index, codes, inner)) == Contents()
    {
      hide WellFormed, Rows, TypeOf, Stored;
      DictColumn(index, codes, inner);
    }

    method Get(i: nat) returns (v: Value)
      requires Valid() && i < |codes|
      ensures v == Contents()[i]
    {
      v := At(inner, codes[i]);
    }

    /** Maps each value that occurs to its code; it panics when there is one and it cannot
        be hashed. */
    method BuildValueMap() returns (m: Option<map<Value, nat>>)
      requires Valid()
      ensures m.None? <==> |codes| > 0 && !Hashable(TypeOf(inner))
      ensures m.Some? ==> m.value == ValueMapOf(codes, Dict())
    {
      var known: map<Value, nat> := map[];
      hide WellFormed, Rows, TypeOf, Stored, At, Len, Hashable;
      ghost var dict := Dict();
      for i := 0 to |codes|
        invariant known == ValueMapOf(codes[..i], dict)
        invariant i > 0 ==> Hashable(TypeOf(inner))
      {
        var value := Get(i);
        if !Hashable(TypeOf(inner)) {
          return None;
        }
        assert codes[..i + 1][..i] == codes[..i];
        known := known[value := codes[i]];
      }
      assert codes[..|codes|] == codes;
      return Some(known);
    }

    /** The map that a push works with. */
    ghost function Known(): map<Value, nat>
      requires Valid()
      reads this
    {
      if valueMap.Some? then valueMap.value else ValueMapOf(codes, Dict())
    }

    lemma KnownAnswers()
      requires Valid()
      ensures forall v <- Known() ::
                Answers(v, Known()[v]) && Known()[v] < |Dict()| && Stored(TypeOf(inner), v) == Some(Dict()[Known()[v]])
      ensures Grown() && Lossless(TypeOf(inner)) ==> forall k :: 0 <= k < |Dict()| ==> Dict()[k] in Known()
    {
      if valueMap.None? {
        ValueMapHas(codes, Dict());
        forall v <- Known() ensures Answers(v, Known()[v]) {
          StoredRow(inner, Known()[v]);
        }
        if Grown() && Lossless(TypeOf(inner)) {
          forall k | 0 <= k < |Dict()| ensures Dict()[k] in Known() {
            assert k in codes;
            var i :| 0 <= i < |codes| && codes[i] == k;
            assert Dict()[codes[i]] in Known();
          }
        }
      }
    }

    /** The code of a value that is to be pushed: the known one, or the next entry of the
        dictionary. */
    ghost function CodeFor(v: Value): nat
      requires Valid()
      reads this
    {
      if v in Known() then Known()[v] else |Dict()|
    }

    /** Appends to the index, which is widened first when it is full; a code that does not
        fit is cut. */
    method PushCode(code: nat)
      requires |codes| + 1 < U64_LIMIT
      modifies this`index, this`codes
      ensures index == Grow(old(index), |old(codes)|)
      ensures codes == old(codes) + [Truncated(code, index)]
    {
      if |codes| + 1 > MaxLen(index) {
        index := Wider(index);
      }
      codes := codes + [Truncated(code, index)];
    }

    /** Whether the map is there or can be built. */
    ghost predicate HasMap()
      reads this
    {
      valueMap.Some? || |codes| == 0 || Hashable(TypeOf(inner))
    }

    method EnsureMap() returns (ok: bool)
      requires Valid()
      modifies this`valueMap
      ensures ok == old(HasMap())
      ensures Valid() && valueMap == if ok then Some(old(Known())) else None
    {
      KnownAnswers();
      hide WellFormed, Rows, TypeOf, Stored, At, Len, ValueMapOf, MaxLen, Flat, Hashable;
      if valueMap.None? {
        var m := BuildValueMap();
        if m.None? {
          return false;
        }
        assert m.value == Known();
        assert forall v <- m.value :: Answers(v, m.value[v]);
        valueMap := m;
        assert forall v <- m.value :: Answers(v, m.value[v]);
      }
      return true;
    }

    /** A value that is not known yet becomes the next entry of the dictionary; its entry in
        the map is where a value that cannot be hashed panics at the latest. */
    method PushNew(v: Value) returns (ok: bool)
      requires Valid() && valueMap.Some? && |codes| + 1 < U64_LIMIT && Len(inner) + Cost(v) < U64_LIMIT
      modifies this
      ensures ok <==> Hashable(old(TypeOf(inner))) && Stored(old(TypeOf(inner)), v).Some?
      ensures Valid() && TypeOf(inner) == old(TypeOf(inner))
      ensures ok ==> index == Grow(old(index), |old(codes)|)
      ensures ok ==> codes == old(codes) + [Truncated(|old(Dict())|, index)]
      ensures ok ==> Dict() == old(Dict()) + [Stored(old(TypeOf(inner)), v).value]
      ensures ok ==> valueMap == Some(old(valueMap.value)[v := |old(Dict())|])
      ensures !ok ==> codes == old(codes) && inner == old(inner) && index == old(index) && valueMap == old(valueMap)
    {
      GrowFits(index, |codes|);
      FlatRoom(inner, v);
      hide WellFormed, Rows, TypeOf, Stored, At, Len, Cost, ValueMapOf, MaxLen, Grow, Flat, Pushable, Room;
      hide Pushed, Hashable;
      var n := Len(inner);
      var grown := PushValue(inner, v, Cost(v));
      FlatPushed(inner, v, grown);
      if grown.None? || !Hashable(TypeOf(inner)) {
        return false;
      }
      inner := grown.value;
      valueMap := Some(valueMap.value[v := n]);
      PushCode(n);
      return true;
    }

    /** What a push does to the fields. */
    method PushRaw(v: Value) returns (ok: bool)
      requires Valid() && |codes| + 1 < U64_LIMIT && Len(inner) + Cost(v) < U64_LIMIT
      modifies this
      ensures ok <==> Hashable(old(TypeOf(inner))) && Stored(old(TypeOf(inner)), v).Some?
      ensures Valid() && TypeOf(inner) == old(TypeOf(inner))
      ensures ok ==> index == Grow(old(index), |old(codes)|)
      ensures ok ==> codes == old(codes) + [Truncated(old(CodeFor(v)), index)]
      ensures ok ==> Dict() == if v in old(Known()) then old(Dict())
                               else old(Dict()) + [Stored(old(TypeOf(inner)), v).value]
      ensures ok ==> valueMap == Some(old(Known())[v := old(CodeFor(v))])
      ensures !ok ==> codes == old(codes) && inner == old(inner) && index == old(index)
      ensures !ok ==> valueMap == if old(HasMap()) then Some(old(Known())) else None
    {
      var built := EnsureMap();
      if !built {
        return false;
      }
      GrowFits(index, |codes|);
      KnownAnswers();
      hide WellFormed, Rows, TypeOf, Stored, At, Len, Cost, ValueMapOf, MaxLen, Grow, Flat, Hashable;
      var m := valueMap.value;
      if v in m {
        if !Hashable(TypeOf(inner)) {
          return false;
        }
        PushCode(m[v]);
        assert m[v := m[v]] == m;
        return true;
      }
      ok := PushNew(v);
    }

    /** Appends a value; it panics exactly on values that are not of the inner type or cannot
        be hashed. A grown column stays one, and the value is its last row. On any other
        column the value is the last row when the index has a code for it, and when only one
        entry of the dictionary reads like the value, then only so. */
    method Push(v: Value) returns (ok: bool)
      requires Valid() && |codes| + 1 < U64_LIMIT && Len(inner) + Cost(v) < U64_LIMIT
      modifies this
      ensures Valid() && TypeOf(inner) == old(TypeOf(inner))
      ensures ok <==> Hashable(old(TypeOf(inner))) && Stored(old(TypeOf(inner)), v).Some?
      ensures ok ==> index == Grow(old(index), |old(codes)|)
      ensures ok ==> codes == old(codes) + [Truncated(old(CodeFor(v)), index)]
      ensures ok ==> Dict() == if v in old(Known()) then old(Dict())
                               else old(Dict()) + [Stored(old(TypeOf(inner)), v).value]
      ensures ok ==> valueMap == Some(old(Known())[v := old(CodeFor(v))])
      ensures old(Grown()) ==> Grown()
      ensures old(Grown()) && ok ==> Contents() == old(Contents()) + [Stored(old(TypeOf(inner)), v).value]
      ensures ok && v !in old(Known()) && Stored(old(TypeOf(inner)), v).value !in old(Dict()) ==>
                (Contents() == old(Contents()) + [Stored(old(TypeOf(inner)), v).value]
                 <==> |old(Dict())| <= MaxLen(index))
      ensures ok && old(CodeFor(v)) <= MaxLen(index) ==>
                Contents() == old(Contents()) + [Stored(old(TypeOf(inner)), v).value]
      ensures ok && OnlyAt(Dict(), old(CodeFor(v))) ==>
                (Contents() == old(Contents()) + [Stored(old(TypeOf(inner)), v).value]
                 <==> old(CodeFor(v)) <= MaxLen(index))
      ensures !ok ==> Contents() == old(Contents())
    {
      KnownAnswers();
      ghost var t, grown := TypeOf(inner), Grown();
      ghost var codes0, dict0, known0, code, index0 := codes, Dict(), Known(), CodeFor(v), index;
      ok := PushRaw(v);
      hide WellFormed, Rows, TypeOf, Stored, At, Len, Cost, ValueMapOf, MaxLen, Grow, Flat, Decoded;
      hide Truncated, Lossless, Tight, Exact, Answers, Hashable, OnlyAt;
      if ok {
        ghost var x := Stored(t, v).value;
        assert dict0 <= Dict() && Dict()[code] == x;
        PushedRow(codes0, dict0, Dict(), code, index);
        GrowFits(index0, |codes0|);
        if Lossless(t) { StoredLossless(t, v); }
        if grown {
          GrownStep(codes0, dict0, known0, v, index0, Lossless(t), x);
          assert codes == codes0 + [code];
        }
      }
    }

    /** The copy starts with no map; it builds one when it is pushed into. */
    method CloneInstance() returns (c: LowCardinalityColumn)
      requires Valid()
      ensures fresh(c) && c.Valid() && c.Contents() == Contents() && c.inner == inner && c.index == index
      ensures c.codes == codes && c.valueMap == None && (Grown() ==> c.Grown())
    {
      hide WellFormed, Rows, TypeOf, Stored, At, Len, Flat, MaxLen;
      c := new LowCardinalityColumn.Load(inner, index, codes);
    }
  }

  // ----- columns grown from empty -----

  /** The dictionary after pushing `vs`: the stored values in the order of their first
      occurrence. */
  function DictOf(t: SqlType, vs: seq<Value>): seq<Value> {
    if |vs| == 0 then []
    else
      var rest, v := vs[..|vs| - 1], vs[|vs| - 1];
      if v in rest || Stored(t, v).None? then DictOf(t, rest) else DictOf(t, rest) + [Stored(t, v).value]
  }

  /** Whether values can be pushed at all. */
  predicate CanPush(t: SqlType, vs: seq<Value>) {
    (vs == [] || Hashable(t)) && StoredAll(t, vs).Some?
  }

  /** A column grown from empty holds what was pushed, as it is stored, in order, however
      often the index was widened; it panics exactly when there is a value that cannot be
      hashed or is not of the inner type. */
  method FromValues(t: SqlType, vs: seq<Value>) returns (r: Option<LowCardinalityColumn>)
    requires Flat(t) && CellWidth(t) + (if t.Text? then 1 else 0) > 0
    requires forall i :: 0 <= i < |vs| ==> |vs| + Cost(vs[i]) < U64_LIMIT
    requires |vs| + 1 < U64_LIMIT
    ensures r.Some? <==> CanPush(t, vs)
    ensures r.Some? ==> fresh(r.value) && r.value.Grown() && TypeOf(r.value.inner) == t
    ensures r.Some? ==> r.value.Contents() == StoredAll(t, vs).value && r.value.Dict() == DictOf(t, vs)
  {
    var c := new LowCardinalityColumn.Empty(t);
    NothingPushed(t);
    assert c.Known() == map[];
    assert Built(c, t, []);
    assert vs[..0] == [];
    hide *;
    for i := 0 to |vs|
      invariant fresh(c) && Built(c, t, vs[..i])
    {
      BuiltSize(c, t, vs[..i]);
      StoredPrefix(t, vs, i + 1);
      assert vs[..i + 1] == vs[..i] + [vs[i]];
      var ok := PushBuilt(c, t, vs[..i], vs[i]);
      if !ok {
        NotPushable(t, vs, i);
        return None;
      }
    }
    assert vs[..|vs|] == vs;
    BuiltGives(c, t, vs);
    return Some(c);
  }

  /** The column that pushing `vs` onto an empty one makes. */
  ghost predicate Built(c: LowCardinalityColumn, t: SqlType, vs: seq<Value>)
    reads c
  {
    c.Grown() && TypeOf(c.inner) == t && CanPush(t, vs)
    && c.Contents() == StoredAll(t, vs).value && c.Dict() == DictOf(t, vs) && c.Known().Keys == Elements(vs)
  }

  lemma BuiltGives(c: LowCardinalityColumn, t: SqlType, vs: seq<Value>)
    requires Built(c, t, vs)
    ensures c.Grown() && TypeOf(c.inner) == t && CanPush(t, vs)
    ensures StoredAll(t, vs).Some? && c.Contents() == StoredAll(t, vs).value && c.Dict() == DictOf(t, vs)
  {
    hide TypeOf, StoredAll, DictOf, WellFormed, Rows;
  }

  lemma BuiltSize(c: LowCardinalityColumn, t: SqlType, vs: seq<Value>)
    requires Built(c, t, vs)
    ensures c.Valid() && |c.codes| == |vs| && Len(c.inner) <= |vs|
  {
    hide TypeOf, StoredAll, DictOf, WellFormed, Len, At;
    assert |c.Contents()| == |c.codes|;
    assert |c.Dict()| == Len(c.inner);
  }

  lemma NotPushable(t: SqlType, vs: seq<Value>, i: nat)
    requires i < |vs| && CanPush(t, vs[..i]) && !(Hashable(t) && Stored(t, vs[i]).Some?)
    ensures !CanPush(t, vs)
  {
    hide Stored, Hashable;
    PrefixStep(t, vs, i);
    StoredPrefix(t, vs, i + 1);
  }

  method PushBuilt(c: LowCardinalityColumn, t: SqlType, ghost vs: seq<Value>, v: Value) returns (ok: bool)
    requires Built(c, t, vs) && |c.codes| + 1 < U64_LIMIT && c.Valid() && Len(c.inner) + Cost(v) < U64_LIMIT
    modifies c
    ensures ok <==> Hashable(t) && Stored(t, v).Some?
    ensures ok ==> Built(c, t, vs + [v])
    ensures !ok ==> CanPush(t, vs)
  {
    hide WellFormed, Rows, TypeOf, Stored, StoredAll, At, Len, Cost, Flat, Lossless, Hashable, DictOf;
    hide Elements, Decoded, Truncated, Grow, MaxLen, OnlyAt, ValueMapOf;
    ghost var known := c.Known();
    PrefixStep(t, vs + [v], |vs|);
    assert (vs + [v])[..|vs|] == vs && (vs + [v])[..|vs| + 1] == vs + [v];
    ok := c.Push(v);
    if ok {
      assert c.Known().Keys == known.Keys + {v};
    }
  }

  function Elements(vs: seq<Value>): set<Value> {
    set v | v in vs
  }

  lemma NothingPushed(t: SqlType)
    ensures DictOf(t, []) == [] && StoredAll(t, []) == Some([]) && Elements([]) == {}
  {
  }

  lemma PrefixStep(t: SqlType, vs: seq<Value>, i: nat)
    requires i < |vs|
    ensures vs[i] in Elements(vs[..i]) <==> vs[i] in vs[..i]
    ensures Elements(vs[..i + 1]) == Elements(vs[..i]) + {vs[i]}
    ensures Stored(t, vs[i]).Some? ==>
              DictOf(t, vs[..i + 1])
              == if vs[i] in vs[..i] then DictOf(t, vs[..i]) else DictOf(t, vs[..i]) + [Stored(t, vs[i]).value]
    ensures StoredAll(t, vs[..i]).Some? ==>
              StoredAll(t, vs[..i + 1])
              == if Stored(t, vs[i]).Some? then Some(StoredAll(t, vs[..i]).value + [Stored(t, vs[i]).value]) else None
  {
    hide Stored;
    assert vs[..i + 1] == vs[..i] + [vs[i]];
    assert vs[..i + 1][..i] == vs[..i];
  }

  /** Without loss the dictionary lists the different values that were pushed. */
  lemma {:induction false} DictLossless(t: SqlType, vs: seq<Value>)
    requires Lossless(t) && StoredAll(t, vs).Some?
    ensures Distinct(DictOf(t, vs)) && forall x :: x in DictOf(t, vs) <==> x in vs
  {
    if |vs| > 0 {
      var rest, v := vs[..|vs| - 1], vs[|vs| - 1];
      DictLossless(t, rest);
      StoredLossless(t, v);
      assert vs == rest + [v];
    }
  }

  /** Different values that a `FixedString(n)` stores alike: nothing, and `n` zeros. */
  lemma StoredAlike(n: nat)
    ensures var v, w := Str([]), Str(if n == 0 then [0] else Zeros(n));
      v != w && Stored(FixedString(n), v) == Some(Str(Zeros(n))) == Stored(FixedString(n), w)
      && DictOf(FixedString(n), [v, w]) == [Str(Zeros(n)), Str(Zeros(n))] && CanPush(FixedString(n), [v, w])
  {
    var t, v, w, x := FixedString(n), Str([]), Str(if n == 0 then [0] else Zeros(n)), Str(Zeros(n));
    assert [] + Zeros(n) == Zeros(n) && Zeros(n)[..n] == Zeros(n);
    assert Stored(t, v) == Some(x) == Stored(t, w);
    hide Stored, Zeros, Pad;
    BothStored(t, v, w, x);
  }

  lemma BothStored(t: SqlType, v: Value, w: Value, x: Value)
    requires Stored(t, v) == Some(x) == Stored(t, w) && v != w
    ensures DictOf(t, [v, w]) == [x, x] && StoredAll(t, [v, w]).Some?
  {
    hide Stored;
    assert [v, w][..1] == [v] && [v][..0] == [];
    assert DictOf(t, []) == [] && StoredAll(t, []) == Some([]);
    assert DictOf(t, [v]) == [x] && StoredAll(t, [v]) == Some([x]);
  }

  /** Whatever is pushed onto an empty column of type `t`, no entry is twice in its
      dictionary, if and only if `t` stores values without loss. */
  lemma DistinctExactly(t: SqlType)
    requires Flat(t)
    ensures (forall vs :: CanPush(t, vs) ==> Distinct(DictOf(t, vs))) <==> Lossless(t)
  {
    if Lossless(t) {
      forall vs | CanPush(t, vs) ensures Distinct(DictOf(t, vs)) {
        DictLossless(t, vs);
      }
    } else {
      StoredAlike(t.len);
      var vs := [Str([]), Str(if t.len == 0 then [0] else Zeros(t.len))];
      var dict := DictOf(t, vs);
      assert dict[0] == dict[1];
    }
  }

  /** A UUID is of its column's type and cannot be pushed: its hash panics. */
  lemma UnhashableValue()
    ensures Stored(Plain(Uuid), Cell(Zeros(16))).Some? && !CanPush(Plain(Uuid), [Cell(Zeros(16))])
  {
  }

  // ----- a loaded column that loses a value -----

  function Pairs(n: nat): (cells: seq<Bytes>)
    requires n <= 256
    ensures |cells| == n && forall k :: 0 <= k < n ==> cells[k] == [k, 0]
  {
    if n == 0 then [] else Pairs(n - 1) + [[n - 1, 0]]
  }

  /** A value whose code is 256, new or known, pushed under an 8-bit index with room for
      more rows, is read back as the first entry. */
  method CutPush(c: LowCardinalityColumn, v: Value)
    requires c.Valid() && c.index == IxUInt8 && |c.codes| < 200 && c.CodeFor(v) == 256 && 256 <= Len(c.inner) <= 257
    requires Hashable(TypeOf(c.inner)) && Stored(TypeOf(c.inner), v).Some? && Cost(v) == 1
    modifies c
    ensures c.Valid() && TypeOf(c.inner) == old(TypeOf(c.inner)) && c.index == IxUInt8
    ensures c.CodeFor(v) == 256 && Len(c.inner) == 257 && |c.codes| == |old(c.codes)| + 1
    ensures old(c.Dict()) <= c.Dict() && c.Contents() == old(c.Contents()) + [c.Dict()[0]]
    ensures |c.Dict()| == 257 && c.Dict()[256] == Stored(old(TypeOf(c.inner)), v).value
  {
    RowCount(c);
    CutCode(|c.codes|);
    c.KnownAnswers();
    ghost var codes, dict := c.codes, c.Dict();
    hide WellFormed, Rows, TypeOf, Stored, At, Hashable, Truncated, Tight, Exact, Lossless, ValueMapOf, MaxLen, Grow;
    hide OnlyAt, Decoded, Flat, Cost, Len;
    var ok := c.Push(v);
    RowCount(c);
    DecodedMore(codes, dict, 0, c.Dict());
  }

  lemma CutCode(n: nat)
    requires n < 200
    ensures Truncated(256, IxUInt8) == 0 && Grow(IxUInt8, n) == IxUInt8
  {
  }

  lemma RowCount(c: LowCardinalityColumn)
    requires WellFormed(c.inner)
    ensures Len(c.inner) == |c.Dict()|
  {
    hide WellFormed, Len, At;
  }

  method LoadedNumbers() returns (inner: Column, v: Value)
    ensures WellFormed(inner) && !inner.ChunkCol? && Len(inner) == 256 && TypeOf(inner) == Plain(UInt16)
    ensures |Rows(inner)| == 256 && Rows(inner)[0] == Cell([0, 0]) && v == Cell([0, 1]) && v !in Rows(inner)
    ensures Flat(TypeOf(inner)) && Hashable(TypeOf(inner)) && Stored(TypeOf(inner), v) == Some(v) && Cost(v) == 1
  {
    inner := Cells(Plain(UInt16), Pairs(256));
    v := Cell([0, 1]);
    Numbers(inner, v);
  }

  /** The numbers 0 to 255 loaded as a dictionary: 256, pushed twice, is read back as 0. */
  method LosesValue() returns (c: LowCardinalityColumn)
    ensures c.Valid() && TypeOf(c.inner) == Plain(UInt16)
    ensures c.Contents() == [Cell([0, 0]), Cell([0, 0]), Cell([0, 0])] && Cell([0, 1]) in c.Dict()
  {
    hide *;
    var inner, v := LoadedNumbers();
    c := new LowCardinalityColumn.Load(inner, IxUInt8, [0]);
    NewValue(c, v);
    CutPush(c, v);
    CutPush(c, v);
  }

  lemma NewValue(c: LowCardinalityColumn, v: Value)
    requires c.Valid() && c.valueMap == None && c.codes == [0] && v !in Rows(c.inner)
    ensures c.CodeFor(v) == Len(c.inner) && c.Dict() == Rows(c.inner) && c.Contents() == [Rows(c.inner)[0]]
  {
    hide WellFormed, Len, At, Stored;
    assert [0][..0] == [] && ValueMapOf([], c.Dict()) == map[];
  }

  lemma Numbers(inner: Column, v: Value)
    requires inner == Cells(Plain(UInt16), Pairs(256)) && v == Cell([0, 1])
    ensures WellFormed(inner) && Len(inner) == 256 && TypeOf(inner) == Plain(UInt16)
    ensures |Rows(inner)| == 256 && Rows(inner)[0] == Cell([0, 0]) && v !in Rows(inner)
    ensures Stored(Plain(UInt16), v) == Some(v) && Cost(v) == 1
  {
    hide Pairs, Rows, Range, At;
    forall k | 0 <= k < 256 ensures Rows(inner)[k] == Cell(Pairs(256)[k]) && Rows(inner)[k] != v {
      NumberRow(inner, k);
    }
  }

  lemma NumberRow(inner: Column, k: nat)
    requires inner == Cells(Plain(UInt16), Pairs(256)) && k < 256 && WellFormed(inner)
    ensures Rows(inner)[k] == Cell(Pairs(256)[k]) && Rows(inner)[k] != Cell([0, 1])
  {
    assert Pairs(256)[k][1] == 0 && [0, 1][1] == 1;
    hide Pairs;
    assert Rows(inner)[k] == At(inner, k);
  }
}
