/** SQL types and the names they are printed under. */
module SqlTypes {
  import opened Bytes

  /** Types whose cells have a fixed width. */
  datatype Scalar =
    | Bool | UInt8 | UInt16 | UInt32 | UInt64 | UInt128
    | Int8 | Int16 | Int32 | Int64 | Int128
    | Float32 | Float64 | Date | Ipv4 | Ipv6 | Uuid

  datatype SqlType =
    | Plain(scalar: Scalar)
    | Text                                    // String
    | FixedString(len: nat)
    | Nullable(inner: SqlType)
    | Array(inner: SqlType)
    | LowCardinality(inner: SqlType)
    | Decimal(precision: Byte, scale: Byte)
    | Map(key: SqlType, value: SqlType)

  /** Bytes in one cell. */
  function Width(s: Scalar): (w: nat)
    ensures w > 0
  {
    match s
    case Bool | UInt8 | Int8 => 1
    case UInt16 | Int16 | Date => 2
    case UInt32 | Int32 | Float32 | Ipv4 => 4
    case UInt64 | Int64 | Float64 => 8
    case UInt128 | Int128 | Ipv6 | Uuid => 16
  }

  function ScalarName(s: Scalar): string {
    match s
    case Bool => "Bool"
    case UInt8 => "UInt8"
    case UInt16 => "UInt16"
    case UInt32 => "UInt32"
    case UInt64 => "UInt64"
    case UInt128 => "UInt128"
    case Int8 => "Int8"
    case Int16 => "Int16"
    case Int32 => "Int32"
    case Int64 => "Int64"
    case Int128 => "Int128"
    case Float32 => "Float32"
    case Float64 => "Float64"
    case Date => "Date"
    case Ipv4 => "IPv4"
    case Ipv6 => "IPv6"
    case Uuid => "UUID"
  }

  // ----- decimal numerals -----

  function Digit(d: nat): char
    requires d < 10
  {
    '0' + d as char
  }

  predicate IsDigit(c: char) { '0' <= c <= '9' }

  function ShowNat(n: nat): (s: string)
    ensures |s| > 0
    ensures forall i :: 0 <= i < |s| ==> IsDigit(s[i])
  {
    if n < 10 then [Digit(n)] else ShowNat(n / 10) + [Digit(n % 10)]
  }

  /** The value of a digit string; None when another character occurs. */
  function DigitsValue(s: string): Option<nat> {
    if |s| == 0 then Some(0)
    else
      var c := s[|s| - 1];
      match DigitsValue(s[..|s| - 1])
      case Some(v) => if IsDigit(c) then Some(10 * v + (c - '0') as int) else None
      case None => None
  }

  /** `str::parse` for an unsigned integer type with values below `limit`. */
  function ParseNat(s: string, limit: nat): (r: Option<nat>)
    ensures r.Some? ==> r.value < limit
  {
    var digits := if |s| > 0 && s[0] == '+' then s[1..] else s;
    if |digits| == 0 then None
    else
      match DigitsValue(digits)
      case Some(v) => if v < limit then Some(v) else None
      case None => None
  }

  lemma {:induction false} DigitsOfShow(n: nat)
    ensures DigitsValue(ShowNat(n)) == Some(n)
  {
    if n < 10 {
      assert DigitsValue([]) == Some(0);
      assert [Digit(n)][..0] == [];
    } else {
      DigitsOfShow(n / 10);
      var s := ShowNat(n);
      assert s[..|s| - 1] == ShowNat(n / 10);
    }
  }

  lemma ParseShow(n: nat, limit: nat)
    ensures ParseNat(ShowNat(n), limit) == if n < limit then Some(n) else None
  {
    DigitsOfShow(n);
    assert IsDigit(ShowNat(n)[0]);
  }

  // ----- printed names -----

  function Call(head: string, args: string): (s: string)
    ensures |s| == |head| + |args| + 2
  {
    head + "(" + args + ")"
  }

  function Pair(a: string, b: string): (s: string)
    ensures |s| == |a| + |b| + 2
  {
    a + ", " + b
  }

  /** `SqlType::to_string`. */
  function Name(t: SqlType): (s: string)
    ensures |s| > 0
  {
    match t
    case Plain(s) => ScalarName(s)
    case Text => "String"
    case FixedString(n) => Call("FixedString", ShowNat(n))
    case Nullable(i) => Call("Nullable", Name(i))
    case Array(i) => Call("Array", Name(i))
    case LowCardinality(i) => Call("LowCardinality", Name(i))
    case Decimal(p, s) => Call("Decimal", Pair(ShowNat(p), ShowNat(s)))
    case Map(k, v) => Call("Map", Pair(Name(k), Name(v)))
  }

  /** The parts of a parenthesised name, by position. */
  lemma CallParts(head: string, args: string)
    ensures var s := Call(head, args);
      head <= s && s[..|head|] == head && s[|head|] == '(' && s[|s| - 1] == ')'
      && s[|head| + 1..|s| - 1] == args
      && (|head| > 0 ==> s[0] == head[0])
  {
  }

  /** A name with a comma in it is that of a Decimal or Map, possibly wrapped. */
  predicate HasComma(t: SqlType) {
    match t
    case Plain(_) | Text | FixedString(_) => false
    case Nullable(i) => HasComma(i)
    case Array(i) => HasComma(i)
    case LowCardinality(i) => HasComma(i)
    case Decimal(_, _) | Map(_, _) => true
  }

  predicate Letter(c: char) { 'A' <= c <= 'Z' }

  predicate Alphanumeric(c: char) { Letter(c) || 'a' <= c <= 'z' || IsDigit(c) }

  lemma ScalarNameShape(s: Scalar)
    ensures 0 < |ScalarName(s)| <= 7
    ensures Letter(ScalarName(s)[0]) && ScalarName(s)[0] != 'A' && ScalarName(s)[0] != 'M'
    ensures forall i :: 0 <= i < |ScalarName(s)| ==> Alphanumeric(ScalarName(s)[i])
  {
  }

  lemma CallIsAscii(head: string, args: string)
    requires Ascii(head) && Ascii(args)
    ensures Ascii(Call(head, args))
  {
  }

  lemma PairIsAscii(a: string, b: string)
    requires Ascii(a) && Ascii(b)
    ensures Ascii(Pair(a, b))
  {
  }

  lemma {:induction false} NameIsAscii(t: SqlType)
    ensures Ascii(Name(t))
  {
    match t
    case Plain(s) => ScalarNameShape(s);
    case Text =>
    case FixedString(n) => CallIsAscii("FixedString", ShowNat(n));
    case Nullable(i) => NameIsAscii(i); CallIsAscii("Nullable", Name(i));
    case Array(i) => NameIsAscii(i); CallIsAscii("Array", Name(i));
    case LowCardinality(i) => NameIsAscii(i); CallIsAscii("LowCardinality", Name(i));
    case Decimal(p, s) =>
      PairIsAscii(ShowNat(p), ShowNat(s));
      CallIsAscii("Decimal", Pair(ShowNat(p), ShowNat(s)));
    case Map(k, v) =>
      NameIsAscii(k);
      NameIsAscii(v);
      PairIsAscii(Name(k), Name(v));
      CallIsAscii("Map", Pair(Name(k), Name(v)));
  }

  lemma CallComma(head: string, args: string)
    requires ',' !in head
    ensures ',' in Call(head, args) <==> ',' in args
  {
    var s := Call(head, args);
    CallParts(head, args);
    if ',' in args {
      var i :| 0 <= i < |args| && args[i] == ',';
      assert s[|head| + 1 + i] == ',';
    }
  }

  lemma PairComma(a: string, b: string)
    ensures ',' in Pair(a, b)
  {
    assert Pair(a, b)[|a|] == ',';
  }

  lemma {:induction false} CommaInName(t: SqlType)
    ensures ',' in Name(t) <==> HasComma(t)
  {
    match t
    case Plain(s) => ScalarNameShape(s);
    case Text =>
    case FixedString(n) => CallComma("FixedString", ShowNat(n));
    case Nullable(i) => CommaInName(i); CallComma("Nullable", Name(i));
    case Array(i) => CommaInName(i); CallComma("Array", Name(i));
    case LowCardinality(i) => CommaInName(i); CallComma("LowCardinality", Name(i));
    case Decimal(p, s) =>
      PairComma(ShowNat(p), ShowNat(s));
      CallComma("Decimal", Pair(ShowNat(p), ShowNat(s)));
    case Map(k, v) =>
      PairComma(Name(k), Name(v));
      CallComma("Map", Pair(Name(k), Name(v)));
  }

  /** A name begins with a capital letter and ends in a letter, a digit or a parenthesis. */
  lemma NameEdges(t: SqlType)
    ensures Letter(Name(t)[0])
    ensures var c := Name(t)[|Name(t)| - 1]; Alphanumeric(c) || c == ')'
  {
    if t.Plain? { ScalarNameShape(t.scalar); }
  }
}
