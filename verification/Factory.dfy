/** The dispatch chain of the column loader: from a type name to the loader of that type.
    Names are handled byte by byte, and a slice outside the name is a panic. */
module Factory {
  import opened Bytes
  import opened SqlTypes

  datatype NoBits = N32 | N64

  function FromPrecision(precision: nat): Option<NoBits> {
    if precision <= 9 then Some(N32)
    else if precision <= 18 then Some(N64)
    else None
  }

  /** The answer of one `parse_*` function. */
  datatype Attempt<+T> = No | Yes(value: T) | Panic

  predicate StartsWith(s: string, prefix: string) { prefix <= s }

  function Lower(c: char): char {
    if 'A' <= c <= 'Z' then c + ('a' - 'A') else c
  }

  function LowerAll(s: string): string {
    seq(|s|, i requires 0 <= i < |s| => Lower(s[i]))
  }

  predicate Space(c: char) { c == ' ' || '\t' <= c <= '\r' }

  function TrimStart(s: string): string {
    if |s| > 0 && Space(s[0]) then TrimStart(s[1..]) else s
  }

  function TrimEnd(s: string): string {
    if |s| > 0 && Space(s[|s| - 1]) then TrimEnd(s[..|s| - 1]) else s
  }

  function Trim(s: string): (r: string)
    ensures |r| <= |s|
  {
    TrimLengths(s);
    TrimEnd(TrimStart(s))
  }

  lemma TrimLengths(s: string)
    ensures |TrimStart(s)| <= |s|
    ensures |TrimEnd(TrimStart(s))| <= |TrimStart(s)|
  {
    TrimEndLength(TrimStart(s));
  }

  lemma TrimEndLength(s: string)
    ensures |TrimEnd(s)| <= |s|
  {
  }

  /** Index of the first `c` in `s`, |s| when there is none. */
  function Find(s: string, c: char): (i: nat)
    ensures i <= |s|
    ensures forall k :: 0 <= k < i ==> s[k] != c
    ensures i < |s| ==> s[i] == c
  {
    if |s| == 0 || s[0] == c then 0 else 1 + Find(s[1..], c)
  }

  // ----- the branches -----

  // Plain type names and their aliases, in any case of letters: the table in four parts,
  // looked up by the lower-case name.

  function UnsignedNamed(l: string): Option<SqlType> {
    if l == "uint8" then Some(Plain(UInt8))
    else if l == "uint16" then Some(Plain(UInt16))
    else if l == "uint32" then Some(Plain(UInt32))
    else if l == "uint64" then Some(Plain(UInt64))
    else if l == "uint128" then Some(Plain(UInt128))
    else None
  }

  function SignedNamed(l: string): Option<SqlType> {
    if l == "int8" || l == "tinyint" then Some(Plain(Int8))
    else if l == "int16" || l == "smallint" then Some(Plain(Int16))
    else if l == "int32" || l == "int" || l == "integer" then Some(Plain(Int32))
    else if l == "int64" || l == "bigint" then Some(Plain(Int64))
    else if l == "int128" then Some(Plain(Int128))
    else None
  }

  function OtherNamed(l: string): Option<SqlType> {
    if l == "bool" then Some(Plain(Bool))
    else if l == "float32" || l == "float" then Some(Plain(Float32))
    else if l == "float64" || l == "double" then Some(Plain(Float64))
    else if l == "date" then Some(Plain(Date))
    else if l == "ipv4" then Some(Plain(Ipv4))
    else if l == "ipv6" then Some(Plain(Ipv6))
    else if l == "uuid" then Some(Plain(Uuid))
    else None
  }

  function TextNamed(l: string): Option<SqlType> {
    if l == "string" || l == "char" || l == "varchar" || l == "text" || l == "tinytext"
       || l == "mediumtext" || l == "longtext" || l == "blob" || l == "tinyblob"
       || l == "mediumblob" || l == "longblob" then Some(Text)
    else None
  }

  function OrElse<T>(a: Option<T>, b: Option<T>): Option<T> {
    if a.Some? then a else b
  }

  function ParsePlain(s: string): Option<SqlType> {
    var l := LowerAll(s);
    OrElse(OtherNamed(l), OrElse(UnsignedNamed(l), OrElse(SignedNamed(l), TextNamed(l))))
  }

  function ParseNullable(s: string): Attempt<string> {
    if !StartsWith(s, "Nullable") then No
    else if |s| < 10 then Panic
    else
      var inner := s[9..|s| - 1];
      if StartsWith(inner, "Nullable") then No else Yes(inner)
  }

  function ParseFixedString(s: string): Attempt<nat> {
    if !StartsWith(s, "FixedString") then No
    else if |s| < 13 then Panic
    else
      match ParseNat(s[12..|s| - 1], U64_LIMIT)
      case Some(n) => Yes(n)
      case None => No
  }

  function ParseArray(s: string): Attempt<string> {
    if !StartsWith(s, "Array") then No
    else if |s| < 7 then Panic
    else Yes(s[6..|s| - 1])
  }

  function ParseMap(s: string): (r: Attempt<(string, string)>)
    ensures r.Yes? ==> |r.value.0| < |s| && |r.value.1| < |s|
  {
    if !StartsWith(s, "Map") then No
    else if |s| < 5 then Panic
    else
      var body := s[4..|s| - 1];
      var comma := Find(body, ',');
      if comma == |body| then No
      else Yes((Trim(body[..comma]), Trim(body[comma + 1..])))
  }

  /** The scan for parentheses: None when an opening one does not stand right after one
      of the three type names; otherwise where the last opening and closing one stand. */
  function DecimalParens(s: string, i: nat, open: Option<nat>, close: Option<nat>):
      (r: Option<(Option<nat>, Option<nat>)>)
    requires i <= |s|
    decreases |s| - i
  {
    if i == |s| then Some((open, close))
    else if s[i] == '(' then
      if s[..i] == "Decimal" || s[..i] == "Decimal32" || s[..i] == "Decimal64"
      then DecimalParens(s, i + 1, Some(i), close)
      else None
    else DecimalParens(s, i + 1, open, if s[i] == ')' then Some(i) else close)
  }

  function Split(s: string): (parts: seq<string>)
    ensures |parts| > 0
  {
    var i := Find(s, ',');
    if i == |s| then [s] else [s[..i]] + Split(s[i + 1..])
  }

  function ParseDecimal(s: string): (r: Attempt<(nat, nat, NoBits)>)
    ensures r.Yes? ==> r.value.0 < 256 && r.value.1 < 256
  {
    if |s| < 12 || !StartsWith(s, "Decimal") then No
    else
      match DecimalParens(s, 0, None, None)
      case Some((Some(open), Some(close))) =>
        if !(open + 1 <= close <= |s|) then Panic
        else
          var args := s[open + 1..close];
          if open <= |s| && s[..open] == "Decimal" then
            var cells := Split(args);
            if |cells| > 2 then No
            else
              var precision := ParseNat(Trim(cells[0]), 256);
              var scale := if |cells| == 2 then ParseNat(Trim(cells[1]), 256) else None;
              if precision.None? || scale.None? || scale.value > precision.value then No
              else
                (match FromPrecision(precision.value)
                 case Some(bits) => Yes((precision.value, scale.value, bits))
                 case None => No)
          else
            (match ParseNat(args, 256)
             case None => No
             case Some(scale) =>
               if open <= |s| && s[..open] == "Decimal32" then Yes((9, scale, N32)) else Yes((18, scale, N64)))
      case _ => No
  }

  function ParseLowCardinality(s: string): (r: Attempt<string>)
    ensures r.Yes? ==> |r.value| < |s|
  {
    if !StartsWith(s, "LowCardinality") then No
    else
      var open := FirstFrom(s, 14, '(');
      var close := LastDownTo(s, open, |s| - 1, ')');
      if open >= close then No else Yes(Trim(s[open + 1..close]))
  }

  function FirstFrom(s: string, lo: nat, c: char): (i: nat)
    requires lo <= |s|
    ensures lo <= i <= |s|
    decreases |s| - lo
  {
    if lo < |s| && s[lo] != c then FirstFrom(s, lo + 1, c) else lo
  }

  function LastDownTo(s: string, lo: nat, hi: int, c: char): (i: int)
    requires -1 <= hi < |s|
    ensures i <= hi
    decreases hi - lo
  {
    if hi > lo && s[hi] != c then LastDownTo(s, lo, hi - 1, c) else hi
  }

  // ----- the chain -----

  /** The loader that a name selects, with the names of the inner types. */
  datatype Branch =
    | PlainOf(t: SqlType)
    | NullableOf(inner: string)
    | FixedStringOf(len: nat)
    | ArrayOf(inner: string)
    | MapOf(key: string, value: string)
    | DecimalOf(precision: nat, scale: nat, bits: NoBits)
    | LowCardinalityOf(inner: string)
    | Unsupported
    | Panics

  function Dispatch(s: string): (b: Branch)
    ensures b.NullableOf? ==> |b.inner| < |s|
    ensures b.ArrayOf? ==> |b.inner| < |s|
    ensures b.LowCardinalityOf? ==> |b.inner| < |s|
    ensures b.MapOf? ==> |b.key| < |s| && |b.value| < |s|
    ensures b.DecimalOf? ==> |s| >= 12 && b.precision < 256 && b.scale < 256
  {
    match ParsePlain(s) case Some(t) => PlainOf(t) case None =>
    match ParseNullable(s) case Yes(i) => NullableOf(i) case Panic => Panics case No =>
    match ParseFixedString(s) case Yes(n) => FixedStringOf(n) case Panic => Panics case No =>
    match ParseArray(s) case Yes(i) => ArrayOf(i) case Panic => Panics case No =>
    match ParseMap(s) case Yes(kv) => MapOf(kv.0, kv.1) case Panic => Panics case No =>
    match ParseDecimal(s) case Yes(d) => DecimalOf(d.0, d.1, d.2) case Panic => Panics case No =>
    match ParseLowCardinality(s) case Yes(i) => LowCardinalityOf(i) case Panic => Panics case No =>
    Unsupported
  }

  /** The type of the column that is loaded under the name `s`, when one is. */
  function ParseType(s: string): Option<SqlType>
    decreases |s|
  {
    match Dispatch(s)
    case PlainOf(t) => Some(t)
    case FixedStringOf(n) => Some(FixedString(n))
    case NullableOf(i) => (match ParseType(i) case Some(t) => Some(Nullable(t)) case None => None)
    case ArrayOf(i) => (match ParseType(i) case Some(t) => Some(Array(t)) case None => None)
    case LowCardinalityOf(i) => (match ParseType(i) case Some(t) => Some(LowCardinality(t)) case None => None)
    case MapOf(k, v) =>
      (match (ParseType(k), ParseType(v))
       case (Some(tk), Some(tv)) => Some(Map(tk, tv))
       case _ => None)
    case DecimalOf(p, s, _) => Some(Decimal(p, s))
    case Unsupported | Panics => None
  }
}
