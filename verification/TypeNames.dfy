/** Printing a type and dispatching on the printed name. */
module TypeNames {
  import opened Bytes
  import opened SqlTypes
  import opened Factory

  /** The types whose printed name selects their own loader again. */
  predicate Recoverable(t: SqlType) {
    match t
    case Plain(_) | Text => true
    case FixedString(n) => n < U64_LIMIT
    case Nullable(i) => !i.Nullable? && Recoverable(i)
    case Array(i) => Recoverable(i)
    case LowCardinality(i) => Recoverable(i)
    case Decimal(p, s) => s <= p <= 18
    case Map(k, v) => !HasComma(k) && Recoverable(k) && Recoverable(v)
  }

  // ----- plain names -----

  lemma SmallUnsignedNames(s: Scalar)
    requires s in {UInt8, UInt16}
    ensures ParsePlain(ScalarName(s)) == Some(Plain(s))
  {
    match s
    case UInt8 => assert LowerAll("UInt8") == "uint8";
    case UInt16 => assert LowerAll("UInt16") == "uint16";
  }

  lemma LargeUnsignedNames(s: Scalar)
    requires s in {UInt32, UInt64, UInt128}
    ensures ParsePlain(ScalarName(s)) == Some(Plain(s))
  {
    match s
    case UInt32 => assert LowerAll("UInt32") == "uint32";
    case UInt64 => assert LowerAll("UInt64") == "uint64";
    case UInt128 => assert LowerAll("UInt128") == "uint128";
  }

  lemma SmallSignedNames(s: Scalar)
    requires s in {Int8, Int16}
    ensures ParsePlain(ScalarName(s)) == Some(Plain(s))
  {
    match s
    case Int8 => assert LowerAll("Int8") == "int8";
    case Int16 => assert LowerAll("Int16") == "int16";
  }

  lemma Int32Name()
    ensures ParsePlain("Int32") == Some(Plain(Int32))
  {
    assert LowerAll("Int32") == "int32";
  }

  lemma LargeSignedNames(s: Scalar)
    requires s in {Int64, Int128}
    ensures ParsePlain(ScalarName(s)) == Some(Plain(s))
  {
    match s
    case Int64 => assert LowerAll("Int64") == "int64";
    case Int128 => assert LowerAll("Int128") == "int128";
  }

  lemma FloatNames(s: Scalar)
    requires s in {Bool, Float32, Float64}
    ensures ParsePlain(ScalarName(s)) == Some(Plain(s))
  {
    match s
    case Bool => assert LowerAll("Bool") == "bool";
    case Float32 => assert LowerAll("Float32") == "float32";
    case Float64 => assert LowerAll("Float64") == "float64";
  }

  lemma DateNames(s: Scalar)
    requires s in {Date, Ipv4}
    ensures ParsePlain(ScalarName(s)) == Some(Plain(s))
  {
    match s
    case Date => assert LowerAll("Date") == "date";
    case Ipv4 => assert LowerAll("IPv4") == "ipv4";
  }

  lemma LongIdNames(s: Scalar)
    requires s in {Ipv6, Uuid}
    ensures ParsePlain(ScalarName(s)) == Some(Plain(s))
  {
    match s
    case Ipv6 => assert LowerAll("IPv6") == "ipv6";
    case Uuid => assert LowerAll("UUID") == "uuid";
  }

  lemma PlainNames(s: Scalar)
    ensures ParsePlain(ScalarName(s)) == Some(Plain(s))
  {
    match s
    case UInt8 | UInt16 => SmallUnsignedNames(s);
    case UInt32 | UInt64 | UInt128 => LargeUnsignedNames(s);
    case Int8 | Int16 => SmallSignedNames(s);
    case Int32 => Int32Name();
    case Int64 | Int128 => LargeSignedNames(s);
    case Bool | Float32 | Float64 => FloatNames(s);
    case Date | Ipv4 => DateNames(s);
    case Ipv6 | Uuid => LongIdNames(s);
  }

  lemma TextName()
    ensures ParsePlain("String") == Some(Text)
  {
    assert LowerAll("String") == "string";
  }

  lemma NoParenInOther(l: string, i: nat)
    requires i < |l| && l[i] == '('
    ensures OtherNamed(l).None?
  {
  }

  lemma NoParenInUnsigned(l: string, i: nat)
    requires i < |l| && l[i] == '('
    ensures UnsignedNamed(l).None?
  {
  }

  lemma NoParenInSigned(l: string, i: nat)
    requires i < |l| && l[i] == '('
    ensures SignedNamed(l).None?
  {
  }

  lemma NoParenInText(l: string, i: nat)
    requires i < |l| && l[i] == '('
    ensures TextNamed(l).None?
  {
  }

  /** A name with a parenthesis in it is not plain. */
  lemma NotPlain(s: string, i: nat)
    requires i < |s| && s[i] == '('
    ensures ParsePlain(s) == None
  {
    var l := LowerAll(s);
    assert l[i] == '(';
    NoParenInOther(l, i);
    NoParenInUnsigned(l, i);
    NoParenInSigned(l, i);
    NoParenInText(l, i);
  }

  // ----- trimming -----

  lemma TrimClean(s: string)
    requires |s| > 0 && !Space(s[0]) && !Space(s[|s| - 1])
    ensures Trim(s) == s && Trim([' '] + s) == s
  {
    assert ([' '] + s)[1..] == s;
  }

  lemma {:induction false} TrimEndPrefix(s: string) returns (m: nat)
    ensures m <= |s| && TrimEnd(s) == s[..m]
  {
    if |s| > 0 && Space(s[|s| - 1]) {
      m := TrimEndPrefix(s[..|s| - 1]);
    } else {
      m := |s|;
    }
  }

  /** Trimming a beginning of `s` leaves a beginning of `s`. */
  lemma TrimPrefix(s: string, m: nat) returns (k: nat)
    requires |s| > 0 && !Space(s[0]) && m <= |s|
    ensures k <= m && Trim(s[..m]) == s[..k]
  {
    k := TrimEndPrefix(s[..m]);
    assert s[..m][..k] == s[..k];
  }

  // ----- one branch -----

  /** Every branch but the plain one looks at the first letter. */
  lemma FirstLetter(s: string)
    requires |s| > 0
    ensures s[0] != 'N' ==> ParseNullable(s) == No
    ensures s[0] != 'F' ==> ParseFixedString(s) == No
    ensures s[0] != 'A' ==> ParseArray(s) == No
    ensures s[0] != 'M' ==> ParseMap(s) == No
    ensures s[0] != 'D' ==> ParseDecimal(s) == No
    ensures s[0] != 'L' ==> ParseLowCardinality(s) == No
  {
  }

  function One(b: bool): nat { if b then 1 else 0 }

  /** How many branches of the chain would accept the name. */
  function Accepting(s: string): nat {
    One(ParsePlain(s).Some?) + One(ParseNullable(s).Yes?) + One(ParseFixedString(s).Yes?)
    + One(ParseArray(s).Yes?) + One(ParseMap(s).Yes?) + One(ParseDecimal(s).Yes?)
    + One(ParseLowCardinality(s).Yes?)
  }

  /** A parenthesised name: the chain does what the branch of its first letter does. */
  lemma Parenthesised(s: string, i: nat)
    requires 0 < i < |s| && s[i] == '('
    ensures ParsePlain(s) == None && Accepting(s) <= 1
    ensures Dispatch(s).Unsupported? || Dispatch(s).Panics? <==> Accepting(s) == 0
    ensures s[0] == 'N' ==>
              match ParseNullable(s)
              case Yes(x) => Dispatch(s) == NullableOf(x)
              case Panic => Dispatch(s) == Panics
              case No => Dispatch(s) == Unsupported
    ensures s[0] == 'F' ==>
              match ParseFixedString(s)
              case Yes(x) => Dispatch(s) == FixedStringOf(x)
              case Panic => Dispatch(s) == Panics
              case No => Dispatch(s) == Unsupported
    ensures s[0] == 'A' ==>
              match ParseArray(s)
              case Yes(x) => Dispatch(s) == ArrayOf(x)
              case Panic => Dispatch(s) == Panics
              case No => Dispatch(s) == Unsupported
    ensures s[0] == 'M' ==>
              match ParseMap(s)
              case Yes(x) => Dispatch(s) == MapOf(x.0, x.1)
              case Panic => Dispatch(s) == Panics
              case No => Dispatch(s) == Unsupported
    ensures s[0] == 'D' ==>
              match ParseDecimal(s)
              case Yes(x) => Dispatch(s) == DecimalOf(x.0, x.1, x.2)
              case Panic => Dispatch(s) == Panics
              case No => Dispatch(s) == Unsupported
    ensures s[0] == 'L' ==>
              match ParseLowCardinality(s)
              case Yes(x) => Dispatch(s) == LowCardinalityOf(x)
              case Panic => Dispatch(s) == Panics
              case No => Dispatch(s) == Unsupported
  {
    NotPlain(s, i);
    FirstLetter(s);
    hide ParsePlain, ParseNullable, ParseFixedString, ParseArray, ParseMap, ParseDecimal, ParseLowCardinality;
  }

  // ----- what the chain makes of each printed name -----

  lemma DispatchNullable(i: string)
    ensures var s := Call("Nullable", i);
      Dispatch(s) == (if StartsWith(i, "Nullable") then Unsupported else NullableOf(i))
      && Accepting(s) == One(!StartsWith(i, "Nullable"))
  {
    var s := Call("Nullable", i);
    CallParts("Nullable", i);
    Parenthesised(s, 8);
  }

  lemma DispatchArray(i: string)
    ensures var s := Call("Array", i);
      Dispatch(s) == ArrayOf(i) && Accepting(s) == 1
  {
    var s := Call("Array", i);
    CallParts("Array", i);
    Parenthesised(s, 5);
  }

  lemma DispatchLowCardinality(i: string)
    requires |i| > 0 && !Space(i[0]) && !Space(i[|i| - 1])
    ensures var s := Call("LowCardinality", i);
      Dispatch(s) == LowCardinalityOf(i) && Accepting(s) == 1
  {
    var s := Call("LowCardinality", i);
    CallParts("LowCardinality", i);
    Parenthesised(s, 14);
    TrimClean(i);
  }

  lemma DispatchFixedString(n: nat)
    ensures var s := Call("FixedString", ShowNat(n));
      Dispatch(s) == (if n < U64_LIMIT then FixedStringOf(n) else Unsupported)
      && Accepting(s) == One(n < U64_LIMIT)
  {
    var s := Call("FixedString", ShowNat(n));
    CallParts("FixedString", ShowNat(n));
    Parenthesised(s, 11);
    ParseShow(n, U64_LIMIT);
  }

  lemma FirstComma(k: string, rest: string)
    requires |rest| > 0 && rest[0] == ','
    ensures Find(k + rest, ',') == Find(k, ',')
  {
    hide Find;
    var body := k + rest;
    var c := Find(k, ',');
    assert body[c] == ',';
    assert forall x :: 0 <= x < c ==> body[x] == k[x];
  }

  lemma ConcatParts(a: string, sep: string, b: string, c: nat)
    requires |sep| == 2 && sep[0] == ',' && c == Find(a, ',')
    ensures Find(a + sep + b, ',') == c
    ensures (a + sep + b)[..c] == a[..c] && (a + sep + b)[|a| + 1..] == [sep[1]] + b
  {
    hide Find;
    var rest := sep + b;
    Associate(a, sep, b);
    FirstComma(a, rest);
    BehindComma(a, sep, b, c);
  }

  lemma Associate(a: string, b: string, c: string)
    ensures a + b + c == a + (b + c)
  {
  }

  lemma BehindComma(a: string, sep: string, b: string, c: nat)
    requires |sep| == 2 && c <= |a|
    ensures (a + sep + b)[..c] == a[..c] && (a + sep + b)[|a| + 1..] == [sep[1]] + b
  {
  }

  lemma PairParts(a: string, b: string)
    ensures var body := Pair(a, b);
      Find(body, ',') == Find(a, ',')
      && body[..Find(a, ',')] == a[..Find(a, ',')]
      && body[|a| + 1..] == [' '] + b
  {
    hide Find;
    ConcatParts(a, ", ", b, Find(a, ','));
    assert [", "[1]] == [' '];
  }

  lemma MapCall(body: string)
    ensures var s := Call("Map", body);
      var c := Find(body, ',');
      ParseMap(s) == if c == |body| then No else Yes((Trim(body[..c]), Trim(body[c + 1..])))
  {
    hide Find, Trim, Call, ParseMap;
    CallParts("Map", body);
    MapBody(Call("Map", body), body);
  }

  lemma MapBody(s: string, body: string)
    requires StartsWith(s, "Map") && |s| >= 5 && s[4..|s| - 1] == body
    ensures var c := Find(body, ',');
      ParseMap(s) == if c == |body| then No else Yes((Trim(body[..c]), Trim(body[c + 1..])))
  {
    hide Find, Trim;
  }

  /** The key ends at the first comma, wherever that comes from. */
  lemma MapAttempt(k: string, v: string)
    ensures var a := ParseMap(Call("Map", Pair(k, v)));
      a.Yes? && a.value.0 == Trim(k[..Find(k, ',')])
      && (Find(k, ',') == |k| ==> a.value.1 == Trim([' '] + v))
  {
    hide *;
    var body := Pair(k, v);
    MapCall(body);
    PairParts(k, v);
  }

  lemma DispatchMap(k: string, v: string)
    requires |v| > 0 && !Space(v[0]) && !Space(v[|v| - 1])
    requires |k| > 0 && !Space(k[0]) && !Space(k[|k| - 1])
    ensures var s := Call("Map", Pair(k, v));
      Dispatch(s).MapOf? && Accepting(s) == 1
      && Dispatch(s).key == Trim(k[..Find(k, ',')])
      && (Find(k, ',') == |k| ==> Dispatch(s) == MapOf(k, v))
  {
    hide *;
    var s := Call("Map", Pair(k, v));
    CallParts("Map", Pair(k, v));
    Parenthesised(s, 3);
    MapAttempt(k, v);
    if Find(k, ',') == |k| {
      assert k[..|k|] == k;
      TrimClean(k);
      TrimClean(v);
    }
  }

  // ----- Decimal -----

  lemma {:induction false} ScanPlain(s: string, i: nat, j: nat, open: Option<nat>, close: Option<nat>)
    requires i <= j <= |s|
    requires forall k :: i <= k < j ==> s[k] != '(' && s[k] != ')'
    ensures DecimalParens(s, i, open, close) == DecimalParens(s, j, open, close)
    decreases j - i
  {
    if i < j { ScanPlain(s, i + 1, j, open, close); }
  }

  lemma SplitPair(a: string, b: string)
    requires ',' !in a && ',' !in b
    ensures Split(a + "," + b) == [a, b]
  {
    var s := a + "," + b;
    assert s[|a|] == ',';
    assert forall x :: 0 <= x < |a| ==> s[x] == a[x];
    assert Find(s, ',') == |a|;
    assert s[..|a|] == a && s[|a| + 1..] == b;
  }

  lemma DecimalArguments(p: nat, s: nat)
    ensures var cells := Split(Pair(ShowNat(p), ShowNat(s)));
      |cells| == 2
      && ParseNat(Trim(cells[0]), 256) == (if p < 256 then Some(p) else None)
      && ParseNat(Trim(cells[1]), 256) == (if s < 256 then Some(s) else None)
  {
    var a, b := ShowNat(p), ShowNat(s);
    ParseShow(p, 256);
    ParseShow(s, 256);
    hide ShowNat, ParseNat, Split, Trim;
    PairAtComma(a, b);
    SplitPair(a, [' '] + b);
    TrimClean(a);
    TrimClean(b);
  }

  lemma PairAtComma(a: string, b: string)
    ensures Pair(a, b) == a + "," + ([' '] + b)
  {
  }

  lemma DecimalName(args: string)
    requires forall k :: 0 <= k < |args| ==> args[k] != '(' && args[k] != ')'
    ensures var s := Call("Decimal", args);
      DecimalParens(s, 0, None, None) == Some((Some(7), Some(|s| - 1)))
  {
    var s := Call("Decimal", args);
    CallParts("Decimal", args);
    assert forall k :: 0 <= k < 7 ==> s[k] == "Decimal"[k];
    ScanPlain(s, 0, 7, None, None);
    assert forall k :: 8 <= k < |s| - 1 ==> s[k] == args[k - 8];
    ScanPlain(s, 8, |s| - 1, Some(7), None);
  }

  lemma DecimalParts(p: Byte, s: Byte)
    ensures var n := Name(Decimal(p, s));
      |n| >= 12 && StartsWith(n, "Decimal") && n[..7] == "Decimal"
      && DecimalParens(n, 0, None, None) == Some((Some(7), Some(|n| - 1)))
      && n[8..|n| - 1] == Pair(ShowNat(p), ShowNat(s))
  {
    var args := Pair(ShowNat(p), ShowNat(s));
    CallParts("Decimal", args);
    DecimalName(args);
  }

  lemma DecimalAttempt(p: Byte, s: Byte)
    ensures var a := ParseDecimal(Name(Decimal(p, s)));
      if s <= p <= 18 then a.Yes? && a.value.0 == p && a.value.1 == s && FromPrecision(p) == Some(a.value.2)
      else a == No
  {
    hide Pair, Trim, ParseNat, Name;
    DecimalParts(p, s);
    DecimalArguments(p, s);
  }

  lemma DispatchDecimal(p: Byte, s: Byte)
    ensures var n := Name(Decimal(p, s));
      Accepting(n) == One(s <= p <= 18)
      && if s <= p <= 18
         then Dispatch(n).DecimalOf? && Dispatch(n).precision == p && Dispatch(n).scale == s
              && FromPrecision(p) == Some(Dispatch(n).bits)
         else Dispatch(n) == Unsupported
  {
    var n := Name(Decimal(p, s));
    CallParts("Decimal", Pair(ShowNat(p), ShowNat(s)));
    Parenthesised(n, 7);
    DecimalAttempt(p, s);
  }

  // ----- the round trip -----

  lemma ShortName(s: string)
    requires 0 < |s| <= 7 && s[0] != 'A' && s[0] != 'M' && ParsePlain(s).Some?
    ensures Accepting(s) == 1
  {
    hide ParsePlain;
  }

  lemma PlainAcceptsOnce(t: SqlType)
    requires t.Plain? || t.Text?
    ensures Dispatch(Name(t)) == PlainOf(t) && Accepting(Name(t)) == 1
  {
    hide ScalarName, ParsePlain, Accepting;
    if t.Plain? {
      ScalarNameShape(t.scalar);
      PlainNames(t.scalar);
    } else {
      TextName();
    }
    ShortName(Name(t));
  }

  lemma CleanName(t: SqlType)
    ensures var n := Name(t); !Space(n[0]) && !Space(n[|n| - 1])
  {
    NameEdges(t);
  }

  lemma NoComma(t: SqlType)
    ensures Find(Name(t), ',') == |Name(t)| <==> !HasComma(t)
  {
    CommaInName(t);
  }

  lemma NullableName(t: SqlType)
    ensures StartsWith(Name(t), "Nullable") <==> t.Nullable?
  {
    var n := Name(t);
    if t.Nullable? {
      assert n[..8] == "Nullable";
    } else {
      NotN(t);
    }
  }

  lemma NotN(t: SqlType)
    requires !t.Nullable?
    ensures Name(t)[0] != 'N'
  {
  }

  /** One branch of the chain accepts the printed name of a recoverable type, and no two
      branches accept the printed name of any type. */
  lemma OneBranch(t: SqlType)
    ensures Accepting(Name(t)) <= 1
    ensures Recoverable(t) ==> Accepting(Name(t)) == 1
  {
    hide ScalarName, ParsePlain, Accepting, Dispatch, Call, Pair, ShowNat, Find;
    match t
    case Plain(_) | Text => PlainAcceptsOnce(t);
    case FixedString(n) => DispatchFixedString(n);
    case Nullable(i) => DispatchNullable(Name(i)); NullableName(i);
    case Array(i) => DispatchArray(Name(i));
    case LowCardinality(i) => CleanName(i); DispatchLowCardinality(Name(i));
    case Decimal(p, s) => DispatchDecimal(p, s);
    case Map(k, v) => CleanName(k); CleanName(v); DispatchMap(Name(k), Name(v));
  }

  /** What the enum, date-time and aggregate branches ask of a name before anything else. */
  predicate OtherKeyword(s: string) {
    var u := TrimStart(s);
    StartsWith(u, "Enum8") || StartsWith(u, "Enum16") || StartsWith(u, "DateTime") || StartsWith(u, "Timestamp")
    || StartsWith(s, "SimpleAggregateFunction(")
  }

  lemma KeywordHead(s: string)
    requires OtherKeyword(s) && |s| > 0 && !Space(s[0])
    ensures s[0] == 'E' || s[0] == 'T' || (s[0] == 'D' && |s| >= 8 && s[1] == 'a') || (s[0] == 'S' && |s| >= 24)
  {
    assert TrimStart(s) == s;
  }

  lemma ScalarHead(s: Scalar)
    ensures |ScalarName(s)| <= 7 && ScalarName(s)[0] != 'E' && ScalarName(s)[0] != 'T'
  {
  }

  /** The other branches of the chain accept no printed name: it lacks their keyword. */
  lemma OtherBranchesRefuse(t: SqlType)
    ensures !OtherKeyword(Name(t))
  {
    NameEdges(t);
    var s := Name(t);
    hide OtherKeyword, ShowNat;
    match t {
      case Plain(x) => ScalarHead(x);
      case Text =>
      case FixedString(n) => CallParts("FixedString", ShowNat(n));
      case Nullable(i) => CallParts("Nullable", Name(i));
      case Array(i) => CallParts("Array", Name(i));
      case LowCardinality(i) => CallParts("LowCardinality", Name(i));
      case Decimal(p, sc) => DecimalHeadLetters(Pair(ShowNat(p), ShowNat(sc)));
      case Map(k, v) => CallParts("Map", Pair(Name(k), Name(v)));
    }
    if OtherKeyword(s) { KeywordHead(s); }
  }

  lemma DecimalHeadLetters(args: string)
    ensures Call("Decimal", args)[0] == 'D' && Call("Decimal", args)[1] == 'e'
  {
  }

  // What `ParseType` makes of each branch.

  lemma ParseNullableOf(s: string, i: string)
    requires Dispatch(s) == NullableOf(i)
    ensures ParseType(s) == match ParseType(i) case Some(t) => Some(Nullable(t)) case None => None
  {
    hide Dispatch;
  }

  lemma ParseArrayOf(s: string, i: string)
    requires Dispatch(s) == ArrayOf(i)
    ensures ParseType(s) == match ParseType(i) case Some(t) => Some(Array(t)) case None => None
  {
    hide Dispatch;
  }

  lemma ParseLowCardinalityOf(s: string, i: string)
    requires Dispatch(s) == LowCardinalityOf(i)
    ensures ParseType(s) == match ParseType(i) case Some(t) => Some(LowCardinality(t)) case None => None
  {
    hide Dispatch;
  }

  lemma ParseLeaf(t: SqlType)
    requires Recoverable(t) && (t.Plain? || t.Text? || t.FixedString? || t.Decimal?)
    ensures ParseType(Name(t)) == Some(t)
  {
    hide ScalarName, Dispatch, Call, Pair, Accepting;
    match t
    case Plain(_) | Text => PlainAcceptsOnce(t);
    case FixedString(n) => DispatchFixedString(n);
    case Decimal(p, s) => DispatchDecimal(p, s);
  }

  lemma ParseMapOf(s: string, k: string, v: string)
    requires Dispatch(s) == MapOf(k, v)
    ensures ParseType(k).Some? && ParseType(v).Some? ==>
              ParseType(s) == Some(Map(ParseType(k).value, ParseType(v).value))
  {
    hide Dispatch;
  }

  /** Printing a recoverable type and loading by the name yields the same type. */
  lemma {:induction false} NameRoundTrip(t: SqlType)
    requires Recoverable(t)
    ensures ParseType(Name(t)) == Some(t)
  {
    hide ScalarName, Dispatch, Call, Pair, Find, Trim, ParseType, Accepting;
    match t
    case Plain(_) | Text | FixedString(_) | Decimal(_, _) => ParseLeaf(t);
    case Nullable(i) =>
      NullableName(i);
      DispatchNullable(Name(i));
      ParseNullableOf(Name(t), Name(i));
      NameRoundTrip(i);
    case Array(i) =>
      DispatchArray(Name(i));
      ParseArrayOf(Name(t), Name(i));
      NameRoundTrip(i);
    case LowCardinality(i) =>
      CleanName(i);
      DispatchLowCardinality(Name(i));
      ParseLowCardinalityOf(Name(t), Name(i));
      NameRoundTrip(i);
    case Map(k, v) =>
      CleanName(k);
      CleanName(v);
      NoComma(k);
      DispatchMap(Name(k), Name(v));
      ParseMapOf(Name(t), Name(k), Name(v));
      NameRoundTrip(k);
      NameRoundTrip(v);
  }

  // ----- the converse: the other types are not recovered -----

  lemma PlainIsPlain(s: string)
    requires ParsePlain(s).Some?
    ensures ParsePlain(s).value.Plain? || ParsePlain(s).value.Text?
  {
  }

  /** Each kind of type comes out of its own branch only. */
  lemma OwnBranch(s: string)
    requires ParseType(s).Some?
    ensures var t := ParseType(s).value;
      (t.FixedString? ==> Dispatch(s) == FixedStringOf(t.len) && ParseFixedString(s) == Yes(t.len))
      && (t.Nullable? ==> ParseNullable(s).Yes? && ParseType(ParseNullable(s).value) == Some(t.inner))
      && (t.Array? ==> ParseArray(s).Yes? && ParseType(ParseArray(s).value) == Some(t.inner))
      && (t.LowCardinality? ==> ParseLowCardinality(s).Yes?
                                && ParseType(ParseLowCardinality(s).value) == Some(t.inner))
      && (t.Map? ==> ParseMap(s).Yes? && ParseType(ParseMap(s).value.0) == Some(t.key)
                     && ParseType(ParseMap(s).value.1) == Some(t.value))
      && (t.Decimal? ==> ParseDecimal(s).Yes?)
  {
    hide ParsePlain, ParseNullable, ParseFixedString, ParseArray, ParseMap, ParseDecimal, ParseLowCardinality;
    if ParsePlain(s).Some? { PlainIsPlain(s); }
  }

  lemma MapNeedsComma(s: string)
    requires ParseMap(s).Yes?
    ensures ',' in s
  {
    hide Trim;
    var body := s[4..|s| - 1];
    var c := Find(body, ',');
    assert s[4 + c] == body[c];
  }

  lemma {:induction false} ScanClose(s: string, i: nat, open: Option<nat>, close: Option<nat>)
    requires i <= |s|
    requires close.Some? ==> close.value < i && s[close.value] == ')'
    ensures var r := DecimalParens(s, i, open, close);
      r.Some? && r.value.1.Some? ==> r.value.1.value < |s| && s[r.value.1.value] == ')'
    decreases |s| - i
  {
    if i < |s| {
      ScanClose(s, i + 1, if s[i] == '(' then Some(i) else open, if s[i] == ')' then Some(i) else close);
    }
  }

  lemma DecimalNeedsClose(s: string)
    requires ParseDecimal(s).Yes?
    ensures ')' in s
  {
    ScanClose(s, 0, None, None);
  }

  lemma FindInCall(head: string, args: string)
    requires ',' !in head && ',' in args
    ensures Find(Call(head, args), ',') == |head| + 1 + Find(args, ',')
  {
    hide Find;
    var s := Call(head, args);
    CallParts(head, args);
    var c := Find(args, ',');
    var i :| 0 <= i < |args| && args[i] == ',';
    assert s[|head| + 1 + c] == args[c];
    assert forall x :: 0 <= x < |head| ==> s[x] == head[x];
    assert forall x :: |head| + 1 <= x < |head| + 1 + c ==> s[x] == args[x - |head| - 1];
  }

  /** What stands between the parentheses of a call cut off before its first comma. */
  lemma TruncatedCall(head: string, args: string, m: nat, n: nat)
    requires ',' !in head && ',' in args && m <= Find(Call(head, args), ',')
    requires |head| + 1 <= n <= m
    ensures Call(head, args)[..m][|head|] == '('
    ensures n - |head| - 1 <= Find(args, ',')
    ensures Call(head, args)[..m][|head| + 1..n] == args[..n - |head| - 1]
  {
    hide Find;
    CallParts(head, args);
    FindInCall(head, args);
    var s := Call(head, args);
    assert s[|head| + 1..|s| - 1][..n - |head| - 1] == s[..m][|head| + 1..n];
  }

  lemma LowCardinalitySlice(s: string)
    requires ParseLowCardinality(s).Yes? && |s| > 14 && s[14] == '('
    ensures exists n :: 15 <= n < |s| && ParseLowCardinality(s).value == Trim(s[15..n])
  {
    var close := LastDownTo(s, 14, |s| - 1, ')');
    assert FirstFrom(s, 14, '(') == 14;
    assert 15 <= close < |s| && ParseLowCardinality(s).value == Trim(s[15..close]);
  }

  lemma LowCardinalityLong(s: string)
    requires ParseLowCardinality(s).Yes?
    ensures |s| > 14
  {
  }

  lemma TruncatedNullableText(inner: string, m: nat)
    requires ',' in inner && m <= Find(Call("Nullable", inner), ',')
    requires ParseNullable(Call("Nullable", inner)[..m]).Yes?
    ensures 10 <= m && m - 10 <= Find(inner, ',')
    ensures ParseNullable(Call("Nullable", inner)[..m]).value == inner[..m - 10]
  {
    hide Call, Find;
    TruncatedCall("Nullable", inner, m, m - 1);
  }

  lemma TruncatedArrayText(inner: string, m: nat)
    requires ',' in inner && m <= Find(Call("Array", inner), ',')
    requires ParseArray(Call("Array", inner)[..m]).Yes?
    ensures 7 <= m && m - 7 <= Find(inner, ',')
    ensures ParseArray(Call("Array", inner)[..m]).value == inner[..m - 7]
  {
    hide Call, Find;
    TruncatedCall("Array", inner, m, m - 1);
  }

  lemma TruncatedLowCardinalityText(inner: string, m: nat) returns (k: nat)
    requires ',' in inner && m <= Find(Call("LowCardinality", inner), ',')
    requires !Space(inner[0])
    requires ParseLowCardinality(Call("LowCardinality", inner)[..m]).Yes?
    ensures k <= Find(inner, ',')
    ensures ParseLowCardinality(Call("LowCardinality", inner)[..m]).value == inner[..k]
  {
    hide Call, Find, Trim, ParseLowCardinality;
    var s := Call("LowCardinality", inner)[..m];
    LowCardinalityLong(s);
    TruncatedCall("LowCardinality", inner, m, 15);
    LowCardinalitySlice(s);
    var n :| 15 <= n < |s| && ParseLowCardinality(s).value == Trim(s[15..n]);
    TruncatedCall("LowCardinality", inner, m, n);
    k := TrimPrefix(inner, n - 15);
  }

  /** A name cut off before its first comma does not lead back to the type. */
  lemma {:induction false} TruncatedName(t: SqlType, m: nat)
    requires HasComma(t) && m <= Find(Name(t), ',')
    ensures ParseType(Name(t)[..m]) != Some(t)
    decreases t
  {
    hide Find, Call, Pair, ParseType, ScalarName, ParseNullable, ParseArray, ParseMap, ParseDecimal;
    hide ParseLowCardinality, Dispatch;
    var s := Name(t)[..m];
    if ParseType(s) == Some(t) {
      OwnBranch(s);
      match t
      case Map(k, v) =>
        MapNeedsComma(s);
        assert false;
      case Decimal(p, c) =>
        DecimalNeedsClose(s);
        DecimalHead(p, c, m);
        assert false;
      case Nullable(i) =>
        CommaInName(i);
        TruncatedNullableText(Name(i), m);
        TruncatedName(i, m - 10);
      case Array(i) =>
        CommaInName(i);
        TruncatedArrayText(Name(i), m);
        TruncatedName(i, m - 7);
      case LowCardinality(i) =>
        CommaInName(i);
        CleanName(i);
        var k := TruncatedLowCardinalityText(Name(i), m);
        TruncatedName(i, k);
    }
  }

  lemma DecimalHead(p: Byte, c: Byte, m: nat)
    requires m <= Find(Name(Decimal(p, c)), ',')
    ensures ')' !in Name(Decimal(p, c))[..m]
  {
    hide Find, Name;
    DecimalText(p, c);
  }

  lemma DecimalText(p: Byte, c: Byte)
    ensures var s := Name(Decimal(p, c));
      ')' !in s[..Find(s, ',')]
  {
    hide Find, Call, Pair;
    var a := ShowNat(p);
    var args := Pair(a, ShowNat(c));
    PairComma(a, ShowNat(c));
    FindInCall("Decimal", args);
    PairParts(a, ShowNat(c));
    CallParts("Decimal", args);
    var s := Name(Decimal(p, c));
    var f := Find(args, ',');
    forall x | 0 <= x < 8 + f ensures s[x] != ')' {
      if x < 7 {
        assert s[x] == s[..7][x];
      } else if x > 7 {
        assert s[x] == s[8..|s| - 1][x - 8] == args[..f][x - 8] == a[..f][x - 8];
      }
    }
  }

  lemma MapKeyCut(k: SqlType, v: SqlType) returns (m: nat)
    ensures m <= Find(Name(k), ',')
    ensures ParseMap(Name(Map(k, v))).Yes? && ParseMap(Name(Map(k, v))).value.0 == Name(k)[..m]
    ensures !HasComma(k) ==> ParseMap(Name(Map(k, v))).value == (Name(k), Name(v))
  {
    hide ScalarName, ParseMap, Call, Pair, Find, Trim, ParseType;
    CleanName(k);
    CleanName(v);
    NoComma(k);
    MapAttempt(Name(k), Name(v));
    m := TrimPrefix(Name(k), Find(Name(k), ','));
    assert Name(k)[..|Name(k)|] == Name(k);
    TrimClean(Name(k));
    TrimClean(Name(v));
  }

  /** A Map comes back only when its key has no comma and both sides come back. */
  lemma MapRecovers(k: SqlType, v: SqlType)
    requires ParseType(Name(Map(k, v))) == Some(Map(k, v))
    ensures !HasComma(k)
    ensures ParseType(Name(k)) == Some(k) && ParseType(Name(v)) == Some(v)
  {
    hide ParseType, ParseMap, Name, Find;
    OwnBranch(Name(Map(k, v)));
    var m := MapKeyCut(k, v);
    if HasComma(k) { TruncatedName(k, m); }
  }

  lemma NullableRecovers(i: SqlType)
    requires ParseType(Name(Nullable(i))) == Some(Nullable(i))
    ensures !i.Nullable? && ParseType(Name(i)) == Some(i)
  {
    hide Dispatch, Call, ScalarName, Accepting, ParseType;
    NullableName(i);
    DispatchNullable(Name(i));
    if i.Nullable? {
      ParseUnsupported(Name(Nullable(i)));
    } else {
      ParseNullableOf(Name(Nullable(i)), Name(i));
    }
  }

  lemma ParseUnsupported(s: string)
    requires Dispatch(s) == Unsupported
    ensures ParseType(s) == None
  {
    hide Dispatch;
  }

  lemma ArrayRecovers(i: SqlType)
    requires ParseType(Name(Array(i))) == Some(Array(i))
    ensures ParseType(Name(i)) == Some(i)
  {
    hide Dispatch, Call, ScalarName, Accepting, ParseType;
    DispatchArray(Name(i));
    ParseArrayOf(Name(Array(i)), Name(i));
  }

  lemma LowCardinalityRecovers(i: SqlType)
    requires ParseType(Name(LowCardinality(i))) == Some(LowCardinality(i))
    ensures ParseType(Name(i)) == Some(i)
  {
    hide Dispatch, Call, ScalarName, Accepting, ParseType;
    CleanName(i);
    DispatchLowCardinality(Name(i));
    ParseLowCardinalityOf(Name(LowCardinality(i)), Name(i));
  }

  lemma LeafRecovers(t: SqlType)
    requires t.FixedString? || t.Decimal?
    requires ParseType(Name(t)) == Some(t)
    ensures Recoverable(t)
  {
    match t
    case FixedString(n) => DispatchFixedString(n);
    case Decimal(p, s) => DispatchDecimal(p, s);
    hide Dispatch, Call, Pair, ScalarName, Accepting;
  }

  /** The printed name of a type leads back to that type exactly for the recoverable ones. */
  lemma {:induction false} NameRecovers(t: SqlType)
    ensures ParseType(Name(t)) == Some(t) <==> Recoverable(t)
  {
    hide Name, ParseType;
    if Recoverable(t) {
      NameRoundTrip(t);
    } else if ParseType(Name(t)) == Some(t) {
      match t
      case FixedString(_) | Decimal(_, _) => LeafRecovers(t);
      case Nullable(i) => NullableRecovers(i); NameRecovers(i);
      case Array(i) => ArrayRecovers(i); NameRecovers(i);
      case LowCardinality(i) => LowCardinalityRecovers(i); NameRecovers(i);
      case Map(k, v) => MapRecovers(k, v); NameRecovers(k); NameRecovers(v);
    }
  }
}
