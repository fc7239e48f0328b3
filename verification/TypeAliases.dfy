/** Names that the printer never makes: aliases of decimals, spaces, signs, and names that end
    too early. */
module TypeAliases {
  import opened Bytes
  import opened SqlTypes
  import opened Factory
  import opened TypeNames

  // ----- decimals of a given width -----

  lemma AliasParens(head: string, args: string)
    requires head == "Decimal32" || head == "Decimal64"
    requires forall k :: 0 <= k < |args| ==> args[k] != '(' && args[k] != ')'
    ensures var s := Call(head, args);
      DecimalParens(s, 0, None, None) == Some((Some(9), Some(|s| - 1)))
  {
    var s := Call(head, args);
    CallParts(head, args);
    assert forall k :: 0 <= k < 9 ==> s[k] == head[k];
    ScanPlain(s, 0, 9, None, None);
    assert forall k :: 10 <= k < |s| - 1 ==> s[k] == args[k - 10];
    ScanPlain(s, 10, |s| - 1, Some(9), None);
  }

  /** `Decimal32(S)` has nine digits and `Decimal64(S)` eighteen, at any scale of one byte, even
      one that is greater. */
  lemma AliasExactly(head: string, scale: nat)
    requires head == "Decimal32" || head == "Decimal64"
    ensures Dispatch(Call(head, ShowNat(scale))) ==
              if scale >= 256 then Unsupported
              else if head == "Decimal32" then DecimalOf(9, scale, N32) else DecimalOf(18, scale, N64)
  {
    var args := ShowNat(scale);
    var s := Call(head, args);
    CallParts(head, args);
    ParseShow(scale, 256);
    AliasParens(head, args);
    assert s[0] == head[0] == 'D';
    Parenthesised(s, 9);
    assert head[..7] == "Decimal" && s[..7] == head[..7];
    hide ParseNat, ShowNat, DecimalParens, Call, Split, Accepting, ParsePlain;
  }

  // ----- numerals -----

  /** A numeral may have a plus sign, and nothing else in front of it. */
  lemma SignedNumeral(n: nat, limit: nat)
    ensures ParseNat("+" + ShowNat(n), limit) == if n < limit then Some(n) else None
    ensures ParseNat("-" + ShowNat(n), limit) == None && ParseNat("", limit) == None && ParseNat("+", limit) == None
  {
    ParseShow(n, limit);
    DigitsOfShow(n);
    assert ("+" + ShowNat(n))[1..] == ShowNat(n);
    NoDigits("-" + ShowNat(n), 0);
    assert "+"[1..] == "";
  }

  lemma {:induction false} NoDigits(s: string, i: nat)
    requires i < |s| && !IsDigit(s[i])
    ensures DigitsValue(s) == None
  {
    if i < |s| - 1 { NoDigits(s[..|s| - 1], i); }
  }

  // ----- spaces -----

  predicate Blank(s: string) {
    forall i :: 0 <= i < |s| ==> s[i] in [' ', '\t', '\n', '\U{000B}', '\U{000C}', '\r']
  }

  lemma {:induction false} TrimFront(a: string, s: string)
    requires Blank(a) && (|s| > 0 ==> !Space(s[0]))
    ensures TrimStart(a + s) == s
  {
    if |a| > 0 {
      assert (a + s)[1..] == a[1..] + s;
      TrimFront(a[1..], s);
    } else {
      assert a + s == s;
    }
  }

  lemma {:induction false} TrimBack(s: string, b: string)
    requires Blank(b) && |s| > 0 && !Space(s[|s| - 1])
    ensures TrimEnd(s + b) == s
  {
    if |b| > 0 {
      assert (s + b)[..|s + b| - 1] == s + b[..|b| - 1];
      TrimBack(s, b[..|b| - 1]);
    } else {
      assert s + b == s;
    }
  }

  /** The name of an inner type may have spaces around it. */
  lemma PaddedInner(a: string, t: SqlType, b: string)
    requires Blank(a) && Blank(b)
    ensures Trim(a + Name(t) + b) == Name(t)
  {
    hide Name, TrimStart, TrimEnd, Space, Blank;
    CleanName(t);
    assert a + Name(t) + b == a + (Name(t) + b);
    TrimFront(a, Name(t) + b);
    TrimBack(Name(t), b);
  }

  lemma PaddedLowCardinality(a: string, t: SqlType, b: string)
    requires Blank(a) && Blank(b)
    ensures Dispatch(Call("LowCardinality", a + Name(t) + b)) == LowCardinalityOf(Name(t))
  {
    var inner := a + Name(t) + b;
    PaddedInner(a, t, b);
    CallParts("LowCardinality", inner);
    Parenthesised(Call("LowCardinality", inner), 14);
    hide Name, Trim, Accepting;
  }

  lemma CommaSplit(key: string, value: string)
    requires ',' !in key
    ensures var body := key + "," + value;
      Find(body, ',') == |key| && body[..|key|] == key && body[|key| + 1..] == value && |key| < |body|
  {
    var body := key + "," + value;
    assert body[|key|] == ',' && forall i :: 0 <= i < |key| ==> body[i] == key[i];
    assert Find(body, ',') == |key|;
  }

  /** The names of key and value stand on both sides of the first comma, without the spaces. */
  lemma MapParts(key: string, value: string)
    requires ',' !in key
    ensures Dispatch(Call("Map", key + "," + value)) == MapOf(Trim(key), Trim(value))
  {
    hide *;
    var body := key + "," + value;
    CommaSplit(key, value);
    CallParts("Map", body);
    Parenthesised(Call("Map", body), 3);
    MapCall(body);
  }

  lemma NoCommaPadded(a: string, n: string, b: string)
    requires Blank(a) && Blank(b) && ',' !in n
    ensures ',' !in a + n + b
  {
  }

  lemma PaddedMap(a: string, k: SqlType, b: string, c: string, v: SqlType, d: string)
    requires Blank(a) && Blank(b) && Blank(c) && Blank(d) && !HasComma(k)
    ensures Dispatch(Call("Map", a + Name(k) + b + "," + (c + Name(v) + d))) == MapOf(Name(k), Name(v))
  {
    hide *;
    PaddedInner(a, k, b);
    PaddedInner(c, v, d);
    CommaInName(k);
    NoCommaPadded(a, Name(k), b);
    MapParts(a + Name(k) + b, c + Name(v) + d);
  }

  // ----- names that end too early -----

  /** A keyword whose parentheses are missing or cut off is a slice outside the name; with
      empty parentheses it is not. */
  lemma CutNames()
    ensures Dispatch("Nullable(") == Panics && Dispatch("Nullable()") == NullableOf("")
    ensures Dispatch("FixedString(") == Panics && Dispatch("FixedString()") == Unsupported
    ensures Dispatch("Array(") == Panics && Dispatch("Array()") == ArrayOf("")
    ensures Dispatch("Map(") == Panics && Dispatch("Map()") == Unsupported
  {
    hide *;
    NullableCut();
    FixedStringCut();
    ArrayCut();
    MapCut();
  }

  lemma NullableCut()
    ensures Dispatch("Nullable(") == Panics && Dispatch("Nullable()") == NullableOf("")
  {
    Parenthesised("Nullable(", 8);
    Parenthesised("Nullable()", 8);
    assert "Nullable" <= "Nullable(" && "Nullable" <= "Nullable()" && "Nullable()"[9..9] == "";
    hide Accepting, ParsePlain, Dispatch;
  }

  lemma FixedStringCut()
    ensures Dispatch("FixedString(") == Panics && Dispatch("FixedString()") == Unsupported
  {
    Parenthesised("FixedString(", 11);
    Parenthesised("FixedString()", 11);
    assert "FixedString" <= "FixedString(" && "FixedString" <= "FixedString()" && "FixedString()"[12..12] == "";
    hide Accepting, ParsePlain, Dispatch;
  }

  lemma ArrayCut()
    ensures Dispatch("Array(") == Panics && Dispatch("Array()") == ArrayOf("")
  {
    Parenthesised("Array(", 5);
    Parenthesised("Array()", 5);
    assert "Array" <= "Array(" && "Array" <= "Array()" && "Array()"[6..6] == "";
    hide Accepting, ParsePlain, Dispatch;
  }

  lemma MapCut()
    ensures Dispatch("Map(") == Panics && Dispatch("Map()") == Unsupported
  {
    Parenthesised("Map(", 3);
    Parenthesised("Map()", 3);
    assert "Map" <= "Map(" && "Map" <= "Map()" && "Map()"[4..4] == "";
    hide Accepting, ParsePlain, Dispatch;
  }
}
