/** Query parameters: quoted values, checked names, and the list that an empty name ends. */
module QueryParams {
  import opened Bytes
  import opened Parsed
  import opened Uvarint
  import opened ReadEx

  const QUOTE: Byte := 39
  const BACKSLASH: Byte := 92
  const PARAM_PREFIX: Bytes := [112, 97, 114, 97, 109, 95]   // param_
  const CUSTOM_FLAG: nat := 2

  // ----- quoting -----

  /** The letter behind the backslash for a byte that is escaped. */
  function EscapeLetter(b: Byte): Option<Byte> {
    if b == QUOTE then Some(QUOTE)
    else if b == BACKSLASH then Some(BACKSLASH)
    else if b == 10 then Some(110)
    else if b == 13 then Some(114)
    else if b == 9 then Some(116)
    else if b == 0 then Some(48)
    else None
  }

  function EscapeByte(b: Byte): Bytes {
    match EscapeLetter(b)
    case Some(letter) => [BACKSLASH, letter]
    case None => [b]
  }

  function Escape(s: Bytes): Bytes {
    if |s| == 0 then [] else EscapeByte(s[0]) + Escape(s[1..])
  }

  function Quote(s: Bytes): Bytes {
    [QUOTE] + Escape(s) + [QUOTE]
  }

  lemma {:induction false} EscapeAppend(s: Bytes, b: Byte)
    ensures Escape(s + [b]) == Escape(s) + EscapeByte(b)
  {
    if |s| == 0 {
      assert s + [b] == [b] && [b][1..] == [];
      assert Escape([]) == [];
    } else {
      assert (s + [b])[1..] == s[1..] + [b];
      EscapeAppend(s[1..], b);
    }
  }

  /** `write_quoted`. */
  method WriteQuoted(s: Bytes) returns (out: Bytes)
    ensures out == Quote(s)
  {
    out := [QUOTE];
    assert s[..0] == [];
    for i := 0 to |s|
      invariant out == [QUOTE] + Escape(s[..i])
    {
      assert s[..i + 1] == s[..i] + [s[i]];
      EscapeAppend(s[..i], s[i]);
      match EscapeLetter(s[i])
      case Some(letter) =>
        out := out + [BACKSLASH];
        out := out + [letter];
      case None =>
        out := out + [s[i]];
    }
    assert s[..|s|] == s;
    out := out + [QUOTE];
  }

  // ----- the reader of a quoted string -----

  function UnescapeLetter(letter: Byte): Option<Byte> {
    if letter == 39 then Some(39)
    else if letter == 92 then Some(92)
    else if letter == 110 then Some(10)
    else if letter == 114 then Some(13)
    else if letter == 116 then Some(9)
    else if letter == 48 then Some(0)
    else None
  }

  /** Reads a quoted string from behind its opening quote: the text, and what stands behind
      the first quote without a backslash. */
  function Unquote(bs: Bytes): Option<(Bytes, Bytes)> {
    if |bs| == 0 then None
    else if bs[0] == 39 then Some(([], bs[1..]))
    else if bs[0] != 92 then Prefixed(bs[0], Unquote(bs[1..]))
    else if |bs| == 1 then None
    else
      match UnescapeLetter(bs[1])
      case Some(b) => Prefixed(b, Unquote(bs[2..]))
      case None => None
  }

  function Prefixed(b: Byte, r: Option<(Bytes, Bytes)>): Option<(Bytes, Bytes)> {
    match r
    case Some(q) => Some(([b] + q.0, q.1))
    case None => None
  }

  lemma UnescapeEscape(b: Byte)
    ensures EscapeLetter(b).Some? ==> UnescapeLetter(EscapeLetter(b).value) == Some(b)
    ensures EscapeLetter(b).None? ==> b != QUOTE && b != BACKSLASH
  {
  }

  /** An escaped byte is read as the byte. */
  lemma UnquoteByte(b: Byte, tail: Bytes)
    ensures Unquote(EscapeByte(b) + tail) == Prefixed(b, Unquote(tail))
  {
    UnescapeEscape(b);
    var all := EscapeByte(b) + tail;
    if EscapeLetter(b).Some? {
      var letter := EscapeLetter(b).value;
      assert all[0] == BACKSLASH && all[1] == letter && all[2..] == tail && |all| > 1;
      hide EscapeLetter, UnescapeLetter;
    } else {
      assert all[0] == b && all[1..] == tail;
      hide EscapeLetter, UnescapeLetter;
    }
  }

  /** The first quote without a backslash is the closing one, and what is read up to it is
      the value, whatever stands behind. */
  lemma {:induction false} UnquoteEscape(s: Bytes, rest: Bytes)
    ensures Unquote(Escape(s) + ([QUOTE] + rest)) == Some((s, rest))
  {
    hide EscapeByte, Unquote, Escape;
    EscapeParts(s, [QUOTE] + rest);
    if |s| == 0 {
      UnquoteEnd(rest);
    } else {
      UnquoteEscape(s[1..], rest);
      UnquoteByte(s[0], Escape(s[1..]) + ([QUOTE] + rest));
      assert [s[0]] + s[1..] == s;
    }
  }

  lemma EscapeParts(s: Bytes, tail: Bytes)
    ensures |s| == 0 ==> Escape(s) + tail == tail
    ensures |s| > 0 ==> Escape(s) + tail == EscapeByte(s[0]) + (Escape(s[1..]) + tail)
  {
    if |s| == 0 {
      assert Escape(s) == [];
    } else {
      assert Escape(s) == EscapeByte(s[0]) + Escape(s[1..]);
      hide Escape, EscapeByte;
      Associate(EscapeByte(s[0]), Escape(s[1..]), tail);
    }
  }

  lemma Associate(a: Bytes, b: Bytes, c: Bytes)
    ensures a + b + c == a + (b + c)
  {
  }

  lemma UnquoteEnd(rest: Bytes)
    ensures Unquote([QUOTE] + rest) == Some(([], rest))
  {
    assert ([QUOTE] + rest)[1..] == rest;
  }

  /** Quoting has a left inverse. */
  lemma UnquoteQuote(s: Bytes, rest: Bytes)
    ensures (Quote(s) + rest)[0] == 39 && Unquote((Quote(s) + rest)[1..]) == Some((s, rest))
  {
    assert (Quote(s) + rest)[1..] == Escape(s) + ([QUOTE] + rest);
    UnquoteEscape(s, rest);
  }

  predicate Special(b: Byte) { b == 39 || b == 92 || b == 10 || b == 13 || b == 9 || b == 0 }

  /** Line breaks, tabs and zero bytes never stand in a quoted value as they are, and a value
      is quoted without a backslash if and only if no byte of it is special. */
  lemma {:induction false} QuotedIsPlain(s: Bytes)
    ensures forall i :: 0 <= i < |Escape(s)| ==> Escape(s)[i] !in [10, 13, 9, 0]
    ensures |Escape(s)| >= |s|
    ensures Escape(s) == s <==> forall i :: 0 <= i < |s| ==> !Special(s[i])
  {
    if |s| > 0 {
      var rest := s[1..];
      QuotedIsPlain(rest);
      assert s == [s[0]] + rest;
      if Special(s[0]) {
        assert |Escape(s)| == 2 + |Escape(rest)|;
      } else {
        assert Escape(s) == [s[0]] + Escape(rest) && Escape(s)[1..] == Escape(rest);
        assert forall i :: 1 <= i < |s| ==> s[i] == rest[i - 1];
        assert forall i :: 0 <= i < |rest| ==> rest[i] == s[i + 1];
      }
    }
  }

  // ----- names -----

  predicate Letter(b: Byte) { 65 <= b <= 90 || 97 <= b <= 122 }

  predicate Digit(b: Byte) { 48 <= b <= 57 }

  /** `validate_parameter_name`. */
  predicate ValidName(name: Bytes) {
    |name| > 0 && !(PARAM_PREFIX <= name)
    && (Letter(name[0]) || name[0] == 95)
    && forall i :: 0 <= i < |name| ==> Letter(name[i]) || Digit(name[i]) || name[i] == 95
  }

  /** Names are ASCII identifiers that do not begin with the prefix of settings. */
  lemma NameExactly(s: string)
    requires Ascii(s)
    ensures ValidName(Encode(s)) <==>
      s != "" && !("param_" <= s) && !('0' <= s[0] <= '9')
      && forall i :: 0 <= i < |s| ==>
           'a' <= s[i] <= 'z' || 'A' <= s[i] <= 'Z' || '0' <= s[i] <= '9' || s[i] == '_'
  {
    var name := Encode(s);
    assert Encode("param_") == PARAM_PREFIX;
    if "param_" <= s { assert name[..6] == Encode(s[..6]); }
    if PARAM_PREFIX <= name {
      forall i | 0 <= i < 6 ensures s[i] == "param_"[i] {
        assert s[i] as int == name[i] == PARAM_PREFIX[i] == Encode("param_")[i];
      }
      assert s[..6] == "param_";
    }
    forall i | 0 <= i < |s|
      ensures Letter(name[i]) <==> 'a' <= s[i] <= 'z' || 'A' <= s[i] <= 'Z'
      ensures Digit(name[i]) <==> '0' <= s[i] <= '9'
      ensures name[i] == 95 <==> s[i] == '_'
    {
      assert name[i] == s[i] as int && s[i] == name[i] as char;
    }
  }

  method ValidateName(name: Bytes) returns (ok: bool)
    ensures ok <==> ValidName(name)
  {
    if |name| == 0 || PARAM_PREFIX <= name {
      return false;
    }
    if !Letter(name[0]) && name[0] != 95 {
      return false;
    }
    for i := 1 to |name|
      invariant forall k :: 1 <= k < i ==> Letter(name[k]) || Digit(name[k]) || name[k] == 95
    {
      if !Letter(name[i]) && !Digit(name[i]) && name[i] != 95 {
        return false;
      }
    }
    return true;
  }

  // ----- the list -----

  type Params = seq<(Bytes, Bytes)>

  predicate Sized(params: Params) {
    forall i :: 0 <= i < |params| ==> |params[i].0| < U64_LIMIT && |Quote(params[i].1)| < U64_LIMIT
  }

  function ParamBytes(name: Bytes, value: Bytes): Bytes {
    Blob(name) + (Leb(CUSTOM_FLAG) + Blob(Quote(value)))
  }

  function ParamsBytes(params: Params): Bytes {
    if |params| == 0 then Blob([]) else ParamBytes(params[0].0, params[0].1) + ParamsBytes(params[1..])
  }

  /** Reads entries up to an empty name. */
  function ReadParams(d: Bytes, pos: nat): (r: Parsed<Params>)
    requires pos <= |d|
    decreases |d| - pos
  {
    var (name, p1) :- ReadBlob(d, pos);
    if name == [] then Ok([], p1)
    else
      var (flag, p2) :- ReadUvarint(d, p1);
      var (text, p3) :- ReadBlob(d, p2);
      if flag != 0x02 || |text| == 0 || text[0] != 39 then Err(Deserialize, p3)
      else
        match Unquote(text[1..])
        case None => Err(Deserialize, p3)
        case Some(q) =>
          if q.1 != [] then Err(Deserialize, p3)
          else
            var (rest, p) :- ReadParams(d, p3);
            Ok([(name, q.0)] + rest, p)
  }

  lemma ParamAt(name: Bytes, value: Bytes, d: Bytes, pos: nat)
    requires |name| < U64_LIMIT && |Quote(value)| < U64_LIMIT && Holds(d, pos, ParamBytes(name, value))
    ensures var p1 := pos + |Blob(name)|; var p2 := p1 + |Leb(CUSTOM_FLAG)|;
      var text := Quote(value);
      p2 + |Blob(text)| == pos + |ParamBytes(name, value)| && p2 + |Blob(text)| <= |d|
      && ReadBlob(d, pos) == Ok(name, p1)
      && ReadUvarint(d, p1) == Ok(CUSTOM_FLAG, p2)
      && ReadBlob(d, p2) == Ok(text, p2 + |Blob(text)|)
      && |text| > 0 && text[0] == QUOTE && Unquote(text[1..]) == Some((value, []))
  {
    hide Blob, Leb, Holds, ReadBlob, ReadUvarint, Quote, Unquote;
    var p1 := pos + |Blob(name)|;
    var p2 := p1 + |Leb(CUSTOM_FLAG)|;
    HoldsSplit(d, pos, Blob(name), Leb(CUSTOM_FLAG) + Blob(Quote(value)));
    HoldsSplit(d, p1, Leb(CUSTOM_FLAG), Blob(Quote(value)));
    BlobAt(d, pos, name);
    UvarintRoundTrip(CUSTOM_FLAG, d, p1);
    BlobAt(d, p2, Quote(value));
    UnquoteQuote(value, []);
    QuoteFits(value, d, p2);
    assert Quote(value) + [] == Quote(value);
  }

  lemma QuoteFits(value: Bytes, d: Bytes, pos: nat)
    requires Holds(d, pos, Blob(Quote(value)))
    ensures |Quote(value)| > 0 && pos + |Blob(Quote(value))| <= |d|
  {
  }

  /** The entries in front of the first empty name. */
  function UpToEmpty(params: Params): Params {
    if |params| == 0 || params[0].0 == [] then [] else [params[0]] + UpToEmpty(params[1..])
  }

  /** The list is read up to the first empty name. */
  lemma {:induction false} ReadUpToEmpty(params: Params, d: Bytes, pos: nat)
    requires Sized(params) && Holds(d, pos, ParamsBytes(params)) && pos <= |d|
    ensures ReadParams(d, pos).Ok? && ReadParams(d, pos).value == UpToEmpty(params)
    ensures (forall i :: 0 <= i < |params| ==> params[i].0 != []) ==>
              ReadParams(d, pos).pos == pos + |ParamsBytes(params)|
    decreases |params|
  {
    hide ReadBlob, ReadUvarint, Holds, Blob, Quote, Unquote;
    if |params| == 0 {
      BlobAt(d, pos, []);
    } else {
      var (name, value) := params[0];
      HoldsSplit(d, pos, ParamBytes(name, value), ParamsBytes(params[1..]));
      ParamAt(name, value, d, pos);
      if name != [] {
        ReadUpToEmpty(params[1..], d, pos + |ParamBytes(name, value)|);
      }
    }
  }

  lemma {:induction false} UpToEmptyIsAll(params: Params)
    ensures UpToEmpty(params) == params <==> forall i :: 0 <= i < |params| ==> params[i].0 != []
  {
    if |params| > 0 {
      UpToEmptyIsAll(params[1..]);
      assert params == [params[0]] + params[1..];
      if params[0].0 != [] {
        assert forall i :: 1 <= i < |params| ==> params[i] == params[1..][i - 1];
      }
    }
  }

  /** The list that was bound is read back, with exactly its bytes, if and only if no name
      is empty. */
  lemma ParamsRoundTrip(params: Params, d: Bytes, pos: nat)
    requires Sized(params) && Holds(d, pos, ParamsBytes(params)) && pos <= |d|
    ensures ReadParams(d, pos) == Ok(params, pos + |ParamsBytes(params)|)
            <==> forall i :: 0 <= i < |params| ==> params[i].0 != []
  {
    hide ReadParams;
    ReadUpToEmpty(params, d, pos);
    UpToEmptyIsAll(params);
  }

  // ----- the query -----

  class Query {
    var parameters: Params

    /** Every bound name has been checked. */
    ghost predicate Valid()
      reads this
    {
      forall i :: 0 <= i < |parameters| ==> ValidName(parameters[i].0)
    }

    constructor ()
      ensures Valid() && parameters == []
    {
      parameters := [];
    }

    method WithParameter(name: Bytes, value: Bytes) returns (ok: bool)
      requires Valid()
      modifies this
      ensures Valid() && (ok <==> ValidName(name))
      ensures parameters == if ok then old(parameters) + [(name, value)] else old(parameters)
    {
      ok := ValidateName(name);
      if ok {
        parameters := parameters + [(name, value)];
      }
    }

    /** The written list is read back as the bound one. */
    method SerializeParams(enc: Encoder)
      requires Valid() && Sized(parameters)
      modifies enc
      ensures enc.buffer == old(enc.buffer) + ParamsBytes(parameters)
      ensures ReadParams(enc.buffer, |old(enc.buffer)|) == Ok(parameters, |enc.buffer|)
    {
      hide Blob, Leb, Quote, ReadParams;
      ghost var start := enc.buffer;
      var params := parameters;
      assert params[0..] == params;
      for i := 0 to |params|
        invariant enc.buffer + ParamsBytes(params[i..]) == start + ParamsBytes(params)
      {
        ghost var before, rest := enc.buffer, params[i..];
        var (name, value) := params[i];
        enc.ByteString(name);
        enc.Uvarint(CUSTOM_FLAG);
        var text := WriteQuoted(value);
        enc.ByteString(text);
        assert rest[0] == params[i] && rest[1..] == params[i + 1..];
        assert enc.buffer == before + ParamBytes(name, value);
        assert before + ParamsBytes(rest) == before + ParamBytes(name, value) + ParamsBytes(rest[1..]);
      }
      enc.ByteString([]);
      assert params[|params|..] == [];
      WholeTail(start, ParamsBytes(params));
      ParamsRoundTrip(params, enc.buffer, |start|);
    }
  }

  lemma WholeTail(a: Bytes, b: Bytes)
    ensures Holds(a + b, |a|, b)
  {
  }
}
