/**
 * The part of JSON that the session logic writes and reads, with a serialiser
 * that follows Go's `encoding/json` `Marshal` and a parser that follows its
 * `Unmarshal` (syntax checking and string unquoting) on that part.
 *
 * String escaping follows section 7 of RFC 8259 the way `Marshal` does it:
 * `"` and `\` get a backslash, the controls \b \f \n \r \t get their short
 * forms (for \b and \f as from Go 1.22; earlier versions write `\u0008` and
 * `\u000c`), every other control character and the HTML-sensitive `<`, `>`, `&`
 * become `\u00xx` (lower-case hex), and U+2028, U+2029 become `\u2028`,
 * `\u2029`. Objects are not part of this model.
 */
module Json {
  import opened Base

  datatype Json =
    | Null
    | Bool(b: bool)
    | Num(lexeme: string)   // a number, kept as its literal text
    | Str(s: string)
    | Arr(items: seq<Json>)

  predicate IsWs(c: char) { c == ' ' || c == '\t' || c == '\n' || c == '\r' }

  predicate IsDigit(c: char) { '0' <= c <= '9' }

  predicate IsNumberChar(c: char) { IsDigit(c) || c == '-' || c == '+' || c == '.' || c == 'e' || c == 'E' }

  /** Every number in `j` is a well-formed number literal. */
  predicate WellFormed(j: Json)
    decreases j
  {
    match j
    case Num(t) => IsNumber(t)
    case Arr(items) => forall k :: 0 <= k < |items| ==> WellFormed(items[k])
    case _ => true
  }

  // ---------------------------------------------------------------------------
  // Number literals: -?(0|[1-9][0-9]*)(\.[0-9]+)?([eE][+-]?[0-9]+)?
  // ---------------------------------------------------------------------------

  /** The length of the run of decimal digits that `s` starts with. */
  function DigitRun(s: string): (n: nat)
    ensures n <= |s|
    ensures forall k :: 0 <= k < n ==> IsDigit(s[k])
    ensures n < |s| ==> !IsDigit(s[n])
  {
    if s == [] || !IsDigit(s[0]) then 0 else 1 + DigitRun(s[1..])
  }

  predicate IsExponent(r: string) {
    r == [] ||
    ((r[0] == 'e' || r[0] == 'E') &&
     var v := if |r| > 1 && (r[1] == '+' || r[1] == '-') then r[2..] else r[1..];
     v != [] && DigitRun(v) == |v|)
  }

  predicate IsFraction(r: string) {
    if r != [] && r[0] == '.' then
      var n := DigitRun(r[1..]);
      n > 0 && IsExponent(r[1 + n..])
    else
      IsExponent(r)
  }

  predicate IsNumber(t: string) {
    if t != [] && t[0] == '-' then IsUnsigned(t[1..]) else IsUnsigned(t)
  }

  /** A number literal without its sign. */
  predicate IsUnsigned(u: string) {
    var n := DigitRun(u);
    n > 0 && (u[0] == '0' ==> n == 1) && IsFraction(u[n..])
  }

  lemma ExponentChars(r: string)
    requires IsExponent(r)
    ensures forall k :: 0 <= k < |r| ==> IsNumberChar(r[k])
  {
    if r != [] {
      var v := if |r| > 1 && (r[1] == '+' || r[1] == '-') then r[2..] else r[1..];
      assert forall k :: 0 <= k < |v| ==> IsDigit(v[k]);
      assert r[|r| - |v|..] == v;
    }
  }

  lemma FractionChars(r: string)
    requires IsFraction(r)
    ensures forall k :: 0 <= k < |r| ==> IsNumberChar(r[k])
  {
    if r != [] && r[0] == '.' {
      var n := DigitRun(r[1..]);
      ExponentChars(r[1 + n..]);
      forall k | 0 <= k < |r| ensures IsNumberChar(r[k]) {
        if 1 <= k < 1 + n {
          assert r[k] == r[1..][k - 1];
        } else if k >= 1 + n {
          assert r[k] == r[1 + n..][k - 1 - n];
        }
      }
    } else {
      ExponentChars(r);
    }
  }

  /** A number literal starts with `-` or a digit and holds only number characters. */
  lemma NumberChars(t: string)
    requires IsNumber(t)
    ensures t != [] && (t[0] == '-' || IsDigit(t[0]))
    ensures forall k :: 0 <= k < |t| ==> IsNumberChar(t[k])
  {
    if t != [] && t[0] == '-' {
      UnsignedChars(t[1..]);
      SplitChars(t, 1);
    } else {
      UnsignedChars(t);
    }
  }

  lemma UnsignedChars(u: string)
    requires IsUnsigned(u)
    ensures u != [] && IsDigit(u[0])
    ensures forall k :: 0 <= k < |u| ==> IsNumberChar(u[k])
  {
    var n := DigitRun(u);
    FractionChars(u[n..]);
    SplitChars(u, n);
  }

  /** A prefix and the rest of number characters make a text of number characters. */
  lemma SplitChars(u: string, n: nat)
    requires n <= |u|
    requires forall k :: 0 <= k < n ==> IsNumberChar(u[k])
    requires forall k :: 0 <= k < |u| - n ==> IsNumberChar(u[n..][k])
    ensures forall k :: 0 <= k < |u| ==> IsNumberChar(u[k])
  {
    forall k | n <= k < |u| ensures IsNumberChar(u[k]) {
      assert u[k] == u[n..][k - n];
    }
  }

  /** The length of the run of number characters that `s` starts with. */
  function NumberRun(s: string): (n: nat)
    ensures n <= |s|
    ensures forall k :: 0 <= k < n ==> IsNumberChar(s[k])
    ensures n < |s| ==> !IsNumberChar(s[n])
  {
    if s == [] || !IsNumberChar(s[0]) then 0 else 1 + NumberRun(s[1..])
  }

  lemma {:induction false} NumberRunOf(t: string, rest: string)
    requires forall k :: 0 <= k < |t| ==> IsNumberChar(t[k])
    requires rest == [] || !IsNumberChar(rest[0])
    ensures NumberRun(t + rest) == |t|
  {
    if t != [] {
      assert (t + rest)[1..] == t[1..] + rest;
      NumberRunOf(t[1..], rest);
    }
  }

  // ---------------------------------------------------------------------------
  // Strings
  // ---------------------------------------------------------------------------

  const HexDigits := "0123456789abcdef"

  /** The value of one hex digit, or -1 when `c` is not one. */
  function HexValue(c: char): (v: int)
    ensures -1 <= v < 16
    ensures v >= 0 <==> (IsDigit(c) || 'a' <= c <= 'f' || 'A' <= c <= 'F')
  {
    if '0' <= c <= '9' then c as int - '0' as int
    else if 'a' <= c <= 'f' then c as int - 'a' as int + 10
    else if 'A' <= c <= 'F' then c as int - 'A' as int + 10
    else -1
  }

  lemma HexDigitValue(k: nat)
    requires k < 16
    ensures HexValue(HexDigits[k]) == k
  {
  }

  /**
   * The value of the four hex digits `s` starts with, or -1 when it does not
   * start with four: Go's `getu4` after the `\u`.
   */
  function Hex4(s: string): (v: int)
    ensures -1 <= v < 0x10000
    ensures v >= 0 ==> |s| >= 4
  {
    if |s| < 4 || HexValue(s[0]) < 0 || HexValue(s[1]) < 0 || HexValue(s[2]) < 0 || HexValue(s[3]) < 0 then -1
    else 4096 * HexValue(s[0]) + 256 * HexValue(s[1]) + 16 * HexValue(s[2]) + HexValue(s[3])
  }

  /** The escape sequence `Marshal` writes for one character of a string. */
  function EscapeChar(c: char): (e: string)
    ensures e != [] && e[0] != '"' && e[0] >= ' '
  {
    if c == '"' || c == '\\' then ['\\', c]
    else if c == 8 as char then "\\b"
    else if c == 12 as char then "\\f"
    else if c == '\n' then "\\n"
    else if c == '\r' then "\\r"
    else if c == '\t' then "\\t"
    else if c < ' ' || c == '<' || c == '>' || c == '&' then
      "\\u00" + [HexDigits[c as int / 16], HexDigits[c as int % 16]]
    else if c == 0x2028 as char || c == 0x2029 as char then
      "\\u202" + [HexDigits[c as int % 16]]
    else [c]
  }

  function Escape(s: string): string {
    if s == [] then "" else EscapeChar(s[0]) + Escape(s[1..])
  }

  /** A string literal as `Marshal` writes it. */
  function Quote(s: string): string {
    "\"" + Escape(s) + "\""
  }

  /**
   * The character an escape sequence stands for, given the text after the
   * backslash, and the text after the sequence. Surrogate escapes follow Go's
   * `unquote`: a high surrogate followed by a `\u` low surrogate is one
   * character; any other surrogate escape is U+FFFD.
   */
  function Unescape(s: string): (r: Option<(char, string)>)
    ensures r.Some? ==> |r.value.1| < |s|
  {
    if s == [] then None
    else if s[0] == '"' || s[0] == '\\' || s[0] == '/' then Some((s[0], s[1..]))
    else if s[0] == 'b' then Some((8 as char, s[1..]))
    else if s[0] == 'f' then Some((12 as char, s[1..]))
    else if s[0] == 'n' then Some(('\n', s[1..]))
    else if s[0] == 'r' then Some(('\r', s[1..]))
    else if s[0] == 't' then Some(('\t', s[1..]))
    else if s[0] == 'u' then
      var v := Hex4(s[1..]);
      if v < 0 then None
      else if 0xD800 <= v < 0xE000 then
        var w := if |s| >= 7 && s[5] == '\\' && s[6] == 'u' then Hex4(s[7..]) else -1;
        if v < 0xDC00 && 0xDC00 <= w < 0xE000 then
          Some(((0x10000 + (v - 0xD800) * 0x400 + (w - 0xDC00)) as char, s[11..]))
        else
          Some((0xFFFD as char, s[5..]))
      else
        Some((v as char, s[5..]))
    else None
  }

  /**
   * The first character of the inside of a string literal and the text after
   * it; None at the closing quote, at the end of the text, at a raw control
   * character, or at a bad escape.
   */
  function StringHead(s: string): (r: Option<(char, string)>)
    ensures r.Some? ==> |r.value.1| < |s|
  {
    if s == [] || s[0] == '"' || s[0] < ' ' then None
    else if s[0] == '\\' then Unescape(s[1..])
    else Some((s[0], s[1..]))
  }

  /**
   * The decoded contents of a string literal whose opening quote is already
   * consumed, and the text after its closing quote.
   */
  function ParseString(s: string): (r: Option<(string, string)>)
    ensures r.Some? ==> |r.value.1| < |s|
    decreases |s|
  {
    if s != [] && s[0] == '"' then Some(([], s[1..]))
    else
      match StringHead(s)
      case None => None
      case Some((c, rest)) =>
        match ParseString(rest)
        case None => None
        case Some((t, after)) => Some(([c] + t, after))
  }

  lemma HexEscape(c: char, rest: string)
    requires c as int < 0x80
    ensures Unescape("u00" + [HexDigits[c as int / 16], HexDigits[c as int % 16]] + rest) == Some((c, rest))
  {
    var s := "u00" + [HexDigits[c as int / 16], HexDigits[c as int % 16]] + rest;
    HexDigitValue(c as int / 16);
    HexDigitValue(c as int % 16);
    assert s[1..][0] == '0' && s[1..][1] == '0';
    assert s[1..][2] == HexDigits[c as int / 16] && s[1..][3] == HexDigits[c as int % 16];
    assert Hex4(s[1..]) == c as int;
    assert s[5..] == rest;
  }

  lemma LineSeparatorEscape(c: char, rest: string)
    requires c == 0x2028 as char || c == 0x2029 as char
    ensures Unescape("u202" + [HexDigits[c as int % 16]] + rest) == Some((c, rest))
  {
    var s := "u202" + [HexDigits[c as int % 16]] + rest;
    HexDigitValue(c as int % 16);
    assert s[1..][0] == '2' && s[1..][1] == '0' && s[1..][2] == '2';
    assert s[1..][3] == HexDigits[c as int % 16];
    assert Hex4(s[1..]) == c as int;
    assert s[5..] == rest;
  }

  /** Reading back the escape sequence of one character gives that character. */
  lemma EscapeCharRoundTrip(c: char, rest: string)
    ensures StringHead(EscapeChar(c) + rest) == Some((c, rest))
  {
    var e := EscapeChar(c);
    var s := e + rest;
    if c == '"' || c == '\\' || c == 8 as char || c == 12 as char || c == '\n' || c == '\r' || c == '\t' {
      assert s[1..] == [e[1]] + rest;
    } else if c < ' ' || c == '<' || c == '>' || c == '&' {
      assert s[1..] == "u00" + [HexDigits[c as int / 16], HexDigits[c as int % 16]] + rest;
      HexEscape(c, rest);
    } else if c == 0x2028 as char || c == 0x2029 as char {
      assert s[1..] == "u202" + [HexDigits[c as int % 16]] + rest;
      LineSeparatorEscape(c, rest);
    } else {
      assert s[1..] == rest;
    }
  }

  /** Parsing an escaped string followed by a closing quote gives that string back. */
  lemma {:induction false} EscapeRoundTrip(s: string, after: string)
    ensures ParseString(Escape(s) + "\"" + after) == Some((s, after))
  {
    if s == [] {
      assert Escape(s) + "\"" + after == "\"" + after;
    } else {
      var rest := Escape(s[1..]) + "\"" + after;
      assert Escape(s) + "\"" + after == EscapeChar(s[0]) + rest by {
        assert Escape(s) == EscapeChar(s[0]) + Escape(s[1..]);
        Regroup3(EscapeChar(s[0]), Escape(s[1..]), "\"" + after);
      }
      EscapeRoundTrip(s[1..], after);
      assert ParseString(EscapeChar(s[0]) + rest) == Some((s, after)) by {
        EscapeCharRoundTrip(s[0], rest);
        StringStep(EscapeChar(s[0]) + rest, s[0], rest, s[1..], after);
        assert [s[0]] + s[1..] == s;
      }
    }
  }

  lemma Regroup3(a: string, b: string, c: string)
    ensures a + b + c == a + (b + c)
  {
  }

  /** One character of a string literal, then the rest of it. */
  lemma StringStep(t: string, c: char, rest: string, tail: string, after: string)
    requires t != [] && t[0] != '"'
    requires StringHead(t) == Some((c, rest))
    requires ParseString(rest) == Some((tail, after))
    ensures ParseString(t) == Some(([c] + tail, after))
  {
  }

  // ---------------------------------------------------------------------------
  // Values
  // ---------------------------------------------------------------------------

  /** `json.Marshal`, which writes no whitespace. */
  function Serialize(j: Json): (text: string)
    ensures j.Null? || j.Bool? ==> text in {"null", "true", "false"}
    ensures j.Str? ==> |text| >= 2 && text[0] == '"' && text[|text| - 1] == '"'
    ensures j.Arr? ==> |text| >= 2 && text[0] == '[' && text[|text| - 1] == ']'
    decreases j
  {
    match j
    case Null => "null"
    case Bool(b) => if b then "true" else "false"
    case Num(t) => t
    case Str(s) => Quote(s)
    case Arr(items) => "[" + SerializeItems(items) + "]"
  }

  /** The elements of an array, separated by commas. */
  function SerializeItems(items: seq<Json>): string
    decreases items
  {
    if items == [] then ""
    else if |items| == 1 then Serialize(items[0])
    else Serialize(items[0]) + "," + SerializeItems(items[1..])
  }

  /** Skips JSON whitespace. */
  function SkipWs(s: string): (r: string)
    ensures |r| <= |s|
    ensures r == [] || !IsWs(r[0])
  {
    if s != [] && IsWs(s[0]) then SkipWs(s[1..]) else s
  }

  /**
   * One value at the start of `s` (no whitespace before it) and the text
   * after it, as the scanner of `Unmarshal` reads it.
   */
  function ParseValue(s: string): (r: Option<(Json, string)>)
    ensures r.Some? ==> |r.value.1| < |s| && WellFormed(r.value.0)
    decreases |s|, 0
  {
    if s == [] then None
    else if s[0] == 'n' then
      if |s| >= 4 && s[..4] == "null" then Some((Null, s[4..])) else None
    else if s[0] == 't' then
      if |s| >= 4 && s[..4] == "true" then Some((Bool(true), s[4..])) else None
    else if s[0] == 'f' then
      if |s| >= 5 && s[..5] == "false" then Some((Bool(false), s[5..])) else None
    else if s[0] == '"' then
      match ParseString(s[1..])
      case None => None
      case Some((t, rest)) => Some((Str(t), rest))
    else if s[0] == '[' then
      var t := SkipWs(s[1..]);
      if t != [] && t[0] == ']' then Some((Arr([]), t[1..]))
      else
        match ParseElements(t)
        case None => None
        case Some((items, rest)) => Some((Arr(items), rest))
    else if s[0] == '-' || IsDigit(s[0]) then
      var n := NumberRun(s);
      if IsNumber(s[..n]) then Some((Num(s[..n]), s[n..])) else None
    else None
  }

  /**
   * The elements of a non-empty array and the text after its closing bracket;
   * `s` starts at the first element.
   */
  function ParseElements(s: string): (r: Option<(seq<Json>, string)>)
    ensures r.Some? ==> |r.value.1| < |s|
    ensures r.Some? ==> forall k :: 0 <= k < |r.value.0| ==> WellFormed(r.value.0[k])
    decreases |s|, 1
  {
    match ParseValue(s)
    case None => None
    case Some((v, rest)) =>
      var t := SkipWs(rest);
      if t != [] && t[0] == ']' then Some(([v], t[1..]))
      else if t != [] && t[0] == ',' then
        match ParseElements(SkipWs(t[1..]))
        case None => None
        case Some((vs, after)) => Some(([v] + vs, after))
      else None
  }

  /** `json.Unmarshal` of a whole text: one value with only whitespace around it. */
  function Parse(text: string): (r: Option<Json>)
    ensures r.Some? ==> WellFormed(r.value)
  {
    match ParseValue(SkipWs(text))
    case None => None
    case Some((v, rest)) => if SkipWs(rest) == [] then Some(v) else None
  }

  // ---------------------------------------------------------------------------
  // Round trip
  // ---------------------------------------------------------------------------

  /** A serialisation is never empty and never starts with whitespace or `]`. */
  lemma SerializeStart(j: Json)
    requires WellFormed(j)
    ensures Serialize(j) != [] && !IsWs(Serialize(j)[0]) && Serialize(j)[0] != ']'
  {
    if j.Num? {
      NumberChars(j.lexeme);
    }
  }

  lemma LiteralRoundTrip(j: Json, rest: string)
    requires j.Null? || j.Bool?
    ensures ParseValue(Serialize(j) + rest) == Some((j, rest))
  {
    var s := Serialize(j) + rest;
    var n := |Serialize(j)|;
    assert s[..n] == Serialize(j) && s[n..] == rest;
  }

  lemma NumberRoundTrip(t: string, rest: string)
    requires IsNumber(t)
    requires rest == [] || !IsNumberChar(rest[0])
    ensures ParseValue(Serialize(Num(t)) + rest) == Some((Num(t), rest))
  {
    var s := t + rest;
    NumberChars(t);
    NumberRunOf(t, rest);
    assert s[0] == t[0];
    assert s[0] != 'n' && s[0] != 't' && s[0] != 'f' && s[0] != '"' && s[0] != '[';
    assert s[..|t|] == t && s[|t|..] == rest;
  }

  lemma StringRoundTrip(x: string, rest: string)
    ensures ParseValue(Serialize(Str(x)) + rest) == Some((Str(x), rest))
  {
    EscapeRoundTrip(x, rest);
    OpenQuote(Escape(x), rest);
  }

  /** After the opening quote comes the escaped text, the closing quote and the rest. */
  lemma OpenQuote(e: string, rest: string)
    requires ParseString(e + "\"" + rest).Some?
    ensures ParseValue("\"" + e + "\"" + rest) ==
            Some((Str(ParseString(e + "\"" + rest).value.0), ParseString(e + "\"" + rest).value.1))
  {
    assert ("\"" + e + "\"" + rest)[1..] == e + "\"" + rest;
  }

  /** Parsing the serialisation of a value gives the value back. */
  lemma {:induction false} ValueRoundTrip(j: Json, rest: string)
    requires WellFormed(j)
    requires rest == [] || !IsNumberChar(rest[0])
    ensures ParseValue(Serialize(j) + rest) == Some((j, rest))
    decreases j
  {
    match j
    case Null => LiteralRoundTrip(j, rest);
    case Bool(_) => LiteralRoundTrip(j, rest);
    case Num(t) => NumberRoundTrip(t, rest);
    case Str(x) => StringRoundTrip(x, rest);
    case Arr(items) => ArrayRoundTrip(items, rest);
  }

  lemma {:induction false} ArrayRoundTrip(items: seq<Json>, rest: string)
    requires forall k :: 0 <= k < |items| ==> WellFormed(items[k])
    ensures ParseValue(Serialize(Arr(items)) + rest) == Some((Arr(items), rest))
    decreases items, 1
  {
    if items == [] {
      EmptyArray(rest);
    } else {
      ElementsRoundTrip(items, rest);
      SerializeStart(items[0]);
      ElementsStart(items);
      OpenArray(items, rest);
    }
  }

  lemma EmptyArray(rest: string)
    ensures ParseValue(Serialize(Arr([])) + rest) == Some((Arr([]), rest))
  {
    var s := Serialize(Arr([])) + rest;
    assert Serialize(Arr([])) == "[]";
    assert s[0] == '[' && s[1..] == "]" + rest;
  }

  /** An opening bracket followed by the elements of a non-empty array. */
  lemma OpenArray(items: seq<Json>, rest: string)
    requires items != []
    requires Serialize(items[0]) != [] && !IsWs(Serialize(items[0])[0]) && Serialize(items[0])[0] != ']'
    requires SerializeItems(items) == Serialize(items[0]) + SerializeItems(items)[|Serialize(items[0])|..]
    requires ParseElements(SerializeItems(items) + "]" + rest) == Some((items, rest))
    ensures ParseValue(Serialize(Arr(items)) + rest) == Some((Arr(items), rest))
  {
    var t := SerializeItems(items) + "]" + rest;
    assert Serialize(Arr(items)) + rest == "[" + t;
    assert t[0] == Serialize(items[0])[0];
    OpenBracket(t, items, rest);
  }

  lemma OpenBracket(t: string, items: seq<Json>, rest: string)
    requires t != [] && !IsWs(t[0]) && t[0] != ']'
    requires ParseElements(t) == Some((items, rest))
    ensures ParseValue("[" + t) == Some((Arr(items), rest))
  {
    assert ("[" + t)[1..] == t;
    assert SkipWs(t) == t;
  }

  lemma ElementsStart(items: seq<Json>)
    requires items != []
    ensures SerializeItems(items) == Serialize(items[0]) + SerializeItems(items)[|Serialize(items[0])|..]
  {
  }

  lemma {:induction false} ElementsRoundTrip(items: seq<Json>, rest: string)
    requires items != []
    requires forall k :: 0 <= k < |items| ==> WellFormed(items[k])
    ensures ParseElements(SerializeItems(items) + "]" + rest) == Some((items, rest))
    decreases items, 0
  {
    if |items| == 1 {
      ValueRoundTrip(items[0], "]" + rest);
      LastElement(items, rest);
    } else {
      var tail := SerializeItems(items[1..]) + "]" + rest;
      ValueRoundTrip(items[0], "," + tail);
      assert forall k :: 0 <= k < |items[1..]| ==> WellFormed(items[1..][k]);
      ElementsRoundTrip(items[1..], rest);
      SerializeStart(items[1]);
      NextElement(items, rest);
    }
  }

  /** A last element followed by the closing bracket ends the list. */
  lemma LastElement(items: seq<Json>, rest: string)
    requires |items| == 1
    requires ParseValue(Serialize(items[0]) + ("]" + rest)) == Some((items[0], "]" + rest))
    ensures ParseElements(SerializeItems(items) + "]" + rest) == Some((items, rest))
  {
    var s := Serialize(items[0]) + ("]" + rest);
    assert SerializeItems(items) + "]" + rest == s;
    assert SkipWs("]" + rest) == "]" + rest;
    assert ("]" + rest)[1..] == rest;
    assert [items[0]] == items;
  }

  /** An element followed by a comma is joined to the elements after it. */
  lemma NextElement(items: seq<Json>, rest: string)
    requires |items| >= 2
    requires Serialize(items[1]) != [] && !IsWs(Serialize(items[1])[0])
    requires ParseValue(Serialize(items[0]) + ("," + (SerializeItems(items[1..]) + "]" + rest))) ==
             Some((items[0], "," + (SerializeItems(items[1..]) + "]" + rest)))
    requires ParseElements(SerializeItems(items[1..]) + "]" + rest) == Some((items[1..], rest))
    ensures ParseElements(SerializeItems(items) + "]" + rest) == Some((items, rest))
  {
    var tail := SerializeItems(items[1..]) + "]" + rest;
    ItemsSplit(items, rest);
    assert tail != [] && !IsWs(tail[0]) by {
      ElementsStart(items[1..]);
    }
    JoinElement(Serialize(items[0]) + ("," + tail), items[0], tail, items[1..], rest);
    assert [items[0]] + items[1..] == items;
  }

  /** The serialisation of two or more elements, split after the first comma. */
  lemma ItemsSplit(items: seq<Json>, rest: string)
    requires |items| >= 2
    ensures SerializeItems(items) + "]" + rest ==
            Serialize(items[0]) + ("," + (SerializeItems(items[1..]) + "]" + rest))
  {
    assert SerializeItems(items) == Serialize(items[0]) + "," + SerializeItems(items[1..]);
    Regroup(Serialize(items[0]), SerializeItems(items[1..]), rest);
  }

  lemma Regroup(a: string, b: string, rest: string)
    ensures a + "," + b + "]" + rest == a + ("," + (b + "]" + rest))
  {
  }

  /** A value followed by a comma and further elements is the first of them all. */
  lemma JoinElement(s: string, v: Json, tail: string, vs: seq<Json>, rest: string)
    requires ParseValue(s) == Some((v, "," + tail))
    requires tail == [] || !IsWs(tail[0])
    requires ParseElements(tail) == Some((vs, rest))
    ensures ParseElements(s) == Some(([v] + vs, rest))
  {
    assert SkipWs("," + tail) == "," + tail;
    assert ("," + tail)[1..] == tail;
    assert SkipWs(tail) == tail;
  }

  /** `Unmarshal` of what `Marshal` wrote gives back the value it was given. */
  lemma RoundTrip(j: Json)
    requires WellFormed(j)
    ensures Parse(Serialize(j)) == Some(j)
  {
    SerializeStart(j);
    assert Serialize(j) + "" == Serialize(j);
    ValueRoundTrip(j, "");
  }

  // ---------------------------------------------------------------------------
  // One line
  // ---------------------------------------------------------------------------

  lemma HexDigitsPrintable(k: nat)
    requires k < 16
    ensures HexDigits[k] != '\n'
  {
  }

  lemma EscapeCharOneLine(c: char)
    ensures '\n' !in EscapeChar(c)
  {
    if c == '"' || c == '\\' || c == 8 as char || c == 12 as char || c == '\n' || c == '\r' || c == '\t' {
    } else if c < ' ' || c == '<' || c == '>' || c == '&' {
      HexDigitsPrintable(c as int / 16);
      HexDigitsPrintable(c as int % 16);
    } else if c == 0x2028 as char || c == 0x2029 as char {
      HexDigitsPrintable(c as int % 16);
    }
  }

  lemma {:induction false} EscapeOneLine(s: string)
    ensures '\n' !in Escape(s)
  {
    if s != [] {
      EscapeCharOneLine(s[0]);
      EscapeOneLine(s[1..]);
    }
  }

  /** A serialised value never holds a raw newline, so it fits on one line of a body. */
  lemma {:induction false} SerializeOneLine(j: Json)
    requires WellFormed(j)
    ensures '\n' !in Serialize(j)
    decreases j
  {
    match j
    case Num(t) =>
      NumberChars(t);
      assert forall k :: 0 <= k < |t| ==> t[k] != '\n';
    case Str(x) =>
      EscapeOneLine(x);
    case Arr(items) =>
      ItemsOneLine(items);
    case _ =>
  }

  lemma {:induction false} ItemsOneLine(items: seq<Json>)
    requires forall k :: 0 <= k < |items| ==> WellFormed(items[k])
    ensures '\n' !in SerializeItems(items)
    decreases items
  {
    if items != [] {
      SerializeOneLine(items[0]);
      if |items| > 1 {
        ItemsOneLine(items[1..]);
      }
    }
  }
}
