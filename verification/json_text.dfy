/**
 * The text JSON.stringify produces for the handler's own error bodies.
 * A string is quoted as the ECMAScript QuoteJSONString operation does it
 * (short escapes for quote, backslash and five control characters, a
 * lowercase `\u00xx` escape for the other control characters, everything
 * else verbatim), and an error body is the object `{"error":…}` with an
 * optional `"details"` member written in that order without whitespace.
 *
 * The reading side (ScanString, ParseError) is a small JSON reader used to
 * state what a serialized body means: it recovers the fields it was built from.
 */
module JsonText {
  import opened Js
  import opened Hex

  /** Characters that JSON.stringify writes without an escape. */
  predicate Plain(c: char) {
    c >= ' ' && c != '"' && c != '\\'
  }

  /** The escape JSON.stringify writes for one character inside a string literal. */
  function EscapeChar(c: char): string {
    if c == '"' then "\\\""
    else if c == '\\' then "\\\\"
    else if c as int == 0x08 then "\\b"
    else if c == '\t' then "\\t"
    else if c == '\n' then "\\n"
    else if c as int == 0x0C then "\\f"
    else if c == '\r' then "\\r"
    else if c < ' ' then ['\\', 'u', '0', '0', HexDigitLower(c as int / 16), HexDigitLower(c as int % 16)]
    else [c]
  }

  function Escape(s: string): string {
    if s == [] then [] else EscapeChar(s[0]) + Escape(s[1..])
  }

  /** JSON.stringify of a string value. */
  function Quote(s: string): string {
    "\"" + Escape(s) + "\""
  }

  /**
   * Reads the escape that follows a backslash: the character it stands for
   * and how many characters after the backslash it occupies.
   */
  function Unescape(t: string): (r: Option<(char, nat)>)
    ensures r.Some? ==> 1 <= r.value.1 <= |t|
  {
    if t == [] then None
    else if t[0] == '"' || t[0] == '\\' || t[0] == '/' then Some((t[0], 1))
    else if t[0] == 'b' then Some((8 as char, 1))
    else if t[0] == 't' then Some(('\t', 1))
    else if t[0] == 'n' then Some(('\n', 1))
    else if t[0] == 'f' then Some((12 as char, 1))
    else if t[0] == 'r' then Some(('\r', 1))
    else if t[0] == 'u' && |t| >= 5
            && IsHexDigit(t[1]) && IsHexDigit(t[2]) && IsHexDigit(t[3]) && IsHexDigit(t[4]) then
      var v := 4096 * HexValue(t[1]) + 256 * HexValue(t[2]) + 16 * HexValue(t[3]) + HexValue(t[4]);
      if 0xD800 <= v < 0xE000 then None else Some((v as char, 5))
    else None
  }

  function Prepend(c: char, r: Option<(string, string)>): Option<(string, string)> {
    match r
    case None => None
    case Some((text, rest)) => Some(([c] + text, rest))
  }

  /**
   * Reads the inside of a JSON string literal whose opening quote has
   * already been consumed: the decoded text and what follows the closing quote.
   */
  function ScanString(s: string): Option<(string, string)>
    decreases |s|
  {
    if s == [] then None
    else if s[0] == '"' then Some(([], s[1..]))
    else if s[0] < ' ' then None
    else if s[0] != '\\' then Prepend(s[0], ScanString(s[1..]))
    else
      match Unescape(s[1..])
      case None => None
      case Some((c, k)) => Prepend(c, ScanString(s[1 + k..]))
  }

  /** A backslash followed by a valid escape reads as the escaped character. */
  lemma ScanBackslash(t: string, c: char, k: nat)
    requires Unescape(t) == Some((c, k))
    ensures ScanString(['\\'] + t) == Prepend(c, ScanString(t[k..]))
  {
    assert (['\\'] + t)[1..] == t;
    assert (['\\'] + t)[1 + k..] == t[k..];
  }

  lemma ScanUnicodeEscape(c: char, t: string)
    requires c < ' '
    ensures ScanString(['\\', 'u', '0', '0', HexDigitLower(c as int / 16), HexDigitLower(c as int % 16)] + t)
            == Prepend(c, ScanString(t))
  {
    var n := c as int;
    var u := ['u', '0', '0', HexDigitLower(n / 16), HexDigitLower(n % 16)] + t;
    assert Unescape(u) == Some((c, 5));
    assert u[5..] == t;
    ScanBackslash(u, c, 5);
    assert ['\\', 'u', '0', '0', HexDigitLower(n / 16), HexDigitLower(n % 16)] + t == ['\\'] + u;
  }

  lemma ScanShortEscape(e: char, c: char, t: string)
    requires Unescape([e]) == Some((c, 1))
    ensures ScanString(['\\', e] + t) == Prepend(c, ScanString(t))
  {
    var u := [e] + t;
    assert Unescape(u) == Some((c, 1));
    assert u[1..] == t;
    ScanBackslash(u, c, 1);
    assert ['\\', e] + t == ['\\'] + u;
  }

  lemma ScanEscapeChar(c: char, t: string)
    ensures ScanString(EscapeChar(c) + t) == Prepend(c, ScanString(t))
  {
    if c == '"' {
      ScanShortEscape('"', c, t);
    } else if c == '\\' {
      ScanShortEscape('\\', c, t);
    } else if c as int == 0x08 {
      ScanShortEscape('b', c, t);
    } else if c == '\t' {
      ScanShortEscape('t', c, t);
    } else if c == '\n' {
      ScanShortEscape('n', c, t);
    } else if c as int == 0x0C {
      ScanShortEscape('f', c, t);
    } else if c == '\r' {
      ScanShortEscape('r', c, t);
    } else if c < ' ' {
      ScanUnicodeEscape(c, t);
    } else {
      assert ([c] + t)[1..] == t;
    }
  }

  /** A quoted string reads back as the original text, leaving what follows untouched. */
  lemma {:induction false} ScanEscape(text: string, rest: string)
    ensures ScanString(Escape(text) + "\"" + rest) == Some((text, rest))
    decreases |text|
  {
    if text == [] {
      assert Escape(text) + "\"" + rest == "\"" + rest;
    } else {
      var tail := Escape(text[1..]) + "\"" + rest;
      assert Escape(text) + "\"" + rest == EscapeChar(text[0]) + tail;
      ScanEscapeChar(text[0], tail);
      ScanEscape(text[1..], rest);
      assert [text[0]] + text[1..] == text;
    }
  }

  /** The `details` member of an error body: absent, `null`, or a string. */
  datatype Details = NoDetails | NullDetails | TextDetails(text: string)

  /** An error body `{error, details}` before serialization. */
  datatype ErrorBody = ErrorBody(error: string, details: Details)

  const ErrorKey: string := "{\"error\":"
  const DetailsKey: string := ",\"details\":"

  /** JSON.stringify of an error body object. */
  function SerializeError(b: ErrorBody): string {
    ErrorKey + Quote(b.error) + SerializeDetails(b.details) + "}"
  }

  function SerializeDetails(d: Details): string {
    match d
    case NoDetails => ""
    case NullDetails => DetailsKey + "null"
    case TextDetails(text) => DetailsKey + Quote(text)
  }

  /** Reads a serialized error body back into its fields. */
  function ParseError(s: string): Option<ErrorBody> {
    var open := ErrorKey + "\"";
    if |s| < |open| || s[..|open|] != open then None
    else
      match ScanString(s[|open|..])
      case None => None
      case Some((error, rest)) =>
        match ParseDetails(rest)
        case None => None
        case Some(d) => Some(ErrorBody(error, d))
  }

  /** Reads what follows the `error` member: the `details` member, if any, and the closing brace. */
  function ParseDetails(s: string): Option<Details> {
    var open := DetailsKey + "\"";
    if s == "}" then Some(NoDetails)
    else if s == DetailsKey + "null}" then Some(NullDetails)
    else if |s| < |open| || s[..|open|] != open then None
    else
      match ScanString(s[|open|..])
      case None => None
      case Some((text, rest)) => if rest == "}" then Some(TextDetails(text)) else None
  }

  /** The serialized `details` member and closing brace read back as the member. */
  lemma ParseSerializeDetails(d: Details)
    ensures ParseDetails(SerializeDetails(d) + "}") == Some(d)
  {
    match d
    case NoDetails =>
      assert SerializeDetails(d) + "}" == "}";
    case NullDetails =>
      assert SerializeDetails(d) + "}" == DetailsKey + "null}";
    case TextDetails(text) =>
      ParseTextDetails(text);
  }

  lemma ParseTextDetails(text: string)
    ensures ParseDetails(DetailsKey + Quote(text) + "}") == Some(TextDetails(text))
  {
    var s := DetailsKey + Quote(text) + "}";
    var open := DetailsKey + "\"";
    assert s == open + (Escape(text) + "\"" + "}");
    assert s != "}" && s != DetailsKey + "null}" by {
      assert s[|DetailsKey|] == '"';
      assert (DetailsKey + "null}")[|DetailsKey|] == 'n';
    }
    assert s[..|open|] == open;
    assert s[|open|..] == Escape(text) + "\"" + "}";
    ScanEscape(text, "}");
  }

  /** ParseError past the fixed opening `{"error":"`. */
  lemma ParseErrorOpen(s: string, error: string, rest: string, d: Details)
    requires ScanString(s) == Some((error, rest))
    requires ParseDetails(rest) == Some(d)
    ensures ParseError(ErrorKey + "\"" + s) == Some(ErrorBody(error, d))
  {
    var open := ErrorKey + "\"";
    assert (open + s)[..|open|] == open;
    assert (open + s)[|open|..] == s;
  }

  lemma SerializeErrorShape(b: ErrorBody)
    ensures SerializeError(b) == ErrorKey + "\"" + (Escape(b.error) + "\"" + (SerializeDetails(b.details) + "}"))
  {
  }

  /** A serialized error body reads back as the body it was made from. */
  lemma ParseSerializeError(b: ErrorBody)
    ensures ParseError(SerializeError(b)) == Some(b)
  {
    var tail := SerializeDetails(b.details) + "}";
    SerializeErrorShape(b);
    ScanEscape(b.error, tail);
    ParseSerializeDetails(b.details);
    ParseErrorOpen(Escape(b.error) + "\"" + tail, b.error, tail, b.details);
  }

  /** Serialization loses nothing: different bodies give different text. */
  lemma SerializeErrorInjective(a: ErrorBody, b: ErrorBody)
    ensures SerializeError(a) == SerializeError(b) ==> a == b
  {
    ParseSerializeError(a);
    ParseSerializeError(b);
  }
}
