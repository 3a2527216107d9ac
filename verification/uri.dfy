/**
 * encodeURIComponent as ECMAScript defines it: the ASCII letters and
 * digits and the marks `- _ . ! ~ * ' ( )` stand for themselves; every
 * other character is written as the `%XY` escapes (uppercase hex) of its
 * UTF-8 bytes.
 *
 * DecodeComponent is the inverse used to state what an encoding keeps:
 * it turns escapes back into bytes and reads the bytes as UTF-8.
 */
module Uri {
  import opened Js
  import opened Hex

  type Byte = b: int | 0 <= b < 256

  /** The characters encodeURIComponent leaves unescaped. */
  predicate Unreserved(c: char) {
    ('A' <= c <= 'Z') || ('a' <= c <= 'z') || ('0' <= c <= '9') ||
    c == '-' || c == '_' || c == '.' || c == '!' || c == '~' || c == '*' ||
    c == '\'' || c == '(' || c == ')'
  }

  /** The UTF-8 encoding of one code point. */
  function Utf8(c: char): (bs: seq<Byte>)
    ensures 1 <= |bs| <= 4
    ensures |bs| == 1 <==> c as int < 0x80
  {
    var n := c as int;
    if n < 0x80 then [n]
    else if n < 0x800 then [0xC0 + n / 64, 0x80 + n % 64]
    else if n < 0x10000 then [0xE0 + n / 4096, 0x80 + n / 64 % 64, 0x80 + n % 64]
    else [0xF0 + n / 262144, 0x80 + n / 4096 % 64, 0x80 + n / 64 % 64, 0x80 + n % 64]
  }

  function Utf8Encode(s: string): seq<Byte> {
    if s == [] then [] else Utf8(s[0]) + Utf8Encode(s[1..])
  }

  function PercentByte(b: Byte): string {
    ['%', HexDigitUpper(b / 16), HexDigitUpper(b % 16)]
  }

  function PercentBytes(bs: seq<Byte>): (s: string)
    ensures forall i :: 0 <= i < |s| ==> Unreserved(s[i]) || s[i] == '%'
  {
    if bs == [] then [] else PercentByte(bs[0]) + PercentBytes(bs[1..])
  }

  function EncodeChar(c: char): string {
    if Unreserved(c) then [c] else PercentBytes(Utf8(c))
  }

  /**
   * encodeURIComponent of a string. Its output holds nothing but unreserved
   * characters and `%`, so no `&`, `=`, `?`, `#`, `+` or space.
   */
  function EncodeURIComponent(s: string): (r: string)
    ensures forall i :: 0 <= i < |r| ==> Unreserved(r[i]) || r[i] == '%'
  {
    if s == [] then [] else EncodeChar(s[0]) + EncodeURIComponent(s[1..])
  }

  /** Turns the `%XY` escapes of a string back into bytes; other characters give their UTF-8 bytes. */
  function PercentDecodeBytes(s: string): Option<seq<Byte>>
    decreases |s|
  {
    if s == [] then Some([])
    else if s[0] == '%' then
      if |s| >= 3 && IsHexDigit(s[1]) && IsHexDigit(s[2]) then
        PrependBytes([16 * HexValue(s[1]) + HexValue(s[2])], PercentDecodeBytes(s[3..]))
      else None
    else PrependBytes(Utf8(s[0]), PercentDecodeBytes(s[1..]))
  }

  function PrependBytes(bs: seq<Byte>, r: Option<seq<Byte>>): Option<seq<Byte>> {
    match r
    case None => None
    case Some(rest) => Some(bs + rest)
  }

  lemma PrependBytesTwice(a: seq<Byte>, b: seq<Byte>, r: Option<seq<Byte>>)
    ensures PrependBytes(a, PrependBytes(b, r)) == PrependBytes(a + b, r)
  {
    if r.Some? {
      assert a + (b + r.value) == (a + b) + r.value;
    }
  }

  predicate Continuation(b: Byte) {
    0x80 <= b < 0xC0
  }

  /** Decodes the first UTF-8 sequence of `bs`: the code point and the number of bytes it takes. */
  function Utf8First(bs: seq<Byte>): (r: Option<(char, nat)>)
    requires |bs| > 0
    ensures r.Some? ==> 1 <= r.value.1 <= |bs|
  {
    var b0: int := bs[0];
    if b0 < 0x80 then Some((b0 as char, 1))
    else if 0xC2 <= b0 < 0xE0 && |bs| >= 2 && Continuation(bs[1]) then
      Some((((b0 - 0xC0) * 64 + (bs[1] as int - 0x80)) as char, 2))
    else if 0xE0 <= b0 < 0xF0 && |bs| >= 3 && Continuation(bs[1]) && Continuation(bs[2]) then
      var n := (b0 - 0xE0) * 4096 + (bs[1] as int - 0x80) * 64 + (bs[2] as int - 0x80);
      if n < 0x800 || 0xD800 <= n < 0xE000 then None else Some((n as char, 3))
    else if 0xF0 <= b0 < 0xF5 && |bs| >= 4 && Continuation(bs[1]) && Continuation(bs[2]) && Continuation(bs[3]) then
      var n := (b0 - 0xF0) * 262144 + (bs[1] as int - 0x80) * 4096 + (bs[2] as int - 0x80) * 64 + (bs[3] as int - 0x80);
      if n < 0x10000 || n >= 0x110000 then None else Some((n as char, 4))
    else None
  }

  /** Reads a byte sequence as UTF-8; malformed input gives None. */
  function Utf8Decode(bs: seq<Byte>): Option<string>
    decreases |bs|
  {
    if bs == [] then Some([])
    else
      match Utf8First(bs)
      case None => None
      case Some((c, k)) =>
        match Utf8Decode(bs[k..])
        case None => None
        case Some(rest) => Some([c] + rest)
  }

  /** decodeURIComponent, on the inputs it accepts. */
  function DecodeComponent(s: string): Option<string> {
    match PercentDecodeBytes(s)
    case None => None
    case Some(bs) => Utf8Decode(bs)
  }

  lemma Utf8FirstOfTwo(c: char, rest: seq<Byte>)
    requires 0x80 <= c as int < 0x800
    ensures Utf8First(Utf8(c) + rest) == Some((c, 2))
  {
    var n := c as int;
    assert (n / 64) * 64 + n % 64 == n;
  }

  lemma Utf8FirstOfThree(c: char, rest: seq<Byte>)
    requires 0x800 <= c as int < 0x10000
    ensures Utf8First(Utf8(c) + rest) == Some((c, 3))
  {
    var n := c as int;
    var bs := Utf8(c) + rest;
    var a := n / 64;
    assert n == 64 * a + n % 64;
    assert a == 64 * (n / 4096) + a % 64;
    assert (bs[0] as int - 0xE0) * 4096 + (bs[1] as int - 0x80) * 64 + (bs[2] as int - 0x80) == n;
  }

  lemma Utf8FirstOfFour(c: char, rest: seq<Byte>)
    requires 0x10000 <= c as int
    ensures Utf8First(Utf8(c) + rest) == Some((c, 4))
  {
    var n := c as int;
    var bs := Utf8(c) + rest;
    var a := n / 64;
    var b := n / 4096;
    assert n == 64 * a + n % 64;
    assert b == a / 64;
    assert a == 64 * b + a % 64;
    assert b == 64 * (n / 262144) + b % 64;
    assert (bs[0] as int - 0xF0) * 262144 + (bs[1] as int - 0x80) * 4096 + (bs[2] as int - 0x80) * 64 + (bs[3] as int - 0x80) == n;
  }

  /** The first UTF-8 sequence of an encoding decodes to the character encoded. */
  lemma Utf8FirstOfUtf8(c: char, rest: seq<Byte>)
    ensures Utf8First(Utf8(c) + rest) == Some((c, |Utf8(c)|))
  {
    var n := c as int;
    if n < 0x80 {
    } else if n < 0x800 {
      Utf8FirstOfTwo(c, rest);
    } else if n < 0x10000 {
      Utf8FirstOfThree(c, rest);
    } else {
      Utf8FirstOfFour(c, rest);
    }
  }

  /** UTF-8 decoding undoes UTF-8 encoding. */
  lemma {:induction false} Utf8RoundTrip(s: string)
    ensures Utf8Decode(Utf8Encode(s)) == Some(s)
    decreases |s|
  {
    if s != [] {
      var bs := Utf8Encode(s);
      Utf8FirstOfUtf8(s[0], Utf8Encode(s[1..]));
      assert bs[|Utf8(s[0])|..] == Utf8Encode(s[1..]);
      Utf8RoundTrip(s[1..]);
      assert [s[0]] + s[1..] == s;
    }
  }

  lemma PercentDecodeByte(b: Byte, t: string)
    ensures PercentDecodeBytes(PercentByte(b) + t) == PrependBytes([b], PercentDecodeBytes(t))
  {
    var s := PercentByte(b) + t;
    assert s[3..] == t;
  }

  lemma {:induction false} PercentDecodePercentBytes(bs: seq<Byte>, t: string)
    ensures PercentDecodeBytes(PercentBytes(bs) + t) == PrependBytes(bs, PercentDecodeBytes(t))
    decreases |bs|
  {
    if bs == [] {
      assert PercentBytes(bs) + t == t;
      match PercentDecodeBytes(t)
      case None =>
      case Some(r) => assert bs + r == r;
    } else {
      var tail := PercentBytes(bs[1..]) + t;
      assert PercentBytes(bs) + t == PercentByte(bs[0]) + tail;
      PercentDecodeByte(bs[0], tail);
      PercentDecodePercentBytes(bs[1..], t);
      PrependBytesTwice([bs[0]], bs[1..], PercentDecodeBytes(t));
      assert [bs[0]] + bs[1..] == bs;
    }
  }

  lemma PercentDecodeEncodeChar(c: char, t: string)
    ensures PercentDecodeBytes(EncodeChar(c) + t) == PrependBytes(Utf8(c), PercentDecodeBytes(t))
  {
    if Unreserved(c) {
      assert (EncodeChar(c) + t)[1..] == t;
    } else {
      PercentDecodePercentBytes(Utf8(c), t);
    }
  }

  /** Escapes of an encoded string turn back into the UTF-8 bytes of the original. */
  lemma {:induction false} PercentDecodeEncode(s: string)
    ensures PercentDecodeBytes(EncodeURIComponent(s)) == Some(Utf8Encode(s))
    decreases |s|
  {
    if s == [] {
    } else {
      PercentDecodeEncodeChar(s[0], EncodeURIComponent(s[1..]));
      PercentDecodeEncode(s[1..]);
    }
  }

  /** decodeURIComponent recovers what encodeURIComponent encoded. */
  lemma EncodeRoundTrip(s: string)
    ensures DecodeComponent(EncodeURIComponent(s)) == Some(s)
  {
    PercentDecodeEncode(s);
    Utf8RoundTrip(s);
  }

  /** Different strings encode differently. */
  lemma EncodeInjective(s: string, t: string)
    ensures EncodeURIComponent(s) == EncodeURIComponent(t) ==> s == t
  {
    EncodeRoundTrip(s);
    EncodeRoundTrip(t);
  }
}
