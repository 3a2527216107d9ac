/**
 * The upstream side of the handler: the URL it requests, the abstract
 * outcome of that request, and how makeHttpsRequest settles its Promise
 * for each outcome.
 */
module Upstream {
  import opened Js
  import Decimal
  import Uri

  const Endpoint: string := "https://api.weatherapi.com/v1/current.json"

  /**
   * The upstream URL: `q` and `lang` go through encodeURIComponent, the key
   * is appended exactly as configured.
   */
  function BuildUrl(q: string, lang: string, key: string): (url: string)
    ensures |url| > |Endpoint| + 5 + |key|
    ensures url[..|Endpoint| + 1] == Endpoint + "?"
    ensures url[|url| - |key| - 5..] == "&key=" + key
  {
    var head := Endpoint + "?" + "q=" + Uri.EncodeURIComponent(q) + "&" + "lang=" + Uri.EncodeURIComponent(lang);
    KeySuffix(head, key);
    Endpoint + "?" + Query(q, lang, key)
  }

  lemma KeySuffix(head: string, key: string)
    ensures (head + "&" + "key=" + key)[|head|..] == "&key=" + key
  {
    assert "&" + "key=" == "&key=";
    assert head + "&" + "key=" + key == head + ("&key=" + key);
    assert (head + ("&key=" + key))[|head|..] == "&key=" + key;
  }

  lemma UrlText(e0: string, e1: string, key: string)
    ensures Endpoint + "?" + ("q=" + e0 + "&" + "lang=" + e1 + "&" + "key=" + key)
            == "https://api.weatherapi.com/v1/current.json?q=" + e0 + "&lang=" + e1 + "&key=" + key
  {
    assert Endpoint + "?" + "q=" == "https://api.weatherapi.com/v1/current.json?q=";
    assert "&" + "lang=" == "&lang=";
    assert "&" + "key=" == "&key=";
  }

  /** The URL written out in one piece. */
  lemma BuildUrlShape(q: string, lang: string, key: string)
    ensures BuildUrl(q, lang, key)
            == "https://api.weatherapi.com/v1/current.json?q=" + Uri.EncodeURIComponent(q)
               + "&lang=" + Uri.EncodeURIComponent(lang) + "&key=" + key
  {
    UrlText(Uri.EncodeURIComponent(q), Uri.EncodeURIComponent(lang), key);
  }

  /** The pieces of `s` between occurrences of `sep`, as a query string is cut at `&`. */
  function SplitOn(s: string, sep: char): (parts: seq<string>)
    ensures |parts| >= 1
    decreases |s|
  {
    if s == [] then [[]]
    else
      var rest := SplitOn(s[1..], sep);
      if s[0] == sep then [[]] + rest else [[s[0]] + rest[0]] + rest[1..]
  }

  lemma {:induction false} SplitOnNone(x: string, sep: char)
    requires sep !in x
    ensures SplitOn(x, sep) == [x]
    decreases |x|
  {
    if x != [] {
      SplitOnNone(x[1..], sep);
      assert [x[0]] + x[1..] == x;
    }
  }

  lemma {:induction false} SplitOnFirst(x: string, sep: char, y: string)
    requires sep !in x
    ensures SplitOn(x + [sep] + y, sep) == [x] + SplitOn(y, sep)
    decreases |x|
  {
    if x == [] {
      assert x + [sep] + y == [sep] + y;
      assert ([sep] + y)[1..] == y;
    } else {
      var s := x + [sep] + y;
      assert s[1..] == x[1..] + [sep] + y;
      SplitOnFirst(x[1..], sep, y);
      assert [x[0]] + x[1..] == x;
    }
  }

  /** The value of a `name=value` query field, when the field has that name. */
  function FieldValue(field: string, name: string): Option<string> {
    var prefix := name + "=";
    if |field| >= |prefix| && field[..|prefix|] == prefix then Some(field[|prefix|..]) else None
  }

  /**
   * Reads an upstream URL back: the decoded `q` and `lang` and the key as it
   * stands in the URL, when the URL has exactly the three fields in order.
   */
  function ParseUrl(url: string): Option<(string, string, string)> {
    var head := Endpoint + "?";
    if |url| < |head| || url[..|head|] != head then None
    else
      var fields := SplitOn(url[|head|..], '&');
      if |fields| != 3 then None
      else
        match (FieldValue(fields[0], "q"), FieldValue(fields[1], "lang"), FieldValue(fields[2], "key"))
        case (Some(eq), Some(elang), Some(key)) =>
          (match (Uri.DecodeComponent(eq), Uri.DecodeComponent(elang))
           case (Some(q), Some(lang)) => Some((q, lang, key))
           case _ => None)
        case _ => None
  }

  /** The query string BuildUrl appends after the `?`. */
  function Query(q: string, lang: string, key: string): string {
    QueryText(Uri.EncodeURIComponent(q), Uri.EncodeURIComponent(lang), key)
  }

  /** The three query fields joined by `&`, their values already encoded as they should be. */
  function QueryText(eq: string, elang: string, key: string): string {
    "q=" + eq + "&" + "lang=" + elang + "&" + "key=" + key
  }

  lemma EncodedHasNoAmpersand(s: string)
    ensures '&' !in Uri.EncodeURIComponent(s)
  {
  }

  lemma {:induction false} ThreeFields(f0: string, f1: string, f2: string)
    requires '&' !in f0 && '&' !in f1 && '&' !in f2
    ensures SplitOn(f0 + "&" + f1 + "&" + f2, '&') == [f0, f1, f2]
  {
    assert f0 + "&" + f1 + "&" + f2 == f0 + ['&'] + (f1 + ['&'] + f2);
    SplitOnFirst(f0, '&', f1 + ['&'] + f2);
    SplitOnFirst(f1, '&', f2);
    SplitOnNone(f2, '&');
  }

  lemma QueryTextFields(eq: string, elang: string, key: string)
    requires '&' !in eq && '&' !in elang && '&' !in key
    ensures SplitOn(QueryText(eq, elang, key), '&') == ["q=" + eq, "lang=" + elang, "key=" + key]
  {
    assert QueryText(eq, elang, key) == ("q=" + eq) + "&" + ("lang=" + elang) + "&" + ("key=" + key);
    ThreeFields("q=" + eq, "lang=" + elang, "key=" + key);
  }

  /** Cutting the query at `&` gives back its three fields when the key holds no `&`. */
  lemma QueryFields(q: string, lang: string, key: string)
    requires '&' !in key
    ensures SplitOn(Query(q, lang, key), '&')
            == ["q=" + Uri.EncodeURIComponent(q), "lang=" + Uri.EncodeURIComponent(lang), "key=" + key]
  {
    EncodedHasNoAmpersand(q);
    EncodedHasNoAmpersand(lang);
    QueryTextFields(Uri.EncodeURIComponent(q), Uri.EncodeURIComponent(lang), key);
  }

  lemma FieldValueOf(name: string, value: string)
    ensures FieldValue(name + "=" + value, name) == Some(value)
  {
    var field := name + "=" + value;
    assert field[..|name + "="|] == name + "=";
    assert field[|name + "="|..] == value;
  }

  /**
   * The URL carries `q`, `lang` and the key recoverably. The key is not
   * encoded, so this holds only for keys without `&`.
   */
  lemma ParseBuildUrl(q: string, lang: string, key: string)
    requires '&' !in key
    ensures ParseUrl(BuildUrl(q, lang, key)) == Some((q, lang, key))
  {
    UrlHasQuery(q, lang, key);
    QueryFields(q, lang, key);
    FieldValueOf("q", Uri.EncodeURIComponent(q));
    FieldValueOf("lang", Uri.EncodeURIComponent(lang));
    FieldValueOf("key", key);
    Uri.EncodeRoundTrip(q);
    Uri.EncodeRoundTrip(lang);
  }

  lemma QueryOfKeyWithAmpersand(q: string, lang: string, k1: string, k2: string)
    requires '&' !in k1 && '&' !in k2
    ensures |SplitOn(Query(q, lang, k1 + "&" + k2), '&')| == 4
  {
    EncodedHasNoAmpersand(q);
    EncodedHasNoAmpersand(lang);
    QueryTextSplitKey(Uri.EncodeURIComponent(q), Uri.EncodeURIComponent(lang), k1, k2);
  }

  lemma QueryTextSplitKey(eq: string, elang: string, k1: string, k2: string)
    requires '&' !in eq && '&' !in elang && '&' !in k1 && '&' !in k2
    ensures SplitOn(QueryText(eq, elang, k1 + "&" + k2), '&') == ["q=" + eq, "lang=" + elang, "key=" + k1, k2]
  {
    assert QueryText(eq, elang, k1 + "&" + k2) == ("q=" + eq) + "&" + ("lang=" + elang) + "&" + ("key=" + k1) + "&" + k2;
    FourFields("q=" + eq, "lang=" + elang, "key=" + k1, k2);
  }

  lemma FourFields(f0: string, f1: string, f2: string, f3: string)
    requires '&' !in f0 && '&' !in f1 && '&' !in f2 && '&' !in f3
    ensures SplitOn(f0 + "&" + f1 + "&" + f2 + "&" + f3, '&') == [f0, f1, f2, f3]
  {
    assert f0 + "&" + f1 + "&" + f2 + "&" + f3 == f0 + ['&'] + (f1 + "&" + f2 + "&" + f3);
    SplitOnFirst(f0, '&', f1 + "&" + f2 + "&" + f3);
    ThreeFields(f1, f2, f3);
  }

  lemma UrlHasQuery(q: string, lang: string, key: string)
    ensures BuildUrl(q, lang, key)[..|Endpoint + "?"|] == Endpoint + "?"
    ensures BuildUrl(q, lang, key)[|Endpoint + "?"|..] == Query(q, lang, key)
  {
  }

  /** A key holding `&` adds a query field of its own: the URL no longer reads back as three. */
  lemma UnencodedKeyAddsField(q: string, lang: string, k1: string, k2: string)
    requires '&' !in k1 && '&' !in k2
    ensures ParseUrl(BuildUrl(q, lang, k1 + "&" + k2)) == None
  {
    UrlHasQuery(q, lang, k1 + "&" + k2);
    QueryOfKeyWithAmpersand(q, lang, k1, k2);
  }

  /** What JSON.parse made of a 200 response body. */
  datatype Body<+J> = Parsed(document: J) | Unparsable(parseMessage: string)

  /**
   * What the network answers for one GET: a response with its status code,
   * status message and (parsed) body, or a request-level error.
   */
  datatype Outcome<+J> =
    | Received(statusCode: nat, statusMessage: string, body: Body<J>)
    | ConnectionFailed(errorMessage: string)

  /** The object makeHttpsRequest rejects with. */
  datatype Rejection = Rejection(statusCode: int, message: string, details: string)

  const StatusPrefix: string := "Weather API returned status "
  const ParseFailure: string := "Failed to parse weather API response"
  const ConnectFailure: string := "Failed to connect to weather API"

  /** How makeHttpsRequest settles for an outcome. */
  function Settle<J>(o: Outcome<J>): (r: Settled<J, Rejection>)
    ensures r.Resolved? <==> o.Received? && o.statusCode == 200 && o.body.Parsed?
    ensures r.Resolved? ==> r.value == o.body.document
    ensures o.Received? && o.statusCode != 200 ==>
              r.Rejected? && r.reason.statusCode == o.statusCode
              && r.reason.message == StatusPrefix + Decimal.NatToString(o.statusCode)
              && Decimal.ParseNat(r.reason.message[|StatusPrefix|..]) == o.statusCode
              && r.reason.details == "HTTP " + Decimal.NatToString(o.statusCode) + " - " + o.statusMessage
    ensures o.Received? && o.statusCode == 200 && o.body.Unparsable? ==>
              r == Rejected(Rejection(500, ParseFailure, o.body.parseMessage))
    ensures o.ConnectionFailed? ==> r == Rejected(Rejection(500, ConnectFailure, o.errorMessage))
  {
    match o
    case Received(code, reason, body) =>
      if code != 200 then
        var digits := Decimal.NatToString(code);
        assert (StatusPrefix + digits)[|StatusPrefix|..] == digits;
        Decimal.ParseNatToString(code);
        Rejected(Rejection(code, StatusPrefix + digits, "HTTP " + digits + " - " + reason))
      else
        (match body
         case Parsed(document) => Resolved(document)
         case Unparsable(message) => Rejected(Rejection(500, ParseFailure, message)))
    case ConnectionFailed(message) => Rejected(Rejection(500, ConnectFailure, message))
  }

  /** A non-200 response is rejected without regard to its body, which is only drained. */
  lemma NonOkIgnoresBody<J>(code: nat, reason: string, b1: Body<J>, b2: Body<J>)
    requires code != 200
    ensures Settle(Received(code, reason, b1)) == Settle(Received(code, reason, b2))
  {
  }

  /** No rejection carries status 200, so a 200 response always means the document came through. */
  lemma RejectionIsNever200<J>(o: Outcome<J>)
    ensures Settle(o).Rejected? ==> Settle(o).reason.statusCode != 200
  {
  }

  /** Every rejection carries a non-empty message, so the handler's fallback message is never used. */
  lemma RejectionMessageNonEmpty<J>(o: Outcome<J>)
    ensures Settle(o).Rejected? ==> Settle(o).reason.message != ""
  {
  }
}
