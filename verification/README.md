# Weather proxy handler, modelled in Dafny

The system is a serverless function, `getWeather`, that proxies a client's
request for current weather to a third-party weather API. It reads the
query parameters `q` (location, required) and `lang` (defaults to `en-US`),
takes the API key from the environment, requests
`https://api.weatherapi.com/v1/current.json` with those three values, and
answers with a response record (status code, headers, body). Every failure
is caught and becomes a JSON error body. Every response carries
`Content-Type: application/json` and `Access-Control-Allow-Origin: *`.

The model is one pure function, `Handler.GetWeather`, over abstract inputs:

- the request's `queryStringParameters`, which may be `null`;
- the API key, as `Option<string>`;
- `fetch`, the outcome the network gives for a URL. The outcome is either a
  response (status code, status message, and a body that JSON.parse
  either parsed or rejected with a message) or a request-level error with
  its message;
- `stringify`, which stands for JSON.stringify of the opaque upstream
  document (type parameter `J`).

Modules:

- `Js` (js.dfy): JavaScript values that may be `undefined`, Promise
  settlement, string truthiness, `||` and `?.`.
- `Hex` (hex.dfy): hex digits in both cases, shared by the JSON and URI
  escapes.
- `Decimal` (decimal.dfy): the decimal text a template literal gives a
  status code, and a reader for it.
- `JsonText` (json_text.dfy): JSON.stringify of the handler's error bodies.
  Strings are quoted as ECMAScript's QuoteJSONString does it. `ScanString`
  and `ParseError` are a small JSON reader used to say what a body means.
- `Uri` (uri.dfy): encodeURIComponent as ECMAScript defines it, meaning
  UTF-8 bytes as uppercase `%XY` escapes, with letters, digits and
  `-_.!~*'()` left as they are. `DecodeComponent` is its inverse.
- `Upstream` (upstream.dfy): the upstream URL, the outcome datatype, and
  `Settle`, which is how makeHttpsRequest resolves or rejects for each
  outcome. `ParseUrl` reads a URL back into its three query fields.
- `Handler` (handler.dfy): validation and configuration (`Plan`), the
  catch block (`CatchResponse`), success and catch assembly (`Complete`),
  and the handler itself.

Behaviour of the code worth stating plainly:

- `q` and `lang` go through encodeURIComponent, but the API key is
  interpolated into the URL without it (handler.js:48). A key containing
  `&` therefore adds a query field of its own
  (`Upstream.UnencodedKeyAddsField`).
- `lang` falls back to `en-US` when it is empty as well as when it is
  absent, because the code uses `||` (handler.js:15).
- In the catch block, a status of 0 becomes 500. An empty message becomes
  "Failed to fetch weather data". Empty details become `null`. So a parse
  or connection error whose message is empty is reported with
  `details: null`, and an upstream status 0 is reported as 500.

## Model

| member | source | states |
|---|---|---|
| Decimal.NatToString | handler.js:97-98 | a status code is written as its shortest decimal numeral: at least one digit, all digits, a leading `0` only for zero |
| Decimal.ParseNatToString | handler.js:97-98 | the numeral in the status message reads back as the status code |
| Decimal.NatToStringInjective | handler.js:97-98 | different status codes give different status messages |
| JsonText.ScanEscape | handler.js:74-77 | a string quoted the way JSON.stringify quotes it reads back as the original text, and the text after the closing quote is left untouched |
| JsonText.ParseSerializeError | handler.js:74-77 | an error body serialized as `{"error":…}`, with `"details"` absent, `null` or a string, reads back as the same error message and details |
| JsonText.SerializeErrorInjective | handler.js:74-77 | two different error bodies never serialize to the same text |
| Uri.EncodeURIComponent | handler.js:48 | encoded text contains only unreserved characters and `%`, so never `&`, `=`, `?`, `#`, `+` or a space |
| Uri.Utf8RoundTrip | handler.js:48 | the UTF-8 bytes the encoder escapes decode back to the original characters |
| Uri.EncodeRoundTrip | handler.js:48 | decoding an encoded `q` or `lang` gives back exactly the original string |
| Uri.EncodeInjective | handler.js:48 | different parameter values give different encoded text |
| Upstream.BuildUrl | handler.js:48 | the URL starts with the fixed endpoint and `?`, and ends with `&key=` followed by the key verbatim |
| Upstream.BuildUrlShape | handler.js:48 | the URL is exactly the endpoint, then `?q=` and the encoded `q`, then `&lang=` and the encoded `lang`, then `&key=` and the unencoded key |
| Upstream.ParseBuildUrl | handler.js:48 | for a key without `&`, the URL has exactly the three fields `q`, `lang`, `key` in that order, and they read back as the values the URL was built from |
| Upstream.UnencodedKeyAddsField | handler.js:48 | a key containing `&` splits into an extra query field, so the URL no longer reads back as three fields |
| Upstream.Settle | handler.js:87-130 | the request resolves only for status 200 with a parsed body, and then with that document. Any other status N with status message R rejects with status N, message `Weather API returned status ` followed by N's numeral (which reads back as N), and details `HTTP `, N's numeral, ` - `, R. A 200 whose body fails to parse rejects with 500, "Failed to parse weather API response" and the parse message. A request error rejects with 500, "Failed to connect to weather API" and the error message |
| Upstream.NonOkIgnoresBody | handler.js:93-101 | for a status other than 200 the body plays no part in the rejection |
| Upstream.RejectionIsNever200 | handler.js:93-127 | no rejection of makeHttpsRequest carries status 200 |
| Upstream.RejectionMessageNonEmpty | handler.js:95-127 | every rejection makeHttpsRequest produces has a non-empty message |
| Handler.Plan | handler.js:14-48 | missing or empty `q` gives 400 with body exactly JSON.stringify of `{error: "Missing required parameter: q (location)"}`, which reads back with no details. With `q` present, a missing or empty key gives 500 with body exactly JSON.stringify of `{error: "Server configuration error"}`, also without details. Only with both present is a fetch of the upstream URL planned. Early responses carry the two headers |
| Handler.CatchResponse | handler.js:65-79 | status is the rejection's status, or 500 when that is 0. The body is exactly JSON.stringify of `{error, details}`: `error` is the message, or "Failed to fetch weather data" when that is empty; `details` is always present, the details or `null` when they are empty. The body reads back as those fields. The two headers are always set |
| Handler.Complete | handler.js:53-79 | the response is 200 exactly when the request resolved or the rejection itself carried 200. A resolved request's body is the serialized document. A rejected one's body is an error object that always has a `details` member. Both carry the two headers |
| Handler.GetWeather | handler.js:9-80 | every response carries `Content-Type: application/json` and `Access-Control-Allow-Origin: *`. Missing `q` gives 400 with exactly the serialized missing-parameter body. Missing key with `q` present gives 500 with exactly the serialized configuration-error body. Both bodies read back without a `details` member |
| Handler.OkOnlyOnSuccess | handler.js:9-130 | the response is 200 if and only if `q` and the key are present and the upstream answered 200 with a body that parsed |
| Handler.UrlShape | handler.js:14-48 | with `q` and the key present, the handler requests exactly the endpoint with `?q=` and the encoded `q`, `&lang=` and the encoded `lang`, and `&key=` and the raw key. `lang` is `en-US` when missing or empty and the given value otherwise |
| Handler.UrlCarriesParameters | handler.js:14-48 | for a key without `&`, the requested URL reads back as `q`, the effective `lang` and the key |
| Handler.ValidationFirst | handler.js:18-45 | with `q` missing, the response is the same whatever the key and the upstream, and with no key it is still 400, never 500 |
| Handler.NoKeyNoFetch | handler.js:32-53 | with `q` present and no key, no fetch is planned and the upstream outcome has no influence on the response |
| Handler.SuccessPassesThrough | handler.js:53-63 | an upstream 200 with a parsed document V gives exactly status 200, the two headers, and serialize(V) as the body |
| Handler.NonOkStatusPropagates | handler.js:68-99 | an upstream status N other than 200, with reason R, gives status N (500 if N is 0) and a body that is exactly JSON.stringify of `{error: "Weather API returned status N", details: "HTTP N - R"}` and reads back as those fields |
| Handler.UnparsableBodyIs500 | handler.js:109-119 | an upstream 200 whose body fails to parse gives 500 and a body that is exactly JSON.stringify of error "Failed to parse weather API response" with the parse message as details (`null` if empty) |
| Handler.ConnectionFailureIs500 | handler.js:122-127 | a request-level error gives 500 and a body that is exactly JSON.stringify of error "Failed to connect to weather API" with the error message as details (`null` if empty) |

## Left out

- `https.get`, the accumulation of `data` chunks, the `end` and `error`
  events, `res.resume()` draining and the Promise/async machinery are
  network I/O. They are replaced by the single `fetch` outcome. The model
  cannot express a response whose `end` event never arrives. The source
  sets no timeout, so such an invocation hangs until the platform stops it.
- The body text is built with `data += chunk` without `res.setEncoding`
  (handler.js:104-106). Each Buffer chunk is decoded as UTF-8 on its own,
  so a multi-byte character split across two chunks reaches JSON.parse as
  U+FFFD. `Upstream.Parsed(document)` stands for what JSON.parse made of
  that text, so `Handler.SuccessPassesThrough` passes that document
  through, which may differ from the bytes the weather API sent.
- `console.log` / `console.error` are logging side effects. The unused
  Lambda `context` argument is also left out.
- `process.env.WEATHER_API_KEY` is passed in as the `apiKey` parameter.
- The internals of JSON.parse, and JSON.stringify of the upstream document,
  are foreign calls. The document is opaque. Whether the body parses is
  part of the outcome, and serialization is the `stringify` parameter.
- Dafny characters are Unicode scalar values, so a `q` or `lang` holding
  a lone UTF-16 surrogate cannot be represented. On such input,
  encodeURIComponent throws URIError, which the catch block reports as 500
  with message "URI malformed" and `details: null`.
- Status codes are non-negative integers, and the decimal rendering covers
  them. The exponent notation JavaScript uses from 10^21 upwards does not
  arise.
- Handler.GetWeather: the 400 and 500 bodies are stated as
  `JsonText.SerializeError` of the expected object, which is this model's
  JSON.stringify. The contracts do not spell out the resulting character
  strings as literals.
- Upstream.ParseBuildUrl: `ParseUrl` splits the query at `&` only. It does
  not treat `#` as the start of a fragment, and it does not percent-decode
  the key. That is why the round trip is stated for keys without `&` and
  returns the key as it is written in the URL.
