/**
 * The getWeather request handler: validate `q`, require the API key, build
 * the upstream URL, and turn the settled upstream request into a response.
 *
 * The two inputs that come from outside the function are parameters: the
 * key read from the environment (`apiKey`), and `fetch`, the outcome the
 * network gives for a URL. The upstream document is opaque (type `J`), and
 * `stringify` stands for JSON.stringify of it.
 */
module Handler {
  import opened Js
  import JsonText
  import Upstream
  import Decimal
  import Uri

  /** The part of the API Gateway event the handler reads. */
  datatype Request = Request(queryStringParameters: Option<map<string, string>>)

  /** The API Gateway response record. */
  datatype Response = Response(statusCode: int, headers: map<string, string>, body: string)

  const Headers: map<string, string> :=
    map["Content-Type" := "application/json", "Access-Control-Allow-Origin" := "*"]

  const MissingLocation: string := "Missing required parameter: q (location)"
  const ConfigurationError: string := "Server configuration error"
  const FetchFailure: string := "Failed to fetch weather data"
  const DefaultLang: string := "en-US"

  function Location(req: Request): Option<string> {
    Lookup(req.queryStringParameters, "q")
  }

  /** `lang`, or the default when it is missing or empty. */
  function Lang(req: Request): string {
    OrElse(Lookup(req.queryStringParameters, "lang"), DefaultLang)
  }

  function ErrorResponse(status: int, body: JsonText.ErrorBody): (r: Response)
    ensures r.statusCode == status && r.headers == Headers
    ensures JsonText.ParseError(r.body) == Some(body)
  {
    JsonText.ParseSerializeError(body);
    Response(status, Headers, JsonText.SerializeError(body))
  }

  /** Where the handler stands before its one suspension point: answered already, or about to fetch. */
  datatype Step = Respond(response: Response) | Fetch(url: string)

  /**
   * Validation and configuration. A missing or empty `q` is answered with 400
   * before the key is looked at; a missing or empty key with 500; only then
   * is a URL built.
   */
  function Plan(req: Request, apiKey: Option<string>): (s: Step)
    ensures !Truthy(Location(req)) ==>
              s.Respond? && s.response.statusCode == 400 && s.response.headers == Headers
              && s.response.body == JsonText.SerializeError(JsonText.ErrorBody(MissingLocation, JsonText.NoDetails))
              && JsonText.ParseError(s.response.body)
                 == Some(JsonText.ErrorBody(MissingLocation, JsonText.NoDetails))
    ensures Truthy(Location(req)) && !Truthy(apiKey) ==>
              s.Respond? && s.response.statusCode == 500 && s.response.headers == Headers
              && s.response.body == JsonText.SerializeError(JsonText.ErrorBody(ConfigurationError, JsonText.NoDetails))
              && JsonText.ParseError(s.response.body)
                 == Some(JsonText.ErrorBody(ConfigurationError, JsonText.NoDetails))
    ensures Truthy(Location(req)) && Truthy(apiKey) ==>
              s == Fetch(Upstream.BuildUrl(Location(req).value, Lang(req), apiKey.value))
  {
    var q := Location(req);
    if !Truthy(q) then
      Respond(ErrorResponse(400, JsonText.ErrorBody(MissingLocation, JsonText.NoDetails)))
    else if !Truthy(apiKey) then
      Respond(ErrorResponse(500, JsonText.ErrorBody(ConfigurationError, JsonText.NoDetails)))
    else
      Fetch(Upstream.BuildUrl(q.value, Lang(req), apiKey.value))
  }

  /** The `details` member the catch block writes: the details when truthy, else `null`. */
  function CatchDetails(details: string): JsonText.Details {
    if details != "" then JsonText.TextDetails(details) else JsonText.NullDetails
  }

  /**
   * The catch block: status is the rejection's status unless that is 0,
   * the message unless it is empty, the details unless they are empty.
   */
  function CatchResponse(e: Upstream.Rejection): (r: Response)
    ensures r.headers == Headers
    ensures e.statusCode != 0 ==> r.statusCode == e.statusCode
    ensures e.statusCode == 0 ==> r.statusCode == 500
    ensures e.message != "" ==>
              r.body == JsonText.SerializeError(JsonText.ErrorBody(e.message, CatchDetails(e.details)))
              && JsonText.ParseError(r.body) == Some(JsonText.ErrorBody(e.message, CatchDetails(e.details)))
    ensures e.message == "" ==>
              r.body == JsonText.SerializeError(JsonText.ErrorBody(FetchFailure, CatchDetails(e.details)))
              && JsonText.ParseError(r.body) == Some(JsonText.ErrorBody(FetchFailure, CatchDetails(e.details)))
    ensures JsonText.ParseError(r.body).Some? && !JsonText.ParseError(r.body).value.details.NoDetails?
  {
    var status := if e.statusCode != 0 then e.statusCode else 500;
    var message := OrElse(Some(e.message), FetchFailure);
    ErrorResponse(status, JsonText.ErrorBody(message, CatchDetails(e.details)))
  }

  /** The response once makeHttpsRequest has settled. */
  function Complete<J>(settled: Settled<J, Upstream.Rejection>, stringify: J -> string): (r: Response)
    ensures r.headers == Headers
    ensures r.statusCode == 200 <==> settled.Resolved? || settled.reason.statusCode == 200
    ensures settled.Resolved? ==> r.body == stringify(settled.value)
    ensures settled.Rejected? ==>
              JsonText.ParseError(r.body).Some? && !JsonText.ParseError(r.body).value.details.NoDetails?
  {
    match settled
    case Resolved(document) => Response(200, Headers, stringify(document))
    case Rejected(e) => CatchResponse(e)
  }

  /** The handler: every path ends in a response carrying the two JSON/CORS headers. */
  function GetWeather<J>(req: Request, apiKey: Option<string>,
                         fetch: string -> Upstream.Outcome<J>, stringify: J -> string): (r: Response)
    ensures r.headers == Headers
    ensures !Truthy(Location(req)) ==>
              r.statusCode == 400
              && r.body == JsonText.SerializeError(JsonText.ErrorBody(MissingLocation, JsonText.NoDetails))
              && JsonText.ParseError(r.body) == Some(JsonText.ErrorBody(MissingLocation, JsonText.NoDetails))
    ensures Truthy(Location(req)) && !Truthy(apiKey) ==>
              r.statusCode == 500
              && r.body == JsonText.SerializeError(JsonText.ErrorBody(ConfigurationError, JsonText.NoDetails))
              && JsonText.ParseError(r.body) == Some(JsonText.ErrorBody(ConfigurationError, JsonText.NoDetails))
  {
    match Plan(req, apiKey)
    case Respond(response) => response
    case Fetch(url) => Complete(Upstream.Settle(fetch(url)), stringify)
  }

  /** The URL requested when both `q` and the key are present. */
  function UpstreamUrl(req: Request, apiKey: Option<string>): string
    requires Truthy(Location(req)) && Truthy(apiKey)
  {
    Upstream.BuildUrl(Location(req).value, Lang(req), apiKey.value)
  }

  /**
   * The fixed URL shape: `q` and `lang` percent-encoded, the key appended
   * as it is, `lang` defaulting to en-US.
   */
  lemma UrlShape(req: Request, apiKey: Option<string>)
    requires Truthy(Location(req)) && Truthy(apiKey)
    ensures Plan(req, apiKey) == Fetch(UpstreamUrl(req, apiKey))
    ensures UpstreamUrl(req, apiKey)
            == "https://api.weatherapi.com/v1/current.json?q=" + Uri.EncodeURIComponent(Location(req).value)
               + "&lang=" + Uri.EncodeURIComponent(Lang(req)) + "&key=" + apiKey.value
    ensures !Truthy(Lookup(req.queryStringParameters, "lang")) ==> Lang(req) == "en-US"
    ensures Truthy(Lookup(req.queryStringParameters, "lang")) ==>
              Lang(req) == req.queryStringParameters.value["lang"]
  {
    Upstream.BuildUrlShape(Location(req).value, Lang(req), apiKey.value);
  }

  /** The URL carries `q`, the effective `lang` and the key, each recoverable (for a key without `&`). */
  lemma UrlCarriesParameters(req: Request, apiKey: Option<string>)
    requires Truthy(Location(req)) && Truthy(apiKey) && '&' !in apiKey.value
    ensures Plan(req, apiKey).Fetch?
    ensures Upstream.ParseUrl(Plan(req, apiKey).url) == Some((Location(req).value, Lang(req), apiKey.value))
  {
    Upstream.ParseBuildUrl(Location(req).value, Lang(req), apiKey.value);
  }

  /**
   * A 200 response means exactly that `q` and the key were present and the
   * upstream answered 200 with a body that parsed.
   */
  lemma OkOnlyOnSuccess<J>(req: Request, apiKey: Option<string>,
                           fetch: string -> Upstream.Outcome<J>, stringify: J -> string)
    ensures GetWeather(req, apiKey, fetch, stringify).statusCode == 200
            <==> Truthy(Location(req)) && Truthy(apiKey)
                 && var o := fetch(UpstreamUrl(req, apiKey));
                    o.Received? && o.statusCode == 200 && o.body.Parsed?
  {
    if Truthy(Location(req)) && Truthy(apiKey) {
      Upstream.RejectionIsNever200(fetch(UpstreamUrl(req, apiKey)));
    }
  }

  /** Parameter validation wins over configuration: with `q` missing, neither key nor upstream matters. */
  lemma ValidationFirst<J>(req: Request, k1: Option<string>, k2: Option<string>,
                           f1: string -> Upstream.Outcome<J>, f2: string -> Upstream.Outcome<J>,
                           stringify: J -> string)
    requires !Truthy(Location(req))
    ensures GetWeather(req, k1, f1, stringify) == GetWeather(req, k2, f2, stringify)
    ensures GetWeather(req, None, f1, stringify).statusCode == 400
  {
  }

  /** Without a key, nothing is fetched: the upstream outcome has no influence. */
  lemma NoKeyNoFetch<J>(req: Request, apiKey: Option<string>,
                        f1: string -> Upstream.Outcome<J>, f2: string -> Upstream.Outcome<J>,
                        stringify: J -> string)
    requires Truthy(Location(req)) && !Truthy(apiKey)
    ensures Plan(req, apiKey).Respond?
    ensures GetWeather(req, apiKey, f1, stringify) == GetWeather(req, apiKey, f2, stringify)
  {
  }

  /** Upstream 200 with a parsed document: status 200 and the document serialized, nothing added. */
  lemma SuccessPassesThrough<J>(req: Request, apiKey: Option<string>,
                                fetch: string -> Upstream.Outcome<J>, stringify: J -> string,
                                message: string, document: J)
    requires Truthy(Location(req)) && Truthy(apiKey)
    requires fetch(UpstreamUrl(req, apiKey)) == Upstream.Received(200, message, Upstream.Parsed(document))
    ensures GetWeather(req, apiKey, fetch, stringify) == Response(200, Headers, stringify(document))
  {
  }

  /** Upstream status N other than 200, reason R: status N, "Weather API returned status N", "HTTP N - R". */
  lemma NonOkStatusPropagates<J>(req: Request, apiKey: Option<string>,
                                 fetch: string -> Upstream.Outcome<J>, stringify: J -> string,
                                 code: nat, reason: string, body: Upstream.Body<J>)
    requires Truthy(Location(req)) && Truthy(apiKey)
    requires fetch(UpstreamUrl(req, apiKey)) == Upstream.Received(code, reason, body)
    requires code != 200
    ensures var r := GetWeather(req, apiKey, fetch, stringify);
            && r.statusCode == (if code == 0 then 500 else code)
            && r.body
               == JsonText.SerializeError(JsonText.ErrorBody(
                    "Weather API returned status " + Decimal.NatToString(code),
                    JsonText.TextDetails("HTTP " + Decimal.NatToString(code) + " - " + reason)))
            && JsonText.ParseError(r.body)
               == Some(JsonText.ErrorBody(
                         "Weather API returned status " + Decimal.NatToString(code),
                         JsonText.TextDetails("HTTP " + Decimal.NatToString(code) + " - " + reason)))
  {
  }

  /** Upstream 200 whose body does not parse: 500 with the parser's message as details. */
  lemma UnparsableBodyIs500<J>(req: Request, apiKey: Option<string>,
                               fetch: string -> Upstream.Outcome<J>, stringify: J -> string,
                               message: string, parseMessage: string)
    requires Truthy(Location(req)) && Truthy(apiKey)
    requires fetch(UpstreamUrl(req, apiKey)) == Upstream.Received(200, message, Upstream.Unparsable(parseMessage))
    ensures var r := GetWeather(req, apiKey, fetch, stringify);
            && r.statusCode == 500
            && r.body
               == JsonText.SerializeError(JsonText.ErrorBody("Failed to parse weather API response", CatchDetails(parseMessage)))
            && JsonText.ParseError(r.body)
               == Some(JsonText.ErrorBody("Failed to parse weather API response", CatchDetails(parseMessage)))
  {
  }

  /** A request-level error: 500 with the error's message as details. */
  lemma ConnectionFailureIs500<J>(req: Request, apiKey: Option<string>,
                                  fetch: string -> Upstream.Outcome<J>, stringify: J -> string,
                                  errorMessage: string)
    requires Truthy(Location(req)) && Truthy(apiKey)
    requires fetch(UpstreamUrl(req, apiKey)) == Upstream.ConnectionFailed(errorMessage)
    ensures var r := GetWeather(req, apiKey, fetch, stringify);
            && r.statusCode == 500
            && r.body
               == JsonText.SerializeError(JsonText.ErrorBody("Failed to connect to weather API", CatchDetails(errorMessage)))
            && JsonText.ParseError(r.body)
               == Some(JsonText.ErrorBody("Failed to connect to weather API", CatchDetails(errorMessage)))
  {
  }
}
