/**
 * The frontend's API helper: the base URL it picks, the request it builds
 * (headers merged from a JSON default, the bearer token and the caller's
 * own), how it turns a reply into data or an error message, and the
 * endpoint each `authAPI` / `favoritesAPI` call uses. `fetch` and
 * `JSON.parse` are outside the model: what they produced is a parameter.
 */
module ApiClient {

  import opened Wrappers
  import opened AuthStorage
  import opened AuthRoutes

  // -------------------------------------------------------------- base URL

  const API_PORT := "3000"
  const LOCAL_API_URL := "http://localhost:3000/api"

  /**
   * `getApiBaseUrl`: `VITE_API_URL` when it is set and non-empty; otherwise
   * port 3000 of the host the page was loaded from, where `127.0.0.1` counts
   * as `localhost`.
   */
  function GetApiBaseUrl(viteApiUrl: string, hostname: string): (url: string)
    ensures viteApiUrl != "" ==> url == viteApiUrl
    ensures viteApiUrl == "" ==>
      url == "http://" + (if hostname == "127.0.0.1" then "localhost" else hostname) + ":" + API_PORT + "/api"
  {
    if viteApiUrl != "" then viteApiUrl
    else if hostname != "localhost" && hostname != "127.0.0.1" then "http://" + hostname + ":3000/api"
    else LOCAL_API_URL
  }

  // --------------------------------------------------------------- headers

  type Headers = map<string, string>

  const CONTENT_TYPE := "Content-Type"
  const AUTHORIZATION := "Authorization"
  const JSON_TYPE := "application/json"

  /** A JavaScript string-or-null is truthy when it is a non-empty string. */
  predicate Truthy(s: Option<string>)
  {
    s.Some? && s.value != ""
  }

  /** `token && { Authorization: \`Bearer ${token}\` }` spread into an object. */
  function BearerHeader(token: Option<string>): (h: Headers)
    ensures AUTHORIZATION in h <==> Truthy(token)
    ensures AUTHORIZATION in h ==> h[AUTHORIZATION] == "Bearer " + token.value
    ensures h.Keys <= {AUTHORIZATION}
  {
    if Truthy(token) then map[AUTHORIZATION := "Bearer " + token.value] else map[]
  }

  /**
   * The `headers` of the request: the JSON content type, then the bearer
   * header, then the caller's headers, each later one overriding a key an
   * earlier one set.
   */
  function RequestHeaders(token: Option<string>, callerHeaders: Headers): (h: Headers)
    ensures h.Keys == {CONTENT_TYPE} + (if Truthy(token) then {AUTHORIZATION} else {}) + callerHeaders.Keys
    ensures forall k :: k in callerHeaders ==> h[k] == callerHeaders[k]
    ensures CONTENT_TYPE !in callerHeaders ==> h[CONTENT_TYPE] == JSON_TYPE
    ensures AUTHORIZATION !in callerHeaders ==>
      (AUTHORIZATION in h <==> Truthy(token)) && (Truthy(token) ==> h[AUTHORIZATION] == "Bearer " + token.value)
  {
    map[CONTENT_TYPE := JSON_TYPE] + BearerHeader(token) + callerHeaders
  }

  // ------------------------------------------------------------ JSON values

  datatype Json = JNull | JBool(b: bool) | JNum(n: int) | JStr(s: string) | JArr(items: seq<Json>)
                | JObj(fields: map<string, Json>)

  /** JavaScript truthiness of a JSON value: the falsy ones are `null`, `false`, `0` and `''`. */
  predicate JsTruthy(v: Json): (t: bool)
    ensures !t <==> v == JNull || v == JBool(false) || v == JNum(0) || v == JStr("")
  {
    match v
    case JNull => false
    case JBool(b) => b
    case JNum(n) => n != 0
    case JStr(s) => s != ""
    case _ => true
  }

  function Digit(d: nat): (c: char)
    requires d < 10
    ensures '0' <= c <= '9' && c as int - '0' as int == d
  {
    ('0' as int + d) as char
  }

  /** The number a string of decimal digits denotes, read most significant digit first. */
  function DecimalValue(s: string): int
  {
    if s == [] then 0 else 10 * DecimalValue(s[..|s| - 1]) + (s[|s| - 1] as int - '0' as int)
  }

  /**
   * The decimal text of a natural number, as template literals and `String`
   * write it: digits denoting `n`, with no leading zero.
   */
  function NatToString(n: nat): (s: string)
    ensures |s| >= 1 && s[0] != '-'
    ensures forall i :: 0 <= i < |s| ==> '0' <= s[i] <= '9'
    ensures DecimalValue(s) == n
    ensures s[0] == '0' ==> n == 0
    ensures n < 10 <==> |s| == 1
  {
    if n < 10 then [Digit(n)]
    else
      var s := NatToString(n / 10) + [Digit(n % 10)];
      assert s[..|s| - 1] == NatToString(n / 10);
      s
  }

  /** `String(n)` for an integer: a minus sign before the digits of `-n` when `n` is negative. */
  function IntToString(n: int): (s: string)
    ensures |s| >= 1
    ensures n < 0 <==> s[0] == '-'
    ensures n >= 0 ==> DecimalValue(s) == n
    ensures n < 0 ==> |s| >= 2 && DecimalValue(s[1..]) == -n && s[1] != '0'
  {
    if n < 0 then "-" + NatToString(-n) else NatToString(n)
  }

  /** `String(v)` for a JSON value; inside an array `null` becomes the empty string. */
  function JsString(v: Json): string
    decreases v
  {
    match v
    case JNull => "null"
    case JBool(b) => if b then "true" else "false"
    case JNum(n) => IntToString(n)
    case JStr(s) => s
    case JArr(items) => JoinItems(items)
    case JObj(_) => "[object Object]"
  }

  /** `items.join(",")`, with `null` items written as empty strings. */
  function JoinItems(items: seq<Json>): string
    decreases items
  {
    if items == [] then ""
    else
      var head := if items[0] == JNull then "" else JsString(items[0]);
      if |items| == 1 then head else head + "," + JoinItems(items[1..])
  }

  /** A member of a JSON value: `None` is `undefined`; only objects have members. */
  function Member(v: Json, key: string): (r: Option<Json>)
    ensures r.Some? <==> v.JObj? && key in v.fields
    ensures r.Some? ==> r.value == v.fields[key]
  {
    if v.JObj? && key in v.fields then Some(v.fields[key]) else None
  }

  // ---------------------------------------------------- replies and errors

  /** What `fetch` produced: a rejection with its message, or a reply. */
  datatype FetchOutcome =
    | NetworkError(message: string)
    | Received(status: nat, contentType: Option<string>, text: string)

  /** What `apiCall` does for its caller: returns data or throws an error with a message. */
  datatype CallResult = Returned(data: Json) | Threw(message: string)

  const INVALID_FORMAT := "Invalid response format"
  const FAILED_TO_FETCH := "Failed to fetch"
  const CANNOT_CONNECT := "Cannot connect to server. Make sure the backend is running on port 3000."
  /** The TypeError of reading `.message` off `null`, as V8 words it. */
  const NULL_MEMBER_ERROR := "Cannot read properties of null (reading 'message')"

  predicate OccursAt(s: string, part: string, i: nat)
  {
    i + |part| <= |s| && s[i..i + |part|] == part
  }

  /** `s.includes(part)`. */
  predicate Contains(s: string, part: string)
  {
    exists i: nat | i <= |s| :: OccursAt(s, part, i)
  }

  /** `response.ok`. */
  predicate IsOk(status: nat)
  {
    200 <= status <= 299
  }

  /**
   * The `data` of a reply: the parsed text when the content type mentions
   * JSON (an empty text gives `{}`, a parse failure throws), otherwise an
   * object whose message says the format is wrong.
   */
  function ResponseData(contentType: Option<string>, text: string, parse: string -> Result<Json, string>)
    : (r: Result<Json, string>)
    ensures !(contentType.Some? && Contains(contentType.value, JSON_TYPE)) ==>
      r == Success(JObj(map["message" := JStr(INVALID_FORMAT)]))
    ensures contentType.Some? && Contains(contentType.value, JSON_TYPE) ==>
      r == if text == "" then Success(JObj(map[])) else parse(text)
  {
    var isJson := contentType.Some? && contentType.value != "" && Contains(contentType.value, JSON_TYPE);
    if isJson then (if text != "" then parse(text) else Success(JObj(map[])))
    else Success(JObj(map["message" := JStr(INVALID_FORMAT)]))
  }

  /** `data[key]` is defined and truthy. */
  predicate HasTruthy(data: Json, key: string)
  {
    data.JObj? && key in data.fields && JsTruthy(data.fields[key])
  }

  /**
   * The message a failed reply throws: `data.message`, else `data.error`,
   * else one naming the status. Reading a member of `null` throws instead.
   */
  function FailureMessage(data: Json, status: nat): (m: string)
    ensures data == JNull ==> m == NULL_MEMBER_ERROR
    ensures HasTruthy(data, "message") ==> m == JsString(data.fields["message"])
    ensures !HasTruthy(data, "message") && HasTruthy(data, "error") ==> m == JsString(data.fields["error"])
    ensures data != JNull && !HasTruthy(data, "message") && !HasTruthy(data, "error") ==>
      m == "API request failed with status " + NatToString(status)
  {
    if data == JNull then NULL_MEMBER_ERROR
    else
      var message := Member(data, "message");
      var error := Member(data, "error");
      if message.Some? && JsTruthy(message.value) then JsString(message.value)
      else if error.Some? && JsTruthy(error.value) then JsString(error.value)
      else "API request failed with status " + NatToString(status)
  }

  /** The `catch` of `apiCall`: a message mentioning a failed fetch becomes the connection hint. */
  function Rethrown(message: string): (m: string)
    ensures Contains(message, FAILED_TO_FETCH) ==> m == CANNOT_CONNECT
    ensures !Contains(message, FAILED_TO_FETCH) ==> m == message
  {
    if Contains(message, FAILED_TO_FETCH) then CANNOT_CONNECT else message
  }

  // -------------------------------------------------------------- requests

  datatype RequestOptions = RequestOptions(verb: Option<HttpMethod>, body: Option<Json>, headers: Headers)

  /** What `fetch` is handed: the URL and the config, `GET` when no method is given. */
  datatype Request = Request(url: string, verb: HttpMethod, body: Option<Json>, headers: Headers)

  /**
   * `apiCall(endpoint, options)` after the base URL was fixed. It returns
   * the request it sent and what it gives its caller; a reply outside
   * 200-299 never returns data, and every thrown message passes through the
   * `catch` rewrite.
   */
  method ApiCall(storage: LocalStorage, baseUrl: string, endpoint: string, options: RequestOptions,
                 fetchOutcome: FetchOutcome, parse: string -> Result<Json, string>)
    returns (sent: Request, result: CallResult)
    ensures sent == Request(baseUrl + endpoint, options.verb.GetOr(GET), options.body,
                            RequestHeaders(storage.GetToken(), options.headers))
    ensures fetchOutcome.NetworkError? ==> result == Threw(Rethrown(fetchOutcome.message))
    ensures fetchOutcome.Received? ==>
      var data := ResponseData(fetchOutcome.contentType, fetchOutcome.text, parse);
      result == if data.Failure? then Threw(Rethrown(data.error))
                else if IsOk(fetchOutcome.status) then Returned(data.value)
                else Threw(Rethrown(FailureMessage(data.value, fetchOutcome.status)))
    ensures result.Returned? ==> fetchOutcome.Received? && IsOk(fetchOutcome.status)
  {
    var token := storage.GetToken();
    var headers := RequestHeaders(token, options.headers);
    sent := Request(baseUrl + endpoint, options.verb.GetOr(GET), options.body, headers);

    // try
    var thrown: Option<string> := None;
    match fetchOutcome {
      case NetworkError(message) =>
        thrown := Some(message);
      case Received(status, contentType, text) =>
        var data := ResponseData(contentType, text, parse);
        if data.Failure? {
          thrown := Some(data.error);
        } else if !IsOk(status) {
          thrown := Some(FailureMessage(data.value, status));
        } else {
          return sent, Returned(data.value);
        }
    }
    // catch
    result := Threw(Rethrown(thrown.value));
  }

  // ------------------------------------------------------------- endpoints

  /** The calls of `authAPI`, `favoritesAPI` and `checkHealth`; bodies are the values `JSON.stringify` is given. */
  datatype ClientCall =
    | AuthRegister(userData: Json)
    | AuthLogin(credentials: Json)
    | AuthGetProfile
    | AuthUpdateProfile(profile: Json)
    | AuthChangePassword(passwords: Json)
    | FavoritesGetAll
    | FavoritesAdd(albumData: Json)
    | FavoritesRemove(albumId: string)
    | FavoritesCheck(checkedId: string)
    | CheckHealth

  /** The endpoint and options each call passes to `apiCall`; none passes headers of its own. */
  function CallOptions(c: ClientCall): (r: (string, RequestOptions))
    ensures r.1.headers == map[]
  {
    match c
    case AuthRegister(d) => ("/auth/register", RequestOptions(Some(POST), Some(d), map[]))
    case AuthLogin(d) => ("/auth/login", RequestOptions(Some(POST), Some(d), map[]))
    case AuthGetProfile => ("/auth/profile", RequestOptions(None, None, map[]))
    case AuthUpdateProfile(d) => ("/auth/profile", RequestOptions(Some(PUT), Some(d), map[]))
    case AuthChangePassword(d) => ("/auth/change-password", RequestOptions(Some(PUT), Some(d), map[]))
    case FavoritesGetAll => ("/favorites", RequestOptions(None, None, map[]))
    case FavoritesAdd(d) => ("/favorites", RequestOptions(Some(POST), Some(d), map[]))
    case FavoritesRemove(id) => ("/favorites/" + id, RequestOptions(Some(DELETE), None, map[]))
    case FavoritesCheck(id) => ("/favorites/check/" + id, RequestOptions(None, None, map[]))
    case CheckHealth => ("/health", RequestOptions(None, None, map[]))
  }

  /** The server handler each call is meant for. */
  function Intended(c: ClientCall): Handler
  {
    match c
    case AuthRegister(_) => Register
    case AuthLogin(_) => Login
    case AuthGetProfile => GetProfile
    case AuthUpdateProfile(_) => UpdateProfile
    case AuthChangePassword(_) => ChangePassword
    case FavoritesGetAll => GetAllFavorites
    case FavoritesAdd(_) => AddFavorite
    case FavoritesRemove(_) => RemoveFavorite
    case FavoritesCheck(_) => CheckFavorite
    case CheckHealth => Health
  }

  /** The album id a call puts into its path, if any. */
  function PathParam(c: ClientCall): Option<string>
  {
    match c
    case FavoritesRemove(id) => Some(id)
    case FavoritesCheck(id) => Some(id)
    case _ => None
  }

  /** Whether the route a call is meant for sits behind the token check. */
  predicate NeedsToken(c: ClientCall)
  {
    !(c.AuthRegister? || c.AuthLogin? || c.CheckHealth?)
  }

  /**
   * The route `apiCall` reaches for `c`. The base URL ends in `/api`, which
   * is where the server mounts its routers, so the endpoint is looked up
   * below that prefix.
   */
  function ServerRouteFor(c: ClientCall): Option<Route>
  {
    FindRoute(SERVER_ROUTES, CallOptions(c).1.verb.GetOr(GET), CallOptions(c).0)
  }

  /** The `authAPI` calls and the health check meet the routes of their handlers. */
  lemma AuthCallsReachRoutes(c: ClientCall)
    requires c.AuthRegister? || c.AuthLogin? || c.AuthGetProfile? || c.AuthUpdateProfile? || c.AuthChangePassword? || c.CheckHealth?
    ensures var r := ServerRouteFor(c);
      r.Some? && r.value.handler == Intended(c) && (r.value.authenticated <==> NeedsToken(c))
  {
    match c
    case AuthRegister(_) => FindRouteAt(SERVER_ROUTES, POST, "/auth/register", 0);
    case AuthLogin(_) => FindRouteAt(SERVER_ROUTES, POST, "/auth/login", 1);
    case AuthGetProfile => FindRouteAt(SERVER_ROUTES, GET, "/auth/profile", 2);
    case AuthUpdateProfile(_) => FindRouteAt(SERVER_ROUTES, PUT, "/auth/profile", 3);
    case AuthChangePassword(_) => FindRouteAt(SERVER_ROUTES, PUT, "/auth/change-password", 4);
    case CheckHealth => FindRouteAt(SERVER_ROUTES, GET, "/health", 9);
  }

  /** Listing and adding favorites meet the routes of their handlers, behind the token check. */
  lemma FavoritesCallsReachRoutes(c: ClientCall)
    requires c.FavoritesGetAll? || c.FavoritesAdd?
    ensures var r := ServerRouteFor(c);
      r.Some? && r.value.handler == Intended(c) && r.value.authenticated
  {
    match c
    case FavoritesGetAll => FindRouteAt(SERVER_ROUTES, GET, "/favorites", 5);
    case FavoritesAdd(_) => FindRouteAt(SERVER_ROUTES, POST, "/favorites", 6);
  }

  /**
   * Removing and checking one album meet the routes of their handlers,
   * behind the token check. The album id is put into the path as it is, so
   * it has to be one path segment.
   */
  lemma AlbumCallsReachRoutes(c: ClientCall)
    requires c.FavoritesRemove? || c.FavoritesCheck?
    requires IsSegment(PathParam(c).value)
    ensures var r := ServerRouteFor(c);
      r.Some? && r.value.handler == Intended(c) && r.value.authenticated
  {
    match c
    case FavoritesRemove(id) =>
      var path, prefix := "/favorites/" + id, "/favorites/";
      assert path[..|prefix|] == prefix && path[|prefix|..] == id;
      FindRouteAt(SERVER_ROUTES, DELETE, path, 7);
    case FavoritesCheck(id) =>
      var path, prefix := "/favorites/check/" + id, "/favorites/check/";
      assert path[..|prefix|] == prefix && path[|prefix|..] == id;
      FindRouteAt(SERVER_ROUTES, GET, path, 8);
  }
}
