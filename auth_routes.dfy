/**
 * The request-validation chains and the route table of the authentication
 * router, with the two mount points and the favorites routes that the server
 * adds around it.
 *
 * The email checks belong to the validator library: `isEmail` and
 * `normalizeEmail` are parameters. Trimming is modelled here, over a fixed
 * set of whitespace characters.
 */
module AuthRoutes {

  import opened Wrappers

  // ---------------------------------------------------------------- trimming

  /**
   * The characters `trim()` strips, those of the JavaScript `\s` class: tab,
   * the line terminators, vertical tab, form feed, the space separators and
   * the byte-order mark.
   */
  predicate IsWhitespace(c: char)
  {
    c == '\t' || c == '\n' || c == '\U{B}' || c == '\U{C}' || c == '\r' || c == ' '
    || c == '\U{A0}' || c == '\U{1680}' || ('\U{2000}' <= c <= '\U{200A}')
    || c == '\U{2028}' || c == '\U{2029}' || c == '\U{202F}' || c == '\U{205F}'
    || c == '\U{3000}' || c == '\U{FEFF}'
  }

  /** `s` without its leading whitespace. */
  function TrimStart(s: string): (r: string)
    ensures |r| <= |s| && r == s[|s| - |r|..]
    ensures r == [] || !IsWhitespace(r[0])
    ensures forall i :: 0 <= i < |s| - |r| ==> IsWhitespace(s[i])
  {
    if s != [] && IsWhitespace(s[0]) then TrimStart(s[1..]) else s
  }

  /** `s` without its trailing whitespace. */
  function TrimEnd(s: string): (r: string)
    ensures |r| <= |s| && r == s[..|r|]
    ensures r == [] || !IsWhitespace(r[|r| - 1])
    ensures forall i :: |r| <= i < |s| ==> IsWhitespace(s[i])
  {
    if s != [] && IsWhitespace(s[|s| - 1]) then TrimEnd(s[..|s| - 1]) else s
  }

  /** Every character of `t` is whitespace. */
  predicate AllWhitespace(t: string)
  {
    forall j :: 0 <= j < |t| ==> IsWhitespace(t[j])
  }

  /** `r` is `s` with the `i` characters before it and all after it removed, each of them whitespace. */
  predicate StrippedAt(s: string, r: string, i: nat)
  {
    i + |r| <= |s| && r == s[i..i + |r|] && AllWhitespace(s[..i]) && AllWhitespace(s[i + |r|..])
  }

  /** Stripping the start and then the end removes whitespace before and after a middle part. */
  lemma StripsBothEnds(s: string)
    ensures StrippedAt(s, TrimEnd(TrimStart(s)), |s| - |TrimStart(s)|)
  {
    var t := TrimStart(s);
    var r := TrimEnd(t);
    var i := |s| - |t|;
    assert t == s[i..];
    assert AllWhitespace(s[..i]) by {
      forall j | 0 <= j < i ensures IsWhitespace(s[..i][j]) {
        assert s[..i][j] == s[j];
      }
    }
    assert AllWhitespace(t[|r|..]) by {
      forall j | 0 <= j < |t| - |r| ensures IsWhitespace(t[|r|..][j]) {
        assert t[|r|..][j] == t[|r| + j];
      }
    }
    assert r == t[..|r|] == s[i..i + |r|];
    assert s[i + |r|..] == t[|r|..];
    assert AllWhitespace(s[i + |r|..]);
    assert StrippedAt(s, r, i);
  }

  /**
   * The `trim()` sanitizer: a middle part of the input, with only whitespace
   * removed before and after it, and neither of its ends whitespace.
   */
  function Trim(s: string): (r: string)
    ensures |r| <= |s|
    ensures exists i :: StrippedAt(s, r, i)
    ensures r == [] || (!IsWhitespace(r[0]) && !IsWhitespace(r[|r| - 1]))
  {
    StripsBothEnds(s);
    TrimEnd(TrimStart(s))
  }

  /** A string whose ends are not whitespace is its own trim. */
  lemma TrimOfTrimmed(s: string)
    requires s == [] || (!IsWhitespace(s[0]) && !IsWhitespace(s[|s| - 1]))
    ensures Trim(s) == s
  {
    assert TrimStart(s) == s;
  }

  /** Trimming twice is trimming once. */
  lemma TrimIdempotent(s: string)
    ensures Trim(Trim(s)) == Trim(s)
  {
    TrimOfTrimmed(Trim(s));
  }

  // -------------------------------------------------------------- validation

  /** The two variation selectors that ask for text or emoji presentation. */
  predicate IsPresentationSelector(c: char)
  {
    c == '\U{FE0E}' || c == '\U{FE0F}'
  }

  /** How many presentation selectors `s` holds. */
  function SelectorCount(s: string): nat
  {
    if s == [] then 0
    else SelectorCount(s[..|s| - 1]) + (if IsPresentationSelector(s[|s| - 1]) then 1 else 0)
  }

  /** Counting from the back agrees with counting from the front. */
  lemma {:induction false} SelectorCountFront(s: string)
    requires s != []
    ensures SelectorCount(s) == (if IsPresentationSelector(s[0]) then 1 else 0) + SelectorCount(s[1..])
    decreases |s|
  {
    if |s| > 1 {
      var init := s[..|s| - 1];
      assert init[0] == s[0] && init[1..] == s[1..][..|s[1..]| - 1];
      SelectorCountFront(init);
    }
  }

  /**
   * The length `isLength` compares against its bounds: the number of code
   * points, not counting the presentation selectors.
   */
  function ValidatorLength(s: string): (n: nat)
    ensures n <= |s|
    ensures n == |s| - SelectorCount(s)
    ensures (forall i :: 0 <= i < |s| ==> !IsPresentationSelector(s[i])) ==> n == |s|
    ensures (exists i :: 0 <= i < |s| && IsPresentationSelector(s[i])) ==> n < |s|
  {
    if s == [] then 0
    else
      SelectorCountFront(s);
      (if IsPresentationSelector(s[0]) then 0 else 1) + ValidatorLength(s[1..])
  }

  /** One entry of `validationResult(req).array()`: the field and its message. */
  datatype FieldError = FieldError(field: string, msg: string)

  datatype RegisterBody = RegisterBody(email: string, username: string, password: string)
  datatype LoginBody = LoginBody(email: string, password: string)

  /** What a validation chain leaves behind: the errors it collected and the sanitized body. */
  datatype Checked<B> = Checked(errors: seq<FieldError>, body: B)

  const EMAIL_ERROR := FieldError("email", "Valid email required")
  const USERNAME_ERROR := FieldError("username", "Username must be 3-30 characters")
  const PASSWORD_LENGTH_ERROR := FieldError("password", "Password must be at least 6 characters")
  const PASSWORD_MISSING_ERROR := FieldError("password", "Password required")

  const USERNAME_MIN := 3
  const USERNAME_MAX := 30
  const PASSWORD_MIN := 6

  /** The error of a rule that failed, or nothing. */
  function ErrorIf(failed: bool, e: FieldError): (r: seq<FieldError>)
    ensures failed <==> r == [e]
    ensures !failed <==> r == []
  {
    if failed then [e] else []
  }

  /**
   * The errors of the three register rules, in order: none iff every rule
   * passes, and each message iff its own rule fails.
   */
  lemma RegisterErrors(badEmail: bool, badName: bool, badPassword: bool)
    ensures var errs := ErrorIf(badEmail, EMAIL_ERROR) + ErrorIf(badName, USERNAME_ERROR)
                        + ErrorIf(badPassword, PASSWORD_LENGTH_ERROR);
      && (errs == [] <==> !badEmail && !badName && !badPassword)
      && (EMAIL_ERROR in errs <==> badEmail)
      && (USERNAME_ERROR in errs <==> badName)
      && (PASSWORD_LENGTH_ERROR in errs <==> badPassword)
  {
    assert EMAIL_ERROR.field[0] == 'e' && USERNAME_ERROR.field[0] == 'u' && PASSWORD_LENGTH_ERROR.field[0] == 'p';
  }

  /**
   * `registerValidation`: the email must pass `isEmail` and is then normalised,
   * the username is trimmed and must then be 3 to 30 characters long, and the
   * password must be at least 6 characters. Errors come in the chains' order.
   */
  function RegisterValidation(b: RegisterBody, isEmail: string -> bool, normalizeEmail: string -> string)
    : (r: Checked<RegisterBody>)
    ensures r.body == RegisterBody(normalizeEmail(b.email), Trim(b.username), b.password)
    ensures r.errors == [] <==>
      && isEmail(b.email)
      && USERNAME_MIN <= ValidatorLength(Trim(b.username)) <= USERNAME_MAX
      && ValidatorLength(b.password) >= PASSWORD_MIN
    ensures EMAIL_ERROR in r.errors <==> !isEmail(b.email)
    ensures USERNAME_ERROR in r.errors <==> !(USERNAME_MIN <= ValidatorLength(Trim(b.username)) <= USERNAME_MAX)
    ensures PASSWORD_LENGTH_ERROR in r.errors <==> ValidatorLength(b.password) < PASSWORD_MIN
    ensures |r.errors| == (if !isEmail(b.email) then 1 else 0)
                          + (if !(USERNAME_MIN <= ValidatorLength(Trim(b.username)) <= USERNAME_MAX) then 1 else 0)
                          + (if ValidatorLength(b.password) < PASSWORD_MIN then 1 else 0)
  {
    var name := Trim(b.username);
    var badEmail, badName, badPassword :=
      !isEmail(b.email), !(USERNAME_MIN <= ValidatorLength(name) <= USERNAME_MAX),
      ValidatorLength(b.password) < PASSWORD_MIN;
    RegisterErrors(badEmail, badName, badPassword);
    Checked(
      ErrorIf(badEmail, EMAIL_ERROR) + ErrorIf(badName, USERNAME_ERROR) + ErrorIf(badPassword, PASSWORD_LENGTH_ERROR),
      RegisterBody(normalizeEmail(b.email), name, b.password))
  }

  /**
   * `loginValidation`: the email must pass `isEmail` and is normalised; the
   * password only has to be non-empty, with no length rule.
   */
  function LoginValidation(b: LoginBody, isEmail: string -> bool, normalizeEmail: string -> string)
    : (r: Checked<LoginBody>)
    ensures r.body == LoginBody(normalizeEmail(b.email), b.password)
    ensures r.errors == [] <==> isEmail(b.email) && b.password != ""
    ensures EMAIL_ERROR in r.errors <==> !isEmail(b.email)
    ensures PASSWORD_MISSING_ERROR in r.errors <==> b.password == ""
  {
    assert EMAIL_ERROR.field[0] != PASSWORD_MISSING_ERROR.field[0];
    Checked(
      ErrorIf(!isEmail(b.email), EMAIL_ERROR) + ErrorIf(b.password == "", PASSWORD_MISSING_ERROR),
      LoginBody(normalizeEmail(b.email), b.password))
  }

  // ------------------------------------------------------------- route table

  datatype HttpMethod = GET | POST | PUT | DELETE

  /** A path pattern: a fixed path, or a fixed prefix followed by one `:param` segment. */
  datatype PathPattern = Exact(path: string) | WithParam(prefix: string)

  /** The handler a route ends in. */
  datatype Handler =
    | Register | Login | GetProfile | UpdateProfile | ChangePassword
    | GetAllFavorites | AddFavorite | RemoveFavorite | CheckFavorite
    | Health

  /** The validation chain a route runs before its handler, if any. */
  datatype Validation = NoValidation | RegisterRules | LoginRules

  datatype Route = Route(verb: HttpMethod, pattern: PathPattern, authenticated: bool,
                         validation: Validation, handler: Handler)

  // Server paths are written below the `/api` prefix the server mounts both routers under.

  /** The authentication router, mounted at `/api/auth`. */
  const AUTH_ROUTES: seq<Route> := [
    Route(POST, Exact("/auth/register"), false, RegisterRules, Register),
    Route(POST, Exact("/auth/login"), false, LoginRules, Login),
    Route(GET, Exact("/auth/profile"), true, NoValidation, GetProfile),
    Route(PUT, Exact("/auth/profile"), true, NoValidation, UpdateProfile),
    Route(PUT, Exact("/auth/change-password"), true, NoValidation, ChangePassword)
  ]

  /** The favorites router, mounted at `/api/favorites`, every route behind the token check. */
  const FAVORITE_ROUTES: seq<Route> := [
    Route(GET, Exact("/favorites"), true, NoValidation, GetAllFavorites),
    Route(POST, Exact("/favorites"), true, NoValidation, AddFavorite),
    Route(DELETE, WithParam("/favorites/"), true, NoValidation, RemoveFavorite),
    Route(GET, WithParam("/favorites/check/"), true, NoValidation, CheckFavorite)
  ]

  /** Every route the server answers, the health check included, in the order Express tries them. */
  const SERVER_ROUTES: seq<Route> :=
    AUTH_ROUTES + FAVORITE_ROUTES + [Route(GET, Exact("/health"), false, NoValidation, Health)]

  /** A path segment an Express `:param` can match: non-empty and without `/`. */
  predicate IsSegment(s: string)
  {
    s != [] && forall i :: 0 <= i < |s| ==> s[i] != '/'
  }

  predicate Matches(p: PathPattern, path: string)
  {
    match p
    case Exact(q) => path == q
    case WithParam(prefix) =>
      |prefix| < |path| && path[..|prefix|] == prefix && IsSegment(path[|prefix|..])
  }

  /** The first route of `routes` that serves `verb` and `path`, as Express picks it. */
  function FindRoute(routes: seq<Route>, verb: HttpMethod, path: string): (r: Option<Route>)
    ensures r.Some? ==> r.value in routes && r.value.verb == verb && Matches(r.value.pattern, path)
    ensures r.None? ==> forall x :: x in routes ==> !(x.verb == verb && Matches(x.pattern, path))
  {
    if routes == [] then None
    else if routes[0].verb == verb && Matches(routes[0].pattern, path) then Some(routes[0])
    else FindRoute(routes[1..], verb, path)
  }

  /** The route at `k` is the first that serves `verb` and `path`: it is the one found. */
  lemma {:induction false} FindRouteAt(routes: seq<Route>, verb: HttpMethod, path: string, k: nat)
    requires k < |routes| && routes[k].verb == verb && Matches(routes[k].pattern, path)
    requires forall j | 0 <= j < k :: !(routes[j].verb == verb && Matches(routes[j].pattern, path))
    ensures FindRoute(routes, verb, path) == Some(routes[k])
  {
    if k > 0 {
      assert !(routes[0].verb == verb && Matches(routes[0].pattern, path));
      forall j | 0 <= j < k - 1 ensures !(routes[1..][j].verb == verb && Matches(routes[1..][j].pattern, path)) {
        assert routes[1..][j] == routes[j + 1];
      }
      FindRouteAt(routes[1..], verb, path, k - 1);
    }
  }

  /**
   * Register and login are public and run their validation chains; the
   * profile and password routes go through the token check and run no
   * validation, so their bodies reach the controller unchecked.
   */
  lemma AuthRouteGuards(r: Route)
    requires r in AUTH_ROUTES
    ensures r.authenticated <==> r.handler in {GetProfile, UpdateProfile, ChangePassword}
    ensures r.handler == Register ==> r.validation == RegisterRules
    ensures r.handler == Login ==> r.validation == LoginRules
    ensures r.handler in {UpdateProfile, ChangePassword} ==> r.validation == NoValidation
  {
  }

  /** Every favorites route is reached only after the token check. */
  lemma FavoriteRoutesGuarded(r: Route)
    requires r in FAVORITE_ROUTES
    ensures r.authenticated && r.validation == NoValidation
  {
  }
}
