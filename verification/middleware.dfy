/**
 * `MagicAuthorizationMiddleware`: for one request, decide between passing
 * it on, redirecting it without its token, and denying it, and compute the
 * access-token table after the decision.
 */
module Middleware {
  import opened Common
  import opened PyString
  import opened UrlQuote
  import opened Settings
  import opened RoutePattern
  import opened Registry
  import opened Matcher
  import opened Http
  import opened Tokens

  datatype DenyReason = NoToken | InvalidToken

  /**
   * What `_deny` answers with, in its order of preference: the project's
   * handler (called with the request path), the project's template (rendered
   * with the request path), or a plain 403 with a fixed message.
   */
  datatype DenialBody =
    | FromHandler(handler: Value, path: string)
    | FromTemplate(template: Value, path: string)
    | DefaultMessage(message: string)

  datatype Cookie = Cookie(name: string, value: string, path: string)

  /**
   * `PassThrough` is `get_response(request)`, with the cookie set on it when
   * there is one; `Redirect` goes to `location` with the remaining query.
   */
  datatype Response =
    | PassThrough(setCookie: Option<Cookie>)
    | Redirect(location: string, query: Query, cookie: Cookie)
    | Denied(reason: DenyReason, body: DenialBody)

  /** The two signals, with the arguments they carry. */
  datatype Event =
    | AccessDenied(path: string, reason: DenyReason)
    | AccessGranted(token: Option<AccessToken>, path: string)

  datatype Outcome = Outcome(response: Response, events: seq<Event>, store: Store)

  // ---- _deny ----

  function Message(reason: DenyReason): string {
    match reason
    case NoToken => "Access denied: No token provided"
    case InvalidToken => "Access denied: Invalid token"
  }

  /**
   * `_deny` as written: both denial settings are read through `get_setting`,
   * which raises for a name that is neither overridden nor in `DEFAULTS`.
   */
  function DenyAsWritten(cfg: Config, reason: DenyReason, path: string): (r: Result<DenialBody, SettingError>)
    ensures r.Err? <==> FORBIDDEN_HANDLER !in Overrides(cfg)
                        || (!TruthyValue(Overrides(cfg)[FORBIDDEN_HANDLER]) && FORBIDDEN_TEMPLATE !in Overrides(cfg))
  {
    match GetSetting(cfg, FORBIDDEN_HANDLER)
    case Err(e) => Err(e)
    case Ok(h) =>
      if TruthyValue(h) then Ok(FromHandler(h, path))
      else match GetSetting(cfg, FORBIDDEN_TEMPLATE)
        case Err(e) => Err(e)
        case Ok(t) => if TruthyValue(t) then Ok(FromTemplate(t, path)) else Ok(DefaultMessage(Message(reason)))
  }

  /** Under the default settings every denial raises instead of answering 403. */
  lemma DefaultDenialRaises(debug: bool, reason: DenyReason, path: string)
    ensures DenyAsWritten(Config(debug, None), reason, path) == Err(KeyError(FORBIDDEN_HANDLER))
  {
  }

  /** A denial setting the project leaves out reads as `None`. */
  function OptionalSetting(cfg: Config, name: string): (v: Value)
    ensures name in Overrides(cfg) ==> v == Overrides(cfg)[name]
    ensures name !in Overrides(cfg) && name !in Defaults(cfg.debug) ==> v == Null
  {
    match GetSetting(cfg, name)
    case Ok(v) => v
    case Err(_) => Null
  }

  /** `_deny` with the two denial settings defaulting to `None`. */
  function Deny(cfg: Config, reason: DenyReason, path: string): (b: DenialBody)
    ensures b.FromHandler? <==> TruthyValue(OptionalSetting(cfg, FORBIDDEN_HANDLER))
    ensures b.FromTemplate? <==> !TruthyValue(OptionalSetting(cfg, FORBIDDEN_HANDLER))
                                 && TruthyValue(OptionalSetting(cfg, FORBIDDEN_TEMPLATE))
    ensures b.DefaultMessage? ==> b.message == Message(reason)
    ensures !b.DefaultMessage? ==> b.path == path
  {
    var h := OptionalSetting(cfg, FORBIDDEN_HANDLER);
    var t := OptionalSetting(cfg, FORBIDDEN_TEMPLATE);
    if TruthyValue(h) then FromHandler(h, path)
    else if TruthyValue(t) then FromTemplate(t, path)
    else DefaultMessage(Message(reason))
  }

  /** The corrected `_deny` answers exactly as the written one wherever that one does not raise. */
  lemma DenyAgreesWhereWrittenAnswers(cfg: Config, reason: DenyReason, path: string)
    requires DenyAsWritten(cfg, reason, path).Ok?
    ensures DenyAsWritten(cfg, reason, path) == Ok(Deny(cfg, reason, path))
  {
  }

  /** Under the default settings the corrected `_deny` gives the two fixed messages. */
  lemma DefaultDenialMessages(debug: bool, path: string)
    ensures Deny(Config(debug, None), NoToken, path) == DefaultMessage("Access denied: No token provided")
    ensures Deny(Config(debug, None), InvalidToken, path) == DefaultMessage("Access denied: Invalid token")
  {
  }

  // ---- cookie name and scope ----

  /** `f"{get_setting('COOKIE_PREFIX')}{quote(protected_path, safe='')}"`. */
  function CookieKey(cfg: Config, canonical: string): (k: string)
    ensures StartsWith(k, Format(Setting(cfg, COOKIE_PREFIX)))
    ensures var q := k[|Format(Setting(cfg, COOKIE_PREFIX))|..];
      Unquote(q) == Some(canonical) && forall i :: 0 <= i < |q| ==> UnreservedChar(q[i]) || q[i] == '%'
  {
    var p := Format(Setting(cfg, COOKIE_PREFIX));
    UnquoteQuote(canonical);
    assert (p + Quote(canonical))[|p|..] == Quote(canonical);
    p + Quote(canonical)
  }

  /** Under the default settings the cookie name is `django_magic_authorization_` and the quoted path. */
  lemma DefaultCookieKey(debug: bool, canonical: string)
    ensures CookieKey(Config(debug, None), canonical) == "django_magic_authorization_" + Quote(canonical)
  {
  }

  /** Two protected paths never share a cookie. */
  lemma CookieKeyInjective(cfg: Config, a: string, b: string)
    ensures CookieKey(cfg, a) == CookieKey(cfg, b) <==> a == b
  {
    if CookieKey(cfg, a) == CookieKey(cfg, b) {
      var n := |Format(Setting(cfg, COOKIE_PREFIX))|;
      assert CookieKey(cfg, a)[n..] == CookieKey(cfg, b)[n..];
    }
  }

  /** The cookie path: `/` and the canonical path up to its first `<`. */
  function CookiePath(canonical: string): (p: string)
    ensures |p| >= 1 && p[0] == '/' && StartsWith(canonical, p[1..])
    ensures '<' !in p[1..]
    ensures |p| - 1 == |canonical| || canonical[|p| - 1] == '<'
  {
    var i := Find(canonical, '<');
    var stem := if i == -1 then canonical else canonical[..i];
    assert ("/" + stem)[1..] == stem;
    "/" + stem
  }

  /** A stem without `<` followed by nothing or by a parameter: the cookie path is `/` and the stem. */
  lemma CookiePathOfStem(stem: string, rest: string)
    requires '<' !in stem && (rest == [] || rest[0] == '<')
    ensures CookiePath(stem + rest) == "/" + stem
  {
    var c := stem + rest;
    if rest == [] {
      assert c == stem;
    } else {
      assert c[|stem|] == '<' && c[..|stem|] == stem;
    }
  }

  /** A canonical path without `<` scopes its cookie to itself. */
  lemma CookiePathOfLiteral(canonical: string)
    requires '<' !in canonical
    ensures CookiePath(canonical) == "/" + canonical
  {
  }

  /**
   * A route whose prefix and leading literal contain no `<`: the cookie path
   * is `/`, the prefix and the leading literal of the template.
   */
  lemma CookiePathOfRoute(r: Route)
    requires '<' !in r.prefix && '<' !in LeadingLiteral(r.pattern)
    ensures CookiePath(Canonical(r)) == "/" + r.prefix + LeadingLiteral(r.pattern)
  {
    var l := LeadingLiteral(r.pattern);
    TextSplitsAtFirstParam(r.pattern);
    var t := Text(r.pattern);
    assert t == l + t[|l|..];
    assert Canonical(r) == (r.prefix + l) + t[|l|..];
    CookiePathOfStem(r.prefix + l, t[|l|..]);
  }

  /**
   * The cookie reaches every request the route protects: when the request
   * path is `/` followed by the prefix (so `removeprefix` removed it), the
   * cookie path is a prefix of the request path.
   */
  lemma CookieCoversProtectedRequests(r: Route, w: string, eval: Oracle)
    requires '<' !in r.prefix && '<' !in LeadingLiteral(r.pattern)
    requires w == [] || w[0] != '/'
    requires StartsWith(w, r.prefix)
    requires Protects(r, "/" + w, eval)
    ensures StartsWith("/" + w, CookiePath(Canonical(r)))
  {
    CookiePathOfRoute(r);
    LStripOne(w);
    var s := Unprefixed("/" + w, r.prefix);
    var l := LeadingLiteral(r.pattern);
    MatchStartsWithLeadingLiteral(r.pattern, s);
    StartsWithPrepend(r.prefix, s, l);
    StartsWithPrepend("/", w, r.prefix + l);
    assert "/" + (r.prefix + l) == "/" + r.prefix + l;
  }

  // ---- the token decision ----

  /** The configured query parameter, when it is a string (a key of another type is never found). */
  function TokenParam(cfg: Config): Option<string> {
    match Setting(cfg, TOKEN_PARAM)
    case Str(k) => Some(k)
    case _ => None
  }

  /** `request.GET.get(token_param)`. */
  function QueryToken(cfg: Config, req: Request): Option<string> {
    match TokenParam(cfg)
    case Some(k) => QueryGet(req.query, k)
    case None => None
  }

  /** `request.COOKIES.get(cookie_key)`. */
  function CookieToken(cfg: Config, req: Request, canonical: string): Option<string> {
    var key := CookieKey(cfg, canonical);
    if key in req.cookies then Some(req.cookies[key]) else None
  }

  /**
   * `query_token or request.COOKIES.get(cookie_key)`: no token at all (the
   * `user_token is None` test) exactly when the query token is falsy and no
   * cookie is stored under the route's key; otherwise the query token or the cookie.
   */
  function PresentedToken(cfg: Config, req: Request, canonical: string): (t: Option<string>)
    ensures t.None? <==> !Truthy(QueryToken(cfg, req)) && CookieToken(cfg, req, canonical).None?
    ensures t.Some? ==> t == QueryToken(cfg, req) || t == CookieToken(cfg, req, canonical)
  {
    Or(QueryToken(cfg, req), CookieToken(cfg, req, canonical))
  }

  /**
   * `if not protected_path`: the canonical path the request falls under, when
   * it is a truthy string. A hit on a route whose canonical path is empty
   * counts as no hit.
   */
  function ProtectedPath(order: seq<Route>, req: Request, eval: Oracle): (r: Option<string>)
    ensures r.None? <==> FindProtected(order, req.path, eval).None? || FindProtected(order, req.path, eval) == Some("")
    ensures r.Some? ==> r == FindProtected(order, req.path, eval) && r.value != ""
  {
    var pp := FindProtected(order, req.path, eval);
    if Truthy(pp) then pp else None
  }

  /**
   * When no registered route has an empty canonical path, whether a request
   * goes through unchecked is the same for every enumeration of the registry.
   */
  lemma UnguardedIndependentOfOrder(o1: seq<Route>, o2: seq<Route>, reg: Registry, req: Request, eval: Oracle)
    requires Enumerates(o1, reg) && Enumerates(o2, reg)
    requires forall r :: r in reg ==> Canonical(r) != ""
    ensures ProtectedPath(o1, req, eval).None? <==> ProtectedPath(o2, req, eval).None?
  {
    ProtectionIndependentOfOrder(o1, o2, reg, req.path, eval);
    if FindProtected(o1, req.path, eval).Some? {
      var i :| FirstProtecting(o1, req.path, eval, i) && FindProtected(o1, req.path, eval).value == Canonical(o1[i]);
      assert o1[i] in reg;
    }
    if FindProtected(o2, req.path, eval).Some? {
      var i :| FirstProtecting(o2, req.path, eval, i) && FindProtected(o2, req.path, eval).value == Canonical(o2[i]);
      assert o2[i] in reg;
    }
  }

  /** The token step of `__call__`, for a request that falls under `canonical`. */
  function Decide(cfg: Config, canonical: string, store: Store, req: Request, now: int): (o: Outcome)
    ensures o.response != PassThrough(None) && |o.events| == 1
    ensures o.response.Denied? ==> o.store == store && o.events == [AccessDenied(req.path, o.response.reason)]
    ensures o.store != store ==> o.events[0].AccessGranted?
  {
    var user := PresentedToken(cfg, req, canonical);
    if user.None? then
      Outcome(Denied(NoToken, Deny(cfg, NoToken, req.path)), [AccessDenied(req.path, NoToken)], store)
    else if !AnyAccepts(store, user.value, canonical, now) then
      Outcome(Denied(InvalidToken, Deny(cfg, InvalidToken, req.path)), [AccessDenied(req.path, InvalidToken)], store)
    else
      var updated := RecordAccess(store, user.value, canonical, now);
      var granted := AccessGranted(GrantedToken(store, user.value, canonical, now), canonical);
      var cookie := Cookie(CookieKey(cfg, canonical), user.value, CookiePath(canonical));
      if Truthy(QueryToken(cfg, req)) then
        Outcome(Redirect(req.path, RemoveKey(req.query, TokenParam(cfg).value), cookie), [granted], updated)
      else
        Outcome(PassThrough(Some(cookie)), [granted], updated)
  }

  /**
   * `__call__`: the response, the signals sent and the token table afterwards.
   * Both clock reads of the request are the same instant `now`.
   */
  function Handle(cfg: Config, order: seq<Route>, eval: Oracle, store: Store, req: Request, now: int): (o: Outcome)
    ensures ProtectedPath(order, req, eval).None? <==> o.response == PassThrough(None)
    ensures |o.events| == (if ProtectedPath(order, req, eval).None? then 0 else 1)
    ensures o.response.Denied? ==> o.store == store && o.events == [AccessDenied(req.path, o.response.reason)]
    ensures o.store != store ==> |o.events| == 1 && o.events[0].AccessGranted?
  {
    match ProtectedPath(order, req, eval)
    case None => Outcome(PassThrough(None), [], store)
    case Some(canonical) => Decide(cfg, canonical, store, req, now)
  }

  // ---- `__call__` as written ----

  /** How `__call__` as written ends: with a response, or with an exception escaping it. */
  datatype Ending = Responds(response: Response) | Raises(error: SettingError)

  /** The ending, the signals sent before it, and the token table afterwards. */
  datatype WrittenOutcome = WrittenOutcome(ending: Ending, events: seq<Event>, store: Store)

  /** `return self._deny(request, reason)` as written: the signal is already sent when the lookup raises. */
  function DenyEnding(cfg: Config, reason: DenyReason, path: string): (e: Ending)
    ensures e.Raises? ==> e.error in {KeyError(FORBIDDEN_HANDLER), KeyError(FORBIDDEN_TEMPLATE)}
    ensures e.Responds? ==> e.response.Denied? && e.response.reason == reason
    ensures FORBIDDEN_HANDLER in Overrides(cfg) && TruthyValue(Overrides(cfg)[FORBIDDEN_HANDLER])
            ==> e == Responds(Denied(reason, FromHandler(Overrides(cfg)[FORBIDDEN_HANDLER], path)))
  {
    match DenyAsWritten(cfg, reason, path)
    case Ok(b) => Responds(Denied(reason, b))
    case Err(e) => Raises(e)
  }

  /**
   * The token step as written: `_deny` reads the two denial settings through
   * `get_setting`, and the `access_granted` payload is `db_token.first()`
   * evaluated after the update.
   */
  function DecideAsWritten(cfg: Config, canonical: string, store: Store, req: Request, now: int): (o: WrittenOutcome)
    ensures |o.events| == 1
    ensures o.events[0].AccessDenied? ==> o.store == store && o.events[0].path == req.path
    ensures o.ending.Raises? ==> o.events[0].AccessDenied?
                                 && (o.ending.error == KeyError(FORBIDDEN_HANDLER) || o.ending.error == KeyError(FORBIDDEN_TEMPLATE))
  {
    var user := PresentedToken(cfg, req, canonical);
    if user.None? then
      WrittenOutcome(DenyEnding(cfg, NoToken, req.path), [AccessDenied(req.path, NoToken)], store)
    else if !AnyAccepts(store, user.value, canonical, now) then
      WrittenOutcome(DenyEnding(cfg, InvalidToken, req.path), [AccessDenied(req.path, InvalidToken)], store)
    else
      var updated := RecordAccess(store, user.value, canonical, now);
      var granted := AccessGranted(GrantedTokenAsWritten(store, user.value, canonical, now), canonical);
      var cookie := Cookie(CookieKey(cfg, canonical), user.value, CookiePath(canonical));
      if Truthy(QueryToken(cfg, req)) then
        WrittenOutcome(Responds(Redirect(req.path, RemoveKey(req.query, TokenParam(cfg).value), cookie)), [granted], updated)
      else
        WrittenOutcome(Responds(PassThrough(Some(cookie))), [granted], updated)
  }

  /** `__call__` exactly as written. */
  function HandleAsWritten(cfg: Config, order: seq<Route>, eval: Oracle, store: Store, req: Request, now: int)
    : (o: WrittenOutcome)
    ensures ProtectedPath(order, req, eval).None? <==> o == WrittenOutcome(Responds(PassThrough(None)), [], store)
    ensures ProtectedPath(order, req, eval).Some? ==>
              o == DecideAsWritten(cfg, ProtectedPath(order, req, eval).value, store, req, now)
  {
    match ProtectedPath(order, req, eval)
    case None => WrittenOutcome(Responds(PassThrough(None)), [], store)
    case Some(canonical) => DecideAsWritten(cfg, canonical, store, req, now)
  }

  /**
   * Wherever the token step as written answers, the model gives the same
   * response; the table afterwards is always the same, and so are the signals,
   * except that the written `access_granted` payload can be `None`.
   */
  lemma DecideAgreesWhereWrittenAnswers(cfg: Config, canonical: string, store: Store, req: Request, now: int)
    requires UniqueTokens(store)
    ensures var w := DecideAsWritten(cfg, canonical, store, req, now);
            var o := Decide(cfg, canonical, store, req, now);
      && w.store == o.store
      && (w.ending.Responds? ==> w.ending.response == o.response)
      && (w.ending.Raises? ==> o.response.Denied?)
      && (w.events == o.events || (o.events[0].AccessGranted? && w.events == [AccessGranted(None, o.events[0].path)]))
  {
    var user := PresentedToken(cfg, req, canonical);
    if user.None? {
      if DenyAsWritten(cfg, NoToken, req.path).Ok? {
        DenyAgreesWhereWrittenAnswers(cfg, NoToken, req.path);
      }
    } else if !AnyAccepts(store, user.value, canonical, now) {
      if DenyAsWritten(cfg, InvalidToken, req.path).Ok? {
        DenyAgreesWhereWrittenAnswers(cfg, InvalidToken, req.path);
      }
    } else {
      var k := FirstAccepting(store, user.value, canonical, now).value;
      PayloadLostIffLastUse(store, user.value, canonical, now, k);
    }
  }

  /** `DecideAgreesWhereWrittenAnswers` for whole requests: both share the `if not protected_path` guard. */
  lemma HandleAgreesWhereWrittenAnswers(cfg: Config, order: seq<Route>, eval: Oracle, store: Store, req: Request, now: int)
    requires UniqueTokens(store)
    ensures var w := HandleAsWritten(cfg, order, eval, store, req, now);
            var o := Handle(cfg, order, eval, store, req, now);
      && w.store == o.store
      && (w.ending.Responds? ==> w.ending.response == o.response)
      && (w.ending.Raises? ==> o.response.Denied?)
      && (w.events == o.events || (|o.events| == 1 && o.events[0].AccessGranted? && w.events == [AccessGranted(None, o.events[0].path)]))
  {
    if ProtectedPath(order, req, eval).Some? {
      DecideAgreesWhereWrittenAnswers(cfg, ProtectedPath(order, req, eval).value, store, req, now);
    }
  }

  /**
   * Under the default settings the code as written sends `access_denied` and
   * then raises `KeyError('FORBIDDEN_HANDLER')` wherever the model denies.
   */
  lemma DefaultSettingsDenialsRaise(debug: bool, canonical: string, store: Store, req: Request, now: int)
    requires Decide(Config(debug, None), canonical, store, req, now).response.Denied?
    ensures DecideAsWritten(Config(debug, None), canonical, store, req, now).ending == Raises(KeyError(FORBIDDEN_HANDLER))
    ensures DecideAsWritten(Config(debug, None), canonical, store, req, now).events
         == Decide(Config(debug, None), canonical, store, req, now).events
  {
    DefaultDenialRaises(debug, NoToken, req.path);
    DefaultDenialRaises(debug, InvalidToken, req.path);
  }

  // ---- properties of the decision ----

  /** An unprotected request goes to `get_response` untouched: no token check, no signal, no write. */
  lemma UnprotectedPassesThrough(cfg: Config, order: seq<Route>, eval: Oracle, store: Store, req: Request, now: int)
    requires ProtectedPath(order, req, eval).None?
    ensures Handle(cfg, order, eval, store, req, now) == Outcome(PassThrough(None), [], store)
  {
  }

  /** A protected request is answered by the token step for its canonical path alone. */
  lemma ProtectedRequestIsDecided(cfg: Config, order: seq<Route>, eval: Oracle, store: Store, req: Request, now: int,
                                  canonical: string)
    requires ProtectedPath(order, req, eval) == Some(canonical)
    ensures Handle(cfg, order, eval, store, req, now) == Decide(cfg, canonical, store, req, now)
  {
  }

  // The lemmas below are about the token step; `ProtectedRequestIsDecided`
  // carries each of them over to every request that falls under `canonical`.

  /** Neither query token nor cookie: denied `no_token`, with one signal and no write. */
  lemma NoTokenDenied(cfg: Config, canonical: string, store: Store, req: Request, now: int)
    requires QueryToken(cfg, req).None? && CookieToken(cfg, req, canonical).None?
    ensures Decide(cfg, canonical, store, req, now)
         == Outcome(Denied(NoToken, Deny(cfg, NoToken, req.path)), [AccessDenied(req.path, NoToken)], store)
  {
  }

  /** A presented value that no record accepts is denied `invalid_token`, with one signal and no write. */
  lemma InvalidTokenDenied(cfg: Config, canonical: string, store: Store, req: Request, now: int, value: string)
    requires PresentedToken(cfg, req, canonical) == Some(value)
    requires !AnyAccepts(store, value, canonical, now)
    ensures Decide(cfg, canonical, store, req, now)
         == Outcome(Denied(InvalidToken, Deny(cfg, InvalidToken, req.path)), [AccessDenied(req.path, InvalidToken)], store)
  {
  }

  /**
   * Once a value is presented, access is granted exactly when some record
   * accepts it for the canonical path; otherwise the denial is `invalid_token`.
   */
  lemma GrantIffAccepted(cfg: Config, canonical: string, store: Store, req: Request, now: int, value: string)
    requires PresentedToken(cfg, req, canonical) == Some(value)
    ensures var o := Decide(cfg, canonical, store, req, now);
      && (!o.response.Denied? <==> AnyAccepts(store, value, canonical, now))
      && (o.response.Denied? ==> o.response.reason == InvalidToken)
      && (!o.response.Denied? ==> o.store == RecordAccess(store, value, canonical, now))
  {
  }

  /** A grant changes exactly one record, and only its two access columns. */
  lemma GrantRecordsOneAccess(cfg: Config, canonical: string, store: Store, req: Request, now: int)
    requires UniqueTokens(store)
    requires !Decide(cfg, canonical, store, req, now).response.Denied?
    ensures var s := Decide(cfg, canonical, store, req, now).store;
      |s| == |store| &&
      exists k :: 0 <= k < |store| && s[k] == Touched(store[k], now) &&
        forall i :: 0 <= i < |store| && i != k ==> s[i] == store[i]
  {
    var value := PresentedToken(cfg, req, canonical).value;
    ExactlyOneRowChanges(store, value, canonical, now);
  }

  /**
   * An accepted query token redirects to the request path with every
   * occurrence of the token parameter removed and every other parameter kept,
   * and sets the cookie to the presented value.
   */
  lemma QueryTokenRedirects(cfg: Config, canonical: string, store: Store, req: Request, now: int,
                            param: string, value: string)
    requires TokenParam(cfg) == Some(param) && QueryGet(req.query, param) == Some(value) && value != ""
    requires AnyAccepts(store, value, canonical, now)
    ensures var o := Decide(cfg, canonical, store, req, now);
      && o.response == Redirect(req.path, RemoveKey(req.query, param), Cookie(CookieKey(cfg, canonical), value, CookiePath(canonical)))
      && QueryGet(o.response.query, param).None?
      && forall other :: other != param ==> QueryGet(o.response.query, other) == QueryGet(req.query, other)
  {
    RemovedKeyIsAbsent(req.query, param);
    forall other | other != param
      ensures QueryGet(RemoveKey(req.query, param), other) == QueryGet(req.query, other)
    {
      RemoveKeyKeepsOthers(req.query, param, other);
    }
  }

  /** An accepted cookie (with no non-empty query token) passes the request on and renews the cookie. */
  lemma CookieOnlyPassesThrough(cfg: Config, canonical: string, store: Store, req: Request, now: int, value: string)
    requires !Truthy(QueryToken(cfg, req)) && CookieToken(cfg, req, canonical) == Some(value)
    requires AnyAccepts(store, value, canonical, now)
    ensures Decide(cfg, canonical, store, req, now).response
         == PassThrough(Some(Cookie(CookieKey(cfg, canonical), value, CookiePath(canonical))))
  {
  }

  /** For the token step, a non-empty query token makes the request's cookies irrelevant. */
  lemma QueryTokenDecidesAlone(cfg: Config, canonical: string, store: Store, req: Request, now: int,
                               cookies: map<string, string>)
    requires Truthy(QueryToken(cfg, req))
    ensures Decide(cfg, canonical, store, req, now) == Decide(cfg, canonical, store, req.(cookies := cookies), now)
  {
    var req' := req.(cookies := cookies);
    assert QueryToken(cfg, req') == QueryToken(cfg, req);
    assert PresentedToken(cfg, req', canonical) == PresentedToken(cfg, req, canonical);
  }

  /** A non-empty query token is decisive: the request's cookies play no part. */
  lemma QueryTokenIgnoresCookies(cfg: Config, order: seq<Route>, eval: Oracle, store: Store, req: Request, now: int,
                                 cookies: map<string, string>)
    requires Truthy(QueryToken(cfg, req))
    ensures Handle(cfg, order, eval, store, req, now) == Handle(cfg, order, eval, store, req.(cookies := cookies), now)
  {
    var req' := req.(cookies := cookies);
    assert ProtectedPath(order, req', eval) == ProtectedPath(order, req, eval) by {
      assert req'.path == req.path;
    }
    match ProtectedPath(order, req, eval)
    case None =>
      UnprotectedPassesThrough(cfg, order, eval, store, req, now);
      UnprotectedPassesThrough(cfg, order, eval, store, req', now);
    case Some(c) =>
      ProtectedRequestIsDecided(cfg, order, eval, store, req, now, c);
      ProtectedRequestIsDecided(cfg, order, eval, store, req', now, c);
      QueryTokenDecidesAlone(cfg, c, store, req, now, cookies);
  }

  /**
   * A single-use token: the first request that presents it is let in and
   * spends it; the same request again is denied `invalid_token`.
   */
  lemma SingleUseTokenGrantsOnce(cfg: Config, req: Request, now: int, later: int, t: AccessToken)
    requires PresentedToken(cfg, req, t.path) == Some(t.token)
    requires t.isValid && t.maxUses == Some(1) && t.timesAccessed == 0 && NotExpired(t, now)
    ensures var first := Decide(cfg, t.path, [t], req, now);
      && !first.response.Denied?
      && first.store == [Touched(t, now)]
      && Decide(cfg, t.path, first.store, req, later).response == Denied(InvalidToken, Deny(cfg, InvalidToken, req.path))
  {
    SingleUseSpends(t, now, later);
    GrantIffAccepted(cfg, t.path, [t], req, now, t.token);
    InvalidTokenDenied(cfg, t.path, [Touched(t, now)], req, later, t.token);
  }
}
