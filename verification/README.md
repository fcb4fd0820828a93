# django-magic-authorization: a Dafny model of the route-protection core

django-magic-authorization guards Django URL routes with shareable "magic
link" tokens. A route is marked protected when the URL configuration is
walked. A request whose path falls under a protected route must then carry a
valid token. The token comes either as a query parameter, which is answered
with a redirect that strips it and sets a cookie, or as that cookie on later
visits. Tokens can be revoked, can expire, and can carry a use limit. A
management command deletes expired and exhausted tokens.

This project models that core as pure Dafny functions over immutable data,
and proves what the code promises about it. It also models the older
`django_magic_authorize` package, whose middleware the repository still
ships.

| module | file | models |
|---|---|---|
| `Common` | common.dfy | `Option`, `Result`, first-true search |
| `PyString` | pystr.dfy | `lstrip`, `removeprefix`, `startswith`, `endswith`, `find`, truthiness, `or` |
| `UrlQuote` | url_quote.dfy | `urllib.parse.quote(s, safe='')`: UTF-8 (RFC 3629), then percent-encoding (section 2.1 of RFC 3986) of every byte outside the unreserved set (section 2.3 of RFC 3986); and its inverse |
| `Settings` | settings.dfy | `DEFAULTS` and `get_setting`, including its `KeyError` |
| `RoutePattern` | route_pattern.dfy | the subset of Django's route templates the middleware relies on (literals, `<int:…>`, `<str:…>`), with `RoutePattern.match` and its backtracking |
| `Registry` | registry.dfy | `MagicAuthorizationRouter.register`, `get_protected_paths`, `walk_patterns` |
| `Matcher` | matcher.dfy | the route-matching loop of the middleware |
| `Http` | http.dfy | the query string as an ordered list of pairs: `QueryDict.get` (last value wins) and `pop` (every occurrence) |
| `Tokens` | tokens.dfy | the `AccessToken` row, the validity filter, the access-count update and the `access_granted` payload |
| `Cleanup` | cleanup.dfy | the `cleanup_expired_tokens` command |
| `Middleware` | middleware.dfy | `MagicAuthorizationMiddleware.__call__` and `_deny` |
| `Legacy` | legacy.dfy | `django_magic_authorize`: its router, walk, `path_protect` marker and middleware |
| `Scenarios` | scenarios.dfy | concrete routes, paths and cookie names taken from the repository's tests |

Modelling choices:
- The registry is a Python `set`, so its iteration order is arbitrary. The model takes that order as an input: a sequence that enumerates the set. `Matcher.ProtectionIndependentOfOrder` shows that whether SOME route matches a path does not depend on the order. The guard `if not protected_path` does depend on it when a route has the empty canonical path (see the notes under "## Findings"); `Middleware.UnguardedIndependentOfOrder` shows it does not otherwise.
- A `protect_fn` predicate is an identifier. An oracle maps it and the captured keyword arguments to `Returned(truthy)` or `Raised`.
- `timezone.now()` is an input `now`. The middleware reads the clock twice, at lines 146 and 159. The model uses one instant for both.
- Django settings are a `Config`: a `debug` flag and an optional `MAGIC_AUTHORIZATION` mapping. `debug` is the value `DEBUG` had when settings.py was first imported, because `DEFAULTS` is built once at import (tests/test_settings.py:35 relies on this). A later `override_settings(DEBUG=…)` changes Django's `DEBUG` but not `debug`, so the default of `COOKIE_SECURE` stays as it was at import.
- A setting value is a `Str`, `Bool`, `Int` or `Null`. The f-string that builds the cookie name renders it as Python would.
- A `TOKEN_PARAM` that is not a string is never a key of the query, so it yields no query token.
- `models.py` declares no `expires_at` or `max_uses`, yet the middleware and the cleanup command filter on both. The token record carries them as optional fields.
- Signals are events in the outcome (`AccessDenied`, `AccessGranted`). The database is the list of `AccessToken` rows.
- The response that `get_response` would produce is `PassThrough`. It carries the cookie the middleware sets on it, if any.

## Model

| member | source | states |
|---|---|---|
| Common.FirstTrue | src/django_magic_authorization/middleware.py:107-130 | the first index whose verdict holds, or none exactly when no verdict holds: the "first hit wins, then `break`" shape of the matching loop |
| PyString.LStrip | src/django_magic_authorization/middleware.py:108 | the result is a suffix of the input, does not start with the character, and everything removed was that character |
| PyString.RemovePrefix | src/django_magic_authorization/middleware.py:108 | when the prefix is present the input is the prefix followed by the result; when it is absent the input comes back unchanged |
| PyString.Find | src/django_magic_authorization/middleware.py:181 | -1 exactly when the character is absent; otherwise the index of its first occurrence |
| PyString.Or | src/django_magic_authorization/middleware.py:140 | `a or b` gives back one of its operands; it is truthy exactly when either operand is, and a truthy left operand is returned unchanged |
| UrlQuote.Quote | src/django_magic_authorization/middleware.py:136 | `quote(…, safe='')` produces only unreserved characters and `%` |
| UrlQuote.QuoteByte | src/django_magic_authorization/middleware.py:136 | a byte stays one character exactly when it is unreserved; otherwise it becomes a `%` escape |
| UrlQuote.UnquoteQuote | src/django_magic_authorization/middleware.py:136 | decoding the quoted text gives back the original string, for every string |
| UrlQuote.UnquoteQuoteBytes | src/django_magic_authorization/middleware.py:136 | percent-decoding undoes percent-encoding on every byte sequence |
| UrlQuote.Utf8RoundTrip | src/django_magic_authorization/middleware.py:136 | UTF-8 decoding undoes UTF-8 encoding on every string |
| UrlQuote.QuoteInjective | src/django_magic_authorization/middleware.py:136 | two paths quote to the same text if and only if they are equal |
| UrlQuote.QuoteKeepsUnreserved | src/django_magic_authorization/middleware.py:136 | text made only of unreserved characters is left as it is |
| UrlQuote.QuoteAppend | src/django_magic_authorization/middleware.py:136 | quoting distributes over concatenation |
| UrlQuote.QuoteSlash | src/django_magic_authorization/middleware.py:136 | `/` is quoted to `%2F`, since the safe set is empty |
| Settings.GetSetting | src/django_magic_authorization/settings.py:13-17 | the lookup behaves as indexing `DEFAULTS` overlaid with `MAGIC_AUTHORIZATION` (`{**DEFAULTS, **user}`): it succeeds exactly for the names of the merged mapping, with the merged value, and otherwise raises `KeyError` with that name |
| Settings.Setting | src/django_magic_authorization/settings.py:13-17 | for a name that has a default, the lookup never raises and yields this value |
| Settings.OverrideWins | src/django_magic_authorization/settings.py:15-16 | a name present in `MAGIC_AUTHORIZATION` is read from there, whatever the defaults |
| Settings.DefaultValues | src/django_magic_authorization/settings.py:3-10 | without overrides: secure is `not DEBUG` as read at import, max age 31536000, samesite `lax`, httponly on, prefix `django_magic_authorization_`, parameter `token` |
| Settings.MissingMappingIsEmpty | src/django_magic_authorization/settings.py:14 | an absent `MAGIC_AUTHORIZATION` behaves as an empty mapping |
| Settings.TableNamesNeverRaise | src/django_magic_authorization/settings.py:3-17 | the six names in the defaults table never raise, whatever the configuration |
| Settings.DenialSettingsNeedOverride | src/django_magic_authorization/settings.py:3-17 | `FORBIDDEN_HANDLER` and `FORBIDDEN_TEMPLATE` raise exactly when they are not overridden |
| Settings.Decimal | src/django_magic_authorization/middleware.py:136 | `str(n)` for a natural number: non-empty digits that `int` reads back as `n`, with no leading zero except in `"0"` |
| Settings.Format | src/django_magic_authorization/middleware.py:136 | the f-string rendering of an integer setting: a minus sign exactly when it is negative, then digits that read back as its magnitude |
| RoutePattern.MatchPrefix | src/django_magic_authorization/middleware.py:109 | `pattern.match` on the unprefixed path: a success never leaves more text than it was given |
| RoutePattern.TryCapture | src/django_magic_authorization/middleware.py:109 | the backtracking over capture lengths for a leading parameter: a success consumes at least one character |
| RoutePattern.MatchPrefixSound | src/django_magic_authorization/middleware.py:109-112 | whenever `match` succeeds, the consumed text is an instance of the template, the remainder is what follows it, and the captured names are the template's parameters |
| RoutePattern.MatchPrefixComplete | src/django_magic_authorization/middleware.py:109-112 | if some prefix of the text is an instance of the template, `match` succeeds |
| RoutePattern.MatchIffInstance | src/django_magic_authorization/middleware.py:109-112 | `match` succeeds if and only if some prefix of the text is an instance of the template |
| RoutePattern.TryCaptureSound | src/django_magic_authorization/middleware.py:109 | a capture found by backtracking from the longest run is sound |
| RoutePattern.TryCaptureFinds | src/django_magic_authorization/middleware.py:109 | backtracking never misses a capture length that would let the rest of the template match |
| RoutePattern.StaticMatch | src/django_magic_authorization/middleware.py:109-112 | for a template without parameters, `match` is `startswith` on its text, and the remainder is what follows |
| RoutePattern.TextSplitsAtFirstParam | src/django_magic_authorization/middleware.py:181-185 | a template's text is its leading literal followed by nothing or by `<` |
| RoutePattern.InstanceStartsWithLeadingLiteral | src/django_magic_authorization/middleware.py:109 | every instance of a template starts with its leading literal |
| RoutePattern.MatchStartsWithLeadingLiteral | src/django_magic_authorization/middleware.py:109 | any text the template matches starts with the template's leading literal |
| Registry.Register | src/django_magic_authorization/middleware.py:31-32 | the route is in the registry afterwards, and at most that one entry was added |
| Registry.RegisterIdempotent | src/django_magic_authorization/middleware.py:31-32 | registering the same route twice is the same as registering it once |
| Registry.ProtectedPaths | src/django_magic_authorization/middleware.py:34-35 | one listed path per route: the prefix followed by the template text |
| Registry.WalkPatterns | src/django_magic_authorization/middleware.py:46-65 | the walk only adds to the registry, and every route it adds carries a prefix that extends the one it started from |
| Registry.WalkAddsYields | src/django_magic_authorization/middleware.py:46-65 | after the walk, a route is registered if and only if it was before or the URL tree yields it: a marked include registers itself and is not descended, an unmarked include is descended with its prefix extended, a marked view registers itself |
| Registry.YieldsAppend | src/django_magic_authorization/middleware.py:46 | the routes yielded by two lists of URL entries are the union of those each yields |
| Registry.WalkOrderIrrelevant | src/django_magic_authorization/middleware.py:46-65 | the registry the walk builds does not depend on the order of the URL entries |
| Registry.YieldedPrefixesExtend | src/django_magic_authorization/middleware.py:56-60 | every registered prefix extends the prefix the walk started from |
| Registry.MarkedGroupNotDescended | src/django_magic_authorization/middleware.py:49-55 | a marked include adds exactly itself; nothing beneath it is registered |
| Registry.NestedIncludes | src/django_magic_authorization/middleware.py:56-65 | a marked view two unmarked includes deep is registered under the joined prefix, and listed as `top/mid/deep/` |
| Matcher.Protects | src/django_magic_authorization/middleware.py:108-128 | a route can only protect a path that, after `lstrip` and `removeprefix`, starts with the route's leading literal |
| Matcher.FindProtected | src/django_magic_authorization/middleware.py:103-130 | no canonical path exactly when no route protects the request; otherwise the prefix plus template of the first route that does, in registry order |
| Matcher.MatchedPathIsListed | src/django_magic_authorization/middleware.py:129 | a matched canonical path is one of the paths the router lists |
| Matcher.ProtectionIndependentOfOrder | src/django_magic_authorization/middleware.py:103-107 | whether some route matches the request is the same for every iteration order of the registry set; which canonical path is reported, and so the truthiness test at line 132, can differ |
| Matcher.RaisingPredicateFailsSafe | src/django_magic_authorization/middleware.py:119-127 | a predicate that raises protects exactly the paths the route would protect without a predicate |
| Matcher.FalsyPredicateSkips | src/django_magic_authorization/middleware.py:119-122 | a predicate that returns something falsy makes its route protect nothing |
| Matcher.StaticRouteWithoutSlash | src/django_magic_authorization/middleware.py:114-116 | a literal route not ending in `/` protects `/` + its text + x if and only if x is empty or starts with `/` |
| Matcher.StaticRouteWithSlash | src/django_magic_authorization/middleware.py:114 | a literal route ending in `/` protects every path that starts with `/` + its text |
| Matcher.StaticRoutePath | src/django_magic_authorization/middleware.py:108-109 | with no prefix, the single leading slash is stripped and the literal template consumes its own text |
| Matcher.LStripOne | src/django_magic_authorization/middleware.py:108 | `lstrip("/")` removes exactly the one leading slash of a path whose next character is not a slash |
| Matcher.LiteralThenParamMatch | src/django_magic_authorization/middleware.py:109-112 | a literal then a parameter captures the whole maximal run of the parameter's class, converted by its converter |
| Matcher.RunLengthOfRun | src/django_magic_authorization/middleware.py:109 | the greedy run of a parameter's class stops exactly where the class ends |
| Matcher.RunStopsAtBoundary | src/django_magic_authorization/middleware.py:109 | no capture can reach past the first character outside the parameter's class |
| Matcher.ParamTextEnds | src/django_magic_authorization/middleware.py:114 | a template ending in a parameter does not end in `/`, so the boundary rule applies to it |
| Matcher.ParamRouteBoundary | src/django_magic_authorization/middleware.py:109-116 | `lit<param>` protects `/` + lit + a full run + x if and only if x is empty or starts with `/` |
| Matcher.AbsentPrefixStillTried | src/django_magic_authorization/middleware.py:108-109 | when the prefix is absent from the path, `removeprefix` leaves the path alone, so the template is still tried on it |
| Matcher.UnprefixedPresent | src/django_magic_authorization/middleware.py:108 | when the prefix is present after the leading slash, exactly the prefix is removed |
| Matcher.PresentPrefixRemoved | src/django_magic_authorization/middleware.py:108-116 | a literal route ending in `/` under a prefix protects every path `/` + prefix + text + x |
| Http.QueryGet | src/django_magic_authorization/middleware.py:139 | `QueryDict.get`: none exactly when the key is absent; otherwise the value of its last occurrence |
| Http.RemoveKey | src/django_magic_authorization/middleware.py:171-172 | `pop` on a copy: the pairs kept are exactly the pairs of the query with another key |
| Http.RemoveKeyAppend | src/django_magic_authorization/middleware.py:172 | removal works piecewise on a split query string |
| Http.RemoveAbsentKey | src/django_magic_authorization/middleware.py:172 | removing a key that does not occur leaves the query unchanged |
| Http.RemovedKeyIsAbsent | src/django_magic_authorization/middleware.py:172-175 | after removal the token parameter is no longer in the redirect's query |
| Http.RemoveKeyKeepsOthers | src/django_magic_authorization/middleware.py:171-175 | after removal every other parameter reads as it did before |
| Tokens.Accepts | src/django_magic_authorization/middleware.py:147-152 | both limits are strict: a row expiring at `now`, or with as many accesses as its `max_uses`, is refused; an accepted row was unexpired at every earlier instant |
| Tokens.RecordAccess | src/django_magic_authorization/middleware.py:158-160 | the update keeps every row's identity, description, creation time, token, path, validity and limits; exactly the rows the filter selects get one more access and `last_accessed` set to `now`, and every other row keeps its `last_accessed` |
| Tokens.ExactlyOneRowChanges | src/django_magic_authorization/middleware.py:147-160 | with unique token values, a successful check changes exactly one row, and only its two access columns |
| Tokens.NothingAcceptedNothingChanges | src/django_magic_authorization/middleware.py:147-160 | when no row passes the filter, the update writes nothing |
| Tokens.RecordAccessKeepsUnique | src/django_magic_authorization/models.py:11 | the update keeps token values unique |
| Tokens.UseLimitBoundsGrants | src/django_magic_authorization/middleware.py:152 | over any sequence of requests, a token with a use limit is granted at most as many times as it has uses left |
| Tokens.ExhaustedStaysExhausted | src/django_magic_authorization/middleware.py:152 | an exhausted token is never granted again, at any later instant |
| Tokens.SingleUseSpends | src/django_magic_authorization/middleware.py:147-160 | a fresh single-use token is accepted once, the update spends it, and afterwards it is accepted at no instant |
| Tokens.FirstAccepting | src/django_magic_authorization/middleware.py:165 | `.first()` on the filtered rows: none exactly when no row passes the filter; otherwise the first passing row in primary-key order |
| Tokens.GrantedTokenAsWritten | src/django_magic_authorization/middleware.py:158-167 | `db_token.first()` after the update: when present, it is an accepted row with its access recorded that still has uses left |
| Tokens.PayloadLostIffLastUse | src/django_magic_authorization/middleware.py:158-167 | with unique token values, the as-written payload is `None` if and only if the accepted row was on its last permitted use; otherwise it equals the intended payload |
| Tokens.GrantedToken | src/django_magic_authorization/middleware.py:162-167 | the `access_granted` payload is present exactly when the token validation succeeded, and is the accepted row after its access was recorded |
| Tokens.LastUsePayloadIsNone | src/django_magic_authorization/middleware.py:158-167 | on the last permitted use, the payload as written is `None`, while the intended payload is the updated row |
| Tokens.SingleUseExample | tests/test_token_limits.py:116-133 | on the single use of a `max_uses=1` token, the payload as written is `None` and the intended one is the row with one access |
| Cleanup.CleanupExpired | src/django_magic_authorization/management/commands/cleanup_expired_tokens.py:12-19 | the rows kept are exactly the undoomed ones, in order; the count reported plus the rows kept is the number of rows before |
| Cleanup.SurvivorsAreTheUndoomed | src/django_magic_authorization/management/commands/cleanup_expired_tokens.py:13-18 | a row survives if and only if it was present and is neither expired nor exhausted |
| Cleanup.Survivors | src/django_magic_authorization/management/commands/cleanup_expired_tokens.py:13-18 | the rows left by the deletion are no more than before, and none of them is expired or exhausted |
| Cleanup.SurvivorsAppend | src/django_magic_authorization/management/commands/cleanup_expired_tokens.py:13-18 | the deletion filter works row by row |
| Cleanup.DoomedIffFailsLimits | src/django_magic_authorization/management/commands/cleanup_expired_tokens.py:13-16 | a row is deleted if and only if it fails the expiry or the use-limit half of the middleware's validity filter |
| Cleanup.UnlimitedSurvives | tests/test_token_limits.py:215-226 | a row with neither expiry nor use limit is never deleted |
| Cleanup.AcceptedNeverDeleted | src/django_magic_authorization/middleware.py:147-153 | a row the middleware would accept at this instant is never deleted at this instant |
| Cleanup.DeletionIgnoresRevocationAndPath | src/django_magic_authorization/management/commands/cleanup_expired_tokens.py:13-16 | deletion does not depend on `is_valid` or the path: revoked rows are kept until they expire or run out |
| Middleware.DenyAsWritten | src/django_magic_authorization/middleware.py:79-100 | `_deny` as written raises exactly when `FORBIDDEN_HANDLER` is not overridden, or is falsy while `FORBIDDEN_TEMPLATE` is not overridden |
| Middleware.DefaultDenialRaises | src/django_magic_authorization/middleware.py:84 | with default settings, every denial raises `KeyError('FORBIDDEN_HANDLER')` |
| Middleware.OptionalSetting | src/django_magic_authorization/middleware.py:84-89 | an override is read as given; a name with neither an override nor a default reads as `None` |
| Middleware.Deny | src/django_magic_authorization/middleware.py:79-100 | a truthy handler answers; otherwise a truthy template; otherwise the message for the reason; handler and template get the request path |
| Middleware.DenyAgreesWhereWrittenAnswers | src/django_magic_authorization/middleware.py:79-100 | wherever `_deny` as written returns a response, the corrected denial returns the same one |
| Middleware.DefaultDenialMessages | src/django_magic_authorization/middleware.py:96-100 | with default settings the bodies are "Access denied: No token provided" and "Access denied: Invalid token" |
| Middleware.CookieKey | src/django_magic_authorization/middleware.py:136 | the cookie name is the rendered prefix followed by percent-encoded text that decodes back to the canonical path |
| Middleware.DefaultCookieKey | src/django_magic_authorization/middleware.py:136 | with default settings the cookie name is `django_magic_authorization_` followed by the quoted canonical path |
| Middleware.CookieKeyInjective | src/django_magic_authorization/middleware.py:136 | two protected paths share a cookie name if and only if they are the same path |
| Middleware.CookiePath | src/django_magic_authorization/middleware.py:181-185 | `/` followed by the longest prefix of the canonical path that contains no `<` |
| Middleware.CookiePathOfLiteral | src/django_magic_authorization/middleware.py:181-183 | a canonical path without `<` gives the cookie path `/` + the whole path |
| Middleware.CookiePathOfStem | src/django_magic_authorization/middleware.py:181-185 | a stem without `<`, followed by nothing or by a parameter, gives the cookie path `/` + stem |
| Middleware.CookiePathOfRoute | src/django_magic_authorization/middleware.py:181-185 | the cookie path of a route is `/`, its prefix and the leading literal of its template |
| Middleware.CookieCoversProtectedRequests | src/django_magic_authorization/middleware.py:108-129 | the cookie path is a prefix of every protected request path that carries the route's prefix, so the browser sends the cookie back to the route's other pages there; a protected path without the prefix is not covered (`Scenarios.BareSecretCookieMissed`) |
| Middleware.PresentedToken | src/django_magic_authorization/middleware.py:138-141 | the `user_token is None` test holds exactly when the query token is falsy and no cookie is stored under the route's key; any token presented is the query token or that cookie |
| Middleware.Decide | src/django_magic_authorization/middleware.py:136-199 | the token step with `_deny` and the `access_granted` payload corrected (see Findings): a protected request always gets one signal; a denial writes nothing and signals `access_denied` with its reason; any write is signalled as `access_granted` |
| Middleware.ProtectedPath | src/django_magic_authorization/middleware.py:132 | `if not protected_path`: no protected path exactly when no route matches or the first match has the empty canonical path; otherwise the first match, never empty |
| Middleware.UnguardedIndependentOfOrder | src/django_magic_authorization/middleware.py:103-134 | when no registered route has an empty canonical path, whether a request goes through unchecked is the same for every enumeration of the registry |
| Middleware.Handle | src/django_magic_authorization/middleware.py:102-199 | `__call__` with the corrected `_deny` and payload: an unprotected request passes through untouched with no signal; a protected one gets exactly one signal; a denial leaves the store unchanged |
| Middleware.DenyEnding | src/django_magic_authorization/middleware.py:79-100 | `_deny` as written can only raise `KeyError` for one of the two denial settings; a response is always a denial for the given reason; an overridden truthy handler always answers, with the request path |
| Middleware.DecideAsWritten | src/django_magic_authorization/middleware.py:136-199 | the token step as written: one signal always; a denial writes nothing and may end in `KeyError` for one of the two denial settings, after its `access_denied` signal |
| Middleware.HandleAsWritten | src/django_magic_authorization/middleware.py:102-199 | `__call__` as written: exactly the unguarded requests pass through untouched with no signal; every other request is the as-written token step for its canonical path |
| Middleware.DecideAgreesWhereWrittenAnswers | src/django_magic_authorization/middleware.py:79-167 | with unique token values, the token step as written and the model leave the same table and send the same signals, except a `None` grant payload; wherever the written one answers, the responses are equal; where it raises, the model denies |
| Middleware.HandleAgreesWhereWrittenAnswers | src/django_magic_authorization/middleware.py:102-199 | the same agreement for whole requests |
| Middleware.DefaultSettingsDenialsRaise | src/django_magic_authorization/middleware.py:80-84 | under default settings, wherever the model denies, the code as written sends the same `access_denied` signal and then raises `KeyError('FORBIDDEN_HANDLER')` |
| Middleware.UnprotectedPassesThrough | src/django_magic_authorization/middleware.py:132-134 | an unprotected request goes to the view with no token check, no signal and no write |
| Middleware.ProtectedRequestIsDecided | src/django_magic_authorization/middleware.py:132-199 | a request that falls under a canonical path is answered by the token step for that path, whatever the other routes; the lemmas below on that step apply to every such request |
| Middleware.NoTokenDenied | src/django_magic_authorization/middleware.py:139-143 | neither query token nor cookie: denied `no_token`, one signal, store unchanged |
| Middleware.InvalidTokenDenied | src/django_magic_authorization/middleware.py:145-155 | a presented value no row accepts: denied `invalid_token`, one signal, store unchanged |
| Middleware.GrantIffAccepted | src/django_magic_authorization/middleware.py:145-160 | once a value is presented, access is granted if and only if some row accepts it for the canonical path; a denial is then `invalid_token`; a grant records the access |
| Middleware.GrantRecordsOneAccess | src/django_magic_authorization/middleware.py:157-160 | a grant changes exactly one row, by one access at `now` |
| Middleware.QueryTokenRedirects | src/django_magic_authorization/middleware.py:169-196 | an accepted query token redirects to the request path, with every token parameter gone and the others kept, and sets the cookie |
| Middleware.CookieOnlyPassesThrough | src/django_magic_authorization/middleware.py:177-196 | an accepted cookie, with no truthy query token, lets the request through and renews the cookie |
| Middleware.QueryTokenDecidesAlone | src/django_magic_authorization/middleware.py:140 | for the token step, a truthy query token makes the request's cookies irrelevant |
| Middleware.QueryTokenIgnoresCookies | src/django_magic_authorization/middleware.py:140 | a truthy query token decides alone; the request's cookies make no difference |
| Middleware.SingleUseTokenGrantsOnce | tests/test_token_limits.py:116-133 | a `max_uses=1` token is granted on first presentation, spent, and the same request is then denied `invalid_token` |
| Legacy.Normalize | src/django_magic_authorize/middleware.py:20-22 | the result starts with `/`; a path that already does is kept, any other gets one `/` in front |
| Legacy.NormalizeIdempotent | src/django_magic_authorize/middleware.py:20-22 | normalising twice is normalising once |
| Legacy.PathProtect | src/django_magic_authorize/urls.py:16-18 | `path_protect` gives a view entry with its route and the `_magic_authorize_protected` mark, other marks unchanged |
| Legacy.WalkAsWritten | src/django_magic_authorize/middleware.py:26-42 | the walk as written registers exactly the paths the tree yields when views are marked by `_magic_protected` |
| Legacy.WalkCorrected | src/django_magic_authorize/middleware.py:26-42 | the corrected walk registers exactly the paths the tree yields when views are marked by `_magic_authorize_protected` |
| Legacy.WalkAddsYields | src/django_magic_authorize/middleware.py:26-42 | after the walk a path is registered if and only if it was before or the URL tree yields it: a marked include registers itself AND is descended; a view registers itself when its callback carries the view mark |
| Legacy.WalkKeepsSlash | src/django_magic_authorize/middleware.py:20-23 | every registered path starts with `/` |
| Legacy.YieldedPathsHaveSlash | src/django_magic_authorize/middleware.py:20-23 | every path the walk yields is normalised |
| Legacy.MarkedResolverAlsoDescended | src/django_magic_authorize/middleware.py:30-37 | a marked include registers its own joined path and everything beneath it that is marked |
| Legacy.PathProtectedViewIgnored | src/django_magic_authorize/middleware.py:40 | the walk as written registers nothing for a view wrapped by `path_protect` |
| Legacy.PathProtectedViewRegistered | src/django_magic_authorize/urls.py:16 | the walk that checks the mark `path_protect` sets registers the wrapped view's normalised path |
| Legacy.FindProtected | src/django_magic_authorize/middleware.py:58-62 | none exactly when no registered path is a prefix of the request path; otherwise the first one that is |
| Legacy.NoBoundaryRule | src/django_magic_authorize/middleware.py:60 | with `/admin` registered, every path that starts with `/admin` is protected, `/admin-panel/` included |
| Legacy.RecordAccess | src/django_magic_authorize/middleware.py:75-84 | token, path and validity of every row are kept; exactly the accepted rows get one more access and `last_accessed` set to `now`; every other row keeps its counters |
| Legacy.HandleAsWritten | src/django_magic_authorize/middleware.py:55-73 | as written: unprotected passes, protected with no `token` is forbidden, protected with a `token` crashes; nothing is written |
| Legacy.TokenRequestsCrash | src/django_magic_authorize/middleware.py:70-73 | every protected request that carries a `token` ends in `NameError` |
| Legacy.Handle | src/django_magic_authorize/middleware.py:55-85 | never crashes; passes exactly the unprotected requests and those whose `token` parses and matches a valid row for the path; a refusal or an unprotected request writes nothing; a let-through protected request adds one access to every matching row |
| Legacy.HandleAgreesWhereWrittenAnswers | src/django_magic_authorize/middleware.py:55-73 | wherever the code as written answers, the corrected handler gives the same answer |
| Legacy.RegisteredHitIsTruthy | src/django_magic_authorize/middleware.py:64 | a matched registered path is never the empty string, so the falsiness check never lets a hit through |
| Legacy.NoUseLimit | src/django_magic_authorize/middleware.py:75-85 | a token granted once is granted again: the legacy package has no use limit or expiry |
| Scenarios.ProtectedCookieKey | tests/test_middleware.py:462-473 | the route `protected/` gets the cookie `django_magic_authorization_protected%2F` |
| Scenarios.ApiSecretCookieKey | tests/test_middleware.py:279-301 | the route `secret/` under `api/v1/` gets the cookie `django_magic_authorization_api%2Fv1%2Fsecret%2F` |
| Scenarios.LiteralCookiePath | tests/test_middleware.py:475-488 | the literal route `protected/` gets the cookie path `/protected/` |
| Scenarios.BlogCookiePath | tests/test_middleware.py:510-532 | `blog/<int:year>/<str:slug>/` gets the cookie path `/blog/` |
| Scenarios.VisibilityCookiePath | tests/test_middleware.py:534-552 | `<str:visibility>/<str:post>/` gets the cookie path `/` |
| Scenarios.AdminBoundary | tests/test_middleware.py:40-82 | `admin` protects `/admin` and `/admin/users/` but not `/admin-panel/` |
| Scenarios.AdminSlashCoversBelow | tests/test_middleware.py:62-71 | `admin/` protects `/admin/panel/` |
| Scenarios.ApiPostsBoundary | tests/test_middleware.py:156-165 | `api/posts/<int:id>` protects `/api/posts/123` and `/api/posts/123/comments` but not `/api/posts/123extra` |
| Scenarios.PrefixedRoute | tests/test_middleware.py:268-277 | `secret/` registered under `api/v1/` protects `/api/v1/secret/`, and also the bare `/secret/` |
| Scenarios.BareSecretCookieMissed | src/django_magic_authorization/middleware.py:180-191 | the bare `/secret/` is protected by `secret/` under `api/v1/`, yet the cookie set for it is scoped to `/api/v1/secret/`, which `/secret/` does not start with |
| Scenarios.RootMakesGuardOrderDependent | src/django_magic_authorization/middleware.py:107-134 | with the routes `""` and `""` under `blog/` both registered, `/` passes through unchecked under one enumeration of the set and is checked against `blog/` under the other |

## Left out

- Django's URL resolver objects, `get_resolver` and `discover_protected_paths` are left out. The walk is over an explicit tree of includes and views, and the matcher takes the registry's enumeration as an input.
- Django's `RoutePattern.match` is not part of this model. In its place the model assumes a small template language of literals and the `int` (one or more digits) and `str` (one or more characters other than `/`) converters. The match is a prefix match that returns the remainder and the captured arguments. The `slug` converter is left out because no route of the package or its tests uses it. Custom converters, `path`, `uuid` and regex routes are left out too.
- Logging calls are left out. They do not change any result.
- `render_to_string`, `import_string` and the handler call are left out. A denial body records which of handler, template or message would answer, and with what path.
- `HttpResponseRedirect` and `urlencode` are left out. The redirect carries the path and the remaining query pairs, not a serialised URL.
- `set_cookie` is modelled for the name, value and path only. The max-age, httponly, secure and samesite attributes are read through `Settings.DefaultValues` and not carried into the cookie.
- Database transactions and concurrency are left out. The filter, `exists`, `update` and `first` are one atomic step on a list of rows.
- Token generation (`secrets.token_urlsafe`) is left out. Tokens are given strings.
- The admin, the app configs and the legacy package's models are not part of this model.
- The legacy `uuid.UUID` parse is a parameter `parse` of `Legacy.Handle`.
- Settings.Setting: COOKIE_PREFIX is rendered by `Format` for string, boolean, integer and `None` values only. Other Python objects cannot appear in the model.
- Middleware.CookieKey: states a round trip through `Unquote` rather than the exact quoted text. The exact text follows from `UrlQuote.Quote` and `Middleware.DefaultCookieKey`.
- Middleware.Decide: composes the corrected `_deny` (`Middleware.Deny`) and the corrected `access_granted` payload (`Tokens.GrantedToken`), not the code as written. `Middleware.DecideAsWritten` is the code as written, and `Middleware.DecideAgreesWhereWrittenAnswers` states where the two agree. The clock is one instant `now`. The source reads it at line 146 for the filter, and `update()` and `first()` run with that same filtered query set, as in the model. The only difference is the second read at line 159: the source writes that slightly later instant into `last_accessed`, where the model writes `now`.
- Middleware.Handle: composes `Middleware.Decide`, so under settings that do not set `FORBIDDEN_HANDLER` a denial answers 403 where the source raises `KeyError`, and the grant payload on a last use is the updated row where the source sends `None`. `Middleware.HandleAsWritten` is `__call__` as written, and `Middleware.HandleAgreesWhereWrittenAnswers` states where the two agree.
- RoutePattern.MatchPrefix: its own contract only bounds the remainder's length. What a match means is stated by `RoutePattern.MatchPrefixSound`, `RoutePattern.MatchPrefixComplete` and `RoutePattern.MatchIffInstance`.
- RoutePattern.TryCapture: its own contract only bounds the remainder's length. Soundness and completeness are `RoutePattern.TryCaptureSound` and `RoutePattern.TryCaptureFinds`.
- Registry.WalkPatterns: its own contract states only that the walk adds routes under the starting prefix. The exact set is `Registry.WalkAddsYields`.
- Tokens.UseLimitBoundsGrants: bounds grants of one value on one path. It says nothing about a token presented for several paths, which the filter rejects anyway.
- Legacy.HandleAsWritten: the crash is modelled as a `Crash` response. Django's 500 handling is left out.

## Findings

| source | as written | input that shows it | evidently intended | confidence | as-written member | corrected member |
|---|---|---|---|---|---|---|
| src/django_magic_authorization/middleware.py:84-89 | `_deny` reads `FORBIDDEN_HANDLER` and `FORBIDDEN_TEMPLATE` through `get_setting`, but neither name is in `DEFAULTS` | any denial under settings with no `MAGIC_AUTHORIZATION`, e.g. `GET /protected/` with `protected/` registered: `KeyError('FORBIDDEN_HANDLER')` | both are optional and default to nothing, so the plain 403 message is sent (the default-settings tests expect "No token provided") | high, not executed | Middleware.DefaultDenialRaises | Middleware.Deny |
| src/django_magic_authorize/middleware.py:70-73 | `uuid.UUID(user_token)` with no `import uuid`; the `NameError` escapes `except ValueError` | `GET /protected/?token=anything` with `/protected/` registered | parse the token as a UUID and refuse it when it does not parse | high, not executed | Legacy.TokenRequestsCrash | Legacy.Handle |
| src/django_magic_authorization/middleware.py:158-167 | `token=db_token.first()` evaluates the filtered query set after the update has spent the last use, so it no longer matches | a token with `max_uses=1` and `times_accessed=0`, presented once: the `access_granted` signal carries `token=None` | the signal carries the token that was accepted, with its updated counters | high, not executed | Tokens.LastUsePayloadIsNone | Tokens.GrantedToken |
| src/django_magic_authorize/middleware.py:40 | the walk registers a view when its callback has `_magic_protected`, but `path_protect` sets `_magic_authorize_protected` | `path_protect("private/", view)` in the root URL list: the walk registers nothing, so `/private/` is unprotected | views wrapped by `path_protect` are registered | medium, not executed | Legacy.PathProtectedViewIgnored | Legacy.PathProtectedViewRegistered |

Two further behaviours are kept as written and not listed as findings, because the code's intent is not evident from the repository:

- The root route `""` has the empty string as its canonical path, which line 132 reads as "not protected", so a protected empty route guards nothing. `Matcher.FindProtected` returns `Some("")`, and `Middleware.ProtectedPath` turns it into no protection. With a second route that also matches `/`, whether `/` is checked then depends on the set's iteration order (`Scenarios.RootMakesGuardOrderDependent`). Without empty canonical paths the guard does not depend on the order (`Middleware.UnguardedIndependentOfOrder`).
- `removeprefix` leaves the path unchanged when the prefix is absent, so a route registered under `api/v1/` also protects its template at the site root (`Matcher.AbsentPrefixStillTried`, `Scenarios.PrefixedRoute`). A token presented on the bare `/secret/` is then redirected back there with a cookie scoped to `/api/v1/secret/`. The browser does not send that cookie with `/secret/`, so the next visit without the token is denied `no_token` (`Scenarios.BareSecretCookieMissed`).
