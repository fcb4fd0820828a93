/**
 * Concrete requests and tables from the package's own test suite, restated
 * as lemmas about the model.
 */
module Scenarios {
  import opened Common
  import opened PyString
  import opened UrlQuote
  import opened Settings
  import opened RoutePattern
  import opened Registry
  import opened Matcher
  import Http
  import Tokens
  import Middleware

  lemma ProtectedUnreserved()
    ensures forall i :: 0 <= i < |"protected"| ==> UnreservedChar("protected"[i])
  {
  }

  /** One path segment of unreserved characters and its closing `/`. */
  lemma QuoteSegment(seg: string)
    requires forall i :: 0 <= i < |seg| ==> UnreservedChar(seg[i])
    ensures Quote(seg + "/") == seg + "%2F"
  {
    QuoteSlash();
    QuoteKeepsUnreserved(seg);
    QuoteAppend(seg, "/");
  }

  lemma QuoteProtected()
    ensures Quote("protected" + "/") == "protected" + "%2F"
  {
    ProtectedUnreserved();
    QuoteSegment("protected");
  }

  lemma ProtectedText()
    ensures "protected" + "/" == "protected/"
    ensures "django_magic_authorization_" + ("protected" + "%2F") == "django_magic_authorization_protected%2F"
  {
  }

  /** The cookie name the default settings give to the route `protected/`. */
  lemma ProtectedCookieKey(debug: bool)
    ensures Middleware.CookieKey(Config(debug, None), "protected/") == "django_magic_authorization_protected%2F"
  {
    Middleware.DefaultCookieKey(debug, "protected/");
    QuoteProtected();
    ProtectedText();
  }

  lemma ApiSecretUnreserved()
    ensures forall i :: 0 <= i < |"api"| ==> UnreservedChar("api"[i])
    ensures forall i :: 0 <= i < |"v1"| ==> UnreservedChar("v1"[i])
    ensures forall i :: 0 <= i < |"secret"| ==> UnreservedChar("secret"[i])
  {
  }

  /** Each `/` of a nested canonical path is quoted, so the name has no `/` left. */
  lemma QuoteApiSecret()
    ensures Quote(("api" + "/") + ("v1" + "/") + ("secret" + "/")) == ("api" + "%2F") + ("v1" + "%2F") + ("secret" + "%2F")
  {
    ApiSecretUnreserved();
    QuoteSegment("api");
    QuoteSegment("v1");
    QuoteSegment("secret");
    QuoteAppend("api" + "/", "v1" + "/");
    QuoteAppend(("api" + "/") + ("v1" + "/"), "secret" + "/");
  }

  lemma ApiSecretText()
    ensures ("api" + "/") + ("v1" + "/") + ("secret" + "/") == "api/v1/secret/"
    ensures "django_magic_authorization_" + (("api" + "%2F") + ("v1" + "%2F") + ("secret" + "%2F"))
         == "django_magic_authorization_api%2Fv1%2Fsecret%2F"
  {
  }

  /** The cookie name the default settings give to the route `secret/` under the prefix `api/v1/`. */
  lemma ApiSecretCookieKey(debug: bool)
    ensures Middleware.CookieKey(Config(debug, None), "api/v1/secret/") == "django_magic_authorization_api%2Fv1%2Fsecret%2F"
  {
    Middleware.DefaultCookieKey(debug, "api/v1/secret/");
    QuoteApiSecret();
    ApiSecretText();
  }

  lemma ProtectedHasNoParameter()
    ensures '<' !in "protected/"
  {
  }

  lemma SlashProtected()
    ensures "/" + "protected/" == "/protected/"
  {
  }

  /** A canonical path without parameters scopes its cookie to itself. */
  lemma LiteralCookiePath()
    ensures Middleware.CookiePath("protected/") == "/protected/"
  {
    ProtectedHasNoParameter();
    Middleware.CookiePathOfLiteral("protected/");
    SlashProtected();
  }

  lemma BlogStem()
    ensures Middleware.CookiePath("blog/" + "<int:year>/<str:slug>/") == "/blog/"
  {
    Middleware.CookiePathOfStem("blog/", "<int:year>/<str:slug>/");
  }

  lemma BlogText()
    ensures "blog/" + "<int:year>/<str:slug>/" == "blog/<int:year>/<str:slug>/"
  {
  }

  /** A dynamic canonical path scopes its cookie to its literal stem. */
  lemma BlogCookiePath()
    ensures Middleware.CookiePath("blog/<int:year>/<str:slug>/") == "/blog/"
  {
    BlogStem();
    BlogText();
  }

  lemma VisibilityStem()
    ensures Middleware.CookiePath("" + "<str:visibility>/<str:post>/") == "/"
  {
    Middleware.CookiePathOfStem("", "<str:visibility>/<str:post>/");
  }

  lemma VisibilityText()
    ensures "" + "<str:visibility>/<str:post>/" == "<str:visibility>/<str:post>/"
  {
  }

  /** A canonical path that opens with a parameter scopes its cookie to `/`. */
  lemma VisibilityCookiePath()
    ensures Middleware.CookiePath("<str:visibility>/<str:post>/") == "/"
  {
    VisibilityStem();
    VisibilityText();
  }

  // ---- the boundary rule, on the routes of the path-matching tests ----

  lemma AdminText()
    ensures Text([Lit("admin")]) == "admin" && !EndsWith("admin", "/")
    ensures "/" + "admin" + "-panel/" == "/admin-panel/"
    ensures "/" + "admin" + "" == "/admin"
    ensures "/" + "admin" + "/users/" == "/admin/users/"
  {
  }

  /** `admin` covers `/admin` and `/admin/users/` but not `/admin-panel/`. */
  lemma AdminBoundary(eval: Oracle)
    ensures !Protects(Route("", [Lit("admin")], None), "/admin-panel/", eval)
    ensures Protects(Route("", [Lit("admin")], None), "/admin", eval)
    ensures Protects(Route("", [Lit("admin")], None), "/admin/users/", eval)
  {
    AdminText();
    StaticRouteWithoutSlash([Lit("admin")], "-panel/", eval);
    StaticRouteWithoutSlash([Lit("admin")], "", eval);
    StaticRouteWithoutSlash([Lit("admin")], "/users/", eval);
  }

  lemma AdminSlashText()
    ensures Text([Lit("admin/")]) == "admin/" && EndsWith("admin/", "/")
    ensures "/" + "admin/" + "panel/" == "/admin/panel/"
  {
  }

  /** `admin/` covers `/admin/panel/`. */
  lemma AdminSlashCoversBelow(eval: Oracle)
    ensures Protects(Route("", [Lit("admin/")], None), "/admin/panel/", eval)
  {
    AdminSlashText();
    StaticRouteWithSlash([Lit("admin/")], "panel/", eval);
  }

  lemma DigitsAreInt()
    ensures AllInClass(IntParam("id"), "123")
  {
  }

  lemma ApiPostsExtra()
    ensures "/" + "api/posts/" + "123" + "extra" == "/api/posts/123extra"
  {
  }

  lemma ApiPostsComments()
    ensures "/" + "api/posts/" + "123" + "/comments" == "/api/posts/123/comments"
  {
  }

  lemma ApiPostsExact()
    ensures "/" + "api/posts/" + "123" + "" == "/api/posts/123"
  {
  }

  /** `api/posts/<int:id>` covers `/api/posts/123` and `/api/posts/123/comments` but not `/api/posts/123extra`. */
  lemma ApiPostsBoundary(eval: Oracle)
    ensures !Protects(Route("", [Lit("api/posts/"), IntParam("id")], None), "/api/posts/123extra", eval)
    ensures Protects(Route("", [Lit("api/posts/"), IntParam("id")], None), "/api/posts/123/comments", eval)
    ensures Protects(Route("", [Lit("api/posts/"), IntParam("id")], None), "/api/posts/123", eval)
  {
    DigitsAreInt();
    ParamRouteBoundary("api/posts/", IntParam("id"), "123", "extra", eval);
    ApiPostsExtra();
    ParamRouteBoundary("api/posts/", IntParam("id"), "123", "/comments", eval);
    ApiPostsComments();
    ParamRouteBoundary("api/posts/", IntParam("id"), "123", "", eval);
    ApiPostsExact();
  }

  lemma SecretText()
    ensures Text([Lit("secret/")]) == "secret/" && EndsWith("secret/", "/")
    ensures !StartsWith("secret/" + "", "api/v1/")
    ensures "/" + "secret/" + "" == "/secret/"
    ensures "/" + "api/v1/" + "secret/" + "" == "/api/v1/secret/"
  {
    assert ("secret/" + "")[0] != "api/v1/"[0];
  }

  /**
   * `secret/` registered under `api/v1/` covers `/api/v1/secret/`, and, since
   * an absent prefix is left in place, the bare `/secret/` as well.
   */
  lemma PrefixedRoute(eval: Oracle)
    ensures Protects(Route("api/v1/", [Lit("secret/")], None), "/api/v1/secret/", eval)
    ensures Protects(Route("api/v1/", [Lit("secret/")], None), "/secret/", eval)
  {
    SecretText();
    PresentPrefixRemoved("api/v1/", [Lit("secret/")], "", eval);
    AbsentPrefixStillTried("api/v1/", [Lit("secret/")], "", eval);
  }

  lemma ApiSecretCanonical()
    ensures Canonical(Route("api/v1/", [Lit("secret/")], None)) == "api/v1/secret/"
    ensures '<' !in "api/v1/secret/"
    ensures !StartsWith("/secret/", "/" + "api/v1/secret/")
  {
    assert Text([Lit("secret/")]) == "secret/";
    assert "/secret/"[1] != ("/" + "api/v1/secret/")[1];
  }

  /**
   * The bare `/secret/` is protected by `secret/` under `api/v1/`, but a token
   * presented there is stored in a cookie scoped to `/api/v1/secret/`, which
   * the browser does not send back with `/secret/`.
   */
  lemma BareSecretCookieMissed(eval: Oracle)
    ensures Protects(Route("api/v1/", [Lit("secret/")], None), "/secret/", eval)
    ensures Middleware.CookiePath(Canonical(Route("api/v1/", [Lit("secret/")], None))) == "/" + "api/v1/secret/"
    ensures !StartsWith("/secret/", Middleware.CookiePath(Canonical(Route("api/v1/", [Lit("secret/")], None))))
  {
    PrefixedRoute(eval);
    ApiSecretCanonical();
    Middleware.CookiePathOfLiteral("api/v1/secret/");
  }

  /** The root request `/` with either prefix: `lstrip` empties it, and `removeprefix` leaves it empty. */
  lemma RootRequestUnprefixed()
    ensures Unprefixed("/", "") == "" && Unprefixed("/", "blog/") == ""
  {
    assert LStrip("/", '/') == "";
  }

  /** The empty template at the root, and the empty template under `blog/`, both take `/`. */
  lemma BothRootsProtectSlash(eval: Oracle)
    ensures Protects(Route("", [], None), "/", eval) && Protects(Route("blog/", [], None), "/", eval)
    ensures Canonical(Route("", [], None)) == "" && Canonical(Route("blog/", [], None)) == "blog/"
  {
    RootRequestUnprefixed();
  }

  lemma RootFirst(eval: Oracle)
    ensures FindProtected([Route("", [], None), Route("blog/", [], None)], "/", eval) == Some("")
  {
    BothRootsProtectSlash(eval);
    assert Verdicts([Route("", [], None), Route("blog/", [], None)], "/", eval)[0];
  }

  lemma BlogFirst(eval: Oracle)
    ensures FindProtected([Route("blog/", [], None), Route("", [], None)], "/", eval) == Some("blog/")
  {
    BothRootsProtectSlash(eval);
    assert Verdicts([Route("blog/", [], None), Route("", [], None)], "/", eval)[0];
  }

  lemma RootRegistryEnumerations()
    ensures var reg := {Route("", [], None), Route("blog/", [], None)};
      Enumerates([Route("", [], None), Route("blog/", [], None)], reg)
      && Enumerates([Route("blog/", [], None), Route("", [], None)], reg)
  {
  }

  /**
   * The registry {`""`, `"blog/" + ""`} under its two enumerations: `/` goes
   * through unchecked when the root route comes first (its canonical path is
   * the falsy `""`), and is checked against `blog/` otherwise.
   */
  lemma RootMakesGuardOrderDependent(cfg: Config, eval: Oracle, store: Tokens.Store, req: Http.Request, now: int)
    requires req.path == "/"
    ensures var reg := {Route("", [], None), Route("blog/", [], None)};
      Enumerates([Route("", [], None), Route("blog/", [], None)], reg)
      && Enumerates([Route("blog/", [], None), Route("", [], None)], reg)
    ensures Middleware.Handle(cfg, [Route("", [], None), Route("blog/", [], None)], eval, store, req, now)
         == Middleware.Outcome(Middleware.PassThrough(None), [], store)
    ensures Middleware.Handle(cfg, [Route("blog/", [], None), Route("", [], None)], eval, store, req, now)
         == Middleware.Decide(cfg, "blog/", store, req, now)
  {
    RootRegistryEnumerations();
    var rootFirst := [Route("", [], None), Route("blog/", [], None)];
    var blogFirst := [Route("blog/", [], None), Route("", [], None)];
    RootFirst(eval);
    BlogFirst(eval);
    assert Middleware.ProtectedPath(rootFirst, req, eval).None?;
    assert Middleware.ProtectedPath(blogFirst, req, eval) == Some("blog/");
    Middleware.UnprotectedPassesThrough(cfg, rootFirst, eval, store, req, now);
    Middleware.ProtectedRequestIsDecided(cfg, blogFirst, eval, store, req, now, "blog/");
  }
}
