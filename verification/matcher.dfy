/**
 * The request-time path matcher of `MagicAuthorizationMiddleware.__call__`:
 * which registered route, if any, protects a request path, and under which
 * canonical path.
 */
module Matcher {
  import opened Common
  import opened PyString
  import opened RoutePattern
  import opened Registry

  /** What calling a `protect_fn` did: returned a value of the given truthiness, or raised. */
  datatype PredicateResult = Returned(truthy: bool) | Raised

  /** The behaviour of the project's predicates on captured arguments. */
  type Oracle = (PredicateId, Kwargs) -> PredicateResult

  /** `request.path.lstrip("/").removeprefix(prefix)`. */
  function Unprefixed(path: string, prefix: string): string {
    RemovePrefix(LStrip(path, '/'), prefix)
  }

  /**
   * The boundary rule: a template that does not end in `/` only covers the
   * path when what follows the match is empty or starts a new segment.
   */
  predicate BoundaryOk(pattern: Template, remaining: string) {
    EndsWith(Text(pattern), "/") || remaining == [] || remaining[0] == '/'
  }

  /** A route without predicate always applies; a raising predicate fails safe. */
  predicate PredicateApplies(protect: Option<PredicateId>, kwargs: Kwargs, eval: Oracle) {
    match protect
    case None => true
    case Some(f) => eval(f, kwargs) != Returned(false)
  }

  /**
   * Route `r` survives the matching, boundary and predicate steps for `path`.
   * It can only do so when the path, once stripped and unprefixed, starts
   * with the route's leading literal.
   */
  predicate Protects(r: Route, path: string, eval: Oracle)
    ensures Protects(r, path, eval) ==> StartsWith(Unprefixed(path, r.prefix), LeadingLiteral(r.pattern))
  {
    match MatchPrefix(r.pattern, Unprefixed(path, r.prefix))
    case None => false
    case Some(m) =>
      MatchStartsWithLeadingLiteral(r.pattern, Unprefixed(path, r.prefix));
      BoundaryOk(r.pattern, m.remaining) && PredicateApplies(r.protect, m.kwargs, eval)
  }

  /** Route `order[i]` protects the path and no route before it does. */
  ghost predicate FirstProtecting(order: seq<Route>, path: string, eval: Oracle, i: int) {
    0 <= i < |order| && Protects(order[i], path, eval)
    && forall j :: 0 <= j < i ==> !Protects(order[j], path, eval)
  }

  /** For each route in enumeration order, whether it protects `path`. */
  function Verdicts(order: seq<Route>, path: string, eval: Oracle): (v: seq<bool>)
    ensures |v| == |order|
    ensures forall i :: 0 <= i < |order| ==> v[i] == Protects(order[i], path, eval)
  {
    seq(|order|, i requires 0 <= i < |order| => Protects(order[i], path, eval))
  }

  /**
   * The loop over the registry: the canonical path of the first route (in
   * enumeration order) that protects `path`, or `None`.
   */
  function FindProtected(order: seq<Route>, path: string, eval: Oracle): (r: Option<string>)
    ensures r.None? <==> forall i :: 0 <= i < |order| ==> !Protects(order[i], path, eval)
    ensures r.Some? ==> exists i :: FirstProtecting(order, path, eval, i) && r.value == Canonical(order[i])
  {
    var v := Verdicts(order, path, eval);
    match FirstTrue(v)
    case None => None
    case Some(k) =>
      assert FirstProtecting(order, path, eval, k);
      Some(Canonical(order[k]))
  }

  /** The canonical path the matcher reports is one the registry lists. */
  lemma MatchedPathIsListed(order: seq<Route>, path: string, eval: Oracle)
    requires FindProtected(order, path, eval).Some?
    ensures FindProtected(order, path, eval).value in ProtectedPaths(order)
  {
    var i :| FirstProtecting(order, path, eval, i) && FindProtected(order, path, eval).value == Canonical(order[i]);
    assert ProtectedPaths(order)[i] == Canonical(order[i]);
  }

  /**
   * Whether a path is protected does not depend on the order in which the
   * registry set happens to be enumerated (only the reported canonical path can).
   */
  lemma ProtectionIndependentOfOrder(o1: seq<Route>, o2: seq<Route>, reg: Registry, path: string, eval: Oracle)
    requires Enumerates(o1, reg) && Enumerates(o2, reg)
    ensures FindProtected(o1, path, eval).Some? <==> FindProtected(o2, path, eval).Some?
  {
    if FindProtected(o1, path, eval).Some? {
      var i :| FirstProtecting(o1, path, eval, i) && FindProtected(o1, path, eval).value == Canonical(o1[i]);
      var j :| 0 <= j < |o2| && o2[j] == o1[i];
      assert Protects(o2[j], path, eval);
    }
    if FindProtected(o2, path, eval).Some? {
      var i :| FirstProtecting(o2, path, eval, i) && FindProtected(o2, path, eval).value == Canonical(o2[i]);
      var j :| 0 <= j < |o1| && o1[j] == o2[i];
      assert Protects(o1[j], path, eval);
    }
  }

  // ---- the predicate step ----

  /** A predicate that raises protects exactly what the same route without a predicate protects. */
  lemma RaisingPredicateFailsSafe(prefix: string, t: Template, f: PredicateId, path: string, eval: Oracle)
    requires forall kw :: eval(f, kw) == Raised
    ensures Protects(Route(prefix, t, Some(f)), path, eval) <==> Protects(Route(prefix, t, None), path, eval)
  {
    var mp := MatchPrefix(t, Unprefixed(path, prefix));
    if mp.Some? {
      assert eval(f, mp.value.kwargs) == Raised;
    }
  }

  /** A predicate that returns something falsy for every argument set leaves the route inert. */
  lemma FalsyPredicateSkips(prefix: string, t: Template, f: PredicateId, path: string, eval: Oracle)
    requires forall kw :: eval(f, kw) == Returned(false)
    ensures !Protects(Route(prefix, t, Some(f)), path, eval)
  {
    var mp := MatchPrefix(t, Unprefixed(path, prefix));
    if mp.Some? {
      assert eval(f, mp.value.kwargs) == Returned(false);
    }
  }

  // ---- the boundary rule on literal templates ----

  lemma LStripOne(w: string)
    requires w == [] || w[0] != '/'
    ensures LStrip("/" + w, '/') == w
  {
    assert ("/" + w)[1..] == w;
  }

  /** The path `/` + text + `x` for a literal template with no prefix. */
  lemma StaticRoutePath(t: Template, x: string)
    requires IsStatic(t) && Text(t) != [] && Text(t)[0] != '/'
    ensures Unprefixed("/" + Text(t) + x, "") == Text(t) + x
    ensures MatchPrefix(t, Text(t) + x) == Some(Match(x, map[]))
  {
    var p := Text(t);
    assert ("/" + p + x) == "/" + (p + x);
    LStripOne(p + x);
    assert StartsWith(p + x, "") && (p + x)[0..] == p + x;
    StaticMatch(t, p + x);
    assert (p + x)[..|p|] == p && (p + x)[|p|..] == x;
  }

  /**
   * A literal route that does not end in `/` covers `/p` itself and `/p/...`,
   * and nothing else that starts with `/p` (so `admin` does not cover `/admin-panel/`).
   */
  lemma StaticRouteWithoutSlash(t: Template, x: string, eval: Oracle)
    requires IsStatic(t) && Text(t) != [] && Text(t)[0] != '/' && !EndsWith(Text(t), "/")
    ensures Protects(Route("", t, None), "/" + Text(t) + x, eval) <==> x == [] || x[0] == '/'
  {
    StaticRoutePath(t, x);
  }

  /** A literal route that ends in `/` covers every path below it. */
  lemma StaticRouteWithSlash(t: Template, x: string, eval: Oracle)
    requires IsStatic(t) && Text(t) != [] && Text(t)[0] != '/' && EndsWith(Text(t), "/")
    ensures Protects(Route("", t, None), "/" + Text(t) + x, eval)
  {
    StaticRoutePath(t, x);
  }

  // ---- the boundary rule on a literal followed by one parameter ----

  /** A maximal run of class characters is captured whole. */
  lemma RunLengthOfRun(seg: Segment, d: string, r: string)
    requires seg.IsParam() && AllInClass(seg, d) && (r == [] || !InClass(seg, r[0]))
    ensures RunLength(seg, d + r) == |d|
  {
    var s := d + r;
    var k := RunLength(seg, s);
    assert forall i :: 0 <= i < |d| ==> s[i] == d[i];
    RunStopsAtBoundary(seg, d, r, k);
  }

  lemma RunStopsAtBoundary(seg: Segment, d: string, r: string, k: nat)
    requires seg.IsParam() && (r == [] || !InClass(seg, r[0]))
    ensures |d| < k <= |d + r| ==> !AllInClass(seg, (d + r)[..k])
  {
    if |d| < k <= |d + r| {
      assert (d + r)[..k][|d|] == r[0];
    }
  }

  /** `l` followed by a parameter matches `l`, a full run `d` of the parameter's class, and leaves the rest. */
  lemma LiteralThenParamMatch(l: string, seg: Segment, d: string, r: string)
    requires seg.IsParam() && d != [] && AllInClass(seg, d) && (r == [] || !InClass(seg, r[0]))
    ensures MatchPrefix([Lit(l), seg], l + d + r) == Some(Match(r, map[seg.name := Convert(seg, d)]))
  {
    var t := [Lit(l), seg];
    var s := l + d + r;
    assert s[..|l|] == l && s[|l|..] == d + r;
    assert t[1..] == [seg];
    assert MatchPrefix(t, s) == MatchPrefix([seg], d + r);
    RunLengthOfRun(seg, d, r);
    assert (d + r)[..|d|] == d && (d + r)[|d|..] == r;
    assert [seg][1..] == [];
    assert MatchPrefix([], r) == Some(Match(r, map[]));
    assert TryCapture([seg], d + r, |d|) == Some(Match(r, map[][seg.name := Convert(seg, d)]));
  }

  /** The text of a literal followed by a parameter ends with `>`, never with `/`. */
  lemma ParamTextEnds(l: string, seg: Segment)
    requires seg.IsParam()
    ensures !EndsWith(Text([Lit(l), seg]), "/")
  {
    var p := Text([Lit(l), seg]);
    assert [Lit(l), seg][1..] == [seg] && [seg][1..] == [];
    var q := SegmentText(seg);
    assert Text([seg]) == q + Text([]);
    assert p == l + q;
    assert q[|q| - 1] == '>';
    assert p[|p| - 1] == q[|q| - 1];
  }

  /**
   * A route `l<param>` (no trailing slash) covers `/l` + a full run of the
   * parameter's class + `x` exactly when `x` is empty or starts a new segment:
   * `api/posts/<int:id>` covers `/api/posts/123` and `/api/posts/123/comments`
   * but not `/api/posts/123extra`.
   */
  lemma ParamRouteBoundary(l: string, seg: Segment, d: string, x: string, eval: Oracle)
    requires l != [] && l[0] != '/'
    requires seg.IsParam() && d != [] && AllInClass(seg, d) && (x == [] || !InClass(seg, x[0]))
    ensures Protects(Route("", [Lit(l), seg], None), "/" + l + d + x, eval) <==> x == [] || x[0] == '/'
  {
    assert "/" + l + d + x == "/" + (l + d + x);
    LStripOne(l + d + x);
    assert StartsWith(l + d + x, "") && (l + d + x)[0..] == l + d + x;
    LiteralThenParamMatch(l, seg, d, x);
    ParamTextEnds(l, seg);
  }

  // ---- the prefix step ----

  /**
   * `removeprefix` leaves a path without the prefix as it is and the route is
   * still tried, so a route registered under a prefix also covers the bare
   * path of its own template.
   */
  lemma AbsentPrefixStillTried(prefix: string, t: Template, x: string, eval: Oracle)
    requires IsStatic(t) && Text(t) != [] && Text(t)[0] != '/' && EndsWith(Text(t), "/")
    requires !StartsWith(Text(t) + x, prefix)
    ensures Protects(Route(prefix, t, None), "/" + Text(t) + x, eval)
  {
    var p := Text(t);
    assert ("/" + p + x) == "/" + (p + x);
    LStripOne(p + x);
    StaticMatch(t, p + x);
    assert (p + x)[..|p|] == p && (p + x)[|p|..] == x;
  }

  /** A path of one leading `/`, the prefix and `w` loses the `/` and the prefix. */
  lemma UnprefixedPresent(prefix: string, w: string)
    requires prefix + w == [] || (prefix + w)[0] != '/'
    ensures Unprefixed("/" + prefix + w, prefix) == w
  {
    assert "/" + prefix + w == "/" + (prefix + w);
    LStripOne(prefix + w);
    assert (prefix + w)[..|prefix|] == prefix && (prefix + w)[|prefix|..] == w;
  }

  /** When the prefix is present it is removed before the template is tried. */
  lemma PresentPrefixRemoved(prefix: string, t: Template, x: string, eval: Oracle)
    requires IsStatic(t) && EndsWith(Text(t), "/")
    requires prefix + Text(t) + x == [] || (prefix + Text(t) + x)[0] != '/'
    ensures Protects(Route(prefix, t, None), "/" + prefix + Text(t) + x, eval)
  {
    var p := Text(t);
    assert prefix + p + x == prefix + (p + x);
    assert "/" + prefix + p + x == "/" + prefix + (p + x);
    UnprefixedPresent(prefix, p + x);
    StaticMatch(t, p + x);
    assert (p + x)[..|p|] == p && (p + x)[|p|..] == x;
  }
}
