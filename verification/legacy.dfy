/**
 * The superseded `django_magic_authorize` package: a registry of plain path
 * strings, a walk that registers marked includes and marked views, and a
 * middleware that protects every path starting with a registered one and
 * accepts a `token` query parameter parsed as a UUID.
 */
module Legacy {
  import opened Common
  import opened PyString
  import opened Http

  /** `register(path)`: the path, with a `/` in front when it has none. */
  function Normalize(path: string): (r: string)
    ensures StartsWith(r, "/")
    ensures StartsWith(path, "/") ==> r == path
    ensures !StartsWith(path, "/") ==> r == "/" + path
  {
    if StartsWith(path, "/") then path else "/" + path
  }

  /** Registering is idempotent on paths that already carry their `/`. */
  lemma NormalizeIdempotent(path: string)
    ensures Normalize(Normalize(path)) == Normalize(path)
  {
  }

  type Registry = set<string>

  function Register(reg: Registry, path: string): Registry {
    reg + {Normalize(path)}
  }

  /** The attribute the walk looks for on an include. */
  const RESOLVER_MARK := "_magic_authorize_protected"
  /** The attribute the walk looks for on a view. */
  const VIEW_MARK_AS_WRITTEN := "_magic_protected"
  /** The attribute `path_protect` sets on a view. */
  const PATH_PROTECT_MARK := "_magic_authorize_protected"

  /** An include (its own attributes) or a view (the attributes of its callback). */
  datatype Node =
    | Resolver(pattern: string, children: seq<Node>, attrs: set<string>)
    | View(pattern: string, callbackAttrs: set<string>)

  /** `path_protect(route, view)`: the view is marked with `_magic_authorize_protected`. */
  function PathProtect(route: string, callbackAttrs: set<string>): (n: Node)
    ensures n.View? && n.pattern == route && PATH_PROTECT_MARK in n.callbackAttrs
    ensures n.callbackAttrs - {PATH_PROTECT_MARK} == callbackAttrs - {PATH_PROTECT_MARK}
  {
    View(route, callbackAttrs + {PATH_PROTECT_MARK})
  }

  /**
   * `walk_patterns`, with the view attribute it tests as a parameter: a
   * marked include registers its full path AND is still descended into; a
   * view is registered when its callback carries `viewMark`.
   */
  function Walk(reg: Registry, nodes: seq<Node>, prefix: string, viewMark: string): Registry
    decreases nodes
  {
    if nodes == [] then reg
    else
      var reg' :=
        match nodes[0]
        case Resolver(p, kids, attrs) =>
          var inner := if RESOLVER_MARK in attrs then Register(reg, prefix + p) else reg;
          Walk(inner, kids, prefix + p, viewMark)
        case View(p, cattrs) =>
          if viewMark in cattrs then Register(reg, prefix + p) else reg;
      Walk(reg', nodes[1..], prefix, viewMark)
  }

  /** The walk as written: a view counts as marked when its callback carries `_magic_protected`. */
  function WalkAsWritten(reg: Registry, nodes: seq<Node>, prefix: string): (r: Registry)
    ensures forall path :: path in r <==> path in reg || Yields(nodes, prefix, VIEW_MARK_AS_WRITTEN, path)
  {
    assert forall path :: path in Walk(reg, nodes, prefix, VIEW_MARK_AS_WRITTEN)
                          <==> path in reg || Yields(nodes, prefix, VIEW_MARK_AS_WRITTEN, path) by {
      forall path {
        WalkAddsYields(reg, nodes, prefix, VIEW_MARK_AS_WRITTEN, path);
      }
    }
    Walk(reg, nodes, prefix, VIEW_MARK_AS_WRITTEN)
  }

  /** The walk with the view test `path_protect` satisfies. */
  function WalkCorrected(reg: Registry, nodes: seq<Node>, prefix: string): (r: Registry)
    ensures forall path :: path in r <==> path in reg || Yields(nodes, prefix, PATH_PROTECT_MARK, path)
  {
    assert forall path :: path in Walk(reg, nodes, prefix, PATH_PROTECT_MARK)
                          <==> path in reg || Yields(nodes, prefix, PATH_PROTECT_MARK, path) by {
      forall path {
        WalkAddsYields(reg, nodes, prefix, PATH_PROTECT_MARK, path);
      }
    }
    Walk(reg, nodes, prefix, PATH_PROTECT_MARK)
  }

  /** The paths a forest yields: marked includes, everything inside any include, marked views. */
  ghost predicate Yields(nodes: seq<Node>, prefix: string, viewMark: string, path: string)
    decreases nodes
  {
    nodes != [] &&
      (|| (match nodes[0]
           case Resolver(p, kids, attrs) =>
             (RESOLVER_MARK in attrs && path == Normalize(prefix + p))
             || Yields(kids, prefix + p, viewMark, path)
           case View(p, cattrs) => viewMark in cattrs && path == Normalize(prefix + p))
       || Yields(nodes[1..], prefix, viewMark, path))
  }

  /** The walk adds to the registry exactly the paths the forest yields. */
  lemma {:induction false} WalkAddsYields(reg: Registry, nodes: seq<Node>, prefix: string, viewMark: string, path: string)
    ensures path in Walk(reg, nodes, prefix, viewMark) <==> path in reg || Yields(nodes, prefix, viewMark, path)
    decreases nodes
  {
    if nodes != [] {
      match nodes[0]
      case Resolver(p, kids, attrs) =>
        var inner := if RESOLVER_MARK in attrs then Register(reg, prefix + p) else reg;
        var reg' := Walk(inner, kids, prefix + p, viewMark);
        assert Walk(reg, nodes, prefix, viewMark) == Walk(reg', nodes[1..], prefix, viewMark);
        WalkAddsYields(inner, kids, prefix + p, viewMark, path);
        WalkAddsYields(reg', nodes[1..], prefix, viewMark, path);
      case View(p, cattrs) =>
        var reg' := if viewMark in cattrs then Register(reg, prefix + p) else reg;
        assert Walk(reg, nodes, prefix, viewMark) == Walk(reg', nodes[1..], prefix, viewMark);
        WalkAddsYields(reg', nodes[1..], prefix, viewMark, path);
    }
  }

  /** Every registered path starts with `/`. */
  lemma {:induction false} WalkKeepsSlash(reg: Registry, nodes: seq<Node>, prefix: string, viewMark: string)
    requires forall p :: p in reg ==> StartsWith(p, "/")
    ensures forall p :: p in Walk(reg, nodes, prefix, viewMark) ==> StartsWith(p, "/")
  {
    forall path | path in Walk(reg, nodes, prefix, viewMark) ensures StartsWith(path, "/") {
      WalkAddsYields(reg, nodes, prefix, viewMark, path);
      if path !in reg {
        YieldedPathsHaveSlash(nodes, prefix, viewMark, path);
      }
    }
  }

  lemma {:induction false} YieldedPathsHaveSlash(nodes: seq<Node>, prefix: string, viewMark: string, path: string)
    requires Yields(nodes, prefix, viewMark, path)
    ensures StartsWith(path, "/")
    decreases nodes
  {
    match nodes[0]
    case Resolver(p, kids, attrs) =>
      if Yields(kids, prefix + p, viewMark, path) {
        YieldedPathsHaveSlash(kids, prefix + p, viewMark, path);
      } else if Yields(nodes[1..], prefix, viewMark, path) {
        YieldedPathsHaveSlash(nodes[1..], prefix, viewMark, path);
      }
    case View(p, cattrs) =>
      if Yields(nodes[1..], prefix, viewMark, path) {
        YieldedPathsHaveSlash(nodes[1..], prefix, viewMark, path);
      }
  }

  /** A marked include registers its own path and everything marked inside it. */
  lemma MarkedResolverAlsoDescended(reg: Registry, p: string, kids: seq<Node>, attrs: set<string>, prefix: string,
                                    viewMark: string, path: string)
    requires RESOLVER_MARK in attrs
    ensures var out := Walk(reg, [Resolver(p, kids, attrs)], prefix, viewMark);
      Normalize(prefix + p) in out
      && (Yields(kids, prefix + p, viewMark, path) ==> path in out)
  {
    var nodes := [Resolver(p, kids, attrs)];
    WalkAddsYields(reg, nodes, prefix, viewMark, Normalize(prefix + p));
    WalkAddsYields(reg, nodes, prefix, viewMark, path);
  }

  /** As written, a view wrapped by `path_protect` (and not otherwise marked) is never registered. */
  lemma PathProtectedViewIgnored(reg: Registry, route: string, callbackAttrs: set<string>, prefix: string)
    requires VIEW_MARK_AS_WRITTEN !in callbackAttrs
    ensures WalkAsWritten(reg, [PathProtect(route, callbackAttrs)], prefix) == reg
  {
    assert VIEW_MARK_AS_WRITTEN != PATH_PROTECT_MARK by {
      assert VIEW_MARK_AS_WRITTEN[7] != PATH_PROTECT_MARK[7];
    }
    var nodes := [PathProtect(route, callbackAttrs)];
    assert nodes[1..] == [];
    assert Walk(reg, nodes, prefix, VIEW_MARK_AS_WRITTEN) == Walk(reg, [], prefix, VIEW_MARK_AS_WRITTEN);
  }

  /** With the view test corrected, a view wrapped by `path_protect` is registered. */
  lemma PathProtectedViewRegistered(reg: Registry, route: string, callbackAttrs: set<string>, prefix: string)
    ensures WalkCorrected(reg, [PathProtect(route, callbackAttrs)], prefix) == reg + {Normalize(prefix + route)}
  {
    var nodes := [PathProtect(route, callbackAttrs)];
    var reg' := Register(reg, prefix + route);
    assert nodes[1..] == [];
    assert Walk(reg, nodes, prefix, PATH_PROTECT_MARK) == Walk(reg', [], prefix, PATH_PROTECT_MARK);
  }

  // ---- the middleware ----

  /** The first registered path (in enumeration order) that the request path starts with. */
  function FindProtected(order: seq<string>, path: string): (r: Option<string>)
    ensures r.None? <==> forall i :: 0 <= i < |order| ==> !StartsWith(path, order[i])
    ensures r.Some? ==> exists i :: 0 <= i < |order| && r.value == order[i] && StartsWith(path, order[i])
                                    && forall j :: 0 <= j < i ==> !StartsWith(path, order[j])
  {
    var b := seq(|order|, i requires 0 <= i < |order| => StartsWith(path, order[i]));
    assert forall i :: 0 <= i < |order| ==> (b[i] <==> StartsWith(path, order[i]));
    match FirstTrue(b)
    case None => None
    case Some(k) => Some(order[k])
  }

  /** There is no boundary rule: a registered `/admin` also covers `/admin-panel`. */
  lemma NoBoundaryRule(order: seq<string>, x: string)
    requires order == ["/admin"]
    ensures FindProtected(order, "/admin" + x) == Some("/admin")
  {
    assert StartsWith("/admin" + x, order[0]);
  }

  /** A row of the legacy token table, as far as the middleware reads and writes it. */
  datatype LegacyToken = LegacyToken(token: string, path: string, isValid: bool, timesAccessed: int,
                                     lastAccessed: Option<int>)

  type Store = seq<LegacyToken>

  datatype Response = PassThrough | Forbidden | Crash(error: string)

  datatype Outcome = Outcome(response: Response, store: Store)

  predicate Accepts(t: LegacyToken, value: string, path: string) {
    t.token == value && t.isValid && t.path == path
  }

  predicate AnyAccepts(store: Store, value: string, path: string) {
    exists i :: 0 <= i < |store| && Accepts(store[i], value, path)
  }

  /**
   * The access bookkeeping of the legacy middleware: every accepted row gets
   * one more access, stamped `now`; token, path and validity never change.
   */
  function RecordAccess(store: Store, value: string, path: string, now: int): (s: Store)
    ensures |s| == |store|
    ensures forall i :: 0 <= i < |store| ==>
      s[i].token == store[i].token && s[i].path == store[i].path && s[i].isValid == store[i].isValid
    ensures forall i :: 0 <= i < |store| ==>
      s[i].timesAccessed == store[i].timesAccessed + (if Accepts(store[i], value, path) then 1 else 0)
    ensures forall i :: 0 <= i < |store| ==>
      s[i].lastAccessed == (if Accepts(store[i], value, path) then Some(now) else store[i].lastAccessed)
  {
    seq(|store|, i requires 0 <= i < |store| =>
      if Accepts(store[i], value, path)
      then store[i].(timesAccessed := store[i].timesAccessed + 1, lastAccessed := Some(now))
      else store[i])
  }

  /**
   * `__call__` as written: `uuid` is never imported, so evaluating
   * `uuid.UUID(user_token)` raises `NameError`, which `except ValueError`
   * does not catch.
   */
  function HandleAsWritten(order: seq<string>, store: Store, req: Request): (o: Outcome)
    ensures o.store == store
    ensures o.response.PassThrough? <==> !Truthy(FindProtected(order, req.path))
    ensures o.response.Crash? <==> Truthy(FindProtected(order, req.path)) && QueryGet(req.query, "token").Some?
  {
    var pp := FindProtected(order, req.path);
    if !Truthy(pp) then Outcome(PassThrough, store)
    else if QueryGet(req.query, "token").None? then Outcome(Forbidden, store)
    else Outcome(Crash("NameError"), store)
  }

  /**
   * `__call__` with `uuid` available. `parse` stands for `uuid.UUID` followed
   * by the database's comparison of the UUID with the stored string: the
   * canonical form, or `None` when the value is not a UUID (`ValueError`).
   */
  function Handle(order: seq<string>, store: Store, req: Request, now: int, parse: string -> Option<string>): (o: Outcome)
    ensures !o.response.Crash?
    ensures o.response.PassThrough? <==>
      !Truthy(FindProtected(order, req.path))
      || (QueryGet(req.query, "token").Some? && parse(QueryGet(req.query, "token").value).Some?
          && AnyAccepts(store, parse(QueryGet(req.query, "token").value).value, FindProtected(order, req.path).value))
    ensures o.response.Forbidden? ==> o.store == store
    ensures !Truthy(FindProtected(order, req.path)) ==> o.store == store
    ensures Truthy(FindProtected(order, req.path)) && o.response.PassThrough?
            && QueryGet(req.query, "token").Some? && parse(QueryGet(req.query, "token").value).Some? ==>
      o.store == RecordAccess(store, parse(QueryGet(req.query, "token").value).value, FindProtected(order, req.path).value, now)
  {
    var pp := FindProtected(order, req.path);
    if !Truthy(pp) then Outcome(PassThrough, store)
    else match QueryGet(req.query, "token")
      case None => Outcome(Forbidden, store)
      case Some(user) =>
        match parse(user)
        case None => Outcome(Forbidden, store)
        case Some(u) =>
          if !AnyAccepts(store, u, pp.value) then Outcome(Forbidden, store)
          else Outcome(PassThrough, RecordAccess(store, u, pp.value, now))
  }

  /** Every protected request that carries a token crashes as written. */
  lemma TokenRequestsCrash(order: seq<string>, store: Store, req: Request)
    requires forall i :: 0 <= i < |order| ==> StartsWith(order[i], "/")
    requires FindProtected(order, req.path).Some?
    requires QueryGet(req.query, "token").Some?
    ensures HandleAsWritten(order, store, req) == Outcome(Crash("NameError"), store)
  {
    RegisteredHitIsTruthy(order, req.path);
  }

  /** Wherever the written middleware answers, the corrected one answers the same. */
  lemma HandleAgreesWhereWrittenAnswers(order: seq<string>, store: Store, req: Request, now: int,
                                        parse: string -> Option<string>)
    requires !HandleAsWritten(order, store, req).response.Crash?
    ensures Handle(order, store, req, now, parse) == HandleAsWritten(order, store, req)
  {
  }

  /** Registered paths always begin with `/`, so the first hit is always truthy. */
  lemma RegisteredHitIsTruthy(order: seq<string>, path: string)
    requires forall i :: 0 <= i < |order| ==> StartsWith(order[i], "/")
    requires FindProtected(order, path).Some?
    ensures Truthy(FindProtected(order, path))
  {
  }

  /** The legacy middleware has no use limit: a request it lets through, it lets through again. */
  lemma NoUseLimit(order: seq<string>, store: Store, req: Request, now: int, later: int, parse: string -> Option<string>)
    requires Truthy(FindProtected(order, req.path))
    requires Handle(order, store, req, now, parse).response.PassThrough?
    ensures Handle(order, Handle(order, store, req, now, parse).store, req, later, parse).response.PassThrough?
  {
    var pp := FindProtected(order, req.path).value;
    var u := parse(QueryGet(req.query, "token").value).value;
    var i :| 0 <= i < |store| && Accepts(store[i], u, pp);
    var s := Handle(order, store, req, now, parse).store;
    assert Accepts(s[i], u, pp);
  }
}
