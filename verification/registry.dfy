/**
 * The registry of protected routes (`MagicAuthorizationRouter`) and the walk
 * over the route tree that fills it at start-up. The process-wide singleton is
 * replaced by an explicit registry value.
 */
module Registry {
  import opened Common
  import opened PyString
  import opened RoutePattern

  /** The identity of a project-supplied `protect_fn`; what it returns is an input of the matcher. */
  datatype PredicateId = PredicateId(id: nat)

  /** One `(prefix, pattern, protect_fn)` triple. */
  datatype Route = Route(prefix: string, pattern: Template, protect: Option<PredicateId>)

  type Registry = set<Route>

  /** The path a token must name to open this route: `prefix + str(pattern)`. */
  function Canonical(r: Route): string {
    r.prefix + Text(r.pattern)
  }

  /** `register(prefix, pattern, protect_fn)`: set insertion. */
  function Register(reg: Registry, prefix: string, pattern: Template, protect: Option<PredicateId>): (r: Registry)
    ensures Route(prefix, pattern, protect) in r
    ensures reg <= r && |r - reg| <= 1
  {
    reg + {Route(prefix, pattern, protect)}
  }

  /** Registering the same triple twice is the same as registering it once. */
  lemma RegisterIdempotent(reg: Registry, prefix: string, pattern: Template, protect: Option<PredicateId>)
    ensures Register(Register(reg, prefix, pattern, protect), prefix, pattern, protect)
         == Register(reg, prefix, pattern, protect)
  {
  }

  /**
   * `get_protected_paths()`: one canonical path per entry, listed in the
   * order in which the registry set is enumerated.
   */
  function ProtectedPaths(order: seq<Route>): (r: seq<string>)
    ensures |r| == |order|
    ensures forall i :: 0 <= i < |order| ==> r[i] == order[i].prefix + Text(order[i].pattern)
  {
    if order == [] then [] else [Canonical(order[0])] + ProtectedPaths(order[1..])
  }

  /** An enumeration of a registry: each entry exactly once. */
  predicate Enumerates(order: seq<Route>, reg: Registry) {
    && (forall i :: 0 <= i < |order| ==> order[i] in reg)
    && (forall r :: r in reg ==> r in order)
    && (forall i, j :: 0 <= i < j < |order| ==> order[i] != order[j])
  }

  // ---- the route tree ----

  /** The marker `protected_path` / a protected include leaves on a node, with its optional predicate. */
  datatype Marker = Protected(protect: Option<PredicateId>)

  /** A node of the route tree: an include (with children) or a terminal view. */
  datatype RouteNode =
    | Group(pattern: Template, children: seq<RouteNode>, marker: Option<Marker>)
    | Leaf(pattern: Template, marker: Option<Marker>)

  /**
   * `walk_patterns(url_patterns, prefix)`, applied to registry `reg`: it only
   * adds routes, and every route it adds sits under `prefix`.
   */
  function WalkPatterns(reg: Registry, nodes: seq<RouteNode>, prefix: string): (r: Registry)
    ensures reg <= r
    ensures forall x :: x in r && x !in reg ==> StartsWith(x.prefix, prefix)
    decreases nodes
  {
    if nodes == [] then reg
    else
      var reg' :=
        match nodes[0]
        case Group(p, kids, Some(m)) => Register(reg, prefix, p, m.protect)
        case Group(p, kids, None) => WalkPatterns(reg, kids, prefix + Text(p))
        case Leaf(p, Some(m)) => Register(reg, prefix, p, m.protect)
        case Leaf(_, None) => reg;
      WalkPatterns(reg', nodes[1..], prefix)
  }

  /**
   * The routes a tree yields, described node by node: a marked node yields
   * itself under the current prefix, an unmarked include yields what its
   * children yield under the extended prefix, an unmarked view yields nothing.
   */
  ghost predicate Yields(nodes: seq<RouteNode>, prefix: string, r: Route)
    decreases nodes
  {
    nodes != [] &&
      (|| (match nodes[0]
           case Group(p, kids, Some(m)) => r == Route(prefix, p, m.protect)
           case Group(p, kids, None) => Yields(kids, prefix + Text(p), r)
           case Leaf(p, Some(m)) => r == Route(prefix, p, m.protect)
           case Leaf(_, None) => false)
       || Yields(nodes[1..], prefix, r))
  }

  /** The walk adds to the registry exactly the routes the tree yields. */
  lemma {:induction false} WalkAddsYields(reg: Registry, nodes: seq<RouteNode>, prefix: string, r: Route)
    ensures r in WalkPatterns(reg, nodes, prefix) <==> r in reg || Yields(nodes, prefix, r)
    decreases nodes
  {
    if nodes != [] {
      var reg' :=
        match nodes[0]
        case Group(p, kids, Some(m)) => Register(reg, prefix, p, m.protect)
        case Group(p, kids, None) => WalkPatterns(reg, kids, prefix + Text(p))
        case Leaf(p, Some(m)) => Register(reg, prefix, p, m.protect)
        case Leaf(_, None) => reg;
      assert WalkPatterns(reg, nodes, prefix) == WalkPatterns(reg', nodes[1..], prefix);
      WalkAddsYields(reg', nodes[1..], prefix, r);
      match nodes[0]
      case Group(p, kids, None) => WalkAddsYields(reg, kids, prefix + Text(p), r);
      case _ =>
    }
  }

  lemma {:induction false} YieldsAppend(a: seq<RouteNode>, b: seq<RouteNode>, prefix: string, r: Route)
    ensures Yields(a + b, prefix, r) <==> Yields(a, prefix, r) || Yields(b, prefix, r)
    decreases a
  {
    if a == [] {
      assert a + b == b;
    } else {
      assert (a + b)[0] == a[0];
      assert (a + b)[1..] == a[1..] + b;
      YieldsAppend(a[1..], b, prefix, r);
    }
  }

  /** Traversal order does not matter: walking two forests in either order gives the same registry. */
  lemma WalkOrderIrrelevant(reg: Registry, a: seq<RouteNode>, b: seq<RouteNode>, prefix: string)
    ensures WalkPatterns(reg, a + b, prefix) == WalkPatterns(reg, b + a, prefix)
  {
    forall r ensures r in WalkPatterns(reg, a + b, prefix) <==> r in WalkPatterns(reg, b + a, prefix) {
      WalkAddsYields(reg, a + b, prefix, r);
      WalkAddsYields(reg, b + a, prefix, r);
      YieldsAppend(a, b, prefix, r);
      YieldsAppend(b, a, prefix, r);
    }
  }

  /** Every route found under `prefix` carries a prefix that extends it. */
  lemma {:induction false} YieldedPrefixesExtend(nodes: seq<RouteNode>, prefix: string, r: Route)
    requires Yields(nodes, prefix, r)
    ensures StartsWith(r.prefix, prefix)
    decreases nodes
  {
    match nodes[0]
    case Group(p, kids, None) =>
      if Yields(kids, prefix + Text(p), r) {
        YieldedPrefixesExtend(kids, prefix + Text(p), r);
        assert r.prefix[..|prefix|] == (prefix + Text(p))[..|prefix|];
      } else {
        YieldedPrefixesExtend(nodes[1..], prefix, r);
      }
    case _ =>
      if Yields(nodes[1..], prefix, r) {
        YieldedPrefixesExtend(nodes[1..], prefix, r);
      }
  }

  /** A marked include is registered once, with the current prefix, and its children are not visited. */
  lemma MarkedGroupNotDescended(reg: Registry, p: Template, kids: seq<RouteNode>, m: Marker, prefix: string)
    ensures WalkPatterns(reg, [Group(p, kids, Some(m))], prefix) == reg + {Route(prefix, p, m.protect)}
  {
  }

  /** Nested includes `top/` > `mid/` > protected `deep/` register the path `top/mid/deep/`. */
  lemma NestedIncludes()
    ensures var tree := [Group([Lit("top/")], [Group([Lit("mid/")], [Leaf([Lit("deep/")], Some(Protected(None)))], None)], None)];
            var reg := WalkPatterns({}, tree, "");
            reg == {Route("top/mid/", [Lit("deep/")], None)}
            && ProtectedPaths([Route("top/mid/", [Lit("deep/")], None)]) == ["top/mid/deep/"]
  {
    var deep := [Leaf([Lit("deep/")], Some(Protected(None)))];
    var mid := [Group([Lit("mid/")], deep, None)];
    var top := [Group([Lit("top/")], mid, None)];
    assert Text([Lit("mid/")]) == "mid/";
    assert Text([Lit("top/")]) == "top/";
    assert Text([Lit("deep/")]) == "deep/";
    var found := {Route("top/mid/", [Lit("deep/")], None)};
    assert WalkPatterns({}, deep, "top/mid/") == WalkPatterns(found, [], "top/mid/") == found;
    assert "top/" + Text([Lit("mid/")]) == "top/mid/";
    assert "" + Text([Lit("top/")]) == "top/";
    assert mid[1..] == [] && top[1..] == [];
    assert WalkPatterns({}, mid, "top/") == WalkPatterns(WalkPatterns({}, deep, "top/mid/"), [], "top/") == found;
    assert WalkPatterns({}, top, "") == WalkPatterns(WalkPatterns({}, mid, "top/"), [], "") == found;
    assert Canonical(Route("top/mid/", [Lit("deep/")], None)) == "top/mid/deep/";
  }
}
