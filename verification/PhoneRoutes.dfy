/** What the phone walk rewrites: exactly the string leaves at the end of a simple route to a phone node. */
module PhoneRoutes {
  import opened Decimal
  import opened Json
  import opened LeafRewrite
  import opened PhoneTraits
  import opened Sorting
  import opened TraitPath
  import opened Wrappers

  // ----- routes: the reference -----

  /** A schema node together with the data path it applies to. */
  datatype Stop = Stop(node: NodeId, segments: seq<string>)

  /** Edges of the schema graph at a data path holding `count` items. */
  ghost predicate IsEdge(node: Schema, count: nat, e: Edge) {
    match e.ext
    case Here =>
      || e.child in node.allOf || e.child in node.anyOf || e.child in node.oneOf
      || e.child == node.notSchema || e.child == node.ifSchema || e.child == node.thenSchema || e.child == node.elseSchema
      || e.child == node.ref
    case Key(name) => name in node.properties && node.properties[name] == e.child
    case Index(i) =>
      match node.items
      case NoItems => false
      case Every(s) => i < count && e.child == s
      case Tuple(ss) => i < |ss| && e.child == ss[i]
  }

  /** Some hook of the identity extension reads the value as a phone number. */
  ghost predicate MarksPhone(node: Schema) {
    && node.extension.Some?
    && var e := node.extension.value;
       e.verificationVia == "sms" || e.recoveryVia == "sms" || (e.codeVia == "sms" && e.codeIdentifier)
  }

  ghost predicate Follows(g: Graph, traits: Json, a: Stop, b: Stop, e: Edge) {
    && a.node in g && !MarksPhone(g[a.node])
    && IsEdge(g[a.node], Count(traits, a.segments), e)
    && b == Target(a.segments, e)
  }

  /** A route repeats no schema node, avoids `stack`, and ends at its first phone node. */
  ghost predicate Route(g: Graph, traits: Json, stack: set<NodeId>, route: seq<Stop>)
    decreases |route|
  {
    && route != []
    && route[0].node in g && route[0].node !in stack
    && if |route| == 1 then MarksPhone(g[route[0].node])
       else
         && (exists e :: Follows(g, traits, route[0], route[1], e))
         && Route(g, traits, stack + {route[0].node}, route[1..])
  }

  ghost predicate ReachesLeaf(g: Graph, traits: Json, root: NodeId, route: seq<Stop>, loc: Loc) {
    && Route(g, traits, {}, route) && route[0] == Stop(root, [])
    && Locate(traits, route[|route| - 1].segments) == Some(loc)
  }

  ghost predicate PhoneLoc(g: Graph, traits: Json, root: NodeId, loc: Loc) {
    exists route :: ReachesLeaf(g, traits, root, route, loc)
  }

  /** Data positions of the phone leaves reached from `root`. */
  ghost function PhoneLocs(g: Graph, traits: Json, root: NodeId): iset<Loc> {
    iset loc: Loc | PhoneLoc(g, traits, root, loc)
  }

  // ----- the paths the walk visits -----

  ghost function Target(segments: seq<string>, e: Edge): Stop {
    Stop(e.child, segments + SegmentOf(e.ext))
  }

  ghost function Visits(g: Graph, traits: Json, stack: set<NodeId>, at: Stop): set<seq<string>>
    decreases g.Keys - stack, 0, 0
  {
    if at.node !in g || at.node in stack then {}
    else if IsPhone(g[at.node]) then {at.segments}
    else
      assert at.node in g.Keys - stack;
      VisitsBelow(g, traits, stack + {at.node}, g[at.node], at.segments)
  }

  ghost function VisitsBelow(g: Graph, traits: Json, stack: set<NodeId>, schema: Schema, segments: seq<string>): set<seq<string>>
    decreases g.Keys - stack, 2, 0
  {
    var combinators, properties := CombinatorEdges(schema), PropertyEdges(schema);
    var items := ItemEdges(schema, Count(traits, segments));
    VisitsAll(g, traits, stack, combinators, |combinators|, segments)
    + VisitsAll(g, traits, stack, properties, |properties|, segments)
    + VisitsAll(g, traits, stack, items, |items|, segments)
  }

  ghost function VisitsAll(
    g: Graph, traits: Json, stack: set<NodeId>, edges: seq<Edge>, n: nat, segments: seq<string>): set<seq<string>>
    requires n <= |edges|
    decreases g.Keys - stack, 1, n
  {
    if n == 0 then {}
    else
      VisitsAll(g, traits, stack, edges, n - 1, segments) + Visits(g, traits, stack, Target(segments, edges[n - 1]))
  }

  lemma {:induction false} VisitsAllFind(
    g: Graph, traits: Json, stack: set<NodeId>, edges: seq<Edge>, n: nat, segments: seq<string>, v: seq<string>)
    returns (e: Edge)
    requires n <= |edges| && v in VisitsAll(g, traits, stack, edges, n, segments)
    ensures e in edges && v in Visits(g, traits, stack, Target(segments, e))
    decreases n
  {
    e := edges[n - 1];
    if v !in Visits(g, traits, stack, Target(segments, e)) {
      e := VisitsAllFind(g, traits, stack, edges, n - 1, segments, v);
    }
  }

  lemma VisitsAllNext(
    g: Graph, traits: Json, stack: set<NodeId>, edges: seq<Edge>, n: nat, segments: seq<string>, v: seq<string>)
    requires n < |edges|
    ensures v in VisitsAll(g, traits, stack, edges, n + 1, segments)
       <==> v in VisitsAll(g, traits, stack, edges, n, segments) || v in Visits(g, traits, stack, Target(segments, edges[n]))
  {}

  lemma VisitsAllHas(
    g: Graph, traits: Json, stack: set<NodeId>, edges: seq<Edge>, segments: seq<string>, v: seq<string>, k: nat)
    requires k < |edges| && v in Visits(g, traits, stack, Target(segments, edges[k]))
    ensures v in VisitsAll(g, traits, stack, edges, |edges|, segments)
  {
    VisitsAllNext(g, traits, stack, edges, k, segments, v);
    for n := k + 1 to |edges|
      invariant v in VisitsAll(g, traits, stack, edges, n, segments)
    {
      VisitsAllNext(g, traits, stack, edges, n, segments, v);
    }
  }

  lemma CombinatorsAre(node: Schema, c: NodeId)
    ensures c in Combinators(node) <==> IsEdge(node, 0, Edge(c, Here))
  {
    var three, five := node.allOf + node.anyOf + node.oneOf, [node.notSchema, node.ifSchema, node.thenSchema, node.elseSchema, node.ref];
    assert c in three <==> c in node.allOf || c in node.anyOf || c in node.oneOf;
    assert five[0] == node.notSchema && five[1] == node.ifSchema && five[2] == node.thenSchema;
    assert five[3] == node.elseSchema && five[4] == node.ref;
    assert Combinators(node) == three + five;
  }

  lemma CombinatorEdgesAre(node: Schema, e: Edge)
    ensures e in CombinatorEdges(node) <==> e.ext.Here? && IsEdge(node, 0, e)
  {
    CombinatorsAre(node, e.child);
    if e.ext.Here? && e.child in Combinators(node) {
      var k :| 0 <= k < |Combinators(node)| && Combinators(node)[k] == e.child;
      assert CombinatorEdges(node)[k] == e;
    }
  }

  lemma PropertyEdgesAre(node: Schema, e: Edge)
    ensures e in PropertyEdges(node)
       <==> e.ext.Key? && e.ext.name in node.properties && node.properties[e.ext.name] == e.child
  {
    StrLessStrict();
    SortedSeqSorted(StrLess, node.properties.Keys);
    var names := SortedSeq(StrLess, node.properties.Keys);
    assert forall name :: name in names <==> name in Elements(names);
    if e.ext.Key? && e.ext.name in node.properties && node.properties[e.ext.name] == e.child {
      var k :| 0 <= k < |names| && names[k] == e.ext.name;
      assert PropertyEdges(node)[k] == e;
    }
  }

  lemma ItemEdgesAre(node: Schema, count: nat, e: Edge)
    ensures e in ItemEdges(node, count) <==> e.ext.Index? && IsEdge(node, count, e)
  {
    if e.ext.Index? && IsEdge(node, count, e) { assert ItemEdges(node, count)[e.ext.i] == e; }
  }

  /** Going one edge further: what the child visits, the parent visits, and nothing else. */
  lemma VisitStep(g: Graph, traits: Json, stack: set<NodeId>, at: Stop, e: Edge, v: seq<string>)
    requires at.node in g && at.node !in stack && !IsPhone(g[at.node])
    requires IsEdge(g[at.node], Count(traits, at.segments), e)
    requires v in Visits(g, traits, stack + {at.node}, Target(at.segments, e))
    ensures v in Visits(g, traits, stack, at)
  {
    var node, st, count := g[at.node], stack + {at.node}, Count(traits, at.segments);
    CombinatorEdgesAre(node, e);
    PropertyEdgesAre(node, e);
    ItemEdgesAre(node, count, e);
    var edges := match e.ext
      case Here => CombinatorEdges(node)
      case Key(_) => PropertyEdges(node)
      case Index(_) => ItemEdges(node, count);
    var k :| 0 <= k < |edges| && edges[k] == e;
    VisitsAllHas(g, traits, st, edges, at.segments, v, k);
  }

  lemma VisitUnstep(g: Graph, traits: Json, stack: set<NodeId>, at: Stop, v: seq<string>) returns (e: Edge)
    requires at.node in g && at.node !in stack && !IsPhone(g[at.node])
    requires v in Visits(g, traits, stack, at)
    ensures Follows(g, traits, at, Target(at.segments, e), e)
    ensures v in Visits(g, traits, stack + {at.node}, Target(at.segments, e))
  {
    var node, st, count := g[at.node], stack + {at.node}, Count(traits, at.segments);
    var cs, ps, ts := CombinatorEdges(node), PropertyEdges(node), ItemEdges(node, count);
    if v in VisitsAll(g, traits, st, cs, |cs|, at.segments) {
      e := VisitsAllFind(g, traits, st, cs, |cs|, at.segments, v);
      CombinatorEdgesAre(node, e);
    } else if v in VisitsAll(g, traits, st, ps, |ps|, at.segments) {
      e := VisitsAllFind(g, traits, st, ps, |ps|, at.segments, v);
      PropertyEdgesAre(node, e);
    } else {
      e := VisitsAllFind(g, traits, st, ts, |ts|, at.segments, v);
      ItemEdgesAre(node, count, e);
    }
  }

  lemma RouteCons(g: Graph, traits: Json, stack: set<NodeId>, at: Stop, rest: seq<Stop>, e: Edge)
    requires at.node in g && at.node !in stack
    requires Route(g, traits, stack + {at.node}, rest) && Follows(g, traits, at, rest[0], e)
    ensures Route(g, traits, stack, [at] + rest)
  {
    assert ([at] + rest)[1..] == rest;
  }

  /** The walk visits a path iff a route avoiding the stack ends there. */
  lemma {:induction false} VisitHasRoute(g: Graph, traits: Json, stack: set<NodeId>, at: Stop, v: seq<string>)
      returns (route: seq<Stop>)
    requires v in Visits(g, traits, stack, at)
    ensures Route(g, traits, stack, route) && route[0] == at && route[|route| - 1].segments == v
    decreases g.Keys - stack
  {
    if IsPhone(g[at.node]) {
      route := [at];
    } else {
      var e := VisitUnstep(g, traits, stack, at, v);
      assert at.node in g.Keys - stack;
      var rest := VisitHasRoute(g, traits, stack + {at.node}, Target(at.segments, e), v);
      RouteCons(g, traits, stack, at, rest, e);
      route := [at] + rest;
    }
  }

  lemma {:induction false} RouteIsVisited(g: Graph, traits: Json, stack: set<NodeId>, route: seq<Stop>)
    requires Route(g, traits, stack, route)
    ensures route[|route| - 1].segments in Visits(g, traits, stack, route[0])
    decreases |route|
  {
    if |route| > 1 {
      var e :| Follows(g, traits, route[0], route[1], e);
      RouteIsVisited(g, traits, stack + {route[0].node}, route[1..]);
      VisitStep(g, traits, stack, route[0], e, route[|route| - 1].segments);
    }
  }

  // ----- the walk rewrites what it visits -----

  ghost function LocsOf(traits: Json, paths: set<seq<string>>): iset<Loc> {
    iset p: seq<string> | p in paths && Locate(traits, p).Some? :: Locate(traits, p).value
  }

  ghost predicate SamePlaces(a: Json, b: Json) {
    forall p :: Locate(a, p) == Locate(b, p) && Count(a, p) == Count(b, p)
  }

  lemma RewriteSamePlaces(norm: Normalizer, traits: Json, targets: iset<Loc>)
    ensures SamePlaces(Rewrite(norm, traits, targets, []), traits)
  {
    forall p ensures
      var r := Rewrite(norm, traits, targets, []);
      Locate(r, p) == Locate(traits, p) && Count(r, p) == Count(traits, p)
    {
      LocateRewrite(norm, traits, targets, p);
    }
  }

  /** The traits with every leaf addressed by one of the paths made canonical. */
  ghost function Rewritten(norm: Normalizer, traits: Json, paths: set<seq<string>>): Json {
    Rewrite(norm, traits, LocsOf(traits, paths), [])
  }

  lemma RewriteBoth(norm: Normalizer, traits: Json, before: set<seq<string>>, after: set<seq<string>>)
    requires FixesOutputs(norm)
    ensures Rewritten(norm, Rewritten(norm, traits, before), after) == Rewritten(norm, traits, before + after)
  {
    var t := Rewritten(norm, traits, before);
    RewriteSamePlaces(norm, traits, LocsOf(traits, before));
    assert LocsOf(t, after) == LocsOf(traits, after) by {
      forall p ensures Locate(t, p) == Locate(traits, p) {}
    }
    assert LocsOf(traits, before + after) == LocsOf(traits, before) + LocsOf(traits, after);
    RewriteTwice(norm, traits, LocsOf(traits, before), LocsOf(traits, after), []);
  }

  lemma {:induction false} VisitsSame(g: Graph, a: Json, b: Json, stack: set<NodeId>, at: Stop)
    requires SamePlaces(a, b)
    ensures Visits(g, a, stack, at) == Visits(g, b, stack, at)
    decreases g.Keys - stack, 0
  {
    if at.node in g && at.node !in stack && !IsPhone(g[at.node]) {
      assert at.node in g.Keys - stack;
      VisitsBelowSame(g, a, b, stack + {at.node}, g[at.node], at.segments);
    }
  }

  lemma {:induction false} VisitsBelowSame(
    g: Graph, a: Json, b: Json, stack: set<NodeId>, schema: Schema, segments: seq<string>)
    requires SamePlaces(a, b)
    ensures VisitsBelow(g, a, stack, schema, segments) == VisitsBelow(g, b, stack, schema, segments)
    decreases g.Keys - stack,
      1 + |CombinatorEdges(schema)| + |PropertyEdges(schema)| + |ItemEdges(schema, Count(a, segments))|
  {
    var cs, ps, ts := CombinatorEdges(schema), PropertyEdges(schema), ItemEdges(schema, Count(a, segments));
    VisitsAllSame(g, a, b, stack, cs, |cs|, segments);
    VisitsAllSame(g, a, b, stack, ps, |ps|, segments);
    VisitsAllSame(g, a, b, stack, ts, |ts|, segments);
  }

  lemma {:induction false} VisitsAllSame(
    g: Graph, a: Json, b: Json, stack: set<NodeId>, edges: seq<Edge>, n: nat, segments: seq<string>)
    requires n <= |edges| && SamePlaces(a, b)
    ensures VisitsAll(g, a, stack, edges, n, segments) == VisitsAll(g, b, stack, edges, n, segments)
    decreases g.Keys - stack, n
  {
    if n > 0 {
      VisitsAllSame(g, a, b, stack, edges, n - 1, segments);
      VisitsSame(g, a, b, stack, Target(segments, edges[n - 1]));
    }
  }

  lemma NormalizeIsRewrite(norm: Normalizer, traits: Json, path: string)
    ensures NormalizeAt(norm, traits, path) == Rewritten(norm, traits, {Decode(path)})
  {
    var p := Decode(path);
    var loc := Locate(traits, p);
    var targets := LocsOf(traits, {p});
    if loc.None? {
      RewriteNothing(norm, traits, targets, []);
    } else {
      assert p in {p};
      assert targets == iset{loc.value};
      var value := At(traits, loc.value).value;
      assert [] + loc.value == loc.value;
      if value.String? {
        SetStringIsRewrite(norm, traits, loc.value, []);
        if Canonical(norm, value.text) == value.text { SetSame(traits, loc.value); }
      } else {
        RewriteNonString(norm, traits, loc.value, []);
      }
    }
  }

  lemma {:induction false} SetSame(j: Json, loc: Loc)
    requires At(j, loc).Some? && At(j, loc).value.String?
    ensures SetString(j, loc, At(j, loc).value.text) == j
    decreases |loc|
  {
    if loc != [] {
      SetSame(Child(j, loc[0]), loc[1..]);
      SameByChildren(SetString(j, loc, At(j, loc).value.text), j);
    }
  }

  lemma {:induction false} RewriteNonString(norm: Normalizer, j: Json, loc: Loc, at: Loc)
    requires At(j, loc).Some? && !At(j, loc).value.String?
    ensures Rewrite(norm, j, iset{at + loc}, at) == j
    decreases j
  {
    var r := Rewrite(norm, j, iset{at + loc}, at);
    RewriteHead(norm, j, iset{at + loc}, at);
    forall i | 0 <= i < Arity(j) ensures Child(r, i) == Child(j, i) {
      if loc != [] && loc[0] == i {
        assert at + loc == at + [i] + loc[1..];
        RewriteNonString(norm, Child(j, i), loc[1..], at + [i]);
      } else {
        assert loc != [] ==> (at + loc)[|at|] == loc[0];
        RewriteNothing(norm, Child(j, i), iset{at + loc}, at + [i]);
      }
    }
    SameByChildren(r, j);
  }

  lemma EncodeStep(segments: seq<string>, ext: Ext)
    ensures PathOf(Encode(segments), ext) == Encode(segments + SegmentOf(ext))
  {
    match ext
    case Here => assert segments + [] == segments;
    case Key(name) => assert (segments + [name])[..|segments|] == segments;
    case Index(i) =>
      assert (segments + [Itoa(i)])[..|segments|] == segments;
      EscapePlain(Itoa(i));
  }

  ghost predicate EdgesHaveNames(edges: seq<Edge>) {
    forall k :: 0 <= k < |edges| ==> edges[k].ext.Key? ==> edges[k].ext.name != ""
  }

  lemma NodeEdgesHaveNames(g: Graph, n: NodeId, count: nat)
    requires NamesNonEmpty(g) && n in g
    ensures EdgesHaveNames(CombinatorEdges(g[n])) && EdgesHaveNames(PropertyEdges(g[n])) && EdgesHaveNames(ItemEdges(g[n], count))
  {
    var ps := PropertyEdges(g[n]);
    forall k | 0 <= k < |ps| ensures ps[k].ext.Key? ==> ps[k].ext.name != "" {
      PropertyEdgesAre(g[n], ps[k]);
    }
  }

  /** One more edge on traits already rewritten at `before`. */
  lemma WalkOnRewritten(
    g: Graph, norm: Normalizer, stack: set<NodeId>, at: Stop, traits: Json, before: set<seq<string>>)
    requires FixesOutputs(norm) && NamesNonEmpty(g) && NonEmpty(at.segments)
    ensures Walk(g, norm, stack, at.node, Encode(at.segments), Rewritten(norm, traits, before))
         == Rewritten(norm, traits, before + Visits(g, traits, stack, at))
    decreases g.Keys - stack, 1
  {
    var t := Rewritten(norm, traits, before);
    WalkIsRewrite(g, norm, stack, at, t);
    RewriteSamePlaces(norm, traits, LocsOf(traits, before));
    VisitsSame(g, t, traits, stack, at);
    RewriteBoth(norm, traits, before, Visits(g, traits, stack, at));
  }

  /** Walking the first `n` edges on traits rewritten at `before` adds what these edges visit. */
  ghost predicate Extends(
    g: Graph, norm: Normalizer, stack: set<NodeId>, edges: seq<Edge>, n: nat, segments: seq<string>,
    traits: Json, before: set<seq<string>>)
    requires n <= |edges|
  {
    WalkAll(g, norm, stack, edges, n, Encode(segments), Rewritten(norm, traits, before))
    == Rewritten(norm, traits, before + VisitsAll(g, traits, stack, edges, n, segments))
  }

  lemma ExtendsFirst(
    g: Graph, norm: Normalizer, stack: set<NodeId>, edges: seq<Edge>, segments: seq<string>,
    traits: Json, before: set<seq<string>>)
    ensures Extends(g, norm, stack, edges, 0, segments, traits, before)
  {
    assert before + {} == before;
  }

  lemma ExtendsNext(
    g: Graph, norm: Normalizer, stack: set<NodeId>, edges: seq<Edge>, n: nat, segments: seq<string>,
    traits: Json, before: set<seq<string>>)
    requires n < |edges| && FixesOutputs(norm) && NamesNonEmpty(g) && NonEmpty(segments) && EdgesHaveNames(edges)
    requires Extends(g, norm, stack, edges, n, segments, traits, before)
    ensures Extends(g, norm, stack, edges, n + 1, segments, traits, before)
    decreases g.Keys - stack, 2
  {
    var at, visited := Target(segments, edges[n]), VisitsAll(g, traits, stack, edges, n, segments);
    EncodeStep(segments, edges[n].ext);
    TargetNonEmpty(segments, edges[n]);
    WalkOnRewritten(g, norm, stack, at, traits, before + visited);
    UnionAssociative(before, visited, Visits(g, traits, stack, at));
  }

  lemma WalkAllOnRewritten(
    g: Graph, norm: Normalizer, stack: set<NodeId>, edges: seq<Edge>, segments: seq<string>,
    traits: Json, before: set<seq<string>>)
    requires FixesOutputs(norm) && NamesNonEmpty(g) && NonEmpty(segments) && EdgesHaveNames(edges)
    ensures Extends(g, norm, stack, edges, |edges|, segments, traits, before)
    decreases g.Keys - stack, 3
  {
    ExtendsFirst(g, norm, stack, edges, segments, traits, before);
    for k := 0 to |edges|
      invariant Extends(g, norm, stack, edges, k, segments, traits, before)
    {
      ExtendsNext(g, norm, stack, edges, k, segments, traits, before);
    }
  }

  lemma UnionAssociative(a: set<seq<string>>, b: set<seq<string>>, c: set<seq<string>>)
    ensures a + b + c == a + (b + c)
  {}

  lemma TargetNonEmpty(segments: seq<string>, e: Edge)
    requires NonEmpty(segments) && (e.ext.Key? ==> e.ext.name != "")
    ensures NonEmpty(Target(segments, e).segments)
  {}

  lemma NothingRewritten(norm: Normalizer, traits: Json)
    ensures Rewritten(norm, traits, {}) == traits
  {
    RewriteNothing(norm, traits, LocsOf(traits, {}), []);
  }

  lemma {:induction false} WalkIsRewrite(g: Graph, norm: Normalizer, stack: set<NodeId>, at: Stop, traits: Json)
    requires FixesOutputs(norm) && NamesNonEmpty(g) && NonEmpty(at.segments)
    ensures Walk(g, norm, stack, at.node, Encode(at.segments), traits)
         == Rewritten(norm, traits, Visits(g, traits, stack, at))
    decreases g.Keys - stack, 0
  {
    DecodeEncode(at.segments);
    NothingRewritten(norm, traits);
    if at.node in g && at.node !in stack {
      if IsPhone(g[at.node]) {
        NormalizeIsRewrite(norm, traits, Encode(at.segments));
      } else {
        assert at.node in g.Keys - stack;
        NodeEdgesHaveNames(g, at.node, Count(traits, at.segments));
        WalkBelowIsRewrite(g, norm, stack + {at.node}, g[at.node], at.segments, traits);
      }
    }
  }

  /** The three loops in a row. */
  lemma WalkBelowIsRewrite(g: Graph, norm: Normalizer, stack: set<NodeId>, schema: Schema, segments: seq<string>, traits: Json)
    requires FixesOutputs(norm) && NamesNonEmpty(g) && NonEmpty(segments)
    requires EdgesHaveNames(CombinatorEdges(schema)) && EdgesHaveNames(PropertyEdges(schema))
    requires EdgesHaveNames(ItemEdges(schema, Count(traits, segments)))
    ensures WalkBelow(g, norm, stack, schema, Encode(segments), traits)
         == Rewritten(norm, traits, VisitsBelow(g, traits, stack, schema, segments))
    decreases g.Keys - stack, 4
  {
    var count := Count(traits, segments);
    var cs, ps, ts := CombinatorEdges(schema), PropertyEdges(schema), ItemEdges(schema, count);
    var cv, pv := VisitsAll(g, traits, stack, cs, |cs|, segments), VisitsAll(g, traits, stack, ps, |ps|, segments);
    DecodeEncode(segments);
    NothingRewritten(norm, traits);
    assert {} + cv == cv;
    WalkAllOnRewritten(g, norm, stack, cs, segments, traits, {});
    WalkAllOnRewritten(g, norm, stack, ps, segments, traits, cv);
    RewriteSamePlaces(norm, traits, LocsOf(traits, cv + pv));
    assert Count(Rewritten(norm, traits, cv + pv), segments) == count;
    WalkAllOnRewritten(g, norm, stack, ts, segments, traits, cv + pv);
  }

  // ----- main results -----

  /** On every schema graph, cyclic ones included, the walk makes canonical exactly the string leaves
      reached by a route that repeats no schema node and ends at its first phone node. */
  lemma WalkRewritesExactlyPhoneLeaves(g: Graph, norm: Normalizer, root: NodeId, traits: Json)
    requires FixesOutputs(norm) && NamesNonEmpty(g)
    ensures Walk(g, norm, {}, root, "", traits) == Rewrite(norm, traits, PhoneLocs(g, traits, root), [])
  {
    var at := Stop(root, []);
    var visited := LocsOf(traits, Visits(g, traits, {}, at));
    WalkIsRewrite(g, norm, {}, at, traits);
    forall loc: Loc ensures loc in visited <==> loc in PhoneLocs(g, traits, root) {
      if loc in visited {
        var p :| p in Visits(g, traits, {}, at) && Locate(traits, p) == Some(loc);
        var route := VisitHasRoute(g, traits, {}, at, p);
        assert ReachesLeaf(g, traits, root, route, loc);
      }
      if loc in PhoneLocs(g, traits, root) {
        var route :| ReachesLeaf(g, traits, root, route, loc);
        RouteIsVisited(g, traits, {}, route);
      }
    }
    assert visited == PhoneLocs(g, traits, root);
  }

  /** Leaf by leaf: no position appears or disappears, a string at a phone position becomes canonical,
      and every other leaf keeps its value. */
  lemma WalkLeaf(g: Graph, norm: Normalizer, root: NodeId, traits: Json, loc: Loc)
    requires FixesOutputs(norm) && NamesNonEmpty(g)
    ensures var after := At(Walk(g, norm, {}, root, "", traits), loc);
      match At(traits, loc)
      case None => after.None?
      case Some(String(s)) =>
        after == Some(String(if loc in PhoneLocs(g, traits, root) then Canonical(norm, s) else s))
      case Some(v) => after.Some? && SameHead(v, after.value)
  {
    WalkRewritesExactlyPhoneLeaves(g, norm, root, traits);
    AtRewrite(norm, traits, PhoneLocs(g, traits, root), [], loc);
    assert [] + loc == loc;
    var v := At(traits, loc);
    if v.Some? { RewriteHead(norm, v.value, PhoneLocs(g, traits, root), loc); }
  }

  lemma {:induction false} RouteSame(g: Graph, a: Json, b: Json, stack: set<NodeId>, route: seq<Stop>)
    requires SamePlaces(a, b) && Route(g, a, stack, route)
    ensures Route(g, b, stack, route)
    decreases |route|
  {
    if |route| > 1 {
      var e :| Follows(g, a, route[0], route[1], e);
      assert Follows(g, b, route[0], route[1], e);
      RouteSame(g, a, b, stack + {route[0].node}, route[1..]);
    }
  }

  lemma PhoneLocsWithin(g: Graph, a: Json, b: Json, root: NodeId)
    requires SamePlaces(a, b)
    ensures PhoneLocs(g, a, root) <= PhoneLocs(g, b, root)
  {
    forall loc | loc in PhoneLocs(g, a, root) ensures loc in PhoneLocs(g, b, root) {
      var route :| ReachesLeaf(g, a, root, route, loc);
      RouteSame(g, a, b, {}, route);
      assert ReachesLeaf(g, b, root, route, loc);
    }
  }

  lemma PhoneLocsKept(g: Graph, norm: Normalizer, root: NodeId, traits: Json, targets: iset<Loc>)
    ensures PhoneLocs(g, Rewrite(norm, traits, targets, []), root) == PhoneLocs(g, traits, root)
  {
    var r := Rewrite(norm, traits, targets, []);
    RewriteSamePlaces(norm, traits, targets);
    PhoneLocsWithin(g, r, traits, root);
    PhoneLocsWithin(g, traits, r, root);
  }

  /** A second walk changes nothing. */
  lemma WalkIdempotent(g: Graph, norm: Normalizer, root: NodeId, traits: Json)
    requires FixesOutputs(norm) && NamesNonEmpty(g)
    ensures var once := Walk(g, norm, {}, root, "", traits);
      Walk(g, norm, {}, root, "", once) == once
  {
    var locs := PhoneLocs(g, traits, root);
    var once := Walk(g, norm, {}, root, "", traits);
    WalkRewritesExactlyPhoneLeaves(g, norm, root, traits);
    calc {
      Walk(g, norm, {}, root, "", once);
      { WalkRewritesExactlyPhoneLeaves(g, norm, root, once); }
      Rewrite(norm, once, PhoneLocs(g, once, root), []);
      { PhoneLocsKept(g, norm, root, traits, locs); }
      Rewrite(norm, once, locs, []);
      { RewriteTwice(norm, traits, locs, locs, []); assert locs + locs == locs; }
      Rewrite(norm, traits, locs, []);
    }
  }

  /** The entry point: one walk from the traits schema with an empty stack. */
  method NormalizePhoneTraits(g: Graph, norm: Normalizer, traits: Json, root: NodeId) returns (r: Json)
    requires FixesOutputs(norm) && NamesNonEmpty(g)
    ensures r == Rewrite(norm, traits, PhoneLocs(g, traits, root), [])
  {
    var walker := new Walker(g, norm);
    r := walker.WalkPhoneTraits(traits, root, "");
    WalkRewritesExactlyPhoneLeaves(g, norm, root, traits);
  }

  /** Why empty property names are excluded: below a property named "" at the top, every path is the one
      without that level. */
  lemma EmptyNameLosesItsLevel(segments: seq<string>)
    ensures Encode([""] + segments) == Encode(segments)
    ensures Decode(Encode([""] + segments)) != [""] + segments
  {
    EncodeDropsFirst([""] + segments);
    assert ([""] + segments)[1..] == segments;
    DecodeEncode([""] + segments);
  }
}
