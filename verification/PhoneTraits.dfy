/** Phone-trait rewriting: the depth-first walk over a compiled, possibly cyclic schema graph (identity/validator.go). */
module PhoneTraits {
  import opened Decimal
  import opened Json
  import opened LeafRewrite
  import opened Sorting
  import opened TraitPath
  import opened Wrappers

  /** Identity of a compiled schema node. A number outside the graph is the nil pointer. */
  type NodeId = nat

  datatype Extension = Extension(
    codeIdentifier: bool, codeVia: string, recoveryVia: string, verificationVia: string)

  datatype Items = NoItems | Every(schema: NodeId) | Tuple(schemas: seq<NodeId>)

  datatype Schema = Schema(
    extension: Option<Extension>,
    allOf: seq<NodeId>, anyOf: seq<NodeId>, oneOf: seq<NodeId>,
    notSchema: NodeId, ifSchema: NodeId, thenSchema: NodeId, elseSchema: NodeId, ref: NodeId,
    properties: map<string, NodeId>,
    items: Items)

  type Graph = map<NodeId, Schema>

  /** How an edge extends the data path. */
  datatype Ext = Here | Key(name: string) | Index(i: nat)

  datatype Edge = Edge(child: NodeId, ext: Ext)

  predicate IsPhone(node: Schema) {
    match node.extension
    case None => false
    case Some(e) => (e.codeIdentifier && e.codeVia == "sms") || e.recoveryVia == "sms" || e.verificationVia == "sms"
  }

  function Combinators(node: Schema): seq<NodeId> {
    node.allOf + node.anyOf + node.oneOf
    + [node.notSchema, node.ifSchema, node.thenSchema, node.elseSchema, node.ref]
  }

  function PathOf(path: string, ext: Ext): string {
    match ext
    case Here => path
    case Key(name) => Join(path, Escape(name))
    case Index(i) => Join(path, Itoa(i))
  }

  ghost function SegmentOf(ext: Ext): seq<string> {
    match ext
    case Here => []
    case Key(name) => [name]
    case Index(i) => [Itoa(i)]
  }

  ghost predicate NamesNonEmpty(g: Graph) {
    forall n, name :: n in g && name in g[n].properties ==> name != ""
  }

  // ----- the walk as a function of the stack -----

  function NormalizeAt(norm: Normalizer, traits: Json, path: string): Json {
    match Locate(traits, Decode(path))
    case None => traits
    case Some(loc) =>
      match At(traits, loc).value
      case String(s) =>
        (match norm(s)
         case Some(n) => if n == s then traits else SetString(traits, loc, n)
         case None => traits)
      case _ => traits
  }

  ghost function CombinatorEdges(node: Schema): seq<Edge> {
    var subs := Combinators(node);
    seq(|subs|, k requires 0 <= k < |subs| => Edge(subs[k], Here))
  }

  ghost function EdgesNamed(node: Schema, names: seq<string>): seq<Edge> {
    seq(|names|, k requires 0 <= k < |names| => PropertyEdge(node, names[k]))
  }

  /** Sorted by name; every name is a key of the map. */
  ghost function PropertyEdges(node: Schema): seq<Edge> {
    EdgesNamed(node, SortedSeq(StrLess, node.properties.Keys))
  }

  function PropertyEdge(node: Schema, name: string): Edge {
    Edge(if name in node.properties then node.properties[name] else 0, Key(name))
  }

  ghost function ItemEdges(node: Schema, count: nat): seq<Edge> {
    match node.items
    case NoItems => []
    case Every(s) => seq(count, k requires 0 <= k < count => Edge(s, Index(k)))
    case Tuple(ss) => seq(|ss|, k requires 0 <= k < |ss| => Edge(ss[k], Index(k)))
  }

  ghost function Walk(g: Graph, norm: Normalizer, stack: set<NodeId>, node: NodeId, path: string, traits: Json): Json
    decreases g.Keys - stack, 0, 0
  {
    if node !in g || node in stack then traits
    else if IsPhone(g[node]) then NormalizeAt(norm, traits, path)
    else
      assert node in g.Keys - stack;
      WalkBelow(g, norm, stack + {node}, g[node], path, traits)
  }

  /** Combinators, then properties, then items counted on the traits as rewritten so far. */
  ghost function WalkBelow(g: Graph, norm: Normalizer, stack: set<NodeId>, schema: Schema, path: string, traits: Json): Json
    decreases g.Keys - stack, 2, 0
  {
    var combinators, properties := CombinatorEdges(schema), PropertyEdges(schema);
    var t := WalkAll(g, norm, stack, combinators, |combinators|, path, traits);
    var u := WalkAll(g, norm, stack, properties, |properties|, path, t);
    var items := ItemEdges(schema, Count(u, Decode(path)));
    WalkAll(g, norm, stack, items, |items|, path, u)
  }

  /** The walk along the first `n` edges. */
  ghost function WalkAll(
    g: Graph, norm: Normalizer, stack: set<NodeId>, edges: seq<Edge>, n: nat, path: string, traits: Json): Json
    requires n <= |edges|
    decreases g.Keys - stack, 1, n
  {
    if n == 0 then traits
    else
      Walk(g, norm, stack, edges[n - 1].child, PathOf(path, edges[n - 1].ext),
        WalkAll(g, norm, stack, edges, n - 1, path, traits))
  }

  // ----- the walk as the program runs it -----

  class Walker {
    const g: Graph
    const norm: Normalizer
    var stack: set<NodeId>

    constructor (g: Graph, norm: Normalizer)
      ensures this.g == g && this.norm == norm && stack == {}
    {
      this.g, this.norm, stack := g, norm, {};
    }

    method NormalizePhoneAt(traits: Json, path: string) returns (r: Json)
      ensures r == NormalizeAt(norm, traits, path)
    {
      var loc := Locate(traits, Decode(path));
      if loc.None? { return traits; }
      var value := At(traits, loc.value).value;
      if !value.String? { return traits; }
      var normalized := norm(value.text);
      if normalized.None? || normalized.value == value.text { return traits; }
      return SetString(traits, loc.value, normalized.value);
    }

    /** The shared stack is put back, and the traits are those of `Walk`. */
    method WalkPhoneTraits(traits: Json, node: NodeId, path: string) returns (r: Json)
      modifies this
      ensures stack == old(stack)
      ensures r == Walk(g, norm, old(stack), node, path, traits)
      decreases g.Keys - stack, 0
    {
      r := traits;
      if node !in g { return; }
      if node in stack { return; }
      assert node in g.Keys - stack;
      stack := stack + {node};
      if IsPhone(g[node]) {
        r := NormalizePhoneAt(traits, path);
      } else {
        r := WalkCombinators(traits, g[node], path);
        r := WalkProperties(r, g[node], path);
        r := WalkItems(r, g[node], path);
      }
      stack := stack - {node};
    }

    /** First loop: subschemas evaluated at the same path. */
    method WalkCombinators(traits: Json, schema: Schema, path: string) returns (r: Json)
      modifies this
      ensures stack == old(stack)
      ensures r == WalkAll(g, norm, stack, CombinatorEdges(schema), |CombinatorEdges(schema)|, path, traits)
      decreases g.Keys - stack, 1
    {
      r := traits;
      var subs := Combinators(schema);
      ghost var edges := CombinatorEdges(schema);
      for k := 0 to |subs|
        invariant stack == old(stack)
        invariant r == WalkAll(g, norm, stack, edges, k, path, traits)
      {
        r := WalkPhoneTraits(r, subs[k], path);
      }
    }

    /** Second loop: properties in sorted order, whatever order the map yields them in. */
    method WalkProperties(traits: Json, schema: Schema, path: string) returns (r: Json)
      modifies this
      ensures stack == old(stack)
      ensures r == WalkAll(g, norm, stack, PropertyEdges(schema), |PropertyEdges(schema)|, path, traits)
      decreases g.Keys - stack, 2
    {
      var names := SortedKeys(schema.properties);
      r := WalkNames(traits, schema, names, path);
    }

    method WalkNames(traits: Json, schema: Schema, names: seq<string>, path: string) returns (r: Json)
      requires forall k :: 0 <= k < |names| ==> names[k] in schema.properties
      modifies this
      ensures stack == old(stack)
      ensures r == WalkAll(g, norm, stack, EdgesNamed(schema, names), |names|, path, traits)
      decreases g.Keys - stack, 1
    {
      r := traits;
      ghost var edges := EdgesNamed(schema, names);
      for k := 0 to |names|
        invariant stack == old(stack)
        invariant r == WalkAll(g, norm, stack, edges, k, path, traits)
      {
        var segment := EscapePathSegment(names[k]);
        r := WalkPhoneTraits(r, schema.properties[names[k]], Join(path, segment));
      }
    }

    /** Third loop: array items, counted on the traits as rewritten so far. */
    method WalkItems(traits: Json, schema: Schema, path: string) returns (r: Json)
      modifies this
      ensures stack == old(stack)
      ensures var edges := ItemEdges(schema, Count(traits, Decode(path)));
        r == WalkAll(g, norm, stack, edges, |edges|, path, traits)
      decreases g.Keys - stack, 1
    {
      r := traits;
      if schema.items.NoItems? { return; }
      var count := if schema.items.Every? then Count(traits, Decode(path)) else |schema.items.schemas|;
      ghost var edges := ItemEdges(schema, Count(traits, Decode(path)));
      for index := 0 to count
        invariant stack == old(stack)
        invariant r == WalkAll(g, norm, stack, edges, index, path, traits)
      {
        var item := if schema.items.Every? then schema.items.schema else schema.items.schemas[index];
        r := WalkPhoneTraits(r, item, Join(path, Itoa(index)));
      }
    }
  }
}
