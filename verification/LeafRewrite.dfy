/** Rewriting chosen string leaves of a JSON value, everything else kept. */
module LeafRewrite {
  import opened Json
  import opened TraitPath
  import opened Wrappers

  /** E.164 normalisation: `None` when the text is not a valid phone number. */
  type Normalizer = string -> Option<string>

  /** A normalised number normalises to itself. */
  ghost predicate FixesOutputs(norm: Normalizer) {
    forall s :: norm(s).Some? ==> norm(norm(s).value) == norm(s)
  }

  function Canonical(norm: Normalizer, s: string): string {
    match norm(s)
    case Some(n) => n
    case None => s
  }

  /** The value below position `at`, with exactly the string leaves at `targets` made canonical. */
  ghost function Rewrite(norm: Normalizer, j: Json, targets: iset<Loc>, at: Loc): Json
    decreases j
  {
    match j
    case String(s) => if at in targets then String(Canonical(norm, s)) else j
    case Array(items) =>
      Array(seq(|items|, i requires 0 <= i < |items| => Rewrite(norm, items[i], targets, at + [i])))
    case Object(fields) =>
      Object(seq(|fields|, i requires 0 <= i < |fields| =>
        assert fields[i] < j;
        Field(fields[i].name, Rewrite(norm, fields[i].value, targets, at + [i]))))
    case _ => j
  }

  /** Same kind of value, same field names, same number of children. */
  ghost predicate SameHead(a: Json, b: Json) {
    match a
    case String(_) => b.String?
    case Array(items) => b.Array? && |items| == |b.items|
    case Object(fields) =>
      b.Object? && |fields| == |b.fields| && forall i :: 0 <= i < |fields| ==> fields[i].name == b.fields[i].name
    case _ => a == b
  }

  lemma RewriteHead(norm: Normalizer, j: Json, targets: iset<Loc>, at: Loc)
    ensures SameHead(j, Rewrite(norm, j, targets, at))
    ensures Arity(Rewrite(norm, j, targets, at)) == Arity(j)
    ensures forall i :: 0 <= i < Arity(j) ==>
      Child(Rewrite(norm, j, targets, at), i) == Rewrite(norm, Child(j, i), targets, at + [i])
  {}

  lemma SameByChildren(a: Json, b: Json)
    requires SameHead(a, b) && (a.String? ==> a == b)
    requires forall i :: 0 <= i < Arity(a) ==> Child(a, i) == Child(b, i)
    ensures a == b
  {
    match a
    case Array(items) =>
      forall i | 0 <= i < |items| ensures items[i] == b.items[i] {
        assert Child(a, i) == Child(b, i);
      }
    case Object(fields) =>
      forall i | 0 <= i < |fields| ensures fields[i] == b.fields[i] {
        assert Child(a, i) == Child(b, i);
        assert fields[i].name == b.fields[i].name;
      }
    case _ =>
  }

  /** Two rewrites in a row are one rewrite of both target sets. */
  lemma {:induction false} RewriteTwice(norm: Normalizer, j: Json, first: iset<Loc>, second: iset<Loc>, at: Loc)
    requires FixesOutputs(norm)
    ensures Rewrite(norm, Rewrite(norm, j, first, at), second, at) == Rewrite(norm, j, first + second, at)
    decreases j
  {
    var once := Rewrite(norm, j, first, at);
    var twice := Rewrite(norm, once, second, at);
    var both := Rewrite(norm, j, first + second, at);
    RewriteHead(norm, j, first, at);
    RewriteHead(norm, once, second, at);
    RewriteHead(norm, j, first + second, at);
    forall i | 0 <= i < Arity(twice) ensures Child(twice, i) == Child(both, i) {
      RewriteTwice(norm, Child(j, i), first, second, at + [i]);
    }
    SameByChildren(twice, both);
  }

  lemma {:induction false} RewriteNothing(norm: Normalizer, j: Json, targets: iset<Loc>, at: Loc)
    requires forall t :: t in targets ==> !(at <= t)
    ensures Rewrite(norm, j, targets, at) == j
    decreases j
  {
    var r := Rewrite(norm, j, targets, at);
    RewriteHead(norm, j, targets, at);
    forall i | 0 <= i < Arity(j) ensures Child(j, i) == Child(r, i) {
      forall t | t in targets ensures !(at + [i] <= t) {
        assert at + [i] <= t ==> at <= t;
      }
      RewriteNothing(norm, Child(j, i), targets, at + [i]);
    }
    SameByChildren(j, r);
  }

  /** sjson's write of a string at an existing position. */
  function SetString(j: Json, loc: Loc, s: string): (r: Json)
    requires At(j, loc).Some?
    decreases |loc|
  {
    if loc == [] then String(s)
    else WithChild(j, loc[0], SetString(Child(j, loc[0]), loc[1..], s))
  }

  /** Normalising the string found at one position is a rewrite of that position alone. */
  lemma {:induction false} SetStringIsRewrite(norm: Normalizer, j: Json, loc: Loc, at: Loc)
    requires At(j, loc).Some? && At(j, loc).value.String?
    ensures SetString(j, loc, Canonical(norm, At(j, loc).value.text)) == Rewrite(norm, j, iset{at + loc}, at)
    decreases |loc|
  {
    var target := iset{at + loc};
    if loc == [] {
      assert at + loc == at;
    } else {
      var r := Rewrite(norm, j, target, at);
      var k := loc[0];
      var s := SetString(j, loc, Canonical(norm, At(j, loc).value.text));
      SetStringIsRewrite(norm, Child(j, k), loc[1..], at + [k]);
      assert at + [k] + loc[1..] == at + loc;
      RewriteHead(norm, j, target, at);
      forall i | 0 <= i < Arity(j) ensures Child(s, i) == Child(r, i) {
        if i != k {
          assert (at + loc)[|at|] == k;
          RewriteNothing(norm, Child(j, i), target, at + [i]);
        }
      }
      SameByChildren(s, r);
    }
  }

  /** Positions: a rewrite changes no position, and below a position it is the rewrite of what was there. */
  lemma {:induction false} AtRewrite(norm: Normalizer, j: Json, targets: iset<Loc>, at: Loc, loc: Loc)
    ensures At(Rewrite(norm, j, targets, at), loc)
         == match At(j, loc) case None => None case Some(v) => Some(Rewrite(norm, v, targets, at + loc))
    decreases |loc|
  {
    RewriteHead(norm, j, targets, at);
    if loc == [] {
      assert at + loc == at;
    } else if loc[0] < Arity(j) {
      AtRewrite(norm, Child(j, loc[0]), targets, at + [loc[0]], loc[1..]);
      assert at + [loc[0]] + loc[1..] == at + loc;
    }
  }

  lemma {:induction false} FieldIndexByNames(a: seq<Field>, b: seq<Field>, name: string)
    requires |a| == |b| && forall i :: 0 <= i < |a| ==> a[i].name == b[i].name
    ensures FieldIndex(a, name) == FieldIndex(b, name)
  {
    if a != [] { FieldIndexByNames(a[1..], b[1..], name); }
  }

  lemma {:induction false} ResolveRewrite(norm: Normalizer, j: Json, targets: iset<Loc>, at: Loc, segments: seq<string>)
    ensures Resolve(Rewrite(norm, j, targets, at), segments) == Resolve(j, segments)
    decreases |segments|
  {
    var r := Rewrite(norm, j, targets, at);
    RewriteHead(norm, j, targets, at);
    if segments != [] {
      if j.Object? { FieldIndexByNames(j.fields, r.fields, segments[0]); }
      assert ChildNumber(r, segments[0]) == ChildNumber(j, segments[0]);
      var n := ChildNumber(j, segments[0]);
      if n.Some? {
        ResolveRewrite(norm, Child(j, n.value), targets, at + [n.value], segments[1..]);
      }
    }
  }

  /** A rewrite keeps what every path addresses and how many children it has. */
  lemma LocateRewrite(norm: Normalizer, j: Json, targets: iset<Loc>, segments: seq<string>)
    ensures Locate(Rewrite(norm, j, targets, []), segments) == Locate(j, segments)
    ensures Count(Rewrite(norm, j, targets, []), segments) == Count(j, segments)
  {
    ResolveRewrite(norm, j, targets, [], segments);
    var loc := Locate(j, segments);
    if loc.Some? {
      AtRewrite(norm, j, targets, [], loc.value);
      RewriteHead(norm, At(j, loc.value).value, targets, [] + loc.value);
    }
  }
}
