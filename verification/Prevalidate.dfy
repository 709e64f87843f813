/** Schema prevalidation: invalid patterns and pure-$ref cycles (schema/prevalidate.go). */
module Prevalidate {
  import opened Json
  import opened JsonPointer
  import opened Strings
  import opened Wrappers

  /** Whether a text compiles as a regular expression. */
  type Regex = string -> bool

  function Lookup(j: Json, name: string): (r: Option<Json>) {
    if j.Object? then
      match FieldIndex(j.fields, name)
      case None => None
      case Some(i) => Some(j.fields[i].value)
    else None
  }

  /** Target pointer of a local `$ref`; external references have none. */
  function RefTarget(j: Json): (r: Option<string>) {
    match Lookup(j, "$ref")
    case Some(String(ref)) =>
      if ref == "" || ref == "#" || ref == "#/" then Some("")
      else if "#/" <= ref then Some(ref[1..])
      else None
    case _ => None
  }

  predicate PatternOk(valid: Regex, j: Json) {
    match Lookup(j, "pattern")
    case Some(String(pat)) => valid(pat)
    case _ => true
  }

  predicate PatternKeysOk(valid: Regex, j: Json) {
    match Lookup(j, "patternProperties")
    case Some(Object(fields)) => forall k :: 0 <= k < |fields| ==> valid(fields[k].name)
    case _ => true
  }

  // ----- the reference: patterns and cycles of the document -----

  ghost predicate HasField(j: Json, name: string, value: Json) {
    j.Object? && exists k :: 0 <= k < |j.fields| && j.fields[k] == Field(name, value)
  }

  /** Every `pattern` text and every name in a `patternProperties` object compiles. */
  ghost predicate PatternsHere(valid: Regex, j: Json) {
    && (forall pat :: HasField(j, "pattern", String(pat)) ==> valid(pat))
    && (forall fields: seq<Field>, k :: HasField(j, "patternProperties", Object(fields)) && 0 <= k < |fields| ==> valid(fields[k].name))
  }

  ghost predicate PatternsValid(valid: Regex, doc: Json) {
    forall loc: Loc :: At(doc, loc).Some? ==> PatternsHere(valid, At(doc, loc).value)
  }

  /** The pointer a `$ref` names: the root for an empty one, `#` and `#/`, otherwise what follows the `#` before a slash. */
  ghost predicate RefersTo(j: Json, pointer: string) {
    exists ref: string :: HasField(j, "$ref", String(ref)) && NamesPointer(ref, pointer)
  }

  ghost predicate NamesPointer(ref: string, pointer: string) {
    if ref in {"", "#", "#/"} then pointer == ""
    else ref == "#" + pointer && pointer != "" && pointer[0] == '/'
  }

  ghost predicate RefVia(doc: Json, a: Loc, b: Loc, pointer: string) {
    At(doc, a).Some? && RefersTo(At(doc, a).value, pointer) && Evaluate(doc, pointer) == Some(b)
  }

  /** The node at `a` is a `$ref` whose pointer, by RFC 6901, is the node at `b`. */
  ghost predicate RefStep(doc: Json, a: Loc, b: Loc) {
    exists pointer :: RefVia(doc, a, b, pointer)
  }

  ghost predicate RefCycle(doc: Json, cycle: seq<Loc>) {
    && |cycle| >= 2 && cycle[0] == cycle[|cycle| - 1]
    && forall i :: 0 <= i < |cycle| - 1 ==> RefStep(doc, cycle[i], cycle[i + 1])
  }

  lemma LookupIff(j: Json, name: string, value: Json)
    requires UniqueHere(j)
    ensures Lookup(j, name) == Some(value) <==> HasField(j, name, value)
  {
    if HasField(j, name, value) {
      var k :| 0 <= k < |j.fields| && j.fields[k] == Field(name, value);
      FieldIndexUnique(j.fields, k);
    }
  }

  /** The program's target is the pointer the reference names. */
  lemma RefTargetIff(j: Json, pointer: string)
    requires UniqueHere(j)
    ensures RefTarget(j) == Some(pointer) <==> RefersTo(j, pointer)
  {
    var field := Lookup(j, "$ref");
    if RefersTo(j, pointer) {
      var ref: string :| HasField(j, "$ref", String(ref)) && NamesPointer(ref, pointer);
      LookupIff(j, "$ref", String(ref));
      TargetOfText(ref, pointer);
    }
    if field.Some? && field.value.String? {
      LookupIff(j, "$ref", field.value);
      TargetOfText(field.value.text, pointer);
    }
  }

  lemma TargetOfText(ref: string, pointer: string)
    ensures (if ref == "" || ref == "#" || ref == "#/" then pointer == "" else "#/" <= ref && pointer == ref[1..])
       <==> NamesPointer(ref, pointer)
  {
    if "#/" <= ref { assert ref == "#" + ref[1..]; }
    if ref == "#" + pointer && pointer != "" && pointer[0] == '/' {
      assert ref[0] == '#' && ref[1] == pointer[0] && ref[1..] == pointer;
      assert ref[..2] == "#/";
    }
  }

  /** The program's pattern checks are validity of the patterns at this node. */
  lemma PatternsHereIff(valid: Regex, j: Json)
    requires UniqueHere(j)
    ensures PatternOk(valid, j) && PatternKeysOk(valid, j) <==> PatternsHere(valid, j)
  {
    var pat, props := Lookup(j, "pattern"), Lookup(j, "patternProperties");
    if pat.Some? { LookupIff(j, "pattern", pat.value); }
    if props.Some? { LookupIff(j, "patternProperties", props.value); }
    if PatternOk(valid, j) && PatternKeysOk(valid, j) {
      forall p | HasField(j, "pattern", String(p)) ensures valid(p) { LookupIff(j, "pattern", String(p)); }
      forall fields: seq<Field>, k | HasField(j, "patternProperties", Object(fields)) && 0 <= k < |fields| ensures valid(fields[k].name) {
        LookupIff(j, "patternProperties", Object(fields));
      }
    }
  }

  /** A `$ref` written with the pointer of a node steps to that node. The pointer `/` is the exception: `#/` is the root. */
  lemma WrittenRefSteps(doc: Json, a: Loc, b: Loc)
    requires UniqueNames(doc) && At(doc, a).Some? && At(doc, b).Some? && Pointer(doc, b) != "/"
    requires Lookup(At(doc, a).value, "$ref") == Some(String("#" + Pointer(doc, b)))
    ensures RefStep(doc, a, b)
  {
    var p := Pointer(doc, b);
    LookupIff(At(doc, a).value, "$ref", String("#" + p));
    PointerIffEvaluates(doc, p, b);
    assert p != "" ==> p[0] == '/';
    assert NamesPointer("#" + p, p) by {
      if p == "" { assert "#" + p == "#"; } else { assert ("#" + p)[1..] == p; }
    }
    assert RefVia(doc, a, b, p);
  }

  /** Anything else is external: no step, and nothing is recorded. */
  lemma ExternalRefHasNoStep(doc: Json, a: Loc, b: Loc, ref: string)
    requires UniqueNames(doc) && At(doc, a).Some? && Lookup(At(doc, a).value, "$ref") == Some(String(ref))
    requires ref != "" && ref != "#" && !("#/" <= ref)
    ensures !RefStep(doc, a, b) && RefTarget(At(doc, a).value) == None
  {
    forall p ensures !RefVia(doc, a, b, p) {
      RefTargetIff(At(doc, a).value, p);
    }
  }

  // ----- what the walk records -----

  ghost function LocalRefs(j: Json, path: string): map<string, string> {
    match RefTarget(j)
    case None => map[]
    case Some(t) => map[path := t]
  }

  ghost function ChildPath(j: Json, path: string, i: nat): string
    requires i < Arity(j)
  {
    path + "/" + TokenOf(j, i)
  }

  /** References of the first `n` children. */
  ghost function ChildRefs(j: Json, path: string, n: nat): map<string, string>
    requires n <= Arity(j)
    decreases j, n
  {
    if n == 0 then map[]
    else ChildRefs(j, path, n - 1) + Refs(Child(j, n - 1), ChildPath(j, path, n - 1))
  }

  ghost function Refs(j: Json, path: string): map<string, string>
    decreases j, Arity(j) + 1
  {
    LocalRefs(j, path) + ChildRefs(j, path, Arity(j))
  }

  /** The pair `p -> t` is recorded for the node at `loc`. */
  ghost predicate RecordedAt(j: Json, path: string, p: string, t: string, loc: Loc) {
    && At(j, loc).Some? && RefTarget(At(j, loc).value) == Some(t)
    && p == path + Pointer(j, loc)
  }

  ghost predicate Recorded(j: Json, path: string, p: string, t: string) {
    exists loc :: RecordedAt(j, path, p, t, loc)
  }

  lemma PointerOfChild(j: Json, path: string, i: nat, loc: Loc)
    requires i < Arity(j) && At(Child(j, i), loc).Some?
    ensures At(j, [i] + loc) == At(Child(j, i), loc)
    ensures path + Pointer(j, [i] + loc) == ChildPath(j, path, i) + Pointer(Child(j, i), loc)
  {
    assert ([i] + loc)[1..] == loc;
    var tokens, rest := TokensOf(j, [i] + loc), TokensOf(Child(j, i), loc);
    assert tokens == [TokenOf(j, i)] + rest;
    OneMoreToken(path, TokenOf(j, i), rest);
  }

  lemma OneMoreToken(path: string, token: string, rest: seq<string>)
    ensures path + Prefixed('/', [token] + rest) == path + "/" + token + Prefixed('/', rest)
  {
    assert ([token] + rest)[1..] == rest;
    var tail := Prefixed('/', rest);
    assert Prefixed('/', [token] + rest) == "/" + (token + tail);
    assert path + ("/" + (token + tail)) == path + "/" + (token + tail);
    assert path + "/" + (token + tail) == path + "/" + token + tail;
  }

  /** Every entry of the map comes from a node of the document. */
  lemma {:induction false} RefsAreRecorded(j: Json, path: string, p: string)
    requires p in Refs(j, path)
    ensures Recorded(j, path, p, Refs(j, path)[p])
    decreases j, Arity(j) + 1
  {
    var all := ChildRefs(j, path, Arity(j));
    if p in all {
      ChildRefsAreRecorded(j, path, p, Arity(j));
    } else {
      assert RecordedAt(j, path, p, RefTarget(j).value, []);
    }
  }

  lemma {:induction false} ChildRefsAreRecorded(j: Json, path: string, p: string, n: nat)
    requires n <= Arity(j) && p in ChildRefs(j, path, n)
    ensures Recorded(j, path, p, ChildRefs(j, path, n)[p])
    decreases j, n
  {
    var i := n - 1;
    var t := ChildRefs(j, path, n)[p];
    if p in Refs(Child(j, i), ChildPath(j, path, i)) {
      RefsAreRecorded(Child(j, i), ChildPath(j, path, i), p);
      var loc :| RecordedAt(Child(j, i), ChildPath(j, path, i), p, t, loc);
      PointerOfChild(j, path, i, loc);
      assert RecordedAt(j, path, p, t, [i] + loc);
    } else {
      ChildRefsAreRecorded(j, path, p, i);
    }
  }

  /** Every local reference of the document has an entry. */
  lemma {:induction false} RecordedIsInRefs(j: Json, path: string, loc: Loc)
    requires At(j, loc).Some? && RefTarget(At(j, loc).value).Some?
    ensures path + Pointer(j, loc) in Refs(j, path)
    decreases j
  {
    if loc == [] {
      assert path + "" == path;
    } else {
      var i, rest := loc[0], loc[1..];
      assert loc == [i] + rest;
      PointerOfChild(j, path, i, rest);
      RecordedIsInRefs(Child(j, i), ChildPath(j, path, i), rest);
      ChildRecorded(j, path, i, path + Pointer(j, loc));
    }
  }

  /** One of the first `n` children records a reference at `p`. */
  ghost predicate RecordedBelow(j: Json, path: string, n: nat, p: string)
    requires n <= Arity(j)
  {
    p in ChildRefs(j, path, n)
  }

  lemma RecordedNext(j: Json, path: string, n: nat, p: string)
    requires n < Arity(j)
    requires RecordedBelow(j, path, n, p) || p in Refs(Child(j, n), ChildPath(j, path, n))
    ensures RecordedBelow(j, path, n + 1, p)
  {}

  lemma {:induction false} RecordedStays(j: Json, path: string, m: nat, n: nat, p: string)
    requires m <= n <= Arity(j) && RecordedBelow(j, path, m, p)
    ensures RecordedBelow(j, path, n, p)
    decreases n
  {
    if m < n {
      RecordedStays(j, path, m, n - 1, p);
      RecordedNext(j, path, n - 1, p);
    }
  }

  lemma ChildRecorded(j: Json, path: string, i: nat, p: string)
    requires i < Arity(j) && p in Refs(Child(j, i), ChildPath(j, path, i))
    ensures p in Refs(j, path)
  {
    RecordedNext(j, path, i, p);
    RecordedStays(j, path, i + 1, Arity(j), p);
    assert RecordedBelow(j, path, Arity(j), p);
  }

  /** The recorded map is the document's reference graph: distinct nodes have distinct paths,
      so each entry is the target of the one node with that pointer. */
  lemma RefsAreTheReferences(doc: Json, loc: Loc)
    requires UniqueNames(doc) && At(doc, loc).Some?
    ensures var p := Pointer(doc, loc);
      match RefTarget(At(doc, loc).value)
      case None => p !in Refs(doc, "")
      case Some(t) => p in Refs(doc, "") && Refs(doc, "")[p] == t
  {
    var p := Pointer(doc, loc);
    assert "" + p == p;
    if RefTarget(At(doc, loc).value).Some? { RecordedIsInRefs(doc, "", loc); }
    if p in Refs(doc, "") {
      RefsAreRecorded(doc, "", p);
      var other :| RecordedAt(doc, "", p, Refs(doc, "")[p], other);
      assert "" + Pointer(doc, other) == Pointer(doc, other);
      PointerIffEvaluates(doc, p, loc);
      PointerIffEvaluates(doc, p, other);
    }
  }

  // ----- the program -----

  ghost predicate PatternsBelow(valid: Regex, j: Json)
    decreases j, Arity(j) + 1
  {
    PatternOk(valid, j) && PatternKeysOk(valid, j) && ChildPatterns(valid, j, Arity(j))
  }

  /** The first `n` children have valid patterns throughout. */
  ghost predicate ChildPatterns(valid: Regex, j: Json, n: nat)
    requires n <= Arity(j)
    decreases j, n
  {
    n == 0 || (ChildPatterns(valid, j, n - 1) && PatternsBelow(valid, Child(j, n - 1)))
  }

  lemma {:induction false} ChildPatternsAll(valid: Regex, j: Json, n: nat)
    requires n <= Arity(j)
    ensures ChildPatterns(valid, j, n) <==> forall i :: 0 <= i < n ==> PatternsBelow(valid, Child(j, i))
  {
    if n > 0 { ChildPatternsAll(valid, j, n - 1); }
  }

  class PreValidator {
    var refs: map<string, string>

    constructor ()
      ensures refs == map[]
    {
      refs := map[];
    }

    method Walk(valid: Regex, v: Json, path: string) returns (ok: bool)
      modifies this
      ensures ok <==> PatternsBelow(valid, v)
      ensures ok ==> refs == old(refs) + Refs(v, path)
      decreases v, 1
    {
      var target := RefTarget(v);
      if target.Some? { refs := refs[path := target.value]; }
      ghost var local := refs;
      assert local == old(refs) + LocalRefs(v, path);
      if !PatternOk(valid, v) || !PatternKeysOk(valid, v) { return false; }
      ok := WalkChildren(valid, v, path);
      AddAssociative(old(refs), LocalRefs(v, path), ChildRefs(v, path, Arity(v)));
    }

    /** The loops over the members of an object and the items of an array. */
    method WalkChildren(valid: Regex, v: Json, path: string) returns (ok: bool)
      modifies this
      ensures ok <==> ChildPatterns(valid, v, Arity(v))
      ensures ok ==> refs == old(refs) + ChildRefs(v, path, Arity(v))
      decreases v, 0
    {
      for k := 0 to Arity(v)
        invariant Walked(valid, v, path, k, old(refs), refs)
      {
        ghost var before := refs;
        ok := Walk(valid, Child(v, k), path + "/" + TokenOf(v, k));
        if !ok {
          ChildFails(valid, v, k);
          return;
        }
        WalkedNext(valid, v, path, k, old(refs), before);
      }
      return true;
    }
  }

  lemma AddAssociative(a: map<string, string>, b: map<string, string>, c: map<string, string>)
    ensures a + b + c == a + (b + c)
  {}

  /** The first `k` children have been walked without error, starting from `start`. */
  ghost predicate Walked(
    valid: Regex, v: Json, path: string, k: nat, start: map<string, string>, now: map<string, string>)
    requires k <= Arity(v)
  {
    ChildPatterns(valid, v, k) && now == start + ChildRefs(v, path, k)
  }

  lemma WalkedNext(valid: Regex, v: Json, path: string, k: nat, start: map<string, string>, before: map<string, string>)
    requires k < Arity(v) && Walked(valid, v, path, k, start, before)
    ensures PatternsBelow(valid, Child(v, k)) ==>
      Walked(valid, v, path, k + 1, start, before + Refs(Child(v, k), ChildPath(v, path, k)))
  {
    AddAssociative(start, ChildRefs(v, path, k), Refs(Child(v, k), ChildPath(v, path, k)));
  }

  lemma ChildFails(valid: Regex, v: Json, k: nat)
    requires k < Arity(v) && !PatternsBelow(valid, Child(v, k))
    ensures !ChildPatterns(valid, v, Arity(v))
  {
    ChildPatternsAll(valid, v, Arity(v));
  }

  lemma {:induction false} PatternsBelowIsValid(valid: Regex, v: Json)
    requires UniqueNames(v)
    ensures PatternsBelow(valid, v) <==> PatternsValid(valid, v)
    decreases v
  {
    assert At(v, []) == Some(v);
    PatternsHereIff(valid, v);
    ChildPatternsAll(valid, v, Arity(v));
    if PatternsValid(valid, v) {
      forall i | 0 <= i < Arity(v) ensures PatternsBelow(valid, Child(v, i)) {
        UniqueChild(v, i);
        ChildPatternsValid(valid, v, i);
        PatternsBelowIsValid(valid, Child(v, i));
      }
    }
    if PatternsBelow(valid, v) {
      forall loc: Loc | At(v, loc).Some? ensures PatternsHere(valid, At(v, loc).value) {
        if loc != [] {
          UniqueChild(v, loc[0]);
          PatternsBelowIsValid(valid, Child(v, loc[0]));
        }
      }
    }
  }

  lemma ChildPatternsValid(valid: Regex, v: Json, i: nat)
    requires PatternsValid(valid, v) && i < Arity(v)
    ensures PatternsValid(valid, Child(v, i))
  {
    forall loc: Loc | At(Child(v, i), loc).Some? ensures PatternsHere(valid, At(Child(v, i), loc).value) {
      assert ([i] + loc)[1..] == loc;
      assert At(v, [i] + loc) == At(Child(v, i), loc);
    }
  }
}
