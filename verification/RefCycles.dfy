/** Cycle detection over the recorded $ref graph, and what prevalidation accepts (schema/prevalidate.go). */
module RefCycles {
  import opened Json
  import opened JsonPointer
  import opened Prevalidate
  import opened Sorting
  import opened Wrappers

  type RefMap = map<string, string>

  /** A closed chain of references, as the error message shows it. */
  ghost predicate ChainCycle(refs: RefMap, chain: seq<string>) {
    && |chain| >= 2 && chain[0] == chain[|chain| - 1]
    && forall i :: 0 <= i < |chain| - 1 ==> chain[i] in refs && refs[chain[i]] == chain[i + 1]
  }

  /** `n` references followed from `p`, stopping at a location that is not a reference. */
  ghost function Follow(refs: RefMap, p: string, n: nat): string
    decreases n
  {
    if n == 0 || p !in refs then p else Follow(refs, refs[p], n - 1)
  }

  /** The chain from `p` ends within as many steps as there are references. */
  ghost predicate Ends(refs: RefMap, p: string) {
    Follow(refs, p, |refs|) !in refs
  }

  lemma {:induction false} FollowNext(refs: RefMap, p: string, n: nat)
    ensures Follow(refs, p, n + 1) == (var q := Follow(refs, p, n); if q in refs then refs[q] else q)
    decreases n
  {
    if n > 0 && p in refs { FollowNext(refs, refs[p], n - 1); }
  }

  lemma {:induction false} FollowStays(refs: RefMap, p: string, n: nat, m: nat)
    requires n <= m && Follow(refs, p, n) !in refs
    ensures Follow(refs, p, m) == Follow(refs, p, n)
    decreases m
  {
    if n < m {
      FollowStays(refs, p, n, m - 1);
      FollowNext(refs, p, m - 1);
    }
  }

  lemma {:induction false} DistinctFits(s: seq<string>, within: set<string>)
    requires Distinct(s) && forall i :: 0 <= i < |s| ==> s[i] in within
    ensures |s| <= |within|
  {
    if s != [] {
      var n := |s| - 1;
      DistinctFits(s[..n], within - {s[n]});
    }
  }

  /** On a cycle the chain never ends. */
  lemma {:induction false} CycleNeverEnds(refs: RefMap, chain: seq<string>, i: nat, n: nat)
    requires ChainCycle(refs, chain) && i < |chain|
    ensures Follow(refs, chain[i], n) in refs
    decreases n
  {
    var k := if i == |chain| - 1 then 0 else i;
    assert chain[k] == chain[i] && chain[k] in refs && refs[chain[k]] == chain[k + 1];
    if n > 0 { CycleNeverEnds(refs, chain, k + 1, n - 1); }
  }

  /** `chain` is what has been followed from `start`, and `cur` comes next. */
  ghost predicate IsChain(refs: RefMap, start: string, chain: seq<string>, cur: string) {
    && Distinct(chain)
    && (forall i :: 0 <= i < |chain| ==> chain[i] in refs && refs[chain[i]] == (chain + [cur])[i + 1])
    && Follow(refs, start, |chain|) == cur
  }

  lemma ChainExtends(refs: RefMap, start: string, chain: seq<string>, cur: string)
    requires IsChain(refs, start, chain, cur) && cur in refs && cur !in chain
    ensures IsChain(refs, start, chain + [cur], refs[cur])
  {
    FollowNext(refs, start, |chain|);
  }

  lemma ChainCloses(refs: RefMap, start: string, chain: seq<string>, cur: string, idx: nat)
    requires IsChain(refs, start, chain, cur) && idx < |chain| && chain[idx] == cur
    ensures ChainCycle(refs, chain[idx..] + [cur])
  {}

  lemma ChainEnds(refs: RefMap, start: string, chain: seq<string>, cur: string)
    requires IsChain(refs, start, chain, cur) && cur !in refs
    ensures Ends(refs, start)
  {
    DistinctFits(chain, refs.Keys);
    FollowStays(refs, start, |chain|, |refs|);
  }

  /** Follows the chain from one location until it leaves the references or revisits a location. */
  method FollowFrom(refs: RefMap, start: string) returns (cycle: Option<seq<string>>)
    ensures cycle.Some? ==> ChainCycle(refs, cycle.value)
    ensures cycle.None? ==> Ends(refs, start)
  {
    var visited: set<string>, cur, chain: seq<string> := {}, start, [];
    while true
      invariant visited == Elements(chain) && visited <= refs.Keys
      invariant IsChain(refs, start, chain, cur)
      decreases refs.Keys - visited
    {
      if cur in visited {
        var idx :| 0 <= idx < |chain| && chain[idx] == cur;
        ChainCloses(refs, start, chain, cur, idx);
        return Some(chain[idx..] + [cur]);
      }
      if cur !in refs {
        ChainEnds(refs, start, chain, cur);
        return None;
      }
      assert cur !in chain;
      assert Elements(chain + [cur]) == visited + {cur};
      ChainExtends(refs, start, chain, cur);
      visited, chain, cur := visited + {cur}, chain + [cur], refs[cur];
    }
  }

  /** Starts a chain at every reference, in whatever order the map yields them. */
  method DetectRefCycles(refs: RefMap) returns (cycle: Option<seq<string>>)
    ensures cycle.Some? ==> ChainCycle(refs, cycle.value)
    ensures cycle.None? ==> forall p :: p in refs ==> Ends(refs, p)
    ensures cycle.None? <==> !exists chain :: ChainCycle(refs, chain)
  {
    var todo := refs.Keys;
    while todo != {}
      invariant todo <= refs.Keys
      invariant forall p :: p in refs && p !in todo ==> Ends(refs, p)
      decreases |todo|
    {
      var start :| start in todo;
      cycle := FollowFrom(refs, start);
      if cycle.Some? { return; }
      todo := todo - {start};
    }
    forall chain ensures !ChainCycle(refs, chain) {
      if ChainCycle(refs, chain) { CycleNeverEnds(refs, chain, 0, |refs|); }
    }
    return None;
  }

  // ----- what the recorded graph says about the document -----

  ghost function Pointers(doc: Json, locs: seq<Loc>): seq<string>
    requires forall i :: 0 <= i < |locs| ==> At(doc, locs[i]).Some?
  {
    seq(|locs|, i requires 0 <= i < |locs| => Pointer(doc, locs[i]))
  }

  lemma CycleIsRecorded(doc: Json, cycle: seq<Loc>)
    requires UniqueNames(doc) && RefCycle(doc, cycle)
    ensures forall i :: 0 <= i < |cycle| ==> At(doc, cycle[i]).Some?
    ensures ChainCycle(Refs(doc, ""), Pointers(doc, cycle))
  {
    forall i | 0 <= i < |cycle| ensures At(doc, cycle[i]).Some? {
      var k := if i == |cycle| - 1 then 0 else i;
      assert cycle[k] == cycle[i] && RefStep(doc, cycle[k], cycle[k + 1]);
    }
    var chain := Pointers(doc, cycle);
    forall i | 0 <= i < |chain| - 1 ensures chain[i] in Refs(doc, "") && Refs(doc, "")[chain[i]] == chain[i + 1] {
      StepIsRecorded(doc, cycle[i], cycle[i + 1]);
    }
  }

  lemma StepIsRecorded(doc: Json, a: Loc, b: Loc)
    requires UniqueNames(doc) && RefStep(doc, a, b)
    ensures At(doc, b).Some? && Pointer(doc, a) in Refs(doc, "")
    ensures Refs(doc, "")[Pointer(doc, a)] == Pointer(doc, b)
  {
    var p :| RefVia(doc, a, b, p);
    RefTargetIff(At(doc, a).value, p);
    RefsAreTheReferences(doc, a);
    PointerIffEvaluates(doc, p, b);
  }

  /** A recorded path evaluates to the reference node it was recorded for. */
  lemma EntryIsReference(doc: Json, p: string)
    requires UniqueNames(doc) && p in Refs(doc, "")
    ensures var loc := Evaluate(doc, p);
      && loc.Some? && Pointer(doc, loc.value) == p
      && RefTarget(At(doc, loc.value).value) == Some(Refs(doc, "")[p])
  {
    RefsAreRecorded(doc, "", p);
    var loc :| RecordedAt(doc, "", p, Refs(doc, "")[p], loc);
    assert "" + Pointer(doc, loc) == Pointer(doc, loc);
    PointerIffEvaluates(doc, p, loc);
  }

  /** A reported chain is a real cycle: its strings are the pointers of a cycle of reference nodes. */
  lemma ReportedCycleIsReal(doc: Json, chain: seq<string>) returns (cycle: seq<Loc>)
    requires UniqueNames(doc) && ChainCycle(Refs(doc, ""), chain)
    ensures RefCycle(doc, cycle)
    ensures forall i :: 0 <= i < |cycle| ==> At(doc, cycle[i]).Some?
    ensures Pointers(doc, cycle) == chain
  {
    var refs := Refs(doc, "");
    forall i | 0 <= i < |chain| ensures
      && Evaluate(doc, chain[i]).Some?
      && Pointer(doc, Evaluate(doc, chain[i]).value) == chain[i]
    {
      var k := if i == |chain| - 1 then 0 else i;
      assert chain[k] in refs;
      EntryIsReference(doc, chain[i]);
    }
    cycle := seq(|chain|, i requires 0 <= i < |chain| => Evaluate(doc, chain[i]).value);
    forall i | 0 <= i < |cycle| - 1 ensures RefStep(doc, cycle[i], cycle[i + 1]) {
      EntryStep(doc, chain[i], chain[i + 1]);
    }
    assert Pointers(doc, cycle) == chain;
  }

  lemma EntryStep(doc: Json, p: string, q: string)
    requires UniqueNames(doc) && p in Refs(doc, "") && Refs(doc, "")[p] == q && Evaluate(doc, q).Some?
    ensures Evaluate(doc, p).Some? && RefStep(doc, Evaluate(doc, p).value, Evaluate(doc, q).value)
  {
    EntryIsReference(doc, p);
    var a, b := Evaluate(doc, p).value, Evaluate(doc, q).value;
    RefTargetIff(At(doc, a).value, q);
    assert RefVia(doc, a, b, q);
  }

  ghost predicate PointersOf(doc: Json, cycle: seq<Loc>, chain: seq<string>) {
    (forall i :: 0 <= i < |cycle| ==> At(doc, cycle[i]).Some?) && Pointers(doc, cycle) == chain
  }

  datatype Verdict = Accepted | InvalidPattern | SelfReferential(chain: seq<string>)

  /** A document is accepted iff every pattern compiles and no chain of references, followed by RFC 6901, closes. */
  method PreValidateSchema(valid: Regex, doc: Json) returns (r: Verdict)
    requires UniqueNames(doc)
    ensures r.Accepted? <==> PatternsValid(valid, doc) && !exists cycle :: RefCycle(doc, cycle)
    ensures r.InvalidPattern? <==> !PatternsValid(valid, doc)
    ensures r.SelfReferential? ==> exists cycle :: RefCycle(doc, cycle) && PointersOf(doc, cycle, r.chain)
    ensures r.Accepted? ==> forall p :: p in Refs(doc, "") ==> Ends(Refs(doc, ""), p)
  {
    var v := new PreValidator();
    var ok := v.Walk(valid, doc, "");
    PatternsBelowIsValid(valid, doc);
    if !ok { return InvalidPattern; }
    assert v.refs == Refs(doc, "");
    var found := DetectRefCycles(v.refs);
    if found.Some? {
      ghost var cycle := ReportedCycleIsReal(doc, found.value);
      return SelfReferential(found.value);
    }
    forall cycle ensures !RefCycle(doc, cycle) {
      if RefCycle(doc, cycle) { CycleIsRecorded(doc, cycle); }
    }
    return Accepted;
  }
}
