/** Conflict lookup: the concurrent search returns what the sequential one returns (identity/manager.go). */
module Conflict {
  import opened Wrappers

  /** What one lookup returns: `NoRows` is the error `sqlcon.ErrNoRows`, any other error is a `Failure`. */
  datatype Error = NoRows | Failure(reason: string)

  datatype Lookup<M> = Lookup(match_: Option<M>, err: Option<Error>)

  const MAX_PARALLEL: nat := 8

  /** A lookup that decides nothing: no rows, or neither match nor error. */
  predicate Undecided<M>(l: Lookup<M>) {
    l.err == Some(NoRows) || (l.err.None? && l.match_.None?)
  }

  function Verdict<M>(l: Lookup<M>): Result<M, Error>
    requires !Undecided(l)
  {
    match l.err
    case Some(e) => Err(e)
    case None => Ok(l.match_.value)
  }

  /** The lowest-index lookup that decides wins; without one there are no rows. */
  ghost predicate IsFirstConflict<M>(lookups: seq<Lookup<M>>, r: Result<M, Error>) {
    if forall k :: 0 <= k < |lookups| ==> Undecided(lookups[k]) then r == Err(NoRows)
    else exists k :: 0 <= k < |lookups| && !Undecided(lookups[k]) && r == Verdict(lookups[k])
           && forall i :: 0 <= i < k ==> Undecided(lookups[i])
  }

  /** The answer as a function of the lookups. */
  function FirstConflict<M>(lookups: seq<Lookup<M>>): (r: Result<M, Error>)
    ensures IsFirstConflict(lookups, r)
  {
    if lookups == [] then Err(NoRows)
    else if Undecided(lookups[0]) then FirstConflict(lookups[1..])
    else Verdict(lookups[0])
  }

  /** Inside a transaction: one lookup after the other, stopping at the first match or error. */
  method FindSequential<M>(lookups: seq<Lookup<M>>) returns (r: Result<M, Error>)
    ensures IsFirstConflict(lookups, r)
  {
    for k := 0 to |lookups|
      invariant forall i :: 0 <= i < k ==> Undecided(lookups[i])
    {
      var l := lookups[k];
      if l.err == Some(NoRows) { continue; }
      if l.err.Some? { return Err(l.err.value); }
      if l.match_.None? { continue; }
      return Ok(l.match_.value);
    }
    return Err(NoRows);
  }

  // ----- every schedule of the concurrent search -----

  /** `launched` goroutines have been started in order; those in `running` have not returned.
      Each writes its own element of `results`. */
  datatype State<M> = State(launched: nat, running: set<nat>, results: seq<Lookup<M>>)

  function Blank<M>(): Lookup<M> { Lookup(None, None) }

  /** What goroutine `i` leaves in its element. */
  function Written<M>(l: Lookup<M>): Lookup<M> {
    if l.err == Some(NoRows) then Blank() else l
  }

  ghost predicate Init<M>(lookups: seq<Lookup<M>>, s: State<M>) {
    s == State(0, {}, seq(|lookups|, _ => Blank()))
  }

  /** The group blocks a launch while it is at its limit. */
  ghost predicate Launch<M>(lookups: seq<Lookup<M>>, s: State<M>, t: State<M>) {
    && s.launched < |lookups| && |s.running| < MAX_PARALLEL
    && t == s.(launched := s.launched + 1, running := s.running + {s.launched})
  }

  ghost predicate Return<M>(lookups: seq<Lookup<M>>, s: State<M>, t: State<M>, i: nat) {
    && i in s.running && i < |lookups| && i < |s.results|
    && t == s.(running := s.running - {i}, results := s.results[i := Written(lookups[i])])
  }

  ghost predicate Step<M>(lookups: seq<Lookup<M>>, s: State<M>, t: State<M>) {
    Launch(lookups, s, t) || exists i: nat :: Return(lookups, s, t, i)
  }

  ghost predicate CanStep<M>(lookups: seq<Lookup<M>>, s: State<M>) {
    || (s.launched < |lookups| && |s.running| < MAX_PARALLEL)
    || exists i: nat :: i in s.running && i < |lookups| && i < |s.results|
  }

  ghost predicate Schedule<M>(lookups: seq<Lookup<M>>, states: seq<State<M>>) {
    states != [] && Init(lookups, states[0])
    && forall k :: 0 <= k < |states| - 1 ==> Step(lookups, states[k], states[k + 1])
  }

  ghost predicate Finished<M>(lookups: seq<Lookup<M>>, s: State<M>) {
    s.launched == |lookups| && s.running == {}
  }

  ghost predicate Inv<M>(lookups: seq<Lookup<M>>, s: State<M>) {
    && |s.results| == |lookups| && s.launched <= |lookups| && |s.running| <= MAX_PARALLEL
    && (forall i :: i in s.running ==> 0 <= i < s.launched)
    && forall i :: 0 <= i < |lookups| ==>
         s.results[i] == if i < s.launched && i !in s.running then Written(lookups[i]) else Blank()
  }

  /** Steps taken so far: one per launch, one per return. */
  ghost function Taken<M>(s: State<M>): int {
    2 * s.launched - |s.running|
  }

  lemma LaunchKeepsInv<M>(lookups: seq<Lookup<M>>, s: State<M>, t: State<M>)
    requires Inv(lookups, s) && Launch(lookups, s, t)
    ensures Inv(lookups, t) && Taken(t) == Taken(s) + 1
  {
    assert s.launched !in s.running;
  }

  lemma ReturnKeepsInv<M>(lookups: seq<Lookup<M>>, s: State<M>, t: State<M>, i: nat)
    requires Inv(lookups, s) && Return(lookups, s, t, i)
    ensures Inv(lookups, t) && Taken(t) == Taken(s) + 1
  {}

  /** Every reachable state: at most 8 running, and each element is blank or its own lookup's outcome. */
  lemma {:induction false} ScheduleKeepsInv<M>(lookups: seq<Lookup<M>>, states: seq<State<M>>, n: nat)
    requires Schedule(lookups, states) && n < |states|
    ensures Inv(lookups, states[n]) && Taken(states[n]) == n
  {
    if n > 0 {
      ScheduleKeepsInv(lookups, states, n - 1);
      var s, t := states[n - 1], states[n];
      assert Step(lookups, s, states[n - 1 + 1]);
      if Launch(lookups, s, t) {
        LaunchKeepsInv(lookups, s, t);
      } else {
        var i: nat :| Return(lookups, s, t, i);
        ReturnKeepsInv(lookups, s, t, i);
      }
    }
  }

  /** After all goroutines returned, the outcomes are resolved in priority order. */
  method Resolve<M>(results: seq<Lookup<M>>) returns (r: Result<M, Error>)
    requires forall k :: 0 <= k < |results| ==> results[k].err != Some(NoRows)
    ensures IsFirstConflict(results, r)
  {
    for k := 0 to |results|
      invariant forall i :: 0 <= i < k ==> Undecided(results[i])
    {
      if results[k].err.Some? { return Err(results[k].err.value); }
      if results[k].match_.Some? { return Ok(results[k].match_.value); }
    }
    return Err(NoRows);
  }

  lemma FinalAgrees<M>(lookups: seq<Lookup<M>>, s: State<M>)
    requires Inv(lookups, s) && Finished(lookups, s)
    ensures forall k :: 0 <= k < |s.results| ==> s.results[k].err != Some(NoRows)
    ensures forall r :: IsFirstConflict(s.results, r) <==> IsFirstConflict(lookups, r)
  {
    var final := s.results;
    forall k | 0 <= k < |final| ensures
      && final[k] == Written(lookups[k])
      && (Undecided(final[k]) <==> Undecided(lookups[k]))
      && (!Undecided(lookups[k]) ==> final[k] == lookups[k])
    {}
    forall r ensures IsFirstConflict(final, r) <==> IsFirstConflict(lookups, r) {
      if IsFirstConflict(final, r) { SameVerdict(final, lookups, r); }
      if IsFirstConflict(lookups, r) { SameVerdict(lookups, final, r); }
    }
  }

  lemma SameVerdict<M>(a: seq<Lookup<M>>, b: seq<Lookup<M>>, r: Result<M, Error>)
    requires |a| == |b|
    requires forall k :: 0 <= k < |a| ==> (Undecided(a[k]) <==> Undecided(b[k])) && (Undecided(a[k]) || a[k] == b[k])
    requires IsFirstConflict(a, r)
    ensures IsFirstConflict(b, r)
  {
    if !(forall k :: 0 <= k < |a| ==> Undecided(a[k])) {
      var k :| 0 <= k < |a| && !Undecided(a[k]) && r == Verdict(a[k]) && forall i :: 0 <= i < k ==> Undecided(a[i]);
      assert !Undecided(b[k]) && r == Verdict(b[k]);
      assert forall i :: 0 <= i < k ==> Undecided(b[i]);
    }
  }

  /** Under every schedule with at most 8 running, a finished search resolves to the sequential answer. */
  lemma EveryScheduleAgrees<M>(lookups: seq<Lookup<M>>, states: seq<State<M>>)
    requires Schedule(lookups, states) && Finished(lookups, states[|states| - 1])
    ensures forall r :: IsFirstConflict(states[|states| - 1].results, r) <==> IsFirstConflict(lookups, r)
  {
    ScheduleKeepsInv(lookups, states, |states| - 1);
    FinalAgrees(lookups, states[|states| - 1]);
  }

  /** The verdict is unique, so the two searches return the same match, error or not-found. */
  lemma FirstConflictUnique<M>(lookups: seq<Lookup<M>>, a: Result<M, Error>, b: Result<M, Error>)
    requires IsFirstConflict(lookups, a) && IsFirstConflict(lookups, b)
    ensures a == b
  {
    if !(forall k :: 0 <= k < |lookups| ==> Undecided(lookups[k])) {
      var k :| 0 <= k < |lookups| && !Undecided(lookups[k]) && a == Verdict(lookups[k])
        && forall i :: 0 <= i < k ==> Undecided(lookups[i]);
      var m :| 0 <= m < |lookups| && !Undecided(lookups[m]) && b == Verdict(lookups[m])
        && forall i :: 0 <= i < m ==> Undecided(lookups[i]);
      assert k == m;
    }
  }

  /** No schedule gets stuck, and each finishes in exactly two steps per lookup. */
  lemma SchedulesFinish<M>(lookups: seq<Lookup<M>>, states: seq<State<M>>)
    requires Schedule(lookups, states)
    ensures |states| - 1 <= 2 * |lookups|
    ensures Finished(lookups, states[|states| - 1]) <==> |states| - 1 == 2 * |lookups|
    ensures Finished(lookups, states[|states| - 1]) || CanStep(lookups, states[|states| - 1])
  {
    var s := states[|states| - 1];
    ScheduleKeepsInv(lookups, states, |states| - 1);
    if s.running != {} {
      var i :| i in s.running;
      assert i < |lookups| && i < |s.results|;
    }
  }

  /** Outside a transaction: goroutines launched and returning in any order the scheduler likes. */
  method FindConcurrent<M>(lookups: seq<Lookup<M>>) returns (r: Result<M, Error>)
    ensures IsFirstConflict(lookups, r)
  {
    var results := new Lookup<M>[|lookups|](_ => Blank());
    var launched: nat, running: set<nat> := 0, {};
    assert results[..] == seq(|lookups|, _ => Blank());
    while launched < |lookups| || running != {}
      invariant Inv(lookups, State(launched, running, results[..]))
      decreases 2 * |lookups| - Taken(State(launched, running, results[..]))
    {
      ghost var s := State(launched, running, results[..]);
      if {
        case launched < |lookups| && |running| < MAX_PARALLEL =>
          LaunchKeepsInv(lookups, s, s.(launched := launched + 1, running := running + {launched}));
          launched, running := launched + 1, running + {launched};
        case running != {} =>
          var i :| i in running;
          ReturnKeepsInv(lookups, s, s.(running := running - {i}, results := s.results[i := Written(lookups[i])]), i);
          results[i] := Written(lookups[i]);
          assert results[..] == s.results[i := Written(lookups[i])];
          running := running - {i};
      }
    }
    FinalAgrees(lookups, State(launched, running, results[..]));
    r := Resolve(results[..]);
  }

  /** Both paths of the search give the one answer. */
  method FindFirstConflict<M>(inTransaction: bool, lookups: seq<Lookup<M>>) returns (r: Result<M, Error>)
    ensures IsFirstConflict(lookups, r)
  {
    if inTransaction { r := FindSequential(lookups); } else { r := FindConcurrent(lookups); }
  }

  // ----- the answer in terms of matches and errors -----

  /** No rows, or nothing at all. */
  ghost predicate Silent<M>(l: Lookup<M>) {
    match l.err
    case Some(NoRows) => true
    case Some(Failure(_)) => false
    case None => l.match_.None?
  }

  ghost predicate SilentBefore<M>(lookups: seq<Lookup<M>>, k: nat) {
    k <= |lookups| && forall i :: 0 <= i < k ==> Silent(lookups[i])
  }

  ghost predicate FailsAt<M>(lookups: seq<Lookup<M>>, reason: string, k: nat) {
    k < |lookups| && SilentBefore(lookups, k) && lookups[k].err == Some(Failure(reason))
  }

  ghost predicate MatchesAt<M>(lookups: seq<Lookup<M>>, m: M, k: nat) {
    k < |lookups| && SilentBefore(lookups, k) && lookups[k].err.None? && lookups[k].match_ == Some(m)
  }

  /** A failure is reported iff some lookup fails with it and all before it are silent. */
  lemma FailureIff<M>(lookups: seq<Lookup<M>>, reason: string)
    ensures FirstConflict(lookups) == Err(Failure(reason)) <==> exists k: nat :: FailsAt(lookups, reason, k)
  {
    if k: nat :| FailsAt(lookups, reason, k) { FirstDecides(lookups, k); }
    if FirstConflict(lookups) == Err(Failure(reason)) {
      if SilentBefore(lookups, |lookups|) { NoneDecides(lookups); }
      var k := FirstLoud(lookups);
      FirstDecides(lookups, k);
      assert FailsAt(lookups, reason, k);
    }
  }

  /** A match is reported iff some lookup returns it without an error and all before it are silent. */
  lemma MatchIff<M>(lookups: seq<Lookup<M>>, m: M)
    ensures FirstConflict(lookups) == Ok(m) <==> exists k: nat :: MatchesAt(lookups, m, k)
  {
    if k: nat :| MatchesAt(lookups, m, k) { FirstDecides(lookups, k); }
    if FirstConflict(lookups) == Ok(m) {
      if SilentBefore(lookups, |lookups|) { NoneDecides(lookups); }
      var k := FirstLoud(lookups);
      FirstDecides(lookups, k);
      assert MatchesAt(lookups, m, k);
    }
  }

  /** Nothing is found iff every lookup is silent. */
  lemma NotFoundIff<M>(lookups: seq<Lookup<M>>)
    ensures FirstConflict(lookups) == Err(NoRows) <==> SilentBefore(lookups, |lookups|)
  {
    if SilentBefore(lookups, |lookups|) {
      NoneDecides(lookups);
    } else {
      var k := FirstLoud(lookups);
      FirstDecides(lookups, k);
    }
  }

  lemma {:induction false} FirstDecides<M>(lookups: seq<Lookup<M>>, k: nat)
    requires k < |lookups| && SilentBefore(lookups, k) && !Silent(lookups[k])
    ensures !Undecided(lookups[k]) && FirstConflict(lookups) == Verdict(lookups[k])
  {
    if k > 0 {
      assert Silent(lookups[0]);
      FirstDecides(lookups[1..], k - 1);
    }
  }

  lemma {:induction false} NoneDecides<M>(lookups: seq<Lookup<M>>)
    requires SilentBefore(lookups, |lookups|)
    ensures FirstConflict(lookups) == Err(NoRows)
  {
    if lookups != [] {
      assert Silent(lookups[0]);
      NoneDecides(lookups[1..]);
    }
  }

  lemma {:induction false} FirstLoud<M>(lookups: seq<Lookup<M>>) returns (k: nat)
    requires !SilentBefore(lookups, |lookups|)
    ensures k < |lookups| && SilentBefore(lookups, k) && !Silent(lookups[k])
  {
    k := 0;
    if Silent(lookups[0]) {
      var i := FirstLoud(lookups[1..]);
      k := i + 1;
      forall j | 0 <= j < k ensures Silent(lookups[j]) { if j > 0 { assert lookups[j] == lookups[1..][j - 1]; } }
    }
  }
}
