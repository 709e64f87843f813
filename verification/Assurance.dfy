/** Session assurance levels and the identity's cached available level
    (session/session.go, session/manager_http.go, identity/identity.go, identity/manager.go). */
module Assurance {
  import opened Sorting
  import opened Wrappers

  datatype Level = AAL0 | AAL1 | AAL2

  function Rank(l: Level): nat { match l case AAL0 => 0 case AAL1 => 1 case AAL2 => 2 }

  /** One completed method. `upstream` methods are OIDC and SAML. */
  datatype Method = Method(name: string, aal: Level, completedAt: int)

  predicate Upstream(m: Method) { m.name == "oidc" || m.name == "saml" }

  /** A completed first factor and a completed second factor, or an upstream provider that did both. */
  ghost predicate TwoFactors(amr: seq<Method>) {
    && (exists m :: m in amr && m.aal == AAL2)
    && (exists m :: m in amr && (m.aal == AAL1 || (m.aal == AAL2 && (m.name == "oidc" || m.name == "saml"))))
  }

  ghost function SessionLevel(amr: seq<Method>): Level {
    if amr == [] then AAL0 else if TwoFactors(amr) then AAL2 else AAL1
  }

  /** The first `n` methods, each completed when the clock was read for it. */
  function Stamped(ams: seq<Method>, clock: nat -> int, n: nat): seq<Method>
    requires n <= |ams|
  {
    if n == 0 then [] else Stamped(ams, clock, n - 1) + [ams[n - 1].(completedAt := clock(n - 1))]
  }

  /** What counting the identity's credentials gives: per strategy, first-factor and second-factor counts or an error. */
  datatype Counter = Counter(firstFactor: Result<nat, string>, secondFactor: Result<nat, string>)

  datatype Error = NotSatisfied | UnknownLevel | CountError(reason: string)

  ghost function SumOf(counts: seq<Result<nat, string>>): Result<nat, string> {
    if counts == [] then Ok(0)
    else
      var n := |counts| - 1;
      match SumOf(counts[..n])
      case Err(e) => Err(e)
      case Ok(sum) =>
        match counts[n]
        case Err(e) => Err(e)
        case Ok(c) => Ok(sum + c)
  }

  function SecondFactors(counters: seq<Counter>): seq<Result<nat, string>> {
    seq(|counters|, k requires 0 <= k < |counters| => counters[k].secondFactor)
  }

  function FirstFactors(counters: seq<Counter>): seq<Result<nat, string>> {
    seq(|counters|, k requires 0 <= k < |counters| => counters[k].firstFactor)
  }

  /** The level a recount finds: a second factor counts on its own. */
  ghost function Recount(counters: seq<Counter>): Result<Level, string> {
    match SumOf(SecondFactors(counters))
    case Err(e) => Err(e)
    case Ok(second) =>
      if second > 0 then Ok(AAL2)
      else
        match SumOf(FirstFactors(counters))
        case Err(e) => Err(e)
        case Ok(first) => Ok(if first > 0 then AAL1 else AAL0)
  }

  method Count(counts: seq<Result<nat, string>>) returns (r: Result<nat, string>)
    ensures r == SumOf(counts)
  {
    var count := 0;
    for k := 0 to |counts|
      invariant SumOf(counts[..k]) == Ok(count)
    {
      assert counts[..k + 1][..k] == counts[..k];
      if counts[k].Err? {
        ErrorStays(counts, k + 1);
        return Err(counts[k].error);
      }
      count := count + counts[k].value;
    }
    assert counts[..|counts|] == counts;
    return Ok(count);
  }

  lemma {:induction false} ErrorStays(counts: seq<Result<nat, string>>, k: nat)
    requires k <= |counts| && SumOf(counts[..k]).Err?
    ensures SumOf(counts) == SumOf(counts[..k])
    decreases |counts|
  {
    if k < |counts| {
      var n := |counts| - 1;
      assert counts[..n][..k] == counts[..k];
      ErrorStays(counts[..n], k);
    } else {
      assert counts[..k] == counts;
    }
  }

  /** `cached` is the identity's available level: absent, or any level, possibly stale. */
  class Session {
    var amr: seq<Method>
    var level: Level
    var cached: Option<Level>
    var stored: Option<Level>
    var authenticatedAt: int

    constructor (amr: seq<Method>, cached: Option<Level>, now: int)
      ensures this.amr == amr && this.cached == cached && stored == cached && authenticatedAt == now
    {
      this.amr, this.cached, stored, level, authenticatedAt := amr, cached, cached, AAL0, now;
    }

    method CompletedLoginForMethod(m: Method, now: int)
      modifies this
      ensures amr == old(amr) + [m.(completedAt := now)]
      ensures level == old(level) && cached == old(cached) && stored == old(stored) && authenticatedAt == old(authenticatedAt)
    {
      amr := amr + [m.(completedAt := now)];
    }

    method SetAuthenticatorAssuranceLevel()
      modifies this
      ensures level == SessionLevel(amr)
      ensures amr == old(amr) && cached == old(cached) && stored == old(stored) && authenticatedAt == old(authenticatedAt)
    {
      if |amr| == 0 {
        level := AAL0;
        return;
      }
      var isAAL1, isAAL2 := false, false;
      for k := 0 to |amr|
        invariant isAAL1 <==> exists i :: 0 <= i < k && (amr[i].aal == AAL1 || (amr[i].aal == AAL2 && Upstream(amr[i])))
        invariant isAAL2 <==> exists i :: 0 <= i < k && amr[i].aal == AAL2
        invariant amr == old(amr) && cached == old(cached) && stored == old(stored) && authenticatedAt == old(authenticatedAt)
      {
        match amr[k].aal {
          case AAL1 => isAAL1 := true;
          case AAL2 =>
            isAAL2 := true;
            if Upstream(amr[k]) { isAAL1 := true; }
          case AAL0 =>
        }
      }
      level := if isAAL1 && isAAL2 then AAL2 else AAL1;
    }

    method SetAvailableAAL(counters: seq<Counter>) returns (err: Option<string>)
      modifies this
      ensures amr == old(amr) && level == old(level) && stored == old(stored) && authenticatedAt == old(authenticatedAt)
      ensures match Recount(counters)
              case Ok(l) => err.None? && cached == Some(l)
              case Err(e) => err == Some(e) && cached == old(cached)
    {
      var second := Count(SecondFactors(counters));
      if second.Err? { return Some(second.error); }
      if second.value > 0 {
        cached := Some(AAL2);
        return None;
      }
      var first := Count(FirstFactors(counters));
      if first.Err? { return Some(first.error); }
      cached := Some(if first.value > 0 then AAL1 else AAL0);
      return None;
    }

    /** Appends the methods, stamped with the clock as it is read for each; the session counts as authenticated at the
        last read, and the level is recomputed and has not fallen. */
    method SessionAddAuthenticationMethods(ams: seq<Method>, clock: nat -> int)
      modifies this
      ensures amr == old(amr) + Stamped(ams, clock, |ams|) && cached == old(cached) && stored == old(stored)
      ensures authenticatedAt == clock(|ams|)
      ensures level == SessionLevel(amr) && Rank(level) >= Rank(SessionLevel(old(amr)))
    {
      for k := 0 to |ams|
        invariant amr == old(amr) + Stamped(ams, clock, k) && cached == old(cached) && stored == old(stored)
      {
        CompletedLoginForMethod(ams[k], clock(k));
      }
      authenticatedAt := clock(|ams|);
      LevelNeverFalls(old(amr), Stamped(ams, clock, |ams|));
      SetAuthenticatorAssuranceLevel();
    }

    /** `None` is success. While a cached AAL2 is truthful the verdict is that of a recount, and the cache stays truthful. */
    method DoesSessionSatisfy(requested: string, counters: seq<Counter>, upsert: bool) returns (err: Option<Error>)
      modifies this
      ensures amr == old(amr) && level == SessionLevel(amr) && authenticatedAt == old(authenticatedAt)
      ensures err == Verdict(SessionLevel(amr), requested, old(cached), Recount(counters))
      ensures (old(cached) == Some(AAL2) ==> Recount(counters) == Ok(AAL2)) ==>
        && err == Verdict(SessionLevel(amr), requested, None, Recount(counters))
        && (cached == Some(AAL2) ==> Recount(counters) == Ok(AAL2))
      ensures requested == "aal1" ==> (err.None? <==> amr != [])
      ensures requested != "aal1" && requested != "highest_available" ==> (err.None? <==> SessionLevel(amr) == AAL2)
      ensures requested == "highest_available" && Recount(counters).Ok? ==>
        (err.None? <==>
          SessionLevel(amr) == AAL2 || (old(cached) != Some(AAL2) && Recount(counters).value != AAL2))
      ensures stored == if upsert && Upgraded(SessionLevel(amr), requested, old(cached), Recount(counters))
                        then Some(AAL2) else old(stored)
    {
      SetAuthenticatorAssuranceLevel();
      if level == AAL2 { return None; }
      if requested == "aal1" {
        if Rank(level) >= Rank(AAL1) { return None; }
        return Some(NotSatisfied);
      }
      if requested == "highest_available" {
        if cached == Some(AAL2) { return Some(NotSatisfied); }
        var failed := SetAvailableAAL(counters);
        if failed.Some? { return Some(CountError(failed.value)); }
        match cached.value {
          case AAL0 => return None;
          case AAL1 => return None;
          case AAL2 =>
            if upsert { stored := cached; }
            return Some(NotSatisfied);
        }
      }
      return Some(UnknownLevel);
    }
  }

  /** The request reaches the recount and the recount finds a second factor. */
  ghost predicate Upgraded(level: Level, requested: string, cached: Option<Level>, recount: Result<Level, string>) {
    level != AAL2 && requested == "highest_available" && cached != Some(AAL2) && recount == Ok(AAL2)
  }

  ghost function Verdict(level: Level, requested: string, cached: Option<Level>, recount: Result<Level, string>): Option<Error> {
    if level == AAL2 then None
    else if requested == "aal1" then (if level == AAL1 then None else Some(NotSatisfied))
    else if requested != "highest_available" then Some(UnknownLevel)
    else if cached == Some(AAL2) then Some(NotSatisfied)
    else
      match recount
      case Err(e) => Some(CountError(e))
      case Ok(l) => if l == AAL2 then Some(NotSatisfied) else None
  }

  // ----- properties -----

  /** The level depends only on which methods were completed, not on their order. */
  lemma LevelIgnoresOrder(a: seq<Method>, b: seq<Method>)
    requires multiset(a) == multiset(b)
    ensures SessionLevel(a) == SessionLevel(b)
  {
    MultisetElements(a, b);
    assert |multiset(a)| == |a| && |multiset(b)| == |b|;
  }

  /** When the methods were completed does not matter either. */
  lemma LevelIgnoresTimes(a: seq<Method>, b: seq<Method>)
    requires |a| == |b| && forall k :: 0 <= k < |a| ==> a[k].name == b[k].name && a[k].aal == b[k].aal
    ensures SessionLevel(a) == SessionLevel(b)
  {
    TwoFactorsWithin(a, b);
    TwoFactorsWithin(b, a);
  }

  lemma TwoFactorsWithin(a: seq<Method>, b: seq<Method>)
    requires |a| == |b| && forall k :: 0 <= k < |a| ==> a[k].name == b[k].name && a[k].aal == b[k].aal
    ensures TwoFactors(a) ==> TwoFactors(b)
  {
    if TwoFactors(a) {
      var m :| m in a && m.aal == AAL2;
      var n :| n in a && (n.aal == AAL1 || (n.aal == AAL2 && (n.name == "oidc" || n.name == "saml")));
      var i :| 0 <= i < |a| && a[i] == m;
      var j :| 0 <= j < |a| && a[j] == n;
      assert b[i] in b && b[j] in b;
    }
  }

  /** Completing another method never lowers the level. */
  lemma LevelNeverFalls(amr: seq<Method>, more: seq<Method>)
    ensures Rank(SessionLevel(amr)) <= Rank(SessionLevel(amr + more))
  {
    assert forall m :: m in amr ==> m in amr + more;
  }

  /** Over any sequence of requests against unchanged credentials, the cache is transparent for every start value
      in which a cached AAL2 is truthful: each verdict is that of an uncached recount. */
  method SatisfyAll(session: Session, requests: seq<string>, counters: seq<Counter>, upsert: bool)
    returns (verdicts: seq<Option<Error>>)
    requires session.cached == Some(AAL2) ==> Recount(counters) == Ok(AAL2)
    modifies session
    ensures session.amr == old(session.amr) && |verdicts| == |requests|
    ensures forall k :: 0 <= k < |requests| ==>
      verdicts[k] == Verdict(SessionLevel(session.amr), requests[k], None, Recount(counters))
  {
    verdicts := [];
    for k := 0 to |requests|
      invariant session.amr == old(session.amr) && |verdicts| == k
      invariant session.cached == Some(AAL2) ==> Recount(counters) == Ok(AAL2)
      invariant forall i :: 0 <= i < k ==>
        verdicts[i] == Verdict(SessionLevel(session.amr), requests[i], None, Recount(counters))
    {
      var v := session.DoesSessionSatisfy(requests[k], counters, upsert);
      verdicts := verdicts + [v];
    }
  }

  /** Truthfulness is exactly what this needs: a session below AAL2 sees a different verdict
      for `highest_available` if and only if AAL2 is cached and the recount does not confirm it. */
  lemma CacheTransparentIff(level: Level, cached: Option<Level>, recount: Result<Level, string>)
    ensures Verdict(level, "highest_available", cached, recount) == Verdict(level, "highest_available", None, recount)
       <==> level == AAL2 || (cached == Some(AAL2) ==> recount == Ok(AAL2))
  {}

  // ----- what a recount finds -----

  ghost predicate AllCounted(counts: seq<Result<nat, string>>) {
    forall k :: 0 <= k < |counts| ==> counts[k].Ok?
  }

  ghost predicate SomeCounted(counts: seq<Result<nat, string>>) {
    exists k :: 0 <= k < |counts| && counts[k].Ok? && counts[k].value > 0
  }

  /** The sum succeeds iff every count does, and is positive iff some count is. */
  lemma {:induction false} SumIff(counts: seq<Result<nat, string>>)
    ensures SumOf(counts).Ok? <==> AllCounted(counts)
    ensures AllCounted(counts) ==> (SumOf(counts).value > 0 <==> SomeCounted(counts))
  {
    if counts != [] {
      var n := |counts| - 1;
      SumIff(counts[..n]);
      assert counts == counts[..n] + [counts[n]];
      assert AllCounted(counts) <==> AllCounted(counts[..n]) && counts[n].Ok?;
      if SomeCounted(counts[..n]) {
        var k :| 0 <= k < n && counts[..n][k].Ok? && counts[..n][k].value > 0;
        assert counts[k] == counts[..n][k];
      }
      if SomeCounted(counts) && !(counts[n].Ok? && counts[n].value > 0) {
        var k :| 0 <= k < |counts| && counts[k].Ok? && counts[k].value > 0;
        assert counts[..n][k] == counts[k];
      }
    }
  }

  /** AAL2 iff a strategy counts a second factor, AAL1 iff none does and one counts a first factor, AAL0 iff neither;
      an error iff a count that is needed fails. */
  lemma RecountIff(counters: seq<Counter>)
    ensures var first, second := FirstFactors(counters), SecondFactors(counters);
      && (Recount(counters) == Ok(AAL2) <==> AllCounted(second) && SomeCounted(second))
      && (Recount(counters) == Ok(AAL1) <==> AllCounted(second) && !SomeCounted(second) && AllCounted(first) && SomeCounted(first))
      && (Recount(counters) == Ok(AAL0) <==> AllCounted(second) && !SomeCounted(second) && AllCounted(first) && !SomeCounted(first))
  {
    SumIff(FirstFactors(counters));
    SumIff(SecondFactors(counters));
  }
}
