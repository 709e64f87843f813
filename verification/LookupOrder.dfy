/** The priority list of conflict lookups (identity/manager.go, ConflictingIdentity). */
module LookupOrder {
  import opened Sorting
  import opened Wrappers
  import Conflict

  datatype Address = Address(via: string, value: string)

  datatype Query =
    | ByCredential(kind: string, identifier: string)
    | ByVerifiable(address: Address)
    | ByRecovery(address: Address)

  datatype Identity = Identity(
    credentials: map<string, seq<string>>, verifiable: seq<Address>, recovery: seq<Address>)

  /** Credential identifiers first, then verifiable addresses, then recovery addresses; credential types in order. */
  ghost predicate Before(a: Query, b: Query) {
    match a
    case ByCredential(kind, _) => b.ByCredential? ==> kind == b.kind || StrLess(kind, b.kind)
    case ByVerifiable(_) => !b.ByCredential?
    case ByRecovery(_) => b.ByRecovery?
  }

  ghost predicate Prioritised(qs: seq<Query>) {
    forall i, j :: 0 <= i < j < |qs| ==> Before(qs[i], qs[j])
  }

  /** The queries for the first `n` identifiers or addresses. */
  function OfKind(kind: string, identifiers: seq<string>, n: nat): (qs: seq<Query>)
    requires n <= |identifiers|
  {
    if n == 0 then [] else OfKind(kind, identifiers, n - 1) + [ByCredential(kind, identifiers[n - 1])]
  }

  function OfVerifiable(addresses: seq<Address>, n: nat): seq<Query>
    requires n <= |addresses|
  {
    if n == 0 then [] else OfVerifiable(addresses, n - 1) + [ByVerifiable(addresses[n - 1])]
  }

  function OfRecovery(addresses: seq<Address>, n: nat): seq<Query>
    requires n <= |addresses|
  {
    if n == 0 then [] else OfRecovery(addresses, n - 1) + [ByRecovery(addresses[n - 1])]
  }

  function IdentifiersOf(credentials: map<string, seq<string>>, kind: string): seq<string> {
    if kind in credentials then credentials[kind] else []
  }

  function AllOfKind(credentials: map<string, seq<string>>, kind: string): seq<Query> {
    var identifiers := IdentifiersOf(credentials, kind);
    OfKind(kind, identifiers, |identifiers|)
  }

  /** The queries of the first `n` credential types. */
  ghost function OfKinds(credentials: map<string, seq<string>>, kinds: seq<string>, n: nat): seq<Query>
    requires n <= |kinds|
  {
    if n == 0 then []
    else OfKinds(credentials, kinds, n - 1) + AllOfKind(credentials, kinds[n - 1])
  }

  ghost function CredentialQueries(credentials: map<string, seq<string>>): seq<Query> {
    var kinds := SortedSeq(StrLess, credentials.Keys);
    OfKinds(credentials, kinds, |kinds|)
  }

  /** The list as a function of the identity alone. */
  ghost function Priority(i: Identity): seq<Query> {
    CredentialQueries(i.credentials) + OfVerifiable(i.verifiable, |i.verifiable|) + OfRecovery(i.recovery, |i.recovery|)
  }

  lemma {:induction false} OfKindsOrdered(credentials: map<string, seq<string>>, kinds: seq<string>, n: nat)
    requires n <= |kinds| && StrictlySorted(StrLess, kinds)
    ensures var qs := OfKinds(credentials, kinds, n);
      Prioritised(qs) && forall q :: q in qs ==> q.ByCredential? && q.kind in kinds[..n]
  {
    if n > 0 {
      OfKindsOrdered(credentials, kinds, n - 1);
      var init, last := OfKinds(credentials, kinds, n - 1), AllOfKind(credentials, kinds[n - 1]);
      var qs := init + last;
      assert kinds[..n] == kinds[..n - 1] + [kinds[n - 1]];
      forall q ensures q in last ==> q.ByCredential? && q.kind == kinds[n - 1] {
        var identifiers := IdentifiersOf(credentials, kinds[n - 1]);
        OfKindHolds(kinds[n - 1], identifiers, |identifiers|, q);
      }
      forall i, j | 0 <= i < j < |qs| ensures Before(qs[i], qs[j]) {
        if i < |init| { assert qs[i] in init; } else { assert qs[i] in last; }
        if j >= |init| { assert qs[j] in last; }
      }
    }
  }

  lemma {:induction false} OfKindsHolds(credentials: map<string, seq<string>>, kinds: seq<string>, n: nat, q: Query)
    requires n <= |kinds|
    ensures q in OfKinds(credentials, kinds, n)
       <==> q.ByCredential? && q.kind in kinds[..n] && q.identifier in IdentifiersOf(credentials, q.kind)
  {
    if n > 0 {
      OfKindsHolds(credentials, kinds, n - 1, q);
      assert kinds[..n] == kinds[..n - 1] + [kinds[n - 1]];
      var identifiers := IdentifiersOf(credentials, kinds[n - 1]);
      OfKindHolds(kinds[n - 1], identifiers, |identifiers|, q);
      assert identifiers[..|identifiers|] == identifiers;
    }
  }

  lemma {:induction false} OfKindHolds(kind: string, identifiers: seq<string>, n: nat, q: Query)
    requires n <= |identifiers|
    ensures q in OfKind(kind, identifiers, n) <==> q.ByCredential? && q.kind == kind && q.identifier in identifiers[..n]
  {
    if n > 0 {
      OfKindHolds(kind, identifiers, n - 1, q);
      assert identifiers[..n] == identifiers[..n - 1] + [identifiers[n - 1]];
    }
  }

  lemma {:induction false} AddressQueriesHold(addresses: seq<Address>, n: nat, q: Query)
    requires n <= |addresses|
    ensures q in OfVerifiable(addresses, n) <==> q.ByVerifiable? && q.address in addresses[..n]
    ensures q in OfRecovery(addresses, n) <==> q.ByRecovery? && q.address in addresses[..n]
  {
    if n > 0 {
      AddressQueriesHold(addresses, n - 1, q);
      assert addresses[..n] == addresses[..n - 1] + [addresses[n - 1]];
    }
  }

  lemma CredentialQueriesHold(credentials: map<string, seq<string>>, q: Query)
    ensures q in CredentialQueries(credentials)
       <==> q.ByCredential? && q.kind in credentials && q.identifier in credentials[q.kind]
  {
    StrLessStrict();
    SortedSeqSorted(StrLess, credentials.Keys);
    var kinds := SortedSeq(StrLess, credentials.Keys);
    OfKindsHolds(credentials, kinds, |kinds|, q);
    assert kinds[..|kinds|] == kinds;
    if q.ByCredential? { assert q.kind in kinds <==> q.kind in Elements(kinds); }
  }

  /** Exactly the identity's credential identifiers and addresses are looked up. */
  lemma PriorityIsComplete(i: Identity, q: Query)
    ensures q in Priority(i) <==>
      match q
      case ByCredential(kind, identifier) => kind in i.credentials && identifier in i.credentials[kind]
      case ByVerifiable(address) => address in i.verifiable
      case ByRecovery(address) => address in i.recovery
  {
    CredentialQueriesHold(i.credentials, q);
    AddressQueriesHold(i.verifiable, |i.verifiable|, q);
    AddressQueriesHold(i.recovery, |i.recovery|, q);
    assert i.verifiable[..|i.verifiable|] == i.verifiable && i.recovery[..|i.recovery|] == i.recovery;
  }

  /** Credential identifiers first, then verifiable addresses, then recovery addresses. */
  lemma PriorityIsOrdered(i: Identity)
    ensures Prioritised(Priority(i))
  {
    StrLessStrict();
    SortedSeqSorted(StrLess, i.credentials.Keys);
    var kinds := SortedSeq(StrLess, i.credentials.Keys);
    OfKindsOrdered(i.credentials, kinds, |kinds|);
    var cs, vs := CredentialQueries(i.credentials), OfVerifiable(i.verifiable, |i.verifiable|);
    var rs := OfRecovery(i.recovery, |i.recovery|);
    forall q ensures (q in vs ==> q.ByVerifiable?) && (q in rs ==> q.ByRecovery?) {
      AddressQueriesHold(i.verifiable, |i.verifiable|, q);
      AddressQueriesHold(i.recovery, |i.recovery|, q);
    }
    assert forall a :: 0 <= a < |cs| ==> cs[a] in cs;
    assert forall a :: 0 <= a < |vs| ==> vs[a] in vs;
    assert forall a :: 0 <= a < |rs| ==> rs[a] in rs;
    PrioritisedConcat(cs, vs, rs);
  }

  lemma PrioritisedConcat(cs: seq<Query>, vs: seq<Query>, rs: seq<Query>)
    requires Prioritised(cs) && forall k :: 0 <= k < |cs| ==> cs[k].ByCredential?
    requires forall k :: 0 <= k < |vs| ==> vs[k].ByVerifiable?
    requires forall k :: 0 <= k < |rs| ==> rs[k].ByRecovery?
    ensures Prioritised(cs + vs + rs)
  {}

  // ----- building the list -----

  /** The same list whatever order the credentials map is iterated in. */
  method LookupList(i: Identity) returns (qs: seq<Query>)
    ensures qs == Priority(i)
  {
    var kinds := SortedKeys(i.credentials);
    var credentials := KindsLookups(i.credentials, kinds);
    var verifiable := [];
    for k := 0 to |i.verifiable|
      invariant verifiable == OfVerifiable(i.verifiable, k)
    {
      verifiable := verifiable + [ByVerifiable(i.verifiable[k])];
    }
    var recovery := [];
    for k := 0 to |i.recovery|
      invariant recovery == OfRecovery(i.recovery, k)
    {
      recovery := recovery + [ByRecovery(i.recovery[k])];
    }
    return credentials + verifiable + recovery;
  }

  method KindsLookups(credentials: map<string, seq<string>>, kinds: seq<string>) returns (qs: seq<Query>)
    requires forall k :: 0 <= k < |kinds| ==> kinds[k] in credentials
    ensures qs == OfKinds(credentials, kinds, |kinds|)
  {
    qs := [];
    for k := 0 to |kinds|
      invariant qs == OfKinds(credentials, kinds, k)
    {
      var found := KindLookups(kinds[k], credentials[kinds[k]]);
      qs := qs + found;
    }
  }

  method KindLookups(kind: string, identifiers: seq<string>) returns (qs: seq<Query>)
    ensures qs == OfKind(kind, identifiers, |identifiers|)
  {
    qs := [];
    for n := 0 to |identifiers|
      invariant qs == OfKind(kind, identifiers, n)
    {
      qs := qs + [ByCredential(kind, identifiers[n])];
    }
  }

  // ----- the search over the list -----

  /** What the lookups return, each a function of its query. */
  ghost function Answers<M>(answer: Query -> Conflict.Lookup<M>, qs: seq<Query>): seq<Conflict.Lookup<M>> {
    seq(|qs|, k requires 0 <= k < |qs| => answer(qs[k]))
  }

  /** The search returns one answer determined by the identity, inside and outside a transaction, for every iteration
      order of its maps and every schedule of the lookups. */
  method ConflictOf<M>(i: Identity, answer: Query -> Conflict.Lookup<M>, inTransaction: bool)
    returns (r: Result<M, Conflict.Error>)
    ensures r == Conflict.FirstConflict(Answers(answer, Priority(i)))
  {
    var qs := LookupList(i);
    var lookups := seq(|qs|, k requires 0 <= k < |qs| => answer(qs[k]));
    r := Conflict.FindFirstConflict(inTransaction, lookups);
    assert lookups == Answers(answer, Priority(i));
    Conflict.FirstConflictUnique(lookups, r, Conflict.FirstConflict(lookups));
  }

  /** Query `k` reports `m`, and no query before it decides. */
  ghost predicate DecidedBy<M>(answer: Query -> Conflict.Lookup<M>, qs: seq<Query>, k: nat, m: M) {
    && k < |qs| && answer(qs[k]) == Conflict.Lookup(Some(m), None)
    && forall j :: 0 <= j < k ==> Conflict.Undecided(answer(qs[j]))
  }

  /** A reported conflict answers one of the queries in the list, the first that decides. */
  lemma ConflictIsOwn<M>(qs: seq<Query>, answer: Query -> Conflict.Lookup<M>, m: M)
    requires Conflict.FirstConflict(Answers(answer, qs)) == Ok(m)
    ensures exists k: nat :: DecidedBy(answer, qs, k, m)
  {
    var lookups := Answers(answer, qs);
    assert Conflict.IsFirstConflict(lookups, Ok(m));
    var k :| 0 <= k < |lookups| && !Conflict.Undecided(lookups[k]) && Ok(m) == Conflict.Verdict(lookups[k])
      && forall j :: 0 <= j < k ==> Conflict.Undecided(lookups[j]);
    assert forall j :: 0 <= j < k ==> answer(qs[j]) == lookups[j];
    assert DecidedBy(answer, qs, k, m);
  }

  // ----- the order inside one kind -----

  lemma {:induction false} OfKindAt(kind: string, identifiers: seq<string>, n: nat, k: nat)
    requires k < n <= |identifiers|
    ensures |OfKind(kind, identifiers, n)| == n && OfKind(kind, identifiers, n)[k] == ByCredential(kind, identifiers[k])
  {
    if n > 1 { OfKindAt(kind, identifiers, n - 1, if k < n - 1 then k else 0); }
  }

  lemma {:induction false} OfAddressesAt(addresses: seq<Address>, n: nat)
    requires n <= |addresses|
    ensures |OfVerifiable(addresses, n)| == n && |OfRecovery(addresses, n)| == n
    ensures forall k :: 0 <= k < n ==> OfVerifiable(addresses, n)[k] == ByVerifiable(addresses[k])
    ensures forall k :: 0 <= k < n ==> OfRecovery(addresses, n)[k] == ByRecovery(addresses[k])
  {
    if n > 0 { OfAddressesAt(addresses, n - 1); }
  }

  /** From `at` on, the list asks for the identifiers of a kind, in their order. */
  ghost predicate AsksFrom(qs: seq<Query>, at: nat, kind: string, identifiers: seq<string>) {
    at + |identifiers| <= |qs| && forall k :: 0 <= k < |identifiers| ==> qs[at + k] == ByCredential(kind, identifiers[k])
  }

  lemma {:induction false} KindIsTogether(credentials: map<string, seq<string>>, kinds: seq<string>, n: nat, j: nat) returns (at: nat)
    requires j < n <= |kinds| && kinds[j] in credentials
    ensures AsksFrom(OfKinds(credentials, kinds, n), at, kinds[j], credentials[kinds[j]])
    decreases n
  {
    var init, last := OfKinds(credentials, kinds, n - 1), AllOfKind(credentials, kinds[n - 1]);
    if j < n - 1 {
      at := KindIsTogether(credentials, kinds, n - 1, j);
    } else {
      at := |init|;
      var identifiers := credentials[kinds[j]];
      forall k | 0 <= k < |identifiers| ensures |last| == |identifiers| && last[k] == ByCredential(kinds[j], identifiers[k]) {
        OfKindAt(kinds[j], identifiers, |identifiers|, k);
      }
    }
  }

  /** From `n` on, the list asks for the verifiable and then the recovery addresses, each in their own order. */
  ghost predicate AddressesFrom(qs: seq<Query>, n: nat, verifiable: seq<Address>, recovery: seq<Address>) {
    && |qs| == n + |verifiable| + |recovery|
    && (forall k :: n <= k < n + |verifiable| ==> qs[k] == ByVerifiable(verifiable[k - n]))
    && forall k :: n + |verifiable| <= k < |qs| ==> qs[k] == ByRecovery(recovery[k - n - |verifiable|])
  }

  lemma ConcatAddresses(cs: seq<Query>, vs: seq<Query>, rs: seq<Query>, verifiable: seq<Address>, recovery: seq<Address>)
    requires |vs| == |verifiable| && forall k :: 0 <= k < |vs| ==> vs[k] == ByVerifiable(verifiable[k])
    requires |rs| == |recovery| && forall k :: 0 <= k < |rs| ==> rs[k] == ByRecovery(recovery[k])
    ensures AddressesFrom(cs + vs + rs, |cs|, verifiable, recovery)
  {}

  lemma AsksFromGrows(qs: seq<Query>, more: seq<Query>, at: nat, kind: string, identifiers: seq<string>)
    requires AsksFrom(qs, at, kind, identifiers)
    ensures AsksFrom(qs + more, at, kind, identifiers)
  {}

  lemma PriorityIsConcat(i: Identity, cs: seq<Query>, vs: seq<Query>, rs: seq<Query>)
    requires cs == CredentialQueries(i.credentials)
    requires vs == OfVerifiable(i.verifiable, |i.verifiable|) && rs == OfRecovery(i.recovery, |i.recovery|)
    ensures Priority(i) == cs + vs + rs
  {}

  /** The identifiers of one credential type, the verifiable and the recovery addresses are asked for in their own order. */
  lemma PriorityKeepsOrder(i: Identity, kind: string) returns (at: nat, n: nat)
    ensures kind in i.credentials ==> AsksFrom(Priority(i), at, kind, i.credentials[kind])
    ensures AddressesFrom(Priority(i), n, i.verifiable, i.recovery)
  {
    var cs := CredentialQueries(i.credentials);
    var vs, rs := OfVerifiable(i.verifiable, |i.verifiable|), OfRecovery(i.recovery, |i.recovery|);
    OfAddressesAt(i.verifiable, |i.verifiable|);
    OfAddressesAt(i.recovery, |i.recovery|);
    ConcatAddresses(cs, vs, rs, i.verifiable, i.recovery);
    PriorityIsConcat(i, cs, vs, rs);
    at, n := 0, |cs|;
    if kind in i.credentials {
      at := CredentialsKeepOrder(i.credentials, kind);
      AsksFromGrows(cs, vs, at, kind, i.credentials[kind]);
      AsksFromGrows(cs + vs, rs, at, kind, i.credentials[kind]);
    }
  }

  lemma CredentialsKeepOrder(credentials: map<string, seq<string>>, kind: string) returns (at: nat)
    requires kind in credentials
    ensures AsksFrom(CredentialQueries(credentials), at, kind, credentials[kind])
  {
    StrLessStrict();
    SortedSeqSorted(StrLess, credentials.Keys);
    var kinds := SortedSeq(StrLess, credentials.Keys);
    assert kind in Elements(kinds);
    var j :| 0 <= j < |kinds| && kinds[j] == kind;
    at := KindIsTogether(credentials, kinds, |kinds|, j);
  }
}
