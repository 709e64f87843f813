/** Verifiable and recovery addresses rebuilt from the traits while keeping existing records
    (identity/extension_verification.go, identity/extension_recovery.go). */
module Addresses {
  import opened Wrappers

  datatype Status = Pending | Sent | Completed

  /** `id` is empty for a record that has not been stored. */
  datatype Address = Address(id: string, value: string, via: string, verified: bool, status: Status)

  /** Graceful normalisation, uninterpreted. */
  type Normalizer = string -> string

  datatype Key = Key(via: string, value: string)

  function KeyOf(norm: Normalizer, a: Address): Key { Key(a.via, norm(a.value)) }

  /** What the schema extension found in the traits. */
  datatype Trait = Trait(value: string, via: string)

  function Fresh(t: Trait): Address { Address("", t.value, t.via, false, Pending) }

  /** The first address with this key. */
  function First(norm: Normalizer, haystack: seq<Address>, key: Key): (r: Option<Address>)
    ensures r.Some? ==> r.value in haystack && KeyOf(norm, r.value) == key
    ensures r.None? ==> forall i :: 0 <= i < |haystack| ==> KeyOf(norm, haystack[i]) != key
  {
    if haystack == [] then None
    else if KeyOf(norm, haystack[0]) == key then Some(haystack[0])
    else First(norm, haystack[1..], key)
  }

  /** The record kept for a trait: the existing one with its key, otherwise a fresh one. */
  function Record(norm: Normalizer, existing: seq<Address>, t: Trait): (r: Address)
    ensures KeyOf(norm, r) == KeyOf(norm, Fresh(t))
  {
    match First(norm, existing, KeyOf(norm, Fresh(t)))
    case Some(a) => a
    case None => Fresh(t)
  }

  predicate HasKey(norm: Normalizer, s: seq<Address>, key: Key) { First(norm, s, key).Some? }

  /** One record per key, in order of first occurrence. */
  ghost function Collected(norm: Normalizer, existing: seq<Address>, traits: seq<Trait>): seq<Address> {
    if traits == [] then []
    else
      var n := |traits| - 1;
      var before := Collected(norm, existing, traits[..n]);
      if HasKey(norm, before, KeyOf(norm, Fresh(traits[n]))) then before
      else before + [Record(norm, existing, traits[n])]
  }

  ghost predicate DistinctKeys(norm: Normalizer, s: seq<Address>) {
    forall i, j :: 0 <= i < j < |s| ==> KeyOf(norm, s[i]) != KeyOf(norm, s[j])
  }

  /** No earlier trait has the key of trait `k`. */
  ghost predicate FirstTrait(norm: Normalizer, traits: seq<Trait>, k: int) {
    0 <= k < |traits| && forall m :: 0 <= m < k ==> KeyOf(norm, Fresh(traits[m])) != KeyOf(norm, Fresh(traits[k]))
  }

  /** `existing` holds the identity's addresses; `v` is the list being built. */
  class AddressExtension {
    const norm: Normalizer
    var v: seq<Address>
    var existing: seq<Address>

    constructor (norm: Normalizer, existing: seq<Address>)
      ensures this.norm == norm && this.existing == existing && v == []
    {
      this.norm, this.existing, v := norm, existing, [];
    }

    method Has(haystack: seq<Address>, needle: Address) returns (r: Option<Address>)
      ensures r == First(norm, haystack, KeyOf(norm, needle))
    {
      var normalizedNeedle := norm(needle.value);
      for k := 0 to |haystack|
        invariant First(norm, haystack, KeyOf(norm, needle)) == First(norm, haystack[k..], KeyOf(norm, needle))
      {
        assert haystack[k..][1..] == haystack[k + 1..];
        if haystack[k].via == needle.via && norm(haystack[k].value) == normalizedNeedle { return Some(haystack[k]); }
      }
      return None;
    }

    method AppendAddress(t: Trait)
      modifies this
      ensures existing == old(existing)
      ensures v == if HasKey(norm, old(v), KeyOf(norm, Fresh(t))) then old(v) else old(v) + [Record(norm, existing, t)]
    {
      var h := Has(existing, Fresh(t));
      if h.Some? {
        var mine := Has(v, Fresh(t));
        if mine.None? { v := v + [h.value]; }
        return;
      }
      var mine := Has(v, Fresh(t));
      if mine.None? { v := v + [Fresh(t)]; }
    }

    /** Verification: the final merge overwrites each record with the existing one of its key. */
    method FinishVerification()
      modifies this
      ensures v == old(v) && |existing| == |old(v)|
      ensures forall i :: 0 <= i < |old(v)| ==>
        existing[i] == match First(norm, old(existing), KeyOf(norm, old(v)[i])) case Some(o) => o case None => old(v)[i]
    {
      var base := v;
      for i := 0 to |base|
        invariant |base| == |v| && v == old(v) && existing == old(existing)
        invariant forall k :: i <= k < |v| ==> base[k] == v[k]
        invariant forall k :: 0 <= k < i ==>
          base[k] == match First(norm, existing, KeyOf(norm, v[k])) case Some(o) => o case None => v[k]
      {
        var override := Has(existing, base[i]);
        if override.Some? { base := base[i := override.value]; }
      }
      existing := base;
    }

    /** Recovery: the collected list replaces the old one. */
    method FinishRecovery()
      modifies this
      ensures v == old(v) && existing == v
    {
      existing := v;
    }

    /** A whole pass, of either extension: the identity ends up with exactly the collected records. */
    method Validate(traits: seq<Trait>, recovery: bool)
      requires v == []
      modifies this
      ensures existing == Collected(norm, old(existing), traits)
    {
      for k := 0 to |traits|
        invariant existing == old(existing) && v == Collected(norm, existing, traits[..k])
      {
        assert traits[..k + 1][..k] == traits[..k];
        AppendAddress(traits[k]);
      }
      assert traits[..|traits|] == traits;
      CollectedRecords(norm, existing, traits);
      ghost var collected := v;
      assert forall i :: 0 <= i < |v| ==> RightRecord(norm, existing, traits, v[i]);
      if recovery { FinishRecovery(); } else { FinishVerification(); }
      assert existing == collected;
    }
  }

  lemma {:induction false} FirstAppend(norm: Normalizer, s: seq<Address>, a: Address, key: Key)
    ensures First(norm, s + [a], key)
         == if HasKey(norm, s, key) then First(norm, s, key) else if KeyOf(norm, a) == key then Some(a) else None
  {
    if s == [] {
      assert s + [a] == [a];
    } else {
      assert (s + [a])[1..] == s[1..] + [a];
      FirstAppend(norm, s[1..], a, key);
    }
  }

  ghost predicate InTraits(norm: Normalizer, traits: seq<Trait>, key: Key) {
    exists k :: 0 <= k < |traits| && KeyOf(norm, Fresh(traits[k])) == key
  }

  /** Collected addresses have pairwise distinct keys, and exactly the keys of the traits. */
  lemma {:induction false} CollectedKeys(norm: Normalizer, existing: seq<Address>, traits: seq<Trait>)
    ensures DistinctKeys(norm, Collected(norm, existing, traits))
    ensures forall key :: HasKey(norm, Collected(norm, existing, traits), key) <==> InTraits(norm, traits, key)
  {
    if traits != [] {
      var n := |traits| - 1;
      CollectedKeys(norm, existing, traits[..n]);
      var before, t := Collected(norm, existing, traits[..n]), traits[n];
      var c := Collected(norm, existing, traits);
      forall key ensures HasKey(norm, c, key) <==> InTraits(norm, traits, key) {
        FirstAppend(norm, before, Record(norm, existing, t), key);
        assert forall k :: 0 <= k < n ==> traits[..n][k] == traits[k];
        assert InTraits(norm, traits, key) <==> InTraits(norm, traits[..n], key) || KeyOf(norm, Fresh(t)) == key;
      }
      if !HasKey(norm, before, KeyOf(norm, Fresh(t))) {
        assert forall i :: 0 <= i < |before| ==> KeyOf(norm, before[i]) != KeyOf(norm, c[|before|]);
      }
    }
  }

  ghost predicate FreshFrom(norm: Normalizer, traits: seq<Trait>, a: Address) {
    exists k :: FirstTrait(norm, traits, k) && a == Fresh(traits[k])
  }

  /** The existing record of its key if there is one, otherwise the fresh address of the first trait with that key. */
  ghost predicate RightRecord(norm: Normalizer, existing: seq<Address>, traits: seq<Trait>, a: Address) {
    match First(norm, existing, KeyOf(norm, a))
    case Some(o) => a == o
    case None => FreshFrom(norm, traits, a)
  }

  ghost predicate AllRight(norm: Normalizer, existing: seq<Address>, traits: seq<Trait>, c: seq<Address>) {
    forall i :: 0 <= i < |c| ==> RightRecord(norm, existing, traits, c[i])
  }

  lemma StillRight(norm: Normalizer, existing: seq<Address>, traits: seq<Trait>, n: nat, a: Address)
    requires n <= |traits| && RightRecord(norm, existing, traits[..n], a)
    ensures RightRecord(norm, existing, traits, a)
  {
    if First(norm, existing, KeyOf(norm, a)).None? {
      var k :| FirstTrait(norm, traits[..n], k) && a == Fresh(traits[..n][k]);
      assert FirstTrait(norm, traits, k);
    }
  }

  lemma NewIsRight(norm: Normalizer, existing: seq<Address>, traits: seq<Trait>, n: nat)
    requires n < |traits|
    requires !HasKey(norm, Collected(norm, existing, traits[..n]), KeyOf(norm, Fresh(traits[n])))
    ensures RightRecord(norm, existing, traits, Record(norm, existing, traits[n]))
  {
    CollectedKeys(norm, existing, traits[..n]);
    forall m | 0 <= m < n ensures KeyOf(norm, Fresh(traits[m])) != KeyOf(norm, Fresh(traits[n])) {
      assert traits[..n][m] == traits[m];
      assert InTraits(norm, traits[..n], KeyOf(norm, Fresh(traits[m])));
    }
    assert FirstTrait(norm, traits, n);
  }

  /** Every collected address is the right record, so the final merge changes nothing. */
  lemma {:induction false} CollectedRecords(norm: Normalizer, existing: seq<Address>, traits: seq<Trait>)
    ensures AllRight(norm, existing, traits, Collected(norm, existing, traits))
  {
    if traits != [] {
      var n := |traits| - 1;
      CollectedRecords(norm, existing, traits[..n]);
      var before := Collected(norm, existing, traits[..n]);
      forall i | 0 <= i < |before| ensures RightRecord(norm, existing, traits, before[i]) {
        StillRight(norm, existing, traits, n, before[i]);
      }
      if !HasKey(norm, before, KeyOf(norm, Fresh(traits[n]))) {
        NewIsRight(norm, existing, traits, n);
      }
    }
  }

  lemma CollectedNext(norm: Normalizer, existing: seq<Address>, traits: seq<Trait>)
    requires traits != []
    ensures Collected(norm, existing, traits[..|traits| - 1]) <= Collected(norm, existing, traits)
  {}

  lemma {:induction false} CollectedGrows(norm: Normalizer, existing: seq<Address>, traits: seq<Trait>, k: nat)
    requires k <= |traits|
    ensures Collected(norm, existing, traits[..k]) <= Collected(norm, existing, traits)
    decreases |traits|
  {
    if k < |traits| {
      var n := |traits| - 1;
      CollectedGrows(norm, existing, traits[..n], k);
      assert traits[..n][..k] == traits[..k];
      CollectedNext(norm, existing, traits);
    } else {
      assert traits[..k] == traits;
    }
  }

  lemma {:induction false} FirstOfDistinct(norm: Normalizer, s: seq<Address>, i: nat)
    requires DistinctKeys(norm, s) && i < |s|
    ensures First(norm, s, KeyOf(norm, s[i])) == Some(s[i])
  {
    if i > 0 {
      assert s[1..][i - 1] == s[i];
      FirstOfDistinct(norm, s[1..], i - 1);
    }
  }

  lemma SameRecord(norm: Normalizer, existing: seq<Address>, traits: seq<Trait>, n: nat)
    requires n < |traits|
    requires !HasKey(norm, Collected(norm, existing, traits[..n]), KeyOf(norm, Fresh(traits[n])))
    ensures Record(norm, Collected(norm, existing, traits), traits[n]) == Record(norm, existing, traits[n])
  {
    var all, before := Collected(norm, existing, traits), Collected(norm, existing, traits[..n]);
    var r := Record(norm, existing, traits[n]);
    assert traits[..n + 1][..n] == traits[..n];
    assert Collected(norm, existing, traits[..n + 1]) == before + [r];
    CollectedGrows(norm, existing, traits, n + 1);
    CollectedKeys(norm, existing, traits);
    assert all[|before|] == r;
    FirstOfDistinct(norm, all, |before|);
  }

  lemma {:induction false} CollectAgain(norm: Normalizer, existing: seq<Address>, again: seq<Address>, traits: seq<Trait>, k: nat)
    requires k <= |traits| && again == Collected(norm, existing, traits)
    ensures Collected(norm, again, traits[..k]) == Collected(norm, existing, traits[..k])
    decreases k
  {
    if k > 0 {
      var n := k - 1;
      assert traits[..k][..n] == traits[..n];
      CollectAgain(norm, existing, again, traits, n);
      if !HasKey(norm, Collected(norm, existing, traits[..n]), KeyOf(norm, Fresh(traits[n]))) {
        SameRecord(norm, existing, traits, n);
      }
    }
  }

  /** Validating the same traits again returns the same list. */
  lemma RevalidationIsStable(norm: Normalizer, existing: seq<Address>, traits: seq<Trait>)
    ensures var once := Collected(norm, existing, traits); Collected(norm, once, traits) == once
  {
    CollectAgain(norm, existing, Collected(norm, existing, traits), traits, |traits|);
    assert traits[..|traits|] == traits;
  }

  // ----- the same in terms of the fields -----

  ghost predicate Holds(norm: Normalizer, s: seq<Address>, via: string, value: string) {
    exists a :: a in s && a.via == via && norm(a.value) == value
  }

  ghost predicate Occurs(norm: Normalizer, traits: seq<Trait>, via: string, value: string) {
    exists t :: t in traits && t.via == via && norm(t.value) == value
  }

  /** Exactly the channels and normalised values of the traits are collected, each once. */
  lemma CollectedExactly(norm: Normalizer, existing: seq<Address>, traits: seq<Trait>, via: string, value: string)
    ensures Holds(norm, Collected(norm, existing, traits), via, value) <==> Occurs(norm, traits, via, value)
    ensures var c := Collected(norm, existing, traits);
      forall i, j :: 0 <= i < j < |c| ==> c[i].via != c[j].via || norm(c[i].value) != norm(c[j].value)
  {
    var c, key := Collected(norm, existing, traits), Key(via, value);
    CollectedKeys(norm, existing, traits);
    assert HasKey(norm, c, key) <==> InTraits(norm, traits, key);
    assert forall i, j :: 0 <= i < j < |c| ==> KeyOf(norm, c[i]) != KeyOf(norm, c[j]);
    if Holds(norm, c, via, value) {
      var a :| a in c && a.via == via && norm(a.value) == value;
      var i :| 0 <= i < |c| && c[i] == a;
      assert KeyOf(norm, c[i]) == key;
      var k :| 0 <= k < |traits| && KeyOf(norm, Fresh(traits[k])) == key;
      assert traits[k] in traits;
    }
    if Occurs(norm, traits, via, value) {
      var t :| t in traits && t.via == via && norm(t.value) == value;
      var k :| 0 <= k < |traits| && traits[k] == t;
      assert KeyOf(norm, Fresh(traits[k])) == key;
    }
  }

  /** A collected address is an existing record, with whatever verification it has, or a new one from the traits:
      not stored yet, pending and unverified. It is new only if no existing record has its channel and normalised value. */
  lemma CollectedIsKeptOrNew(norm: Normalizer, existing: seq<Address>, traits: seq<Trait>, a: Address)
    requires a in Collected(norm, existing, traits)
    ensures a in existing || (a.id == "" && !a.verified && a.status == Pending && Trait(a.value, a.via) in traits)
    ensures Holds(norm, existing, a.via, norm(a.value)) ==> a in existing
  {
    var c := Collected(norm, existing, traits);
    CollectedRecords(norm, existing, traits);
    var i :| 0 <= i < |c| && c[i] == a;
    assert RightRecord(norm, existing, traits, c[i]);
    if First(norm, existing, KeyOf(norm, a)).None? {
      var k :| FirstTrait(norm, traits, k) && a == Fresh(traits[k]);
      assert Trait(a.value, a.via) == traits[k];
    }
  }
}
