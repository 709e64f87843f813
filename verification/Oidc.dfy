/** OIDC and SAML credentials: identifiers must mirror the provider list (identity/identity.go, identity/credentials_oidc.go,
    identity/handler_import.go). */
module Oidc {
  import opened Wrappers

  datatype Provider = Provider(provider: string, subject: string, organization: string, useAutoLink: bool)

  /** A credential row: its identifiers and the providers in its config. */
  datatype Credentials = Credentials(identifiers: seq<string>, providers: seq<Provider>)

  /** `Other` stands for every type that is not provider-based, such as password or WebAuthn. */
  datatype CredentialsType = OIDC | SAML | Other(name: string)

  datatype Error = BadRequest | NotFound | Internal

  function OIDCUniqueID(provider: string, subject: string): string { provider + ":" + subject }

  function IdOf(p: Provider): string { OIDCUniqueID(p.provider, p.subject) }

  function Ids(ps: seq<Provider>): (ids: seq<string>)
    ensures |ids| == |ps|
  {
    seq(|ps|, k requires 0 <= k < |ps| => IdOf(ps[k]))
  }

  ghost predicate Aligned(c: Credentials) { c.identifiers == Ids(c.providers) }

  /** Two subjects that make the unique IDs of two providers equal, both accepted by `NewCredentials`. */
  ghost predicate Collide(p: string, s: string, q: string, t: string) {
    s != "" && t != "" && OIDCUniqueID(p, s) == OIDCUniqueID(q, t)
  }

  /** For two provider names some non-empty subjects collide exactly when one name is the other followed by a colon. */
  lemma CollisionIff(p: string, q: string)
    requires p != q
    ensures (exists s, t :: Collide(p, s, q, t)) <==> p + ":" <= q || q + ":" <= p
  {
    if p + ":" <= q {
      CollidingSubjects(p, q, "t");
      assert Collide(p, q[|p| + 1..] + ":" + "t", q, "t");
    }
    if q + ":" <= p {
      CollidingSubjects(q, p, "t");
      assert Collide(p, "t", q, p[|q| + 1..] + ":" + "t");
    }
    forall s, t | Collide(p, s, q, t) ensures p + ":" <= q || q + ":" <= p {
      var id := OIDCUniqueID(p, s);
      assert id[..|p|] == p && id[|p|] == ':';
      assert id[..|q|] == q && id[|q|] == ':';
      if |p| < |q| {
        assert id[..|p| + 1] == p + ":";
      } else if |q| < |p| {
        assert id[..|q| + 1] == q + ":";
      }
    }
  }

  lemma CollidingSubjects(p: string, q: string, t: string)
    requires p + ":" <= q
    ensures OIDCUniqueID(p, q[|p| + 1..] + ":" + t) == OIDCUniqueID(q, t)
  {
    assert q == p + ":" + q[|p| + 1..];
  }

  /** With colon-free provider names the identifier determines provider and subject. */
  lemma UniqueIDInjective(p: string, s: string, q: string, t: string)
    requires ':' !in p && ':' !in q && OIDCUniqueID(p, s) == OIDCUniqueID(q, t)
    ensures p == q && s == t
  {
    var id := OIDCUniqueID(p, s);
    assert id[|p|] == ':' && id[|q|] == ':';
    assert forall i :: 0 <= i < |p| ==> p[i] == id[i];
    assert forall i :: 0 <= i < |q| ==> q[i] == id[i];
    assert |p| == |q|;
    assert id[|p| + 1..] == s && id[|q| + 1..] == t;
  }

  // ----- merging -----

  predicate Replaced(p: Provider, name: string) { p.provider == name && p.useAutoLink }

  function Kept(ps: seq<Provider>, name: string): seq<Provider> {
    if ps == [] then []
    else
      var n := |ps| - 1;
      Kept(ps[..n], name) + if Replaced(ps[n], name) then [] else [ps[n]]
  }

  function Obsolete(ps: seq<Provider>, name: string): seq<string> {
    if ps == [] then []
    else
      var n := |ps| - 1;
      Obsolete(ps[..n], name) + if Replaced(ps[n], name) then [IdOf(ps[n])] else []
  }

  function Without(ids: seq<string>, obsolete: seq<string>): seq<string> {
    if ids == [] then []
    else
      var n := |ids| - 1;
      Without(ids[..n], obsolete) + if ids[n] in obsolete then [] else [ids[n]]
  }

  /** No provider that stays shares its identifier with an auto-link entry that goes. */
  ghost predicate MergeGuard(ps: seq<Provider>, name: string) {
    forall i, j :: 0 <= i < |ps| && 0 <= j < |ps| && !Replaced(ps[i], name) && Replaced(ps[j], name) ==>
      IdOf(ps[i]) != IdOf(ps[j])
  }

  lemma {:induction false} ObsoleteHolds(ps: seq<Provider>, name: string, id: string)
    ensures id in Obsolete(ps, name) <==> exists j :: 0 <= j < |ps| && Replaced(ps[j], name) && IdOf(ps[j]) == id
  {
    if ps != [] {
      var n := |ps| - 1;
      ObsoleteHolds(ps[..n], name, id);
      assert forall j :: 0 <= j < n ==> ps[..n][j] == ps[j];
    }
  }

  lemma {:induction false} FilteredTogether(ps: seq<Provider>, name: string, obsolete: seq<string>)
    requires forall j :: 0 <= j < |ps| && Replaced(ps[j], name) ==> IdOf(ps[j]) in obsolete
    ensures |Without(Ids(ps), obsolete)| <= |Kept(ps, name)|
    ensures Without(Ids(ps), obsolete) == Ids(Kept(ps, name))
       <==> forall i :: 0 <= i < |ps| && !Replaced(ps[i], name) ==> IdOf(ps[i]) !in obsolete
  {
    if ps != [] {
      var n := |ps| - 1;
      FilteredTogether(ps[..n], name, obsolete);
      assert Ids(ps)[..n] == Ids(ps[..n]);
      assert forall i :: 0 <= i < n ==> ps[..n][i] == ps[i];
      var ids, kept := Without(Ids(ps[..n]), obsolete), Kept(ps[..n], name);
      assert kept + [] == kept && ids + [] == ids;
      if !Replaced(ps[n], name) {
        assert Ids(kept + [ps[n]]) == Ids(kept) + [IdOf(ps[n])];
        if IdOf(ps[n]) !in obsolete {
          assert ids + [IdOf(ps[n])] == Ids(kept) + [IdOf(ps[n])] <==> ids == Ids(kept) by {
            assert (ids + [IdOf(ps[n])])[..|ids|] == ids;
            assert (Ids(kept) + [IdOf(ps[n])])[..|kept|] == Ids(kept);
          }
        }
      }
    }
  }

  function Merged(c: Credentials, new_: Provider, newIds: seq<string>): Credentials {
    Credentials(
      Without(c.identifiers, Obsolete(c.providers, new_.provider)) + newIds,
      Kept(c.providers, new_.provider) + [new_])
  }

  /** The identifiers given with one new provider, or the unique ID if there is not exactly one. */
  function NewIds(newCreds: Credentials): seq<string>
    requires |newCreds.providers| == 1
  {
    if |newCreds.identifiers| == 1 then newCreds.identifiers else [IdOf(newCreds.providers[0])]
  }

  /** The new provider comes last; before it is everything but the auto-linked entries of its name. */
  ghost predicate MergedProviders(before: seq<Provider>, new_: Provider, after: seq<Provider>) {
    && after != [] && after[|after| - 1] == new_
    && forall p :: multiset(after[..|after| - 1])[p] == if p.provider == new_.provider && p.useAutoLink then 0 else multiset(before)[p]
  }

  lemma MergedHolds(c: Credentials, new_: Provider, newIds: seq<string>)
    ensures MergedProviders(c.providers, new_, Merged(c, new_, newIds).providers)
  {
    var kept := Kept(c.providers, new_.provider);
    assert (kept + [new_])[..|kept|] == kept;
    forall p ensures multiset(kept)[p] == if p.provider == new_.provider && p.useAutoLink then 0 else multiset(c.providers)[p] {
      KeptCounts(c.providers, new_.provider, p);
    }
  }

  /** Merging keeps identifiers and providers in step exactly when the guard holds. */
  lemma MergeAlignedIff(c: Credentials, new_: Provider)
    requires Aligned(c)
    ensures Aligned(Merged(c, new_, [IdOf(new_)])) <==> MergeGuard(c.providers, new_.provider)
  {
    var ps, name := c.providers, new_.provider;
    var obsolete := Obsolete(ps, name);
    forall id ensures id in obsolete <==> exists j :: 0 <= j < |ps| && Replaced(ps[j], name) && IdOf(ps[j]) == id {
      ObsoleteHolds(ps, name, id);
    }
    FilteredTogether(ps, name, obsolete);
    var ids, kept := Without(c.identifiers, obsolete), Kept(ps, name);
    assert Ids(kept + [new_]) == Ids(kept) + [IdOf(new_)];
    assert (ids + [IdOf(new_)])[..|ids|] == ids;
    assert (Ids(kept) + [IdOf(new_)])[..|kept|] == Ids(kept);
  }

  /** A merge drops exactly the auto-linked entries of its provider, as often as they occur, and keeps the order. */
  lemma {:induction false} KeptCounts(ps: seq<Provider>, name: string, p: Provider)
    ensures multiset(Kept(ps, name))[p] == if p.provider == name && p.useAutoLink then 0 else multiset(ps)[p]
  {
    if ps != [] {
      var n := |ps| - 1;
      KeptCounts(ps[..n], name, p);
      assert ps == ps[..n] + [ps[n]];
    }
  }

  lemma {:induction false} KeptAppend(a: seq<Provider>, b: seq<Provider>, name: string)
    ensures Kept(a + b, name) == Kept(a, name) + Kept(b, name)
  {
    if b == [] {
      assert a + b == a;
    } else {
      var n := |b| - 1;
      assert (a + b)[..|a + b| - 1] == a + b[..n];
      KeptAppend(a, b[..n], name);
    }
  }

  /** Entries with pairwise different identifiers meet every guard. */
  lemma DistinctIdsMeetGuard(ps: seq<Provider>, name: string)
    requires forall i, j :: 0 <= i < j < |ps| ==> IdOf(ps[i]) != IdOf(ps[j])
    ensures MergeGuard(ps, name)
  {}

  // ----- what each operation does to the credentials of an identity -----

  type Store = map<CredentialsType, Credentials>

  ghost predicate AlignedAt(s: Store, t: CredentialsType) { t in s ==> Aligned(s[t]) }

  /** Identifiers mirror providers wherever there are providers; other types hold whatever they like. */
  ghost predicate FederatedAligned(s: Store) { AlignedAt(s, OIDC) && AlignedAt(s, SAML) }

  function NewCredentials(provider: string, subject: string, organization: string): (r: Option<Credentials>)
    ensures r.None? <==> provider == "" || subject == ""
    ensures r.Some? ==> Aligned(r.value) && r.value.providers == [Provider(provider, subject, organization, false)]
  {
    if provider == "" || subject == "" then None
    else Some(Credentials([OIDCUniqueID(provider, subject)], [Provider(provider, subject, organization, false)]))
  }

  /** Appending providers and their identifiers to what is there. */
  function Appended(s: Store, t: CredentialsType, ps: seq<Provider>): Store {
    var c := if t in s then s[t] else Credentials([], []);
    s[t := Credentials(c.identifiers + Ids(ps), c.providers + ps)]
  }

  /** SAML imports have no auto-link field. */
  function Stored(t: CredentialsType, p: Provider): Provider {
    if t == SAML then p.(useAutoLink := false) else p
  }

  function AllStored(t: CredentialsType, ps: seq<Provider>): seq<Provider> {
    seq(|ps|, k requires 0 <= k < |ps| => Stored(t, ps[k]))
  }

  function MergedInto(s: Store, t: CredentialsType, newCreds: Credentials): Store {
    if t !in s then s[t := newCreds]
    else if |newCreds.providers| != 1 then s
    else s[t := Merged(s[t], newCreds.providers[0], NewIds(newCreds))]
  }

  /** The merge at `t` meets an existing credential, with the guard satisfied. */
  ghost predicate Guarded(s: Store, t: CredentialsType, newCreds: Credentials) {
    t in s && |newCreds.providers| == 1 ==> MergeGuard(s[t].providers, newCreds.providers[0].provider)
  }

  lemma MergedIntoAlignedIff(s: Store, t: CredentialsType, newCreds: Credentials)
    requires AlignedAt(s, t) && Aligned(newCreds)
    ensures AlignedAt(MergedInto(s, t, newCreds), t) <==> Guarded(s, t, newCreds)
  {
    if t in s && |newCreds.providers| == 1 {
      assert NewIds(newCreds) == [IdOf(newCreds.providers[0])];
      MergeAlignedIff(s[t], newCreds.providers[0]);
    }
  }

  /** What a merge into existing credentials leaves: the new provider last, before it everything but the auto-linked
      entries of its name, and every other type as it was. */
  lemma MergedIntoProviders(s: Store, t: CredentialsType, newCreds: Credentials)
    requires t in s && |newCreds.providers| == 1
    ensures t in MergedInto(s, t, newCreds) && MergedInto(s, t, newCreds) == s[t := MergedInto(s, t, newCreds)[t]]
    ensures MergedProviders(s[t].providers, newCreds.providers[0], MergedInto(s, t, newCreds)[t].providers)
  {
    MergedHolds(s[t], newCreds.providers[0], NewIds(newCreds));
  }

  /** The providers with another identifier, in order. */
  function OtherThan(ps: seq<Provider>, id: string): seq<Provider> {
    if ps == [] then []
    else
      var n := |ps| - 1;
      OtherThan(ps[..n], id) + if IdOf(ps[n]) == id then [] else [ps[n]]
  }

  /** Exactly the providers with the identifier are gone. */
  ghost predicate WithoutId(before: seq<Provider>, after: seq<Provider>, id: string) {
    forall p :: multiset(after)[p] == if p.provider + ":" + p.subject == id then 0 else multiset(before)[p]
  }

  lemma OtherThanIsWithout(ps: seq<Provider>, id: string)
    ensures WithoutId(ps, OtherThan(ps, id), id)
  {
    forall p ensures multiset(OtherThan(ps, id))[p] == if p.provider + ":" + p.subject == id then 0 else multiset(ps)[p] {
      OtherThanCounts(ps, id, p);
    }
  }

  /** A delete drops exactly the providers with the identifier, as often as they occur, and keeps the order. */
  lemma {:induction false} OtherThanCounts(ps: seq<Provider>, id: string, p: Provider)
    ensures multiset(OtherThan(ps, id))[p] == if p.provider + ":" + p.subject == id then 0 else multiset(ps)[p]
  {
    if ps != [] {
      var n := |ps| - 1;
      OtherThanCounts(ps[..n], id, p);
      assert ps == ps[..n] + [ps[n]];
    }
  }

  lemma {:induction false} OtherThanAppend(a: seq<Provider>, b: seq<Provider>, id: string)
    ensures OtherThan(a + b, id) == OtherThan(a, id) + OtherThan(b, id)
  {
    if b == [] {
      assert a + b == a;
    } else {
      var n := |b| - 1;
      assert (a + b)[..|a + b| - 1] == a + b[..n];
      OtherThanAppend(a, b[..n], id);
    }
  }

  function DeleteVerdict(s: Store, t: CredentialsType, id: string): Result<(), Error> {
    if t != OIDC && t != SAML then Err(Internal)
    else if id == "" then Err(BadRequest)
    else if t !in s || id !in Ids(s[t].providers) then Err(NotFound)
    else Ok(())
  }

  function Removed(s: Store, t: CredentialsType, id: string): Store {
    if DeleteVerdict(s, t, id).Err? then s
    else
      var kept := OtherThan(s[t].providers, id);
      s[t := Credentials(Ids(kept), kept)]
  }

  // ----- the operations as the program runs them -----

  /** What the rebuild loop of the delete holds after the first `k` providers. */
  ghost predicate Rebuilt(ps: seq<Provider>, k: nat, id: string, ids: seq<string>, kept: seq<Provider>, found: bool)
    requires k <= |ps|
  {
    && kept == OtherThan(ps[..k], id) && ids == Ids(kept) && id !in ids
    && (found <==> exists i :: 0 <= i < k && IdOf(ps[i]) == id)
  }

  lemma RebuiltNext(ps: seq<Provider>, k: nat, id: string, ids: seq<string>, kept: seq<Provider>, found: bool)
    requires k < |ps| && Rebuilt(ps, k, id, ids, kept, found)
    ensures if IdOf(ps[k]) == id then Rebuilt(ps, k + 1, id, ids, kept, true)
            else Rebuilt(ps, k + 1, id, ids + [IdOf(ps[k])], kept + [ps[k]], found)
  {
    assert ps[..k + 1][..k] == ps[..k];
    assert Ids(kept + [ps[k]]) == Ids(kept) + [IdOf(ps[k])];
  }

  lemma RebuiltAll(ps: seq<Provider>, id: string, ids: seq<string>, kept: seq<Provider>, found: bool)
    requires Rebuilt(ps, |ps|, id, ids, kept, found)
    ensures ids == Ids(kept) && kept == OtherThan(ps, id) && id !in ids && (found <==> id in Ids(ps))
  {
    assert ps[..|ps|] == ps;
    if found {
      var i :| 0 <= i < |ps| && IdOf(ps[i]) == id;
      assert Ids(ps)[i] == id;
    }
  }

  /** The rebuild loop of the delete. */
  method RemoveProvider(providers: seq<Provider>, id: string) returns (ids: seq<string>, kept: seq<Provider>, found: bool)
    ensures ids == Ids(kept) && kept == OtherThan(providers, id) && WithoutId(providers, kept, id)
    ensures id !in ids && (found <==> id in Ids(providers))
  {
    ids, kept, found := [], [], false;
    for k := 0 to |providers|
      invariant Rebuilt(providers, k, id, ids, kept, found)
    {
      RebuiltNext(providers, k, id, ids, kept, found);
      if id == IdOf(providers[k]) {
        found := true;
      } else {
        ids, kept := ids + [IdOf(providers[k])], kept + [providers[k]];
      }
    }
    RebuiltAll(providers, id, ids, kept, found);
    OtherThanIsWithout(providers, id);
  }

  /** The append loops of the two imports. */
  method AppendProviders(t: CredentialsType, before: Credentials, imported: seq<Provider>) returns (c: Credentials)
    ensures c == Credentials(before.identifiers + Ids(AllStored(t, imported)), before.providers + AllStored(t, imported))
  {
    var ids: seq<string>, providers: seq<Provider> := [], [];
    for k := 0 to |imported|
      invariant ids == Ids(providers) && providers == AllStored(t, imported[..k])
    {
      var p := Stored(t, imported[k]);
      assert AllStored(t, imported[..k + 1]) == AllStored(t, imported[..k]) + [p];
      assert Ids(providers + [p]) == Ids(providers) + [IdOf(p)];
      ids, providers := ids + [IdOf(p)], providers + [p];
    }
    assert imported[..|imported|] == imported;
    return Credentials(before.identifiers + ids, before.providers + providers);
  }

  class Identity {
    var credentials: Store

    constructor (credentials: Store)
      ensures this.credentials == credentials
    {
      this.credentials := credentials;
    }

    /** Registration: fresh credentials replace whatever the type held. An empty provider or subject is refused. */
    method CreateCredentials(t: CredentialsType, provider: string, subject: string, organization: string) returns (ok: bool)
      modifies this
      ensures ok <==> provider != "" && subject != ""
      ensures !ok ==> credentials == old(credentials)
      ensures ok ==> AlignedAt(credentials, t) && credentials == old(credentials)[t := NewCredentials(provider, subject, organization).value]
    {
      var c := NewCredentials(provider, subject, organization);
      if c.None? { return false; }
      credentials := credentials[t := c.value];
      return true;
    }

    /** Linking in the settings flow: appended to what is there, else created. */
    method LinkCredentials(t: CredentialsType, provider: string, subject: string, organization: string) returns (ok: bool)
      modifies this
      ensures ok <==> t in old(credentials) || (provider != "" && subject != "")
      ensures !ok ==> credentials == old(credentials)
      ensures ok ==> credentials == Appended(old(credentials), t, [Provider(provider, subject, organization, false)])
      ensures old(AlignedAt(credentials, t)) ==> AlignedAt(credentials, t)
    {
      var p := Provider(provider, subject, organization, false);
      AppendedAligned(credentials, t, [p]);
      assert Ids([p]) == [OIDCUniqueID(provider, subject)];
      if t !in credentials {
        assert [] + [p] == [p] && [] + Ids([p]) == Ids([p]);
        ok := CreateCredentials(t, provider, subject, organization);
        return;
      }
      var c := credentials[t];
      credentials := credentials[t := Credentials(c.identifiers + [OIDCUniqueID(provider, subject)], c.providers + [p])];
      return true;
    }

    /** Replaces the auto-linked entries of the new provider. From aligned credentials of this type the result is aligned
        exactly when the guard holds; other types are untouched. */
    method MergeOIDCCredentials(t: CredentialsType, newCreds: Credentials) returns (ok: bool)
      modifies this
      ensures ok <==> t !in old(credentials) || |newCreds.providers| == 1
      ensures credentials == MergedInto(old(credentials), t, newCreds)
      ensures old(AlignedAt(credentials, t)) && Aligned(newCreds) ==>
        (AlignedAt(credentials, t) <==> Guarded(old(credentials), t, newCreds))
    {
      if AlignedAt(credentials, t) && Aligned(newCreds) { MergedIntoAlignedIff(credentials, t, newCreds); }
      if t !in credentials {
        credentials := credentials[t := newCreds];
        return true;
      }
      if |newCreds.providers| != 1 { return false; }
      var creds, newProvider := credentials[t], newCreds.providers[0];
      var newIds := newCreds.identifiers;
      if |newIds| != 1 { newIds := [IdOf(newProvider)]; }
      credentials := credentials[t := Merged(creds, newProvider, newIds)];
      return true;
    }

    /** Appends imported providers and their identifiers to an existing or new credential. */
    method ImportCredentials(t: CredentialsType, imported: seq<Provider>)
      modifies this
      ensures credentials == Appended(old(credentials), t, AllStored(t, imported))
      ensures var before := if t in old(credentials) then old(credentials)[t].providers else [];
        && |credentials[t].providers| == |before| + |imported| && before <= credentials[t].providers
        && forall k :: 0 <= k < |imported| ==>
             credentials[t].providers[|before| + k] == imported[k].(useAutoLink := imported[k].useAutoLink && t != SAML)
      ensures old(AlignedAt(credentials, t)) ==> AlignedAt(credentials, t)
    {
      AppendedAligned(credentials, t, AllStored(t, imported));
      var before := if t in credentials then credentials[t] else Credentials([], []);
      var c := AppendProviders(t, before, imported);
      credentials := credentials[t := c];
    }

    /** Removes every provider with the identifier; the identifiers are rebuilt from the providers that stay. */
    method DeleteCredential(t: CredentialsType, id: string) returns (r: Result<(), Error>)
      modifies this
      ensures r == DeleteVerdict(old(credentials), t, id)
      ensures r.Ok? <==> !t.Other? && id != "" && t in old(credentials) && id in Ids(old(credentials)[t].providers)
      ensures r == Err(Internal) <==> t.Other?
      ensures r == Err(BadRequest) <==> !t.Other? && id == ""
      ensures credentials == Removed(old(credentials), t, id)
      ensures r.Ok? ==> AlignedAt(credentials, t) && id !in credentials[t].identifiers
      ensures r.Ok? ==> WithoutId(old(credentials)[t].providers, credentials[t].providers, id)
    {
      if t != OIDC && t != SAML { return Err(Internal); }
      if id == "" { return Err(BadRequest); }
      if t !in credentials { return Err(NotFound); }
      var ids, kept, found := RemoveProvider(credentials[t].providers, id);
      if !found { return Err(NotFound); }
      credentials := credentials[t := Credentials(ids, kept)];
      return Ok(());
    }
  }

  lemma AppendedAligned(s: Store, t: CredentialsType, ps: seq<Provider>)
    ensures AlignedAt(s, t) ==> AlignedAt(Appended(s, t, ps), t)
  {
    var c := if t in s then s[t] else Credentials([], []);
    assert Ids(c.providers + ps) == Ids(c.providers) + Ids(ps);
  }
}
