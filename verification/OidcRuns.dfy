/** Runs of the operations on OIDC and SAML credentials: when identifiers mirror providers throughout. */
module OidcRuns {
  import opened Oidc
  import opened Wrappers

  /** `Create`, `Link` and `Merge` carry what the provider returned; `Write` is another strategy storing its own type. */
  datatype Event =
    | Create(t: CredentialsType, provider: string, subject: string, organization: string)
    | Link(t: CredentialsType, provider: string, subject: string, organization: string)
    | Import(t: CredentialsType, providers: seq<Provider>)
    | Merge(t: CredentialsType, provider: string, subject: string, organization: string)
    | Delete(t: CredentialsType, id: string)
    | Write(name: string, c: Credentials)

  /** One operation as a function of the credentials. */
  function Step(s: Store, e: Event): Store {
    match e
    case Create(t, provider, subject, organization) =>
      (match NewCredentials(provider, subject, organization)
       case None => s
       case Some(c) => s[t := c])
    case Link(t, provider, subject, organization) =>
      if t !in s && NewCredentials(provider, subject, organization).None? then s
      else Appended(s, t, [Provider(provider, subject, organization, false)])
    case Import(t, providers) => Appended(s, t, AllStored(t, providers))
    case Merge(t, provider, subject, organization) =>
      (match NewCredentials(provider, subject, organization)
       case None => s
       case Some(c) => MergedInto(s, t, c))
    case Delete(t, id) => Removed(s, t, id)
    case Write(name, c) => s[Other(name) := c]
  }

  /** The operations of an identity take exactly these steps. */
  method Apply(i: Identity, e: Event)
    modifies i
    ensures i.credentials == Step(old(i.credentials), e)
  {
    match e {
      case Create(t, provider, subject, organization) =>
        var _ := i.CreateCredentials(t, provider, subject, organization);
      case Link(t, provider, subject, organization) =>
        var _ := i.LinkCredentials(t, provider, subject, organization);
      case Import(t, providers) =>
        i.ImportCredentials(t, providers);
      case Merge(t, provider, subject, organization) =>
        var c := NewCredentials(provider, subject, organization);
        if c.Some? { var _ := i.MergeOIDCCredentials(t, c.value); }
      case Delete(t, id) =>
        var _ := i.DeleteCredential(t, id);
      case Write(name, c) =>
        i.credentials := i.credentials[Other(name) := c];
    }
  }

  /** A merge into OIDC or SAML credentials leaves no provider that shares its identifier with an auto-link entry
      it removes. Every other event is safe. */
  ghost predicate Safe(s: Store, e: Event) {
    e.Merge? && !e.t.Other? && e.provider != "" && e.subject != "" && e.t in s ==> MergeGuard(s[e.t].providers, e.provider)
  }

  /** The stores between the events of a run. */
  ghost predicate Run(stores: seq<Store>, events: seq<Event>) {
    && |stores| == |events| + 1
    && forall i :: 0 <= i < |events| ==> Step(stores[i], events[i]) == stores[i + 1]
  }

  /** Only the type an event names changes. */
  lemma OthersKept(s: Store, e: Event, t: CredentialsType)
    requires if e.Write? then t != Other(e.name) else t != e.t
    ensures AlignedAt(Step(s, e), t) <==> AlignedAt(s, t)
  {}

  lemma StepAtType(s: Store, e: Event)
    requires !e.Write? && !e.t.Other? && AlignedAt(s, e.t)
    ensures AlignedAt(Step(s, e), e.t) <==> Safe(s, e)
  {
    match e
    case Create(_, _, _, _) =>
    case Link(t, provider, subject, organization) =>
      AppendedAligned(s, t, [Provider(provider, subject, organization, false)]);
    case Import(t, providers) => AppendedAligned(s, t, AllStored(t, providers));
    case Merge(t, provider, subject, organization) =>
      var c := NewCredentials(provider, subject, organization);
      if c.Some? { MergedIntoAlignedIff(s, t, c.value); }
    case Delete(_, _) =>
  }

  /** One event keeps OIDC and SAML aligned exactly when it is safe, whatever other credentials there are. */
  lemma StepAlignedIff(s: Store, e: Event)
    requires FederatedAligned(s)
    ensures FederatedAligned(Step(s, e)) <==> Safe(s, e)
  {
    if e.Write? || e.t != OIDC { OthersKept(s, e, OIDC); }
    if e.Write? || e.t != SAML { OthersKept(s, e, SAML); }
    if !e.Write? && !e.t.Other? { StepAtType(s, e); }
  }

  lemma {:induction false} SafeRunAligned(stores: seq<Store>, events: seq<Event>, n: nat)
    requires Run(stores, events) && n < |stores| && FederatedAligned(stores[0])
    requires forall i :: 0 <= i < n ==> Safe(stores[i], events[i])
    ensures FederatedAligned(stores[n])
  {
    if n > 0 {
      SafeRunAligned(stores, events, n - 1);
      StepAlignedIff(stores[n - 1], events[n - 1]);
      assert Step(stores[n - 1], events[n - 1]) == stores[n - 1 + 1];
    }
  }

  /** Every run of create, link, import, merge and delete from aligned credentials keeps OIDC and SAML identifiers equal
      to the providers' unique IDs in every store if and only if every merge meets the guard at its store. */
  lemma RunAlignedIff(stores: seq<Store>, events: seq<Event>)
    requires Run(stores, events) && FederatedAligned(stores[0])
    ensures (forall i :: 0 <= i < |stores| ==> FederatedAligned(stores[i]))
       <==> (forall i :: 0 <= i < |events| ==> Safe(stores[i], events[i]))
  {
    if forall i :: 0 <= i < |events| ==> Safe(stores[i], events[i]) {
      forall n | 0 <= n < |stores| ensures FederatedAligned(stores[n]) {
        SafeRunAligned(stores, events, n);
      }
    }
    if forall i :: 0 <= i < |stores| ==> FederatedAligned(stores[i]) {
      forall i | 0 <= i < |events| ensures Safe(stores[i], events[i]) {
        assert Step(stores[i], events[i]) == stores[i + 1];
        StepAlignedIff(stores[i], events[i]);
      }
    }
  }

  /** A run that ends misaligned: import does not reject duplicates, and of two equal entries one may be auto-linked.
      Merging any subject of that provider then removes both identifiers but only one entry. */
  lemma DuplicateBreaksMerge(s: Store, provider: string, subject: string, newSubject: string, organization: string)
    requires FederatedAligned(s) && OIDC !in s && provider != "" && newSubject != ""
    ensures var imported := Step(s, Import(OIDC, Twice(provider, subject)));
      && FederatedAligned(imported)
      && !AlignedAt(Step(imported, Merge(OIDC, provider, newSubject, organization)), OIDC)
  {
    var ps := Twice(provider, subject);
    var imported := Step(s, Import(OIDC, ps));
    assert AllStored(OIDC, ps) == ps && [] + ps == ps;
    assert imported[OIDC].providers == ps;
    assert Replaced(ps[0], provider) && !Replaced(ps[1], provider) && IdOf(ps[1]) == IdOf(ps[0]);
    StepAlignedIff(s, Import(OIDC, ps));
    StepAtType(imported, Merge(OIDC, provider, newSubject, organization));
  }

  function Twice(provider: string, subject: string): seq<Provider> {
    [Provider(provider, subject, "", true), Provider(provider, subject, "", false)]
  }
}
