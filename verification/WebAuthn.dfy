/** WebAuthn credentials: counters updated by logins and lists merged by imports
    (identity/credentials_webauthn.go, identity/handler_import.go). */
module WebAuthn {
  import opened Wrappers

  datatype Authenticator = Authenticator(aaguid: string, signCount: nat, cloneWarning: bool)

  datatype Flags = Flags(userPresent: bool, userVerified: bool, backupEligible: bool, backupState: bool)

  /** A stored credential; `rest` stands for the fields no operation here touches. */
  datatype Credential = Credential(id: string, authenticator: Option<Authenticator>, flags: Option<Flags>, rest: string)

  /** The library's view: missing parts show as zero values. */
  datatype View = View(id: string, authenticator: Authenticator, flags: Flags, rest: string)

  const NO_AUTHENTICATOR := Authenticator("", 0, false)

  function ToWebAuthn(c: Credential): View {
    View(c.id,
      if c.authenticator.Some? then c.authenticator.value else NO_AUTHENTICATOR,
      if c.flags.Some? then c.flags.value else Flags(false, false, false, false),
      c.rest)
  }

  function Views(cs: seq<Credential>): seq<View> {
    seq(|cs|, k requires 0 <= k < |cs| => ToWebAuthn(cs[k]))
  }

  function SignCount(c: Credential): nat { ToWebAuthn(c).authenticator.signCount }

  function Max(a: nat, b: nat): nat { if a < b then b else a }

  /** The matching credential after a login that reported `u`. */
  function Advanced(c: Credential, u: View): Credential {
    var a := if c.authenticator.Some? then c.authenticator.value else NO_AUTHENTICATOR;
    c.(authenticator := Some(a.(signCount := Max(a.signCount, u.authenticator.signCount),
                                cloneWarning := u.authenticator.cloneWarning)),
       flags := if c.flags.Some? then Some(c.flags.value.(backupState := u.flags.backupState)) else None)
  }

  ghost predicate DistinctIds(cs: seq<Credential>) {
    forall i, j :: 0 <= i < j < |cs| ==> cs[i].id != cs[j].id
  }

  /** `None` when no credential has the ID. */
  function IndexOfId(cs: seq<Credential>, id: string): (r: Option<nat>)
    ensures r.Some? ==> r.value < |cs| && cs[r.value].id == id && forall i :: 0 <= i < r.value ==> cs[i].id != id
    ensures r.None? ==> forall i :: 0 <= i < |cs| ==> cs[i].id != id
  {
    if cs == [] then None
    else if cs[0].id == id then Some(0)
    else match IndexOfId(cs[1..], id)
      case None => None
      case Some(i) => Some(i + 1)
  }

  ghost function AfterLogin(cs: seq<Credential>, u: Option<View>): seq<Credential> {
    if u.None? then cs
    else match IndexOfId(cs, u.value.id)
      case None => cs
      case Some(k) => cs[k := Advanced(cs[k], u.value)]
  }

  /** Updates the first credential with the reported ID in place; `changed` is true iff the library's view changed. */
  method UpdateFromLogin(cs: array<Credential>, updated: Option<View>) returns (changed: bool)
    modifies cs
    ensures cs[..] == AfterLogin(old(cs[..]), updated)
    ensures changed <==> Views(cs[..]) != Views(old(cs[..]))
  {
    changed := false;
    if updated.None? { return; }
    var u := updated.value;
    for k := 0 to cs.Length
      invariant cs[..] == old(cs[..]) && !changed
      invariant forall i :: 0 <= i < k ==> cs[i].id != u.id
    {
      if cs[k].id == u.id {
        changed := UpdateOne(cs, k, u);
        ViewsDiffer(old(cs[..]), k, cs[k]);
        assert IndexOfId(old(cs[..]), u.id) == Some(k);
        return;
      }
    }
  }

  /** The loop body for the matching credential, field by field. */
  method UpdateOne(cs: array<Credential>, k: nat, u: View) returns (changed: bool)
    requires k < cs.Length
    modifies cs
    ensures cs[..] == old(cs[..])[k := Advanced(old(cs[k]), u)]
    ensures changed <==> ToWebAuthn(cs[k]) != ToWebAuthn(old(cs[k]))
  {
    changed := false;
    if cs[k].authenticator.None? { cs[k] := cs[k].(authenticator := Some(NO_AUTHENTICATOR)); }
    if cs[k].authenticator.value.signCount < u.authenticator.signCount {
      cs[k] := cs[k].(authenticator := Some(cs[k].authenticator.value.(signCount := u.authenticator.signCount)));
      changed := true;
    }
    if cs[k].authenticator.value.cloneWarning != u.authenticator.cloneWarning {
      cs[k] := cs[k].(authenticator := Some(cs[k].authenticator.value.(cloneWarning := u.authenticator.cloneWarning)));
      changed := true;
    }
    if cs[k].flags.Some? && cs[k].flags.value.backupState != u.flags.backupState {
      cs[k] := cs[k].(flags := Some(cs[k].flags.value.(backupState := u.flags.backupState)));
      changed := true;
    }
  }

  lemma ViewsDiffer(cs: seq<Credential>, k: nat, c: Credential)
    requires k < |cs|
    ensures Views(cs[k := c]) != Views(cs) <==> ToWebAuthn(c) != ToWebAuthn(cs[k])
  {
    assert Views(cs[k := c])[k] == ToWebAuthn(c) && Views(cs)[k] == ToWebAuthn(cs[k]);
    assert Views(cs[k := c]) == Views(cs)[k := ToWebAuthn(c)];
  }

  // ----- sequences of logins -----

  ghost function AfterLogins(cs: seq<Credential>, logins: seq<View>): seq<Credential> {
    if logins == [] then cs
    else AfterLogin(AfterLogins(cs, logins[..|logins| - 1]), Some(logins[|logins| - 1]))
  }

  /** The largest of the start value and every counter reported for this ID. */
  ghost function Highest(start: nat, id: string, logins: seq<View>): nat {
    if logins == [] then start
    else
      var n := |logins| - 1;
      var before := Highest(start, id, logins[..n]);
      if logins[n].id == id then Max(before, logins[n].authenticator.signCount) else before
  }

  /** Over any sequence of logins each stored counter is the maximum of its start and all values reported for it
      (section 6.1.1 of W3C Web Authentication Level 2), IDs and order stay, and a credential no login names is untouched. */
  lemma {:induction false} CountersAreMaxima(cs: seq<Credential>, logins: seq<View>)
    requires DistinctIds(cs)
    ensures var t := AfterLogins(cs, logins);
      && |t| == |cs|
      && (forall k :: 0 <= k < |cs| ==> t[k].id == cs[k].id)
      && (forall k :: 0 <= k < |cs| ==> SignCount(t[k]) == Highest(SignCount(cs[k]), cs[k].id, logins))
      && forall k :: 0 <= k < |cs| && (forall i :: 0 <= i < |logins| ==> logins[i].id != cs[k].id) ==> t[k] == cs[k]
  {
    if logins != [] {
      var n := |logins| - 1;
      CountersAreMaxima(cs, logins[..n]);
      var before, u := AfterLogins(cs, logins[..n]), logins[n];
      var at := IndexOfId(before, u.id);
      assert forall i :: 0 <= i < n ==> logins[..n][i] == logins[i];
      if at.Some? {
        assert forall k :: 0 <= k < |cs| && k != at.value ==> cs[k].id != cs[at.value].id;
        assert before[at.value].id == cs[at.value].id;
      }
    }
  }

  // ----- importing a list -----

  /** The last of the first `n` imported credentials with this ID. */
  ghost function LastWith(imported: seq<Credential>, n: nat, id: string): (r: Option<Credential>)
    requires n <= |imported|
    ensures r.Some? ==> r.value.id == id && exists i :: 0 <= i < n && imported[i] == r.value
    ensures r.None? ==> forall i :: 0 <= i < n ==> imported[i].id != id
  {
    if n == 0 then None
    else if imported[n - 1].id == id then Some(imported[n - 1])
    else LastWith(imported, n - 1, id)
  }

  /** What becomes of stored credential `k`: the first one with its ID takes the imported value, if there is one. */
  ghost function Slot(original: seq<Credential>, imported: seq<Credential>, n: nat, k: nat): (r: Credential)
    requires n <= |imported| && k < |original|
    ensures r.id == original[k].id
  {
    var last := LastWith(imported, n, original[k].id);
    if IndexOfId(original, original[k].id) == Some(k) && last.Some? then last.value else original[k]
  }

  /** The first `n` imported credentials without a stored one, in order. */
  ghost function NewOnes(original: seq<Credential>, imported: seq<Credential>, n: nat): seq<Credential>
    requires n <= |imported|
  {
    if n == 0 then []
    else if IndexOfId(original, imported[n - 1].id).Some? then NewOnes(original, imported, n - 1)
    else NewOnes(original, imported, n - 1) + [imported[n - 1]]
  }

  /** The stored list overridden in place, then the new credentials. */
  ghost predicate IsMerge(original: seq<Credential>, imported: seq<Credential>, n: nat, r: seq<Credential>)
    requires n <= |imported|
  {
    && |r| >= |original|
    && (forall k :: 0 <= k < |original| ==> r[k] == Slot(original, imported, n, k))
    && r[|original|..] == NewOnes(original, imported, n)
  }

  method MergeWebAuthnCredentials(original: seq<Credential>, imported: seq<Credential>) returns (r: seq<Credential>)
    ensures IsMerge(original, imported, |imported|, r)
  {
    r := original;
    for n := 0 to |imported|
      invariant IsMerge(original, imported, n, r)
    {
      var found := IndexOfId(original, imported[n].id);
      MergeNext(original, imported, n, r);
      if found.Some? {
        r := r[found.value := imported[n]];
      } else {
        r := r + [imported[n]];
      }
    }
  }

  lemma MergeNext(original: seq<Credential>, imported: seq<Credential>, n: nat, r: seq<Credential>)
    requires n < |imported| && IsMerge(original, imported, n, r)
    ensures match IndexOfId(original, imported[n].id)
      case Some(k) => IsMerge(original, imported, n + 1, r[k := imported[n]])
      case None => IsMerge(original, imported, n + 1, r + [imported[n]])
  {
    var found, m := IndexOfId(original, imported[n].id), |original|;
    if found.Some? {
      assert r[found.value := imported[n]][m..] == r[m..];
    } else {
      assert (r + [imported[n]])[m..] == r[m..] + [imported[n]];
    }
  }

  lemma {:induction false} NewOnesAreImported(original: seq<Credential>, imported: seq<Credential>, n: nat, c: Credential)
    requires n <= |imported|
    ensures c in NewOnes(original, imported, n)
       <==> IndexOfId(original, c.id).None? && exists i :: 0 <= i < n && imported[i] == c
  {
    if n > 0 { NewOnesAreImported(original, imported, n - 1, c); }
  }

  lemma {:induction false} NothingNew(known: seq<Credential>, imported: seq<Credential>, n: nat)
    requires n <= |imported| && forall i :: 0 <= i < n ==> IndexOfId(known, imported[i].id).Some?
    ensures NewOnes(known, imported, n) == []
  {
    if n > 0 { NothingNew(known, imported, n - 1); }
  }

  /** The credential a login with this ID would use. */
  ghost function Find(cs: seq<Credential>, id: string): Option<Credential> {
    match IndexOfId(cs, id)
    case None => None
    case Some(k) => Some(cs[k])
  }

  lemma FindNew(original: seq<Credential>, imported: seq<Credential>, r: seq<Credential>, i: nat)
    requires IsMerge(original, imported, |imported|, r) && i < |imported|
    requires IndexOfId(original, imported[i].id).None?
    ensures exists k :: |original| <= k < |r| && r[k] == imported[i]
  {
    NewOnesAreImported(original, imported, |imported|, imported[i]);
    assert imported[i] in r[|original|..];
    var k :| 0 <= k < |r[|original|..]| && r[|original|..][k] == imported[i];
    assert r[|original| + k] == imported[i];
  }

  lemma NewIsImported(original: seq<Credential>, imported: seq<Credential>, r: seq<Credential>, k: nat)
    requires IsMerge(original, imported, |imported|, r) && |original| <= k < |r|
    ensures IndexOfId(original, r[k].id).None? && exists i :: 0 <= i < |imported| && imported[i] == r[k]
  {
    assert r[k] == r[|original|..][k - |original|];
    NewOnesAreImported(original, imported, |imported|, r[k]);
  }

  /** As maps from IDs: the result holds the imported credential where there is one and the stored one elsewhere. */
  lemma ImportOverrides(original: seq<Credential>, imported: seq<Credential>, r: seq<Credential>, id: string)
    requires DistinctIds(imported) && IsMerge(original, imported, |imported|, r)
    ensures Find(r, id) == if Find(imported, id).Some? then Find(imported, id) else Find(original, id)
  {
    var at := IndexOfId(r, id);
    var stored := IndexOfId(original, id);
    var given := IndexOfId(imported, id);
    if stored.Some? {
      assert r[stored.value].id == id;
      assert forall k :: 0 <= k < |original| ==> r[k].id == original[k].id;
      assert at == stored;
    } else if given.Some? {
      FindNew(original, imported, r, given.value);
      assert at.Some? && at.value >= |original|;
      NewIsImported(original, imported, r, at.value);
    } else if at.Some? {
      NewIsImported(original, imported, r, at.value);
      assert false;
    }
  }

  /** Importing the same list again changes nothing. */
  lemma ImportIsIdempotent(original: seq<Credential>, imported: seq<Credential>, once: seq<Credential>, twice: seq<Credential>)
    requires DistinctIds(imported)
    requires IsMerge(original, imported, |imported|, once) && IsMerge(once, imported, |imported|, twice)
    ensures twice == once
  {
    forall i | 0 <= i < |imported| ensures IndexOfId(once, imported[i].id).Some? {
      var at := IndexOfId(original, imported[i].id);
      if at.Some? {
        assert once[at.value].id == imported[i].id;
      } else {
        FindNew(original, imported, once, i);
      }
    }
    NothingNew(once, imported, |imported|);
    forall k | 0 <= k < |once| ensures twice[k] == once[k] {
      SlotIsFixed(original, imported, once, k);
    }
  }

  lemma SlotIsFixed(original: seq<Credential>, imported: seq<Credential>, once: seq<Credential>, k: nat)
    requires DistinctIds(imported) && IsMerge(original, imported, |imported|, once) && k < |once|
    ensures Slot(once, imported, |imported|, k) == once[k]
  {
    if k < |original| {
      var first := IndexOfId(original, original[k].id).value;
      assert once[first].id == once[k].id;
      assert once[k] == Slot(original, imported, |imported|, k);
    } else {
      NewIsImported(original, imported, once, k);
    }
  }

  // ----- what a login changes -----

  /** The matching credential's view after a login: the larger counter, the reported clone warning and, where flags are
      stored, the reported backup state; nothing else. */
  lemma AdvancedFields(c: Credential, u: View)
    ensures var before, after := ToWebAuthn(c), ToWebAuthn(Advanced(c, u));
      && after.id == before.id && after.rest == before.rest && after.authenticator.aaguid == before.authenticator.aaguid
      && after.authenticator.cloneWarning == u.authenticator.cloneWarning
      && after.authenticator.signCount >= before.authenticator.signCount
      && after.authenticator.signCount >= u.authenticator.signCount
      && (after.authenticator.signCount == before.authenticator.signCount || after.authenticator.signCount == u.authenticator.signCount)
    ensures Advanced(c, u).flags.Some? <==> c.flags.Some?
    ensures c.flags.Some? ==> var before, after := c.flags.value, Advanced(c, u).flags.value;
      && after.backupState == u.flags.backupState && after.backupEligible == before.backupEligible
      && after.userPresent == before.userPresent && after.userVerified == before.userVerified
  {}

  /** A login touches the first credential with its ID alone, and none if there is none. */
  lemma LoginTouchesOne(cs: seq<Credential>, u: View, k: nat)
    requires k < |cs|
    ensures |AfterLogin(cs, Some(u))| == |cs|
    ensures AfterLogin(cs, Some(u))[k]
         == if cs[k].id == u.id && forall i :: 0 <= i < k ==> cs[i].id != u.id then Advanced(cs[k], u) else cs[k]
  {}

  ghost predicate Reported(logins: seq<View>, id: string, count: nat) {
    exists i :: 0 <= i < |logins| && logins[i].id == id && logins[i].authenticator.signCount == count
  }

  /** `Highest` is the maximum: at least the start and every reported value, and one of them. */
  lemma {:induction false} HighestIsMaximum(start: nat, id: string, logins: seq<View>)
    ensures Highest(start, id, logins) >= start
    ensures forall i :: 0 <= i < |logins| && logins[i].id == id ==> Highest(start, id, logins) >= logins[i].authenticator.signCount
    ensures Highest(start, id, logins) == start || Reported(logins, id, Highest(start, id, logins))
  {
    if logins != [] {
      var n := |logins| - 1;
      var before := Highest(start, id, logins[..n]);
      HighestIsMaximum(start, id, logins[..n]);
      assert forall i :: 0 <= i < n ==> logins[..n][i] == logins[i];
      if Reported(logins[..n], id, before) { assert Reported(logins, id, before); }
      if logins[n].id == id { assert Reported(logins, id, logins[n].authenticator.signCount); }
    }
  }

  /** New credentials are appended in the order of the imported list. */
  lemma {:induction false} NewOnesInOrder(original: seq<Credential>, imported: seq<Credential>, n: nat, p: nat, q: nat) returns (i: nat, j: nat)
    requires n <= |imported| && p < q < |NewOnes(original, imported, n)|
    ensures i < j < n && imported[i] == NewOnes(original, imported, n)[p] && imported[j] == NewOnes(original, imported, n)[q]
    decreases n
  {
    var before := NewOnes(original, imported, n - 1);
    if q < |before| {
      i, j := NewOnesInOrder(original, imported, n - 1, p, q);
    } else {
      NewOnesAreImported(original, imported, n - 1, before[p]);
      i :| 0 <= i < n - 1 && imported[i] == before[p];
      j := n - 1;
    }
  }
}
