/** Credential identifiers and code addresses collected while an identity is validated (identity/extension_credentials.go). */
module CodeCredentials {
  import opened Sorting
  import opened Strings
  import opened Wrappers

  /** A Go string: a sequence of bytes. */
  type GoString = s: string | forall i :: 0 <= i < |s| ==> s[i] as int < 256 witness ""

  datatype CodeAddress = CodeAddress(channel: GoString, address: GoString)

  /** By address, then by channel. */
  predicate AddrLess(a: CodeAddress, b: CodeAddress) {
    if a.address == b.address then StrLess(a.channel, b.channel) else StrLess(a.address, b.address)
  }

  lemma AddrLessStrict()
    ensures StrictOrder(AddrLess)
  {
    forall a, b, c | AddrLess(a, b) && AddrLess(b, c) ensures AddrLess(a, c) {
      AddrLessTransitive(a, b, c);
    }
    forall a, b ensures a == b || AddrLess(a, b) || AddrLess(b, a) {
      AddrLessTotal(a, b);
    }
    forall a ensures !AddrLess(a, a) {
      AddrLessTotal(a, a);
    }
  }

  lemma AddrLessTotal(a: CodeAddress, b: CodeAddress)
    ensures a == b || AddrLess(a, b) || AddrLess(b, a)
    ensures !AddrLess(a, a)
  {
    StrLessTotal(a.address, b.address);
    StrLessTotal(a.channel, b.channel);
  }

  lemma AddrLessTransitive(a: CodeAddress, b: CodeAddress, c: CodeAddress)
    requires AddrLess(a, b) && AddrLess(b, c)
    ensures AddrLess(a, c)
  {
    if a.address == b.address == c.address {
      StrLessTransitive(a.channel, b.channel, c.channel);
    } else if a.address != b.address && b.address != c.address {
      StrLessTransitive(a.address, b.address, c.address);
      StrLessTotal(a.address, b.address);
      if a.address == c.address { StrLessTransitive(a.address, b.address, a.address); }
    }
  }

  // ----- the de-duplication key -----

  function HexDigit(n: nat): char
    requires n < 16
  {
    if n < 10 then ('0' as int + n) as char else ('a' as int + n - 10) as char
  }

  /** `%x` */
  function Hex(s: GoString): string {
    if s == "" then "" else
    var b := s[0] as int;
    [HexDigit(b / 16), HexDigit(b % 16)] + Hex(s[1..])
  }

  /** `%x:%s` */
  function Key(a: CodeAddress): string { Hex(a.address) + ":" + a.channel }

  lemma {:induction false} HexHasNoColon(s: GoString)
    ensures ':' !in Hex(s)
  {
    if s != "" { HexHasNoColon(s[1..]); }
  }

  lemma {:induction false} HexInjective(s: GoString, t: GoString)
    requires Hex(s) == Hex(t)
    ensures s == t
  {
    if s != "" && t != "" {
      var a, b := s[0] as int, t[0] as int;
      assert Hex(s)[0] == Hex(t)[0] && Hex(s)[1] == Hex(t)[1];
      assert a / 16 == b / 16 && a % 16 == b % 16;
      assert Hex(s)[2..] == Hex(s[1..]) && Hex(t)[2..] == Hex(t[1..]);
      HexInjective(s[1..], t[1..]);
      assert s == [s[0]] + s[1..] && t == [t[0]] + t[1..];
    }
  }

  /** Different addresses have different keys. */
  lemma KeyInjective(a: CodeAddress, b: CodeAddress)
    requires Key(a) == Key(b)
    ensures a == b
  {
    HexHasNoColon(a.address);
    HexHasNoColon(b.address);
    SplitFirst(Hex(a.address), ':', a.channel);
    SplitFirst(Hex(b.address), ':', b.channel);
    assert Split(Key(a), ':')[0] == Split(Key(b), ':')[0];
    HexInjective(a.address, b.address);
    assert Key(a)[|Hex(a.address)| + 1..] == a.channel;
  }

  // ----- keeping first occurrences -----

  /** `lo.UniqBy(items, key)` */
  method UniqByKey(items: seq<CodeAddress>) returns (r: seq<CodeAddress>)
    ensures Distinct(r) && Elements(r) == Elements(items)
  {
    r := [];
    var seen: set<string> := {};
    for k := 0 to |items|
      invariant seen == set a | a in r :: Key(a)
      invariant Distinct(r) && Elements(r) == Elements(items[..k])
    {
      assert items[..k + 1] == items[..k] + [items[k]];
      ElementsAppend(items[..k], items[k]);
      ElementsAppend(r, items[k]);
      if Key(items[k]) in seen {
        var a :| a in r && Key(a) == Key(items[k]);
        KeyInjective(a, items[k]);
        assert items[k] in Elements(r);
      } else {
        assert items[k] !in r;
        seen := seen + {Key(items[k])};
        r := r + [items[k]];
      }
    }
    assert items[..|items|] == items;
  }

  /** `stringslice.Unique` */
  method Unique(items: seq<GoString>) returns (r: seq<GoString>)
    ensures Distinct(r) && Elements(r) == Elements(items)
  {
    r := [];
    for k := 0 to |items|
      invariant Distinct(r) && Elements(r) == Elements(items[..k])
    {
      assert items[..k + 1] == items[..k] + [items[k]];
      ElementsAppend(items[..k], items[k]);
      ElementsAppend(r, items[k]);
      assert items[k] in r <==> items[k] in Elements(r);
      if items[k] !in r { r := r + [items[k]]; }
    }
    assert items[..|items|] == items;
  }

  // ----- one Run call -----

  datatype Format = Absent | Text(text: string) | NotText

  datatype Kind = Password | WebAuthn | CodeAuth

  /** The extension's flags for one trait, and the trait's value. */
  datatype Call = Call(password: bool, webauthn: bool, code: bool, via: GoString, format: Format, value: GoString)

  /** The two normalisers, uninterpreted: one never fails, one reports invalid values. */
  datatype Env = Env(graceful: GoString -> GoString, strict: (GoString, GoString) -> Option<GoString>)

  /** The address a call contributes, or none if the code branch rejects it. */
  function AddressOf(env: Env, c: Call): Option<CodeAddress> {
    if c.via != "email" && c.via != "sms" then None
    else
      match c.format
      case NotText => None
      case _ =>
        var format := if c.format.Text? then c.format.text else "";
        if c.via == "email" && format != "" && format != "email" then Some(CodeAddress(c.via, env.graceful(c.value)))
        else
          match env.strict(c.value, c.via)
          case None => None
          case Some(n) => Some(CodeAddress(c.via, n))
  }

  /** Addresses a call adds to the code credential. */
  ghost function Added(env: Env, c: Call): set<CodeAddress> {
    if c.code && AddressOf(env, c).Some? then {AddressOf(env, c).value} else {}
  }

  /** Identifiers a call adds to the password or WebAuthn credential, whether or not its code branch is rejected. */
  ghost function Given(env: Env, c: Call, kind: Kind): set<GoString> {
    if (kind == Password && c.password) || (kind == WebAuthn && c.webauthn) then {env.graceful(c.value)} else {}
  }

  function AddressesOnly(addresses: seq<CodeAddress>): seq<GoString> {
    seq(|addresses|, k requires 0 <= k < |addresses| => addresses[k].address)
  }

  /** Identifiers collected so far, by credential type. */
  type Collected = map<Kind, seq<GoString>>

  function IdsOf(v: Collected, kind: Kind): seq<GoString> { if kind in v then v[kind] else [] }

  ghost predicate NoDuplicates(v: Collected) {
    forall kind :: kind in v ==> Distinct(v[kind])
  }

  /** The code identifiers are exactly the collected addresses. */
  ghost predicate SameAddresses(v: Collected, addresses: seq<CodeAddress>) {
    Elements(IdsOf(v, CodeAuth)) == set a | a in addresses :: a.address
  }

  /** `v` and `addresses` are collected anew; `identity` holds the identifiers of the identity's credentials. */
  class SchemaExtensionCredentials {
    const env: Env
    var v: Collected
    var addresses: seq<CodeAddress>
    var identity: Collected

    ghost predicate Valid()
      reads this
    {
      && StrictlySorted(AddrLess, addresses) && NoDuplicates(v) && SameAddresses(v, addresses)
      && forall kind :: kind in v ==> kind in identity && identity[kind] == v[kind]
    }

    constructor (env: Env, identity: Collected)
      ensures this.env == env && this.identity == identity && Valid() && addresses == [] && v == map[]
    {
      this.env, this.identity, v, addresses := env, identity, map[], [];
    }

    method SetIdentifier(kind: Kind, value: GoString)
      requires Valid() && kind != CodeAuth
      modifies this
      ensures Valid() && addresses == old(addresses)
      ensures Elements(IdsOf(v, kind)) == Elements(IdsOf(old(v), kind)) + {env.graceful(value)}
      ensures forall other :: other != kind ==> IdsOf(v, other) == IdsOf(old(v), other)
    {
      ElementsAppend(IdsOf(v, kind), env.graceful(value));
      var ids := Unique(IdsOf(v, kind) + [env.graceful(value)]);
      v := v[kind := ids];
      identity := identity[kind := ids];
    }

    /** The code branch: a rejected value changes nothing, an accepted one adds its address to the sorted list. */
    method AddAddress(c: Call) returns (ok: bool)
      requires Valid()
      modifies this
      ensures Valid()
      ensures ok <==> AddressOf(env, c).Some?
      ensures !ok ==> addresses == old(addresses) && v == old(v)
      ensures ok ==> addresses == SortedSeq(AddrLess, Elements(old(addresses)) + {AddressOf(env, c).value})
      ensures forall other :: other != CodeAuth ==> IdsOf(v, other) == IdsOf(old(v), other)
    {
      var address := AddressOf(env, c);
      if address.None? { return false; }
      AddrLessStrict();
      ElementsAppend(addresses, address.value);
      var uniq := UniqByKey(addresses + [address.value]);
      var sorted := Sort(AddrLess, uniq);
      SortSorted(AddrLess, uniq);
      SortIsSortedSeq(AddrLess, uniq);
      var ids := Unique(IdsOf(v, CodeAuth) + AddressesOnly(sorted));
      IdentifiersCovered(IdsOf(v, CodeAuth), addresses, sorted, ids);
      v := v[CodeAuth := ids];
      addresses := sorted;
      identity := identity[CodeAuth := ids];
      return true;
    }

    /** The three branches in order; a rejected code branch does not take back the identifiers set before it. */
    method Run(c: Call) returns (ok: bool)
      requires Valid()
      modifies this
      ensures Valid()
      ensures ok <==> (c.code ==> AddressOf(env, c).Some?)
      ensures Added(env, c) == {} ==> addresses == old(addresses)
      ensures Added(env, c) != {} ==> addresses == SortedSeq(AddrLess, Elements(old(addresses)) + Added(env, c))
      ensures forall kind :: kind != CodeAuth ==>
        Elements(IdsOf(v, kind)) == Elements(IdsOf(old(v), kind)) + Given(env, c, kind)
    {
      if c.password { SetIdentifier(Password, c.value); }
      if c.webauthn { SetIdentifier(WebAuthn, c.value); }
      if c.code {
        ok := AddAddress(c);
        return;
      }
      return true;
    }

    /** After any sequence of calls the addresses are the sorted set of accepted ones, and the identifiers of the other
        two types are the set of normalised values. */
    method RunAll(calls: seq<Call>)
      requires Valid() && addresses == [] && v == map[]
      modifies this
      ensures Valid()
      ensures addresses == SortedSeq(AddrLess, Accepted(env, calls))
      ensures forall kind :: kind != CodeAuth ==> Elements(IdsOf(v, kind)) == AllGiven(env, calls, kind)
    {
      NoAddresses();
      assert Accepted(env, calls[..0]) == {};
      for k := 0 to |calls|
        invariant Valid() && addresses == SortedSeq(AddrLess, Accepted(env, calls[..k]))
        invariant forall kind :: kind != CodeAuth ==> Elements(IdsOf(v, kind)) == AllGiven(env, calls[..k], kind)
      {
        SortedSetElements(Accepted(env, calls[..k]));
        CallNext(env, calls, k);
        var _ := Run(calls[k]);
      }
      assert calls[..|calls|] == calls;
    }
  }

  lemma NoAddresses()
    ensures SortedSeq(AddrLess, {}) == []
  {
    AddrLessStrict();
    SortedSeqEmpty(AddrLess);
  }

  lemma SortedSetElements(s: set<CodeAddress>)
    ensures Elements(SortedSeq(AddrLess, s)) == s
  {
    AddrLessStrict();
    SortedSeqSorted(AddrLess, s);
  }

  lemma IdentifiersCovered(before: seq<GoString>, old_: seq<CodeAddress>, new_: seq<CodeAddress>, after: seq<GoString>)
    requires Elements(before) == set a | a in old_ :: a.address
    requires Elements(old_) <= Elements(new_)
    requires Elements(after) == Elements(before + AddressesOnly(new_))
    ensures Elements(after) == set a | a in new_ :: a.address
  {
    forall s ensures s in Elements(after) <==> s in set a | a in new_ :: a.address {
      if s in before {
        assert s in Elements(before);
        var a :| a in old_ && a.address == s;
        assert a in Elements(old_);
      }
      if s in set a | a in new_ :: a.address {
        var a :| a in new_ && a.address == s;
        var k :| 0 <= k < |new_| && new_[k] == a;
        assert AddressesOnly(new_)[k] == s;
      }
    }
  }

  ghost function Accepted(env: Env, calls: seq<Call>): set<CodeAddress> {
    set c, a | c in calls && a in Added(env, c) :: a
  }

  ghost function AllGiven(env: Env, calls: seq<Call>, kind: Kind): set<GoString> {
    set c, id | c in calls && id in Given(env, c, kind) :: id
  }

  lemma CallNext(env: Env, calls: seq<Call>, k: nat)
    requires k < |calls|
    ensures Accepted(env, calls[..k + 1]) == Accepted(env, calls[..k]) + Added(env, calls[k])
    ensures Added(env, calls[k]) == {} ==> Accepted(env, calls[..k + 1]) == Accepted(env, calls[..k])
    ensures forall kind :: AllGiven(env, calls[..k + 1], kind) == AllGiven(env, calls[..k], kind) + Given(env, calls[k], kind)
  {
    assert calls[..k + 1] == calls[..k] + [calls[k]];
  }

  /** The order of the calls does not matter: the final list and the identifiers depend only on which calls were made. */
  lemma OrderIndependent(env: Env, calls: seq<Call>, reordered: seq<Call>)
    requires multiset(calls) == multiset(reordered)
    ensures SortedSeq(AddrLess, Accepted(env, calls)) == SortedSeq(AddrLess, Accepted(env, reordered))
    ensures forall kind :: AllGiven(env, calls, kind) == AllGiven(env, reordered, kind)
  {
    MultisetElements(calls, reordered);
    assert Accepted(env, calls) == Accepted(env, reordered);
  }

  // ----- what a call contributes -----

  /** Whether the email is only normalised: a format other than absent, empty or `email`. */
  ghost predicate Lenient(c: Call) {
    c.via == "email" && c.format.Text? && c.format.text !in {"", "email"}
  }

  /** A call is accepted iff its channel is email or SMS, its format is no other JSON value, and its value is valid for the
      channel unless the format is lenient; the address has that channel and the normalised value. */
  lemma AddressOfIff(env: Env, c: Call, a: CodeAddress)
    ensures AddressOf(env, c) == Some(a) <==>
      && (c.via == "email" || c.via == "sms") && !c.format.NotText? && a.channel == c.via
      && if Lenient(c) then a.address == env.graceful(c.value) else env.strict(c.value, c.via) == Some(a.address)
  {}

  /** What a sequence of calls contributes to each credential type. */
  lemma ContributedIff(env: Env, calls: seq<Call>, id: GoString, a: CodeAddress)
    ensures id in AllGiven(env, calls, Password) <==> exists c :: c in calls && c.password && env.graceful(c.value) == id
    ensures id in AllGiven(env, calls, WebAuthn) <==> exists c :: c in calls && c.webauthn && env.graceful(c.value) == id
    ensures a in Accepted(env, calls) <==> exists c :: c in calls && c.code && AddressOf(env, c) == Some(a)
  {
    forall c | c in calls ensures
      && (id in Given(env, c, Password) <==> c.password && env.graceful(c.value) == id)
      && (id in Given(env, c, WebAuthn) <==> c.webauthn && env.graceful(c.value) == id)
      && (a in Added(env, c) <==> c.code && AddressOf(env, c) == Some(a))
    {}
  }
}
