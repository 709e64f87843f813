/** JSON pointers as schema/prevalidate.go writes them, and their evaluation by section 4 of RFC 6901. */
module JsonPointer {
  import opened Decimal
  import opened Json
  import opened Strings
  import opened Wrappers

  /** The source's two passes: `~` first, then `/`. */
  function EscapeJSONPointer(s: string): string {
    ReplaceAll(ReplaceAll(s, '~', "~0"), '/', "~1")
  }

  /** The same, one character at a time. */
  function Token(s: string): string {
    if s == "" then ""
    else (if s[0] == '~' then "~0" else if s[0] == '/' then "~1" else [s[0]]) + Token(s[1..])
  }

  lemma {:induction false} EscapeIsToken(s: string)
    ensures EscapeJSONPointer(s) == Token(s)
  {
    if s != "" {
      EscapeIsToken(s[1..]);
      var head := if s[0] == '~' then "~0" else [s[0]];
      ReplaceAllAppend(head, ReplaceAll(s[1..], '~', "~0"), '/', "~1");
      assert head[1..] == (if s[0] == '~' then "0" else "");
      assert ReplaceAll("", '/', "~1") == "" && "0"[1..] == "" && ReplaceAll("0", '/', "~1") == "0";
    }
  }

  /** Section 4: `~1` stands for `/` and `~0` for `~`; any other use of `~` is an error. */
  function Untoken(t: string): (r: Option<string>) {
    if t == "" then Some("")
    else if t[0] == '~' then
      if |t| > 1 && (t[1] == '0' || t[1] == '1') then
        match Untoken(t[2..])
        case None => None
        case Some(s) => Some([if t[1] == '0' then '~' else '/'] + s)
      else None
    else
      match Untoken(t[1..])
      case None => None
      case Some(s) => Some([t[0]] + s)
  }

  /** Escaping is inverted by unescaping, in both directions. */
  lemma {:induction false} UntokenToken(s: string)
    ensures Untoken(Token(s)) == Some(s) && '/' !in Token(s)
  {
    if s != "" {
      UntokenToken(s[1..]);
      assert s == [s[0]] + s[1..];
      var t := Token(s);
      if s[0] == '~' || s[0] == '/' {
        assert t[2..] == Token(s[1..]);
      } else {
        assert t[1..] == Token(s[1..]);
      }
    }
  }

  lemma {:induction false} TokenUntoken(t: string)
    requires '/' !in t && Untoken(t).Some?
    ensures Token(Untoken(t).value) == t
  {
    if t != "" {
      var s := Untoken(t).value;
      if t[0] == '~' {
        TokenUntoken(t[2..]);
        assert s[1..] == Untoken(t[2..]).value;
        assert t == t[..2] + t[2..];
      } else {
        TokenUntoken(t[1..]);
        assert s[1..] == Untoken(t[1..]).value;
      }
    }
  }

  /** Section 4: an array index is `0` or digits without a leading zero. */
  function IndexOf(t: string): (r: Option<nat>) {
    if |t| > 1 && t[0] == '0' then None else ParseIndex(t)
  }

  lemma {:induction false} ItoaCanonical(n: nat)
    ensures (Itoa(n)[0] == '0' ==> n == 0) && (n == 0 ==> Itoa(n) == "0")
  {
    if n >= 10 { ItoaCanonical(n / 10); }
  }

  lemma {:induction false} ItoaOfValue(t: string)
    requires t != "" && AllDigits(t) && (|t| > 1 ==> t[0] != '0')
    ensures Itoa(ValueOf(t)) == t && (t[0] != '0' ==> ValueOf(t) > 0)
  {
    var n := |t| - 1;
    var init := t[..n];
    assert t == init + [t[n]];
    if n > 0 {
      ItoaOfValue(init);
      assert ValueOf(t) / 10 == ValueOf(init) && ValueOf(t) % 10 == DigitValue(t[n]);
    } else {
      assert init == "" && ValueOf(init) == 0;
    }
  }

  lemma IndexOfItoa(n: nat)
    ensures IndexOf(Itoa(n)) == Some(n)
  {
    ItoaCanonical(n);
    ItoaRoundTrip(n);
    assert |Itoa(n)| > 1 ==> Itoa(n) != "0";
  }

  /** The reference token the walk writes for child `i`. */
  function TokenOf(j: Json, i: nat): string
    requires i < Arity(j)
  {
    if j.Object? then EscapeJSONPointer(j.fields[i].name) else Itoa(i)
  }

  function ChildByToken(j: Json, t: string): (r: Option<nat>)
    ensures r.Some? ==> r.value < Arity(j)
  {
    match j
    case Object(fields) =>
      (match Untoken(t)
       case None => None
       case Some(name) => FieldIndex(fields, name))
    case Array(items) =>
      (match IndexOf(t)
       case None => None
       case Some(i) => if i < |items| then Some(i) else None)
    case _ => None
  }

  /** Go maps have no duplicate keys. */
  ghost predicate UniqueNames(j: Json) {
    forall loc: Loc :: At(j, loc).Some? ==> UniqueHere(At(j, loc).value)
  }

  ghost predicate UniqueHere(j: Json) {
    j.Object? ==> forall a, b :: 0 <= a < b < |j.fields| ==> j.fields[a].name != j.fields[b].name
  }

  lemma UniqueChild(j: Json, i: nat)
    requires UniqueNames(j) && i < Arity(j)
    ensures UniqueHere(j) && UniqueNames(Child(j, i))
  {
    assert At(j, []) == Some(j);
    forall loc: Loc | At(Child(j, i), loc).Some? ensures UniqueHere(At(Child(j, i), loc).value) {
      assert ([i] + loc)[1..] == loc;
      assert At(j, [i] + loc) == At(Child(j, i), loc);
    }
  }

  /** A child's token leads to that child and to no other, and no other token leads to it. */
  lemma TokenFindsChild(j: Json, i: nat)
    requires UniqueHere(j) && i < Arity(j)
    ensures ChildByToken(j, TokenOf(j, i)) == Some(i)
  {
    if j.Object? { FieldByToken(j.fields, i); } else { IndexOfItoa(i); }
  }

  lemma FieldByToken(fields: seq<Field>, i: nat)
    requires i < |fields| && forall a, b :: 0 <= a < b < |fields| ==> fields[a].name != fields[b].name
    ensures var name := Untoken(EscapeJSONPointer(fields[i].name));
      name.Some? && FieldIndex(fields, name.value) == Some(i)
  {
    assert Untoken(EscapeJSONPointer(fields[i].name)) == Some(fields[i].name) by {
      EscapeIsToken(fields[i].name);
      UntokenToken(fields[i].name);
    }
    FieldIndexUnique(fields, i);
  }

  lemma FieldIndexUnique(fields: seq<Field>, i: nat)
    requires i < |fields| && forall a, b :: 0 <= a < b < |fields| ==> fields[a].name != fields[b].name
    ensures FieldIndex(fields, fields[i].name) == Some(i)
  {}

  lemma TokenHasNoSlash(j: Json, i: nat)
    requires i < Arity(j)
    ensures '/' !in TokenOf(j, i)
  {
    if j.Object? {
      EscapeIsToken(j.fields[i].name);
      UntokenToken(j.fields[i].name);
    } else {
      assert forall k :: 0 <= k < |Itoa(i)| ==> IsDigit(Itoa(i)[k]);
    }
  }

  lemma TokenIsUnique(j: Json, t: string)
    requires '/' !in t && ChildByToken(j, t).Some?
    ensures t == TokenOf(j, ChildByToken(j, t).value)
  {
    if j.Object? {
      TokenUntoken(t);
      EscapeIsToken(Untoken(t).value);
    } else {
      ItoaOfValue(t);
    }
  }

  // ----- whole pointers -----

  function TokensOf(j: Json, loc: Loc): (tokens: seq<string>)
    requires At(j, loc).Some?
    ensures |tokens| == |loc|
    decreases |loc|
  {
    if loc == [] then [] else [TokenOf(j, loc[0])] + TokensOf(Child(j, loc[0]), loc[1..])
  }

  /** The path the walk builds for a node. */
  function Pointer(j: Json, loc: Loc): string
    requires At(j, loc).Some?
  {
    Prefixed('/', TokensOf(j, loc))
  }

  function Descend(j: Json, tokens: seq<string>): (r: Option<Loc>)
    ensures r.Some? ==> At(j, r.value).Some?
    decreases |tokens|
  {
    if tokens == [] then Some([])
    else match ChildByToken(j, tokens[0])
      case None => None
      case Some(i) =>
        match Descend(Child(j, i), tokens[1..])
        case None => None
        case Some(loc) => assert ([i] + loc)[1..] == loc; Some([i] + loc)
  }

  /** Evaluation of a pointer: the empty one is the whole document. */
  function Evaluate(j: Json, pointer: string): (r: Option<Loc>)
    ensures r.Some? ==> At(j, r.value).Some?
  {
    if pointer == "" then Some([])
    else if pointer[0] != '/' then None
    else Descend(j, Split(pointer[1..], '/'))
  }

  lemma {:induction false} DescendTokens(j: Json, loc: Loc)
    requires UniqueNames(j) && At(j, loc).Some?
    ensures Descend(j, TokensOf(j, loc)) == Some(loc)
    decreases |loc|
  {
    if loc != [] {
      var i, rest := loc[0], loc[1..];
      UniqueChild(j, i);
      DescendTokens(Child(j, i), rest);
      TokenFindsChild(j, i);
      assert TokensOf(j, loc)[1..] == TokensOf(Child(j, i), rest);
      assert loc == [i] + rest;
    }
  }

  lemma {:induction false} TokensHaveNoSlash(j: Json, loc: Loc)
    requires At(j, loc).Some?
    ensures Without('/', TokensOf(j, loc))
    decreases |loc|
  {
    if loc != [] {
      TokensHaveNoSlash(Child(j, loc[0]), loc[1..]);
      TokenHasNoSlash(j, loc[0]);
    }
  }

  lemma {:induction false} TokensOfDescend(j: Json, tokens: seq<string>)
    requires Descend(j, tokens).Some? && Without('/', tokens)
    ensures TokensOf(j, Descend(j, tokens).value) == tokens
    decreases |tokens|
  {
    if tokens != [] {
      var i := ChildByToken(j, tokens[0]).value;
      TokenIsUnique(j, tokens[0]);
      TokensOfDescend(Child(j, i), tokens[1..]);
      var rest := Descend(Child(j, i), tokens[1..]).value;
      assert ([i] + rest)[1..] == rest;
    }
  }

  lemma PointerEvaluates(j: Json, loc: Loc)
    requires UniqueNames(j) && At(j, loc).Some?
    ensures Evaluate(j, Pointer(j, loc)) == Some(loc)
  {
    if loc != [] {
      var tokens := TokensOf(j, loc);
      DescendTokens(j, loc);
      TokensHaveNoSlash(j, loc);
      assert [tokens[0]] + tokens[1..] == tokens;
      SplitPrefixed('/', tokens[0], tokens[1..]);
      assert Pointer(j, loc)[1..] == tokens[0] + Prefixed('/', tokens[1..]);
    }
  }

  lemma EvaluatedIsPointer(j: Json, p: string)
    requires Evaluate(j, p).Some?
    ensures Pointer(j, Evaluate(j, p).value) == p
  {
    if p != "" {
      TokensOfDescend(j, Split(p[1..], '/'));
      PrefixedSplit('/', p[1..]);
      assert p == ['/'] + p[1..];
    }
  }

  /** Pointer strings and nodes correspond one to one. */
  lemma PointerIffEvaluates(j: Json, p: string, loc: Loc)
    requires UniqueNames(j)
    ensures Evaluate(j, p) == Some(loc) <==> At(j, loc).Some? && Pointer(j, loc) == p
  {
    if At(j, loc).Some? { PointerEvaluates(j, loc); }
    if Evaluate(j, p).Some? { EvaluatedIsPointer(j, p); }
  }
}
