/** gjson/sjson path strings: escaped segments joined by dots (identity/validator.go). */
module TraitPath {
  import opened Decimal
  import opened Json
  import opened Wrappers
  import JsonPointer

  predicate IsMeta(c: char) { c == '.' || c == '*' || c == '?' || c == '\\' }

  /** gjson path segments are never empty here: empty property names are outside the model. */
  ghost predicate NonEmpty(segments: seq<string>) {
    forall i :: 0 <= i < |segments| ==> segments[i] != ""
  }

  function Escape(segment: string): string {
    if segment == "" then ""
    else (if IsMeta(segment[0]) then ['\\', segment[0]] else [segment[0]]) + Escape(segment[1..])
  }

  lemma {:induction false} EscapeAppend(a: string, b: string)
    ensures Escape(a + b) == Escape(a) + Escape(b)
  {
    if a == "" {
      assert a + b == b;
    } else {
      assert (a + b)[1..] == a[1..] + b;
      EscapeAppend(a[1..], b);
    }
  }

  lemma {:induction false} EscapePlain(s: string)
    requires forall i :: 0 <= i < |s| ==> !IsMeta(s[i])
    ensures Escape(s) == s
  {
    if s != "" { EscapePlain(s[1..]); }
  }

  /** The builder loop with its shortcut for names without metacharacters. */
  method EscapePathSegment(segment: string) returns (r: string)
    ensures r == Escape(segment)
  {
    if forall i :: 0 <= i < |segment| ==> !IsMeta(segment[i]) {
      EscapePlain(segment);
      return segment;
    }
    r := "";
    for i := 0 to |segment|
      invariant r == Escape(segment[..i])
    {
      assert segment[..i + 1] == segment[..i] + [segment[i]];
      EscapeAppend(segment[..i], [segment[i]]);
      assert [segment[i]][1..] == "";
      if IsMeta(segment[i]) { r := r + ['\\']; }
      r := r + [segment[i]];
    }
    assert segment[..|segment|] == segment;
  }

  /** `path + "." + next`, or just `next` at the root. */
  function Join(path: string, next: string): string {
    if path == "" then next else path + "." + next
  }

  /** What gjson reads back: split at unescaped dots and drop the escaping backslashes. */
  function DecodeFrom(path: string, current: string): (segments: seq<string>)
    decreases |path|
  {
    if path == "" then [current]
    else if path[0] == '\\' && |path| > 1 then DecodeFrom(path[2..], current + [path[1]])
    else if path[0] == '.' then [current] + DecodeFrom(path[1..], "")
    else DecodeFrom(path[1..], current + [path[0]])
  }

  /** The empty path addresses nothing. */
  function Decode(path: string): seq<string> {
    if path == "" then [] else DecodeFrom(path, "")
  }

  /** The path string the walk builds for a list of segments. */
  ghost function Encode(segments: seq<string>): string {
    if segments == [] then ""
    else Join(Encode(segments[..|segments| - 1]), Escape(segments[|segments| - 1]))
  }

  lemma DecodeOne(c: char, rest: string, current: string)
    ensures DecodeFrom(Escape([c]) + rest, current) == DecodeFrom(rest, current + [c])
  {
    assert [c][1..] == "" && Escape("") == "";
    var p := Escape([c]) + rest;
    if IsMeta(c) {
      assert Escape([c]) == ['\\', c];
      assert p[2..] == rest && p[0] == '\\' && p[1] == c;
    } else {
      assert Escape([c]) == [c];
      assert p[1..] == rest && p[0] == c;
    }
  }

  lemma {:induction false} DecodeEscaped(segment: string, rest: string, current: string)
    ensures DecodeFrom(Escape(segment) + rest, current) == DecodeFrom(rest, current + segment)
  {
    if segment == "" {
      assert Escape(segment) + rest == rest && current + segment == current;
    } else {
      var c, tail := segment[0], segment[1..];
      DecodeOne(c, Escape(tail) + rest, current);
      assert Escape(segment) + rest == Escape([c]) + (Escape(tail) + rest) by {
        EscapeAppend([c], tail);
        assert segment == [c] + tail;
      }
      DecodeEscaped(tail, rest, current + [c]);
      assert current + [c] + tail == current + segment;
    }
  }

  lemma {:induction false} EncodeNonEmpty(segments: seq<string>)
    requires segments != [] && segments[0] != ""
    ensures Encode(segments) != ""
  {
    var n := |segments| - 1;
    if n > 0 { EncodeNonEmpty(segments[..n]); }
  }

  lemma DecodeDot(rest: string, current: string)
    ensures DecodeFrom("." + rest, current) == [current] + DecodeFrom(rest, "")
  {
    assert ("." + rest)[1..] == rest;
  }

  lemma {:induction false} DecodeEncodedFrom(segments: seq<string>, rest: string)
    requires segments != [] && segments[0] != ""
    ensures DecodeFrom(Encode(segments) + rest, "")
         == segments[..|segments| - 1] + DecodeFrom(rest, segments[|segments| - 1])
  {
    var n := |segments| - 1;
    var init, last := segments[..n], segments[n];
    if n == 0 {
      DecodeEscaped(last, rest, "");
      assert "" + last == last;
      assert Encode(init) == "";
    } else {
      EncodeNonEmpty(init);
      var tail := Escape(last) + rest;
      assert Encode(segments) + rest == Encode(init) + ("." + tail);
      calc {
        DecodeFrom(Encode(init) + ("." + tail), "");
        { DecodeEncodedFrom(init, "." + tail); }
        init[..n - 1] + DecodeFrom("." + tail, init[n - 1]);
        { DecodeDot(tail, init[n - 1]); }
        init[..n - 1] + ([init[n - 1]] + DecodeFrom(tail, ""));
        { assert init == init[..n - 1] + [init[n - 1]]; }
        init + DecodeFrom(tail, "");
        { DecodeEscaped(last, rest, ""); assert "" + last == last; }
        init + DecodeFrom(rest, last);
      }
    }
  }

  /** Escaped, dot-joined names decode back to the same segments, unless the first one is empty:
      the path then starts one level too low. */
  lemma DecodeEncode(segments: seq<string>)
    ensures Decode(Encode(segments)) == segments <==> segments == [] || segments[0] != ""
  {
    if segments != [] {
      if segments[0] != "" {
        EncodeNonEmpty(segments);
        DecodeEncodedFrom(segments, "");
        assert Encode(segments) + "" == Encode(segments);
      } else {
        EncodeDropsFirst(segments);
        DecodeLength(segments[1..]);
      }
    }
  }

  lemma {:induction false} EncodeDropsFirst(segments: seq<string>)
    requires segments != [] && segments[0] == ""
    ensures Encode(segments) == Encode(segments[1..])
  {
    var n := |segments| - 1;
    if n > 0 {
      EncodeDropsFirst(segments[..n]);
      assert segments[..n][1..] == segments[1..][..n - 1];
    } else {
      assert Escape("") == "" && Encode(segments[..0]) == "";
    }
  }

  lemma {:induction false} DecodeLength(segments: seq<string>)
    ensures |Decode(Encode(segments))| <= |segments|
    decreases |segments|
  {
    if segments != [] && segments[0] == "" {
      EncodeDropsFirst(segments);
      DecodeLength(segments[1..]);
    } else if segments != [] {
      DecodeEncodedFrom(segments, "");
      assert Encode(segments) + "" == Encode(segments);
    }
  }

  /** Child of `j` named by one segment: an index into an array, a key of an object. */
  function ChildNumber(j: Json, segment: string): (r: Option<nat>)
    ensures r.Some? ==> r.value < Arity(j)
  {
    match j
    case Array(items) =>
      (match ParseIndex(segment)
       case Some(i) => if i < |items| then Some(i) else None
       case None => None)
    case Object(fields) => FieldIndex(fields, segment)
    case _ => None
  }

  function Resolve(j: Json, segments: seq<string>): (r: Option<Loc>)
    ensures r.Some? ==> At(j, r.value).Some? && |r.value| == |segments|
    decreases |segments|
  {
    if segments == [] then Some([])
    else match ChildNumber(j, segments[0])
      case None => None
      case Some(i) =>
        match Resolve(Child(j, i), segments[1..])
        case None => None
        case Some(loc) => Some([i] + loc)
  }

  /** Position addressed by a decoded path; the empty path is absent. */
  function Locate(j: Json, segments: seq<string>): (r: Option<Loc>)
    ensures r.Some? ==> At(j, r.value).Some?
  {
    if segments == [] then None else Resolve(j, segments)
  }

  /** Iterations of gjson's ForEach at a path: none if absent, one per child of a container, one for a scalar. */
  function Count(j: Json, segments: seq<string>): nat {
    match Locate(j, segments)
    case None => 0
    case Some(loc) =>
      var v := At(j, loc).value;
      if v.Array? || v.Object? then Arity(v) else 1
  }

  /** In an array, the segment printed for index `i` addresses element `i`. */
  lemma IndexSegment(items: seq<Json>, i: nat)
    requires i < |items|
    ensures ChildNumber(Array(items), Itoa(i)) == Some(i)
  {
    ItoaRoundTrip(i);
  }

  // ----- what paths address -----

  /** A child is found by its own key: a field by its name, an element by its index. */
  lemma ChildNumberIff(j: Json, segment: string, i: nat)
    requires JsonPointer.UniqueHere(j)
    ensures ChildNumber(j, segment) == Some(i)
       <==> || (j.Object? && i < |j.fields| && j.fields[i].name == segment)
            || (j.Array? && i < |j.items| && segment != "" && AllDigits(segment) && ValueOf(segment) == i)
  {
    if j.Object? && i < |j.fields| && j.fields[i].name == segment { JsonPointer.FieldIndexUnique(j.fields, i); }
  }

  /** The keys on the way to a position. */
  ghost function KeysOf(j: Json, loc: Loc): (keys: seq<string>)
    requires At(j, loc).Some?
    ensures |keys| == |loc|
    decreases |loc|
  {
    if loc == [] then []
    else
      [if j.Object? then j.fields[loc[0]].name else Itoa(loc[0])] + KeysOf(Child(j, loc[0]), loc[1..])
  }

  /** Every position below the root is addressed by its keys. */
  lemma {:induction false} KeysResolve(j: Json, loc: Loc)
    requires JsonPointer.UniqueNames(j) && At(j, loc).Some?
    ensures Resolve(j, KeysOf(j, loc)) == Some(loc)
    ensures loc != [] ==> Locate(j, KeysOf(j, loc)) == Some(loc)
    decreases |loc|
  {
    if loc != [] {
      var i, rest := loc[0], loc[1..];
      JsonPointer.UniqueChild(j, i);
      KeysResolve(Child(j, i), rest);
      ItoaRoundTrip(i);
      ChildNumberIff(j, KeysOf(j, loc)[0], i);
      assert KeysOf(j, loc)[1..] == KeysOf(Child(j, i), rest);
      assert loc == [i] + rest;
    }
  }

  /** An array at a path is iterated once per element, and nothing is iterated at a path that addresses nothing. */
  lemma CountIsLength(j: Json, loc: Loc)
    requires JsonPointer.UniqueNames(j) && At(j, loc).Some? && At(j, loc).value.Array? && loc != []
    ensures Count(j, KeysOf(j, loc)) == |At(j, loc).value.items|
  {
    KeysResolve(j, loc);
  }

  /** No wildcard of gjson stands in the path without a backslash before it. */
  ghost predicate WildcardFree(path: string)
    decreases |path|
  {
    if path == "" then true
    else if path[0] == '\\' && |path| > 1 then WildcardFree(path[2..])
    else path[0] != '*' && path[0] != '?' && WildcardFree(path[1..])
  }

  lemma {:induction false} EscapeHidesWildcards(segment: string, rest: string)
    requires WildcardFree(rest)
    ensures WildcardFree(Escape(segment) + rest)
  {
    if segment == "" {
      assert Escape(segment) + rest == rest;
    } else {
      var c, tail := segment[0], Escape(segment[1..]) + rest;
      EscapeHidesWildcards(segment[1..], rest);
      if IsMeta(c) {
        assert Escape(segment) + rest == ['\\', c] + tail;
        assert (['\\', c] + tail)[2..] == tail;
      } else {
        assert Escape(segment) + rest == [c] + tail;
        assert ([c] + tail)[1..] == tail;
      }
    }
  }

  /** The path built for any names addresses one position at most: it holds no wildcard. */
  lemma {:induction false} EncodeHidesWildcards(segments: seq<string>, rest: string)
    requires WildcardFree(rest)
    ensures WildcardFree(Encode(segments) + rest)
  {
    if segments == [] {
      assert Encode(segments) + rest == rest;
    } else {
      var n := |segments| - 1;
      var last := Escape(segments[n]) + rest;
      EscapeHidesWildcards(segments[n], rest);
      if Encode(segments[..n]) == "" {
        assert Encode(segments) + rest == last;
      } else {
        assert ("." + last)[1..] == last;
        EncodeHidesWildcards(segments[..n], "." + last);
        assert Encode(segments) + rest == Encode(segments[..n]) + ("." + last);
      }
    }
  }
}
