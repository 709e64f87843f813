/** Go's `strings` helpers: splitting on a character and replacing a character everywhere. */
module Strings {

  /** `strings.Split(s, sep)`: the pieces between separators, at least one. */
  function Split(s: string, sep: char): (pieces: seq<string>)
    ensures |pieces| >= 1
    ensures forall k :: 0 <= k < |pieces| ==> sep !in pieces[k]
  {
    if s == "" then [""]
    else
      var rest := Split(s[1..], sep);
      if s[0] == sep then [""] + rest else [[s[0]] + rest[0]] + rest[1..]
  }

  lemma {:induction false} SplitWhole(s: string, sep: char)
    requires sep !in s
    ensures Split(s, sep) == [s]
  {
    if s != "" {
      SplitWhole(s[1..], sep);
      assert s == [s[0]] + s[1..];
    }
  }

  lemma {:induction false} SplitFirst(head: string, sep: char, rest: string)
    requires sep !in head
    ensures Split(head + [sep] + rest, sep) == [head] + Split(rest, sep)
  {
    var s := head + [sep] + rest;
    if head == "" {
      assert s[1..] == rest;
    } else {
      assert s[1..] == head[1..] + [sep] + rest;
      SplitFirst(head[1..], sep, rest);
      assert head == [head[0]] + head[1..];
    }
  }

  /** Every part printed after a separator. */
  function Prefixed(sep: char, parts: seq<string>): string {
    if parts == [] then "" else [sep] + (parts[0] + Prefixed(sep, parts[1..]))
  }

  ghost predicate Without(sep: char, parts: seq<string>) {
    forall k :: 0 <= k < |parts| ==> sep !in parts[k]
  }

  /** Splitting recovers the printed parts, after the text before the first separator. */
  lemma {:induction false} SplitPrefixed(sep: char, head: string, parts: seq<string>)
    requires sep !in head && Without(sep, parts)
    ensures Split(head + Prefixed(sep, parts), sep) == [head] + parts
    decreases |parts|
  {
    if parts == [] {
      assert head + Prefixed(sep, parts) == head;
      SplitWhole(head, sep);
    } else {
      var rest := parts[0] + Prefixed(sep, parts[1..]);
      SplitPrefixed(sep, parts[0], parts[1..]);
      assert [parts[0]] + parts[1..] == parts;
      SplitFirst(head, sep, rest);
      assert head + Prefixed(sep, parts) == head + [sep] + rest;
    }
  }

  /** Printing the pieces puts the string back together. */
  lemma {:induction false} PrefixedSplit(sep: char, s: string)
    ensures Prefixed(sep, Split(s, sep)) == [sep] + s
  {
    if s != "" {
      var rest := Split(s[1..], sep);
      PrefixedSplit(sep, s[1..]);
      assert s == [s[0]] + s[1..];
      if s[0] == sep {
        assert ([""] + rest)[1..] == rest;
        assert "" + Prefixed(sep, rest) == Prefixed(sep, rest);
      } else {
        PrefixedFirst(sep, rest, s[0]);
        assert rest[0] + Prefixed(sep, rest[1..]) == s[1..] by {
          assert Prefixed(sep, rest)[1..] == rest[0] + Prefixed(sep, rest[1..]);
        }
      }
    }
  }

  lemma PrefixedFirst(sep: char, parts: seq<string>, c: char)
    requires parts != []
    ensures Prefixed(sep, [[c] + parts[0]] + parts[1..]) == [sep] + ([c] + (parts[0] + Prefixed(sep, parts[1..])))
  {
    var longer := [[c] + parts[0]] + parts[1..];
    assert longer[0] == [c] + parts[0] && longer[1..] == parts[1..];
    assert [c] + parts[0] + Prefixed(sep, parts[1..]) == [c] + (parts[0] + Prefixed(sep, parts[1..]));
  }

  function Count(s: string, sep: char): nat {
    if s == "" then 0 else (if s[0] == sep then 1 else 0) + Count(s[1..], sep)
  }

  lemma {:induction false} SplitLength(s: string, sep: char)
    ensures |Split(s, sep)| == Count(s, sep) + 1
  {
    if s != "" { SplitLength(s[1..], sep); }
  }

  lemma {:induction false} CountAppend(a: string, b: string, sep: char)
    ensures Count(a + b, sep) == Count(a, sep) + Count(b, sep)
  {
    if a == "" {
      assert a + b == b;
    } else {
      assert (a + b)[1..] == a[1..] + b;
      CountAppend(a[1..], b, sep);
    }
  }

  lemma {:induction false} CountZero(s: string, sep: char)
    ensures Count(s, sep) == 0 <==> sep !in s
  {
    if s != "" {
      CountZero(s[1..], sep);
      assert s == [s[0]] + s[1..];
    }
  }

  /** `strings.ReplaceAll` of a single character. */
  function ReplaceAll(s: string, c: char, with: string): string {
    if s == "" then "" else (if s[0] == c then with else [s[0]]) + ReplaceAll(s[1..], c, with)
  }

  lemma {:induction false} ReplaceAllAppend(a: string, b: string, c: char, with: string)
    ensures ReplaceAll(a + b, c, with) == ReplaceAll(a, c, with) + ReplaceAll(b, c, with)
  {
    if a == "" {
      assert a + b == b;
    } else {
      assert (a + b)[1..] == a[1..] + b;
      ReplaceAllAppend(a[1..], b, c, with);
    }
  }
}
