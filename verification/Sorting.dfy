/** Strict total orders, insertion sort, and the one strictly sorted list of a finite set.
    Stands for Go's `slices.Sorted` and `sort.SliceStable`. */
module Sorting {

  ghost predicate StrictOrder<T(!new)>(lt: (T, T) -> bool) {
    && (forall x :: !lt(x, x))
    && (forall x, y, z :: lt(x, y) && lt(y, z) ==> lt(x, z))
    && (forall x, y :: x == y || lt(x, y) || lt(y, x))
  }

  ghost predicate StrictlySorted<T(!new)>(lt: (T, T) -> bool, s: seq<T>) {
    forall i, j :: 0 <= i < j < |s| ==> lt(s[i], s[j])
  }

  ghost function Elements<T>(s: seq<T>): set<T> {
    set x | x in s
  }

  ghost predicate Distinct<T>(s: seq<T>) {
    forall i, j :: 0 <= i < j < |s| ==> s[i] != s[j]
  }

  lemma ElementsAppend<T>(s: seq<T>, x: T)
    ensures Elements(s + [x]) == Elements(s) + {x}
  {}

  /** Places `x` before the first element greater than it. */
  function Insert<T>(lt: (T, T) -> bool, x: T, s: seq<T>): (r: seq<T>) {
    if s == [] then [x]
    else if lt(x, s[0]) then [x] + s
    else [s[0]] + Insert(lt, x, s[1..])
  }

  function Sort<T>(lt: (T, T) -> bool, s: seq<T>): (r: seq<T>) {
    if s == [] then [] else Insert(lt, s[0], Sort(lt, s[1..]))
  }

  lemma MultisetElements<T>(r: seq<T>, s: seq<T>)
    requires multiset(r) == multiset(s)
    ensures Elements(r) == Elements(s)
    ensures forall x :: x in r <==> x in s
  {
    forall x ensures x in r <==> x in s {
      assert x in r <==> x in multiset(r);
      assert x in s <==> x in multiset(s);
    }
  }

  lemma {:induction false} InsertElements<T>(lt: (T, T) -> bool, x: T, s: seq<T>)
    ensures Elements(Insert(lt, x, s)) == Elements(s) + {x}
  {
    if s != [] && !lt(x, s[0]) {
      InsertElements(lt, x, s[1..]);
      var t := Insert(lt, x, s[1..]);
      assert Elements([s[0]] + t) == {s[0]} + Elements(t);
      assert s == [s[0]] + s[1..];
    }
  }

  lemma {:induction false} InsertSorted<T(!new)>(lt: (T, T) -> bool, x: T, s: seq<T>)
    requires StrictOrder(lt) && StrictlySorted(lt, s) && x !in s
    ensures StrictlySorted(lt, Insert(lt, x, s))
  {
    if s != [] && !lt(x, s[0]) {
      InsertSorted(lt, x, s[1..]);
      InsertElements(lt, x, s[1..]);
      var t := Insert(lt, x, s[1..]);
      forall k | 0 <= k < |t| ensures lt(s[0], t[k]) {
        assert t[k] in Elements(t);
      }
    }
  }

  lemma {:induction false} SortSorted<T(!new)>(lt: (T, T) -> bool, s: seq<T>)
    requires StrictOrder(lt) && Distinct(s)
    ensures StrictlySorted(lt, Sort(lt, s))
    ensures Elements(Sort(lt, s)) == Elements(s)
  {
    if s != [] {
      var t := Sort(lt, s[1..]);
      SortSorted(lt, s[1..]);
      assert s == [s[0]] + s[1..] && s[0] !in s[1..];
      assert s[0] !in t by { assert s[0] !in Elements(t); }
      InsertSorted(lt, s[0], t);
      InsertElements(lt, s[0], t);
    }
  }

  /** A strictly sorted list is determined by its elements. */
  lemma {:induction false} SortedUnique<T(!new)>(lt: (T, T) -> bool, s: seq<T>, t: seq<T>)
    requires StrictOrder(lt) && StrictlySorted(lt, s) && StrictlySorted(lt, t)
    requires forall x :: x in s <==> x in t
    ensures s == t
  {
    assert t != [] ==> t[0] in t;
    if s != [] {
      assert s[0] in t;
      assert t[0] in s;
      assert s[0] == t[0] by {
        var i :| 0 <= i < |t| && t[i] == s[0];
        var j :| 0 <= j < |s| && s[j] == t[0];
      }
      assert s == [s[0]] + s[1..] && t == [t[0]] + t[1..];
      assert s[0] !in s[1..] && t[0] !in t[1..];
      forall x ensures x in s[1..] <==> x in t[1..] {
        assert x in s <==> x == s[0] || x in s[1..];
        assert x in t <==> x == t[0] || x in t[1..];
      }
      SortedUnique(lt, s[1..], t[1..]);
    }
  }

  ghost predicate IsSortedSeq<T(!new)>(lt: (T, T) -> bool, s: set<T>, r: seq<T>) {
    StrictlySorted(lt, r) && Elements(r) == s
  }

  /** The elements of a set in increasing order, whatever order they are enumerated in. */
  ghost function SortedSeq<T(!new)>(lt: (T, T) -> bool, s: set<T>): (r: seq<T>) {
    if exists r :: IsSortedSeq(lt, s, r) then var r :| IsSortedSeq(lt, s, r); r else []
  }

  lemma {:induction false} SortedSeqExists<T(!new)>(lt: (T, T) -> bool, s: set<T>) returns (r: seq<T>)
    requires StrictOrder(lt)
    ensures IsSortedSeq(lt, s, r)
    decreases |s|
  {
    r := [];
    if s != {} {
      var x :| x in s;
      var t := SortedSeqExists(lt, s - {x});
      assert x !in t by { assert x !in Elements(t); }
      InsertSorted(lt, x, t);
      InsertElements(lt, x, t);
      r := Insert(lt, x, t);
    }
  }

  lemma SortedSeqSorted<T(!new)>(lt: (T, T) -> bool, s: set<T>)
    requires StrictOrder(lt)
    ensures StrictlySorted(lt, SortedSeq(lt, s)) && Elements(SortedSeq(lt, s)) == s
  {
    var r := SortedSeqExists(lt, s);
  }

  lemma SortedSeqEmpty<T(!new)>(lt: (T, T) -> bool)
    requires StrictOrder(lt)
    ensures SortedSeq(lt, {}) == []
  {
    SortedSeqSorted(lt, {});
    var r := SortedSeq(lt, {});
    assert forall x :: x in r ==> x in Elements(r);
    SortedUnique(lt, r, []);
  }

  /** Sorting any duplicate-free enumeration of a set gives the same list. */
  lemma SortIsSortedSeq<T(!new)>(lt: (T, T) -> bool, s: seq<T>)
    requires StrictOrder(lt) && Distinct(s)
    ensures Sort(lt, s) == SortedSeq(lt, Elements(s))
  {
    SortSorted(lt, s);
    SortedSeqSorted(lt, Elements(s));
    assert forall x :: x in Sort(lt, s) <==> x in Elements(Sort(lt, s));
    assert forall x :: x in SortedSeq(lt, Elements(s)) <==> x in Elements(SortedSeq(lt, Elements(s)));
    SortedUnique(lt, Sort(lt, s), SortedSeq(lt, Elements(s)));
  }

  /** Go's string order: lexicographic by code point. */
  predicate StrLess(a: string, b: string) {
    b != "" && (a == "" || a[0] < b[0] || (a[0] == b[0] && StrLess(a[1..], b[1..])))
  }

  /** The strings agree up to `k`, where the first one ends or has the smaller character. */
  ghost predicate DiffersAt(a: string, b: string, k: nat) {
    && k <= |a| && k < |b| && a[..k] == b[..k]
    && (k == |a| || a[k] < b[k])
  }

  lemma {:induction false} StrLessIff(a: string, b: string)
    ensures StrLess(a, b) <==> exists k: nat :: DiffersAt(a, b, k)
  {
    if a != "" && b != "" && a[0] == b[0] {
      StrLessIff(a[1..], b[1..]);
      if StrLess(a, b) {
        var k: nat :| DiffersAt(a[1..], b[1..], k);
        assert a[..k + 1] == [a[0]] + a[1..][..k] && b[..k + 1] == [b[0]] + b[1..][..k];
        assert DiffersAt(a, b, k + 1);
      }
      if k: nat :| DiffersAt(a, b, k) {
        assert k > 0 && a[1..][..k - 1] == a[..k][1..] && b[1..][..k - 1] == b[..k][1..];
        assert DiffersAt(a[1..], b[1..], k - 1);
      }
    } else {
      if StrLess(a, b) { assert DiffersAt(a, b, 0); }
      if k: nat :| DiffersAt(a, b, k) { AgreeBefore(a, b, k); }
    }
  }

  lemma AgreeBefore(a: string, b: string, k: nat)
    requires DiffersAt(a, b, k)
    ensures forall i :: 0 <= i < k ==> a[i] == b[i]
  {
    assert forall i :: 0 <= i < k ==> a[i] == a[..k][i] && b[i] == b[..k][i];
  }

  lemma {:induction false} StrLessTransitive(a: string, b: string, c: string)
    requires StrLess(a, b) && StrLess(b, c)
    ensures StrLess(a, c)
  {
    if a != "" && a[0] == b[0] && b[0] == c[0] {
      StrLessTransitive(a[1..], b[1..], c[1..]);
    }
  }

  lemma {:induction false} StrLessTotal(a: string, b: string)
    ensures a == b || StrLess(a, b) || StrLess(b, a)
    ensures !StrLess(a, a)
  {
    if a != "" {
      if b != "" && a[0] == b[0] {
        StrLessTotal(a[1..], b[1..]);
        assert a == [a[0]] + a[1..] && b == [b[0]] + b[1..];
      } else {
        StrLessTotal(a[1..], "");
      }
    }
  }

  lemma StrLessStrict()
    ensures StrictOrder(StrLess)
  {
    forall a, b, c | StrLess(a, b) && StrLess(b, c) ensures StrLess(a, c) {
      StrLessTransitive(a, b, c);
    }
    forall a, b ensures a == b || StrLess(a, b) || StrLess(b, a) {
      StrLessTotal(a, b);
    }
    forall a ensures !StrLess(a, a) {
      StrLessTotal(a, a);
    }
  }

  /** The keys of a Go map in some iteration order. */
  method KeysOf<V>(m: map<string, V>) returns (keys: seq<string>)
    ensures Distinct(keys) && Elements(keys) == m.Keys
  {
    keys := [];
    var rest := m.Keys;
    while rest != {}
      invariant Distinct(keys) && rest <= m.Keys
      invariant Elements(keys) == m.Keys - rest
      decreases |rest|
    {
      var k :| k in rest;
      assert k !in Elements(keys);
      assert Elements(keys + [k]) == Elements(keys) + {k};
      keys := keys + [k];
      rest := rest - {k};
    }
  }

  /** `slices.Sorted(maps.Keys(m))`: the same list for every iteration order. */
  method SortedKeys<V>(m: map<string, V>) returns (names: seq<string>)
    ensures names == SortedSeq(StrLess, m.Keys)
    ensures forall k :: 0 <= k < |names| ==> names[k] in m
  {
    var keys := KeysOf(m);
    StrLessStrict();
    SortIsSortedSeq(StrLess, keys);
    SortedSeqSorted(StrLess, m.Keys);
    names := Sort(StrLess, keys);
    assert forall k :: 0 <= k < |names| ==> names[k] in Elements(names);
  }
}
