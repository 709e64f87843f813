/** Decimal printing and scanning: Go's `strconv.Itoa`, `%d` in `fmt.Fprintf`, and the digit run read by `fmt.Sscanf`. */
module Decimal {
  import opened Wrappers

  predicate IsDigit(c: char) { '0' <= c <= '9' }

  ghost predicate AllDigits(s: string) { forall i :: 0 <= i < |s| ==> IsDigit(s[i]) }

  function DigitValue(c: char): (d: nat)
    requires IsDigit(c)
    ensures d < 10
  {
    c as int - '0' as int
  }

  function DigitChar(d: nat): (c: char)
    requires d < 10
    ensures IsDigit(c) && DigitValue(c) == d
  {
    (d + '0' as int) as char
  }

  function Itoa(n: nat): (s: string)
    ensures s != "" && AllDigits(s)
  {
    if n < 10 then [DigitChar(n)] else Itoa(n / 10) + [DigitChar(n % 10)]
  }

  function ValueOf(s: string): (n: nat)
    requires AllDigits(s)
  {
    if s == "" then 0 else 10 * ValueOf(s[..|s| - 1]) + DigitValue(s[|s| - 1])
  }

  /** Printing then reading a number gives the number back. */
  lemma {:induction false} ItoaRoundTrip(n: nat)
    ensures ValueOf(Itoa(n)) == n
  {
    if n >= 10 {
      var s := Itoa(n / 10);
      ItoaRoundTrip(n / 10);
      assert Itoa(n)[..|Itoa(n)| - 1] == s;
    }
  }

  /** The longest digit prefix. */
  function DigitRun(s: string): (k: nat)
    ensures k <= |s| && AllDigits(s[..k])
    ensures k < |s| ==> !IsDigit(s[k])
  {
    if s == "" || !IsDigit(s[0]) then 0
    else
      var k := DigitRun(s[1..]);
      assert s[..k + 1] == [s[0]] + s[1..][..k];
      k + 1
  }

  lemma DigitRunUnique(digits: string, rest: string)
    requires AllDigits(digits) && (rest == "" || !IsDigit(rest[0]))
    ensures DigitRun(digits + rest) == |digits|
    ensures (digits + rest)[..|digits|] == digits && (digits + rest)[|digits|..] == rest
  {
    var s := digits + rest;
    var k := DigitRun(s);
    assert forall i :: 0 <= i < |digits| ==> s[i] == digits[i];
    assert k >= |digits|;
    assert rest != "" ==> s[|digits|] == rest[0];
  }

  /** An array index as gjson reads it: a non-empty digit string. */
  function ParseIndex(s: string): (r: Option<nat>)
    ensures r.Some? <==> s != "" && AllDigits(s)
    ensures r.Some? ==> AllDigits(s) && r.value == ValueOf(s)
  {
    if s == "" || DigitRun(s) < |s| then None
    else
      assert s[..|s|] == s;
      Some(ValueOf(s))
  }
}
