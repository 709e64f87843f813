/** The parts of `fmt.Sscanf` that hash decoding uses: literals and `%d`. Trailing input is not an error. */
module HashScan {
  import opened Decimal
  import opened Wrappers

  /** A scanned number and the input left. */
  datatype Scanned = Scanned(n: nat, rest: string)

  function DropBlanks(s: string): string {
    if s != "" && (s[0] == ' ' || s[0] == '\t') then DropBlanks(s[1..]) else s
  }

  /** Literal text of the format must match exactly. */
  function Literal(s: string, text: string): Option<string> {
    if text <= s then Some(s[|text|..]) else None
  }

  /** `%d` into an unsigned field: blanks, then digits, within the field's width. */
  function Unsigned(s: string, max: nat): (r: Option<Scanned>)
    ensures r.Some? ==> r.value.n <= max
  {
    var t := DropBlanks(s);
    var k := DigitRun(t);
    if k == 0 || ValueOf(t[..k]) > max then None else Some(Scanned(ValueOf(t[..k]), t[k..]))
  }

  /** `text%d` for an unsigned field. */
  function Field(s: string, text: string, max: nat): (r: Option<Scanned>)
    ensures r.Some? ==> r.value.n <= max
  {
    match Literal(s, text)
    case None => None
    case Some(rest) => Unsigned(rest, max)
  }

  /** A printed number is scanned back, up to the next character that is not a digit. */
  lemma FieldPrinted(text: string, n: nat, rest: string, max: nat)
    requires n <= max && (rest == "" || !IsDigit(rest[0]))
    ensures Field(text + Itoa(n) + rest, text, max) == Some(Scanned(n, rest))
  {
    var s := text + Itoa(n) + rest;
    assert s == text + (Itoa(n) + rest);
    assert s[|text|..] == Itoa(n) + rest;
    assert IsDigit((Itoa(n) + rest)[0]);
    DigitRunUnique(Itoa(n), rest);
    ItoaRoundTrip(n);
  }

  lemma {:induction false} DigitsHaveNoDollar(n: nat)
    ensures '$' !in Itoa(n)
  {
    assert forall k :: 0 <= k < |Itoa(n)| ==> IsDigit(Itoa(n)[k]);
  }
}
