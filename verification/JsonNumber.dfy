/** The JSON number recogniser (x/json_number.go) against the grammar in section 6 of RFC 7159. */
module JsonNumber {
  import opened Decimal

  // ----- the grammar -----

  ghost predicate IsMinus(s: string) { s == "" || s == "-" }

  ghost predicate Digits(s: string) { s != "" && AllDigits(s) }

  /** int = zero / ( digit1-9 *DIGIT ) */
  ghost predicate IsInt(s: string) { Digits(s) && (s[0] == '0' ==> s == "0") }

  /** frac = decimal-point 1*DIGIT, optional */
  ghost predicate IsFrac(s: string) { s == "" || (s[0] == '.' && Digits(s[1..])) }

  /** exp = e [ minus / plus ] 1*DIGIT, optional */
  ghost predicate IsExp(s: string) {
    s == "" || ((s[0] == 'e' || s[0] == 'E') && IsSigned(s[1..]))
  }

  ghost predicate IsSigned(s: string) {
    Digits(s) || (s != "" && (s[0] == '+' || s[0] == '-') && Digits(s[1..]))
  }

  ghost predicate Parts(s: string, minus: string, int_: string, frac: string, exp: string) {
    s == minus + int_ + frac + exp && IsMinus(minus) && IsInt(int_) && IsFrac(frac) && IsExp(exp)
  }

  /** number = [ minus ] int [ frac ] [ exp ] */
  ghost predicate IsNumber(s: string) {
    exists minus, int_, frac, exp :: Parts(s, minus, int_, frac, exp)
  }

  // ----- one stage at a time: what is left after a greedy step is a tail iff the whole was -----

  ghost predicate IsFracExp(s: string) { exists frac, exp :: s == frac + exp && IsFrac(frac) && IsExp(exp) }

  ghost predicate IsIntFracExp(s: string) { exists int_, tail :: s == int_ + tail && IsInt(int_) && IsFracExp(tail) }

  method SkipDigits(s: string) returns (r: string)
    ensures DigitRun(s) <= |s| && r == s[DigitRun(s)..]
  {
    r := s;
    ghost var k := 0;
    while |r| > 0 && '0' <= r[0] <= '9'
      invariant k <= |s| && r == s[k..] && AllDigits(s[..k])
      decreases |r|
    {
      assert s[..k + 1] == s[..k] + [r[0]];
      r := r[1..];
      k := k + 1;
    }
    DigitRunUnique(s[..k], s[k..]);
    assert s[..k] + s[k..] == s;
  }

  lemma ExpStartsWithE(s: string)
    requires IsExp(s)
    ensures s == "" || !IsDigit(s[0])
  {}

  lemma FracExpHead(s: string)
    requires IsFracExp(s)
    ensures s == "" || !IsDigit(s[0])
  {
    var frac, exp :| s == frac + exp && IsFrac(frac) && IsExp(exp);
    if frac == "" { assert s == exp; }
  }

  /** Without a fraction in front, only an exponent can follow. */
  lemma NoFraction(s: string)
    requires !(|s| >= 2 && s[0] == '.' && IsDigit(s[1]))
    ensures IsFracExp(s) <==> IsExp(s)
  {
    if IsExp(s) { assert s == "" + s && IsFrac(""); }
    if IsFracExp(s) {
      var frac, exp :| s == frac + exp && IsFrac(frac) && IsExp(exp);
      assert s == exp;
    }
  }

  lemma TakeFraction(s: string)
    requires |s| >= 2 && s[0] == '.' && IsDigit(s[1])
    ensures IsFracExp(s) <==> IsExp(s[1..][DigitRun(s[1..])..])
  {
    var t := s[1..];
    var k := DigitRun(t);
    if IsExp(t[k..]) { GiveFraction(s, t[..k], t[k..]); }
    if IsFracExp(s) {
      var frac, exp :| s == frac + exp && IsFrac(frac) && IsExp(exp);
      assert frac != "" && t == frac[1..] + exp;
      ExpStartsWithE(exp);
      DigitRunUnique(frac[1..], exp);
    }
  }

  lemma GiveFraction(s: string, digits: string, rest: string)
    requires s != "" && s[0] == '.' && s[1..] == digits + rest && Digits(digits) && IsExp(rest)
    ensures IsFracExp(s)
  {
    var frac := "." + digits;
    assert frac[1..] == digits && IsFrac(frac);
    assert s == frac + rest;
  }

  lemma TakeSign(s: string)
    requires s != "" && (s[0] == '+' || s[0] == '-')
    ensures IsSigned(s) <==> Digits(s[1..])
  {}

  lemma ZeroFirst(s: string)
    requires s != "" && s[0] == '0'
    ensures IsIntFracExp(s) <==> IsFracExp(s[1..])
  {
    if IsFracExp(s[1..]) { assert s == "0" + s[1..] && IsInt("0"); }
    if IsIntFracExp(s) {
      var int_, tail :| s == int_ + tail && IsInt(int_) && IsFracExp(tail);
      assert int_[0] == s[0];
      assert s[1..] == tail;
    }
  }

  lemma NonZeroFirst(s: string)
    requires s != "" && '1' <= s[0] <= '9'
    ensures IsIntFracExp(s) <==> IsFracExp(s[DigitRun(s)..])
  {
    var k := DigitRun(s);
    assert s == s[..k] + s[k..];
    if IsFracExp(s[k..]) {
      assert s[..k][0] == s[0];
      assert IsInt(s[..k]);
    }
    if IsIntFracExp(s) {
      var int_, tail :| s == int_ + tail && IsInt(int_) && IsFracExp(tail);
      FracExpHead(tail);
      DigitRunUnique(int_, tail);
    }
  }

  lemma NoDigitFirst(s: string)
    requires s == "" || !IsDigit(s[0])
    ensures !IsIntFracExp(s)
  {}

  lemma JoinFour(a: string, b: string, c: string, d: string)
    ensures a + (b + (c + d)) == a + b + c + d
  {}

  lemma NumberFromParts(sign: string, t: string)
    requires IsMinus(sign) && IsIntFracExp(t)
    ensures IsNumber(sign + t)
  {
    var int_, tail :| t == int_ + tail && IsInt(int_) && IsFracExp(tail);
    var frac, exp :| tail == frac + exp && IsFrac(frac) && IsExp(exp);
    JoinFour(sign, int_, frac, exp);
    assert Parts(sign + t, sign, int_, frac, exp);
  }

  lemma NumberToParts(s: string) returns (sign: string, t: string)
    requires IsNumber(s)
    ensures s == sign + t && IsMinus(sign) && IsIntFracExp(t) && t != "" && IsDigit(t[0])
  {
    var minus, int_, frac, exp :| Parts(s, minus, int_, frac, exp);
    sign, t := minus, int_ + (frac + exp);
    JoinFour(minus, int_, frac, exp);
    assert IsFracExp(frac + exp);
    assert t[0] == int_[0];
  }

  lemma MinusFirst(s: string)
    ensures IsNumber(s) <==> IsIntFracExp(if s != "" && s[0] == '-' then s[1..] else s)
  {
    var sign := if s != "" && s[0] == '-' then "-" else "";
    var t := if s != "" && s[0] == '-' then s[1..] else s;
    assert s == sign + t;
    if IsIntFracExp(t) { NumberFromParts(sign, t); }
    if IsNumber(s) {
      var minus, u := NumberToParts(s);
      assert minus == "" ==> s[0] == u[0];
      assert minus == sign && u == t;
    }
  }

  /** The optional exponent and the end of the text. */
  method AcceptExponent(rest: string) returns (ok: bool)
    ensures ok <==> IsExp(rest)
  {
    var s := rest;
    if |s| >= 2 && (s[0] == 'e' || s[0] == 'E') {
      s := s[1..];
      ghost var signed := s;
      if s[0] == '+' || s[0] == '-' {
        s := s[1..];
        TakeSign(signed);
        if s == "" { return false; }
      }
      ghost var digits := s;
      s := SkipDigits(s);
      assert s == "" ==> digits[..DigitRun(digits)] == digits;
    }
    return s == "";
  }

  /** The recogniser accepts exactly the numbers of the grammar. */
  method IsValidNumber(text: string) returns (ok: bool)
    ensures ok <==> IsNumber(text)
  {
    var s := text;
    MinusFirst(s);
    if s == "" {
      NoDigitFirst(s);
      return false;
    }
    if s[0] == '-' {
      s := s[1..];
      if s == "" {
        NoDigitFirst(s);
        return false;
      }
    }
    if s[0] == '0' {
      ZeroFirst(s);
      s := s[1..];
    } else if '1' <= s[0] <= '9' {
      NonZeroFirst(s);
      AfterDigit(s);
      s := SkipDigits(s[1..]);
    } else {
      NoDigitFirst(s);
      return false;
    }
    ok := AcceptFraction(s);
  }

  /** Skipping a digit and then a run of digits is skipping the run. */
  lemma AfterDigit(s: string)
    requires s != "" && IsDigit(s[0])
    ensures DigitRun(s) <= |s| && DigitRun(s[1..]) <= |s| - 1 && s[DigitRun(s)..] == s[1..][DigitRun(s[1..])..]
  {
    assert DigitRun(s) == 1 + DigitRun(s[1..]);
  }

  /** The optional fraction and what follows. */
  method AcceptFraction(rest: string) returns (ok: bool)
    ensures ok <==> IsFracExp(rest)
  {
    var s := rest;
    if |s| >= 2 && s[0] == '.' && '0' <= s[1] <= '9' {
      TakeFraction(s);
      AfterDigit(s[1..]);
      assert s[1..][1..] == s[2..];
      s := SkipDigits(s[2..]);
    } else {
      NoFraction(s);
    }
    ok := AcceptExponent(s);
  }
}
