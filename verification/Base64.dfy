/** Base64 by section 4 of RFC 4648 as Go's strict decoders read it: unpadded for PBKDF2 and Argon2, padded for the rest. */
module Base64 {
  import opened Wrappers

  type Byte = b: nat | b < 256

  type Bytes = seq<Byte>

  function Symbol(v: nat): char
    requires v < 64
  {
    if v < 26 then ('A' as int + v) as char
    else if v < 52 then ('a' as int + v - 26) as char
    else if v < 62 then ('0' as int + v - 52) as char
    else if v == 62 then '+' else '/'
  }

  function SymbolValue(c: char): (r: Option<nat>)
    ensures r.Some? ==> r.value < 64
  {
    if 'A' <= c <= 'Z' then Some(c as int - 'A' as int)
    else if 'a' <= c <= 'z' then Some(c as int - 'a' as int + 26)
    else if '0' <= c <= '9' then Some(c as int - '0' as int + 52)
    else if c == '+' then Some(62)
    else if c == '/' then Some(63)
    else None
  }

  lemma SymbolRoundTrip(v: nat)
    requires v < 64
    ensures SymbolValue(Symbol(v)) == Some(v)
  {}

  lemma SymbolOfValue(c: char)
    requires SymbolValue(c).Some?
    ensures Symbol(SymbolValue(c).value) == c
  {}

  type Sextet = v: nat | v < 64

  /** Eight-bit groups to six-bit groups; a short last group is filled with zero bits. */
  function Pack(bs: Bytes): seq<Sextet> {
    if |bs| == 0 then []
    else if |bs| == 1 then [bs[0] / 4, bs[0] % 4 * 16]
    else if |bs| == 2 then [bs[0] / 4, bs[0] % 4 * 16 + bs[1] / 16, bs[1] % 16 * 4]
    else [bs[0] / 4, bs[0] % 4 * 16 + bs[1] / 16, bs[1] % 16 * 4 + bs[2] / 64, bs[2] % 64] + Pack(bs[3..])
  }

  /** The inverse; strict, so the filling bits must be zero. */
  function Unpack(vs: seq<Sextet>): Option<Bytes> {
    if |vs| == 0 then Some([])
    else if |vs| == 1 then None
    else
      var a: nat, b: nat := vs[0], vs[1];
      if |vs| == 2 then
        if b % 16 != 0 then None else Some([a * 4 + b / 16])
      else
        var c: nat := vs[2];
        if |vs| == 3 then
          if c % 4 != 0 then None else Some([a * 4 + b / 16, b % 16 * 16 + c / 4])
        else
          var d: nat := vs[3];
          match Unpack(vs[4..])
          case None => None
          case Some(rest) => Some([a * 4 + b / 16, b % 16 * 16 + c / 4, c % 4 * 64 + d] + rest)
  }

  /** Unpadded encoding. */
  function Encode(bs: Bytes): (s: string)
    ensures forall k :: 0 <= k < |s| ==> SymbolValue(s[k]).Some?
  {
    var vs := Pack(bs);
    seq(|vs|, k requires 0 <= k < |vs| => Symbol(vs[k]))
  }

  predicate AllSymbols(s: string) {
    forall k :: 0 <= k < |s| ==> SymbolValue(s[k]).Some?
  }

  function Values(s: string): seq<Sextet>
    requires AllSymbols(s)
  {
    seq(|s|, k requires 0 <= k < |s| => SymbolValue(s[k]).value)
  }

  function DecodeSymbols(s: string): Option<Bytes> {
    if AllSymbols(s) then Unpack(Values(s)) else None
  }

  /** Go's decoder skips carriage returns and line feeds. */
  function WithoutNewlines(s: string): string {
    if s == "" then ""
    else if s[0] == '\r' || s[0] == '\n' then WithoutNewlines(s[1..])
    else [s[0]] + WithoutNewlines(s[1..])
  }

  /** `base64.RawStdEncoding.Strict().DecodeString`. */
  function DecodeRaw(s: string): Option<Bytes> {
    DecodeSymbols(WithoutNewlines(s))
  }

  /** `base64.StdEncoding.Strict().DecodeString`: whole groups of four, the last padded with `=`. */
  function DecodePadded(s: string): Option<Bytes> {
    var t := WithoutNewlines(s);
    var n := |t|;
    if n % 4 != 0 then None
    else if n > 0 && t[n - 1] == '=' then
      if t[n - 2] == '=' then DecodeSymbols(t[..n - 2]) else DecodeSymbols(t[..n - 1])
    else DecodeSymbols(t)
  }

  lemma {:induction false} NoNewlines(s: string)
    requires forall k :: 0 <= k < |s| ==> SymbolValue(s[k]).Some?
    ensures WithoutNewlines(s) == s
  {
    if s != "" {
      assert SymbolValue(s[0]).Some?;
      NoNewlines(s[1..]);
    }
  }

  /** Cutting three bytes into sextets loses no bit. */
  lemma OctetsKept(a: Byte, b: Byte, c: Byte)
    ensures var p, q, r, s := a / 4, a % 4 * 16 + b / 16, b % 16 * 4 + c / 64, c % 64;
      p * 4 + q / 16 == a && q % 16 * 16 + r / 4 == b && r % 4 * 64 + s == c
  {}

  lemma SextetsKept(p: Sextet, q: Sextet, r: Sextet, s: Sextet)
    ensures var a: nat, b: nat, c: nat := p * 4 + q / 16, q % 16 * 16 + r / 4, r % 4 * 64 + s;
      a / 4 == p && a % 4 * 16 + b / 16 == q && b % 16 * 4 + c / 64 == r && c % 64 == s
  {}

  lemma {:induction false} UnpackPack(bs: Bytes)
    ensures Unpack(Pack(bs)) == Some(bs)
  {
    if |bs| >= 3 {
      UnpackPack(bs[3..]);
      OctetsKept(bs[0], bs[1], bs[2]);
      assert Pack(bs)[4..] == Pack(bs[3..]);
      assert bs == [bs[0], bs[1], bs[2]] + bs[3..];
    } else if |bs| == 2 {
      assert bs == [bs[0], bs[1]];
    } else if |bs| == 1 {
      assert bs == [bs[0]];
    }
  }

  lemma {:induction false} PackUnpack(vs: seq<Sextet>)
    requires Unpack(vs).Some?
    ensures Pack(Unpack(vs).value) == vs
  {
    if |vs| >= 4 {
      PackUnpack(vs[4..]);
      SextetsKept(vs[0], vs[1], vs[2], vs[3]);
      var bs := Unpack(vs).value;
      assert bs[3..] == Unpack(vs[4..]).value;
      assert vs == [vs[0], vs[1], vs[2], vs[3]] + vs[4..];
    }
  }

  /** Decoding recovers exactly the bytes that were encoded. */
  lemma DecodeEncode(bs: Bytes)
    ensures DecodeRaw(Encode(bs)) == Some(bs)
  {
    NoNewlines(Encode(bs));
    var vs := Pack(bs);
    forall k | 0 <= k < |vs| ensures Values(Encode(bs))[k] == vs[k] { SymbolRoundTrip(vs[k]); }
    assert Values(Encode(bs)) == vs;
    UnpackPack(bs);
  }

  /** Strictness makes the symbols canonical. */
  lemma EncodeDecode(s: string)
    requires DecodeSymbols(s).Some?
    ensures Encode(DecodeSymbols(s).value) == s
  {
    PackUnpack(Values(s));
    forall k | 0 <= k < |s| ensures Symbol(Values(s)[k]) == s[k] { SymbolOfValue(s[k]); }
  }

  /** Line breaks apart, only `Encode(bs)` decodes to `bs`: exactly the strings that differ from it in carriage returns
      and line feeds alone. */
  lemma DecodesIff(s: string, bs: Bytes)
    ensures DecodeRaw(s) == Some(bs) <==> WithoutNewlines(s) == Encode(bs)
  {
    if DecodeRaw(s) == Some(bs) { EncodeDecode(WithoutNewlines(s)); }
    if WithoutNewlines(s) == Encode(bs) {
      DecodeEncode(bs);
      NoNewlines(Encode(bs));
    }
  }

  lemma NoDollar(bs: Bytes)
    ensures '$' !in Encode(bs)
  {
    assert SymbolValue('$').None?;
  }

  // ----- the encoding is that of RFC 4648 -----

  /** Table 1: the ends of each range, and consecutive characters inside it. */
  lemma SymbolTable(v: nat)
    requires v < 64
    ensures Symbol(0) == 'A' && Symbol(25) == 'Z' && Symbol(26) == 'a' && Symbol(51) == 'z'
    ensures Symbol(52) == '0' && Symbol(61) == '9' && Symbol(62) == '+' && Symbol(63) == '/'
    ensures v !in {25, 51, 61, 62, 63} ==> Symbol(v + 1) as int == Symbol(v) as int + 1
  {}

  /** The number that four symbols spell, and the number that three bytes spell. */
  function Spell64(a: nat, b: nat, c: nat, d: nat): nat { ((a * 64 + b) * 64 + c) * 64 + d }

  function Spell256(a: nat, b: nat, c: nat): nat { (a * 256 + b) * 256 + c }

  lemma GroupKeepsBits(a: Byte, b: Byte, c: Byte)
    ensures Spell64(a / 4, a % 4 * 16 + b / 16, b % 16 * 4 + c / 64, c % 64) == Spell256(a, b, c)
  {}

  /** The bits of the input stay in order: every four symbols spell the number that three bytes spell, with zero bits for
      missing bytes at the end. */
  lemma PackKeepsBits(bs: Bytes)
    ensures |bs| == 0 ==> Pack(bs) == []
    ensures |bs| == 1 ==> |Pack(bs)| == 2 && Spell64(Pack(bs)[0], Pack(bs)[1], 0, 0) == Spell256(bs[0], 0, 0)
    ensures |bs| == 2 ==> |Pack(bs)| == 3 && Spell64(Pack(bs)[0], Pack(bs)[1], Pack(bs)[2], 0) == Spell256(bs[0], bs[1], 0)
    ensures |bs| >= 3 ==>
      && |Pack(bs)| >= 4 && Pack(bs)[4..] == Pack(bs[3..])
      && Spell64(Pack(bs)[0], Pack(bs)[1], Pack(bs)[2], Pack(bs)[3]) == Spell256(bs[0], bs[1], bs[2])
  {
    if |bs| >= 1 {
      GroupKeepsBits(bs[0], if |bs| >= 2 then bs[1] else 0, if |bs| >= 3 then bs[2] else 0);
    }
  }

  // ----- the padded form -----

  function Padding(n: nat): string {
    if n % 4 == 2 then "==" else if n % 4 == 3 then "=" else ""
  }

  function EncodePadded(bs: Bytes): string { Encode(bs) + Padding(|Encode(bs)|) }

  lemma {:induction false} PackLength(bs: Bytes)
    ensures |Pack(bs)| % 4 != 1
  {
    if |bs| >= 3 { PackLength(bs[3..]); }
  }

  lemma {:induction false} NoLineBreaks(s: string)
    requires forall k :: 0 <= k < |s| ==> s[k] != '\r' && s[k] != '\n'
    ensures WithoutNewlines(s) == s
  {
    if s != "" { NoLineBreaks(s[1..]); }
  }

  lemma PaddedHasNoLineBreaks(bs: Bytes)
    ensures WithoutNewlines(EncodePadded(bs)) == EncodePadded(bs)
  {
    var s, t := Encode(bs), EncodePadded(bs);
    forall k | 0 <= k < |t| ensures t[k] != '\r' && t[k] != '\n' {
      if k < |s| { assert SymbolValue(s[k]).Some?; }
    }
    NoLineBreaks(t);
  }

  /** The part before the padding. */
  lemma Unpadded(s: string)
    requires AllSymbols(s) && |s| % 4 != 1
    ensures var t := s + Padding(|s|);
      && |t| % 4 == 0
      && (t != "" && t[|t| - 1] == '=' && t[|t| - 2] == '=' ==> |s| == |t| - 2)
      && (t != "" && t[|t| - 1] == '=' && t[|t| - 2] != '=' ==> |s| == |t| - 1)
      && (t != "" && t[|t| - 1] != '=' ==> |s| == |t|) && (t == "" ==> s == "")
      && t[..|s|] == s
  {
    assert SymbolValue('=').None?;
  }

  /** Decoding the padded form recovers the bytes too. */
  lemma PaddedRoundTrip(bs: Bytes)
    ensures DecodePadded(EncodePadded(bs)) == Some(bs)
  {
    var s, t := Encode(bs), EncodePadded(bs);
    PackLength(bs);
    DecodeEncode(bs);
    NoNewlines(s);
    PaddedHasNoLineBreaks(bs);
    Unpadded(s);
    assert t[..|t|] == t;
  }
}
