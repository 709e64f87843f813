/** Printing and parsing of PBKDF2 and Argon2id hashes (hash/hasher_pbkdf2.go, hash/hasher_argon2.go, hash/hash_comparator.go). */
module HashCodec {
  import opened Base64
  import opened Decimal
  import opened HashScan
  import opened Strings
  import opened Wrappers

  const UINT8_MAX: nat := 0xFF
  const UINT32_MAX: nat := 0xFFFF_FFFF
  const UINT64_MAX: nat := 0xFFFF_FFFF_FFFF_FFFF

  datatype HashError =
    | InvalidHash | BadNumber | OutOfBounds | BadBase64 | IncompatibleVersion | KdfFailed | Mismatch

  /** A Go `uint32(len(x))`. */
  function Uint32(n: nat): nat { n % 0x1_0000_0000 }

  // ----- `$`-separated parts -----

  function Dollars(parts: seq<string>): string { Prefixed('$', parts) }

  /** A `$` inside a part shows as an extra part. */
  lemma {:induction false} CountDollars(parts: seq<string>)
    ensures Count(Dollars(parts), '$') >= |parts|
    ensures Count(Dollars(parts), '$') == |parts| <==> Without('$', parts)
  {
    if parts != [] {
      CountDollars(parts[1..]);
      CountAppend(parts[0], Dollars(parts[1..]), '$');
      CountZero(parts[0], '$');
      assert Dollars(parts)[1..] == parts[0] + Dollars(parts[1..]);
      assert Without('$', parts) <==> '$' !in parts[0] && Without('$', parts[1..]) by {
        assert parts == [parts[0]] + parts[1..];
      }
    }
  }

  // ----- PBKDF2 -----

  const MAX_PBKDF2_ITERATIONS: nat := 10_000_000

  datatype Prf = Sha1 | Sha3x224 | Sha256 | Sha3x384 | Sha512

  function PrfOf(algorithm: string): Prf {
    if algorithm == "sha1" then Sha1
    else if algorithm == "sha224" then Sha3x224
    else if algorithm == "sha384" then Sha3x384
    else if algorithm == "sha512" then Sha512
    else Sha256
  }

  datatype Pbkdf2 = Pbkdf2(algorithm: string, iterations: nat, saltLength: nat, keyLength: nat)

  /** The key derivation is uninterpreted: password, salt, iterations, key length. */
  type Pbkdf2Kdf = (Prf, Bytes, Bytes, nat, nat) -> Option<Bytes>

  ghost predicate KeyLengthKept(kdf: Pbkdf2Kdf) {
    forall prf, password, salt, iterations, n :: kdf(prf, password, salt, iterations, n).Some? ==>
      |kdf(prf, password, salt, iterations, n).value| == n
  }

  function Pbkdf2Numbers(iterations: nat, keyLength: nat): string {
    "i=" + Itoa(iterations) + (",l=" + Itoa(keyLength) + "")
  }

  /** `$pbkdf2-%s$i=%d,l=%d$%s$%s` */
  function PrintPbkdf2(algorithm: string, iterations: nat, keyLength: nat, salt: Bytes, key: Bytes): string {
    Dollars(["pbkdf2-" + algorithm, Pbkdf2Numbers(iterations, keyLength), Encode(salt), Encode(key)])
  }

  ghost function Drawn(n: nat, random: nat -> Byte): Bytes {
    seq(n, i requires 0 <= i < n => random(i))
  }

  /** `rand.Read` into a fresh slice. */
  method FillSalt(n: nat, random: nat -> Byte) returns (salt: array<Byte>)
    ensures salt.Length == n && fresh(salt) && salt[..] == Drawn(n, random)
  {
    salt := new Byte[n](_ => 0);
    for i := 0 to n
      invariant forall k :: 0 <= k < i ==> salt[k] == random(k)
    {
      salt[i] := random(i);
    }
  }

  lemma Left(a: string, b: string, c: string)
    ensures a + (b + c) == a + b + c
  {}

  /** The end of both formats: the salt and the key. */
  lemma TailText(before: string, salt: string, key: string)
    ensures before + Dollars([salt, key]) == before + "$" + salt + "$" + key
  {
    assert [salt, key][1..] == [key] && [key][1..] == [];
    assert Prefixed('$', []) == "" && key + "" == key;
    assert Prefixed('$', [key]) == "$" + (key + Prefixed('$', [key][1..]));
    assert Dollars([salt, key]) == "$" + (salt + ("$" + key));
    Left(before, "$", salt + ("$" + key));
    Left(before + "$", salt, "$" + key);
    Left(before + "$" + salt, "$", key);
  }

  /** The part before them. */
  lemma PartText(before: string, part: string, rest: seq<string>)
    ensures before + Dollars([part] + rest) == before + ("$" + part) + Dollars(rest)
  {
    assert ([part] + rest)[1..] == rest;
    Left("$", part, Dollars(rest));
    Left(before, "$" + part, Dollars(rest));
  }

  lemma PrependFour(s: string, a: string, b: string, c: string, d: string)
    ensures s + (a + b + c + d) == s + a + b + c + d
  {
    Left(s, a + b + c, d);
    Left(s, a + b, c);
    Left(s, a, b);
  }

  /** The printed text. */
  lemma Pbkdf2Text(algorithm: string, iterations: nat, keyLength: nat, salt: Bytes, key: Bytes)
    ensures PrintPbkdf2(algorithm, iterations, keyLength, salt, key)
         == "$pbkdf2-" + algorithm + "$i=" + Itoa(iterations) + ",l=" + Itoa(keyLength) + "$" + Encode(salt) + "$" + Encode(key)
  {
    var name, numbers, s, k := "pbkdf2-" + algorithm, Pbkdf2Numbers(iterations, keyLength), Encode(salt), Encode(key);
    assert [name, numbers, s, k] == [name] + [numbers, s, k] && [numbers, s, k] == [numbers] + [s, k];
    var all := Dollars([name, numbers, s, k]);
    assert "" + all == all && "" + ("$" + name) == "$pbkdf2-" + algorithm;
    PartText("", name, [numbers, s, k]);
    PartText("$pbkdf2-" + algorithm, numbers, [s, k]);
    NumbersText(iterations, keyLength);
    PrependFour("$pbkdf2-" + algorithm, "$i=", Itoa(iterations), ",l=", Itoa(keyLength));
    TailText("$pbkdf2-" + algorithm + "$i=" + Itoa(iterations) + ",l=" + Itoa(keyLength), s, k);
  }

  lemma NumbersText(iterations: nat, keyLength: nat)
    ensures "$" + Pbkdf2Numbers(iterations, keyLength) == "$i=" + Itoa(iterations) + ",l=" + Itoa(keyLength)
  {}

  /** Each name selects its own hash function; every other name selects SHA-256. */
  lemma PrfByName(algorithm: string)
    ensures PrfOf(algorithm) == Sha1 <==> algorithm == "sha1"
    ensures PrfOf(algorithm) == Sha3x224 <==> algorithm == "sha224"
    ensures PrfOf(algorithm) == Sha3x384 <==> algorithm == "sha384"
    ensures PrfOf(algorithm) == Sha512 <==> algorithm == "sha512"
    ensures PrfOf(algorithm) == Sha256 <==> algorithm !in {"sha1", "sha224", "sha384", "sha512"}
  {}

  /** Fills a random salt, derives the key and writes the hash. */
  method GeneratePbkdf2(h: Pbkdf2, random: nat -> Byte, password: Bytes, kdf: Pbkdf2Kdf) returns (r: Result<string, HashError>)
    ensures var salt := Drawn(h.saltLength, random);
      match kdf(PrfOf(h.algorithm), password, salt, h.iterations, h.keyLength)
      case None => r == Err(KdfFailed)
      case Some(key) =>
        && r == Ok(PrintPbkdf2(h.algorithm, h.iterations, h.keyLength, salt, key))
        && r == Ok("$pbkdf2-" + h.algorithm + "$i=" + Itoa(h.iterations) + ",l=" + Itoa(h.keyLength)
                   + "$" + Encode(salt) + "$" + Encode(key))
  {
    var salt := FillSalt(h.saltLength, random);
    var key := kdf(PrfOf(h.algorithm), password, salt[..], h.iterations, h.keyLength);
    if key.None? { return Err(KdfFailed); }
    Pbkdf2Text(h.algorithm, h.iterations, h.keyLength, salt[..], key.value);
    return Ok(PrintPbkdf2(h.algorithm, h.iterations, h.keyLength, salt[..], key.value));
  }

  function ValidatePbkdf2(iterations: nat): (ok: bool) {
    0 < iterations <= MAX_PBKDF2_ITERATIONS
  }

  datatype Decoded<P> = Decoded(params: P, salt: Bytes, hash: Bytes)

  /** `strings.SplitN(s, "-", 2)[1]`, when there is a dash. */
  function AfterDash(s: string): Option<string> {
    if s == "" then None
    else if s[0] == '-' then Some(s[1..])
    else AfterDash(s[1..])
  }

  function DecodePbkdf2(encoded: string): (r: Result<Decoded<Pbkdf2>, HashError>)
    ensures r.Ok? ==> ValidatePbkdf2(r.value.params.iterations)
    ensures r.Ok? ==> r.value.params.saltLength == Uint32(|r.value.salt|)
    ensures r.Ok? ==> r.value.params.keyLength == Uint32(|r.value.hash|)
  {
    var parts := Split(encoded, '$');
    if |parts| != 5 then Err(InvalidHash) else Pbkdf2FromParts(parts[1], parts[2], parts[3], parts[4])
  }

  /** `i=%d,l=%d`: the iterations; the key length is read but replaced by the length of the key. */
  function Pbkdf2Iterations(s: string): Option<nat> {
    match HashScan.Field(s, "i=", UINT32_MAX)
    case None => None
    case Some(i) => if HashScan.Field(i.rest, ",l=", UINT32_MAX).None? then None else Some(i.n)
  }

  function Pbkdf2FromParts(name: string, numbers: string, saltText: string, hashText: string):
    (r: Result<Decoded<Pbkdf2>, HashError>)
    ensures r.Ok? ==> ValidatePbkdf2(r.value.params.iterations)
    ensures r.Ok? ==> r.value.params.saltLength == Uint32(|r.value.salt|)
    ensures r.Ok? ==> r.value.params.keyLength == Uint32(|r.value.hash|)
  {
    var algorithm, iterations := AfterDash(name), Pbkdf2Iterations(numbers);
    if algorithm.None? then Err(InvalidHash)
    else if iterations.None? then Err(BadNumber)
    else if !ValidatePbkdf2(iterations.value) then Err(OutOfBounds)
    else
      var salt, hash := DecodeRaw(saltText), DecodeRaw(hashText);
      if salt.None? || hash.None? then Err(BadBase64)
      else
        Ok(Decoded(
          Pbkdf2(algorithm.value, iterations.value, Uint32(|salt.value|), Uint32(|hash.value|)), salt.value, hash.value))
  }

  /** `None` is acceptance. */
  function ComparePbkdf2(password: Bytes, encoded: string, kdf: Pbkdf2Kdf): Option<HashError> {
    match DecodePbkdf2(encoded)
    case Err(e) => Some(e)
    case Ok(d) =>
      match kdf(PrfOf(d.params.algorithm), password, d.salt, d.params.iterations, d.params.keyLength)
      case None => Some(KdfFailed)
      case Some(other) => if d.hash == other then None else Some(Mismatch)
  }

  lemma {:induction false} AfterFirstDash(head: string, rest: string)
    requires '-' !in head
    ensures AfterDash(head + "-" + rest) == Some(rest)
  {
    var s := head + "-" + rest;
    if head == "" {
      assert s[1..] == rest;
    } else {
      assert s[1..] == head[1..] + "-" + rest;
      AfterFirstDash(head[1..], rest);
    }
  }

  lemma SplitPrintedPbkdf2(algorithm: string, iterations: nat, keyLength: nat, salt: Bytes, key: Bytes)
    ensures var pieces := Split(PrintPbkdf2(algorithm, iterations, keyLength, salt, key), '$');
      if '$' in algorithm then |pieces| > 5
      else pieces == ["", "pbkdf2-" + algorithm, Pbkdf2Numbers(iterations, keyLength), Encode(salt), Encode(key)]
  {
    var parts := ["pbkdf2-" + algorithm, Pbkdf2Numbers(iterations, keyLength), Encode(salt), Encode(key)];
    if '$' in algorithm {
      assert '$' in parts[0];
      CountDollars(parts);
      SplitLength(Dollars(parts), '$');
    } else {
      assert Without('$', parts) by {
        NumbersHaveNoDollar(iterations, keyLength);
        NoDollar(salt);
        NoDollar(key);
      }
      assert "" + Dollars(parts) == Dollars(parts);
      SplitPrefixed('$', "", parts);
    }
  }

  /** Parsing a printed hash recovers the algorithm, iterations, salt and key, when the algorithm name has
      no `$` and the iterations are within bounds; otherwise parsing fails. */
  lemma Pbkdf2RoundTrip(algorithm: string, iterations: nat, keyLength: nat, salt: Bytes, key: Bytes)
    requires iterations <= UINT32_MAX && keyLength <= UINT32_MAX
    ensures DecodePbkdf2(PrintPbkdf2(algorithm, iterations, keyLength, salt, key))
         == if '$' in algorithm then Err(InvalidHash)
            else if !ValidatePbkdf2(iterations) then Err(OutOfBounds)
            else Ok(Decoded(Pbkdf2(algorithm, iterations, Uint32(|salt|), Uint32(|key|)), salt, key))
  {
    SplitPrintedPbkdf2(algorithm, iterations, keyLength, salt, key);
    if '$' !in algorithm { Pbkdf2PartsRoundTrip(algorithm, iterations, keyLength, salt, key); }
  }

  lemma Pbkdf2PartsRoundTrip(algorithm: string, iterations: nat, keyLength: nat, salt: Bytes, key: Bytes)
    requires iterations <= UINT32_MAX && keyLength <= UINT32_MAX
    ensures Pbkdf2FromParts("pbkdf2-" + algorithm, Pbkdf2Numbers(iterations, keyLength), Encode(salt), Encode(key))
         == if !ValidatePbkdf2(iterations) then Err(OutOfBounds)
            else Ok(Decoded(Pbkdf2(algorithm, iterations, Uint32(|salt|), Uint32(|key|)), salt, key))
  {
    NumbersScan(iterations, keyLength);
    assert "pbkdf2-" + algorithm == "pbkdf2" + "-" + algorithm;
    AfterFirstDash("pbkdf2", algorithm);
    DecodeEncode(salt);
    DecodeEncode(key);
  }

  lemma NumbersScan(iterations: nat, keyLength: nat)
    requires iterations <= UINT32_MAX && keyLength <= UINT32_MAX
    ensures Pbkdf2Iterations(Pbkdf2Numbers(iterations, keyLength)) == Some(iterations)
  {
    var lPart := ",l=" + Itoa(keyLength) + "";
    assert lPart[0] == ',';
    FieldPrinted("i=", iterations, lPart, UINT32_MAX);
    FieldPrinted(",l=", keyLength, "", UINT32_MAX);
  }

  lemma NumbersHaveNoDollar(iterations: nat, keyLength: nat)
    ensures '$' !in Pbkdf2Numbers(iterations, keyLength)
  {
    DigitsHaveNoDollar(iterations);
    DigitsHaveNoDollar(keyLength);
  }

  /** A generated PBKDF2 hash accepts a password iff the name has no `$`, the iterations are within bounds,
      and the password derives the same key. */
  lemma GeneratedPbkdf2Compares(h: Pbkdf2, salt: Bytes, password: Bytes, attempt: Bytes, kdf: Pbkdf2Kdf, key: Bytes)
    requires KeyLengthKept(kdf) && h.iterations <= UINT32_MAX && h.keyLength <= UINT32_MAX
    requires kdf(PrfOf(h.algorithm), password, salt, h.iterations, h.keyLength) == Some(key)
    ensures ComparePbkdf2(attempt, PrintPbkdf2(h.algorithm, h.iterations, h.keyLength, salt, key), kdf).None?
       <==> && '$' !in h.algorithm && 1 <= h.iterations <= 10_000_000
            && kdf(PrfOf(h.algorithm), attempt, salt, h.iterations, h.keyLength) == Some(key)
  {
    Pbkdf2RoundTrip(h.algorithm, h.iterations, h.keyLength, salt, key);
    assert Uint32(|key|) == h.keyLength;
  }

  // ----- Argon2id -----

  const ARGON2_VERSION: nat := 19
  const MAX_ARGON2_MEMORY_KIB: nat := 1_048_576
  const MAX_ARGON2_ITERATIONS: nat := 10
  const MAX_ARGON2_PARALLELISM: nat := 16

  /** Configured memory is in bytes; a stored hash holds kibibytes in the same field. */
  datatype Argon2 = Argon2(memory: nat, iterations: nat, parallelism: nat, saltLength: nat, keyLength: nat)

  /** password, salt, iterations, memory in KiB, parallelism, key length */
  type Argon2Kdf = (Bytes, Bytes, nat, nat, nat, nat) -> Bytes

  ghost predicate Argon2KeyLengthKept(kdf: Argon2Kdf) {
    forall password, salt, t, m, p, n :: |kdf(password, salt, t, m, p, n)| == n
  }

  /** `uint32(mem / bytesize.KB)` */
  function ToKB(memory: nat): nat { Uint32(memory / 1024) }

  /** A configured memory of `k` KiB prints as `k`, and what is left of a whole KiB is dropped. */
  lemma ToKBOfKiB(k: nat, left: nat)
    requires k <= UINT32_MAX && left < 1024
    ensures ToKB(1024 * k + left) == k
  {
    assert (1024 * k + left) / 1024 == k;
  }

  function Argon2Numbers(m: nat, t: nat, p: nat): string {
    "m=" + Itoa(m) + (",t=" + Itoa(t) + (",p=" + Itoa(p) + ""))
  }

  /** `$argon2id$v=%d$m=%d,t=%d,p=%d$%s$%s` */
  function PrintArgon2id(m: nat, t: nat, p: nat, salt: Bytes, key: Bytes): string {
    Dollars(["argon2id", "v=" + Itoa(ARGON2_VERSION), Argon2Numbers(m, t, p), Encode(salt), Encode(key)])
  }

  lemma VersionText()
    ensures "$v=" + Itoa(ARGON2_VERSION) == "$v=19"
  {
    assert Itoa(1) == "1" && Itoa(19) == Itoa(1) + ['9'];
  }

  lemma CostsText(m: nat, t: nat, p: nat)
    ensures "$" + Argon2Numbers(m, t, p) == "$m=" + Itoa(m) + ",t=" + Itoa(t) + (",p=" + Itoa(p))
  {
    assert ",p=" + Itoa(p) + "" == ",p=" + Itoa(p);
    Left("$m=" + Itoa(m), ",t=" + Itoa(t), ",p=" + Itoa(p));
    Left("$m=" + Itoa(m), ",t=", Itoa(t));
    assert "$" + ("m=" + Itoa(m)) == "$m=" + Itoa(m);
    Left("$", "m=" + Itoa(m), ",t=" + Itoa(t) + (",p=" + Itoa(p)));
  }

  lemma Argon2idText(m: nat, t: nat, p: nat, salt: Bytes, key: Bytes)
    ensures PrintArgon2id(m, t, p, salt, key)
         == "$argon2id$v=19" + "$m=" + Itoa(m) + ",t=" + Itoa(t) + (",p=" + Itoa(p)) + "$" + Encode(salt) + "$" + Encode(key)
  {
    var version, numbers, s, k := "v=" + Itoa(ARGON2_VERSION), Argon2Numbers(m, t, p), Encode(salt), Encode(key);
    assert ["argon2id", version, numbers, s, k] == ["argon2id"] + [version, numbers, s, k];
    assert [version, numbers, s, k] == [version] + [numbers, s, k] && [numbers, s, k] == [numbers] + [s, k];
    var all := Dollars(["argon2id", version, numbers, s, k]);
    assert "" + all == all && "" + ("$" + "argon2id") == "$argon2id";
    VersionText();
    assert "$" + version == "$v=19" && "$argon2id" + "$v=19" == "$argon2id$v=19";
    PartText("", "argon2id", [version, numbers, s, k]);
    PartText("$argon2id", version, [numbers, s, k]);
    PartText("$argon2id$v=19", numbers, [s, k]);
    CostsText(m, t, p);
    var pPart := ",p=" + Itoa(p);
    PrependFour("$argon2id$v=19", "$m=", Itoa(m), ",t=" , Itoa(t));
    Left("$argon2id$v=19", "$m=" + Itoa(m) + ",t=" + Itoa(t), pPart);
    TailText("$argon2id$v=19" + "$m=" + Itoa(m) + ",t=" + Itoa(t) + pPart, s, k);
  }

  method GenerateArgon2id(c: Argon2, random: nat -> Byte, password: Bytes, kdf: Argon2Kdf) returns (r: string)
    ensures var salt := Drawn(c.saltLength, random);
      var key := kdf(password, salt, c.iterations, ToKB(c.memory), c.parallelism, c.keyLength);
      && r == PrintArgon2id(ToKB(c.memory), c.iterations, c.parallelism, salt, key)
      && r == "$argon2id$v=19" + "$m=" + Itoa(ToKB(c.memory)) + ",t=" + Itoa(c.iterations) + (",p=" + Itoa(c.parallelism))
              + "$" + Encode(salt) + "$" + Encode(key)
  {
    var salt := FillSalt(c.saltLength, random);
    var hash := kdf(password, salt[..], c.iterations, ToKB(c.memory), c.parallelism, c.keyLength);
    Argon2idText(ToKB(c.memory), c.iterations, c.parallelism, salt[..], hash);
    r := PrintArgon2id(ToKB(c.memory), c.iterations, c.parallelism, salt[..], hash);
  }

  function ValidateArgon2(memoryKiB: nat, iterations: nat, parallelism: nat): (ok: bool) {
    && 0 < memoryKiB <= MAX_ARGON2_MEMORY_KIB
    && 0 < iterations <= MAX_ARGON2_ITERATIONS
    && 0 < parallelism <= MAX_ARGON2_PARALLELISM
  }

  /** `v=%d` into an int: a plus sign is accepted, a minus sign cannot give the right version. */
  function VersionOf(s: string): Option<nat> {
    match Literal(s, "v=")
    case None => None
    case Some(rest) =>
      var t := DropBlanks(rest);
      var k := DigitRun(if "+" <= t then t[1..] else t);
      var digits := if "+" <= t then t[1..] else t;
      if k == 0 then None else Some(ValueOf(digits[..k]))
  }

  function DecodeArgon2id(encoded: string): (r: Result<Decoded<Argon2>, HashError>)
    ensures r.Ok? ==> var p := r.value.params; ValidateArgon2(p.memory, p.iterations, p.parallelism)
    ensures r.Ok? ==> r.value.params.saltLength == Uint32(|r.value.salt|)
    ensures r.Ok? ==> r.value.params.keyLength == Uint32(|r.value.hash|)
  {
    var parts := Split(encoded, '$');
    if |parts| != 6 then Err(InvalidHash)
    else if VersionOf(parts[2]).None? then Err(BadNumber)
    else if VersionOf(parts[2]).value != ARGON2_VERSION then Err(IncompatibleVersion)
    else Argon2FromParts(parts[3], parts[4], parts[5])
  }

  /** `m=%d,t=%d,p=%d` */
  function Argon2Costs(s: string): Option<(nat, nat, nat)> {
    match HashScan.Field(s, "m=", UINT64_MAX)
    case None => None
    case Some(m) =>
      match HashScan.Field(m.rest, ",t=", UINT32_MAX)
      case None => None
      case Some(t) =>
        match HashScan.Field(t.rest, ",p=", UINT8_MAX)
        case None => None
        case Some(p) => Some((m.n, t.n, p.n))
  }

  function Argon2FromParts(numbers: string, saltText: string, hashText: string): (r: Result<Decoded<Argon2>, HashError>)
    ensures r.Ok? ==> var p := r.value.params; ValidateArgon2(p.memory, p.iterations, p.parallelism)
    ensures r.Ok? ==> r.value.params.saltLength == Uint32(|r.value.salt|)
    ensures r.Ok? ==> r.value.params.keyLength == Uint32(|r.value.hash|)
  {
    match Argon2Costs(numbers)
    case None => Err(BadNumber)
    case Some((m, t, p)) =>
      if !ValidateArgon2(m, t, p) then Err(OutOfBounds)
      else
        var salt, hash := DecodeRaw(saltText), DecodeRaw(hashText);
        if salt.None? || hash.None? then Err(BadBase64)
        else Ok(Decoded(Argon2(m, t, p, Uint32(|salt.value|), Uint32(|hash.value|)), salt.value, hash.value))
  }

  function CompareArgon2id(password: Bytes, encoded: string, kdf: Argon2Kdf): Option<HashError> {
    match DecodeArgon2id(encoded)
    case Err(e) => Some(e)
    case Ok(d) =>
      var other := kdf(password, d.salt, d.params.iterations, Uint32(d.params.memory), d.params.parallelism, d.params.keyLength);
      if d.hash == other then None else Some(Mismatch)
  }

  lemma PrintedVersion()
    ensures VersionOf("v=" + Itoa(ARGON2_VERSION)) == Some(ARGON2_VERSION)
  {
    var digits := Itoa(ARGON2_VERSION);
    assert ("v=" + digits)[2..] == digits;
    assert IsDigit(digits[0]);
    assert digits + "" == digits;
    DigitRunUnique(digits, "");
    ItoaRoundTrip(ARGON2_VERSION);
  }

  lemma SplitPrintedArgon2id(m: nat, t: nat, p: nat, salt: Bytes, key: Bytes)
    ensures Split(PrintArgon2id(m, t, p, salt, key), '$')
         == ["", "argon2id", "v=" + Itoa(ARGON2_VERSION), Argon2Numbers(m, t, p), Encode(salt), Encode(key)]
  {
    var parts := ["argon2id", "v=" + Itoa(ARGON2_VERSION), Argon2Numbers(m, t, p), Encode(salt), Encode(key)];
    assert Without('$', parts) by {
      DigitsHaveNoDollar(ARGON2_VERSION);
      CostsHaveNoDollar(m, t, p);
      NoDollar(salt);
      NoDollar(key);
    }
    assert "" + Dollars(parts) == Dollars(parts);
    SplitPrefixed('$', "", parts);
  }

  lemma Argon2idRoundTrip(m: nat, t: nat, p: nat, salt: Bytes, key: Bytes)
    requires m <= UINT64_MAX && t <= UINT32_MAX && p <= UINT8_MAX
    ensures DecodeArgon2id(PrintArgon2id(m, t, p, salt, key))
         == if !ValidateArgon2(m, t, p) then Err(OutOfBounds)
            else Ok(Decoded(Argon2(m, t, p, Uint32(|salt|), Uint32(|key|)), salt, key))
  {
    SplitPrintedArgon2id(m, t, p, salt, key);
    CostsScan(m, t, p);
    PrintedVersion();
    DecodeEncode(salt);
    DecodeEncode(key);
  }

  lemma CostsScan(m: nat, t: nat, p: nat)
    requires m <= UINT64_MAX && t <= UINT32_MAX && p <= UINT8_MAX
    ensures Argon2Costs(Argon2Numbers(m, t, p)) == Some((m, t, p))
  {
    var pPart := ",p=" + Itoa(p) + "";
    var tPart := ",t=" + Itoa(t) + pPart;
    assert pPart[0] == ',' && tPart[0] == ',';
    FieldPrinted("m=", m, tPart, UINT64_MAX);
    FieldPrinted(",t=", t, pPart, UINT32_MAX);
    FieldPrinted(",p=", p, "", UINT8_MAX);
  }

  lemma CostsHaveNoDollar(m: nat, t: nat, p: nat)
    ensures '$' !in Argon2Numbers(m, t, p)
  {
    DigitsHaveNoDollar(m);
    DigitsHaveNoDollar(t);
    DigitsHaveNoDollar(p);
  }

  lemma PrintedArgon2idCompares(m: nat, t: nat, p: nat, salt: Bytes, key: Bytes, attempt: Bytes, kdf: Argon2Kdf)
    requires m <= UINT32_MAX && t <= UINT32_MAX && p <= UINT8_MAX
    ensures CompareArgon2id(attempt, PrintArgon2id(m, t, p, salt, key), kdf).None?
       <==> ValidateArgon2(m, t, p) && kdf(attempt, salt, t, m, p, Uint32(|key|)) == key
  {
    Argon2idRoundTrip(m, t, p, salt, key);
    assert Uint32(m) == m;
  }

  /** A generated Argon2id hash accepts a password iff the configured cost is within bounds
      (after the truncation to 32-bit kibibytes) and the password derives the same key. */
  lemma GeneratedArgon2idCompares(c: Argon2, salt: Bytes, password: Bytes, attempt: Bytes, kdf: Argon2Kdf)
    requires Argon2KeyLengthKept(kdf)
    requires c.iterations <= UINT32_MAX && c.parallelism <= UINT8_MAX && c.keyLength <= UINT32_MAX
    ensures var m := ToKB(c.memory);
      var key := kdf(password, salt, c.iterations, m, c.parallelism, c.keyLength);
      CompareArgon2id(attempt, PrintArgon2id(m, c.iterations, c.parallelism, salt, key), kdf).None?
      <==> 1 <= m <= 1_048_576 && 1 <= c.iterations <= 10 && 1 <= c.parallelism <= 16
           && kdf(attempt, salt, c.iterations, m, c.parallelism, c.keyLength) == key
  {
    var m := ToKB(c.memory);
    var key := kdf(password, salt, c.iterations, m, c.parallelism, c.keyLength);
    PrintedArgon2idCompares(m, c.iterations, c.parallelism, salt, key, attempt, kdf);
    assert |key| == c.keyLength && Uint32(c.keyLength) == c.keyLength;
  }
}
