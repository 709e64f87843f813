/** Choosing a hash family at login and at import, and the cost bounds both enforce (hash/hash_comparator.go, hash/hash_limits.go). */
module HashDispatch {
  import opened Base64
  import opened Decimal
  import opened HashCodec
  import opened HashScan
  import opened Strings
  import opened Wrappers

  datatype Family =
    | MD5Crypt | Bcrypt | SHA256Crypt | SHA512Crypt | Argon2idHash | Argon2iHash | Pbkdf2Hash | ScryptHash
    | SSHA | SHA | FirebaseScrypt | MD5 | HMAC

  // ----- the patterns -----

  /** `^\$name\$` */
  predicate Tagged(h: string, name: string) {
    "$" + name + "$" <= h
  }

  predicate TaggedBy(h: string, names: seq<string>) {
    exists k :: 0 <= k < |names| && Tagged(h, names[k])
  }

  /** `^\$pbkdf2-sha[0-9]{1,3}\$` */
  predicate IsPbkdf2(h: string) {
    "$pbkdf2-sha" <= h && (
      var rest := h[11..];
      var k := DigitRun(rest);
      1 <= k <= 3 && k < |rest| && rest[k] == '$')
  }

  const BCRYPT_NAMES := ["2", "2a", "2b", "2z", "2y"]
  const SHA_NAMES := ["sha1", "sha256", "sha512"]
  const HMAC_NAMES := ["hmac-md4", "hmac-md5", "hmac-sha1", "hmac-sha224", "hmac-sha256", "hmac-sha384", "hmac-sha512"]

  predicate Is(f: Family, h: string) {
    match f
    case MD5Crypt => Tagged(h, "md5-crypt")
    case Bcrypt => TaggedBy(h, BCRYPT_NAMES)
    case SHA256Crypt => Tagged(h, "sha256-crypt")
    case SHA512Crypt => Tagged(h, "sha512-crypt")
    case Argon2idHash => Tagged(h, "argon2id")
    case Argon2iHash => Tagged(h, "argon2i")
    case Pbkdf2Hash => IsPbkdf2(h)
    case ScryptHash => Tagged(h, "scrypt")
    case SSHA => "{SSHA}" <= h || "{SSHA256}" <= h || "{SSHA512}" <= h
    case SHA => TaggedBy(h, SHA_NAMES)
    case FirebaseScrypt => Tagged(h, "firescrypt")
    case MD5 => Tagged(h, "md5")
    case HMAC => TaggedBy(h, HMAC_NAMES)
  }

  /** The text between the first two dollar signs. */
  ghost function NameOf(h: string): string {
    var parts := Split(h, '$');
    if |parts| > 1 then parts[1] else ""
  }

  lemma TaggedName(h: string, name: string)
    requires Tagged(h, name) && '$' !in name
    ensures h[0] == '$' && NameOf(h) == name
  {
    var rest := h[|name| + 2..];
    assert h == "" + ['$'] + (name + ['$'] + rest);
    SplitFirst("", '$', name + ['$'] + rest);
    SplitFirst(name, '$', rest);
  }

  lemma Pbkdf2Name(h: string)
    requires IsPbkdf2(h)
    ensures h[0] == '$' && |NameOf(h)| > 10 && NameOf(h)[..10] == "pbkdf2-sha"
  {
    var k := DigitRun(h[11..]);
    var digits := h[11..][..k];
    var name := "pbkdf2-sha" + digits;
    assert forall i :: 0 <= i < |digits| ==> IsDigit(digits[i]);
    assert h[..11] == "$pbkdf2-sha";
    assert h == h[..11] + digits + h[11..][k..];
    assert "$" + name + "$" <= h;
    TaggedName(h, name);
  }

  /** The one family a name can belong to: three are told apart by the first letter, the others by the whole name. */
  ghost function FamilyOf(name: string): Option<Family> {
    if name == "" then None
    else if name[0] == 'p' then Some(Pbkdf2Hash)
    else if name[0] == '2' then Some(Bcrypt)
    else if name[0] == 'h' then Some(HMAC)
    else if name == "md5-crypt" then Some(MD5Crypt)
    else if name == "sha256-crypt" then Some(SHA256Crypt)
    else if name == "sha512-crypt" then Some(SHA512Crypt)
    else if name == "argon2id" then Some(Argon2idHash)
    else if name == "argon2i" then Some(Argon2iHash)
    else if name == "scrypt" then Some(ScryptHash)
    else if name == "firescrypt" then Some(FirebaseScrypt)
    else if name == "md5" then Some(MD5)
    else Some(SHA)
  }

  lemma SingleNames()
    ensures FamilyOf("md5-crypt") == Some(MD5Crypt) && FamilyOf("sha256-crypt") == Some(SHA256Crypt)
    ensures FamilyOf("sha512-crypt") == Some(SHA512Crypt) && FamilyOf("argon2id") == Some(Argon2idHash)
    ensures FamilyOf("argon2i") == Some(Argon2iHash) && FamilyOf("scrypt") == Some(ScryptHash)
    ensures FamilyOf("firescrypt") == Some(FirebaseScrypt) && FamilyOf("md5") == Some(MD5)
  {
    assert "sha512-crypt"[3] != "sha256-crypt"[3];
  }

  lemma ListedName(names: seq<string>, f: Family, k: nat)
    requires (names == BCRYPT_NAMES && f == Bcrypt) || (names == SHA_NAMES && f == SHA) || (names == HMAC_NAMES && f == HMAC)
    requires k < |names|
    ensures FamilyOf(names[k]) == Some(f) && '$' !in names[k]
  {}

  lemma NamedFamily(f: Family, h: string)
    requires Is(f, h) && f != SSHA
    ensures h[0] == '$' && FamilyOf(NameOf(h)) == Some(f)
  {
    match f
    case Bcrypt => TaggedFamily(BCRYPT_NAMES, f, h);
    case SHA => TaggedFamily(SHA_NAMES, f, h);
    case HMAC => TaggedFamily(HMAC_NAMES, f, h);
    case Pbkdf2Hash => Pbkdf2Name(h); assert NameOf(h)[0] == NameOf(h)[..10][0];
    case MD5Crypt => SingleNames(); TaggedName(h, "md5-crypt");
    case SHA256Crypt => SingleNames(); TaggedName(h, "sha256-crypt");
    case SHA512Crypt => SingleNames(); TaggedName(h, "sha512-crypt");
    case Argon2idHash => SingleNames(); TaggedName(h, "argon2id");
    case Argon2iHash => SingleNames(); TaggedName(h, "argon2i");
    case ScryptHash => SingleNames(); TaggedName(h, "scrypt");
    case FirebaseScrypt => SingleNames(); TaggedName(h, "firescrypt");
    case MD5 => SingleNames(); TaggedName(h, "md5");
  }

  lemma TaggedFamily(names: seq<string>, f: Family, h: string)
    requires (names == BCRYPT_NAMES && f == Bcrypt) || (names == SHA_NAMES && f == SHA) || (names == HMAC_NAMES && f == HMAC)
    requires TaggedBy(h, names)
    ensures h[0] == '$' && FamilyOf(NameOf(h)) == Some(f)
  {
    var k :| 0 <= k < |names| && Tagged(h, names[k]);
    ListedName(names, f, k);
    TaggedName(h, names[k]);
  }

  /** No hash matches two built-in patterns. */
  lemma PatternsDisjoint(f: Family, g: Family, h: string)
    requires Is(f, h) && Is(g, h)
    ensures f == g
  {
    if f != SSHA { NamedFamily(f, h); }
    if g != SSHA { NamedFamily(g, h); }
  }

  /** A hash that starts with `$name$` is tagged with that name and no other. */
  lemma TaggedIff(name: string, rest: string, other: string)
    requires '$' !in name && '$' !in other
    ensures Tagged("$" + name + "$" + rest, other) <==> other == name
  {
    var h := "$" + name + "$" + rest;
    TaggedName(h, name);
    if Tagged(h, other) { TaggedName(h, other); }
  }

  lemma TaggedByIff(name: string, rest: string, names: seq<string>)
    requires '$' !in name && forall k :: 0 <= k < |names| ==> '$' !in names[k]
    ensures TaggedBy("$" + name + "$" + rest, names) <==> name in names
  {
    forall k | 0 <= k < |names| ensures Tagged("$" + name + "$" + rest, names[k]) <==> names[k] == name {
      TaggedIff(name, rest, names[k]);
    }
  }

  /** Which names each family is recognised by. */
  lemma RecognisedNames(name: string, rest: string)
    requires '$' !in name
    ensures var h := "$" + name + "$" + rest;
      && (Is(Bcrypt, h) <==> name in {"2", "2a", "2b", "2y", "2z"})
      && (Is(SHA, h) <==> name in {"sha1", "sha256", "sha512"})
      && (Is(MD5, h) <==> name == "md5") && (Is(MD5Crypt, h) <==> name == "md5-crypt")
      && (Is(SHA256Crypt, h) <==> name == "sha256-crypt") && (Is(SHA512Crypt, h) <==> name == "sha512-crypt")
      && (Is(Argon2idHash, h) <==> name == "argon2id") && (Is(Argon2iHash, h) <==> name == "argon2i")
      && (Is(ScryptHash, h) <==> name == "scrypt") && (Is(FirebaseScrypt, h) <==> name == "firescrypt")
  {
    TaggedByIff(name, rest, BCRYPT_NAMES);
    TaggedByIff(name, rest, SHA_NAMES);
    TaggedIff(name, rest, "md5");
    TaggedIff(name, rest, "md5-crypt");
    TaggedIff(name, rest, "sha256-crypt");
    TaggedIff(name, rest, "sha512-crypt");
    TaggedIff(name, rest, "argon2id");
    TaggedIff(name, rest, "argon2i");
    TaggedIff(name, rest, "scrypt");
    TaggedIff(name, rest, "firescrypt");
  }

  lemma RecognisedHmacNames(name: string, rest: string)
    requires '$' !in name
    ensures Is(HMAC, "$" + name + "$" + rest) <==>
      name in {"hmac-md4", "hmac-md5", "hmac-sha1", "hmac-sha224", "hmac-sha256", "hmac-sha384", "hmac-sha512"}
  {
    TaggedByIff(name, rest, HMAC_NAMES);
  }

  // ----- choosing a comparator at login -----

  /** An entry of the table: a built-in hasher, or one added by `AddSupportedHasher`. */
  datatype Entry = BuiltIn(family: Family) | Custom(name: string, matches: string -> bool)

  predicate Matches(e: Entry, h: string) {
    match e
    case BuiltIn(f) => Is(f, h)
    case Custom(_, m) => m(h)
  }

  const SUPPORTED_FAMILIES: seq<Family> := [
    MD5Crypt, Bcrypt, SHA256Crypt, SHA512Crypt, Argon2idHash, Argon2iHash, Pbkdf2Hash, ScryptHash, SSHA, SHA,
    FirebaseScrypt, MD5, HMAC]

  function SupportedHashers(): seq<Entry> {
    seq(|SUPPORTED_FAMILIES|, k requires 0 <= k < |SUPPORTED_FAMILIES| => BuiltIn(SUPPORTED_FAMILIES[k]))
  }

  ghost predicate FirstMatch(table: seq<Entry>, h: string, k: nat) {
    k < |table| && Matches(table[k], h) && forall i :: 0 <= i < k ==> !Matches(table[i], h)
  }

  /** The loop of `Compare`: the first entry whose pattern matches. */
  method Dispatch(table: seq<Entry>, h: string) returns (r: Option<Entry>)
    ensures r.None? ==> forall k :: 0 <= k < |table| ==> !Matches(table[k], h)
    ensures r.Some? ==> exists k: nat :: FirstMatch(table, h, k) && table[k] == r.value
  {
    for k := 0 to |table|
      invariant forall i :: 0 <= i < k ==> !Matches(table[i], h)
    {
      if Matches(table[k], h) {
        assert FirstMatch(table, h, k);
        return Some(table[k]);
      }
    }
    return None;
  }

  /** A table of built-in hashers with every family in it, in any order and any number of times. */
  ghost predicate HoldsBuiltIns(table: seq<Entry>) {
    && (forall k :: 0 <= k < |table| ==> table[k].BuiltIn?)
    && forall f :: BuiltIn(f) in table
  }

  lemma SupportedHashersHoldAll()
    ensures HoldsBuiltIns(SupportedHashers())
  {
    forall f ensures BuiltIn(f) in SupportedHashers() {
      var at := match f
        case MD5Crypt => 0 case Bcrypt => 1 case SHA256Crypt => 2 case SHA512Crypt => 3 case Argon2idHash => 4
        case Argon2iHash => 5 case Pbkdf2Hash => 6 case ScryptHash => 7 case SSHA => 8 case SHA => 9
        case FirebaseScrypt => 10 case MD5 => 11 case HMAC => 12;
      assert SUPPORTED_FAMILIES[at] == f;
      assert SupportedHashers()[at] == BuiltIn(f);
    }
  }

  /** The order of the built-in hashers is irrelevant: in every table that lists them all, followed by any
      added hashers, the first match of a hash of family `f` is `f`. */
  lemma OrderIsIrrelevant(builtins: seq<Entry>, added: seq<Entry>, h: string, f: Family, k: nat)
    requires HoldsBuiltIns(builtins)
    requires Is(f, h) && FirstMatch(builtins + added, h, k)
    ensures (builtins + added)[k] == BuiltIn(f)
  {
    assert BuiltIn(f) in builtins;
    var i :| 0 <= i < |builtins| && builtins[i] == BuiltIn(f);
    assert (builtins + added)[i] == BuiltIn(f) && Matches((builtins + added)[i], h);
    assert k <= i && (builtins + added)[k] == builtins[k];
    PatternsDisjoint(f, builtins[k].family, h);
  }

  // ----- scrypt parameters -----

  const MAX_SCRYPT_LOG_N: nat := 17
  const MAX_SCRYPT_N: nat := 131_072
  const MAX_SCRYPT_R: nat := 8
  const MAX_SCRYPT_P: nat := 10
  const MAX_BCRYPT_COST: int := 15

  datatype Scrypt = Scrypt(cost: nat, block: nat, parallelization: nat)

  predicate ValidateScrypt(n: nat, r: nat, p: nat) {
    0 < n <= MAX_SCRYPT_N && 0 < r <= MAX_SCRYPT_R && 0 < p <= MAX_SCRYPT_P
  }

  predicate ValidateFirebaseScrypt(logN: nat, r: nat, p: nat) {
    logN <= MAX_SCRYPT_LOG_N && 0 < r <= MAX_SCRYPT_R && 0 < p <= MAX_SCRYPT_P
  }

  /** `ln=%d,r=%d,p=%d` */
  function ScryptCosts(s: string): Option<(nat, nat, nat)> {
    match HashScan.Field(s, "ln=", UINT32_MAX)
    case None => None
    case Some(n) =>
      match HashScan.Field(n.rest, ",r=", UINT32_MAX)
      case None => None
      case Some(r) =>
        match HashScan.Field(r.rest, ",p=", UINT32_MAX)
        case None => None
        case Some(p) => Some((n.n, r.n, p.n))
  }

  function Pow2(k: nat): nat { if k == 0 then 1 else 2 * Pow2(k - 1) }

  /** `1 << k` in a `uint32`. */
  function ShiftOne(k: nat): nat { Pow2(k) % 0x1_0000_0000 }

  function DecodeScrypt(encoded: string): (r: Result<Decoded<Scrypt>, HashError>) {
    var parts := Split(encoded, '$');
    if |parts| != 5 then Err(InvalidHash)
    else
      match ScryptCosts(parts[2])
      case None => Err(BadNumber)
      case Some((n, r, p)) =>
        var salt, hash := DecodePadded(parts[3]), DecodePadded(parts[4]);
        if !ValidateScrypt(n, r, p) then Err(OutOfBounds)
        else if salt.None? || hash.None? then Err(BadBase64)
        else Ok(Decoded(Scrypt(n, r, p), salt.value, hash.value))
  }

  function DecodeFirebaseScrypt(encoded: string): (r: Result<Decoded<Scrypt>, HashError>) {
    var parts := Split(encoded, '$');
    if |parts| != 7 then Err(InvalidHash) else FirebaseFromParts(parts[2], parts[3], parts[4], parts[5], parts[6])
  }

  function FirebaseFromParts(numbers: string, saltText: string, hashText: string, separatorText: string, keyText: string):
    (r: Result<Decoded<Scrypt>, HashError>)
  {
    match ScryptCosts(numbers)
    case None => Err(BadNumber)
    case Some((logN, r, p)) =>
      var salt, hash := DecodePadded(saltText), DecodePadded(hashText);
      if !ValidateFirebaseScrypt(logN, r, p) then Err(OutOfBounds)
      else if salt.None? || hash.None? || DecodePadded(separatorText).None? || DecodePadded(keyText).None? then Err(BadBase64)
      else Ok(Decoded(Scrypt(ShiftOne(logN), r, p), salt.value, hash.value))
  }

  lemma {:induction false} Pow2Monotone(a: nat, b: nat)
    requires a <= b
    ensures Pow2(a) <= Pow2(b)
    decreases b
  {
    if a < b { Pow2Monotone(a, b - 1); }
  }

  /** Every accepted scrypt hash needs at most 128 MiB (128*N*r bytes, section 2 of RFC 7914). */
  lemma ScryptMemoryBound(encoded: string)
    ensures DecodeScrypt(encoded).Ok? ==> var p := DecodeScrypt(encoded).value.params;
      0 < p.cost <= MAX_SCRYPT_N && 128 * p.cost * p.block <= 134_217_728
  {
    if DecodeScrypt(encoded).Ok? {
      var p := DecodeScrypt(encoded).value.params;
      ProductBound(p.cost, p.block);
    }
  }

  /** So does every accepted Firebase scrypt hash, whose cost is the power of two it names and not a truncation of it. */
  lemma FirebaseScryptMemoryBound(encoded: string)
    ensures DecodeFirebaseScrypt(encoded).Ok? ==> var p := DecodeFirebaseScrypt(encoded).value.params;
      && |Split(encoded, '$')| == 7 && ScryptCosts(Split(encoded, '$')[2]).Some?
      && p.cost == Pow2(ScryptCosts(Split(encoded, '$')[2]).value.0)
      && 0 < p.cost <= MAX_SCRYPT_N && 128 * p.cost * p.block <= 134_217_728
  {
    if DecodeFirebaseScrypt(encoded).Ok? {
      var p := DecodeFirebaseScrypt(encoded).value.params;
      ShiftWithinBound(ScryptCosts(Split(encoded, '$')[2]).value.0);
      ProductBound(p.cost, p.block);
    }
  }

  function ScryptNumbers(n: nat, r: nat, p: nat): string {
    "ln=" + Itoa(n) + (",r=" + Itoa(r) + (",p=" + Itoa(p) + ""))
  }

  lemma ScryptCostsScan(n: nat, r: nat, p: nat)
    requires n <= UINT32_MAX && r <= UINT32_MAX && p <= UINT32_MAX
    ensures ScryptCosts(ScryptNumbers(n, r, p)) == Some((n, r, p))
  {
    var pPart := ",p=" + Itoa(p) + "";
    var rPart := ",r=" + Itoa(r) + pPart;
    assert pPart[0] == ',' && rPart[0] == ',';
    FieldPrinted("ln=", n, rPart, UINT32_MAX);
    FieldPrinted(",r=", r, pPart, UINT32_MAX);
    FieldPrinted(",p=", p, "", UINT32_MAX);
  }

  lemma ScryptNumbersHaveNoDollar(n: nat, r: nat, p: nat)
    ensures '$' !in ScryptNumbers(n, r, p)
  {
    DigitsHaveNoDollar(n);
    DigitsHaveNoDollar(r);
    DigitsHaveNoDollar(p);
  }

  lemma SplitParts(parts: seq<string>)
    requires Without('$', parts)
    ensures Split(Dollars(parts), '$') == [""] + parts
  {
    assert "" + Dollars(parts) == Dollars(parts);
    SplitPrefixed('$', "", parts);
  }

  /** A scrypt hash of five parts decodes, to what it names, exactly when its parameters are within bounds and its last
      two parts are base64. */
  lemma ScryptDecodesIff(n: nat, r: nat, p: nat, saltText: string, hashText: string)
    requires n <= UINT32_MAX && r <= UINT32_MAX && p <= UINT32_MAX && '$' !in saltText && '$' !in hashText
    ensures DecodeScrypt(Dollars(["scrypt", ScryptNumbers(n, r, p), saltText, hashText]))
         == var salt, hash := DecodePadded(saltText), DecodePadded(hashText);
            if !(1 <= n <= 131_072 && 1 <= r <= 8 && 1 <= p <= 10) then Err(OutOfBounds)
            else if salt.None? || hash.None? then Err(BadBase64)
            else Ok(Decoded(Scrypt(n, r, p), salt.value, hash.value))
  {
    ScryptNumbersHaveNoDollar(n, r, p);
    SplitParts(["scrypt", ScryptNumbers(n, r, p), saltText, hashText]);
    ScryptCostsScan(n, r, p);
  }

  /** So does a Firebase scrypt hash of seven parts, whose cost is a power of two. */
  lemma FirebaseScryptDecodesIff(
    logN: nat, r: nat, p: nat, saltText: string, hashText: string, separatorText: string, keyText: string)
    requires logN <= UINT32_MAX && r <= UINT32_MAX && p <= UINT32_MAX
    requires '$' !in saltText && '$' !in hashText && '$' !in separatorText && '$' !in keyText
    ensures DecodeFirebaseScrypt(Dollars(["firescrypt", ScryptNumbers(logN, r, p), saltText, hashText, separatorText, keyText]))
         == var salt, hash := DecodePadded(saltText), DecodePadded(hashText);
            if !(logN <= 17 && 1 <= r <= 8 && 1 <= p <= 10) then Err(OutOfBounds)
            else if salt.None? || hash.None? || DecodePadded(separatorText).None? || DecodePadded(keyText).None? then Err(BadBase64)
            else Ok(Decoded(Scrypt(Pow2(logN), r, p), salt.value, hash.value))
  {
    SplitFirebase(logN, r, p, saltText, hashText, separatorText, keyText);
    ScryptCostsScan(logN, r, p);
    if logN <= 17 { ShiftWithinBound(logN); }
  }

  lemma SplitFirebase(
    logN: nat, r: nat, p: nat, saltText: string, hashText: string, separatorText: string, keyText: string)
    requires '$' !in saltText && '$' !in hashText && '$' !in separatorText && '$' !in keyText
    ensures Split(Dollars(["firescrypt", ScryptNumbers(logN, r, p), saltText, hashText, separatorText, keyText]), '$')
         == ["", "firescrypt", ScryptNumbers(logN, r, p), saltText, hashText, separatorText, keyText]
  {
    ScryptNumbersHaveNoDollar(logN, r, p);
    SplitParts(["firescrypt", ScryptNumbers(logN, r, p), saltText, hashText, separatorText, keyText]);
  }

  lemma PartsAreTagged(name: string, rest: seq<string>)
    requires rest != []
    ensures Tagged(Dollars([name] + rest), name)
  {
    assert ([name] + rest)[1..] == rest;
    var tail := rest[0] + Prefixed('$', rest[1..]);
    assert Prefixed('$', rest) == "$" + tail;
    assert Dollars([name] + rest) == "$" + (name + Prefixed('$', rest));
    Left("$", name, "$" + tail);
    Left("$" + name, "$", tail);
  }

  lemma ShiftWithinBound(logN: nat)
    requires logN <= MAX_SCRYPT_LOG_N
    ensures ShiftOne(logN) == Pow2(logN) && 0 < Pow2(logN) <= MAX_SCRYPT_N
  {
    Pow2Monotone(logN, MAX_SCRYPT_LOG_N);
    Pow2Monotone(0, logN);
    Pow2Of17();
  }

  lemma Pow2Of17()
    ensures Pow2(17) == 131_072
  {
    assert Pow2(4) == 16;
    assert Pow2(8) == 256;
    assert Pow2(12) == 4096;
    assert Pow2(16) == 65536;
  }

  lemma ProductBound(n: nat, r: nat)
    requires n <= 131_072 && r <= 8
    ensures 128 * n * r <= 134_217_728
  {
    assert n * r <= 131_072 * r;
  }

  // ----- the same bounds at import and at login -----

  /** `bcrypt.Cost` is uninterpreted: an error or a cost. */
  type BcryptCost = string -> Option<int>

  function ErrorOf<T>(r: Result<T, HashError>): Option<HashError> {
    match r
    case Ok(_) => None
    case Err(e) => Some(e)
  }

  function ValidateBcrypt(cost: BcryptCost, h: string): Option<HashError> {
    match cost(h)
    case None => Some(InvalidHash)
    case Some(c) => if c > MAX_BCRYPT_COST then Some(OutOfBounds) else None
  }

  /** Families whose hashes carry a cost. */
  predicate HasCost(f: Family) {
    f == Bcrypt || f == Argon2idHash || f == Argon2iHash || f == Pbkdf2Hash || f == ScryptHash || f == FirebaseScrypt
  }

  /** The case the import-time switch takes, in its own order; none for hashes that pass through. */
  function ImportFamily(h: string): (r: Option<Family>)
    ensures r.Some? ==> HasCost(r.value) && Is(r.value, h)
    ensures r.None? ==> forall f :: HasCost(f) ==> !Is(f, h)
  {
    if Is(Bcrypt, h) then Some(Bcrypt)
    else if Is(Argon2idHash, h) then Some(Argon2idHash)
    else if Is(Argon2iHash, h) then Some(Argon2iHash)
    else if Is(Pbkdf2Hash, h) then Some(Pbkdf2Hash)
    else if Is(ScryptHash, h) then Some(ScryptHash)
    else if Is(FirebaseScrypt, h) then Some(FirebaseScrypt)
    else None
  }

  function ValidateImportedHash(cost: BcryptCost, h: string): Option<HashError> {
    match ImportFamily(h)
    case Some(Bcrypt) => ValidateBcrypt(cost, h)
    case Some(Argon2idHash) => ErrorOf(DecodeArgon2id(h))
    case Some(Argon2iHash) => ErrorOf(DecodeArgon2id(h))
    case Some(Pbkdf2Hash) => ErrorOf(DecodePbkdf2(h))
    case Some(ScryptHash) => ErrorOf(DecodeScrypt(h))
    case Some(FirebaseScrypt) => ErrorOf(DecodeFirebaseScrypt(h))
    case _ => None
  }

  /** The parameter check each comparator makes before any key derivation. */
  function LoginCheck(cost: BcryptCost, f: Family, h: string): Option<HashError> {
    match f
    case Bcrypt => ValidateBcrypt(cost, h)
    case Argon2idHash => ErrorOf(DecodeArgon2id(h))
    case Argon2iHash => ErrorOf(DecodeArgon2id(h))
    case Pbkdf2Hash => ErrorOf(DecodePbkdf2(h))
    case ScryptHash => ErrorOf(DecodeScrypt(h))
    case FirebaseScrypt => ErrorOf(DecodeFirebaseScrypt(h))
    case _ => None
  }

  /** Import and login pick the same family: in every table that lists the built-in hashers in any order, followed by
      added ones, a hash with a cost is dispatched to the family of the import switch, and to no other. */
  lemma SameFamily(builtins: seq<Entry>, added: seq<Entry>, h: string, k: nat)
    requires HoldsBuiltIns(builtins) && FirstMatch(builtins + added, h, k)
    ensures forall f :: HasCost(f) ==> (ImportFamily(h) == Some(f) <==> (builtins + added)[k] == BuiltIn(f))
  {
    forall f | HasCost(f) ensures ImportFamily(h) == Some(f) <==> (builtins + added)[k] == BuiltIn(f) {
      if ImportFamily(h) == Some(f) { OrderIsIrrelevant(builtins, added, h, f, k); }
      if (builtins + added)[k] == BuiltIn(f) {
        assert Is(f, h);
        PatternsDisjoint(f, ImportFamily(h).value, h);
      }
    }
  }

  /** Import and login reach the same verdict on the parameters of a hash of a built-in family. */
  lemma ImportAgreesWithLogin(cost: BcryptCost, h: string, f: Family)
    requires Is(f, h)
    ensures ValidateImportedHash(cost, h) == LoginCheck(cost, f, h)
    ensures ImportFamily(h) == if HasCost(f) then Some(f) else None
  {
    if ImportFamily(h).Some? { PatternsDisjoint(f, ImportFamily(h).value, h); }
  }

  /** What import accepts: exactly the hashes whose own decoder succeeds, and bcrypt hashes of a cost of at most 15. */
  lemma ImportAcceptsIff(cost: BcryptCost, h: string, f: Family)
    requires Is(f, h)
    ensures ValidateImportedHash(cost, h).None? <==>
      match f
      case Bcrypt => cost(h).Some? && cost(h).value <= 15
      case Argon2idHash => DecodeArgon2id(h).Ok?
      case Argon2iHash => DecodeArgon2id(h).Ok?
      case Pbkdf2Hash => DecodePbkdf2(h).Ok?
      case ScryptHash => DecodeScrypt(h).Ok?
      case FirebaseScrypt => DecodeFirebaseScrypt(h).Ok?
      case _ => true
  {
    ImportAgreesWithLogin(cost, h, f);
  }

  /** The scrypt parameters an imported hash decodes to. */
  function ScryptOf(h: string): Option<Scrypt> {
    if Is(ScryptHash, h) && DecodeScrypt(h).Ok? then Some(DecodeScrypt(h).value.params)
    else if Is(FirebaseScrypt, h) && DecodeFirebaseScrypt(h).Ok? then Some(DecodeFirebaseScrypt(h).value.params)
    else None
  }

  /** A scrypt hash of five parts is imported exactly when its parameters are within bounds and its last parts are base64. */
  lemma ScryptIsImportable(cost: BcryptCost, n: nat, r: nat, p: nat, saltText: string, hashText: string)
    requires n <= UINT32_MAX && r <= UINT32_MAX && p <= UINT32_MAX && '$' !in saltText && '$' !in hashText
    ensures ValidateImportedHash(cost, Dollars(["scrypt", ScryptNumbers(n, r, p), saltText, hashText])).None?
       <==> && 1 <= n <= 131_072 && 1 <= r <= 8 && 1 <= p <= 10
            && DecodePadded(saltText).Some? && DecodePadded(hashText).Some?
  {
    var rest := [ScryptNumbers(n, r, p), saltText, hashText];
    assert ["scrypt"] + rest == ["scrypt", ScryptNumbers(n, r, p), saltText, hashText];
    PartsAreTagged("scrypt", rest);
    ImportAcceptsIff(cost, Dollars(["scrypt"] + rest), ScryptHash);
    ScryptDecodesIff(n, r, p, saltText, hashText);
  }

  lemma FirebaseScryptIsImportable(
    cost: BcryptCost, logN: nat, r: nat, p: nat, saltText: string, hashText: string, separatorText: string, keyText: string)
    requires logN <= UINT32_MAX && r <= UINT32_MAX && p <= UINT32_MAX
    requires '$' !in saltText && '$' !in hashText && '$' !in separatorText && '$' !in keyText
    ensures ValidateImportedHash(cost,
              Dollars(["firescrypt", ScryptNumbers(logN, r, p), saltText, hashText, separatorText, keyText])).None?
       <==> && logN <= 17 && 1 <= r <= 8 && 1 <= p <= 10
            && DecodePadded(saltText).Some? && DecodePadded(hashText).Some?
            && DecodePadded(separatorText).Some? && DecodePadded(keyText).Some?
  {
    var rest := [ScryptNumbers(logN, r, p), saltText, hashText, separatorText, keyText];
    assert ["firescrypt"] + rest == ["firescrypt", ScryptNumbers(logN, r, p), saltText, hashText, separatorText, keyText];
    PartsAreTagged("firescrypt", rest);
    ImportAcceptsIff(cost, Dollars(["firescrypt"] + rest), FirebaseScrypt);
    FirebaseScryptDecodesIff(logN, r, p, saltText, hashText, separatorText, keyText);
  }

  /** No imported scrypt or Firebase scrypt hash needs more than 2^27 bytes. */
  lemma ImportedScryptIsBounded(cost: BcryptCost, h: string)
    requires Is(ScryptHash, h) || Is(FirebaseScrypt, h)
    ensures ValidateImportedHash(cost, h).None? ==>
      && ScryptOf(h).Some?
      && 1 <= ScryptOf(h).value.cost <= 131_072 && 128 * ScryptOf(h).value.cost * ScryptOf(h).value.block <= 134_217_728
  {
    if Is(ScryptHash, h) {
      ImportAcceptsIff(cost, h, ScryptHash);
      ScryptMemoryBound(h);
    } else {
      ImportAcceptsIff(cost, h, FirebaseScrypt);
      FirebaseScryptMemoryBound(h);
    }
  }

  /** What login does before any key derivation: dispatch over the table, then the parameter check of the entry found.
      An unknown hash is refused as such; an added hasher checks for itself. */
  datatype LoginVerdict = UnknownAlgorithm | AddedHasher(name: string) | Checked(family: Family, error: Option<HashError>)

  /** A hash accepted at import never fails its bounds at login, whatever hashers were added. */
  method LoginParameters(added: seq<Entry>, cost: BcryptCost, h: string) returns (r: LoginVerdict)
    ensures r.Checked? <==> exists f :: Is(f, h)
    ensures r.Checked? ==> Is(r.family, h) && r.error == ValidateImportedHash(cost, h)
    ensures r.Checked? ==> ImportFamily(h) == if HasCost(r.family) then Some(r.family) else None
  {
    SupportedHashersHoldAll();
    var table := SupportedHashers() + added;
    var entry := Dispatch(table, h);
    forall f | Is(f, h) ensures entry == Some(BuiltIn(f)) {
      DispatchedToFamily(added, h, f, entry);
    }
    match entry {
      case None => return UnknownAlgorithm;
      case Some(Custom(name, _)) => return AddedHasher(name);
      case Some(BuiltIn(f)) =>
        ImportAgreesWithLogin(cost, h, f);
        return Checked(f, LoginCheck(cost, f, h));
    }
  }

  lemma DispatchedToFamily(added: seq<Entry>, h: string, f: Family, entry: Option<Entry>)
    requires Is(f, h)
    requires var table := SupportedHashers() + added;
      && (entry.None? ==> forall k :: 0 <= k < |table| ==> !Matches(table[k], h))
      && (entry.Some? ==> exists k: nat :: FirstMatch(table, h, k) && table[k] == entry.value)
    ensures entry == Some(BuiltIn(f))
  {
    SupportedHashersHoldAll();
    var table := SupportedHashers() + added;
    var i :| 0 <= i < |SupportedHashers()| && SupportedHashers()[i] == BuiltIn(f);
    assert table[i] == BuiltIn(f) && Matches(table[i], h);
    var k: nat :| FirstMatch(table, h, k) && table[k] == entry.value;
    OrderIsIrrelevant(SupportedHashers(), added, h, f, k);
  }

  // ----- generated hashes are recognised -----

  lemma GeneratedArgon2idIsRecognised(m: nat, t: nat, p: nat, salt: Bytes, key: Bytes)
    ensures Is(Argon2idHash, PrintArgon2id(m, t, p, salt, key))
  {
    var parts := ["argon2id", "v=" + Itoa(ARGON2_VERSION), Argon2Numbers(m, t, p), Encode(salt), Encode(key)];
    var rest := Dollars(parts[1..]);
    assert rest[0] == '$' && Dollars(parts) == "$" + "argon2id" + rest;
    assert rest == "$" + rest[1..];
    assert Dollars(parts) == "$" + "argon2id" + "$" + rest[1..];
  }

  lemma GeneratedPbkdf2IsRecognised(digits: string, iterations: nat, keyLength: nat, salt: Bytes, key: Bytes)
    requires AllDigits(digits) && 1 <= |digits| <= 3
    ensures Is(Pbkdf2Hash, PrintPbkdf2("sha" + digits, iterations, keyLength, salt, key))
  {
    var parts := ["pbkdf2-" + ("sha" + digits), Pbkdf2Numbers(iterations, keyLength), Encode(salt), Encode(key)];
    var h, rest := Dollars(parts), Dollars(parts[1..]);
    assert rest[0] == '$' && h == "$" + ("pbkdf2-" + ("sha" + digits)) + rest;
    assert h == "$pbkdf2-sha" + (digits + rest);
    DigitRunUnique(digits, rest);
    assert h[11..] == digits + rest;
  }

  /** A generated hash passes the import check exactly when its settings are within bounds. */
  lemma GeneratedArgon2idIsImportable(cost: BcryptCost, m: nat, t: nat, p: nat, salt: Bytes, key: Bytes)
    requires m <= UINT64_MAX && t <= UINT32_MAX && p <= UINT8_MAX
    ensures ValidateImportedHash(cost, PrintArgon2id(m, t, p, salt, key)).None?
       <==> 1 <= m <= 1_048_576 && 1 <= t <= 10 && 1 <= p <= 16
  {
    GeneratedArgon2idIsRecognised(m, t, p, salt, key);
    ImportAcceptsIff(cost, PrintArgon2id(m, t, p, salt, key), Argon2idHash);
    Argon2idRoundTrip(m, t, p, salt, key);
  }
}
