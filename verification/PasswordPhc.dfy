/** Argon2id hashes in PHC string form: `$argon2id$v=19$m=..,t=..,p=..$<salt>$<hash>`. */
module PasswordPhc {
  import opened Wrappers
  import opened Text
  import opened Decimal
  import opened Base64

  const ARGON_MEMORY: nat := 64 * 1024
  const ARGON_TIME: nat := 3
  const ARGON_THREADS: nat := 2
  const ARGON_HASH_LEN: nat := 32
  const ARGON_VERSION: nat := 19

  const UINT32: int := 0x1_0000_0000
  const UINT8: int := 0x100

  /** The fields of the string: salt, hash, memory, time and threads. */
  datatype Phc = Phc(salt: seq<byte>, hash: seq<byte>, m: nat, t: nat, p: nat)

  datatype Malformation = PartCount | Algorithm | Version | Params | Salt | Hash

  datatype Parsed = Ok(phc: Phc) | Malformed(at: Malformation)

  /** argon2.IDKey: password, salt, time, memory, threads and key length. */
  type KeyFunction = (string, seq<byte>, nat, nat, nat, nat) -> seq<byte>

  // ----- printing -----

  function Params(phc: Phc): string {
    "m=" + Print(phc.m) + ",t=" + Print(phc.t) + ",p=" + Print(phc.p)
  }

  /** Six parts joined by '$', the first one empty. */
  function PrintPhc(version: nat, phc: Phc): string {
    Join(Parts(version, phc), "$")
  }

  function Parts(version: nat, phc: Phc): seq<string> {
    ["", "argon2id", "v=" + Print(version), Params(phc), Encode(phc.salt), Encode(phc.hash)]
  }

  /** HashPassword with the salt that the random source gave. */
  function HashPassword(plain: string, salt: seq<byte>, idKey: KeyFunction): string {
    PrintPhc(ARGON_VERSION, Phc(salt, idKey(plain, salt, ARGON_TIME, ARGON_MEMORY, ARGON_THREADS, ARGON_HASH_LEN),
                                ARGON_MEMORY, ARGON_TIME, ARGON_THREADS))
  }

  // ----- parsing -----

  /** Sscanf of a literal and a number. */
  function ScanField(s: string, literal: string): Scan {
    match ScanLiteral(s, literal)
    case None => ScanError
    case Some(rest) => ScanInt(rest)
  }

  datatype Triple = Triple(m: int, t: int, p: int)

  /** Sscanf with "m=%d,t=%d,p=%d"; unread input after the last number is not an error. */
  function ScanParams(s: string): Option<Triple> {
    var m := ScanField(s, "m=");
    if m.ScanError? then None
    else
      var t := ScanField(m.rest, ",t=");
      if t.ScanError? then None
      else
        var p := ScanField(t.rest, ",p=");
        if p.ScanError? then None else Some(Triple(m.value, t.value, p.value))
  }

  predicate InRange(phc: Phc) {
    phc.m < UINT32 && phc.t < UINT32 && phc.p < UINT8
  }

  /** The conversions to uint32, uint32 and uint8. */
  function Narrow(salt: seq<byte>, hash: seq<byte>, params: Triple): (phc: Phc)
    ensures InRange(phc)
    ensures phc.salt == salt && phc.hash == hash
    ensures phc.m == params.m && phc.t == params.t && phc.p == params.p <==>
      0 <= params.m < UINT32 && 0 <= params.t < UINT32 && 0 <= params.p < UINT8
  {
    Phc(salt, hash, params.m % UINT32, params.t % UINT32, params.p % UINT8)
  }

  /** The version number is read and then ignored; the parameters are cut to 32, 32 and 8 bits. */
  function ParsePhc(encoded: string): Parsed {
    ParseParts(Split(encoded, '$'))
  }

  function ParseParts(parts: seq<string>): (r: Parsed)
    ensures r.Ok? ==> InRange(r.phc)
  {
    if |parts| != 6 then Malformed(PartCount)
    else if parts[1] != "argon2id" then Malformed(Algorithm)
    else if ScanField(parts[2], "v=").ScanError? then Malformed(Version)
    else
      match ScanParams(parts[3])
      case None => Malformed(Malformation.Params)
      case Some(params) =>
        match Decode(parts[4])
        case None => Malformed(Salt)
        case Some(salt) =>
          match Decode(parts[5])
          case None => Malformed(Hash)
          case Some(hash) => Ok(Narrow(salt, hash, params))
  }

  datatype Verification = Compared(equal: bool) | ParseError(at: Malformation)

  function VerifyPassword(plain: string, encoded: string, idKey: KeyFunction): Verification {
    match ParsePhc(encoded)
    case Malformed(at) => ParseError(at)
    case Ok(phc) => Compared(phc.hash == idKey(plain, phc.salt, phc.t, phc.m, phc.p, |phc.hash| % UINT32))
  }

  // ----- round trips -----

  lemma ScanFieldOfPrint(literal: string, n: nat, rest: string)
    requires n < INT_LIMIT && (rest == "" || !IsDigit(rest[0]))
    ensures ScanField(literal + Print(n) + rest, literal) == Scanned(n, rest)
  {
    assert (literal + Print(n) + rest)[|literal|..] == Print(n) + rest;
    ScanOfPrint(n, rest);
  }

  predicate FitsInt(phc: Phc) {
    phc.m < INT_LIMIT && phc.t < INT_LIMIT && phc.p < INT_LIMIT
  }

  lemma ScanParamsOfPrint(phc: Phc)
    requires FitsInt(phc)
    ensures ScanParams(Params(phc)) == Some(Triple(phc.m, phc.t, phc.p))
  {
    var third := ",p=" + Print(phc.p);
    var second := ",t=" + Print(phc.t) + third;
    assert Params(phc) == "m=" + Print(phc.m) + second;
    assert third == third + "";
    ScanFieldOfPrint("m=", phc.m, second);
    ScanFieldOfPrint(",t=", phc.t, third);
    ScanFieldOfPrint(",p=", phc.p, "");
  }

  lemma PartsSurviveSplit(version: nat, phc: Phc)
    ensures Split(PrintPhc(version, phc), '$') == Parts(version, phc)
  {
    assert !IsDigit('$') && !InAlphabet('$');
    SplitOfJoin(Parts(version, phc), '$');
  }

  lemma VersionScans(version: nat)
    requires version < INT_LIMIT
    ensures ScanField("v=" + Print(version), "v=") == Scanned(version, "")
  {
    assert "v=" + Print(version) == "v=" + Print(version) + "";
    ScanFieldOfPrint("v=", version, "");
  }

  lemma ParseOfParts(parts: seq<string>, salt: seq<byte>, hash: seq<byte>, params: Triple)
    requires |parts| == 6 && parts[1] == "argon2id" && ScanField(parts[2], "v=").Scanned?
    requires ScanParams(parts[3]) == Some(params) && Decode(parts[4]) == Some(salt) && Decode(parts[5]) == Some(hash)
    ensures ParseParts(parts) == Ok(Narrow(salt, hash, params))
  {
  }

  lemma ParsePartsOfPrint(version: nat, phc: Phc)
    requires FitsInt(phc) && version < INT_LIMIT
    ensures ParseParts(Parts(version, phc)) == Ok(Narrow(phc.salt, phc.hash, Triple(phc.m, phc.t, phc.p)))
  {
    var parts := Parts(version, phc);
    VersionScans(version);
    assert ScanField(parts[2], "v=").Scanned?;
    ParsePartsOfFields(parts, phc);
  }

  lemma ParsePartsOfFields(parts: seq<string>, phc: Phc)
    requires FitsInt(phc) && |parts| == 6 && parts[1] == "argon2id" && ScanField(parts[2], "v=").Scanned?
    requires parts[3] == Params(phc) && parts[4] == Encode(phc.salt) && parts[5] == Encode(phc.hash)
    ensures ParseParts(parts) == Ok(Narrow(phc.salt, phc.hash, Triple(phc.m, phc.t, phc.p)))
  {
    ScanParamsOfPrint(phc);
    DecodeOfEncode(phc.salt);
    DecodeOfEncode(phc.hash);
    ParseOfParts(parts, phc.salt, phc.hash, Triple(phc.m, phc.t, phc.p));
  }

  /**
   Parsing what was printed gives the salt and the hash back, each parameter cut to its width, and so the same fields
   exactly when the parameters fit; the version number makes no difference.
   */
  lemma ParseOfPrint(version: nat, phc: Phc)
    requires FitsInt(phc) && version < INT_LIMIT
    ensures ParsePhc(PrintPhc(version, phc)) == Ok(Narrow(phc.salt, phc.hash, Triple(phc.m, phc.t, phc.p)))
    ensures ParsePhc(PrintPhc(version, phc)) == Ok(phc) <==> InRange(phc)
  {
    PartsSurviveSplit(version, phc);
    ParsePartsOfPrint(version, phc);
  }

  /** Whatever string was accepted, printing its fields gives a string with the same meaning. */
  lemma AcceptedReprints(version: nat, encoded: string)
    requires ParsePhc(encoded).Ok? && version < INT_LIMIT
    ensures ParsePhc(PrintPhc(version, ParsePhc(encoded).phc)) == ParsePhc(encoded)
  {
    var phc := ParsePhc(encoded).phc;
    ParseOfPrint(version, phc);
  }

  /** A stored hash accepts exactly the passwords that Argon2 does not tell apart from the hashed one. */
  lemma VerifyOfHash(plain: string, guess: string, salt: seq<byte>, idKey: KeyFunction)
    requires forall pw, s, t, m, p, n :: |idKey(pw, s, t, m, p, n)| == n
    ensures VerifyPassword(guess, HashPassword(plain, salt, idKey), idKey) == Compared(
        idKey(plain, salt, ARGON_TIME, ARGON_MEMORY, ARGON_THREADS, ARGON_HASH_LEN) ==
        idKey(guess, salt, ARGON_TIME, ARGON_MEMORY, ARGON_THREADS, ARGON_HASH_LEN))
  {
    var hash := idKey(plain, salt, ARGON_TIME, ARGON_MEMORY, ARGON_THREADS, ARGON_HASH_LEN);
    ParseOfPrint(ARGON_VERSION, Phc(salt, hash, ARGON_MEMORY, ARGON_TIME, ARGON_THREADS));
  }

  lemma OwnPasswordVerifies(plain: string, salt: seq<byte>, idKey: KeyFunction)
    requires forall pw, s, t, m, p, n :: |idKey(pw, s, t, m, p, n)| == n
    ensures VerifyPassword(plain, HashPassword(plain, salt, idKey), idKey) == Compared(true)
  {
    VerifyOfHash(plain, plain, salt, idKey);
  }

  // ----- what is accepted and what is refused -----

  /** A literal followed by a number that scans; anything may follow the number. */
  ghost predicate FieldReads(s: string, literal: string, v: int, rest: string) {
    literal <= s && ScanInt(s[|literal|..]) == Scanned(v, rest)
  }

  lemma ScanFieldIff(s: string, literal: string, v: int, rest: string)
    ensures ScanField(s, literal) == Scanned(v, rest) <==> FieldReads(s, literal, v, rest)
  {
  }

  /** The parameters scan exactly as three fields, each after its own literal. */
  lemma ScanParamsIff(s: string, params: Triple)
    ensures ScanParams(s) == Some(params) <==>
            exists r1, r2, r3 :: && FieldReads(s, "m=", params.m, r1) && FieldReads(r1, ",t=", params.t, r2)
                                 && FieldReads(r2, ",p=", params.p, r3)
  {
    var m := ScanField(s, "m=");
    if ScanParams(s) == Some(params) {
      var t := ScanField(m.rest, ",t=");
      var p := ScanField(t.rest, ",p=");
      assert FieldReads(s, "m=", params.m, m.rest) && FieldReads(m.rest, ",t=", params.t, t.rest);
      assert FieldReads(t.rest, ",p=", params.p, p.rest);
    }
  }

  /** The first thing wrong, in this order, is what is reported; nothing wrong gives the narrowed fields. */
  lemma RefusalsInOrder(encoded: string)
    ensures var parts, parsed := Split(encoded, '$'), ParsePhc(encoded);
            if |parts| != 6 then parsed == Malformed(PartCount)
            else if parts[1] != "argon2id" then parsed == Malformed(Algorithm)
            else if !exists v, rest :: FieldReads(parts[2], "v=", v, rest) then parsed == Malformed(Version)
            else if ScanParams(parts[3]).None? then parsed == Malformed(Malformation.Params)
            else if Decode(parts[4]).None? then parsed == Malformed(Salt)
            else if Decode(parts[5]).None? then parsed == Malformed(Hash)
            else parsed == Ok(Narrow(Decode(parts[4]).value, Decode(parts[5]).value, ScanParams(parts[3]).value))
  {
    var parts := Split(encoded, '$');
    if |parts| == 6 {
      var version := ScanField(parts[2], "v=");
      if version.Scanned? {
        assert FieldReads(parts[2], "v=", version.value, version.rest);
      }
    }
  }

  /** The fields between the dollar signs, spelled out. */
  lemma PrintedForm(version: nat, phc: Phc)
    ensures PrintPhc(version, phc) ==
            "$argon2id$v=" + Print(version) + "$m=" + Print(phc.m) + ",t=" + Print(phc.t) + ",p=" + Print(phc.p)
            + "$" + Encode(phc.salt) + "$" + Encode(phc.hash)
  {
    Spelled(Print(version), Print(phc.m), Print(phc.t), Print(phc.p), Encode(phc.salt), Encode(phc.hash));
  }

  lemma Spelled(version: string, m: string, t: string, p: string, salt: string, hash: string)
    ensures Join(["", "argon2id", "v=" + version, "m=" + m + ",t=" + t + ",p=" + p, salt, hash], "$") ==
            "$argon2id$v=" + version + "$m=" + m + ",t=" + t + ",p=" + p + "$" + salt + "$" + hash
  {
    var params := "m=" + m + ",t=" + t + ",p=" + p;
    JoinOfSix("", "argon2id", "v=" + version, params, salt, hash);
    var prefix := "" + "$" + "argon2id" + "$" + ("v=" + version);
    assert prefix == "$argon2id$v=" + version;
    var spelled := "$argon2id$v=" + version + "$m=" + m + ",t=" + t + ",p=" + p;
    assert prefix + "$" + params == spelled;
  }

  lemma JoinOfSix(a: string, b: string, c: string, d: string, e: string, f: string)
    ensures Join([a, b, c, d, e, f], "$") == a + "$" + b + "$" + c + "$" + d + "$" + e + "$" + f
  {
    var last := Join([d, e, f], "$");
    JoinOfThree(d, e, f, "$");
    assert [a, b, c, d, e, f][1..] == [b, c, d, e, f] && [b, c, d, e, f][1..] == [c, d, e, f];
    assert [c, d, e, f][1..] == [d, e, f];
    assert Join([c, d, e, f], "$") == c + "$" + last;
    assert Join([b, c, d, e, f], "$") == b + "$" + (c + "$" + last);
  }

  /** A password is stored with version 19, 64 MiB, three rounds, two threads and a 32-byte key. */
  lemma StoredParameters(plain: string, salt: seq<byte>, idKey: KeyFunction)
    ensures HashPassword(plain, salt, idKey) ==
        PrintPhc(19, Phc(salt, idKey(plain, salt, 3, 65536, 2, 32), 65536, 3, 2))
  {
  }
}
