/**
 The step-up token, a compact JWS (section 7.1 of RFC 7515), and the single-use cache of token ids.

 The MAC and the payload encoding are parameters: `Codec` carries them and `Sound` is what is assumed
 of them (base64url text holds no '.', and decoding inverts encoding).
 */
module StepUpToken {
  import opened Wrappers
  import opened Text

  datatype Payload = Payload(account: int, purpose: string, jti: string, exp: int)

  datatype Codec = Codec(
    encode: Payload -> string,
    decode: string -> Option<Payload>,
    mac: (string, string) -> string)

  const HEADER := "eyJhbGciOiJIUzI1NiIsInR5cCI6InN0ZXAtdXAifQ"
  const PURPOSE := "credential_change"
  const DOT: char := '.'

  ghost predicate Sound(codec: Codec) {
    && (forall p :: codec.decode(codec.encode(p)) == Some(p))
    && (forall p :: DOT !in codec.encode(p))
    && (forall key, text :: DOT !in codec.mac(key, text))
  }

  function SigningInput(encoded: string): string {
    HEADER + [DOT] + encoded
  }

  function Signed(codec: Codec, secret: string, encoded: string): string {
    SigningInput(encoded) + [DOT] + codec.mac(secret, SigningInput(encoded))
  }

  /** IssueStepUpToken with the clock and the random id already drawn; an empty secret is refused. */
  function Issue(codec: Codec, secret: string, account: int, jti: string, exp: int): Option<string> {
    if secret == "" then None else Some(Signed(codec, secret, codec.encode(Payload(account, PURPOSE, jti, exp))))
  }

  /** The stateless half of VerifyStepUpToken up to the parsed payload. */
  function Open(codec: Codec, secret: string, token: string): Option<Payload> {
    if secret == "" then None
    else
      var parts := Split(token, DOT);
      if |parts| != 3 || parts[0] != HEADER then None
      else if parts[2] != codec.mac(secret, SigningInput(parts[1])) then None
      else codec.decode(parts[1])
  }

  /** The stateless checks on the payload: unexpired at `now`, right purpose, right account. */
  predicate Admissible(p: Payload, account: int, now: int) {
    now <= p.exp && p.purpose == PURPOSE && p.account == account
  }

  lemma SplitOfSigned(codec: Codec, secret: string, encoded: string)
    requires Sound(codec) && DOT !in encoded
    ensures Split(Signed(codec, secret, encoded), DOT) == [HEADER, encoded, codec.mac(secret, SigningInput(encoded))]
  {
    var parts := [HEADER, encoded, codec.mac(secret, SigningInput(encoded))];
    assert DOT !in HEADER;
    SplitOfJoin(parts, DOT);
    JoinOfThree(HEADER, encoded, parts[2], [DOT]);
  }

  /** A token opens to the payload it was issued with. */
  lemma IssuedTokenOpens(codec: Codec, secret: string, account: int, jti: string, exp: int)
    requires Sound(codec) && secret != ""
    ensures Open(codec, secret, Issue(codec, secret, account, jti, exp).value) ==
            Some(Payload(account, PURPOSE, jti, exp))
  {
    SplitOfSigned(codec, secret, codec.encode(Payload(account, PURPOSE, jti, exp)));
  }

  /** With an empty secret nothing is issued and nothing opens. */
  lemma EmptySecretIsRefused(codec: Codec, secret: string, account: int, jti: string, exp: int, token: string)
    ensures Issue(codec, secret, account, jti, exp).None? <==> secret == ""
    ensures secret == "" ==> Open(codec, secret, token).None?
  {
  }

  /** Whatever opens is exactly a signed encoding of its payload: nothing is left over and nothing is missing. */
  lemma OpenedTokenIsSigned(codec: Codec, secret: string, token: string) returns (encoded: string)
    requires Open(codec, secret, token).Some?
    ensures token == Signed(codec, secret, encoded) && codec.decode(encoded) == Open(codec, secret, token)
  {
    var parts := Split(token, DOT);
    encoded := parts[1];
    JoinOfSplit(token, DOT);
    assert parts == [parts[0], parts[1], parts[2]];
    JoinOfThree(parts[0], parts[1], parts[2], [DOT]);
  }

  /** No one but the issuer of `issued` produced a MAC that `token` carries. */
  ghost predicate Unforged(codec: Codec, secret: string, issued: set<Payload>, token: string) {
    forall encoded :: token == Signed(codec, secret, encoded) ==> exists p :: p in issued && encoded == codec.encode(p)
  }

  /** With an unforgeable MAC, every payload that is accepted was issued. */
  lemma AcceptedWasIssued(codec: Codec, secret: string, issued: set<Payload>, token: string)
    requires Sound(codec) && Unforged(codec, secret, issued, token)
    requires Open(codec, secret, token).Some?
    ensures Open(codec, secret, token).value in issued
  {
    var encoded := OpenedTokenIsSigned(codec, secret, token);
    var p :| p in issued && encoded == codec.encode(p);
    assert codec.decode(codec.encode(p)) == Some(p);
  }

  // ----- the single-use cache -----

  /** The ids an entry of the cache keeps from being used again. */
  type Entries = map<string, int>

  predicate Expired(exp: int, now: int) {
    now > exp
  }

  function Pruned(entries: Entries, now: int): Entries {
    map jti | jti in entries && !Expired(entries[jti], now) :: entries[jti]
  }

  class ConsumedCache {
    var entries: Entries

    constructor ()
      ensures entries == map[]
    {
      entries := map[];
    }

    /** sync.Map.LoadOrStore: reports whether the id was already there. */
    method LoadOrStore(jti: string, exp: int) returns (loaded: bool)
      modifies this
      ensures loaded <==> jti in old(entries)
      ensures entries == if loaded then old(entries) else old(entries)[jti := exp]
    {
      loaded := jti in entries;
      if !loaded {
        entries := entries[jti := exp];
      }
    }

    /** One janitor tick: Range over the entries, deleting the expired ones. */
    method Prune(now: int)
      modifies this
      ensures entries == Pruned(old(entries), now)
    {
      var pending := entries.Keys;
      while pending != {}
        invariant pending <= entries.Keys <= old(entries).Keys
        invariant forall jti :: jti in entries ==> entries[jti] == old(entries)[jti]
        invariant forall jti :: jti in old(entries) && jti !in pending ==>
                                  (jti in entries <==> !Expired(old(entries)[jti], now))
        decreases |pending|
      {
        var jti :| jti in pending;
        if Expired(entries[jti], now) {
          entries := entries - {jti};
        }
        pending := pending - {jti};
      }
    }

    /** VerifyStepUpToken with its expiry test and its store at one clock reading. */
    method Verify(codec: Codec, secret: string, token: string, account: int, now: int) returns (ok: bool)
      modifies this
      ensures ok <==> Accepts(codec, secret, token, account, now, old(entries))
      ensures entries == AfterVerify(codec, secret, token, account, now, old(entries))
    {
      var payload := Open(codec, secret, token);
      if payload.None? || Expired(payload.value.exp, now) {
        return false;
      }
      if payload.value.purpose != PURPOSE || payload.value.account != account {
        return false;
      }
      var used := LoadOrStore(payload.value.jti, payload.value.exp);
      ok := !used;
    }
  }

  predicate Accepts(codec: Codec, secret: string, token: string, account: int, now: int, entries: Entries) {
    var payload := Open(codec, secret, token);
    payload.Some? && Admissible(payload.value, account, now) && payload.value.jti !in entries
  }

  function AfterVerify(codec: Codec, secret: string, token: string, account: int, now: int, entries: Entries): Entries {
    var payload := Open(codec, secret, token);
    if payload.Some? && Admissible(payload.value, account, now) && payload.value.jti !in entries
    then entries[payload.value.jti := payload.value.exp] else entries
  }

  /** `encoded` is the middle part of the token, correctly signed, and decodes. */
  ghost predicate Carries(codec: Codec, secret: string, token: string, encoded: string) {
    var mac := codec.mac(secret, SigningInput(encoded));
    && secret != "" && token == HEADER + [DOT] + encoded + [DOT] + mac && DOT !in encoded && DOT !in mac
    && codec.decode(encoded).Some?
  }

  lemma CarriedOpens(codec: Codec, secret: string, token: string, encoded: string)
    requires Carries(codec, secret, token, encoded)
    ensures Open(codec, secret, token) == codec.decode(encoded)
  {
    assert DOT !in HEADER;
    SplitOfThree(HEADER, encoded, codec.mac(secret, SigningInput(encoded)));
  }

  lemma OpenedCarries(codec: Codec, secret: string, token: string) returns (encoded: string)
    requires Open(codec, secret, token).Some?
    ensures Carries(codec, secret, token, encoded) && codec.decode(encoded) == Open(codec, secret, token)
  {
    var parts := Split(token, DOT);
    encoded := parts[1];
    assert DOT !in parts[1] && DOT !in parts[2];
    JoinOfSplit(token, DOT);
    assert parts == [parts[0], parts[1], parts[2]];
    JoinOfThree(parts[0], parts[1], parts[2], [DOT]);
  }

  /**
   Acceptance on the fields: a signed payload, not past its expiry, for this purpose and account, with an unused id.
   */
  lemma AcceptsIff(codec: Codec, secret: string, token: string, account: int, now: int, entries: Entries)
    ensures Accepts(codec, secret, token, account, now, entries) <==>
            exists encoded :: && Carries(codec, secret, token, encoded)
                              && now <= codec.decode(encoded).value.exp
                              && codec.decode(encoded).value.purpose == "credential_change"
                              && codec.decode(encoded).value.account == account
                              && codec.decode(encoded).value.jti !in entries
  {
    if Open(codec, secret, token).Some? {
      var encoded := OpenedCarries(codec, secret, token);
    }
    forall encoded | Carries(codec, secret, token, encoded)
      ensures Open(codec, secret, token) == codec.decode(encoded)
    {
      CarriedOpens(codec, secret, token, encoded);
    }
  }

  lemma SplitOfThree(a: string, b: string, c: string)
    requires DOT !in a && DOT !in b && DOT !in c
    ensures Split(a + [DOT] + b + [DOT] + c, DOT) == [a, b, c]
  {
    SplitOfJoin([a, b, c], DOT);
    JoinOfThree(a, b, c, [DOT]);
  }

  /**
   Pruning is invisible: at any later reading of the clock, the pruned and the unpruned cache give the
   same answer for every token whose entry, if any, records the token's own expiry.
   */
  lemma PruningIsInvisible(codec: Codec, secret: string, token: string, account: int, entries: Entries, tick: int,
                           now: int)
    requires tick <= now
    requires Open(codec, secret, token).Some? ==>
               var p := Open(codec, secret, token).value; p.jti in entries ==> entries[p.jti] == p.exp
    ensures Accepts(codec, secret, token, account, now, Pruned(entries, tick)) <==>
              Accepts(codec, secret, token, account, now, entries)
  {
  }

  // ----- histories of the cache -----

  /** A verification, with its expiry test and its store at one clock reading, or a janitor tick. */
  datatype CacheEvent = Checks(token: string, account: int, now: int) | Prunes(now: int)

  function AfterEvent(codec: Codec, secret: string, entries: Entries, e: CacheEvent): Entries {
    match e
    case Checks(token, account, now) => AfterVerify(codec, secret, token, account, now, entries)
    case Prunes(now) => Pruned(entries, now)
  }

  /** Any verifications and ticks in any order, with a clock that does not go back. */
  ghost predicate IsHistory(codec: Codec, secret: string, run: seq<Entries>, events: seq<CacheEvent>) {
    && |run| == |events| + 1
    && (forall i :: 0 <= i < |events| ==> run[i + 1] == AfterEvent(codec, secret, run[i], events[i]))
    && (forall i, j :: 0 <= i <= j < |events| ==> events[i].now <= events[j].now)
  }

  predicate AcceptedAt(codec: Codec, secret: string, entries: Entries, e: CacheEvent, token: string) {
    e.Checks? && e.token == token && Accepts(codec, secret, token, e.account, e.now, entries)
  }

  /** The id is recorded under the token's own expiry, or the token has expired. */
  predicate Spent(entries: Entries, p: Payload, now: int) {
    (p.jti in entries && entries[p.jti] == p.exp) || Expired(p.exp, now)
  }

  lemma EventKeepsSpent(codec: Codec, secret: string, entries: Entries, p: Payload, now: int, e: CacheEvent)
    requires Spent(entries, p, now) && now <= e.now
    ensures Spent(AfterEvent(codec, secret, entries, e), p, e.now)
  {
  }

  /** From its acceptance on, a token stays spent. */
  lemma {:induction false} StaysSpent(codec: Codec, secret: string, run: seq<Entries>, events: seq<CacheEvent>,
                                      i: nat, j: nat, token: string)
    requires IsHistory(codec, secret, run, events) && i < j <= |events|
    requires AcceptedAt(codec, secret, run[i], events[i], token)
    ensures Spent(run[j], Open(codec, secret, token).value, events[j - 1].now)
  {
    var p := Open(codec, secret, token).value;
    if j == i + 1 {
      assert run[i + 1] == run[i][p.jti := p.exp];
    } else {
      StaysSpent(codec, secret, run, events, i, j - 1, token);
      EventKeepsSpent(codec, secret, run[j - 1], p, events[j - 2].now, events[j - 1]);
      assert run[j - 1 + 1] == AfterEvent(codec, secret, run[j - 1], events[j - 1]);
    }
  }

  /** In every history a token is accepted at most once, however often and by whomever it is presented again. */
  lemma AcceptedOnce(codec: Codec, secret: string, run: seq<Entries>, events: seq<CacheEvent>, i: nat, j: nat,
                     token: string)
    requires IsHistory(codec, secret, run, events) && i < j < |events|
    requires AcceptedAt(codec, secret, run[i], events[i], token)
    ensures !AcceptedAt(codec, secret, run[j], events[j], token)
  {
    StaysSpent(codec, secret, run, events, i, j, token);
    assert events[j - 1].now <= events[j].now;
  }

  // ----- a token determines its payload -----

  lemma LastSeparator(a: string, m: string, a': string, m': string)
    requires DOT !in m && DOT !in m' && a + [DOT] + m == a' + [DOT] + m'
    ensures a == a'
  {
    var s := a + [DOT] + m;
    assert forall k :: |a| < k < |s| ==> s[k] == m[k - |a| - 1] && s[k] != DOT;
    assert forall k :: |a'| < k < |s| ==> s[k] == m'[k - |a'| - 1] && s[k] != DOT;
    assert s[|a|] == DOT && s[|a'|] == DOT;
    assert a == s[..|a|] && a' == s[..|a'|];
  }

  lemma SignedIsInjective(codec: Codec, secret: string, encoded: string, encoded': string)
    requires Sound(codec) && Signed(codec, secret, encoded) == Signed(codec, secret, encoded')
    ensures encoded == encoded'
  {
    LastSeparator(SigningInput(encoded), codec.mac(secret, SigningInput(encoded)),
                  SigningInput(encoded'), codec.mac(secret, SigningInput(encoded')));
    assert SigningInput(encoded)[|HEADER| + 1..] == encoded && SigningInput(encoded')[|HEADER| + 1..] == encoded';
  }

  /** A token of an issued payload is no forgery. */
  lemma IssuedIsUnforged(codec: Codec, secret: string, issued: set<Payload>, p: Payload)
    requires Sound(codec) && p in issued
    ensures Unforged(codec, secret, issued, Signed(codec, secret, codec.encode(p)))
  {
    forall encoded | Signed(codec, secret, codec.encode(p)) == Signed(codec, secret, encoded)
      ensures exists q :: q in issued && encoded == codec.encode(q)
    {
      SignedIsInjective(codec, secret, codec.encode(p), encoded);
    }
  }
}
