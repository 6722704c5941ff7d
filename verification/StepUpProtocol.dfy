/**
 The step-up protocol as a state machine: codes are minted, any number of verify requests race on
 them, winners receive tokens, and credential mutations present tokens at the gate while a janitor
 prunes the cache.  One step is one SQL statement, one hash comparison or one cache operation, so
 every interleaving of requests is a run.
 */
module StepUpProtocol {
  import opened Wrappers
  import opened EmailCodes
  import opened StepUpToken
  import Counting

  type ReqId = int
  type GateId = int

  const TOKEN_TTL: int := 300 * SECOND

  function Unix(t: Time): int {
    t / SECOND
  }

  /**
   The hash comparison, the token's codec and secret, a bound on how long a mint's cooldown test trails its
   transaction start, and one on how long a gate's store trails its expiry test.
   */
  datatype Setting = Setting(
    opens: (string, string) -> bool, codec: Codec, secret: string, maxLag: nat, maxDelay: nat)

  /** Where a StepUpVerify request stands; `last` says its claim itself consumed the code. */
  datatype Pc =
    | Start
    | Loaded(code: CodeId)
    | Claimed(code: CodeId, hash: string, last: bool)
    | Matched(code: CodeId, last: bool)
    | Winner(code: CodeId)
    | Issued(code: CodeId)
    | Stopped

  /** `claim` is the code an attempt of which the request holds; `compared` that it ran the real comparison. */
  datatype Request = Request(account: AccountId, guess: string, pc: Pc, claim: Option<CodeId>, compared: bool)

  datatype Token = Token(account: AccountId, exp: int, code: CodeId, req: ReqId)

  /** Where a gated mutation stands: past the stateless checks, admitted at a time, or denied. */
  datatype GatePc = Checked(jti: string, exp: int) | Admitted(jti: string, exp: int, at: Time) | Denied

  /** `since` is when the stateless checks ran. */
  datatype Gate = Gate(account: AccountId, epoch: nat, since: Time, pc: GatePc)

  /** `epoch` counts restarts; a restart empties the process-local cache. */
  datatype State = State(
    clock: Time, codes: Table, requests: map<ReqId, Request>, tokens: map<string, Token>,
    cache: Entries, epoch: nat, gates: map<GateId, Gate>)

  datatype Step =
    | Tick(to: Time)
    | Mint(id: CodeId, account: AccountId, purpose: string, hash: string, expiresAt: Time, start: Time)
    | Arrive(r: ReqId, account: AccountId, guess: string)
    | Load(r: ReqId, found: Option<CodeId>)
    | Claim(r: ReqId)
    | Compare(r: ReqId)
    | Settle(r: ReqId)
    | Issue(r: ReqId, jti: string)
    | Stop(r: ReqId)
    | Present(g: GateId, account: AccountId, token: string)
    | Store(g: GateId)
    | Prune(tick: Time, keys: set<string>)
    | Restart

  function PayloadOf(s: State, jti: string): Payload
    requires jti in s.tokens
  {
    Payload(s.tokens[jti].account, PURPOSE, jti, s.tokens[jti].exp)
  }

  function IssuedPayloads(s: State): set<Payload> {
    set j | j in s.tokens :: PayloadOf(s, j)
  }

  /** The stateless checks of VerifyStepUpToken on the string that a client presents. */
  function Outcome(setting: Setting, account: AccountId, token: string, now: Time): GatePc {
    var payload := Open(setting.codec, setting.secret, token);
    if payload.Some? && Admissible(payload.value, account, Unix(now))
    then Checked(payload.value.jti, payload.value.exp)
    else Denied
  }

  /**
   `Stop` is a request that ends without success, for any reason at any point.  `Present` brings any string at
   all but a forgery: one that carries a MAC over something the server never signed.
   */
  ghost predicate Enabled(setting: Setting, s: State, step: Step) {
    match step
    case Tick(to) => s.clock <= to
    case Mint(id, account, purpose, _, _, start) =>
      && id !in s.codes && s.clock - setting.maxLag <= start <= s.clock
      && !HasRecent(s.codes, account, purpose, s.clock, COOLDOWN)
    case Arrive(r, _, guess) => r !in s.requests && guess != ""
    case Load(r, found) =>
      && r in s.requests && s.requests[r].pc.Start?
      && (found.None? ==>
            forall id :: id in s.codes ==> !IsActive(s.codes, id, s.requests[r].account, STEP_UP_PURPOSE, s.clock))
      && (found.Some? ==> IsNewestActive(s.codes, found.value, s.requests[r].account, STEP_UP_PURPOSE, s.clock))
    case Claim(r) => r in s.requests && s.requests[r].pc.Loaded?
    case Compare(r) => r in s.requests && s.requests[r].pc.Claimed?
    case Settle(r) => r in s.requests && s.requests[r].pc.Matched?
    case Issue(r, jti) => r in s.requests && s.requests[r].pc.Winner? && jti !in s.tokens && setting.secret != ""
    case Stop(r) => r in s.requests && !s.requests[r].pc.Issued?
    case Present(g, _, token) => g !in s.gates && Unforged(setting.codec, setting.secret, IssuedPayloads(s), token)
    case Store(g) =>
      && g in s.gates && s.gates[g].pc.Checked? && s.gates[g].epoch == s.epoch
      && s.clock <= s.gates[g].since + setting.maxDelay
    case Prune(tick, keys) =>
      tick <= s.clock && forall jti :: jti in keys ==> jti in s.cache && Expired(s.cache[jti], Unix(tick))
    case Restart => true
  }

  function MoveTo(s: State, r: ReqId, pc: Pc): State
    requires r in s.requests
  {
    s.(requests := s.requests[r := s.requests[r].(pc := pc)])
  }

  function Apply(setting: Setting, s: State, step: Step): State
    requires Enabled(setting, s, step)
  {
    match step
    case Tick(to) => s.(clock := to)
    case Mint(id, account, purpose, hash, expiresAt, start) =>
      s.(codes := s.codes[id := NewCode(account, hash, purpose, expiresAt, start)])
    case Arrive(r, account, guess) => s.(requests := s.requests[r := Request(account, guess, Start, None, false)])
    case Load(r, found) => MoveTo(s, r, if found.Some? then Loaded(found.value) else Stopped)
    case Claim(r) =>
      var c := s.requests[r].pc.code;
      if !Claimable(s.codes, c, MAX_ATTEMPTS) then MoveTo(s, r, Stopped)
      else
        var row := ClaimedRow(s.codes[c], MAX_ATTEMPTS, s.clock);
        s.(codes := AfterClaim(s.codes, c, MAX_ATTEMPTS, s.clock),
           requests := s.requests[r := s.requests[r].(pc := Claimed(c, row.hash, row.consumedAt.Some?),
                                                      claim := Some(c))])
    case Compare(r) =>
      var q := s.requests[r];
      var pc := if setting.opens(q.pc.hash, q.guess) then Matched(q.pc.code, q.pc.last) else Stopped;
      s.(requests := s.requests[r := q.(pc := pc, compared := true)])
    case Settle(r) =>
      var pc := s.requests[r].pc;
      if pc.last then MoveTo(s, r, Winner(pc.code))
      else if Consumable(s.codes, pc.code)
      then MoveTo(s, r, Winner(pc.code)).(codes := AfterConsume(s.codes, pc.code, s.clock))
      else MoveTo(s, r, Stopped)
    case Issue(r, jti) =>
      var q := s.requests[r];
      MoveTo(s, r, Issued(q.pc.code)).(
        tokens := s.tokens[jti := Token(q.account, Unix(s.clock + TOKEN_TTL), q.pc.code, r)])
    case Stop(r) => MoveTo(s, r, Stopped)
    case Present(g, account, token) =>
      s.(gates := s.gates[g := Gate(account, s.epoch, s.clock, Outcome(setting, account, token, s.clock))])
    case Store(g) =>
      var pc := s.gates[g].pc;
      if pc.jti in s.cache then s.(gates := s.gates[g := s.gates[g].(pc := Denied)])
      else s.(gates := s.gates[g := s.gates[g].(pc := Admitted(pc.jti, pc.exp, s.clock))],
              cache := s.cache[pc.jti := pc.exp])
    case Prune(_, keys) => s.(cache := s.cache - keys)
    case Restart => s.(cache := map[], epoch := s.epoch + 1)
  }

  // ----- the invariant -----

  predicate HasCode(pc: Pc) {
    !pc.Start? && !pc.Stopped?
  }

  /** The request is, or can still only become, the one that consumed its code. */
  predicate Wins(q: Request) {
    q.pc.Winner? || q.pc.Issued? || ((q.pc.Claimed? || q.pc.Matched?) && q.pc.last)
  }

  function Claimers(s: State, c: CodeId): set<ReqId> {
    set r | r in s.requests && s.requests[r].claim == Some(c)
  }

  ghost predicate RequestOk(s: State, q: Request) {
    && (HasCode(q.pc) ==>
          && q.pc.code in s.codes && s.codes[q.pc.code].account == q.account
          && s.codes[q.pc.code].purpose == STEP_UP_PURPOSE)
    && (HasCode(q.pc) && !q.pc.Loaded? ==> q.claim == Some(q.pc.code))
    && (q.pc.Start? || q.pc.Loaded? ==> q.claim.None?)
    && (q.compared ==> q.claim.Some?)
    && (q.claim.Some? ==> q.claim.value in s.codes)
    && (Wins(q) ==> s.codes[q.pc.code].consumedAt.Some?)
  }

  ghost predicate RequestsInv(s: State) {
    RowsOk(s.codes) && forall r :: r in s.requests ==> RequestOk(s, s.requests[r])
  }

  ghost predicate ClaimsInv(s: State) {
    forall c :: c in s.codes ==> |Claimers(s, c)| <= s.codes[c].attempts
  }

  ghost predicate OneWinner(s: State) {
    forall r, q :: (&& r in s.requests && q in s.requests && Wins(s.requests[r]) && Wins(s.requests[q])
                    && s.requests[r].pc.code == s.requests[q].pc.code) ==> r == q
  }

  ghost predicate TokensInv(s: State) {
    && (forall j :: j in s.tokens ==>
          && s.tokens[j].req in s.requests && s.requests[s.tokens[j].req].pc == Issued(s.tokens[j].code)
          && s.requests[s.tokens[j].req].account == s.tokens[j].account)
    && (forall j, k :: j in s.tokens && k in s.tokens && s.tokens[j].req == s.tokens[k].req ==> j == k)
  }

  /** Admitted, and stored before the token expired. */
  predicate InTime(s: State, g: GateId) {
    g in s.gates && s.gates[g].pc.Admitted? && !Expired(s.gates[g].pc.exp, Unix(s.gates[g].pc.at))
  }

  /** A token that passed the checks was issued, to this account and with this expiry. */
  predicate GateOk(s: State, gate: Gate) {
    && gate.epoch <= s.epoch
    && (!gate.pc.Denied? ==>
          && gate.pc.jti in s.tokens && s.tokens[gate.pc.jti].account == gate.account
          && s.tokens[gate.pc.jti].exp == gate.pc.exp)
  }

  ghost predicate CacheInv(s: State) {
    && (forall j :: j in s.cache ==> j in s.tokens && s.cache[j] == s.tokens[j].exp)
    && (forall g :: g in s.gates ==> GateOk(s, s.gates[g]))
  }

  ghost predicate GatesInv(s: State) {
    && CacheInv(s)
    && (forall g :: InTime(s, g) && s.gates[g].epoch == s.epoch ==>
          s.gates[g].pc.jti in s.cache || Expired(s.gates[g].pc.exp, Unix(s.clock)))
    && (forall g, h :: (&& InTime(s, g) && InTime(s, h) && s.gates[g].epoch == s.gates[h].epoch
                        && s.gates[g].pc.jti == s.gates[h].pc.jti) ==> g == h)
  }

  /** The checks passed before the expiry, and the store came within the bound after them. */
  predicate InBounds(setting: Setting, gate: Gate, clock: Time) {
    && gate.since <= clock
    && (!gate.pc.Denied? ==> !Expired(gate.pc.exp, Unix(gate.since)))
    && (gate.pc.Admitted? ==> gate.since <= gate.pc.at <= gate.since + setting.maxDelay)
  }

  ghost predicate DelayInv(setting: Setting, s: State) {
    forall g :: g in s.gates ==> InBounds(setting, s.gates[g], s.clock)
  }

  ghost predicate Inv(setting: Setting, s: State) {
    && RequestsInv(s) && ClaimsInv(s) && OneWinner(s) && TokensInv(s) && GatesInv(s) && DelayInv(setting, s)
    && Sound(setting.codec) && Spaced(s.codes, COOLDOWN - setting.maxLag)
  }

  /** Any table of well-formed, well-spaced codes; no request, token or gate yet. */
  ghost predicate Init(setting: Setting, s: State) {
    && Sound(setting.codec) && RowsOk(s.codes) && Spaced(s.codes, COOLDOWN - setting.maxLag)
    && s.requests == map[] && s.tokens == map[] && s.cache == map[] && s.gates == map[]
  }

  // ----- every step keeps the invariant -----

  lemma StepKeepsRows(setting: Setting, s: State, step: Step)
    requires RowsOk(s.codes) && Enabled(setting, s, step)
    ensures RowsOk(Apply(setting, s, step).codes) && RowsEvolve(s.codes, Apply(setting, s, step).codes)
  {
    match step
    case Claim(r) => ClaimKeepsRows(s.codes, s.requests[r].pc.code, s.clock);
    case Settle(r) => ConsumeKeepsRows(s.codes, s.requests[r].pc.code, s.clock);
    case _ =>
  }

  /** The step is one of this request. */
  predicate ActsOn(step: Step, r: ReqId) {
    match step
    case Arrive(q, _, _) => q == r
    case Load(q, _) => q == r
    case Claim(q) => q == r
    case Compare(q) => q == r
    case Settle(q) => q == r
    case Issue(q, _) => q == r
    case Stop(q) => q == r
    case _ => false
  }

  lemma OthersUntouched(setting: Setting, s: State, step: Step, r: ReqId)
    requires Enabled(setting, s, step) && !ActsOn(step, r)
    ensures var s' := Apply(setting, s, step);
            && (r in s'.requests <==> r in s.requests)
            && (r in s.requests ==> s'.requests[r] == s.requests[r])
  {
    match step
    case Claim(_) =>
    case Settle(_) =>
    case _ =>
  }

  lemma IssuedStays(setting: Setting, s: State, step: Step, r: ReqId)
    requires Enabled(setting, s, step) && r in s.requests && s.requests[r].pc.Issued?
    ensures var s' := Apply(setting, s, step); r in s'.requests && s'.requests[r] == s.requests[r]
  {
    assert !ActsOn(step, r);
    OthersUntouched(setting, s, step, r);
  }

  lemma RequestFrame(s: State, s': State, q: Request)
    requires RequestOk(s, q) && RowsEvolve(s.codes, s'.codes)
    ensures RequestOk(s', q)
  {
    if HasCode(q.pc) {
      assert RowEvolves(s.codes[q.pc.code], s'.codes[q.pc.code]);
    }
    if q.claim.Some? {
      var c: CodeId := q.claim.value;
      assert c in s.codes;
    }
  }

  lemma StepKeepsRequests(setting: Setting, s: State, step: Step)
    requires RequestsInv(s) && Enabled(setting, s, step)
    ensures RequestsInv(Apply(setting, s, step))
  {
    var s' := Apply(setting, s, step);
    StepKeepsRows(setting, s, step);
    forall r | r in s'.requests ensures RequestOk(s', s'.requests[r]) {
      if ActsOn(step, r) {
        ActorStaysOk(setting, s, step, r);
      } else {
        OthersUntouched(setting, s, step, r);
        RequestFrame(s, s', s.requests[r]);
      }
    }
  }

  lemma ActorStaysOk(setting: Setting, s: State, step: Step, r: ReqId)
    requires RequestsInv(s) && Enabled(setting, s, step) && ActsOn(step, r)
    ensures var s' := Apply(setting, s, step); r in s'.requests && RequestOk(s', s'.requests[r])
  {
    if step.Claim? || step.Settle? {
      ConsumerStaysOk(setting, s, step, r);
    } else {
      assert r in s.requests ==> RequestOk(s, s.requests[r]);
    }
  }

  lemma ConsumerStaysOk(setting: Setting, s: State, step: Step, r: ReqId)
    requires RequestsInv(s) && Enabled(setting, s, step) && (step == Claim(r) || step == Settle(r))
    ensures var s' := Apply(setting, s, step); r in s'.requests && RequestOk(s', s'.requests[r])
  {
    assert RequestOk(s, s.requests[r]);
  }

  /** A held claim is an old one, or the one just granted on a claimable code. */
  lemma NewClaim(setting: Setting, s: State, step: Step, r: ReqId, c: CodeId)
    requires RequestsInv(s) && Enabled(setting, s, step)
    requires r in Claimers(Apply(setting, s, step), c)
    ensures || r in Claimers(s, c)
            || (step == Claim(r) && s.requests[r].pc.code == c && Claimable(s.codes, c, MAX_ATTEMPTS))
  {
    if !ActsOn(step, r) {
      OthersUntouched(setting, s, step, r);
      return;
    }
    match step
    case Claim(_) =>
    case Settle(_) =>
    case _ =>
  }

  /** The step grants an attempt on the code. */
  predicate Grants(s: State, step: Step, c: CodeId) {
    && step.Claim? && step.r in s.requests && s.requests[step.r].pc.Loaded? && s.requests[step.r].pc.code == c
    && Claimable(s.codes, c, MAX_ATTEMPTS)
  }

  lemma ClaimersGrow(setting: Setting, s: State, step: Step, c: CodeId)
    requires RequestsInv(s) && Enabled(setting, s, step)
    ensures Claimers(Apply(setting, s, step), c) <= Claimers(s, c) + (if Grants(s, step, c) then {step.r} else {})
  {
    forall r | r in Claimers(Apply(setting, s, step), c)
      ensures r in Claimers(s, c) || (Grants(s, step, c) && r == step.r)
    {
      NewClaim(setting, s, step, r, c);
    }
  }

  /** A granted attempt is counted in the row, and a new row starts without claimers. */
  lemma AttemptsGrow(setting: Setting, s: State, step: Step, c: CodeId)
    requires RequestsInv(s) && Enabled(setting, s, step) && c in Apply(setting, s, step).codes
    ensures var s' := Apply(setting, s, step);
            if c in s.codes then s'.codes[c].attempts >= s.codes[c].attempts + (if Grants(s, step, c) then 1 else 0)
            else Claimers(s, c) == {} && !Grants(s, step, c)
  {
    StepKeepsRows(setting, s, step);
    if c in s.codes {
      assert RowEvolves(s.codes[c], Apply(setting, s, step).codes[c]);
    } else {
      forall r | r in s.requests ensures s.requests[r].claim != Some(c) {
        assert RequestOk(s, s.requests[r]);
      }
    }
  }

  lemma StepKeepsClaims(setting: Setting, s: State, step: Step)
    requires RequestsInv(s) && ClaimsInv(s) && Enabled(setting, s, step)
    ensures ClaimsInv(Apply(setting, s, step))
  {
    var s' := Apply(setting, s, step);
    forall c | c in s'.codes ensures |Claimers(s', c)| <= s'.codes[c].attempts {
      ClaimersGrow(setting, s, step, c);
      AttemptsGrow(setting, s, step, c);
      Counting.SubsetIsSmaller(Claimers(s', c), Claimers(s, c) + (if Grants(s, step, c) then {step.r} else {}));
    }
  }

  /** A request that newly wins found its code unconsumed. */
  lemma NewWinner(setting: Setting, s: State, step: Step, r: ReqId)
    requires RequestsInv(s) && Enabled(setting, s, step)
    requires r in Apply(setting, s, step).requests && Wins(Apply(setting, s, step).requests[r])
    ensures var c := Apply(setting, s, step).requests[r].pc.code;
            || (r in s.requests && Wins(s.requests[r]) && s.requests[r].pc.code == c)
            || ((step.Claim? || step.Settle?) && r == step.r && Consumable(s.codes, c))
  {
    if !ActsOn(step, r) {
      OthersUntouched(setting, s, step, r);
      return;
    }
    assert r in s.requests ==> RequestOk(s, s.requests[r]);
    match step
    case Claim(_) =>
    case Settle(_) =>
    case _ =>
  }

  lemma StepKeepsOneWinner(setting: Setting, s: State, step: Step)
    requires RequestsInv(s) && OneWinner(s) && Enabled(setting, s, step)
    ensures OneWinner(Apply(setting, s, step))
  {
    var s' := Apply(setting, s, step);
    forall r, q | && r in s'.requests && q in s'.requests && Wins(s'.requests[r]) && Wins(s'.requests[q])
                  && s'.requests[r].pc.code == s'.requests[q].pc.code
      ensures r == q
    {
      NewWinner(setting, s, step, r);
      NewWinner(setting, s, step, q);
      assert r in s.requests ==> RequestOk(s, s.requests[r]);
      assert q in s.requests ==> RequestOk(s, s.requests[q]);
    }
  }

  lemma StepKeepsTokens(setting: Setting, s: State, step: Step)
    requires TokensInv(s) && Enabled(setting, s, step)
    ensures TokensInv(Apply(setting, s, step))
  {
    forall j | j in s.tokens ensures
        var s' := Apply(setting, s, step);
        s.tokens[j].req in s'.requests && s'.requests[s.tokens[j].req] == s.requests[s.tokens[j].req]
    {
      IssuedStays(setting, s, step, s.tokens[j].req);
    }
    if step.Issue? {
      assert forall j :: j in s.tokens ==> s.tokens[j].req != step.r;
    } else {
      TokensUnlessIssued(setting, s, step);
    }
  }

  lemma TokensUnlessIssued(setting: Setting, s: State, step: Step)
    requires Enabled(setting, s, step) && !step.Issue?
    ensures Apply(setting, s, step).tokens == s.tokens
  {
  }

  /** Every token that passes the stateless checks is one the server issued. */
  lemma PresentedWasIssued(setting: Setting, s: State, account: AccountId, token: string)
    requires Sound(setting.codec) && Unforged(setting.codec, setting.secret, IssuedPayloads(s), token)
    ensures var pc := Outcome(setting, account, token, s.clock);
            && GateOk(s, Gate(account, s.epoch, s.clock, pc))
            && InBounds(setting, Gate(account, s.epoch, s.clock, pc), s.clock)
  {
    var payload := Open(setting.codec, setting.secret, token);
    if payload.Some? {
      AcceptedWasIssued(setting.codec, setting.secret, IssuedPayloads(s), token);
      var j :| j in s.tokens && payload.value == PayloadOf(s, j);
    }
  }

  predicate ActsOnGate(step: Step, g: GateId) {
    match step
    case Present(h, _, _) => h == g
    case Store(h) => h == g
    case _ => false
  }

  lemma OtherGatesUntouched(setting: Setting, s: State, step: Step, g: GateId)
    requires Enabled(setting, s, step) && !ActsOnGate(step, g)
    ensures var s' := Apply(setting, s, step);
            && (g in s'.gates <==> g in s.gates)
            && (g in s.gates ==> s'.gates[g] == s.gates[g])
  {
    match step
    case Present(_, _, _) =>
    case Store(_) =>
    case _ =>
  }

  /** Clock, tokens and epoch only grow. */
  lemma GateFrame(setting: Setting, s: State, step: Step, gate: Gate)
    requires Enabled(setting, s, step) && GateOk(s, gate) && InBounds(setting, gate, s.clock)
    ensures GateOk(Apply(setting, s, step), gate) && InBounds(setting, gate, Apply(setting, s, step).clock)
  {
    match step
    case Issue(_, _) =>
    case Tick(_) =>
    case _ =>
  }

  lemma StepKeepsEachGate(setting: Setting, s: State, step: Step, g: GateId)
    requires CacheInv(s) && DelayInv(setting, s) && Sound(setting.codec) && Enabled(setting, s, step)
    requires g in Apply(setting, s, step).gates
    ensures var s' := Apply(setting, s, step); GateOk(s', s'.gates[g]) && InBounds(setting, s'.gates[g], s'.clock)
  {
    if ActsOnGate(step, g) {
      match step
      case Present(_, account, token) => PresentedWasIssued(setting, s, account, token);
      case Store(_) => assert GateOk(s, s.gates[g]) && InBounds(setting, s.gates[g], s.clock);
    } else {
      OtherGatesUntouched(setting, s, step, g);
      GateFrame(setting, s, step, s.gates[g]);
    }
  }

  lemma StepKeepsCache(setting: Setting, s: State, step: Step)
    requires CacheInv(s) && DelayInv(setting, s) && Sound(setting.codec) && Enabled(setting, s, step)
    ensures CacheInv(Apply(setting, s, step)) && DelayInv(setting, Apply(setting, s, step))
  {
    var s' := Apply(setting, s, step);
    forall g | g in s'.gates ensures GateOk(s', s'.gates[g]) && InBounds(setting, s'.gates[g], s'.clock) {
      StepKeepsEachGate(setting, s, step, g);
    }
    forall j | j in s'.cache ensures j in s'.tokens && s'.cache[j] == s'.tokens[j].exp {
      match step
      case Store(g) => assert GateOk(s, s.gates[g]);
      case Issue(_, _) =>
      case _ =>
    }
  }

  /** An admission of the new state is an old one, or the one just stored, whose id was not cached. */
  lemma NewAdmission(setting: Setting, s: State, step: Step, g: GateId)
    requires Enabled(setting, s, step) && InTime(Apply(setting, s, step), g)
    ensures var gate := Apply(setting, s, step).gates[g];
            || (InTime(s, g) && s.gates[g] == gate)
            || (&& step == Store(g) && gate.epoch == s.epoch && gate.pc.jti !in s.cache
                && !Expired(gate.pc.exp, Unix(s.clock)))
  {
    if !ActsOnGate(step, g) {
      OtherGatesUntouched(setting, s, step, g);
    }
  }

  /** An id leaves the cache only by a restart or once it has expired. */
  lemma CachedStays(setting: Setting, s: State, step: Step, jti: string)
    requires CacheInv(s) && Enabled(setting, s, step)
    requires jti in s.cache || (jti in s.tokens && Expired(s.tokens[jti].exp, Unix(s.clock)))
    ensures var s' := Apply(setting, s, step);
            step.Restart? || jti in s'.cache || (jti in s'.tokens && Expired(s'.tokens[jti].exp, Unix(s'.clock)))
  {
    match step
    case Tick(_) =>
    case Prune(_, _) =>
    case Issue(_, _) =>
    case Store(_) =>
    case _ =>
  }

  lemma StepKeepsGates(setting: Setting, s: State, step: Step)
    requires GatesInv(s) && DelayInv(setting, s) && Sound(setting.codec) && Enabled(setting, s, step)
    ensures GatesInv(Apply(setting, s, step)) && DelayInv(setting, Apply(setting, s, step))
  {
    var s' := Apply(setting, s, step);
    StepKeepsCache(setting, s, step);
    forall g | InTime(s', g) && s'.gates[g].epoch == s'.epoch
      ensures s'.gates[g].pc.jti in s'.cache || Expired(s'.gates[g].pc.exp, Unix(s'.clock))
    {
      NewAdmission(setting, s, step, g);
      assert GateOk(s', s'.gates[g]);
      if InTime(s, g) && s.gates[g] == s'.gates[g] {
        assert GateOk(s, s.gates[g]);
        EpochsGrow(setting, s, step);
        CachedStays(setting, s, step, s.gates[g].pc.jti);
      }
    }
    forall g, h | && InTime(s', g) && InTime(s', h) && s'.gates[g].epoch == s'.gates[h].epoch
                  && s'.gates[g].pc.jti == s'.gates[h].pc.jti
      ensures g == h
    {
      NewAdmission(setting, s, step, g);
      NewAdmission(setting, s, step, h);
      assert g in s.gates ==> GateOk(s, s.gates[g]);
      assert h in s.gates ==> GateOk(s, s.gates[h]);
    }
  }

  lemma EpochsGrow(setting: Setting, s: State, step: Step)
    requires Enabled(setting, s, step)
    ensures Apply(setting, s, step).epoch == if step.Restart? then s.epoch + 1 else s.epoch
  {
  }

  lemma StepKeepsSpacing(setting: Setting, s: State, step: Step)
    requires RowsOk(s.codes) && Spaced(s.codes, COOLDOWN - setting.maxLag) && Enabled(setting, s, step)
    ensures Spaced(Apply(setting, s, step).codes, COOLDOWN - setting.maxLag)
  {
    if step.Mint? {
      MintKeepsSpacing(s.codes, step.id, Apply(setting, s, step).codes[step.id], s.clock, setting.maxLag);
    }
  }

  lemma StepKeepsInv(setting: Setting, s: State, step: Step)
    requires Inv(setting, s) && Enabled(setting, s, step)
    ensures Inv(setting, Apply(setting, s, step))
  {
    StepKeepsRequests(setting, s, step);
    StepKeepsClaims(setting, s, step);
    StepKeepsOneWinner(setting, s, step);
    StepKeepsTokens(setting, s, step);
    StepKeepsGates(setting, s, step);
    StepKeepsSpacing(setting, s, step);
  }

  // ----- runs -----

  ghost predicate IsRun(setting: Setting, run: seq<State>, steps: seq<Step>) {
    && |run| == |steps| + 1
    && forall i :: 0 <= i < |steps| ==>
                     Enabled(setting, run[i], steps[i]) && run[i + 1] == Apply(setting, run[i], steps[i])
  }

  lemma {:induction false} InvAlong(setting: Setting, run: seq<State>, steps: seq<Step>, i: nat)
    requires IsRun(setting, run, steps) && Inv(setting, run[0]) && i < |run|
    ensures Inv(setting, run[i])
  {
    if i > 0 {
      InvAlong(setting, run, steps, i - 1);
      StepKeepsInv(setting, run[i - 1], steps[i - 1]);
    }
  }

  lemma InitHoldsInv(setting: Setting, s: State)
    requires Init(setting, s)
    ensures Inv(setting, s)
  {
    forall c | c in s.codes ensures |Claimers(s, c)| <= s.codes[c].attempts {
      assert Claimers(s, c) == {};
    }
  }

  function Comparers(s: State, c: CodeId): set<ReqId> {
    set r | r in s.requests && s.requests[r].compared && s.requests[r].claim == Some(c)
  }

  function Successes(s: State, c: CodeId): set<ReqId> {
    set r | r in s.requests && s.requests[r].pc == Issued(c)
  }

  /**
   In every interleaving of any number of requests: at most five real comparisons against a code, at most
   one request succeeds on it and then the code is consumed, and an exhausted code is consumed.
   */
  lemma CodeIsBoundedAndSingleUse(setting: Setting, run: seq<State>, steps: seq<Step>, i: nat, c: CodeId)
    requires IsRun(setting, run, steps) && Init(setting, run[0]) && i < |run|
    requires c in run[i].codes
    ensures |Comparers(run[i], c)| <= 5
    ensures |Successes(run[i], c)| <= 1
    ensures Successes(run[i], c) != {} ==> run[i].codes[c].consumedAt.Some?
    ensures run[i].codes[c].attempts <= 5 && (run[i].codes[c].attempts == 5 ==> run[i].codes[c].consumedAt.Some?)
  {
    InitHoldsInv(setting, run[0]);
    InvAlong(setting, run, steps, i);
    var s := run[i];
    Counting.SubsetIsSmaller(Comparers(s, c), Claimers(s, c));
    var winners := Successes(s, c);
    if winners != {} {
      var r := Counting.Element(winners);
      assert RequestOk(s, s.requests[r]);
      forall q | q in winners ensures q == r {
        assert Wins(s.requests[q]) && Wins(s.requests[r]);
      }
      assert winners == {r};
    }
  }

  /** Along every run a code row only gains attempts, and once consumed it never changes again. */
  lemma {:induction false} CodesOnlyEvolve(setting: Setting, run: seq<State>, steps: seq<Step>, i: nat, j: nat)
    requires IsRun(setting, run, steps) && Inv(setting, run[0]) && i <= j < |run|
    ensures RowsEvolve(run[i].codes, run[j].codes)
    ensures forall c :: c in run[i].codes ==> c in run[j].codes
    ensures forall c :: c in run[i].codes ==>
              var before, after := run[i].codes[c], run[j].codes[c];
              && after.account == before.account && after.hash == before.hash && after.purpose == before.purpose
              && after.expiresAt == before.expiresAt && after.createdAt == before.createdAt
              && before.attempts <= after.attempts && (before.consumedAt.Some? ==> after == before)
    decreases j
  {
    if i < j {
      CodesOnlyEvolve(setting, run, steps, i, j - 1);
      InvAlong(setting, run, steps, j - 1);
      StepKeepsRows(setting, run[j - 1], steps[j - 1]);
      forall c | c in run[i].codes ensures c in run[j].codes && RowEvolves(run[i].codes[c], run[j].codes[c]) {
        assert RowEvolves(run[i].codes[c], run[j - 1].codes[c]);
        assert RowEvolves(run[j - 1].codes[c], run[j].codes[c]);
      }
    }
  }

  // ----- what a success goes back to -----

  /** The claimed hash is the code's, and whoever is past the comparison holds a guess that opens it. */
  ghost predicate GuessOk(setting: Setting, s: State, q: Request) {
    && q.guess != ""
    && (HasCode(q.pc) && !q.pc.Loaded? ==>
          && q.pc.code in s.codes
          && (q.pc.Claimed? ==> q.pc.hash == s.codes[q.pc.code].hash)
          && (!q.pc.Claimed? ==> q.compared && setting.opens(s.codes[q.pc.code].hash, q.guess)))
  }

  ghost predicate GuessInv(setting: Setting, s: State) {
    && (forall r :: r in s.requests ==> GuessOk(setting, s, s.requests[r]))
    && (setting.secret == "" ==> s.tokens == map[])
  }

  lemma StepKeepsGuesses(setting: Setting, s: State, step: Step)
    requires RequestsInv(s) && GuessInv(setting, s) && Enabled(setting, s, step)
    ensures GuessInv(setting, Apply(setting, s, step))
  {
    var s' := Apply(setting, s, step);
    StepKeepsRows(setting, s, step);
    if !step.Issue? {
      TokensUnlessIssued(setting, s, step);
    }
    forall r | r in s'.requests ensures GuessOk(setting, s', s'.requests[r]) {
      if ActsOn(step, r) {
        ActorKeepsGuess(setting, s, step, r);
      } else {
        OthersUntouched(setting, s, step, r);
        var q := s.requests[r];
        assert GuessOk(setting, s, q);
        if HasCode(q.pc) && !q.pc.Loaded? {
          assert RowEvolves(s.codes[q.pc.code], s'.codes[q.pc.code]);
        }
      }
    }
  }

  lemma ActorKeepsGuess(setting: Setting, s: State, step: Step, r: ReqId)
    requires RequestsInv(s) && GuessInv(setting, s) && Enabled(setting, s, step) && ActsOn(step, r)
    ensures var s' := Apply(setting, s, step); r in s'.requests && GuessOk(setting, s', s'.requests[r])
  {
    assert r in s.requests ==> RequestOk(s, s.requests[r]) && GuessOk(setting, s, s.requests[r]);
  }

  lemma {:induction false} GuessesAlong(setting: Setting, run: seq<State>, steps: seq<Step>, i: nat)
    requires IsRun(setting, run, steps) && Init(setting, run[0]) && i < |run|
    ensures Inv(setting, run[i]) && GuessInv(setting, run[i])
  {
    InitHoldsInv(setting, run[0]);
    InvAlong(setting, run, steps, i);
    if i > 0 {
      GuessesAlong(setting, run, steps, i - 1);
      StepKeepsGuesses(setting, run[i - 1], steps[i - 1]);
    }
  }

  /** At step `k` the request was given the code: its account's, for a credential change, unconsumed and unexpired. */
  ghost predicate TookAt(run: seq<State>, steps: seq<Step>, k: nat, r: ReqId, c: CodeId)
    requires |run| == |steps| + 1 && k < |steps|
  {
    && steps[k] == Load(r, Some(c)) && r in run[k].requests && c in run[k].codes
    && run[k].codes[c].account == run[k].requests[r].account && run[k].codes[c].purpose == "credential_change"
    && run[k].codes[c].consumedAt.None? && run[k].codes[c].expiresAt > run[k].clock
  }

  /** The code a step leaves a request with is the one it had, or the one a Load gave it. */
  lemma CodeComesFromLoad(setting: Setting, s: State, step: Step, r: ReqId)
    requires Enabled(setting, s, step) && r in Apply(setting, s, step).requests
    requires HasCode(Apply(setting, s, step).requests[r].pc)
    ensures var c := Apply(setting, s, step).requests[r].pc.code;
            || step == Load(r, Some(c))
            || (r in s.requests && HasCode(s.requests[r].pc) && s.requests[r].pc.code == c)
  {
    if !ActsOn(step, r) {
      OthersUntouched(setting, s, step, r);
    }
  }

  lemma {:induction false} TookEarlier(setting: Setting, run: seq<State>, steps: seq<Step>, i: nat, r: ReqId)
    returns (k: nat)
    requires IsRun(setting, run, steps) && Init(setting, run[0]) && i < |run|
    requires r in run[i].requests && HasCode(run[i].requests[r].pc)
    ensures k < i && TookAt(run, steps, k, r, run[i].requests[r].pc.code)
  {
    k := i - 1;
    assert Enabled(setting, run[k], steps[k]) && run[k + 1] == Apply(setting, run[k], steps[k]);
    CodeComesFromLoad(setting, run[k], steps[k], r);
    if steps[k] != Load(r, Some(run[i].requests[r].pc.code)) {
      k := TookEarlier(setting, run, steps, i - 1, r);
    }
  }

  /** The request `r` won code `c` for the account: its guess opens the code, which it took while it was live. */
  ghost predicate Earned(setting: Setting, run: seq<State>, steps: seq<Step>, i: nat, r: ReqId, c: CodeId,
                         account: AccountId)
    requires |run| == |steps| + 1 && i < |run|
  {
    && r in run[i].requests && run[i].requests[r].account == account && run[i].requests[r].compared
    && c in run[i].codes && run[i].codes[c].account == account && run[i].codes[c].consumedAt.Some?
    && setting.opens(run[i].codes[c].hash, run[i].requests[r].guess)
    && run[i].requests[r].guess != "" && setting.secret != ""
    && exists k :: 0 <= k < i && TookAt(run, steps, k, r, c)
  }

  /** A claim is granted exactly on an unconsumed code with attempts left, counts, and consumes when it is the fifth. */
  lemma ClaimDecides(setting: Setting, s: State, r: ReqId)
    requires RequestsInv(s) && Enabled(setting, s, Claim(r))
    ensures var s', q, c := Apply(setting, s, Claim(r)), s.requests[r], s.requests[r].pc.code;
            && c in s.codes && s'.tokens == s.tokens && s'.gates == s.gates
            && if s.codes[c].consumedAt.None? && s.codes[c].attempts < 5
               then && s'.codes == s.codes[c := s.codes[c].(attempts := s.codes[c].attempts + 1,
                      consumedAt := if s.codes[c].attempts == 4 then Some(s.clock) else None)]
                    && s'.requests == s.requests[r := q.(pc := Claimed(c, s.codes[c].hash, s.codes[c].attempts == 4),
                                                         claim := Some(c))]
               else s'.codes == s.codes && s'.requests == s.requests[r := q.(pc := Stopped)]
  {
    assert RequestOk(s, s.requests[r]);
  }

  /** The comparison alone decides who goes on; then the last claimer wins outright, another by consuming the code. */
  lemma ComparisonDecides(setting: Setting, s: State, r: ReqId)
    requires RequestsInv(s) && (Enabled(setting, s, Compare(r)) || Enabled(setting, s, Settle(r)))
    ensures var q := s.requests[r];
            && (q.pc.Claimed? ==>
                  Apply(setting, s, Compare(r)) ==
                  s.(requests := s.requests[r := q.(compared := true,
                    pc := if setting.opens(q.pc.hash, q.guess) then Matched(q.pc.code, q.pc.last) else Stopped)]))
            && (q.pc.Matched? ==>
                  var s', c := Apply(setting, s, Settle(r)), q.pc.code;
                  var wins := q.pc.last || s.codes[c].consumedAt.None?;
                  && s'.requests == s.requests[r := q.(pc := if wins then Winner(c) else Stopped)]
                  && s'.tokens == s.tokens && s'.gates == s.gates
                  && s'.codes == if !q.pc.last && wins then s.codes[c := s.codes[c].(consumedAt := Some(s.clock))]
                                 else s.codes)
  {
    assert RequestOk(s, s.requests[r]);
  }

  /** A token names the winner's account and code, and expires 300 seconds after its issue. */
  lemma IssueStamps(setting: Setting, s: State, r: ReqId, jti: string)
    requires Enabled(setting, s, Issue(r, jti))
    ensures var s', q := Apply(setting, s, Issue(r, jti)), s.requests[r];
            && s'.tokens == s.tokens[jti := Token(q.account, (s.clock + 300_000_000) / 1_000_000, q.pc.code, r)]
            && s'.requests == s.requests[r := q.(pc := Issued(q.pc.code))]
            && s'.codes == s.codes && s'.cache == s.cache && s'.gates == s.gates
  {
  }

  /** In every run, every token was earned by a request of its account. */
  lemma TokensAreEarned(setting: Setting, run: seq<State>, steps: seq<Step>, i: nat, jti: string)
    requires IsRun(setting, run, steps) && Init(setting, run[0]) && i < |run| && jti in run[i].tokens
    ensures var token := run[i].tokens[jti]; Earned(setting, run, steps, i, token.req, token.code, token.account)
  {
    GuessesAlong(setting, run, steps, i);
    var s := run[i];
    var token := s.tokens[jti];
    assert RequestOk(s, s.requests[token.req]) && GuessOk(setting, s, s.requests[token.req]);
    var k := TookEarlier(setting, run, steps, i, token.req);
  }

  /** In every run, every admitted mutation presented a token that a request of the same account had earned. */
  lemma AdmissionsAreEarned(setting: Setting, run: seq<State>, steps: seq<Step>, i: nat, g: GateId)
    requires IsRun(setting, run, steps) && Init(setting, run[0]) && i < |run|
    requires g in run[i].gates && run[i].gates[g].pc.Admitted?
    ensures var s, jti := run[i], run[i].gates[g].pc.jti;
            && jti in s.tokens && s.tokens[jti].account == s.gates[g].account
            && Earned(setting, run, steps, i, s.tokens[jti].req, s.tokens[jti].code, s.gates[g].account)
  {
    GuessesAlong(setting, run, steps, i);
    assert GateOk(run[i], run[i].gates[g]);
    TokensAreEarned(setting, run, steps, i, run[i].gates[g].pc.jti);
  }

  // ----- counting -----

  function AdmissionsInTime(s: State, account: AccountId, epoch: nat): set<GateId> {
    set g | g in s.gates && InTime(s, g) && s.gates[g].account == account && s.gates[g].epoch == epoch
  }

  /** Admitted although the store came after the token's expiry. */
  function LateAdmissions(s: State, account: AccountId, epoch: nat): set<GateId> {
    set g | && g in s.gates && s.gates[g].pc.Admitted? && !InTime(s, g)
            && s.gates[g].account == account && s.gates[g].epoch == epoch
  }

  function Admissions(s: State, account: AccountId, epoch: nat): set<GateId> {
    set g | g in s.gates && s.gates[g].pc.Admitted? && s.gates[g].account == account && s.gates[g].epoch == epoch
  }

  function TokensOf(s: State, account: AccountId): set<string> {
    set j | j in s.tokens && s.tokens[j].account == account
  }

  function CodesOf(s: State, account: AccountId): set<CodeId> {
    set c | c in s.codes && s.codes[c].account == account && s.codes[c].purpose == STEP_UP_PURPOSE
  }

  lemma AdmissionsBound(setting: Setting, s: State, account: AccountId, epoch: nat)
    requires Inv(setting, s)
    ensures |AdmissionsInTime(s, account, epoch)| <= |TokensOf(s, account)|
  {
    var admitted := AdmissionsInTime(s, account, epoch);
    Counting.InjectionBound(admitted, TokensOf(s, account), map g | g in admitted :: s.gates[g].pc.jti);
  }

  lemma TokensBound(setting: Setting, s: State, account: AccountId)
    requires Inv(setting, s)
    ensures |TokensOf(s, account)| <= |CodesOf(s, account)|
  {
    var issued := TokensOf(s, account);
    var codeOf := map j | j in issued :: s.tokens[j].code;
    forall j | j in issued ensures codeOf[j] in CodesOf(s, account) {
      assert RequestOk(s, s.requests[s.tokens[j].req]);
    }
    forall j, k | j in issued && k in issued && codeOf[j] == codeOf[k] ensures j == k {
      assert Wins(s.requests[s.tokens[j].req]) && Wins(s.requests[s.tokens[k].req]);
    }
    Counting.InjectionBound(issued, CodesOf(s, account), codeOf);
  }

  /**
   Conservation, for every account and every lifetime of the process: mutations admitted never exceed tokens
   issued plus admissions stored after expiry, of which there are none when the store does not trail the expiry
   test, and tokens issued never exceed codes minted.
   */
  lemma AdmissionsNeverExceedCodes(setting: Setting, run: seq<State>, steps: seq<Step>, i: nat, account: AccountId,
                                   epoch: nat)
    requires IsRun(setting, run, steps) && Init(setting, run[0]) && i < |run|
    ensures |Admissions(run[i], account, epoch)|
            <= |TokensOf(run[i], account)| + |LateAdmissions(run[i], account, epoch)|
    ensures setting.maxDelay == 0 ==> |Admissions(run[i], account, epoch)| <= |TokensOf(run[i], account)|
    ensures |TokensOf(run[i], account)| <= |CodesOf(run[i], account)|
  {
    InitHoldsInv(setting, run[0]);
    InvAlong(setting, run, steps, i);
    AdmissionsBound(setting, run[i], account, epoch);
    TokensBound(setting, run[i], account);
    var s := run[i];
    assert Admissions(s, account, epoch) == AdmissionsInTime(s, account, epoch) + LateAdmissions(s, account, epoch);
    if setting.maxDelay == 0 {
      forall g | g in LateAdmissions(s, account, epoch) ensures false {
        AdmittedInTime(setting, s, g);
      }
      assert LateAdmissions(s, account, epoch) == {};
    }
  }

  /** Without a delay between the expiry test and the store, every admission is in time. */
  lemma AdmittedInTime(setting: Setting, s: State, g: GateId)
    requires DelayInv(setting, s) && setting.maxDelay == 0 && g in s.gates && s.gates[g].pc.Admitted?
    ensures InTime(s, g)
  {
    assert InBounds(setting, s.gates[g], s.clock);
  }

  function WindowCodes(s: State, account: AccountId, low: Time, width: int): set<CodeId> {
    set c | c in s.codes && s.codes[c].account == account && s.codes[c].purpose == STEP_UP_PURPOSE
            && low <= s.codes[c].createdAt <= low + width
  }

  function WindowComparers(s: State, account: AccountId, low: Time, width: int): set<ReqId> {
    set r | r in s.requests && s.requests[r].compared && s.requests[r].claim.Some?
            && s.requests[r].claim.value in WindowCodes(s, account, low, width)
  }

  lemma WindowSpacing(setting: Setting, s: State, account: AccountId, low: Time, width: int)
    requires Inv(setting, s) && WindowCodes(s, account, low, width) != {}
    ensures (|WindowCodes(s, account, low, width)| - 1) * (COOLDOWN - setting.maxLag) <= width
  {
    var codes := WindowCodes(s, account, low, width);
    var at := map c | c in codes :: s.codes[c].createdAt;
    forall c, d | c in codes && d in codes && c != d
      ensures at[c] - at[d] >= COOLDOWN - setting.maxLag || at[d] - at[c] >= COOLDOWN - setting.maxLag
    {
      assert Apart(s.codes[c].createdAt, s.codes[d].createdAt, COOLDOWN - setting.maxLag);
    }
    Counting.SpacedPoints(codes, at, low, width, COOLDOWN - setting.maxLag);
  }

  lemma WindowComparisons(setting: Setting, s: State, account: AccountId, low: Time, width: int)
    requires Inv(setting, s)
    ensures |WindowComparers(s, account, low, width)| <= MAX_ATTEMPTS * |WindowCodes(s, account, low, width)|
  {
    var codes := WindowCodes(s, account, low, width);
    var comparers := WindowComparers(s, account, low, width);
    var classOf := map r | r in comparers :: s.requests[r].claim.value;
    forall c | c in codes ensures |Counting.Members(comparers, classOf, c)| <= MAX_ATTEMPTS {
      Counting.SubsetIsSmaller(Counting.Members(comparers, classOf, c), Claimers(s, c));
      assert RowOk(s.codes[c]);
    }
    Counting.ClassesBound(comparers, codes, classOf, MAX_ATTEMPTS);
  }

  /**
   The guess budget: the n codes of an account created within any window of `width` satisfy
   (n - 1) * (60 s - lag) <= width, and draw at most 5 * n comparisons whatever the concurrency.
   */
  lemma GuessBudget(setting: Setting, run: seq<State>, steps: seq<Step>, i: nat, account: AccountId, low: Time,
                    width: int)
    requires IsRun(setting, run, steps) && Init(setting, run[0]) && i < |run|
    ensures var n := |WindowCodes(run[i], account, low, width)|;
            && (n > 0 ==> (n - 1) * (60_000_000 - setting.maxLag) <= width)
            && |WindowComparers(run[i], account, low, width)| <= 5 * n
  {
    InitHoldsInv(setting, run[0]);
    InvAlong(setting, run, steps, i);
    WindowComparisons(setting, run[i], account, low, width);
    if WindowCodes(run[i], account, low, width) != {} {
      WindowSpacing(setting, run[i], account, low, width);
    }
  }

  // ----- where the code falls short of its promise -----

  /** The string issued for an id. */
  function TokenString(setting: Setting, s: State, jti: string): string
    requires jti in s.tokens
  {
    Signed(setting.codec, setting.secret, setting.codec.encode(PayloadOf(s, jti)))
  }

  lemma PresentPasses(setting: Setting, s: State, jti: string, g: GateId)
    requires Sound(setting.codec) && setting.secret != ""
    requires jti in s.tokens && !Expired(s.tokens[jti].exp, Unix(s.clock)) && g !in s.gates
    ensures var account, exp := s.tokens[jti].account, s.tokens[jti].exp;
            var step := Present(g, account, TokenString(setting, s, jti));
            && Enabled(setting, s, step)
            && Apply(setting, s, step) == s.(gates := s.gates[g := Gate(account, s.epoch, s.clock, Checked(jti, exp))])
  {
    var p := PayloadOf(s, jti);
    assert p in IssuedPayloads(s);
    IssuedIsUnforged(setting.codec, setting.secret, IssuedPayloads(s), p);
    IssuedTokenOpens(setting.codec, setting.secret, p.account, jti, p.exp);
  }

  lemma StoreAdmits(setting: Setting, s: State, g: GateId)
    requires g in s.gates && s.gates[g].pc.Checked? && s.gates[g].epoch == s.epoch
    requires s.gates[g].pc.jti !in s.cache && s.clock <= s.gates[g].since + setting.maxDelay
    ensures var pc := s.gates[g].pc;
            && Enabled(setting, s, Store(g))
            && Apply(setting, s, Store(g)) ==
               s.(gates := s.gates[g := s.gates[g].(pc := Admitted(pc.jti, pc.exp, s.clock))],
                  cache := s.cache[pc.jti := pc.exp])
  {
  }

  ghost predicate AdmittedWith(s: State, g: GateId, jti: string, epoch: nat) {
    g in s.gates && s.gates[g].pc.Admitted? && s.gates[g].pc.jti == jti && s.gates[g].epoch == epoch
  }

  /** No token is admitted twice in one lifetime of the process. */
  ghost predicate AtMostOnce(s: State) {
    forall g, h, jti, epoch :: AdmittedWith(s, g, jti, epoch) && AdmittedWith(s, h, jti, epoch) ==> g == h
  }

  /**
   The expiry test and the store are two steps.  From any state that holds an unspent live token, two requests
   that pass the expiry test in its last instant are both admitted if the second stores one instant later, after a
   janitor tick.
   */
  lemma LateStoreReplaysToken(setting: Setting, s: State, jti: string, g: GateId, h: GateId)
    returns (run: seq<State>, steps: seq<Step>)
    requires Sound(setting.codec) && setting.secret != "" && setting.maxDelay > 0
    requires jti in s.tokens && jti !in s.cache && !Expired(s.tokens[jti].exp, Unix(s.clock))
    requires g !in s.gates && h !in s.gates && g != h
    ensures IsRun(setting, run, steps) && run[0] == s && !AtMostOnce(run[|run| - 1])
  {
    var account, exp := s.tokens[jti].account, s.tokens[jti].exp;
    var late := (exp + 1) * SECOND;
    var gate := Gate(account, s.epoch, late - 1, Checked(jti, exp));
    assert Unix(late - 1) == exp && Unix(late) == exp + 1;
    var s1 := s.(clock := late - 1);
    var s2 := s1.(gates := s1.gates[g := gate]);
    var s3 := s2.(gates := s2.gates[h := gate]);
    var token := TokenString(setting, s, jti);
    var run1, steps1 := [s, s1, s2, s3], [Tick(late - 1), Present(g, account, token), Present(h, account, token)];
    PresentPasses(setting, s1, jti, g);
    PresentPasses(setting, s2, jti, h);
    var run2, steps2 := BothStore(setting, s3, jti, g, h);
    RunsConcatenate(setting, run1, steps1, run2, steps2);
    run, steps := run1 + run2[1..], steps1 + steps2;
    assert run[0] == s && run[|run| - 1] == run2[|run2| - 1];
  }

  /** Two checked requests in the last instant of a token's life. */
  lemma BothStore(setting: Setting, s: State, jti: string, g: GateId, h: GateId)
    returns (run: seq<State>, steps: seq<Step>)
    requires setting.maxDelay > 0 && g != h && g in s.gates && h in s.gates && jti !in s.cache
    requires s.gates[g] == s.gates[h] && s.gates[g].epoch == s.epoch && s.gates[g].since == s.clock
    requires s.gates[g].pc.Checked? && s.gates[g].pc.jti == jti && Unix(s.clock + 1) == s.gates[g].pc.exp + 1
    ensures IsRun(setting, run, steps) && run[0] == s && !AtMostOnce(run[|run| - 1])
  {
    var exp, late := s.gates[g].pc.exp, s.clock + 1;
    var s1 := s.(gates := s.gates[g := s.gates[g].(pc := Admitted(jti, exp, s.clock))], cache := s.cache[jti := exp]);
    var s2 := s1.(clock := late);
    var s3 := s2.(cache := s2.cache - {jti});
    var s4 := s3.(gates := s3.gates[h := s.gates[h].(pc := Admitted(jti, exp, late))], cache := s3.cache[jti := exp]);
    run, steps := [s, s1, s2, s3, s4], [Store(g), Tick(late), Prune(late, {jti}), Store(h)];
    StoreAdmits(setting, s, g);
    assert Enabled(setting, s2, steps[2]) && Apply(setting, s2, steps[2]) == s3;
    StoreAdmits(setting, s3, h);
    assert AdmittedWith(s4, g, jti, s.epoch) && AdmittedWith(s4, h, jti, s.epoch);
  }

  const EMPTY := State(0, map[], map[], map[], map[], 0, map[])

  /** One code, claimed once by one request. */
  function OneClaim(hash: string, guess: string): State {
    EMPTY.(codes := map[0 := NewCode(1, hash, STEP_UP_PURPOSE, CODE_TTL, 0).(attempts := 1)],
           requests := map[0 := Request(1, guess, Claimed(0, hash, false), Some(0), false)])
  }

  lemma FirstClaim(setting: Setting, hash: string, guess: string) returns (run: seq<State>, steps: seq<Step>)
    requires guess != ""
    ensures IsRun(setting, run, steps) && run[0] == EMPTY && run[|run| - 1] == OneClaim(hash, guess)
  {
    var row := NewCode(1, hash, STEP_UP_PURPOSE, CODE_TTL, 0);
    var s1 := EMPTY.(codes := map[0 := row]);
    var s2 := s1.(requests := map[0 := Request(1, guess, Start, None, false)]);
    var s3 := s2.(requests := map[0 := Request(1, guess, Loaded(0), None, false)]);
    var s4 := OneClaim(hash, guess);
    run := [EMPTY, s1, s2, s3, s4];
    steps := [Mint(0, 1, STEP_UP_PURPOSE, hash, CODE_TTL, 0), Arrive(0, 1, guess), Load(0, Some(0)), Claim(0)];
    assert Enabled(setting, EMPTY, steps[0]) && Apply(setting, EMPTY, steps[0]) == s1;
    assert Enabled(setting, s1, steps[1]) && Apply(setting, s1, steps[1]) == s2;
    assert Enabled(setting, s2, steps[2]) && Apply(setting, s2, steps[2]) == s3;
    assert Enabled(setting, s3, steps[3]) && Apply(setting, s3, steps[3]) == s4;
  }

  lemma ClaimToToken(setting: Setting, hash: string, guess: string) returns (run: seq<State>, steps: seq<Step>)
    requires setting.secret != "" && setting.opens(hash, guess)
    ensures IsRun(setting, run, steps) && run[0] == OneClaim(hash, guess)
    ensures var s := run[|run| - 1];
            "j" in s.tokens && "j" !in s.cache && !Expired(s.tokens["j"].exp, Unix(s.clock)) && s.gates == map[]
  {
    var s4 := OneClaim(hash, guess);
    var s5 := s4.(requests := map[0 := Request(1, guess, Matched(0, false), Some(0), true)]);
    var s6 := s5.(codes := map[0 := s5.codes[0].(consumedAt := Some(0))],
                  requests := map[0 := Request(1, guess, Winner(0), Some(0), true)]);
    var s7 := s6.(requests := map[0 := Request(1, guess, Issued(0), Some(0), true)],
                  tokens := map["j" := Token(1, 300, 0, 0)]);
    run := [s4, s5, s6, s7];
    steps := [Compare(0), Settle(0), Issue(0, "j")];
    assert Enabled(setting, s4, steps[0]) && Apply(setting, s4, steps[0]) == s5;
    assert Enabled(setting, s5, steps[1]) && Apply(setting, s5, steps[1]) == s6;
    assert Enabled(setting, s6, steps[2]) && Apply(setting, s6, steps[2]) == s7;
  }

  /** One code minted, opened by its guess, and turned into a token. */
  lemma FirstToken(setting: Setting, hash: string, guess: string) returns (run: seq<State>, steps: seq<Step>)
    requires Sound(setting.codec) && setting.secret != "" && guess != "" && setting.opens(hash, guess)
    ensures IsRun(setting, run, steps) && Init(setting, run[0])
    ensures var s := run[|run| - 1];
            "j" in s.tokens && "j" !in s.cache && !Expired(s.tokens["j"].exp, Unix(s.clock)) && s.gates == map[]
  {
    var run1, steps1 := FirstClaim(setting, hash, guess);
    var run2, steps2 := ClaimToToken(setting, hash, guess);
    RunsConcatenate(setting, run1, steps1, run2, steps2);
    run, steps := run1 + run2[1..], steps1 + steps2;
    assert run[0] == run1[0] && run[|run| - 1] == run2[|run2| - 1];
  }

  lemma RunsConcatenate(setting: Setting, run: seq<State>, steps: seq<Step>, run': seq<State>, steps': seq<Step>)
    requires IsRun(setting, run, steps) && IsRun(setting, run', steps') && run[|run| - 1] == run'[0]
    ensures IsRun(setting, run + run'[1..], steps + steps')
  {
    var all, done := run + run'[1..], steps + steps';
    forall i | 0 <= i < |done|
      ensures Enabled(setting, all[i], done[i]) && all[i + 1] == Apply(setting, all[i], done[i])
    {
      if i < |steps| {
        assert all[i] == run[i] && all[i + 1] == run[i + 1] && done[i] == steps[i];
      } else {
        var k := i - |steps|;
        assert all[i] == run'[k] && all[i + 1] == run'[k + 1] && done[i] == steps'[k];
      }
    }
  }

  /** In every run, at every moment, no token was admitted twice in one lifetime of the process. */
  ghost predicate SingleUse(setting: Setting) {
    forall run, steps, i :: IsRun(setting, run, steps) && Init(setting, run[0]) && 0 <= i < |run| ==> AtMostOnce(run[i])
  }

  /**
   Single use holds exactly when the store never trails the expiry test.  (Some guess must open some code, or
   no token is ever issued.)
   */
  lemma SingleUseIff(setting: Setting, hash: string, guess: string)
    requires Sound(setting.codec) && setting.secret != "" && guess != "" && setting.opens(hash, guess)
    ensures SingleUse(setting) <==> setting.maxDelay == 0
  {
    if setting.maxDelay == 0 {
      forall run, steps, i | IsRun(setting, run, steps) && Init(setting, run[0]) && 0 <= i < |run|
        ensures AtMostOnce(run[i])
      {
        InitHoldsInv(setting, run[0]);
        InvAlong(setting, run, steps, i);
        NoDelayMeansOnce(setting, run[i]);
      }
    } else {
      var run, steps := FirstToken(setting, hash, guess);
      var run', steps' := LateStoreReplaysToken(setting, run[|run| - 1], "j", 0, 1);
      RunsConcatenate(setting, run, steps, run', steps');
      var all := run + run'[1..];
      assert all[0] == run[0] && all[|all| - 1] == run'[|run'| - 1];
      assert !AtMostOnce(all[|all| - 1]);
    }
  }

  lemma NoDelayMeansOnce(setting: Setting, s: State)
    requires GatesInv(s) && DelayInv(setting, s) && setting.maxDelay == 0
    ensures AtMostOnce(s)
  {
    forall g, h, jti, epoch | AdmittedWith(s, g, jti, epoch) && AdmittedWith(s, h, jti, epoch) ensures g == h {
      AdmittedInTime(setting, s, g);
      AdmittedInTime(setting, s, h);
    }
  }

  /** The lag bound is tight: with lag L two codes of one account can be created exactly 60 s - L apart. */
  lemma LagShortensCooldown(setting: Setting, s: State, account: AccountId, a: CodeId, b: CodeId, lag: nat)
    returns (run: seq<State>, steps: seq<Step>)
    requires lag <= setting.maxLag && lag <= COOLDOWN
    requires a !in s.codes && b !in s.codes && a != b && CodesOf(s, account) == {}
    ensures IsRun(setting, run, steps) && run[0] == s
    ensures var codes := run[|run| - 1].codes;
            && a in codes && b in codes && {a, b} <= CodesOf(run[|run| - 1], account)
            && codes[b].createdAt - codes[a].createdAt == COOLDOWN - lag
  {
    var later := s.clock - lag + COOLDOWN;
    var first := Mint(a, account, STEP_UP_PURPOSE, "", later, s.clock - lag);
    assert !HasRecent(s.codes, account, STEP_UP_PURPOSE, s.clock, COOLDOWN) by {
      assert forall c :: c in s.codes ==> c !in CodesOf(s, account);
    }
    var s1 := Apply(setting, s, first);
    var s2 := s1.(clock := later);
    var second := Mint(b, account, STEP_UP_PURPOSE, "", later, later - lag);
    assert !HasRecent(s2.codes, account, STEP_UP_PURPOSE, later, COOLDOWN) by {
      assert forall c :: c in s.codes ==> c !in CodesOf(s, account);
    }
    var s3 := Apply(setting, s2, second);
    run := [s, s1, s2, s3];
    steps := [first, Tick(later), second];
  }

  /** In every run, at every moment, any two codes of one account and purpose were created `gap` apart. */
  ghost predicate AlwaysSpaced(setting: Setting, gap: int) {
    forall run: seq<State>, steps: seq<Step>, i: int ::
      IsRun(setting, run, steps) && Init(setting, run[0]) && 0 <= i < |run| ==> Spaced(run[i].codes, gap)
  }

  /** The spacing that holds is the cooldown less the lag, and nothing more. */
  lemma SpacingIff(setting: Setting, gap: int)
    requires Sound(setting.codec) && gap > 0
    ensures AlwaysSpaced(setting, gap) <==> gap <= 60_000_000 - setting.maxLag
  {
    if gap <= COOLDOWN - setting.maxLag {
      forall run: seq<State>, steps: seq<Step>, i: int |
        IsRun(setting, run, steps) && Init(setting, run[0]) && 0 <= i < |run|
        ensures Spaced(run[i].codes, gap)
      {
        InitHoldsInv(setting, run[0]);
        InvAlong(setting, run, steps, i);
        SpacedWeakens(run[i].codes, COOLDOWN - setting.maxLag, gap);
      }
    } else {
      var lag := if setting.maxLag <= COOLDOWN then setting.maxLag else COOLDOWN;
      var run, steps := LagShortensCooldown(setting, EMPTY, 1, 0, 1, lag);
      var codes := run[|run| - 1].codes;
      assert 0 in CodesOf(run[|run| - 1], 1) && 1 in CodesOf(run[|run| - 1], 1);
      assert !Apart(codes[0].createdAt, codes[1].createdAt, gap);
      assert !Spaced(codes, gap);
    }
  }

  lemma SpacedWeakens(rows: Table, wide: int, gap: int)
    requires Spaced(rows, wide) && gap <= wide
    ensures Spaced(rows, gap)
  {
    forall i, j | && i in rows && j in rows && i != j && rows[i].account == rows[j].account
                  && rows[i].purpose == rows[j].purpose
      ensures Apart(rows[i].createdAt, rows[j].createdAt, gap)
    {
      assert Apart(rows[i].createdAt, rows[j].createdAt, wide);
    }
  }
}
