/**
 Update, Resolve and the confirmation of an emailed code as the two steps they are, a read and a later write,
 interleaved with each other and with every other writer of the directory.  The invariant of the directory survives; a
 verification need not.
 */
module UpdateRaces {
  import opened Wrappers
  import opened AccountDirectory

  type SessionId = int

  /**
   A request in flight: an Update or a code confirmation with the row it loaded, or a Resolve with the row its email
   lookup found, if any.
   */
  datatype Session =
    | Loaded(account: AccountId, row: Account)
    | Found(p: Principal, account: AccountId, row: Account)
    | NotFound(p: Principal)
    | Closed

  datatype World = World(d: Directory, sessions: map<SessionId, Session>)

  /** `Whole` is an operation of one transaction, or an Update or Resolve that met no other writer. */
  datatype Event =
    | Whole(op: Op, out: Option<Outcome>)
    | Load(u: SessionId, a: AccountId)
    | Store(u: SessionId, email: Option<string>)
    | Confirm(u: SessionId, now: Time)
    | Find(u: SessionId, p: Principal, found: Option<AccountId>)
    | Finish(u: SessionId, now: Time, uuid: string)

  /** The email lookup of Resolve; the identity lookup before it missed and is not repeated. */
  ghost predicate LooksUp(config: Config, d: Directory, p: Principal, found: Option<AccountId>) {
    var email := config.emails.canonical(p.email);
    match found
    case Some(a) => a in d.accounts && email != "" && HasEmail(config, d, a, email)
    case None => email == "" || !EmailKnown(config, d, email)
  }

  /** What the second half of Resolve leaves: branches 2, 3 and 4 on the row found, branch 5 without one. */
  function AfterFinish(config: Config, d: Directory, s: Session, now: Time, uuid: string): Directory {
    match s
    case Found(p, a, row) =>
      if row.verifiedAt.Some? then AfterLink(d, a, p)
      else if p.emailVerified then AfterVerify(d, a, row, p, now)
      else d
    case NotFound(p) => AfterCreate(config, d, p, now, uuid)
    case _ => d
  }

  /** The row as a confirmed code writes it back: the email as loaded, and the new time. */
  function Stamped(s: Session, now: Time): Account
    requires HoldsRow(s)
  {
    s.row.(verifiedAt := Some(now))
  }

  function AfterConfirm(config: Config, d: Directory, s: Session, now: Time): Directory
    requires HoldsRow(s)
  {
    AfterStore(config, d, s.account, Stamped(s, now), None)
  }

  predicate Resolving(s: Session) {
    s.Found? || s.NotFound?
  }

  ghost predicate Step(config: Config, w: World, e: Event, w': World) {
    match e
    case Whole(op, out) => OpStep(config, w.d, op, w'.d, out) && w'.sessions == w.sessions
    case Load(u, a) =>
      u !in w.sessions && a in w.d.accounts && w' == w.(sessions := w.sessions[u := Loaded(a, w.d.accounts[a])])
    case Store(u, email) =>
      && u in w.sessions && w.sessions[u].Loaded?
      && w' == World(AfterStore(config, w.d, w.sessions[u].account, w.sessions[u].row, email), w.sessions[u := Closed])
    case Confirm(u, now) =>
      && u in w.sessions && w.sessions[u].Loaded?
      && w' == World(AfterConfirm(config, w.d, w.sessions[u], now), w.sessions[u := Closed])
    case Find(u, p, found) =>
      && u !in w.sessions && LooksUp(config, w.d, p, found)
      && w' == w.(sessions := w.sessions[u := if found.Some? then Found(p, found.value, w.d.accounts[found.value])
                                              else NotFound(p)])
    case Finish(u, now, uuid) =>
      && u in w.sessions && Resolving(w.sessions[u])
      && w' == World(AfterFinish(config, w.d, w.sessions[u], now, uuid), w.sessions[u := Closed])
  }

  predicate HoldsRow(s: Session) {
    s.Loaded? || s.Found?
  }

  ghost predicate SessionOk(config: Config, d: Directory, s: Session) {
    HoldsRow(s) ==> s.account in d.accounts && CanonicalEmail(config, s.row.email)
  }

  ghost predicate WorldInv(config: Config, w: World) {
    Inv(config, w.d) && forall u :: u in w.sessions ==> SessionOk(config, w.d, w.sessions[u])
  }

  ghost predicate IsHistory(config: Config, run: seq<World>, events: seq<Event>) {
    && |run| == |events| + 1 && run[0].sessions == map[]
    && forall i :: 0 <= i < |events| ==> Step(config, run[i], events[i], run[i + 1])
  }

  // ----- the invariant, whatever races -----

  lemma FinishKeepsInv(config: Config, d: Directory, s: Session, now: Time, uuid: string)
    requires Inv(config, d) && SessionOk(config, d, s)
    ensures Inv(config, AfterFinish(config, d, s, now, uuid))
  {
    match s
    case Found(p, a, row) =>
      LinkKeepsInv(config, d, KeyOf(p), a);
      AfterVerifyKeepsInv(config, d, a, row, p, now);
    case NotFound(p) =>
      if Creatable(config, d, p) {
        CreatedKeepsInv(config, d, p, now, uuid);
      }
    case _ =>
  }

  /** No event deletes an account, or an identity but the one it unlinks. */
  lemma StepKeepsRows(config: Config, w: World, e: Event, w': World)
    requires WorldInv(config, w) && Step(config, w, e, w')
    ensures forall a :: a in w.d.accounts ==> a in w'.d.accounts
    ensures forall k :: k in w.d.identities && !(e.Whole? && e.op == Unlink(k)) ==>
                          k in w'.d.identities && w'.d.identities[k] == w.d.identities[k]
  {
    match e
    case Whole(op, out) => AccountDirectory.StepKeepsInv(config, w.d, op, w'.d, out);
    case _ =>
  }

  lemma StepKeepsWorld(config: Config, w: World, e: Event, w': World)
    requires WorldInv(config, w) && Step(config, w, e, w')
    ensures WorldInv(config, w')
  {
    StepKeepsRows(config, w, e, w');
    match e
    case Whole(op, out) => AccountDirectory.StepKeepsInv(config, w.d, op, w'.d, out);
    case Load(_, _) =>
    case Store(u, email) => StoreKeepsInv(config, w.d, w.sessions[u].account, w.sessions[u].row, email);
    case Confirm(u, now) => StoreKeepsInv(config, w.d, w.sessions[u].account, Stamped(w.sessions[u], now), None);
    case Find(_, _, _) =>
    case Finish(u, now, uuid) => FinishKeepsInv(config, w.d, w.sessions[u], now, uuid);
  }

  /** Emails stay canonical and pairwise distinct, and identities keep naming accounts, however requests race. */
  lemma {:induction false} RacesKeepInv(config: Config, run: seq<World>, events: seq<Event>, k: nat)
    requires IsHistory(config, run, events) && Inv(config, run[0].d) && k < |run|
    ensures WorldInv(config, run[k]) && SoundColumns(config, run[k].d)
  {
    if k > 0 {
      RacesKeepInv(config, run, events, k - 1);
      StepKeepsWorld(config, run[k - 1], events[k - 1], run[k]);
    }
  }

  /** However requests race, an identity keeps naming its account until it is unlinked. */
  lemma {:induction false} RacesKeepIdentity(config: Config, run: seq<World>, events: seq<Event>, i: nat, j: nat,
                                             key: Key)
    requires IsHistory(config, run, events) && Inv(config, run[0].d) && i <= j < |run|
    requires key in run[i].d.identities
    requires forall m :: i <= m < j ==> !(events[m].Whole? && events[m].op == Unlink(key))
    ensures key in run[j].d.identities && run[j].d.identities[key] == run[i].d.identities[key]
    decreases j
  {
    if i < j {
      RacesKeepIdentity(config, run, events, i, j - 1, key);
      RacesKeepInv(config, run, events, j - 1);
      StepKeepsRows(config, run[j - 1], events[j - 1], run[j]);
    }
  }

  // ----- undisturbed, the two steps make the whole operation -----

  /** A load and a store with nothing in between are an Update. */
  lemma UndisturbedUpdate(config: Config, w: World, u: SessionId, a: AccountId, email: Option<string>)
    requires u !in w.sessions && a in w.d.accounts
    ensures var loaded := w.(sessions := w.sessions[u := Loaded(a, w.d.accounts[a])]);
            var stored := World(AfterUpdate(config, w.d, a, email), w.sessions[u := Closed]);
            Step(config, w, Load(u, a), loaded) && Step(config, loaded, Store(u, email), stored)
  {
    var loaded := w.(sessions := w.sessions[u := Loaded(a, w.d.accounts[a])]);
    assert loaded.sessions[u := Closed] == w.sessions[u := Closed];
  }

  predicate Misses(config: Config, d: Directory, p: Principal) {
    && (config.localIssuer == "" || p.issuer != config.localIssuer)
    && (p.issuer == "" || p.subject == "" || Key(p.issuer, p.subject) !in d.identities)
  }

  /** A lookup and a finish with nothing in between are a Resolve whose identity lookup missed. */
  lemma UndisturbedResolve(config: Config, w: World, w1: World, w2: World, u: SessionId, p: Principal,
                           found: Option<AccountId>, now: Time, uuid: string) returns (out: Outcome)
    requires Inv(config, w.d) && Misses(config, w.d, p)
    requires Step(config, w, Find(u, p, found), w1) && Step(config, w1, Finish(u, now, uuid), w2)
    ensures ResolveStep(config, w.d, p, now, w2.d, out)
  {
    var email := config.emails.canonical(p.email);
    if found.Some? {
      var a := found.value;
      var row := w.d.accounts[a];
      OwnEmailIsFree(config, w.d, a);
      out := if row.verifiedAt.None? && !p.emailVerified then UnverifiedTakeover
             else if KeyOf(p) in w.d.identities then UniqueViolation else Resolved(a);
      assert HasEmail(config, w.d, a, email) && EmailStep(w.d, p, now, a, w2.d, out);
    } else {
      if email != "" {
        UnknownIsNotTaken(config, w.d, email);
      }
      out := Resolved(w.d.nextId);
      assert w2.d == Created(config, w.d, p, now, uuid);
    }
  }

  /** And every Resolve whose identity lookup missed is such a pair. */
  lemma ResolveSplits(config: Config, w: World, u: SessionId, p: Principal, now: Time, d': Directory, out: Outcome)
    returns (found: Option<AccountId>, uuid: string, w1: World, w2: World)
    requires Inv(config, w.d) && Misses(config, w.d, p) && u !in w.sessions
    requires ResolveStep(config, w.d, p, now, d', out)
    ensures Step(config, w, Find(u, p, found), w1) && Step(config, w1, Finish(u, now, uuid), w2) && w2.d == d'
  {
    var email := config.emails.canonical(p.email);
    found, uuid := None, "";
    var session := NotFound(p);
    if email != "" && EmailKnown(config, w.d, email) {
      var a :| && a in w.d.accounts && HasEmail(config, w.d, a, email) && EmailStep(w.d, p, now, a, d', out);
      OwnEmailIsFree(config, w.d, a);
      found, session := Some(a), Found(p, a, w.d.accounts[a]);
    } else {
      uuid :| d' == Created(config, w.d, p, now, uuid);
      if email != "" {
        UnknownIsNotTaken(config, w.d, email);
      }
    }
    w1 := w.(sessions := w.sessions[u := session]);
    w2 := World(AfterFinish(config, w.d, session, now, uuid), w1.sessions[u := Closed]);
  }

  // ----- one verification time -----

  predicate VerifiedAt(w: World, a: AccountId, t: Time) {
    a in w.d.accounts && w.d.accounts[a].verifiedAt == Some(t)
  }

  /**
   The event writes the account's row back from a session: Update's store, a confirmed code, or branch 3 of Resolve.
   */
  predicate StoresTo(config: Config, w: World, e: Event, a: AccountId) {
    match e
    case Store(u, email) =>
      && u in w.sessions && w.sessions[u].Loaded? && w.sessions[u].account == a
      && Storable(config, w.d, a, w.sessions[u].row, email)
    case Confirm(u, now) =>
      && u in w.sessions && w.sessions[u].Loaded? && w.sessions[u].account == a
      && Storable(config, w.d, a, Stamped(w.sessions[u], now), None)
    case Finish(u, _, _) =>
      && u in w.sessions && w.sessions[u].Found? && w.sessions[u].account == a
      && w.sessions[u].row.verifiedAt.None? && w.sessions[u].p.emailVerified
      && Verifiable(w.d, a, w.sessions[u].row, w.sessions[u].p)
    case _ => false
  }

  /** The verification time such an event writes. */
  function WrittenTime(config: Config, w: World, e: Event, a: AccountId): Option<Time>
    requires StoresTo(config, w, e, a)
  {
    if e.Store? then w.sessions[e.u].row.verifiedAt else Some(e.now)
  }

  /** A verification time survives every event but a store of another one. */
  lemma StepKeepsTimeIff(config: Config, w: World, e: Event, w': World, a: AccountId, t: Time)
    requires WorldInv(config, w) && Step(config, w, e, w') && VerifiedAt(w, a, t)
    ensures VerifiedAt(w', a, t) <==> (StoresTo(config, w, e, a) ==> WrittenTime(config, w, e, a) == Some(t))
  {
    match e
    case Whole(op, out) => AccountDirectory.StepKeepsInv(config, w.d, op, w'.d, out);
    case Finish(u, _, _) => assert w.sessions[u].NotFound? ==> a < w.d.nextId;
    case _ =>
  }

  // ----- where a session's row comes from -----

  predicate Opens(e: Event, u: SessionId) {
    (e.Load? || e.Find?) && e.u == u
  }

  lemma {:induction false} SessionsStay(config: Config, run: seq<World>, events: seq<Event>, l: nat, k: nat,
                                        u: SessionId)
    requires IsHistory(config, run, events) && l <= k < |run| && u in run[l].sessions
    ensures u in run[k].sessions
    decreases k
  {
    if l < k {
      SessionsStay(config, run, events, l, k - 1, u);
      assert Step(config, run[k - 1], events[k - 1], run[k - 1 + 1]);
    }
  }

  /** The row a session holds is the account's row at the moment it was read. */
  lemma {:induction false} ReadAt(config: Config, run: seq<World>, events: seq<Event>, k: nat, u: SessionId)
    returns (l: nat)
    requires IsHistory(config, run, events) && k < |run|
    requires u in run[k].sessions && HoldsRow(run[k].sessions[u])
    ensures var s := run[k].sessions[u];
            l < k && Opens(events[l], u) && s.account in run[l].d.accounts && s.row == run[l].d.accounts[s.account]
  {
    assert Step(config, run[k - 1], events[k - 1], run[k - 1 + 1]);
    if Opens(events[k - 1], u) {
      l := k - 1;
    } else {
      l := ReadAt(config, run, events, k - 1, u);
    }
  }

  lemma OpensOnce(config: Config, run: seq<World>, events: seq<Event>, l: nat, k: nat, u: SessionId)
    requires IsHistory(config, run, events) && l < k < |events| && Opens(events[l], u)
    ensures !Opens(events[k], u)
  {
    assert Step(config, run[l], events[l], run[l + 1]);
    SessionsStay(config, run, events, l + 1, k, u);
    assert Step(config, run[k], events[k], run[k + 1]);
  }

  // ----- when a verification survives -----

  /** Event `m` writes back to the account what its session read at event `l`. */
  ghost predicate Replays(config: Config, run: seq<World>, events: seq<Event>, l: nat, m: nat, a: AccountId)
    requires |run| == |events| + 1
  {
    l < m < |events| && StoresTo(config, run[m], events[m], a) && Opens(events[l], events[m].u)
  }

  /** What is replayed is the row at the read. */
  lemma ReplayedRow(config: Config, run: seq<World>, events: seq<Event>, l: nat, m: nat, a: AccountId)
    requires IsHistory(config, run, events) && Replays(config, run, events, l, m, a)
    ensures a in run[l].d.accounts && run[m].sessions[events[m].u].row == run[l].d.accounts[a]
  {
    var u := events[m].u;
    var origin := ReadAt(config, run, events, m, u);
    if origin < l {
      OpensOnce(config, run, events, origin, l, u);
    } else if l < origin {
      OpensOnce(config, run, events, l, origin, u);
    }
  }

  ghost predicate Survives(run: seq<World>, i: nat, j: nat, a: AccountId, t: Time)
    requires j < |run|
  {
    forall k :: i <= k <= j ==> VerifiedAt(run[k], a, t)
  }

  /** Every write-back after `i` sets the time `t`, or is an Update's of a row read since. */
  ghost predicate NoStaleStore(config: Config, run: seq<World>, events: seq<Event>,
                               i: nat, j: nat, a: AccountId, t: Time)
    requires |run| == |events| + 1
  {
    forall l: nat, m: nat :: i <= m < j && Replays(config, run, events, l, m, a) ==>
                               if events[m].Store? then i <= l else events[m].now == t
  }

  lemma {:induction false} FreshStoresKeepIt(config: Config, run: seq<World>, events: seq<Event>,
                                             i: nat, j: nat, a: AccountId, t: Time)
    requires IsHistory(config, run, events) && Inv(config, run[0].d) && i <= j < |run|
    requires VerifiedAt(run[i], a, t) && NoStaleStore(config, run, events, i, j, a, t)
    ensures Survives(run, i, j, a, t)
    decreases j
  {
    if i < j {
      var m := j - 1;
      FreshStoresKeepIt(config, run, events, i, m, a, t);
      RacesKeepInv(config, run, events, m);
      assert Step(config, run[m], events[m], run[m + 1]);
      StepKeepsTimeIff(config, run[m], events[m], run[j], a, t);
      if StoresTo(config, run[m], events[m], a) {
        var l := ReadAt(config, run, events, m, events[m].u);
        assert Replays(config, run, events, l, m, a);
        if events[m].Store? {
          assert VerifiedAt(run[l], a, t);
        }
      }
    }
  }

  /**
   From the event that set it, a verification time survives exactly as long as no Update writes the account back from
   a read made before it was set, and no Resolve or confirmed code sets another time.
   */
  lemma VerificationSurvivesIff(config: Config, run: seq<World>, events: seq<Event>,
                                i: nat, j: nat, a: AccountId, t: Time)
    requires IsHistory(config, run, events) && Inv(config, run[0].d) && i <= j < |run|
    requires VerifiedAt(run[i], a, t) && forall k :: 0 <= k < i ==> !VerifiedAt(run[k], a, t)
    ensures Survives(run, i, j, a, t) <==> NoStaleStore(config, run, events, i, j, a, t)
  {
    if NoStaleStore(config, run, events, i, j, a, t) {
      FreshStoresKeepIt(config, run, events, i, j, a, t);
    } else {
      var l: nat, m: nat :| && i <= m < j && Replays(config, run, events, l, m, a)
                            && !(if events[m].Store? then i <= l else events[m].now == t);
      ReplayedRow(config, run, events, l, m, a);
      if VerifiedAt(run[m], a, t) {
        assert events[m].Store? ==> !VerifiedAt(run[l], a, t);
        RacesKeepInv(config, run, events, m);
        assert Step(config, run[m], events[m], run[m + 1]);
        StepKeepsTimeIff(config, run[m], events[m], run[m + 1], a, t);
      }
    }
  }

  /** Resolve sets a time only on a row that it read unverified, so before the time was set. */
  lemma ResolveOnlyStampsUnverified(config: Config, run: seq<World>, events: seq<Event>, l: nat, m: nat, a: AccountId)
    requires IsHistory(config, run, events) && Replays(config, run, events, l, m, a) && events[m].Finish?
    ensures a in run[l].d.accounts && run[l].d.accounts[a].verifiedAt.None?
  {
    ReplayedRow(config, run, events, l, m, a);
  }

  // ----- when an account stays verified, at whatever time -----

  predicate IsVerified(w: World, a: AccountId) {
    a in w.d.accounts && w.d.accounts[a].verifiedAt.Some?
  }

  lemma StepKeepsVerifiedIff(config: Config, w: World, e: Event, w': World, a: AccountId)
    requires WorldInv(config, w) && Step(config, w, e, w') && IsVerified(w, a)
    ensures IsVerified(w', a) <==> (StoresTo(config, w, e, a) ==> WrittenTime(config, w, e, a).Some?)
  {
    match e
    case Whole(op, out) => AccountDirectory.StepKeepsInv(config, w.d, op, w'.d, out);
    case Finish(u, _, _) => assert w.sessions[u].NotFound? ==> a < w.d.nextId;
    case _ =>
  }

  ghost predicate StaysVerified(run: seq<World>, i: nat, j: nat, a: AccountId)
    requires j < |run|
  {
    forall k :: i <= k <= j ==> IsVerified(run[k], a)
  }

  /** Every Update that writes the account back read it when it was verified. */
  ghost predicate OnlyVerifiedReads(config: Config, run: seq<World>, events: seq<Event>, i: nat, j: nat, a: AccountId)
    requires |run| == |events| + 1
  {
    forall l: nat, m: nat :: i <= m < j && Replays(config, run, events, l, m, a) && events[m].Store? ==>
                               IsVerified(run[l], a)
  }

  /** An account, once verified, stays verified exactly as long as no Update writes it back from an unverified read. */
  lemma {:induction false} StaysVerifiedIff(config: Config, run: seq<World>, events: seq<Event>, i: nat, j: nat,
                                            a: AccountId)
    requires IsHistory(config, run, events) && Inv(config, run[0].d) && i <= j < |run| && IsVerified(run[i], a)
    ensures StaysVerified(run, i, j, a) <==> OnlyVerifiedReads(config, run, events, i, j, a)
    decreases j
  {
    if i < j {
      var m := j - 1;
      StaysVerifiedIff(config, run, events, i, m, a);
      assert StaysVerified(run, i, j, a) <==> StaysVerified(run, i, m, a) && IsVerified(run[j], a);
      if IsVerified(run[m], a) {
        RacesKeepInv(config, run, events, m);
        assert Step(config, run[m], events[m], run[m + 1]);
        StepKeepsVerifiedIff(config, run[m], events[m], run[j], a);
        LastReadDecides(config, run, events, m, a);
      }
    }
  }

  /** What an Update writes back is decided by any, hence the only, read of its session. */
  lemma LastReadDecides(config: Config, run: seq<World>, events: seq<Event>, m: nat, a: AccountId)
    requires IsHistory(config, run, events) && m < |events|
    ensures StoresTo(config, run[m], events[m], a) && events[m].Store? ==>
              (WrittenTime(config, run[m], events[m], a).Some? <==>
               forall l: nat :: Replays(config, run, events, l, m, a) ==> IsVerified(run[l], a))
  {
    if StoresTo(config, run[m], events[m], a) && events[m].Store? {
      var origin := ReadAt(config, run, events, m, events[m].u);
      assert Replays(config, run, events, origin, m, a);
      forall l: nat | Replays(config, run, events, l, m, a)
        ensures a in run[l].d.accounts && run[l].d.accounts[a].verifiedAt == run[m].sessions[events[m].u].row.verifiedAt
      {
        ReplayedRow(config, run, events, l, m, a);
      }
    }
  }

  // ----- two races -----

  /** Two resolutions that both read the account before either verifies it: the second replaces the first's time. */
  lemma OverlappingResolutionsReplaceTime(config: Config, d: Directory, a: AccountId, p: Principal, q: Principal,
                                          t1: Time, t2: Time)
    requires Inv(config, d) && a in d.accounts && d.accounts[a].verifiedAt.None? && t1 != t2
    requires KeyOf(p) !in d.identities && KeyOf(q) !in d.identities && KeyOf(p) != KeyOf(q)
    ensures var d1 := AfterVerify(d, a, d.accounts[a], p, t1);
            var d2 := AfterVerify(d1, a, d.accounts[a], q, t2);
            && d1.accounts[a].verifiedAt == Some(t1) && d2.accounts[a].verifiedAt == Some(t2) && !Keeps(d1, d2)
            && {KeyOf(p), KeyOf(q)} <= d2.identities.Keys
  {
    if d.accounts[a].email.Some? {
      OwnEmailIsFree(config, d, a);
    }
    var d1 := AfterVerify(d, a, d.accounts[a], p, t1);
    assert forall b :: b in d1.accounts && b != a ==> d1.accounts[b] == d.accounts[b];
  }

  /** A resolution that read the account before its email was changed writes the old email back. */
  lemma StaleResolutionRestoresEmail(config: Config, d: Directory, a: AccountId, p: Principal, email: string, now: Time)
    requires Inv(config, d) && a in d.accounts && d.accounts[a].email.Some? && KeyOf(p) !in d.identities
    requires Storable(config, d, a, d.accounts[a], Some(email))
    ensures var changed := AfterUpdate(config, d, a, Some(email));
            && changed.accounts[a].email == Some(config.emails.canonical(email))
            && AfterVerify(changed, a, d.accounts[a], p, now).accounts[a].email == d.accounts[a].email
  {
    OwnEmailIsFree(config, d, a);
    var changed := AfterUpdate(config, d, a, Some(email));
    assert forall b :: b in changed.accounts && b != a ==> changed.accounts[b] == d.accounts[b];
  }
}
