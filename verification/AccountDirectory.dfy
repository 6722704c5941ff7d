/**
 Identity resolution: accounts with nullable unique emails, identity rows keyed by (issuer, subject), and the
 five-branch Resolve together with the other writers of the same rows.  A completed operation is one step.
 */
module AccountDirectory {
  import opened Wrappers
  import opened EmailForm

  type AccountId = int
  type Time = int

  datatype Key = Key(issuer: string, subject: string)

  datatype Account = Account(uuid: string, email: Option<string>, verifiedAt: Option<Time>)

  /** Ids at or above `nextId` are unused; `uuid` values are drawn by the database. */
  datatype Directory = Directory(accounts: map<AccountId, Account>, identities: map<Key, AccountId>, nextId: AccountId)

  datatype Config = Config(localIssuer: string, parseUuid: string -> Option<string>, emails: Rules)

  datatype Principal = Principal(issuer: string, subject: string, email: string, emailVerified: bool)

  datatype Outcome =
    | Resolved(account: AccountId)
    | MalformedSubject
    | UserGone
    | UnverifiedTakeover
    | UniqueViolation

  function KeyOf(p: Principal): Key {
    Key(p.issuer, p.subject)
  }

  predicate IsLocal(config: Config, p: Principal) {
    config.localIssuer != "" && p.issuer == config.localIssuer
  }

  predicate HasKey(p: Principal) {
    p.issuer != "" && p.subject != ""
  }

  function OptionalTime(set_: bool, now: Time): Option<Time> {
    if set_ then Some(now) else None
  }

  /** GetUserAccountByEmail: lower(email) = lower($1). */
  predicate HasEmail(config: Config, d: Directory, a: AccountId, email: string) {
    && a in d.accounts && d.accounts[a].email.Some?
    && config.emails.compared(d.accounts[a].email.value) == config.emails.compared(email)
  }

  predicate EmailKnown(config: Config, d: Directory, email: string) {
    exists a :: a in d.accounts && HasEmail(config, d, a, email)
  }

  // ----- Resolve -----

  /** The local fast path: load by uuid, change nothing. */
  ghost predicate LocalStep(config: Config, d: Directory, p: Principal, d': Directory, out: Outcome) {
    && d' == d
    && match config.parseUuid(p.subject)
       case None => out == MalformedSubject
       case Some(uuid) =>
         || (out.Resolved? && out.account in d.accounts && d.accounts[out.account].uuid == uuid)
         || (out == UserGone && forall a :: a in d.accounts ==> d.accounts[a].uuid != uuid)
  }

  function WithIdentity(d: Directory, key: Key, a: AccountId): Directory {
    d.(identities := d.identities[key := a])
  }

  function Verified(d: Directory, a: AccountId, now: Time): Directory
    requires a in d.accounts
  {
    d.(accounts := d.accounts[a := d.accounts[a].(verifiedAt := Some(now))])
  }

  /** Branches 2, 3 and 4 on the account that has the email. */
  ghost predicate EmailStep(d: Directory, p: Principal, now: Time, a: AccountId, d': Directory, out: Outcome)
    requires a in d.accounts
  {
    if d.accounts[a].verifiedAt.None? && !p.emailVerified then d' == d && out == UnverifiedTakeover
    else if KeyOf(p) in d.identities then d' == d && out == UniqueViolation
    else
      && out == Resolved(a)
      && d' == WithIdentity(if d.accounts[a].verifiedAt.Some? then d else Verified(d, a, now), KeyOf(p), a)
  }

  /** Branch 5: a new account, with its identity row when the principal names one. */
  function Created(config: Config, d: Directory, p: Principal, now: Time, uuid: string): Directory {
    var email := config.emails.canonical(p.email);
    var account := Account(uuid, if email == "" then None else Some(email), OptionalTime(p.emailVerified, now));
    Directory(d.accounts[d.nextId := account],
              if HasKey(p) then d.identities[KeyOf(p) := d.nextId] else d.identities,
              d.nextId + 1)
  }

  /** The constraints that a new account must meet: unique email, unique identity. */
  predicate Creatable(config: Config, d: Directory, p: Principal) {
    && (config.emails.canonical(p.email) != "" ==> !EmailTaken(d, d.nextId, config.emails.canonical(p.email)))
    && (HasKey(p) ==> KeyOf(p) !in d.identities)
  }

  /** autoCreate's transaction: a violated constraint rolls everything back. */
  function AfterCreate(config: Config, d: Directory, p: Principal, now: Time, uuid: string): Directory {
    if Creatable(config, d, p) then Created(config, d, p, now, uuid) else d
  }

  /** linkIdentity's transaction. */
  function AfterLink(d: Directory, a: AccountId, p: Principal): Directory {
    if KeyOf(p) in d.identities then d else WithIdentity(d, KeyOf(p), a)
  }

  /** The constraints that verifyAndLink must meet: it writes the email it loaded, and the identity. */
  predicate Verifiable(d: Directory, a: AccountId, loaded: Account, p: Principal) {
    && a in d.accounts && KeyOf(p) !in d.identities
    && (loaded.email.Some? ==> !EmailTaken(d, a, loaded.email.value))
  }

  /** verifyAndLink's transaction on the row that Resolve loaded: email and time are both replaced. */
  function AfterVerify(d: Directory, a: AccountId, loaded: Account, p: Principal, now: Time): Directory {
    if Verifiable(d, a, loaded, p)
    then WithIdentity(StoreUpdate(d, a, loaded.(verifiedAt := Some(now)), loaded.email), KeyOf(p), a)
    else d
  }

  ghost predicate ResolveStep(config: Config, d: Directory, p: Principal, now: Time, d': Directory, out: Outcome) {
    if IsLocal(config, p) then LocalStep(config, d, p, d', out)
    else if HasKey(p) && KeyOf(p) in d.identities then
      d' == d && out == if d.identities[KeyOf(p)] in d.accounts then Resolved(d.identities[KeyOf(p)]) else UserGone
    else if config.emails.canonical(p.email) != "" && EmailKnown(config, d, config.emails.canonical(p.email)) then
      exists a :: && a in d.accounts && HasEmail(config, d, a, config.emails.canonical(p.email))
                  && EmailStep(d, p, now, a, d', out)
    else out == Resolved(d.nextId) && exists uuid :: d' == Created(config, d, p, now, uuid)
  }

  // ----- the other writers -----

  predicate EmailTaken(d: Directory, a: AccountId, email: string) {
    exists b :: b in d.accounts && b != a && d.accounts[b].email == Some(email)
  }

  datatype Op =
    | Resolve(p: Principal, now: Time)
    | Create(email: string, uuid: string)
    | CreateAnonymous(uuid: string)
    | Update(a: AccountId, newEmail: Option<string>)
    | LinkTo(a: AccountId, key: Key)
    | Unlink(key: Key)

  function AddAccount(d: Directory, account: Account): Directory {
    d.(accounts := d.accounts[d.nextId := account], nextId := d.nextId + 1)
  }

  /** Update's write: the row's email and verification time are both replaced, the latter from an earlier read. */
  function StoreUpdate(d: Directory, a: AccountId, loaded: Account, email: Option<string>): Directory
    requires a in d.accounts
  {
    d.(accounts := d.accounts[a := d.accounts[a].(email := email, verifiedAt := loaded.verifiedAt)])
  }

  /** The email Update stores: the canonical form of a given one, otherwise the one it loaded. */
  function EmailToStore(config: Config, loaded: Account, email: Option<string>): Option<string> {
    if email.Some? then Some(config.emails.canonical(email.value)) else loaded.email
  }

  /** Neither a blank email nor one that another account has. */
  predicate Storable(config: Config, d: Directory, a: AccountId, loaded: Account, email: Option<string>) {
    && a in d.accounts && (email.Some? ==> !config.emails.blank(email.value))
    && (EmailToStore(config, loaded, email).Some? ==> !EmailTaken(d, a, EmailToStore(config, loaded, email).value))
  }

  /** Update's transaction, on the row it loaded before. */
  function AfterStore(config: Config, d: Directory, a: AccountId, loaded: Account, email: Option<string>): Directory {
    if Storable(config, d, a, loaded, email) then StoreUpdate(d, a, loaded, EmailToStore(config, loaded, email)) else d
  }

  /** Update as one completed operation. */
  function AfterUpdate(config: Config, d: Directory, a: AccountId, email: Option<string>): Directory {
    if a in d.accounts then AfterStore(config, d, a, d.accounts[a], email) else d
  }

  ghost predicate OpStep(config: Config, d: Directory, op: Op, d': Directory, out: Option<Outcome>) {
    match op
    case Resolve(p, now) => out.Some? && ResolveStep(config, d, p, now, d', out.value)
    case Create(email, uuid) =>
      && out.None?
      && d' == if config.emails.canonical(email) == "" || EmailTaken(d, d.nextId, config.emails.canonical(email)) then d
               else AddAccount(d, Account(uuid, Some(config.emails.canonical(email)), None))
    case CreateAnonymous(uuid) => out.None? && d' == AddAccount(d, Account(uuid, None, None))
    case Update(a, email) => out.None? && d' == AfterUpdate(config, d, a, email)
    case LinkTo(a, key) =>
      out.None? && d' == if a in d.accounts && key !in d.identities then WithIdentity(d, key, a) else d
    case Unlink(key) => out.None? && d' == d.(identities := d.identities - {key})
  }

  // ----- the invariant -----

  predicate CanonicalEmail(config: Config, email: Option<string>) {
    email.Some? ==> email.value != "" && config.emails.canonical(email.value) == email.value
  }

  ghost predicate Inv(config: Config, d: Directory) {
    && Lawful(config.emails)
    && (forall a :: a in d.accounts ==> a < d.nextId && CanonicalEmail(config, d.accounts[a].email))
    && (forall a, b :: (&& a in d.accounts && b in d.accounts && d.accounts[a].email.Some?
                        && d.accounts[a].email == d.accounts[b].email) ==> a == b)
    && (forall k :: k in d.identities ==> d.identities[k] in d.accounts)
  }

  /** Accounts stay, keep their uuid, and keep a verification time once set. */
  ghost predicate Keeps(d: Directory, d': Directory) {
    forall a :: a in d.accounts ==>
                  && a in d'.accounts && d'.accounts[a].uuid == d.accounts[a].uuid
                  && (d.accounts[a].verifiedAt.Some? ==> d'.accounts[a].verifiedAt == d.accounts[a].verifiedAt)
  }

  lemma LinkKeepsInv(config: Config, d: Directory, key: Key, a: AccountId)
    requires Inv(config, d) && a in d.accounts
    ensures Inv(config, WithIdentity(d, key, a)) && Keeps(d, WithIdentity(d, key, a))
  {
  }

  lemma VerifyKeepsInv(config: Config, d: Directory, a: AccountId, now: Time)
    requires Inv(config, d) && a in d.accounts && d.accounts[a].verifiedAt.None?
    ensures Inv(config, Verified(d, a, now)) && Keeps(d, Verified(d, a, now))
  {
  }

  lemma AddKeepsInv(config: Config, d: Directory, account: Account)
    requires Inv(config, d) && CanonicalEmail(config, account.email)
    requires account.email.Some? ==> !EmailTaken(d, d.nextId, account.email.value)
    ensures Inv(config, AddAccount(d, account)) && Keeps(d, AddAccount(d, account))
  {
    var d' := AddAccount(d, account);
    forall a, b | && a in d'.accounts && b in d'.accounts && d'.accounts[a].email.Some?
                  && d'.accounts[a].email == d'.accounts[b].email
      ensures a == b
    {
      assert a in d.accounts && b in d.accounts && d.accounts[a].email == d.accounts[b].email ==> a == b;
    }
  }

  /** An email the case-insensitive lookup does not know is not stored. */
  lemma UnknownIsNotTaken(config: Config, d: Directory, email: string)
    requires !EmailKnown(config, d, email)
    ensures !EmailTaken(d, d.nextId, email)
  {
    forall b | b in d.accounts ensures d.accounts[b].email != Some(email) {
      assert !HasEmail(config, d, b, email);
    }
  }

  lemma OwnEmailIsFree(config: Config, d: Directory, a: AccountId)
    requires Inv(config, d) && a in d.accounts && d.accounts[a].email.Some?
    ensures !EmailTaken(d, a, d.accounts[a].email.value)
  {
  }

  lemma CreatedKeepsInv(config: Config, d: Directory, p: Principal, now: Time, uuid: string)
    requires Inv(config, d)
    requires config.emails.canonical(p.email) != "" ==> !EmailTaken(d, d.nextId, config.emails.canonical(p.email))
    ensures Inv(config, Created(config, d, p, now, uuid)) && Keeps(d, Created(config, d, p, now, uuid))
  {
    var d' := Created(config, d, p, now, uuid);
    var account := d'.accounts[d.nextId];
    AddKeepsInv(config, d, account);
    var added := AddAccount(d, account);
    if HasKey(p) {
      LinkKeepsInv(config, added, KeyOf(p), d.nextId);
      assert d' == WithIdentity(added, KeyOf(p), d.nextId);
    }
  }

  lemma EmailStepKeepsInv(config: Config, d: Directory, p: Principal, now: Time, a: AccountId, d': Directory,
                          out: Outcome)
    requires Inv(config, d) && a in d.accounts && EmailStep(d, p, now, a, d', out)
    ensures Inv(config, d') && Keeps(d, d')
    ensures out.Resolved? ==> KeyOf(p) !in d.identities && d'.identities == d.identities[KeyOf(p) := a]
    ensures !out.Resolved? ==> d' == d
  {
    if out.Resolved? {
      if d.accounts[a].verifiedAt.None? {
        VerifyKeepsInv(config, d, a, now);
        LinkKeepsInv(config, Verified(d, a, now), KeyOf(p), a);
      } else {
        LinkKeepsInv(config, d, KeyOf(p), a);
      }
    }
  }

  lemma ResolveKeepsInv(config: Config, d: Directory, p: Principal, now: Time, d': Directory, out: Outcome)
    requires Inv(config, d) && ResolveStep(config, d, p, now, d', out)
    ensures Inv(config, d') && Keeps(d, d')
    ensures out.Resolved? ==> out.account in d'.accounts
    ensures forall k :: k in d.identities ==> k in d'.identities && d'.identities[k] == d.identities[k]
    ensures out.Resolved? && !IsLocal(config, p) && HasKey(p) ==>
              KeyOf(p) in d'.identities && d'.identities[KeyOf(p)] == out.account
  {
    if IsLocal(config, p) {
    } else if HasKey(p) && KeyOf(p) in d.identities {
    } else if config.emails.canonical(p.email) != "" && EmailKnown(config, d, config.emails.canonical(p.email)) {
      var a :| && a in d.accounts && HasEmail(config, d, a, config.emails.canonical(p.email))
               && EmailStep(d, p, now, a, d', out);
      EmailStepKeepsInv(config, d, p, now, a, d', out);
    } else {
      var uuid :| d' == Created(config, d, p, now, uuid);
      if config.emails.canonical(p.email) != "" {
        UnknownIsNotTaken(config, d, config.emails.canonical(p.email));
      }
      CreatedKeepsInv(config, d, p, now, uuid);
    }
  }

  lemma StoreKeepsInv(config: Config, d: Directory, a: AccountId, loaded: Account, email: Option<string>)
    requires Inv(config, d) && CanonicalEmail(config, loaded.email)
    ensures Inv(config, AfterStore(config, d, a, loaded, email))
  {
    var d' := AfterStore(config, d, a, loaded, email);
    forall b, c | && b in d'.accounts && c in d'.accounts && d'.accounts[b].email.Some?
                  && d'.accounts[b].email == d'.accounts[c].email
      ensures b == c
    {
      assert b != a && c != a ==> d'.accounts[b] == d.accounts[b] && d'.accounts[c] == d.accounts[c];
    }
  }

  /**
   A store keeps what the directory promises exactly when the row it loaded still has the current verification time.
   */
  lemma StoreKeepsIff(d: Directory, a: AccountId, loaded: Account, email: Option<string>)
    requires a in d.accounts
    ensures Keeps(d, StoreUpdate(d, a, loaded, email)) <==>
            d.accounts[a].verifiedAt.None? || loaded.verifiedAt == d.accounts[a].verifiedAt
  {
    var d' := StoreUpdate(d, a, loaded, email);
    assert forall b :: b in d.accounts && b != a ==> b in d'.accounts && d'.accounts[b] == d.accounts[b];
    assert d'.accounts[a].verifiedAt == loaded.verifiedAt;
  }

  lemma AfterVerifyKeepsInv(config: Config, d: Directory, a: AccountId, loaded: Account, p: Principal, now: Time)
    requires Inv(config, d) && CanonicalEmail(config, loaded.email)
    ensures Inv(config, AfterVerify(d, a, loaded, p, now))
  {
    if Verifiable(d, a, loaded, p) {
      var stamped := loaded.(verifiedAt := Some(now));
      StoreKeepsInv(config, d, a, stamped, None);
      LinkKeepsInv(config, AfterStore(config, d, a, stamped, None), KeyOf(p), a);
    }
  }

  lemma UpdateKeepsInv(config: Config, d: Directory, a: AccountId, email: Option<string>)
    requires Inv(config, d)
    ensures Inv(config, AfterUpdate(config, d, a, email)) && Keeps(d, AfterUpdate(config, d, a, email))
  {
    if a in d.accounts {
      StoreKeepsInv(config, d, a, d.accounts[a], email);
      StoreKeepsIff(d, a, d.accounts[a], EmailToStore(config, d.accounts[a], email));
    }
  }

  lemma StepKeepsInv(config: Config, d: Directory, op: Op, d': Directory, out: Option<Outcome>)
    requires Inv(config, d) && OpStep(config, d, op, d', out)
    ensures Inv(config, d') && Keeps(d, d')
    ensures forall k :: k in d.identities && op != Unlink(k) ==>
                          k in d'.identities && d'.identities[k] == d.identities[k]
  {
    match op
    case Resolve(p, now) => ResolveKeepsInv(config, d, p, now, d', out.value);
    case Create(email, uuid) =>
      if d' != d {
        AddKeepsInv(config, d, Account(uuid, Some(config.emails.canonical(email)), None));
      }
    case CreateAnonymous(uuid) => AddKeepsInv(config, d, Account(uuid, None, None));
    case Update(a, email) => UpdateKeepsInv(config, d, a, email);
    case LinkTo(a, key) =>
      if d' != d {
        LinkKeepsInv(config, d, key, a);
      }
    case Unlink(key) =>
  }

  // ----- histories -----

  datatype Event = Event(op: Op, out: Option<Outcome>)

  ghost predicate IsHistory(config: Config, run: seq<Directory>, events: seq<Event>) {
    && |run| == |events| + 1
    && forall i :: 0 <= i < |events| ==> OpStep(config, run[i], events[i].op, run[i + 1], events[i].out)
  }

  /** Every stored email is in canonical form and not empty, no two accounts share one, and identities name accounts. */
  ghost predicate SoundColumns(config: Config, d: Directory) {
    && (forall a :: a in d.accounts && d.accounts[a].email.Some? ==>
          var email := d.accounts[a].email.value; email != "" && config.emails.canonical(email) == email)
    && (forall a, b :: (&& a in d.accounts && b in d.accounts && a != b && d.accounts[a].email.Some?)
                         ==> d.accounts[a].email != d.accounts[b].email)
    && (forall k :: k in d.identities ==> d.identities[k] in d.accounts)
  }

  /** Emails stay canonical and pairwise distinct, and a verification time once set is never lost. */
  lemma {:induction false} DirectoryStaysSound(config: Config, run: seq<Directory>, events: seq<Event>, i: nat, j: nat)
    requires IsHistory(config, run, events) && Inv(config, run[0]) && i <= j < |run|
    ensures Inv(config, run[j]) && SoundColumns(config, run[j])
    ensures Keeps(run[i], run[j])
    decreases j
  {
    if j > 0 {
      DirectoryStaysSound(config, run, events, if i < j then i else 0, j - 1);
      StepKeepsInv(config, run[j - 1], events[j - 1].op, run[j], events[j - 1].out);
      if i < j {
        forall a | a in run[i].accounts
          ensures && a in run[j].accounts && run[j].accounts[a].uuid == run[i].accounts[a].uuid
                  && (run[i].accounts[a].verifiedAt.Some? ==>
                        run[j].accounts[a].verifiedAt == run[i].accounts[a].verifiedAt)
        {
          assert a in run[j - 1].accounts;
        }
      }
    }
  }

  lemma {:induction false} IdentityPersists(config: Config, run: seq<Directory>, events: seq<Event>, i: nat, j: nat,
                                            key: Key)
    requires IsHistory(config, run, events) && Inv(config, run[0]) && i <= j < |run|
    requires key in run[i].identities
    requires forall m :: i <= m < j ==> events[m].op != Unlink(key)
    ensures key in run[j].identities && run[j].identities[key] == run[i].identities[key]
    decreases j
  {
    if i < j {
      IdentityPersists(config, run, events, i, j - 1, key);
      DirectoryStaysSound(config, run, events, 0, j - 1);
      StepKeepsInv(config, run[j - 1], events[j - 1].op, run[j], events[j - 1].out);
    }
  }

  /**
   A principal that names an issuer and a subject, once resolved, resolves to the same account at every later
   time until that identity is unlinked, whatever email it then claims and whatever else happened.
   */
  lemma ResolutionIsStable(config: Config, run: seq<Directory>, events: seq<Event>, i: nat, j: nat,
                           p: Principal, now: Time, a: AccountId, p': Principal, now': Time)
    requires IsHistory(config, run, events) && Inv(config, run[0]) && i < j < |events|
    requires !IsLocal(config, p) && HasKey(p) && KeyOf(p') == KeyOf(p)
    requires events[i] == Event(Resolve(p, now), Some(Resolved(a))) && events[j].op == Resolve(p', now')
    requires forall m :: i <= m < j ==> events[m].op != Unlink(KeyOf(p))
    ensures events[j].out == Some(Resolved(a)) && run[j + 1] == run[j]
  {
    DirectoryStaysSound(config, run, events, 0, i);
    assert OpStep(config, run[i], events[i].op, run[i + 1], events[i].out);
    ResolveKeepsInv(config, run[i], p, now, run[i + 1], Resolved(a));
    IdentityPersists(config, run, events, i + 1, j, KeyOf(p));
    DirectoryStaysSound(config, run, events, 0, j);
    assert OpStep(config, run[j], events[j].op, run[j + 1], events[j].out);
  }

  /**
   Without an issuer or a subject the promise fails for every such principal: three resolutions in a row never
   all return one account.  With ResolutionIsStable: stable exactly when both are present.
   */
  lemma KeylessResolutionIsNotStable(config: Config, p: Principal,
                                     d0: Directory, d1: Directory, d2: Directory, d3: Directory,
                                     t1: Time, t2: Time, t3: Time, o1: Outcome, o2: Outcome, o3: Outcome, a: AccountId)
    requires Inv(config, d0) && !IsLocal(config, p) && !HasKey(p)
    requires ResolveStep(config, d0, p, t1, d1, o1)
    requires ResolveStep(config, d1, p, t2, d2, o2)
    requires ResolveStep(config, d2, p, t3, d3, o3)
    ensures !(o1 == Resolved(a) && o2 == Resolved(a) && o3 == Resolved(a))
  {
    ResolveKeepsInv(config, d0, p, t1, d1, o1);
    if o1 == Resolved(a) && o2 == Resolved(a) && o3 == Resolved(a) {
      KeylessRepeatLinks(config, d0, d1, d2, p, t1, t2, a);
      ResolveKeepsInv(config, d1, p, t2, d2, o2);
      KeylessRepeatLinks(config, d1, d2, d3, p, t2, t3, a);
    }
  }

  /** The second of two equal keyless resolutions wrote the (incomplete) identity row. */
  lemma KeylessRepeatLinks(config: Config, d0: Directory, d1: Directory, d2: Directory, p: Principal, t1: Time,
                           t2: Time, a: AccountId)
    requires Inv(config, d0) && Inv(config, d1) && !IsLocal(config, p) && !HasKey(p)
    requires ResolveStep(config, d0, p, t1, d1, Resolved(a))
    requires ResolveStep(config, d1, p, t2, d2, Resolved(a))
    ensures KeyOf(p) !in d1.identities && KeyOf(p) in d2.identities
  {
    ResolveKeepsInv(config, d0, p, t1, d1, Resolved(a));
    assert a < d1.nextId;
  }

  /**
   Update loads the row before its transaction and writes the loaded verification time back: if Resolve verifies
   the account in between, the verification is lost.
   */
  lemma StaleUpdateLosesVerification(config: Config, d: Directory, d': Directory, p: Principal, now: Time, a: AccountId)
    requires Inv(config, d) && a in d.accounts && d.accounts[a].verifiedAt.None?
    requires !IsLocal(config, p) && p.emailVerified && KeyOf(p) !in d.identities
    requires config.emails.canonical(p.email) != "" && d.accounts[a].email == Some(config.emails.canonical(p.email))
    requires ResolveStep(config, d, p, now, d', Resolved(a))
    ensures d'.accounts[a].verifiedAt == Some(now)
    ensures StoreUpdate(d', a, d.accounts[a], d.accounts[a].email).accounts[a].verifiedAt.None?
  {
    assert HasEmail(config, d, a, config.emails.canonical(p.email));
  }

  // ----- the operations, on the columns -----

  /** The stored email of `a` compares equal to the canonical form of the claimed one, which is not empty. */
  predicate ClaimsEmailOf(config: Config, d: Directory, p: Principal, a: AccountId) {
    var claimed := config.emails.canonical(p.email);
    && claimed != "" && a in d.accounts && d.accounts[a].email.Some?
    && config.emails.compared(d.accounts[a].email.value) == config.emails.compared(claimed)
  }

  /** A token of the server itself names an account by its uuid, and nothing is written. */
  lemma LocalResolution(config: Config, d: Directory, p: Principal, now: Time, d': Directory, out: Outcome)
    requires ResolveStep(config, d, p, now, d', out) && config.localIssuer != "" && p.issuer == config.localIssuer
    ensures d' == d && (out.Resolved? || out in {MalformedSubject, UserGone})
    ensures out == MalformedSubject <==> config.parseUuid(p.subject).None?
    ensures out.Resolved? ==>
              out.account in d.accounts && config.parseUuid(p.subject) == Some(d.accounts[out.account].uuid)
    ensures out == UserGone ==> forall a :: a in d.accounts ==> config.parseUuid(p.subject) != Some(d.accounts[a].uuid)
  {
  }

  /** A known (issuer, subject) answers by itself, whatever email is claimed. */
  lemma KnownIdentityResolution(config: Config, d: Directory, p: Principal, now: Time, d': Directory, out: Outcome)
    requires ResolveStep(config, d, p, now, d', out)
    requires config.localIssuer == "" || p.issuer != config.localIssuer
    requires p.issuer != "" && p.subject != "" && Key(p.issuer, p.subject) in d.identities
    ensures var a := d.identities[Key(p.issuer, p.subject)];
            d' == d && out == if a in d.accounts then Resolved(a) else UserGone
  {
  }

  /** Otherwise an account is only ever taken over by its own email, and only if one side has verified it. */
  lemma EmailResolution(config: Config, d: Directory, p: Principal, now: Time, d': Directory, out: Outcome,
                        b: AccountId)
    requires ResolveStep(config, d, p, now, d', out)
    requires config.localIssuer == "" || p.issuer != config.localIssuer
    requires p.issuer == "" || p.subject == "" || Key(p.issuer, p.subject) !in d.identities
    requires ClaimsEmailOf(config, d, p, b)
    ensures out.Resolved? ==>
              var a := out.account;
              && ClaimsEmailOf(config, d, p, a) && (d.accounts[a].verifiedAt.Some? || p.emailVerified)
              && Key(p.issuer, p.subject) !in d.identities
              && d'.identities == d.identities[Key(p.issuer, p.subject) := a] && d'.nextId == d.nextId
              && d'.accounts.Keys == d.accounts.Keys
              && (forall c :: c in d.accounts && c != a ==> d'.accounts[c] == d.accounts[c])
              && d'.accounts[a] == d.accounts[a].(verifiedAt :=
                   if d.accounts[a].verifiedAt.Some? then d.accounts[a].verifiedAt else Some(now))
    ensures !out.Resolved? ==> d' == d && out in {UnverifiedTakeover, UniqueViolation}
    ensures out == UnverifiedTakeover ==>
              !p.emailVerified && exists a :: ClaimsEmailOf(config, d, p, a) && d.accounts[a].verifiedAt.None?
    ensures out == UniqueViolation ==> Key(p.issuer, p.subject) in d.identities
    ensures (!p.emailVerified && forall a :: ClaimsEmailOf(config, d, p, a) ==> d.accounts[a].verifiedAt.None?) ==>
              out == UnverifiedTakeover
  {
    assert HasEmail(config, d, b, config.emails.canonical(p.email));
    var a :| && a in d.accounts && HasEmail(config, d, a, config.emails.canonical(p.email))
             && EmailStep(d, p, now, a, d', out);
    assert ClaimsEmailOf(config, d, p, a);
  }

  /** And without any account of that email a new one is made, exactly as claimed. */
  lemma NewAccountResolution(config: Config, d: Directory, p: Principal, now: Time, d': Directory, out: Outcome)
    requires Inv(config, d) && ResolveStep(config, d, p, now, d', out)
    requires config.localIssuer == "" || p.issuer != config.localIssuer
    requires p.issuer == "" || p.subject == "" || Key(p.issuer, p.subject) !in d.identities
    requires forall a :: a in d.accounts ==> !ClaimsEmailOf(config, d, p, a)
    ensures out == Resolved(d.nextId) && d.nextId !in d.accounts && d'.nextId == d.nextId + 1
    ensures d'.accounts.Keys == d.accounts.Keys + {d.nextId}
    ensures forall a :: a in d.accounts ==> d'.accounts[a] == d.accounts[a]
    ensures var claimed := config.emails.canonical(p.email);
            && d'.accounts[d.nextId].email == (if claimed == "" then None else Some(claimed))
            && d'.accounts[d.nextId].verifiedAt == (if p.emailVerified then Some(now) else None)
    ensures d'.identities == if p.issuer != "" && p.subject != ""
                             then d.identities[Key(p.issuer, p.subject) := d.nextId] else d.identities
  {
    var email := config.emails.canonical(p.email);
    assert forall a :: a in d.accounts && email != "" && HasEmail(config, d, a, email) ==>
        ClaimsEmailOf(config, d, p, a);
  }

  /** The operations of one transaction. */
  lemma TransactionsDecide(config: Config, d: Directory, op: Op, d': Directory, out: Option<Outcome>)
    requires OpStep(config, d, op, d', out) && !op.Resolve? && !op.Update?
    ensures op.Create? ==>
              var email := config.emails.canonical(op.email);
              if email != "" && forall a :: a in d.accounts && a != d.nextId ==> d.accounts[a].email != Some(email)
              then && d'.accounts == d.accounts[d.nextId := Account(op.uuid, Some(email), None)]
                   && d'.identities == d.identities && d'.nextId == d.nextId + 1
              else d' == d
    ensures op.CreateAnonymous? ==>
              && d'.accounts == d.accounts[d.nextId := Account(op.uuid, None, None)]
              && d'.identities == d.identities && d'.nextId == d.nextId + 1
    ensures op.LinkTo? ==>
              && d'.accounts == d.accounts && d'.nextId == d.nextId
              && d'.identities == if op.a in d.accounts && op.key !in d.identities
                                  then d.identities[op.key := op.a] else d.identities
    ensures op.Unlink? ==>
              d'.accounts == d.accounts && d'.nextId == d.nextId && d'.identities == d.identities - {op.key}
  {
  }

  /** Update stores exactly when it may: no other account has the email, and a given one is not blank. */
  lemma UpdateDecides(config: Config, d: Directory, a: AccountId, email: Option<string>)
    requires Inv(config, d)
    ensures var d' := AfterUpdate(config, d, a, email);
            && d'.identities == d.identities && d'.nextId == d.nextId && d'.accounts.Keys == d.accounts.Keys
            && (forall b :: b in d.accounts && b != a ==> d'.accounts[b] == d.accounts[b])
            && (a in d.accounts ==>
                  d'.accounts[a] == d.accounts[a].(email :=
                    if && email.Some? && config.emails.canonical(email.value) != ""
                       && forall b :: b in d.accounts && b != a ==>
                                        d.accounts[b].email != Some(config.emails.canonical(email.value))
                    then Some(config.emails.canonical(email.value)) else d.accounts[a].email))
  {
    if a in d.accounts && d.accounts[a].email.Some? {
      OwnEmailIsFree(config, d, a);
    }
  }

  // ----- the code -----

  class UserDirectory {
    const config: Config
    var accounts: map<AccountId, Account>
    var identities: map<Key, AccountId>
    var nextId: AccountId

    function Contents(): Directory
      reads this
    {
      Directory(accounts, identities, nextId)
    }

    constructor (config: Config)
      requires Lawful(config.emails)
      ensures this.config == config && Contents() == Directory(map[], map[], 0) && Inv(config, Contents())
    {
      this.config := config;
      accounts, identities, nextId := map[], map[], 0;
    }

    method LinkIdentity(a: AccountId, p: Principal) returns (out: Outcome)
      modifies this`identities
      ensures out == if KeyOf(p) in old(identities) then UniqueViolation else Resolved(a)
      ensures identities == if out.Resolved? then old(identities)[KeyOf(p) := a] else old(identities)
    {
      if KeyOf(p) in identities {
        return UniqueViolation;
      }
      identities := identities[KeyOf(p) := a];
      out := Resolved(a);
    }

    /** Both writes in one transaction, on the row that Resolve loaded: a violation rolls both back. */
    method VerifyAndLink(a: AccountId, loaded: Account, p: Principal, now: Time) returns (out: Outcome)
      requires a in accounts
      modifies this`accounts, this`identities
      ensures out == if Verifiable(old(Contents()), a, loaded, p) then Resolved(a) else UniqueViolation
      ensures Contents() == AfterVerify(old(Contents()), a, loaded, p, now)
    {
      if loaded.email.Some? && EmailTaken(Contents(), a, loaded.email.value) {
        return UniqueViolation;
      }
      var before := accounts;
      accounts := accounts[a := accounts[a].(email := loaded.email, verifiedAt := Some(now))];
      out := LinkIdentity(a, p);
      if !out.Resolved? {
        accounts := before;
      }
    }

    /** One transaction: the new account and its identity row, or nothing. */
    method AutoCreate(p: Principal, now: Time, uuid: string) returns (out: Outcome)
      modifies this
      ensures out == if Creatable(config, old(Contents()), p) then Resolved(old(nextId)) else UniqueViolation
      ensures Contents() == AfterCreate(config, old(Contents()), p, now, uuid)
    {
      var email := config.emails.canonical(p.email);
      if email != "" && EmailTaken(Contents(), nextId, email) {
        return UniqueViolation;
      }
      if HasKey(p) && KeyOf(p) in identities {
        return UniqueViolation;
      }
      var account := Account(uuid, if email == "" then None else Some(email), OptionalTime(p.emailVerified, now));
      accounts := accounts[nextId := account];
      if HasKey(p) {
        identities := identities[KeyOf(p) := nextId];
      }
      out := Resolved(nextId);
      nextId := nextId + 1;
    }

    /** The five branches, behind the local-issuer fast path. */
    method ResolvePrincipal(p: Principal, now: Time, uuid: string) returns (out: Outcome)
      requires Inv(config, Contents())
      modifies this
      ensures ResolveStep(config, old(Contents()), p, now, Contents(), out)
      ensures Inv(config, Contents()) && Keeps(old(Contents()), Contents())
    {
      ghost var before := Contents();
      if IsLocal(config, p) {
        var parsed := config.parseUuid(p.subject);
        if parsed.None? {
          return MalformedSubject;
        }
        if a :| a in accounts && accounts[a].uuid == parsed.value {
          return Resolved(a);
        }
        return UserGone;
      }
      if HasKey(p) && KeyOf(p) in identities {
        var a := identities[KeyOf(p)];
        return if a in accounts then Resolved(a) else UserGone;
      }
      var email := config.emails.canonical(p.email);
      var found := false;
      if email != "" {
        if a :| a in accounts && HasEmail(config, Contents(), a, email) {
          found := true;
          if accounts[a].verifiedAt.Some? {
            out := LinkIdentity(a, p);
          } else if p.emailVerified {
            OwnEmailIsFree(config, before, a);
            out := VerifyAndLink(a, accounts[a], p, now);
          } else {
            out := UnverifiedTakeover;
          }
          assert EmailKnown(config, before, email);
          assert EmailStep(before, p, now, a, Contents(), out);
        }
      }
      if !found {
        if email != "" {
          UnknownIsNotTaken(config, before, email);
        }
        out := AutoCreate(p, now, uuid);
        assert Contents() == Created(config, before, p, now, uuid);
      }
      ResolveKeepsInv(config, before, p, now, Contents(), out);
    }

    /** Update's read, before its transaction. */
    method LoadAccount(a: AccountId) returns (loaded: Option<Account>)
      ensures loaded == if a in accounts then Some(accounts[a]) else None
    {
      loaded := if a in accounts then Some(accounts[a]) else None;
    }

    /** Update's validation and transaction, on the row it loaded; other writers may have run in between. */
    method StoreLoaded(a: AccountId, loaded: Account, email: Option<string>) returns (stored: bool)
      requires Inv(config, Contents()) && CanonicalEmail(config, loaded.email)
      modifies this`accounts
      ensures Contents() == AfterStore(config, old(Contents()), a, loaded, email)
      ensures Inv(config, Contents())
      ensures stored <==> Storable(config, old(Contents()), a, loaded, email)
      ensures stored ==> (Keeps(old(Contents()), Contents()) <==>
                            old(accounts)[a].verifiedAt.None? || loaded.verifiedAt == old(accounts)[a].verifiedAt)
    {
      StoreKeepsInv(config, Contents(), a, loaded, email);
      if a !in accounts || (email.Some? && config.emails.blank(email.value)) {
        return false;
      }
      var newEmail := if email.Some? then Some(config.emails.canonical(email.value)) else loaded.email;
      if newEmail.Some? && EmailTaken(Contents(), a, newEmail.value) {
        return false;
      }
      StoreKeepsIff(Contents(), a, loaded, newEmail);
      accounts := accounts[a := accounts[a].(email := newEmail, verifiedAt := loaded.verifiedAt)];
      stored := true;
    }

    /** Update with no other writer between its read and its transaction. */
    method UpdateEmail(a: AccountId, email: Option<string>) returns (stored: bool)
      requires Inv(config, Contents())
      modifies this`accounts
      ensures Contents() == AfterUpdate(config, old(Contents()), a, email)
      ensures Inv(config, Contents()) && Keeps(old(Contents()), Contents())
      ensures stored <==> && a in old(accounts)
                          && (email.Some? ==> && config.emails.canonical(email.value) != ""
                                              && !EmailTaken(old(Contents()), a, config.emails.canonical(email.value)))
    {
      UpdateKeepsInv(config, Contents(), a, email);
      var loaded := LoadAccount(a);
      if loaded.None? {
        return false;
      }
      stored := StoreLoaded(a, loaded.value, email);
    }

    method CreateAccount(email: string, uuid: string) returns (created: Option<AccountId>)
      requires Inv(config, Contents())
      modifies this
      ensures var canonical := config.emails.canonical(email);
              && (created.Some? <==> canonical != "" && !EmailTaken(old(Contents()), old(nextId), canonical))
              && Contents() == if created.Some? then AddAccount(old(Contents()), Account(uuid, Some(canonical), None))
                               else old(Contents())
      ensures Inv(config, Contents()) && Keeps(old(Contents()), Contents())
    {
      var canonical := config.emails.canonical(email);
      if canonical == "" || EmailTaken(Contents(), nextId, canonical) {
        return None;
      }
      AddKeepsInv(config, Contents(), Account(uuid, Some(canonical), None));
      accounts := accounts[nextId := Account(uuid, Some(canonical), None)];
      created := Some(nextId);
      nextId := nextId + 1;
    }
  }
}
