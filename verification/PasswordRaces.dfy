/**
 SetPassword as the two steps it is: a check of the current password, and later a transaction that writes the new
 one, interleaved with every other transaction on the credentials.
 */
module PasswordRaces {
  import opened Wrappers
  import opened CredentialLedger

  type SessionId = int

  /** A SetPassword that has passed its check. */
  datatype Session = Passed(account: AccountId, newHash: string) | Closed

  datatype World = World(ledger: Ledger, sessions: map<SessionId, Session>)

  datatype Event =
    | Whole(txn: Txn)
    | Check(u: SessionId, account: AccountId, current: Option<string>, newHash: string)
    | Write(u: SessionId)

  ghost predicate Step(verifies: Verifier, w: World, e: Event, w': World) {
    match e
    case Whole(txn) => w' == w.(ledger := AfterTxn(w.ledger, txn))
    case Check(u, account, current, newHash) =>
      && u !in w.sessions && MayReplace(w.ledger, account, current, verifies)
      && w' == w.(sessions := w.sessions[u := Passed(account, newHash)])
    case Write(u) =>
      && u in w.sessions && w.sessions[u].Passed?
      && w' == World(AfterTxn(w.ledger, PasswordTxn(w.sessions[u].account, w.sessions[u].newHash)),
                     w.sessions[u := Closed])
  }

  ghost predicate IsHistory(verifies: Verifier, run: seq<World>, events: seq<Event>) {
    && |run| == |events| + 1
    && forall i :: 0 <= i < |events| ==> Step(verifies, run[i], events[i], run[i + 1])
  }

  /** Undisturbed, a check that passes and a write are a SetPassword, and a check that fails leads to none. */
  lemma UndisturbedSet(verifies: Verifier, w: World, u: SessionId, account: AccountId, current: Option<string>,
                       newHash: string)
    requires u !in w.sessions
    ensures var passed := w.(sessions := w.sessions[u := Passed(account, newHash)]);
            var written := World(AfterTxn(w.ledger, PasswordTxn(account, newHash)), w.sessions[u := Closed]);
            && (Step(verifies, w, Check(u, account, current, newHash), passed) <==>
                  account in w.ledger.passwords ==>
                    current.Some? && current.value != "" && verifies(current.value, w.ledger.passwords[account]))
            && Step(verifies, passed, Write(u), written)
  {
    var passed := w.(sessions := w.sessions[u := Passed(account, newHash)]);
    assert passed.sessions[u := Closed] == w.sessions[u := Closed];
  }

  // ----- who wrote the current password -----

  function Password(l: Ledger, account: AccountId): Option<string> {
    if account in l.passwords then Some(l.passwords[account]) else None
  }

  /** The transaction that an event runs, if any. */
  function TxnOf(w: World, e: Event): Option<Txn> {
    match e
    case Whole(txn) => Some(txn)
    case Check(_, _, _, _) => None
    case Write(u) =>
      if u in w.sessions && w.sessions[u].Passed?
      then Some(PasswordTxn(w.sessions[u].account, w.sessions[u].newHash)) else None
  }

  /** The event sets or removes the account's password. */
  predicate Touches(w: World, e: Event, account: AccountId) {
    match TxnOf(w, e)
    case Some(PasswordTxn(a, _)) => a == account
    case Some(RemoveTxn(a)) => a == account && a in w.ledger.passwords && |OidcOf(w.ledger, a)| > 0
    case _ => false
  }

  /** What it leaves: the new hash, or none. */
  function Leaves(w: World, e: Event): Option<string> {
    match TxnOf(w, e)
    case Some(PasswordTxn(_, hash)) => Some(hash)
    case _ => None
  }

  lemma StepPassword(verifies: Verifier, w: World, e: Event, w': World, account: AccountId)
    requires Step(verifies, w, e, w')
    ensures Password(w'.ledger, account) == if Touches(w, e, account) then Leaves(w, e) else Password(w.ledger, account)
  {
  }

  ghost predicate Untouched(run: seq<World>, events: seq<Event>, k: nat, m: nat, account: AccountId)
    requires |run| == |events| + 1 && m <= |events|
  {
    forall i :: k <= i < m ==> !Touches(run[i], events[i], account)
  }

  lemma {:induction false} UntouchedPassword(verifies: Verifier, run: seq<World>, events: seq<Event>,
                                             k: nat, m: nat, account: AccountId)
    requires IsHistory(verifies, run, events) && k <= m < |run| && Untouched(run, events, k, m, account)
    ensures Password(run[m].ledger, account) == Password(run[k].ledger, account)
    decreases m
  {
    if k < m {
      UntouchedPassword(verifies, run, events, k, m - 1, account);
      StepPassword(verifies, run[m - 1], events[m - 1], run[m], account);
    }
  }

  /** Event `k` is the last before `m` to set the account's password, and sets it to another one than was checked. */
  ghost predicate LeavesAnother(run: seq<World>, events: seq<Event>, k: nat, m: nat, account: AccountId,
                                checked: Option<string>)
    requires |run| == |events| + 1 && k < m <= |events|
  {
    && Touches(run[k], events[k], account) && Untouched(run, events, k + 1, m, account)
    && Leaves(run[k], events[k]).Some? && Leaves(run[k], events[k]) != checked
  }

  lemma {:induction false} LastTouch(run: seq<World>, events: seq<Event>, l: nat, m: nat, account: AccountId)
    returns (k: nat)
    requires |run| == |events| + 1 && l <= m <= |events| && !Untouched(run, events, l, m, account)
    ensures l <= k < m && Touches(run[k], events[k], account) && Untouched(run, events, k + 1, m, account)
    decreases m
  {
    k := m - 1;
    if !Touches(run[k], events[k], account) {
      k := LastTouch(run, events, l, m - 1, account);
    }
  }

  lemma PasswordAfterTouch(verifies: Verifier, run: seq<World>, events: seq<Event>, k: nat, m: nat, account: AccountId)
    requires IsHistory(verifies, run, events) && k < m < |run|
    requires Touches(run[k], events[k], account) && Untouched(run, events, k + 1, m, account)
    ensures Password(run[m].ledger, account) == Leaves(run[k], events[k])
  {
    StepPassword(verifies, run[k], events[k], run[k + 1], account);
    UntouchedPassword(verifies, run, events, k + 1, m, account);
  }

  /**
   In every history, for a check at `l` and a write at `m`: the write replaces a password that the check does not
   vouch for exactly when some event in between left another password.
   */
  lemma UnpresentedIsReplacedIff(verifies: Verifier, run: seq<World>, events: seq<Event>, l: nat, m: nat,
                                 account: AccountId)
    requires IsHistory(verifies, run, events) && l < m < |events|
    ensures !CheckCarriesOver(run[l].ledger, run[m].ledger, account) <==>
            exists k: nat :: l <= k < m && LeavesAnother(run, events, k, m, account, Password(run[l].ledger, account))
  {
    var checked := Password(run[l].ledger, account);
    CheckCarriesOverIff(run[l].ledger, run[m].ledger, account);
    if k: nat :| l <= k < m && LeavesAnother(run, events, k, m, account, checked) {
      PasswordAfterTouch(verifies, run, events, k, m, account);
    } else if Untouched(run, events, l, m, account) {
      UntouchedPassword(verifies, run, events, l, m, account);
    } else {
      var k := LastTouch(run, events, l, m, account);
      PasswordAfterTouch(verifies, run, events, k, m, account);
      assert !LeavesAnother(run, events, k, m, account, checked);
    }
  }

  /** A write whose session checked the same account, with nothing in between, replaces only what was presented. */
  lemma UndisturbedWriteIsVouchedFor(verifies: Verifier, run: seq<World>, events: seq<Event>, l: nat, m: nat)
    requires IsHistory(verifies, run, events) && l < m < |events| && events[l].Check?
    requires Untouched(run, events, l, m, events[l].account)
    ensures MayReplace(run[m].ledger, events[l].account, events[l].current, verifies)
  {
    assert Step(verifies, run[l], events[l], run[l + 1]);
    UntouchedPassword(verifies, run, events, l, m, events[l].account);
  }
}
