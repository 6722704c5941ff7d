/**
 The sign-in methods of accounts: OIDC identities and local passwords, and the transactions that add and
 remove them.  A serializable transaction is one atomic step on the ledger.
 */
module CredentialLedger {
  import opened Wrappers
  import Counting

  type AccountId = int
  type Uuid = string

  datatype Identity = Identity(account: AccountId, issuer: string, subject: string)

  datatype Ledger = Ledger(identities: map<Uuid, Identity>, passwords: map<AccountId, string>)

  function OidcOf(l: Ledger, account: AccountId): set<Uuid> {
    set u | u in l.identities && l.identities[u].account == account
  }

  function LocalCount(l: Ledger, account: AccountId): nat {
    if account in l.passwords then 1 else 0
  }

  /** The number of ways the account can sign in. */
  function Methods(l: Ledger, account: AccountId): nat {
    |OidcOf(l, account)| + LocalCount(l, account)
  }

  predicate Linked(l: Ledger, issuer: string, subject: string) {
    exists u :: u in l.identities && l.identities[u].issuer == issuer && l.identities[u].subject == subject
  }

  /** The UNIQUE (issuer, subject) constraint. */
  predicate UniqueSubjects(l: Ledger) {
    forall u, v :: (&& u in l.identities && v in l.identities
                    && l.identities[u].issuer == l.identities[v].issuer
                    && l.identities[u].subject == l.identities[v].subject) ==> u == v
  }

  datatype Outcome = Done | LastIdentity | NotFound | AlreadyLinked | BadCredentials

  // ----- replacing a password -----

  type Verifier = (string, string) -> bool

  /** The stored password, if there is one, was presented. */
  predicate MayReplace(l: Ledger, account: AccountId, current: Option<string>, verifies: Verifier) {
    account in l.passwords ==> current.Some? && current.value != "" && verifies(current.value, l.passwords[account])
  }

  /** Whatever the verifier and whatever was presented, a check passed on `read` justifies a write on `written`. */
  ghost predicate CheckCarriesOver(read: Ledger, written: Ledger, account: AccountId) {
    forall current: Option<string>, verifies: Verifier ::
      MayReplace(read, account, current, verifies) ==> MayReplace(written, account, current, verifies)
  }

  /**
   SetPassword checks outside the transaction that writes.  The check is good for the write exactly when, by then,
   there is no password or still the one that was checked.
   */
  lemma CheckCarriesOverIff(read: Ledger, written: Ledger, account: AccountId)
    ensures CheckCarriesOver(read, written, account) <==>
            (account in written.passwords ==>
               account in read.passwords && read.passwords[account] == written.passwords[account])
  {
    if account in written.passwords {
      if account !in read.passwords {
        assert MayReplace(read, account, None, (c, h) => false) && !MayReplace(written, account, None, (c, h) => false);
      } else if read.passwords[account] != written.passwords[account] {
        var same: Verifier := (c, h) => h == read.passwords[account];
        assert MayReplace(read, account, Some("x"), same) && !MayReplace(written, account, Some("x"), same);
      }
    }
  }

  /** Two first-time sets that both read before either writes: the second replaces a password that no one presented. */
  lemma RacingFirstSets(l: Ledger, account: AccountId, first: string, second: string, verifies: Verifier)
    requires account !in l.passwords
    ensures MayReplace(l, account, None, verifies)
    ensures var between := AfterTxn(l, PasswordTxn(account, first));
            && !MayReplace(between, account, None, verifies)
            && AfterTxn(between, PasswordTxn(account, second)).passwords[account] == second
  {
  }

  // ----- the two checks and the two deletions -----

  /** Unlink's guard, on the counts it read: the deletion would not leave zero methods. */
  predicate UnlinkGuard(oidc: nat, hasLocal: bool) {
    (oidc - 1) + (if hasLocal then 1 else 0) != 0
  }

  function DropIdentity(l: Ledger, account: AccountId, uuid: Uuid): Ledger {
    if uuid in OidcOf(l, account) then l.(identities := l.identities - {uuid}) else l
  }

  function DropPassword(l: Ledger, account: AccountId): Ledger {
    l.(passwords := l.passwords - {account})
  }

  lemma DropIdentityCounts(l: Ledger, account: AccountId, uuid: Uuid, other: AccountId)
    ensures Methods(DropIdentity(l, account, uuid), other) ==
            Methods(l, other) - (if other == account && uuid in OidcOf(l, account) then 1 else 0)
  {
    var l' := DropIdentity(l, account, uuid);
    if other == account && uuid in OidcOf(l, account) {
      assert OidcOf(l', account) == OidcOf(l, account) - {uuid};
    } else {
      assert OidcOf(l', other) == OidcOf(l, other);
    }
  }

  // ----- the store -----

  class CredentialStore {
    var identities: map<Uuid, Identity>
    var passwords: map<AccountId, string>

    ghost function Contents(): Ledger
      reads this
    {
      Ledger(identities, passwords)
    }

    constructor ()
      ensures Contents() == Ledger(map[], map[])
    {
      identities, passwords := map[], map[];
    }

    method IdentityCounts(account: AccountId) returns (oidc: nat, hasLocal: bool)
      ensures oidc == |OidcOf(Contents(), account)|
      ensures oidc + (if hasLocal then 1 else 0) == Methods(Contents(), account)
    {
      oidc := |set u | u in identities && identities[u].account == account|;
      hasLocal := account in passwords;
      assert (set u | u in identities && identities[u].account == account) == OidcOf(Contents(), account);
    }

    method Link(uuid: Uuid, account: AccountId, issuer: string, subject: string) returns (outcome: Outcome)
      requires uuid !in identities && UniqueSubjects(Contents())
      modifies this
      ensures UniqueSubjects(Contents())
      ensures outcome == if Linked(old(Contents()), issuer, subject) then AlreadyLinked else Done
      ensures outcome == Done ==>
                Contents() == old(Contents()).(
                  identities := old(identities)[uuid := Identity(account, issuer, subject)])
      ensures outcome != Done ==> Contents() == old(Contents())
      ensures Contents() == AfterTxn(old(Contents()), LinkTxn(uuid, account, issuer, subject))
    {
      if exists u :: u in identities && identities[u].issuer == issuer && identities[u].subject == subject {
        return AlreadyLinked;
      }
      identities := identities[uuid := Identity(account, issuer, subject)];
      outcome := Done;
    }

    /** Deletes exactly an own identity that is not the last method; a foreign or missing one changes nothing. */
    method Unlink(account: AccountId, uuid: Uuid) returns (outcome: Outcome)
      modifies this
      ensures outcome == Done <==> uuid in OidcOf(old(Contents()), account) && Methods(old(Contents()), account) >= 2
      ensures outcome == LastIdentity <==> Methods(old(Contents()), account) == 1
      ensures outcome in {Done, LastIdentity, NotFound}
      ensures Contents() == if outcome == Done then DropIdentity(old(Contents()), account, uuid) else old(Contents())
      ensures Contents() == AfterTxn(old(Contents()), UnlinkTxn(account, uuid))
    {
      var oidc, hasLocal := IdentityCounts(account);
      if !UnlinkGuard(oidc, hasLocal) {
        return LastIdentity;
      }
      if uuid !in identities || identities[uuid].account != account {
        return NotFound;
      }
      assert uuid in OidcOf(Contents(), account);
      assert |OidcOf(Contents(), account)| >= 1;
      identities := identities - {uuid};
      outcome := Done;
    }

    /** SetPassword's check, on the row it reads before its transaction. */
    method CheckCurrent(account: AccountId, current: Option<string>, verifies: Verifier) returns (outcome: Outcome)
      ensures outcome == if MayReplace(Contents(), account, current, verifies) then Done else BadCredentials
    {
      if account in passwords {
        if current.None? || current.value == "" {
          return BadCredentials;
        }
        if !verifies(current.value, passwords[account]) {
          return BadCredentials;
        }
      }
      outcome := Done;
    }

    /** SetPassword's transaction. */
    method UpsertPassword(account: AccountId, newHash: string)
      modifies this`passwords
      ensures Contents() == AfterTxn(old(Contents()), PasswordTxn(account, newHash))
    {
      passwords := passwords[account := newHash];
    }

    /** With no other writer in between, a present password is only replaced by someone who presents it. */
    method SetPassword(account: AccountId, current: Option<string>, newHash: string, verifies: Verifier)
      returns (outcome: Outcome)
      modifies this`passwords
      ensures outcome == if MayReplace(old(Contents()), account, current, verifies) then Done else BadCredentials
      ensures Contents() == if outcome == Done then AfterTxn(old(Contents()), PasswordTxn(account, newHash))
                            else old(Contents())
    {
      outcome := CheckCurrent(account, current, verifies);
      if outcome == Done {
        UpsertPassword(account, newHash);
      }
    }

    /** Idempotent; refused exactly when the password is the only method. */
    method RemovePassword(account: AccountId) returns (outcome: Outcome)
      modifies this`passwords
      ensures outcome == LastIdentity <==> account in old(passwords) && Methods(old(Contents()), account) == 1
      ensures outcome in {Done, LastIdentity}
      ensures Contents() == if outcome == Done then DropPassword(old(Contents()), account) else old(Contents())
      ensures Contents() == AfterTxn(old(Contents()), RemoveTxn(account))
    {
      var oidc, hasLocal := IdentityCounts(account);
      if !hasLocal {
        assert passwords - {account} == passwords;
        return Done;
      }
      if oidc == 0 {
        return LastIdentity;
      }
      passwords := passwords - {account};
      outcome := Done;
    }
  }

  // ----- histories of serializable transactions -----

  datatype Txn =
    | LinkTxn(uuid: Uuid, account: AccountId, issuer: string, subject: string)
    | UnlinkTxn(account: AccountId, uuid: Uuid)
    | PasswordTxn(account: AccountId, hash: string)
    | RemoveTxn(account: AccountId)

  /** What each committed or refused transaction leaves behind; the guards are those of the methods above. */
  function AfterTxn(l: Ledger, t: Txn): Ledger {
    match t
    case LinkTxn(uuid, account, issuer, subject) =>
      if uuid in l.identities || Linked(l, issuer, subject) then l
      else l.(identities := l.identities[uuid := Identity(account, issuer, subject)])
    case UnlinkTxn(account, uuid) =>
      if UnlinkGuard(|OidcOf(l, account)|, account in l.passwords) then DropIdentity(l, account, uuid) else l
    case PasswordTxn(account, hash) => l.(passwords := l.passwords[account := hash])
    case RemoveTxn(account) =>
      if account in l.passwords && |OidcOf(l, account)| > 0 then DropPassword(l, account) else l
  }

  ghost predicate IsHistory(run: seq<Ledger>, txns: seq<Txn>) {
    |run| == |txns| + 1 && forall i :: 0 <= i < |txns| ==> run[i + 1] == AfterTxn(run[i], txns[i])
  }

  lemma TxnKeepsAMethod(l: Ledger, t: Txn, account: AccountId)
    requires Methods(l, account) >= 1
    ensures Methods(AfterTxn(l, t), account) >= 1
  {
    var l' := AfterTxn(l, t);
    match t
    case LinkTxn(_, _, _, _) =>
      assert OidcOf(l, account) <= OidcOf(l', account);
      Counting.SubsetIsSmaller(OidcOf(l, account), OidcOf(l', account));
    case UnlinkTxn(a, uuid) =>
      DropIdentityCounts(l, a, uuid, account);
      if uuid in OidcOf(l, a) {
        assert |OidcOf(l, a)| >= 1;
      }
    case PasswordTxn(_, _) =>
      assert OidcOf(l', account) == OidcOf(l, account);
    case RemoveTxn(_) =>
      assert OidcOf(l', account) == OidcOf(l, account);
  }

  /** Through every history, an account that can sign in can still sign in. */
  lemma {:induction false} AccountNeverLocksItselfOut(run: seq<Ledger>, txns: seq<Txn>, i: nat, j: nat,
                                                      account: AccountId)
    requires IsHistory(run, txns) && i <= j < |run| && Methods(run[i], account) >= 1
    ensures Methods(run[j], account) >= 1
    decreases j
  {
    if i < j {
      AccountNeverLocksItselfOut(run, txns, i, j - 1, account);
      TxnKeepsAMethod(run[j - 1], txns[j - 1], account);
    }
  }

  /**
   Why the isolation level matters: whenever an account has one identity and a password, the guards of Unlink and
   RemovePassword both pass on the same snapshot, and running both deletions leaves no method at all.
   */
  lemma SnapshotsWouldLockOut(l: Ledger, account: AccountId, uuid: Uuid)
    requires OidcOf(l, account) == {uuid} && account in l.passwords
    ensures UnlinkGuard(|OidcOf(l, account)|, account in l.passwords) && |OidcOf(l, account)| > 0
    ensures Methods(DropPassword(DropIdentity(l, account, uuid), account), account) == 0
  {
    DropIdentityCounts(l, account, uuid, account);
    var dropped := DropIdentity(l, account, uuid);
    assert OidcOf(DropPassword(dropped, account), account) == OidcOf(dropped, account);
  }
}
