/**
 The email_codes table and the statements that change it, one atomic step each.

 Times are microseconds.  A transaction's `now()` is its start, while the cooldown test of
 create_email_code_with_cooldown reads `clock_timestamp()`, so a mint carries both.
 */
module EmailCodes {
  import opened Wrappers
  import Counting

  type CodeId = int
  type AccountId = int
  type Time = int

  const SECOND: int := 1_000_000
  const COOLDOWN: int := 60 * SECOND
  const CODE_TTL: int := 300 * SECOND
  const MAX_ATTEMPTS: nat := 5
  const STEP_UP_PURPOSE := "credential_change"

  datatype EmailCode = EmailCode(
    account: AccountId, hash: string, purpose: string, expiresAt: Time,
    consumedAt: Option<Time>, createdAt: Time, attempts: nat)

  type Table = map<CodeId, EmailCode>

  // ----- the statements as functions on the table -----

  predicate HasRecent(rows: Table, account: AccountId, purpose: string, clock: Time, cooldown: int) {
    exists id :: id in rows && rows[id].account == account && rows[id].purpose == purpose
                 && rows[id].createdAt > clock - cooldown
  }

  predicate IsActive(rows: Table, id: CodeId, account: AccountId, purpose: string, now: Time) {
    && id in rows && rows[id].account == account && rows[id].purpose == purpose
    && rows[id].consumedAt.None? && rows[id].expiresAt > now
  }

  /** What `ORDER BY created_at DESC LIMIT 1` may return. */
  predicate IsNewestActive(rows: Table, id: CodeId, account: AccountId, purpose: string, now: Time) {
    && IsActive(rows, id, account, purpose, now)
    && forall other :: other in rows && IsActive(rows, other, account, purpose, now) ==>
                         rows[other].createdAt <= rows[id].createdAt
  }

  predicate Claimable(rows: Table, id: CodeId, max: nat) {
    id in rows && rows[id].consumedAt.None? && rows[id].attempts < max
  }

  function ClaimedRow(row: EmailCode, max: nat, now: Time): EmailCode {
    row.(attempts := row.attempts + 1,
         consumedAt := if row.attempts + 1 >= max then Some(now) else row.consumedAt)
  }

  function AfterClaim(rows: Table, id: CodeId, max: nat, now: Time): Table {
    if Claimable(rows, id, max) then rows[id := ClaimedRow(rows[id], max, now)] else rows
  }

  predicate Consumable(rows: Table, id: CodeId) {
    id in rows && rows[id].consumedAt.None?
  }

  function AfterConsume(rows: Table, id: CodeId, now: Time): Table {
    if Consumable(rows, id) then rows[id := rows[id].(consumedAt := Some(now))] else rows
  }

  function NewCode(account: AccountId, hash: string, purpose: string, expiresAt: Time, start: Time): EmailCode {
    EmailCode(account, hash, purpose, expiresAt, None, start, 0)
  }

  // ----- what every row and every pair of rows satisfies -----

  /** The attempt bound, and exhaustion consumes. */
  predicate RowOk(row: EmailCode) {
    row.attempts <= MAX_ATTEMPTS && (row.attempts == MAX_ATTEMPTS ==> row.consumedAt.Some?)
  }

  predicate RowsOk(rows: Table) {
    forall id :: id in rows ==> RowOk(rows[id])
  }

  /** Nothing about a row changes but its counter, which grows, and its consumption, which stays. */
  predicate RowEvolves(row: EmailCode, row': EmailCode) {
    && row'.account == row.account && row'.hash == row.hash && row'.purpose == row.purpose
    && row'.expiresAt == row.expiresAt && row'.createdAt == row.createdAt
    && row.attempts <= row'.attempts
    && (row.consumedAt.Some? ==> row' == row)
  }

  predicate RowsEvolve(rows: Table, rows': Table) {
    forall id :: id in rows ==> id in rows' && RowEvolves(rows[id], rows'[id])
  }

  /** Two codes of one account and purpose are created at least `gap` apart. */
  predicate Spaced(rows: Table, gap: int) {
    forall i, j :: i in rows && j in rows && i != j
                   && rows[i].account == rows[j].account && rows[i].purpose == rows[j].purpose ==>
                     Apart(rows[i].createdAt, rows[j].createdAt, gap)
  }

  predicate Apart(t: Time, u: Time, gap: int) {
    t - u >= gap || u - t >= gap
  }

  lemma ClaimKeepsRows(rows: Table, id: CodeId, now: Time)
    requires RowsOk(rows)
    ensures RowsOk(AfterClaim(rows, id, MAX_ATTEMPTS, now))
    ensures RowsEvolve(rows, AfterClaim(rows, id, MAX_ATTEMPTS, now))
  {
  }

  lemma ConsumeKeepsRows(rows: Table, id: CodeId, now: Time)
    requires RowsOk(rows)
    ensures RowsOk(AfterConsume(rows, id, now))
    ensures RowsEvolve(rows, AfterConsume(rows, id, now))
  {
  }

  /** The spacing a mint guarantees is the cooldown less the lag between transaction start and test. */
  lemma MintKeepsSpacing(rows: Table, id: CodeId, row: EmailCode, clock: Time, lag: nat)
    requires id !in rows && Spaced(rows, COOLDOWN - lag)
    requires !HasRecent(rows, row.account, row.purpose, clock, COOLDOWN)
    requires clock - lag <= row.createdAt
    ensures Spaced(rows[id := row], COOLDOWN - lag)
  {
    var rows' := rows[id := row];
    forall i, j | i in rows' && j in rows' && i != j
                  && rows'[i].account == rows'[j].account && rows'[i].purpose == rows'[j].purpose
      ensures Apart(rows'[i].createdAt, rows'[j].createdAt, COOLDOWN - lag)
    {
      if i != id && j != id {
        assert Apart(rows[i].createdAt, rows[j].createdAt, COOLDOWN - lag);
      } else if i == id {
        assert rows[j].createdAt <= clock - COOLDOWN;
      } else {
        assert rows[i].createdAt <= clock - COOLDOWN;
      }
    }
  }

  // ----- the table as the handlers use it -----

  class EmailCodeStore {
    var rows: Table
    var nextId: CodeId

    ghost predicate Valid()
      reads this
    {
      RowsOk(rows) && forall id :: id in rows ==> id < nextId
    }

    constructor ()
      ensures Valid() && rows == map[]
    {
      rows, nextId := map[], 0;
    }

    /** Mints unless a code of any state is too recent; `start` is the transaction's now(). */
    method CreateWithCooldown(account: AccountId, hash: string, purpose: string, expiresAt: Time,
                              start: Time, clock: Time, cooldown: int) returns (minted: Option<CodeId>)
      requires Valid()
      modifies this
      ensures Valid()
      ensures minted.None? <==>
                exists id :: && id in old(rows) && old(rows)[id].account == account && old(rows)[id].purpose == purpose
                             && clock - old(rows)[id].createdAt < cooldown
      ensures minted.None? ==> rows == old(rows)
      ensures minted.Some? ==>
                && minted.value !in old(rows)
                && rows == old(rows)[minted.value := EmailCode(account, hash, purpose, expiresAt, None, start, 0)]
    {
      if HasRecent(rows, account, purpose, clock, cooldown) {
        return None;
      }
      minted := Some(nextId);
      rows := rows[nextId := NewCode(account, hash, purpose, expiresAt, start)];
      nextId := nextId + 1;
    }

    method GetActive(account: AccountId, purpose: string, now: Time) returns (found: Option<CodeId>)
      ensures found.None? <==> forall id :: id in rows ==> !IsActive(rows, id, account, purpose, now)
      ensures found.Some? ==> IsNewestActive(rows, found.value, account, purpose, now)
    {
      var active := set id | id in rows && IsActive(rows, id, account, purpose, now);
      if active == {} {
        assert forall id :: id in rows && IsActive(rows, id, account, purpose, now) ==> id in active;
        return None;
      }
      ghost var age := map id | id in active :: -rows[id].createdAt;
      ghost var newest := Counting.Earliest(active, age);
      forall other | other in rows && IsActive(rows, other, account, purpose, now)
        ensures rows[other].createdAt <= rows[newest].createdAt
      {
        assert other in active && age[newest] <= age[other];
      }
      assert IsNewestActive(rows, newest, account, purpose, now);
      var id :| id in rows && IsNewestActive(rows, id, account, purpose, now);
      found := Some(id);
    }

    method ClaimAttempt(id: CodeId, now: Time) returns (claimed: Option<EmailCode>)
      requires Valid()
      modifies this`rows
      ensures Valid() && RowsEvolve(old(rows), rows)
      ensures rows == AfterClaim(old(rows), id, MAX_ATTEMPTS, now)
      ensures claimed.Some? <==> id in old(rows) && old(rows)[id].consumedAt.None? && old(rows)[id].attempts < 5
      ensures claimed.Some? ==> rows[id] == claimed.value
    {
      if !Claimable(rows, id, MAX_ATTEMPTS) {
        return None;
      }
      claimed := Some(ClaimedRow(rows[id], MAX_ATTEMPTS, now));
      rows := rows[id := claimed.value];
    }

    /** Returns the number of rows affected. */
    method Consume(id: CodeId, now: Time) returns (affected: nat)
      requires Valid()
      modifies this`rows
      ensures Valid() && RowsEvolve(old(rows), rows)
      ensures rows == AfterConsume(old(rows), id, now)
      ensures affected == if id in old(rows) && old(rows)[id].consumedAt.None? then 1 else 0
    {
      if !Consumable(rows, id) {
        return 0;
      }
      rows := rows[id := rows[id].(consumedAt := Some(now))];
      affected := 1;
    }

    /**
     sendStepUpCode run alone, with its three clocks: the pre-check's, the server's that sets the expiry, and the
     mint's own pair.  A failed pre-check falls through to the mint.  An email leaves exactly when a row is minted.
     */
    method SendStepUpCode(account: AccountId, email: string, hash: string, precheckFails: bool,
                          precheckClock: Time, serverNow: Time, start: Time, clock: Time) returns (sent: Option<CodeId>)
      requires Valid()
      modifies this
      ensures Valid()
      ensures sent.Some? <==>
                && email != ""
                && (precheckFails || !HasRecent(old(rows), account, STEP_UP_PURPOSE, precheckClock, COOLDOWN))
                && !HasRecent(old(rows), account, STEP_UP_PURPOSE, clock, COOLDOWN)
      ensures sent.None? ==> rows == old(rows)
      ensures sent.Some? ==>
                && sent.value !in old(rows)
                && rows == old(rows)[sent.value := NewCode(account, hash, "credential_change",
                                                           serverNow + 300_000_000, start)]
    {
      if email == "" {
        return None;
      }
      if !precheckFails && HasRecent(rows, account, STEP_UP_PURPOSE, precheckClock, COOLDOWN) {
        return None;
      }
      sent := CreateWithCooldown(account, hash, STEP_UP_PURPOSE, serverNow + CODE_TTL, start, clock, COOLDOWN);
    }

    /**
     StepUpVerify run alone: the request succeeds exactly when its guess opens the newest active
     code.  Either way one attempt is spent, and success, like the last attempt, consumes the code.
     */
    method StepUpVerify(account: AccountId, guess: string, now: Time, opens: (string, string) -> bool)
      returns (success: bool, code: Option<CodeId>)
      requires Valid()
      modifies this`rows
      ensures Valid() && RowsEvolve(old(rows), rows)
      ensures code.None? ==> !success && rows == old(rows)
      ensures code.None? <==>
                || guess == ""
                || forall id :: id in old(rows) ==> !IsActive(old(rows), id, account, STEP_UP_PURPOSE, now)
      ensures code.Some? ==>
                && IsNewestActive(old(rows), code.value, account, STEP_UP_PURPOSE, now)
                && rows.Keys == old(rows).Keys
                && old(rows)[code.value].account == account && old(rows)[code.value].purpose == "credential_change"
                && old(rows)[code.value].consumedAt.None? && old(rows)[code.value].expiresAt > now
                && (success <==> opens(old(rows)[code.value].hash, guess))
                && rows[code.value].attempts == old(rows)[code.value].attempts + 1
                && (rows[code.value].consumedAt.Some? <==> success || rows[code.value].attempts == 5)
      ensures forall id :: id in old(rows) && Some(id) != code ==> rows[id] == old(rows)[id]
    {
      success, code := false, None;
      if guess == "" {
        return;
      }
      code := GetActive(account, STEP_UP_PURPOSE, now);
      if code.None? {
        return;
      }
      var claimed := ClaimAttempt(code.value, now);
      if claimed.None? {
        return;
      }
      if !opens(claimed.value.hash, guess) {
        return;
      }
      if claimed.value.consumedAt.None? {
        var n := Consume(code.value, now);
        if n == 0 {
          return;
        }
      }
      success := true;
    }
  }
}
