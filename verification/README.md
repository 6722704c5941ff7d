# Verified model of the account and access core

This project models, in Dafny 4.11, the parts of the identity service that decide who may do what and who may sign
in, and proves what they promise over all inputs, all interleavings and all histories. `dafny verify dfyconfig.toml`
checks it. One SQL statement is one atomic step on an abstract table; HMAC, password hashing, token hashing, JSON and
provider initialisation are function parameters with stated assumptions; clocks and random draws are inputs.

| module | what it models |
|---|---|
| MembershipChain, Authorizer | the recursive group queries and the two authorization entry points |
| EmailCodes, StepUpToken, StepUpProtocol | emailed step-up codes, the signed single-use token, and the protocol over any number of racing requests |
| CredentialLedger, PasswordRaces | linking and removing sign-in methods, and password changes that race |
| EmailForm, AccountDirectory, UpdateRaces | identity resolution and the other writers of accounts, and updates and resolutions that race |
| JwtSecret | the first-boot race for the signing secret |
| ProviderMerge, ProviderForm, Onboarding | the provider cascade, the form that edits it, and the onboarding state machine |
| Redaction | the mail sender's error redaction |
| Decimal, Base64, PasswordPhc | the stored password-hash format |
| Text, Counting, Wrappers | strings, cardinalities, optional values |

## Where the code and its documentation differ

The model follows the code. Where a promise fails, a lemma gives a run or an input, beside a theorem that says what
does hold.

- Step-up tokens are documented as single-use. The expiry test and the store into the id cache are separate, so a
  store delayed past the expiry and a janitor tick can admit a token twice (`LateStoreReplaysToken`). Single use
  holds exactly when that delay is zero (`SingleUseIff`); the bound that always holds counts the late stores
  (`AdmissionsNeverExceedCodes`). The cache lives in the process, so both are per process lifetime.
- The 60 s cooldown compares `clock_timestamp()` with a `created_at` that defaults to the transaction's `now()`
  (model/migrations/sql/0100_baseline.sql:69), so the spacing is 60 s less that lag, exactly
  (`SpacingIff`, `GuessBudget`).
- A principal with an empty issuer or subject skips the identity lookup; its resolution is never stable
  (`KeylessResolutionIsNotStable`), and with both present it always is (`ResolutionIsStable`).
- `Update`, branch 3 of `Resolve` and the confirmation of an emailed code write back what they read before, so they can
  erase or replace a verification time and restore an old email (`StaleUpdateLosesVerification`, `OverlappingResolutionsReplaceTime`,
  `StaleResolutionRestoresEmail`); `VerificationSurvivesIff` and `StaysVerifiedIff`
  say exactly when a verification survives.
- `SetPassword` checks the current password before its transaction (`RacingFirstSets`); `UnpresentedIsReplacedIff` says
  exactly when that lets a password be replaced that was not presented.
- The sender's errors are documented as never containing the To, Reply-To or From address. The strings given to the
  sender stay out when they have the usual shape (`NoSecretEscapes`) or meet a checkable condition
  (`HiddenSecretNeverEscapes`, exact for a single one by `LoneSecretEscapesIff`). An address that is only a part of such
  a string, as in a Reply-To with a display name or a leading space, does not stay out (`DisplayNameReplyToLeaks`,
  `PaddedReplyToLeaks`): it stays out exactly when some given string occurs in it (`TextEscapesIff`).
- A provider body with `"enabled": null` disables the provider, while the comment on `boolField` says such a value
  counts as absent.
- An unchanged save of the provider form is not always neutral; `SaveIsNeutralIff` is the exact condition.
- `BootStateResult.Enabled` is not sorted by the code; the model compares it as a set.
- The PHC parser reads the version and ignores it, and truncates oversized parameters (`ParseOfPrint`).

## Model

| member | source | states |
|---|---|---|
| `MembershipChain.Evaluate` | api/internal/authz/authz.go:428-435 | the working-table loop ends on every membership table, cycles included, with exactly the ids that a walk from the seed reaches |
| `MembershipChain.WalkStaysInside` | api/internal/authz/authz.go:546-567 | a set closed under membership that holds the start of a walk holds its end; this is why an empty working table means the chain is complete |
| `MembershipChain.ReachableMonotone` | api/internal/authz/authz.go:546-567 | a larger seed or membership table loses no reachable id |
| `Authorizer.EffectiveActor` | api/internal/authz/authz.go:385-387 | a sudo identity wins; absent exactly when neither identity is present |
| `Authorizer.CheckWildcardGrant` | api/internal/authz/authz.go:426-449 | true exactly when a member of the actor's upward chain holds an untargeted grant on a satisfying operation |
| `Authorizer.CheckGrantOrOwn` | api/internal/authz/authz.go:544-587 | true exactly for a grant from actor chain to target chain (seeded with the target and, unless the target is a type entity, the entity of its exact type) or for direct ownership |
| `Authorizer.CheckTypeGrant` | api/internal/authz/authz.go:624-657 | true exactly for a grant from the actor chain to the upward chain of the type's entity |
| `Authorizer.AuthorizePrelude` | api/internal/authz/authz.go:330-378 | 401 exactly without an actor; unknown operations are settled by wildcard manage alone; continuing means no wildcard applies |
| `Authorizer.Authorize` | api/internal/authz/authz.go:220-259 | the answer is EntityVerdict, the policy stated over reachability, for every database, registry, caller, operation and target; only a failed query hides it |
| `Authorizer.AuthorizeType` | api/internal/authz/authz.go:291-318 | the answer is TypeVerdict; a non-positive type id is refused to everyone with an identity |
| `Authorizer.EntityVerdictIff` | api/internal/authz/authz.go:569-587 | the verdict on the columns: allowed exactly for an untargeted grant row held up the actor chain that satisfies the operation (those of manage when it is unknown), or, for a known operation, a grant row on something above the target or above the entity of its exact type, or an owner column that names the caller; 401 exactly without an identity |
| `Authorizer.WithoutGrantsOwnersDecide` | api/internal/authz/authz.go:575-579 | with no grant row at all, a known operation is allowed to the target's owner and forbidden to everyone else |
| `Authorizer.TypeVerdictIff` | api/internal/authz/authz.go:624-657 | the type-level verdict on the columns: no ownership, a positive type id, and only grants above the type's entity |
| `Authorizer.AuthorityIsMonotone` | api/internal/authz/authz.go:220-318 | adding grants or memberships never turns an allow into a deny in either entry point (exchange the databases for removal) |
| `Authorizer.TypeGrantLiftsToInstances` | api/internal/authz/authz.go:291-318 | an allow on type T is an allow on every entity of exactly type T that is not itself a type entity |
| `Authorizer.TypeVerdictIgnoresEntities` | api/internal/authz/authz.go:624-657 | the type-level answer is the same in two databases that differ in entity rows or in targeted grants outside the type's upward chain |
| `Authorizer.EntityVerdictReadsOnlyItsChain` | api/internal/authz/authz.go:544-587 | the entity-level answer depends on the target's row, the types and the grants on the target's chain, nothing else |
| `Authorizer.SentinelGrantConfersNothing` | api/internal/authz/authz.go:546-567 | the type-entity guard: a grant on the entity of the type-of-types changes no answer about a type entity that is not below it |
| `EmailCodes.EmailCodeStore.CreateWithCooldown` | model/db/email_codes.sql.go:96-121 | mints one fresh unconsumed row unless any code of the account and purpose, consumed or not, is within the cooldown; otherwise nothing changes |
| `EmailCodes.EmailCodeStore.GetActive` | model/db/email_codes.sql.go:143-152 | no row exactly when none is active, otherwise an active row with the latest creation time |
| `EmailCodes.EmailCodeStore.ClaimAttempt` | model/db/email_codes.sql.go:14-22 | one attempt is added exactly when the row is unconsumed and below the maximum, and the last one consumes; rows only evolve forward |
| `EmailCodes.EmailCodeStore.Consume` | model/db/email_codes.sql.go:48-52 | one row affected exactly when the code was unconsumed; consumption is final |
| `EmailCodes.EmailCodeStore.SendStepUpCode` | api/internal/handlers/identities.go:602-665 | with the clocks of pre-check, expiry and mint apart: a code is sent exactly when the account has an email and neither the pre-check, unless it failed, nor the mint sees a code within the cooldown; then exactly one row is added |
| `EmailCodes.EmailCodeStore.StepUpVerify` | api/internal/handlers/identities.go:684-762 | run alone: success exactly when the guess opens the newest active code; one attempt is spent either way, other rows are untouched, success and exhaustion both consume |
| `EmailCodes.MintKeepsSpacing` | model/migrations/sql/0103_email_code_cooldown_function.sql:16-40 | codes of one account and purpose stay 60 s less the lag apart, the lag being what clock_timestamp() runs ahead of the transaction's now() that fills created_at |
| `StepUpToken.IssuedTokenOpens` | api/internal/auth/stepup.go:48-78 | round trip: an issued token opens to its account, purpose, id and expiry |
| `StepUpToken.EmptySecretIsRefused` | api/internal/auth/stepup.go:48-51 | with an empty secret, and only then, nothing is issued; and nothing opens |
| `StepUpToken.OpenedTokenIsSigned` | api/internal/auth/stepup.go:102-160 | whatever opens is exactly header, encoding and MAC joined by dots, with nothing left over |
| `StepUpToken.AcceptedWasIssued` | api/internal/auth/stepup.go:102-160 | with an unforgeable MAC every accepted payload was issued |
| `StepUpToken.IssuedIsUnforged` | api/internal/auth/stepup.go:48-78 | a token string determines what was signed, so the token of an issued payload never counts as a forgery |
| `StepUpToken.StaysSpent` | api/internal/auth/stepup.go:193-226 | from its acceptance on, a token's id is recorded under the token's own expiry or the token has expired, whatever else is verified and pruned |
| `StepUpToken.ConsumedCache.LoadOrStore` | api/internal/auth/stepup.go:193-196 | reports whether the id was present and stores it otherwise |
| `StepUpToken.ConsumedCache.Prune` | api/internal/auth/stepup.go:207-226 | one janitor tick removes exactly the expired entries |
| `StepUpToken.ConsumedCache.Verify` | api/internal/auth/stepup.go:102-160 | accepts exactly an opened, unexpired token of the right purpose and account whose id is unused, and then records the id |
| `StepUpToken.AcceptsIff` | api/internal/auth/stepup.go:102-160 | acceptance on the fields of the signed payload: not past its expiry, purpose credential_change, this account, id unused |
| `StepUpToken.PruningIsInvisible` | api/internal/auth/stepup.go:207-226 | the pruned and the unpruned cache answer alike at every later clock reading, because the prune test is the verifier's expiry test |
| `StepUpToken.AcceptedOnce` | api/internal/auth/stepup.go:140-160 | in every history of verifications and janitor ticks with a clock that does not go back, each verification reading the clock once, a token accepted at one event is accepted at no later one, for any account |
| `StepUpProtocol.StepKeepsInv` | api/internal/handlers/identities.go:684-762 | each of the thirteen kinds of step, one SQL statement, comparison or cache operation at a time, keeps the counting invariant of the protocol |
| `StepUpProtocol.CodeIsBoundedAndSingleUse` | api/internal/handlers/identities.go:696-762 | in every interleaving of any number of requests: at most 5 real comparisons per code, at most one success (whose guess opens the code, see TokensAreEarned), success and exhaustion imply consumed |
| `StepUpProtocol.StepKeepsGuesses` | api/internal/handlers/identities.go:720-735 | every step keeps: a claimed hash is the code's, and whoever is past the comparison holds a guess that opens the code |
| `StepUpProtocol.TokensAreEarned` | api/internal/handlers/identities.go:696-762 | in every run every token goes back to a compared request of its account whose guess opens the code, and which took that code while it was unconsumed and unexpired |
| `StepUpProtocol.AdmissionsAreEarned` | api/internal/handlers/identities.go:785-794 | in every run every admitted mutation presented a token that a request of the same account had earned so |
| `StepUpProtocol.ClaimDecides` | model/db/email_codes.sql.go:14-22 | a claim on the columns: granted exactly on an unconsumed code with fewer than 5 attempts, counted, and consuming when it is the fifth |
| `StepUpProtocol.ComparisonDecides` | api/internal/handlers/identities.go:720-748 | the comparison alone decides who goes on; then the last claimer wins outright, another exactly by consuming the code |
| `StepUpProtocol.IssueStamps` | api/internal/handlers/identities.go:750-762 | a token names the winner's account and expires 300 s after its issue |
| `StepUpProtocol.CodesOnlyEvolve` | model/db/email_codes.sql.go:14-52 | along every run a code's attempts never decrease and a consumed code never changes again |
| `StepUpProtocol.NewWinner` | api/internal/handlers/identities.go:740-762 | a request that newly wins found its code unconsumed at that very statement |
| `StepUpProtocol.PresentedWasIssued` | api/internal/auth/stepup.go:102-160 | a presented string that passes the stateless checks is a token the server issued, to that account and with that expiry, still unexpired |
| `StepUpProtocol.AdmissionsNeverExceedCodes` | api/internal/handlers/identities.go:785-794 | conservation per account and process lifetime, from token strings presented by anyone who cannot forge a MAC: admitted mutations are at most tokens issued plus late stores, at most tokens issued when the store never trails the expiry test, and tokens issued are at most codes minted |
| `StepUpProtocol.GuessBudget` | api/internal/handlers/identities.go:75-83 | n codes created within any window satisfy (n - 1) * (60 s - lag) <= window, and draw at most 5 * n comparisons, whatever the concurrency |
| `StepUpProtocol.LateStoreReplaysToken` | api/internal/auth/stepup.go:140-157 | counterexample family: with any delay allowed between expiry test and store, every state with an unspent live token has a run that admits it twice |
| `StepUpProtocol.SingleUseIff` | api/internal/auth/stepup.go:140-157 | every run admits each token at most once per process lifetime if and only if the delay between expiry test and store is bounded by zero |
| `StepUpProtocol.LagShortensCooldown` | model/migrations/sql/0103_email_code_cooldown_function.sql:26-38 | the lag term is needed: for every lag up to the bound there is a run with two codes exactly 60 s less the lag apart |
| `StepUpProtocol.SpacingIff` | model/migrations/sql/0103_email_code_cooldown_function.sql:16-40 | for every gap above zero: in every run codes of one account and purpose are created that far apart if and only if the gap is at most 60 s less the lag bound |
| `CredentialLedger.CredentialStore.IdentityCounts` | api/internal/service/identities.go:23-39 | the two counts add up to the number of sign-in methods |
| `CredentialLedger.CredentialStore.Link` | model/db/auth_oidc_identities.sql.go:73-79 | an (issuer, subject) pair is linked at most once; a refusal changes nothing |
| `CredentialLedger.CredentialStore.Unlink` | api/internal/handlers/identities.go:326-363 | deletes exactly an own identity that is not the last method; the last-method refusal comes first; foreign and missing ones change nothing |
| `CredentialLedger.CredentialStore.CheckCurrent` | api/internal/handlers/identities.go:449-493 | on the row as read: passes exactly when there is no password or the current one is presented, non-empty and verifies |
| `CredentialLedger.CredentialStore.SetPassword` | api/internal/handlers/identities.go:447-514 | check and upsert with no other writer between: an existing password is replaced exactly when it was presented |
| `CredentialLedger.CheckCarriesOverIff` | api/internal/handlers/identities.go:449-506 | the check before the transaction is good for the write, for every verifier and every presented password, exactly when by then there is no password or still the checked one |
| `CredentialLedger.RacingFirstSets` | api/internal/handlers/identities.go:449-506 | counterexample: of two first-time sets that both read first, the second replaces a password that no one presented |
| `PasswordRaces.UndisturbedSet` | api/internal/handlers/identities.go:449-506 | with nothing in between, a check that passes and a write are a SetPassword; the check passes exactly when there is no password or the current one is presented and verifies |
| `PasswordRaces.UnpresentedIsReplacedIff` | api/internal/handlers/identities.go:449-506 | with check and write as separate events among all other transactions: a write replaces a password its check does not vouch for exactly when some event in between left another password |
| `PasswordRaces.UndisturbedWriteIsVouchedFor` | api/internal/handlers/identities.go:449-506 | if nothing in between touched the password, the write replaces only what was presented |
| `CredentialLedger.CredentialStore.RemovePassword` | api/internal/handlers/identities.go:537-558 | idempotent; refused exactly when the password is the only method |
| `CredentialLedger.TxnKeepsAMethod` | api/internal/handlers/identities.go:326-363 | no transaction takes an account's last method, neither its own nor another account's |
| `CredentialLedger.AccountNeverLocksItselfOut` | api/internal/handlers/identities.go:537-558 | through every serializable history an account with a sign-in method keeps one |
| `CredentialLedger.SnapshotsWouldLockOut` | api/internal/handlers/identities.go:326-363 | the isolation level is needed: on one snapshot with one identity and a password both guards pass, and both deletions leave no method |
| `EmailForm.CanonicalIsStable` | api/internal/auth/resolver.go:409-416 | for every character mapping that is idempotent and keeps white space: lowercasing and trimming commute, canonical form is a fixed point, blank exactly when the trimmed input is |
| `EmailForm.CodeRulesAreLawful` | api/internal/service/user_accounts.go:221-228 | the laws the directory relies on hold of lowercase-and-trim under every such mapping and every form the database compares by |
| `EmailForm.AsciiLowersCharacters` | api/internal/service/user_accounts.go:221-228 | the mapping of ASCII letters is one of them |
| `AccountDirectory.UserDirectory.LinkIdentity` | api/internal/auth/resolver.go:294-334 | inserts the identity or reports the unique violation and changes nothing |
| `AccountDirectory.UserDirectory.VerifyAndLink` | api/internal/auth/resolver.go:339-398 | on the row loaded before: email and verification time are both written and the identity inserted, or, when the email is taken by now or the identity exists, nothing |
| `AccountDirectory.UserDirectory.AutoCreate` | api/internal/auth/resolver.go:420-514 | one new account with the canonical email or none, verified as the provider asserted, with its identity row when issuer and subject are present; a taken email or identity rolls everything back |
| `AccountDirectory.UserDirectory.ResolvePrincipal` | api/internal/auth/resolver.go:154-290 | the code takes a step of the five-branch relation, keeps emails canonical and distinct, and loses no account or verification |
| `AccountDirectory.LocalResolution` | api/internal/auth/resolver.go:160-175 | a principal of the local issuer resolves to the account with its uuid, and nothing is written |
| `AccountDirectory.KnownIdentityResolution` | api/internal/auth/resolver.go:177-212 | a stored (issuer, subject) answers by itself, whatever email is claimed |
| `AccountDirectory.EmailResolution` | api/internal/auth/resolver.go:219-272 | otherwise an account is reached only by an email that compares equal to its own, is linked only if one side has verified the email, and an unverified claim on unverified accounts is refused; every column written |
| `AccountDirectory.NewAccountResolution` | api/internal/auth/resolver.go:274-290 | without an account of that email a new one is made with the claimed canonical email, verified as asserted; every column written |
| `AccountDirectory.TransactionsDecide` | api/internal/service/user_accounts.go:213-291 | create, anonymous create, link and unlink on the columns, and when they change nothing |
| `AccountDirectory.UpdateDecides` | api/internal/service/user_accounts.go:497-602 | an undisturbed update on the columns: only the email of that account changes, exactly when it is not blank and no other account has it |
| `AccountDirectory.UserDirectory.StoreLoaded` | api/internal/service/user_accounts.go:507-543 | Update's transaction on the row it loaded: stores exactly a non-blank untaken email, keeps the invariant, and keeps every verification time exactly when the loaded one is current or none was set |
| `AccountDirectory.UserDirectory.UpdateEmail` | api/internal/service/user_accounts.go:497-602 | with no other writer between load and store: stores exactly for a known account and a non-blank untaken email, and the verification time is kept |
| `AccountDirectory.UserDirectory.CreateAccount` | api/internal/service/user_accounts.go:213-261 | creates exactly for a non-blank untaken email, in canonical form |
| `AccountDirectory.ResolveKeepsInv` | api/internal/auth/resolver.go:154-290 | every branch of Resolve keeps the invariant and every identity, and a resolved principal with issuer and subject ends with an identity row for the returned account |
| `AccountDirectory.StepKeepsInv` | api/internal/service/user_accounts.go:497-602 | each operation keeps emails canonical and pairwise distinct, accounts, verification times, and every identity but the one unlinked |
| `AccountDirectory.DirectoryStaysSound` | api/internal/service/user_accounts.go:213-291 | the same over every history, for every lawful canonical form and every form the email lookup compares by |
| `AccountDirectory.IdentityPersists` | model/db/auth_oidc_identities.sql.go:27-30 | an identity keeps naming its account until it is unlinked |
| `AccountDirectory.ResolutionIsStable` | api/internal/auth/resolver.go:154-227 | a non-local principal with issuer and subject, once resolved, resolves to the same account until unlinked, whatever email it claims then, and that resolution writes nothing |
| `AccountDirectory.KeylessResolutionIsNotStable` | api/internal/auth/resolver.go:177-227 | the converse: with the issuer or the subject empty, three resolutions in a row never all return one account |
| `AccountDirectory.StaleUpdateLosesVerification` | api/internal/service/user_accounts.go:526-543 | counterexample: a verification set between Update's load and its write is erased |
| `AccountDirectory.StoreKeepsIff` | api/internal/service/user_accounts.go:533-543 | one store keeps the verification time exactly when none was set or the loaded one is the current one |
| `UpdateRaces.RacesKeepInv` | api/internal/auth/resolver.go:154-290 | with the reads and the writes of Update, Resolve and code confirmation as separate events, interleaved with each other and every other writer, emails stay canonical and pairwise distinct, and identities keep naming accounts |
| `UpdateRaces.RacesKeepIdentity` | api/internal/auth/resolver.go:294-334 | in every such history an identity names the same account until it is unlinked |
| `UpdateRaces.UndisturbedUpdate` | api/internal/service/user_accounts.go:497-602 | a load and a store with nothing in between are an Update |
| `UpdateRaces.UndisturbedResolve` | api/internal/auth/resolver.go:154-290 | a lookup and a finish with nothing in between are a Resolve whose identity lookup missed |
| `UpdateRaces.ResolveSplits` | api/internal/auth/resolver.go:154-290 | and every such Resolve is such a pair |
| `UpdateRaces.StepKeepsTimeIff` | api/internal/auth/resolver.go:350-356 | an event keeps an account's verification time exactly when it is not an effective write-back, by Update, branch 3 of Resolve or a confirmed code, of another time |
| `UpdateRaces.ReadAt` | api/internal/auth/resolver.go:222-232 | what a request in flight holds is the account's row at the moment of its read |
| `UpdateRaces.VerificationSurvivesIff` | api/internal/service/user_accounts.go:497-543 | over every interleaved history, a verification time survives from the moment it was set exactly as long as no Update writes the account back from a read made before it was set, and no Resolve or confirmed code sets another time |
| `UpdateRaces.ResolveOnlyStampsUnverified` | api/internal/auth/resolver.go:232-262 | the reads from which Resolve sets a time found the account unverified |
| `UpdateRaces.StaysVerifiedIff` | api/internal/handlers/auth/emailcode.go:356-366 | over every interleaved history, an account once verified stays verified exactly as long as no Update writes it back from a read that found it unverified |
| `UpdateRaces.OverlappingResolutionsReplaceTime` | api/internal/auth/resolver.go:350-356 | counterexample: of two resolutions that both read the unverified account, the second replaces the time the first set |
| `UpdateRaces.StaleResolutionRestoresEmail` | api/internal/auth/resolver.go:350-356 | counterexample: a resolution that read the account before an email change writes the old email back |
| `JwtSecret.SecretStore.InsertIfAbsent` | model/db/auth_jwt_secrets.sql.go:12-28 | the first secret stays; the inserted secret is returned only to its inserter |
| `JwtSecret.SecretStore.FetchOrGenerate` | api/internal/config/jwtsecret_bootstrap.go:43-80 | also with a rival insert between read and insert: returns the stored secret, refuses a short one |
| `JwtSecret.FirstInsertWins` | api/internal/config/jwtsecret_bootstrap.go:43-80 | on an empty table the first inserter stores its own candidate and returns it |
| `JwtSecret.StoredRowDecides` | api/internal/config/jwtsecret_bootstrap.go:43-80 | with a row stored, a read or re-read returns it if it has 64 characters and fails otherwise, and an insert changes nothing |
| `JwtSecret.FirstBootStores` | api/internal/config/jwtsecret_bootstrap.go:43-80 | so a first boot ends with a stored secret |
| `JwtSecret.RowIsForever` | model/db/auth_jwt_secrets.sql.go:12-28 | in every interleaving the stored row never changes, and whoever returned holds it |
| `JwtSecret.ProcessesAgree` | api/internal/config/jwtsecret_bootstrap.go:43-80 | without any lock, all processes that return successfully return the one stored secret of at least 64 characters |
| `JwtSecret.LaterBootsReturnIt` | api/internal/config/jwtsecret_bootstrap.go:43-80 | once one process has returned, every later read by any process returns the same secret |
| `ProviderMerge.PickStr` | api/internal/config/provider_merge.go:232-239 | the loop returns the first non-empty candidate; empty exactly when all are |
| `ProviderMerge.EffectiveIsRowOverDefault` | api/internal/config/provider_merge.go:145-165 | every merged text field is the row's value over the default that the admin view reports |
| `ProviderMerge.EffectiveOnColumns` | api/internal/config/provider_merge.go:145-165 | each merged text field is the first non-empty of the row's column, the environment's value, the built-in default and the fallback |
| `ProviderMerge.ScopesOnColumns` | api/internal/config/provider_merge.go:244-261 | the scopes are the row's, else the environment's, else openid, email, profile; the tenancy flag follows the merged issuer |
| `ProviderMerge.BuiltInDefaults` | api/internal/config/providers.go:60-71 | google and microsoft have their defaults, no other id has any |
| `ProviderMerge.TitleCaseCapitalizes` | api/internal/config/providers.go:264-269 | the fallback name differs from the id at most in a capital first letter |
| `ProviderMerge.RegisteredIff` | api/internal/config/provider_merge.go:300-326 | an id is in the registry exactly when environment or rows know it, no row disables it, and client id, issuer and claim style are there after the merge |
| `ProviderMerge.EnvironmentAlone` | api/internal/config/provider_merge.go:300-305 | without a row a complete provider of the environment is registered with the environment's values |
| `ProviderMerge.DefaultsAreWhatRevertYields` | api/internal/handlers/oidc_providers.go:647-698 | each *_default is what the merge yields once the row is deleted |
| `ProviderMerge.LoadMergedProviders` | api/internal/config/provider_merge.go:94-140 | an entry for exactly the ids of environment and rows, each with its own three layers |
| `ProviderMerge.MergedRegistry` | api/internal/config/provider_merge.go:312-326 | exactly the enabled providers that have client id, issuer and claim style, with their effective values |
| `ProviderForm.NormalizeScopes` | api/internal/handlers/oidc_providers.go:573-606 | the trim-and-drop loop; every scope kept is non-empty and trimmed |
| `ProviderForm.FormShowsEffective` | gui/src/components/oidc-provider-edit-modal.tsx:64-83 | the form opens with the provider in force, no secret, and the enabled flag, which is set when there is no row |
| `ProviderForm.ViewOnColumns` | api/internal/handlers/oidc_providers.go:326-378 | an override is reported exactly when its column holds something |
| `ProviderForm.DefaultsOnColumns` | api/internal/handlers/oidc_providers.go:647-698 | each reported default is what the provider reverts to, null when that is empty |
| `ProviderForm.EditedSave` | gui/src/components/oidc-provider-edit-modal.tsx:111-136 | saving any form, on every column: a text is cleared when blank or equal to the default and stored trimmed otherwise; a typed secret is stored, a cleared one removed, an untouched one kept |
| `ProviderForm.EditedScopes` | gui/src/components/oidc-provider-edit-modal.tsx:138-151 | and the scopes: cleared when none is given or they are the default, otherwise stored as parsed and trimmed |
| `ProviderForm.SavedTextIff` | gui/src/components/oidc-provider-edit-modal.tsx:128-136 | a text override survives view, form, body and merge exactly when it equals the default, or is trimmed and differs from the trimmed default |
| `ProviderForm.ParseOfJoin` | gui/src/components/oidc-provider-edit-modal.tsx:89-95 | joining scopes with a comma and a space and parsing them returns them trimmed with the blank ones dropped |
| `ProviderForm.FormRoundTripIff` | gui/src/components/oidc-provider-edit-modal.tsx:89-95 | the form gives scopes back exactly when all are non-empty, trimmed and comma-free |
| `ProviderForm.ServerRoundTripIff` | api/internal/handlers/oidc_providers.go:573-606 | form and server together give scopes back exactly when they are clean under both definitions of white space |
| `ProviderForm.SavedScopesIff` | gui/src/components/oidc-provider-edit-modal.tsx:138-151 | the scopes in force survive a save exactly when they are clean for form and server, or are the default and that is clean for the form or nothing but white space and commas |
| `ProviderForm.AfterSaveTexts` | api/internal/handlers/oidc_providers.go:262-298 | what an untouched save stores in each text column; the secret column is unchanged |
| `ProviderForm.AfterSaveScopes` | api/internal/handlers/oidc_providers.go:262-298 | which scopes are in force after an untouched save |
| `ProviderForm.SaveIsNeutralIff` | gui/src/components/oidc-provider-edit-modal.tsx:64-126 | saving an unchanged form keeps secret and enabled flag always, and the effective provider exactly when every field survives |
| `ProviderForm.TrimmedRowsSaveUnchanged` | gui/src/components/oidc-provider-edit-modal.tsx:64-126 | the promised case: trimmed overrides and defaults and clean scopes save unchanged |
| `ProviderForm.SaveAddsNoOverride` | gui/src/components/oidc-provider-edit-modal.tsx:111-151 | saving without a row stores no text override, and no scope override when the default scopes are clean |
| `ProviderForm.UntrimmedDefaultDropsOverride` | gui/src/components/oidc-provider-edit-modal.tsx:128-136 | counterexample: an untrimmed default makes the save drop an override |
| `Onboarding.DetermineBootState` | api/internal/config/oidc_state.go:106-157 | the counting loop gives the verdict stated by quantifiers, and the enabled list holds exactly the selected ids |
| `Onboarding.NormalizeEnabledSet` | api/internal/handlers/oidc_config.go:660-673 | an entry for every registry id, true exactly for the requested ones |
| `Onboarding.InitProviders` | api/internal/auth/oauth.go:312-340 | the initialisation loop yields the oracle's answer for every provider of the registry and nothing else |
| `Onboarding.WriteEnabled` | api/internal/handlers/oidc_config.go:337-345 | the upsert loop writes the enabled flag of every registry id and no other column or row |
| `Onboarding.Handler.BuildProviderViews` | api/internal/handlers/oidc_config.go:592-613 | a view of every registry id and of nothing else |
| `Onboarding.Handler.RefreshState` | api/internal/handlers/oidc_config.go:101-121 | the cache becomes the singleton row and the state recomputed from tables and OAuth registry |
| `Onboarding.Handler.Rebuild` | api/internal/auth/oauth.go:312-340 | the OAuth registry becomes the initialised merged registry |
| `Onboarding.Handler.EnsureSetupToken` | api/internal/handlers/oidc_config.go:533-584 | clears a leftover token when confirmed, keeps a token it can show, otherwise replaces it; shows a plaintext only when it minted it |
| `Onboarding.Handler.ConfirmSelection` | api/internal/handlers/oidc_config.go:310-389 | the code's effect is AfterConfirm, about which the lemmas below are |
| `Onboarding.Handler.PutProvider` | api/internal/handlers/oidc_providers.go:262-321 | the row merge, rebuild and refresh of a create or update; a null enabled flag disables, an absent or wrongly shaped one keeps |
| `Onboarding.Handler.RevertProvider` | api/internal/handlers/oidc_providers.go:234-255 | row deletion, rebuild and refresh |
| `Onboarding.Handler.StartUp` | api/cmd/server/main.go:209-263 | the boot sequence: OAuth from environment, refresh, override replay, token |
| `Onboarding.VerdictIsRecomputed` | api/internal/handlers/oidc_config.go:101-121 | views in any order decide what the recomputation over the registry says |
| `Onboarding.RebuildProbesOverrides` | api/internal/handlers/oidc_providers.go:383-393 | after a rebuild a provider is in the OAuth registry exactly when known, not disabled and complete, and is initialised as the probe of the merged provider says |
| `Onboarding.ConfirmProbesOverrides` | api/internal/handlers/oidc_config.go:352-364 | after a Confirm a registry id is in the OAuth registry exactly when requested and complete with its overrides, which are what is probed |
| `Onboarding.PutProbesOverrides` | api/internal/handlers/oidc_providers.go:262-321 | after a create or update: exactly when its new row enables it and makes it complete |
| `Onboarding.RevertProbesOverrides` | api/internal/handlers/oidc_providers.go:234-255 | after a revert: exactly when the environment knows it and it is complete without the row |
| `Onboarding.FirstBootConfirms` | api/cmd/server/main.go:209-263 | a first boot without rows, with a complete registry whose providers all initialise, ends confirmed_ok |
| `Onboarding.BootLeavesTheShownToken` | api/internal/handlers/oidc_config.go:533-584 | a boot that ends unconfirmed leaves exactly one usable token, the one it shows; a confirmed one leaves none |
| `Onboarding.CredentialsDecide` | api/internal/handlers/oidc_config.go:399-474 | only an administrator or the holder of the setup token, in the header or, where there is one, in the body, changes anything; an empty token or hash never counts |
| `Onboarding.ConfirmDecidesState` | api/internal/handlers/oidc_config.go:310-389 | after a Confirm: confirmed_ok iff some registry provider was requested and every requested one is complete and initialises with its overrides, opt-out iff the registry is empty or none was requested with opt_out set, init_failed otherwise |
| `Onboarding.ConfirmKeepsOverrides` | model/db/oidc_providers.sql.go:95-99 | Confirm changes nothing but enabled flags of registry ids: every override and every effective provider survives |
| `Onboarding.OperationsKeepCacheCoherent` | api/internal/handlers/oidc_config.go:101-141 | every operation, authorised or refused, ends with the cache equal to the recomputed state |
| `Onboarding.TokenSteps` | api/internal/handlers/oidc_config.go:372-386 | an operation clears the token, keeps it, or replaces it by the fresh draw of a boot |
| `Onboarding.OneTokenAuthenticates` | api/internal/handlers/oidc_config.go:415-423 | with injective hashing at most one token authenticates at any time |
| `Onboarding.RunsStayCoherent` | api/internal/handlers/oidc_config.go:533-584 | in every fault-free run: cache coherent, and a held plaintext hashes to the stored hash when both exist |
| `Onboarding.RetiredForever` | api/internal/handlers/oidc_config.go:533-584 | a token set that is not behind the stored hash never gets behind it again |
| `Onboarding.ConfirmRetiresTokens` | api/internal/handlers/oidc_config.go:372-386 | after a Confirm that ends confirmed, no token minted before it ever authenticates again, restarts included |
| `Redaction.Fail` | api/internal/email/sender.go:265-297 | the two loops and four branches: context error, elapsed context deadline, server reply, redacted text with its cause exposed exactly when it carries no secret |
| `Redaction.BranchesDecide` | api/internal/email/sender.go:265-310 | the text and the cause of each branch: context error, elapsed context deadline, bare reply code, redacted text with its cause exactly when the text holds no secret |
| `Redaction.ReplacementRemoves` | api/internal/email/sender.go:281-285 | one replacement removes its secret and brings back no other that was absent, for secrets that cannot touch the marker |
| `Redaction.RedactRemoves` | api/internal/email/sender.go:281-285 | after the sequential replacements a secret is not left, whatever the text was, if it neither begins inside a marker nor can be recreated by its own or a later replacement |
| `Redaction.HiddenSecretNeverEscapes` | api/internal/email/sender.go:265-310 | for every list of secrets, in every branch, situation and error: a secret that also touches neither the stage prefix nor a fixed text is, as the string it was given, neither in the error text nor in the exposed cause's |
| `Redaction.TextEscapesIff` | api/internal/email/sender.go:265-310 | which texts, addresses inside a secret included, can escape past a list of hidden secrets, over all branches, situations and errors: exactly those in which no secret of the list occurs as a whole |
| `Redaction.NoSecretEscapes` | api/internal/email/sender.go:265-310 | for mailboxes with an '@', no bracket, no leading space and no colon followed by a space, none of the given strings is in the error text or the exposed cause's, in every branch |
| `Redaction.MailboxesAreHidden` | api/internal/email/sender.go:265-310 | a list of such mailboxes meets the condition of TextEscapesIff |
| `Redaction.LoneSecretEscapesIff` | api/internal/email/sender.go:265-310 | exact condition for one secret, over all branches, situations and errors, text and cause: it can escape iff it begins inside the marker, can be recreated before it, touches the stage prefix, or occurs in a context message or a reply text |
| `Redaction.TextWithoutSecretsIsVerbatim` | api/internal/email/sender.go:280-297 | an error text that holds no secret as a whole comes out unchanged, with its cause |
| `Redaction.PaddedReplyToLeaks` | api/internal/email/sender.go:161-166 | counterexample with a valid recipient and sender and a malformed reply line: of a Reply-To with a leading space the bare address stays |
| `Redaction.DisplayNameReplyToLeaks` | api/internal/email/sender.go:161-166 | counterexample with a malformed reply line: a Reply-To with a display name meets the condition of TextEscapesIff, and its bare address escapes |
| `Redaction.NormalizationIsOnePass` | api/internal/email/sender.go:177-180 | the two replacements equal one left-to-right pass that ends every line with LF, and leave no CR |
| `Base64.DecodeOfEncode` | api/internal/auth/password.go:33-40 | RFC 4648 section 4 without padding: decoding inverts encoding on all byte strings |
| `Base64.EncodeOfDecode` | api/internal/auth/password.go:84-94 | an accepted text re-encodes to itself exactly when it has no line break and no spare bit set |
| `Base64.BreaksAreIgnored` | api/internal/auth/password.go:84-94 | a line break anywhere in the text makes no difference to decoding |
| `Base64.DecodesIff` | api/internal/auth/password.go:84-94 | a text without line breaks decodes exactly when it is all symbols of the alphabet and leaves no lone symbol |
| `Decimal.ScanOfPrint` | api/internal/auth/password.go:69-79 | scanning a printed number reads exactly that number up to the next non-digit |
| `Decimal.ScanIntIff` | api/internal/auth/password.go:69-79 | a scan gives a value and a rest exactly for padding without newline, an optional sign, at least one digit and a rest that does not go on with one, within 64 bits |
| `PasswordPhc.ParseOfPrint` | api/internal/auth/password.go:57-97 | for all salts, hashes and 64-bit parameters, parsing the printed string gives them back cut to 32, 32 and 8 bits: the same values exactly when they fit; any version number is accepted |
| `PasswordPhc.PrintedForm` | api/internal/auth/password.go:33-41 | the printed string, spelled out |
| `PasswordPhc.StoredParameters` | api/internal/auth/password.go:14-41 | a password is stored with version 19, 64 MiB, three rounds, two threads and a 32-byte key |
| `PasswordPhc.ScanParamsIff` | api/internal/auth/password.go:75-79 | the parameters are read as three numbers, each after its own literal |
| `PasswordPhc.RefusalsInOrder` | api/internal/auth/password.go:57-97 | the first thing wrong, in the order of the code, is reported; nothing wrong gives the narrowed fields |
| `PasswordPhc.AcceptedReprints` | api/internal/auth/password.go:57-97 | printing the fields of any accepted string gives a string with the same meaning |
| `PasswordPhc.VerifyOfHash` | api/internal/auth/password.go:25-54 | a stored hash accepts exactly the passwords to which Argon2 gives the same key |
| `PasswordPhc.OwnPasswordVerifies` | api/internal/auth/password.go:25-54 | a password verifies against its own hash, for every salt |

## Left out

- HTTP routing, request decoding, response writing, middleware, rate limits, logging, audit observers and wiring: plumbing around the modelled operations.
- OIDC discovery, token exchange, TLS and SMTP sockets: provider initialisation is an oracle, an SMTP failure is its text, its timeout flag and a wrapped reply code.
- HMAC, SHA-256, Argon2 and JSON internals: parameters; injectivity, unforgeability and key length are stated as assumptions where used. That argon2 panics on zero rounds or threads is not modelled.
- `MarkExternallyManaged`, the link-mode callback and the local register, login and password-reset handlers; their writes appear as the creation, link and password steps, and the final write of the email-code handler as the confirmation step.
- Query faults in onboarding and in resolution: fault-free runs only. Faults are modelled in the authorizer and in the secret bootstrap.
- The onboarding handlers' checks on provider ids, and the conflict answer of Create on an existing row.
- Update in place and map iteration order of the onboarding maps: rows, registry and cache are values that the methods reassign.
- Source labels of the provider views and the short validation of names, passwords and device ids in account creation.
- Expiry, purging and user deletion: rows of codes and accounts are never deleted in the model.
- The creation of natural persons, legal entities and the first-user grant inside account creation.
- The dummy hash work that equalises timing of StepUpVerify on its failure paths, and the email sending itself.
- Strings are sequences of characters, not UTF-8 bytes. `Text.Lower` maps ASCII letters only; the email theorems hold for every character mapping that is idempotent and keeps white space.
- StepUpProtocol.AdmissionsNeverExceedCodes: counts late stores separately unless the delay bound is zero, and holds per process lifetime, because the code checks expiry and stores the id in two steps and keeps the cache in memory.
- StepUpProtocol.GuessBudget: the gap is 60 s less the lag between transaction start and cooldown test, because the code reads two clocks.
- Redaction.HiddenSecretNeverEscapes: sufficient when several secrets are given; when the condition fails for one of several, whether it then escapes depends on the others, and is settled for a single secret only (`LoneSecretEscapesIff`).
- AccountDirectory.DirectoryStaysSound: operations are completed, non-overlapping steps; overlapping ones are the subject of UpdateRaces.
