# Mini Banking: a verified model

This project models the parts of Mini Banking whose guarantees rest on whole runs rather than on one
function body, and proves those guarantees for every input and every run.

| part | files |
|---|---|
| Money ledger of the banking service | `Ledger`, `LedgerChain`, `LedgerRuns`, `LedgerLimits`, `LedgerHistory`, `LedgerMeaning`, `LedgerFailures`, `BankService` |
| Audit hash chain, certificate store and CA service | `AuditChain`, `BankAudit`, `Certificates`, `CertStore`, `CaService` |
| Registration saga over CA and bank | `Registration`, `RegistrationRuns`, `RegistrationHandler`, `RegistrationFailures` |
| AP exchange in front of the bank, rate limiter | `ApAuthorize`, `ApExchange`, `TransferGate`, `RateLimiter` |
| PBKDF2 | `Pbkdf2` |
| Audit export: page walk and CSV | `PageWalk`, `CsvExport` |
| Shared text, column and integer encodings | `Encoding`, `Text`, `Columns`, `Utf8`, `Integers`, `Wrappers` |

`dafny verify dfyconfig.toml` checks all of it.

## How the model is built

* Code that works step by step on state is a class whose methods run the same statements in the same
  order (`BankService.Bank`, `CertStore.Store`, `CaService.Service`, `RegistrationHandler.Gateway`,
  `TransferGate.Handler`, `RateLimiter.Limiter`), and loops over arrays and sequences are methods (`Pbkdf2`, `PageWalk`,
  `AuditChain`). Each is proved against a function, and the theorems are about all runs of the steps these
  functions describe. Where calls of different clients interleave (transfers with one key or nonce,
  registrations, calls of the CA, AP requests, limiter hits) a run is any interleaving of the steps.
* A committed SQL transaction is one step. A constraint violation, a text that its column does not take or a
  BIGINT overflow rolls back and is modelled; any other infrastructure error is a step that does not happen.
  The constraints are those of `mini-banking-app/db/bank/migrations/001_init_bank.sql`: unique user ids,
  emails, account numbers, transaction ids, nonces and idempotency keys, `balance >= 0`, `amount > 0`,
  `diff_accounts`, the declared types of the text and UUID columns that requests fill, and the row `main` of
  `ledger_state` at `genesis`.
* `Columns` says what PostgreSQL does to a text: it takes well-formed UTF-8 without NUL bytes, counts
  characters, and silently cuts blanks beyond the declared length. A query with any other text is an error.
* Every transfer locks and updates the one row of `ledger_state` under serializable isolation, so committed
  transfers do not overlap, and the clock readings of one come after the commit of the one before.
* SHA-256, HMAC and the RFC3339Nano text of a time are arbitrary functions. Nothing is assumed about
  collisions: the tamper-evidence theorems say "equal, or here are two recorded inputs that collide".
* Decryption, signature, CSR and mail address checks enter as verdicts.
* The vocabulary that code and theorems share (sums over rows, the status of a certificate, lower-casing, what lets
  a request in, encodings) has lemmas of its own, named `...Exactly`, that say in terms of the input what it means.
* Go's `int64` is explicit: wrapping sums (`Wrap64`), the saturating `time.Time.Sub` (`Saturate64`), and
  `time.Unix`, which wraps beyond 2^63 - 1 - 62135596800 seconds (`UnixInstant`).
* A run's clock does not go back. Every read of the clock that decides something is a reading of its own; the
  readings of calls that overlap are ordered only where a lock or a store orders them.

## Where the code and its own words differ

* **Refused transfers without a row.** `failTransfer` says that a refused attempt is appended to the chain. A
  transfer from an account to itself that an earlier check refuses (owner, status) passes both account ids on,
  which `diff_accounts` forbids, and a request with a text that does not fit its column (a 31-character account
  number, a 4-character currency, a 256-character key or nonce, a NUL byte) fits no row at all: nothing is
  written and the caller gets a database error. `LedgerHistory.RollbackCauses` states exactly when this
  happens, with these families as `SelfRefusedEarly` and `Unfit`; `LedgerFailures.SelfTransferLeavesNoRow` and
  `LedgerFailures.LongTextLeavesNoRow` are runs that do it.
* **Keys that cannot be found again.** A key of more than 255 characters whose excess is blanks is stored cut,
  so its lookup finds nothing and the repetition ends in a database error instead of the recorded answer; the
  empty key is never looked up (`LedgerHistory.KeyOutcomeIsFinal`, and `LedgerFailures.CutKeyNotFoundAgain` for
  a run).
* **Deleted audit rows.** The verification promises to report a deleted row. It overlooks a deleted block
  exactly when no hashed row stands before it, none stands after it, or the hashed rows around it link as they
  did (`AuditChain.DeletionDetected`): both ends of every log can be cut (`AuditChain.EndsVanishUnnoticed`),
  and rows from before the chain can be taken out anywhere.
* **Unhashed audit rows.** An append after an unhashed event that follows hashed ones links to genesis and
  breaks the verification; `AuditChain.AppendVerifies` is the exact condition.
* **Audit texts that columns change.** The bank hashes the texts it is given and replays what the columns hold.
  An identifier in other than canonical UUID text, or a request id of 64 characters and a blank, which a client
  can choose, breaks the verification from then on (`BankAudit.InsertVerifies`, `BankAudit.ChangedTextBreaks`,
  `BankAudit.LongRequestIdBreaks`).
* **Freshness.** A timestamp 2^63 nanoseconds or more ahead of the clock passes the freshness check, because
  the difference saturates and its negation overflows, unless it lies beyond the range of `time.Unix`
  (`ApAuthorize.FreshExactly`, `ApAuthorize.FreshTimestamps`). Such a request is accepted any number of times
  (`ApExchange.AcceptedWithoutEnd`).
* **Ticket expiry.** The two clock readings of the expiry check let a ticket through that expires at or after
  the first reading and before the second (`ApAuthorize.ExpiryExactly`, `ApExchange.ExpiredTicketAccepted`).
* **Replay window.** Freshness window and replay lifetime are equal, so nothing is left for the time between
  check and mark: a run can accept an authenticator again exactly when it was marked before its timestamp plus
  that delay (`ApExchange.ReplayWindow`, and `ApExchange.AcceptedTwice` without any delay). Money still moves once,
  because the ledger's nonces are unique (`TransferGate.ReplayMovesNothing`).
* **Daily check.** `spentToday+in.Amount` decides as the true sum does exactly when that sum fits in an
  `int64` (`LedgerLimits.DailyCheckExact`). For a bank without seeded accounts it always fits, since account
  numbers have ten free digits (`LedgerLimits.EmptyBankHasHeadroom`, `LedgerLimits.ReachableIsSound`). A bank
  seeded close to 2^63 breaks the cap (`LedgerFailures.CapBrokenByOverflow`).
* **Rate limit.** One window may admit more than `max`: up to `2 * max - 1`, a bound that is attained
  (`RateLimiter.WindowBound`, `RateLimiter.BoundAttained`). The limit holds for every window exactly when `max`
  is one (`RateLimiter.WindowKeepsMaxExactly`).
* **Lost replies.** Registration keeps certificates and users in step exactly when the owners left with a
  certificate and the users whose creation was reported as failed are the same set
  (`RegistrationRuns.RegistrationsStayInStep`). One lost answer of the CA puts them out of step
  (`RegistrationFailures.LostReplyOutOfStep`).
* **Replay keys.** The replay store joins its fields with `|`. Requests whose fields hold none never block one
  another short of a hash collision (`ApExchange.KeysDiffer`); with a `|` in a field two different requests can
  share a key (`ApExchange.BarsConfuse`).
* **What the ledger hash covers.** Amount and accounts are covered only through the payload hash.

## Model

| member | source | states |
|---|---|---|
| BankService.Bank.constructor | mini-banking-app/db/bank/migrations/001_init_bank.sql:5-93 | a migrated database is an initial state: empty tables, head at genesis |
| BankService.Bank.SumCompletedTransfersSince | mini-banking-app/banking-service/internal/bank/repository.go:328-336 | the row loop returns the sum of the completed transfers of one account in a closed time range |
| LedgerLimits.SumCounts | mini-banking-app/banking-service/internal/bank/repository.go:331-333 | a row adds its amount exactly when it is a completed transfer out of the account, stamped at or after the one bound and at or before the other, and nothing otherwise |
| LedgerLimits.SpentOnIsPaidOn | mini-banking-app/banking-service/internal/bank/service.go:313-314 | the range query over a day counts what was paid on that day, by whole days of 24 hours |
| BankService.Bank.DebitAccount | mini-banking-app/banking-service/internal/bank/repository.go:344-347 | index by index: the account with that id loses the amount and every other keeps its balance; refused, with nothing changed, exactly when a balance would become negative or leave int64 |
| BankService.Bank.CreditAccount | mini-banking-app/banking-service/internal/bank/repository.go:349-352 | index by index: the account with that id gains the amount and every other keeps its balance; refused, with nothing changed, exactly when a balance would leave int64 |
| LedgerRuns.AppendKeepsRecords | mini-banking-app/banking-service/internal/bank/repository.go:375-428 | a row that the table takes keeps ids, keys and nonces distinct as the columns hold them, also where blanks were cut |
| LedgerRuns.ChainAppend | mini-banking-app/banking-service/internal/bank/repository.go:430-435 | the hash set by the update is the head of the chain extended by the new row |
| BankService.Bank.FindIdempotentTransaction | mini-banking-app/banking-service/internal/bank/service.go:257-272 | finds nothing exactly for the empty key and for a key without a row; answers the id of a completed row with the key; answers the idempotency error for a failed row or a key that no query takes |
| BankService.Bank.FailTransfer | mini-banking-app/banking-service/internal/bank/service.go:378-442 | the statements of a failed attempt, with rollback, perform the specified step |
| BankService.Bank.CompleteTransfer | mini-banking-app/banking-service/internal/bank/service.go:322-373 | debit, credit, insert and head update, with rollback wherever they stop, perform the specified step |
| BankService.Bank.ExecuteTransfer | mini-banking-app/banking-service/internal/bank/service.go:274-373 | the whole transaction, branch by branch, performs the specified step |
| BankService.Bank.Transfer | mini-banking-app/banking-service/internal/bank/service.go:245-255 | lookup and transaction perform the specified step on the tables and give its answer |
| BankService.Bank.CreateUser | mini-banking-app/banking-service/internal/bank/service.go:82-115 | user and default account are created together or not at all |
| LedgerMeaning.CreateUserExactly | mini-banking-app/banking-service/internal/bank/service.go:82-115 | each answer exactly when it is due, and the two rows written: limit and balance 50,000,000, trimmed texts, canonical id |
| LedgerMeaning.AccountNumberExactly | mini-banking-app/banking-service/internal/bank/service.go:452-460 | an account number is "10" and ten digits that write 48 bits of the hash of the user id modulo 10^10 |
| LedgerMeaning.LoadExactly | mini-banking-app/banking-service/internal/bank/repository.go:316-326 | an account is found with its own columns and its owner's status |
| LedgerMeaning.LoadNone | mini-banking-app/banking-service/internal/bank/repository.go:316-326 | without such an account and owner nothing is found |
| LedgerHistory.ExecuteRecords | mini-banking-app/banking-service/internal/bank/service.go:322-373 | an answered transfer leaves one more row, which hashes its canonical payload and holds its signature, numbers, amount, currency, description, caller, nonce and key as the columns hold them |
| LedgerRuns.ExecuteKeepsInv | mini-banking-app/banking-service/internal/bank/service.go:274-442 | a transfer, whichever branch it takes, keeps unique keys and numbers, replayed balances, the total and the chain |
| LedgerRuns.CreateUserKeepsInv | mini-banking-app/banking-service/internal/bank/service.go:82-115 | creating a user keeps the same invariant |
| LedgerRuns.MoveTotal | mini-banking-app/banking-service/internal/bank/repository.go:344-352 | debit and credit of one amount leave the total of all balances alone |
| LedgerRuns.RunKeepsInv | mini-banking-app/banking-service/internal/bank/service.go:245-442 | in every run of concurrent transfers and user creations the invariant holds: rows form one chain from genesis to the head, money is conserved, keys and nonces are distinct |
| LedgerHistory.BalancesAreReplay | mini-banking-app/banking-service/internal/bank/service.go:337-342 | after any run no balance is negative, each is its opening balance plus completed credits minus completed debits, and the total grew by 50,000,000 per opened account |
| LedgerMeaning.NetCounts | mini-banking-app/banking-service/internal/bank/service.go:337-342 | a completed row adds its amount to the one account and takes it from the other; no other row counts |
| LedgerMeaning.TotalCounts | mini-banking-app/banking-service/internal/bank/repository.go:46-52 | the total counts every account's balance once |
| LedgerMeaning.NothingTwice | mini-banking-app/db/bank/migrations/001_init_bank.sql:5-54 | no run makes two users of one id or email, two accounts of one id or number, or two rows of one id, key or nonce |
| LedgerHistory.RowsOnlyGrow | mini-banking-app/banking-service/internal/bank/service.go:375-377 | the ledger is append-only over every run |
| LedgerChain.TailParses | mini-banking-app/banking-service/internal/bank/service.go:331-335 | payload hash, signature, id and time are recovered from their plain concatenation |
| LedgerChain.InputParses | mini-banking-app/banking-service/internal/bank/service.go:331-335 | two rows with one hash input agree on the previous hash and on every covered field |
| LedgerChain.HeadFixesRows | mini-banking-app/banking-service/internal/bank/service.go:322-335 | two chains with one head agree row by row on every covered field, or two of their rows collide |
| LedgerHistory.HistoryFixedByHead | mini-banking-app/banking-service/internal/bank/service.go:393-427 | two reachable ledgers with one head have the same covered history, or a collision is exhibited |
| LedgerMeaning.RowsAreRequests | mini-banking-app/banking-service/internal/bank/service.go:328-427 | after any run the ledger holds one row for each answered transfer, documenting it, and no other |
| LedgerHistory.SameCoveredSameRequest | mini-banking-app/banking-service/internal/bank/service.go:328-333 | rows of two requests that agree on the covered fields mean one signature and canonical payloads with one digest |
| LedgerMeaning.HeadFixesRequests | mini-banking-app/banking-service/internal/bank/service.go:331-335 | two runs that end in one head have answered transfers with the same signatures, identifiers and times in the same order, over canonical payloads with the same digests, or a collision is exhibited |
| Encoding.Base64Injective | mini-banking-app/banking-service/internal/bank/service.go:333 | the signature text determines the signature |
| Encoding.HexInjective | mini-banking-app/banking-service/internal/bank/service.go:332 | the hex text determines the digest |
| Encoding.HexDecodes | mini-banking-app/banking-service/internal/bank/service.go:332 | each byte is read back from its two digits |
| Encoding.HexNames | mini-banking-app/banking-service/internal/bank/service.go:332 | the sixteen digits by name |
| Encoding.Base64Decodes | mini-banking-app/banking-service/internal/bank/service.go:333 | three bytes are read back from their four characters |
| Encoding.Base64Names | mini-banking-app/banking-service/internal/bank/service.go:333 | the sixty-four characters by name |
| Encoding.NewUuid | mini-banking-app/banking-service/internal/bank/service.go:444-450 | an identifier has 36 characters and its first dash at index 8, whatever bytes are drawn |
| Encoding.UuidForm | mini-banking-app/banking-service/internal/bank/service.go:444-450 | dashes, version and variant stand where they should, hexadecimal digits elsewhere |
| Encoding.UuidKeepsBits | mini-banking-app/banking-service/internal/bank/service.go:444-450 | an identifier determines all drawn bits but the six it overwrites |
| Columns.HeldVerbatim | mini-banking-app/db/bank/migrations/001_init_bank.sql:29-48 | a column holds a text as it is if and only if it is no longer than declared, in characters |
| Utf8.ValidTextExactly | mini-banking-app/db/bank/migrations/001_init_bank.sql:29-48 | the texts taken are exactly the UTF-8 encodings of characters other than NUL (section 3 of RFC 3629) |
| Utf8.FitsExactly | mini-banking-app/db/bank/migrations/001_init_bank.sql:29-48 | a column takes a text exactly when the characters beyond its length are blanks |
| Utf8.CutIsPrefix | mini-banking-app/db/bank/migrations/001_init_bank.sql:29-48 | and then holds its first characters |
| LedgerHistory.AnswerIsRecorded | mini-banking-app/banking-service/internal/bank/service.go:245-272 | a transfer that answered has its key on record as the column holds it, completed with that id or failed |
| LedgerHistory.KeyOutcomeIsFinal | mini-banking-app/banking-service/internal/bank/service.go:257-272 | after an answer in any reachable ledger and any further run, a transfer with that key changes nothing and repeats the id, or reports the idempotency error; an empty key and one that its column cuts end in a database error |
| LedgerFailures.CutKeyNotFoundAgain | mini-banking-app/banking-service/internal/bank/service.go:257-272 | a run in which a transfer completes under a key of 256 characters and its repetition ends in a database error |
| LedgerHistory.RacingCallsApplyOnce | mini-banking-app/banking-service/internal/bank/service.go:245-255 | of two transactions with one key or one nonce, whatever their lookups saw and whatever comes between, the second rolls back |
| LedgerHistory.NonceMovesMoneyOnce | mini-banking-app/db/bank/migrations/001_init_bank.sql:43 | after a transfer that changed the bank and any further run, no transfer with its nonce changes the bank |
| LedgerHistory.RollbackCauses | mini-banking-app/banking-service/internal/bank/service.go:375-427 | a transfer is rolled back if and only if its amount is not positive, its id, key or nonce is taken, a text does not fit its column, or it is a self-transfer refused early |
| LedgerFailures.SelfTransferLeavesNoRow | mini-banking-app/banking-service/internal/bank/service.go:375-442 | a run in which a refused self-transfer with fitting, new texts leaves no failed row |
| LedgerFailures.LongTextLeavesNoRow | mini-banking-app/banking-service/internal/bank/service.go:375-442 | a transfer refused for its account, with a currency of four characters, leaves no failed row |
| LedgerHistory.CompletesExactly | mini-banking-app/banking-service/internal/bank/service.go:274-373 | a transfer completes if and only if it is acceptable: true sums on the calendar day of its first reading, new id, key and nonce, texts that fit their columns |
| LedgerHistory.RefusalIsTruthful | mini-banking-app/banking-service/internal/bank/service.go:282-320 | each refusal names a condition that holds, moves no money and has left one failed row |
| LedgerMeaning.CompletedMoves | mini-banking-app/banking-service/internal/bank/service.go:337-363 | a completed transfer takes the amount from the account of the one number and adds it to that of the other; no other balance changes, and the row names both |
| LedgerHistory.RefusalIsFirst | mini-banking-app/banking-service/internal/bank/service.go:282-320 | the error named is the first in the order of the checks for which there is cause |
| LedgerHistory.RefusalNames | mini-banking-app/banking-service/internal/bank/service.go:282-320 | which of the two accounts a failed row names |
| LedgerMeaning.OverLimitRefused | mini-banking-app/banking-service/internal/bank/service.go:318-320 | a transfer that would take the day's payments over the limit does not complete and moves no money |
| LedgerLimits.DailyQuery | mini-banking-app/banking-service/internal/bank/service.go:313-314 | the query over two clock readings returns what was spent on the day of the first, between zero and the limit |
| LedgerLimits.AcceptedFits | mini-banking-app/banking-service/internal/bank/service.go:313-330 | an accepted amount fits under the limit on the day of its stamp, also when midnight falls between the readings |
| LedgerLimits.DailyCapHolds | mini-banking-app/banking-service/internal/bank/service.go:313-330 | over every run, for every account and every UTC day, what was paid on that day stays within the limit |
| LedgerLimits.DailyCheckExact | mini-banking-app/banking-service/internal/bank/service.go:318-320 | the wrapped comparison is right if and only if the true sum fits in an int64 |
| Integers.WrapExactly | mini-banking-app/banking-service/internal/bank/service.go:318-320 | a 64-bit sum is the one int64 that differs from the true sum by a multiple of 2^64 |
| LedgerFailures.CapBrokenByOverflow | mini-banking-app/banking-service/internal/bank/service.go:318-320 | from two accounts seeded with 2^63 - 1 between them and that limit, a run exceeds the daily limit, so headroom is needed |
| LedgerLimits.NoOverflow | mini-banking-app/banking-service/internal/bank/service.go:309-342 | with room for all balances plus one limit, neither the daily sum nor the credit overflows |
| LedgerLimits.OpenedAccountsBound | mini-banking-app/banking-service/internal/bank/service.go:452-460 | at most 10^10 accounts can be opened, since numbers are unique and have ten free digits |
| LedgerLimits.EmptyBankHasHeadroom | mini-banking-app/banking-service/internal/bank/repository.go:46-52 | a bank without seeded accounts can never run out of int64 range |
| LedgerLimits.ReachableIsSound | mini-banking-app/banking-service/internal/bank/service.go:309-342 | in every state of every run the conditions for exact checks and free of overflow hold |
| AuditChain.VerifyAuditChain | mini-banking-app/ca-service/internal/ca/store.go:247-273 | accepts exactly the unbroken logs, counts their hashed events, and otherwise names the smallest broken position, its kind and the hashed events before it |
| AuditChain.AppendVerifies | mini-banking-app/ca-service/internal/ca/store.go:225-244 | an append keeps the log verifying if and only if it verified and no unhashed event stands after the hashed ones; the count grows by one |
| AuditChain.RunOfAppendsVerifies | mini-banking-app/ca-service/internal/ca/store.go:225-244 | any sequence of appends of the CA keeps the log verifying with the count growing by one each |
| BankAudit.InsertVerifies | mini-banking-app/banking-service/internal/bank/repository.go:72-108 | an insert keeps the bank's log verifying if and only if it verified, no unhashed row stands after the hashed ones, and the columns read back as given or collide with it |
| BankAudit.TakesExactly | mini-banking-app/db/bank/migrations/001_init_bank.sql:62-82 | which entries the table takes |
| BankAudit.RunOfInsertsVerifies | mini-banking-app/banking-service/internal/bank/repository.go:132-174 | any sequence of inserts of texts that read back as given keeps the log verifying; the count grows by one for each that the table takes |
| BankAudit.ChangedTextBreaks | mini-banking-app/banking-service/internal/bank/repository.go:100-103 | after an entry that reads back changed the log never verifies again, whatever is inserted, or a collision is exhibited |
| BankAudit.LongRequestIdBreaks | mini-banking-app/banking-service/internal/bank/repository.go:100-103 | such an entry: a stale request whose client chose a request id of 64 characters and a blank |
| AuditChain.JoinedInjective | mini-banking-app/ca-service/internal/ca/service.go:226-240 | fields without 0x1f are recovered from the separated concatenation, for any number of fields |
| AuditChain.CaHashExactly | mini-banking-app/ca-service/internal/ca/service.go:226-240 | the hash of a CA event is over the previous hash, action, serial, actor and reason, each after the byte 0x1f |
| AuditChain.BankFieldsExactly | mini-banking-app/banking-service/internal/bank/repository.go:114-128 | the seven fields that the bank covers, in order |
| AuditChain.ChangeDetected | mini-banking-app/ca-service/internal/ca/store.go:262-268 | a hashed event whose covered fields are changed breaks the verification, or a collision is exhibited |
| AuditChain.ChainIsVerifiedFromGenesis | mini-banking-app/ca-service/internal/ca/store.go:247-273 | the recursive chain used below is the same as: verifies, starts at genesis and ends in this hash |
| AuditChain.HeadFixesEvidence | mini-banking-app/ca-service/internal/ca/service.go:224-240 | two verifying logs from genesis with one final hash cover the same fields in the same order, or contain a collision |
| AuditChain.DeletionDetected | mini-banking-app/banking-service/internal/bank/repository.go:130-174 | a deleted block, hashed rows or not, goes unnoticed if and only if no hashed row stands before it, none after it, or the rows around it link as they did |
| AuditChain.EndsVanishUnnoticed | mini-banking-app/banking-service/internal/bank/repository.go:130-174 | every verifying log verifies when cut at either end |
| AuditChain.DeletionFromHashedLog | mini-banking-app/banking-service/internal/bank/repository.go:130-174 | with every row hashed, only a prefix, a suffix or a block between linking rows goes unnoticed |
| CertStore.Store.CreateCertificate | mini-banking-app/ca-service/internal/ca/store.go:108-123 | the loop over the map in any order performs the specified creation |
| Certificates.ActiveExactly | mini-banking-app/ca-service/internal/ca/store.go:440-455 | a record is active exactly while it is in force and its `notAfter`, if any, has not passed |
| Certificates.ResolveExactly | mini-banking-app/ca-service/internal/ca/store.go:444-455 | each status by what brings it about |
| Certificates.AcceptedExactly | mini-banking-app/ca-service/internal/ca/store.go:108-123 | a client record is accepted exactly when its serial is new and every client record of its owner is out of force or past its `notAfter` |
| Certificates.RevokedExactly | mini-banking-app/ca-service/internal/ca/store.go:197-223 | each refusal of a revocation exactly when it is due, and nobody else's record changes |
| CertStore.Store.UpsertCertificate | mini-banking-app/ca-service/internal/ca/store.go:77-106 | performs the specified merge with the record on file |
| CertStore.Store.RevokeCertificate | mini-banking-app/ca-service/internal/ca/store.go:197-223 | performs the specified revocation, also when the state file cannot be written |
| CertStore.Store.AppendAudit | mini-banking-app/ca-service/internal/ca/store.go:225-244 | extends the log by one linked event over the four covered fields, and says exactly when it still verifies |
| CertStore.Store.ValidateLoadedState | mini-banking-app/ca-service/internal/ca/store.go:372-397 | accepts exactly the loadable states, in whatever order the map is walked, and fills in missing types |
| Certificates.CreateExactly | mini-banking-app/ca-service/internal/ca/store.go:108-123 | an active record is accepted if and only if its serial is new and one active client certificate per owner remains |
| Certificates.RevokedForever | mini-banking-app/ca-service/internal/ca/store.go:85-94 | a revoked serial keeps time and reason and resolves to revoked at every clock value, through every later store operation |
| Certificates.RevocationStands | mini-banking-app/ca-service/internal/ca/store.go:205-217 | a revocation that was carried out is dated and explained as asked, and the certificate is never active again |
| CaService.StepKeepsSound | mini-banking-app/ca-service/internal/ca/service.go:391-396 | each thing done under one lock of the store keeps well-formed records and one active client certificate per owner |
| CaService.Service.IssueTo | mini-banking-app/ca-service/internal/ca/service.go:282-415 | the guards in order, the issuers, the record and an audit event perform the specified registration |
| CaService.Service.RevokeOn | mini-banking-app/ca-service/internal/ca/service.go:524-559 | performs the specified revocation and logs it |
| CaService.Service.EnsureIssuers | mini-banking-app/ca-service/internal/ca/service.go:724-745 | puts the root, when there is one, and the signer on file |
| CaService.AdmittedExactly | mini-banking-app/ca-service/internal/ca/service.go:282-396 | a registrant is admitted exactly when the input is valid, the serial new and no certificate of the owner stands in the way; the record names the registrant |
| CaService.ServiceRevokesExactly | mini-banking-app/ca-service/internal/ca/service.go:524-543 | when a revocation goes through, and what it records |
| CaService.IssuersOnFile | mini-banking-app/ca-service/internal/ca/service.go:724-745 | the issuers are on file under their serials and types; nobody else's record changes |
| CaService.RenewalExactly | mini-banking-app/ca-service/internal/ca/service.go:324-326 | an owner's second registration succeeds exactly when the first certificate has run out |
| CaService.OneActiveClientAlways | mini-banking-app/ca-service/internal/ca/service.go:724-745 | in every interleaving of the locked steps of any number of calls no owner ever has two active client certificates, and the state is loadable at every later time |
| RegistrationHandler.Gateway.VetToken | mini-banking-app/api-gateway/src/controller/ca.controller.ts:194-251 | used tokens, missing claims and an email known in any case of letters end the request before anything is issued |
| RegistrationHandler.Gateway.IssueCertificate | mini-banking-app/api-gateway/src/controller/ca.controller.ts:253-273 | performs the issuing step; what it reports is a certificate for the person of the token |
| RegistrationHandler.Gateway.RegisterAtBank | mini-banking-app/api-gateway/src/controller/ca.controller.ts:275-287 | performs the bank step; a reported user is the person of the token |
| RegistrationHandler.Gateway.RollBack | mini-banking-app/api-gateway/src/controller/ca.controller.ts:291-305 | performs the compensating step |
| RegistrationHandler.Gateway.HandleRegister | mini-banking-app/api-gateway/src/controller/ca.controller.ts:167-343 | the handler run alone is the run of its six steps, and when it registers, certificate and user are those of one person |
| RegistrationRuns.IssueGrows | mini-banking-app/ca-service/internal/ca/service.go:391-396 | issuing adds one active certificate of an owner without one, or none at all |
| RegistrationRuns.RevokeShrinks | mini-banking-app/ca-service/internal/ca/service.go:524-559 | the compensating revoke removes the one active certificate of its owner and nothing else |
| RegistrationRuns.RunKeepsInv | mini-banking-app/api-gateway/src/controller/ca.controller.ts:221-343 | in every interleaving each active certificate is accounted for by one running handler, one registered user or one failure |
| RegistrationRuns.RegistrationsStayInStep | mini-banking-app/api-gateway/src/controller/ca.controller.ts:221-330 | with all handlers done, active owners are exactly the registered users up to named failures, and both services agree if and only if these cancel out |
| RegistrationRuns.CleanRegistrationsAgree | mini-banking-app/api-gateway/src/controller/ca.controller.ts:284-330 | when failed calls had no effect and revokes succeed, owners of active certificates are exactly the bank users |
| RegistrationFailures.LostReplyOutOfStep | mini-banking-app/api-gateway/src/controller/ca.controller.ts:253-273 | from empty services a registration whose issuing answer is lost leaves an active certificate without a user |
| RegistrationRuns.EmailsStayUnique | mini-banking-app/api-gateway/src/controller/ca.controller.ts:207-251 | from users whose emails differ by more than the case of letters, no interleaving brings about two that do not |
| Text.LowerEqualExactly | mini-banking-app/api-gateway/src/controller/ca.controller.ts:207-208 | two texts have one lower-case form exactly when they are the same but for the case of letters |
| RegistrationRuns.KnownExactly | mini-banking-app/banking-service/internal/bank/repository.go:59-66 | an email is known exactly when a user has it but for case and the white space around it |
| ApAuthorize.FreshExactly | mini-banking-app/banking-service/internal/grpc/auth.go:85-89 | which instants the check lets through, saturation and overflow included |
| ApAuthorize.FreshTimestamps | mini-banking-app/banking-service/internal/grpc/auth.go:85-89 | the same in terms of the timestamp in the request: one beyond the range of `time.Unix` is stale |
| Integers.SaturateExactly | mini-banking-app/banking-service/internal/grpc/auth.go:86 | the difference of two times is the nearest int64 |
| ApAuthorize.ExpiryExactly | mini-banking-app/banking-service/internal/grpc/auth.go:56-59 | which tickets the expiry check lets through, with its two readings |
| ApAuthorize.AuthorizeExactly | mini-banking-app/banking-service/internal/grpc/auth.go:44-145 | a request is let in exactly when ticket, scope, authenticator, freshness and certificate all stand, written out, and otherwise the answer names the first that fails |
| ApExchange.EveryAcceptanceLetIn | mini-banking-app/banking-service/internal/grpc/auth.go:44-145 | every acceptance of a run comes from a request of it that may enter |
| ApExchange.KeyExactly | mini-banking-app/banking-service/internal/grpc/auth.go:290-291 | a key is the name of the service and the digest of the joined fields |
| ApExchange.KeysDiffer | mini-banking-app/banking-service/internal/grpc/auth.go:290-291 | different requests without the joining character have different keys, or the hash collides |
| ApExchange.BarsConfuse | mini-banking-app/banking-service/internal/grpc/auth.go:290-291 | two different requests with that character that share a key |
| ApExchange.AcceptedAtMostOnce | mini-banking-app/banking-service/internal/grpc/auth.go:289-300 | in every run, overlapping calls included, an authenticator accepted once its timestamp plus the longest check-to-mark delay has passed is never accepted again |
| ApExchange.AcceptancesApart | mini-banking-app/banking-service/internal/grpc/auth.go:289-300 | two acceptances under one key are more than its lifetime apart: a second mark within it is refused |
| ApExchange.AcceptedAgainExactly | mini-banking-app/banking-service/internal/grpc/auth.go:289-300 | a run that has accepted an authenticator can go on, keeping the clock, to accept a request with it once more if and only if its key is forgotten before the last instant at which the request passes plus the check-to-mark delay |
| ApExchange.ReplayWindow | mini-banking-app/banking-service/internal/grpc/handler.go:23-24 | under a ticket that outlives its freshness this is so if and only if it was marked before its timestamp plus that delay |
| ApExchange.AcceptedTwice | mini-banking-app/banking-service/internal/grpc/handler.go:23-24 | a run that accepts one authenticator twice without any delay, under a complete ticket with an hour to live |
| ApExchange.AcceptedWithoutEnd | mini-banking-app/banking-service/internal/grpc/auth.go:406-411 | a timestamp far ahead of the clock, within the range of `time.Unix`, is accepted any number of times |
| ApExchange.ExpiredTicketAccepted | mini-banking-app/banking-service/internal/grpc/auth.go:56-59 | a run that accepts a ticket which expired between the two readings |
| TransferGate.Handler.MarkReplay | mini-banking-app/banking-service/internal/grpc/auth.go:289-300 | performs the `Mark` step of the AP exchange, and succeeds exactly when that step accepts |
| TransferGate.Handler.TransferMoney | mini-banking-app/banking-service/internal/grpc/handler.go:118-165 | a request passes exactly when everything in `Admits`, written out, holds, and then performs `Begin`, `Mark` and the transfer for the holder of the ticket; one turned away leaves replay keys and bank alone |
| TransferGate.VetExactly | mini-banking-app/banking-service/internal/grpc/handler.go:125-141 | the answer to a payload names the first of its checks that fails |
| TransferGate.ReplayMovesNothing | mini-banking-app/banking-service/internal/grpc/handler.go:142-155 | after a request that changed the bank and any further run of it, no request with its nonce changes the bank, whatever the replay store has forgotten |
| RateLimiter.Limiter.Check | mini-banking-app/api-gateway/src/middleware/rateLimiter.ts:10-43 | one request alone is an increment, an expiry after the first, and the verdict on the count |
| RateLimiter.LifeAdmitsAtMostMax | mini-banking-app/api-gateway/src/middleware/rateLimiter.ts:21-38 | in every interleaving each life of the key admits at most `max` requests |
| RateLimiter.AdmittedAfterExpiry | mini-banking-app/api-gateway/src/middleware/rateLimiter.ts:21-25 | a request at or after the expiry, once the counter is dropped, begins a new life and is admitted |
| RateLimiter.WindowBound | mini-banking-app/api-gateway/src/middleware/rateLimiter.ts:21-38 | any half-open interval of one window holds at most 2 * max - 1 admitted requests |
| RateLimiter.BoundAttained | mini-banking-app/api-gateway/src/middleware/rateLimiter.ts:21-38 | for every limit whose window has at least two instants, a run reaches that bound |
| RateLimiter.WindowKeepsMaxExactly | mini-banking-app/api-gateway/src/middleware/rateLimiter.ts:21-38 | every window of every run holds at most `max` admitted requests if and only if `max` is one |
| Pbkdf2.Block | mini-banking-app/ca-service/internal/ca/rootca.go:341-353 | the in-place XOR loops compute F of section 5.2 of RFC 8018 |
| Pbkdf2.XorExactly | mini-banking-app/ca-service/internal/ca/rootca.go:350-352 | a bit of the result is set exactly when it is set in one of the two bytes |
| Pbkdf2.XorTwice | mini-banking-app/ca-service/internal/ca/rootca.go:350-352 | what one exclusive or does, another undoes |
| Pbkdf2.Pbkdf2Key | mini-banking-app/ca-service/internal/ca/rootca.go:327-357 | the key is the standard's derived key for every positive length, counter bytes overwritten in place |
| Pbkdf2.CounterFaithful | mini-banking-app/ca-service/internal/ca/rootca.go:336-339 | the four counter bytes encode the block index if and only if it is below 2^32 |
| Pbkdf2.KeyByte | mini-banking-app/ca-service/internal/ca/rootca.go:354-356 | each byte of the key is the byte of the block it belongs to |
| Pbkdf2.SingleBlockKey | mini-banking-app/ca-service/internal/ca/rootca.go:311 | the 32-byte key that opens the private key envelope is the first block of the standard, whole |
| PageWalk.ListAudit | mini-banking-app/ca-service/internal/ca/store.go:275-331 | the loop, the sort and the clamping return one page of the filtered listing and its size |
| PageWalk.ListAuditEvents | mini-banking-app/ca-service/internal/ca/service.go:563-590 | fails exactly for disordered bounds, and otherwise returns the same page although it clamps twice |
| PageWalk.ListedExactly | mini-banking-app/ca-service/internal/ca/store.go:298-303 | an event is listed exactly when the log holds it at or after the first second and before the last |
| PageWalk.DisorderedExactly | mini-banking-app/ca-service/internal/ca/service.go:577-579 | bounds are refused exactly when both are there and the end comes first |
| PageWalk.FetchCaWindow | mini-banking-app/api-gateway/src/lib/audit-fetch.ts:42-81 | the walk returns exactly the first min(cap, n) events of the listing, in an exact number of calls, and fails exactly when it calls with disordered bounds |
| PageWalk.WalkReturnsNewest | mini-banking-app/ca-service/internal/ca/store.go:307-309 | these are the newest matching events, and together with the rest each as often as the log holds it |
| CsvExport.ScanCell | mini-banking-app/api-gateway/src/controller/admin-audit-report.controller.ts:226-229 | a written cell reads back as its value, wherever it stands |
| CsvExport.CellExactly | mini-banking-app/api-gateway/src/controller/admin-audit-report.controller.ts:226-229 | a value is quoted exactly when it has a quote, a comma or a line feed |
| CsvExport.ColumnsByName | mini-banking-app/api-gateway/src/controller/admin-audit-report.controller.ts:210-224 | every value stands under the name of its field |
| CsvExport.TableDecodes | mini-banking-app/api-gateway/src/controller/admin-audit-report.controller.ts:262-268 | any table with any text in its cells reads back as it was |
| CsvExport.ExportDecodes | mini-banking-app/api-gateway/src/controller/admin-audit-report.controller.ts:260-268 | the export decodes to exactly the header and the thirteen columns of every event |
| CsvExport.ExportInjective | mini-banking-app/api-gateway/src/controller/admin-audit-report.controller.ts:210-229 | no two different event lists have the same export |

## Left out

- Cryptography: AES-GCM, RSA-PSS, X.509, CSR, PEM and JSON codecs are foreign calls and enter as verdicts or as what they decode; so do the guards around the private key envelope.
- Times: RFC3339Nano text is an arbitrary function, so equal histories have equal time texts; ledger readings are whole microseconds, and rounding of finer readings by TIMESTAMPTZ is not modelled.
- Text: trimming and lower-casing are on ASCII. Which texts the database reads as which UUID is an arbitrary function.
- Infrastructure errors of the database (connection, serialization conflict) are steps that do not happen; the errors a constraint raises are modelled.
- Bank audit: which event each branch of a transfer writes, and the metadata column; the table and its chain are modelled.
- `GetBalance`, `GetHistory`, admin queries and error code tables: reads and one-branch facts.
- Issuer records (`UpsertIssuer`), the remaining columns of a certificate record, and the metadata of audit events.
- `PostgresStore`: the in-memory store is modelled.
- Redis failures: the limiter fails open and `markReplay` falls back to `used_nonces`; runs are those where Redis answers. `RATE_LIMIT_DISABLED` and `Retry-After` likewise.
- RegistrationRuns.RegistrationsStayInStep: certificates that expire during the run, admin revocations, issuer serials drawn again and owner ids other than the canonical UUIDs the gateway draws (`mini-banking-app/api-gateway/src/controller/otp.controller.ts:151`) are excluded by `Admissible` and the operations of a run; the run may start from any state in which both services agree.
- RegistrationHandler.Gateway.HandleRegister: token parsing is left out; the claims are given, and a used token stays used (its Redis key outlives the token).
- LedgerRuns.RunKeepsInv: runs start from a ledger without rows, users and accounts may be seeded; status changes by an administrator are not steps.
- CertStore.Store.RevokeCertificate: the file itself is a flag that says whether the write succeeded; loading a written file is not modelled.
- PageWalk.FetchCaWindow: the log does not change during the walk; the KDC and bank walks are the same loop, and merging the sources, enrichment and summary counters are left out.
- OTP, admin activation, sessions, JWT, Express, mail, provisioning scripts and all React pages.
