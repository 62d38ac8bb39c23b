# CryptoDB: a verified model

This project models the stateful and arithmetic core of CryptoDB in Dafny and proves what that core
is for: that shares of a key give the key back and nothing less does, that an acknowledgement means
the standby has the data, that the audit ledger cannot be edited unseen, that no key rotation loses a
record. `dafny verify dfyconfig.toml` checks everything.

## Files

| file | models |
|---|---|
| `Gf2Polynomials.dfy`, `ByteBits.dfy`, `GaloisField.dfy` | polynomials over GF(2), the field GF(2^8) of FIPS 197 (sections 4.1 and 4.2), multiplication and inversion |
| `Interpolation.dfy`, `Recovery.dfy` | Horner evaluation, Lagrange interpolation, splitting and recovering a secret |
| `Replication.dfy`, `ReplicationService.dfy` | push replication over a network that loses requests, loses answers and alters ciphertext: the operations, and the engine's loops |
| `ReplicationRuns.dfy`, `ReplicationOutcomes.dfy`, `ReplicationLiveness.dfy`, `ReplicationFeed.dfy` | what holds in every reachable state, what one operation makes of each row, what becomes of rows in the end, and the change feed |
| `Ledger.dfy`, `AuditStore.dfy`, `AuditService.dfy` | the hash chain, and the chain in memory over tables that commit, roll back and are reloaded |
| `Rotation.dfy`, `RotationRuns.dfy`, `RotationService.dfy` | envelope encryption, the rotation loop and scheduler, the engine's key map, and what becomes of records and keys over runs |
| `Sessions.dfy`, `SessionService.dfy` | refresh-token rotation |
| `RateLimiter.dfy` | the sliding-window rate limiter |
| `Search.dfy` | blind-index search |
| `Base64Url.dfy` | unpadded base64url credentials (RFC 4648, sections 3.2 and 5) |

The code that changes things step by step is modelled by methods with loops, and its objects by
classes; each method is proved equal to a function on values, and the theorems over whole runs are
about those functions. The fields that the comments call history (`created`, `cleared`, `endpoints`,
`written`, `origins`, `exchanged`, `lineage`) record what happened for the theorems; beyond keeping
new ids new they decide nothing.

## Assumptions

- Primitives are parameters with laws as hypotheses of the theorems: hashes and keyed hashes are
  injective (and never give the genesis hash), authenticated decryption inverts encryption under the
  same key and nonce and fails under another key. The JSON text that is hashed is taken to be an
  injective encoding of the fields of an entry.
- Randomness, clocks and new ids are arguments. Random coefficients, nonces and keys are arbitrary;
  ids, tokens and jtis are new ones, as UUIDs are.
- Transactions run one at a time. A request that raises or is not committed leaves the tables as they
  were, but not the standbys, the files, or what lives in memory.
- The network may lose a push, lose its answer, or deliver other ciphertext; the checksum, the record
  id and the number travel with the request unaltered.
- `retry_pending` takes its limit as an argument. A call with a limit below `replication_retry_max` may
  leave a row alone, so that the theorem on termination does not count it; the retry route passes the
  maximum. The theorems hold for every maximum, zero included.
- Rotation is modelled in one process, under one passphrase that opens every key file, from a state
  in which the settings, the state file and the engine name the same key.

## Where the code differs from its documentation

Paths in this section are relative to `src/cryptodb/`.

- `replication/engine.py:160-162`: the comment asks for the next sequence number, the query raises
  as soon as the log holds two rows. Both readings are modelled (`Lookup`): every theorem on runs
  holds for any mixture of them. As written, a sync to an active node raises from the second live row on
  (`SyncRaisesIff`), and two standbys and one acknowledged put are enough that no record is ever stored
  again (`TwoNodesJam`, `JammedForGood`).
- `replication/engine.py:81`: unregistering is said to fail the pending rows of the node. In every
  reachable state there are none, and the failed ones stay failed for good: no run touches them again
  until a reset deletes them (`UnregisterStrandsRows`).
- `replication/engine.py:284`: failed rows are said to be retried up to the maximum. One due row of a record
  whose row exists while its blob is gone makes every retry raise, and so stalls all other rows too. A
  purge that is rolled back leaves such a row, since blobs do not roll back (`StalledIffRaises`,
  `RolledBackPurgeStalls`, `StallIsReachable`).
- `replication/engine.py:335`: the feed is said to return what is newer than the last number seen. The
  number of a dead letter is given out again, so that a standby which saw the first row misses the
  second (`ReusedNumberIsMissed`). A row whose number is not above the last one seen is made exactly
  when rows are made while no live row has a number as high (`RunMakesBelowIff`); a poll misses exactly
  those of them that are still live (`PollMissesIff`).
- `crypto/recovery.py:121-122`: only `KeyManagementError` is promised, but a repeated index raises
  `ZeroDivisionError` (`LagrangeInterpolate`), and an empty secret is split into no shares, which
  cannot be recovered (`RoundTrip`).
- `crypto/rotation.py:103-106`: automatic rotation waits for a last rotation, so that a fresh state
  file never rotates (`FreshSchedulerNeverRotates`).
- `crypto/rotation.py:152-155`: tokens are left as they are while the integrity key follows the
  engine's active key, so that `get` serves a record until the first rotation after its put and refuses
  it from then on (`GetSucceedsIffEngineKept`, `GetSucceedsIffNeverRotated`).
- `crypto/rotation.py:160-162` and `api/routes.py:1206-1224`: the state file and the settings are
  written before the engine is replaced and before the commit. No record is lost (`RecordsSurvive`), but
  a rotation that is not committed blocks every later one for as long as an active record names the old
  key (`RotationOutcomeIff`, `UncommittedRotationBlocksTheNext`, `BlockedForGood`). If the route fails
  even before the engine is replaced, new records are labelled with a key that does not open them, until
  an unlock (`PutIsOkIff`, `RunKeepsAllIff`, `FailedReloadMislabels`).
- `crypto/keystore.py:104-114`: `rotate_master_key` promises to re-encrypt the key, but stores a new
  one under the old id. With any key but the old one all records still open exactly if no record, deleted
  ones included, names that id (`PassphraseRotationKeepsRecordsIff`).
- `api/rate_limit.py:21`: the limiter is said to be per key and window, but keeps its list for the key
  alone. The bound for a limit and a window survives other requests for the key exactly if they are as
  strict (`BoundHoldsIff`); a shorter window, a larger limit or a reset breaks it (`TwoInOneWindow`,
  `ResetExceeds`). The routes use one key for each client and path, with one limit and a window of
  60 seconds (`api/dependencies.py:38-42`, `api/rate_limit.py:53-59`), so that only a direct caller of
  `is_allowed` with another window, or with several limits for one key, meets this.
- `db/metadata.py:117`: the timestamp column keeps no offset. A reloaded chain verifies exactly when
  the column gives every timestamp back unchanged (`ReloadVerifiesIff`); the theorems on runs with
  reloads assume that it does.
- `engine.py:65` and `engine.py:521`: the chain in memory does not roll back. The ledger tells of the
  records that the tables hold, in every state of a run, exactly if every rollback of the run takes back
  no change to which records are active or deleted (`LedgerTellsRecordsIff`).

## Model

| member | source | states |
|---|---|---|
| GaloisField.GfMul | src/cryptodb/crypto/recovery.py:25-34 | the shift-and-reduce loop ends with the product of the operands as polynomials over GF(2) modulo 0x11B, for every byte on the left and every natural number on the right |
| GaloisField.GfInv | src/cryptodb/crypto/recovery.py:37-50 | square-and-multiply gives the 254th power, whose product with the operand is 1; zero is refused |
| Gf2Polynomials.DivisionTheorem | src/cryptodb/crypto/recovery.py:17-18 | every polynomial is a multiple of 0x11B plus its remainder |
| Gf2Polynomials.RemainderUnique | src/cryptodb/crypto/recovery.py:17-18 | no other byte differs from the polynomial by a multiple of 0x11B, so that reduction is division and not just some folding |
| GaloisField.MulAssoc | src/cryptodb/crypto/recovery.py:25-34 | multiplication is associative |
| GaloisField.MulComm | src/cryptodb/crypto/recovery.py:25-34 | multiplication is commutative |
| GaloisField.MulAdd | src/cryptodb/crypto/recovery.py:21-34 | multiplication distributes over addition, on both sides |
| GaloisField.FrobeniusFixesBytes | src/cryptodb/crypto/recovery.py:40-41 | squaring eight times gives every byte back: a^256 = a |
| GaloisField.IdempotentIsZeroOrOne | src/cryptodb/crypto/recovery.py:40-41 | only 0 and 1 are their own square |
| GaloisField.InverseLaw | src/cryptodb/crypto/recovery.py:40-50 | the 254th power of every non-zero byte is its inverse, proved without running through the bytes |
| GaloisField.NoZeroDivisors | src/cryptodb/crypto/recovery.py:25-34 | a product of bytes is zero if and only if a factor is |
| Interpolation.EvalPoly | src/cryptodb/crypto/recovery.py:53-58 | Horner's loop over the reversed coefficients gives the value of the polynomial |
| Interpolation.LagrangeInterpolate | src/cryptodb/crypto/recovery.py:61-73 | returns the sum of the Lagrange terms if and only if the x-coordinates are different field elements; otherwise it divides by zero |
| Interpolation.DenominatorZero | src/cryptodb/crypto/recovery.py:67-72 | a denominator vanishes if and only if another point has the same x |
| Interpolation.InterpolantAtNode | src/cryptodb/crypto/recovery.py:61-73 | the interpolant passes through its points |
| Interpolation.EvalInterpolantPoly | src/cryptodb/crypto/recovery.py:61-73 | the interpolant is a polynomial with no more coefficients than there are points |
| Interpolation.DeflateIsQuotient | src/cryptodb/crypto/recovery.py:53-58 | every polynomial is its quotient by X - r times X - r, plus its value at r |
| Interpolation.RootsForceZero | src/cryptodb/crypto/recovery.py:53-58 | a polynomial with at most k coefficients and k different roots is zero |
| Interpolation.AgreementForcesEquality | src/cryptodb/crypto/recovery.py:53-58 | k different points determine k coefficients |
| Interpolation.LagrangeRecovers | src/cryptodb/crypto/recovery.py:53-73 | from k points of a polynomial with at most k coefficients, in any order, interpolation gives its value at every x |
| Recovery.SplitSecret | src/cryptodb/crypto/recovery.py:93-115 | for parameters in bounds exactly total shares, or none for an empty secret; share k has index k + 1 and for each byte the value there of one polynomial with that byte at 0; outside the bounds it is refused |
| Recovery.RecoverSecret | src/cryptodb/crypto/recovery.py:118-139 | for every list of shares, with the error cases in the source's order: the value at 0 of the interpolant of each byte |
| Recovery.RecoveredOutcome | src/cryptodb/crypto/recovery.py:118-133 | which error recovery reports, for every list of shares, and when there is none |
| Recovery.RecoveredIsValueAtZero | src/cryptodb/crypto/recovery.py:127-139 | what is recovered is for each byte the value at 0 of any polynomial through the points that has no more coefficients than there are points |
| Recovery.ThresholdSharesRecover | src/cryptodb/crypto/recovery.py:93-139 | any list of at least threshold shares of one split, in any order and with no index twice, recovers exactly the secret, whatever the random coefficients |
| Recovery.AnyThresholdIndicesRecover | src/cryptodb/crypto/recovery.py:93-139 | for parameters in bounds, whatever the draws, any threshold or more different indices from 1 to total have their shares, and these recover the secret |
| Recovery.RoundTrip | src/cryptodb/crypto/recovery.py:93-139 | splitting and recovering from all shares gives the secret back if and only if it is not empty |
| Recovery.BelowThresholdSecrecy | src/cryptodb/crypto/recovery.py:53-58 | for any threshold - 1 indices, any values seen there and any candidate byte, exactly one row of coefficients explains them |
| Recovery.PerfectSecrecy | src/cryptodb/crypto/recovery.py:99-115 | threshold - 1 shares of a secret are shares of every other secret of its length, under exactly one choice of coefficients |
| ReplicationService.ReplicationEngine.ReceivePush | src/cryptodb/api/routes.py:986-1005 | the standby keeps the bytes if and only if they hash to the checksum sent along |
| ReplicationService.ReplicationEngine.PushRecord | src/cryptodb/replication/engine.py:207-238 | one push, for every behaviour of the network |
| ReplicationService.ReplicationEngine.ProcessDeadLetters | src/cryptodb/replication/engine.py:191-205 | the loop moves exactly the failed rows just tried that have used up their retries, and keeps the order of the rest |
| ReplicationService.ReplicationEngine.SyncRecord | src/cryptodb/replication/engine.py:128-189 | the loop over the active nodes, from the query to the dead letters |
| ReplicationService.ReplicationEngine.TryRow | src/cryptodb/replication/engine.py:296-320 | one due row of a retry: left alone, failed for want of its record, raised for want of its blob, or pushed |
| ReplicationService.ReplicationEngine.RetryPending | src/cryptodb/replication/engine.py:283-323 | the loop over the failed and pending rows; when a blob is missing it raises with the rows before that one changed and the others not, and what reached the standbys stays there |
| ReplicationService.ReplicationEngine.UnregisterNode | src/cryptodb/replication/engine.py:75-96 | removes the node and fails its pending and sent rows; an unknown node is refused |
| ReplicationService.ReplicationEngine.ResetSync | src/cryptodb/replication/engine.py:354-363 | deletes exactly the rows of the node, keeps the order of the rest, and reports how many there were |
| ReplicationService.ReplicationEngine.GetChangesSince | src/cryptodb/replication/engine.py:329-352 | at most limit rows, all above the given number and in order; a row above it that is left out comes after all of a full page |
| ReplicationOutcomes.PushHeardIff | src/cryptodb/replication/engine.py:207-238 | the primary sees an acknowledgement if and only if the ciphertext arrived unaltered and the answer was not lost |
| ReplicationOutcomes.PushEffect | src/cryptodb/replication/engine.py:207-238 | the standby has the record's ciphertext after a push that arrives unaltered, answered or not, and otherwise what it had |
| ReplicationOutcomes.SyncOutcome | src/cryptodb/replication/engine.py:136-189 | a sync makes exactly one row for each active node, numbered on from the highest live number, and each is acked, failed with one retry used, or a dead letter, as the network decided |
| ReplicationOutcomes.SyncRaisesIff | src/cryptodb/replication/engine.py:136-162 | a sync raises if and only if a node is active and the blob is missing or, with the query as written, two rows are live; it has then changed nothing |
| ReplicationOutcomes.RetryOutcome | src/cryptodb/replication/engine.py:283-323 | a retry row by row: untouched, failed for want of its record, or pushed once and then acked, failed or a dead letter exactly when its retries reach the maximum |
| ReplicationOutcomes.SyncStores | src/cryptodb/replication/engine.py:177-185 | after a sync an endpoint has the ciphertext if a push brought it there, acknowledged or not, and besides what it had |
| ReplicationOutcomes.RetryStores | src/cryptodb/replication/engine.py:309-320 | which ciphertexts a retry leaves on an endpoint: those that the pushes of the rows before the first stuck one brought there; if there is a stuck row it raises with the tables as before |
| ReplicationOutcomes.DeadLetterEffect | src/cryptodb/replication/engine.py:191-205 | takes exactly the rows just tried that failed and have used up their retries, and adds them to the dead letters |
| ReplicationOutcomes.UnregisterEffect | src/cryptodb/replication/engine.py:75-96 | removes the node and fails its pending and sent rows; every other node and row stays |
| ReplicationOutcomes.HealthEffect | src/cryptodb/replication/engine.py:104-116 | every node that is not disabled becomes active or unhealthy as the ping says, and the others stay |
| ReplicationOutcomes.ResetEffect | src/cryptodb/replication/engine.py:354-363 | after a reset exactly the rows of other nodes are live, in their order, and the deleted ones count as cleared |
| ReplicationOutcomes.ActiveNodesOnce | src/cryptodb/replication/engine.py:136-138 | the targets of a sync are the active nodes, each once |
| ReplicationLiveness.UnregisterStrandsRows | src/cryptodb/replication/engine.py:75-96 | in a good state unregistering changes no row, and over every run without a reset of the node its rows are left exactly as they are |
| ReplicationRuns.PushIsSafe | src/cryptodb/api/routes.py:986-1005 | a push never puts wrong bytes on a standby, never takes right ones away, and is acknowledged only if the right ones are there |
| ReplicationRuns.RepeatedPush | src/cryptodb/replication/engine.py:207-238 | pushing again what the standby holds changes nothing, whatever arrives |
| ReplicationRuns.DeadLettersKeep | src/cryptodb/replication/engine.py:191-205 | the dead-letter step loses and duplicates no row and leaves no used-up row behind |
| ReplicationRuns.MaxNumberBounds | src/cryptodb/replication/engine.py:160-162 | the number that new rows go on from is the highest live one, or 0 |
| ReplicationRuns.SyncKeeps | src/cryptodb/replication/engine.py:128-189 | a sync keeps the invariant, for either reading of the sequence query and any network |
| ReplicationRuns.RetryKeeps | src/cryptodb/replication/engine.py:283-323 | so does a retry, for any limit and any network |
| ReplicationRuns.RunKeepsInv | src/cryptodb/replication/engine.py:128-363 | so does every run of puts, syncs, purges, registrations, health checks, retries and resets, committed or rolled back |
| ReplicationRuns.AckedMeansHeld | src/cryptodb/replication/engine.py:164-185 | in every reachable state an acked row means that its standby holds exactly the primary's ciphertext, whose hash is the row's checksum |
| ReplicationRuns.StandbyNeverWrong | src/cryptodb/api/routes.py:994-1001 | no standby ever holds other bytes for a record |
| ReplicationRuns.RowsAreConserved | src/cryptodb/replication/engine.py:164-205 | every row ever created is in exactly one of the live table, the dead letters and the rows cleared by a reset, with the record, node, checksum, snapshot and number it was created with; a live row is acked or has failed at least once and has retries left |
| ReplicationRuns.AckedStaysOnRun | src/cryptodb/replication/engine.py:283-363 | an acked row is left exactly as it is by every run without a reset of its node |
| ReplicationLiveness.ResetIsForGood | src/cryptodb/replication/engine.py:354-363 | none of the rows that a node had at a committed reset is ever live or a dead letter again, whatever later steps do |
| ReplicationLiveness.RollbackIsOfTablesOnly | src/cryptodb/db/connection.py:66-76 | a request that is not committed leaves the tables as they were; what it did to blobs and standbys stays |
| ReplicationLiveness.RegisterEffect | src/cryptodb/replication/engine.py:55-73 | adds an active node with the given endpoint, and stores nothing |
| ReplicationLiveness.PutEffect | src/cryptodb/engine.py:190-222 | writes the blob at once and hands the record to the sync; the row is there after a commit unless the sync raises |
| ReplicationLiveness.SyncEffect | src/cryptodb/engine.py:307-309 | the sync of a stored record is taken over with the commit unless it raises; what it brought the standbys stays in either case |
| ReplicationLiveness.HealthCheckEffect | src/cryptodb/replication/engine.py:104-116 | a committed health check sets every node that is not disabled to what its ping says, and does no more |
| ReplicationLiveness.PurgeEffect | src/cryptodb/engine.py:325-329 | removes the blob at once and the row with the commit |
| ReplicationLiveness.RetryProgress | src/cryptodb/replication/engine.py:283-323 | a retry that is not stalled settles a waiting row or uses up one of its retries, unless its limit is low, the node is not active or the record is gone |
| ReplicationLiveness.RetriesTerminate | src/cryptodb/replication/engine.py:283-323 | whatever the network does, whatever requests come in between and whatever becomes of nodes, records and blobs: once a row has been reached by as many retries as it has left, it is acked or a dead letter, if its node is not reset |
| ReplicationLiveness.EveryCallReaches | src/cryptodb/replication/engine.py:283-323 | while the node is active, the record exists and nothing stalls, every call of the retry route reaches the row |
| ReplicationLiveness.RetryMaxCallsSettle | src/cryptodb/replication/engine.py:283-323 | so replication_retry_max such calls leave a waiting row acked or a dead letter |
| ReplicationLiveness.RemainingShrinks | src/cryptodb/replication/engine.py:283-323 | the sum of the retries left over all rows never grows in a retry, and shrinks whenever it pushes any row |
| ReplicationLiveness.RemainingZeroIff | src/cryptodb/replication/engine.py:283-323 | that sum is zero if and only if every live row is acked |
| ReplicationLiveness.StalledIffRaises | src/cryptodb/replication/engine.py:305-309 | a retry raises if and only if the blob of some due row, whose node is active and whose record exists, is gone |
| ReplicationLiveness.RolledBackPurgeStalls | src/cryptodb/engine.py:326-330 | a purge that is rolled back while a row of its record is due makes every retry from then on leave all rows as they were |
| ReplicationLiveness.StallIsReachable | src/cryptodb/replication/engine.py:305-309 | a registration, a put whose push is lost, the soft delete with its sync, and a purge that is rolled back lead there |
| ReplicationRuns.RetryRaisesIff | src/cryptodb/replication/engine.py:305-309 | a retry fails as a whole if and only if a row that it must push belongs to a record whose row exists while its blob is gone |
| ReplicationLiveness.JammedForGood | src/cryptodb/replication/engine.py:160-162 | with the query as written, once two rows are acked and a node is active, no put, sync, retry, purge or registration ever stores a record or makes a row again |
| ReplicationLiveness.TwoNodesJam | src/cryptodb/replication/engine.py:160-162 | two registrations and one put that both standbys acknowledge lead there |
| ReplicationFeed.PollingIsComplete | src/cryptodb/replication/engine.py:329-352 | polling a table with the last number seen ends, and delivers every live row above the start exactly once in increasing order, for every page size |
| ReplicationFeed.RunMakesBelowIff | src/cryptodb/replication/engine.py:160-175 | a run makes a row whose number is not above a given one if and only if some step makes rows while no live row has a number as high |
| ReplicationFeed.PollMissesIff | src/cryptodb/replication/engine.py:329-352 | a poll after the run is in order and without repetition; of the live rows made meanwhile it misses those whose number is not above the last one seen, and there is one if and only if some step made rows while no live row had a number as high and one of those rows is still live |
| ReplicationFeed.ReusedNumberIsMissed | src/cryptodb/replication/engine.py:191-205 | the run that misses a row: the number of a dead letter is given to the next row, which a standby that saw the first never gets |
| Ledger.HashChain.Append | src/cryptodb/ledger/chain.py:95-144 | adds one entry that carries the next number, the time, the event, the previous hash and its own hash, and keeps the chain linked |
| Ledger.HashChain.Verify | src/cryptodb/ledger/chain.py:146-161 | reports the faults of every entry in order, and none if and only if the chain is linked |
| Ledger.FailuresReport | src/cryptodb/ledger/chain.py:146-161 | each fault is reported once, in order and under the number that its entry carries, a bad link before a bad hash |
| Ledger.NoFailuresIffLinked | src/cryptodb/ledger/chain.py:146-161 | verification passes exactly on the chains that are linked from the genesis hash on |
| Ledger.LastHashDetermines | src/cryptodb/ledger/chain.py:46-63 | two verifying ledgers with the same last hash are equal entry by entry |
| Ledger.TamperingIsReported | src/cryptodb/ledger/chain.py:146-161 | any other ledger with the last hash of a verifying one fails verification |
| Ledger.HashPinsPrefix | src/cryptodb/ledger/chain.py:174-186 | the hash of an entry pins down its position and everything before it |
| AuditService.CryptoDBEngine.LoadChain | src/cryptodb/engine.py:38-65 | rebuilds the chain from the rows |
| AuditService.CryptoDBEngine.PersistAudit | src/cryptodb/engine.py:521-565 | writes the entries above the highest number in the table, and a checkpoint when one is due |
| AuditService.CryptoDBEngine.Put | src/cryptodb/engine.py:190-218 | stores the record, appends the entry and persists it, or refuses and changes nothing |
| AuditService.CryptoDBEngine.Get | src/cryptodb/engine.py:233-270 | leaves the records alone, appends the entry and persists it; a deleted record is not found |
| AuditService.CryptoDBEngine.Delete | src/cryptodb/engine.py:275-305 | marks the record, again if it was deleted before, appends the entry and persists it |
| AuditService.CryptoDBEngine.SelectPurgeable | src/cryptodb/engine.py:319-323 | the soft-deleted records past their retention, each once |
| AuditService.CryptoDBEngine.PurgeSoftDeleted | src/cryptodb/engine.py:313-340 | removes them with one entry each, persists once, and counts them |
| AuditStore.PersistWrites | src/cryptodb/engine.py:521-565 | the rows become the whole chain, and a checkpoint is added if and only if there was something to write and the chain is a multiple of the interval long |
| AuditStore.PersistCompletes | src/cryptodb/engine.py:521-565 | the rows are then numbered 1 to n, and every checkpoint is right and has a number of its own |
| AuditStore.PutEffect | src/cryptodb/engine.py:137-225 | a put that is not refused stores an active record, appends its creation with the time, and leaves the whole chain written; a refused one changes nothing |
| AuditStore.GetEffect | src/cryptodb/engine.py:227-273 | a get that is not refused changes no record, appends the reading, and leaves the whole chain written; it is refused for a record that is missing or soft-deleted |
| AuditStore.DeleteEffect | src/cryptodb/engine.py:275-311 | a delete that is not refused marks exactly that record with the time, appends the deletion, and leaves the whole chain written; every later get is refused |
| AuditStore.PurgeEffect | src/cryptodb/engine.py:313-340 | a purge that is not refused appends one entry for each record that it removes, in order, and leaves the whole chain written |
| AuditStore.LoadChainEffect | src/cryptodb/engine.py:38-65 | a reload takes over every row, with the timestamp that the column gives back, and the last stored hash |
| AuditStore.ReloadEffect | src/cryptodb/engine.py:38-65 | a reload makes the chain what the session sees, so that after a rollback it takes the entries of what was rolled back out of the chain again |
| AuditStore.PerformKeeps | src/cryptodb/engine.py:137-340 | every operation extends the chain soundly, and one that changes anything leaves the visible rows equal to the whole chain |
| AuditStore.RunKeepsInv | src/cryptodb/engine.py:38-565 | the committed rows are a prefix of the visible rows and these of the chain, under every sequence of operations, commits, rollbacks, reloads and crashes |
| AuditStore.CommittedIsPrefix | src/cryptodb/engine.py:521-547 | after any run the committed rows are a numbered prefix of the chain, and both verify |
| AuditStore.ReloadVerifiesIff | src/cryptodb/engine.py:38-65 | a reloaded chain verifies if and only if the column gives every timestamp back unchanged |
| AuditStore.CrashThenAppendVerifies | src/cryptodb/engine.py:38-65 | after a crash the chain is the committed rows, and an entry appended to it verifies |
| AuditStore.CheckpointPinsHistory | src/cryptodb/engine.py:549-564 | a committed checkpoint k is the only one of its number and carries the hash of entry k times the interval; a verifying ledger that has this hash anywhere has it there and shares everything before it |
| AuditStore.PurgeRemovesExactly | src/cryptodb/engine.py:313-334 | a purge removes exactly the soft-deleted records past their retention and changes no other |
| AuditStore.RetentionIsKept | src/cryptodb/engine.py:313-334 | a record that is active, or was soft-deleted at t or later, survives every purge up to t plus the retention, over every run of operations, commits, rollbacks, reloads and crashes |
| AuditStore.StoryKeptIff | src/cryptodb/engine.py:137-340 | a step keeps the ledger and the records together if and only if it is not a rollback that takes back a change to which records are active or deleted |
| AuditStore.LedgerTellsRecordsIff | src/cryptodb/engine.py:190-334 | replaying the ledger gives exactly the active and the soft-deleted records in every state of a run if and only if no rollback of the run takes back such a change |
| AuditStore.LedgerTellsRecordsFromStart | src/cryptodb/engine.py:38-65 | so from empty tables, over such runs, the visible and the committed rows each tell the records beside them |
| AuditStore.RollbackLeavesPhantom | src/cryptodb/engine.py:521-547 | a creation that is rolled back is written to the audit log by the next operation and committed with it |
| RotationService.KeyService.RotateAllRecords | src/cryptodb/crypto/rotation.py:124-163 | the loop re-wraps the listed records under the new key, or fails and leaves the state file alone |
| RotationService.KeyService.Configure | src/cryptodb/crypto/rotation.py:116-122 | takes over the settings that are given and leaves the others |
| RotationService.KeyService.RotateMasterKey | src/cryptodb/api/routes.py:1194-1224 | the route: due, key found, new key created, records rotated, engine rebuilt with every stored key, and what stays when the reload or the commit fails |
| RotationService.KeyService.PutRecord | src/cryptodb/engine.py:159-204 | wraps under the engine's active key and labels with the key id of the settings |
| Rotation.RotationKeepsPlaintext | src/cryptodb/crypto/rotation.py:26-45 | a rotated envelope opens to its plaintext under the new key, and no longer under the old |
| RotationRuns.DueIff | src/cryptodb/crypto/rotation.py:103-108 | a rotation is due if and only if automatic rotation is on, there was a last rotation, and the interval has passed since |
| RotationRuns.RotationOutcomes | src/cryptodb/crypto/rotation.py:165-195 | which outcome a rotation has, in any state whatever |
| RotationRuns.RotationEffect | src/cryptodb/api/routes.py:1194-1224 | what each outcome and ending changes in records, keys, settings, state file and engine, and what it leaves |
| RotationRuns.PutEffect | src/cryptodb/engine.py:159-204 | a new record is wrapped and signed under the engine's active key and labelled with the key id of the settings; all else stays |
| RotationRuns.DeleteEffect | src/cryptodb/engine.py:275-297 | marks the record and keeps its wrapped key, a secure one removes the blob; the record can no longer be read |
| RotationRuns.GetRefusals | src/cryptodb/engine.py:233-243 | when reading is refused, and how: no such record, no blob, another integrity key, key not known, or an unwrap that fails |
| RotationRuns.UnlockEffect | src/cryptodb/api/routes.py:521-533 | the engine has the key that the settings name and no other |
| RotationRuns.ConfigureEffect | src/cryptodb/crypto/rotation.py:116-122 | settings that are given are taken over, and the others stay |
| RotationRuns.RotateOutcome | src/cryptodb/crypto/rotation.py:165-195 | in a good state a rotation with automatic rotation on and a last rotation is not due exactly before the interval has passed; one that is due fails only if its key id is taken, and otherwise counts exactly the active records |
| RotationRuns.RotateKeepsInv | src/cryptodb/crypto/rotation.py:124-195 | a rotation moves every active record to the new key, and leaves deleted records and all blobs alone |
| RotationRuns.RotationsAreSpaced | src/cryptodb/crypto/rotation.py:103-108 | after a rotation the next is refused as not due exactly until the interval has passed |
| RotationRuns.RunKeepsInv | src/cryptodb/crypto/rotation.py:124-195 | while every rotation is committed and replaces the engine, after any puts, deletes, unlocks and settings every active record is wrapped under the current key and every record unwraps under the key it names |
| RotationRuns.RotateLoopIff | src/cryptodb/crypto/rotation.py:138-159 | the loop gets through if and only if the old key opens every record of its list, and then rewraps exactly these |
| RotationRuns.RecordsSurvive | src/cryptodb/crypto/rotation.py:26-45 | over every run, with rotations that are committed, are not, or fail: a record that opens under the key it names goes on opening to its original DEK, its blob is never changed, and while active it decrypts to its plaintext |
| RotationRuns.PutIsOkIff | src/cryptodb/engine.py:83-104 | a new record opens under the key it names if and only if the engine's active key is the key that the settings name |
| RotationRuns.RunKeepsAllIff | src/cryptodb/engine.py:159-204 | in every state of a run all records open under the keys they name if and only if every put of the run happens while that is so |
| RotationRuns.StepKeepsInStepIff | src/cryptodb/api/routes.py:1206-1224 | the engine falls behind the settings if and only if a rotation succeeds and the route fails before the engine is replaced |
| RotationRuns.AllRecordsSurvive | src/cryptodb/api/routes.py:1206-1224 | so while the engine is replaced after every rotation, committed or not, all records go on opening |
| RotationRuns.FailedReloadMislabels | src/cryptodb/api/routes.py:1215-1216 | after a rotation whose reload fails the next record does not open and cannot be read; after an unlock records are put right again |
| RotationRuns.RotationOutcomeIff | src/cryptodb/crypto/rotation.py:165-195 | every outcome of a rotation beforehand: due and with a free key id it succeeds, and counts the active records, if and only if each of them names a key equal to the current one |
| RotationRuns.GetSucceedsIffEngineKept | src/cryptodb/engine.py:227-258 | put a record and run on with keys that are not drawn twice, however rotations end: reading it, while it is active, gives its plaintext if the engine's active key id is still the one of the put, and otherwise fails the integrity check |
| RotationRuns.GetSucceedsIffNeverRotated | src/cryptodb/engine.py:227-258 | while the engine is replaced after every rotation, committed or not, that is: if no rotation of the run has succeeded |
| RotationRuns.UncommittedRotationBlocksTheNext | src/cryptodb/api/routes.py:1206-1224 | after a rotation that was not committed, the next that is due fails to unwrap if there are active records, and otherwise succeeds |
| RotationRuns.BlockedForGood | src/cryptodb/crypto/rotation.py:178-188 | while a record that names another key is not deleted, no rotation of any run succeeds |
| RotationRuns.FreshSchedulerNeverRotates | src/cryptodb/crypto/rotation.py:87-108 | from a state file without a last rotation no run ever rotates |
| RotationRuns.SwitchedOffNeverRotates | src/cryptodb/crypto/rotation.py:103-108 | while automatic rotation is off, no run that does not switch it on ever rotates; master key id and stored keys stay |
| RotationRuns.PassphraseRotationKeepsRecordsIff | src/cryptodb/crypto/keystore.py:104-114 | after the key store's rotate_master_key with any key but the old one, all records unwrap if and only if no record, deleted ones included, names the master key |
| SessionService.SessionStore.CreateSession | src/cryptodb/auth/session.py:58-69 | issues the two tokens and inserts one session row |
| SessionService.SessionStore.RotateRefreshToken | src/cryptodb/auth/session.py:72-117 | the exchange with every way to refuse it |
| SessionService.SessionStore.RevokeToken | src/cryptodb/auth/session.py:120-132 | blacklists a token that decodes, with its own expiry; a token that was blacklisted before raises |
| Sessions.LoginEffect | src/cryptodb/auth/session.py:58-69 | a login issues the drawn pair to the user, opens one unrevoked session, and touches nothing else |
| Sessions.ExchangeAnswers | src/cryptodb/auth/session.py:72-117 | a refresh answers with the drawn pair, issued to the same user, or has changed nothing; it raises exactly when all is well but for the blacklist |
| Sessions.RevokeEffect | src/cryptodb/auth/session.py:120-132 | a logout answers Revoked exactly for a token that decodes and is not blacklisted, and then adds exactly the entry of its jti with its own expiry |
| Sessions.RunKeepsInv | src/cryptodb/auth/session.py:58-132 | the invariant of the sessions over every run of logins, refreshes and logouts |
| Sessions.SessionsAreSafe | src/cryptodb/auth/session.py:72-117 | no refresh token is exchanged twice, each login has exactly one unrevoked session, and the token of every revoked session is blacklisted with that session's expiry |
| Sessions.ExchangeSucceedsIff | src/cryptodb/auth/session.py:72-117 | exactly when a refresh succeeds |
| Sessions.NewTokenTakesOver | src/cryptodb/auth/session.py:99-117 | after a refresh the new token works until it or its session expires, and the old one is refused |
| Sessions.LogoutIsFinal | src/cryptodb/auth/session.py:120-132 | over every run that begins with a logout that is not refused, the token stays blacklisted, a refresh with it fails and changes nothing, and a second logout raises while it decodes |
| Sessions.LoggedOutIsNotExchanged | src/cryptodb/auth/session.py:72-132 | no step of such a run exchanges it |
| RateLimiting.RateLimiter.IsAllowed | src/cryptodb/api/rate_limit.py:27-38 | prunes the list of the key, decides, and appends |
| RateLimiting.RateLimiter.Reset | src/cryptodb/api/rate_limit.py:40-42 | forgets the key |
| RateLimiting.RunIsFaithful | src/cryptodb/api/rate_limit.py:27-38 | as far back as a window looks, the pruned list agrees with the full history of admissions, whatever other keys do and whatever stricter requests the key makes |
| RateLimiting.NeverMoreThanLimit | src/cryptodb/api/rate_limit.py:27-38 | no half-open interval as long as the window ever holds more than limit admissions, in every run whose requests of the key are as strict |
| RateLimiting.RefusedIffFull | src/cryptodb/api/rate_limit.py:31-38 | the pruned list of the key is then the full history inside the window; a request is refused if and only if that holds limit admissions, and otherwise added to it; other keys keep theirs |
| RateLimiting.BoundHoldsIff | src/cryptodb/api/rate_limit.py:27-38 | for which other limit and window, asked for with the same key, that bound holds over every run: exactly those as strict, any window if the limit is zero, and all if the window is empty |
| RateLimiting.ResetExceeds | src/cryptodb/api/rate_limit.py:40-42 | limit requests, a reset and one more at one instant exceed the limit |
| RateLimiting.TwoInOneWindow | src/cryptodb/api/rate_limit.py:31-36 | the run of one request in ten seconds, a request with a window of one second, and one more: two are admitted within five seconds |
| Search.SearchByIndex | src/cryptodb/engine.py:372-399 | the loop returns the active, accessible records with the token, and refuses a key that is not 32 bytes long |
| Search.SearchEqualsScan | src/cryptodb/engine.py:174-180 | the search finds exactly what a scan over the plaintexts finds among the records put under the same key, in tables that may also hold records without searchable fields under shorter keys |
| Search.EncodeInjective | src/cryptodb/crypto/searchable.py:50-51 | for field names without a zero byte, the hashed bytes determine field and value |
| Search.NamesCollideIff | src/cryptodb/crypto/searchable.py:50-51 | two different names have values that encode alike if and only if one continues the other after a zero byte |
| Base64Url.DecodeEncode | src/cryptodb/auth/hardware.py:43-58 | decoding inverts encoding for every byte string |
| Base64Url.StripEncode | src/cryptodb/auth/hardware.py:53-58 | padding restored by length after stripping is the padding that was there |
| Base64Url.LettersAreDigits | src/cryptodb/auth/hardware.py:43-49 | four letters are the same number in base 64 that their three bytes are in base 256 |
| Base64Url.EncodingStarts | src/cryptodb/auth/hardware.py:43-49 | an encoding is the letters of three bytes after three, and of the one or two at the end with their padding |
| Base64Url.CredentialRoundTrip | src/cryptodb/auth/hardware.py:43-64 | a credential survives being written and read back, and what is written has no padding |
| Base64Url.ReadableIff | src/cryptodb/auth/hardware.py:317-321 | unpadded letters can be read if and only if their number is not one more than a multiple of four |

## Left out

- ReplicationRuns.AckedMeansHeld: a standby is described by the ciphertexts it stores; the metadata snapshot travels with a push but the standby does not store it.
- ReplicationFeed.PollingIsComplete: polls one state of the table. Across requests it is false of the code, and ReplicationFeed.RunMakesBelowIff gives the condition; a table that changes between two pages of one poll is covered only as two polls.
- AuditStore.CheckpointPinsHistory: the timestamp and the signature of a checkpoint are not modelled.
- RotationRuns.RunKeepsInv: one process; a restart, after which the settings name the first key again, is not modelled, nor is a failure to write the state file.
- Sessions.SessionsAreSafe: the theorem is for tokens whose hashes do not collide; what an access token may do is not modelled.
- Base64Url.ReadableIff: speaks of texts of letters only; the library's decoder skips other characters, the model refuses them. A letter is its value, so that the table of the alphabet does not occur.
- Permissions, ownership, quotas and access-control lists: one flag for each operation in the audit model, and a set of read grants in the search model, which assumes that at most one grant of a user or role matches.
- Secure delete with replication enabled: the sync reads the blob that has just been removed.
- Registering nodes: TLS enforcement, names and node tokens; a node is an id and an endpoint.
- sync_audit_entry: it pushes ledger entries and keeps no state.
- Paillier encryption, compression, blob sharding, the integrity scan, and deterministic encryption.
- The text form of shares, JSON, PBKDF2 and the file format of keys; negative indices in a hand-made share.
- FIDO2 and TPM logic, the sign counter, MFA, geofencing, roles, anomaly counts, compliance reports, webhooks, metrics, the CLI and the clients.
- Concurrent sessions and database locking.
- Error messages, log lines, heartbeat and sent-at timestamps.
