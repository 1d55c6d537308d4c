# hl_helper: verified models of the fleet manager's state machines

This project models the logs, queues and caches at the centre of hl_helper, a fleet manager with
a Python control plane (`server/`) and a Go agent (`agent/`), and proves properties of every run
of them. `dafny verify dfyconfig.toml` checks everything.

Each component has a module, and some a second one that refines its state machine to a simpler form
or states exactly what its callers see. Where the program updates objects in place, the module has a class
with the same fields, and every method is proved equal to a specification function on values; the
whole-run theorems are lemmas about sequences of those functions' steps. Concurrency is a set of
atomic steps that interleave freely, and crashes may happen after every file operation.

| module | component | main theorems |
|---|---|---|
| `Digests` | hashes as free constructors | (definitions) |
| `Merkle` | `merkle_root` | equal to the RFC 6962 tree hash exactly for power-of-two lengths; exact collisions |
| `Signing` | key rotation with grace windows | exactly which keys are trusted, for every clock |
| `AuditChain` | in-memory audit chain | every run verifies; a head hash determines the history; stored keys against trust anchors |
| `SqlChain` | concurrent database appends | every interleaving leaves one linear chain |
| `SqlAppends` | what the committed rows hold | the rows are exactly the drafts of the appends that succeeded, one row each, retried or not |
| `SqlIntervals` | automatic checkpoints in the database | each complete interval of rows has its checkpoint |
| `SqlCheckpoints` | checkpoints in the database | the verifier accepts exactly when no committed checkpoint was drawn in a race |
| `Outbox` | the agent's encrypted outbox | `Verify` returns nil exactly when ids are gapless; the tip determines all blobs |
| `OutboxQueue` | the outbox as a bounded queue | caps evict exactly the oldest entries that do not fit; peek shows the waiting messages |
| `OutboxTamper` | tampered outboxes | exactly which error `Verify` returns |
| `OrderedMap` | insertion-ordered dictionaries | (helper lemmas) |
| `Idempotency` | single-flight middleware | one handler run, one response, no stuck waiter |
| `IdempotencyReplies` | what each request is answered | refused exactly when another body is cached; a retry gets the first answer; replayed exactly below status 400 |
| `Dispatcher`, `StreamLoop` | live delivery to one host | conservation; exactly when a command vanishes |
| `StreamOrder` | order of sends | first sends in enqueue order if and only if every step is orderly |
| `StreamReplay` | reconnects | the un-acked commands are sent again first, in the order of their first send |
| `Pagination` | keyset pages over a changing table | strict order, completeness, exact result on a fixed table |
| `Targets` | group expansion, target selectors | exactly the reachable groups; sorted duplicate-free union |
| `ReplayGates`, `GateAgreement` | the agent's and the server's replay gates | growing sequences, equal nonce windows; exactly when both accept the same traffic |
| `GateVerdicts` | the verdict on each envelope | exact conditions for every verdict of both gates, from the traffic alone |
| `ReEnroll` | challenge nonces, sliding window | certificates match challenges; at most `max` per window |
| `ReEnrollReplies` | re-enrolment answers | exactly when a host is limited and when it gets a certificate |
| `Bus`, `BusRuns` | event bus with resume and drop-oldest | exact drop accounting; exactly when a resumed subscriber misses nothing |
| `BusRings` | ring buffers and their channels | exactly the newest events of the most recently used channels |
| `CommandBridge` | scan and subscription joined | every queued command reaches the dispatcher; exactly which are stranded by a full queue |
| `BridgeCopies` | copies on the dispatcher | at most one for the event and one for the scan |
| `CommandQueue` | LRU cache over a unique key | the cache is transparent in every run unless the session holds a deleted row |
| `CommandRows` | the command table | exactly the committed, not deleted commands, each as it was passed in |
| `Updater` | self-update, rollback, boot counter | safe at every crash point if and only if no update is harmful; exact conditions for rollback and for the marker |
| `UpdaterHealth` | confirmation of an update | exactly when a new binary is confirmed and kept for good |

## Where the code does not keep what its comments say

The models follow the code. Each difference has its failing case, and where the code still keeps
the promise under a condition, that condition is proved exact:

- `merkle_root` says it follows RFC 6962. It does exactly for power-of-two lengths
  (`Merkle.RootIsMTHExactlyForPowersOfTwo`), and repeating the last leaf of an odd list keeps its
  root (`Merkle.RepeatedLastLeafKeepsRoot`). With the length, the root is still unique.
- A forced database checkpoint reads the head and the leaves in two statements. In a session with
  nothing uncommitted it fails verification for ever exactly when entries were committed in between
  (`SqlCheckpoints.DrawnCheckpointOkExactlyWhenNotRacy`); `SqlCheckpoints.ForcedCheckpointCanRace`
  is such a run.
- Two key rotations within one timestamp share a file name. The first key is forgotten
  (`Signing.RotationsInOneInstantForgetAKey`), and the file goes with whichever entry expires first
  (`Signing.SharedFileGoesWithItsTwin`). Inside its window a retired key is trusted exactly when no
  later rotation reused its timestamp and no listed entry with that timestamp was collected since
  (`Signing.KeyInGraceTrustedExactly`).
- The checkpoint verifier checks a signature against the public key stored in the checkpoint, not
  against the trust anchors its description mentions: it accepts any stored key
  (`AuditChain.StoredKeyIsAcceptedWhateverItIs`), and the described check would accept a run's
  checkpoints exactly when each signing key is current or still published
  (`AuditChain.DescribedCheckAcceptsExactly`).
- The outbox restarts ids at 1 after it was emptied and reopened, and a failed append leaves a gap;
  both break `Verify` (`Outbox.AckedAndReopenedRunFails`, `Outbox.FailedAppendRunFails`), and
  `Outbox.VerifyNilExactlyWhenGapless` and `Outbox.NextFollowsLast` are exact about it.
- Idempotency waiters all run the handler when the owner did not cache
  (`Idempotency.FailedOwnerRunStampedes`, `Idempotency.UncachedWaitersAllRun`), and such a waiter
  frees the slot of a later owner (`Idempotency.FallenThroughWaiterFreesALaterSlot`).
- A cached entry that has expired still refuses the same key with another body, because the conflict
  check does not look at the expiry (`IdempotencyReplies.ExpiredEntryStillRefuses`); the exact
  condition is in `IdempotencyReplies.RefusedExactly`.
- A client that resumes with a sequence the bus has not reached, as after a server restart, is given
  events with numbers it claims to have (`BusRuns.ResumeAheadOfTheBusGetsOldNumbers`); the exact
  condition is in `BusRuns.ResumedSubscriberMissesNothingExactly`.
- A cancelled stream handler can swallow a command (`StreamLoop.CancelledHandlerSwallowsACommand`);
  a command vanishes exactly when it was never sent and every copy was swallowed
  (`StreamLoop.CommandVanishesExactlyWhenSwallowed`).
- A put-back at the tail reorders commands (`StreamOrder.TailPutBackOvertakes`); the exact condition
  on every step is `StreamOrder.StepKeepsOrderExactly`.
- A known nonce under a fresh sequence uses that sequence up at the agent but not at the server
  (`GateAgreement.KnownNonceUsesUpSequenceOnlyAtTheAgent`); the gates accept the same traffic exactly
  when no used-up sequence comes with a new nonce (`GateAgreement.GatesAgreeExactly`).
- A full bridge queue strands a command (`CommandBridge.FullQueueStrandsACommand`), exactly those
  whose event was pushed out and that the scan did not list
  (`CommandBridge.StrandedExactlyWhenDroppedAndNotListed`).
- A session that still holds a command row gets it from its identity map after another process
  deleted it (`CommandQueue.HeldRowOutlivesItsDeletion`); otherwise the cache is transparent.
- One idempotency key for several hosts makes one command row (`CommandQueue.OneKeyMakesOneRow`).
- An update applied while a pending marker is readable can end with a torn binary installed
  (`Updater.RetriedUpdateInstallsTornCopy`), because `Apply` never looks at the marker; the exact
  guards are `Updater.UpdateSafeAtEveryCrashExactly` and `Updater.StepSafeExactlyWhenHarmless`.
- A rollback cut between its rename and clearing the marker leaves the marker for ever
  (`Updater.MarkerSticksExactlyAfterRename`).
- A start that dies while it rewrites the boot counter is not counted
  (`Updater.TornCounterNeverRollsBack`); the exact condition for a rollback under crashes anywhere
  is `Updater.UnhealthyReplacedExactly`.
- A confirmation that dies after clearing the marker leaves the boot count behind, and the next
  update is rolled back that many starts early (`Updater.InterruptedConfirmationShortensNextTrial`).
- A healthy binary whose own version is not the announced one is never confirmed, however often it
  reports (`UpdaterHealth.WrongTargetStaysOnTrial`); a trial ends in a confirmation exactly under the
  conditions of `UpdaterHealth.ConfirmedExactly`.

## Model

| member | source | states |
|---|---|---|
| `Merkle.MerkleRoot` | server/app/audit/chain.py:103-141 | the level-by-level loop computes the recursive level folding `Root`, for the empty list too |
| `Merkle.RootIsMTHExactlyForPowersOfTwo` | server/app/audit/chain.py:103-141 | the root equals the Merkle Tree Hash of section 2.1 of RFC 6962 if and only if the length is a power of two (so never for the empty list) |
| `Merkle.PassesMatchMTH` | server/app/audit/chain.py:123-139 | for a nonempty list of at most 2^h leaves, h level passes end in the recursive tree hash if and only if there are exactly 2^h leaves |
| `Merkle.RootAndLengthDetermineLeaves` | server/app/audit/chain.py:120-141 | lists of one length with one root are the same list |
| `Merkle.RootsCollideExactlyWhenPaddingsAgree` | server/app/audit/chain.py:130-139 | two nonempty lists of any lengths have one root if and only if their paddings by repeated right halves are equal |
| `Merkle.RepeatedLastLeafKeepsRoot` | server/app/audit/chain.py:132-135 | an odd list of three or more leaves has the root of that list with its last leaf repeated |
| `Merkle.PassesIgnorePadding` | server/app/audit/chain.py:130-139 | the level passes give the same node for a list and for its padding to a full tree |
| `Merkle.PaddingAddsNoLeaf` | server/app/audit/chain.py:132-135 | padding only repeats leaves that are there |
| `Merkle.DifferentLeavesDifferentRoots` | server/app/audit/chain.py:120-141 | a list with a leaf the other list lacks has another root |
| `Signing.FileBackend.Bootstrap` | server/app/crypto/signing.py:62-70 | a new backend holds its first key and no retired ones |
| `Signing.FileBackend.Sign` | server/app/crypto/signing.py:76-77 | the signature verifies under the published key and its key is a trust anchor at every time |
| `Signing.FileBackend.PublicKeyBytes` | server/app/crypto/signing.py:114-115 | a signature verifies under the published key exactly when the current key made it over that message |
| `Signing.FileBackend.RotateKey` | server/app/crypto/signing.py:127-155 | the old key moves to the grace list under its timestamp file, expired keys and their files go, the new key becomes current |
| `Signing.FileBackend.TrustAnchors` | server/app/crypto/signing.py:117-125 | the current key followed by the unexpired retired keys, in order |
| `Signing.FileBackend.Verify` | server/app/crypto/signing.py:79-90 | accepts exactly the signatures some current trust anchor made over this message |
| `Signing.RotationsMatch` | server/app/crypto/signing.py:127-155 | after any run of rotations with any clock, the grace list holds exactly the entries that outlived every collection, and a file exists exactly when it was written and not unlinked since, with its last writer's key |
| `Signing.TrustedExactly` | server/app/crypto/signing.py:117-155 | over every run of rotations with any clock and timestamps, a key is a trust anchor if and only if it is current or published: name not reused, not collected since, a window of that name open |
| `Signing.KeyInGraceTrustedExactly` | server/app/crypto/signing.py:117-155 | a retired key inside its window is trusted if and only if no later rotation reused its timestamp and no listed entry with that timestamp was collected since |
| `Signing.TrustedExactlyWhileCurrentOrInGrace` | server/app/crypto/signing.py:117-155 | the promise that keys are trusted exactly while current or in grace is kept, for distinct keys, if and only if every retired key is published exactly while its own window is open; a clock that moves on keeps it |
| `Signing.RotationsInOneInstantForgetAKey` | server/app/crypto/signing.py:128-131 | any two rotations with one timestamp lose the first key inside its grace window |
| `Signing.SharedFileGoesWithItsTwin` | server/app/crypto/signing.py:142-152 | a run in which collecting one expired entry unlinks the file of a key inside its window |
| `AuditChain.VerifyChain` | server/app/audit/chain.py:247-302 | accepts exactly the linked chains whose checkpoints all match, and otherwise names the first broken link or first bad checkpoint |
| `AuditChain.Chain.constructor` | server/app/audit/chain.py:147-160 | a new chain is empty under the backend's current key |
| `AuditChain.Chain.AppendEntry` | server/app/audit/chain.py:174-237 | the log grows by the sealed entry, and by a checkpoint when the length is a multiple of the interval |
| `AuditChain.Chain.AddCheckpoint` | server/app/audit/chain.py:218-235 | adds the signed root over all entries with the last sequence |
| `AuditChain.Chain.Force` | server/app/audit/chain.py:304-329 | fails on the empty chain, else adds a checkpoint and changes nothing else |
| `AuditChain.Chain.Verify` | server/app/audit/chain.py:247-302 | the verdict on the stored log, accepted if and only if the log is |
| `AuditChain.StepKeepsAccepted` | server/app/audit/chain.py:174-329 | append, forced checkpoint and key rotation each keep the chain accepted |
| `AuditChain.EveryRunVerifies` | server/app/audit/chain.py:174-329 | every run of appends, forced checkpoints and rotations leaves a chain the verifier accepts |
| `AuditChain.HeadDeterminesHistory` | server/app/audit/chain.py:247-287 | two linked chains with one head hash are equal entry for entry |
| `AuditChain.CheckpointDeterminesHistory` | server/app/audit/chain.py:289-302 | checkpoints with one (sequence, root) force two accepted chains to agree on every covered entry |
| `AuditChain.HashCountsEntries` | server/app/audit/chain.py:195-216 | in a linked chain an entry's hash determines its position, so hashes never repeat |
| `AuditChain.StoredKeyIsAcceptedWhateverItIs` | server/app/audit/chain.py:289-302 | the verifier accepts a head checkpoint under any key; the described check does if and only if the key is a trust anchor |
| `AuditChain.DescribedCheckAcceptsExactly` | server/app/audit/chain.py:247-302 | in every run with rotations the verifier accepts, and checking against the trust anchors would accept all checkpoints if and only if each signing key is current or still published |
| `AuditChain.EntriesAreTheAppends` | server/app/audit/chain.py:187-216 | in every run the k-th entry has sequence k and the timestamp, actor, action, subject and payload of the k-th append, and there are no others |
| `AuditChain.RunPlaces` | server/app/audit/chain.py:218-235 | every run keeps each complete interval checkpointed and, without a forced one, checkpoints nowhere else and in order |
| `AuditChain.CheckpointsFallOnTheInterval` | server/app/audit/chain.py:218-235 | in every run each entry q with interval dividing q+1 has a checkpoint, and without forced ones the checkpoints have exactly these sequences, strictly rising |
| `SqlChain.MaxKey` | server/app/audit/sql_chain.py:88-110 | the largest sequence of a nonempty table |
| `SqlChain.LinearAscending` | server/app/audit/sql_chain.py:248-287 | on a linear table the ordered SELECT lists row q at place q, for exactly 0..n-1 |
| `SqlChain.LinearIsLinked` | server/app/audit/sql_chain.py:248-287 | the rows of a linear table pass the verifier's link walk |
| `SqlChain.InsertHitsFirstFree` | server/app/audit/sql_chain.py:88-157 | an insert without a key conflict used the newest committed version's next sequence and last hash, however stale its read |
| `SqlChain.UnblockedHasNoRival` | server/app/models/audit.py:18 | when an insert goes through, no other session holds uncommitted rows |
| `SqlChain.CommitKeepsInv` | server/app/audit/sql_chain.py:88-157 | a commit extends the committed rows and keeps the invariant for all other sessions |
| `SqlChain.StepKeepsInv` | server/app/audit/sql_chain.py:88-157 | every statement (read, insert, conflict with rollback, retry, checkpoint, commit, rollback, rotation) keeps the invariant, and committed rows only grow |
| `SqlChain.EveryInterleavingIsLinear` | server/app/audit/sql_chain.py:88-157 | for every interleaving of any number of appenders, the committed rows are exactly sequences 0..n-1 with linked hashes, so the link walk succeeds |
| `SqlAppends.RereadTold` | server/app/audit/sql_chain.py:125-157 | the second attempt of an append goes on with the draft of the first |
| `SqlAppends.StepTold` | server/app/audit/sql_chain.py:88-157 | every statement keeps each uncommitted and committed row tied to the append that began it |
| `SqlAppends.EveryRunIsTold` | server/app/audit/sql_chain.py:88-157 | every interleaving keeps each row equal to its append's draft under the row's own sequence, no two rows with one append |
| `SqlAppends.WroteStep` | server/app/audit/sql_chain.py:122-157 | an append has an uncommitted row exactly when its insert met no conflict and its transaction did not end since |
| `SqlAppends.SucceedsStep` | server/app/audit/sql_chain.py:122-157 | an append succeeds exactly at a commit of the transaction that wrote its row |
| `SqlAppends.EveryLedgerReads` | server/app/audit/sql_chain.py:88-157 | the ledger of owners is what the statements themselves say: uncommitted owners wrote, committed owners succeeded |
| `SqlAppends.RowsAreTheirAppendersDrafts` | server/app/audit/sql_chain.py:65-157 | for every interleaving, committed row q holds the draft its appender passed in with sequence q; distinct rows belong to distinct appends, and the owners are exactly the appends whose insert and commit succeeded, retried or not |
| `SqlCheckpoints.DrawnCheckpointOkExactlyWhenNotRacy` | server/app/audit/sql_chain.py:203-246 | a checkpoint drawn by a session matches the rows that session sees if and only if its head and leaf reads did not race |
| `SqlCheckpoints.RacyCheckpointNeverVerifies` | server/app/audit/sql_chain.py:329-373 | a racy checkpoint fails against every later table |
| `SqlCheckpoints.LongerLeavesFail` | server/app/audit/sql_chain.py:289-327 | a checkpoint with the sequence of one prefix and the root of a possibly longer one verifies if and only if the prefixes have one length |
| `SqlCheckpoints.StepKeepsCheckpoints` | server/app/audit/sql_chain.py:203-246 | every statement keeps committed and uncommitted checkpoint lists valid exactly when they hold no racy draw, where commits, rollbacks and conflicts move or discard the racy ones |
| `SqlCheckpoints.EveryInterleavingVerifiesExactly` | server/app/audit/sql_chain.py:248-327 | in every interleaving, across rotations, the verifier accepts the committed rows and checkpoints if and only if no committed checkpoint was drawn in a race |
| `SqlCheckpoints.ForcedCheckpointCanRace` | server/app/audit/sql_chain.py:203-246 | a possible run whose forced checkpoint races and after whose commit the verifier rejects |
| `SqlIntervals.EveryRunIsPlaced` | server/app/audit/sql_chain.py:167-169 | every interleaving keeps the checkpoints of committed and of uncommitted rows at their intervals, and a session about to checkpoint owes exactly that of its newest row |
| `SqlIntervals.EveryIntervalHasItsCheckpoint` | server/app/audit/sql_chain.py:167-169 | in every interleaving each committed row q with interval dividing q+1 has a committed checkpoint, and without forced ones no other row has, in order |
| `Outbox.Store.Open` | agent/internal/outbox/outbox.go:153-197 | refuses exactly when the recorded last id is above the newest present one, else sets the next id and changes nothing else |
| `Outbox.Store.AppendMessage` | agent/internal/outbox/outbox.go:201-267 | stores the sealed blob with its previous digest, folds the tip, records the last id, enforces caps; a failure only uses up the id |
| `Outbox.Store.EnforceCaps` | agent/internal/outbox/outbox.go:465-501 | moves entries to the acked set as `EnforceCap` does, of which `OutboxQueue.CapsEvictOldestExactly` says that exactly the oldest that do not fit go |
| `Outbox.Store.Ack` | agent/internal/outbox/outbox.go:308-340 | moves exactly the entry with this id to the acked set |
| `Outbox.Store.PeekMessages` | agent/internal/outbox/outbox.go:271-304 | the oldest n entries decrypted in id order, or the first error |
| `Outbox.Store.VerifyAll` | agent/internal/outbox/outbox.go:362-456 | the re-verification walk over present and acked entries, compared with the stored tip |
| `Outbox.ChainTipInjective` | agent/internal/outbox/outbox_chain.go:26-34 | equal tips come from equal id, blob and previous tip, despite the unframed concatenation |
| `Outbox.DecryptUndoesEncrypt` | agent/internal/outbox/outbox_chain.go:51-88 | decryption with the same key, id and previous hash returns the payload |
| `Outbox.EveryRunKeeps` | agent/internal/outbox/outbox.go:153-501 | every run keeps the bucket sorted and genuine, the tip the fold of all appended blobs, and, when gapless, each id in one place |
| `Outbox.VerifyNilExactlyWhenGapless` | agent/internal/outbox/outbox.go:362-456 | in every run with failed appends, acks in any order, evictions and reopens, the walk returns nil if and only if the appended ids are 1..n |
| `Outbox.AppendKeepsGaplessExactlyWhenNextFollowsLast` | agent/internal/outbox/outbox.go:201-267 | an append keeps ids gapless if and only if the next id is last id plus one |
| `Outbox.NextFollowsLast` | agent/internal/outbox/outbox.go:180-221 | which operations keep, destroy or restore that condition; a reopen restores it if and only if the newest entry is present |
| `Outbox.GaplessRunPartitions` | agent/internal/outbox/outbox.go:201-340 | each id 1..last_id is in exactly one of present and acked with the blob appended under it, and the tip folds all of them |
| `Outbox.OpenRefusedExactlyWhenNewestGone` | agent/internal/outbox/outbox.go:180-184 | a gapless store refuses to open if and only if its newest entry is gone and an older one remains |
| `Outbox.RestartAfterEmptyBreaksChain` | agent/internal/outbox/outbox.go:188-193 | from every emptied store with a history, reopening restarts ids at 1 and the next append breaks gaplessness |
| `Outbox.AckedAndReopenedRunFails` | agent/internal/outbox/outbox.go:188-193 | append, acknowledge, reopen, append is a possible run after which the walk fails |
| `Outbox.FailedAppendRunFails` | agent/internal/outbox/outbox.go:220-221 | a failed append and then a successful one is a possible run after which the walk fails |
| `Outbox.TipDeterminesBlobs` | agent/internal/outbox/outbox.go:362-456 | two accepted outboxes with one last id and tip hold the same blob under every id, present or acked |
| `Outbox.PeekReturnsAppended` | agent/internal/outbox/outbox.go:271-304 | on a store the agent wrote, peek never fails and returns payloads appended under those ids |
| `OutboxQueue.CapsEvictOldestExactly` | agent/internal/outbox/outbox.go:465-501 | for some k exactly the first k entries move to the acked set; the rest fits both caps or is empty, and no longer suffix fits |
| `OutboxQueue.AppendEvictsOldestExactly` | agent/internal/outbox/outbox.go:201-267 | in every run an append leaves the longest suffix that fits of the present entries and the new one, and acknowledges the others |
| `OutboxQueue.AppendKeepsExactlyWhatFits` | agent/internal/outbox/outbox.go:201-267 | in every run an append keeps all present entries and the new one if and only if count and bytes fit, and keeps the new one at all if and only if it fits alone |
| `OutboxQueue.Newest` | agent/internal/outbox/outbox.go:470-500 | the longest suffix of the waiting messages within the caps |
| `OutboxQueue.EveryRunAgrees` | agent/internal/outbox/outbox.go:201-340 | every run agrees with a plain queue of messages cut to its caps |
| `OutboxQueue.PeekShowsTheQueue` | agent/internal/outbox/outbox.go:271-304 | in every run peek(n) returns exactly the first min(n, length) messages of that queue, and no error |
| `OutboxQueue.FittingMessageIsQueued` | agent/internal/outbox/outbox.go:201-267 | an appended message within the caps waits behind everything that was waiting, and nothing is lost |
| `OutboxTamper.VerifyReturnsExactly` | agent/internal/outbox/outbox.go:412-454 | on every box, written by the agent or altered: a truncation, a missing previous hash, a broken chain or nil, each if and only if the first defect in id order is of that kind |
| `OutboxTamper.RemovedEntryIsATruncation` | agent/internal/outbox/outbox.go:440-443 | removing any stored entry of a gapless run is reported as a truncation |
| `OutboxTamper.ChangedBlobBreaksTheChain` | agent/internal/outbox/outbox.go:415-452 | changing one stored blob of a gapless run, present or acked, is reported as a broken chain |
| `OutboxTamper.EveryEntryIsSealedOverItsPredecessor` | agent/internal/outbox/outbox.go:210-240 | in every run each present entry's previous digest is that of an appended entry with a smaller id and no present entry between them, or zeros with no older entry present |
| `Idempotency.IdempotencyStore.Get` | server/app/idempotency.py:62-74 | a live hit becomes most recent, an expired one is removed and misses |
| `Idempotency.IdempotencyStore.Put` | server/app/idempotency.py:76-88 | evicts the least recent entry at capacity, then stores the response with its expiry |
| `Idempotency.IdempotencyStore.PurgeExpired` | server/app/idempotency.py:90-96 | drops exactly the expired entries, keeps the order of the others, returns how many went |
| `Idempotency.IdempotencyStore.AcquireOrWait` | server/app/idempotency.py:98-111 | ownership exactly when the key had no slot, else that slot's event |
| `Idempotency.IdempotencyStore.ReleaseSlot` | server/app/idempotency.py:113-117 | frees the slot and sets its event |
| `Idempotency.IdempotencyStore.CheckConflict` | server/app/idempotency.py:119-127 | reports a conflict if and only if some cached key has this principal, route and key and another body hash, and returns that hash |
| `Idempotency.EveryRunFlies` | server/app/idempotency.py:193-271 | every undisturbed run keeps the key unused, in flight under one owner, or settled with waiters that can go on |
| `Idempotency.SingleFlight` | server/app/idempotency.py:193-271 | for every interleaving of one key's requests among others: one handler run unless all conflict, never two, every response is that run's, and a waiter waits for that run or can go on |
| `Idempotency.CacheStaysBounded` | server/app/idempotency.py:76-88 | the cache stays within its bound, with distinct keys, in every run |
| `Idempotency.WaiterRunsExactlyWhenOwnerDidNotCache` | server/app/idempotency.py:241-250 | a woken waiter runs the handler if and only if the owner's run was not cached, else it gets the owner's response |
| `Idempotency.UncachedWaitersAllRun` | server/app/idempotency.py:241-250 | with no cached response, every woken waiter runs the handler and other requests are untouched |
| `Idempotency.FailedOwnerRunStampedes` | server/app/idempotency.py:241-250 | a possible run in which the owner's handler raises and the waiter runs it again |
| `Idempotency.FallenThroughWaiterFreesALaterSlot` | server/app/idempotency.py:270-271 | a possible run in which a fallen-through waiter's release lets two further requests run the handler side by side |
| `Idempotency.SecondRunExactlyAfterExpiry` | server/app/idempotency.py:234-250 | after an undisturbed run in which the handler ran for a key, the next step runs it again if and only if it looks the key up after the cached response expired |
| `IdempotencyReplies.RefusedExactly` | server/app/idempotency.py:119-127 | in every run a request is refused if and only if on its arrival an entry is stored that differs from its key in the body hash alone |
| `IdempotencyReplies.EveryKeyWasAsked` | server/app/idempotency.py:248-264 | in every run each stored key is that of a request that arrived |
| `IdempotencyReplies.OneBodyIsNeverRefused` | server/app/idempotency.py:223-232 | a request whose principal, route and key were only ever used with its body is never refused |
| `IdempotencyReplies.RepeatIsAnsweredExactly` | server/app/idempotency.py:223-237 | after the handler finished, a repeat is answered at once with that response if and only if the entry has not expired and no other body is stored |
| `IdempotencyReplies.RetryGetsTheFirstAnswer` | server/app/idempotency.py:234-237 | with one body per key every retry before the expiry gets the first answer at once |
| `IdempotencyReplies.OneRunServesAll` | server/app/idempotency.py:234-271 | with one body per key one request runs the handler, and every other waits or has that run's response |
| `IdempotencyReplies.ReplayedExactlyBelow400` | server/app/idempotency.py:255-264 | in every run the next request gets the finished response if and only if its status is below 400, it has not expired and no other body is stored; otherwise it runs the handler or is refused, each exactly |
| `IdempotencyReplies.ExpiredEntryStillRefuses` | server/app/idempotency.py:119-127 | a run in which an expired entry refuses another body under the same key |
| `IdempotencyReplies.ReplayedResponseSurvives` | server/app/idempotency.py:65-88 | in every run a response just replayed is still cached after any further steps that are fewer than the cached entries and do not find it expired |
| `Dispatcher.CommandDispatcher.Enqueue` | server/app/grpc/dispatcher.py:47-58 | the host's queue grows at the tail, other hosts keep their state |
| `Dispatcher.CommandDispatcher.Register` | server/app/grpc/dispatcher.py:60-91 | fails exactly when a stream is active; else the queue becomes the un-acked commands, each once and in order, followed by what was queued |
| `Dispatcher.CommandDispatcher.Unregister` | server/app/grpc/dispatcher.py:93-104 | marks a known host disconnected and keeps queue and un-acked map |
| `Dispatcher.CommandDispatcher.MarkInFlight` | server/app/grpc/dispatcher.py:106-117 | records the command under its id in the un-acked map |
| `Dispatcher.CommandDispatcher.Ack` | server/app/grpc/dispatcher.py:119-133 | removes the command, true exactly when it was un-acked |
| `Dispatcher.CommandDispatcher.Terminate` | server/app/grpc/dispatcher.py:147-161 | true exactly when the host has a stream, which it then signals |
| `StreamLoop.EveryRunConserves` | server/app/grpc/agent_bridge.py:285-331 | in every run, cancelled handlers included, sends, queued, held and lost copies equal enqueues plus replays, and every enqueued command is carried, acked or recorded as lost |
| `StreamLoop.CopiesConservedExactlyInLosslessRuns` | server/app/grpc/agent_bridge.py:285-331 | sends plus queued and held copies equal enqueues plus replays if and only if no leftover pull took a command and no handler was cancelled with a finished pull |
| `StreamLoop.CommandVanishesExactlyWhenSwallowed` | server/app/grpc/agent_bridge.py:285-331 | in every run an enqueued, never acked command is no longer queued, held or un-acked if and only if it was never sent and every copy of it was swallowed |
| `StreamLoop.OwnExitsLoseNothing` | server/app/grpc/agent_bridge.py:285-327 | when streams end by the loop's own exits, each command enqueued and never acked is queued, held or un-acked, and sends plus queued copies equal enqueues plus replays |
| `StreamLoop.CancelledHandlerSwallowsACommand` | server/app/grpc/agent_bridge.py:287-331 | a run in which a cancelled handler's leftover pull task takes a command that is then nowhere |
| `StreamOrder.PutBackKeepsOrderExactly` | server/app/grpc/agent_bridge.py:295-317 | a put-back keeps first sends in enqueue order and replays ahead if and only if nothing queued is overtaken: each queued command is a copy, or both it and the held one were sent before |
| `StreamOrder.StepKeepsOrderExactly` | server/app/grpc/agent_bridge.py:285-331 | every step of the loop, put-backs and losses included, keeps the order if and only if it is orderly |
| `StreamOrder.OrderKeptExactlyInOrderlyRuns` | server/app/grpc/agent_bridge.py:285-331 | over distinct commands, at each point of a run first sends so far and to come are the enqueues in order with replays ahead, if and only if every step was orderly |
| `StreamOrder.FirstSendsFollowEnqueueOrder` | server/app/grpc/dispatcher.py:47-133 | in an orderly run the first occurrences in the list of sends are a prefix of the enqueues, and upcoming replays precede commands never sent |
| `StreamOrder.TailPutBackOvertakes` | server/app/grpc/agent_bridge.py:312-321 | a run in which a control message makes the second command overtake the first |
| `StreamReplay.ConnectQueuesUnacked` | server/app/grpc/dispatcher.py:60-91 | in every run a reconnect makes the queue the un-acked commands, the i-th in place i, then exactly the old queue |
| `StreamReplay.UnackedAreResentFirst` | server/app/grpc/agent_bridge.py:285-327 | in every run, after a reconnect and while nothing is put back, the sends since are first the then un-acked commands in order and then the commands queued then, as far as they go |
| `StreamReplay.UnackedInFirstSendOrder` | server/app/grpc/dispatcher.py:106-133 | in every run the un-acked commands are exactly the sent ones not acknowledged since, each as last sent, ordered by the first send since their last acknowledgement |
| `Pagination.Least` | server/app/pagination.py:58-92 | the first row of the ordering is a row of the set before all others |
| `Pagination.SortedProperties` | server/app/pagination.py:58-92 | the ordered statement lists exactly the rows, once each, strictly ordered |
| `Pagination.TrimmedPage` | server/app/pagination.py:95-110 | fetching limit+1 rows and trimming gives the first limit rows and a cursor exactly when more remain |
| `Pagination.PageProperties` | server/app/pagination.py:58-110 | a page is ordered, past its cursor, from the table, and every matching row it omits lies past its next cursor |
| `Pagination.WalkIsStrictlyOrdered` | server/app/pagination.py:58-110 | over arbitrary snapshots that change between pages, all returned rows are strictly ordered, so none repeats |
| `Pagination.WalkReturnsStoredRows` | server/app/pagination.py:58-110 | every returned row was in a snapshot the walk read |
| `Pagination.FinishedWalkMissesNothing` | server/app/pagination.py:58-110 | once there is no next cursor, every row present in all snapshots read was returned |
| `Pagination.WalkOverFixedTable` | server/app/pagination.py:58-110 | on a fixed table n pages return the first n times limit rows and finish exactly when those are all |
| `Pagination.FixedTableIsReturnedSorted` | server/app/pagination.py:58-110 | with enough pages the walk over a fixed table ends with exactly the sorted table, in both directions |
| `Targets.ExpandGroup` | server/app/dispatcher/targets.py:92-113 | terminates on every parent graph, cycles included, with exactly the groups whose parent pointers lead to the root |
| `Targets.SortedList` | server/app/dispatcher/targets.py:45-89 | the strictly ascending list of a set |
| `Targets.ResolveTargets` | server/app/dispatcher/targets.py:45-89 | the sorted duplicate-free list of exactly the selected hosts, for arbitrarily nested selectors |
| `Targets.AscendingListUnique` | server/app/dispatcher/targets.py:45-89 | the result is determined by the hosts it names |
| `Targets.MixedDependsOnlyOnParts` | server/app/dispatcher/targets.py:84-88 | nesting, order and repetition of parts do not change what a mixed selector selects, nor does replacing parts by ones that select the same hosts |
| `ReplayGates.Verifier.Accept` | agent/internal/verify/verify.go:81-150 | the verdict and new gate of the ordered checks, with set and list of nonces in agreement |
| `ReplayGates.Verifier.EvictOldest` | agent/internal/verify/verify.go:143-147 | the eviction loop keeps the last cap nonces in order, and the set equal to them |
| `ReplayGates.GateRun` | agent/internal/verify/verify.go:128-147 | in every run accepted sequences grow strictly and the window is the last min(n, cap) accepted nonces |
| `ReplayGates.AcceptedStaysRejected` | agent/internal/verify/verify.go:128-147 | an accepted envelope is never accepted again, after any later traffic that evicts its nonce |
| `ReplayGates.PersistentReplayStore.Accept` | server/app/crypto/replay_store.py:116-245 | one transaction: the host's new rows on acceptance, nothing at all changed on rejection |
| `ReplayGates.TrimByTime` | server/app/crypto/replay_store.py:224-238 | rows in clock order are trimmed first-in first-out |
| `ReplayGates.FullWindowEvictsOldestExactly` | server/app/crypto/replay_store.py:224-238 | an insert into a full window evicts the oldest row, not the new one, if and only if the clock is not behind that row |
| `ReplayGates.StoreSequencesGrow` | server/app/crypto/replay_store.py:164-240 | accepted sequences of a host grow strictly in every run, whatever the clock |
| `ReplayGates.StoreWindow` | server/app/crypto/replay_store.py:164-240 | under a nondecreasing clock the stored window is the last min(n, window) accepted nonces |
| `ReplayGates.StoredStaysRejected` | server/app/crypto/replay_store.py:164-240 | a stored envelope is never accepted again |
| `GateAgreement.GatesAgreeExactly` | agent/internal/verify/verify.go:128-147 | fed the same admitted traffic with equal windows, both gates accept the same list at every point if and only if no arrival brings a new nonce under a sequence the agent has used up |
| `GateAgreement.GatesAgreeWithoutKnownNonces` | server/app/crypto/replay_store.py:164-240 | without a fresh sequence under a known nonce the two gates accept the same list |
| `GateAgreement.KnownNonceUsesUpSequenceOnlyAtTheAgent` | agent/internal/verify/verify.go:129-138 | after the first such arrival e, which both refuse, they differ on the next admitted body with a new nonce if and only if its sequence is above the last accepted one and not above that of e |
| `GateVerdicts.SequencesUsedUp` | agent/internal/verify/verify.go:128-132 | in every run a sequence is above the last one if and only if no earlier arrival in order reached it |
| `GateVerdicts.AgentVerdictExactly` | agent/internal/verify/verify.go:81-150 | in every run each verdict of the agent has its exact condition: accepted if and only if signer, signed body, action, risk, expiry and issue time are in order and sequence and nonce are new |
| `GateVerdicts.RefusedEnvelopesChangeNothing` | agent/internal/verify/verify.go:81-127 | an envelope refused before the replay checks leaves the gate as it was |
| `GateVerdicts.LastIsLastAccepted` | server/app/crypto/replay_store.py:171-215 | in every run the stored last sequence is that of the last accepted envelope |
| `GateVerdicts.StoreVerdictExactly` | server/app/crypto/replay_store.py:151-240 | in every run under a forward clock each verdict of the server has its exact condition on issue time, expiry, last accepted sequence, forward gap and the last accepted nonces |
| `ReEnroll.NonceCache.Put` | server/app/grpc/reenroll_state.py:23-25 | from then on exactly this nonce can be consumed for the host, once and up to ttl later, and other hosts' nonces are as before |
| `ReEnroll.NonceCache.ConsumeNonce` | server/app/grpc/reenroll_state.py:27-39 | one-shot: removed when it matches in time or has expired, kept on a mismatch |
| `ReEnroll.RateLimiter.AllowAttempt` | server/app/grpc/reenroll_state.py:56-66 | the pruned deque, grown by the attempt exactly when it is admitted |
| `ReEnroll.SpacedCount` | server/app/grpc/reenroll_state.py:56-66 | attempts of which any max+1 span more than the window have at most max in every closed interval of window length |
| `ReEnroll.AllowKeepsLimiter` | server/app/grpc/reenroll_state.py:56-66 | the limiter keeps its deque the tail of all admitted attempts and keeps them spaced |
| `ReEnroll.EveryRunKeeps` | server/app/grpc/reenroll_servicer.py:78-141 | every run of challenges, completions and enrolments keeps the certificate and limiter invariants |
| `ReEnroll.CertificatesMatchChallenges` | server/app/grpc/reenroll_servicer.py:60-141 | each certificate answers its own challenge to that host, at most ttl old and not superseded; no two share a nonce or an attempt |
| `ReEnroll.AtMostMaxPerWindow` | server/app/grpc/reenroll_state.py:56-66 | any closed interval of window length contains at most max admitted attempts of a host |
| `ReEnrollReplies.AdmittedIsPassed` | server/app/grpc/reenroll_state.py:56-66 | in every run the limiter's admitted attempts of a host are those answered otherwise than exhausted |
| `ReEnrollReplies.LimiterAnswersExactly` | server/app/grpc/reenroll_servicer.py:78-98 | in every run an attempt is exhausted, denied for its clock or admitted, each if and only if the window has no room, the skew exceeds 60 seconds, or neither |
| `ReEnrollReplies.EveryCacheTells` | server/app/grpc/reenroll_state.py:23-39 | in every run the nonce kept for a host is that of its latest challenge unless spent or expired |
| `ReEnrollReplies.CertificateExactly` | server/app/grpc/reenroll_servicer.py:100-141 | in every run an attempt gets a certificate if and only if the enrolled key signed this host, nonce and timestamp, the nonce is the latest challenge, in time and unspent, and the request is well formed |
| `ReEnrollReplies.CertificatesAreSigned` | server/app/grpc/reenroll_servicer.py:105-141 | in every run each certificate came with a signature by the host's key enrolled at that time over its nonce and timestamp |
| `Bus.EventBus.PublishEvent` | server/app/events/bus.py:130-170 | the next sequence, the channel's ring, and an offer to every open subscription of the channel and no other |
| `Bus.EventBus.StoreInRing` | server/app/events/bus.py:152-163 | the event is the ring's newest, the channel most recent, and channels stay within their bound |
| `Bus.EventBus.SendToAll` | server/app/events/bus.py:166-190 | each listed subscription is offered the event once, dropping its oldest when full |
| `Bus.EventBus.SubscribeTo` | server/app/events/bus.py:192-230 | a new subscription starts with the replay of newer ring events that fit its queue |
| `Bus.EventBus.Close` | server/app/events/bus.py:60-68 | the subscription is closed and leaves its channel's list |
| `Bus.EventBus.NextItem` | server/app/events/bus.py:74-100 | stop, pending drop advisory, next event or wait, in that priority |
| `Bus.ReplayLoop` | server/app/events/bus.py:221-228 | the loop queues newer events in order until the queue is full |
| `BusRuns.ReplayIsCompleteExactly` | server/app/events/bus.py:221-228 | the replay is everything the channel owes if and only if the ring still holds it all and it fits the queue |
| `BusRuns.EveryRunKeeps` | server/app/events/bus.py:130-230 | every run keeps rings as channel suffixes, and accounting and gap-freedom for each subscription |
| `BusRuns.DropsAreAccountedFor` | server/app/events/bus.py:74-190 | in every run the queue is a suffix of the offers, deliveries strictly rise, and offers equal delivered, queued, advised and pending drops |
| `BusRuns.SubscriberGetsReplayThenLater` | server/app/events/bus.py:130-230 | in every run, whatever it asked for, an open subscriber without drops has been given its replay and then exactly the channel's events published since, in order |
| `BusRuns.ResumedSubscriberMissesNothingExactly` | server/app/events/bus.py:130-230 | for every since_sequence, delivered plus queued events are exactly the channel's events with larger sequence if and only if the ring held all owed at the start, they fitted the queue, and no event published since has a sequence the subscriber claims to have |
| `BusRuns.PastSinceClaimsNothingNew` | server/app/events/bus.py:221-228 | a since_sequence not above the bus's sequence at the start always meets the last condition |
| `BusRuns.ResumeAheadOfTheBusGetsOldNumbers` | server/app/events/bus.py:121-228 | a possible run without drops in which a subscriber ahead of the bus is given an event it asked not to get |
| `BusRings.BufferedAreTheMostRecent` | server/app/events/bus.py:152-161 | in every run the buffered channels are exactly the last max_channels of the list by last use, in that order |
| `BusRings.RingsHoldTheNewest` | server/app/events/bus.py:152-163 | in every run a buffered channel's ring is exactly the last min(n, ring size) events since it was last not buffered |
| `BusRings.FewChannelsLoseNothing` | server/app/events/bus.py:152-163 | with no more channels than fit, every ring is the channel's last min(n, ring size) events of all time |
| `CommandBridge.ReplayQueued` | server/app/grpc/command_bridge.py:54-59 | the scan loop enqueues exactly the scanned rows that have an envelope, in order |
| `CommandBridge.EveryRunKeeps` | server/app/grpc/command_bridge.py:41-86 | every interleaving keeps each deliverable command live or on its way |
| `CommandBridge.QueuedCommandsReachTheDispatcher` | server/app/grpc/command_bridge.py:41-86 | without scan error, overflow or failed dispatch, every command still QUEUED is on the dispatcher or on its way, and on the dispatcher once all is quiet |
| `CommandBridge.FullQueueStrandsACommand` | server/app/grpc/command_bridge.py:64-86 | a run without failures that ends quiet with a QUEUED command that never reached the dispatcher |
| `CommandBridge.StrandedExactlyWhenDroppedAndNotListed` | server/app/grpc/command_bridge.py:41-86 | for every interleaving without scan or dispatch failure, approval events on the channel included, a command still QUEUED when all is quiet is not live if and only if its event was the oldest of a full queue at a publication and the scan did not list it |
| `BridgeCopies.AtMostOnceForEventAndScan` | server/app/grpc/command_bridge.py:41-86 | in every interleaving a command is put on the dispatcher at most once for each commit of it and once for the scan |
| `BridgeCopies.OnlyIssuedCommandsReachTheDispatcher` | server/app/grpc/command_bridge.py:41-86 | in every interleaving only commands with an envelope, of the initial table or committed in the run, reach the dispatcher |
| `CommandQueue.ByKey` | server/app/dispatcher/queue.py:78-90 | the look-up by key finds a row with that key, or there is none |
| `CommandQueue.LruCache.Store` | server/app/dispatcher/queue.py:86-89 | the binding becomes most recent and the least recent ones go beyond capacity |
| `CommandQueue.LruCache.Find` | server/app/dispatcher/queue.py:67-90 | the cached look-up against the visible table and the session's identity map, with its effect on the cache |
| `CommandQueue.CachedLookupIsLookupByKey` | server/app/dispatcher/queue.py:67-90 | with a sound cache the cached look-up returns what the look-up by key returns if and only if the cached row is not one the session holds but can no longer see; the cache stays sound |
| `CommandQueue.EveryRunKeeps` | server/app/dispatcher/queue.py:47-157 | every run of several processes keeps keys unique and caches sound |
| `CommandQueue.CacheIsTransparent` | server/app/dispatcher/queue.py:47-157 | in every run with rollbacks, deletions and evictions, cached and plain look-up agree if and only if the binding is not stale; a key has at most one row, caches stay within capacity |
| `CommandQueue.TransparentWithoutDeletions` | server/app/dispatcher/queue.py:47-157 | in every run without deletions cached and plain look-up agree |
| `CommandQueue.HeldRowOutlivesItsDeletion` | server/app/dispatcher/queue.py:67-75 | a run after which the cached look-up returns a deleted command that the session holds |
| `CommandQueue.OneKeyMakesOneRow` | server/app/dispatcher/dispatcher.py:516-518 | the loop that enqueues a new key for several hosts adds one uncommitted row, for the first host, and every call returns it |
| `CommandRows.TableHoldsWhatWasCommitted` | server/app/dispatcher/queue.py:92-157 | in every run the table holds an id if and only if an insert of it met no row with its key, was committed and not deleted since, with the host and key it was passed |
| `Updater.Agent.Apply` | agent/internal/updater/updater.go:44-93 | cut short after any number of file operations, the disk is that point of the update's trace |
| `Updater.Agent.Rollback` | agent/internal/updater/health.go:35-51 | the previous binary is renamed back, then the marker goes; without marker or backup nothing changes |
| `Updater.Agent.Boot` | agent/cmd/hl-agent/main.go:238-261 | a start with a pending update rolls back at count two or more, else counts itself and installs the healthy callback |
| `Updater.Agent.ConfirmHealthy` | agent/internal/updater/health.go:15-31 | with the callback installed the matching version is recorded, then marker and counter are cleared; without it nothing happens |
| `Updater.StepSafeExactlyWhenHarmless` | agent/internal/updater/updater.go:44-93 | from every safe state, any update, start or healthy report cut short anywhere keeps safety if and only if it is not an update over a readable marker that dies in its backup copy or backs up a binary other than the good one |
| `Updater.SafeExactlyWhenGoodComesBack` | agent/cmd/hl-agent/main.go:238-261 | a state is safe if and only if the install path holds the good or the new binary complete and three starts without a healthy report bring the good one back |
| `Updater.EveryCrashPointIsSafeExactly` | agent/internal/updater/updater.go:70-92 | every point of a run, with updates, starts and healthy reports cut short anywhere, is safe in that sense if and only if no update of the run was harmful |
| `Updater.UpdateSafeAtEveryCrashExactly` | agent/internal/updater/updater.go:44-93 | from a safe state an update is safe at every crash point if and only if no marker is readable or the command does not get as far as installing |
| `Updater.UnmarkedUpdatesAreSafe` | agent/internal/updater/updater.go:70-92 | every run whose updates start without a readable marker is safe at every crash point |
| `Updater.GoodBinaryComesBackExactly` | agent/internal/updater/updater.go:44-93 | after an update cut short anywhere, three starts that never report healthy bring the good binary back if and only if the update was not harmful |
| `Updater.RetriedUpdateInstallsTornCopy` | agent/internal/updater/updater.go:75-87 | a run in which an update retried over a leftover marker ends with a torn binary at the install path |
| `Updater.PrevIsInstalledByThirdBoot` | agent/cmd/hl-agent/main.go:238-261 | under a readable marker whatever lies at the prev path is installed by the third start |
| `Updater.BackupKeepsGoodExactlyWhenInstalled` | agent/internal/updater/updater.go:70-87 | at each crash point of an update the good binary is at the install or prev path if and only if it was the installed one, or was at the prev path and the backup had not begun |
| `Updater.UnhealthyBinaryIsReplaced` | agent/cmd/hl-agent/main.go:238-261 | a swapped-in binary that never reports healthy is replaced by the old one exactly from start 3 - count on, by the third at the latest |
| `Updater.InterruptedRollbackRestoresInstallPath` | agent/internal/updater/health.go:35-51 | after a rollback cut short anywhere the next complete start has the good binary at the install path |
| `Updater.MarkerSticksExactlyAfterRename` | agent/internal/updater/health.go:43-50 | after any number of later starts the marker is still readable if and only if the rollback was cut right after its rename |
| `Updater.UnhealthyReplacedExactly` | agent/cmd/hl-agent/main.go:238-261 | for starts that crash at arbitrary points and any leftover count, the old binary is back if and only if two effective starts in a row were counted, earlier ones included, and another one followed |
| `Updater.InterruptedConfirmationShortensNextTrial` | agent/cmd/hl-agent/main.go:254-260 | after a confirmation cut short before the counter is cleared, a later update is replaced at start k if and only if k plus the old count reaches three |
| `Updater.TornCounterNeverRollsBack` | agent/cmd/hl-agent/main.go:238-261 | starts that die while rewriting the counter never add up to a rollback |
| `UpdaterHealth.UpdateInstalls` | agent/internal/updater/updater.go:44-93 | an uninterrupted update installs the new binary, backs up the old one and marks the announced version |
| `UpdaterHealth.ConfirmedExactly` | agent/internal/updater/health.go:15-31 | a trial ends confirmed, recorded under its target with marker and counter gone, if and only if the count was below two, the start counted itself, the report completed and the binary has the announced version |
| `UpdaterHealth.ReportCutShort` | agent/cmd/hl-agent/main.go:254-260 | the disk after a report cut short at each of its writes |
| `UpdaterHealth.WrongTargetIsNeverConfirmed` | agent/internal/updater/health.go:21-23 | a report under another announced version only clears the counter |
| `UpdaterHealth.UnmarkedStartsKeepTheBinary` | agent/cmd/hl-agent/main.go:238-261 | without a marker, starts and reports cut short anywhere keep the installed binary and the recorded version |
| `UpdaterHealth.KeptForGoodExactly` | agent/cmd/hl-agent/main.go:238-261 | a binary on trial survives every number of later starts if and only if its start was counted, the report got as far as clearing the marker and the announced version is its own |
| `UpdaterHealth.HealthyUpdateIsKept` | agent/internal/updater/updater.go:44-93 | an uninterrupted update of a binary with its announced version, a counted start and a complete report: confirmed, and installed after every later run without another update |
| `UpdaterHealth.UpdateConfirmedExactly` | agent/internal/updater/updater.go:44-93 | the same two equivalences seen from the update command |
| `UpdaterHealth.WrongTargetStaysOnTrial` | agent/internal/updater/health.go:21-23 | however often a binary under another announced version reports healthy, it stays on trial and three quiet starts bring the old one back |

## Left out

- Real cryptography, JSON, base64, PEM and protobuf: digests, signatures and sealed blobs are free constructors, so collision resistance and injective encodings are part of the model.
- Integer widths: sequences and ids are unbounded; the 8-byte encoding limit of the checkpoint message and uint64 wrap-around of outbox ids are not modelled.
- The retention sweep of the audit log: `verify` rejects a swept chain, so runs have no sweep.
- Checkpoint files on disk and the process-local append lock: the database model allows more interleavings than one process's lock does.
- Response headers and principal extraction in the idempotency middleware: a response is its status and body, a principal a string.
- The cursor's string encoding, NULL sort keys and timestamps compared as text: keys and ids are numbers with a total order.
- Signal and control messages of the stream beyond their effect on a pulled command, the termination event's latching, and the receive loop.
- The bus's close sentinel that wakes a waiting consumer: a waiting consumer is a `MustWait` result.
- Payload contents of bus events beyond the command id: other events of the channel are one kind that the bridge skips.
- Commands that other server processes commit after the bridge's scan: they are published on those processes' own buses.
- Certificate contents and revocation rows: issuing records only which attempt and nonce it answered.
- Cross-device rename fallback, fsync and power-loss ordering in the updater: renames are atomic and file operations persist in order.
- The previous version and previous binary path in the updater's state file: the model records the current version only.
- Ignored write errors of the boot counter other than a torn write.
- `pop`, `peek` and `expire_overdue` of the command queue: they would only add easy members.
- Garbage collection of a session's weakly referenced rows: a session holds what it loaded until it rolls back.
- RBAC, approvals, inventory, advisory feeds, service managers, the command line and the web interface.
