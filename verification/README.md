# A verified model of the distributed key-value store

The store is a 32-shard in-memory map with versioned last-write-wins mutations, a write-ahead
log, snapshots that compact the log, replication of local writes to peers, and a gossip protocol
that tracks which peers are alive. This project models that core in Dafny and proves what survives
a crash, what replication converges to, what the byte format can lose or detect, what a paginating
client sees, where a declaration of death comes from, and that the locks cannot deadlock.

`dafny verify dfyconfig.toml` verifies everything.

## How the model is organised

| module | models |
|---|---|
| Bytes, Crc32, CrcDivision, Records | big-endian fields and Go's string order, CRC-32 IEEE and its definition as a remainder, the record format and its reader |
| Lww | one mutation on a map of entries, lists of mutations, the deciding mutation of a key |
| Recovery, Durable | snapshot files and start-up as functions of the bytes on disk; a machine of single steps (log, apply, reap, rename, truncate, crash) over those bytes |
| CrashRecovery, TimedRecovery, AfterRestart | what every run of that machine recovers, without and with times to live; the first write afterwards |
| Concurrent | many threads between minting, logging and applying, with compaction and crashes |
| Convergence, Cluster | delivery of the same mutations in any order; n nodes that mint, broadcast and apply |
| Membership, MergeOrder, Gossip, Schedules | the peer table and its merge; which lists merge in any order; n gossiping nodes as a machine; whole calls as schedules of it |
| Locks | the lock programs of all operations and their interleavings |
| Sorting, Paging, Sharding | the in-place quicksort, pages of keys, one map split by hash |
| Wals, Stores, Server, Api | the objects of the program, updated in place, each method proved against the functions above |
| Refinement, Replicas | the store object follows the durable machine, and the handlers of many nodes the cluster machine, call by call, so that the results about every run hold of the objects |
| Scenarios | clients that boot, write, read, compact, restart, replicate and detect failures, verified through those contracts, with times and contents in numbers |

The clock is a parameter. A time is a number of nanoseconds, and 0 stands for Go's zero time. The
hash is any function; its remainder picks the shard. The order of a walk over a Go map is any
listing of its keys. The two files on disk are byte sequences, and a crash reads nothing else.

## What the proofs found

- A crash between rename and truncate is harmless because replaying a list of mutations over its
  own result changes nothing, although deletions leave no tombstone (`Lww.ReplayIdempotent`).
- A crash inside the write of a log record is fatal at the next start-up exactly when 8 or more bytes
  of the record were written (`Durable.TornAppend`). Torn at 4 to 7 bytes it goes unnoticed, and what is
  acknowledged next makes the following start-up fatal (`Durable.TornThenFatal`).
- With times to live, a readable key can be lost by a restart: the snapshot still holds an expired
  entry with a higher version, which is loaded and which replay does not overwrite. This happens
  exactly when that entry shadows the log (`TimedRecovery.NeverGoesBack`, `LiveKeyShadowed`).
- A key that has expired and been reaped can come back with an older value. Which keys come back is
  told exactly by the snapshot and the log (`TimedRecovery.ReadableAfterRecovery`,
  `OlderValueReappears`).
- Replay does not raise the version counter, so the first local write after a restart can be logged
  and silently dropped (`AfterRestart.FirstWriteAcceptedIff`, `ThirdWriteDropped`).
- Compaction while a thread is between its append and its apply can lose an acknowledged write;
  it is safe exactly when no such operation would still change memory, for Sets and Deletes alike
  (`Concurrent.CompactionSafeIff`, `LosesNothingIff`).
- Memory and the replayed log are bound to agree on a key exactly when its highest version is a Set,
  or nothing ever set it; otherwise two threads can make them differ (`Concurrent.AgreeIff`).
- Replication agrees on a key under the same condition (`Convergence.ConvergesIff`).
- A local PUT that the store rejects is broadcast under the winner's version, so that one version
  names two values; a rejected DELETE is broadcast likewise (`Cluster.PutKeepsIff`,
  `Cluster.DeleteKeepsIff`).
- A list that names a peer more than once can merge differently in different orders; which lists do
  is told by their pairs of records (`MergeOrder.OrderFreeIff`).
- A replicated empty key can end a pagination early: with one key per page, the first page's cursor is
  empty although more keys remain (`Paging.CursorTellsMore`, `EmptyKeyMisleads`).
- A suspicion check copies the peer table and only then reads the clock. A peer that is refuted in
  between is declared dead although it was not suspect for the whole window
  (`Gossip.DeathsAreEarnedIff`, `HastyDeath`).
- A log that ends in fewer than 8 stray bytes is accepted. What is appended behind 4 to 7 of them
  is unreadable as long as the log is shorter than the torn length announces
  (`Records.AppendAfterTornTail`); behind 1 to 3 of them it is unreadable when the two record
  lengths leave the leading bytes of their fields zero (`Records.AppendAfterShortTail`).
- The key length of a snapshot record is not checked; it is lossless exactly for keys of at most
  65535 bytes, which the log enforces (`Records.PayloadRoundTripIff`, `Durable.RunOnDisk`).

## Where code and other texts disagree

The model follows the code.

- internal/store/wal_test.go:142-146 expects an error for 4 stray bytes at the end of the log;
  internal/store/wal.go:126-127 ends normally.
- internal/store/wal.go:132 initialises a variable with the result of a function that returns
  nothing; it is read as a dead initialiser, overwritten on the next line.
- internal/cluster/gossip.go:184 calls death final; that holds of a merge, but an inbound ping
  records its sender as alive whatever was known (internal/api/handlers.go:200-202).

## Model

| member | source | states |
|---|---|---|
| Bytes.BigEndianWraps | internal/store/wal.go:73-85 | a big-endian field reads back as the number modulo its width |
| Bytes.BigEndianAt | internal/store/wal.go:73-85 | byte i of a field is the base-256 digit of its place |
| Bytes.LessIff | internal/store/store.go:297 | the comparison of keys is the order by position: a proper prefix comes first, and otherwise the smaller byte at the first difference |
| Crc32.UpdateIsDivision | internal/store/wal.go:91-93 | the byte-wise register equals the register fed one message bit at a time |
| CrcDivision.ChecksumIff | internal/store/wal.go:91-93 | without any register: the checksum is the one 32-bit number for which the message, times x^32 and with its first 32 coefficients flipped, is a multiple of the CRC-32 IEEE generator plus the flipped checksum |
| CrcDivision.GeneratorIsPolynomial | internal/store/wal.go:92 | the constant of the register is the generator x^32 + x^26 + x^23 + x^22 + x^16 + x^12 + x^11 + x^10 + x^8 + x^7 + x^5 + x^4 + x^2 + x + 1 |
| CrcDivision.MessageBitAt | internal/store/wal.go:92 | the coefficients of the message are the bits of its bytes, each from the least significant |
| Crc32.FeedDifference | internal/store/wal.go:142-146 | two runs of equally many bits, at most 32, that end in one register started from registers that differ exactly where the messages differ |
| Crc32.BurstChangesChecksum | internal/store/wal.go:142-146 | any change confined to four neighbouring bytes changes the CRC, at every position of every message |
| Records.DecodePayloadWraps | internal/store/wal.go:66-89 | every payload decodes, with the key cut at its length modulo 65536 and the rest moved into the value |
| Records.PayloadRoundTripIff | internal/store/snapshot.go:63-85 | the unchecked 16-bit key length is lossless if and only if the key has at most 65535 bytes |
| Records.EncodedLayout | internal/store/wal.go:66-93 | where each field of a record stands in the file, digit by digit |
| Records.OperationLayout | internal/store/wal.go:15-18 | a Set is logged with type byte 1, a Delete with 2, no value and no expiry |
| Records.DecodedPayload | internal/store/wal.go:148-171 | exactly which payloads are refused, and what the others say; an expiry with its sign bit set is none |
| Records.RoundTrip | internal/store/wal.go:123-176 | any list of storable records reads back in order, whatever bytes follow |
| Records.TornTail | internal/store/wal.go:123-171 | a log ending in a proper prefix of a record delivers exactly the whole records, and succeeds if and only if fewer than 8 bytes are left over |
| Records.StrayTail | internal/store/wal.go:124-130 | any fewer than 8 stray bytes end the log normally |
| Records.ShortFieldsCaught | internal/store/wal.go:148-160 | a well-framed payload too short for its fields, or for the key it announces, delivers the records before it and then the corruption |
| Records.AppendAfterTornTail | internal/store/wal.go:178-181 | records appended behind a tolerated tail of 4 to 7 bytes are not delivered and the next replay fails, as long as the log is shorter than the torn length announces |
| Records.AppendAfterShortTail | internal/store/wal.go:124-146 | behind a tail of 1 to 3 bytes the next record is read as an empty payload with a wrong checksum, when the torn length and the next one leave the leading bytes of their fields zero |
| Records.BurstCaught | internal/store/wal.go:142-146 | a change of up to four neighbouring payload bytes delivers exactly the earlier records and then the checksum mismatch |
| Records.ByteFlipCaught | internal/store/wal.go:142-146 | the same for a single payload byte of any record of any log |
| Lww.LookupApplyAll | internal/store/store.go:141-157 | a list of mutations acts on each key as a fold over that key alone |
| Lww.TopDecides | internal/store/store.go:141-155 | the last mutation of the highest version decides a key: nothing before it matters, and nothing after it either when it is a Set |
| Lww.FoldTwice | internal/store/store.go:177-189 | a second pass over the same mutations leaves each key as the first pass did |
| Lww.ReplayIdempotent | internal/store/snapshot.go:104-117 | replaying any list over its own result changes nothing, for every starting map and any repeated or backward versions |
| Recovery.ReplayAppliesLive | cmd/server/main.go:53-69 | with nonzero versions in the log, replay mints nothing and applies exactly the mutations that are not skipped, in order; TimedRecovery.UnexpiredComesBack and ExpiredStaysAway say in numbers which those are |
| Recovery.SnapshotRoundTrip | internal/store/snapshot.go:54-94 | for every walking order, loading a created snapshot gives exactly the entries unexpired when it was written, and the highest loaded version as the counter |
| Recovery.HeaderBytes | internal/store/snapshot.go:46-49 | a snapshot starts with KVSN, 0, 1, and exactly the files that do pass the header check |
| Recovery.LoadsFirstHighest | internal/store/snapshot.go:196-213 | of several records of a key, in any order, a load keeps the first of the highest version |
| Recovery.FlippedSnapshotFatal | internal/store/snapshot.go:167-170 | a snapshot with one payload byte of any record changed does not load |
| Durable.RecoverOnDisk | cmd/server/main.go:36-72 | the bytes on disk give back the snapshot with the live part of the log applied on top, and the highest version of the snapshot alone as the counter |
| Durable.RunOnDisk | internal/store/snapshot.go:104-117 | in every run with crashes between any two steps, both files stay readable, every logged version is nonzero and every key fits its field, so none of these crashes is fatal |
| Durable.TornAppend | internal/store/wal.go:95-105 | after every run, a crash inside the write of a record lets start-up succeed if and only if fewer than 8 bytes of it were written, and then recovers as if none had been |
| Durable.TornThenFatal | internal/store/wal.go:95-139 | after every run, an append torn at 4 to 7 bytes lets start-up succeed, and records logged after it make the next start-up fail as long as they are shorter than the rest of the torn record |
| Durable.FlippedLogFatal | internal/store/wal.go:142-146 | after every run, start-up refuses a log with one payload byte of any record changed |
| CrashRecovery.RunExact | internal/store/store.go:126-157 | in every run, memory holds for an untimed key exactly what snapshot and applied log give |
| CrashRecovery.RecoversKeyExactly | cmd/server/main.go:34-76 | in every run, a key that was never given a time to live is restored to its value in memory with the operation in flight completed, whatever happens to other keys |
| CrashRecovery.RecoversExactly | cmd/server/main.go:34-76 | in every run without times to live, recovery gives exactly the map just before or just after the one operation in flight, for crashes between any two steps; a crash inside an append is the subject of Durable.TornAppend |
| TimedRecovery.ExpiredIffShadowed | internal/store/snapshot.go:196-215 | replay ends with an expired entry if and only if an expired snapshot entry outranks every live logged mutation of the key |
| TimedRecovery.ReadableIff | cmd/server/main.go:53-69 | replay makes a key readable if and only if the snapshot entry is kept and unexpired, or else some entry with time left was put by the snapshot or the log and is followed only by lower or expired mutations of the key; an expiry at the very moment of recovery included |
| TimedRecovery.RunCovered | internal/store/store.go:257-270 | in every run with expiry and reaping, a running entry of memory is backed by the log or the snapshot, and everything logged after it is harmless |
| TimedRecovery.NeverGoesBack | cmd/server/main.go:53-69 | in every run, a running key of memory, with the operation in flight completed, comes back with at least its version, and readable if and only if no expired snapshot entry shadows the log |
| TimedRecovery.UnexpiredComesBack | cmd/server/main.go:55-63 | in every run, an entry of memory with expiry 0 or after the restart is there after the restart with at least its version |
| TimedRecovery.ExpiredStaysAway | cmd/server/main.go:55-60 | in every run, a key with no snapshot entry whose every logged Set has an expiry at or before the restart is absent after it |
| TimedRecovery.ReadableAfterRecovery | cmd/server/main.go:34-76 | in every run, wherever it stops, a key is readable after recovery if and only if snapshot and log say so; in particular whether a key that is absent or expired in memory stays gone |
| TimedRecovery.OlderValueReappears | internal/store/store.go:257-270 | a run that meets this condition for a key gone from memory: an older untimed value is back although the newer timed one has expired and been reaped |
| TimedRecovery.LiveKeyShadowed | internal/store/snapshot.go:196-215 | a run in which a readable key without expiry is lost behind an expired snapshot entry |
| AfterRestart.FirstWriteAcceptedIff | internal/store/store.go:73-82 | in every run, the first local write to a key after a restart is stored if and only if the recovered version is at most the clock, at most 1, or at most one above a version in the snapshot |
| AfterRestart.ThirdWriteDropped | internal/store/store.go:141-146 | two Sets at one clock, a restart and a third Set at that clock: the third is dropped |
| Concurrent.CompactionSafeIff | internal/store/snapshot.go:26-32 | rename and truncation keep everything logged if and only if no thread's logged and unapplied write would still change memory |
| Concurrent.NeverLags | internal/store/snapshot.go:104-117 | in every interleaving of Sets whose compactions start when that is safe, with crashes anywhere and also between rename and truncation, recovery lags memory on no key and loses no acknowledged write |
| Concurrent.QuiescentIsLatest | internal/store/store.go:126-157 | in every such interleaving, a quiescent memory holds the highest version of each key and equals replaying the log in its own order |
| Concurrent.UnsafeCompactionLoses | internal/store/store.go:131-139 | from any state in which a thread's logged Set or Delete would still change memory, compacting, finishing and crashing undoes an acknowledged operation |
| Concurrent.LosesNothingIff | internal/store/snapshot.go:104-117 | from any state, with Sets and Deletes, a crash after compaction gives back the memory left by whatever finished in between, if and only if nothing in flight would change memory at the compaction |
| Concurrent.AcknowledgedWriteLost | internal/store/snapshot.go:110-117 | a run that reaches such a loss |
| Concurrent.MixedQuiescence | internal/store/store.go:161-189 | with Deletes too, in every interleaving with crashes anywhere and compactions under that guard, a Set of the highest version decides quiescent memory and recovery alike |
| Concurrent.SetDeleteDisagree | internal/store/store.go:161-189 | for every set of operations with a Delete of the highest version and a Set below it, an interleaving that logs exactly these and ends with the key gone from memory and back after recovery |
| Concurrent.AgreeIff | internal/store/store.go:126-189 | over all interleavings that log a given set of operations, with crashes anywhere and compactions under that guard, memory and the replayed log agree on a key if and only if its highest version is a Set or nothing sets it |
| Convergence.SetWins | internal/api/handlers.go:226-239 | nodes that receive the same mutations in any order with any repetition hold the Set of the highest version |
| Convergence.DeleteCuts | internal/store/store.go:177-189 | where the highest version is a Delete, the result is the fold from absent of what follows its last delivery; absent when no Set follows |
| Convergence.ConvergesIff | internal/api/handlers.go:226-239 | any two nodes agree on a key if and only if its highest version is a Set or it was never set |
| Cluster.VersionDeterminesMutation | internal/api/handlers.go:84-96 | in every run of n nodes with fresh versions above the stored ones, a key and a version name one action and one value in all messages and entries |
| Cluster.ClockAheadIsClean | internal/store/store.go:73-82 | a write on a node whose clock is ahead of every version so far is such a fresh version above the stored one |
| Cluster.PutKeepsIff | internal/api/handlers.go:84-96 | a local PUT keeps that property if and only if the store accepts it or already holds the same value |
| Cluster.DeleteKeepsIff | internal/api/handlers.go:109-116 | a local DELETE keeps it if and only if the store accepts it |
| Cluster.RejectedPutSplits | internal/store/store.go:143-146 | a rejected PUT delivered to a node that is not ahead leaves two nodes with one version and two values |
| Cluster.ClockSkewSplits | internal/store/store.go:73-82 | a run with skewed clocks that gets there |
| Membership.MergeFinds | internal/cluster/gossip.go:168-201 | without duplicate ids, each entry is merged with the one remote peer that names it and all others stay |
| Membership.MergeOrderIndependent | internal/cluster/gossip.go:168-201 | two lists with the same peers merge to the same table |
| Membership.MergeIdempotent | internal/cluster/gossip.go:168-201 | merging a list twice at one clock equals merging it once |
| Membership.MergeIsSafe | internal/cluster/gossip.go:181-198 | a merge leaves dead entries and the local node alone, adds no dead node, and lowers a state only from suspect to alive on evidence newer than the window |
| Membership.DuplicatesOrderMatters | internal/cluster/gossip.go:174-189 | a list that names an unknown peer twice gives different tables in different orders |
| MergeOrder.OrderFreeIff | internal/cluster/gossip.go:168-201 | a list, duplicates allowed, merges the same in every order into every table if and only if any two records of one peer are both dead, or have one address and either one state or a suspicion and evidence of life no newer than the window |
| Membership.CheckListIsTable | internal/cluster/gossip.go:218-230 | the pass over copies, in any order, declares dead exactly the suspects whose window has run out |
| Membership.PeerManager.AddOrUpdate | internal/cluster/peer.go:35-53 | the entry gets the state and is seen now; a known peer keeps its address, the suspicion time becomes now exactly when it becomes suspect, and no other entry changes |
| Membership.PeerManager.GetAll | internal/cluster/peer.go:66-75 | every entry exactly once, in some order |
| Membership.GossipManager.MergePeers | internal/cluster/gossip.go:168-201 | the table becomes the merge about which the lemmas above speak |
| Membership.GossipManager.CheckSuspicious | internal/cluster/gossip.go:218-230 | exactly the suspects whose suspicion time plus the window is not after now become dead and seen now; nothing else changes |
| Membership.GossipManager.PingReturned | internal/cluster/gossip.go:114-166 | a failed ping of an alive peer or of the seed makes it suspect since now and changes nothing else; an answer records the pinged peer as alive, under the id of the first remote with the seed's address if there is one, in which case the seed entry goes, and afterwards every remote peer that is not dead is known |
| Gossip.RunKeeps | internal/cluster/gossip.go:103-230 | in every run of n nodes, each suspect entry was suspect without a break since its suspicion time, each copied suspect until it was copied, and every dead entry, answer or pending decision is convicted |
| Gossip.JudgementConvicts | internal/cluster/gossip.go:219-227 | a copied suspect that is judged overdue was suspect without a break until it was copied, and its window had run out when the clock was read |
| Gossip.DeathHasProvenance | internal/cluster/gossip.go:168-230 | in every run, a peer that any node holds dead was held suspect by some node, without a break, from the start of the suspicion until a check copied it, and the window had run out when that check read the clock |
| Gossip.HastyDeath | internal/cluster/gossip.go:219-224 | for any node and window, a run that declares a peer dead that was refuted between copy and clock reading |
| Gossip.DeathsAreEarnedIff | internal/cluster/gossip.go:218-230 | in every run every death is preceded by an unbroken suspicion of the window less some shortfall, if and only if checks take at most that long from copy to clock reading or no window is longer |
| Schedules.MergeLeads | internal/cluster/gossip.go:168-201 | from any reached state, a whole merge of heard peers is a schedule of the machine's steps and changes only that node's table |
| Schedules.CheckLeads | internal/cluster/gossip.go:218-230 | so is a whole suspicion check, copy and judgements, whatever the order of the peers |
| Schedules.PingLeads | internal/cluster/gossip.go:103-166 | so is a whole ping with its answer or failure |
| Schedules.ArrivalLeads | internal/api/handlers.go:200-202 | an inbound ping is the step that records its sender as alive |
| Schedules.BootstrapLeads | internal/cluster/gossip.go:58-62 | so is bootstrapping, which records the seed as alive and starts a ping of it |
| Schedules.AnswerHeard | internal/api/handlers.go:204-216 | an answer makes the whole table, and the node itself as alive, heard |
| Locks.OperationsRising | internal/store/snapshot.go:24-32 | Set, Delete, Get, Scan, reap and CreateSnapshot acquire locks in increasing rank and release them all |
| Locks.ReplayRising | cmd/server/main.go:33-76 | so does start-up replay, because no log is linked yet |
| Locks.SomeThreadSteps | internal/store/store.go:130-139 | among any threads that acquire in increasing rank, while one has work left one can step |
| Locks.NoDeadlock | internal/store/snapshot.go:24-32 | for any number of threads in any operations under any schedule, while one has work left one can step |
| Locks.SnapshotAlone | internal/store/snapshot.go:24-32 | while a snapshot holds its locks, no other thread holds the log or a shard |
| Locks.SnapshotTakesAll | internal/store/snapshot.go:24-32 | a snapshot comes to hold the log and all 32 shards at once, for writing, before it gives back any |
| Locks.LocksTaken | internal/store/store.go:93-190 | which locks each of the other operations takes |
| Locks.LinkedReplayDeadlocks | internal/store/wal.go:111-113 | with the log linked before replay, the first callback could never go on |
| Sorting.SortStrings | internal/store/store.go:278-283 | sorts in place, by position of the first difference, and permutes |
| Sorting.QuickSort | internal/store/store.go:285-291 | sorts its range, stays within the bounds of the range, touches nothing else and permutes |
| Sorting.Partition | internal/store/store.go:293-304 | splits its range around the pivot's final place and permutes |
| Paging.CursorTellsMore | internal/store/store.go:243-248 | the cursor is nonempty exactly when more matches remain, if and only if the page is not the first of one key over a store with the empty key and another |
| Paging.PageUnique | internal/store/store.go:217-248 | store, prefix, limit and cursor determine page and next cursor |
| Paging.PageByPosition | internal/store/store.go:217-248 | what a page holds, in which order, and what it leaves for later, told by positions and first differences alone |
| Paging.IterationOverChangingStore | internal/api/handlers.go:126-136 | following cursors over arbitrary changing stores gives strictly increasing keys, and at the end every matching key that was live throughout, if and only if the first answer was not that misleading page |
| Paging.IterationOverFixedStore | internal/api/handlers.go:126-136 | over a fixed store the iteration ends within one page more than there are matches, with sorted live matches, and with all of them if and only if it was not misled |
| Paging.EmptyKeyMisleads | internal/api/handlers.go:226-239 | a client that asks for one key at a time stops at the empty key and misses another |
| Sharding.FlattenAt | internal/store/store.go:85-90 | looking a key up in the whole map is looking it up in the shard of its hash |
| Sharding.TotalIsSize | internal/store/store.go:251-254 | the shards hold as many entries together as the one map |
| Sharding.ShardApply | internal/store/store.go:137-157 | a mutation of one key in its shard is that mutation of the one map and keeps every key in its shard |
| Sharding.UnexpiredShards | internal/store/store.go:257-270 | reaping shard by shard is reaping the one map |
| Wals.FillRecord | internal/store/wal.go:66-93 | the buffer filled field by field is the encoding of the record |
| Wals.Wal.Append | internal/store/wal.go:54-108 | refuses exactly the keys over 65535 bytes, otherwise extends the file by the encoded record |
| Wals.ReadNext | internal/store/wal.go:124-171 | one turn of the read loop gives the record, or the ending, that the format defines for the bytes at that position |
| Stores.Store.NextVersion | internal/store/store.go:73-82 | the new counter is the clock or one above the old counter, whichever is larger |
| Stores.Store.SizeIsCount | internal/store/store.go:251-254 | in every valid store the key count is the number of entries |
| Stores.Store.Get | internal/store/store.go:93-116 | agrees with the unsharded map; finds exactly the entries with expiry 0 or not before now, and removes the key otherwise |
| Stores.Store.Set | internal/store/store.go:120-158 | logs, then applies last-write-wins to the one map; refused by the log it applies nothing; answers with the stored version when it loses |
| Stores.Store.Delete | internal/store/store.go:161-190 | likewise for Delete, and says whether an entry went |
| Stores.Store.Reap | internal/store/store.go:257-270 | exactly the entries with expiry 0 or not before now stay and the key count stays right |
| Stores.Store.Gather | internal/store/store.go:200-213 | lists each live key with the prefix exactly once |
| Stores.CutPage | internal/store/store.go:219-248 | the cursor loop and slice cut the page out of the sorted keys |
| Stores.Store.Scan | internal/store/store.go:194-249 | the page is the first `limit` live matching keys above the cursor, each after the one before it by the first difference, and the next cursor its last key if and only if more remain |
| Stores.Store.CreateSnapshot | internal/store/snapshot.go:19-120 | commits the snapshot file of the contents in the order walked and empties the log; fails exactly without a log |
| Stores.Store.LoadSnapshot | internal/store/snapshot.go:123-219 | succeeds exactly on readable files, loads the records up to the first bad one, sets the counter and, on success, the key count |
| Server.ReplayOne | cmd/server/main.go:53-69 | a type 1 record with expiry 0 or after now is set again with its expiry, one with expiry at or before now is skipped, a type 2 record is a delete, and others change nothing |
| Server.ReplayLog | internal/store/wal.go:111-184 | the read loop with that callback called as each record is read: the store has seen exactly the records before the ending, and the ending is the one the format defines |
| Server.Start | cmd/server/main.go:33-76 | start-up succeeds exactly when both files are readable, and builds, of new objects, the store that recovery defines |
| Refinement.SetFollows | internal/store/store.go:120-158 | a Set takes the machine through its log and apply steps, memory and disk alike, to the clock of the call |
| Refinement.DeleteFollows | internal/store/store.go:161-190 | so does a Delete |
| Refinement.GetFollows | internal/store/store.go:93-116 | a Get is at most one reaping step |
| Refinement.ReapFollows | internal/store/store.go:257-270 | a reaper pass is a sequence of reaping steps |
| Refinement.SnapshotFollows | internal/store/snapshot.go:19-120 | CreateSnapshot is a rename step and a truncate step |
| Refinement.Reboot | cmd/server/main.go:33-76 | after any run of calls and restarts, start-up over the files left behind succeeds with new objects and follows the crash step; without times to live the new store holds what the old one held, and its counter is the highest version of the snapshot |
| Refinement.FirstBoot | cmd/server/main.go:33-76 | start-up over an empty directory is the empty run, over new objects |
| Refinement.SnapshotAndLoad | internal/store/snapshot.go:150-218 | a snapshot of one store loaded into a new one gives exactly the unexpired entries, their number as key count, and the highest loaded version as counter |
| Api.Replicator.Replicate | internal/cluster/replication.go:50-62 | the message goes once to each peer that is neither this node nor dead, and to nobody else |
| Api.TargetsOf | internal/cluster/replication.go:53-61 | the filtered list of any listing of the table is exactly those peers, without repeats |
| Api.Handlers.HandlePutKey | internal/api/handlers.go:65-99 | stores under a fresh version and broadcasts the caller's value under the version the store answered with; broadcasts nothing on an error |
| Api.Handlers.HandleDeleteKey | internal/api/handlers.go:101-119 | likewise for DELETE |
| Api.Handlers.HandleInternalReplicate | internal/api/handlers.go:219-247 | applies the delivered mutation under its version, an expiry that has passed being moved a millisecond ahead; ignores unknown actions |
| Api.Handlers.HandleInternalPing | internal/api/handlers.go:196-217 | records the sender as alive and answers with the whole table and this node |
| Api.Handlers.HandleListKeys | internal/api/handlers.go:121-145 | a page of the number of keys asked for, 100 when it is missing or not positive, and at most 1000 |
| Replicas.PutFollows | internal/api/handlers.go:65-99 | over any number of nodes, a PUT without a time to live to one of them is one step of the cluster, in its store and in what it sends; other nodes do not move |
| Replicas.RemoveFollows | internal/api/handlers.go:101-119 | so is a DELETE |
| Replicas.DeliverFollows | internal/api/handlers.go:219-247 | the delivery of any request that any node has sent to any node is one step of the cluster, or is refused and changes nothing |
| Replicas.FreshNodes | cmd/server/main.go:33-76 | nodes over empty directories are the initial cluster |
| Replicas.VersionsAgree | internal/api/handlers.go:84-96 | after any run of such requests with fresh versions above the stored ones, two nodes with one version of a key hold one value, and every request sent under it carries that value |
| Scenarios.WriteRestartWrite | cmd/server/main.go:33-76 | for all keys and values: boot, write, compact, restart and write at one clock leave both entries, the second under the higher version, and a key count of 2 |
| Scenarios.SetThenGet | internal/store/store.go:93-158 | a Set at t with a time to live that is not outranked: Get at u finds the value if and only if the time to live is 0 or u is at most t plus it, and otherwise the key is removed |
| Scenarios.SetThenReap | internal/store/store.go:257-270 | a reaper pass at u keeps it under the same condition |
| Scenarios.TimedRestart | cmd/server/main.go:53-69 | boot, Set at t, restart at u, Get: found with its expiry if and only if the time to live is 0 or u is before t plus it |
| Scenarios.DeliverThenGet | internal/api/handlers.go:226-236 | a delivered SET is readable up to its expiry, or for a millisecond when that has passed on arrival |
| Scenarios.DetectFailure | internal/cluster/gossip.go:117-230 | a failed ping of an alive peer at t and a check at u leave it dead if u is at least t plus the window, and suspect since t otherwise |
| Scenarios.PutReaches | internal/api/handlers.go:65-99 | for all keys and values: two nodes come up and ping each other, one takes a PUT, what it sends is delivered, and both hold the same one entry |

## Left out

- HTTP routing, JSON, query parsing, the client library, the dashboard, metrics, configuration and deployment: plumbing over libraries. A body that does not decode never reaches the modelled handlers.
- Failures of file-system calls (open, write, sync, rename, truncate): writes, renames and truncations succeed. A crash inside an append ends a run of the durable machine; what start-up then does is stated by Durable.TornAppend, and the runs do not go on behind a torn tail.
- Payloads of 4 GiB or more, versions of 2^64 or more and nonzero expiries at or before 1970: shut out by the range conditions of the format.
- FNV-1a: no property depends on which hash is used.
- Round-trip times and replication lag: reporting only. The random choice of a peer to ping is nondeterministic.
- The clock does not advance during one call or one recovery, so the expiry that replay recomputes is the recorded one.
- Concurrent and Cluster: the machines carry no expiry, and the cluster no restarts; expiry and restarts are treated in the single-threaded durable machine.
- Stores.Store.Get: the lookup and the second look under the write lock are one step; two threads that reap one key at once are not modelled.
- Gossip.DeathHasProvenance: says where a death comes from, not that death is final, which is false over whole runs because an inbound ping revives a peer.
- Records.AppendAfterTornTail: one way only; once the log is longer than the torn length announces, the outcome depends on a checksum over unrelated bytes.
- Records.AppendAfterShortTail: one way only, for the same reason when the lengths do not leave their leading bytes zero.
- Locks.NoDeadlock: progress of some thread, not fairness towards each thread. Releases by deferred calls are modelled in their reverse order.
