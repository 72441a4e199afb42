# A verified model of the arbitro Go client

This project models the parts of the client whose correctness is hard to see
from any one function, and proves them in Dafny 4.11:

- **the acknowledgement store** (`Bytes`, `FrameLog`, `Format`, `Codec`,
  `Replay`, `Sorting`, `Compaction`, `LogFile`, `SlotModel`, `SlotLife`, `Books`,
  `Wal`, `Recovery`, `Memory`): a write-ahead log of length-framed, checksummed
  records behind per-consumer live sets, with eviction, expiry, snapshots,
  compaction and recovery, and the store that keeps the same slots in memory
  only;
- **request/reply correlation under shutdown** (`Correlation`, `Pending`): any
  number of callers, the one reader and any number of closers, interleaved step
  by step, and the pending map whose critical sections are those steps;
- **the workflow engine** (`TaskCodec`, `Saga`, `SagaRuns`, `SagaOrder`,
  `SagaAnswers`, `SagaPaths`, `SagaTurns`, `SagaParking`):
  message ids, payloads and subjects, what a worker does with one message, and
  whole runs of any number of workers over streams that deduplicate by message
  id and may deliver any message again;
- **subscription routing** (`Subjects`, `Registry`): the subject matcher and the
  copy-on-write registry of sibling subscriptions;
- **acknowledgements on their way out** (`AckRelay`, `Acks`, `Seen`): the
  deferred-ack relay, the batcher, the reconciliation with the broker, and the
  bounded redelivery guard.

Objects the client updates in place are classes, and each of their methods is
proved against a function on values; the lemmas are about those functions, over
every input, every run or every interleaving. The log's codec is generic
(`FrameLog`): a record type, its encoder and its frame reader. The CRC-32C of
section 12.1 of RFC 3720 is a parameter: nothing proved depends on which
function of the payload it is. `SlotModel.Slot`, `AckRelay.Hot`,
`Registry.Roster` and `Correlation.State` are the values the classes stand for.

Ghost state of `Wal.WAL`: `synced` counts the records the last flush covered,
and `book` (`Books.Book`) says what the file holds and what it owes to memory.
`log` is the list of records in the file. Of a slot in `loose` the log may
remember more than memory does, since an eviction took a live seq or the cutoff
of a restart an old one; of a slot in `unnamed` a compaction dropped the
Register. A slot's entry in `floors` is the date before which a compaction may
have dropped what memory holds; its entry in `limits` is the latest cutoff that
drops nothing younger than itself, since a snapshot or compaction redates what it
lists and was dated before one of the slot's seqs. A book is `pristine` while no
record names a slot id not yet given out. Every method states its whole new book.
A store opened on an empty file starts with nothing loose, unnamed, floored or
limited; `Books.GoesLooseIff`, `Books.IsLimitedIff` and `Books.StepNeverFades` say
what changes that. Nothing is assumed of the clock.

## Where the code and its comments disagree

The model follows the code.

- internal/ackstore/store.go:98-101 says that a seq outside the gate is
  definitely not seen. `minSeq` is the head of the queue, not the minimum
  (internal/ackstore/wal.go:461-463): recording 50 and then 10 leaves 10 in the
  set and outside the gate (`SlotModel.OutOfOrderHidesSeq`).
  `SlotModel.GateAfterInsertIff` says when an insertion keeps the gate exact.
- internal/ackstore/compact.go:25-27 says that a restore after compaction
  rebuilds identical state. The Register of an empty slot is dropped
  (`Compaction.CompactionKeepsSlotIff`), and what is later recorded under its
  id goes to whichever slot is registered under it next
  (`Compaction.OrphansAreInherited`).
- The replay limit of 64 MiB (internal/ackstore/replay.go:80) is not enforced
  on writing, so a larger snapshot hides itself and everything after it
  (`Recovery.OversizedSnapshotHidesRest`). A log is recovered in full exactly if
  every record keeps to the limit (`Recovery.ReadBackIff`), and appending or
  compacting leaves it so exactly while no slot that is snapshotted holds more
  than 8,388,603 seqs (`Books.AppendsStorableIff`,
  `Books.CompactionStorableIff`).
- internal/ackrel/relay.go:25-28 calls `oldestTs` the insertion time of the
  oldest pending seq. It is not renewed when that seq is confirmed, so younger
  seqs can be dropped with it (`AckRelay.StaleTimeExpiresYoungSeq`). The time is
  exact exactly while a seq of that time is pending (`AckRelay.OldestExactIff`),
  and expiry drops a younger seq exactly when its consumer has had something
  pending since before the cutoff (`AckRelay.YoungExpiresIff`).
- registry.go:43-48 calls a bare `>` the same as no filter and the classified
  matcher a cheaper form of the token walk. They differ on the empty subject,
  on the empty filter, and on a closing dot (`Subjects.FastPathAgreesIff`).
- A workflow of more than 32768 steps runs step 32768 as the compensation of
  step 0 (`SagaRuns.StepTaskRunsIff`); an instance id over 65535 bytes is read
  back as another one (`TaskCodec.LongIdReadsAsAnother`).
- The id of a removal note names the instance alone (workflow.go:1062-1066), so
  after a second suspension of an instance the removal is dropped as a duplicate
  and workers that took the park note over go on holding the instance
  (`SagaParking.SecondSuspensionIsKept`): a removal reaches a holder exactly if it
  is the first of its instance (`SagaParking.RemovalInRunIff`).
- A step that failed for good and is delivered again can still succeed, and the
  instance is then both compensated and advanced
  (`SagaPaths.RedeliveredAfterGivingUp`); `SagaAnswers.BothNeedsTwoAnswers` shows
  that nothing else leads there.
- internal/conn/connection.go:240-243 has a connection number its own requests,
  but arbitro.go:322-325 asks for the connection twice, so a seq drawn before a
  reconnect can be registered on the new connection, whose counter starts at 1
  again. A call registered under the seq of one still waiting strands that one
  (`Correlation.ReusedSeqStrandsWaiter`); `Correlation.NobodyStrandedIff` says
  exactly when nobody is stranded. A counter of its own is enough until it comes
  round (`Correlation.OwnCounterIsEnough`).

## Model

| member | source | states |
|---|---|---|
| Bytes.U64Field | internal/ackstore/format.go:83-84 | A little-endian 64-bit field holds n exactly when its eight bytes are the encoding of n. |
| Bytes.LEDigit | internal/ackstore/format.go:83-84 | Byte i of an integer field is the number's i-th digit in base 256, the least significant first. |
| Format.DecodeInvertsPayload | internal/ackstore/format.go:160-217 | The decoder accepts a payload and returns r exactly when that payload is the encoding of a record r whose names fit 16-bit lengths and whose seqs fit a 32-bit count. |
| Format.PayloadLayout | internal/ackstore/format.go:79-129 | Every field of every kind of payload is at its offset, under its kind's number, and nothing follows. |
| Format.LongNameIsNotReadBack | internal/ackstore/format.go:104-105 | A record that does not fit its length fields is never read back as what it was. |
| Format.SnapshotLimit | internal/ackstore/replay.go:80-82 | A snapshot is within the replay limit exactly up to 8,388,603 seqs. |
| Format.FrameLayout | internal/ackstore/format.go:134-140 | A frame is the length of the payload, the payload and the payload's checksum. |
| Format.ParseFrameIsFrame | internal/ackstore/replay.go:71-101 | A frame is read as r, taking k bytes, exactly when the bytes begin with the frame of a storable r of length k. |
| Format.LogCodecIsLawful | internal/ackstore/replay.go:71-101 | The record codec meets the laws the log theory needs: frames are non-empty, begin what they are read from, and are read back in front of any bytes exactly when storable. |
| Codec.FrameFinish | internal/ackstore/format.go:134-140 | Stamping the prefix and checksum around a payload written in place makes the buffer's first bytes that payload's frame and touches nothing else. |
| Codec.EncodeSeqOp | internal/ackstore/format.go:79-86 | The buffer ends up beginning with the frame of the Record, Confirm, Expire or ConfirmUpTo, the rest unchanged. |
| Codec.EncodeTombstone | internal/ackstore/format.go:89-95 | Likewise for a Tombstone. |
| Codec.EncodeRegister | internal/ackstore/format.go:98-110 | Likewise for a Register with names of any length, truncated length fields included. |
| Codec.EncodeSnapshot | internal/ackstore/format.go:114-129 | Likewise for a Snapshot of any seq list. |
| Codec.DecodePayload | internal/ackstore/format.go:160-217 | The branch-by-branch decoder computes Decode, for any bytes. |
| FrameLog.ParseAllSound | internal/ackstore/replay.go:71-102 | What the read loop accepts is a list of readable records whose frames are exactly the bytes before the offset it stops at, and no frame is readable there. |
| FrameLog.ParseAllIsLongest | internal/ackstore/replay.go:71-102 | No list of readable records whose frames begin the bytes is longer than the one read. |
| FrameLog.ReopenIsIdempotent | internal/ackstore/replay.go:156-160 | For arbitrary bytes under a good header, the reopened file is a log of exactly the recovered records, and reopening it again changes nothing. |
| FrameLog.AppendAfterRecovery | internal/ackstore/replay.go:229-250 | Records appended after a recovery are read behind the recovered ones, and nothing of the file is cut. |
| FrameLog.CutIsPrefix | internal/ackstore/replay.go:71-102 | A log cut at any byte reopens to a prefix of its records. |
| FrameLog.CutKeepsWholeFrames | internal/ackstore/replay.go:71-102 | That prefix has at least m records exactly when the first m frames lie before the cut. |
| LogFile.ReadFrame | internal/ackstore/replay.go:73-97 | Reading one frame at a position computes ParseFrame there, for any bytes. |
| LogFile.ApplyReplayRecord | internal/ackstore/replay.go:166-226 | The record-by-record fold computes ApplyReplay, with its cursor and snapshot loops. |
| LogFile.ReplayFile | internal/ackstore/replay.go:28-163 | Replay of any file gives the fold of exactly the records Reopen recovers, and keeps exactly the file Reopen keeps; it fails exactly on a wrong header. |
| LogFile.ScanLiveState | internal/ackstore/compact.go:111-193 | The compaction scan gives the other fold of exactly the records Reopen recovers. |
| LogFile.WriteCompacted | internal/ackstore/compact.go:198-241 | The bytes written are the file of the compacted log, and the size returned is their exact number. |
| Replay.ReplayMeaning | internal/ackstore/replay.go:166-226 | After any log, what replay gathered for a slot is what that slot's own records mean. |
| Replay.FoldsAgree | internal/ackstore/compact.go:160-191 | The two separately written folds give every log the same live sets and the same names. |
| Replay.RecoveredIsMeaning | internal/ackstore/replay.go:112-153 | A slot is recovered exactly when its records leave it registered, with their live seqs and its last name. |
| Replay.LiveIffAddedAndKept | internal/ackstore/replay.go:193-225 | A seq is live after any log exactly when some record of its slot added it and none after that dropped it. |
| Replay.DatedByLastAdd | internal/ackstore/replay.go:193-225 | A live seq is dated by the last record that added it. |
| Replay.NameIffLastRegister | internal/ackstore/replay.go:182-192 | A slot has a name exactly when its last Register since any Tombstone gave it. |
| Replay.SlotDependsOnItsRecords | internal/ackstore/replay.go:166-226 | What is replayed for a slot depends only on the log's records of that slot. |
| Replay.InterleavingIsIrrelevant | internal/ackstore/wal.go:298-317 | Two logs that agree slot by slot on the order of records recover every slot alike, however the slots interleave. |
| Replay.LateRegister | internal/ackstore/wal.go:245-280 | A Register that reaches the log after the slot's first records recovers the same as one before them. |
| Replay.TtlFilterCommutesIff | internal/ackstore/replay.go:193-225 | Filtering by a cutoff during replay equals dropping old entries afterwards, for every prefix and every cutoff, exactly when no Record moves a live seq's time back. |
| Replay.AscendingStampsCommute | internal/ackstore/replay.go:193-225 | In particular it does when each Record's time is at least every earlier time of its slot. |
| Replay.StampSurvives | internal/ackstore/replay.go:193-225 | With any two cutoffs and no hypothesis on the times, a seq recovered with the one is recovered with the other unless the other is later than its date. |
| Replay.StaysUnlessDropped | internal/ackstore/replay.go:193-225 | What is live stays so under later records unless one of them drops it. |
| Compaction.CompactLogMeaning | internal/ackstore/compact.go:198-241 | Each slot of the compacted log means what it meant, restamped with the compaction time, and loses its name exactly when it held nothing. |
| Compaction.CompactedListsExactly | internal/ackstore/compact.go:213-235 | A non-empty slot is written as one Register and one Snapshot of exactly its seqs, ascending, between their least and greatest. |
| Compaction.CompactionPreservesMeaning | internal/ackstore/compact.go:111-241 | Under every later suffix the compacted log gives each slot the same live seqs, and the same name if it was registered and not empty. |
| Compaction.CompactionNeverForgets | internal/ackstore/compact.go:111-241 | A later reopen with a later cutoff still finds every seq the original log would have given. |
| Compaction.CompactionKeepsSlotIff | internal/ackstore/compact.go:213-216 | A slot is recovered alike under all suffixes exactly when it was registered just if it was not empty at compaction. |
| Compaction.OrphansAreInherited | internal/ackstore/compact.go:213-216 | A concrete log where a slot emptied before compaction later has its seq recovered under another slot's name. |
| Compaction.CompactedSize | internal/ackstore/compact.go:203-240 | The compacted size is 66 bytes plus the names plus 8 per live seq, summed over the non-empty slots. |
| Compaction.CompactionSizeBound | internal/ackstore/compact.go:198-240 | A log whose non-empty slots are registered grows under compaction by at most 20 bytes per slot holding exactly one live seq. |
| Compaction.SizeBoundIsTight | internal/ackstore/format.go:69-76 | The 20 bytes are reached. |
| SlotModel.MemoryWithinLog | internal/ackstore/wal.go:368-452 | After any run of a slot, in any log where its records keep their order, memory's live set is within what the log gives the slot, and equal unless an eviction dropped a live seq and no snapshot followed; with a cutoff the log gives each seq not older than it, unless the cutoff is past a snapshot dated before one of the slot's seqs. |
| SlotModel.RunBounded | internal/ackstore/wal.go:445-452 | In every run the live seqs are all queued and neither exceeds the capacity. |
| SlotModel.KeptOfParts | internal/ackstore/wal.go:732-752 | Compacting the queue keeps exactly the live entries, each as often as it was there, in their order. |
| SlotLife.QueueTells | internal/ackstore/wal.go:368-464 | What each operation makes of the queue and the bounds: a confirmed seq's entry stays, a cursor or sweep that drops anything leaves just the live entries and their running minimum. |
| SlotLife.LiveIffTakenInAndKept | internal/ackstore/wal.go:368-464 | In every run a seq is remembered exactly if some check took it in, no eviction, confirmation, cursor or deletion took it out since, and no sweep had a cutoff past its date. |
| SlotLife.DatedWhenTakenIn | internal/ackstore/wal.go:376-377 | And it is dated with the time of that check, whatever happened since. |
| SlotLife.SweepSparesIff | internal/ackstore/wal.go:695-705 | A seq recorded at some time stays through a sweep exactly if the cutoff is not later than that. |
| SlotLife.MemLiveIffTakenInAndKept | internal/ackstore/memory.go:119-183 | The first of these for the in-memory slot. |
| SlotLife.MemDatedWhenTakenIn | internal/ackstore/memory.go:119-147 | And the second. |
| SlotLife.DeletedForGood | internal/ackstore/wal.go:536-545 | A deleted slot stays empty whatever is done through its handle, calls every seq new and records none. |
| SlotLife.RunDatesAlike | internal/ackstore/wal.go:376-390 | In every run without a snapshot the log, replayed with any cutoff, dates each seq that memory holds and that is not older as memory does. |
| SlotLife.EvictionStaysLogged | internal/ackstore/wal.go:445-452 | What an eviction drops from memory the log goes on remembering. |
| SlotLife.SnapshotListsExactly | internal/ackstore/wal.go:760-791 | A snapshot lists exactly the live seqs, ascending, between their least and greatest. |
| SlotModel.InsertedSurvivesIff | internal/ackstore/wal.go:377-384 | A recorded seq survives its own insertion exactly when no dead copy of it is evicted to make room. |
| SlotModel.GateExactIffOpen | internal/ackstore/wal.go:338-359 | The gated answer equals membership for every seq exactly when every live seq is within the bounds and a maximum is known. |
| SlotModel.GateAfterInsertIff | internal/ackstore/wal.go:457-464 | An insertion keeps the gate exact exactly when the new queue head is not above any live seq and a maximum is known. |
| SlotModel.OutOfOrderHidesSeq | internal/ackstore/wal.go:461-463 | Recording 50 and then 10 leaves 10 live and reported as not seen. |
| SlotModel.GateExactOverRuns | internal/ackstore/wal.go:338-464 | While inserted seqs are positive and ascending, the gate answers as the set does through every eviction, confirmation and sweep. |
| SlotModel.GateAfterReplay | internal/ackstore/replay.go:123-144 | Right after replay the gate is exact for every positive seq, with no order hypothesis. |
| SlotModel.GateExactAfterReplay | internal/ackstore/replay.go:123-144 | A restored slot's gate goes on being exact while seqs arrive in ascending order, unless seq 0 was recorded. |
| SlotModel.GateAfterDropIff | internal/ackstore/wal.go:732-752 | Whatever the gate was before, a confirmation by cursor or a sweep that drops something leaves it exact exactly if every seq left is within the maximum and a seq 0 that is left is the last queued. |
| SlotModel.DropHealsGate | internal/ackstore/wal.go:417-464 | So in every run, in whatever order seqs came, it does if seq 0 is not left. |
| SlotModel.StoresRefineSet | internal/ackstore/memory.go:119-183 | While no step evicts a live seq, any sequence of CheckRecord, Confirm and ConfirmUpTo gets the answers of a plain set from both stores, with the same live sets, however often the queue overflows. |
| SlotModel.WalRefinesSetIff | internal/ackstore/wal.go:368-464 | The log's slot holds just what the plain set holds after every prefix of a run exactly if no step evicts a live seq, and then all its answers are the set's. |
| SlotModel.MemRefinesSetIff | internal/ackstore/memory.go:119-183 | Likewise the in-memory slot, whose queue confirmations never shorten. |
| SlotModel.RoomIsEnough | internal/ackstore/memory.go:119-147 | Room in the in-memory queue for every new seq keeps both stores from evicting. |
| SlotModel.StoresPartIff | internal/ackstore/memory.go:119-183 | From equal sets the two stores' next sets are equal exactly if they evict the same live seqs; the answer is the same in any case. |
| Memory.MemRunBounded | internal/ackstore/memory.go:119-183 | In every run of the in-memory slot the live seqs are all queued and neither exceeds the capacity. |
| Memory.StoresPartOnEviction | internal/ackstore/memory.go:161-183 | A seq confirmed by cursor and recorded again is queued twice in one store and once in the other, so the first eviction leaves them with different sets. |
| Memory.MemSlot.CheckRecord | internal/ackstore/memory.go:119-147 | New exactly if the slot is deleted or does not hold the seq; a new seq is dated now, the queue keeps the newest entries it has room for, those given up leave the set, the others keep their dates, and the bounds follow. |
| Memory.MemSlot.ConfirmUpTo | internal/ackstore/memory.go:161-183 | One pass in any order leaves exactly the seqs above the cursor, as they were dated, counts the others, and leaves the least remaining seq as the bound, the queue untouched. |
| Memory.MemGateAfterCutIff | internal/ackstore/memory.go:161-183 | In every run the gate is exact after a cursor that dropped anything, unless seqs are left and 0 is the only one ever recorded. |
| Memory.MemSlot.Seen | internal/ackstore/memory.go:104-113 | The gated answer of the slot model. |
| Memory.Store.GetSlot | internal/ackstore/memory.go:60-91 | Names resolve to one handle until deleted; a new handle has an id above all earlier ones. |
| Memory.Store.DeleteSlot | internal/ackstore/memory.go:233-253 | The slot is emptied for good and unlisted, every other slot untouched. |
| Books.KeysAreDistinct | internal/ackstore/wal.go:226-228 | Two name pairs share a key only if they are the same, when stream names hold no NUL byte. |
| Books.KeyIsSharedIff | internal/ackstore/wal.go:226-228 | A pair shares its key with some other pair exactly when one of its names holds a NUL byte. |
| Books.StepKeepsSlot | internal/ackstore/wal.go:368-440 | Every slot operation, with the record it appends, keeps the slot's agreement with the log: what the log may have beyond memory, may lack of it, and how the two date each seq. |
| Books.CompactKeepsSlot | internal/ackstore/compact.go:28-89 | Compaction of a log readable to its end, with any cutoff up to the slot's limit and whatever the clock did, keeps in the log every live seq of the slot dated at or after the cutoff; past the limit, or if the log is not readable, it keeps the rest of the agreement. |
| Books.GoesLooseIff | internal/ackstore/wal.go:377-384 | A step lets the log remember more of a slot than memory does exactly when it evicts a live seq. |
| Books.IsLimitedIff | internal/ackstore/wal.go:760-791 | A step limits the cutoffs a slot can be reopened with exactly when it snapshots the slot with a date before one of its seqs. |
| Books.StepNeverFades | internal/ackstore/wal.go:298-317 | A step of one slot costs nothing else of what is known of any slot. |
| Books.AppendsStorableIff | internal/ackstore/replay.go:80-82 | A step keeps a fully readable log so, unless it snapshots a slot of more than 8,388,603 seqs, and then it does not. |
| Books.CompactionStorableIff | internal/ackstore/compact.go:198-241 | The compacted form of a readable log is readable exactly if no slot has more than 8,388,603 seqs in it. |
| Wal.SlotState.Seen | internal/ackstore/wal.go:351-359 | The gated answer of the slot model. |
| Wal.SlotState.EvictLocked | internal/ackstore/wal.go:445-452 | The loop drops exactly the overflow from the queue's head, and those seqs from the set. |
| Wal.SlotState.CompactFifoLocked | internal/ackstore/wal.go:732-752 | The queue keeps exactly its live entries in order, the bound becomes their minimum. |
| Wal.SlotState.CheckRecord | internal/ackstore/wal.go:368-393 | New exactly if the slot is deleted or does not hold the seq; a new seq is dated now, the queue keeps the newest entries it has room for, those given up leave the set, the others keep their dates, and the bounds follow; one Record of that time is appended exactly for a new seq on an open log, nothing otherwise; answer, error, count and the whole new book. |
| Wal.SlotState.Confirm | internal/ackstore/wal.go:395-410 | Likewise: the seq leaves the set, its queue entry stays, one Confirm is appended. |
| Wal.SlotState.ConfirmUpTo | internal/ackstore/wal.go:417-440 | Likewise: exactly the covered seqs go, their number is returned, one record is appended. |
| Wal.SlotState.SweepLocked | internal/ackstore/wal.go:689-713 | Exactly the seqs dated at or after the cutoff stay, as they were dated; exactly one Expire record is appended for each of the others, with a time of its own; the whole new book. |
| Wal.WAL.GetSlot | internal/ackstore/wal.go:232-281 | A listed pair gives its handle; a new one gets the next id, its names, an empty slot and a Register; overlong names and exhausted ids are errors; and the whole new book, table and file in each case. |
| Wal.WAL.DeleteSlot | internal/ackstore/wal.go:522-551 | The slot is emptied for good, unlisted, and a Tombstone appended, with the whole new book; an unknown pair is an error that changes nothing. |
| Wal.WAL.Snapshot | internal/ackstore/wal.go:760-791 | On an open store it succeeds and every listed slot that is not empty is snapshotted once, in some order; it fails exactly on a closed store with something to write, and then changes nothing. |
| Wal.SnapshotsRefresh | internal/ackstore/wal.go:760-791 | After such a pass the log has of each of those slots exactly what memory has, and nothing is known less of any other. |
| Wal.WAL.SweepOnce | internal/ackstore/wal.go:675-714 | Every listed slot keeps exactly its seqs dated at or after the cutoff, as they were dated, and no other slot changes; the records appended are one Expire for each seq lost, and nothing else; nothing of what is known of any slot is lost. |
| Wal.WAL.Compact | internal/ackstore/compact.go:28-89 | The file becomes the compacted form of what was readable of it, memory and handles untouched and still in agreement, with the whole new book; a closed store is left alone. |
| Wal.WAL.Sync | internal/ackstore/wal.go:585-622 | It fails exactly on a closed store; else everything appended before is synced, a file at its threshold is compacted, or else the due snapshots are taken, either starting the count of records anew; memory is untouched. |
| Wal.WAL.Close | internal/ackstore/wal.go:626-652 | The log is flushed and takes nothing more, the book otherwise unchanged. |
| Recovery.OpenWAL | internal/ackstore/replay.go:28-163 | Opening any file gives a store over exactly the recovered records and no torn tail, configured as asked: each recovered slot and no other has a handle with what replay gives it, each key finds the highest slot recovered under it and no other key is listed, the next id is one above the highest, and every operation keeps agreement from there. |
| Recovery.ReopenedDates | internal/ackstore/replay.go:112-153 | A reopened slot holds exactly the seqs some record of it added and none after dropped, each dated by the last record that added it. |
| Recovery.ReopenAndGet | internal/ackstore/replay.go:145-153 | Opening a file and asking for a pair of names gives the highest slot recovered under its key, holding all that was recovered of it, or a new empty slot exactly if there is none and ids remain. |
| Recovery.RestartKeepsMemory | internal/ackstore/replay.go:112-153 | Reopening at any moment, whatever the clock did, gives each slot in use whose Register no compaction dropped, under its name, every seq memory held that is not older than the cutoff nor than a cutoff compacted with before, if the cutoff is not past a snapshot or compaction that was dated before one of that slot's own seqs; and nothing more unless an eviction dropped a live seq. |
| Recovery.Restart | internal/ackstore/wal.go:626-652 | Closing a store, opening its file again and asking for a slot by its names gives the same id and names and those same seqs, under those same conditions on the slot alone. |
| Recovery.ReadBackIff | internal/ackstore/replay.go:80-82 | A log is read back in full exactly if each of its records is within the limits. |
| Recovery.CrashKeepsSynced | internal/ackstore/wal.go:585-600 | A file cut anywhere after the synced part recovers a prefix of the records that has every synced one. |
| Recovery.CrashKeepsSyncedSeqs | internal/ackstore/wal.go:585-600 | Of what a slot held at the last sync, each seq the log then owed it is recovered from any such cut unless a record of the slot written since drops it. |
| Recovery.TornTailKeepsSynced | internal/ackstore/replay.go:71-102 | Whatever bytes follow the synced part, every synced record is recovered. |
| Recovery.OversizedSnapshotHidesRest | internal/ackstore/replay.go:80-82 | A snapshot over the limit makes reopening lose it and everything after it. |
| Correlation.RunKeepsInv | internal/conn/connection.go:280-332 | In every interleaving in which no step takes another caller's entry out of the map, whatever seqs the calls come with: no panic, each channel at most once completed, every unfinished caller's channel in the map, in the reader's hand, or completed. |
| Correlation.StepKeepsIff | internal/conn/pending.go:19-45 | A step keeps that, and strands no caller, exactly if it takes nobody else's entry: it registers no seq whose entry is there, and removes none but its own. |
| Correlation.NobodyStrandedIff | internal/conn/pending.go:19-45 | No caller is stranded at any time of a run exactly if no step of it takes another's entry. |
| Correlation.ApartRun | arbitro.go:322-325 | No step does if no call is registered under the seq of one that has not finished. |
| Correlation.OwnCounterIsEnough | internal/conn/connection.go:240-243 | Which holds of every run whose seqs are all drawn from the connection's own counter, each once and before it comes round. |
| Correlation.CompletedAtMostOnce | internal/conn/pending.go:28-55 | Each reply channel gets at most one of a send and a close. |
| Correlation.ResolveNeverBlocks | internal/conn/pending.go:28-38 | Once the reader holds a channel its send neither blocks nor finds it closed. |
| Correlation.LeftoversAreLatecomers | internal/conn/connection.go:281-283 | After a sweep that follows closed = true, what is left in the map belongs to callers that have not passed the closed check and will remove it. |
| Correlation.NoCallerIsStranded | internal/conn/connection.go:314-332 | After the sweep every caller finishes by at most two more steps, its own or one send the reader already holds. |
| Correlation.RepliesAreTheirs | internal/conn/connection.go:487-495 | A frame a caller is handed is one the reader read, byte for byte, under the seq that caller had registered before, at a moment when that seq's entry was the caller's own; so no reading is handed to two. |
| Correlation.OutcomesTell | internal/conn/connection.go:314-332 | In every run a caller ends with a reply, a closed channel or a timeout only if its frame was queued, with a failed send only if it was not, and with the timeout exactly if its context ended the wait. |
| Correlation.ClosedMeansSwept | internal/conn/pending.go:48-55 | A caller that finds its channel closed had its own entry swept out of the map. |
| Correlation.FinishedCallersLeaveNothing | internal/conn/pending.go:40-45 | When every caller has finished the map is empty. |
| Correlation.ReusedSeqStrandsWaiter | arbitro.go:322-325 | A run in which a second call comes under the seq of a waiting one and a shutdown then leaves the first waiting on a channel nobody holds. |
| Correlation.StrandedForGood | internal/conn/connection.go:314-332 | A stranded caller gets no reply whatever happens: it waits until its own context, or its sending, ends. |
| Correlation.DrawnTwiceIff | internal/conn/connection.go:240-243 | One counter gives a seq twice exactly at places a multiple of 2^64 apart. |
| Pending.PendingMap.Register | internal/conn/pending.go:19-25 | The seq's entry is a new, open and empty channel, every other as it was; the registration step. |
| Pending.PendingMap.Resolve | internal/conn/pending.go:28-38 | The frame itself is in the channel of its seq, which is out of the map, and no other channel changes; a frame for an unknown seq changes nothing; dispatch and delivery in one. |
| Pending.PendingMap.Remove | internal/conn/pending.go:41-45 | The seq's entry goes and no other; the removal step. |
| Pending.PendingMap.CloseAll | internal/conn/pending.go:48-55 | Closes each channel in the map once, in any order, and no other, and empties the map; the sweep step. |
| TaskCodec.DecReads | workflow.go:612 | A printed number reads back as itself. |
| TaskCodec.IdsAreDistinct | workflow.go:1017-1071 | Two messages of any kinds share an id only if they are the same message, for any instance ids. |
| TaskCodec.SubjectsAreToldApart | workflow.go:725-763 | The prefix tests recognise every subject the workflow publishes for what it is, for any workflow name and instance id. |
| TaskCodec.NotesAreToldApart | workflow.go:670-697 | Likewise on the state stream. |
| TaskCodec.TaskReadsBackIff | workflow.go:206-235 | A task reads back as written exactly when its instance id has at most 65535 bytes. |
| TaskCodec.DecodedTaskIsEncoded | workflow.go:219-235 | Whatever payload is accepted is byte for byte the encoding of the task it was read as. |
| TaskCodec.LongIdReadsAsAnother | workflow.go:206-217 | An id one byte too long is read as the empty id, its own bytes giving the attempt. |
| TaskCodec.ParkReadsBackIff | workflow.go:240-264 | A park payload reads back exactly when its state is below 4 GiB; the step always does. |
| TaskCodec.DecodedParkIsEncoded | workflow.go:249-264 | An accepted park payload is the encoding of what it was read as. |
| Saga.Processor.ProcessOne | workflow.go:732-842 | One turn of the dispatch loop: worker state, messages published in order, acknowledgement, and the handler called with what it is called with, for every subject, payload and handler answer. |
| Saga.Processor.HandleResume | workflow.go:847-894 | All branches: unknown here, stale, not resumable, handler failure, next step and removal. |
| Saga.Processor.HandleTimeout | workflow.go:896-942 | Likewise for a timeout, with and without a handler. |
| Saga.Processor.HandleStepSuspend | workflow.go:965-993 | The instance is parked locally and announced, and a timer started if a timeout applies. |
| Saga.Processor.HandleStepError | workflow.go:995-1051 | A retry, refused if it cannot be published; or the dead letter and then the compensation loop, latest step first. |
| Saga.Processor.HandleState | workflow.go:682-698 | A park note does not replace a held entry; a removal note drops it. |
| SagaRuns.PostsInBounds | workflow.go:995-1060 | No step task is published for a missing step or an attempt too many, whatever message was processed. |
| SagaRuns.GivingUpUndoesInReverse | workflow.go:996-1031 | A step given up publishes its dead letter and then compensations of the steps before it, from the latest to step 0. |
| SagaRuns.FollowUpsDescendIff | workflow.go:951-963 | Every follow-up step task is a later step or a later attempt of the same instance, exactly unless a failure at attempt 255 or a success at step 65535 wraps. |
| SagaRuns.ResumesDescend | workflow.go:885-889 | A resume or timeout leads to the step after the parked one. |
| SagaRuns.StepTaskRunsIff | workflow.go:778-805 | A step's task runs as that step exactly when its index is below 32768; above, it runs as a compensation. |
| SagaRuns.UndoReachesItsStepIff | workflow.go:779-797 | A compensation task compensates the step it names exactly when that is below 32768 and has a compensation. |
| SagaRuns.AcceptKeeps | workflow.go:1055-1060 | With ids deduplicated a published message is logged unless the very same message already is, and no message is logged twice. |
| SagaRuns.StepTasksBounded | workflow.go:1032-1051 | In every run, with redelivery, publish failures, restarts, competing resumes and foreign messages, an instance has at most steps times max(1, maxRetries) step tasks. |
| SagaRuns.EnqueuedAtMostOnce | workflow.go:1020-1029 | Every message of a workflow, each compensation and each next step included, is on the task stream at most once. |
| SagaRuns.RunsDescend | workflow.go:995-1038 | Every logged step task with a short enough id reads back as itself, its attempt is below 255, and whatever processing it publishes descends. |
| SagaRuns.GivingUpEnqueuesCompensations | workflow.go:995-1031 | When a worker gives up on step k and its publishes succeed, the task stream gains exactly the compensations of k-1 down to 0 it lacked, in that order, and nothing else; the dead letters gain one more, repeated or not. |
| SagaOrder.LaterStepsAreCaused | workflow.go:951-963 | In every run a task of a later step is enqueued only after some message that runs the step before it for that instance, or a message from elsewhere that runs this very step. |
| SagaOrder.StepsAreEnqueuedInOrder | workflow.go:951-1060 | In every run with ids that fit, in which nobody else puts tasks on the stream, each task of an instance has tasks of all the steps before its own ahead of it, through redelivery, lost publishes, suspension, resumes, timeouts and restarts. |
| SagaAnswers.CompensationsAreCaused | workflow.go:996-1031 | In every run a compensation is enqueued only after a later step of that instance failed at an attempt after which there is no other. |
| SagaAnswers.BothNeedsTwoAnswers | workflow.go:951-1051 | In every run in which nobody else puts tasks on the stream, an instance that is given up at a step and has also gone on past it had one attempt at that step run twice, failing once and succeeding or suspending once. |
| SagaPaths.AllStepsRunInOrder | workflow.go:951-963 | With one worker, no redelivery and handlers that all succeed, an instance has each step run once, in order, on the context the one before returned, and nothing more is enqueued. |
| SagaPaths.FailingStepIsRetriedThenUndone | workflow.go:995-1051 | After any run, a step that then fails at one worker each time is attempted exactly as often as configured, each attempt enqueued by the one before, and then exactly the missing compensations follow in reverse. |
| SagaPaths.RedeliveredAfterGivingUp | workflow.go:995-1051 | After any run, a step whose last attempt fails and is delivered again and succeeds has the instance both compensated and advanced. |
| SagaTurns.TimeoutTells | workflow.go:896-942 | For an instance held here, in every case: a timeout handler's result goes on to the next step and then the removal is published, without a handler only the removal, on a failed one nothing and the message comes again; the handler gets the parked state. |
| SagaTurns.ResumeTells | workflow.go:847-894 | Likewise a resume, which without a handler is dropped unannounced; the handler gets the parked state and the event. |
| SagaTurns.UnknownIsHandedOnOnce | workflow.go:848-858 | A resume or timeout of an instance not held here is handed on once and dropped the second time, leaving no trace. |
| SagaTurns.CancelTells | workflow.go:944-949 | A cancellation has the worker let go and the removal published, held here or not. |
| SagaTurns.NotesTell | workflow.go:682-698 | A readable park note is taken over unless the instance is held, a removal has it let go of, and nothing else changes anything. |
| SagaTurns.StepTells | workflow.go:951-1051 | What running a step comes to for every answer: the next task, the park note and a timer exactly if one is asked for, the retry, or the dead letter; and when the message is acknowledged. |
| SagaTurns.NothingToRun | workflow.go:764-809 | A task that calls no step, unreadable, too large, of a missing step, or a compensation, is acknowledged and leaves the worker as it was. |
| SagaTurns.TasksCall | workflow.go:778-827 | A step's task calls that step's handler on the context it carries, and a compensation's task its step's compensation. |
| SagaTurns.HappyCalls | workflow.go:807-827 | In the run in which all succeeds each handler is called on what the one before returned. |
| SagaTurns.DeadLettersTell | workflow.go:997-1018 | Two dead letters have the same body only if they report the same task, attempt, context and error. |
| SagaParking.SuspendingParks | workflow.go:965-993 | A worker whose step suspends holds the instance with its state and context, exactly the park note is announced, and a timer is set exactly if one is asked for. |
| SagaParking.SuspendedHereResumedThere | workflow.go:847-894 | An instance suspended at one worker and resumed at another has its resume handler called with the state it was parked with and the event, its next step is enqueued once on what that returns, and it is let go of. |
| SagaParking.SuspendedThenTimedOut | workflow.go:896-942 | After any run, a step that suspends and times out has its timeout enqueued when its timer fires, the handler called with the parked state, the next step enqueued exactly once on what that returns, and the removal announced. |
| SagaParking.RemovalInRunIff | workflow.go:1062-1066 | In every run, when a worker announces a removal, another that holds the instance gets a later note to let go by exactly if it is the first removal announced for that instance. |
| SagaParking.SecondSuspensionIsKept | workflow.go:965-993 | A run of two workers in which an instance suspends and is resumed twice, one worker reading every note: it ends still holding the instance, with no note left to read. |
| SagaParking.RemovedOnce | workflow.go:1062-1066 | In every run a removal of an instance is announced at most once. |
| Subjects.PatternMatch | registry.go:72-94 | The loop terminates and computes the token-list meaning of filter and subject. |
| Subjects.MatchesIffFits | registry.go:69-94 | A filter matches exactly when the token counts fit its first `>` and every token before it is `*` or the subject's own. |
| Subjects.SameTokensIff | registry.go:97-102 | Two subjects have the same tokens exactly when they are equal up to closing the last token with a dot. |
| Subjects.FastPathAgreesIff | registry.go:43-67 | The classified matcher answers as the token walk exactly outside three named cases. |
| Registry.GroupIsSurvivors | registry.go:143-197 | After any run with distinct ids, a consumer's slice is what was registered for it and not removed since, in registration order. |
| Registry.ResolvesIffRegistered | registry.go:221-226 | An id resolves exactly while it is registered: added, and not removed since. |
| Registry.OnlySetFanChangesMode | registry.go:156-167 | Only setFanout changes the mode of a consumer that stays subscribed, and a new consumer starts in queue mode. |
| Registry.RunKeepsRoster | registry.go:143-217 | In every run groups are non-empty, ids distinct, and ids and groups name each other. |
| Registry.Table.Register | registry.go:143-154 | A new slice with the subscription last, all its siblings' routes re-pointed at it with their indexes, no existing slice touched. |
| Registry.Table.Remove | registry.go:171-197 | The slice without it, in order, or no entry when it was the last; routes re-pointed; an unknown id changes nothing. |
| Registry.Table.SetFanout | registry.go:156-167 | The routes of that consumer and no others change mode. |
| Registry.Table.Rebuild | registry.go:201-217 | Each sibling gets a fresh route with its index, slot, the shared slice and the mode the first sibling had. |
| Registry.Table.Lookup | registry.go:221-226 | A live id gives its consumer's slice, its own place in it and the consumer's mode. |
| Registry.DoAll | registry.go:136-143 | Over any registry operations, a route handed out before goes on listing what it listed. |
| Registry.FanOut | arbitro.go:681-702 | In fanout mode every sibling whose filter takes the subject gets exactly one copy under its own id; in queue mode only the one looked up does. |
| AckRelay.RunConserves | internal/ackrel/relay.go:101-219 | In every run, distinct inserts are the sum of pending, confirmed, expired and wiped, and a consumer has an oldest time exactly while it has pending seqs. |
| AckRelay.PendingIffRecordedAndKept | internal/ackrel/relay.go:101-219 | In every run a seq is pending exactly if a Record found it not pending and no confirmation, cursor, generation change or expiry of its consumer took it out since. |
| AckRelay.BornWhenRecorded | internal/ackrel/relay.go:101-111 | And its age counts from that Record. |
| AckRelay.GenerationAfter | internal/ackrel/relay.go:185-219 | A consumer is at the generation it was last set to, advanced modulo 2^32. |
| AckRelay.CountedOnce | internal/ackrel/relay.go:101-219 | Each operation moves the counter it stands for, by the number of seqs it takes in or out, and no other. |
| AckRelay.NothingOldAfterExpiry | internal/ackrel/relay.go:298-330 | After a consumer's expiry no seq recorded before the cutoff is pending. |
| AckRelay.StaleTimeExpiresYoungSeq | internal/ackrel/relay.go:129-131 | A seq recorded after the cutoff is dropped when an older one was confirmed before it. |
| AckRelay.DropKeepsOldestIff | internal/ackrel/relay.go:121-157 | Dropping confirmed seqs leaves an exact oldest time exact exactly when none is left or one of that time is. |
| AckRelay.KeptTimeIff | internal/ackrel/relay.go:101-162 | In every run the time kept for a consumer is that of the Record that last found it with nothing pending. |
| AckRelay.OldestExactIff | internal/ackrel/relay.go:25-28 | While the clock runs forward the time kept is that of the oldest pending seq exactly when nothing is pending or a seq of that time is. |
| AckRelay.YoungExpiresIff | internal/ackrel/relay.go:298-330 | Expiry drops a seq recorded at or after the cutoff exactly when its consumer has had something pending since before the cutoff. |
| AckRelay.ConsumerState.Confirm | internal/ackrel/relay.go:121-131 | Exactly the listed pending seqs go and are counted once each, repeats included. |
| AckRelay.ConsumerState.ConfirmUpTo | internal/ackrel/relay.go:146-157 | One pass in any order drops and counts exactly the covered seqs. |
| AckRelay.Relay.Record | internal/ackrel/relay.go:101-111 | The seq is pending, inserted once, and dated if it is the first. |
| AckRelay.Relay.ConfirmUpTo | internal/ackrel/relay.go:141-162 | The relay's new state and both counters, modulo their 64 bits. |
| AckRelay.Relay.EnsureGeneration | internal/ackrel/relay.go:196-205 | A mismatch adopts the generation and wipes the pending set; a match changes nothing. |
| AckRelay.Relay.BumpGeneration | internal/ackrel/relay.go:210-219 | The generation goes up modulo 32 bits and the pending set is wiped. |
| AckRelay.Relay.PendingSeqs | internal/ackrel/relay.go:166-179 | The pending seqs in ascending order. |
| AckRelay.Relay.ExpireOlderThan | internal/ackrel/relay.go:298-330 | Visiting consumers in any order expires exactly the overdue ones and returns the number dropped. |
| Acks.AckBatcher.Run | internal/conn/ackbatcher.go:53-94 | For every sequence of channel events and of answers of the outbound queue each dequeued item is in exactly one offered frame, in per-consumer order, frames have 1 to 64 entries, and nothing is held when the loop waits; the queue is asked once for each frame, the wire has exactly the frames it took, in order, and the relay exactly the entries of the others besides what it held. |
| Acks.AckBatcher.Flush | internal/conn/ackbatcher.go:96-104 | In any order, everything held is offered, and as the queue answers it is on the wire or in the relay; nothing stays held. |
| Acks.AckBatcher.SendBatchAck | internal/conn/ackbatcher.go:115-146 | One frame, of the single layout exactly for one entry, offered to the queue once: if it takes it, it is on the wire and the relay is left alone; if not, the wire is left alone and each entry is recorded in the relay. |
| Acks.RefusedAreDeferred | internal/conn/ackbatcher.go:138-146 | A seq is pending in the relay after any offers exactly if it was before or a refused frame of that consumer carried it. |
| Acks.OffersConserve | internal/conn/ackbatcher.go:115-146 | Every offered frame is taken or refused, and deferring the refused ones keeps every seq of the relay accounted for. |
| Acks.ReconciledLeaves | internal/conn/connection.go:561-579 | With equal generations exactly the pending seqs above the cursor and not below the floor stay; otherwise the broker's generation is adopted and none stays; other consumers are untouched and every seq is accounted for. |
| Acks.Reconciler.HandleAckStateRep | internal/conn/connection.go:532-592 | The store is told the cursor exactly if the broker vouches for it, then the end of what the broker dropped exactly if the generations are equal and it dropped anything, and nothing else; with equal generations exactly the seqs above the cursor and not below the floor stay pending, otherwise none; the frames sent are exactly those left, ascending, or none. |
| Acks.Reconciler.ReplayPending | internal/conn/connection.go:580-591 | The frames concatenate to the seqs, each of 1 to 1000, all but the last full. |
| Seen.SeenCache.InsertIfNew | internal/ackrel/seen.go:45-72 | True exactly for a key not among the last cap keys that were new; the backing slice stays within cap + max(65536, cap). |
| Seen.SeenCache.Compact | internal/ackrel/seen.go:62-70 | Dropping the evicted part leaves the queue as it was. |
| Seen.SeenCache.Len | internal/ackrel/seen.go:75-79 | The number of keys remembered: the last cap that were new. |
| Seen.ExactWithinCapacity | internal/ackrel/seen.go:14-17 | As long as at most cap different keys come, every key is let through exactly once, the first time. |
| Seen.RepeatedIff | internal/ackrel/seen.go:57-61 | A key is let through again exactly when at least cap others were let through since. |

## Left out

- Wal.WAL.Sync: flush, fsync and rename are assumed to succeed, and the buffered writer is one count of synced records; write errors other than a closed log are not modelled.
- Wal.WAL.Compact: the temporary file, its rename and reopening are one atomic step; the single-writer directory lock is assumed.
- Wal.SlotState.CheckRecord: `oldestTs`, `Info`, metrics counters and `ListSlots` are not modelled; they only report.
- Recovery.OpenWAL: the resulting store is shown to be valid when no record names slot id 2^32-1, whose replay would wrap `nextID` to 0.
- Recovery.Restart: stated for a slot whose key no slot with a higher id has in the log, and like `Recovery.ReopenAndGet` for logs that do not name slot id 2^32-1.
- Books.CompactKeepsSlot: a cutoff later than a snapshot or compaction that was dated before one of a slot's seqs, and a compaction that could not read the log to its end, leave no promise for what that slot held before its next snapshot.
- Replay.LateRegister: `registeredAt` and the `byID` slice are not modelled; nothing reads them back.
- Locks: one critical section is one step. A method of `Wal` or `Memory` is atomic as under its slot lock; interleavings between slots are the subject of `Replay.InterleavingIsIrrelevant`.
- Correlation.RunKeepsInv: the `done` channel is a flag; that it is closed once is not claimed, since the check in the reader's exit is not atomic. Queue room, context ends and I/O errors happen at any time. A call's seq is arbitrary; which connection it was drawn from is not modelled beyond that.
- SagaRuns.StepTasksBounded: message ids are deduplicated for ever, where the task and state streams do so for 300 seconds (the dead-letter stream never does); at least one step is assumed, as Start demands; messages from elsewhere carry no workflow id.
- SagaRuns.RunsDescend: stated for fewer than 65536 steps, the range of the step count's own type.
- SagaPaths.AllStepsRunInOrder: stated for at most 32768 steps, contexts within the limit and an id that fits, the cases in which the code runs every step as itself.
- Workflow liveness and the exclusivity of resume and timeout handlers across workers: parked entries are replicated and publish errors discarded, so only single enqueueing of the next step is claimed.
- Workflow builder, JSON helpers, stream and consumer set-up: thin wrappers.
- Registry.FanOut: delivery appends to an inbox; channels that fill up, handlers and flow control are not modelled. Subscription ids are distinct among live subscriptions by hypothesis.
- Registry.Table.SetFanout: a route's mode is flipped in place, so a reader that holds a route may see either mode; only its slice is claimed stable.
- SagaTurns.StepTells: stated for fewer than 65536 steps; a failure at attempt 255, which a run never reaches, is left to `SagaRuns.FollowUpsDescendIff`.
- SagaTurns.TimeoutTells: stated, like `SagaTurns.ResumeTells`, for fewer than 65536 steps, the range of the step count's own type.
- SagaTurns.DeadLettersTell: stated for ids below 64 KiB and errors below 4 GiB, beyond which the length fields are cut.
- Acks.AckBatcher.Run: the outbound queue's answers are an arbitrary input; the byte layout of ack frames is left to the protocol encoders; one time serves all entries deferred in a run, where the code reads the clock for each.
- Seen.SeenCache.InsertIfNew: the spare capacity Go's append may reserve behind the slice is not counted.
- Sockets, TLS, dialing, heartbeat timing, reconnect orchestration, client management calls, options, error tables, cron and service calls, fixed-layout wire encoders: I/O, or easier repeats of what is modelled.
