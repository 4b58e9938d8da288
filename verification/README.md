# A verified model of GRIT

GRIT runs distributed transactions: an application gets a transaction number
from the global transaction manager (GTM), entity services send read and write
sets to the participants (DbService with its Dbtm), each participant checks for
conflicts locally, the GTM decides over all of them, and the write sets of
committed transactions go to the log store (Dbtl), whose log player replays them
to the replicas on a timing wheel. All messages are FlatBuffers.

This project models five parts in Dafny and proves what they promise:

* **The FlatBuffers wire engine.** `VectorDownward.dfy` is the byte array with
  two stacks growing towards each other, in place and through reallocations.
  `FlatBufferBuilder.dfy` is the builder class on top of it; every method is
  proved equal to a function of `BuilderSpec.dfy`. `Reader.dfy` has the
  accessors, with every read checked. `BuilderRoundTrip.dfy`,
  `TreeRoundTrip.dfy`, `TreeWriter.dfy` and `FinishedBuffer.dfy` lead to one
  theorem, `EncodeRoundTrip`: for every tree of tables, strings and vectors, with
  and without vtable sharing, the finished buffer reads back as that tree, every
  scalar is aligned, and defaults are stored exactly if they are forced;
  `TreeFits.dfy` says when there is one. `TableLayout.dfy` says what the accessors
  do not show: vtables are shared whenever they can be, and no byte is wasted.
  `Verifier.dfy` proves the generated `Verify` functions sound on arbitrary bytes,
  `VerifierExact.dfy` which buffers they accept, by a definition without counters,
  and `VerifierAccepts.dfy` that whatever the builder makes for the schema passes.
  `Messages.dfy` applies all of this to the log messages.
* **The commit protocol.** `Participant.dfy` has the handlers of one participant
  for one transaction, `Gtm.dfy` the vote count and its class, `DbService.dfy` the
  participant's class over shared transaction objects. `CommitProtocol.dfy` puts
  them into one system with any number of transactions and participants and a
  network that delivers in any order, and proves an inductive invariant;
  `CommitSafety.dfy` draws the safety theorems from it, `CommitProgress.dfy` the
  bound on deliveries and the common outcome at the end, and
  `CommitTermination.dfy` that every schedule of deliveries of a live transaction
  comes to that end. `CommitTraces.dfy` states the main theorems on the steps of a
  run alone: what kData brought, what the indexes and the log store answered and
  what was delivered, with no reference to what the handlers record.
* **The timing wheel.** `TimeWheel.dfy` is the class with slots and rotations,
  proved to refine the queue of absolute deadlines in `DeadlineQueue.dfy`, and the
  clock with its 32-bit narrowing.
* **The log player.** `LogPlayer.dfy` has all runs of one transaction's tables,
  `LogStore.dfy` the class that puts the retries on the wheel, and
  `LogPlayerRuns.dfy` proves that the class over any events makes such runs.
  `EndToEnd.dfy` joins the protocol, the messages and the log player: what a
  replica reads is what all kData brought.
* **The thread pool**, `ThreadPool.dfy`, as a transition system with sleeping
  workers, spurious wake-ups and notifications in flight.

Two sibling headers are covered as well: FlexBuffers' choice of widths
(`FlexWidth.dfy`, `FlexBuilder.dfy`) and the UTF-8 and JSON functions of `util.h`
(`Utf8.dfy`, `Escape.dfy`). `Bytes.dfy` is the ground floor: bitwise operators on
naturals, little-endian scalars and padding.

## How the model reads the source

* Machine integers are unbounded integers with the width written out where it
  matters: `size_t` wrap-around in `VerifyTableStart`, 16- and 32-bit offsets, the
  32-bit rotations and clock of the wheel, 8-bit chars. `DbService`, `Gtm` and
  `LogStore` do not model wrap-around of transaction numbers and counters.
* An assertion of the source (`FLATBUFFERS_ASSERT`) and a dereference of a map
  entry are preconditions of the class methods. In the protocol they are outcomes:
  a handler that dereferences a missing entry faults, and `NoFault` shows that no
  run gets there.
* The protocol's premises are in `CommitProtocol.Legal`: a participant gets at
  least one kData, then one kCommit, which carries needGlobalConflict exactly for
  transactions with several participants; messages carry their values and have
  both vectors; deliveries happen at most once. Each participant has a log store
  of its own: the log table is keyed by the transaction number alone
  (transaction/dbtl/dbtl.cc:72-107), so participants that shared a store would mix
  their logs. What the conflict index answers and which LSN the log store returns
  are free, the LSN being 0 or more.
* A replica that reports a failure is one of the replicas of the first play. The
  log player indexes its retry table with the reported id and does not check it
  (transaction/dbtl/logplayer.cc:84), so this is a premise of `LogStore.LogPlayer.Failed`
  and of `LogPlayer.Legal`.
* The scalars of the FlatBuffers builder are integers, given by their bit patterns.
* Calls into the network, the disk and MySQL are results of the methods or left
  out. A timer's callback does not touch the wheel.

## What does not hold

* A timer waits exactly its timeout if and only if the full rotations fit an int
  (`WaitExact`, `LongWaitIsLost`). On the log player's wheel that covers exactly the
  first 33 retries (`DelayFits`).
* Ticks follow the clock exactly if and only if every gap between two readings is
  below 2^31 ms (`NoDrift`, `TimeWheel.Start`, `LongGapLosesTicks`).
* If LSN 0 is delivered before kCommit, the local check is never enqueued
  (`ZeroLsnNeverChecks`), and a legal run gets there (`ZeroLsnHappens`); the exact
  condition for the check is in `Handshake`. The log store passes the LSN in the position of isGlobalConflict
  (transaction/dbtl/dbtl.cc:143), so the lsn field it delivers is always 0.
* A stopped pool can drop queued tasks (`StopDropsTask`). It runs exactly as many of
  them as workers are entering the wait or asleep when it stops, so every accepted
  task is run if and only if no more are queued than that (`StopRunsExactly`).
* An acknowledgement that arrives before the first play keeps the log from every
  replica; the first play reaches all of them exactly if there was none
  (`FirstPlayReachesAll`, `EarlyAckSilences`).
* `EscapeString` writes a JSON string exactly if the input is UTF-8 and, with
  natural UTF-8, has no control character without a short escape
  (`EscapeFaithful`, `RawByteIsNotJson`, `RawControlIsNotJson`).
* The type of a fixed FlexBuffers vector gives element type and length back exactly
  for integers and floats. The builder takes keys, strings and booleans as well,
  and a pair of keys reads as three integers (`FixedTypeExact`, `FixedKeysMisread`).
* Verification never reads outside the buffer exactly if alignment is checked
  (`SafeExactlyWhenAligned`).

## Model

| member | source | states |
|---|---|---|
| `Bytes.PaddingBytesCorrect` | third_part/include/flatbuffers/base.h:393-395 | the two's complement and mask trick gives exactly the bytes up to the next multiple, for every size and every power of two |
| `Bytes.LeDigit` | third_part/include/flatbuffers/base.h:362-382 | byte i of a stored scalar is its i-th digit to the base 256, lowest first |
| `Bytes.DeLe` | third_part/include/flatbuffers/base.h:362-382 | a scalar read back from its little-endian bytes is the scalar written, if it fits the width |
| `Bytes.LeDe` | third_part/include/flatbuffers/base.h:362-382 | bytes read as a scalar and written again are the same bytes |
| `DownwardVector.RoundUpBitsCorrect` | third_part/include/flatbuffers/flatbuffers.h:1019 | the mask form of rounding up the allocation, which Reallocate computes, reaches the next multiple, short of wrap-around |
| `DownwardVector.VectorDownward.Reallocate` | third_part/include/flatbuffers/flatbuffers.h:1013-1028 | after growing, both stacks hold the same bytes and there is room for the requested length between them |
| `DownwardVector.VectorDownward.EnsureSpace` | third_part/include/flatbuffers/flatbuffers.h:904-911 | the requested room is there and neither stack has changed |
| `DownwardVector.VectorDownward.Push` | third_part/include/flatbuffers/flatbuffers.h:949-951 | the bytes are in front of the data; scratch is unchanged |
| `DownwardVector.VectorDownward.Fill` | third_part/include/flatbuffers/flatbuffers.h:967-970 | that many zero bytes are in front of the data; scratch is unchanged |
| `DownwardVector.VectorDownward.Pop` | third_part/include/flatbuffers/flatbuffers.h:978 | the front bytes of the data are gone and the rest is unchanged |
| `DownwardVector.VectorDownward.ScratchPush` | third_part/include/flatbuffers/flatbuffers.h:959-963 | the bytes are at the end of scratch; the data is unchanged |
| `DownwardVector.VectorDownward.ScratchPop` | third_part/include/flatbuffers/flatbuffers.h:979 | the last bytes of scratch are gone; the data is unchanged |
| `DownwardVector.VectorDownward.ClearScratch` | third_part/include/flatbuffers/flatbuffers.h:864 | the scratch is empty; the data is unchanged |
| `DownwardVector.VectorDownward.WriteAt` | third_part/include/flatbuffers/flatbuffers.h:947 | a write through an address counted from the end patches exactly those bytes of the data |
| `DownwardVector.Replay` | third_part/include/flatbuffers/flatbuffers.h:904-979 | any series of operations, through any number of reallocations, leaves the one array holding the data and the scratch that two separate stacks would hold |
| `DownwardVector.EndOffsetsStable` | third_part/include/flatbuffers/flatbuffers.h:947 | an address counted from the end names the same bytes after any pushes, pops and patches, so long as none pops or patches below it |
| `DownwardVector.StacksIndependent` | third_part/include/flatbuffers/flatbuffers.h:904-979 | the data after a run is that of its data operations alone, and the scratch that of its scratch operations alone |
| `FlatBufferBuilderImpl.FlatBufferBuilder.PreAlign` | third_part/include/flatbuffers/flatbuffers.h:1438-1441 | the builder's state, decoded from its buffer and scratch bytes, is the specified one |
| `FlatBufferBuilderImpl.FlatBufferBuilder.PushElement` | third_part/include/flatbuffers/flatbuffers.h:1268-1274 | padding and little-endian bytes are in front as specified, and the size is returned |
| `FlatBufferBuilderImpl.FlatBufferBuilder.ReferTo` | third_part/include/flatbuffers/flatbuffers.h:1317-1323 | the result is the distance from the place of the next offset to the object |
| `FlatBufferBuilderImpl.FlatBufferBuilder.TrackField` | third_part/include/flatbuffers/flatbuffers.h:1283-1288 | the scratch bytes decode to the recorded fields plus the new one |
| `FlatBufferBuilderImpl.FlatBufferBuilder.AddElement` | third_part/include/flatbuffers/flatbuffers.h:1291-1296 | a default value is skipped unless defaults are forced, anything else is pushed and tracked, as specified |
| `FlatBufferBuilderImpl.FlatBufferBuilder.AddOffset` | third_part/include/flatbuffers/flatbuffers.h:1298-1301 | the relative offset is pushed and tracked, as specified |
| `FlatBufferBuilderImpl.FlatBufferBuilder.WriteVtable` | third_part/include/flatbuffers/flatbuffers.h:1361-1381 | the loop over the tracked fields in scratch leaves exactly the specified vtable in front and takes the fields off scratch |
| `FlatBufferBuilderImpl.FlatBufferBuilder.FindShared` | third_part/include/flatbuffers/flatbuffers.h:1387-1398 | the loop over old vtables finds the first one with the same bytes, or none if there is none |
| `FlatBufferBuilderImpl.FlatBufferBuilder.EndTable` | third_part/include/flatbuffers/flatbuffers.h:1350-1412 | the whole operation, with sharing or without, yields the specified state and table position, of which `TableLayout.SharesExactly` and `BuilderRoundTrip.EndTableReads` say what they are |
| `FlatBufferBuilderImpl.FlatBufferBuilder.CreateString` | third_part/include/flatbuffers/flatbuffers.h:1452-1459 | the specified state and position |
| `FlatBufferBuilderImpl.FlatBufferBuilder.CreateVector` | third_part/include/flatbuffers/flatbuffers.h:1618-1623 | the loop from the last element to the first yields the specified state and position |
| `FlatBufferBuilderImpl.FlatBufferBuilder.Finish` | third_part/include/flatbuffers/flatbuffers.h:2002-2017 | the specified final buffer, with its alignment and root offset; scratch is empty and the remembered vtables are gone |
| `BuilderRoundTrip.PreAlignFacts` | third_part/include/flatbuffers/flatbuffers.h:1438-1441 | the padding is zero bytes, fewer than the alignment, none if none are needed, and after it the size fits |
| `BuilderRoundTrip.PushElementFacts` | third_part/include/flatbuffers/flatbuffers.h:1268-1274 | a pushed scalar sits at an end-offset divisible by its size, reads back, and moves nothing that was there |
| `BuilderRoundTrip.PushOffsetFacts` | third_part/include/flatbuffers/flatbuffers.h:1276-1279 | a stored offset leads to the object it was given |
| `BuilderRoundTrip.CloseInv` | third_part/include/flatbuffers/flatbuffers.h:1382-1408 | closing a table, shared or not, keeps every remembered vtable complete in the buffer and moves nothing that was there |
| `BuilderRoundTrip.CloseReads` | third_part/include/flatbuffers/flatbuffers.h:1382-1408 | reading any field offset gives the new table's own slot, whether its vtable was kept or popped for an old one |
| `BuilderRoundTrip.EndTableReads` | third_part/include/flatbuffers/flatbuffers.h:1350-1412 | after EndTable the accessor finds each field where it was added, and 0 for a field that was not |
| `TableLayout.SharesExactly` | third_part/include/flatbuffers/flatbuffers.h:1385-1408 | with sharing on and an equal vtable remembered, closing a table adds no byte and no vtable and the table points at the equal one; otherwise its own is written in front and remembered |
| `TableLayout.WriteShares` | third_part/include/flatbuffers/flatbuffers.h:1385-1401 | with sharing on, writing any tree leaves no two equal vtables in the buffer |
| `TableLayout.VtableHeader` | third_part/include/flatbuffers/flatbuffers.h:1361-1370 | a vtable ends with the last field stored, and its second entry is the size of the table's own data |
| `TableLayout.StringSize` | third_part/include/flatbuffers/flatbuffers.h:1452-1459 | a string takes its bytes, the terminator, the length and at most three bytes of padding |
| `TableLayout.VectorSize` | third_part/include/flatbuffers/flatbuffers.h:1618-1623 | a vector takes its elements, the length and at most three bytes of padding |
| `TableLayout.FinishSize` | third_part/include/flatbuffers/flatbuffers.h:2002-2017 | finishing adds the root offset and less padding than the largest alignment |
| `TreeRoundTrip.ClosedTableHolds` | third_part/include/flatbuffers/flatbuffers.h:1341-1412 | a table with any distinct fields reads back: values added, defaults for fields omitted or equal to the default, pointers to the objects given |
| `TreeRoundTrip.CreateStringHolds` | third_part/include/flatbuffers/flatbuffers.h:1452-1459 | a string reads back with its length, bytes and terminating zero |
| `TreeRoundTrip.CreateVectorReads` | third_part/include/flatbuffers/flatbuffers.h:1618-1623 | Get(i) leads to the i-th object although the elements were pushed last to first |
| `WireValue.HoldsGrow` | third_part/include/flatbuffers/flatbuffers.h:108-116 | whatever is prepended later, every accessor reads the same tree from the same end-offset |
| `TreeWriter.WriteHolds` | third_part/include/flatbuffers/flatbuffers.h:1341-1623 | writing any tree on any builder state, earlier tables and shared vtables included, makes it readable at its position |
| `FinishedBuffer.FinishRoot` | third_part/include/flatbuffers/flatbuffers.h:2002-2017 | GetRoot finds the object passed to Finish |
| `FinishedBuffer.HoldsAligned` | third_part/include/flatbuffers/flatbuffers.h:2005-2008 | once the size is a multiple of the largest alignment, what is aligned from the end is aligned from the start |
| `FinishedBuffer.EncodeRoundTrip` | third_part/include/flatbuffers/flatbuffers.h:1350-1412 | every tree, with or without forced defaults and vtable sharing, is read back from the finished buffer's root, with every scalar aligned to its size and left out exactly if it equals its default and defaults are not forced |
| `TreeFits.EncodeSucceeds` | third_part/include/flatbuffers/flatbuffers.h:1365-1367 | the 64 KiB assertion is never hit by a tree whose tables have at most 4000 fields |
| `VerifierAccepts.TableAccepted` | flatbuffer/net_generated.h:670-682 | a built table of the schema passes its generated Verify, and the counters have grown by exactly the tables below it |
| `VerifierAccepts.BuiltMessagesPass` | third_part/include/flatbuffers/flatbuffers.h:2271-2293 | every root message of the schema that fits the limits passes verification once built, alignment checks included |
| `Messages.LogMessageVerifies` | transaction/dbservice/dbtm.cc:261-284 | a kLog buffer passes verification, which counts two tables and one for each entry |
| `Messages.DbtlMsgRoundTrip` | transaction/dbservice/dbtm.cc:261-284 | the log store reads from a kLog buffer exactly the command, number and entries sent, in order |
| `Messages.DbMsgRoundTrip` | transaction/dbtl/logplayer.cc:49-70 | a replica reads from a DbMsg buffer exactly the number and entries played, in order |
| `MessageVerifier.TableStartSafe` | third_part/include/flatbuffers/flatbuffers.h:2256-2268 | if the table start is accepted, no field offset of the table can be read outside the buffer, wrap-around of the vtable address included |
| `MessageVerifier.FieldSafe` | flatbuffer/net_generated.h:766-774 | one checked field never reads outside, and if accepted its accessor and all it leads to are safe |
| `MessageVerifier.TableSafe` | flatbuffer/net_generated.h:670-682 | a generated Verify on any bytes never reads outside; if true, every accessor of the table and of everything below it stays inside, and the counters are within limits |
| `MessageVerifier.BufferSafe` | third_part/include/flatbuffers/flatbuffers.h:2271-2293 | the same from the root of a buffer, unions included |
| `VerifierExact.TableExact` | flatbuffer/net_generated.h:670-682 | a generated Verify accepts a table if and only if its vtable, fields, strings, vectors and tables below are in place and aligned and their number and nesting are within the limits, and then has counted exactly those tables |
| `VerifierExact.BufferExact` | third_part/include/flatbuffers/flatbuffers.h:2271-2293 | the same from the root of a buffer |
| `MessageVerifier.SafeExactlyWhenAligned` | third_part/include/flatbuffers/flatbuffers.h:2170-2173 | no buffer makes the verifier read outside if and only if alignment is checked |
| `MessageVerifier.OddVtableFaults` | third_part/include/flatbuffers/flatbuffers.h:2264-2267 | without the check, a concrete buffer with an odd vtable size makes it read outside |
| `Participant.DataGood` | transaction/dbservice/dbservicemain.cc:38-45 | kData before the commit keeps a participant in one of its states and requests an LSN only when nothing is in flight |
| `Participant.CommitGood` | transaction/dbservice/dbservicemain.cc:46-58 | kCommit finds its entry and keeps a participant in one of its states |
| `Participant.CheckGood` | transaction/dbservice/dbtm.cc:89-141 | the local check finds its entries; a conflict is recorded, reported as failure and voted, a clean check is recorded and voted, or logged with all that was received if nobody else takes part |
| `Participant.DecisionGood` | transaction/dbservice/dbtm.cc:169-186 | the decision finds the waiting transaction and leads to its log or its failure |
| `Participant.LogGood` | transaction/dbtl/dbtl.cc:72-107 | storing, playing and answering carry the received entries and end with one success report |
| `Participant.DeliverGood` | transaction/dbservice/dbservicemain.cc:62-85 | every delivery finds what it dereferences and keeps a participant in one of its states; an LSN that is in stays |
| `Gtm.VoteCounted` | transaction/gtm/gtm.cc:44-70 | votes in plus votes missing are n throughout; the answer goes out with the n-th vote and not before, to all voters in order, with the OR of the votes, and other transactions are untouched |
| `Gtm.VoteSends` | transaction/gtm/gtm.cc:44-70 | nothing is sent before the last vote; then each voter gets one message, in voting order, a conflict if and only if one of the votes was |
| `Gtm.Broadcast` | transaction/gtm/gtm.cc:54-65 | one message for each entry of the list, in order, with this transaction and this decision |
| `Gtm.Manager.GetTxid` | transaction/gtm/gtm.cc:16-42 | numbers are handed out in order and only a transaction with several servers gets a new entry |
| `Gtm.Manager.JudgeConflict` | transaction/gtm/gtm.cc:44-70 | the table of info objects, updated in place, is the specified one; with the votes counted so far, nothing is sent before the last, and then every voter is sent whether one of the votes was a conflict |
| `DbServiceImpl.Transaction.Append` | transaction/dbservice/dbservice.cc:33-58 | the loops append both sets in order and change nothing else |
| `DbServiceImpl.Transaction.LogData` | transaction/dbservice/dbtm.cc:266-273 | the loop yields the write set in order |
| `DbServiceImpl.DbService.GetReadWriteSet` | transaction/dbservice/dbservice.cc:19-59 | the read set grows by the message's read set and the write set by its write set, the connection is on record, and no other transaction has changed |
| `DbServiceImpl.DbService.OnData` | transaction/dbservice/dbservicemain.cc:38-45 | both sets grow in order and the first data alone enqueues an LSN request, as in Participant.OnData, for every log and history; no other transaction has changed |
| `DbServiceImpl.DbService.OnCommit` | transaction/dbservice/dbservicemain.cc:46-58 | the check is enqueued if a positive LSN is in, else the mark for it is set, as in Participant.OnCommit; no other transaction has changed |
| `DbServiceImpl.DbService.OnLsn` | transaction/dbservice/dbservicemain.cc:70-77 | the LSN is stored and the check enqueued exactly if the mark is set, as in Participant.OnLsn; no other transaction has changed |
| `DbServiceImpl.DbService.RetResult` | transaction/dbservice/dbservice.cc:61-79 | the report goes to the connection on record, the object Dbtm owns is freed and was not freed before, and no table still points to a freed object |
| `DbServiceImpl.DbService.CacheRWSet` | transaction/dbservice/dbtm.cc:188-197 | the kLog message carries the owned transaction's write set |
| `DbServiceImpl.DbService.JudgeLocalConflict` | transaction/dbservice/dbtm.cc:89-141 | on a conflict the failure is reported and the object stays; otherwise it moves from one table to the other; the answer is voted, or the write set logged if clean and alone; no other transaction has changed |
| `DbServiceImpl.DbService.Solve` | transaction/dbservice/dbtm.cc:169-186 | on a conflict the failure is reported, otherwise the owned write set is logged; no other transaction has changed |
| `CommitProtocol.SendAllGets` | transaction/gtm/gtm.cc:54-65 | each of the distinct addressees gets exactly one decision, nobody else any |
| `CommitProtocol.VoteOk` | transaction/gtm/gtm.cc:44-70 | a vote in flight finds its entry; count, distinct voters and all participants' states are kept, through the broadcast |
| `CommitProtocol.NextOk` | transaction/dbservice/dbservicemain.cc:28-86 | every legal step of the whole system succeeds and keeps the invariant over all transactions and participants |
| `CommitSafety.NoFault` | transaction/dbservice/dbservicemain.cc:37-85 | in no legal run does a handler dereference a missing entry |
| `CommitTraces.HistoryIsTrace` | transaction/dbservice/dbservicemain.cc:28-86 | after every run, what each participant has recorded is what the steps show: data brought, commit, LSN answered and when it came, the index's answer, logs, plays and reports |
| `CommitTraces.VoteIsAnswer` | transaction/dbservice/dbtm.cc:107-140 | every vote delivered is the answer that the voter's own index gave before |
| `CommitTraces.AnswerIsExact` | transaction/gtm/gtm.cc:44-70 | at most one answer per transaction, exactly when all have voted, to each participant once, after all checks, a conflict if and only if one of them was answered so |
| `CommitTraces.DecisionIsExact` | transaction/gtm/gtm.cc:54-65 | every decision that reaches a participant came after all checks and is a conflict if and only if one of them was answered so |
| `CommitTraces.AtomicCommitment` | transaction/dbservice/dbtm.cc:89-197 | in a run where the index of one participant answers a check with a conflict, no participant ever sends, stores or is acknowledged that transaction's log, before or after |
| `CommitTraces.ConflictForever` | transaction/dbservice/dbtm.cc:89-197 | after such an answer, in every continuation no participant has logged or played the transaction or reported its success |
| `CommitSafety.ConsistentOutcome` | transaction/dbservice/dbservice.cc:61-79 | no success and failure reported for one transaction, at one participant or across |
| `CommitSafety.ReportsAndFrees` | transaction/dbservice/dbservice.cc:61-79 | at most one report of a clean participant, two of a conflicting one; freed at most once and then in no table |
| `CommitTraces.LogFidelity` | transaction/dbservice/dbservice.cc:47-58 | every log sent, delivered, stored or played in a run is exactly the write sets that its kData brought, in order, and success follows the play |
| `EndToEnd.LogFidelityEndToEnd` | transaction/dbtl/logplayer.cc:38-71 | for every log sent in a run the store reads from the kLog buffer the write sets that all kData brought; if it logs that once, every message of every play and retry, as bytes, gives the replica the number and exactly those write sets |
| `EndToEnd.Replicate` | transaction/dbtl/logplayer.cc:38-71 | the same of the log player's class, over any events |
| `CommitTraces.Handshake` | transaction/dbservice/dbservicemain.cc:37-77 | from the steps: the LSN is asked for once, with the first data, and the check is run or about to run, once, if commit and LSN are in and the LSN is positive or came second, and never otherwise |
| `CommitSafety.ZeroLsnNeverChecks` | transaction/dbservice/dbservicemain.cc:51-57 | after LSN 0 before the commit, no continuation ever enqueues the check |
| `CommitSafety.ZeroLsnHappens` | transaction/dbservice/dbservicemain.cc:70-77 | a concrete legal run from the start has LSN 0 in before the commit |
| `CommitProgress.AtMostTenDeliveries` | transaction/dbservice/dbservicemain.cc:28-86 | no run delivers more than ten items for a participant of a transaction |
| `CommitTraces.Completion` | transaction/dbservice/dbtm.cc:89-197 | once nothing of a transaction is in flight, every check was answered and all participants have reported: success with all that was brought played if no answer was a conflict, failure otherwise |
| `CommitTermination.EveryScheduleFinishes` | transaction/dbservice/dbservicemain.cc:28-86 | from every reachable state with all participants committed and none stuck on LSN 0, every series of deliveries is at most ten for each participant, goes on while something is in flight whatever the answers, and leaves all of them with the outcome reported when nothing is |
| `CommitTermination.CanAlwaysFinish` | transaction/dbservice/dbservicemain.cc:28-86 | from such a state, for every series of conflict answers and LSNs there is a continuation that takes them and ends with all participants having reported |
| `DeadlineQueue.FiresExactlyOnTime` | base/timeWheel.h:119-137 | a pending timer that nobody deletes has fired if and only if the ticks passed its due time, and only once |
| `DeadlineQueue.AbsentNeverFires` | base/timeWheel.h:104-117 | a timer that is not pending and not added never fires |
| `DeadlineQueue.DeletedNeverFires` | base/timeWheel.h:104-117 | after its deletion a timer never fires, and every other one is still pending |
| `DeadlineQueue.FiresInOrder` | base/timeWheel.h:119-137 | of two pending timers, the one added first and due no later fires first, whatever else is added or deleted |
| `TimeWheelImpl.WaitExact` | base/timeWheel.h:97-99 | slot and rotations amount to the timeout if and only if the full rotations fit an int |
| `TimeWheelImpl.LongWaitIsLost` | base/timeWheel.h:97-99 | a concrete longer timeout waits for nothing |
| `TimeWheelImpl.TimeWheel.constructor` | base/timeWheel.h:44-51 | an empty wheel is an empty queue at time 0 |
| `TimeWheelImpl.TimeWheel.AddTimer` | base/timeWheel.h:87-102 | the wheel is the deadline queue with one more timer, due after the wait |
| `TimeWheelImpl.TimeWheel.DelTimer` | base/timeWheel.h:104-117 | the wheel is the deadline queue without that timer; null changes nothing |
| `TimeWheelImpl.RunSlot` | base/timeWheel.h:121-133 | the loop with erasure fires exactly the timers without rotations, in order, keeps the rest in order and takes one rotation off each |
| `TimeWheelImpl.TimeWheel.Tick` | base/timeWheel.h:119-137 | one tick fires exactly what is due, in the order of adding, and every other timer keeps its due time and its slot |
| `TimeWheelImpl.TimeWheel.TakeAllTimeout` | base/timeWheel.h:139-147 | as many ticks as the narrowed difference of the true readings, whatever the clock has wrapped |
| `TimeWheelImpl.ElapsedExact` | base/timeWheel.h:141-146 | the mixed int and unsigned arithmetic gives the narrowed true difference and keeps the stored time congruent |
| `TimeWheelImpl.NoDrift` | base/timeWheel.h:139-147 | over any monotone series of readings the ticks never run ahead, and total the elapsed time if and only if every gap fits an int |
| `TimeWheelImpl.TimeWheel.Start` | base/timeWheel.h:70-78 | over the readings of any number of wake-ups the wheel fires exactly what the total of ticks makes due, and its time advances by the time on the clock if and only if every gap fits an int |
| `TimeWheelImpl.LongGapLosesTicks` | base/timeWheel.h:141-142 | a concrete longer gap runs no tick |
| `LogPlayer.RunIsTrace` | transaction/dbtl/logplayer.cc:38-95 | after any operations the acknowledgements, the log, the connections, the number of plays and each replica's failures are those of the operations |
| `LogPlayer.PlayIsTrace` | transaction/dbtl/logplayer.cc:38-71 | each write and each retry plays all that was written up to then, to exactly the replicas of the first play without an acknowledgement among the operations before |
| `LogPlayer.AckTracking` | transaction/dbtl/logplayer.cc:38-81 | in every run, from the first write on, the unanswered list is exactly the replicas of the first play minus those that the operations acknowledged, each a valid connection |
| `LogPlayer.AckedNeverSent` | transaction/dbtl/logplayer.cc:69-81 | no play by an operation after an acknowledgement goes to that replica |
| `LogPlayer.BoundedRetry` | transaction/dbtl/logplayer.cc:82-95 | one logged transaction over n replicas is played at most 1 + n * maxRetry times; exactly, each play or pending timer is the write or one of the first maxRetry failures of a replica |
| `LogPlayerRuns.Drive` | transaction/dbtl/logplayer.cc:32-98 | the class over any series of events plays a transaction when it is logged or a timer fires; each play carries all that was logged for it by then and goes to exactly the replicas of the first play that have not acknowledged by then; one logged transaction is played at most 1 + n * maxRetry times |
| `LogPlayer.EveryPlayCarriesLog` | transaction/dbtl/logplayer.cc:49-70 | in every run with one write there is a play, and every play and retry carries exactly the data written |
| `LogPlayer.FirstPlayReachesAll` | transaction/dbtl/logplayer.cc:40-47 | the first play goes to all connected replicas exactly if none is connected or nothing was acknowledged before |
| `LogPlayer.EarlyAckSilences` | transaction/dbtl/logplayer.cc:79-81 | a concrete run with an early acknowledgement plays to nobody |
| `LogStore.RemoveId` | transaction/dbtl/logplayer.cc:80 | the list without every occurrence of the index, in order |
| `LogStore.LogPlayer.OnDbConnection` | transaction/dbtl/logplayer.cc:32-36 | one more connection; no transaction's lists change |
| `LogStore.LogPlayer.PlayLog` | transaction/dbtl/logplayer.cc:38-71 | tables set up on the first play, one message to each of the unanswered, by valid index, with the transaction's number and its whole log, other transactions unchanged |
| `LogStore.LogPlayer.Succeeded` | transaction/dbtl/logplayer.cc:79-81 | the replica leaves the list; all indices stay valid; other transactions unchanged |
| `LogStore.LogPlayer.Failed` | transaction/dbtl/logplayer.cc:82-95 | the k-th failure puts one timer with the k-th delay on the wheel, bound to its transaction, unless k exceeds the limit |
| `LogStore.LogPlayer.Tick` | base/timeWheel.h:119-137 | each timer due now sends its transaction's whole log to each replica still unanswered, and the wheel is the queue after the tick |
| `LogStore.LogPlayer.WriteToDisk` | transaction/dbtl/dbtl.cc:72-107 | the log table grows by the entries in order, and the whole of it goes to each unanswered replica |
| `LogStore.DelayFits` | transaction/dbtl/logplayer.cc:89-92 | the delay of the k-th retry is exact on the wheel if and only if k is at most 33 |
| `LogStore.RetryFiresOnTime` | transaction/dbtl/logplayer.cc:89-92 | the k-th retry fires once, right after exactly 1000 * 2^k full ticks |
| `ThreadPool.NextOk` | base/threadPool.h:21-58 | every step of every interleaving keeps the pool's invariant |
| `ThreadPool.FirstInFirstOut` | base/threadPool.h:24-48 | in every interleaving, the tasks workers run followed by those queued are the tasks given to the pool before its stop, in order |
| `ThreadPool.NoLostWakeup` | base/threadPool.h:25-48 | while a worker sleeps, every queued task has a worker about to look at the queue or a notification in flight; never a queued task with all asleep and nothing in flight |
| `ThreadPool.StopEndsSoon` | base/threadPool.h:51-60 | after stop each worker takes up at most one more task, and none sleeps once all are notified |
| `ThreadPool.StopRunsExactly` | base/threadPool.h:21-32 | from a stop to the return of all workers, exactly the first queued tasks are run, as many as workers were entering or asleep; the queue ends empty if and only if it held no more than that |
| `ThreadPool.StopDropsTask` | base/threadPool.h:51-60 | a concrete run stops with a task queued and the only worker inside another |
| `ThreadPool.StoppedProgress` | base/threadPool.h:21-34 | once stopped, every step of a worker brings the workers closer to their return |
| `ThreadPool.StoppedNotStuck` | base/threadPool.h:57-59 | once stopped, while a worker has not returned some worker has a step or the notification of all is to come, so the joins end |
| `FlexWidth.WidthUExact` | third_part/include/flatbuffers/flexbuffers.h:183-193 | the masks find the least width that holds the value |
| `FlexWidth.WidthIExact` | third_part/include/flatbuffers/flexbuffers.h:195-198 | shift and complement find the least signed width that holds the value |
| `FlexWidth.OffsetGrows` | third_part/include/flatbuffers/flexbuffers.h:1436-1444 | an offset never gets smaller as the width doubles |
| `FlexWidth.OffsetFitsWider` | third_part/include/flatbuffers/flexbuffers.h:1436-1444 | an offset that fits its own width fits every wider one, at every smaller index |
| `FlexWidth.OffsetWidth` | third_part/include/flatbuffers/flexbuffers.h:1427-1454 | the loop always finds a width, the least one that holds its own offset |
| `FlexBuilder.Builder.ElemWidth` | third_part/include/flatbuffers/flexbuffers.h:1427-1454 | the element fits the width found, at its index |
| `FlexBuilder.Builder.PickWidth` | third_part/include/flatbuffers/flexbuffers.h:1513-1536 | the one width picked holds the size, the keys and every element at the place it will be written, and no narrower one from the forced minimum on would |
| `FlexBuilder.Builder.WriteOffset` | third_part/include/flatbuffers/flexbuffers.h:1361-1365 | the relative offset is appended; its assertion is the precondition that CreateVector always meets |
| `FlexBuilder.Builder.CreateVector` | third_part/include/flatbuffers/flexbuffers.h:1508-1563 | every element, the size, the keys and the types read back from the bytes written, nothing written before changes, the width is the least, and the vector's own type reads as map, untyped, or the common element type and fixed length |
| `FlexBuilder.Builder.EndVector` | third_part/include/flatbuffers/flexbuffers.h:1085-1091 | the elements leave the stack, one entry takes their place, and from it they all read back |
| `FlexBuilder.ReadsAllAt` | third_part/include/flatbuffers/flexbuffers.h:815-828 | element i is read at i times the width |
| `FlexBuilder.UntypedReads` | third_part/include/flatbuffers/flexbuffers.h:815-821 | the type byte of element i is found behind the elements and gives its type and stored width |
| `FlexBuilder.VectorTypeReads` | third_part/include/flatbuffers/flexbuffers.h:1558-1562 | the type given to a vector reads back through the reader's own functions |
| `FlexBuilder.FixedTypeExact` | third_part/include/flatbuffers/flexbuffers.h:93-119 | a fixed vector's type gives element type and length back if and only if the elements are numbers |
| `FlexBuilder.FixedKeysMisread` | third_part/include/flatbuffers/flexbuffers.h:93-119 | concretely, a pair of keys reads as a triple of integers |
| `Utf8.ToUTF8` | third_part/include/flatbuffers/util.h:469-490 | the shifts and ORs append the shortest encoding and return its length |
| `Utf8.FromUTF8` | third_part/include/flatbuffers/util.h:497-538 | the bit tests decode as specified, never past the terminating zero |
| `Utf8.DecodeEncode` | third_part/include/flatbuffers/util.h:469-538 | whatever follows, an encoded scalar value decodes to itself with its own length |
| `Utf8.EncodeDecode` | third_part/include/flatbuffers/util.h:497-538 | only encodings of scalar values are accepted: nothing overlong, no surrogate, nothing above U+10FFFF |
| `Utf8.DecodeExact` | third_part/include/flatbuffers/util.h:497-538 | accepted if and only if the input begins with the encoding of a scalar value |
| `Utf8.StreamRoundTrip` | third_part/include/flatbuffers/util.h:469-538 | any sequence of scalar values survives encoding and repeated decoding |
| `Utf8.StreamExact` | third_part/include/flatbuffers/util.h:497-538 | any input that decodes is the encoding of what it decodes to |
| `Escape.EscapeString` | third_part/include/flatbuffers/util.h:569-637 | the loop appends the specified text, and succeeds exactly if the input is UTF-8 or need not be |
| `Escape.UnitsValid` | third_part/include/flatbuffers/util.h:587-608 | the input has no raw byte if and only if it is UTF-8 |
| `Escape.EscapeFaithful` | third_part/include/flatbuffers/util.h:569-637 | for every input the output is a JSON string if and only if the input is UTF-8 and no control character goes out raw, and then for exactly its code points, surrogate pairs included |
| `Escape.EscapeLossless` | third_part/include/flatbuffers/util.h:569-637 | for every byte string and both settings, the text gives the input back, single bytes from their two-digit escape |
| `Escape.PlainStaysPlain` | third_part/include/flatbuffers/util.h:583-585 | printable ASCII without quote and backslash goes out unchanged |
| `Escape.ShortExact` | third_part/include/flatbuffers/util.h:575-582 | the two-character escapes are exactly those of JSON without the slash |
| `Escape.RawControlIsNotJson` | third_part/include/flatbuffers/util.h:610-612 | a concrete control character makes the natural output no JSON string |
| `Escape.RawByteIsNotJson` | third_part/include/flatbuffers/util.h:587-602 | a concrete byte that is not UTF-8 makes the output no JSON string |

## Left out

- The conflict index base/hash.h: its answer is an arbitrary boolean in every check.
- Serializability, and LSN values end to end: the LSN delivered is an arbitrary natural number.
- Races inside a handler: handlers are atomic steps; the thread pool is modelled on its own.
- Use of a message after its receive buffer is gone: tasks carry the message's values.
- The GTM's configuration parser, the application's command parsing and the entity service, which forwards.
- Sockets, MySQL, RocksDB, log files, configuration, logging and the main functions.
- Structs, shared strings, vectors of scalars, file identifiers and size prefixes in the FlatBuffers builder.
- Floating point in FlexBuffers and util.h, and big-endian byte order.
- FlexBuffers strings, blobs, scalar vectors and the sorting of map keys: only vectors and the key prefix of maps.
- The epoll loop around the timing wheel; clock readings are parameters.
- Messages.DbtlMsgRoundTrip: for buffers within the 2 GB limit; the other message types follow from EncodeRoundTrip in the same way and would only add easy members.
- TimeWheelImpl.TimeWheel.Tick: callbacks run after the loop over the slot rather than inside it, which is the same for callbacks that do not touch the wheel.
- LogStore.LogPlayer.Failed: the reported id is in the retry table, which the source does not check; delays beyond 64 bits, from the 55th retry on, are not narrowed.
- LogPlayerRuns.Drive: a failure with an id outside the retry table is skipped; the source indexes outside the table.
- DownwardVector.VectorDownward.EnsureSpace: the assertion that the size stays below 2 GB is not in this class; the size is a premise of the theorems about finished buffers.
- DownwardVector.VectorDownward.constructor: the minimum alignment is a power of two; the mask of the source rounds to no other.
- DownwardVector.VectorDownward.Reallocate: sizes from 2^64 on are rounded without wrap-around.
- FlatBufferBuilderImpl.FlatBufferBuilder.PreAlign: alignments up to 8, those of scalars; ForceVectorAlignment with larger ones is not modelled.
- FlatBufferBuilderImpl.FlatBufferBuilder.AddElement: integer scalars; for floating point fields the source's comparison with the default takes -0.0 for 0.0.
- TreeFits.EncodeSucceeds: a sufficient bound on the number of fields; larger tables whose inline data stays below 64 KiB are encoded too.
- TimeWheelImpl.TimeWheel.DelTimer: deleting a timer that has fired changes nothing; in the source its object is already freed.
