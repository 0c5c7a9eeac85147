# A verified model of the torrent client's piece pipeline

This project models the part of a BitTorrent client that decides which bytes to
fetch, stores them, records that they are stored, and serves them; and the
parsers, codecs and tables around it whose fast or incremental form has to agree
with a simple specification. To verify it with Dafny 4.11:
`dafny verify dfyconfig.toml`.

## How the model is organised

| module | what it is |
|---|---|
| `Layout`, `Disk` | files back to back; both disk backends as refinements of one flat, masked byte array |
| `Bitfields`, `Selections` | bitfields in wire order; which pieces a choice of files needs |
| `Manager` | the piece scheduler: a state, its transitions, and a class proved against them |
| `Resume`, `Fsutil` | the resume record and the atomic file replacement |
| `PieceLength` | the three computations of a piece's length |
| `Pipeline`, `PipelineSafety`, `PipelineProgress`, `RestartExample` | coordinator, scheduler, disk and resume file as one state machine with a crash possible between any two disk effects: what it never gets wrong, and what it does record |
| `Swarm`, `SwarmSessions`, `SwarmOwnership`, `SwarmAvailability`, `SwarmExactness`, `SwarmProgress`, `SwarmDelivery` | the coordinator and any number of peer sessions exchanging queued messages |
| `Assembler` | a piece from blocks in any order |
| `Wire`, `WireFormat` | the incremental decoder of peer messages, and their bytes |
| `Bencode`, `BencodeFormat` | depth check, skipper and info extraction against one grammar, and its literal forms |
| `Shaper` | the token bucket, over real numbers |
| `NodeIds`, `Routing`, `RoutingFiling`, `Search`, `SearchRuns` | XOR metric, routing table and iterative search of the DHT |

The main results, each over every run or every input:

* **Crash safety** (`PipelineSafety.CrashSafety`). Power may be lost between any
  two disk effects, any number of times in a run. Every resume record ever saved
  decodes, and each piece it lists has its bytes on stable storage in every file
  selected when it was saved; a resume file found after a crash is one of these
  records, and a restart from it is again the start of a run
  (`PipelineSafety.RestartIsStart`).
* **Progress is recorded** (`PipelineProgress.RecordsTellExactly`,
  `PipelineProgress.WriteIsRecorded`). A piece written to its end is completed until
  a selection change asks for it again; every record saved lists exactly the pieces
  that were completed when its save began, the target shows it from the rename on,
  and a restart completes exactly what the file found lists
  (`PipelineProgress.RestartRestores`).
* **Delivery** (`SwarmDelivery.HandedOutIsCompleted`). A piece handed to a session
  that verifies it is completed once the report had its turn in the queue and the
  piece was written.
* **Serving** (`PipelineSafety.ServingCorrect`). Across any sequence of selection
  changes, a valid request is answered exactly when the file check is over, the
  piece is completed and meets no unselected file, and with exactly that slice of
  the torrent.
* **Ownership** (`SwarmOwnership.ExactOwnership`). Without a selection change, the
  scheduler's holder count equals jobs plus replies plus queued results, for any
  number of sessions.
* **Availability** (`SwarmAvailability.AvailabilityNeverUndercounts`,
  `SwarmExactness.AvailabilityExact`). Through selection changes too, never
  under-counted, and over-counted by exactly the HAVEs for pieces their sender
  already advertised.
* **Scheduler** (`Manager.RunInv`), **bencode** (`Bencode.SkipExact`,
  `Bencode.SkipSound`, `Bencode.DepthCheckExact`, `Bencode.ExtractExact`),
  **chunking independence** (`Wire.ReadStream`), **frames from their bytes**
  (`WireFormat.ParseExact`), **disk refinement** (`Disk.StandardDisk.WritePiece`),
  **search** (`Search.SearchCorrect`, `SearchRuns.AcceptedExact`), **nearness**
  (`NodeIds.LessIsNearer`), **routing** (`Routing.InsertSafe`,
  `Routing.ClosestExact`), **token bucket** (`Shaper.NetBounded`,
  `Shaper.RunExact`), **assembly** (`Assembler.AnswerExact`,
  `Assembler.AskExact`), **resume codec** (`Resume.DecodeImage`,
  `Resume.ImageOfDecoded`).

Five properties one might expect are false of the code. Each has an input that
shows it and its exact condition:

* The skipper and the depth check do not have the same limit: an empty 65th
  container passes one and not the other (`Bencode.LimitsDiffer`). They disagree on
  an encoding exactly when it has one at that depth (`Bencode.LimitsDisagree`).
* Availability is not always the number of sessions advertising a piece: one peer
  sending a HAVE twice is counted twice, and still once after it has gone
  (`SwarmExactness.RepeatedHaveOvercounts`). The count is the number of sessions
  plus the HAVEs for pieces that their sender already advertised, by HAVE or
  BITFIELD, if and only if that sum has stayed within 65535
  (`SwarmExactness.AvailabilityExact`).
* A restart from the resume record is not right for every selection: with one more
  file open, a piece it lists is served with zeros
  (`RestartExample.WiderRestartServesZeros`). It is right if and only if every file
  opened beyond those selected at the save has its bytes of the listed pieces
  (`PipelineSafety.RestartExact`), as any file that meets none of them has
  (`PipelineSafety.FarFileMayOpen`).
* An id is not always stored once in the routing table: ten inserts into an empty
  table store one id twice (`RoutingFiling.SecondCopyReached`). A split misfiles a
  contact exactly when it shares the whole old, nonempty prefix and no more
  (`RoutingFiling.SplitMisfiles`), a stored id gains a copy exactly when the bucket
  before the one holding it has room and lacks it (`RoutingFiling.InsertCopies`), a
  run stores every id at most once if and only if no insert of it meets that
  (`RoutingFiling.RunStoresOnce`), and there is never a third copy.
* The bandwidth bound needs timestamps in order: without, no bound holds
  (`Shaper.LateClocksUnbounded`), and what passes beyond it is at most the rate
  times the backward movement of the clock (`Shaper.NetBounded`).

## Assumptions

* SHA-1 is not modelled: data that passed verification equals the torrent's bytes.
* A run starts with clean caches, with completed pieces that are right for the
  files selected at the start, and with a resume file that is right too. The
  resume record does not store the selection.
* A selection change succeeds, and its refetch set is built from the flags that
  were in force (as the dashboard does, src/ui/dashboard.rs:746-759).
* That availability is never under-counted is stated for at most 65535 sessions at
  once, the range of its counters. Integers that the source keeps in `u32` or `u64`
  are mathematical integers where its own checks exclude overflow.
* Which of several error texts is produced is not modelled.

## Model

| member | source | states |
|---|---|---|
| `PipelineSafety.CrashSafety` | src/core/coordinator.rs:242-264 | in every run, with any number of crashes in it, at every moment: every record ever saved decodes, and each piece it lists has its torrent bytes on stable storage in every file selected when it was saved; a resume file found after a crash is one of these records |
| `PipelineProgress.RecordsTellExactly` | src/core/coordinator.rs:515-521 | in every run, each record saved since its start was made by a save that began in a state with exactly the listed pieces completed and exactly those files selected, was under way until the rename, and was what the target showed after it |
| `PipelineProgress.RenameTells` | src/core/fsutil.rs:40-58 | whenever the history of saves grows, the target now holds the record of a save that lists exactly what was completed when it began |
| `PipelineProgress.BeginSaveTells` | src/core/resume.rs:25-31 | the record of a save decodes to the piece count and exactly the pieces completed when it begins |
| `PipelineProgress.RecordBegun` | src/core/coordinator.rs:254-261 | a record being saved was made when its save began and has not changed since |
| `PipelineProgress.RestartRestores` | src/core/resume.rs:33-42 | a restart completes exactly the pieces that the file found lists, and none without a file |
| `PipelineProgress.WriteIsRecorded` | src/core/coordinator.rs:230-252 | in every run, a piece written to its end is completed from then on, until a crash or a selection change that asks for it again |
| `PipelineProgress.StepCompletes` | src/core/coordinator.rs:123-510 | every step changes the completed pieces by exactly the one it finds intact or finishes writing and those a selection change asks for again |
| `PipelineProgress.CompletedStays` | src/core/manager.rs:168-203 | a completed piece stays completed until a crash or a selection change that asks for it again |
| `PipelineProgress.DoneIsFlushed` | src/core/coordinator.rs:254-263 | when the last wanted piece has been written, a flush and a save follow |
| `PipelineProgress.WriteErrorRequeues` | src/core/coordinator.rs:242-246 | a wanted piece whose write failed gives up one holder and is queued again exactly when nobody else fetches it |
| `PipelineProgress.SwitchTakesEffect` | src/core/coordinator.rs:423-470 | a finished selection change queues exactly the wanted pieces neither completed nor in flight, and a flush follows unless files are being checked |
| `PipelineSafety.RestartExact` | src/core/resume.rs:33-42 | a restart after a crash at any moment, with any selection, is again the start of a run if and only if every file it opens beyond those selected when the record was saved has its bytes of the listed pieces |
| `PipelineSafety.RestartIsStart` | src/core/resume.rs:33-42 | such a restart is again the start of a run, so runs contain any number of crashes |
| `PipelineSafety.FarFileMayOpen` | src/core/manager.rs:47-76 | a file that meets none of the listed pieces may always be opened at a restart |
| `RestartExample.WiderRestartServesZeros` | src/core/resume.rs:18-42 | from a proper start, a restart that opens one more file than the record was saved with serves zeros for a piece the record lists |
| `PipelineSafety.SelectionBridge` | src/core/selection.rs:26-96 | the selection and the refetch set that the selection code computes meet the conditions of a selection change |
| `PipelineSafety.ServingCorrect` | src/core/coordinator.rs:287-319 | across any sequence of selection changes, a valid block request is answered exactly when the file check is over, the piece is completed and no file it meets is closed, with exactly that slice of the torrent |
| `PipelineSafety.ServableIsAnswerable` | src/core/manager.rs:83-86 | the scheduler calls a piece servable exactly when it is completed and no file it meets is closed |
| `PipelineSafety.RequestInPiece` | src/net/session.rs:486-521 | a request the session lets through lies inside its piece and inside the content |
| `PipelineSafety.StepInv` | src/core/coordinator.rs:123-510 | every step of the pipeline keeps the invariant: completed pieces are right in the cache, and on disk unless their file is dirty; every saved record stays true |
| `PipelineSafety.CheckInv` | src/core/coordinator.rs:123-163 | marking a piece found intact by the file check keeps the invariant, with unselected files read as zeros |
| `PipelineSafety.ChunkInv` | src/core/disk.rs:199-224 | each turn of a piece write keeps the invariant: what was written so far is right and its files are dirty |
| `PipelineSafety.WriteErrorInv` | src/core/coordinator.rs:242-246 | a failed write that stored any part of its chunk without marking the file dirty keeps the invariant |
| `PipelineSafety.BeginSaveInv` | src/core/coordinator.rs:254-261 | a record is only begun when every completed byte of a selected file is stable; that it lists exactly the completed pieces is `PipelineProgress.BeginSaveTells` |
| `PipelineSafety.ReleaseFileInv` | src/core/disk.rs:172-197 | releasing a file during a selection change keeps every completed byte of the files still trusted |
| `PipelineSafety.EndSwitchInv` | src/core/coordinator.rs:423-470 | after the scheduler takes the new selection and drops the refetched pieces, every piece still completed is right in every newly open file |
| `PipelineSafety.ChunkIsDiskWrite` | src/core/disk.rs:199-224 | the pipeline's write step is one turn of the disk's own write loop, seen through the flat array |
| `PipelineSafety.FreshStart` | src/core/coordinator.rs:103-118 | every well-formed torrent has a start of a run: nothing completed, nothing stored, any matching selection |
| `PipelineSafety.RunInv` | src/core/coordinator.rs:103-513 | the pipeline invariant holds in every reachable state |
| `SwarmOwnership.ExactOwnership` | src/core/coordinator.rs:200-279 | in every state of every run without a selection change, for any number of sessions, the holder count of an unfinished piece is the number of sessions working on it plus undelivered replies plus queued results, is at most three, and is zero exactly when a wanted piece is queued |
| `SwarmOwnership.NothingIsOrphaned` | src/net/session.rs:699-706 | once all sessions have ended and the queue is empty, every wanted unfinished piece can be handed out again |
| `SwarmDelivery.HandedOutIsCompleted` | src/net/session.rs:265-615 | in every run, a piece that a session takes and verifies is completed once the messages queued before its report and then the report were handled and the piece was written, until a selection change asks for it again |
| `SwarmDelivery.VerifiedIsCompleted` | src/core/coordinator.rs:230-252 | the same from the moment the session verifies the piece |
| `SwarmDelivery.MessageWaits` | src/core/coordinator.rs:113-120 | a queued message moves up by one with each message handled and is not lost before its turn |
| `SwarmDelivery.JobStays` | src/net/session.rs:265-308 | a session that takes a valid piece works on that piece until it finishes or drops it or ends |
| `SwarmProgress.DownloadIsRecorded` | src/core/coordinator.rs:230-252 | in every run, a result that is handled and written leaves its piece completed until a selection change asks for it again |
| `SwarmProgress.StepCompletes` | src/core/coordinator.rs:123-470 | every step changes the completed pieces by exactly the one found intact or downloaded and written and those a selection change asks for again |
| `SwarmProgress.StepAnnounces` | src/core/coordinator.rs:248-252 | a piece is announced exactly when it is found intact, or downloaded while not completed, and meets no unselected file |
| `SwarmProgress.CompletedStays` | src/core/manager.rs:168-203 | a completed piece stays completed until a selection change asks for it again |
| `SwarmProgress.RequestAnswered` | src/core/coordinator.rs:200-214 | a work request is answered with nothing while files are checked or the torrent is paused, and else by the scheduler for what the peer has |
| `SwarmOwnership.TakeReplyInv` | src/net/session.rs:265-308 | a session taking its reply, or refusing a piece without usable length or hash, keeps the account exact |
| `SwarmOwnership.DropJobInv` | src/net/session.rs:336-344 | dropping a job because its piece was announced as completed keeps the account exact |
| `SwarmOwnership.DownloadedInv` | src/core/coordinator.rs:230-274 | handling a downloaded piece, written or not, already completed or not, keeps the account exact |
| `SwarmOwnership.FinishJobInv` | src/net/session.rs:591-615 | a finished piece, verified or not, turns the session's claim into one queued result |
| `SwarmOwnership.RequestInv` | src/core/coordinator.rs:200-214 | answering a work request turns one new holder into one undelivered reply |
| `SwarmOwnership.FailedInv` | src/core/coordinator.rs:275-279 | a failed piece gives up exactly one holder |
| `SwarmOwnership.EndInv` | src/net/session.rs:699-717 | a session that ends hands its job back |
| `SwarmOwnership.RunInv` | src/net/session.rs:265-717 | the ownership invariant holds in every state of every run without a selection change |
| `SwarmSessions.StepManager` | src/core/coordinator.rs:200-470 | every step of the swarm, selection changes included, keeps the scheduler's invariant |
| `SwarmSessions.StepSessions` | src/net/session.rs:265-308 | every step keeps the bookkeeping of requests and replies: a waiting session has exactly one request queued and no job |
| `SwarmSessions.RunBase` | src/core/coordinator.rs:103-513 | both hold in every state of every run |
| `SwarmAvailability.AvailabilityNeverUndercounts` | src/core/manager.rs:209-229 | in every run, selection changes included, with at most 65535 sessions at once: availability together with the queued updates never under-counts the sessions advertising a piece |
| `SwarmExactness.AvailabilityExact` | src/net/session.rs:413-445 | throughout every run, for any number of sessions and through selection changes, the counter of a piece comes to the sessions advertising it plus the HAVEs for it from sessions that already advertised it, if and only if that sum has stayed within 65535; it is then the number of sessions exactly when there was no such HAVE |
| `SwarmExactness.RepeatedHaveOvercounts` | src/core/bitfield.rs:65-71 | a run in which one peer repeats a HAVE: two are counted for one session, and one for none after it has gone |
| `SwarmExactness.StepTracks` | src/core/coordinator.rs:215-229 | every step that keeps the sum in range keeps the counter and its queue leading to it |
| `SwarmAvailability.DrainCounts` | src/core/coordinator.rs:215-229 | handling the whole queue turns a count that is right for what was told into one that is right for what the sessions hold |
| `SwarmAvailability.BitfieldInv` | src/net/session.rs:424-445 | replacing a bitfield withdraws the old one first and keeps the count right |
| `SwarmAvailability.EndInv` | src/net/session.rs:699-717 | a session that ends withdraws exactly what it advertised |
| `Manager.RunInv` | src/core/manager.rs:47-203 | after every sequence of operations, selection changes included: queue, in-flight and completed pieces are disjoint and cover all wanted ones, holders stay in 1..3, counters equal the set sizes, and `is_done` holds exactly when every wanted piece is completed |
| `Manager.ExactlyOnePlace` | src/core/manager.rs:101-203 | a wanted unfinished piece is in exactly one of the queue and the in-flight map, once |
| `Manager.DoneMeansAllCompleted` | src/core/manager.rs:247-249 | comparing the two counters decides whether every wanted piece is completed |
| `Manager.NextWorkInv` | src/core/manager.rs:101-151 | whatever the random tie-breaks, handing out work keeps the scheduler invariant |
| `Manager.WorkIsUseful` | src/core/manager.rs:101-151 | the piece handed out is one the peer has and that is not completed, least available among the queued ones the peer has; a shared one only when the queue is empty, and then with fewest holders and lowest index |
| `Manager.NoWorkMeansNothingToDo` | src/core/manager.rs:101-151 | no work means that each wanted unfinished piece the peer has is in flight, and at the sharing limit when the queue is empty |
| `Manager.ApplySelectionInv` | src/core/manager.rs:168-190 | changing the selection with any refetch set keeps the scheduler invariant |
| `Manager.MarkCompletedInv` | src/core/manager.rs:192-203 | completing any piece, also one unknown or already completed, keeps the invariant; what it changes is `Manager.MarkCompletedExact` |
| `Manager.MarkCompletedExact` | src/core/manager.rs:192-203 | a piece of the torrent is added to the completed ones, is no longer in flight and is counted once if wanted and new; every other piece, the queue and the totals stay, and an index out of range changes nothing |
| `Manager.ApplySelectionExact` | src/core/manager.rs:168-190 | exactly the refetched pieces cease to be completed, pieces in flight stay so, and the queue becomes the wanted pieces neither completed nor in flight, in order |
| `Manager.ReturnWorkExact` | src/core/manager.rs:153-164 | one holder fewer; the piece is queued behind the others exactly when that was the last and it is wanted, and nothing else changes |
| `Manager.InitExact` | src/core/manager.rs:47-76 | the completed pieces are the given ones in range, the queue the other wanted ones in order, and nothing is in flight or available |
| `Manager.ReturnWorkInv` | src/core/manager.rs:153-164 | giving work back keeps the invariant: only the last holder requeues the piece, and only if it is still wanted |
| `Manager.InitInv` | src/core/manager.rs:47-76 | the scheduler built from any list of completed pieces and any selection satisfies the invariant |
| `Manager.TorrentManager.NextWorkFor` | src/core/manager.rs:101-151 | the loops over queue and in-flight map produce one of the specified outcomes and keep the invariant |
| `Manager.TorrentManager.Return` | src/core/manager.rs:153-164 | the new state is the specified one |
| `Manager.TorrentManager.Apply` | src/core/manager.rs:168-190 | exactly the refetched pieces cease to be completed; the new state is the specified one, with recounted totals |
| `Manager.TorrentManager.Complete` | src/core/manager.rs:192-203 | a piece in range is completed, out of flight and counted once if wanted and new; the new state is the specified one |
| `Manager.TorrentManager.AddPeerPieces` | src/core/manager.rs:209-229 | each advertised piece is counted up, saturating at 65535; nothing else changes |
| `Manager.TorrentManager.RemovePeerPieces` | src/core/manager.rs:217-223 | each withdrawn piece is counted down, saturating at 0; nothing else changes |
| `Manager.FindRarest` | src/core/manager.rs:109-133 | the scan finds a least-available queued piece of the peer, or there is none |
| `Manager.FindShared` | src/core/manager.rs:141-150 | the scan finds the in-flight piece with fewest holders, then lowest index, below the sharing limit, or there is none |
| `Layout.PlanFiles` | src/core/disk.rs:20-39 | the extents follow each other from 0 without gap or overlap and have the files' lengths |
| `Layout.Locate` | src/core/disk.rs:155-158 | the binary search finds the one file containing the offset, and fails exactly past the last file; zero-length files never match |
| `Disk.Scatter` | src/core/disk.rs:199-224 | the write loop ends, has the effect of one masked write on the flat array, marks exactly the touched open files, and fails exactly past the end |
| `Disk.Gather` | src/core/disk.rs:226-254 | the read loop returns the masked slice of the flat array, and fails exactly past the end |
| `Disk.StandardDisk.WritePiece` | src/core/disk.rs:199-224 | the disk as a whole changes by one masked write at the piece's offset |
| `Disk.StandardDisk.ReadPiece` | src/core/disk.rs:226-254 | the block read is the masked slice, with zeros for unselected files |
| `Disk.ReadAfterWrite` | src/core/disk.rs:199-254 | any read after a write returns the written bytes where they are stored, the older stored bytes elsewhere, and zeros for the rest |
| `Disk.StandardDisk.Flush` | src/core/disk.rs:162-170 | every file written since the last flush becomes stable, and no file is dirty |
| `Disk.StandardDisk.SetSelection` | src/core/disk.rs:172-197 | handles follow the flags, released files are stable, no byte changes |
| `Disk.StandardDisk.constructor` | src/core/disk.rs:98-153 | files have handles exactly when selected, and none is dirty |
| `Disk.StepExtendsWrite` | src/core/disk.rs:204-221 | one chunk written into its file extends the masked write by exactly that chunk |
| `Disk.WriteFully` | src/core/disk_uring.rs:30-41 | however the kernel splits the transfer, success means all was written and failure that a prefix was |
| `Disk.ReadFully` | src/core/disk_uring.rs:44-55 | however the kernel splits the transfer, success returns exactly the requested bytes |
| `Disk.UringScatter` | src/core/disk_uring.rs:167-192 | with arbitrary short transfers, a successful write meets the flat specification, and a failed one has written a prefix of the data and marked the files of the chunks before the failure |
| `Disk.UringGather` | src/core/disk_uring.rs:194-224 | with arbitrary short transfers, a successful read, also of nothing, meets the flat specification |
| `Bitfields.FromWireAcceptsClean` | src/core/bitfield.rs:23-38 | a payload is accepted exactly when it has the right size and no spare bit is set |
| `Bitfields.SetBitAdds` | src/core/bitfield.rs:65-71 | setting a bit through shift and mask adds exactly that index, and nothing when it is out of range |
| `Bitfields.Canonical` | src/core/bitfield.rs:10-80 | equal members mean equal bytes |
| `Bitfields.IterOnes` | src/core/bitfield.rs:77-79 | the iterator yields exactly the members, in increasing order |
| `Bitfields.FromIndices` | src/core/bitfield.rs:40-46 | the bitfield has exactly the in-range indices |
| `Bitfields.Bitfield.Set` | src/core/bitfield.rs:65-71 | the answer is whether the index is in range, also for a bit already set |
| `Selections.FromFiles` | src/core/selection.rs:26-53 | wanted and unservable are exactly the pieces whose byte interval meets a selected or an unselected file |
| `Selections.PiecesOfFiles` | src/core/selection.rs:56-77 | the pieces are exactly those whose byte interval meets a flagged file |
| `Selections.PiecesToRefetch` | src/core/selection.rs:83-96 | the pieces are exactly those meeting a file that is selected now and was not before |
| `Selections.MeetsRange` | src/core/selection.rs:39-49 | the pieces that a file overlaps are those from its first byte's to its last byte's |
| `Selections.WantedBytesCounts` | src/core/selection.rs:104-112 | the sum is the number of bytes lying in wanted pieces, with the short last piece |
| `Resume.Encode` | src/core/resume.rs:44-53 | the bytes depend only on the piece count and the in-range completed set |
| `Resume.HeaderBytes` | src/core/resume.rs:44-53 | the file starts with `TTRS`, version 2 and the piece count with its low byte first, and has one bit for each piece behind that |
| `Resume.PieceBit` | src/core/resume.rs:44-53 | piece p is bit p mod 8, from the top, of byte p div 8 behind the header |
| `Resume.DecodeImage` | src/core/resume.rs:56-75 | decoding what was encoded gives the completed set, sorted and without repeats, up to 16 Mi pieces |
| `Resume.ImageOfDecoded` | src/core/resume.rs:56-75 | every accepted binary file re-encodes to the identical bytes |
| `Fsutil.AtomicWriteIsAtomic` | src/core/fsutil.rs:40-58 | a crash at any moment leaves the old file or the new one, and the old one until the rename |
| `Fsutil.SaveStepSafe` | src/core/fsutil.rs:40-58 | no single effect, failed or not, changes what a crash reveals; the target changes only with the rename |
| `PieceLength.LengthsAgree` | src/net/session.rs:720-732 | for every index of an accepted torrent the three length computations agree, are positive and stay inside the content; outside it both partial ones say so |
| `PieceLength.LengthsTile` | src/core/bencode.rs:195-201 | the piece lengths sum to the total length |
| `Assembler.BlocksTile` | src/core/assembler.rs:37-63 | blocks are nonempty, follow each other and end with the piece |
| `Assembler.RunHolds` | src/core/assembler.rs:125-155 | after any mix of new, repeated and unexpected blocks the buffer holds the first accepted data at each offset, and the counter is the size of the completed blocks |
| `Assembler.AnswerExact` | src/core/assembler.rs:125-155 | a delivery is refused exactly when it is no block, and completes the piece exactly when it is the last block to come |
| `Assembler.CompleteBytes` | src/core/assembler.rs:147-154 | the buffer handed over has every block, with the first accepted data at every offset |
| `Assembler.CompletesOnce` | src/core/assembler.rs:125-155 | no run completes the piece twice |
| `Assembler.EmptyNeverCompletes` | src/core/assembler.rs:37-63 | a piece of length zero never completes |
| `Assembler.AskExact` | src/core/assembler.rs:78-94 | after any calls, the block asked for is the first that has not come and was not asked for since the last reset, or longer than the timeout ago; nothing is asked for exactly when there is none |
| `Assembler.AskedAgain` | src/core/assembler.rs:78-94 | in every run of calls, a block is asked for again without a reset in between only when the timeout has passed and it has not come |
| `Assembler.BlockFromHistory` | src/core/assembler.rs:78-155 | whether a block is completed and when it was last asked for follow from the calls made |
| `Assembler.PieceAssembler.constructor` | src/core/assembler.rs:37-63 | the loop builds the tiling blocks, none requested or completed |
| `Assembler.PieceAssembler.NextRequest` | src/core/assembler.rs:78-94 | the first block that is neither completed nor requested within the timeout is stamped and returned; with none returned, every block is one or the other |
| `Assembler.PieceAssembler.ClassifyBlock` | src/core/assembler.rs:96-111 | the class tells what adding the block would do |
| `Assembler.PieceAssembler.ResetRequests` | src/core/assembler.rs:119-123 | unfinished blocks count as never requested; nothing else changes |
| `Assembler.PieceAssembler.Add` | src/core/assembler.rs:125-155 | state and answer are the specified ones; request times stay |
| `Wire.ParseAppend` | src/net/wire.rs:63-91 | parsing in two steps is parsing at once, for every stream and every cut |
| `Wire.ReadStream` | src/net/wire.rs:57-91 | feeding a stream in any chunks and draining after each yields the messages and the error of one parse of the whole, and stops at the same byte; what a parse is, from the bytes, is `WireFormat.ParseExact` |
| `WireFormat.ParseExact` | src/net/wire.rs:63-91 | for every byte sequence: a parse waits for the rest of a frame, stops as bad exactly at a length over 1 MiB or a malformed frame, passes over an unknown id, and else takes the message that the bytes stand for, and goes on behind the frame |
| `WireFormat.FirstFrameExact` | src/net/wire.rs:63-91 | when the first frame is incomplete, too long, malformed, unknown or which message, and its size, from the bytes alone |
| `WireFormat.ContentExact` | src/net/wire.rs:125-179 | malformed are id 4 without 4 bytes, id 6 without 12, id 7 under 8 and id 20 without any; unknown are the ids other than 0 to 7 and 20; every other content is the message of its literal layout |
| `WireFormat.SendLayout` | src/net/wire.rs:181-333 | each sent message is one frame with the literal layout of that message |
| `WireFormat.UnknownIdExample` | src/net/wire.rs:176-176 | a PORT frame before an Unchoke is passed over |
| `Wire.RoundTrip` | src/net/wire.rs:181-333 | every sequence of sendable messages decodes back to itself |
| `Wire.SendDecodes` | src/net/wire.rs:125-179 | each sent layout is one frame that decodes to its message, whatever follows |
| `Wire.MessageDecoder.Decode` | src/net/wire.rs:63-91 | one call yields the next message of the pure parse, its error, or nothing; with nothing, the buffer is below 64 KiB + 1 MiB + 4 |
| `Wire.MessageDecoder.Drain` | src/net/wire.rs:63-91 | decoding until nothing is left yields exactly the messages of the pure parse and leaves exactly its unread bytes, also at an error |
| `Wire.MessageDecoder.Compact` | src/net/wire.rs:113-121 | compaction keeps the unread bytes and bounds the buffer |
| `Wire.MessageDecoder.Feed` | src/net/wire.rs:57-59 | the unread bytes are extended |
| `Bencode.SkipExact` | src/core/bencode.rs:357-417 | wherever a value stands and whatever follows, the skipper ends exactly at its end if and only if its depth is within the limit |
| `Bencode.SkipSound` | src/core/bencode.rs:357-417 | on arbitrary bytes, what the skipper accepts is the encoding of a value within the limit |
| `Bencode.DepthCheckExact` | src/core/bencode.rs:97-138 | the depth check accepts an encoding exactly when its nesting is at most 64, and then the skipper reads it to its end |
| `Bencode.LevelWithinNesting` | src/core/bencode.rs:91-138 | the skipper's depth is the nesting or one less |
| `Bencode.LimitsDisagree` | src/core/bencode.rs:357-417 | the skipper reads an encoding that the depth check refuses if and only if its deepest value is an empty 65th container; never the other way round |
| `Bencode.LimitsDiffer` | src/core/bencode.rs:357-417 | 65 nested empty lists are such an encoding |
| `Bencode.DepthCheckSuffices` | src/core/bencode.rs:94-138 | on any bytes that the depth check accepts, well-formed or not, the skipper answers as one without a depth test |
| `Bencode.ExtractExact` | src/core/bencode.rs:281-308 | from any encoded dictionary, with anything after it, exactly the bytes of the first `info` value are returned; missing and too-deep cases included |
| `Bencode.FindInfoSound` | src/core/bencode.rs:281-308 | on arbitrary bytes, a returned slice is one whole value behind the key `info`, with only other entries before it |
| `Bencode.ParseByteString` | src/core/bencode.rs:310-349 | the loop meets the specification of a length-prefixed string, overflow included |
| `Bencode.StrSound` | src/core/bencode.rs:310-349 | what is accepted is a run of digits, a colon and that many bytes |
| `BencodeFormat.DigitsAreDecimal` | src/core/bencode.rs:310-349 | every run of digits is the decimal form of the length read from it behind some zeros |
| `BencodeFormat.DecimalValue` | src/core/bencode.rs:310-349 | the length read from a decimal form is its number |
| `BencodeFormat.InfoInFront` | src/core/bencode.rs:281-308 | behind the literal bytes `d4:info`, exactly the value that stands there is returned, whatever follows |
| `Bencode.SkipBencodeValue` | src/core/bencode.rs:357-417 | the recursive loops compute the specified skip |
| `Bencode.CheckBencodeDepth` | src/core/bencode.rs:97-138 | the scanning loop, with saturating lengths, computes the specified check |
| `Bencode.ExtractInfoSlice` | src/core/bencode.rs:281-308 | the loop computes the specified extraction |
| `Shaper.NetBounded` | src/net/shaper.rs:45-88 | for any interleaving of acquire, give-back and rate changes, net bytes granted never exceed the tokens at the start plus the integral of the rate plus the rate times the backward movement of the clock, which is nothing at non-decreasing times; tokens stay within the burst |
| `Shaper.RunBound` | src/net/shaper.rs:45-88 | what passed plus what is left never exceeds what there was plus what came in |
| `Shaper.RunExact` | src/net/shaper.rs:45-88 | with times in order the account is exact: what passed plus what is left equals what there was plus what came in, less what was cut off at the burst and what a new rate discards |
| `Shaper.GiveBackRestores` | src/net/shaper.rs:81-88 | bytes taken and given back unused can be taken again at once |
| `Shaper.FreshGrants` | src/net/shaper.rs:31-39 | a new limiter grants at once up to a quarter second of traffic, at least 16384 bytes, and everything at rate zero |
| `Shaper.WaitExact` | src/net/shaper.rs:70-73 | a wait longer than a millisecond is the shortest: asking again is granted if and only if it has passed |
| `Shaper.AcquireExact` | src/net/shaper.rs:58-78 | a request is granted exactly when the level covers the smaller of it and one chunk, never more than asked for, and leaves less than one token unless all was granted |
| `Shaper.WaitSuffices` | src/net/shaper.rs:70-73 | retrying after the answered wait with no other traffic is granted |
| `Shaper.LateClocksUnbounded` | src/net/shaper.rs:64-67 | for every rate, every step back of the clock and every number of bytes, some run within that step lets more through |
| `Shaper.Limiter.Take` | src/net/shaper.rs:58-78 | state and answer are the specified ones |
| `Shaper.Limiter.PutBack` | src/net/shaper.rs:81-88 | unused tokens come back, up to the burst |
| `Shaper.Limiter.ChangeRate` | src/net/shaper.rs:45-50 | the tokens are cut to the new burst and the clock restarts |
| `NodeIds.SharedExact` | src/net/dht/routing.rs:8-36 | the leading zeros of the XOR are the length of the longest common bit prefix |
| `NodeIds.LeadingZeros` | src/net/dht/routing.rs:16-27 | the loop counts the zero bits before the first one bit |
| `NodeIds.SortSound` | src/net/dht/routing.rs:171-171 | sorting by distance orders the same elements; what the order is, in terms of bits, is `NodeIds.SortNearestFirst` |
| `NodeIds.SortNearestFirst` | src/net/dht/routing.rs:171-171 | the sorted elements come nearest first: of two different ids, the earlier has the target's bit where they first differ |
| `NodeIds.LessIsNearer` | src/net/dht/routing.rs:4-14 | the derived order of the XORs is nearness: less if and only if at the first bit in which the ids differ, the first has the target's bit |
| `NodeIds.SharingIsNearer` | src/net/dht/routing.rs:8-36 | an id that shares more leading bits with the target is strictly nearer |
| `NodeIds.SortStable` | src/net/dht/routing.rs:171-171 | elements at equal distance keep their order |
| `Routing.InsertSafe` | src/net/dht/routing.rs:129-151 | every insert ends and keeps the table's shape (prefix lengths 0, or 1 to n-1 and n-1 again, n at most 161; at most 8 distinct foreign ids per bucket; last-bucket ids share n-1 bits); contacts are conserved, the new one being added or replacing its own id unless its bucket is full and may not be split |
| `Routing.IdsKept` | src/net/dht/routing.rs:129-151 | no stored id is dropped and none but the inserted one appears |
| `Routing.RunKeeps` | src/net/dht/routing.rs:129-151 | over any run of inserts the shape holds and a stored id stays stored |
| `Routing.SplitInv` | src/net/dht/routing.rs:202-228 | a split below 160 bits keeps the shape; the new last bucket's ids share one more bit |
| `Routing.SplitContents` | src/net/dht/routing.rs:202-228 | a split moves contacts and neither adds nor drops one |
| `Routing.BucketIndexExact` | src/net/dht/routing.rs:176-193 | where an id is looked for, from the bits it shares with the local id |
| `RoutingFiling.SplitMisfiles` | src/net/dht/routing.rs:176-228 | after a split a contact is in the bucket it is looked for in, except exactly when it shares the whole old prefix, no more, and that is not empty |
| `RoutingFiling.StoredAtMostTwice` | src/net/dht/routing.rs:176-228 | in which buckets an id can be, from the bits it shares; never in more than two |
| `RoutingFiling.RunStoresAtMostTwice` | src/net/dht/routing.rs:129-151 | no run of inserts stores an id more than twice |
| `RoutingFiling.RunFiled` | src/net/dht/routing.rs:129-228 | every table that inserts produce has its contacts in the bucket of their shared bits or the one before |
| `RoutingFiling.InsertCopies` | src/net/dht/routing.rs:129-151 | a new id is stored once unless its bucket refuses it; a stored one gains a copy if and only if the bucket before the one holding it has room and lacks it |
| `RoutingFiling.PlaceOthers` | src/net/dht/routing.rs:129-228 | an insert, splits included, leaves the copies of every other id as they are |
| `RoutingFiling.RunStoresOnce` | src/net/dht/routing.rs:129-228 | every id is stored at most once throughout a run if and only if no insert of the run finds its id one bucket behind with room where it is looked for |
| `RoutingFiling.PutCopies` | src/net/dht/routing.rs:95-113 | in any table, inserting where there is room adds one copy exactly when the bucket looked in lacks the id |
| `RoutingFiling.SecondCopyReached` | src/net/dht/routing.rs:202-228 | a concrete run of inserts into an empty table that stores one id twice |
| `Routing.PutOk` | src/net/dht/routing.rs:95-113 | a bucket refuses a contact exactly when it is full of others, and otherwise stays within its bounds and holds the id |
| `Routing.PutLast` | src/net/dht/routing.rs:95-113 | the contact goes behind all others, which keep their order, and a known id takes the new address |
| `Routing.ClosestExact` | src/net/dht/routing.rs:159-174 | the answer comes nearest first by the first differing bit, is as long as asked for and available, and no kept contact left out is nearer than one in it |
| `Routing.AllKeptExact` | src/net/dht/routing.rs:165-170 | the contacts considered are exactly the stored ones that pass the filter |
| `Routing.RoutingTable.Add` | src/net/dht/routing.rs:129-151 | the insertion loop ends in the specified table |
| `Routing.RoutingTable.IndexOf` | src/net/dht/routing.rs:176-193 | the loop finds the specified bucket |
| `Routing.RoutingTable.SplitLast` | src/net/dht/routing.rs:202-228 | the table is split as specified |
| `Routing.RoutingTable.ClosestWhere` | src/net/dht/routing.rs:159-174 | the loop returns the specified contacts, those of `Routing.ClosestExact` |
| `Search.SearchCorrect` | src/net/dht/search.rs:69-185 | in every run from at most 50 distinct contacts: the short list is nearest first and the up to 50 nearest, by the first differing bit, of the ids accepted so far, no id is queried twice despite the cut, and there are at most two steps per distinct id |
| `SearchRuns.AcceptedExact` | src/net/dht/search.rs:125-184 | in every run, the accepted ids are those it started with and the usable contacts of the answers that came from listed addresses |
| `SearchRuns.StartAccepts` | src/net/dht/search.rs:47-58 | it starts with exactly the ids of the contacts it is given |
| `SearchRuns.AsksNearest` | src/net/dht/search.rs:76-114 | the id asked next is the nearest listed one not yet asked |
| `SearchRuns.ThreeInFlight` | src/net/dht/search.rs:76-114 | never more than three queries are in flight |
| `SearchRuns.FailsWithoutAnswer` | src/net/dht/search.rs:125-184 | without an answer the first entry at the address has failed, and nothing else changes |
| `SearchRuns.AnswersQueried` | src/net/dht/search.rs:125-184 | with an answer it counts as queried, if it stays among the nearest |
| `Search.ListedWereAsked` | src/net/dht/search.rs:125-135 | while each address belongs to one id, every listed id that is not unqueried was asked, so a complete search has asked all of the closest |
| `Search.NeverBack` | src/net/dht/search.rs:155-175 | an id that fell off the full list does not come back |
| `Search.MergeClosest` | src/net/dht/search.rs:155-175 | merging, sorting and cutting keeps the list the nearest of all accepted |
| `Search.StepInv` | src/net/dht/search.rs:69-185 | every query and every finished query keeps the invariant; an unqueried entry has never been asked |
| `Search.StuckMeansComplete` | src/net/dht/search.rs:116-123 | the search can go on exactly while something is in flight or unqueried |
| `Search.StartInv` | src/net/dht/search.rs:47-56 | the start from at most 50 distinct contacts satisfies the invariant |
| `Search.DhtSearch.QueryNext` | src/net/dht/search.rs:76-114 | the first unqueried entry is marked and asked, whether or not the query could be sent |
| `Search.DhtSearch.Handle` | src/net/dht/search.rs:125-184 | a finished query is matched by address and has the specified effect |
| `Search.DhtSearch.Run` | src/net/dht/search.rs:69-185 | the whole loop ends for every network, with nothing in flight and nothing unqueried |

## Left out

- The coordinator's loop and the sessions' methods are state machines over their steps, not classes: a method cannot be interrupted by a crash or by another session, and those interleavings are the point.
- Task abort (`JoinHandle::abort`, src/net/swarm.rs:228-230) skips `finish` and is excluded from the accounting; so is a panic of the hashing task, which loses a job without a message (src/net/session.rs:593-599).
- A change of a session's job or bitfield and the message about it are one step; in the source a message whose send is pending (src/net/session.rs:428-443, 591-615, 699-717) is in no queue yet, and the accounts count it as queued.
- When two listed ids report one address, a reply is credited to the first of them, which may then end `Queried` without having been asked; `Search.ListedWereAsked` is stated for addresses that belong to one id.
- Ownership is stated for runs without a selection change: after a refetch, a stale completion broadcast can drop a fresh job (src/net/session.rs:338-344).
- A selection change that fails half way can leave the disk partly switched (src/core/coordinator.rs:442-450); only successful ones are modelled.
- A write of the standard disk is taken as done when `write_all` returns; `tokio::fs::File` hands it to a background thread, so an error of the system can surface with a later operation.
- Creating and preallocating a file is taken as durable at once, and a file that was never created reads as zeros.
- After the final flush the pipeline model may go on; its runs include all real ones.
- `flush` and `set_selection` of the io_uring disk repeat those of the standard disk.
- Resume.DecodeImage: the piece count is a 32-bit vector; the legacy JSON reader behind the missing magic is not modelled.
- Shaper.NetBounded: real numbers stand for `f64` and durations are not rounded to nanoseconds; a rate of zero means unlimited and has no bound.
- Wire.RoundTrip: the asynchronous sending and `next` are not modelled, only the byte layouts.
- NodeIds.SharedExact: shifting by a computed amount is written as a table of literal shifts.
- `in_flight_count`, `Bitfield::count`, progress percentages, timeouts, upload slots, choke flags and telemetry would only add easy members.
- Metadata download, peer exchange, magnet links, handshakes, trackers, sockets, the DHT actor and server, path sanitising and the dashboard are not part of this model.
- Tokens and `announce_peer` of the search, and the peers it reports to the swarm, are not modelled.
