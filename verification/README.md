# Verified model of the memory-sharing and host-I/O programs

The repository's programs share host memory between processes through an Ascend memory driver and move
that memory to and from files. This project models their logic in Dafny and proves what the programs are
written to establish. `dafny verify dfyconfig.toml` checks all of it.

What is modelled, by program:

* **`multi_share.cpp`** (`MultiShare*`, `IntList`): one coordinator and any number of workers exchange
  handles over sockets and then run `2 * rounds + 4` barriers that separate owner writes, peer reads,
  unmapping and release. The whole run is a transition system whose steps are single words sent, received,
  written or copied; a worker may throw or be killed at any step, the coordinator may give up at any step,
  and memory that its owner has released may change at will. Safety holds over every run; progress and
  termination over every run without failures.
* **`cache2_hal_aio.cc`**, the engine (`AioEngine`, `AioSafety`, `AioTheorems`, `AioLiveness`,
  `AioEnding`, `AioImages`): the
  submitting thread, the completion thread and the kernel interleave step by step, from `io_setup` to the
  last `close` of the destructor, with every failure and timeout. `AioLiveness` proves that a phase without failures
  passes, `AioEnding` that a failed or timed-out one ends; `AioImages` says what every such run does to
  the files and to the buffer.
* **`cache2_hal_aio.cc`**, the data (`TextRecord`, `TextImage`, `FileTransfer`, `Engines`, `PsyncEngine`,
  `AioTransfer`, `Storage`, `Archive`, `HostMemory`): text records and the buffer image, reads and writes at offsets in any
  order, both engines, and the fill, dump, rename, poison, load, compare loop over a disk whose calls may
  fail, and the buffer's acquisition and release.
* **`ucm_data_strategy`** (`Hal`, `DataStrategy`, `SlotMap`, `CtrlLayout`): the class that acquires driver
  resources with a retry and a rollback, the slot addresses it hands out, what N such processes agree on, and
  the `DESC` lines that carry handles.
* **`host_share.cpp`, `common.hpp`, `cli.hpp`** (`HandOff`, `HostIo`, `AioHelper`, `Pattern`, `Framing`,
  `Decimal`): the two-process hand-off, its I/O tests, the four-request helper, the seeded pattern, and words
  over a byte stream.
* `Alignment`, `Whole` and `Machine` hold the arithmetic: least common multiples, rounding, masks, quotients, and
  the 64-bit word.

Assumptions about the outside, written as contracts or as the moves of a transition system: a reservation is
fresh and disjoint from live ones, physical memory is new on the whole machine when it is created and as large
as asked for, a mapping longer than its memory is refused, and a failing driver call leaves its result unset; memory consists of the pages it was created with; every recommended granularity has a least common multiple with
1 GiB below 2^64 (the code computes it without a check); the kernel completes an accepted request once, with
its own `data` and `obj`, and queues the event before it signals the eventfd; `io_getevents` takes the smaller
of 128 and the events queued; `io_destroy` waits for what is in flight; a read reports no more bytes than the
file has there; a read, a write or a device copy that
reports full success has moved the data, and a failed write leaves the file as it was; memory is
sequentially consistent; a call is interrupted (`EINTR`) or refused (`EAGAIN`) finitely often. The bytes of a
word travel lowest first. The number of read rounds, 2 in the source, is arbitrary here. A device copy of a
block and its readback are one copy, word by word. Worker counts and block sizes are not bounded either.

Where the code needs more than its callers guarantee, the exact condition is proved: a rounded size covers the
data if and only if the addition does not wrap (`Alignment.CoversIffNoWrap`), slots lie inside their
reservation if and only if the size of all of them plus the alignment minus 1 does not wrap
(`SlotMap.SlotsInsideIff`), ranks that fell back to other pages agree on every length if and only if both kinds
of pages are aligned alike (`SlotMap.StridesAgreeIff`); a dump without truncation leaves the
exact image if and only if the file was not longer (`FileTransfer.ExactIffNotLonger`); a published `DESC` line is
read back if and only if the handle is not the reserved value (`CtrlLayout.LineRoundTrip`).

## Model

| member | source | states |
|---|---|---|
| MultiShareTheorems.ActiveWorkersAgree | multi_share.cpp:95-219 | any two workers that are active (neither waiting in a barrier nor failed) have passed the same number of barriers, in every run with any failures |
| MultiShareTheorems.RaceFree | multi_share.cpp:156-211 | no block is written by its owner while another worker reads it; a block is read only while mapped |
| MultiShareTheorems.AcceptedDataIsFresh | multi_share.cpp:186-211 | what a reader accepted for (round, owner) is what that owner wrote in that round |
| MultiShareTheorems.ImagesDistinct | multi_share.cpp:187-196 | images of different rounds or owners differ, as long as rounds * count does not exceed 2^64 |
| MultiShareTheorems.WordsAreTheOnesMeant | multi_share.cpp:133-165 | each word received is the one meant there: handles in rank order, then barrier zeros |
| MultiShareTheorems.QueuesBounded | multi_share.cpp:315-325 | at most one word upwards and `count` downwards is ever in a socket |
| MultiShareTheorems.ReleaseIsSafe | multi_share.cpp:214-226 | a worker past its try block releases only after every worker has unmapped every slice, whatever fails later |
| MultiShareTheorems.ExitedHoldsNothing | multi_share.cpp:220-236 | a worker that has ended, normally, by an exception or killed, has no slice mapped and has given its memory back; a running one has mapped exactly what its place in the program says |
| MultiShareTheorems.FailureIsFinal | multi_share.cpp:220-236 | after any failure, be it an exception, a killed worker, a failing clean-up call or a coordinator that gives up, the run never prints PASS |
| MultiShareTheorems.OwnTestHolds | multi_share.cpp:158-207 | each worker finds its own test patterns unharmed by the others until the first round, and reads every block into a cleared copy |
| MultiShareTheorems.NoFalseAlarm | multi_share.cpp:186-211 | a comparison fails only over memory whose owner has already released it |
| MultiShareTheorems.PassMeansVerified | multi_share.cpp:321-337 | MULTI_RESULT PASS means every reader verified every owner's block in every round against that round's write |
| MultiShareSafety.RunOk | multi_share.cpp:83-237 | the inductive invariant (message counts, block contents, mappings, what an ended worker still holds) holds in every state of every run |
| MultiShareSafety.OwnerHoldsImage | multi_share.cpp:190-208 | while anybody reads a block in a round, its owner's memory holds the complete image of that round |
| MultiShareLiveness.NeverStuck | multi_share.cpp:133-219 | without failures some process can always move until all have left |
| MultiShareLiveness.MoveIsForward | multi_share.cpp:186-219 | every move of a failure-free run raises a bounded measure |
| MultiShareLiveness.TerminatesWithPass | multi_share.cpp:315-337 | a failure-free run that can go no further has passed, and its length is bounded, for every N and every number of rounds |
| IntList.List | multi_share.cpp:20-31 | succeeds on exactly the texts that are int-sized decimal numbers joined by single commas, with those numbers; the numbers of any list written in decimal, leading zeros or not, come back, and an empty item, a non-digit or a number from 2^31 on is refused |
| IntList.SplitJoin | multi_share.cpp:20-31 | splitting at commas inverts joining |
| AioTheorems.MarkedOnce | cache2_hal_aio.cc:262-286 | over every interleaving a request is marked done at most once |
| AioTheorems.PassMeansExactlyOnce | cache2_hal_aio.cc:309-344 | at PHASE PASS each id below `count`, and no other, has completed exactly once, with all bytes and no error, and the kernel holds nothing |
| AioTheorems.WindowHolds | cache2_hal_aio.cc:309-335 | accepted but uncounted requests never exceed `depth`; the unsigned subtraction of the window test never wraps |
| AioTheorems.NoLostWakeup | cache2_hal_aio.cc:234-292 | whenever the completion thread is about to wait and events are queued, the eventfd is readable or a signal is pending |
| AioTheorems.EventsAccepted | cache2_hal_aio.cc:262-272 | the validation never rejects an event of the kernel |
| AioTheorems.TeardownOrder | cache2_hal_aio.cc:194-204 | descriptors are closed and the object is gone only with nothing in flight and the thread ended; in the destructor io_destroy comes first |
| AioTheorems.ClosesAreSafe | cache2_hal_aio.cc:340-349 | no close attempt happens while a request is in flight |
| AioTheorems.EachClosedOnce | cache2_hal_aio.cc:194-204 | on every exit each opened descriptor has had exactly one close attempt and the context one destroy attempt, also when a close on the success path throws |
| AioTheorems.NoSilentEnd | cache2_hal_aio.cc:234-293 | the completion thread ends only when told to stop or with `failed_` set, and never drops an event it has collected |
| AioTheorems.FailureIsFinal | cache2_hal_aio.cc:298-340 | after a failing call of either thread before the last check, or a check past the deadline, the phase never passes |
| AioSafety.RunOk | cache2_hal_aio.cc:206-350 | the inductive invariant (conservation of requests, thread phases, how each thread may end, descriptors) holds in every state of every run |
| AioImages.CompletedOnce | cache2_hal_aio.cc:206-350 | over every interleaving each accepted request is in flight or has been completed by the kernel exactly once |
| AioImages.PassMeansAllMoved | cache2_hal_aio.cc:309-344 | at PHASE PASS the kernel has completed each id below `count` once, no other, and each of them moved the whole slot |
| AioImages.EffectsFit | cache2_hal_aio.cc:219-233 | whatever fails in a run, its opens and completions write only the right pieces in their places |
| AioImages.OthersUntouched | cache2_hal_aio.cc:206-350 | at every step of every run, failing or not, all files but the blocks' are as they were |
| AioImages.PassMeansDumped | cache2_hal_aio.cc:206-350 | for every run of the two threads and the kernel, at PHASE PASS of a dump each file holds its block's image over what was there |
| AioImages.DumpsAgree | cache2_hal_aio.cc:353-399 | any two dumps that pass, by runs of the threads or by either engine, leave the same disk, other files included |
| AioImages.PassMeansLoaded | cache2_hal_aio.cc:219-233 | for every such run of a load, each completion fetching its part from its own block file and offset, at PHASE PASS every block of the buffer is what its file begins with |
| AioImages.LoadsAgree | cache2_hal_aio.cc:353-399 | whenever the files put `x` into the buffer, each run of a load that passes leaves `x`, whatever was in the buffer |
| AioImages.DumpThenLoad | cache2_hal_aio.cc:571-597 | round trip: after any run of a dump and any run of a load that both pass, with renames in between and completions in any order, the buffer is the one that was dumped |
| AioLiveness.StepRank | cache2_hal_aio.cc:234-342 | without failures every step that is no repetition ends the phase, brings the end nearer, or is an idle turn of another actor |
| AioLiveness.RetryKeeps | cache2_hal_aio.cc:237-258 | a call that has to be repeated (EAGAIN, EINTR, nothing accepted, epoll_wait at its time limit) keeps everything and leaves as much work as before |
| AioLiveness.PhasePasses | cache2_hal_aio.cc:297-342 | with fair scheduling, no failure or timeout, and finitely many interrupted or refused calls, the phase reaches PASS |
| AioEnding.SubmitterCloser | cache2_hal_aio.cc:298-340 | once every check throws, each statement of the submitting thread brings it nearer to the end of the destructor |
| AioEnding.LateStepCloser | cache2_hal_aio.cc:194-340 | in a failed or timed-out phase every step brings the end nearer or is an idle turn of somebody nobody waits for |
| AioEnding.PhaseEnds | cache2_hal_aio.cc:194-350 | with fair scheduling, a phase whose checks find a failure or the deadline passed from some step on ends: the thread joined, the context destroyed, the object gone; any outcome of any call, except that io_getevents is interrupted finitely often |
| TextRecord.HeaderFits | cache2_hal_aio.cc:401-417 | the record text stays within 119 of 128 bytes for all accepted options, 13-digit fields included |
| TextRecord.Snprintf | cache2_hal_aio.cc:406-411 | writes what fits and a terminator, returns the full length, leaves the rest of the buffer |
| TextRecord.MakeRecord | cache2_hal_aio.cc:401-417 | returns the header, dots and a line feed, and throws exactly when the header does not fit |
| TextRecord.BytesBounded | cache2_hal_aio.cc:505-516 | the option checks bound the buffer size, so no product wraps |
| TextRecord.FieldsRecompose | cache2_hal_aio.cc:407-411 | block, shard and slot offset recompose to the buffer offset and are in range |
| TextRecord.ParseOfRecord | cache2_hal_aio.cc:401-417 | all five numbers can be read back from a full record |
| TextRecord.RecordsDiffer | cache2_hal_aio.cc:401-417 | full records are equal exactly when iteration and offset are |
| TextImage.FillBuffer | cache2_hal_aio.cc:558-562 | the record loop leaves the image of the iteration, a short last record included |
| TextImage.CheckBuffer | cache2_hal_aio.cc:598-624 | the mismatch count is the number of differing bytes, zero exactly when the buffer is the image; the reports are the first difference of each of the first 16 bad records |
| TextImage.ReportsMean | cache2_hal_aio.cc:609-620 | nothing is reported exactly when nothing differs; the first report is the first differing byte |
| TextImage.StaleDetected | cache2_hal_aio.cc:598-624 | a full record of another iteration or another offset anywhere in the buffer makes the mismatch count positive |
| TextImage.PoisonDetected | cache2_hal_aio.cc:595-607 | a byte that a load has left as the poison, anywhere in the buffer, makes the mismatch count positive |
| TextImage.NoDifferences | cache2_hal_aio.cc:603-607 | the count is zero exactly when the sequences are equal |
| TextImage.DisplayBytes | cache2_hal_aio.cc:419-434 | the loop gives the display of the bytes |
| TextImage.DisplayInverse | cache2_hal_aio.cc:419-434 | a displayed text can be read back to the exact bytes |
| TextImage.DisplayEscapesOnlySpecial | cache2_hal_aio.cc:419-434 | printable bytes other than backslash and quote are shown as themselves, every other byte takes four characters, and the text shown is printable and closes no quotation |
| FileTransfer.AnyOrderLands | cache2_hal_aio.cc:365-397 | any trace of pieces in any order that covers the file leaves the image over what was there |
| FileTransfer.ExactIffNotLonger | cache2_hal_aio.cc:219 | without O_TRUNC the result is the exact image if and only if the file was not longer |
| FileTransfer.EnginesAgree | cache2_hal_aio.cc:353-399 | two covering traces, whatever their pieces, leave the same file |
| FileTransfer.RequestPlaced | cache2_hal_aio.cc:220-233 | file place and buffer place of each request correspond and stay inside block and buffer |
| FileTransfer.RequestsPartition | cache2_hal_aio.cc:220-233 | every byte of every block file belongs to exactly one request |
| FileTransfer.RequestsPartitionBuffer | cache2_hal_aio.cc:220-233 | every byte of the buffer belongs to exactly one request |
| Engines.CompleteDump | cache2_hal_aio.cc:365-397 | a trace that writes every byte leaves every block's image in its file |
| Engines.AnyCompletionOrder | cache2_hal_aio.cc:206-233 | for every completion order of the requests the files are the images |
| Engines.DumpedIsLoaded | cache2_hal_aio.cc:571-597 | round trip: what a dump left is what a load brings back, even if a file was longer before |
| Engines.OneOutcome | cache2_hal_aio.cc:353-399 | a complete dump that touches no other file has one possible outcome |
| Engines.WritePart | cache2_hal_aio.cc:376-382 | one write of a placed piece keeps the dump well-formed at every moment |
| Engines.ReadPart | cache2_hal_aio.cc:376-382 | one read changes just the bytes read, to what the file holds for them |
| PsyncEngine.PsyncDump | cache2_hal_aio.cc:361-399 | the nested loops leave every image for every tensor size that divides the slot, and the very disk that each passing run of the asynchronous engine leaves; it fails if and only if a call fails or comes up short; other files never change; no descriptor stays open on any path |
| PsyncEngine.PsyncLoad | cache2_hal_aio.cc:361-399 | success restores the whole buffer from the files, as each passing run of the asynchronous engine does; it fails only by a failing or short call, or by a file shorter than its block; the files never change; no descriptor stays open |
| AioTransfer.AioDump | cache2_hal_aio.cc:206-350 | the opening loop, requests served in any order and the closing loop leave the same images as the other engine, and the very disk that each passing run of the two threads and the kernel leaves; it fails if and only if a call fails, a request comes up short or the phase is given up; each descriptor is closed once on every path |
| AioTransfer.AioLoad | cache2_hal_aio.cc:206-350 | the same for a load: the whole buffer is restored, to what each passing run of the two threads and the kernel leaves; it fails only for such a reason, or by a file shorter than its block; the files never change |
| AioTransfer.CloseAll | cache2_hal_aio.cc:345-349 | an error while closing still leaves every descriptor closed once |
| Archive.ArchivedDistinct | cache2_hal_aio.cc:565-570 | archived and temporary names of all blocks are pairwise different |
| Archive.CommitStep | cache2_hal_aio.cc:572-594 | a rename of a dumped file keeps every archived file absent or complete |
| Archive.Commit | cache2_hal_aio.cc:572-594 | renames every file unless a call fails; with `--sync`, and only then, each file has been flushed with its whole image before its rename |
| Archive.LoadAndCheck | cache2_hal_aio.cc:595-625 | for any archived content, passing means it is the image of this iteration and a mismatch means it is not; the load goes over a poisoned buffer and fails only by a failing or short call, or by a short file |
| Archive.Iterate | cache2_hal_aio.cc:556-626 | from a state without temporary files to one without, at every disk state archived files are absent or complete images; it passes if and only if no call fails or comes up short |
| Archive.Run | cache2_hal_aio.cc:556-639 | over all iterations and every failure, at every disk state each archived file is absent or one complete image; it passes if and only if no call fails or comes up short, and leaves the last images, or nothing if files are not kept |
| HostMemory.HostMemory.Release | cache2_hal_aio.cc:111-132 | gives back view, handle, range in this order up to the first failure; the fields stay exact; nothing goes from under a view |
| HostMemory.HostMemory.Allocate | cache2_hal_aio.cc:141-172 | at every failure point the fields show exactly what was obtained, all of one size; success gives the data size rounded up for an accepted granularity, on the pages asked for; nothing but a refused call makes it fail |
| HostMemory.HostMemory.Acquire | cache2_hal_aio.cc:529-555 | without a refused call it succeeds, on huge pages unless normal ones are asked for; on `auto` normal pages follow a refused first attempt, and only their refusal, or a failing release, is an error |
| HostMemory.BufferCovered | cache2_hal_aio.cc:156-160 | the rounded size covers the buffer if and only if data size plus alignment minus 1 does not wrap; it never does for the admitted sizes and granularities dividing 1 GiB |
| HostMemory.Life | cache2_hal_aio.cc:529-555 | over both page attempts, the phases and the destructor: nothing is given back while a request is in flight, no range or handle from under a view; without a failing release nothing is left |
| HostMemory.DestroyAllocation | common.hpp:73-91 | one attempt each in order whatever fails; a range or handle goes from under a view only if the unmapping failed |
| Alignment.RoundUpLeast | ucm_data_strategy/data_strategy.cc:186 | without a wrap the divide form is the least multiple that covers the data |
| Alignment.CoversIffNoWrap | ucm_data_strategy/data_strategy.cc:186 | the rounded size covers the data if and only if the addition does not wrap |
| Alignment.StrideLeast | ucm_data_strategy/data_strategy.cc:185-186 | the stride is the least common multiple of 1 GiB and the granularity that covers the data |
| Alignment.StrideCovers | ucm_data_strategy/data_strategy.cc:73 | with a wrapped product as data size, the stride covers the true size if and only if product plus alignment does not wrap |
| Alignment.StrideCoversGib | ucm_data_strategy/data_strategy.cc:185-186 | the same for granularities dividing 1 GiB, where the alignment is 1 GiB |
| Alignment.StrideMisses | ucm_data_strategy/data_strategy.cc:73 | two inputs that miss: 2^31 + 1 slots of 8 GiB get a stride of 8 GiB, one slot of 2^64 - 1 bytes a stride of 0 |
| Alignment.StridesAgree | ucm_data_strategy/data_strategy.cc:185-187 | ranks with any two granularities dividing 1 GiB get the same stride |
| Alignment.MaskRounds | multi_share.cpp:85 | the mask form gives what the divide form gives, wrapping or not |
| Alignment.MaskIsDivide | multi_share.cpp:84-85 | under the size guards nothing wraps, the mask form is the divide form, and every slice lies inside the reservation |
| Alignment.AndMask | multi_share.cpp:85 | and-ing with a complemented low mask subtracts the remainder |
| DataStrategy.Strategy.Reset | ucm_data_strategy/data_strategy.cc:126-163 | one attempt for every resource held: all unmaps, then peer handles, then the owner's, then all ranges; if none fails the driver state is the earlier one |
| DataStrategy.Strategy.LocalSetup | ucm_data_strategy/data_strategy.cc:165-219 | at every failure point exactly what was acquired is on record; success gives memory with the pages asked for and the stride of their granularity; nothing but one refused call makes it fail |
| DataStrategy.Strategy.ImportRank | ucm_data_strategy/data_strategy.cc:268-294 | one peer: import, reserve, map, with the record exact at every failure |
| DataStrategy.Strategy.CrossRankSetup | ucm_data_strategy/data_strategy.cc:221-296 | publishes the owner's handle once, after every process may import it, and maps every peer's memory; it fails only by a refused call, at the end of the descriptors, or for a rank the layout does not know, and then not before the deadline |
| DataStrategy.Strategy.LocalWithRetry | ucm_data_strategy/data_strategy.cc:72-84 | huge pages are asked for first; normal ones only after a call of that attempt was refused and all of it was given back, and always before an error that is no exception; without a refused call the own memory has huge pages and the stride of their granularity |
| DataStrategy.Strategy.Setup | ucm_data_strategy/data_strategy.cc:58-99 | all or nothing: on failure every resource got its one attempt, those of the first page attempt and then those held, each in the order of Reset; if they succeed, the driver is as before and setup may be called again. It fails only by a refused call, at the end of the descriptors or for too many ranks; the own memory has huge pages as long as no call was refused |
| DataStrategy.Strategy.Dispose | ucm_data_strategy/data_strategy.cc:51-56 | the destructor gives everything back in the same order |
| DataStrategy.MappedRecords | ucm_data_strategy/data_strategy.cc:279-291 | mapping one rank keeps every other rank's record valid |
| SlotMap.SetupWires | ucm_data_strategy/data_strategy.cc:58-99 | a successful setup with faithful transport maps every rank's memory, no further than it reaches, for all granularities and all sizes that can be rounded up without a wrap |
| SlotMap.NoAnswers | ucm_data_strategy/data_strategy.cc:299-332 | an object that is not set up, or whose setup failed, gives null for every slot and owns none |
| SlotMap.SlotsInsideIff | ucm_data_strategy/data_strategy.cc:185-186 | after a successful setup every slot of a rank lies inside its reservation if and only if product plus alignment minus 1 does not wrap, for whatever granularity the stride came from |
| SlotMap.GibFits | ucm_data_strategy/data_strategy.cc:185-186 | where all granularities divide 1 GiB, product plus 1 GiB minus 1 not wrapping is enough |
| SlotMap.StridesAgreeIff | ucm_data_strategy/data_strategy.cc:72-84 | a rank that fell back to other pages agrees with the others on the length of every mapping, for all sizes, if and only if the kinds of pages are aligned alike |
| SlotMap.SetUpProcess | ucm_data_strategy/data_strategy.cc:58-99 | one process among N: a successful setup that publishes the handle the others are told is a member of a set-up system |
| SlotMap.SetUpAll | ucm_data_strategy/data_strategy.cc:58-99 | the processes of one machine set up one by one form a set-up system: later ones and memory created elsewhere disturb nothing; if not, one of them was obstructed or has published another handle |
| SlotMap.SystemWires | ucm_data_strategy/data_strategy.cc:250-294 | the memories of N set-up processes are pairwise distinct, and every process maps all of them rank by rank |
| SlotMap.MappedWhole | ucm_data_strategy/data_strategy.cc:268-294 | in a set-up system all processes have one stride, whatever pages they got, and each maps every memory in its whole length |
| SlotMap.PointerMeans | ucm_data_strategy/data_strategy.cc:308-332 | a slot's pointer is non-null, does not wrap, lies inside its reservation and names the slot's bytes, which exist in the owner's memory |
| SlotMap.SlotAnswers | ucm_data_strategy/data_strategy.cc:299-332 | the three queries answer rightly for every slot index |
| SlotMap.LocatesUnique | ucm_data_strategy/data_strategy.cc:308-332 | an address denotes one place only |
| SlotMap.SlotsDisjoint | ucm_data_strategy/data_strategy.cc:308-332 | any two different slots, of one rank or of two, are at disjoint addresses in a process |
| SlotMap.SlotsAgree | ucm_data_strategy/data_strategy.cc:299-332 | in N processes set up on one machine each slot is non-null in exactly one form, all naming the same physical bytes; slots past the end are null |
| SlotMap.SlotsApart | ucm_data_strategy/data_strategy.cc:308-332 | in such a system any two different slots have no physical byte in common and are at disjoint addresses in every process |
| CtrlLayout.Control.SetRankDesc | ucm_data_strategy/ctrl_layout.h:61-68 | publishes one line for a rank in range, nothing otherwise |
| CtrlLayout.Control.GetRankDesc | ucm_data_strategy/ctrl_layout.h:70-106 | returns the handle of the first acceptable line, skips those before it, leaves those after it; reports the end of input exactly when no line was acceptable; with faithful lines the handle is the one published |
| CtrlLayout.LineRoundTrip | ucm_data_strategy/ctrl_layout.h:66-105 | a published line gives its handle to its own rank if and only if the handle is not the reserved value, and nothing to other ranks |
| CtrlLayout.AcceptsDescriptors | ucm_data_strategy/ctrl_layout.h:81-101 | a line gives a rank a handle if and only if it is the tag, that rank and that handle in digits, separated by white space, and nothing else |
| CtrlLayout.PublishedIsRead | ucm_data_strategy/ctrl_layout.h:70-106 | among lines of many ranks the first line of the rank asked for decides |
| CtrlLayout.HonestDelivers | ucm_data_strategy/ctrl_layout.h:66-105 | published lines in any order, repeated and mixed with rubbish, are a faithful transport |
| HandOff.RunKeeps | host_share.cpp:115-178 | the inductive invariant of the two-process hand-off holds in every state of every run |
| HandOff.NeverBoth | host_share.cpp:138-168 | the two processes never touch the buffer at the same time, whatever fails |
| HandOff.ChecksFindTheirSeed | host_share.cpp:139-161 | each check finds the seed the other side last left: 101, 202, 303, 404 |
| HandOff.FreedAfterUnmapped | host_share.cpp:152-168 | on the normal path the creator frees only after the importer has unmapped |
| HandOff.CountsBothSides | host_share.cpp:146-168 | when the creator ends normally it has counted the failed cases of both processes, each once; it reports none exactly if there were none |
| HandOff.NeverStuck | host_share.cpp:138-168 | one of the two can move until both have ended |
| HandOff.MovesGoForward | host_share.cpp:138-168 | every move lowers a well-founded measure, so every run ends |
| HandOff.NoSpuriousFailure | host_share.cpp:138-168 | in every run without a failing call neither side fails, and a run that can go no further has ended well on both sides |
| HostIo.IoTests | host_share.cpp:25-114 | every normal return leaves the buffer filled with the seed and nothing in flight; every exit has given each context one destroy attempt and closed each file; zero failures means all file operations were made, and without a failing call there are none |
| HostIo.FileMode | host_share.cpp:77-108 | any failure pattern ends with the contexts as before; zero failures means five complete transfers, the first read going into a cleared buffer, and happens if and only if no call fails |
| HostIo.Direction | host_share.cpp:85-102 | success means the shared buffer's data went to the file and back, or came from it, each time into a buffer that held something else, and happens unless a call fails |
| HostIo.AclTests | host_share.cpp:28-56 | succeeds if and only if no call fails, and leaves device and buffer equal to the pattern, with nothing queued; the data come back into a cleared buffer |
| AioHelper.AioOperation | common.hpp:106-154 | returns normally if and only if no call fails or reports something else than four full transfers, and then the whole buffer has moved; when it throws nothing is in flight, and a destroyed context is forgotten |
| AioHelper.CheckEvents | common.hpp:138-153 | fails unless the four events are right and name four different requests |
| AioHelper.NoneMissing | common.hpp:138-153 | four right events with different numbers leave no request out |
| Pattern.Fill | common.hpp:53-57 | every word becomes the pattern |
| Pattern.Verify | common.hpp:58-72 | accepts exactly what fill writes for that seed; otherwise points at the first difference |
| Pattern.PatternBits | common.hpp:50-52 | a pattern word differs from the wrapped product exactly in the bits that the seed sets |
| Pattern.PatternPositionsDistinct | common.hpp:50-52 | under one seed all 2^64 positions have different words |
| Pattern.BlocksEqualIffSeedsEqual | common.hpp:50-57 | non-empty blocks are equal exactly when their seeds are |
| Framing.Outbox.SendWord | cli.hpp:16-26 | success has sent exactly the word's bytes, failure a proper prefix, for every splitting and any interruptions; it fails only by a failing call |
| Framing.Inbox.ReceiveWord | cli.hpp:27-40 | a word is delivered only from its own eight consecutive bytes, and always unless a call fails or the stream ends |
| Framing.ReceivedArePrefix | cli.hpp:16-40 | the words received are a prefix of the words sent, wherever the stream was cut |
| Framing.Connection | cli.hpp:16-40 | a sender, a stream cut anywhere and a receiver: the words received are a prefix of the words sent, as many as asked for unless a call fails or the stream ends |
| Framing.DecodeEncode | cli.hpp:18-39 | a word survives its bytes |
| Decimal.ValueOfPad | cache2_hal_aio.cc:408-409 | a zero-padded number reads back as itself |
| Decimal.PadIsTheOnly | cache2_hal_aio.cc:408-409 | the padded text is the only one worth the number that has `width` digits or, if it needs more, no leading zero |

## Left out

- Driver, accelerator and operating-system calls themselves, device initialisation, epoll and socket creation, fork, exec and signals: foreign code, replaced by the assumptions above.
- Logging text, timing, usage text, option loops, CPU affinity, `/proc` and `/sys` reading: output and environment only.
- `device_share.cpp`, `hal_map_probe.cpp`, `hal_host_io.cpp`, `host_uva_share.cpp`: smaller variants of what is modelled.
- HostMemory.Life: runtime initialisation and reset are left out.
- Weak memory ordering, and what a reader sees after a failing owner has released its memory: the source promises nothing there.
- Clocks: a timeout may fire at any check.
- MultiShareTheorems.ImagesDistinct: needs rounds * count at most 2^64, since seeds repeat beyond; the source runs 2 rounds of at most 64 workers.
- DataStrategy.Strategy.Setup: asks for a rank below the number of ranks and at least one slot per rank; the function divides by the slot count and indexes by the rank unchecked, its caller (`ucm_data_strategy/main.cpp:42-47`) checks both.
- SlotMap.SetupWires: needs sizes that can be rounded up without a wrap; the caller checks the product alone, so SlotsInsideIff and Alignment.StrideMisses say when and how the code misses.
- AioTransfer.AioDump: serves requests one after another in any order; the submit window, the threads and the kernel are the runs of AioEngine, and the contract says that each of them that passes leaves the same disk.
- AioTransfer.AioLoad: the same, for the buffer.
- Archive.Run: directories are names in one flat map; `mkdtemp`, `statfs` and `rmdir` are not modelled.
- CtrlLayout.Control.GetRankDesc: the formatted reading follows the classic locale with decimal input.
- HostIo.IoTests: counts buffer lengths in 64-bit words that are a multiple of four, which the size option guarantees.
