# Sunshine: a verified model of its core

Sunshine streams a desktop to Moonlight clients. This project models the parts of it that can be stated without an
operating system, a codec or a network, in Dafny 4.11, and proves what the repository relies on them for. Code that
updates state is modelled by classes and methods over mutable fields and arrays. Each of those methods is proved
against a specification function, and the lemmas prove what that function means over whole runs.

| File | Models |
|---|---|
| `TaskPool.dfy`, `TaskTies.dfy` | the timer scheduler, and which of several timers due at one time fires first, `src/task_pool.h` |
| `ThreadPool.dfy`, `PoolProgress.dfy`, `QuietTimers.dfy` | its worker threads as interleaved steps, how soon they run what is queued, and timers set without a notification, `src/thread_pool.h` |
| `InputBatching.dfy`, `BatchLaws.dfy` | the input queue, its merging of packets, and what the host sees of it, `src/input.cpp` |
| `GamepadIds.dfy`, `BatchedPads.dfy` | gamepad ids shared by all sessions, alone and behind the input queue, `src/input.cpp` |
| `Packetizer.dfy`, `FecBlocks.dfy`, `FecEncode.dfy`, `FecShards.dfy`, `Framing.dfy` | one video frame: slices, FEC blocks, shards, headers, and back, `src/stream.cpp` |
| `BatchedSend.dfy` | many packets in one system call, `src/platform/linux/misc.cpp` |
| `Numbering.dfy` | sequence numbers and IVs of a session, `src/stream.cpp` |
| `Pacing.dfy` | batches and their pacing, `src/stream.cpp` |
| `Config.dfy`, `ConfigFile.dfy`, `ConfigLines.dfy` | the configuration file, read and written, with either line ends, `src/config.cpp`, `src/confighttp.cpp` |
| `EnvExpand.dfy`, `PrepUndo.dfy`, `LaunchRuns.dfy` | `$`-expansion, prep and undo commands, what a launch runs and returns, `src/process.cpp` |
| `Pairing.dfy`, `PairingClient.dfy` | the four phases of pairing, for the server and for a client, `src/nvhttp.cpp` |
| `ImagePool.dfy` | the capture thread's pool of images, `src/video.cpp` |
| `SharedRef.dfy` | the reference-counted shared object, `src/thread_safe.h` |
| `Basics.dfy`, `Arithmetic.dfy` | shared vocabulary and facts about quotients |

`dafny verify dfyconfig.toml` verifies the whole project.

## Where the code differs from what it says

Each of these is a lemma, and where a promise fails in some cases, its exact condition is proved.

* Relative mouse and scroll packets are merged only if their sum does *not* fit 16 bits, and then wrongly: the overflow
  test in `src/input.cpp:1261` is the opposite of its comment (`InputBatching.AddingIsMergedOnlyWhenWrong`).
* A touch on one controller's touchpad can be overtaken by a later move on another's, since packets of another controller are
  passed over before the test for state changes at `src/input.cpp:1444` (`BatchLaws.TouchpadsOvertake`). On each touchpad,
  and everywhere else, such changes arrive in order (`ChangesArrive`, `StagesArriveInOrder`).
* The advertised FEC percentage does not always give back the number of parity shards that was sent
  (`FecEncode.PercentageFaithful`, `PercentageCanMislead`), and a raised one can spill out of its 8-bit field
  (`PercentageFitsField`, `SpilledPercentage`).
* `delay` to an earlier time can unsort the timers (`TaskPool.RescheduleSorted`, `DelayToEarlierCanUnsort`).
* Timers of equal time do not fire latest-pushed first once one of them was delayed: postponing an old timer to the time of
  a newer one makes the old one fire first (`TaskTies.PostponingBreaksPushOrder`, and `PushOrderStep` for exactly when the
  push order survives). What holds is that the latest *placed* fires first, placed meaning pushed or delayed
  (`TaskTies.PostponingPopsLatestPlaced`, and `PlacedStep` for exactly when).
* `pushDelayed` with a ready-made pair notifies nobody. That is harmless if a queued timer fires no later
  (`QuietTimers.CourteousCallersWakeEverybody`); otherwise, whatever is queued, its timer can be slept through
  (`QuietTimers.QuietPushIsSleptThrough`). The same goes for a `delay` to before all timers (`DelayIsSleptThrough`).
* A frame of more than 4 * 1023 packets has a block whose shards do not fit the 10-bit index
  (`FecBlocks.AllFitFieldExactly`). The code's warning comes three bytes too late (`WarningIsLate`, `UnnoticedLargeFrame`).
* `pin` writes the name into the first session after its first phase, which removes that session if it is past that phase
  or has a short salt (`Pairing.PinOutlivesSession`); a second PIN for one session is enough (`SecondPinOutlivesSession`).
* A list without its closing bracket is reported if and only if its opening bracket is the last character of the file.
  Otherwise everything from that bracket on becomes its value (`ConfigFile.MissingBracket` for any file, `UnclosedList` for
  saved ones), contrary to the comment at `src/config.cpp:675`. `ReportedExactly` says when the report means what it says,
  `OneUnclosedFile` and `NextEntryLost` give a file for each side.
* A saved entry is read back exactly if it is clean. saveConfig does not check that (`ConfigFile.RoundTrip`, and
  `CommentInName` for a name that is not read back).
* The element of a `shared_t` whose construct function fails is never destroyed (`SharedRef.FailedElementsLeak`,
  `FailedRun`).
* Merging controller packets can lose a pad: if no id is free, a packet that would find one after another controller has
  left is merged into one that came before. It never happens if and only if there is a free id for each empty slot that
  the client uses, or neither a free id nor a pad in any of them (`BatchedPads.BatchingKeepsPadsExactly`); a client alone
  always has room (`AloneHasRoom`).
* `send_batch` returns true although packets are missing if `poll` fails in its second loop
  (`BatchedSend.FailedPollIsSuccess`; `AnswerIsHonest`: only then). If it fails midway, what had left is sent again
  (`BatchedSend.SendRange`).

## Assumptions

* `sizeof(video_packet_raw_t) == MAX_RTP_HEADER_SIZE + sizeof(NV_VIDEO_PACKET)`: one number `h` stands for it, and a
  packet carries `p` bytes of the frame, so that the block size is `h + p`. The headers are not part of this model.
* The FEC percentage is 1 to 255, as `src/config.cpp:1269` enforces. The minimum of parity shards is any number.
* `sleep_for` sleeps at least as long as asked, the steady clock never goes back, and a run of the pacer has one block
  size of at most 100000, where its rate is positive (`Pacing.RateIsPositive`).
* A pool image that nobody but the pool holds stays so until it is handed out. Others may let go of images at any time,
  also between the counting and the trimming of one pull.
* `_count` of a `shared_t` starts at 0. It has no initializer, but all shared objects are static.
* Packets reach the platform in the order in which they leave the input queue. The code sends them after it has released
  the queue's lock, and the order holds because the task pool is started with one worker (`src/main.cpp:297`).
* `BatchedPads` looks at one session between whose packets no other session acts, and at a platform that can or cannot
  make a pad depending on the controller number alone.
* Of ciphers, hashes and signatures `PairingClient` relies on what `Lawful` says: decryption undoes encryption of whole
  blocks, a hash has 32 bytes, and the server's signature verifies under its certificate.
* The kernel takes whole segments, first ones first, and a segment fits the 16-bit size that is asked for.
* Task ids are never reused. In the code they are addresses.

## Model

| member | source | states |
|---|---|---|
| TaskPool.InsertSplits | src/task_pool.h:107-118 | a timer goes behind all that fire no earlier and before all that fire earlier, order kept |
| TaskPool.DelayedIsRescheduled | src/task_pool.h:158-186 | the swapping loop of delay puts the entry exactly where its new time belongs among those in front |
| TaskPool.RescheduleSorted | src/task_pool.h:176-185 | delay keeps the vector sorted if and only if it does not overtake the entry firing just before |
| TaskPool.DelayToEarlierCanUnsort | src/task_pool.h:158-186 | an input on which delay hides a due timer from pop |
| TaskPool.PopPicks | src/task_pool.h:219-241 | pop returns the oldest immediate task, else a due timer of minimal time; it succeeds exactly when ready() |
| TaskPool.NextIsEarliest | src/task_pool.h:243-251 | next is the minimal time of all timers |
| TaskPool.TakeNextPending | src/task_pool.h:219-235 | pop removes exactly the task it returns |
| TaskPool.RemoveKeepsOrder | src/task_pool.h:188-203 | erasing an entry keeps the order |
| TaskPool.TracesStep | src/task_pool.h:87-251 | one operation creates one trace of a pushed task and otherwise moves traces between pending, popped and cancelled |
| TaskPool.EveryTaskOnce | src/task_pool.h:87-251 | in every run each pushed task is exactly one of pending, popped once, cancelled once |
| TaskPool.SortedStep | src/task_pool.h:107-203 | an operation keeps the timers sorted if and only if it is not an overtaking delay |
| TaskPool.AlwaysSorted | src/task_pool.h:107-203 | after every run without an overtaking delay the timers are sorted |
| TaskTies.InsertLatest | src/task_pool.h:107-118 | inserting keeps ties in order of their stamps if and only if the new timer is the newest at its time |
| TaskTies.RescheduleLatest | src/task_pool.h:158-186 | a delay keeps ties in order if and only if the moved timer is newer than those in front at its new time and older than those behind |
| TaskTies.PopTakesLatest | src/task_pool.h:228-232 | among due timers of equal time pop takes the one with the latest stamp |
| TaskTies.PlacedStep | src/task_pool.h:107-232 | an operation keeps the latest placed (pushed or delayed) first if and only if it is no delay to the time, or to before the time, of the entry firing just before |
| TaskTies.AlwaysLatestPlaced | src/task_pool.h:107-232 | after every run without such a delay, ties fire latest placed first |
| TaskTies.PostponingStaysOrdered | src/task_pool.h:107-232 | in particular after every run whose delays all postpone |
| TaskTies.PostponingPopsLatestPlaced | src/task_pool.h:107-232 | and there pop returns, of the earliest due timers, the one pushed or delayed last |
| TaskTies.PushOrderStep | src/task_pool.h:107-232 | an operation keeps the latest pushed first if and only if it is no delay that mixes the push order at its new time |
| TaskTies.PostponingAndPushOrder | src/task_pool.h:158-186 | a postponing delay keeps it if and only if no timer pushed later already has the new time |
| TaskTies.AlwaysLatestFirst | src/task_pool.h:107-232 | after every run of operations that keep it, delays included, ties fire latest pushed first |
| TaskTies.PostponingBreaksPushOrder | src/task_pool.h:158-186 | a run with one postponing delay after which the timer pushed first fires first |
| TaskPool.Pool.Push | src/task_pool.h:87-105 | the queues after push are those of the specification |
| TaskPool.Pool.PushDelayed | src/task_pool.h:107-118 | the search loop inserts as the specification does |
| TaskPool.Pool.Delay | src/task_pool.h:158-186 | search loop and swapping loop compute the specified vector |
| TaskPool.Pool.Cancel | src/task_pool.h:188-203 | the found entry is erased, true exactly if there was one |
| TaskPool.Pool.Pop | src/task_pool.h:219-235 | the result and the queues left behind are the specified ones |
| ThreadPool.StepKeepsInv | src/thread_pool.h:52-129 | every step of every thread keeps: lock ownership, what each worker knows, a queued immediate task has someone coming |
| ThreadPool.AlwaysInv | src/thread_pool.h:52-129 | the invariant holds in every interleaving of N workers |
| ThreadPool.NoLostWakeup | src/thread_pool.h:52-59 | with an immediate task queued some worker is awake or notified, in every interleaving |
| ThreadPool.NobodySleepsAfterStop | src/thread_pool.h:87-92 | once stop returned, no worker ever waits un-notified |
| ThreadPool.StepIsTimed | src/thread_pool.h:61-75 | a step keeps every sleeper's deadline at most the earliest timer if and only if it is a polite step |
| ThreadPool.NobodyOversleeps | src/thread_pool.h:101-123 | in every interleaving of polite steps no un-notified waiter's deadline is later than the earliest timer |
| QuietTimers.CourteousIsPolite | src/thread_pool.h:61-65 | a quiet push behind a queued timer, or a delay no earlier than the entry firing just before (or than it was), is polite |
| QuietTimers.PostponingIsCourteous | src/task_pool.h:158-186 | a delay that does not move its timer earlier is such a delay |
| QuietTimers.CourteousCallersWakeEverybody | src/thread_pool.h:61-123 | if callers keep to that, judged by the queue alone, no un-notified waiter sleeps past the earliest timer in any interleaving |
| QuietTimers.EverybodyCanSleep | src/thread_pool.h:101-123 | for any number of workers and any timers to come there is a run after which everybody sleeps with just these queued |
| QuietTimers.QuietPushFromSleep | src/thread_pool.h:61-65 | from every such state a quiet push before all timers is slept through |
| QuietTimers.QuietPushIsSleptThrough | src/thread_pool.h:61-65 | so for any workers, any queued timers and any time before them all a quiet push can be slept through |
| QuietTimers.DelayIsSleptThrough | src/task_pool.h:158-186 | and so can a delay of any queued timer to a time before them all |
| ThreadPool.NeverStuck | src/thread_pool.h:101-129 | with an immediate task queued, or stop called and a worker left, or a due timer and the deadlines kept, some thread can move without a spurious wake-up |
| ThreadPool.EachTaskInOnePlace | src/thread_pool.h:101-129 | each task is queued, in a worker's hands, run, or cancelled, exactly once, in every interleaving |
| ThreadPool.AlwaysEarlyKept | src/thread_pool.h:87-129 | an immediate task pushed before stop is never cancelled and has left the queue once any worker exited |
| ThreadPool.EarlyTasksRanOnce | src/thread_pool.h:125-129 | every immediate task pushed before stop has run exactly once when all workers have exited |
| PoolProgress.ReadyPoolRuns | src/thread_pool.h:101-123 | in every interleaving, while the pool runs and has something to take, no worker takes eight turns without a task being finished |
| PoolProgress.AlwaysInOrder | src/thread_pool.h:52-59 | the immediate tasks are queued in the order of their pushes |
| PoolProgress.FirstInFirstOut | src/thread_pool.h:101-129 | of two queued immediate tasks the one pushed first is taken first |
| PoolProgress.QueuedTaskIsTaken | src/thread_pool.h:101-129 | a task with k others in front is taken before any one worker has had 3k + 4 turns, stopped or not |
| PoolProgress.QueuedTaskIsRun | src/thread_pool.h:101-129 | and has been run, once, when after that every worker has had one |
| InputBatching.BatchRespectsKeys | src/input.cpp:1256-1524 | packets are merged only within one device, pointer or sensor, and passed over only for another of the same kind |
| InputBatching.ScanReduces | src/input.cpp:1551-1568 | seen through one key per kind, taking a message only merges neighbours |
| InputBatching.RunReduces | src/input.cpp:1530-1568 | the same over every interleaving of arrivals and processing: nothing dropped, duplicated, reordered |
| InputBatching.MergeKeepsCanon | src/input.cpp:1280-1486 | merging two replaceable samples does not change the collapsed sequence |
| InputBatching.MergedExactly | src/input.cpp:1280-1486 | samples are merged, into the later, if and only if device, pointer or sensor, mask, buttons, continuous event, tool and reference size are the same |
| InputBatching.PassedExactly | src/input.cpp:1334-1486 | a packet is passed over if and only if it is of another of the same kind and changes nothing besides |
| InputBatching.BatchingKeepsMeaning | src/input.cpp:1530-1568 | a drained run delivers, per choice of keys, the client's sequence with runs of samples alike in all those fields collapsed to their last |
| InputBatching.BatchingKeepsFinalState | src/input.cpp:1530-1568 | the last sample of each key is the one that one-by-one processing would end with |
| InputBatching.AddingIsMergedOnlyWhenWrong | src/input.cpp:1256-1328 | deltas are merged if and only if their sum does not fit, and are then off by 2^16 |
| InputBatching.LargeMovesTurnBack | src/input.cpp:1256-1272 | two moves right and down that become a move left and up |
| InputBatching.BatchingKeepsTotalsModulo | src/input.cpp:1256-1328 | over every drained run total movement is kept modulo 2^16 |
| InputBatching.SmallMovesArriveAsSent | src/input.cpp:1256-1328 | deltas from -2^14 to just below 2^14 arrive unmerged, in every run |
| BatchLaws.RunKeepsOutline | src/input.cpp:1530-1568 | over every interleaving, whatever marks merging respects are seen in the same order before and behind the queue |
| BatchLaws.ChangesArrive | src/input.cpp:1280-1486 | per device, pointer or sensor: every change of buttons, mask, event, tool or reference size and every discrete event arrives, in order, none twice |
| BatchLaws.StagesArriveInOrder | src/input.cpp:1334-1486 | over all devices: discrete events and changes of the set of controllers arrive in the client's order, touchpads of different controllers aside |
| BatchLaws.TouchpadsOvertake | src/input.cpp:1438-1447 | a finger put down on one touchpad arrives after a later move on another |
| BatchLaws.ScanMergesAll | src/input.cpp:1551-1568 | a take leaves nothing in the queue that it could have merged before the packet that bars it |
| InputBatching.InputQueue.ProcessNext | src/input.cpp:1530-1569 | the erasing loop sends and leaves what the specified scan does |
| GamepadIds.AllocateKeepsInv | src/input.cpp:891-902 | allocation gives the slot a new id of its own; a failed one changes nothing |
| GamepadIds.FreedSlot | src/input.cpp:1156-1160 | freeing a slot frees its bit and its pad and nobody else's |
| GamepadIds.DestroyKeepsInv | src/input.cpp:133-139 | the ids of a destroyed session pass to queued tasks, one each |
| GamepadIds.RunTaskKeepsInv | src/input.cpp:118-123 | a queued task frees an id that nobody else holds |
| GamepadIds.StepKeepsInv | src/input.cpp:60-1160 | every operation keeps: a bit is set exactly if one owner holds the id, and exactly if the pad exists |
| GamepadIds.StepDefined | src/input.cpp:118-123 | no operation ever touches a bit outside the mask |
| GamepadIds.AlwaysInv | src/input.cpp:60-1160 | that in every reachable state, over all sessions |
| GamepadIds.NothingLeaks | src/input.cpp:118-139 | when all sessions are gone and all tasks have run, no bit is set and no pad is left |
| GamepadIds.ArrivalGives | src/input.cpp:870-903 | an arrival gives its slot a pad if and only if it has none, the platform makes one and an id is free; all other slots stay |
| GamepadIds.StatePacketGives | src/input.cpp:1129-1162 | a state packet leaves its slot with a pad if and only if its controller is active and had or gets one; all other slots stay |
| GamepadIds.ConnectGives | src/input.cpp:160-181 | a new session has sixteen slots without pads |
| GamepadIds.TasksRun | src/input.cpp:135-137 | running k queued tasks frees exactly their ids, in order |
| GamepadIds.AllFreedInTheEnd | src/input.cpp:118-139 | with all sessions gone, running what is queued frees every id |
| GamepadIds.Input.AllocId | src/input.cpp:60-70 | the first clear bit is set, or -1 and nothing changes |
| GamepadIds.Input.FreeGamepad | src/input.cpp:118-123 | the pad is gone and its bit is clear |
| GamepadIds.Input.NewGamepad | src/input.cpp:891-902 | both packets' allocation, with the id given back if the platform fails |
| GamepadIds.Input.ControllerArrival | src/input.cpp:870-903 | out-of-range and already allocated numbers change nothing, others allocate |
| GamepadIds.Input.Controllers | src/input.cpp:1129-1162 | a new active number allocates, a number that went inactive frees, anything else changes nothing |
| GamepadIds.Input.DestroySession | src/input.cpp:133-139 | the destructors queue exactly the ids that were held |
| GamepadIds.Input.RunQueued | src/input.cpp:135-137 | the oldest queued task frees its id |
| BatchedPads.HandleKeepsSpare | src/input.cpp:870-1160 | no packet changes how many more ids are free than the slots in use need |
| BatchedPads.HandleSettles | src/input.cpp:1129-1162 | with room, a controller packet that was handled has nothing more to do |
| BatchedPads.ScanKeepsPads | src/input.cpp:1551-1568 | what one take merges into a handled packet, or passes over, makes no difference to pads and ids |
| BatchedPads.BatchingKeepsPads | src/input.cpp:1530-1568 | a drained run leaves mask, pads and slots as one-by-one handling does, if there are ids for the controllers in use |
| BatchedPads.BatchingKeepsPadsExactly | src/input.cpp:1334-1356 | that for every run, if and only if there are, or no id is free and the client has none |
| BatchedPads.LosesPad | src/input.cpp:1334-1356 | in every other state a run after which batched and one-by-one handling differ |
| BatchedPads.AloneHasRoom | src/input.cpp:60-139 | a session alone has an id for every slot |
| Packetizer.InterleaveSize | src/stream.cpp:728-733 | the result has one header per slice and all the data, and no more |
| Packetizer.PiecesCeil | src/stream.cpp:729-730 | quotient and pad flag count slices as division rounding up does |
| Packetizer.CopyAcross | src/stream.cpp:745-759 | a slice is taken from the two buffers as from one |
| Packetizer.ConcatAndInsert | src/stream.cpp:727-763 | the two buffers end to end with zeros before each slice, for all sizes |
| FecBlocks.MaxDataShardsIsExact | src/stream.cpp:1359-1365 | data and parity fit in 255 shards if and only if the data is within the bound |
| FecBlocks.PlanFacts | src/stream.cpp:1364-1387 | one to four blocks; with FEC on they have room for the frame |
| FecBlocks.FecStaysOn | src/stream.cpp:1367-1377 | FEC stays on if and only if four blocks have room for frame and parity; then there are as few as have room, else four without parity |
| FecBlocks.FourBlocksAreEnough | src/stream.cpp:1373 | frames that need exactly four blocks keep their FEC, one byte more loses it |
| FecBlocks.BlocksOk | src/stream.cpp:1385-1404 | no offset passes the end, no block is empty, each starts on a packet boundary, and with FEC on each (also a longer last one) is within the bound |
| FecBlocks.AllFitFieldExactly | src/stream.cpp:1372-1404 | every block, in the zero-FEC fallback too, has fewer than 1024 data shards if and only if the frame has at most 4 * 1023 packets |
| FecBlocks.WarningIsLate | src/stream.cpp:1389-1393 | the code's test for too large a frame holds if and only if the frame is more than three bytes over that |
| FecBlocks.UnnoticedLargeFrame | src/stream.cpp:1389-1393 | a frame one byte over: the last block has 1024 shards and the test does not see it |
| FecEncode.ShardsFit | src/stream.cpp:646-658 | with FEC on, data and parity fit in 255 shards if and only if the client's minimum leaves room |
| FecEncode.ParityIsLeast | src/stream.cpp:647-656 | parity is the least that gives both the percentage and the client's minimum, and none without FEC |
| FecEncode.PercentageFaithful | src/stream.cpp:648-656 | the advertised percentage gives back the parity count if and only if it was not raised or the remainder is below 100 |
| FecEncode.PercentageFaithfulForSmallBlocks | src/stream.cpp:648-656 | so it does for every block of at most 100 data shards |
| FecEncode.PercentageCanMislead | src/stream.cpp:651-653 | 199 data shards at 1 percent and a minimum of 3: it does not |
| FecEncode.RaisedIsNotZero | src/stream.cpp:651-694 | asked-for parity is always computed |
| FecEncode.PercentageFitsField | src/stream.cpp:1484-1487 | the percentage fits its 8 bits if and only if it was not raised past 255 |
| FecEncode.FecInfoDecodes | src/stream.cpp:1484-1487 | fecInfo decodes to index, data count and percentage if and only if each fits its field |
| FecEncode.NumbersDecode | src/stream.cpp:1484-1487 | the same for any three numbers, of which fecInfo takes the low 32 bits |
| FecEncode.ShardDecodes | src/stream.cpp:646-658 | with FEC on, every data and parity shard of a block decodes if and only if the percentage was not raised past 255 |
| FecEncode.ShardDecodesWithoutFec | src/stream.cpp:1372-1376 | without FEC a block's shards decode if and only if it has fewer than 1024 |
| FecEncode.FrameDecodesExactly | src/stream.cpp:1359-1487 | every shard of a frame decodes if and only if no block's percentage was raised past 255, or, in the fallback, the frame has at most 4 * 1023 packets |
| FecEncode.SpilledPercentage | src/stream.cpp:1484-1487 | one data shard with a minimum of three: the index is wrong |
| FecEncode.MultiFecBlocksDecodes | src/stream.cpp:1438 | multiFecBlocks decodes to block and count if and only if there are at most four blocks |
| FecShards.BufferForPayloadOffset | src/platform/common.h:694-706 | the search loop over the buffers finds what the specification does |
| FecShards.BatchedIsUnbatched | src/platform/common.h:666-706 | shard x is found whole at offset x * blocksize, where data(x) points, for data, padded and parity shards |
| BatchedSend.RestFound | src/platform/common.h:694-706 | what is found at any offset is the rest of one of the two buffers, never empty |
| BatchedSend.RangeIsSlice | src/platform/common.h:666-706 | the packets of any range, across both buffers, are one part of them, in the order of data(x) |
| BatchedSend.BlockReads | src/stream.cpp:660-692 | a block as it was encoded meets all that the sending loops rely on |
| BatchedSend.PayloadIovs | src/platform/linux/misc.cpp:597-606 | the translated descriptors gather exactly the range, and are never more than the buffers |
| BatchedSend.HeaderIovs | src/platform/linux/misc.cpp:585-595 | the interleaved ones gather header and shard of each packet |
| BatchedSend.MessageCut | src/platform/linux/misc.cpp:611-624 | the segments of a message are its packets |
| BatchedSend.SendSegmented | src/platform/linux/misc.cpp:575-655 | whatever the calls answer, what has left is the first packets of the range, in order, each once |
| BatchedSend.SendEach | src/platform/linux/misc.cpp:660-717 | the same for the second loop, and its return value |
| BatchedSend.SendBatch | src/platform/linux/misc.cpp:495-717 | the same for both, the second only if nothing has left |
| BatchedSend.AnswerIsHonest | src/platform/linux/misc.cpp:651-717 | false means something is left over; true means nothing is, unless a poll failed |
| BatchedSend.SegmentedSendsAll | src/platform/linux/misc.cpp:582-648 | the first loop sends all that its calls take until one fails |
| BatchedSend.AnswerSendsAll | src/platform/linux/misc.cpp:651-717 | what leaves is what the first loop's calls take, or, if nothing, what the second's take |
| BatchedSend.FailedPollIsSuccess | src/platform/linux/misc.cpp:699-717 | answers after which true is returned with two of three packets missing |
| BatchedSend.SendRange | src/stream.cpp:1537-1558 | batched and, on failure, all over again one by one: the packets of the range, after those that had left |
| FecShards.CountShards | src/stream.cpp:641-656 | aligned shards, pad, parity and percentage are the specified ones |
| FecShards.Encode | src/stream.cpp:641-712 | every shard pointer, both payload buffers, and the zero-padded last data shard |
| FecShards.Point | src/stream.cpp:670-698 | the pointer array names each shard's place in its buffer |
| FecShards.EncodedShards | src/stream.cpp:660-692 | through its pointer every data shard reads as the block cut into zero-padded shards |
| FecShards.DataShardsAt | src/stream.cpp:670-692 | shard x of a block starts at x * blocksize |
| Framing.InterleavedShards | src/stream.cpp:727-763 | the data shards of an interleaved frame give the frame back, and zeros follow it |
| Framing.HeadersDoNotMatter | src/stream.cpp:1426-1494 | header bytes do not change what the receiver gets |
| Framing.BlockIsPart | src/stream.cpp:1395-1404 | a block's shards are the frame's shards at its place |
| Framing.SplitBlocks | src/stream.cpp:1364-1404 | the loop cuts at the planned offsets; FEC is used if and only if four blocks have room, in as few as have room, else there are four without |
| Framing.BlockBounds | src/stream.cpp:1395-1404 | consecutive blocks meet on a packet boundary and together are the frame |
| Framing.StampBlock | src/stream.cpp:1426-1450 | the first header pass writes nothing outside headers |
| Framing.StampShards | src/stream.cpp:1480-1494 | the second header pass writes nothing outside headers, in either buffer |
| Framing.SendBlock | src/stream.cpp:1422-1494 | the shards of a block carry exactly its packets of the frame, and it has the parity of the percentage in use |
| Framing.SendBlocks | src/stream.cpp:1422-1583 | the data shards of all blocks in order are the packets of the frame in order, and the blocks are protected as FecStaysOn says |
| Framing.PacketizeFrame | src/stream.cpp:1328-1583 | a frame leaves as the shards of its interleaved image, up to headers, with lastPayloadLen as computed and each block's parity as asked for |
| Framing.RoundTrip | src/stream.cpp:1328-1404 | dropping headers and cutting the last shard to lastPayloadLen gives back frame header and payload; only zeros follow |
| Framing.LastLenFitsField | src/stream.cpp:1328-1331 | lastPayloadLen is right if and only if the final packet is shorter than 2^16 |
| Numbering.NumberOfWrapped | src/stream.cpp:1490-1582 | the 16-bit number sent does not depend on whether lowseq has wrapped around its 32 bits |
| Numbering.WrappedAgain | src/stream.cpp:1582 | counting on from a wrapped lowseq is counting on and wrapping |
| Numbering.SameBytes | src/stream.cpp:445-1506 | two counters are stored alike if and only if they agree modulo their width |
| Numbering.ByteIs | src/stream.cpp:445-1506 | byte i of a stored counter is (n / 256^i) mod 256 |
| Numbering.IvBytes | src/stream.cpp:445-1507 | the bytes of both IVs: counter, zeros, and the fixed last two |
| Numbering.IvsRepeat | src/stream.cpp:436-1508 | two IVs under a session's key are equal if and only if use and wrapped counter are equal |
| Numbering.NumbersAdvance | src/stream.cpp:1434-1490 | sequence numbers advance by one per shard modulo 2^16 over blocks and frames and agree with streamPacketIndex (section 5.1 of RFC 3550) |
| Numbering.IvsAreFresh | src/stream.cpp:436-1508 | no IV of a session is used twice if and only if neither counter has wrapped (section 8.2.1 of NIST SP 800-38D) |
| Numbering.Session.EncodeControl | src/stream.cpp:432-447 | control message n carries the IV of counter n |
| Numbering.Session.SendShard | src/stream.cpp:1490-1515 | shard number, IV and counter of one shard |
| Numbering.Session.IndexBlock | src/stream.cpp:1430-1434 | the first pass numbers each data shard |
| Numbering.Session.SendBlock | src/stream.cpp:1426-1583 | the shards of a block continue the session's numbering, data shards with an index |
| Numbering.Session.SendFrame | src/stream.cpp:1304-1585 | the shards of a frame continue it, and the session remembers where it ended |
| Numbering.StampIv | src/stream.cpp:1506-1507 | the thread's buffer holds the IV of the counter, its other bytes still zero |
| Pacing.RateIsPositive | src/stream.cpp:1408 | the rate the code divides by is positive if and only if the block size is at most 100000 |
| Pacing.RateIsMost | src/stream.cpp:1408 | the rate is the greatest number of packets a millisecond within 80 percent of a gigabit a second |
| Pacing.BatchLimit | src/stream.cpp:1414-1418 | at most 64 packets and at most 64K in a batch |
| Pacing.BatchLimitIsMost | src/stream.cpp:1414-1418 | and as many as that allows |
| Pacing.BatchesPartition | src/stream.cpp:1517-1565 | every shard of a block is in exactly one batch, batches adjoin, and all but the last are full |
| Pacing.OneFrame | src/stream.cpp:1519-1536 | within a frame the packets sent by any time stay within the budget |
| Pacing.LeakyBucket | src/stream.cpp:1420-1571 | from the start of any frame to any time, over any frames, at most the rate plus one rate's worth and one batch, up to rounding per frame |
| Pacing.Pace | src/stream.cpp:1519-1533 | a batch waits until it is due when it must, and never asks to sleep longer |
| Pacing.DueIsEarliest | src/stream.cpp:1524-1526 | due is the first nanosecond by whose end the rate allows the packets sent so far |
| Pacing.SendBatch | src/stream.cpp:1517-1565 | one batch keeps the frame within its budget |
| Pacing.SendBlock | src/stream.cpp:1481-1571 | the batches of a block tile its shards, and the budget is kept |
| Pacing.Pacer.constructor | src/stream.cpp:1295-1418 | rate and limit follow from the block size |
| Pacing.Pacer.SendFrame | src/stream.cpp:1420-1578 | every frame of a run is tiled and paced, and starts as soon as it is there and the one before is due |
| Config.ToString | src/config.cpp:618-631 | the loop returns the text without comments |
| Config.StripPlain | src/config.cpp:618-631 | text without a comment sign is kept as it is |
| Config.SkipList | src/config.cpp:633-648 | the loop stops behind the bracket that closes, or at the end |
| Config.CloseInside | src/config.cpp:633-648 | a list closes at the same place in a file as alone, and if it does not, reading goes on behind it |
| Config.ParseOption | src/config.cpp:651-689 | parsing an option never goes back and never passes the end |
| Config.ParseStep | src/config.cpp:697-711 | each turn of parse_config strictly advances, so it terminates on every input |
| Config.ParseNext | src/config.cpp:697-711 | one turn of the loop gets further, keeps every entry read so far, and leaves what the whole file means unchanged |
| Config.ParseConfig | src/config.cpp:691-714 | the loop builds the map of the recursive parser |
| ConfigFile.SaveConfig | src/confighttp.cpp:1059-1067 | the loop prints each entry that is not null or empty as one line |
| ConfigFile.LineStep | src/config.cpp:651-689 | the line of an entry with a clean key is read as that key, and as its value if and only if that is clean |
| ConfigFile.CleanItemsRead | src/config.cpp:691-714 | clean entries are all read back and nothing else is |
| ConfigFile.DirtyItemLost | src/config.cpp:651-714 | the first entry that is not clean is not read back |
| ConfigFile.RoundTrip | src/confighttp.cpp:1059-1067 | for any JSON object: what is saved is read back as it was if and only if every entry written is clean |
| ConfigFile.FirstWins | src/config.cpp:710 | a key that was read keeps its first value |
| ConfigFile.OptionIsClean | src/config.cpp:651-689 | every key that is read is clean and no value holds a comment, for any file |
| ConfigFile.CommentInName | src/confighttp.cpp:1059-1067 | an object that is not read back: a name with a comment sign |
| ConfigFile.ListParsed | src/config.cpp:669-689 | any list of any file: where it ends, its value, and that it is given up if and only if nothing follows its bracket |
| ConfigFile.MissingBracket | src/config.cpp:669-689 | a list without its closing bracket, in any file: reported if and only if its bracket is last, else the rest of the file is its value; the file ends there |
| ConfigFile.ReportedExactly | src/config.cpp:675-682 | the report is given exactly for missing brackets if and only if such a list has nothing behind its bracket |
| ConfigFile.OneUnclosedFile | src/config.cpp:675-682 | files of one list on both sides |
| ConfigFile.NextEntryLost | src/config.cpp:675-682 | a file whose second entry is lost without a report, and one that is reported |
| ConfigFile.UnclosedList | src/config.cpp:669-683 | in a saved file a list that is not closed takes the rest of the file as its value |
| ConfigLines.OptionMoves | src/config.cpp:651-689 | an option is read alike with CR LF and with LF |
| ConfigLines.LineEndsDoNotMatter | src/config.cpp:606-714 | any file with CR LF is read as with LF but for line ends inside lists; exactly alike if and only if no value has one |
| EnvExpand.FindMatch | src/process.cpp:391-410 | the loop finds the bracket that closes the first one, or throws |
| EnvExpand.ParseEnvVal | src/process.cpp:412-465 | the loop over pos, dollar and next equals the recursive expander, for every string and environment, and throws exactly when that does |
| EnvExpand.ClosesBehind | src/process.cpp:391-410 | the bracket behind a name closes it if and only if the name's brackets are balanced |
| EnvExpand.TemplateExpands | src/process.cpp:412-465 | doubled text and variables with nested brackets expand to the text and the values |
| EnvExpand.DoubledComesBack | src/process.cpp:446-451 | any text with every dollar doubled comes back as it was |
| EnvExpand.LoneDollarsStay | src/process.cpp:418-465 | a text whose dollars begin neither a variable nor a doubled dollar expands to itself |
| EnvExpand.UnclosedFails | src/process.cpp:405-408 | behind any template, a variable without its closing bracket makes the expansion throw |
| PrepUndo.UndoAllAppends | src/process.cpp:308-338 | terminate runs what is owed, last first, and only that |
| PrepUndo.TerminatedIsClean | src/process.cpp:308-338 | after terminate nothing is owed |
| PrepUndo.TerminateTwice | src/process.cpp:308-338 | a second terminate runs nothing |
| PrepUndo.PrepAllGood | src/process.cpp:201-235 | completed steps are owed, a failing step is not |
| PrepUndo.ExecuteKeepsGood | src/process.cpp:138-268 | after execute either all steps of a running app are owed, or nothing |
| PrepUndo.FailedLaunchUndoes | src/process.cpp:196-235 | a failure at step k undoes steps k-1 to 0 in that order, after everything of the app before |
| PrepUndo.AlwaysGood | src/process.cpp:138-338 | in every run the log is a stack of completed steps |
| PrepUndo.CompletedOnce | src/process.cpp:138-338 | in every run each step of each launch is completed at most once |
| PrepUndo.UndoneOnceOrOwedOnce | src/process.cpp:308-338 | after every run each completed undoable step was undone exactly once or is owed exactly once, any other neither |
| PrepUndo.UndoneExactlyOnce | src/process.cpp:138-140 | in every run, before each launch every completed undoable step was undone exactly once, and no other step was |
| PrepUndo.FindApp | src/process.cpp:142-149 | the first app with the id, or no app has it |
| PrepUndo.Proc.Terminate | src/process.cpp:308-338 | the loop backwards computes the specified state and log |
| PrepUndo.Proc.Prepare | src/process.cpp:201-235 | the loop forwards computes the specified state, log and outcome |
| PrepUndo.Proc.Execute | src/process.cpp:138-268 | state, log, commands run and return code are the specified ones, with the guard on every -1 |
| LaunchRuns.TerminateRuns | src/process.cpp:308-338 | terminate runs the undo commands of all completed steps, last first, and nothing else |
| LaunchRuns.PrepRuns | src/process.cpp:201-235 | the do commands run in order, each once, up to the first that did not start, failed to be waited for, or exited with anything but 0 |
| LaunchRuns.ExecuteRuns | src/process.cpp:138-268 | the whole sequence of commands of a launch and its code: undo, do, detached, app, and undo again on failure |
| LaunchRuns.ZeroExactly | src/process.cpp:196-268 | the code is 0 if and only if the app is there, every do command ended well and the app started |
| LaunchRuns.ExitCodeStopsLaunch | src/process.cpp:230-234 | a do command that exits with 1: the app is not started |
| Pairing.FailPairKeepsInv | src/nvhttp.cpp:343-352 | a failure removes the session |
| Pairing.GetServerCertKeepsInv | src/nvhttp.cpp:354-376 | phase one: out of order or a short salt removes the session, else it has its key |
| Pairing.ClientChallengeKeepsInv | src/nvhttp.cpp:378-419 | phase two keeps every session's history; the missing-key branch is not reached |
| Pairing.ServerChallengeRespKeepsInv | src/nvhttp.cpp:421-448 | phase three; the missing-secret branch is not reached |
| Pairing.ClientPairingSecretKeepsInv | src/nvhttp.cpp:450-498 | phase four always ends the session and authorises its client if and only if the proof is good |
| Pairing.EmplaceKeepsInv | src/nvhttp.cpp:579-587 | a new session starts an own history; an existing one keeps its certificate |
| Pairing.HandleKeepsInv | src/nvhttp.cpp:553-681 | every request keeps the invariant and none is answered with a missing key or secret |
| Pairing.AlwaysInv | src/nvhttp.cpp:343-681 | the invariant holds after every run of requests and PINs |
| Pairing.AuthorisedAreGenuine | src/nvhttp.cpp:450-498 | every authorised client went through exactly the four phases of one session; hash of challenge, certificate signature and secret, and signature of the secret, are checked against its first certificate |
| Pairing.KeysAreAlwaysSet | src/nvhttp.cpp:385-431 | the replies for keys that are not set are never given |
| PairingClient.ElsewhereKeeps | src/nvhttp.cpp:553-681 | a request that is not about a session leaves it and all who are authorised alone |
| PairingClient.ChallengePhase | src/nvhttp.cpp:378-419 | the reply of phase two decrypts to the server's hash of the client's challenge and to the server's challenge |
| PairingClient.ResponsePhase | src/nvhttp.cpp:421-448 | the reply of phase three is a 16-byte secret, signed by the server, that hashes to what phase two began with |
| PairingClient.ProofPhase | src/nvhttp.cpp:450-498 | a client's secret and signature authorise it with its own certificate |
| PairingClient.RightPinPairs | src/nvhttp.cpp:354-681 | after any run and whatever others do in between, a client that follows the protocol with its own PIN can check the server and is paired |
| Pairing.PinOutlivesSession | src/nvhttp.cpp:660-662 | pin goes on with a session that its own first phase has removed if and only if that was past the phase or had a short salt |
| Pairing.SecondPinOutlivesSession | src/nvhttp.cpp:635-662 | a run that gets there: one request and two PINs |
| Pairing.Host.DoGetServerCert | src/nvhttp.cpp:354-376 | new sessions and reply of phase one |
| Pairing.Host.DoClientChallenge | src/nvhttp.cpp:378-419 | new sessions and reply of phase two |
| Pairing.Host.DoServerChallengeResp | src/nvhttp.cpp:421-448 | new sessions and reply of phase three |
| Pairing.Host.DoClientPairingSecret | src/nvhttp.cpp:450-498 | new sessions, authorised clients and reply of phase four |
| Pairing.Host.AskServerCert | src/nvhttp.cpp:577-604 | the first request, with or without a PIN typed at once |
| Pairing.Host.EnterPin | src/nvhttp.cpp:635-681 | the PIN goes to the first session of the map; sessions and reply, and exactly when the code goes on with a session that is gone |
| Pairing.Host.Continue | src/nvhttp.cpp:612-632 | later requests reach the phase they ask for, or none |
| ImagePool.PickKeeps | src/video.cpp:1349-1376 | nobody else holds what is handed out, it stands in front, nothing leaves the pool |
| ImagePool.PickReuses | src/video.cpp:1349-1376 | the frontmost free image is used again; a new one takes the frontmost empty place only if none is free |
| ImagePool.PickFails | src/video.cpp:1349-1376 | nothing is handed out if and only if nothing is free and there is no place or no new image |
| ImagePool.TrimmedExactly | src/video.cpp:1327-1341 | exactly as many images go as asked, if so many are free |
| ImagePool.TrimmedWereFree | src/video.cpp:1331-1339 | an image that is held is never reset |
| ImagePool.TrimmedFromTheRear | src/video.cpp:1330-1332 | no free image stays behind one that goes |
| ImagePool.TrimLeavesTarget | src/video.cpp:1311-1343 | what remains is the smaller of allocated and the largest level seen recently |
| ImagePool.TrimKeepsHeld | src/video.cpp:1327-1341 | held images stay in the pool and the handed-out one in front |
| ImagePool.AttemptKeepsInv | src/video.cpp:1346-1388 | a pull keeps twelve places, no image twice, recent levels backed, and hands out no held image |
| ImagePool.AlwaysInv | src/video.cpp:1293-1450 | in every run, between reinits, every usage level seen within three seconds is backed by so many allocated images |
| ImagePool.RecentLevelsAreBacked | src/video.cpp:1298-1343 | that with the three seconds spelled out |
| ImagePool.PullRetries | src/video.cpp:1346-1388 | a pull goes on until a turn hands out an image, and ends with that one |
| ImagePool.Capture.PickImage | src/video.cpp:1349-1376 | the two search loops pick and move as specified |
| ImagePool.Capture.Count | src/video.cpp:1299-1309 | the loop counts allocated and used images |
| ImagePool.Capture.TrimTarget | src/video.cpp:1311-1325 | the loop records the level and finds the target |
| ImagePool.Capture.ResetFree | src/video.cpp:1329-1339 | the backward loop resets the specified images |
| ImagePool.Capture.TrimImgs | src/video.cpp:1298-1344 | pool and timestamps after trim_imgs |
| ImagePool.Capture.PullFreeImage | src/video.cpp:1346-1388 | the retrying loop ends in the specified pool with the specified image |
| ImagePool.Capture.ResetImages | src/video.cpp:1441-1444 | reinit empties every place and keeps the timestamps |
| SharedRef.RefLives | src/thread_safe.h:436-449 | ref constructs exactly when nobody holds the element |
| SharedRef.ReleaseLives | src/thread_safe.h:410-419 | the last release destructs, others do not |
| SharedRef.StepKeepsInv | src/thread_safe.h:354-449 | every operation keeps count equal to the owning handles and the element live exactly while there are some |
| SharedRef.AlwaysInv | src/thread_safe.h:354-449 | that over every sequence of operations on any shared objects and handles |
| SharedRef.ConstructsAlternate | src/thread_safe.h:410-449 | successful constructions and destructions alternate |
| SharedRef.FailedElementsLeak | src/thread_safe.h:439-444 | every element made is destroyed, live, or one whose construction failed |
| SharedRef.LeakStays | src/thread_safe.h:439-444 | each failed construction adds one such element, and no operation takes one away |
| SharedRef.FailedRun | src/thread_safe.h:439-444 | a run with one: made once, never destroyed, count zero |
| SharedRef.SharedObject.TakeRef | src/thread_safe.h:436-449 | count, life and handle after ref |
| SharedRef.Ptr.Copied | src/thread_safe.h:370-378 | a copy takes one reference and leaves the original |
| SharedRef.Ptr.Moved | src/thread_safe.h:365-368 | a move takes the owner over and counts nothing |
| SharedRef.Ptr.ReleaseOwner | src/thread_safe.h:410-419 | count and life after release |
| SharedRef.Ptr.MoveAssign | src/thread_safe.h:390-398 | the old owner is released, the new one taken over |
| SharedRef.Ptr.Destruct | src/thread_safe.h:400-404 | an owning handle releases when it ends |

## Left out

- Sockets, ENet, HTTP, RTSP, the tray, logging and the Web UI: input and output only.
- Reed-Solomon parity bytes, AES, SHA and X.509: uninterpreted. Only counts, places, order and counters are modelled.
- Framing.RoundTrip: is stated before encryption, which replaces each shard in place and which the client undoes.
- Framing.PacketizeFrame: the bytes that the two header passes write are any functions of block and shard; the fields that matter are in FecEncode and Numbering.
- Numbering.Session.SendShard: in the one block in which `lowseq + x` passes 2^31 the code's signed addition is undefined; here it wraps.
- Numbering.IvsRepeat: the 16-byte IVs of old clients and the reuse of a key by a later session are not covered.
- Pacing.LeakyBucket: one block size per run, as the broadcast thread is shared by sessions with different ones.
- Exceptions in the broadcast threads, and an unbatched send that fails: assumed not to happen.
- BatchedSend.SendBatch: the Linux one; addresses and control messages are not modelled. Windows has its own, and macOS always sends one by one.
- The frame processing latency, timestamps and payload replacements of a frame: they do not affect its layout.
- `TaskPool::pop(task_id)`: it moves the entry out without erasing it.
- ThreadPool.StepKeepsInv: `start` is called once, before the first step, and reads of `_continue` are atomic as `stop` writes it.
- Keyboard state, key remapping, the left-click delay and touch coordinates: floating point and heuristics.
- GamepadIds.Input.Controllers: button state, feedback and the emulated home button do not touch ids.
- Packet fields that `batch` neither compares nor computes with are one number each.
- Config.ParseOption: characters are compared as they are; there is no encoding in the code either.
- EnvExpand.ParseEnvVal: the case-insensitive lookup of names on Windows.
- PrepUndo.Proc.Execute: environment variables, working directories and the process group.
- PrepUndo.Proc.Terminate: a `wait` that throws, and `refresh` while an app runs.
- Pairing.Host.EnterPin: what the use of a session that is removed already does, where the contract says that it happens.
- Pairing.Host.AskServerCert: malformed hexadecimal text; requests carry decoded bytes.
- ImagePool.Capture.PullFreeImage: sleeping between turns; the capture queue stops after the last given moment.
- `ptr_t` copy assignment: its expression needs an operator that `ptr_t` does not define.
- SharedRef.SharedObject.TakeRef: fewer than 2^32 handles at a time.
- Encoder probing, codec options, colour spaces and display devices: driven by foreign drivers.
