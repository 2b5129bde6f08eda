# Verified model of the wallpaper engine's stateful cores

The engine shows wallpapers on Wayland outputs: a daemon decodes pictures, animations and videos, one presenter thread
talks to the compositor, a supervisor follows outputs as they come and go, clients speak a line protocol over a socket,
and a library indexes the configured folders. This project models the parts whose correctness depends on order and
state, and proves what they promise over every input, every run and every interleaving.

Each state machine exists twice: as functions over values, about which the properties are proved, and as the object the
program has, whose methods are proved to take exactly the step the functions describe. Compositor, allocator, file
system, child process, clock, JSON codec, compression and request handler are parameters that may do anything their
interface allows.

| files | subject |
|---|---|
| `SurfaceSlots`, `PresenterModel`, `PresenterProofs`, `PresenterRuns`, `PresenterAnswers`, `PresenterReasons`, `PresenterMoves`, `Presenter` | presenter thread: commands, compositor callbacks, one-shot replies, buffer rings |
| `HotplugDiff`, `SupervisorModel`, `SupervisorRuns`, `Supervisor` | snapshot diff, worker lifecycle, sliding restart budget |
| `FrameDecoder`, `Connection` | line framing with a cap, handshake-gated request loop |
| `FrameCache`, `AnimatedModel`, `AnimatedDecoder` | bounded frame cache, ordered playback |
| `LibraryWalk`, `LibraryScan`, `LikePattern`, `LibraryQuery` | folder walk, index merge, search patterns |
| `ThumbModel`, `ThumbRuns`, `ThumbScheduler` | deduplicating thumbnail queue |
| `OutputWorker` | generation-ordered worker of one output |
| `VideoModel`, `VideoDecoder` | a child's byte stream cut into frames |
| `Base64`, `ScalingPlan` | base64 encoding (section 4 of RFC 4648), picture placement |
| `Prelude` | option, result and size types |

`dafny verify dfyconfig.toml` covers all files.

## Where the code and its documentation differ

The models follow the code. These differences are proved, each with its exact condition where there is one.

- Presenter: a present parked for its first configure is answered "presented" by Clear although nothing was committed
  (`ClearAnswersAFrameNobodySaw`), and nothing but that Clear does so (`PresentedIsJustified`); a frame callback reports the
  surface's current size, which is the shown one exactly if no configure came in between
  (`FrameCallbackReportsTheShownSize`), and a run shows it reporting a size at which nothing was ever shown
  (`FrameCallbackReportsAnUnseenSize`).
- Supervisor: a replug does not leave `Failed`; a success does, and so does a later failure that finds the budget unspent
  (`WhatLeavesFailed`). A window of length zero never gives up (`ZeroWindowNeverGivesUp`). Forgetting an output is meant
  for one that is gone, and harmless exactly then (`ForgetKeeps`); an active one loses its Teardown
  (`ForgettingAListedOutputLeavesItsWorker`).
- Framing: the documented cap counts the newline, the decoder's does not (`CapIsOnThePayload`). A request can be short
  enough to be accepted while its id is too long to be returned; its reply has no id (`LongIdIsLost`, with the exact
  condition in `WireKeepsId` and in the contract of `ServeConnection`).
- Animation: a rewound pass replays the animation exactly only if everything or nothing is cached (`ExactReplay`);
  otherwise it is the cached head followed by the whole container under shifted indices (`RewoundPass`; for every two
  pictures of which only the first fits `PartlyCachedReplayIsWrong`, for two of 512 by 512 and the smallest cache that can
  be configured `OneMebibyteReplaysWrongly`).
- Library: "rows are only removed when their directory was actually readable during this scan" does not hold: a row also
  goes if its directory, or one above it, cannot be read, or is hidden from every walked root
  (`OnlyReadDirectoriesLoseRows`, `RowsLostByMistake`). "Walking the outer root already covers the inner one" does not
  hold for a root inside a hidden or unreadable directory (`OutermostRootsSuffice`, `HiddenNestedRootIsMissed`).
- Library: rows are looked up by path but updated by its text. After a configured folder is spelled differently, changed
  files in it are reported as updated by every scan and keep their old stamp (`RespelledRowStaysOld`, with the exact
  condition in `SecondScanTouchesNothing`).
- Library search: "inside this directory" holds for the plain spelling of a directory other than the root, and for no other
  text: "/w/", "/w//x" and "/w/./x" find nothing at all, "/" nothing below it (`SpellingDecides`,
  `TrailingSeparatorFindsNothing`, `UnderTheRootFindsTheRootOnly`). Besides, it finds directories whose path differs in the
  case of ASCII letters (`UnderFindsTheSubtree`).
- Thumbnails: forgetting the key that is being generated lets the same work be queued again
  (`ForgettingInFlightDoubles`, `DisciplineIsExact`).
- Worker: the acknowledged size is believed, not compared with what was rendered (`AcknowledgedSizeIsBelieved`), and a
  frame prepared for one size can be presented at another one configured meanwhile (`LateAnswerTakesTheNewSize`, with the
  exact condition in `PresentedAtItsOwnSize`).

## Model

| member | source | states |
|---|---|---|
| `PresenterRuns.ReplyLinearity` | crates/owe-render/src/surface.rs:977-1036 | over every interleaving of commands and callbacks, the reply of each processed present is in exactly one of parked, frame-waiting, answered, dropped by CancelFrame; no reply is ever answered twice, so a channel with room for one message never blocks |
| `PresenterRuns.ShutdownSettlesEverything` | crates/owe-render/src/surface.rs:965-972 | after any run and the closing drain, in any order, nobody is parked or waiting and each reply has exactly one answer unless CancelFrame dropped it; earlier answers stand, and the drain answers "not running" |
| `PresenterRuns.TableInvariant` | crates/owe-render/src/surface.rs:666-739 | over every interleaving, whoever is parked or waiting has a surface, every surface keeps exactly the configured number of slots, and no frame is committed at a size the compositor did not configure |
| `PresenterProofs.StepKeepsReplies` | crates/owe-render/src/surface.rs:977-1036 | one command or callback moves replies between places without losing or duplicating any |
| `PresenterProofs.FinishKeeps` | crates/owe-render/src/surface.rs:744-766 | finishing a present leaves its reply with a frame waiter exactly when a waited-for frame was presented, and otherwise in the caller's hand |
| `PresenterProofs.StepKeepsTable` | crates/owe-render/src/surface.rs:666-739 | one command or callback keeps the surface table, its rings and the size of every commit in order |
| `PresenterAnswers.PresentedIsJustified` | crates/owe-render/src/surface.rs:744-766 | over every run, no present is committed twice and every commit is some present's own frame on its own output; whoever waits for a frame callback has its own commit; and a present that is told "presented" has its own commit exactly unless Clear met it parked without waiting |
| `PresenterAnswers.StepTraced` | crates/owe-render/src/surface.rs:977-1036 | one command or callback keeps every reply tied to its request and to its own commit, and adds to the exceptions only what Clear answers early |
| `PresenterAnswers.ClearAnswersAFrameNobodySaw` | crates/owe-render/src/surface.rs:1003-1014 | Clear answers "presented" to a present for which nothing was ever committed |
| `PresenterAnswers.ConfigureSettlesParked` | crates/owe-render/src/surface.rs:666-739 | a configure settles the present parked on its surface exactly unless its size is new and the pool cannot be resized; no other parked present is touched |
| `PresenterAnswers.FrameCallbackReportsTheShownSize` | crates/owe-render/src/surface.rs:530-554 | after any run a frame callback answers exactly the waiter of its surface, whose own frame was committed on this output; the size it tells is that frame's if and only if the surface still has it |
| `PresenterAnswers.FrameCallbackReportsAnUnseenSize` | crates/owe-render/src/surface.rs:530-554 | a run of four events in which the answer tells a size at which nothing was ever committed |
| `PresenterReasons.EveryAnswerHasItsReason` | crates/owe-render/src/surface.rs:977-1036 | over every run, why each answer is given: "resize required" tells the size the surface of the requested output is configured to, and only to a present of another size; "presented", "unknown output", "busy", "not running" and "wayland" each only for the request, in the situation and to the holder they are meant for; nothing else is ever answered |
| `PresenterMoves.EveryStepMoves` | crates/owe-render/src/surface.rs:977-1036 | one table of what every command and callback does to surfaces, rings, parked presents, waiters, dropped replies and events; CancelFrame releases the parked present and the waiter and touches nothing on screen |
| `PresenterMoves.SizeIsLastConfigured` | crates/owe-render/src/surface.rs:666-739 | after every run a surface has the last nonzero size that its id was configured to |
| `PresenterMoves.ResizeTellsTheConfiguredSize` | crates/owe-render/src/surface.rs:744-754 | over every run whoever is told "resize required" asked with another size and is told the one its output was last configured to |
| `PresenterMoves.PresentOnAConfiguredSurface` | crates/owe-render/src/surface.rs:744-766 | a present of another size is told the configured one at once and nothing else happens; one of that size is never told to resize, and unless all buffers are held or something fails it is committed, and answered or armed |
| `SurfaceSlots.PassReaches` | crates/owe-render/src/surface.rs:1208-1230 | the round-robin pass inspects every slot exactly once, wherever the cursor stands |
| `SurfaceSlots.PassIsComplete` | crates/owe-render/src/surface.rs:1208-1230 | the pass fails exactly when the compositor holds every slot |
| `SurfaceSlots.AcquireFindsUsable` | crates/owe-render/src/surface.rs:1208-1259 | with one slot empty or released and a working allocator a usable slot is always returned, and no other slot changes |
| `SurfaceSlots.AcquireWhenAllHeld` | crates/owe-render/src/surface.rs:1208-1259 | with every slot held nothing is allocated; the answer is Busy or a slot released during the retry |
| `SurfaceSlots.UsedSlotComesLast` | crates/owe-render/src/surface.rs:1208-1230 | the slot handed out by a pass is the last one the next pass comes to |
| `SurfaceSlots.UploadKeepsRing` | crates/owe-render/src/surface.rs:1144-1204 | whatever fails in an upload, the ring keeps its slot count and correctly sized buffers; a commit holds the frame in a buffer of its own size; success implies a commit; Busy changes nothing |
| `Presenter.OutputSurface.AcquireSlot` | crates/owe-render/src/surface.rs:1208-1259 | the loop over the ring returns the slot, and leaves the ring, that the specification describes |
| `Presenter.OutputSurface.UploadFrame` | crates/owe-render/src/surface.rs:1144-1204 | the upload leaves the ring as specified after success and after every failure |
| `Presenter.PresenterState.FinishPresent` | crates/owe-render/src/surface.rs:744-766 | takes the specified step: another size than the configured one is told the configured one and changes nothing; otherwise the waiter is armed before the upload and disarmed when it fails, and nobody is told to resize |
| `Presenter.PresenterState.HandlePresent` | crates/owe-render/src/surface.rs:977-1002 | takes the specified step for Present and keeps every invariant |
| `Presenter.PresenterState.HandleClear` | crates/owe-render/src/surface.rs:1003-1025 | takes the specified step for Clear and keeps every invariant |
| `Presenter.PresenterState.HandleCancel` | crates/owe-render/src/surface.rs:1026-1032 | takes the specified step for CancelFrame and keeps every invariant |
| `Presenter.PresenterState.ReleaseOutput` | crates/owe-render/src/surface.rs:1003-1019 | drops a surface and answers whoever is parked on it or waits for it, as specified |
| `Presenter.PresenterState.OnConfigureCallback` | crates/owe-render/src/surface.rs:666-739 | takes the specified step for a configure: buffers dropped on a new size, parked present finished |
| `Presenter.PresenterState.OnFrameCallback` | crates/owe-render/src/surface.rs:530-554 | takes the specified step for a frame callback |
| `Presenter.PresenterState.OnClosed` | crates/owe-render/src/surface.rs:643-664 | takes the specified step for a closed surface |
| `Presenter.PresenterState.OnOutputDestroyed` | crates/owe-render/src/surface.rs:609-639 | takes the specified step for a vanished output |
| `Presenter.PresenterState.DrainAll` | crates/owe-render/src/surface.rs:965-972 | the drain visits every parked and every waiting reply and leaves none |
| `HotplugDiff.Diff` | crates/owe-core/src/supervisor.rs:83-133 | the loops and the sort return the diff of two snapshots: exactly the events owed, in name order |
| `HotplugDiff.DiffIsUnique` | crates/owe-core/src/supervisor.rs:83-133 | there is only one such list, so the order in which outputs are enumerated cannot matter |
| `HotplugDiff.DiffTellsTheChange` | crates/owe-core/src/supervisor.rs:83-133 | a diff tells of every output what has happened to it, by one event, and is silent exactly about those that are listed as before, in use or not, and at one size if in use |
| `HotplugDiff.LatestIsLast` | crates/owe-core/src/supervisor.rs:83-92 | of several entries with one name the last one counts |
| `HotplugDiff.BelowIsLexicographic` | crates/owe-core/src/supervisor.rs:125-133 | the order of the events is that of a dictionary over output names |
| `SupervisorRuns.WorkerLifecycle` | crates/owe-core/src/supervisor.rs:297-421 | along any chain of snapshots, failures, successes and forgotten outputs the records mirror the latest snapshot, Spawn and Teardown strictly alternate per output with everything else in between, and Spawns exceed Teardowns by one exactly while the output is active |
| `SupervisorRuns.SnapshotGivesWhatIsDue` | crates/owe-core/src/supervisor.rs:297-421 | after any history a new snapshot gives each output exactly the actions it is due, reasons included: Spawn on becoming active, Teardown on ceasing, Resize to the new size while staying active, nothing otherwise |
| `SupervisorRuns.WorkerCounts` | crates/owe-core/src/supervisor.rs:297-402 | strict alternation makes Spawns minus Teardowns the number of running workers |
| `SupervisorRuns.EventMeetsAnyRecord` | crates/owe-core/src/supervisor.rs:297-397 | an event on its own, met by any record or none: presence, activity and size are what it says, failures and health are kept, and an output "appeared" exactly if it was not there |
| `SupervisorRuns.RepeatedEvent` | crates/owe-core/src/supervisor.rs:297-397 | the same event again changes no record, and asks for something only if it brings an output: another worker |
| `SupervisorRuns.GiveUpExactlyWhenBudgetIsSpent` | crates/owe-core/src/supervisor.rs:424-459 | after any history GiveUp is returned exactly when the failures younger than the window, since the output last succeeded or was forgotten, reach the budget, whatever happened to other outputs in between |
| `SupervisorRuns.PopCountsYoung` | crates/owe-core/src/supervisor.rs:472-494 | what the pruned deque keeps is the number of failures of the full log that are younger than the window |
| `SupervisorRuns.FutureRestartsExpire` | crates/owe-core/src/supervisor.rs:476-487 | restarts that lie in the future are dropped |
| `SupervisorRuns.RecoveringBounds` | crates/owe-core/src/supervisor.rs:424-494 | with a window of positive length, a recovering output has between one restart and the number it reports, which is below the budget |
| `SupervisorRuns.ZeroWindowNeverGivesUp` | crates/owe-core/src/supervisor.rs:472-494 | with a window of length zero every failure is forgotten at once and the answer is always Reapply |
| `SupervisorRuns.WhatLeavesFailed` | crates/owe-core/src/supervisor.rs:440-468 | an output leaves Failed exactly on a success, on a failure that finds the budget unspent or by being forgotten, which alone removes its record; no snapshot does it |
| `SupervisorRuns.ForgetKeeps` | crates/owe-core/src/supervisor.rs:533-536 | forgetting an output keeps records, alternation and failure accounts true if and only if the latest snapshot does not list it |
| `SupervisorRuns.ForgettingAListedOutputLeavesItsWorker` | crates/owe-core/src/supervisor.rs:533-536 | after any history, an active output that is forgotten gets no Teardown from the snapshot in which it is gone or inactive, although it is due one |
| `Supervisor.Supervisor.ObserveOne` | crates/owe-core/src/supervisor.rs:297-397 | one event changes its own record and returns its actions as specified |
| `Supervisor.Supervisor.ObserveSnapshot` | crates/owe-core/src/supervisor.rs:405-421 | diffs, observes, and copies the list into the records |
| `Supervisor.Supervisor.RecordFailure` | crates/owe-core/src/supervisor.rs:424-459 | ages the deque first, then gives the verdict |
| `Supervisor.Supervisor.RecordSuccess` | crates/owe-core/src/supervisor.rs:462-468 | empties the deque of that output |
| `Supervisor.Supervisor.Forget` | crates/owe-core/src/supervisor.rs:533-536 | removes the record of that output and no other |
| `Supervisor.Supervisor.Expire` | crates/owe-core/src/supervisor.rs:472-494 | prunes every deque from the front and ends recoveries whose deque became empty |
| `FrameDecoder.SplitJoins` | crates/owe-ipc/src/frame.rs:74-94 | splitting a stream at newlines loses nothing |
| `FrameDecoder.JoinSplits` | crates/owe-ipc/src/frame.rs:74-94 | the split is the only one |
| `FrameDecoder.DrainIsSplit` | crates/owe-ipc/src/frame.rs:74-94 | draining yields the lines of the split up to the first one longer than the cap, and poisons exactly when there is one |
| `FrameDecoder.DrainInTwo` | crates/owe-ipc/src/frame.rs:65-94 | draining a prefix first changes nothing |
| `FrameDecoder.ChunkingIsInvisible` | crates/owe-ipc/src/frame.rs:65-94 | for every way of cutting a stream into pushes, the payloads and the poisoning are those of the whole stream |
| `FrameDecoder.EncodedComesBack` | crates/owe-ipc/src/frame.rs:33-42 | any sequence of encoded messages comes back unchanged, in order, under every chunking, with nothing left over |
| `FrameDecoder.CapIsOnThePayload` | crates/owe-ipc/src/frame.rs:33-94 | a line is refused exactly when its payload alone exceeds the cap, one byte more than can be encoded |
| `FrameDecoder.FrameDecoder.Push` | crates/owe-ipc/src/frame.rs:65-71 | appends, unless poisoned |
| `FrameDecoder.FrameDecoder.Position` | crates/owe-ipc/src/frame.rs:74-94 | the search finds the first newline |
| `FrameDecoder.FrameDecoder.NextFrame` | crates/owe-ipc/src/frame.rs:74-94 | takes exactly the first step of the drain: a payload, nothing yet, or poison |
| `Connection.ServeConnection` | crates/owe-ipc/src/server.rs:236-291 | the read and drain loops write, as far as the peer reads, one reply for every line of the concatenated bytes: the handler's own answer to an accepted request, in the state to which the accepted requests before it have led, and a refusal to every other line; each with the id of its line exactly if that fits into a frame; the session is that of the lines handled, and in it the handler sees only `hello` until one has succeeded |
| `Connection.HandlerDecides` | crates/owe-ipc/src/server.rs:293-320 | for every stream, folding the handler over the accepted requests gives every outcome, every call, the handshake and the final state of the session |
| `Connection.RefusedLineIsIgnored` | crates/owe-ipc/src/server.rs:293-309 | a line that cannot be decoded, or that is refused before `hello`, is told "bad request" and leaves the session as if it had not been sent |
| `Connection.HandledOnly` | crates/owe-ipc/src/server.rs:236-291 | however the stream is cut into reads and wherever the connection stands, the calls made are those for the lines of the stream up to the first whose reply cannot be written |
| `Connection.StreamOnly` | crates/owe-ipc/src/server.rs:236-291 | however a stream is cut into reads, what is written depends only on its bytes |
| `Connection.ReplyPerLine` | crates/owe-ipc/src/server.rs:236-320 | one reply per line, in order, with the id of its request; an oversize line gets exactly one further reply, the last |
| `Connection.GatedStep` | crates/owe-ipc/src/server.rs:293-320 | a payload keeps the gate: only `hello` reaches the handler before a successful `hello` |
| `Connection.BadLineIsIsolated` | crates/owe-ipc/src/server.rs:293-320 | a line that cannot be decoded gets one error reply, never reaches the handler, and leaves every other reply and the session as they would be without it |
| `Connection.WireKeepsId` | crates/owe-ipc/src/server.rs:322-335 | on the wire an id survives exactly when the reply, or the error that replaces it, fits into a frame |
| `Connection.LongIdIsLost` | crates/owe-ipc/src/server.rs:322-335 | a request of exactly the accepted length whose reply goes out without its id |
| `Connection.ReadLoop` | crates/owe-ipc/src/server.rs:236-291 | from any point of a connection the outer loop writes the replies, and ends in the session, that answering the reads one by one gives |
| `Connection.DrainFrames` | crates/owe-ipc/src/server.rs:262-289 | the inner loop answers what is buffered and stops at the first write that fails or line that is too long |
| `FrameCache.AccountingHolds` | crates/owe-media/src/cache.rs:210-260 | over any inserts and clears the counters are the sums of what is held and the cap holds; an insert is refused exactly when it does not fit, and then changes only the refusal counter |
| `FrameCache.RefusalsAreCounted` | crates/owe-media/src/cache.rs:210-227 | over any history the refusal counter is the number of inserts that found no room, across clears, up to its maximum |
| `FrameCache.AcceptedFrameReadsBack` | crates/owe-media/src/cache.rs:210-260 | an accepted frame reads back unchanged, no other index is affected, and after a clear nothing is found |
| `FrameCache.ReadsBackWhatWasPutIn` | crates/owe-media/src/cache.rs:241-253 | over any history whatever is found under an index is, pixel for pixel, a frame of that index that was put in |
| `FrameCache.ContainsAgreesWithGet` | crates/owe-media/src/cache.rs:195-202 | with contiguous indices the range test agrees with the search |
| `FrameCache.FrameCache.Put` | crates/owe-media/src/cache.rs:210-235 | accepts or refuses as specified |
| `FrameCache.FrameCache.Read` | crates/owe-media/src/cache.rs:241-253 | the linear search answers with the first frame of that index |
| `AnimatedModel.FirstPassIsTheAnimation` | crates/owe-media/src/animated.rs:276-449 | for every container and every cap, opening succeeds exactly when the container is not empty and, if it breaks, the pictures before the break do not all fit; and the first pass hands out the container's frames in order, once each, with their own contents, then a broken frame's error once, then the end |
| `AnimatedModel.OpenKeepsTheLongestHead` | crates/owe-media/src/animated.rs:276-362 | the cache ends up with the longest head of the animation that fits the cap and the counters; opening fails for a broken frame exactly when all pictures before it fit, and for lack of frames exactly when the container is empty |
| `AnimatedModel.NextGives` | crates/owe-media/src/animated.rs:429-449 | from any reachable state one call hands out the first frame still to come from cached head, held frame and container |
| `AnimatedModel.GoodEndsAtTheFirstBreak` | crates/owe-media/src/animated.rs:365-400 | the part of a container that is played ends with it or at the first item that is not a picture of four bytes a pixel |
| `AnimatedModel.UnreadableFrameBlocks` | crates/owe-media/src/animated.rs:429-436 | a cached frame that cannot be read back is reported by every further call, and playback stays there |
| `AnimatedModel.FillReaches` | crates/owe-media/src/animated.rs:334-362 | the pre-cache ends ready to play: everything cached, or a cached head with the refused frame in hand |
| `AnimatedModel.RewoundPass` | crates/owe-media/src/animated.rs:451-460 | after a rewind from anywhere the pass is the cached head and then, in streaming mode, the whole container relabelled from the cache's length |
| `AnimatedModel.ExactReplay` | crates/owe-media/src/animated.rs:451-460 | a rewound pass is the animation exactly when everything is cached or nothing is |
| `AnimatedModel.PartlyCachedReplayIsWrong` | crates/owe-media/src/animated.rs:451-460 | under any lossless compression, two pictures of which the cache has room for the first alone: the first pass is right, the rewound one hands out the first twice and the second under an index the animation does not have |
| `AnimatedModel.OneMebibyteReplaysWrongly` | crates/owe-media/src/animated.rs:284-287 | it happens with one mebibyte of cache, no compression and any two pictures of 512 by 512 |
| `AnimatedDecoder.AnimatedDecoder.PullFrame` | crates/owe-media/src/animated.rs:365-401 | pulls as specified and remembers the end |
| `AnimatedDecoder.AnimatedDecoder.PreCache` | crates/owe-media/src/animated.rs:334-362 | the loop fills the cache as specified |
| `AnimatedDecoder.AnimatedDecoder.NextFrame` | crates/owe-media/src/animated.rs:429-449 | chooses between cache, held frame and container as specified |
| `AnimatedDecoder.AnimatedDecoder.RewindTo` | crates/owe-media/src/animated.rs:451-460 | restarts the container with the index set to the cache's length |
| `AnimatedDecoder.OpenAnimation` | crates/owe-media/src/animated.rs:276-328 | builds, pre-caches and refuses an empty container |
| `LibraryWalk.Walk` | crates/owe-core/src/library.rs:462-504 | the explicit-stack loop ends, and returns exactly the supported files reachable through readable, visible, real directories, each unreadable directory once, and the number of unsupported files |
| `LibraryWalk.ReadDirectory` | crates/owe-core/src/library.rs:474-502 | the subdirectories to push, the files to take and the number of others in one directory |
| `LibraryWalk.VisibleJoin` | crates/owe-core/src/library.rs:462-504 | visibility composes: what a walk sees below a directory does not depend on where the walk started |
| `LibraryWalk.MissedThroughNesting` | crates/owe-core/src/library.rs:378-390 | a wallpaper of a configured root is missed exactly when no walked root sees that root |
| `LibraryWalk.OutermostRootsSuffice` | crates/owe-core/src/library.rs:378-390 | walking only outermost roots finds everything exactly when every root with a wallpaper is visible from a walked root |
| `LibraryWalk.HiddenNestedRootIsMissed` | crates/owe-core/src/library.rs:378-390 | a root inside a hidden directory of another root is never walked |
| `LibraryScan.Library.Scan` | crates/owe-core/src/library.rs:335-455 | after one scan a row is there exactly if its wallpaper is reached from an outermost folder, or it was there and no folder is above it or one above it is missing; ids stay distinct and stamps are those of the files as far as spellings allow; counts, missing roots and unreadable directories are exact, and each skipped file is counted once |
| `LibraryScan.WalkRoots` | crates/owe-core/src/library.rs:377-390 | the root loop finds what the outermost roots reach |
| `LibraryScan.Upsert` | crates/owe-core/src/library.rs:392-433 | in any order of the paths, new ones get fresh larger ids and the scan's spelling; changed ones keep id and text, and get the new stamp exactly if their row has the scan's spelling, being counted either way; the rest are untouched |
| `LibraryScan.DeleteGone` | crates/owe-core/src/library.rs:435-450 | exactly the unseen rows go that have a folder above them that is there and none that is missing |
| `LibraryScan.RowsAfterAScan` | crates/owe-core/src/library.rs:335-455 | the same for every index that a scan may leave, said of folders and files alone |
| `LibraryScan.SkippedByAScan` | crates/owe-core/src/library.rs:382-390 | with no folder configured twice, the skipped files are those of no known kind in the directories that some outermost folder leads to, each counted once |
| `LibraryScan.MergeAddsUp` | crates/owe-core/src/library.rs:392-450 | the new index has the old size plus added minus removed, and seen is added plus updated plus unchanged |
| `LibraryScan.SecondScanTouchesNothing` | crates/owe-core/src/library.rs:335-455 | a second scan of the same tree leaves every row as it is, adds and removes none, and reports as updated exactly the rows that the first could not update for their spelling; there are none exactly when the index shows every file's stamp |
| `LibraryScan.RespelledRowStaysOld` | crates/owe-core/src/library.rs:401-430 | one configured folder with one changed wallpaper whose row is spelled otherwise: the scan reports one update and the row keeps its old stamp |
| `LibraryScan.MissingRootKeepsRows` | crates/owe-core/src/library.rs:435-450 | a row under a root that was not there stays, with its id, whatever else was seen |
| `LibraryScan.OnlyReadDirectoriesLoseRows` | crates/owe-core/src/library.rs:435-450 | rows go only from directories this scan has read exactly when every row that may be dropped lies in a directory that a walked root leads to and that can be read |
| `LibraryScan.RowInPlainSight` | crates/owe-core/src/library.rs:377-450 | a wallpaper in plain sight under a configured folder keeps its row exactly when a walked root sees that folder |
| `LibraryScan.RowsLostByMistake` | crates/owe-core/src/library.rs:435-450 | in one small tree any scan removes three rows whose files still exist, from directories it has not read: an unreadable one, a readable one below it, and a configured one inside a hidden one |
| `LikePattern.EscapeLike` | crates/owe-core/src/library.rs:705-714 | the loop escapes each special character and copies the rest |
| `LikePattern.EscapedTextIsLiteral` | crates/owe-core/src/library.rs:705-714 | under the full semantics of `%`, `_` and the escape character an escaped text matches itself only, up to the case of ASCII letters, and leaves the rest to the rest of the pattern |
| `LikePattern.OnlyAsciiCaseIsFolded` | crates/owe-core/src/library.rs:640-643 | two different characters match only if they are the two cases of one ASCII letter |
| `LikePattern.FilterFindsOccurrences` | crates/owe-core/src/library.rs:649-662 | the search pattern matches exactly the texts in which the filter occurs, up to the case of ASCII letters |
| `LikePattern.BelowIsAPrefix` | crates/owe-core/src/library.rs:667-683 | the directory pattern matches exactly the texts that go on with a separator after the directory, up to the case of ASCII letters |
| `LibraryQuery.BuildQuery` | crates/owe-core/src/library.rs:644-702 | whichever fields are set, clauses and numbered parameters together select exactly the rows asked for; a blank filter asks for nothing |
| `LibraryQuery.TrimTakesOnlySpace` | crates/owe-core/src/library.rs:649-653 | trimming takes white space from both ends, all of it and nothing else |
| `LibraryQuery.SpaceIsWhiteSpace` | crates/owe-core/src/library.rs:649-653 | what is trimmed are the white space characters of the Unicode standard |
| `LibraryQuery.UnderFindsTheSubtree` | crates/owe-core/src/library.rs:667-683 | component by component: in its plain spelling a directory other than the root finds itself, all below it, and what lies below a directory that differs only in case |
| `LibraryQuery.SpellingDecides` | crates/owe-core/src/library.rs:667-683 | for every absolute text, the subtree of the directory it names is found exactly when the directory is not the root and the text is its plain spelling; any other spelling of a directory finds nothing |
| `LibraryQuery.TrailingSeparatorFindsNothing` | crates/owe-core/src/library.rs:667-683 | a directory written with a separator behind it finds neither itself nor anything below it |
| `LibraryQuery.RelativeTextFindsNothing` | crates/owe-core/src/library.rs:667-683 | a text that is not absolute finds nothing, except the empty one, which finds everything |
| `LibraryQuery.UnderTheRootFindsTheRootOnly` | crates/owe-core/src/library.rs:667-683 | asked for the root directory, it finds nothing below it |
| `ThumbModel.DisciplineIsExact` | crates/owe-core/src/thumbs.rs:164-263 | queued keys stay distinct, a key is recorded as enqueued exactly while queued or in flight, and the queue keeps to its ceiling, if and only if no queued key is reported complete and the key in flight is not forgotten |
| `ThumbModel.KeysTellApart` | crates/owe-core/src/thumbs.rs:164-167 | two requests have the same key exactly if path and stamp are the same, and a job is for the path and stamp asked for |
| `ThumbRuns.NoJobIsLost` | crates/owe-core/src/thumbs.rs:164-256 | in every run, every enqueued answer is a completion, in flight, queued or forgotten while queued; jobs come out in request order, each at most once, and each is the one that was asked for |
| `ThumbRuns.DisciplinedRunIsGood` | crates/owe-core/src/thumbs.rs:164-263 | at every moment of a disciplined run nothing is queued twice or queued while in flight |
| `ThumbRuns.AnswersMeanWhatTheySay` | crates/owe-core/src/thumbs.rs:164-201 | what each answer to a request says about the queue and the records; a refusal for want of room leaves no trace |
| `ThumbRuns.AnswersHaveAHistory` | crates/owe-core/src/thumbs.rs:164-263 | in every run whatsoever and for the very path and stamp asked about: a thumbnail is handed out only if it was completed or found for them, "already queued" only if they were asked for, a failure only if they failed or for want of room, and nothing that was overruled since |
| `ThumbRuns.CompletionsAreRemembered` | crates/owe-core/src/thumbs.rs:216-230 | what a completion says, file or reason, is recorded until another completion, forgetting or, of a failure, a retry overrules it |
| `ThumbRuns.StatsCount` | crates/owe-core/src/thumbs.rs:216-285 | the statistics count, since the last reset, the completions that succeeded, those that failed, and the requests answered from the disk |
| `ThumbRuns.SomeRoomAlways` | crates/owe-core/src/thumbs.rs:140-151 | whatever ceiling is asked for, a scheduler with nothing to do takes a request |
| `ThumbRuns.ForgettingInFlightDoubles` | crates/owe-core/src/thumbs.rs:253-256 | forgetting the key in flight lets it be queued while it is still being generated |
| `ThumbRuns.CollectionIsSafe` | crates/owe-core/src/thumbs.rs:109-111 | a cached key is collected exactly when it is not queued, not in flight and not in use |
| `ThumbScheduler.Scheduler.Request` | crates/owe-core/src/thumbs.rs:164-201 | answers and records as specified: a recorded path and stamp change nothing, and a new job is for the path and stamp asked for, under their own key |
| `ThumbScheduler.Scheduler.NextJob` | crates/owe-core/src/thumbs.rs:204-213 | hands out the oldest job unless one is in flight, with the key of its own path and stamp |
| `ThumbScheduler.Scheduler.Complete` | crates/owe-core/src/thumbs.rs:216-230 | records the outcome; the records stay true exactly if the key was not queued |
| `ThumbScheduler.Scheduler.Forget` | crates/owe-core/src/thumbs.rs:253-256 | removes the key from records and queue; the records stay true exactly if it was not in flight |
| `ThumbScheduler.Scheduler.Retry` | crates/owe-core/src/thumbs.rs:259-263 | forgets a failure and nothing else |
| `ThumbScheduler.Scheduler.IsIdle` | crates/owe-core/src/thumbs.rs:233-235 | idle exactly when no key is recorded as enqueued |
| `ThumbScheduler.Scheduler.LiveKeys` | crates/owe-core/src/thumbs.rs:243-249 | lists every key that has not failed, among them all queued and in flight |
| `OutputWorker.StateFollowsRequests` | crates/owe-core/src/worker.rs:186-293 | over every event sequence the counter is the newest generation applied, whatever holds pixels holds that one, and work in hand is the last thing rendered |
| `OutputWorker.MaxIsNewest` | crates/owe-core/src/worker.rs:247-256 | the newest generation of a run is the greatest one it applies |
| `OutputWorker.NoStaleFrame` | crates/owe-core/src/worker.rs:190-206 | the generation presented has been asked for, nothing newer has been asked for by then, and it is presented at the size last rendered |
| `OutputWorker.PresentedAtItsOwnSize` | crates/owe-core/src/worker.rs:190-206 | the size presented is that of every Render of the generation so far, of which there is one, exactly if all of them asked for the same size |
| `OutputWorker.LateAnswerTakesTheNewSize` | crates/owe-core/src/worker.rs:190-206 | a run of three events in which the answer to a Render is presented at a size configured after it |
| `OutputWorker.RenderIsNewest` | crates/owe-core/src/worker.rs:247-287 | what is rendered has been asked for, and nothing newer has been asked for by then |
| `OutputWorker.NothingAfterDropping` | crates/owe-core/src/worker.rs:231-293 | after a clear, close or failure nothing is rendered or presented until a strictly newer wallpaper is applied |
| `OutputWorker.SleepsUntilNews` | crates/owe-core/src/worker.rs:72-83 | over every run a sleeping worker draws nothing, keeps its counter and shows what it showed or nothing, up to the first newer wallpaper or different size; that one makes it draw, a size only if something is still shown |
| `OutputWorker.PixelsGoWithNotice` | crates/owe-core/src/worker.rs:231-293 | pixels are given up only with DropPixels, which always leaves none and answers exactly a clear, a close or a failure that is not stale |
| `OutputWorker.AcknowledgedSizeIsBelieved` | crates/owe-core/src/worker.rs:208-227 | the size recorded as presented need not be one that was rendered |
| `OutputWorker.OwnAcknowledgementFinishes` | crates/owe-core/src/worker.rs:208-227 | over every run, work ends on exactly the acknowledgements that name the generation in hand, first frame or new size, and shows what they name; any other acknowledgement changes nothing |
| `OutputWorker.ShownWasAcknowledged` | crates/owe-core/src/worker.rs:208-227 | over every run, what a worker shows was acknowledged with that generation and size while it was in hand, and has been shown ever since |
| `OutputWorker.StateHasItsCause` | crates/owe-core/src/worker.rs:186-293 | over every run, the last change of state came from an event that can cause it, with the generation, size and reason that the state shows |
| `OutputWorker.EveryEventHasItsEffect` | crates/owe-core/src/worker.rs:186-293 | over every run, what each event does and when it is heeded; a prepared frame of the generation in hand is always presented |
| `OutputWorker.OutputWorker.On` | crates/owe-core/src/worker.rs:186-245 | takes the specified step for every event; an acknowledgement of the generation in hand shows it, any other leaves the object as it is |
| `OutputWorker.OutputWorker.Apply` | crates/owe-core/src/worker.rs:247-256 | ignores duplicates and late requests, otherwise starts over |
| `OutputWorker.OutputWorker.Configure` | crates/owe-core/src/worker.rs:258-287 | re-renders the same generation, or does nothing |
| `VideoModel.FrameByFrame` | crates/owe-media/src/video.rs:863-951 | call `i` returns frame `i` with index `i` and its own bytes of the stream, for as many whole frames as the stream has |
| `VideoModel.ThenTheEnd` | crates/owe-media/src/video.rs:904-937 | the next call ends cleanly exactly when nothing is left over, the pipe did not break and the child succeeded; otherwise it is one error, and which one is said exactly: a broken pipe, then a child that cannot be waited for, then bytes left over, then a child that failed |
| `VideoModel.NothingAfterTheEnd` | crates/owe-media/src/video.rs:863-866 | every later call returns nothing |
| `VideoModel.FinishedForGood` | crates/owe-media/src/video.rs:863-951 | after any end or error the decoder stays finished until it is rewound |
| `VideoModel.NeverWithoutItsChild` | crates/owe-media/src/video.rs:863-957 | however a decoder is used, it has a child and its output exactly while it is not finished, so no call finds one missing; a call without memory for a frame says so and ends playback |
| `VideoModel.FramesAreTheStream` | crates/owe-media/src/video.rs:863-951 | the frames put together are the stream without its incomplete last frame |
| `VideoModel.RewindPlaysItAll` | crates/owe-media/src/video.rs:953-957 | after a rewind from any state every call answers as for a decoder just opened, so the frames are the whole stream again while the count of decoded frames goes on; if the child cannot be started no call ever returns anything |
| `VideoDecoder.VideoDecoder.Fill` | crates/owe-media/src/video.rs:891-903 | the read loop fills the buffer with the first bytes of the stream, whatever sizes the reads come in and however often they are interrupted |
| `VideoDecoder.VideoDecoder.NextFrame` | crates/owe-media/src/video.rs:863-951 | returns the next frame, the end or an error as specified, independently of the reads |
| `VideoDecoder.VideoDecoder.Rewind` | crates/owe-media/src/video.rs:953-957 | stops the child, resets the index and starts a new one |
| `Base64.RoundTrip` | app/src-tauri/src/main.rs:279-301 | a decoder written from section 4 of RFC 4648 recovers every byte string from its encoding |
| `Base64.OnlyEncodingsDecode` | app/src-tauri/src/main.rs:279-301 | whatever decodes is the encoding of what it decodes to |
| `Base64.EncodingIsInjective` | app/src-tauri/src/main.rs:279-301 | different byte strings have different encodings |
| `Base64.ShapeOfEncoding` | app/src-tauri/src/main.rs:279-301 | four characters for every three bytes begun, letters of the alphabet followed by as much padding as bytes are missing |
| `Base64.EncodeBytes` | app/src-tauri/src/main.rs:282-300 | the loop over chunks of three computes the encoding |
| `Base64.PushChunk` | app/src-tauri/src/main.rs:283-298 | one chunk becomes its four characters |
| `ScalingPlan.PlanIsProper` | crates/owe-render/src/image.rs:127-196 | in every mode and for every size the window lies centred in the picture and the quad centred on the screen |
| `ScalingPlan.CoverFills` | crates/owe-render/src/image.rs:146-161 | Cover keeps the picture's shape, fills the screen, shows it whole along at least one axis, and magnifies as little as filling takes |
| `ScalingPlan.CoverShowsTheScreensShape` | crates/owe-render/src/image.rs:146-161 | what Cover shows of the picture has the shape of the screen |
| `ScalingPlan.ContainFits` | crates/owe-render/src/image.rs:162-174 | Contain keeps the picture's shape, shows all of it, reaches the screen's edge along at least one axis, and is the largest that fits |
| `ScalingPlan.CenterIsOneToOne` | crates/owe-render/src/image.rs:175-194 | Center draws one source pixel per output pixel on both axes |
| `ScalingPlan.StretchFillsWithEverything` | crates/owe-render/src/image.rs:127-145 | Stretch draws the whole picture on the whole screen, keeping its shape exactly if the screen has the same |
| `ScalingPlan.NothingToPlace` | crates/owe-render/src/image.rs:127-137 | with an empty picture or screen every mode draws all of it everywhere |
| `ScalingPlan.SameShapeNeedsNoChoice` | crates/owe-render/src/image.rs:127-196 | Cover, Contain and Stretch agree exactly when picture and screen have the same shape |

## Left out

- Presenter.PresenterState.constructor: takes only 1 to 8 buffers, as `start_with_buffers` lets through; the refusal of other counts is not modelled.
- Presenter.OutputSurface.AcquireSlot: the cursor does not wrap around, and the sleeping retry is reduced to "a released slot may turn up or not".
- Pixel contents of presented frames, damage, scale factors, and the protocol objects behind a surface.
- The acknowledgements of Clear and CancelFrame, the clients' own timeouts, and what the log says.
- SupervisorRuns.GiveUpExactlyWhenBudgetIsSpent: the number of restarts is not cut to 32 bits, which four billion failures within one window would take.
- SupervisorRuns.WorkerLifecycle: its runs forget only outputs that the latest snapshot does not list, since it fails for others (`ForgetKeeps`); the accessors over the records are not modelled.
- Connection.ServeConnection: JSON is a pair of functions, the handler is deterministic, and a write either succeeds whole or ends the connection.
- FrameCache.ReadsBackWhatWasPutIn: compression is assumed to succeed and to be lossless; the fallback to raw bytes is not modelled.
- AnimatedModel.FirstPassIsTheAnimation: 64-bit counters do not saturate, and the file does not change between two passes.
- LibraryWalk.Walk: roots are real directories, not links to directories; entries do not appear or vanish during a walk.
- LibraryScan.Library.Scan: how a scan spells a path is an input, where the program takes the text of the walked root and appends the names; different paths have different texts; database errors and the rollback of a failed transaction, paths that are not valid text, and the conversion of sizes to signed 64-bit numbers.
- LibraryQuery.SpellingDecides: the directories in the index are spelled plainly, as they are when the configured folders are.
- LibraryQuery.BuildQuery: the text of the SQL, the ordering and the paging; NUL characters in a filter.
- ThumbModel.DisciplineIsExact: keys are what they are hashed from; collisions of the 128-bit hash are not modelled, and whether a cache file exists is an input.
- VideoModel.ThenTheEnd: processes, pipes and timeouts are a byte stream, a flag for a broken pipe and an exit; the text of errors and the saturation of the 64-bit index are not modelled.
- ScalingPlan.PlanIsProper: exact real numbers; the rounding of the program's floating point is not modelled.
- Hardware probing, command lines, configuration, scheduling, the graphical front end and the command line client: thin, or one branch each.
