# SHIRE lockstep, proved in Dafny

SHIRE runs a spacecraft simulation in lockstep: a server publishes the phases PREPARE, EXECUTE and COMMIT of every
10 ms tick, and clients receive each phase, work, and complete it. This project models the code that makes that
lockstep correct, and the tools around it whose results have to be trusted, and proves what they promise.

`dafny verify dfyconfig.toml` checks the whole project.

## What is modelled

**The phase barrier** (`Frames`, `Barrier`, `BarrierInvariant`, `BarrierTheorems`, `BarrierRuns`, `BarrierHandshake`,
`SharedBarrier`). `Barrier` is the protocol of simulith/src/simulith_shared_barrier.c as a transition system. A step is
one atomic load or store outside the mutex, one store of the publisher, one signal, or a stretch of a lock section that
no other thread can tell apart from a single step; the three payload reads of the unlocked receive are three steps.
Beside the server run, for any number of clients, a receiver, any number of completing threads and any number of
interrupters, and `Stop` can come at any time. The server's part is the loop of simulith/src/simulith_server.c:
publish, wait until every participant has responded, publish the next phase. `BarrierInvariant` has the inductive
invariant, `BarrierTheorems` what follows from it in every reachable state. `BarrierRuns` drives the protocol through
any number of phases, and with such runs `BarrierHandshake` shows what can happen: for which phase masks the unlocked
receive is safe, and which clients are handed phases of others. `SharedBarrier` has the calls themselves as classes
whose methods assign the fields statement by statement; a ghost copy of the protocol state moves with them, so each call
is shown to be exactly the protocol steps it stands for.

**The client** (`PhaseClient`, `Claims`, `Lockstep`, `LockstepLoop`). Frame acceptance, completion and the phased loop
of simulith/src/simulith_client.c; the claim, complete and roll-back of several threads as a second transition system,
with a transport that may lose its reply; and the composition: which frames of the barrier a client accepts, and when
its phased loop fails over the barrier.

**The control trace** (`Bytes`, `TraceCodec`, `TraceRecords`, `TraceDecode`, `TraceFile`, `TraceQueue`, `TraceMonitor`,
`TraceLayout`, `TraceAccepts`, `TraceFinish`). The C encoder and its fixed buffer, the Python decoder and its reader,
the scanner of tools/shire-perf.py, the 64-slot ring with its writer thread and their lock sections, and the rename at
the end. `TraceLayout` says where everything is in a record, `TraceAccepts` which bytes the decoder accepts, and
`TraceFinish` what a finish comes to. Doubles are their 64-bit patterns, so everything is exact.

**EPS configuration and power** (`EpsConfig`, `EpsNormalizer`, `EpsTheorems`, `EpsLayers`, `PowerRuntime`). The
configuration check and layer merge in Python, the power runtime in C, and the bound that the first puts on the second.
`EpsTheorems` states acceptance and outcome of the check by the entries of the configuration alone.

**The visualization mesh** (`ObjMesh`, `Glb`, `GlbMesh`). The OBJ reader with its vertex dictionary, the aligned buffer,
the binary container, and what a renderer finds in the file.

**Placement** (`Text`, `Cpuset`, `Placement`, `PlacementShares`, `PlacementPlan`, `PlanTheorems`), **limits**
(`LimitMerge`, `LimitRanges`, `Xtce`, `XtceTheorems`), **framing** (`Framing`), **campaign paths** (`TreePath`) and
**the calendar** (`Calendar`): the core allocator and its texts, the limit cascade and the XTCE rewrite, UDP packets
over a TCP stream in both directions, dotted paths and sampling, and days since J2000.

Functions state what the code computes; methods with the source's loops and classes with its fields are proved equal to
them; lemmas state what that means. `Options` holds the one option type.

## Where the code does not keep a promise

* A client keeps 2^64-1 for "no frame yet". A frame with that very sequence makes it forget: accepted frames increase
  exactly as long as the last sequence is not 2^64-1 (`PhaseClient.AcceptedFramesIncreaseIff`), and no frame is
  completed twice exactly as long as none carries it (`Claims.AtMostOnceExactly`,
  `Claims.SentinelFrameCompletesTwice`). The server's sequence would have to reach 2^64-1, so the
  lockstep theorems let it run up to 2^64-2.
* The unlocked receive is safe only because the handshake reserves it for clients of all three phases: with any other
  mask some run returns a frame that is not the one of the generation it loaded
  (`BarrierHandshake.FastReceiveSafeExactly`), and without COMMIT even one that is never published
  (`BarrierHandshake.MixedFrameWithoutCommit`).
* The unlocked receive does not look at the stop flag: with an unseen publication it returns 0 while the barrier is
  stopping, where the locked path returns 1 (`SharedBarrier.BarrierHandle.Receive`).
* The locked receive returns any unseen publication, also one the client takes no part in: some run does so exactly if
  the client's mask is partial (`BarrierHandshake.HandedOwnPhasesExactly`). The phased loop then fails with -1, and
  over the lockstep it fails only so or by a callback of its own (`LockstepLoop.LoopFailsExactly`).
* An OBJ normal index that counts back past the first normal is not refused, unlike a vertex index; the corner gets the
  default normal (`ObjMesh.NormalRangeIsOneSided`, `ObjMesh.FarNormalMeansNone`).
* Limits promise that a red alarm is the more severe one. Yellow {min: 20} with red {max: 5} is accepted, and 30 is then
  red without being yellow (`LimitRanges.RedWithoutYellow`). Accepted limits keep the promise exactly if yellow is
  bounded wherever red is (`LimitRanges.AcceptedRedIsMoreSevere`).
* Two generated XTCE type names can coincide, and then a parameter gets the limits of another one
  (`XtceTheorems.GeneratedNamesCanCollide`); a generated name can also be that of a type the document already has. The
  rewrite does right, whichever limits apply and in whatever order, exactly if the limits are compatible, a condition on
  the names in the document (`XtceTheorems.RightInAnyOrderExactly`).
* The power runtime promises to report real supply edges. A level of 256, cut to a byte, is reported as one and leaves
  the supply off (`PowerRuntime.EdgeIntoNothing`, with the exact condition in `PowerRuntime.EdgeIsReal`); with levels 0
  and 1 the promise is kept (`PowerRuntime.CyclesAreReal`).
* A placement plan promises a reason exactly where it assigns nothing. An automatic plan on eight or more cores for
  requests that name none of the six services assigns nothing and gives none; it is the only exception
  (`PlanTheorems.ReasonExactly`).
* An automatic plan for requests of zero cores in total divides by zero instead of giving a reason
  (`PlanTheorems.AutoPlanExactly`).
* An empty mapping under an EPS load key does not leave the inherited loads alone: it clears them
  (`EpsLayers.OneLayer`).

## Model

| member | source | states |
|---|---|---|
| BarrierTheorems.FastReceiveIsExact | simulith/src/simulith_shared_barrier.c:236-251 | In every interleaving the unlocked receive returns exactly the sequence, time and phase of the publication whose generation it loaded, and that publication is still the current one |
| BarrierTheorems.FastReadIsUndisturbed | simulith/src/simulith_shared_barrier.c:236-248 | While a client is between loading the generation and returning, no enabled step of any thread changes the published payload or the generation |
| BarrierTheorems.ReceiptsAreExact | simulith/src/simulith_shared_barrier.c:197-276 | Each client is handed publications in strictly increasing order, each with its own frame, and every publication it takes part in up to the last but one, exactly once |
| BarrierTheorems.NoLostWakeup | simulith/src/simulith_shared_barrier.c:252-258 | A sleeping receiver never sleeps through a stop; if it is interrupted, an interrupter has yet to take the mutex; if it owns an unseen publication, the server is still signalling and has not passed its slot |
| BarrierTheorems.NobodySleepsOnceStopping | simulith/src/simulith_shared_barrier.c:350-359 | Once the barrier is stopping, in every reachable state neither the server nor any receiver sleeps or is about to |
| BarrierTheorems.GenerationComparisonIsExact | simulith/src/simulith_shared_barrier.c:236-255 | Although the 64-bit generation wraps, it equals the client's last generation exactly if the client has seen every publication |
| BarrierTheorems.CompletionMaskIsSound | simulith/src/simulith_shared_barrier.c:278-296 | While the mutex is free the completion mask is a subset of the participants and holds exactly the slots that completed the published phase |
| BarrierTheorems.CompletionHappensOnce | simulith/src/simulith_shared_barrier.c:278-296 | A complete call that succeeds is the first of its slot for the current publication, and was made for that publication's own frame |
| BarrierTheorems.CompletionSucceedsExactly | simulith/src/simulith_shared_barrier.c:278-296 | A complete call succeeds exactly if the barrier is not stopping, the slot takes part in the phase it was handed and has not completed it; then that phase is the current one and exactly this completion is recorded |
| BarrierTheorems.RespondedHaveCompleted | simulith/src/simulith_server.c:407-419 | The server counts a slot as responded only if it completed the current sequence and phase |
| BarrierTheorems.PublishNeedsEveryCompletion | simulith/src/simulith_server.c:362-371 | Every participant of every earlier publication received and completed it, and the next publish can start only when the same holds of the current one |
| BarrierTheorems.WithheldCompletionStopsTheServer | simulith/src/simulith_client.c:252-264 | In a run where a participant has not completed publication k, nothing after k has been published |
| BarrierTheorems.OwnStepApproaches | simulith/src/simulith_shared_barrier.c:236-276 | A receiver that owes a publication has an enabled next step unless it waits for the mutex, never heads for sleep, and each own step lowers a bound on the steps left |
| BarrierTheorems.ReceiveMakesProgress | simulith/src/simulith_shared_barrier.c:236-276 | The same in every reachable state: a receive under way with an unseen publication comes closer to its return with every own step |
| BarrierTheorems.OthersKeepProgress | simulith/src/simulith_shared_barrier.c:197-214 | Steps of other threads, and of the same client's completers and interrupters, never undo that progress |
| BarrierTheorems.ServerIsWoken | simulith/src/simulith_shared_barrier.c:331-348 | While the server sleeps in its wait some participant has yet to complete the published phase, or the one that just did holds the mutex and wakes it on its way out: it does not sleep through the last completion |
| BarrierTheorems.WaitTellsAll | simulith/src/simulith_shared_barrier.c:322-348 | By whichever of its three ways the wait returns, the server has exactly those slots as responded that have completed the published phase; once all participants have, the phase is done |
| BarrierTheorems.ConnectedHasCurrentToReceive | simulith/src/simulith_shared_barrier.c:160-165 | A client that connects while a phase is published still has that phase to receive |
| BarrierInvariant.ReachableKeeps | simulith/src/simulith_shared_barrier.c:197-368 | The full invariant of the protocol holds in every reachable state, over all interleavings of server, receivers, completers and interrupters |
| BarrierInvariant.StepKeeps | simulith/src/simulith_shared_barrier.c:197-368 | Every enabled step of every thread keeps the invariant, provided connections follow the handshake rule |
| BarrierInvariant.UnseenBlocksServer | simulith/src/simulith_shared_barrier.c:236-237 | A participant that has not seen the current publication keeps the server from starting the next one |
| BarrierInvariant.AtMostThreeBehind | simulith/src/simulith_server.c:398-405 | A registered client is never more than three publications behind the server |
| BarrierHandshake.FastReceiveSafeExactly | simulith/src/simulith_client.c:194-197 | Giving a slot the unlocked receive is safe in every interleaving, each returned frame being that of the generation loaded, if and only if the slot takes part in all three phases: the condition at these lines |
| BarrierHandshake.OvertakenRead | simulith/src/simulith_shared_barrier.c:243-250 | For any client, any phase k outside its mask and any number of stores of the next publish, a run in which the unlocked receive returns publication k with that many fields of the next one |
| BarrierHandshake.MixedFrameWithoutCommit | simulith/src/simulith_client.c:194-197 | For every mask without COMMIT a run in which the unlocked receive returns a frame the server never publishes |
| BarrierHandshake.HandedOwnPhasesExactly | simulith/src/simulith_shared_barrier.c:252-275 | A client is handed only phases it takes part in, in every reachable state, if and only if its mask is full; for every partial mask some run hands it another phase |
| BarrierHandshake.EveryPublicationIsReached | simulith/src/simulith_server.c:1014-1033 | Every publication whose numbers fit into 64 bits is made in some run, whatever the clients and their masks: no configuration is stuck |
| Frames.FramesAreDistinct | simulith/src/simulith_server.c:1014-1033 | Two publications of a run never share sequence and phase |
| Frames.FramesCountOn | simulith/src/simulith_server.c:1014-1033 | The frames start with sequence 0, time 0 and PREPARE, go through EXECUTE and COMMIT, and on to the next sequence one interval later |
| Frames.OwnsOneOfThree | simulith/src/simulith_server.c:398-405 | A client with a nonempty phase mask takes part in one of any three consecutive publications |
| SharedBarrier.BarrierState.Publish | simulith/src/simulith_shared_barrier.c:197-214 | For any arguments the five fields take their values, the completions are cleared and the generation moves on modulo 2^64; with those of the server loop the call takes, store by store and signal by signal, exactly the publish steps of the protocol |
| SharedBarrier.BarrierState.StorePayload | simulith/src/simulith_shared_barrier.c:203-205 | The three payload stores are three separate protocol steps |
| SharedBarrier.BarrierState.StoreMasks | simulith/src/simulith_shared_barrier.c:206-207 | The participant mask is stored before the completion mask is cleared, each a step of its own |
| SharedBarrier.BarrierState.Announce | simulith/src/simulith_shared_barrier.c:208-213 | The generation moves, modulo 2^64, before any slot is signalled and before the mutex is released |
| SharedBarrier.BarrierState.Complete | simulith/src/simulith_shared_barrier.c:278-296 | For any arguments: 0 exactly if the slot takes part, has not completed, and names the published sequence and phase while the barrier is not stopping, and then its bit alone is added; otherwise -1 and nothing changes. For a frame the client was handed these are the protocol's completion steps |
| SharedBarrier.BarrierState.WaitFast | simulith/src/simulith_shared_barrier.c:322-330 | The unlocked wait is done exactly if the mask it loaded covers the required set |
| SharedBarrier.BarrierState.Stop | simulith/src/simulith_shared_barrier.c:350-359 | Stop sets the flag and, in the shared state, is the protocol's stop step; the receivers it wakes are in NobodySleepsOnceStopping |
| SharedBarrier.BarrierHandle.Connect | simulith/src/simulith_shared_barrier.c:160-165 | A connected handle starts one generation behind, and gets the unlocked receive exactly for the full phase mask |
| SharedBarrier.BarrierHandle.Receive | simulith/src/simulith_shared_barrier.c:216-276 | Whatever other threads do while it waits for the mutex and sleeps: the published frame on the unlocked path even while stopping; otherwise the call ends at the first moment with a reason, with -1 if interrupted, else 1 if stopping, else the frame of that moment, and does not return before |
| SharedBarrier.BarrierHandle.ReadPayload | simulith/src/simulith_shared_barrier.c:246-250 | The three payload reads of the unlocked path are separate steps and together return the current frame |
| SharedBarrier.BarrierHandle.ReceiveLocked | simulith/src/simulith_shared_barrier.c:252-275 | The wait loop sleeps through every moment without a reason; behind it the interrupt is tested before the stop flag and both before a frame is taken |
| SharedBarrier.BarrierHandle.InterruptStore | simulith/src/simulith_shared_barrier.c:361-364 | The interrupt flag is stored outside the mutex, as a step of its own |
| PhaseClient.Client.ReceivePhase | simulith/src/simulith_client.c:302-391 | By the fields of the frame: 1 exactly for a well-formed STOP frame, and then the stop request is set and nothing else changes; 0 exactly for a well-formed phase that follows the last frame or is the first, and then it becomes the last frame, not completed; otherwise -1 and nothing changes |
| PhaseClient.JudgedByItsFields | simulith/src/simulith_client.c:342-380 | A frame stops the client exactly if magic and version are right and its phase is STOP, whatever came before; it is accepted exactly if magic, version and phase number are right and it follows the last frame or is the first |
| PhaseClient.AcceptsExactlyFollowers | simulith/src/simulith_client.c:358-380 | A well-formed frame is accepted exactly if it is a later phase of the same tick at the same time, or some phase of the next sequence one interval later |
| PhaseClient.AcceptedFramesIncreaseIff | simulith/src/simulith_client.c:358-366 | All frames accepted from a state are later than its last frame if and only if that frame's sequence was not 2^64-1, the value that stands for no frame |
| PhaseClient.AcceptedRunIsLockstep | simulith/src/simulith_client.c:302-391 | Over any stream without sequence 2^64-1, the accepted frames strictly increase in (sequence, phase) and time - time0 = (sequence - sequence0) * rate |
| PhaseClient.Client.CompleteTick | simulith/src/simulith_client.c:393-442 | One thread alone: 0 exactly if the frame is the last one, of an owned phase and not claimed before, a transport is open and takes it; then it is claimed. A frame refused for one of the other reasons is not sent, and a failed answer restores the state exactly |
| PhaseClient.CompletedExactly | simulith/src/simulith_client.c:393-442 | The same condition for the function that the sessions of Claims are made of |
| PhaseClient.Client.RunPhasedLoop | simulith/src/simulith_client.c:231-267 | The loop's status and completed frames are those of its step function |
| PhaseClient.LoopCompletesUntilFailure | simulith/src/simulith_client.c:231-267 | The loop completes the accepted frames in order up to the first that fails, and fails exactly if one does: a callback, a transport, or a phase outside the mask |
| PhaseClient.LoopEndsAtStop | simulith/src/simulith_client.c:349-356 | The first STOP frame the loop gets to ends it as if the stream ended there: it completes and answers nothing behind it, and 0 if nothing before it failed |
| LockstepLoop.LoopFailsExactly | simulith/src/simulith_client.c:231-267 | Over every reachable state of the lockstep that is not stopping, at the server's interval, the loop fails exactly if a callback fails or the barrier handed it a phase outside its mask, and completes every frame before the first such one, in order |
| LockstepLoop.FullMaskFailsByCallbackOnly | simulith/src/simulith_client.c:231-267 | Over the lockstep the loop of a client of all three phases returns -1 exactly if one of its callbacks fails |
| LockstepLoop.AnswerExactly | simulith/src/simulith_shared_barrier.c:278-296 | While nobody stops it, the barrier accepts the completion of a frame it handed out exactly if the phase is in the client's mask |
| Claims.AtMostOneSuccess | simulith/src/simulith_client.c:393-442 | With any number of completing threads and one receiving, at most one call per (sequence, phase) returns 0, as long as no frame carries sequence 2^64-1 |
| Claims.AtMostOnceExactly | simulith/src/simulith_client.c:358-442 | Over frames of any given sequences, in every interleaving every frame is completed at most once, if and only if 2^64-1 is not among the sequences |
| Claims.CallIsSteps | simulith/src/simulith_client.c:393-442 | What complete_tick does is exactly a claim step, a transport step and, if that failed, a roll-back step of the claim protocol; a call that may not claim takes none |
| Claims.SessionIsRun | simulith/src/simulith_client.c:302-442 | Whatever receives and completions one object goes through is a run of the claim protocol that ends in the object's state with the completions it answered 0 |
| Claims.AnsweredAtMostOnceExactly | simulith/src/simulith_client.c:302-442 | Over frames of any given sequences and any calls of receive_phase and complete_tick, one object answers 0 at most once for each frame, if and only if 2^64-1 is not among the sequences |
| Claims.RefusedOnceCompleted | simulith/src/simulith_client.c:393-410 | Once its last frame is completed an object refuses every further call until it accepts another frame, whatever the transport would say |
| Claims.RollBackIsOwn | simulith/src/simulith_client.c:434-440 | A roll-back frees the claim exactly if its frame is still the last one; it never touches the claim of a newer frame, and no other call for its frame is under way or has succeeded |
| Claims.SentinelFrameCompletesTwice | simulith/src/simulith_client.c:358-366 | A concrete run in which sequence 2^64-1 is delivered and completed twice, so that condition is needed |
| Lockstep.ConsecutiveReceiptsAreClose | simulith/src/simulith_shared_barrier.c:252-275 | Two consecutive receipts of a client are at most three publications apart |
| Lockstep.EveryFrameIsAccepted | simulith/src/simulith_client.c:302-391 | In every interleaving a client accepts every frame the barrier hands it if and only if its update rate is the server's interval, or it has seen one tick only |
| TraceCodec.RecordSize | simulith/src/simulith_control_trace.c:194-211 | A record is 476 bytes plus those of its commands, at most 7900, so no write leaves the 16384-byte buffer and the decoder's length test accepts it |
| TraceCodec.CommandFieldsSize | simulith/src/simulith_control_trace.c:87-125 | A command takes 12, 40, 48, 64 or 116 bytes, by type |
| TraceLayout.RecordLayout | simulith/src/simulith_control_trace.c:60-85 | Byte by byte: each field of a tick at its own offset, numbers and bit patterns least significant byte first, ints in two's complement, and the commands from byte 476 on |
| TraceLayout.CommandLayout | simulith/src/simulith_control_trace.c:87-125 | Byte by byte: type, spacecraft and valid flag of a command, and behind them the fields of its type, each at its offset |
| TraceLayout.CommandsLayout | simulith/src/simulith_control_trace.c:207-209 | Each command starts where those before it end, by their sizes |
| TraceRecords.TraceRecord.EncodeRecord | simulith/src/simulith_control_trace.c:194-211 | The put calls into the fixed buffer produce exactly the encoding of the tick and never write outside it |
| TraceRecords.TraceRecord.PutWord | simulith/src/simulith_control_trace.c:35-45 | Shifting out the bytes one by one appends the little-endian form |
| TraceRecords.TraceRecord.PutDoubles | simulith/src/simulith_control_trace.c:54-58 | Appends the 64-bit patterns in order |
| TraceRecords.RecordReader.Take | tools/shire-control-trace.py:13-21 | A take decodes the bytes at the offset and advances by their size, or fails if they are not there |
| TraceRecords.RecordReader.TakeCommand | tools/shire-control-trace.py:50-72 | The takes of read_command agree with the decoder function, and so do its errors |
| TraceRecords.RecordReader.TakeTick | tools/shire-control-trace.py:88-99 | Reading one record by takes gives exactly the decoder's result |
| TraceDecode.CommandRoundTrip | tools/shire-control-trace.py:50-72 | read_command undoes encode_command in any surroundings, and fails exactly for types outside the enumeration |
| TraceDecode.CommandsRoundTrip | tools/shire-control-trace.py:95-95 | The same for a list of commands, ending exactly behind the last one |
| TraceDecode.TickRoundTrip | tools/shire-control-trace.py:88-99 | Decoding an encoded tick gives back its fields (integers modulo 2^32, label up to NUL) and ends at the record's end, if and only if every command has a known type |
| TraceAccepts.RecordAcceptedExactly | tools/shire-control-trace.py:88-99 | The decoder accepts exactly the byte strings the encoder writes for ticks with known command types: anything cut, longer, or with another count or type is refused |
| TraceAccepts.FileAcceptedExactly | tools/shire-control-trace.py:75-99 | The reader ends without an error exactly on the files a trace writer could have made of such ticks |
| TraceAccepts.DamageIsLocal | tools/shire-control-trace.py:79-99 | Whatever follows whole records, the reader yields those records first and then goes on as if at a start |
| TraceAccepts.TailIsRefused | tools/shire-control-trace.py:79-87 | A tail fails with the error of its first defect: a cut length, a length outside 476 to 16384, a cut record, or what the record decoder raises |
| TraceAccepts.HeaderIsTested | tools/shire-control-trace.py:76-78 | Nothing is read unless the file begins with SHCT and version 1 |
| TraceAccepts.StateComesBack | tools/shire-control-trace.py:24-47 | Field by field, what the decoder makes of a recorded state: bit patterns as they were, ints by their 32 bits, the matrix in rows, the label up to its first NUL |
| TraceAccepts.CommandComesBack | tools/shire-control-trace.py:50-72 | Field by field, what it makes of each command: only the body its type calls for |
| TraceFile.Records | tools/shire-control-trace.py:75-99 | The generator yields exactly the decodable records of the file in order and ends with the first error |
| TraceFile.FileRoundTrip | tools/shire-control-trace.py:75-99 | A file made of encoded ticks yields exactly those ticks and no error |
| TraceFile.CutAnywhere | tools/shire-control-trace.py:79-87 | A trace cut anywhere behind its header yields exactly the ticks that are there in full, and ends with no error between two records, with a cut length or with a cut record |
| TraceFile.ControlTraceStates | tools/shire-perf.py:65-82 | The scanning loop returns the scanner function's values or refuses |
| TraceFile.ScannerRefinesDecoder | tools/shire-perf.py:65-82 | On every file the full decoder accepts, the scanner returns its dyn_time list if the ticks are 0, 1, 2, ... at 10 ms, and refuses the file otherwise |
| TraceFile.FramingIsInjective | simulith/src/simulith_control_trace.c:147-151 | Length-prefixed records are self-delimiting: equal bytes come from equal lists of records |
| TraceFile.SameTraceBytes | tools/shire-perf.py:193-204 | The chunked comparison returns true if and only if the files are equal |
| TraceFile.SameFileIffSameRecords | tools/shire-perf.py:193-204 | Two trace files are equal if and only if they hold the same encoded ticks |
| TraceQueue.TraceRing.Push | simulith/src/simulith_control_trace.c:219-222 | A push appends to the ring's contents, around the end of the array |
| TraceQueue.TraceRing.Pop | simulith/src/simulith_control_trace.c:139-144 | A pop takes the oldest record and leaves the rest in order |
| TraceMonitor.Monitor.Enter | simulith/src/simulith_control_trace.c:213-225 | tick's lock section on the real ring is the queue's enter step: it appends the record, refuses after a write error, or waits while the ring is full |
| TraceMonitor.Monitor.TakeOldest | simulith/src/simulith_control_trace.c:132-145 | The writer's lock section on the real ring is its test step: it takes the oldest record, sleeps on an empty ring, or exits if it is to stop |
| TraceQueue.QueueConservation | simulith/src/simulith_control_trace.c:127-160 | In every reachable state the records written, the one in the writer's hand and the ring, in order, are the records accepted; without a write error the file holds exactly the written ones |
| TraceQueue.FinalNameIsComplete | simulith/src/simulith_control_trace.c:228-252 | The final name exists only for a file of the header and all accepted records, and never after a write error |
| TraceFinish.FinishOutcome | simulith/src/simulith_control_trace.c:237-251 | finish answers 0 if and only if the final name exists, if and only if it holds the header and every accepted record, if and only if no write, flush, sync, close or rename has failed |
| TraceFinish.FinalNameComesFromFinish | simulith/src/simulith_control_trace.c:228-269 | The final name exists exactly once finish has answered 0; never after an abort |
| TraceFinish.FinishSucceeds | simulith/src/simulith_control_trace.c:228-252 | From every reachable state in which finish was called and nothing has failed, steps of the writer and of finish whose file operations succeed lead to the final name with every record accepted so far |
| TraceFinish.EntryExactly | simulith/src/simulith_control_trace.c:212-225 | In every run, a tick at the queue is refused exactly if a failed write has been reported, sleeps exactly if all 64 slots are taken, and is otherwise accepted behind all others with the writer awake |
| TraceQueue.NeverBothAsleep | simulith/src/simulith_control_trace.c:133-135 | Producer and writer never sleep at the same time, and each sleeps only while its own condition holds |
| TraceQueue.FinishTerminates | simulith/src/simulith_control_trace.c:228-236 | Once the stop flag is set the writer always has a step until it exits, at most 130 of them, whether writes succeed or fail; so the join returns |
| TraceQueue.FinishedTraceDecodes | simulith/src/simulith_control_trace.c:228-252 | End to end: a finished trace decodes to exactly the accepted ticks, and scans to their dyn_time list if they are in order |
| EpsConfig.NormalizeIsIdempotent | tools/shire_eps_config.py:17-102 | A configuration that normalize_eps accepts is accepted again, unchanged |
| EpsConfig.PlainIsAcceptedExactly | tools/shire_eps_config.py:17-102 | A configuration without switches, loads or passive loads is accepted exactly if capacity, charge, voltages in order and solar power are in range |
| EpsConfig.SelectedAgain | tools/shire_eps_config.py:57-63 | Wiring defaults under already normalized loads selects the same loads |
| EpsConfig.LoadAgain | tools/shire_eps_config.py:80-92 | A normalized load is in range in every field and normalizes to itself |
| EpsConfig.SwitchAgain | tools/shire_eps_config.py:37-47 | A normalized switch is in range, has a label, and normalizes to itself |
| EpsNormalizer.NormalizeEps | tools/shire_eps_config.py:17-102 | The step-by-step check with its early exits computes exactly the normalization function, which EpsTheorems.AcceptedExactly and NormalizedAsConfigured state by the configuration's entries |
| EpsTheorems.AcceptedExactly | tools/shire_eps_config.py:17-102 | A configuration is accepted if and only if its battery figures are in range, its passive loads, switches and selected loads are well-formed, and for each switch the passive watts plus, over the selected loads, the larger of greatest mode power and boot power times the scale, are at most 10 A times the voltage: all of it read from the entries of the configuration |
| EpsTheorems.NormalizedAsConfigured | tools/shire_eps_config.py:37-101 | What an accepted configuration becomes: switches as configured or nominal, on where a selected load is wired, and for each component the switch, six mode powers, boot power (the greatest mode power if missing), delay and scale of its own selected load, own fields over default ones; or the empty entry |
| EpsTheorems.NormalizedLoadIs | tools/shire_eps_config.py:83-92 | A load is accepted exactly if its switch is 0 to 7, its six mode powers are at least 0 and boot power, delay and scale, where given, are in range; each field then comes out as given or as its default |
| EpsTheorems.TenAmpsInWatts | tools/shire_eps_config.py:97-98 | A switch passes the current check exactly if its watts are at most 10 times its volts |
| EpsNormalizer.TurnOn | tools/shire_eps_config.py:64-70 | Turning on the switches load by load, in any order, turns on exactly the switches some load is wired to |
| EpsNormalizer.RenderLoads | tools/shire_eps_config.py:71-93 | Rendering the three components in turn normalizes every selected load or fails if one cannot be; what is rendered for a load is in EpsTheorems.NormalizedAsConfigured |
| EpsNormalizer.CheckCurrents | tools/shire_eps_config.py:94-98 | Summing load by load, the check passes exactly if every switch stays within 10 A at its peak |
| EpsLayers.Config.MergeLayer | tools/shire_eps_config.py:105-119 | The in-place update computes the merge of one layer, or leaves the base unchanged on an error |
| EpsLayers.OneLayer | tools/shire_eps_config.py:105-119 | After one layer a load field has the layer's value if the layer overrides it, and the inherited one otherwise; an empty or non-mapping value under the key clears |
| EpsLayers.MergedKey | tools/shire_eps_config.py:105-119 | What a layer does to a whole key: EPS loads are taken component by component, keeping those it does not name; any other key is replaced if the layer has it and stays otherwise |
| EpsLayers.RefusedExactly | tools/shire_eps_config.py:111-116 | A layer is refused exactly for merging EPS loads into something that is no mapping |
| EpsLayers.LastLayerWins | tools/shire_eps_config.py:105-119 | Over any list of layers a load field has a value exactly if some layer gives it that value and no later layer overrides or clears it |
| PowerRuntime.PowerState.Configure | simulith/include/simulith_power.h:79-87 | The settings are copied; the first time, the load becomes managed, off, with its gate open |
| PowerRuntime.PowerState.SetSupply | simulith/include/simulith_power.h:92-102 | An edge is reported exactly if the stored byte differs; an ON edge sets the boot deadline, saturated at 2^64-1, and counts a cycle |
| PowerRuntime.PowerState.RecordTransaction | simulith/include/simulith_power.h:107-111 | Successes and rejections are counted apart, and only a success sets the response time |
| PowerRuntime.PowerState.TakeSnapshot | simulith/include/simulith_power.h:117-132 | The snapshot's fields are those of the runtime; a managed, supplied, open-gated load reports scaled mode watts if ready, scaled boot watts if not, and every other load nothing |
| PowerRuntime.WattsAreExplained | simulith/include/simulith_power.h:113-132 | Over every run: a configured, supplied, open-gated load reports the scaled power of its mode, the first for a mode out of range, from its boot deadline on, and its scaled boot power before it, by its latest settings; every other load reports 0 |
| PowerRuntime.DeadlineIs | simulith/include/simulith_power.h:97-98 | The boot deadline is the last whole nanosecond not past the delay, or 2^64-1 where that does not fit |
| PowerRuntime.RunIsExplained | simulith/include/simulith_power.h:72-111 | Over every run of configure, set, record and gate calls from a zeroed runtime every field is what the run says: supply as last set cut to a byte, cycles the ON edges, successes and rejections their numbers modulo 2^64, the response time that of the last success, the deadline that of the last ON edge with the delay configured then |
| PowerRuntime.EdgeIsReal | simulith/include/simulith_power.h:89-102 | A call reports an edge exactly if the supply goes on or off, if and only if the requested level is the stored byte or, cut to a byte, is on where that is off or the reverse |
| PowerRuntime.EdgeIntoNothing | simulith/include/simulith_power.h:94-101 | A level of 256 is reported as an edge, starts a boot and counts a cycle, and leaves the supply off |
| PowerRuntime.CyclesAreReal | simulith/include/simulith_power.h:92-102 | Over any run with levels 0 and 1 the cycle counter counts exactly the changes from off to on |
| PowerRuntime.LaterConfiguresAreSilent | simulith/include/simulith_power.h:77-87 | From the first configuration on, any number of later ones leave supply, gate, cycles and counters as without them, and with unchanged settings the whole runtime |
| PowerRuntime.ReadyOnlyAfterBoot | simulith/include/simulith_power.h:72-102 | After every run a load is ready exactly if it was never configured, or is supplied with its gate open, has had an ON edge, and the boot delay since the last one is over |
| PowerRuntime.WattsAtMostPeak | simulith/include/simulith_power.h:117-132 | Whatever calls a runtime has been through with its rendered settings, in any mode at any time, it draws between zero and the peak the configuration check assumed for its load |
| PowerRuntime.AcceptedIsWithinLimits | tools/shire_eps_config.py:94-98 | An accepted configuration has eight normal switches within 10 A and three renderings with settings in range |
| PowerRuntime.ConfigCheckBoundsTheRuntime | tools/shire_eps_config.py:94-98 | If the configuration is accepted, then for every combination of runtime histories, modes and time, each switch's passive load plus the snapshot watts on it is at most 10 A times its voltage |
| ObjMesh.ReadObj | tools/shire-visual-assets.py:59-102 | The line-by-line loop computes the indexed mesh, and refuses exactly when the function does |
| ObjMesh.ReadFace | tools/shire-visual-assets.py:76-100 | Numbering the corners and appending the fan in loops adds one face, or refuses it for its first bad corner |
| ObjMesh.ReadCorner | tools/shire-visual-assets.py:79-98 | A pair of vertex and normal is packed once and keeps its index |
| ObjMesh.ExtendFaces | tools/shire-visual-assets.py:99-100 | The loop appends the whole fan to the index list of the current material |
| ObjMesh.IndexedMeshIsTheSoup | tools/shire-visual-assets.py:76-100 | The reader accepts exactly the legal files; then dictionary and indices correspond one to one onto 0..count-1, every index is in range, and expanding the indices through the packed arrays gives exactly the fan triangles of the file, material by material, with the axes turned |
| ObjMesh.GeometryGrows | tools/shire-visual-assets.py:59-75 | What each line declares: positions and colors in parallel, normals, and the material of the faces to come |
| ObjMesh.LegalExactly | tools/shire-visual-assets.py:78-84 | A face is legal exactly if each vertex number names a vertex so far, forward or back, and no normal number exceeds the normals so far |
| ObjMesh.TrianglesGrow | tools/shire-visual-assets.py:76-100 | Each face of n corners adds n - 2 triangles to its material, the k-th from corners 0, k and k+1, each corner at (x, z, -y) of its vertex with its color and turned normal; no other line adds any |
| ObjMesh.AddCornersKeeps | tools/shire-visual-assets.py:79-98 | Numbering the corners of a face keeps the one-to-one correspondence and the meaning of every old index |
| ObjMesh.ExpandFan | tools/shire-visual-assets.py:99-100 | Triangulating indices and expanding them commutes with expanding and triangulating |
| ObjMesh.NormalRangeIsOneSided | tools/shire-visual-assets.py:80-84 | With a valid vertex a corner is refused exactly if its normal number exceeds the normals so far; one that counts back past the first is not |
| ObjMesh.AcceptedExactly | tools/shire-visual-assets.py:84-102 | The conversion succeeds exactly for files whose faces name existing vertices and no normal past the end, and which have a face |
| Glb.GlbBuffer.Add | tools/shire-visual-assets.py:108-121 | An added block starts at the next multiple of four and gets the next view, with its target, and the next accessor, with its limits |
| Glb.LayoutIsSound | tools/shire-visual-assets.py:108-121 | Buffer views are 4-aligned, in range, in order without overlap, and each holds exactly the bytes it was added for |
| Glb.ContainerOpens | tools/shire-visual-assets.py:151-160 | The length field equals the file length, and a reader after section 4.4 of glTF 2.0 finds the padded JSON and binary chunks |
| Glb.ContainerIsMarked | tools/shire-visual-assets.py:155-160 | Magic, version 2 and the two chunk names stand where section 4.4 of glTF 2.0 wants them |
| GlbMesh.WriteGlb | tools/shire-visual-assets.py:123-160 | Adding the arrays and the index lists in turn yields the laid-out buffer, its document with targets, limits and material colors, and the container; or nothing if a number does not fit its field |
| GlbMesh.DocumentIsMarked | tools/shire-visual-assets.py:123-150 | Positions, normals and colors are VEC3 floats in array buffers, one per packed entry; indices are unsigned ints in element buffers; each material has the color of its library or 0.8 grey |
| GlbMesh.FileShowsTheSoup | tools/shire-visual-assets.py:43-160 | End to end: from the written file, index and attribute lookups give every corner of every triangle of the OBJ as 32-bit floats, in order, for each primitive |
| GlbMesh.EveryMaterialHasItsPrimitive | tools/shire-visual-assets.py:131-145 | The materials with triangles are exactly those with a primitive, one each |
| GlbMesh.PositionLimitsAreTight | tools/shire-visual-assets.py:123-126 | The position limits are the box around every corner of every triangle of the OBJ, and each side of it is a coordinate of some entry |
| GlbMesh.IndexLimitsFit | tools/shire-visual-assets.py:136-137 | The limits of every index list lie within the attribute arrays |
| Cpuset.FormatCpuset | tools/shire_perf_topology.py:120-134 | The range loop prints the text of the cpuset function, for any list |
| Cpuset.FormatReadsBack | tools/shire_perf_topology.py:120-134 | Reading a printed cpuset gives back the ids it was printed from |
| Cpuset.RangesAreMaximal | tools/shire_perf_topology.py:120-134 | The printed ranges list exactly the ids, and for increasing ids no two could be joined |
| Cpuset.RangesAreUnique | tools/shire_perf_topology.py:120-134 | A list of ids can be cut into maximal ranges in one way only |
| Placement.PartitionCores | tools/shire_perf_topology.py:137-159 | The allocation loop computes the dealing function, and fails exactly for a total request of zero |
| Placement.SharesAreFair | tools/shire_perf_topology.py:137-159 | Shares are consecutive slices that form a prefix of the core list; each is at least one core and at most the rounded quota or one; everyone is placed if and only if there are as many cores as requests |
| PlacementShares.ShareIsExact | tools/shire_perf_topology.py:147-158 | Each service gets the first cores that remain: half of all cores in proportion to its request, rounded, at least one, but leaving one for each later request |
| PlacementShares.ShippedSharesAreProportional | tools/shire_perf_topology.py:45-62 | With 34 cores for each m the shipped services get 4m, 4m, 4m, 2m, 2m and m cores in priority order, and half stay free |
| Placement.SharesAreDisjoint | tools/shire_perf_topology.py:137-159 | No core is dealt to two services |
| Placement.ShippedRequestsLeaveTwoCores | tools/shire_perf_topology.py:45-67 | With the shipped requests and eight or more cores all six services are placed and at least two cores stay free, however ties are rounded |
| PlacementPlan.ManualPlanReadsBack | tools/shire_perf_topology.py:170-187 | Any assignment rendered as service=cpuset,... is planned back as itself, although cpusets contain commas |
| PlanTheorems.ManualPlanExactly | tools/shire_perf_topology.py:170-187 | A manual text is followed exactly if some entry assigns a cpuset to a service and every other one does so or is blank; otherwise nothing of it is |
| PlanTheorems.ReasonExactly | tools/shire_perf_topology.py:73-76 | A plan gives a reason exactly if it assigns nothing, unless it is automatic on eight or more cores for requests that name none of the six services: then it does neither |
| PlacementPlan.SplitOfRender | tools/shire_perf_topology.py:172-172 | The look-ahead pattern splits a rendered text exactly at the commas between entries |
| PlacementPlan.AutoPlanGivesWholeCores | tools/shire_perf_topology.py:203-212 | In an automatic plan each cpuset reads back as increasing CPUs and never splits a physical core |
| PlacementPlan.AutoPlanIsolates | tools/shire_perf_topology.py:203-212 | In an automatic plan no CPU is given to two services |
| PlanTheorems.AutoPlanExactly | tools/shire_perf_topology.py:189-212 | For any requests: the plan divides by zero exactly if there are eight cores and the six services ask for a total of zero; it gives its reason exactly without topology or below eight cores; otherwise it serves exactly the requested ones of the six services, so its last reason never comes up |
| PlanTheorems.CpusetExample | tools/shire_perf_topology.py:120-122 | The example of the documentation: 0, 1, 2, 4 is printed as 0-2,4 |
| PlacementPlan.ShippedPlanSucceeds | tools/shire_perf_topology.py:189-212 | From eight physical cores on the shipped requests always get a plan for all six services, and the CPUs of at least two cores are in none of its cpusets |
| LimitMerge.MergeLimits | tools/shire_limits_config.py:92-115 | The loops over layers, parameters and levels, in any dictionary order, compute the merge |
| LimitMerge.MergeLayer | tools/shire_limits_config.py:101-114 | One layer, parameter by parameter in any order; a spec that is no mapping refuses it |
| LimitMerge.MergeSpec | tools/shire_limits_config.py:107-114 | One parameter's levels in any order; an emptied entry disappears |
| LimitMerge.SurvivesExactly | tools/shire_limits_config.py:92-115 | Bounds are in the result exactly if some layer set them and no later layer nulls the parameter or mentions the level, and no entry is empty |
| LimitMerge.RefusedExactly | tools/shire_limits_config.py:96-106 | The merge is refused exactly if some layer is no mapping or has a parameter that is neither null nor a mapping, also where a later layer would override it |
| LimitMerge.MergesInStages | tools/shire_limits_config.py:92-115 | Merging a prefix first and using the result as one layer changes nothing |
| LimitRanges.NormalizedIsSound | tools/shire_limits_config.py:47-89 | Accepted limits have qualified names, nonempty proper ranges and red enclosing yellow on every side both give, and normalize to themselves |
| LimitRanges.LevelExactly | tools/shire_limits_config.py:47-57 | A level is accepted exactly if it gives finite min, max or both, min below max, and nothing else; its bounds are those numbers |
| LimitRanges.SpecExactly | tools/shire_limits_config.py:73-88 | A parameter's limits are accepted exactly if they name no other level, each level not null is accepted, and red is not inside yellow; they are dropped exactly if every level is null |
| LimitRanges.MappingExactly | tools/shire_limits_config.py:60-89 | The whole mapping is accepted exactly if each name is qualified and each parameter's limits are; the result has those not dropped |
| LimitRanges.RedIsMoreSevere | tools/shire_limits_config.py:82-87 | Every value that is red is yellow too if and only if red encloses yellow where both are bounded and yellow is bounded wherever red is |
| LimitRanges.AcceptedRedIsMoreSevere | tools/shire_limits_config.py:60-89 | Accepted limits of both levels make every red value yellow too if and only if yellow is bounded wherever red is |
| LimitRanges.RedWithoutYellow | tools/shire_limits_config.py:82-87 | Yellow min 20 with red max 5 is accepted, and 30 is red without being yellow |
| Xtce.CopyDiffersInAlarmOnly | tools/shire_limits_config.py:178-188 | The limited copy has the items of the original in order and one new alarm, behind everything but context alarms |
| Xtce.CopyIs | tools/shire_limits_config.py:178-188 | For a type with any items: the copy has its kind, the generated name, all items but the alarms in their order, and one new alarm behind everything but context alarms |
| Xtce.LocatedExactly | tools/shire_limits_config.py:135-150 | A path locates a parameter exactly if it begins with the root's name, leads through nested systems by name, and ends with the name of a parameter there, the first of several |
| Xtce.ResolvedExactly | tools/shire_limits_config.py:170-175 | Its type is the first one of the referenced name in the parameter's own system |
| XtceTheorems.NameIs | tools/shire_limits_config.py:179-179 | The generated name is made of the names of type and parameter |
| Xtce.Document.LimitParameter | tools/shire_limits_config.py:164-191 | The in-place edit computes the limit function: not here, refused with nothing edited, or the edited tree |
| Xtce.Document.ApplyLimits | tools/shire_limits_config.py:194-203 | The limits applied one after the other give the document and the set of those that applied |
| Xtce.EditIsLocal | tools/shire_limits_config.py:135-150 | Editing one space system changes the declarations of no other, whatever the nesting |
| XtceTheorems.RightExactlyIfClear | tools/shire_limits_config.py:164-191 | One limit gives its parameter its copy and every other parameter what it had, if and only if the generated name is clear: it already names that very copy, or names nothing up to the original type and no other parameter refers to it |
| XtceTheorems.RightInAnyOrderExactly | tools/shire_limits_config.py:194-203 | Any choice of the limits in any order leaves every limited parameter with the copy of its original type with its own limits and every other one with its type, if and only if each limit is clear and no two with one generated name in one system make different copies: seen in the document beforehand |
| XtceTheorems.AppliedAsExpected | tools/shire_limits_config.py:194-203 | After any list of compatible limits each limited parameter resolves to the copy of its original type with its own limits and every other one to its original type, and those reported as applied are those present |
| XtceTheorems.OrderIsIrrelevant | tools/shire_limits_config.py:201-201 | Two orders of the same compatible limits give every parameter the same type |
| XtceTheorems.AcceptedExactly | tools/shire_limits_config.py:171-177 | Compatible limits are refused exactly if some limited parameter that is present has no numeric type in its own system |
| XtceTheorems.GeneratedNamesCanCollide | tools/shire_limits_config.py:179-179 | A concrete document in which two generated names coincide and a parameter gets the type and limits of another |
| Xtce.QualifiedIsPath | tools/shire_limits_config.py:31-31 | A name that passes validation has the segments between its slashes, at least two |
| Framing.Transfer | tools/shire-board-udp.c:13-27 | Moves the bytes of the buffer in as many calls as it takes, repeats interrupted ones, and on failure has moved a prefix |
| Framing.SendFrame | tools/shire-board-udp.c:82-87 | Sends length and payload, or a prefix of them and fails |
| Framing.ReceiveFrame | tools/shire-board-udp.c:89-97 | Takes exactly the next frame off the stream, or none if it is cut short, oversized or the stream broke |
| Framing.Receive | tools/shire-board-bridge.py:13-20 | Collects exactly the bytes asked for, however they are cut |
| Framing.ReceivePacket | tools/shire-board-bridge.py:71-75 | Takes exactly the next frame off the stream, or none for the same reasons as the C side |
| Framing.BoardLoop | tools/shire-board-udp.c:73-101 | Over any poll rounds: what was sent is a prefix of the frames of the packets taken, all of them unless the stream broke; what was delivered is a prefix of the frames in the stream, all of them if the stream ended |
| Framing.RunnerLoop | tools/shire-board-bridge.py:66-75 | The same for the Python side |
| Framing.WhatHasArrived | tools/shire-board-udp.c:89-98 | However much of a framed packet list has arrived, it yields exactly the packets that arrived in full |
| Framing.FrameLayout | tools/shire-board-udp.c:85-86 | On the wire a packet is its length in four bytes, most significant first, and itself |
| Framing.TakenExactly | tools/shire-board-udp.c:89-97 | A frame is taken exactly if its length has arrived, is at most 65507, and as many bytes have arrived behind it |
| Framing.TunnelDelivers | tools/shire-board-udp.c:80-98 | Between the two loops packets arrive whole, in order, and none is invented; all of them if stream and receiver reach their end |
| TreePath.GetPath | tools/shire-campaign.py:169-187 | The walk computes the lookup, with null short-circuiting |
| TreePath.GetComposes | tools/shire-campaign.py:169-187 | A path is followed segment by segment: looking up a longer path continues from what a shorter one leads to |
| TreePath.GetOneStep | tools/shire-campaign.py:171-186 | One segment: an entry or null for a missing one, an element, null below null, and an error below a leaf |
| TreePath.ResolvedExactly | tools/shire-campaign.py:178-182 | A list index is any number from minus the size to one below it, and means the place it is congruent to |
| TreePath.Tree.SetPath | tools/shire-campaign.py:190-210 | The loop down, making missing dictionaries on the way, and the assignment at its end compute the update; on an error the tree keeps the dictionaries made until then and nothing else changes |
| TreePath.SetFailsExactly | tools/shire-campaign.py:190-210 | set_path fails exactly if some prefix of its path leads to a leaf, to a list without the next place, or to a null that is no dictionary entry |
| TreePath.SampleTrials | tools/shire-campaign.py:298-315 | The nested loops build every trial from a fresh copy of the base, or stop at the first error |
| TreePath.GetAfterSet | tools/shire-campaign.py:169-210 | A value that was set is found again, and so is everything below it |
| TreePath.SetChangesOnlyItsPath | tools/shire-campaign.py:190-210 | A path that diverges at a different key or a different resolved list index reads the same as before, also where dictionaries were made |
| TreePath.TrialChangesOnlySweptPaths | tools/shire-campaign.py:298-315 | A trial differs from the base configuration on swept paths only |
| TreePath.TrialCarriesItsValues | tools/shire-campaign.py:298-315 | A swept path the others diverge from carries its own sample, in additive mode added to what the base configuration has there |
| Calendar.CivilToSeconds | simulith/src/simulith_42_socket_client.c:378-395 | The year loops count the days of the leap-year closed form on both sides of 2000 |
| Calendar.OneYear | simulith/src/simulith_42_socket_client.c:362-365 | The closed form grows by 366 days over a year that divides by 4, by 400 if it ends a century, and by 365 over any other |
| Calendar.EpochAndDay | simulith/src/simulith_42_socket_client.c:391-394 | Noon of day 1 of 2000 is zero, and within a day seconds are seconds |
| Calendar.SecondsFollowTheCalendar | simulith/src/simulith_42_socket_client.c:378-395 | Over valid times the seconds are strictly increasing in (year, day, time of day), both ways |
| Calendar.DaysAreContiguous | simulith/src/simulith_42_socket_client.c:378-395 | The same time on the next calendar day, also across a new year, is 86400 seconds later |

## Left out

* Memory order: atomics and plain stores are sequentially consistent steps. That the release store of the generation
  makes the plain payload stores visible to the acquire load is taken from C11, not proved.
* Mapping and opening of the shared memory, its magic and version words, the retries of connect, the profiling
  counters, the clock of the spins (a spin is any number of loads before the one that counts) and null arguments.
* Participant and completion masks are sets of slot numbers; the 32 bits and their shifts are not modelled.
* The server's command line, pausing, speed, logging, metrics and READY handshake: the model starts with registered
  clients that each have a nonempty phase mask. The server stops before sequence or time leave 64 bits.
* The ZMQ transport is a nondeterministic answer; its message texts are not modelled. simulith_client_run_loop and the
  older tick calls are plain users of the calls modelled here.
* Fairness: that an enabled step is eventually taken is up to the scheduler.
* Opening the control trace, its paths, a file of an earlier run under the final name, and what fsync guarantees. A
  tick after the trace is closed returns 0 and records nothing.
* Labels are bytes up to NUL; UTF-8 replacement is not modelled.
* YAML, JSON, XML and OBJ text: the models start from trees, documents and lines already split into numbers. The JSON
  text of a glTF document is any function of its lists, and what the text says the same for every mesh is not modelled;
  accessor limits are exact reals. In XTCE only space systems, types and parameters are, and an alarm is its limits, not
  its elements.
* Rounding: EPS powers, placement quotas, limits, mesh coordinates and calendar seconds are exact reals; packing to
  32-bit floats is any function that may fail. Unit normals are taken as given, their square root is not modelled.
* The configuration's text for an error, and which of several errors comes first; only that there is one.
* Ports, sockets, polling errors, hang-ups and timeouts of the board tunnel: they end the loops like the end of the
  rounds. The logs, request and exit files of the bridge.
* Campaign validation, drawing from distributions, reports, and everything around the images: containers, Yamcs, the
  director, the EPS simulator, 42 and its shared memory. Physical core detection only supplies a topology.
- SharedBarrier.BarrierHandle.Receive: other threads move while the call waits for the mutex or sleeps; those that move
  between its unlocked reads, or set the interrupt flag within its lock section, are in the steps of `Barrier`. The spin
  that begins the call is left out, since only its last load counts.
- SharedBarrier.BarrierState.WaitFast: the unlocked test of the wait only; the timed sleep of the server is the
  WaitLock, WaitWake and WaitReturn steps of `Barrier`.
- PhaseClient.Client.ReceivePhase: from the moment a frame has arrived. The stop and interrupt answers of the shared
  barrier are those of `SharedBarrier.BarrierHandle.Receive`; the retries of the socket are not modelled.
- PhaseClient.Client.CompleteTick: one thread alone; several threads are the steps of `Claims`, and
  `Claims.CallIsSteps` ties the two together.
- PhaseClient.Client.RunPhasedLoop: over a finite list of arriving frames, at whose end the loop is left.
- Claims.AtMostOneSuccess: for runs without a frame of sequence 2^64-1; `AtMostOnceExactly` shows that this is needed.
- BarrierTheorems.ReceiveMakesProgress: a bound that falls with every own step, not a liveness statement under a
  scheduler.
- TraceDecode.TickRoundTrip: commands of a type outside the enumeration make the decoder fail, as it says.
- BarrierTheorems.CompletionHappensOnce: only what a success means; when there is one is `CompletionSucceedsExactly`.
- BarrierHandshake.MixedFrameWithoutCommit: with COMMIT in a partial mask the wrong frame can be that of another
  publication; see `PartialMaskReadsWrong`.
- PhaseClient.LoopCompletesUntilFailure: for any frames and answers; `LockstepLoop` supplies those of the barrier.
- EpsConfig.PlainIsAcceptedExactly: for a configuration with nothing wired; `EpsTheorems.AcceptedExactly` has the
  condition for any.
- TraceAccepts.RecordAcceptedExactly: which of the errors a refused record raises is only in `RecordReader.TakeTick`.
- Cpuset.RangesAreUnique: that other ranges would give a longer text is not stated: "1-2" is as long as "1,2".
- PowerRuntime.ConfigCheckBoundsTheRuntime: for components configured with what is rendered for them.
- Xtce.EditIsLocal: a type is looked up in the parameter's own space system only, as the code does; the search in
  enclosing systems that XTCE also allows is not part of the code.
- XtceTheorems.AppliedAsExpected: needs compatible limits; `RightInAnyOrderExactly` shows that nothing less will do.
- TreePath.Tree.SetPath: the tree is a value in a field and the nodes on the way are put back after the walk, so lists
  or dictionaries shared between two places, or between two trials through a drawn value, are not modelled.
- Framing.BoardLoop: over a finite list of poll rounds and a finite script of system-call outcomes.
- PlacementPlan.ManualPlanReadsBack: for names without comma, equals sign or outer blanks, which the text cannot carry.
