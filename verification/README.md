# ZephCore verification model

A Dafny model of the firmware's stateful cores, and proofs about it. Objects whose
methods change fields are classes; every such method is proved against a function of
the old state, and the results about whole runs are lemmas about those functions.

| files | what they model |
|---|---|
| `Words`, `Wrappers` | fixed-width unsigned arithmetic, C's truncating division, optional values, C strings |
| `Marzullo`, `MeshTimeSync`, `TimeSyncVote`, `TimeSyncRuns`, `TimeSyncLoop` | the mesh time consensus: evidence table, in-place endpoint sort and sweep, step policy, runs, runs that correct the clock they see |
| `ConfigText`, `ConfigLoad`, `ConfigGrammar`, `ConfigRoundTrip` | the text config printer, the character-level loader, the grammar of what it loads, and the round trip over any nested schema |
| `RoomPosts`, `RoomRuns`, `RoomDelivery`, `RoomReach`, `RoomSchedule` | room server post delivery, runs of it, that they deliver, how old its deadlines can be, and the prediction of its next work |
| `RegionMap`, `RegionText`, `RegionKeys` | the region tree, its text export and loader, its transport key cache |
| `OfflineQueue`, `CompanionReplies` | the offline message ring with peek and confirm, the one-slot reply holder, the contact dump |
| `KissFraming`, `KissQueue`, `KissModem` | KISS escaping and resynchronisation, the output queue with partial writes, the transmit state machine |
| `Advert` | advert encoding and parsing, name truncation at code-point boundaries (RFC 3629 section 4) |

Conventions. Unsigned fields are bounded integers and wrap where the C++ does; signed
64-bit intermediates are unbounded integers, which they cannot overflow. Text and bytes
are sequences. Uptime, the clock, random draws, packet
building, the radio's answers and the space a transport has are parameters, so every
statement holds for all of them. Hashes are uninterpreted function parameters. C leaves
`atol` undefined for numbers out of range; that it returns the nearest `long` is an
assumption about the target's C library.

## What the code does not do

Where code and documentation, or two parts of the code, disagree, the model follows the
code; each case has a lemma with an input and a lemma saying exactly when the code does
what is promised.

- A `uint32_t` config value of 2^31 or more is read back clipped where `long` has 32 bits
  and the C library's `atol` saturates, as assumed throughout
  (`BigUnsignedIsClipped`); the round trip restores a config exactly when its integers fit
  a `long` (`RoundTripExactlyWhen`).
- A config text loads although it is empty or goes on after its object, and a key begun after an
  object goes on after a comma (`EmptyAndTrailingTextLoad`, `AKeyRunsOn`, `LoadsExactlyWhen`).
- `msUntilNextPush` counts whole clock seconds from a moment inside one, so it may
  oversleep by less than a second (`OffTheSecondItOversleeps`, `WakesInTimeExactlyWhen`,
  `NeverASecondLate`, `OnTheSecondItWakesInTime`). A deadline more than 2^31 ms in the past
  reads as ahead (`AStaleGateOversleeps`, `UntilExactlyWhen`); no run has one within 2^31 ms
  of its last pass (`ReachedIsTimely`).
- A loaded row's `F` does not count for a region the live map knows: its flags there win
  (`AKnownFlagWins`, `SameTextExactlyWhen`).
- A region named `#`, denied and not the home, prints as a blank line, which commits a load
  early (`AHashAloneCommitsEarly`, `CommitsEarlyExactlyWhen`).
- A loaded row for a region the live map knows is put even when the table is full, one entry
  past its end (`AKnownRowOverruns`, `FitsExactlyWhen`).
- A known region's loaded name that exceeds 30 characters with its `#` is cut while keeping
  the region's id, so a cached key is another name's (`ACutNameKeepsTheOldKey`,
  `KeyIsStaleExactlyWhen`).
- An overflow drop between a peek and the next sync request makes the confirmation remove a
  message that was never sent (`OverlapLosesAMessage`, `ConfirmExactlyWhen`).
- A post pushed without a packet, or with an ACK hash of 0, is not counted against a silent
  client and is pushed again (`ForgottenExactlyWhen`).
- An advert type of 16 or more runs into the flag bits (`TypeExactlyWhen`).
- The truncated midpoint may move by a second less or more than the clock did
  (`MoveCanLoseASecond`, `NoSecondLostExactlyWhen`).

## Model

| member | source | states |
|---|---|---|
| Marzullo.SortSorts | zephcore/helpers/MeshTimeSync.cpp:171-187 | the insertion sort orders endpoints by value, starts before ends at equal values |
| Marzullo.SortPermutes | zephcore/helpers/MeshTimeSync.cpp:176-187 | and loses, repeats or invents none |
| Marzullo.SweepStopsBeforeAnEnd | zephcore/helpers/MeshTimeSync.cpp:189-200 | the endpoint after the best one exists and is an end; the best one is a start |
| Marzullo.IntersectIsDeepest | zephcore/helpers/MeshTimeSync.cpp:171-207 | the sweep's interval is non-empty, each of its points lies in exactly the counted number of votes, and no point anywhere lies in more |
| Marzullo.SharedVote | zephcore/helpers/MeshTimeSync.cpp:255-264 | two points that together have more votes than there are share a vote: why a majority bounds the error |
| Marzullo.IntersectMoves | zephcore/helpers/MeshTimeSync.cpp:63-69 | moving every vote moves the deepest interval alike and keeps its count |
| MeshTimeSync.MeshTimeSync.OnAdvertHeard | zephcore/helpers/MeshTimeSync.cpp:82-143 | the table after an advert: dropped beyond the hop cap or when not newer, refreshed with or without its tenure, admitted to a free slot, or in place of the victim of the eviction order |
| MeshTimeSync.MeshTimeSync.FindVictim | zephcore/helpers/MeshTimeSync.cpp:113-134 | the scan finds the first of the displaceable slots none other is to be evicted before, and none only if all are protected |
| MeshTimeSync.MeshTimeSync.CollectVotes | zephcore/helpers/MeshTimeSync.cpp:152-167 | the two arrays hold the endpoints of exactly the eligible slots' intervals |
| MeshTimeSync.SortEndpoints | zephcore/helpers/MeshTimeSync.cpp:176-187 | the in-place sort of both arrays leaves the sorted endpoints |
| MeshTimeSync.InsertEndpoint | zephcore/helpers/MeshTimeSync.cpp:177-186 | one round inserts one endpoint into the sorted part and touches nothing after it |
| MeshTimeSync.Sweep | zephcore/helpers/MeshTimeSync.cpp:189-200 | the running count finds the deepest interval and its depth |
| MeshTimeSync.MeshTimeSync.ComputeConsensus | zephcore/helpers/MeshTimeSync.cpp:145-208 | the arrays' result is the consensus of the eligible votes |
| MeshTimeSync.MeshTimeSync.EvaluateNow | zephcore/helpers/MeshTimeSync.cpp:210-300 | the verdict is the policy's decision on that consensus |
| MeshTimeSync.MeshTimeSync.Tick | zephcore/helpers/MeshTimeSync.cpp:302-320 | evaluations are paced: the first call arms the timer, early calls do nothing |
| MeshTimeSync.MeshTimeSync.RunTick | zephcore/helpers/MeshTimeSync.cpp:322-358 | the clock moves by the verdict's delta exactly when a step is wanted, allowed by the role and inside the clock's range; the samples stay |
| MeshTimeSync.MeshTimeSync.NoteTrustedSync | zephcore/helpers/MeshTimeSync.cpp:360-379 | a manual or GPS set arms suppression and pedigree |
| MeshTimeSync.MeshTimeSync.NoteStepApplied | zephcore/helpers/MeshTimeSync.cpp:381-388 | an applied step is remembered for the rate limit, and counted |
| TimeSyncVote.ConsensusIsDeepest | zephcore/helpers/MeshTimeSync.cpp:145-208 | for every table: with an eligible voter the consensus is valid, its interval is agreed by exactly votes_for senders at each point and no offset by more, votes_for and votes_against add up |
| TimeSyncVote.HonestMajorityBound | zephcore/helpers/MeshTimeSync.cpp:82-85 | when more than half of the eligible senders' intervals contain the true offset, the majority test passes and mid is within 390 s of it, whatever the rest report |
| TimeSyncVote.HonestMajorityStep | zephcore/helpers/MeshTimeSync.cpp:255-299 | then a normal evaluation never abstains for quorum or majority, and a step leaves the clock within 390 s or takes exactly an hour off the error |
| TimeSyncVote.StepExactlyWhen | zephcore/helpers/MeshTimeSync.cpp:226-299 | a step is asked for if and only if every gate is open; its size, sign and cap |
| TimeSyncVote.UptimeKeepsSkew | zephcore/helpers/MeshTimeSync.cpp:63-69 | elapsed uptime changes no sample's skew, a clock step changes each by that step |
| TimeSyncVote.ConsensusMoves | zephcore/helpers/MeshTimeSync.cpp:63-207 | moving the clock by d with the same voters keeps votes and radius and moves mid by -d within a second |
| TimeSyncVote.MoveCanLoseASecond | zephcore/helpers/MeshTimeSync.cpp:205 | two tenured senders 3 s apart for whom moving the clock by 2 s moves mid by 1 s: the division truncates |
| TimeSyncVote.NoSecondLostExactlyWhen | zephcore/helpers/MeshTimeSync.cpp:197-205 | no second is lost if and only if the overlap's two endpoints have an even sum, or a sum that keeps its sign |
| TimeSyncVote.StepSettles | zephcore/helpers/MeshTimeSync.cpp:294-298 | after an uncapped step the next verdict is in band; after a capped one mid is an hour nearer within a second |
| TimeSyncVote.StepTakesOff | zephcore/helpers/MeshTimeSync.cpp:294-298 | each step of a sequence of evaluations with the same voters takes its delta off mid within a second, so it crosses zero by at most that |
| TimeSyncVote.StepsConverge | zephcore/helpers/MeshTimeSync.cpp:294-298 | evaluations that each ask for a step, with the same voters, are at most one more than the first error has hours of 3599 s; each brings mid nearer and none overshoots by more than a second |
| TimeSyncVote.HeardKeepsTable | zephcore/helpers/MeshTimeSync.cpp:82-143 | an advert keeps senders distinct and every sample within the hop cap |
| TimeSyncVote.TenuredKeepsSlot | zephcore/helpers/MeshTimeSync.cpp:113-133 | no advert by another sender touches a tenured slot heard from within a day |
| TimeSyncVote.VoteNeverRegresses | zephcore/helpers/MeshTimeSync.cpp:87-106 | a sender's vote changes only by its own newer advert |
| TimeSyncVote.TenureRestartsExactlyWhen | zephcore/helpers/MeshTimeSync.cpp:87-106 | a known sender's newer advert restarts its tenure, and so bars it from normal votes for an hour, if and only if its stamp is off by more than 45 s and 150 ppm of the time since its last; otherwise it counts |
| TimeSyncVote.AdmittedExactlyWhen | zephcore/helpers/MeshTimeSync.cpp:108-142 | an unknown sender is admitted if and only if it is within three hops and some slot is free, or farther and either young or silent for a day; a free slot goes first, then the farthest, least heard, stalest; nothing else changes |
| TimeSyncVote.VotesForTheTruthExactlyWhen | zephcore/helpers/MeshTimeSync.cpp:63-69 | a sender's interval contains the true offset if and only if its stamp was within 150 s and 15 s a hop of the truth on arrival |
| TimeSyncVote.HonestSendersAgree | zephcore/helpers/MeshTimeSync.cpp:145-167 | so those agreeing on the true offset are as many as the eligible senders with such stamps |
| TimeSyncVote.BootstrapSteps | zephcore/helpers/MeshTimeSync.cpp:222-253 | a clock before the build epoch is stepped, to 150 s short of the consensus, when three senders agree, none reaches below 750 s ahead and no gate is closed |
| TimeSyncRuns.RunsAreSafe | zephcore/helpers/MeshTimeSync.cpp:226-398 | in every run applied steps are six hours apart and seven days from any trusted sync, consensus steps within the hour cap and the drift envelope of every earlier sync, none backward in a forward-only role |
| TimeSyncRuns.RunDisplacement | zephcore/helpers/MeshTimeSync.cpp:277-298 | in any window of a run consensus steps move the clock by at most an hour per started six hours |
| TimeSyncRuns.FourHoursPerDay | zephcore/helpers/MeshTimeSync.cpp:277-298 | at most four hours in less than a day |
| TimeSyncRuns.RunsKeepTable | zephcore/helpers/MeshTimeSync.cpp:82-143 | the table invariant the majority bound needs holds throughout |
| TimeSyncRuns.RunsEarnTenure | zephcore/helpers/MeshTimeSync.cpp:82-143 | every slot in every run shows a tenure: a chain of the sender's adverts, each newer than the one before and in agreement with it within 45 s and 150 ppm, none newer left out, whose length is the count |
| TimeSyncRuns.VotersAreTenured | zephcore/helpers/MeshTimeSync.cpp:51-61 | in every run a sender votes in normal mode if and only if that chain has two adverts, the first an hour old and the last at most five days; in bootstrap mode if and only if the last is |
| TimeSyncRuns.RunsPaceEvals | zephcore/helpers/MeshTimeSync.cpp:305-315 | in every run the next evaluation is at most one interval off |
| TimeSyncRuns.EvalWaitIsExact | zephcore/helpers/MeshTimeSync.h:142-148 | in every run: before the reported wait is over a tick does nothing, at its end it evaluates, and zero means now |
| TimeSyncRuns.EvalsAreApart | zephcore/helpers/MeshTimeSync.cpp:302-320 | in every run an evaluation is a quarter of an hour after the last one, or after the tick that armed the timer |
| TimeSyncLoop.EveryStepHelps | zephcore/helpers/MeshTimeSync.cpp:255-358 | in every run whose evaluations, all past the build epoch, each have quorum and an honest majority, whoever the voters are then: the clock's error falls by an hour a step until it is within 390 s of the truth, and no step takes it further out again |
| TimeSyncLoop.ErrorSettles | zephcore/helpers/MeshTimeSync.cpp:269-358 | there too each evaluation that suppression, rate limit, envelope, role and clock range let through steps or finds the clock in band: the error falls by an hour for each until it is under 990 s, and stays there |
| ConfigText.Writer.SaveSerial | zephcore/helpers/ConfigSerializer.cpp:4-13 | what saving a whole schema appends to the stream |
| ConfigText.Writer.WriteEscaped | zephcore/helpers/ConfigSerializer.cpp:166-185 | a string's characters with quotes, backslashes and line ends escaped |
| ConfigText.AtolOfDecimal | zephcore/helpers/ConfigSerializer.cpp:194-218 | reading back a printed integer gives it, clipped to a long |
| ConfigText.HexRoundTrip | zephcore/helpers/ConfigSerializer.cpp:151-164 | hex decoding undoes hex printing |
| ConfigLoad.Context.ReadNext | zephcore/helpers/ConfigSerializer.cpp:44-101 | one call consumes the pushed-back character or the next one and takes the transition of its mode on the token buffer |
| ConfigLoad.StepFits | zephcore/helpers/ConfigSerializer.cpp:57-100 | no character overruns the buffer; keys and values fit their limits; only the end of a bare value pushes a character back |
| ConfigLoad.LoadSerial | zephcore/helpers/ConfigSerializer.cpp:103-139 | the loop with its nesting counter computes the loader's outcome on any text, errors included |
| ConfigGrammar.LoadsExactlyWhen | zephcore/helpers/ConfigSerializer.cpp:47-139 | a text loads if and only if it is a document of the grammar: keys of up to 15 characters, values of up to 127, objects up to seven deep, and every brace closed |
| ConfigGrammar.DocumentLoads | zephcore/helpers/ConfigSerializer.cpp:91-139 | and what it loads is what it means, whatever its layout: each value goes to the fields that the keys before it name |
| ConfigGrammar.CharactersExactlyWhen | zephcore/helpers/ConfigSerializer.cpp:26-33 | keys are letters, digits and underscores; bare values small letters, digits, minus signs and points |
| ConfigGrammar.EmptyAndTrailingTextLoad | zephcore/helpers/ConfigSerializer.cpp:91-139 | no text at all loads, and so does more after the closing brace |
| ConfigGrammar.AKeyRunsOn | zephcore/helpers/ConfigSerializer.cpp:65-74 | `{a:{}b,c:1}` sets bc: a key begun after an object goes on after a comma |
| ConfigRoundTrip.SaveThenLoad | zephcore/helpers/ConfigSerializer.cpp:4-139 | for every nested schema within the depth, key and token limits: loading the saved text into any instance of the same shape succeeds and gives the saved values, integers clipped to a long |
| ConfigRoundTrip.RoundTripExactlyWhen | zephcore/helpers/ConfigSerializer.cpp:194-218 | the values come back unchanged if and only if every integer fits a long |
| ConfigRoundTrip.BigUnsignedIsClipped | zephcore/helpers/ConfigSerializer.cpp:207-218 | 2^31 in a uint32_t comes back as 2^31 - 1 on a 32-bit long |
| ConfigRoundTrip.ObjectRun | zephcore/helpers/ConfigSerializer.cpp:319-335 | the same for one object at any depth, leaving everything around it alone |
| ConfigRoundTrip.ApplyPlug | zephcore/helpers/ConfigSerializer.cpp:319-334 | re-running the schema for one value changes the field whose whole key path matches, and no other |
| ConfigRoundTrip.TextTakesWhatFits | zephcore/helpers/ConfigSerializer.cpp:148-192 | a text field takes as much of any token as fits; a blob takes hex of its length, and is cleared by anything else |
| ConfigRoundTrip.NumbersAreTaken | zephcore/helpers/ConfigSerializer.cpp:194-290 | a flag takes any number, on unless it is 0; a number within its field's type is taken as it is |
| RoomPosts.RoomServer.StorePost | zephcore/app/RoomServerMesh.cpp:109-118 | a post takes the slot of the oldest with a unique time and its text cut to what the slot holds, and sets the push gate |
| RoomPosts.RoomServer.PushPostToClient | zephcore/app/RoomServerMesh.cpp:120-159 | a push is in flight with its post's time and an ack timeout by route, or not at all if no packet could be built |
| RoomPosts.RoomServer.GetUnsyncedCount | zephcore/app/RoomServerMesh.cpp:161-170 | counts the posts newer than the client's since by other authors |
| RoomPosts.CountUnsynced | zephcore/app/RoomServerMesh.cpp:161-170 | is zero exactly when there is no such post |
| RoomPosts.CountsThemAll | zephcore/app/RoomServerMesh.cpp:161-170 | and otherwise how many there are |
| RoomPosts.RoomServer.ProcessAck | zephcore/app/RoomServerMesh.cpp:172-183 | found if and only if a client waits for this ACK; the first that does has its push and failures cleared and its since moved to the post pushed, all others are unchanged |
| RoomPosts.RoomServer.ExpireOverdue | zephcore/app/RoomServerMesh.cpp:1024-1031 | every overdue push, and no other, is given up and counted |
| RoomPosts.RoomServer.Pick | zephcore/app/RoomServerMesh.cpp:1032-1050 | finds the first ready post in ring order, for a client that may be served |
| RoomPosts.PickFrom | zephcore/app/RoomServerMesh.cpp:1038-1049 | which is ready, and none before it is |
| RoomPosts.RoomServer.PushBlock | zephcore/app/RoomServerMesh.cpp:1022-1053 | the whole pass: gate, expiry, one client served in turn, the next gate |
| RoomPosts.RoomServer.KeepAlive | zephcore/app/RoomServerMesh.cpp:617-632 | a keep-alive revives the client, drops the push in flight and may move its since |
| RoomPosts.RoomServer.HearFrom | zephcore/app/RoomServerMesh.cpp:534-539 | a fresh text or request revives the client |
| RoomPosts.RoomServer.Login | zephcore/app/RoomServerMesh.cpp:434-476 | a login sets since, drops the push in flight, revives the client, takes a unique time and holds pushes back a second; a client not listed is added while there is room |
| RoomRuns.StoringRemembers | zephcore/app/RoomServerMesh.cpp:110-114 | the ring holds the newest posts of the history, oldest first, times strictly rising |
| RoomRuns.PickIsLegal | zephcore/app/RoomServerMesh.cpp:1035-1049 | the post picked is the oldest the client lacks, by someone else |
| RoomRuns.RunsAreOrderly | zephcore/app/RoomServerMesh.cpp:109-183 | in every run, short of the 32-bit clock's end, every push is legal: none in flight, fewer than three unanswered, the oldest post lacked |
| RoomRuns.AcksIncrease | zephcore/app/RoomServerMesh.cpp:172-181 | without a reset of since, the times one client acknowledges strictly increase |
| RoomRuns.NothingIsSkipped | zephcore/app/RoomServerMesh.cpp:1037-1049 | between two successive acknowledged posts no other author's post is skipped, unless the ring had lost it before the second was pushed |
| RoomRuns.OnePushInFlight | zephcore/app/RoomServerMesh.cpp:1033-1036 | between two pushes in flight to a client the first is acknowledged, given up or reset |
| RoomRuns.SilentClientGetsThree | zephcore/app/RoomServerMesh.cpp:1026-1036 | over any stretch without a sign of life a client gets at most three pushes that expect an ACK |
| RoomRuns.ForgottenExactlyWhen | zephcore/app/RoomServerMesh.cpp:138-158 | a push is forgotten, and its post ready for the same client again, if and only if no packet went out or its ACK hash is 0 |
| RoomRuns.AckSettlesExactlyWhen | zephcore/app/RoomServerMesh.cpp:172-183 | an ACK event settles the push of the first client waiting for it, and of no other |
| RoomRuns.GivenUpExactlyWhen | zephcore/app/RoomServerMesh.cpp:138-158 | a push is given up, and counted, 12 s after a flooded one and 4 s and 2 s a hop, and 2 s more, after a direct one |
| RoomRuns.ServedAgainExactlyWhen | zephcore/app/RoomServerMesh.cpp:534-632 | a client given up on is served again exactly once a text, request, keep-alive or login comes from it; a path does not revive it |
| RoomRuns.PassesArePaced | zephcore/app/RoomServerMesh.cpp:1051-1053 | a pass that pushes holds the next off by 1.2 s, one that does not by 150 ms |
| RoomRuns.HeldOffASecond | zephcore/app/RoomServerMesh.cpp:116 | a post or a login holds it off by a second |
| RoomRuns.UniqueIsLeast | zephcore/app/RoomServerMesh.cpp:113 | a post's time is the earliest after all times handed out and not before the clock |
| RoomRuns.NoTimeTwice | zephcore/app/RoomServerMesh.cpp:109-118 | and in any event none is handed out twice |
| RoomDelivery.TurnComes | zephcore/app/RoomServerMesh.cpp:1032-1052 | in every run, among as many open passes as there are clients is one that serves each |
| RoomDelivery.WaitingIsServed | zephcore/app/RoomServerMesh.cpp:1032-1052 | in every run a post that waits for an idle client, and that the ring still holds, is pushed to it, or an older one is, within as many open passes as there are clients |
| RoomDelivery.PassedIsReceived | zephcore/app/RoomServerMesh.cpp:172-181 | a post by someone else that a client's since has passed without a reset, and that the ring still holds, was pushed to it and acknowledged before anything else settled that push |
| RoomDelivery.CatchesUp | zephcore/app/RoomServerMesh.cpp:1022-1053 | in every run, while posts come in and clients log in: a client that acknowledges each push before its next turn, whose turns find a post past its delay while it lacks any and send it, lacks nothing at some moment of any stretch with a round of open passes for each post it lacked or that came in, and one more |
| RoomDelivery.EverythingIsDelivered | zephcore/app/RoomServerMesh.cpp:1022-1053 | at that moment every post by others that the ring holds, newer than what the client had when the stretch began, has been pushed to it and acknowledged, or is in flight |
| RoomDelivery.AckDelivers | zephcore/app/RoomServerMesh.cpp:172-183 | in every run an ACK that a client is the first to wait for turns its post in flight into one received, and its since into that post's time |
| RoomReach.RunsStayDue | zephcore/app/RoomServerMesh.cpp:1022-1053 | in every run whose uptime does not go back no deadline of a client or of the gate lies before the last pass, nor further ahead than one can be set |
| RoomReach.TimedRunIsRun | zephcore/app/RoomServerMesh.cpp:1022-1053 | leaving out the uptimes such a run is a run, so what holds in every run holds in it |
| RoomSchedule.UntilExactlyWhen | zephcore/include/mesh/Maintenance.h:40-48 | within one turn of the clock the wait is right if and only if the deadline is less than half a turn away |
| RoomSchedule.ReachedIsTimely | zephcore/include/mesh/Maintenance.h:36-48 | so within 2^31 ms of its last pass every deadline of a run is less than half a turn of the clock away |
| RoomSchedule.MsUntilNextPush | zephcore/app/RoomServerMesh.cpp:1213-1243 | the loops, with their early exits, compute the later of the gate and the soonest work over all clients and posts |
| RoomSchedule.WorkIsLaterExactlyWhen | zephcore/app/RoomServerMesh.cpp:1218-1238 | the soonest work lies after a moment if and only if every ack timeout and every delay counted does |
| RoomSchedule.QuietPass | zephcore/app/RoomServerMesh.cpp:1023-1053 | when no client has work a pass pushes nothing and gives up on nothing |
| RoomSchedule.ActsInTurn | zephcore/app/RoomServerMesh.cpp:1023-1050 | when one has, the pass gives up on its push, or pushes to it if this is its turn |
| RoomSchedule.NoWaitForWork | zephcore/app/RoomServerMesh.cpp:1207-1212 | in every run, within 2^31 ms of its last pass: whenever the engine could act now, the wait is 0 |
| RoomSchedule.NoWaitMeansWork | zephcore/app/RoomServerMesh.cpp:1207-1212 | there too a wait of 0 means it could, unless a post's delay wraps 2^32 ms |
| RoomSchedule.WakesInTimeExactlyWhen | zephcore/app/RoomServerMesh.cpp:1207-1243 | there too the wait oversleeps if and only if some post's delay ends, with the gate open, before every ack timeout and every delay as counted |
| RoomSchedule.NeverASecondLate | zephcore/app/RoomServerMesh.cpp:1231-1236 | there too no work comes more than now % 1000 ms before the end of the wait |
| RoomSchedule.OnTheSecondItWakesInTime | zephcore/app/RoomServerMesh.cpp:1236 | there too, asked as a clock second begins it never oversleeps |
| RoomSchedule.OffTheSecondItOversleeps | zephcore/app/RoomServerMesh.cpp:1236 | asked at any other moment it oversleeps in some room a run reaches |
| RoomSchedule.AStaleGateOversleeps | zephcore/app/RoomServerMesh.cpp:1241-1242 | a run with no pass for 2^31 ms after its first post: there is work now and the wait is not 0 |
| RegionMap.RegionMap.FindByName | zephcore/helpers/RegionMap.cpp:209-218 | the wildcard, or the first entry with the name, one leading '#' aside |
| RegionMap.RegionMap.PutRegion | zephcore/helpers/RegionMap.cpp:149-171 | the table and counters after a put: refused, moved, full or appended |
| RegionMap.RegionMap.RemoveRegion | zephcore/helpers/RegionMap.cpp:261-282 | exactly a childless entry of the table goes, the others keep their order |
| RegionMap.PutExactlyWhen | zephcore/helpers/RegionMap.cpp:149-171 | a put moves the region of that name or adds one, with the given or the next id, and changes no other; it is refused exactly for a bad name, under itself, or for want of room |
| RegionMap.RemovesThatOne | zephcore/helpers/RegionMap.cpp:261-282 | removing a childless region takes that entry and leaves the others in order |
| RegionMap.PutKeepsTidy | zephcore/helpers/RegionMap.cpp:149-171 | a put keeps ids distinct, nonzero and below the next id, and every parent present |
| RegionMap.RemoveKeepsTidy | zephcore/helpers/RegionMap.cpp:261-282 | a removal never leaves a region without its parent; it takes effect exactly on a childless region |
| RegionMap.ChainIsShort | zephcore/helpers/RegionMap.cpp:289-306 | a way down from the root has no repeats, so the recursion ends whatever cycles there are elsewhere |
| RegionMap.RegionMap.PrintChildRegions | zephcore/helpers/RegionMap.cpp:289-306 | terminates, and writes the region's line and those of every row below it in table order |
| RegionMap.PrintsExactlyOnce | zephcore/helpers/RegionMap.cpp:289-306 | each region connected to the root is printed once, a region in or below a cycle never |
| RegionMap.RowsAreChains | zephcore/helpers/RegionMap.cpp:300-305 | every row printed is a way down the parents from the root |
| RegionText.RegionLoader.StartRegionsLoad | zephcore/app/RoomServerMesh.cpp:872-877 | an empty map with the live map's next id, and the root on the stack |
| RegionText.RegionLoader.HandleRegionLoadLine | zephcore/app/RoomServerMesh.cpp:1136-1174 | a blank line commits, an unindented name aborts, a row is put under the last one above its depth with the known id and flags |
| RegionText.LineParses | zephcore/app/RoomServerMesh.cpp:1142-1159 | a printed line parses to the depth, name and flood permission it was printed from |
| RegionText.ParsesExactlyWhen | zephcore/app/RoomServerMesh.cpp:1137-1160 | any line is blank, starts with a name and is a command, or is spaces, a name and a rest whose F allows flooding |
| RegionText.ACommandAborts | zephcore/app/RoomServerMesh.cpp:1137-1150 | a line that starts with a name ends the load and leaves the live map; a blank one replaces it |
| RegionText.PlacesAreEarned | zephcore/app/RoomServerMesh.cpp:1161-1171 | in any load a row stands under the root or under a row of the same load |
| RegionText.RootLineIsSkipped | zephcore/app/RoomServerMesh.cpp:1146-1161 | the root's line is no command and adds nothing |
| RegionText.DepthsStepDown | zephcore/helpers/RegionMap.cpp:300-305 | a row is at most one deeper than the row before it |
| RegionText.AppendPrintsLast | zephcore/helpers/RegionMap.cpp:289-306 | a new region put under the way to the last row is printed after all others |
| RegionText.LoadRow | zephcore/app/RoomServerMesh.cpp:1161-1171 | loading the next line extends the rebuilt tree by that row |
| RegionText.ReloadsTheSameTree | zephcore/app/RoomServerMesh.cpp:1136-1174 | for every portable map and every live map with ids to spare: feeding the export back, and a blank line, rebuilds depth, name and order of every row, with the flags the live map knows the region by, else those of the text |
| RegionText.SameTextExactlyWhen | zephcore/app/RoomServerMesh.cpp:1164-1167 | the flood permissions come back, and exporting again gives the same text, if and only if the live map disagrees about no printed region it knows |
| RegionText.AKnownFlagWins | zephcore/app/RoomServerMesh.cpp:1167 | a live map that allows what the text denies: the row comes back allowed and the text changed |
| RegionText.AHashAloneCommitsEarly | zephcore/app/RoomServerMesh.cpp:1137-1139 | a region named '#' commits the load before its siblings |
| RegionText.CommitsEarlyExactlyWhen | zephcore/app/RoomServerMesh.cpp:1137-1139 | a load is still under way after a map's whole export if and only if no row printed is a denied region, not the home, named '#' or nothing |
| RegionKeys.TransportKeyStore.GetAutoKeyFor | zephcore/helpers/TransportKeyStore.cpp:37-50 | the cached key of the id, or the hash, cached while there is room |
| RegionKeys.TransportKeyStore.GetTransportKeysFor | zephcore/helpers/RegionMap.cpp:173-189 | private regions get what is cached under their id, others the key of '#' and the name |
| RegionKeys.FirstKeysOf | zephcore/helpers/TransportKeyStore.cpp:52-61 | a private region's keys are the first cached under its id, as many as asked for |
| RegionKeys.PrivateKeysAreCached | zephcore/helpers/RegionMap.cpp:173-189 | which are its only keys: its name is never hashed |
| RegionKeys.CacheIsBounded | zephcore/helpers/TransportKeyStore.cpp:27-33 | a look-up takes no key back and the cache never holds more than 16 |
| RegionKeys.KeysAreKept | zephcore/helpers/TransportKeyStore.cpp:37-50 | while there is room, a key once worked out for an id is what every later look-up under it gets |
| RegionKeys.KeyIsItsHash | zephcore/helpers/TransportKeyStore.cpp:27-50 | a plain or hashtag region's key is the hash of '#' and its name without one leading '#', cached or not |
| RegionKeys.RunsKeepTreeAndKeys | zephcore/helpers/RegionMap.cpp:149-189 | along every run of put, remove, flag changes, loads and look-ups, short of the end of the ids and of loaded rows that overrun the table or are cut, both only for regions the live map knows: parents present, ids distinct, connected regions printed once, keys as if nothing were cached |
| RegionKeys.AKnownRowOverruns | zephcore/helpers/RegionMap.cpp:162-164 | a run that fills the table with new regions and then loads the one the live map knows puts one entry past the end |
| RegionKeys.FitsExactlyWhen | zephcore/helpers/RegionMap.cpp:162-164 | a row that lands leaves the table within its bounds if and only if it is not a known region's, new to a full table |
| RegionKeys.ACutNameKeepsTheOldKey | zephcore/helpers/RegionMap.cpp:164-168 | a run that puts a 30-character name, looks it up and loads it back with a '#': the region keeps its id, loses its last character, and its key is the old name's |
| RegionKeys.KeyIsStaleExactlyWhen | zephcore/helpers/RegionMap.cpp:162-168 | after a row and the commit, and for a hash without collisions, the region's key is another name's if and only if the name was cut, the region known and its key cached |
| OfflineQueue.Ring.AddToOfflineQueue | zephcore/app/CompanionMesh.cpp:439-471 | the ring's contents across wraparound: when full, less the victim, then the new frame clipped to a slot |
| OfflineQueue.OverflowKeepsOrder | zephcore/app/CompanionMesh.cpp:442-464 | the victim is the earliest channel message, or the earliest frame if there is none; survivors keep their order |
| OfflineQueue.StoredWholeExactlyWhen | zephcore/app/CompanionMesh.cpp:465-471 | a message is stored whole if and only if it fits a slot, else as much of it as fits |
| OfflineQueue.Ring.ConfirmOfflineMessage | zephcore/app/CompanionMesh.cpp:482-487 | removes the head, if any |
| OfflineQueue.Ring.PeekOfflineMessage | zephcore/app/CompanionMesh.cpp:473-480 | shows the head and changes nothing |
| OfflineQueue.SyncRunsAreOk | zephcore/app/CompanionMesh.cpp:2376-2401 | in every run of arrivals, requests and disconnects the messages stay in arrival order, and the head is never older than the message last written |
| OfflineQueue.ConfirmExactlyWhen | zephcore/app/CompanionMesh.cpp:2386-2401 | in every run the request after a write confirms the message then written if and only if no arrival between found the queue full with its head to drop; otherwise it confirms a later one |
| OfflineQueue.ConfirmsNothingElse | zephcore/app/CompanionMesh.cpp:2376-2401 | in every run a request confirms nothing when no message has been written since the last request or disconnect |
| OfflineQueue.OverlapLosesAMessage | zephcore/app/CompanionMesh.cpp:459-463 | with such a drop a message never sent is confirmed away |
| CompanionReplies.CompanionSerial.WriteFrame | zephcore/app/CompanionSerial.h:35-53 | accepted frames go out or, for replies, are held; refused when holding or disconnected |
| CompanionReplies.CompanionSerial.CheckRecvFrame | zephcore/app/CompanionSerial.h:55-58 | no command is read while a reply is held |
| CompanionReplies.CompanionSerial.RetryHeld | zephcore/app/CompanionSerial.h:61-69 | with room on a connected link the held reply goes out and none is held; without room it stays; on disconnect it is dropped |
| CompanionReplies.WriteIssues | zephcore/app/CompanionSerial.h:35-53 | a write issues its frame exactly when it reports success, after everything issued before |
| CompanionReplies.HeldExactlyWhen | zephcore/app/CompanionSerial.h:35-53 | a frame is held if and only if it is a reply, its code below 128, on a connected link without room |
| CompanionReplies.RetryIssuesNothing | zephcore/app/CompanionSerial.h:61-69 | a retry neither loses, repeats nor overtakes anything |
| CompanionReplies.RetrySends | zephcore/app/CompanionSerial.h:61-69 | with room it sends what is held, so that everything issued has been sent |
| CompanionReplies.MessageSync.HandleCmdSyncNextMessage | zephcore/app/CompanionMesh.cpp:2376-2411 | confirm what was peeked, then write the head or the end marker; pending exactly when the write was accepted |
| CompanionReplies.ContactDump.HandleCmdGetContacts | zephcore/app/CompanionMesh.cpp:2080-2111 | the START frame and the snapshot of the dump, or an error while one runs |
| CompanionReplies.ContactDump.ContinueContactIteration | zephcore/app/CompanionMesh.cpp:553-606 | one turn: a contact, the v-contact or END, repeated after a refusal |
| CompanionReplies.DumpIsComplete | zephcore/app/CompanionMesh.cpp:553-606 | under any pattern of refusals and other replies the dump frames issued are a prefix of START, matching contacts in order, v-contact, END with the largest lastmod, and all of them once it ends |
| CompanionReplies.DumpFinishes | zephcore/app/CompanionMesh.cpp:553-606 | after as many turns, each right after a retry with room, as there are entries plus two the dump has ended |
| CompanionReplies.DumpIsSent | zephcore/app/CompanionMesh.cpp:553-606 | and after one more such retry all its frames have been taken by a transport |
| CompanionReplies.DumpKeepsPromise | zephcore/app/CompanionMesh.cpp:2092-2105 | no more contacts follow than START announced |
| CompanionReplies.PromiseIsMet | zephcore/app/CompanionMesh.cpp:2092-2105 | and just as many, when everything is asked for and nothing has a lastmod of 0 |
| CompanionReplies.SecondDumpIsRefused | zephcore/app/CompanionMesh.cpp:2080-2087 | a request during a dump leaves it alone and is answered with an error, unless a reply is held |
| CompanionReplies.MoreUntilOver | zephcore/app/CompanionMesh.cpp:553-606 | a turn asks for another exactly while the dump is not over |
| CompanionReplies.MatchingIsExact | zephcore/app/CompanionMesh.cpp:561-574 | exactly the contacts changed since, none transient, are streamed, and END's lastmod is the latest of them |
| CompanionReplies.OtherRepliesSurvive | zephcore/app/CompanionSerial.h:35-69 | every other command's reply whose write succeeded is issued once, in order, among them |
| CompanionReplies.RepliesExactlyWhen | zephcore/app/CompanionSerial.h:35-53 | while connected a reply's write succeeds if and only if none is held, so a second reply before the first is out is refused |
| CompanionReplies.IssuesAsWritten | zephcore/app/CompanionSerial.h:35-69 | over any run on a connected link, the frames issued are those there were and then exactly the frames whose writes reported success, the dump's and all others, in write order |
| KissFraming.EncodeFrame | zephcore/app/KissModem.cpp:75-100 | fails exactly when the encoding does not fit, else writes it |
| KissFraming.AppendEscapedByte | zephcore/app/KissModem.cpp:59-73 | appends the escaped byte after what was there, or fails for lack of room |
| KissFraming.EveryFrameFits | zephcore/app/KissModem.h:14-23 | encoding never fails for up to 513 data bytes |
| KissFraming.Receiver.OnByte | zephcore/app/KissModem.cpp:213-248 | the receiver's buffer and flags after a byte, and the frame it completes |
| KissFraming.ReceivesEveryFrame | zephcore/app/KissModem.cpp:213-248 | from any receiver state the encodings of any frames hand over exactly those that fit, in order, after at most one leftover |
| KissFraming.EscapedExactlyWhen | zephcore/app/KissModem.cpp:225-238 | 0xDB 0xDC and 0xDB 0xDD stand for 0xC0 and 0xDB; another byte after 0xDB is dropped with it, and the frame goes on |
| KissFraming.ReceivesAfterNoise | zephcore/app/KissModem.cpp:213-248 | the same after any noise |
| KissFraming.OversizeFrameIsDropped | zephcore/app/KissModem.cpp:240-247 | a frame over the limit is dropped whole from any state and leaves the receiver in step |
| KissFraming.PartialStreamDecodesPrefix | zephcore/app/KissModem.cpp:213-248 | whoever has seen part of the stream has decoded a prefix of the frames that fit |
| KissQueue.OutputQueue.TryFlushFrames | zephcore/app/KissModem.cpp:102-139 | keeps head, tail, count and the bytes on the wire consistent for every pattern of partial writes; true exactly when the queue is empty, false only when the port has no room left |
| KissQueue.SendKeepsOk | zephcore/app/KissModem.cpp:118-130 | after a partial write the wire is the finished frames and the written part of the head |
| KissQueue.StoreKeepsOk | zephcore/app/KissModem.cpp:148-157 | storing a frame keeps that |
| KissQueue.PopKeepsOk | zephcore/app/KissModem.cpp:54-57 | so does finishing one |
| KissQueue.WireIsPrefix | zephcore/app/KissModem.cpp:102-160 | the bytes accepted by the port are a prefix of all queued encodings in order |
| KissModem.KissModem.QueueFrame | zephcore/app/KissModem.cpp:141-160 | the frame is queued or not at all; it is refused only when too long or when both slots stay taken for lack of room, and that marks a busy error when asked to |
| KissModem.KissModem.ProcessFrame | zephcore/app/KissModem.cpp:255-310 | a data frame is taken exactly when it fits and none is pending, else answered busy; a pending packet's bytes never change; each settings command sets its one value; at most one frame is queued, and no TX_DONE |
| KissModem.KissModem.ProcessTx | zephcore/app/KissModem.cpp:398-474 | one step of the transmit machine; a finished packet is let go with its report queued, and waits only while both slots are taken and the port is full |
| KissModem.KissModem.StepTx | zephcore/app/KissModem.cpp:398-465 | timers, state and what was sent follow the machine's step |
| KissModem.KissModem.OnPacketReceived | zephcore/app/KissModem.cpp:476-481 | a heard packet goes to the host, with its signal report if that is on, or a busy error is marked |
| KissModem.KissModem.Loop | zephcore/app/KissModem.cpp:210-253 | a loop consumes all input and accepts the packets the received frames carry; what was accepted, aired, queued or written is only added to; a packet pending before keeps its bytes until its result is queued; nothing stays queued that the port had room for |
| KissModem.PassKeepsBooks | zephcore/app/KissModem.cpp:398-465 | every transmit step keeps the ledger |
| KissModem.ReportKeepsBooks | zephcore/app/KissModem.cpp:467-472 | so does reporting a result |
| KissModem.PacketsAreConserved | zephcore/app/KissModem.cpp:185-200 | in every run of host frames, passes, reports and other frames: packets accepted equal results queued plus one if one is pending; each is aired at most once, unchanged, and a success result means it was |
| KissModem.TakenExactlyWhen | zephcore/app/KissModem.cpp:255-279 | in every run a host frame brings a packet if and only if it is a data frame of 1 to 255 bytes and none is pending |
| KissModem.PendingStaysTheSame | zephcore/app/KissModem.cpp:270-279 | in every run a packet once pending stays so, with the same bytes, until its result is queued |
| KissModem.HistoriesGrow | zephcore/app/KissModem.cpp:398-474 | in every run nothing accepted, aired or queued is taken back |
| KissModem.HostDecodesPrefix | zephcore/app/KissModem.cpp:75-160 | a host with a receive buffer like the modem's, decoding the wire, sees a prefix of the frames queued that fit it |
| KissModem.TxWaitIsExact | zephcore/app/KissModem.cpp:769-794 | before the reported wait is over a step changes nothing, except in the slot-wise channel check; a result that waits for the host has no timed wait |
| KissModem.TxWaitEndsInAStep | zephcore/app/KissModem.cpp:769-794 | and when it is over the machine leaves the state it waited in |
| KissModem.NoWaitExactlyWhen | zephcore/app/KissModem.cpp:769-794 | no time is set exactly with nothing to send, with a result to report, or on air past the bound |
| KissModem.PolledOnceASlot | zephcore/app/KissModem.cpp:769-794 | a busy channel is looked at once a slot, counted from the timer |
| KissModem.ResultsAreTrue | zephcore/app/KissModem.cpp:457-472 | in every run the n-th result queued is 1 if and only if the radio reported complete in some pass while the n-th packet was being sent, else 0 |
| KissModem.TimersSayWhen | zephcore/app/KissModem.cpp:398-465 | in every run the timer is the time of the pass that entered the state, csmaStart that of the pass that took the packet up |
| KissModem.NothingGoesOutBlind | zephcore/app/KissModem.cpp:400-430 | in every run a packet is before its transmission only by a pass in full duplex, on a clear channel with the draw won, or past one and a half airtimes of waiting |
| KissModem.DelayIsCleared | zephcore/app/KissModem.cpp:400-430 | and with a packet pending such a pass always leads there |
| KissModem.WaitsASlotExactlyWhen | zephcore/app/KissModem.cpp:410-450 | a slot is waited for exactly after a lost draw on a clear channel or a start refused within the bound |
| KissModem.StartsExactlyWhen | zephcore/app/KissModem.cpp:436-455 | a pass puts the packet on air, with its bytes, exactly when its delay is over and the radio starts it |
| KissModem.IsOverExactlyWhen | zephcore/app/KissModem.cpp:436-465 | a packet is over exactly on completion, past its airtime bound with the radio idle, or when it could not be started in time |
| KissModem.SettingsExactlyWhen | zephcore/app/KissModem.cpp:282-305 | each of the five settings changes with its own command and no other |
| Advert.ValidUtf8PrefixLength | zephcore/helpers/UTF8Helpers.h:27-74 | the longest prefix within the limit that is well-formed UTF-8 |
| Advert.EncodeTo | zephcore/helpers/AdvertDataHelpers.cpp:10-42 | the bytes written: flags for what is there, the fields, the longest whole-code-point prefix of the name that fits |
| Advert.SentNameIsUnique | zephcore/helpers/AdvertDataHelpers.cpp:28-40 | that prefix is the only one |
| Advert.AdvertDataParser.constructor | zephcore/helpers/AdvertDataHelpers.cpp:44-85 | parses any bytes, short ones included |
| Advert.ParseOfEncoded | zephcore/helpers/AdvertDataHelpers.cpp:10-85 | parsing an encoded advert gives back type, position, feature words and the sent name |
| Advert.ValidExactlyWhen | zephcore/helpers/AdvertDataHelpers.cpp:44-85 | any payload is valid if and only if it has all that its flags announce; its fields encode back to its bytes, what is not announced is 0, the rest is the name up to a NUL |
| Advert.TypeExactlyWhen | zephcore/helpers/AdvertDataHelpers.cpp:12-26 | the type survives if and only if it is below 16 |

## Left out

- Cryptography (SHA-256, Ed25519, HMAC, key exchange): hashes and signatures are parameters.
- Mesh, dispatcher, packet pool and radio adapters: what was sent is an entry in a log, what the radio answers a parameter.
- TimeSyncLoop.EveryStepHelps: the clock keeps the true rate between steps; drift is not modelled.
- Files, Wi-Fi, MQTT, BLE, GPS, logging, LEDs, displays, status formatting and the command line around the modelled operations.
- Floating-point config values.
- Config schemas are value trees, and a short write to the stream never fails, so the failure flag of saving is not modelled.
- Deadlines on 32-bit targets are truncated to 32 bits but compared in 64: statements about them are for uptimes below 2^32 ms there.
- RoomRuns: clients removed or evicted from the access list, after which the round-robin index is stale, are not modelled; statements are short of the last seconds of the 32-bit clock.
- RoomPosts.RoomServer.Login: does not check passwords, permissions or replayed timestamps; it is the part of a login that touches post delivery, in a list with room; a new client's login into a full list, which evicts the least active one, is not modelled.
- RegionMap.RegionMap.PutRegion: a caller that brings an id must leave a free slot, since the table is not checked then; what a write past the table does is not modelled, only when it happens.
- RegionText.RegionLoader.HandleRegionLoadLine: the same for a known region's row in a full table; the command that aborts a load is run by its caller.
- RegionText.ReloadsTheSameTree: is stated for a home at an open root, because '^' counts as a name character on loading and the root's flags are not carried.
- RegionMap.RegionMap.FindByName: findByNamePrefix, findMatch and exportNamesTo are not modelled.
- RegionKeys.RunsKeepTreeAndKeys: loading the map from a file, which renumbers regions, happens at start-up with an empty cache and is not an event of the runs.
- Export into a bounded buffer, which drops lines that do not fit.
- CompanionReplies.CompanionSerial.WriteFrame: frames are values without a length, so the refusal of empty and oversized ones is not modelled.
- CompanionReplies.DumpIsComplete: is for a contact table unchanged during the dump and a link that stays up; the app's session start, which ends a dump (zephcore/app/CompanionMesh.cpp:1808), is not an event.
- CompanionReplies.MessageSync.HandleCmdSyncNextMessage: does not model the watchdog timestamp, the prompt suppression or the user interface; frames are values, not serialised bytes.
- KissModem: the individual hardware commands are one member that may queue any reply except TX_DONE; the reset in begin is not an event. Frame slots are byte sequences instead of fixed buffers.
- Small tables and limiters (rate limiter, routing policy, battery curve, access list, preferences codec) would only add easy members.
