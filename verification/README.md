# Dish for Windows: a verified model

Dish forwards game controllers to satellites over the network. This project models the parts of it
whose correctness spans threads, calls or whole runs, and proves what they promise.

* **Slot routing** (`Routes`, `DeviceClaims`, `Publication`, `PublicationSafety`, `PublicationTheorems`,
  `PublicationProgress`, `Deliveries`, `RowOwners`, `Counters`). The GUI thread builds an immutable route table, stores it in two
  atomics guarded by two grace epochs, and frees the table it replaced once no bracket can hold it.
  Device, session and mic-capture threads read it without a lock. The protocol is a step system: every
  atomic load, store, exchange and compare-and-swap is one step, each poll of the two waits is one step,
  and the steps of all threads interleave in any order. An inductive invariant is kept by every step, and
  the theorems are read off it for every reachable state and every run. `Deliveries` is the other half: what leaves,
  exactly when, and that readers, publications, senders and the destructor get through. The build itself is a method
  proved to refine the plain lookup it speeds up. The lock-free table that gives a device its row is a second
  step system. `RowOwners` puts the build and the device table beside the protocol: pads come and go between any
  two steps of a build, and whose route a report leaves by is read off every run.
* **Touchpad sending** (`TouchGate`). The send-on-change gate is a class tied to a specification
  function; agreement, rate, silence and healing are proved over every run of reports.
* **The application model** (`PackedKeys`, `UsbControllers`, `TwinDedup`, `SlotAssembly`, `BindingPresence`,
  `Passes`, `AppModel`, `PassTheorems`, `BindingHistories`, `Screens`, `FrameworkPresence`, `TestBuzz`). The slots a rebuild
  shows and the twins it hides, the re-entrant rebuild with its presence pass, the differ that turns device lists into
  up and down signals, and the ticketed test buzz. The rebuild runs in a world that may answer differently at every
  look; that it terminates, and what it does to the bindings, hold however the world moves.
* **Refinements and arithmetic** (`ControllerShadow`, `CatalogueSeeds`, `CatalogueBlocks`,
  `CatalogueTheorems`, `CatalogueFills`, `MotionConvert`, `MeasurementVersions`). A state kept from events against a full
  read, a text rewriting pass over every string, wire conversions over the reals, and a sort key against
  the order it stands for.

`Basics` holds the option type, the ids, decimal digits, and the string order that
`std::map<std::string, …>` and Python's `sorted` share.

## What the code does not do

Five promises hold only under a condition that the code does not check. Each has its exact condition here.

1. A synthetic slot id parses back to its pad only for vendor ids below 0x8000: the packed key of the
   others is negative, so that releasing such a pad from its claim drops its binding
   (`PackedKeys.SyntheticIdRoundTrip`, `BindingPresence.ReleasedClaimLooksForItsPad`).
2. Two edges within a millisecond share an event time, and a heal of a frame the gate took at a time whose
   stamp is 0 does not keep its stamp on the wire (`TouchGates.SameStamp`,
   `TouchGates.HealKeepsItsStampOnTheWire`, `TouchGates.FirstMillisecondIsRestamped`).
3. A version number of nine digits or more is misfiled among shorter ones
   (`MeasurementVersions.SortsRightIffShort`).
4. A source text that holds, or ends in, the markup of an unfinished translation is seeded again by the
   next pass (`CatalogueTheorems.SeedIsIdempotentIff`, `CatalogueTheorems.SomeTextsNeedASecondPass`).
5. A grace poll misses a reader that moved a positive multiple of 2^64 times between two looks, which
   delays the wait and never frees early, and the timer of a test buzz stops a later one after that many
   (`PublicationProgress.PollSeesEveryMove`, `TestBuzzes.StaleTimerStopsOnlyAtTheWrap`).

Session participants are never given back: the 65th distinct connection id of a router's life is refused
its feedback handlers (`Publication.SessionParticipants.InstallFeedbackHandlers`).

The device table promises that threads introducing one id at once end on one row. They do when no device is removed
meanwhile and every other id is introduced by one call (`DeviceClaims.CarefulIntroducersAgree`), and more widely when no
row of another id is freed meanwhile (`DeviceClaims.IntroducersAgree`). Nobody has to remove anything for it to fail:
with three free rows, two calls introducing another id and two introducing this one, the row the other id's second call
gives back is taken by this id's second call, and this id ends on two rows, one for each call
(`DeviceClaims.GivingBackCanLeaveTwoRows`). A removal at that moment does the same
(`DeviceClaims.RemovalCanLeaveTwoRows`), and a look-up may be answered a row that is then given back
(`DeviceClaims.LookUpsCanGoStale`). The header asks that one thread introduces a given id; then none of this happens, as
long as no device is removed while it is being introduced (`DeviceClaims.OneIntroducerIsEnough`).

A claim is to take its pad's binding along to the claimed slot. It does exactly when that slot is not bound yet and no
other pad of the model streams unbound (`Screens.ClaimTakesItsBindingAlong`). With two pads of one model, the first one
bound, the claim hides the first pad and hands its binding to the second, which is listed before the claimed slot
(`Screens.ClaimCanHandItsBindingToAnotherPad`).

A device's reports do not always leave by its own slot's route. The bridge frees a pad's row before it publishes the
list without the pad, the next pad takes that row, and a report sends by its row's route without comparing ids: until
the next publication the newcomer drives the departed pad's satellite (`RowOwners.NewcomerInheritsTheRoute`,
`RowOwners.ReportsCanLeaveByAnothersRoute`). A report leaves by its own slot's route exactly when the row was filled for
the device that has it (`RowOwners.OwnRouteIffOwnRow`), which stays so for as long as that device does
(`RowOwners.ResidentsUseTheirOwnRoute`). A build over the list that still shows the departed pad gives it a row again
(`RowOwners.DepartedIsAddedBack`).

## Model

| member | source | states |
|---|---|---|
| Routes.DeviceRegistry.constructor | src/Input/GamepadInputProcessor.h:304-304 | every row starts free |
| Routes.DeviceRegistry.Find | src/Input/GamepadInputProcessor.cpp:70-80 | an index is answered exactly for an id that has a row, and it is that row, the first one |
| Routes.DeviceRegistry.Add | src/Input/GamepadInputProcessor.cpp:89-106 | one call at a time: a device keeps the row it has for ever, a new one gets the lowest free row, no two share one, and none is given exactly when the id is over 63 bytes or it is new and all 64 rows are taken |
| DeviceClaims.NextWrites | src/Input/GamepadInputProcessor.cpp:89-122 | a step of a call writes only a free row it claims or the row it holds, and frees a row only when a lower live one has the same id |
| DeviceClaims.IntroducersAgree | src/Input/GamepadInputProcessor.cpp:86-122 | in every interleaving of any number of calls introducing an id, all that get a row answer the same one, live and the lowest of that id, as long as no device is removed and no call for another id gives a row back |
| DeviceClaims.OneRowInTheEnd | src/Input/GamepadInputProcessor.cpp:107-118 | once they have all answered, that row is the only one of the id |
| DeviceClaims.ConsiderateIsQuiet | src/Input/GamepadInputProcessor.cpp:107-118 | with no removal, and every other id introduced by one call, no call for another id ever gives a row back |
| DeviceClaims.CarefulIntroducersAgree | src/Input/GamepadInputProcessor.cpp:86-122 | the agreement in terms of the calls made: no device is removed, and a call for another id starts only while nobody is introducing that one; then all calls introducing an id answer one row, live and its lowest, in every interleaving |
| DeviceClaims.CarefulIntroducersLeaveOneRow | src/Input/GamepadInputProcessor.cpp:107-118 | and once they have all answered the id has that row only |
| DeviceClaims.OneIntroducerIsEnough | src/Input/GamepadInputProcessor.h:207-209 | where one call introduces an id, the id is not removed and no device is removed while it is being introduced, then whatever else is added, given back or removed the id has one row, keeps it, and every look-up is answered it |
| DeviceClaims.LookUpsCanGoStale | src/Input/GamepadInputProcessor.cpp:70-122 | two calls introducing an id and a third looking it up: a run that leaves the third with a row given back |
| DeviceClaims.RemovalCanLeaveTwoRows | src/Input/GamepadInputProcessor.cpp:89-136 | two calls introducing an id and the removal of another device: a run that leaves the id two live rows |
| DeviceClaims.GivingBackCanLeaveTwoRows | src/Input/GamepadInputProcessor.cpp:86-122 | three free rows, two calls introducing one id and two introducing another, no removal: a run that leaves the second id two live rows, its two calls answering one each |
| Routes.Build | src/SlotRouter.cpp:204-231 | for every slot list and binding map, a row holds a route exactly when a listed slot of that row is bound to a connection with a send target, with that target and its motion switch; each such slot has its mic route even without a row; a connection finds a feedback route exactly when a slot is bound to it, and it is that slot's live route |
| Routes.BuildFeedback | src/SlotRouter.cpp:225-229 | one pass over the bindings in any order yields the feedback half of that refinement, slots not on screen included |
| Routes.FeedbackInAppend | src/SlotRouter.cpp:60-66 | the first route of a connection is the one found |
| Routes.MicInAppend | src/SlotRouter.cpp:68-73 | the first route of a slot is the one found |
| Routes.FeedbackGoesToTheBoundSlot | src/SlotRouter.cpp:60-66 | where each connection serves one slot, its feedback lands at exactly that slot |
| Routes.NoTargetNoRoute | src/SlotRouter.cpp:207-224 | a row none of whose listed slots has a send target has no route |
| Routes.TargetOf | src/SlotRouter.cpp:210-215 | a slot has a target exactly when it is bound, under a name that is not empty, to a connection that is known and has that send target |
| Routes.RowIsItsOwners | src/SlotRouter.cpp:207-224 | a row refines the bindings exactly when it holds the route of the listed slot that owns it, or none |
| Routes.MicLeadsToItsTarget | src/SlotRouter.cpp:216-216 | a mic route found for a slot leads to the target the listed slot is bound to |
| Publication.SessionParticipants.constructor | src/SlotRouter.h:230-230 | no session has a participant at first |
| Publication.SessionParticipants.InstallFeedbackHandlers | src/SlotRouter.cpp:397-408 | session participants stay distinct, stable and above every device's; a known connection keeps its own and a new one is refused exactly when 64 are known |
| Publication.InstallsKeepOneEach | src/SlotRouter.cpp:397-408 | over every sequence of installs the participants stay distinct, at most 64 and disjoint from the devices', and whoever has one keeps it |
| PublicationTheorems.SessionsKeepTheirParticipant | src/SlotRouter.cpp:397-408 | in every interleaving a session keeps the participant it was given |
| Publication.CountrOne | src/SlotRouter.cpp:363-363 | the bit chosen is the lowest clear one, and there is none exactly when the word is full |
| PublicationSafety.InitialInv | src/SlotRouter.h:222-230 | a new router satisfies the invariant |
| PublicationSafety.ReadersNeverShare | src/SlotRouter.h:54-59 | two reader threads of one epoch never bracket on the same participant |
| PublicationSafety.StepKeeps | src/SlotRouter.cpp:233-408 | every step of every thread keeps the invariant: brackets are odd epochs, a loaded table is neither retired nor freed, the wait's progress accounts for every reader, taken bits match their owners |
| PublicationSafety.RunKeeps | src/SlotRouter.cpp:233-408 | every run keeps the invariant |
| PublicationTheorems.ReachableInv | src/SlotRouter.cpp:233-408 | every reachable state satisfies the invariant |
| PublicationTheorems.NoReaderHoldsAFreedTable | src/SlotRouter.cpp:233-246 | in every interleaving no reader inside a bracket holds a table that was freed or is about to be |
| PublicationTheorems.EveryTableIsFreedOnce | src/SlotRouter.cpp:51-56 | a freed table is never current again, and when the router is gone exactly the tables it published have been freed |
| PublicationTheorems.PointersAgree | src/SlotRouter.cpp:233-384 | with the publishers' lock free, or held by a heartbeat, the owner and both atomics are the newest table and it is not retired; while a publication holds it the atomics are at most one publication apart |
| PublicationTheorems.WriterAdvances | src/SlotRouter.cpp:236-243 | no step of the publisher takes a pointer back in publication order |
| PublicationTheorems.RunAdvances | src/SlotRouter.cpp:233-246 | along every run both pointers only advance and the log only grows |
| PublicationTheorems.LoadsNeverGoBack | src/SlotRouter.cpp:248-325 | a reader's later load sees the same or a later publication; a null follows a table only while the router is being destroyed, and no table follows a null loaded then |
| PublicationTheorems.RunSends | src/SlotRouter.cpp:248-393 | everything sent was sent by a route the table it used holds, and that table was no older than the oldest one still loadable at the start |
| PublicationTheorems.CutOff | src/SlotRouter.cpp:204-280 | after a republish has returned, nothing leaves by an older table; and nothing leaves for a device as long as no publication gives its row a route |
| PublicationTheorems.MotionCutOff | src/SlotRouter.cpp:265-280 | after the motion switch was published off, no motion packet of that device leaves until it is published on |
| PublicationTheorems.NothingInFlight | src/SlotRouter.cpp:233-246 | with no publication running, every reader inside a bracket holds the current table or none |
| PublicationTheorems.UnboundSlotFallsSilent | src/SlotRouter.cpp:204-280 | cut-off in terms of the bindings: while every table published since was built with no target for the row's slots, nothing leaves for that row |
| PublicationTheorems.UnboundMicFallsSilent | src/SlotRouter.cpp:343-350 | likewise no mic frame of a slot that is not listed or has no target |
| PublicationTheorems.SendersKeptPastTheRouterSendNothing | src/SlotRouter.cpp:51-56 | once the destructor has finished, no run sends anything, no table is touched, and a mic sender's bracket only ever holds null |
| PublicationTheorems.GoneRunsSendNothing | src/SlotRouter.cpp:343-350 | the same over runs from any state that satisfies the invariant |
| PublicationTheorems.FullWordMeansSixtyFourSenders | src/SlotRouter.cpp:358-371 | at most 64 participants are owned, and the word is full exactly when 64 are |
| PublicationTheorems.SendersOwnTheirParticipants | src/SlotRouter.cpp:329-371 | a bit is set exactly when a won compare-and-swap or a live lease owns it, and then exactly one does |
| PublicationTheorems.ObservedWordWasReal | src/SlotRouter.cpp:359-366 | the word a call decides on is the shared word at that call's own last read of it, after which the call did nothing |
| PublicationTheorems.RefusedOnlyWhenAllAreTaken | src/SlotRouter.cpp:358-371 | an empty sender is returned only if all 64 participants were owned at the call's own last read of the word |
| PublicationProgress.StepCounts | src/core/thread/GraceEpoch.h:25-34 | a step changes a participant's epoch exactly when it opens or closes that participant's bracket, by one, modulo 2^64 |
| PublicationProgress.EpochCounts | src/core/thread/GraceEpoch.h:25-34 | along every run an epoch is its first value plus the openings and closings, modulo 2^64 |
| PublicationProgress.PollSeesEveryMove | src/core/thread/GraceEpoch.h:38-47 | a poll passes exactly when the participant moved a number of times that is not a multiple of 2^64 since its epoch was read, whatever bracket it is in now |
| PublicationProgress.ReadersCannotStarveTheWait | src/core/thread/GraceEpoch.h:36-47 | however the readers keep entering and leaving, the wait has passed a participant by the first poll that follows a move of it |
| PublicationProgress.OnlyAnIdlePollStands | src/core/thread/GraceEpoch.h:38-47 | every step of a publication brings it nearer its end but a poll that finds the epoch as it was read, whatever the readers do |
| PublicationProgress.ReadersCanLeave | src/core/thread/GraceEpoch.h:25-34 | from every state that satisfies the invariant all readers can leave without the publisher moving |
| PublicationProgress.NextStepAdvances | src/SlotRouter.cpp:233-246 | with no reader inside, the publisher's next step is enabled and brings it closer to its end |
| PublicationProgress.EmptyRouterFinishes | src/SlotRouter.cpp:233-246 | with no reader inside, the publisher alone ends what is under way, and no table is begun |
| PublicationProgress.NoReachableStateIsStuck | src/SlotRouter.cpp:233-246 | from every reachable state some run ends the publication, heartbeat or destruction under way |
| Deliveries.LeavesIffCarried | src/SlotRouter.cpp:248-393 | a reader that has loaded a table sends a report, battery or touch packet exactly when its row has a route, motion exactly when the route's switch is on too, feedback exactly when the connection has a feedback route, a mic frame exactly when the slot has a mic route; the packet is logged under that table and nothing else changes |
| Deliveries.BoundSlotSends | src/SlotRouter.cpp:204-316 | in terms of the bindings: the device of a listed slot sends all but motion exactly when the slot is bound to a connection with a target, whatever its motion switch says, and motion exactly when that is on too |
| Deliveries.BoundMicSends | src/SlotRouter.cpp:343-350 | a mic sender's frame leaves exactly when its slot is listed and bound to a connection with a target |
| Deliveries.ReaderGetsThrough | src/core/thread/GraceEpoch.h:25-34 | a reader outside a bracket can open one and load, and what it loads is what its atomic points at; device and session threads until the destructor starts, mic senders always |
| Deliveries.HoldsOneTable | src/SlotRouter.cpp:248-350 | within a bracket a reader keeps to the one table it loaded, whatever is published meanwhile |
| Deliveries.PublishedRoutesAreUsed | src/SlotRouter.cpp:248-350 | with the router idle every registered reader can send what the published table carries for it |
| Deliveries.HeartbeatLeavesIffRouted | src/SlotRouter.cpp:374-384 | with the router idle the lock can be taken, and a battery heartbeat leaves for exactly the rows the published table routes |
| Deliveries.AnyTableGoesOut | src/SlotRouter.cpp:233-246 | from every reachable idle state any table can be published: both atomics and the owner end on it and the router is idle again |
| Deliveries.HandlersGoIn | src/SlotRouter.cpp:397-408 | handlers can be installed until the router is destroyed, and give the connection a participant unless 64 others have one |
| Deliveries.RouterCanBeDestroyed | src/SlotRouter.cpp:51-56 | from every reachable idle state some run ends with the router gone |
| Deliveries.ClearBitIsGiven | src/SlotRouter.cpp:358-371 | a call that finds a clear bit, with nobody between, gets a sender for its slot on the lowest one |
| Deliveries.RefusedIffNoneIsClear | src/SlotRouter.cpp:362-362 | a call is refused exactly when the word it read has no clear bit |
| Deliveries.LoserLooksAgain | src/SlotRouter.cpp:364-366 | a call whose word has moved neither wins nor is refused, and goes on with the word as it is now |
| Deliveries.SenderGivesItsParticipantBack | src/SlotRouter.cpp:333-335 | the last copy of a sender clears its own bit and no other |
| RowOwners.RunsThePublication | src/SlotRouter.cpp:204-246 | every run of builds, adds, removals, reports and publications is a run of the publication protocol |
| RowOwners.StepKeeps | src/SlotRouter.cpp:204-246 | however pads come and go during a build, every row of every table holds the route of the slot it was last filled for, or none; kept by every step |
| RowOwners.OwnRouteIffOwnRow | src/SlotRouter.cpp:248-263 | in every reachable state a report leaves by the route of the listed slot its row was filled for; where no two slots have one target that is the route of the reporting device exactly when it is that slot |
| RowOwners.ResidentsUseTheirOwnRoute | src/SlotRouter.cpp:204-280 | from an idle router whose tables gave a row to the device that has it, for as long as the device stays every packet of the row leaves by that device's own route, whoever else comes and goes and however many tables are built |
| RowOwners.NewcomerInheritsTheRoute | src/Input/SDLGamepadBridge.cpp:188-206 | whenever a routed pad leaves an idle router, the next pad to take its row can report by the departed pad's route |
| RowOwners.ReportsCanLeaveByAnothersRoute | src/Input/SDLGamepadBridge.cpp:188-206 | for every bound slot and every other id a reachable state in which that id's report leaves by the slot's route, the publication being over |
| RowOwners.DepartedIsAddedBack | src/SlotRouter.cpp:207-209 | a build over a list that still shows a departed pad gives it a row, which it keeps until it is removed again |
| TouchGates.TouchGate.constructor | src/Input/TouchGate.h:67-70 | a new gate remembers no touch, no send and no heal |
| TouchGates.TouchGate.Decide | src/Input/TouchGate.h:39-43 | verdict and new state are the specification's for every sample and time |
| TouchGates.TouchGate.Change | src/Input/TouchGate.h:48-57 | on a changed sample likewise |
| TouchGates.TouchGate.HealNow | src/Input/TouchGate.h:59-65 | on an unchanged sample likewise |
| TouchGates.DecisionAgrees | src/Input/TouchGate.h:39-57 | after a decision the remembered frame has the sample's fingers, tracking ids and click, and differs at all only inside the interval |
| TouchGates.GateRemembersTheLastFrame | src/Input/TouchGate.h:52-53 | along every run the gate's memory is the frame that was last sent and its time |
| TouchGates.AgreesAfterEveryReport | src/Input/TouchGate.h:39-57 | on every run, after each report the last frame sent has the same fingers down, the same tracking ids and the same click; a positional difference remains only under 8 ms after a send |
| TouchGates.VerdictFollowsFromTheFrames | src/Input/TouchGate.h:25-65 | every verdict of every run from the frames before it: fresh exactly when a finger, a tracking id or the click changed, at any time, or anything changed and the last frame is 8 ms old; a heal exactly when nothing changed, the last frame is 8 ms old and it was repeated less than twice |
| TouchGates.OwesTheRest | src/Input/TouchGate.h:48-70 | a gate owes nothing before its first fresh frame and then two heals less those sent since the last one |
| TouchGates.SendsAreSpaced | src/Input/TouchGate.h:48-65 | moves plus heals times 8 ms never exceed the advance of the last-sent time |
| TouchGates.RateBound | src/Input/TouchGate.h:48-65 | moves plus heals of a run are at most one more than the intervals that elapsed |
| TouchGates.StillnessIsQuiet | src/Input/TouchGate.h:39-65 | from any state of the gate, while the touch stays the same at most one fresh frame goes out, then the heals it armed, and without one exactly the heals still owed |
| TouchGates.HealsOwedAreBounded | src/Input/TouchGate.h:48-65 | a gate never owes more than two heals |
| TouchGates.StillTailIsQuiet | src/Input/TouchGate.h:35-65 | after any reports, a touch that stays the same sends at most one fresh frame, nothing before it, and at most two heals, however long it stays |
| TouchGates.HealsDrain | src/Input/TouchGate.h:59-65 | with reports an interval apart, exactly the heals left are sent, one a report |
| TouchGates.StillnessIsHealed | src/Input/TouchGate.h:39-65 | four such reports of one touch send it fresh if it was new, and then every heal |
| TouchGates.StillTailIsHealed | src/Input/TouchGate.h:13-15 | after any reports with a clock that does not go back, four reports of one touch an interval apart send it fresh if it was new, and every heal |
| TouchGates.HealRepeatsTheLastFresh | src/Input/TouchGate.h:59-65 | every heal repeats the content and the event time of the fresh frame last sent |
| TouchGates.NoHealBeforeTheFirstFresh | src/Input/TouchGate.h:59-70 | no heal precedes the first fresh frame of a new gate |
| TouchGates.SameStamp | src/Input/TouchGate.h:54-54 | two times share an event time exactly when their milliseconds differ by a multiple of 2^32 |
| TouchGates.StampsDiffer | src/Input/TouchGate.h:54-54 | times at least a millisecond and under 49 days apart have different event times |
| TouchGates.FreshCarriesItsMillisecond | src/Input/TouchGate.h:54-56 | for the first 49 days a fresh frame's event time is its own millisecond |
| TouchGates.EdgesInOneMillisecondShareAStamp | src/Input/TouchGate.h:48-57 | a press and its lift in one millisecond are both fresh and share an event time |
| TouchGates.HealKeepsItsStampOnTheWire | src/SlotRouter.cpp:301-309 | on every run a heal and the frame it repeats carry one stamp on the wire at any two times of sending, exactly when the gate took the frame at a time whose stamp is not 0 |
| TouchGates.FirstMillisecondIsRestamped | src/SlotRouter.cpp:301-309 | a press at 0 ms has stamp 0, and its heal at 8 ms leaves with another stamp on the wire |
| PackedKeys.UnpackPack | src/AppModel.cpp:643-652 | the ids unpacked from a key are those packed, and the key is negative exactly for vendor ids from 0x8000 |
| PackedKeys.PackIsInjective | src/core/reducer/SlotPathFields.h:37-39 | two pads have one key exactly when they have the same ids |
| PackedKeys.SyntheticIdRoundTrip | src/core/reducer/SlotPathFields.h:75-90 | the decimal id of a key parses back to the ids for vendor ids below 0x8000 and does not parse for the others |
| PackedKeys.DecimalReadsBack | src/core/reducer/SlotPathFields.h:85-85 | reading a decimal gives the number that was printed |
| BindingPresence.ResolveBindingPresence | src/core/reducer/BindingPresence.h:87-128 | the actions are the ordered walk of the binding rows, for every presence list and every rows |
| BindingPresence.FreeTwinIsTheFirstFit | src/core/reducer/BindingPresence.h:111-124 | a migration's target is the first present slot of the same ids that carries no binding, and there is none only when no slot is like that |
| BindingPresence.FreeTwinAppend | src/core/reducer/BindingPresence.h:111-124 | slots listed earlier are taken before those listed later |
| BindingPresence.WalkResolves | src/core/reducer/BindingPresence.h:84-128 | one action for each departed slot and none for another, in the order of the departing ids |
| BindingPresence.BoundKeepsOneSlotEach | src/Network/ConnectionHub.cpp:136-150 | binding keeps a connection on at most one slot |
| BindingPresence.FoldClosed | src/AppModel.cpp:1255-1269 | after applying actions with distinct sources and unbound targets a slot is bound exactly when it was last migrated to, or was bound and did not leave, to that connection |
| BindingPresence.FoldShrinks | src/AppModel.cpp:1255-1269 | applying such actions leaves at least one binding fewer for each unbind |
| BindingPresence.StandsUntilItsTurn | src/AppModel.cpp:1255-1269 | the binding an action drops still stands when its turn comes |
| BindingPresence.ActionsResolve | src/AppModel.cpp:1236-1246 | the actions of a pass have distinct bound sources and unbound targets, and leave exactly the bound slots not on screen |
| BindingPresence.ActionsNameTheirConnection | src/core/reducer/BindingPresence.h:103-126 | each action is about its slot's own connection: a move to the pad's free twin if it shows one, else an unbind |
| BindingPresence.SettledClosed | src/AppModel.cpp:1234-1279 | after a pass exactly the shown slots that were bound or migrated to are bound, to the connection they had or that moved |
| BindingPresence.SettledIsSettled | src/core/reducer/BindingPresence.h:84-86 | a second pass over what a pass leaves has nothing to do while the screen is the same, whatever the device lists are by then |
| BindingPresence.HiddenTwinLooksForItsPad | src/AppModel.cpp:916-926 | the binding of a pad's twin hidden by a claim looks for the pad by the ids SDL lists for it, and has nothing to look for when they are both 0 |
| BindingPresence.ReleasedClaimLooksForItsPad | src/AppModel.cpp:916-933 | the binding of a released claim looks for its pad by the ids its slot id packs, exactly for vendor ids below 0x8000; the others are dropped although the pad is there |
| BindingPresence.MovesKeepTheirConnectionUnlessTheyCollide | src/core/reducer/BindingPresence.h:111-124 | in any scene, every pad that moved keeps its connection exactly when the pads of no two departed bindings have one first free slot |
| TwinDedup.ModelKeyIsInjective | src/core/reducer/UsbTwinDedup.h:53-56 | one key a pair of 32-bit ids |
| TwinDedup.StablySortedIsStable | src/core/reducer/UsbTwinDedup.h:80-85 | ordered by rank, the same devices, equal ranks in input order |
| TwinDedup.SuppressedRoutedIds | src/core/reducer/UsbTwinDedup.h:58-92 | the counting, grouping, sorting and taking hide exactly the first of each claimed model in hiding order, as many as are claimed |
| TwinDedup.HiddenIsClaimed | src/core/reducer/UsbTwinDedup.h:60-74 | only a listed device of an identified, claimed model is hidden |
| TwinDedup.HidesAsManyAsAreClaimed | src/core/reducer/UsbTwinDedup.h:11-14 | of a model as many pads are hidden as are claimed, or all there are: one claim of two hides exactly one |
| TwinDedup.UsbAndDisconnectingHideFirst | src/core/reducer/UsbTwinDedup.h:16-22 | no Bluetooth pad is hidden while a USB one of its model streams, and no live one while a disconnecting one of its transport does |
| SlotAssembly.HideSdlTwinsOfClaimedPads | src/AppModel.cpp:672-691 | the hidden ids are those the claimed controllers and the listed devices call for |
| SlotAssembly.AppendSdlSlots | src/AppModel.cpp:693-725 | the listed devices that are not hidden, in order |
| SlotAssembly.AppendDirectSlots | src/AppModel.cpp:727-767 | one slot for each claimed pad, named by its key |
| SlotAssembly.AppendAwaitingClaimSlots | src/AppModel.cpp:769-793 | one slot for each tracked pad that has no other card |
| SlotAssembly.ShowPads | src/AppModel.cpp:862-875 | the pads a rebuild shows are these three in this order |
| SlotAssembly.OneIdOnePad | src/AppModel.cpp:698-792 | one slot id on screen stands for one pad |
| SlotAssembly.OneClaimAModel | src/source/usb/UsbGamepadManager.h:200-207 | a model is claimed once at most |
| SlotAssembly.OneHiddenTwin | src/core/reducer/UsbTwinDedup.h:11-14 | of the devices of one identity at most one is hidden |
| SlotAssembly.HiddenTwinIsClaimed | src/AppModel.cpp:673-767 | where a twin is hidden the pad's claimed slot is on screen, under the decimal of its packed ids and with its own ids, neither of them 0 |
| Screens.ScreenShows | src/AppModel.cpp:693-793 | on screen are exactly the listed pads that are not hidden, under their own ids, and the pads that are claimed or expect no twin, under the decimal of their packed ids; each with its own vendor and product |
| Screens.ClaimHidesATwin | src/AppModel.cpp:672-691 | a claimed pad with both ids nonzero hides one listed pad of its ids, if there is one |
| Screens.UsbTwinsHideFirst | src/AppModel.cpp:681-685 | a Bluetooth pad is hidden only if every pad of its model that streams is a Bluetooth one |
| Screens.ClaimTakesItsBindingAlong | src/core/reducer/BindingPresence.h:9-13 | after the pass the binding of a pad hidden by its claim is on the claimed slot exactly when that was not bound and no other pad of the model streams unbound; when one does, it is on such a pad |
| Screens.ReleaseGivesItsBindingBack | src/core/reducer/BindingPresence.h:9-13 | after the pass a released claim's binding is on a pad of the model that streams unbound, exactly when there is one and the vendor id is below 0x8000; else it is gone |
| Screens.ClaimCanHandItsBindingToAnotherPad | src/core/reducer/BindingPresence.h:109-124 | two pads of one model, the first bound: its claim moves the binding to the second pad's slot and not to the claimed one |
| SlotAssembly.PassesDoNotCollide | src/AppModel.cpp:862-933 | whatever is claimed and listed, and whatever other lists the rows are read from, no two departed bindings name pads with one first free slot |
| BindingHistories.PassKeepsItsMoves | src/AppModel.cpp:1234-1279 | a pass whose screen and whose rows were read at different moments keeps the connection of every pad that moved |
| BindingHistories.RebuildKeepsItsMoves | src/AppModel.cpp:857-914 | so does every pass of a rebuild and of all the rebuilds its toasts set off |
| BindingHistories.EveryLifeKeepsItsMoves | src/AppModel.cpp:857-1279 | over every sequence of device changes, binds and unbinds, with other controllers and devices at every look, every pass keeps its moves and a connection stays on one slot |
| AppModels.AppModel.constructor | src/AppModel.cpp:857-914 | the guard starts clear |
| AppModels.AppModel.Rebuild | src/AppModel.cpp:857-914 | terminates however the controllers and devices change between any two looks; inside a pass it changes no binding and starts no pass; outside, the bindings are the fold of its pass and then of each listener's, and the log is exactly that trace |
| AppModels.AppModel.ApplyBindingPresence | src/AppModel.cpp:1234-1279 | a guarded call does nothing; an unguarded one reads each binding's devices at its own moment, folds the actions into the bindings, traces them under the guard and then the toasts, and leaves the guard clear |
| AppModels.AppModel.ApplyAndTell | src/AppModel.cpp:1250-1279 | the guard is set for the actions and clear for the toasts, and the two make up the pass |
| AppModels.AppModel.ApplyActions | src/AppModel.cpp:1254-1269 | the bindings end as the plain fold of the actions, with one notice for each unbind, although every bind and unbind re-enters rebuild |
| AppModels.AppModel.ApplyAction | src/AppModel.cpp:1262-1268 | one action drops its slot, carries the switches before it binds, and binds the connection it dropped |
| AppModels.AppModel.SendToasts | src/AppModel.cpp:1272-1278 | one toast for each notice, each with the guard clear, and each listener's rebuild settles what the ones before it left |
| AppModels.AppModel.SendToast | src/AppModel.cpp:1272-1278 | a toast and its listener's rebuild never leave more bindings than there were |
| AppModels.AppModel.PendingActions | src/AppModel.cpp:1236-1246 | the actions computed from the hub's table are those of the specification |
| AppModels.AppModel.CollectRows | src/AppModel.cpp:1237-1245 | one row for each binding with the pad's identity, in any order of the hash, each from a look of its own |
| AppModels.AppModel.RowNow | src/AppModel.cpp:916-933 | a row is the identity of its pad on the screen, or in the list as it is at that moment |
| AppModels.AppModel.LookAtControllers | src/AppModel.cpp:864-865 | a look answers what the world holds at its moment |
| AppModels.AppModel.LookAtDevices | src/Input/SDLGamepadBridge.cpp:105-109 | likewise for the device list |
| AppModels.AppModel.HubUnbind | src/Network/ConnectionHub.cpp:170-177 | an unbound slot is left alone; within a pass a bound one is removed and nothing more; outside one the bindings without it are then settled by a whole rebuild, with its trace |
| AppModels.AppModel.TakeOver | src/Network/ConnectionHub.cpp:137-149 | the one slot that held the connection gives it up |
| AppModels.AppModel.HubBind | src/Network/ConnectionHub.cpp:136-151 | within a pass the slot holds the connection and no other does; outside one those bindings are then settled by a whole rebuild, with its trace |
| Passes.EveryUnbindCounts | src/AppModel.cpp:1234-1279 | however the world moves, a rebuild and all the rebuilds its toasts set off leave at least one binding fewer for each unbind, and a connection on one slot |
| PassTheorems.RebuildsAreBounded | src/AppModel.cpp:1234-1279 | however the world moves, a rebuild and all it sets off send exactly one toast for each unbind, all with the guard clear and no more than bindings were lost, and nest at most one level deeper than there were bindings |
| PassTheorems.PassIsOrderly | src/AppModel.cpp:1234-1279 | however the world moves, first every binding whose slot is not on screen is dropped exactly once, its rebuilds one level deep and guarded; the toasts follow over the plain fold of those actions, one for each unbind |
| PassTheorems.StillWorldSettlesAtOnce | src/AppModel.cpp:1234-1279 | while every look answers the same, a rebuild leaves exactly the bindings its own pass settles |
| PassTheorems.StillWorldIsIdleAfterwards | src/AppModel.cpp:1272-1278 | and each listener's rebuild finds nothing to do, so that the trace is the actions and then one toast and one idle rebuild for each unbind |
| FrameworkPresence.Differ.constructor | src/AppModel.cpp:635-656 | nothing is remembered at first |
| FrameworkPresence.Differ.SyncFrameworkPresence | src/AppModel.cpp:635-667 | a pass remembers exactly the list's nonzero identities, sends one down with its own ids for each that left, and an up with its own ids exactly for each that appeared and each controller that awaits its present twin |
| FrameworkPresence.Differ.Appearances | src/AppModel.cpp:640-648 | the current keys are the list's, and the ups are exactly those of the new ones, with the ids their keys pack |
| FrameworkPresence.Differ.Departures | src/AppModel.cpp:649-655 | each identity that left is signalled down exactly once, whatever order the set is walked in |
| FrameworkPresence.Differ.Settling | src/AppModel.cpp:662-666 | the ups are exactly those of the controllers that await their framework twin while it is in the list |
| FrameworkPresence.KeysAreIdentities | src/AppModel.cpp:641-644 | a key is remembered exactly when a pad with those nonzero ids is in the list |
| FrameworkPresence.OneDownADeparture | src/AppModel.cpp:635-656 | over every sequence of lists the downs of a pad are exactly its changes from present to absent |
| FrameworkPresence.AnUpAnAppearance | src/AppModel.cpp:641-648 | every change from absent to present is signalled up in its pass |
| TestBuzzes.TestBuzzTickets.constructor | src/core/reducer/FeedbackBench.h:58-59 | no ticket is out at first |
| TestBuzzes.TestBuzzTickets.Issue | src/core/reducer/FeedbackBench.h:49-56 | the next ticket, modulo 2^64, is the slot's latest, and other slots' latest stay |
| TestBuzzes.TimersStayInOrder | src/AppModel.cpp:971-977 | in every interleaving the pending timers of a slot hold tickets up to the number of buzzes, the latest at most once |
| TestBuzzes.MotorsFollowTheLatestBuzz | src/AppModel.cpp:968-977 | in every interleaving of under 2^64 buzzes and their timers the motors run the latest buzz exactly while its timer is pending and are stopped otherwise |
| TestBuzzes.AllStoppedInTheEnd | src/AppModel.cpp:968-977 | once all timers have fired the last write to every driven pad was a stop |
| TestBuzzes.TicketsCountBuzzes | src/core/reducer/FeedbackBench.h:51-56 | on every run, however long, a slot's latest ticket is its number of buzzes modulo 2^64 |
| TestBuzzes.BuzzStartsItsTimer | src/AppModel.cpp:971-977 | after every run a buzz starts the timer of its number |
| TestBuzzes.StaleTimerStopsOnlyAtTheWrap | src/AppModel.cpp:971-977 | after every run the timer of a slot's n-th buzz, firing, stops the motors exactly when a multiple of 2^64 buzzes followed on the slot, and otherwise writes nothing |
| ControllerShadows.ReadGamepad | src/Input/ControllerShadow.cpp:90-102 | a full read has each XUSB bit set exactly for its pressed button, no other bit, and the six axes |
| ControllerShadows.ControllerShadow.constructor | src/Input/ControllerShadow.cpp:39-50 | no button is held at first |
| ControllerShadows.ControllerShadow.Seed | src/Input/ControllerShadow.cpp:39-50 | the shadow mirrors every axis and button of the pad |
| ControllerShadows.ControllerShadow.Apply | src/Input/ControllerShadow.cpp:52-70 | it mirrors the pad moved by the event; it reports false exactly for events out of range or of another kind, which change nothing |
| ControllerShadows.ControllerShadow.SetButton | src/Input/ControllerShadow.cpp:58-66 | only the event's button changes, by its state and not by the event's kind |
| ControllerShadows.ControllerShadow.TakeSnapshot | src/Input/ControllerShadow.cpp:72-88 | the snapshot is a full read of the mirrored pad |
| ControllerShadows.ReplayMatchesRead | src/Input/ControllerShadow.cpp:39-102 | for every pad and event sequence the shadow's snapshot is the full read of the pad moved by those events, and the only such read |
| ControllerShadows.ReadsIsUnique | src/Input/ControllerShadow.cpp:90-102 | a pad has one reading |
| ControllerShadows.WireValues | src/Input/GamepadInputProcessor.h:29-43 | the fifteen rows carry the wire's bit values |
| ControllerShadows.HeldAsLastSaid | src/Input/ControllerShadow.cpp:52-70 | a button is held as its last event, or else its seed, says |
| ControllerShadows.EachBitFollowsItsButton | src/Input/ControllerShadow.cpp:39-102 | each XUSB bit of the snapshot follows its own button's last event or seed |
| ControllerShadows.ReadsByName | src/Input/ControllerShadow.cpp:17-102 | by name: the fifteen bits are Up, Down, Left, Right, Start, Back, the stick clicks, the shoulders, Guide, A, B, X and Y as the getters answer for each, bit 11 is clear, and the six fields are the six axes |
| ControllerShadows.SnapshotByName | src/Input/ControllerShadow.cpp:17-88 | for every pad and event sequence each named bit is what that button's last event, or its seed, says, and each named axis its last event's value, or its seed's |
| CatalogueSeeds.Find | scripts/seed-source-language.py:39-51 | the first place at or after another, or none when there is none |
| CatalogueSeeds.FirstMatch | scripts/seed-source-language.py:31-51 | the leftmost match of the block pattern |
| CatalogueBlocks.ParseIsParsed | scripts/seed-source-language.py:31-51 | every text is its blocks and the stretches between them, in which no message starts |
| CatalogueBlocks.ParsePrint | scripts/seed-source-language.py:31-51 | printing such parts and searching again finds the same parts |
| CatalogueTheorems.SeededIsBlock | scripts/seed-source-language.py:36-51 | a seeded block is matched again as one block |
| CatalogueTheorems.SeedFindsTheSameBlocks | scripts/seed-source-language.py:50-51 | for every text the seeded text has the same blocks, each seeded, and the same text between them |
| CatalogueTheorems.SecondPass | scripts/seed-source-language.py:36-47 | seeding a seeded block changes nothing exactly when it was left alone (plural, nothing unfinished, no source) or its source text does not refill itself |
| CatalogueTheorems.LeftUnfinished | scripts/seed-source-language.py:17-47 | after seeding a block has an empty unfinished translation exactly when it had one and is a plural, has no source text, or has one that refills itself |
| CatalogueTheorems.SourceBodyIs | scripts/seed-source-language.py:33-47 | the text filled in is what stands between the first source tag and the next closing one |
| CatalogueTheorems.SeedIsIdempotentIff | scripts/seed-source-language.py:31-51 | for every text a second seeding changes nothing exactly when no block's source text refills itself |
| CatalogueTheorems.PlainTextSettles | scripts/seed-source-language.py:45-47 | a source text without an opening bracket does not refill itself |
| CatalogueTheorems.EscapedCatalogueIsSeededOnce | scripts/seed-source-language.py:58-72 | on a text whose source bodies have no opening bracket, a check after seeding finds nothing to do |
| CatalogueTheorems.SomeTextsNeedASecondPass | scripts/seed-source-language.py:36-51 | a text whose source body is an unfinished tag: the second seeding changes what the first one wrote |
| CatalogueTheorems.LeftAfterReplace | scripts/seed-source-language.py:47-47 | after replacing every occurrence, one is left exactly where the filled text brings it |
| CatalogueFills.MessageIsABlock | scripts/seed-source-language.py:31-31 | a message tag with or without attributes, a text without a closing tag, and the closing tag are one block |
| CatalogueFills.LongerNamesAreOtherTags | scripts/seed-source-language.py:31-31 | a tag whose name goes on after "message" starts no block |
| CatalogueFills.SeedGoesBlockByBlock | scripts/seed-source-language.py:50-51 | the text before the first block stays, the block is seeded, and the rest is seeded as a text of its own |
| CatalogueFills.SeedChangesIff | scripts/seed-source-language.py:36-47 | a block is changed exactly when it is no plural, has an empty unfinished translation, and has a source text |
| CatalogueFills.FillsTheTranslation | scripts/seed-source-language.py:36-47 | a message that is no plural and awaits its one translation gets its source text as that, and nothing else of it changes |
| MotionConvert.ClampInt16IsNearest | src/Input/SdlMotionConvert.cpp:21-24 | in range the result is within half a step, whole values are themselves, and outside it saturates |
| MotionConvert.HalvesGoOutward | src/Input/SdlMotionConvert.cpp:21-24 | a half is rounded away from zero |
| MotionConvert.WireUnits | src/Input/SdlMotionConvert.cpp:13-38 | a wire value is 2000/32767 of a degree a second, 4/32767 of standard gravity, or 1/65535 of the pad, to half a step |
| MotionConvert.HalfATurn | src/Input/SdlMotionConvert.cpp:16-16 | pi radians a second read as 180 degrees a second |
| MotionConvert.ClampInt16IsMonotone | src/Input/SdlMotionConvert.cpp:21-24 | the rounding clamp is monotone |
| MotionConvert.ConversionsAreMonotone | src/Input/SdlMotionConvert.cpp:28-38 | all three conversions are monotone |
| MotionConvert.FullScale | src/Input/SdlMotionConvert.cpp:13-38 | 2000 degrees a second, 4 g and the pad's edges are full scale, and everything beyond saturates |
| MotionConvert.SaturatesBelow | src/Input/SdlMotionConvert.cpp:28-38 | below the least wire value's reading all three stay at the least |
| MotionConvert.WireValuesRoundTrip | src/Input/SdlMotionConvert.cpp:28-38 | each int16 taken to physical units and converted again is itself |
| MeasurementVersions.Groups | scripts/measurements-report.py:68-68 | the groups are non-empty and all digits |
| MeasurementVersions.GroupsReadBack | scripts/measurements-report.py:68-68 | the groups of a name are the numbers written in it, in order, for any text around them |
| MeasurementVersions.SameWidthOrder | scripts/measurements-report.py:67-68 | digit strings of one length compare as their numbers |
| MeasurementVersions.KeyOrderIsVersionOrder | scripts/measurements-report.py:67-68 | where no group has over eight digits, the keys compare as strings exactly as the groups compare as numbers, and are equal exactly when the numbers are |
| MeasurementVersions.SortsRightIffShort | scripts/measurements-report.py:67-68 | a version is filed rightly against every version of short groups exactly when its own groups have at most eight digits |
| MeasurementVersions.NineDigitsSortTooEarly | scripts/measurements-report.py:67-68 | 100000000 is filed before 99999999 |
| MeasurementVersions.SortByVersion | scripts/measurements-report.py:208-208 | every file once, ordered by key, equal keys in listing order |
| MeasurementVersions.ReadPrevious | scripts/measurements-report.py:204-222 | nothing is found exactly when there is no directory or no usable report of another version in it; otherwise the one found follows all the others in that order |
| MeasurementVersions.PreviousIsTheNewest | scripts/measurements-report.py:204-222 | where the candidates' numbers fit eight digits, none is numerically newer than the one found |

## Left out

- Weak memory orders: steps are sequentially consistent; the fences of `src/core/thread/GraceEpoch.h` are taken to give that.
- Device and session threads are taken to be stopped before the router is destroyed; mic senders are not, and may outlive it.
- Routes.DeviceRegistry.Add: one call at a time; calls that interleave, and removals, are the subject of `DeviceClaims`. Ids are strings of bytes.
- DeviceClaims.NextWrites: a look at a row's state and id is one step; the sequence lock under the id's text, and the generations and counters a record also keeps, are not modelled.
- DeviceClaims.IntroducersAgree: one way; runs that free a row of another id may end well too. `DeviceClaims.RemovalCanLeaveTwoRows` and `DeviceClaims.GivingBackCanLeaveTwoRows` show runs that do not.
- DeviceClaims.OneRowInTheEnd: under the same condition.
- RowOwners.OwnRouteIffOwnRow: an add or a removal is one step, calls that interleave being the subject of `DeviceClaims`; a device's own slot is judged by the bindings its table was built with.
- Screens.ClaimTakesItsBindingAlong: SDL still lists the hidden pad when its binding's row is made; a pad that is gone by then is unbound.
- RowOwners.StepKeeps: the mic and feedback routes of a table built while pads come and go are not constrained; a build nobody disturbs is `Routes.Build`.
- Sends to satellites and to the Moonlight host are log entries naming the table they used; payloads, sockets and `forwardReport` and its siblings are not modelled.
- The republish, the destructor and `micSenderForSlot` are steps of an interleaving and not methods of a class, because a Dafny method runs alone.
- `resolveFeedbackTarget`, `feedbackInputs` and `directTarget` enter the table as given facts of a slot; what they decide is not modelled.
- The hub's summaries, labels and reducers for what a connection offers are given; an empty slot id, which `ConnectionHub::bind` would not detach, does not occur.
- A toast's listener is modelled as one that rebuilds; other calls it could make back into the model are not. A satellite's label does not change during a rebuild.
- TouchGates.TouchGate.Decide: times are unbounded integers, so that the overflow of 64-bit nanoseconds after 292 years does not occur.
- MotionConvert.ConversionsAreMonotone: real arithmetic; the rounding of 32-bit floats and NaN are not modelled.
- ControllerShadows.ReadGamepad: SDL's own button and axis numbers are those of SDL 2's public header, which is not part of this model.
- CatalogueSeeds.FirstMatch: `\b` uses the ASCII word characters; Python also counts letters and digits of other scripts.
- MeasurementVersions.Groups: `\d` is the ASCII digits; Python also counts those of other scripts.
- MeasurementVersions.ReadPrevious: the listing that matches the file pattern is given, and a JSON value is the fields the reader looks at.
- The command lines, file access and messages of both scripts.
- The USB path machine, whose states appear only as the phase the presence differ and the slot assembly read; that it keeps a controller under its own packed key is taken from `src/source/usb/UsbGamepadManager.cpp:226-245`.
- BindingHistories.EveryLifeKeepsItsMoves: bindings are of ids slots have had, SDL lists each open instance once under its own `sdl:` id, and does not use an instance id again once the instance is gone.
- `PumpWaiter` and the timers behind the test buzz, beyond firing in any order.
- The catalogue import from Android, Markdown rendering, settings stores and the Qt user interface: wiring or easy per-item claims.
