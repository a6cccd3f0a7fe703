# parkrpi: verified models

Dafny models of the parts of the robot stack where order, interleaving, arithmetic or in-place updates
decide whether the system is right, with proofs of what those parts promise.

| file | models |
|---|---|
| `HubProtocol.dfy`, `HubService.dfy` | the websocket hub: the interleaved state machine, and the hub loop over client objects |
| `Wire.dfy`, `RobotStore.dfy`, `RobotPipeline.dfy` | queue frames, the robot store and its start-up reset, the receive loop from frame to broadcast |
| `Users.dfy`, `UserRuns.dfy`, `UserImport.dfy` | the user store, what every sequence of calls keeps, the bulk import |
| `NativeQueues.dfy`, `TimerTicks.dfy`, `ExitLatch.dfy` | the C processes: bounded queues, the signal-driven tick counter, the exit latch |
| `Compensation.dfy`, `TemperatureText.dfy` | the BMP280 driver's s32 arithmetic and its `%d.%d` text |
| `Tokenizer.dfy`, `LeadingDirs.dfy`, `Usernames.dfy` | in-place string work: shell tokenizer, directory loop, user name cleaning |
| `RobotsReducer.dfy` | the front end's robots reducer |
| `EndToEnd.dfy` | queue frame to browser row, across all of the above |
| `Common.dfy`, `Decimal.dfy` | shared helpers |

`dafny verify dfyconfig.toml` checks everything.

A protocol is a `Step` function with an `Enabled` guard. A run is a sequence of labels, and `Exec` gives the
state it ends in when every label is enabled where it is taken, so a statement about all `run` with
`Exec(run).Some?` is about every interleaving. An object the source updates in place is a class; its methods
are proved against functions on values, and the laws are proved about those functions.

## Assumptions

- storm: the `Username` index is unique, a save that would break it changes nothing, a zero ID takes the next
  value of a counter that starts at 1 and that explicit IDs do not move, `Save` is an upsert, `UpdateField`
  writes one field of an existing record, `All` lists every record once in an order left arbitrary. A lookup by
  name may return any record with that name; where it is a function, that is proved from uniqueness.
- Go channels without a buffer hand over in one step; JSON brings a status message back unchanged; a websocket
  write counts as attempted, since a failure is only logged.
- The progress results take calls to return: `WriteJSON` on a connection without a write deadline
  (`be/pkg/robots/client.go:64-70`), and `mq_receive` without being interrupted (the alarm's handler is installed
  without SA_RESTART, and `system/system_server.c:179` and `310` assert that no receive returns -1).
- POSIX queues block when full or empty and are first in, first out at equal priority; signed arithmetic wraps
  and `>>` is arithmetic, as the kernel is compiled.
- The clock, `os.Hostname`, `MkdirAll` and the opening of a queue are parameters.

## Findings

- A hazard of the user storage that no present caller triggers: a save with an automatic ID overwrites the record
  holding the counter's next value, when that ID was once given explicitly. `UserRuns.NewIdIsFreshIff` and
  `UserImport.ImportSparesIff` have the exact conditions, `UserRuns.ExplicitIdCanBeOverwritten` and
  `UserImport.ImportCanOverwriteWithoutBeingAsked` concrete stores. Every caller saves under ID 0 or a stored ID
  (users_add.go:47, root.go:352, users_import.go:56-73 and users_update.go:69 in `be/cmd`, `be/pkg/api/auth.go:141`,
  `be/pkg/storage/bolt/importer/users.go:99`), and from the empty store that keeps every automatic ID fresh
  (`UserImport.ImportAfterAnyRun`).
- The driver keeps the chip's signed T2 and T3 as unsigned words. With a negative T3, and a T2 that is not, it reads
  too high except close to T1 wherever nothing overflows: in the datasheet's worked example 29.83 degrees for 25.08
  (`Compensation.DatasheetExampleIsMisread`). Where the product with the stored T3 wraps it can read too low: the same
  chip at reading 627264 gives 33.50 for 58.59 (`Compensation.WrappedProductReadsLow`).
  `Compensation.StoredWordsAreRightIff` says, for all words and readings, exactly when the result is right. Every chip
  with a negative T3 overflows at one end of the range (`Compensation.NegativeT3Overflows`), so for its driver
  `Compensation.MachineComputesFormula`, `Compensation.MachineIsMonotone` and the driver half of
  `Compensation.WithinOneHundredth` say nothing.
- `users import --replace` is documented to replace the entire user base. The delete guard makes it stop,
  importing nothing, exactly when user 1 is stored (`UserImport.DeleteAll`). The backup it writes is of the list
  to import, not of the old users.
- The `%d.%d` text loses the zero of hundredths below ten and puts a second sign after the point for negative
  temperatures; `TemperatureText.RenderingIsFaithfulIff` says exactly when it reads back right.
- The host name inside a robot's queue message is never used: the record and the broadcast carry the server's own.
- UPDATE_ROBOT_STATE spreads the reducer's whole state into the row, because the callback's `state` is the
  outer one. Rows nest without bound (`RobotsReducer.EveryUpdateNests`), and two updates commute as states only
  when one of the robots has no row (`RobotsReducer.UpdatesCommuteIff`), though always in what is shown.
- `BroadcastRobot`'s `checkErr` logs through a logger that is never set, so an error there is a panic. The
  receive loop of the model ends where it would.

## Model

| member | source | states |
|---|---|---|
| HubProtocol.DeliveryIsContiguousSlice | be/pkg/robots/hub.go:28-50 | in every interleaving, the writes attempted to a client are the contiguous slice of the global broadcast sequence from its register being consumed to its unregister being consumed, less the one message still under way, also in the middle of the loop over the clients |
| HubProtocol.OverlappingClientsAgree | be/pkg/robots/hub.go:37-47 | two clients were written the same message at every broadcast position both were registered for |
| HubProtocol.WritesReachOpenSockets | be/pkg/robots/client.go:79-95 | the hub writes only to clients whose unregister it has not consumed, so never after the reader closed the socket, and always the message being broadcast |
| HubProtocol.NothingAfterUnregister | be/pkg/robots/hub.go:33-36 | once a client's unregister is consumed its log never grows again, however the run goes on |
| HubProtocol.BroadcastOnlyShrinks | be/pkg/robots/hub.go:39-47 | no step of any goroutine lengthens, restarts or aborts a broadcast under way; each step of the inner loop shortens it by one |
| HubProtocol.HubReturnsToSelect | be/pkg/robots/hub.go:37-48 | from any reachable state the hub alone completes the broadcast in exactly the steps that measure says, leaving every blocked goroutine where it is |
| HubProtocol.BlockedSendIsServed | be/pkg/robots/websocket.go:47-50 | a goroutine blocked on register, unregister or broadcast can always be served after hub steps alone |
| HubProtocol.SenderOrderIsKept | be/pkg/robots/hub.go:24-26 | for each sender, offered messages are those accepted, in order, plus the one it is blocked on |
| HubProtocol.SingleSenderOwnsTheLog | be/pkg/robots/broadcast.go:24-37 | with one sender the global broadcast sequence is what it offered, at most one message short |
| HubProtocol.LifeInOrder | be/pkg/robots/client.go:79-95 | in every run each connection goes through connect, register, reader start, read error, unregister and close at most once each and in that order, and is read from only while its reader runs |
| HubProtocol.LifeCanComplete | be/pkg/robots/client.go:82-94 | from any reachable state a connection, begun or not, can run through all the steps it has left with the hub's help alone, to a closed socket that is no longer registered, its register and unregister both consumed |
| HubProtocol.MessagesCanBeRead | be/pkg/robots/client.go:81-89 | while its reader runs a message can be read from a client at any moment, and that changes nothing |
| HubProtocol.HubIsSerial | be/pkg/robots/hub.go:28-50 | a register, an unregister or a message is taken in only after the loop over the clients has ended for every message before |
| HubProtocol.MessageReachesAll | be/pkg/robots/hub.go:37-47 | from any reachable state an unblocked sender can hand over any message, and the hub alone then accepts it and makes it the last one written to every registered client |
| HubService.Hub.Broadcast | be/pkg/robots/hub.go:37-47 | every registered client gets the message once and its send field set, in whatever order the map is ranged over; no other client is touched |
| HubService.Hub.Dispatch | be/pkg/robots/hub.go:30-48 | one select round: the client set and every member's log afterwards |
| HubService.Hub.HubStart | be/pkg/robots/hub.go:28-50 | over any list of events each client's log grows by exactly the messages that arrive while it is a member |
| HubService.InterleavingRefinesSerialHub | be/pkg/robots/hub.go:28-50 | any interleaving writes to each client what the serial loop writes for the same select rounds, less the message under way; between rounds they are equal |
| Wire.SysmsgCodecInverse | be/pkg/robots/robots.go:41-44 | decoding inverts encoding of the 54-byte message whatever trails it, and encoding inverts decoding |
| Wire.InfoSurvivesPadding | be/pkg/robots/robots.go:46-50 | a 40-byte robot record copied into the 50-byte payload is read back whatever the padding; both directions |
| Wire.MotorSurvivesPadding | be/pkg/robots/robots.go:52-55 | the same for the 8-byte motor command |
| Wire.SendEngineMessage | be/pkg/robots/robots.go:95-125 | nothing is sent when the queue does not open; otherwise one zero-padded frame whose decoding is the engine command for that motor and speed |
| Wire.EngineFrameBytes | be/pkg/robots/robots.go:36-55 | byte by byte: message 2, the motor and the speed, each word least significant byte first, and zeros to the end |
| RobotStore.LastCallDecides | be/pkg/robots/storage.go:66-110 | over any sequence of saves, updates and deletions the last call that concerns a robot decides what is stored for it, saves under id 0 and deletions of id 1 counting for nothing; so robot 1, once stored, stays |
| RobotStore.InitRobots | be/cmd/robots.go:12-41 | for every initial table: the device's record with its seven start values, plus the untouched old record 1 when that is another; with id 0 only the old record 1 |
| RobotPipeline.Receiver.UpdateRobot | be/pkg/robots/robots.go:172-185 | changes host name and temperature of the one record, stamps it and sends one message with the same values; an unknown robot changes nothing |
| RobotPipeline.Receiver.Receive | be/pkg/robots/robots.go:145-169 | one round: a short frame leaves the previous message in force, only a robot report has an effect |
| RobotPipeline.Receiver.RecvMessageQ | be/pkg/robots/robots.go:127-170 | over any received stream the messages sent are one for one, in order, those of the reports before the first unknown robot; the store ends with each record carrying its latest report and nothing else changed |
| RobotPipeline.StoreAgreesWithMessages | be/pkg/robots/robots.go:172-185 | after every report the stored host name and temperature are those of the message just sent, and every record carries the last message sent for it with all its other fields as they were |
| RobotPipeline.FullFramesStandAlone | be/pkg/robots/robots.go:145-160 | a full-length frame is read on its own, independently of what came before |
| RobotPipeline.ShortFrameRepeats | be/pkg/robots/robots.go:145-160 | after a frame that is too short the previous message is acted on once more |
| RobotPipeline.FrameBytesReport | be/pkg/robots/robots.go:36-50 | byte by byte: a full-length frame reports a robot exactly when its first word is 1, with the id from the second word and the temperature from behind the 32 bytes of host name, as decimal text |
| RobotPipeline.EncodedReportIsRead | be/pkg/robots/robots.go:152-164 | a frame built from a robot record is read as a report of that id and temperature, whatever its padding and trailing bytes |
| Decimal.DecimalInjective | be/pkg/robots/robots.go:164 | the temperature text determines the number |
| Decimal.NoLeadingZero | be/pkg/robots/robots.go:164 | the temperature text has no leading zero |
| Users.User.Clean | be/pkg/users/users.go:47-84 | the first error in field order; on success the view mode and the commands filled in when listed, nothing else changed |
| Users.CleanErrorMeaning | be/pkg/users/users.go:52-71 | cleaning by a field list passes exactly when a listed user name and a listed password are nonempty; otherwise it returns the error of the first listed field that is not |
| Users.Backend.GetBy | be/pkg/storage/bolt/users.go:16-39 | finds a record with that id or name, or reports that there is none; any other key type is rejected |
| Users.Backend.Update | be/pkg/storage/bolt/users.go:55-68 | writes the fields before the first failing one and returns its error; an empty list is a whole-record save |
| Users.Backend.DeleteByUsername | be/pkg/storage/bolt/users.go:82-89 | removes the record its own second lookup finds |
| Users.Storage.Get | be/pkg/users/storage.go:47-56 | the found record re-checked; without one the error says whether the key or the record was at fault, and a record that does not pass returns its own error |
| Users.Storage.Gets | be/pkg/users/storage.go:59-72 | every record once, re-checked; fails exactly when some stored record does not pass |
| Users.Storage.Save | be/pkg/users/storage.go:93-99 | clean, then upsert or automatic id; a name conflict leaves the store as it was |
| Users.Storage.Update | be/pkg/users/storage.go:75-90 | the new store, the error and the stamp, left alone on failure |
| Users.Storage.Delete | be/pkg/users/storage.go:104-123 | on every path the store and the error together: the guard on user 1 by number and by name, both lookups, the rejected key types |
| UserRuns.RunsKeepGood | be/pkg/users/storage.go:75-123 | over any run of saves, updates (whole or by fields, cut short or not) and deletes every stored user has its own nonempty name, a password, a view mode and non-nil commands |
| UserRuns.FieldUpdatesKeepGood | be/pkg/storage/bolt/users.go:60-65 | a field loop that stops part-way still leaves a well-formed store |
| UserRuns.FieldUpdateIsMerge | be/pkg/storage/bolt/users.go:60-65 | a field-list update is a merge of the fields before the first name conflict, in any order and with repetitions; no other record changes |
| UserRuns.SaveLeaves | be/pkg/users/storage.go:93-99 | a save is refused, with nothing changed, for an empty name, an empty password or a name another user holds; otherwise the record, view mode and commands filled in, stands under its own id or the next automatic one and nothing else changes |
| UserRuns.UpdateReplaces | be/pkg/users/storage.go:75-90 | a whole-record update of a stored user replaces that record, filled in, under the same conditions, and leaves every other record and the counter |
| UserRuns.UpdateMerges | be/pkg/storage/bolt/users.go:55-68 | a field-list update leaves the stored record with the listed fields before the first name conflict taken from the caller's, filled in, and nothing else changed; refused for an empty listed name or password, a missing id or an unknown user |
| UserRuns.LookupIsUnique | be/pkg/storage/bolt/users.go:29 | on a well-formed store two lookups of the same key find the same record |
| UserRuns.DeleteRemovesExactly | be/pkg/users/storage.go:104-123 | on a well-formed store a deletion by number or by name succeeds exactly when the key stands for a stored user other than user 1, then removes that record and no other, and otherwise changes nothing |
| UserRuns.GetFailsOnlyWhenAbsent | be/pkg/users/storage.go:47-56 | on a well-formed store Get returns the stored record itself and fails only when there is none |
| UserRuns.RootSurvives | be/pkg/users/storage.go:104-123 | once user 1 is stored no later call removes it, by number or by name |
| UserRuns.NewIdIsFreshIff | be/pkg/users/users.go:21 | an automatic-id save leaves all other records as they were exactly when the counter's next value is not taken |
| UserRuns.ExplicitIdCanBeOverwritten | be/pkg/users/users.go:21 | two saves through the storage, the first under a new explicit id, that make it taken and lose the record |
| UserRuns.RunsKeepCounterAhead | be/pkg/users/users.go:21 | runs without new explicit ids keep every id at or below the counter |
| UserImport.NonOverwritingImport | be/cmd/users_import.go:55-75 | on every well-formed store: the entries taken are put under the consecutive ids after the counter and nothing else changes; an entry is taken exactly while its id is neither stored nor handed out earlier in the fold and its name is not in use by then; the first other one ends the import |
| UserImport.ImportSparesIff | be/cmd/users_import.go:55-75 | earlier records are untouched exactly when no entry before the first unacceptable one is given an id that another record holds, a test on the store and the list alone |
| UserImport.SparingImportTakesAcceptable | be/cmd/users_import.go:55-75 | it then takes exactly the entries up to the first unacceptable one, with one record more for each when the ids are free |
| UserImport.ImportAfterAnyRun | be/cmd/users_import.go:55-75 | from the empty store, after any run of calls without new explicit ids, no condition is needed: earlier records untouched, one record per taken entry, under fresh ids |
| UserImport.ImportIsRun | be/cmd/users_import.go:59-74 | every import, overwriting or not, is itself a run of saves without new explicit ids |
| UserImport.ImportCanOverwriteWithoutBeingAsked | be/cmd/users_import.go:69-74 | a store, made by a save under a new explicit id, on which the condition fails and a record is destroyed; no caller makes such a save |
| UserImport.OverwriteReplacesIff | be/cmd/users_import.go:59-74 | with overwrite, an entry whose id is stored replaces that record exactly when no other user has its name |
| UserImport.RoundTakesIff | be/cmd/users_import.go:55-75 | for both flags, one entry is put under its own stored id or, when its id is not stored, under the next automatic one, exactly when no other user has its name and, without overwriting, its id is not stored |
| UserImport.ImportPutsUntilRefused | be/cmd/users_import.go:55-75 | for both flags, an import puts its entries that way one by one, new users included, and stops at the first one refused by the store as it then is |
| UserImport.ImportKeepsStore | be/cmd/users_import.go:53-75 | any import, complete or not, loses no id and keeps the store well formed with the counter ahead |
| UserImport.DeleteAll | be/cmd/users_import.go:40-51 | the replace phase empties the table exactly when user 1 is not stored; otherwise it stops with user 1 kept and every remaining record untouched |
| UserImport.ImportLoop | be/cmd/users_import.go:55-75 | the loop over the storage layer is the fold the laws are about |
| UserImport.ImportUsers | be/cmd/users_import.go:31-76 | the whole command: cleaning first with nothing changed on a bad list, then replace, then the fold |
| NativeQueues.QueueConservation | main.c:49-75 | in every run each queue holds at most 10 messages, and received followed by queued is what was sent, in order |
| NativeQueues.ActionsFollowSends | system/system_server.c:175-202 | each consumer acts once on every message it received, in sending order, with the action its type calls for |
| NativeQueues.DutiesAreDone | system/system_server.c:315-323 | what each consumer has done is a prefix, and all once it is idle, of what the sends to it call for: a reading of the shared memory per sample, a dump at either end per dump command, and for `mq camera` a picture for type 1, a dump for type 2 |
| NativeQueues.DumpCommandIsDone | ui/input.c:259-274 | from the prompt in any reachable state a dump command can be given and ends with both dumps done and the prompt back |
| NativeQueues.ThreadsInOrder | ui/input.c:106-134 | in every run each of the four threads keeps to its program's order: sleep and send; camera before monitor; the converted message type sent; receive and handle; nothing after the busy loop or the exit |
| NativeQueues.DumpsAreBalanced | ui/input.c:259-274 | dumps issued by the dump command to camera exceed those to monitor by one exactly between its two sends, by none otherwise |
| NativeQueues.PendingMessageMoves | system/system_server.c:307-328 | while a message is pending its consumer has an enabled step |
| NativeQueues.QueueDrains | system/system_server.c:307-328 | from any reachable state a consumer alone empties its queue and has then acted on everything ever sent to it |
| NativeQueues.BlockedSendCompletes | ui/input.c:126-131 | a send blocked on a full queue can complete after steps of that queue's consumer alone |
| NativeQueues.SendBlocksIffFull | main.c:100-107 | a send blocks exactly when ten messages are queued |
| NativeQueues.SendIsSeenThrough | ui/input.c:126-131 | a thread standing at a send can complete it and go on, and its consumer can then have acted on it last |
| NativeQueues.PromptTakesCommands | ui/input.c:198-216 | each command can be given at the prompt and the sensor can wake, and the thread then stands at the send that belongs to it |
| TimerTicks.TicksAreConserved | system/system_server.c:52-72 | in every interleaving, interrupted waits included, alarms = semaphore + a tick taken but not counted + timer |
| TimerTicks.CounterCatchesUp | system/system_server.c:124-137 | the thread alone can always bring the counter up to the number of alarms |
| TimerTicks.EveryAlarmCanBeCounted | system/system_server.c:52-72 | an alarm can come at any moment, and the thread alone can then count it and all before it |
| TimerTicks.InterruptTakesNothing | system/system_server.c:124-137 | a wait can be interrupted at any moment and has then taken nothing |
| TimerTicks.ThreadInOrder | system/system_server.c:124-137 | in every run the thread keeps to its program's order: a taken post is counted under the mutex before the loop condition comes up again |
| ExitLatch.LeavesOnlyAfterSignal | system/system_server.c:415-420 | the server leaves its wait loop only after some signal_exit set the flag |
| ExitLatch.NoLostWakeup | system/system_server.c:371-379 | with the flag set and no caller before its signal the waiter is not asleep, for any number of callers and spurious wakeups |
| ExitLatch.CriticalSectionsExclude | system/system_server.c:371-379 | at most one of the waiter and the callers is between lock and unlock |
| ExitLatch.ExitStaysReachable | system/system_server.c:371-420 | once signal_exit has been called the waiter can always still finish, without spurious wakeups or further calls |
| ExitLatch.AnyCallEndsTheWait | system/system_server.c:371-420 | from any reachable state one more signal_exit can be called and the waiter can then finish |
| ExitLatch.CallersInOrder | system/system_server.c:371-379 | in every run each call locks, sets the flag, signals and unlocks, once and in that order |
| ExitLatch.WaiterInOrder | system/system_server.c:415-420 | in every run the waiter tests the flag after every lock and relock, and comes back from its wait only after a signal or a spurious wakeup that came while it slept |
| ExitLatch.SpuriousWakeupIsPossible | system/system_server.c:415-420 | a sleeping waiter can wake for no reason, which changes nothing but where it stands |
| Compensation.OverflowIsDecidedAtTheEnds | drivers/sensor/sensor.c:58-67 | no reading overflows any s32 intermediate exactly when the lowest and the highest do not, for any calibration |
| Compensation.SafeRange | drivers/sensor/sensor.c:61-67 | that condition in numbers for all stored words: 19195 <= T1 <= 46340, the two products of T2, and the two of T3, which are no condition when abs(T3) <= 4096 |
| Compensation.MachineComputesFormula | drivers/sensor/sensor.c:58-67 | under it the wrapping computation equals the integer formula at every reading |
| Compensation.TemperatureIsMonotone | drivers/sensor/sensor.c:64-67 | the temperature is nondecreasing in the raw reading through all floors when T2 >= 2048 ceil(abs(T3) ceil(r / 4096) / 16384), r being 2 T1 for T3 >= 0 and 2 (65535 - T1) otherwise |
| Compensation.SteepEnough | drivers/sensor/sensor.c:64-67 | T2 >= 2048 ceil(abs(T3) / 512) is enough for that, whatever T1 is |
| Compensation.MachineIsMonotone | drivers/sensor/sensor.c:52-68 | so is the driver's own result when nothing overflows |
| Compensation.MonotoneNeedsSlope | drivers/sensor/sensor.c:64-67 | for all words, only a calibration whose first term outweighs the second at both ends of the range, up to 25 units of their sum, can be nondecreasing |
| Compensation.WithoutSlopeItFalls | drivers/sensor/sensor.c:64-67 | a calibration with T2 = 0 for which it falls |
| Compensation.TemperatureError | drivers/sensor/sensor.c:64-67 | an explicit bound on the distance from the exact formula (section 3.11.3 of the BMP280 datasheet) |
| Compensation.WithinOneHundredth | drivers/sensor/sensor.c:52-68 | without overflow and with 7 abs(T2) + 31 abs(T3) <= 386662 the arithmetic is within 0.01 degrees of the exact formula on its words at every reading, and so is the driver on its stored ones when the chip's T2 and T3 are not negative |
| Compensation.SignOfT3 | drivers/sensor/sensor.c:66 | reading T3 as unsigned when it is negative adds four times the curvature to the second term, for all words and readings |
| Compensation.StoredWordsError | drivers/sensor/sensor.c:244-246 | for all signed words of the chip and all readings, how far the driver on its unsigned words is off the formula, to the hundredth, wrap-around of the square and of both products included |
| Compensation.StoredWordsAreRightIff | drivers/sensor/sensor.c:244-246 | for all of them it is right exactly when five times the misread part stays in the room the last division leaves |
| Compensation.NegativeT3ReadsHigh | drivers/sensor/sensor.c:246 | with a negative T3, at the readings where the stored words overflow nothing, it is right within 63 of T1, too high by 20 curvature / 256 up to rounding elsewhere, and certainly too high from 231 on; the other readings are under the law above |
| Compensation.NegativeT3Overflows | drivers/sensor/sensor.c:246 | no chip with a negative T3 is free of overflow at all readings, once its word is stored unsigned |
| Compensation.NegativeT3LacksSlope | drivers/sensor/sensor.c:246 | nor does its stored T2 reach the slope of SteepEnough |
| Compensation.DatasheetExampleIsMisread | drivers/sensor/sensor.c:246 | the words and reading of the datasheet's worked example mean 25.08 degrees; the driver, having stored T3 = -1000 as 64536, makes it 29.83 |
| Compensation.WrappedProductReadsLow | drivers/sensor/sensor.c:246 | the same chip at reading 627264, where the stored product wraps: 33.50 for 58.59 |
| TemperatureText.RenderingIsFaithfulIff | drivers/sensor/sensor.c:75-76 | the text reads back as the temperature exactly when the hundredths are zero, or positive and at least ten |
| TemperatureText.DroppedZero | drivers/sensor/sensor.c:179-180 | otherwise, for positive temperatures, it is off by nine times the hundredths |
| TemperatureText.RenderingFitsBuffer | drivers/sensor/sensor.c:72-76 | for every s32 temperature the text fits the 20-byte buffer |
| Tokenizer.RunsAreTheMaximalOnes | ui/input.c:364-380 | the runs the search visits are all the maximal delimiter-free stretches, each once, left to right |
| Tokenizer.InTokenIff | ui/input.c:32 | a character of the line is in a token exactly when it is no space, tab, carriage return, line feed or bell |
| Tokenizer.NextToken | ui/input.c:380 | strtok (section 7.24.5.8 of ISO/IEC 9899:2011): the next run, one NUL at its end, the saved pointer past it |
| Tokenizer.SplitLine | ui/input.c:353-384 | the NULL-terminated pointer array holds exactly the starts of the runs, each pointer still reads back its own token after all the cuts, the line changes only at run ends, capacity is the multiple of 64 the growth gives |
| Tokenizer.PointersDenoteTokens | ui/input.c:366 | the strings behind the pointers are the tokens |
| Tokenizer.SplitOfJoin | ui/input.c:353-384 | splitting tokens joined by single spaces returns the tokens |
| LeadingDirs.DirPrefixesAreAll | system/dump_state.c:226-232 | the names are exactly the prefixes before a slash, each once, in increasing length |
| LeadingDirs.MakeLeadingDirs | system/dump_state.c:218-233 | for every path the loop ends with the buffer unchanged, having called mkdir on exactly those prefixes but a leading one |
| Usernames.FixedPointsAreNormal | be/pkg/settings/dir.go:64-75 | cleaning leaves a name alone exactly when it is in the alphabet with no ".." and no "--" |
| Usernames.CleaningIsIdempotent | be/pkg/settings/dir.go:64-75 | cleaning twice is cleaning once, and the result is in that normal form, without '/' |
| Usernames.OuterSpacesDoNotMatter | be/pkg/settings/dir.go:66 | spaces around a name make no difference |
| Usernames.StretchBecomesDash | be/pkg/settings/dir.go:70-73 | in a name without outer spaces and "..", every longest stretch of dashes and characters outside the alphabet becomes one dash, the parts on either side being cleaned on their own |
| Usernames.OneCharacter | be/pkg/settings/dir.go:14-16 | what each single character becomes: the alphabet stays, a space goes, any other is a dash |
| Usernames.DotRunBecomesParity | be/pkg/settings/dir.go:67 | removing ".." reduces a run of dots, wherever it stands in the name, to its parity |
| Usernames.DotParityOfName | be/pkg/settings/dir.go:67 | a run of dots in a name counts for its parity, as long as that leaves no space at either end |
| Usernames.BaredSpaceBecomesDash | be/pkg/settings/dir.go:66-73 | a space at the end that only the removal of dots lays bare is not trimmed but becomes a dash |
| Usernames.ScopeIsTrimmed | be/pkg/settings/dir.go:22-25 | the scope is what lies between the white space around it; nothing and "./" mean "." |
| Usernames.OneCharacterScope | be/pkg/settings/dir.go:22 | which ASCII characters count as white space |
| Usernames.MakeUserDir | be/pkg/settings/dir.go:20-62 | result, error and directories made on every path; a path built from the name ends in the cleaned name, which is none of "", "-", "." and ".." |
| RobotsReducer.ActionsKeepConsistent | fe/src/reducers/robots-reducer.ts:31-190 | over any list of actions every row shows its own robot's state, fetching and initialized exclude each other, and rows never exceed count when fetched counts are list lengths |
| RobotsReducer.FetchShowsRobots | fe/src/reducers/robots-reducer.ts:33-66 | a fetch empties the list; its success leaves one row per robot, in order, with that robot and its three shown fields |
| RobotsReducer.RemovalKeepsOthers | fe/src/reducers/robots-reducer.ts:79-89 | UPDATE_ROBOT_SUCCESS without a robot leaves exactly the rows of the other robots, in order |
| RobotsReducer.RowAfter | fe/src/reducers/robots-reducer.ts:90-190 | what every other action does to each row: a robot that comes back is put in and shown, a failed update and a motor speed only put the robot in, a status update only changes what is shown, and no other row changes |
| RobotsReducer.LastActionDecides | fe/src/reducers/robots-reducer.ts:31-190 | over any list of actions each of the other fields is what the last action that concerns it made it |
| RobotsReducer.LastUpdateWins | fe/src/reducers/robots-reducer.ts:130-156 | after any list of status updates each row shows the last one for its robot and all else is as before |
| RobotsReducer.LastUpdateWinsAmongOthers | fe/src/reducers/robots-reducer.ts:31-190 | among any other actions that keep the row (all but GET_ROBOTS, GET_ROBOTS_SUCCESS, and an UPDATE_ROBOT_SUCCESS that removes a robot or is about this one) a row keeps its robot and shows the last status update for it |
| RobotsReducer.UpdatesCommuteOnScreen | fe/src/reducers/robots-reducer.ts:130-156 | updates of different robots commute in what the rows show |
| RobotsReducer.UpdateChangesIff | fe/src/reducers/robots-reducer.ts:139-153 | a status update leaves the state as it was exactly when its robot has no row |
| RobotsReducer.UpdatesCommuteIff | fe/src/reducers/robots-reducer.ts:144-149 | as whole states they commute exactly when not both robots have a row |
| RobotsReducer.EveryUpdateNests | fe/src/reducers/robots-reducer.ts:144-149 | n updates of a row leave n states nested below it |
| EndToEnd.ScreenFollowsStore | fe/src/actions/websocket-actions.ts:27-30 | at any moment of any hub interleaving, for any received stream and any client that registered: its writes are a contiguous stretch of the handled reports' messages from where it joined; and over any actions whose status updates are those for its writes, and which otherwise keep the row (no GET_ROBOTS, no GET_ROBOTS_SUCCESS, no UPDATE_ROBOT_SUCCESS that removes a robot or is about this one), a row whose robot is among them shows the record as the store held it after the last report written |
| EndToEnd.ScreenAgreesWithStore | fe/src/actions/websocket-actions.ts:27-30 | once everything is handed over and nothing is under way to a client still registered, that is the record the store holds now, over the same actions |

## Left out

- Robot lookup or deletion by name: the backend asks for a field the robot record does not have.
- The robot backend's field-list update: it repeats the users' loop, which is modelled; the receive loop only updates whole records.
- RobotPipeline.Receiver.RecvMessageQ: a queue receive that returns an error, and a failing store write, end in the panic described above and are not rounds of the model; a PUT between the read and the write of a record is not interleaved.
- Users.Storage.Delete: the two lookups of a deletion by name are taken in one store state; another request between them is not modelled.
- Users.Storage.Save: the caller's record after a failed call is not stated.
- Users.Backend.Update: a field name the user struct does not have makes reflection panic and is not a field of the model; the checkable name `Sorting` is one and is skipped, as `Clean` skips it.
- The `Fs` field of a user, which is not stored, and user scopes as file systems.
- HubProtocol.HubReturnsToSelect: a write to a client's socket that never returns would hold the hub, and is no behaviour of the model.
- NativeQueues.PendingMessageMoves: a receive interrupted by the alarm, which ends the process at its assertion, is no step of the model.
- HubProtocol.BlockedSendIsServed: that a blocked goroutine can be served, not that Go's select is fair to it.
- TimerTicks.TicksAreConserved: the semaphore and the timer are unbounded; their machine limits are years of one-second ticks away.
- The timer thread's stop flag, which nothing sets.
- Client messages with a handler: no rule is ever added to the websocket router, so a message read changes nothing.
- Failed allocations in the tokenizer, which end the process, and the shell's command table and loop.
- Error codes from the sensor bus, which the driver would compute with as data.
- The reducer's `activities`, which no action changes, and actions whose payload lacks the robot they name.
- The backup file of `--replace`, the settings defaults, the hook runner, the inotify walk and the directory size: single loops or calls whose properties are plain from one body.
- HTTP routing, sessions, password hashing, static files, templates, command-line flags, kernel module set-up, process creation, the camera library, `/proc` dumps and React components.
