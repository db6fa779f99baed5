# Elevator control: a verified model

This project models the control logic of the elevator simulation and proves what it keeps. A building
has cars, each with a block of shared memory that the car, its internal controls and its safety system
edit one mutex-protected step at a time. A controller keeps a registry of cars, chooses one for each
call, keeps a linked list of stops per car and tells the car where to go next.

| file | what it models |
|---|---|
| `Floors.dfy` | floor numbers, three-character labels, arithmetic on the shaft |
| `SharedMemory.dfy` | the shared block and its edits and reads |
| `Safety.dfy` | one pass of the safety monitor |
| `Runs.dfy` | every run of edits and safety passes on one block |
| `Internal.dfy` | the internal controls, each a run of looks and edits among other processes |
| `Door.dfy` | the door routine as a process among others, one shared access per step |
| `DoorButtons.dfy` | what the door routine does about the buttons, told from the blocks it found |
| `DoorRoutine.dfy` | the door routine as code, traced as a run of `Door.dfy` |
| `DoorInputs.dfy` | runs in which others do what the door results ask them not to |
| `Movement.dfy` | the movement rounds of the process thread |
| `Stops.dfy` | a car's queue of stops as a sequence; laws of every run |
| `StopQueue.dfy` | the same queue as a linked list edited in place |
| `Registry.dfy` | the growable array of car records |
| `Dispatch.dfy` | the car search and the handling of every event |
| `Service.dfy` | what holds in every reachable controller state and of every message |
| `Framing.dfy` | length-prefixed messages over partial reads and writes |
| `Histogram.dfy` | the scheduling test's histogram |

## Main results

- **An obstruction is not forgotten** (`Door.ReopenIsNeverLost`). In every interleaving with the process thread
  (which may move the car meanwhile), the controls and the safety system: once the safety system has
  answered an obstruction of closing doors, the door routine shows Opening again before it leaves, within
  nine of its own accesses, even though it clears the open button twice in a row on the way and may
  overwrite the status the safety system wrote. Only a clearing of the open button by another process, which
  takes a second door routine, can make it forget (`DoorInputs.ObstructionIsForgotten`).
- **The doors always finish** (`Door.DoorsTerminate`, `DoorRoutine.OperateDoor`), whatever the others write: an
  exact account of passes, and the bound 4 + 3N. The account follows from what the routine found at its looks
  (`DoorButtons.PassesFollowFromButtons`), and so does everything it shows and clears
  (`DoorButtons.ButtonsDecideWhatIsShown`, `DoorButtons.LooksAreActedOn`).
- **Emergencies, exactly** (`Runs.EmergencyExactly`): after any run of edits and safety passes the car is in an
  emergency if and only if one it began in was never cleared, or something raised one that nothing cleared
  later. So a pressed stop button is never missed (`Runs.StopIsNeverMissed`), and whether `service_on`
  recovers a car while other processes act is an if-and-only-if (`Internal.ServiceEndsEmergencyExactly`,
  `Internal.ServiceAmongPassesExactly`). What alarms a pass is spelled out in `Safety.EmergencyAfterPassExactly`.
- **A car arrives** (`Movement.TwoRoundsArrive`, `Movement.ProcessThread`) exactly once it has seen its doors
  closed in as many rounds as it needs moves: one if and only if the ground is not crossed, else two, through
  labels that overflow ("B100" is cut to "B10"). Others may meanwhile write anything but a floor.
- **The list edits are a sequence function** (`StopQueue.CarQueue.AddToCarQueue`), and over every run of calls
  and removals stops are conserved, keep their order and, in the leading run, are served first come first
  served (`Stops.StopsAreConserved`, `Stops.StopsKeepTheirOrder`, `Stops.LeadingRunIsFifo`). Where each call
  goes is said in floors and directions alone (`Stops.CallJoinsExactly`, `Stops.CallBoardsExactly`).
- **The cheapest car is chosen** (`Dispatch.CheapestCarIsChosen`): the first with the least sum of storeys, two for
  every queued stop and minus five for going the call's way, and none exactly if all cost 100 or more.
- **The controller refines those queues** (`Service.ControllerRefinesStops`): over any run of calls, reports,
  registrations and hang-ups, a car followed by its name goes through exactly such a run until it hangs up
  itself, whoever else comes and goes. Its leading stops are served in turn
  (`Service.LeadingStopsAreServedInTurn`).
- **From message to arrival** (`Service.MessagesAnnounceHeads`, `Service.AnnouncedStopIsReached`): every FLOOR
  message ever sent names the head of the concerned car's queue, within range; it comes on that car's own
  connection under an exact condition; and then the car that reads it arrives at that very floor.
- **What a car was last told** (`Service.LastMessageNamesHeadExactly`): over any run of events, the last message
  about a car names its current head if and only if no later event replaced the head silently; a new head
  is announced exactly on the condition of `Service.NewHeadIsToldExactly`.
- **Messages survive the stream** (`Framing.EveryInterleavingDelivers`, `Framing.ReceiveAll`): however writes and
  reads are cut and interleaved, the receiver gets exactly the messages sent.

## Where the code does something else than its texts say

- A call that joins a block, or boards, never has its destination queued (`Stops.DestinationQueuedExactly`).
- No call that does not board is ever served before the first turn (`Stops.CallsWaitForTheTurnExactly`); so the
  routing test's third call is not served where the test expects it (`Stops.TurnaroundIsNotExtended`).
- A sorted queue stays sorted after a call exactly on the condition of `Stops.SortednessKeptExactly`;
  `Stops.BlocksNeedNotStaySorted` is a failing input.
- The code for "no destination", -1, is also floor B1, so B1 is never announced
  (`Service.NextStopAnnouncedExactly`, `Service.CallAnsweredExactly`; a run that shows it is
  `Service.CallFromB1IsNotAnnounced`).
- A call from "0", a floor no building has, is accepted and sends the car to 1
  (`Service.CallFromFloorZeroGoesToOne`). Every other announced stop reads back (`Service.MessagesAnnounceHeads`).
- An accepted call need not be announced at all: a car under way by its own report is told nothing of the first
  call (`Service.AcceptedCallIsNotAnnounced`, a run). A head is announced when it becomes the head, exactly
  unless the car is under way at the call, or the call is from B1, or the doors shut leaving no stop or one at
  B1 (`Service.NewHeadIsToldExactly`).
- A boarding call replaces the announced head and says nothing (`Service.BoardingIsSilent`; a run is
  `Service.BoardingDisplacesTheHead`). Until the doors shut, an announced head stays exactly if no call boards
  (`Service.AnnouncedHeadStaysExactly`).
- Distances ignore that there is no floor 0. A move across the ground goes one storey too far
  (`Movement.RoundIsExactOnOneSide`). The car search may be one storey off, never more
  (`Dispatch.BestWithinOneStorey`); it is right exactly on the condition of `Dispatch.ChoiceIsNearestExactly`,
  and `Dispatch.ChoiceCanBeOneOff` is a failing input.
- The range checks come after the distance is taken, so they do not bound the move. A round ends in range
  exactly if what it really makes for is in range (`Movement.RoundEndsInRangeExactly`). A car in range with a
  destination in range can leave it (`Movement.CarLeavesItsRange`), except exactly as
  `Movement.MoveInRangeStaysExactly` says. A destination out of range is visited all the same
  (`Movement.OutOfRangeExcursion`), and the round still ends in range exactly on the condition of
  `Movement.ExcursionEndsInRangeExactly`.
- The door routine never looks whether the car stands: it works the doors of a moving car whenever the block shows
  Between, and `Door.DoorsMoveBetweenFloorsExactly` says exactly when that is;
  `DoorInputs.DoorsOpenBetweenFloors` is a failing run.
- Two door routines can run at once. The order of the statuses and the answer to an obstruction then fail
  (`DoorInputs.OrderIsBroken`, `DoorInputs.ObstructionIsForgotten`); termination does not.
- A comment says `up` and `down` aim one floor from the *current* floor. They move the *destination* floor, which
  is the same exactly on the condition of `Internal.SteeringAimsFromCurrentExactly`;
  `Internal.SteeringMissesTheNextFloor` is a failing input. It also says they need closed doors; the code
  refuses Open and Between only (`Internal.SteeringRefusalExactly`).
- A control acts on what it saw some accesses ago. `open` takes effect on a moving car, and `up` and `down` steer a
  moving car, one with open doors or one out of service mode, exactly on the conditions of
  `Internal.OpenActsOnAStaleLookExactly` and `Internal.SteeringActsOnStaleLooksExactly`;
  `Internal.OpenActsOnAStaleLook` and `Internal.SteeringActsOnAStaleLook` are failing inputs.
- `service_on` clears the emergency before it clears the causes, so a safety pass in between raises it again
  (`Internal.StopReturnsDuringService`), exactly when `Internal.ServiceAmongPassesExactly` says.
- An emergency flag above 1 escapes the stop and overload checks (`Safety.MonitorGuarantee`; a failing input is
  `Safety.LargeFlagHidesTheStop`), and is itself
  repaired only if something else is inconsistent (`Safety.LargeFlagsAreRepairedExactly`). The safety test sets
  17 and expects an emergency (Test/test-safety.c:117-123); the pass leaves 17
  (`Safety.LargeFlagGoesUnnoticed`).
- The read called emergency also answers for an obstruction, by a missing `break`: it tells the stop button
  exactly unless an obstruction was left set and the button clear (`Runs.EmergencyReadTellsTheStopExactly`;
  `Runs.ObstructionReadsAsEmergency` is a failing input).
- The header names SET_EMERGENCY for the stop button and SET_EMERGENCY_STOP for the mode; the code writes the other
  one of each and reads as named. A flag reads back what its named operations write exactly if it is neither
  of the two (`SharedMemory.NamedFlagsReadBackExactly`).
- `include/sharedmemory.h` redefines `INT_MIN` to 999, so of labels that fit their buffer exactly the unreadable
  ones and "999" are floor 999 (`Floors.InvalidFloorExactly`). An unreadable call is taken exactly by cars whose
  upper label is "999" or unreadable (`Dispatch.UnreadableCallIsTakenExactly`; `Dispatch.UnreadableCallIsTaken`
  is an input), and a car with an unreadable upper label serves upwards without limit
  (`Dispatch.UnreadableTopServesUpwards`).
- A hang-up removes the first car of the socket's *name* (`Registry.HangUpRemovesItsCarExactly`).
- Registration pushes a record whose queue fields are never set, while `controller_init` sets up the queues
  of unused slots; the model registers a car initialised as `queue_init` does.

## Assumptions

C strings are the text before the terminating NUL, `snprintf` keeps what fits (ISO C11 section 7.21.6.5),
`sscanf("%d")` reads blanks, a sign and the longest run of digits (sections 7.21.6.2 and 7.21.6.7), and
`strncpy` followed by a NUL keeps what fits (section 7.24.2.4). Integers are unbounded and allocation
succeeds. A status text that names no status is `None`. Values that C leaves indeterminate in a new
registration are arbitrary. The door routine indexes the table of names with the status it reads; that
is defined because the status is always a real one (`Runs.ConsistencyErrorsComeFromDoors`). The field
`shm_changed` is written by every edit and never read, and is dropped.

## Model

| member | source | states |
|---|---|---|
| Floors.PrintInto | src/sharedmemory.c:57-65 | `snprintf` into a buffer leaves the C string that fits |
| Floors.FloorToString | src/sharedmemory.c:51-67 | the caller's buffer holds the label of any floor, cut to three characters |
| Floors.ValueOfDecimal | src/sharedmemory.c:57 | printing a number and reading its digits is the identity |
| Floors.DecimalOfValue | src/sharedmemory.c:95 | reading digits without a leading zero and printing them is the identity |
| Floors.TruncatedDecimal | src/sharedmemory.c:57-65 | cutting a printed number leaves the print of its leading digits |
| Floors.LabelRoundTrip | src/sharedmemory.c:51-102 | for all integers: print then parse gives the signed leading digits that fit (1 for 0), and the floor itself exactly for B99..B1, 1..999 |
| Floors.PrintedLabelIsCanonical | src/sharedmemory.c:51-67 | every printed label is in the documented format |
| Floors.CanonicalLabelRoundTrip | src/sharedmemory.c:75-102 | every documented label parses to a floor with a label and prints back to itself |
| Floors.CanonicalLabelsCompare | src/car.c:400 | on documented labels comparing texts is comparing floors |
| Floors.ShortLabelRange | src/sharedmemory.c:75-102 | no label of at most three characters, well-formed or not, parses outside -99..999 |
| Floors.InvalidFloorExactly | src/sharedmemory.c:75-102 | of labels of at most three characters exactly the unreadable ones and "999" parse as 999 |
| Floors.MoveIsTranslation | src/sharedmemory.c:317-354 | moves translate the shaft, where B1 is under 1: they add up, invert and never reach 0 |
| Floors.MoveLabelComposes | src/sharedmemory.c:317-335 | two moves of a label are one, if the stop between has a label |
| Floors.NumberingsAgree | Test/test-sched.c:315-325 | the tests' floor numbering is the shaft position and gives the same moved labels before cutting |
| SharedMemory.StatusNamesAreDistinct | src/sharedmemory.c:19-43 | the table lookup inverts status naming |
| SharedMemory.StatusTexts | src/sharedmemory.c:19-43 | which five texts name which status, and that no other text does |
| SharedMemory.StringToStatus | src/sharedmemory.c:33-43 | the lookup loop finds the first entry with the name, or none |
| SharedMemory.SharedBlock.constructor | src/sharedmemory.c:147-178 | a new block: both labels at the lowest floor, Closed, all flags 0 |
| SharedMemory.SharedBlock.Edit | src/sharedmemory.c:263-376 | the whole block after each of the thirty operations, and which are refused |
| SharedMemory.SharedBlock.MoveInPlace | src/sharedmemory.c:317-335 | the in-place arithmetic on a label buffer is one shaft move |
| SharedMemory.SharedBlock.Read | src/sharedmemory.c:385-436 | what each read answers, with its fall-through |
| SharedMemory.SharedBlock.ReadStatus | src/sharedmemory.c:437-445 | the status the block shows, if any |
| SharedMemory.ReadsWhatWasWritten | src/sharedmemory.c:269-436 | each read that looks at one flag tells it as last set or cleared by the operations that write that flag, and no other edit disturbs it |
| SharedMemory.NamedFlagsReadBackExactly | include/sharedmemory.h:85-121 | by its documented operations a flag reads back what is written exactly if it is neither emergency flag; those two read on as before |
| SharedMemory.FloorEditsReadBack | src/sharedmemory.c:317-368 | a set floor reads back exactly if it has a label, a moved one has gone that many storeys, and no other operation touches floors or status |
| SharedMemory.ReadsAreNoEdits | src/sharedmemory.c:263-376 | exactly the ten read operations are refused as edits, and change nothing |
| Safety.IsValidFloor | src/safety.c:87-108 | the check loops accept exactly three or fewer characters, digits after an optional B |
| Safety.IsValidStatus | src/safety.c:123-130 | accepts exactly the five status names |
| Safety.AnswerObstruction | src/safety.c:168-172 | the block after the obstruction test |
| Safety.CheckConsistency | src/safety.c:188-242 | the emergency goes on exactly when a checked field is inconsistent |
| Safety.MonitorPass | src/safety.c:164-244 | the whole block after one pass |
| Safety.EmergencyAfterPassExactly | src/safety.c:168-242 | when an emergency is on after a pass, in terms of characters, flag values and statuses |
| Safety.WellFormedAlarmsExactly | src/safety.c:174-205 | on a well-formed block a pass raises one exactly for the stop button, the overload sensor, or an obstruction while Open, Closed or Between |
| Safety.ObstructedClosedCarAlarms | src/safety.c:203-205 | an input: a closed car with the obstruction sensor set |
| Safety.DoorsTurnRoundExactly | src/safety.c:168-172 | closing doors on an obstruction show Opening with the open button set; nothing else is shown or pressed |
| Safety.MonitorGuarantee | src/safety.c:168-242 | a pass ends in an emergency, or consistent with stop and overload off, exactly unless an emergency flag above 1 hides a stop or overload on an otherwise consistent block |
| Safety.LargeFlagHidesTheStop | src/safety.c:174-186 | a failing input: a flag of 2 with the stop button pressed, for good |
| Safety.LargeFlagsAreRepairedExactly | src/safety.c:174-211 | an emergency flag above 1 is brought back to 1 exactly when something else is inconsistent |
| Safety.LargeFlagGoesUnnoticed | Test/test-safety.c:117-123 | the input 17 of the safety test is left as it is |
| Safety.MonitorEffect | src/safety.c:164-244 | a pass never clears an emergency, changes three fields only, turns closing doors exactly on an obstruction, and is idempotent |
| Safety.PrintedLabelIsValid | src/safety.c:87-108 | every printed label passes the floor check |
| Safety.EditKeeps | src/sharedmemory.c:263-376 | every edit keeps labels readable, the status real and the flags 0 or 1 |
| Safety.MonitorKeeps | src/safety.c:164-244 | so does a safety pass |
| Runs.Act | src/sharedmemory.c:263-376 | one edit or one safety pass, as the other processes make them |
| Runs.RunKeeps | src/safety.c:164-244 | every run of edits and passes keeps the block well-formed and its labels documented |
| Runs.ConsistencyErrorsComeFromDoors | src/safety.c:188-211 | from any readable start, in every run, the consistency error can only come from the obstruction clause |
| Runs.EmergencyExactly | src/safety.c:174-211 | after any run the emergency is on exactly if it was and nothing cleared it, or an edit or an alarmed pass raised it and nothing cleared it later |
| Runs.StopIsNeverMissed | src/safety.c:174-179 | a safety pass before the stop button is cleared leaves an emergency at the end of any run, unless that is cleared after the pass |
| Runs.SensorsFollowTheirWrites | src/sharedmemory.c:269-426 | over any run, passes included, the close button, both sensors and the service mode read as last written |
| Runs.StopFollowsItsWrites | src/sharedmemory.c:263-376 | over any run the stop flag is as last written |
| Runs.EmergencyReadTellsTheStopExactly | src/sharedmemory.c:407-415 | over any run the emergency read tells the stop button exactly unless the last writes left an obstruction and no stop |
| Runs.ObstructionReadsAsEmergency | src/sharedmemory.c:407-415 | a failing input: an obstruction alone |
| Internal.Operate | src/internal.c:97-154 | each control as a run of looks and edits with any interference before each access: whether it gives up, and the whole block afterwards |
| Internal.LookAt | src/internal.c:99 | one look, under its own lock |
| Internal.Make | src/internal.c:104 | one edit, under its own lock |
| Internal.TryOpen | src/internal.c:98-106 | open: the look at the status, then the edit, with interference before both |
| Internal.StartService | src/internal.c:113-119 | service_on: its five edits with interference before each |
| Internal.Steer | src/internal.c:123-150 | up and down: three looks and an edit with interference before each |
| Internal.PlainControls | src/internal.c:107-122 | stop, close and service_off set or clear their one flag on whatever the others have left |
| Internal.OpenControl | src/internal.c:98-106 | open sets the open button unless the car is shown moving at its look |
| Internal.ServiceOnAlone | src/internal.c:113-119 | undisturbed, service_on sets the mode and clears the emergency, the stop button and both sensors |
| Internal.StopControlIsAnswered | src/internal.c:110-112 | after the stop control the next safety pass raises an emergency that lasts, unless button or emergency are cleared |
| Internal.SteeringAlone | src/internal.c:123-150 | undisturbed, up and down are refused out of service mode and while Open or Between, and else move the destination one floor |
| Internal.SteeringUndoes | src/internal.c:123-150 | up and down undo each other exactly away from 999 and B99 |
| Internal.SteeringAimsFromCurrentExactly | src/internal.c:91-92 | the comment's aim, one floor from the current one, is met exactly if the car stands at its destination or the overflow at 99 and 999 (B9 and B99) makes both the same |
| Internal.SteeringMissesTheNextFloor | src/internal.c:91-92 | a failing input: standing on 1 with destination 5 |
| Internal.SteeringRefusalExactly | src/internal.c:91-92 | for up and for down, the comment's condition, service mode and closed doors, is the code's exactly unless the doors are opening or closing in service mode |
| Runs.ShownAfterExactly | src/internal.c:98-149 | after any run the car is shown moving, or open, exactly if that was shown last or nothing was shown and it was before |
| Internal.OpenActsOnAStaleLookExactly | src/internal.c:98-106 | open takes effect on a moving car exactly if the car did not move at the look and is last shown moving between the look and the edit |
| Internal.OpenActsOnAStaleLook | src/internal.c:98-106 | a failing input: the car sets off between the look and the edit |
| Internal.SteeringSees | src/internal.c:123-150 | up and down: three looks, each at the block of its own moment, and an edit at a fourth |
| Internal.SteeringActsOnStaleLooksExactly | src/internal.c:123-150 | an accepted up or down steers a moving car, one with open doors or one out of service exactly by what is last shown or written after the third, second or first look |
| Internal.SteeringActsOnAStaleLook | src/internal.c:123-150 | a failing input: the car sets off right after the last look |
| Internal.MadeIsARun | src/internal.c:113-119 | a control's edits among other processes are one run of edits and passes |
| Internal.ServiceEndsEmergencyExactly | src/internal.c:113-119 | among any other processes, service_on ends in an emergency exactly if something raises one after its second edit and nothing clears that |
| Internal.ServiceAmongPassesExactly | src/internal.c:113-119 | among safety passes it recovers the car exactly if none falls between edits 2 and 3 with the stop set, 2 and 4 with overload, 2 and 5 with disagreeing doors; and then no later pass raises one |
| Internal.StopReturnsDuringService | src/internal.c:113-119 | a failing run: one pass right after the emergency is cleared, with the stop set |
| Door.SteadfastStep | src/car.c:331-387 | the exact account of passes and the bound on accesses survive every step, whatever the others write |
| Door.ShownStep | src/car.c:328-388 | where Open and Closing cannot be shown, kept by the routine's own accesses |
| Door.OthersKeepOrder | src/car.c:419-431 | both survive the process thread's Between and Closed, safety passes and all writes of other fields |
| Door.RunIsSteadfast | src/car.c:328-388 | the account holds in every state of every interleaving |
| Door.RunIsOrderly | src/car.c:328-388 | the rest holds in every interleaving with others that show only what the process thread and the safety system show |
| Door.PathStep | src/car.c:328-388 | the statuses written so far and the routine's point fit together, kept by its own accesses |
| Door.DoorsFollowTheirOrder | src/car.c:329-386 | in every interleaving with the process thread, the controls and the safety system, the statuses written start at Opening and follow the physical order |
| Door.LeavingShowsClosed | src/car.c:375-386 | whatever the others write, the routine leaves only with the step that shows Closed |
| Door.DoorsTerminate | src/car.c:331-387 | with others that write anything at all, at most 4 + 3N passes of 7 accesses; exactly 4, plus 2 or 3 per turn-round, less 1 per cut-short phase |
| Door.DoorsMoveBetweenFloorsExactly | src/car.c:112-120 | the block shows Between exactly if the car moved at the start or was set off, and nothing has been shown since; the routine's own writes never show it |
| Door.FiringMakesReopenDue | src/safety.c:168-172 | a safety answer leaves the routine bound to show Opening |
| Door.ReopenStaysDue | src/car.c:331-387 | the bond survives every step but showing Opening and another's clearing of the open button, and each own access brings it nearer |
| Door.ReopenIsNeverLost | src/car.c:328-388 | after a safety answer the routine shows Opening before it leaves and within nine own accesses, in every interleaving in which no other process clears the open button, also while the car moves |
| DoorButtons.ButtonsDecideWhatIsShown | src/car.c:338-386 | found set while open, the close button makes Closing the next status shown, and otherwise Open is; the open button makes it Closing if open and Opening if not; nothing after the look changes that |
| DoorButtons.LooksAreActedOn | src/car.c:333-356 | a button found set is cleared by the next own access, and a status that differs is put right by it |
| DoorButtons.TurnedDoorsClearTwice | src/car.c:339-344 | doors turned round clear the open button with the next two own accesses |
| DoorButtons.NothingElseIsTouched | src/car.c:331-387 | a button is written only just after it was found set, and no other field but the status |
| DoorButtons.CountsAreTallies | src/car.c:331-387 | passes, presses, turn-rounds and cuts are how often the looks found the block so |
| DoorButtons.PassesFollowFromButtons | src/car.c:331-387 | a routine that has left made 4 passes, plus 2 and 3 for each find of the open button while closing and closed, less 1 for each cut |
| DoorRoutine.OrderlyWrites | src/car.c:419-431 | every edit of a control or of the process thread, and every safety pass, shows nothing else and clears no open button |
| DoorRoutine.StatusStage | src/car.c:333-335 | traced as one or two accesses of the protocol |
| DoorRoutine.PressedStage | src/car.c:338-349 | the answer to the open button, traced |
| DoorRoutine.OpenStage | src/car.c:337-350 | traced as accesses of the protocol |
| DoorRoutine.CloseStage | src/car.c:352-357 | traced as accesses of the protocol |
| DoorRoutine.PublishStage | src/car.c:359-386 | traced as the last access of a pass; leaves exactly at Closed |
| DoorRoutine.QuietProgress | src/car.c:331-387 | without interference a pass leaves, answers the open button or reaches a later phase |
| DoorRoutine.OperateDoor | src/car.c:328-388 | against any finite interference the routine ends, as a run of the protocol, with the doors shown closed; the run is orderly if the others are |
| DoorInputs.DoorsOpenBetweenFloors | src/car.c:112-120 | a failing run: the process thread sets the car off after the routine has looked, and the doors open |
| DoorInputs.ObstructionIsForgotten | src/car.c:338-349 | a failing run: a second routine clears the open button the safety system pressed |
| DoorInputs.OrderIsBroken | src/car.c:333-349 | a failing run: a second routine shows Closing, and this one shows Opening right after Open |
| Movement.TravelIsOneMove | src/car.c:419-433 | floor-by-floor travel on printed labels is one shaft move while the stops before the last have labels |
| Movement.RoundEndsAt | src/car.c:400-433 | a round ends at the destination, or one storey past it if it crosses the ground |
| Movement.RoundIsExactOnOneSide | src/car.c:400-433 | a round is exact if and only if it does not cross the ground |
| Movement.TwoRoundsArrive | src/car.c:397-436 | two rounds arrive from any labelled floor, and the range checks keep the destination |
| Movement.RoundEndsInRangeExactly | src/car.c:400-433 | a round ends in range exactly if the destination, or the storey past it across the ground, is in range |
| Movement.MoveInRangeStaysExactly | src/car.c:400-433 | a car in range with its destination in range ends in range exactly if it does not cross the ground, or the destination is no end of the range, or that end is 999 or B99 |
| Movement.CarLeavesItsRange | src/car.c:400-433 | a failing input: from 3 to B2 in the range B2 to 5 |
| Movement.OutOfRangeExcursion | src/car.c:400-409 | a destination out of range is visited, or overshot across the ground, and only then given up for the old floor, reached within two rounds |
| Movement.ExcursionEndsInRangeExactly | src/car.c:400-433 | with a destination out of range a round ends in range exactly if it crosses the ground to 999 or B99 and the overflow, 100 or B10, is in range |
| Movement.AimAndClamp | src/car.c:399-411 | the opening critical section |
| Movement.MoveOneFloor | src/car.c:420-432 | one floor of a move: the whole block after Between, the move and Closed, with other processes before each |
| Movement.FloorMovesUnderBetweenExactly | src/car.c:420-429 | the floor moves while Between is shown, exactly unless another process has shown something else last |
| Movement.MoveCar | src/car.c:419-433 | the movement loop travels the given difference |
| Movement.ProcessRound | src/car.c:399-435 | a whole round: the car moves exactly if it is away and its status is seen to be Closed, and then works its doors where the round ends; it works them without moving if at its destination with an answer pending; otherwise nothing changes |
| Movement.MovesNeededSuffice | src/car.c:397-436 | no move, one or two are needed and enough |
| Movement.ProcessThread | src/car.c:397-436 | over any number of rounds the car has moved as often as it saw its doors closed, up to what it needs, and is at its destination exactly then; it moves in each round if nobody else writes a status |
| Stops.FirstFit | src/controllermemory.c:81-104 | the least node the search stops at |
| Stops.BlockDirectionMeaning | src/controllermemory.c:65-100 | the loop's block direction is the car's own until the queue first changes direction, then the node's |
| Stops.CallJoinsExactly | src/controllermemory.c:81-111 | a call goes right behind the first stop that is served its way (after the first turn: its direction, before: the car's) and not past its floor, its destination left out; if there is none, both its stops go to the end |
| Stops.IdleCallJoinsExactly | src/controllermemory.c:81-104 | for an idle car only stops after the first turn take a call |
| Stops.CallBoardsExactly | src/controllermemory.c:54-79 | which calls board, and where boarding calls and calls to an empty queue go |
| Stops.CallsThatJoin | src/controllermemory.c:84-92 | inputs: a call that joins downwards, and one at the floor of a stop in each direction |
| Stops.AddedIsInsertion | src/controllermemory.c:54-113 | a call inserts one or two stops at one place and moves nothing else |
| Stops.DestinationQueuedExactly | src/controllermemory.c:54-111 | the destination is queued exactly for an empty queue or when nothing fits |
| Stops.ReversalBound | src/controllermemory.c:65-111 | joining a block adds no turn, any other call at most one, for an idle or aligned car |
| Stops.ReversalBoundNeedsDirection | src/controllermemory.c:65-93 | a failing input for a car heading against its first stop, a state the controller's idle cars never have |
| Stops.SortednessKeptExactly | src/controllermemory.c:54-111 | a call to an idle car keeps a sorted queue sorted exactly if its source is not past the stop it is put before, or behind the one it is appended to |
| Stops.JoinedIsSortedExactly | src/controllermemory.c:83-92 | for a joined call, exactly if its source is not past the next stop of the block |
| Stops.BlocksNeedNotStaySorted | src/controllermemory.c:83-92 | a failing input: a sorted queue that a joined call leaves unsorted |
| Stops.CallsWaitForTheTurnExactly | src/controllermemory.c:81-111 | an idle car is given a stop behind its whole leading run, and behind one stop more if there is a turn, exactly unless the call boards |
| Stops.TurnaroundIsNotExtended | Test/test-controller-4.c:43-46 | a failing input: on the queue this test has in mind, the code does not give the order it expects |
| Stops.StopsKeepTheirOrder | src/controllermemory.c:36-130 | over any run a queued stop keeps its value and two stops keep their order until removed |
| Stops.StopsAreConserved | src/controllermemory.c:36-130 | over any run, removed plus queued stops are the initial plus the linked-in ones |
| Stops.IdleCallLeavesLeadingRun | src/controllermemory.c:81-111 | a call to an idle car that does not board touches no stop of the leading run |
| Stops.LeadingRunIsFifo | src/controllermemory.c:36-130 | the stop at index k of the leading run goes with exactly the (k+1)-th removal, whatever calls arrive |
| Stops.LeadingStopAdvances | src/controllermemory.c:36-130 | until then it stands exactly that much nearer the head |
| Stops.HeadStaysExactly | src/controllermemory.c:36-130 | while nothing is removed the head stays the head exactly if no call boards; else the last call to board is the head |
| Stops.AddedWithin | src/controllermemory.c:36-114 | a call within range keeps the queue within range |
| StopQueue.CarQueue.constructor | src/controllermemory.c:15-19 | an initialised queue is empty and idle |
| StopQueue.CarQueue.FindPlace | src/controllermemory.c:62-104 | the search loop stops at the first fitting node, or past the end with the last node at hand |
| StopQueue.CarQueue.LinkAfter | src/controllermemory.c:88-91 | relinking one `next` pointer inserts one node and keeps the list acyclic |
| StopQueue.CarQueue.JoinBlock | src/controllermemory.c:83-92 | the source is linked in behind the node found, the destination node is dropped |
| StopQueue.CarQueue.LinkLast | src/controllermemory.c:106-111 | both nodes are linked in behind the last |
| StopQueue.CarQueue.AddByBlock | src/controllermemory.c:80-111 | the search and the relinking together |
| StopQueue.CarQueue.AddToCarQueue | src/controllermemory.c:36-114 | the edited list is the sequence function of the old one; old nodes stay, in order, around the new |
| StopQueue.CarQueue.GetNextDestination | src/controllermemory.c:118-121 | the head's floor, or -1 |
| StopQueue.CarQueue.RemoveFromCarQueue | src/controllermemory.c:124-130 | drops the head, if any |
| StopQueue.CarQueue.QueueLength | src/controller.c:115-122 | the counting loop gives the length |
| Registry.Controller.constructor | src/controllermemory.c:141-154 | an empty registry of capacity ten |
| Registry.Controller.EnsureCapacity | src/controllermemory.c:162-174 | room for the new size, contents kept, a full array doubled or cut to fit, capacity at most max(10, twice the peak size) |
| Registry.Controller.Push | src/controllermemory.c:220-225 | appends, and keeps the capacity bound |
| Registry.Controller.Pop | src/controllermemory.c:232-235 | drops the last car, if any |
| Registry.Controller.InsertAt | src/controllermemory.c:255-266 | inserts at the clamped position |
| Registry.Controller.GetNameBySocket | src/controllermemory.c:275-283 | the first car with the socket |
| Registry.Controller.GetSocketByName | src/controllermemory.c:292-306 | the first car with the name, or -1 |
| Registry.Controller.RemoveByName | src/controllermemory.c:314-325 | removes the first car with the name and closes the gap |
| Registry.Controller.ShiftDown | src/controllermemory.c:318-321 | the shifting loop removes one position |
| Registry.Controller.CopyFrom | src/controllermemory.c:195-202 | the copy holds the source's cars, also when a registry is copied onto itself |
| Registry.InsertThenRemove | src/controllermemory.c:255-325 | a fresh name is inserted at the clamped position, and removing it again is the identity |
| Registry.LookupsAreInverse | src/controllermemory.c:275-306 | with distinct names and sockets the lookups are inverse |
| Registry.HangUpRemovesItsCarExactly | src/controller.c:269-270 | a hang-up removes its own car exactly when no earlier car has the name |
| Registry.HangUpKeepsDistinct | src/controller.c:267-273 | among distinct cars nobody answers to a hung-up socket any more |
| Dispatch.ComputeBid | src/controller.c:100-123 | one car's score, or no bid |
| Dispatch.UnreadableCallIsTakenExactly | src/controller.c:100-103 | an unreadable call counts as 999 and is taken exactly by cars whose upper label is 999 or unreadable, if its destination is not below them |
| Dispatch.UnreadableCallIsTaken | src/controller.c:100-103 | an input: a call from x to 5, a car for 1 to 999 |
| Dispatch.UnreadableTopServesUpwards | src/controller.c:100-103 | a car with an unreadable upper label serves everything from its lower label up |
| Dispatch.FindBestCar | src/controller.c:93-129 | the loop finds the first car of least score below 100, or none when no eligible car scores below 100 |
| Dispatch.BestCarIsTheBest | src/controller.c:93-129 | that car is the only answer |
| Dispatch.CheapestCarIsChosen | src/controller.c:91-126 | in plain numbers: the chosen car serves both floors and costs the least, less than 100, the first of equals; none exactly if all cost 100 or more |
| Dispatch.ShorterQueueWinsExactly | src/controller.c:104-123 | of two idle cars the second is taken exactly if its storeys and twice its stops come to less |
| Dispatch.GoingTheWayIsWorthFive | src/controller.c:107-110 | a car going the call's way is taken over an idle one exactly with up to two more stops |
| Dispatch.FarCarRefusesExactly | src/controller.c:91-126 | a single car refuses exactly from a cost of 100 on |
| Dispatch.LongQueueLoses | src/controller.c:112-120 | an input: of two cars on 1 the one with two stops loses |
| Dispatch.BestWithinOneStorey | src/controller.c:104-123 | by shaft distance the chosen car is within one storey of every eligible car, and a refusal means 99 or more |
| Dispatch.ChoiceIsNearestExactly | src/controller.c:104-123 | the chosen car is the nearest by shaft distance exactly if it stands across the ground itself, or no eligible car across the ground ties with it |
| Dispatch.ChoiceCanBeOneOff | src/controller.c:104-123 | a failing input: cars on 3 and B1, a call from 1 to 2 |
| Dispatch.HandleCall | src/controller.c:83-171 | the registry and everything sent after a call |
| Dispatch.HandleReport | src/controller.c:358-403 | the registry and everything sent after a status report |
| Dispatch.UpdateCar | src/controller.c:364-401 | the fields of one car set in the code's order, and the message sent |
| Dispatch.Handle | src/controller.c:262-407 | every event: the registry after it and everything sent |
| Service.ReachableInv | src/controller.c:100-132 | in every state reached by any events, every queued stop is within its car's range |
| Service.RegistrationIsFound | src/controller.c:340-355 | a car registered under a fresh name and socket is found by both, is idle with no stop and IDLE as its last status, takes exactly the calls in its range, disturbs nobody, and its hang-up undoes it |
| Service.CallChangesOnlyTheChosen | src/controller.c:131-166 | a call changes the queue and perhaps the destination of the chosen car, and nothing else |
| Service.ReportTouchesOneCar | src/controller.c:358-403 | a report changes no identity, and no car but the first of the sender's name; an unknown sender changes nothing |
| Service.LastReportIsRemembered | src/controller.c:364-401 | over any run the statuses and the floor of a named car are those of the last report recorded in it, cut to seven and three characters |
| Service.DestinationIsRemembered | src/controller.c:135-144 | its destination is the reported one until a call sends it off |
| Service.StopsGoWhenDoorsShutExactly | src/controller.c:375-384 | over any run a car's head goes exactly with a report of Closed whose last predecessor was Closing, whatever events lie between |
| Service.MessagesAnnounceHeads | src/controller.c:131-165 | every FLOOR message of any run names the head of the chosen or reporting car, in range; it goes to that car's own connection exactly if that is the connection of the first car of its name (for a report, exactly if that car is the first on the reporter's connection); it reads back exactly unless the floor is 0 |
| Service.CallAnnounces | src/controller.c:131-165 | for a call: the head of the best car, sent to the first car of its name |
| Service.ReportAnnounces | src/controller.c:375-396 | for a report: the head of the car it is recorded in, sent to the reporter, which is that car's own connection exactly if the reporter is the first of its name |
| Service.NextStopAnnouncedExactly | src/controller.c:375-396 | when the doors have shut the head goes, and the next stop is announced exactly if there is one other than B1 |
| Service.CallAnsweredExactly | src/controller.c:317-339 | one reply per call, UNAVAILABLE exactly when no car bids; when a car is sent off at once |
| Service.CallFromB1IsNotAnnounced | src/controller.c:139-165 | a failing run from an empty registry: the stop at B1 is queued and no car is told |
| Service.CallFromFloorZeroGoesToOne | src/controller.c:139-165 | a failing run: a call from 0 sends the car to floor 1 |
| Service.RecordedDestinationReadsBack | src/controller.c:144 | the recorded destination, printed as a plain number, reads back as the stop |
| Service.NamedCarStep | src/controller.c:262-403 | any event but its own hang-up leaves a car, followed by name, registered, and acts on its queue as at most one queue operation |
| Service.ControllerRefinesStops | src/controller.c:235-411 | over any run of all four kinds of event, the queue of a car that is not hung up goes through exactly a run of queue operations |
| Service.LeadingStopsAreServedInTurn | src/controller.c:235-411 | over any such run without boarding, the leading stops are served in turn by doors-shut reports |
| Service.AnnouncedHeadStaysExactly | src/controller.c:235-411 | over any run in which a named car's doors do not shut, its head stays the head exactly if no call boards; else the last call to board is the head |
| Service.BoardingIsSilent | src/controller.c:131-166 | a boarding call on a car under way replaces the head without a message; the next doors-shut report restores the queue and announces the old head again, unless it is B1 |
| Service.BoardingDisplacesTheHead | src/controller.c:235-411 | a failing run from an empty registry: 5 is announced, a caller on 1 boards unannounced, and 5 is announced again |
| Service.OneMessageAtMost | src/controller.c:131-396 | an event sends at most one FLOOR message, about the car it concerns |
| Service.NewHeadIsToldExactly | src/controller.c:131-396 | a new head is announced exactly unless a call found the car under way or came from B1, or a report left no stop or B1 |
| Service.HeadKeptExactly | src/controller.c:235-411 | over any run of all events, while a named car is told nothing, its head stays the head exactly if no event silently replaces it |
| Service.LastMessageNamesHeadExactly | src/controller.c:235-411 | over any run, the last message about a named car names its current head exactly if no later event silently replaced it |
| Service.AcceptedCallIsNotAnnounced | src/controller.c:131-165 | a failing run: the call from 5 to 7 is answered with the car's name, and the car is told of 7 only |
| Service.AnnouncedStopIsReached | src/car.c:305-307 | in any run, the car on whose own connection a FLOOR message arrives reaches the head of its queue within two rounds |
| Framing.Pipe.Write | Test/shared.h:69 | a write takes any non-empty part |
| Framing.Pipe.Arrive | Test/shared.h:41 | while a reader waits the writing process gets on |
| Framing.Pipe.Read | Test/shared.h:41 | a read waits for something and gives any non-empty part of it up to the limit |
| Framing.HostOrderInverts | Test/shared.h:53-81 | `ntohl` inverts `htonl` byte by byte |
| Framing.NetworkOrderIsBigEndian | Test/shared.h:79-84 | the first byte counts most, and each length has one encoding |
| Framing.ParseFrame | Test/shared.h:51-84 | a message is read back exactly when it is shorter than 2^32; a longer one is cut and the rest taken for the next frame |
| Framing.FramesAreUniquelyReadable | Test/shared.h:79-84 | a stream is the frames of one list of messages only |
| Framing.DecodedSoFar | Test/shared.h:35-61 | any first part of a stream decodes to a first part of the messages |
| Framing.EveryInterleavingDelivers | Test/shared.h:35-84 | however partial writes and reads interleave, the receiver has a first part of the messages, and all once nothing is left |
| Framing.SendLooped | Test/shared.h:63-77 | however writes are cut, all bytes go out in order |
| Framing.SendMessage | Test/shared.h:79-84 | sends one frame |
| Framing.RecvLooped | Test/shared.h:35-49 | however reads are cut and however much is written by then, the buffer fills with the next bytes |
| Framing.ReceiveMsg | Test/shared.h:51-61 | receives one message, NUL-terminated, while it may still be on its way |
| Framing.SendAll | Test/shared.h:79-84 | a list of messages goes out as its frames |
| Framing.ReceiveAll | Test/shared.h:51-61 | every list of messages arrives unchanged and in order, while the sender still writes |
| Histogram.BinsTile | Test/test-sched.c:202-209 | the bins tile the range from least to greatest value |
| Histogram.EdgeExactly | Test/test-sched.c:204-205 | bin i starts at the i-th equal part of the range, rounded down |
| Histogram.BinsAreEven | Test/test-sched.c:204-205 | no bin differs from an equal share by a whole unit |
| Histogram.ExactlyOneBin | Test/test-sched.c:211-216 | each value is in one bin only |
| Histogram.CountsSumToAll | Test/test-sched.c:211-216 | the counts sum to the number of passengers |
| Histogram.Extremes | Test/test-sched.c:185-197 | the loop finds the extremes |
| Histogram.CountValue | Test/test-sched.c:213-216 | one value raises the count of its bin alone |
| Histogram.BuildHistogram | Test/test-sched.c:182-216 | bins, extremes and counts together |

## Left out

- The thread stop signal, and two door routines as one system: a second routine is among the others that may write anything to the block; that both of them are such routines is not used.
- Sockets, `select`, shared-memory mapping, thread creation and signal handlers: events, outputs and atomic steps stand for them.
- Real time: waits are points at which other processes may act.
- Linked lists inside registry records: a record carries its queue as a sequence. `StopQueue` proves the list of one car; that lists of different cars share no node, and what copying a record does to list ownership, is not modelled.
- Freeing nodes and registries, allocation failure, integer overflow.
- Parsing of whole message texts: events carry the tokens `sscanf` has cut, of at most the widths it allows.
- Clients that send a zero length, an oversized length or nothing after a length; hang-ups skipped because of a stale `errno`.
- Framing.Pipe.Read: is stated for a stream on which something is still to come; at the end of a stream `read` returns 0.
- Framing.RecvLooped: is stated for a stream that will hold the bytes asked for; if it ends early, the source loops for ever.
- Framing.ReceiveMsg: likewise, for a stream that will hold the message; and for a text of exactly 2^32 - 1 bytes it does not model that the source's buffer size, a 32-bit sum, wraps to 0.
- DoorRoutine.OperateDoor: meets finitely many actions of others, of any kind; that every interleaving has bounded passes per press is `Door.DoorsTerminate`.
- Movement.ProcessThread: the others write no floor, as the result needs (the TCP thread's writes between rounds start a new instance); they may write statuses and buttons.
- Histogram.BuildHistogram: needs a passenger and a positive bin count; with neither the source declares an array of no elements.
- `src/call.c`, `controller_print`, `print_shared_memory`, `controller_get`, argument checks, `Test/display-cars.c`, the SVG output and the timing-based test drivers: no hard property.
