# Verified model of the NVMain timing simulator and two gem5 checkpoint/trace tools

NVMain simulates a memory in time: an event queue drives a memory controller, which drives banks
and subarrays. This project models that path in Dafny, together with the address translation, the
Flip-N-Write encoder and the row-buffer cache that sit beside it, and two gem5 utilities: the
checkpoint upgrader and the framing of protobuf messages. `dafny verify dfyconfig.toml` checks
everything.

## How it is organised

Every part has two layers. A value layer holds functions and the theorems about them; an object
layer holds classes and methods that update fields and arrays step by step as the source does, and
whose postconditions equate the new state with the value layer.

| part | value layer | object layer |
|---|---|---|
| event queue, several clock domains | `EventQueue.dfy`, `GlobalEventQueue.dfy` (`ClockRatios`) | `EventKernel.dfy`, `GlobalEventQueue.dfy` (`GlobalQueues`) |
| memory controller | `RowShadow.dfy`, `RoundRobin.dfy`, `RefreshGroups.dfy`, `ControllerConfig.dfy`, `CleanupOrder.dfy` | `MemoryController.dfy` |
| subarray and bank timing | `SubArrayTiming.dfy`, `BankTiming.dfy`, `BankSeparation.dfy`, `RefreshPowerDown.dfy`, `RowAccess.dfy`, `Acceptance.dfy`, `BankProjection.dfy`, `BankAcceptance.dfy` | `Device.dfy` |
| controller and bank together | `QueueProgress.dfy` | |
| write pausing | `WritePausing.dfy`, `PausingRuns.dfy` | `PausableSubArray.dfy` |
| address translation | `AddressMap.dfy`, `AddressFields.dfy` | `AddressTranslator.dfy` |
| Flip-N-Write | `FlipNWrite.dfy`, `FlipNWriteCharge.dfy` | `FlipNWriteEncoder.dfy` |
| row-buffer cache | `RowCache.dfy` | `CachedBank.dfy` |
| checkpoint upgrader | `CheckpointUpgrader.dfy` | `CheckpointUpgrader.dfy` |
| message framing | `MessageFraming.dfy` (`MessageFraming`) | `MessageFraming.dfy` (`MessageFiles`) |

Code outside a part is a parameter, never fixed: event handlers are an arbitrary function of an
arbitrary world (`System`), the memory behind the controller is an arbitrary predicate on commands,
the scheduler is any caller of the searches, the order of a Python set is any order.

## What was found

These promises turned out not to hold of the code. Each has a failing input and the exact condition
under which it does hold.

- An event that a handler inserts into the running cycle in front of the running event is erased
  without being run (`EventQueues.InsertedInFrontIsLost`). A cycle runs its whole list if and only if
  no handler does that (`EventQueues.RunsWholeList`); for handlers that store the priorities they
  insert with, every sorted cycle is run whole if and only if no handler inserts into its own cycle
  with a priority below that of its event (`EventQueues.PoliteIff`).
- `InsertEvent` by type stores the default priority whatever priority it is inserted with, which can
  leave a list unsorted (`EventQueues.StoredPriorityUnsorts`). It stays sorted if and only if the
  stored priority fits the insertion point (`EventQueues.InsertSorted`).
- The assertion that a group's `refreshQueued` flag is set when its REFRESH is issued can fail
  (`RefreshGroups.LateRefreshFails`). It holds throughout a history if and only if no REFRESH is
  queued while an earlier one of the group waits (`RefreshGroups.AssertionHoldsIff`); it fails as
  often as one is queued while the flag is set (`RefreshGroups.HistoryBalanced`).
- A read or write with implicit precharge can shorten the row cycle (`SubArrayTiming.ShortRowCycle`).
  All activations keep the row cycle time in all runs if and only if the parameters make the implicit
  precharge wait long enough (`SubArrayTiming.RowCycleSafeIff`).
- A write with implicit precharge replaces the bank's power-down limit where every other command
  raises it, so a bank can power down during a refresh
  (`RefreshPowerDown.PowerDownDuringRefresh`). No run of a bank does so if and only if it has a
  single subarray or the shortest such write keeps the bank up for tRFC
  (`RefreshPowerDown.PowerDownSafeIff`).
- Inverting a range of bits loses bits unless the range is made of whole bytes
  (`FlipNWriteData.InvertLoses`): inverting twice restores every word if and only if it is
  (`FlipNWriteData.InvertInvolutiveIff`). The inversion also reverses the bits of each byte.
- For that reason the flipped bits that Flip-N-Write counts are not the cells that change: writing 0xF8
  over 0x07 is charged nothing and changes six cells (`FlipNWriteCharge.ChargeMissesCells`). The charge
  of a word is the number of cells that change, whatever was stored, if and only if each of its bytes
  reads the same from both ends (`FlipNWriteCharge.ChargedExactlyIff`).
- The row-buffer cache evicts what its comment calls the least recently used row, but a row that is
  bound to the last buffer stays there until it is used, and is evicted next
  (`RowCache.EvictsTheNewest`). An eviction takes the row least recently allocated or used if and only
  if the last buffer was used since it was bound, or every other one was used since then
  (`RowCache.EvictionIsLeastRecentIff`).
- A mapping scheme is accepted whatever its tokens are, but an unknown or repeated one uses up an
  order. The order is a permutation if and only if the first six tokens are known and distinct
  and any later ones are unknown (`AddressMap.SchemeIsPermutation`).
- With `WritePausing` set, a read or an activation with priority is meant to interrupt a write. With
  precharge it can do so in some run if and only if tCCD exceeds tBURST + tWTR or
  tAL + tBURST + tWR + tRP (`PausingRuns.NeverInterruptsIff`); without precharge it always can
  (`PausingRuns.InterruptsWithoutPrecharge`).
- A varint is decoded to the number that was encoded if and only if that is below 2^32; an empty
  message ends the decoding (`MessageFraming.VarintRoundTrip`, `MessageFraming.FramingRoundTrip`).

The source also asks or leaves open:

- whether `IsIssuable` can be totally trusted. It can, in every reachable state of a bank
  (`BankTiming.RunTrusted`), and also, with and without precharge, when a write is interrupted between
  the test and the command (`PausingRuns.PausingIsTrusted`).
- what a bank accepts, in terms of commands alone: exactly what is far enough from every accepted
  command, at the bank and at the subarray, while the bank is up and the row needed is open or none is
  (`BankAcceptance.AcceptedIff`, `Acceptance.AcceptedIff`).
- whether a command can wait for ever, for which the controller has a deadlock timer. Every head of a
  queue is issuable to its bank from a fixed time after the last command on
  (`QueueProgress.HeadsBecomeIssuable`).
- whether the loop over missing checkpoint upgrades can abort. For all checkpoints it completes if
  and only if the dependencies have no cycle (`CheckpointUpgrader.AcyclicIff`).
- what a `curQueue` that runs over one more value than there are queues does to waiting: it stays
  bounded by the number of queues (`RoundRobin.BoundedWaiting`).

## Model

| member | source | states |
|---|---|---|
| `EventQueues.DoKeepsValid` | Simulator/Extras/NVmain/src/EventQueue.cpp:137-238 | every insertion and removal that does not touch the past keeps `nextEventCycle` the least key of the map, or the maximum when nothing is pending |
| `EventQueues.FastRefinesSlow` | Simulator/Extras/NVmain/src/EventQueue.cpp:312-356 | for all n, Loop(n) ends in the same state, with the same events run in the same order, as n calls of Loop() followed by Loop(0) |
| `EventQueues.AdvanceComposes` | Simulator/Extras/NVmain/src/EventQueue.cpp:327-356 | advancing to t and then to u is advancing to u |
| `EventQueues.AdvanceFromAnyClock` | Simulator/Extras/NVmain/src/EventQueue.cpp:327-356 | where the clock stands before the next event does not change what a jump does |
| `EventQueues.AdvanceIsChronological` | Simulator/Extras/NVmain/src/EventQueue.cpp:327-418 | events run in time order, each within the interval advanced over, and none that is due is left |
| `EventQueues.ElapsedTimes` | Simulator/Extras/NVmain/src/EventQueue.cpp:358-418 | over every advance each handler is given its cycle minus the last earlier cycle in which an event was run, and `lastEventCycle` ends as the cycle of the last event run |
| `EventQueues.HandlersSeeTheTrace` | Simulator/Extras/NVmain/src/EventQueue.cpp:366-404 | for every system whose handlers write down what they are given, the trace is exactly that: event, cycle and elapsed time, in the order of the calls |
| `EventQueues.RunsWholeList` | Simulator/Extras/NVmain/src/EventQueue.cpp:358-418 | a cycle runs every event its list ever holds, once and in list order, if and only if no handler inserts in front of the running event |
| `EventQueues.InsertedInFrontIsLost` | Simulator/Extras/NVmain/src/EventQueue.cpp:358-418 | a system and a cycle in which an event inserted in front of the running one is erased and never run |
| `EventQueues.InFrontIff` | Simulator/Extras/NVmain/src/EventQueue.cpp:137-179 | on a sorted list an insertion into the running cycle goes in front if and only if its priority is below the running event's |
| `EventQueues.PoliteIff` | Simulator/Extras/NVmain/src/EventQueue.cpp:358-418 | every sorted cycle is run whole if and only if no handler inserts into its own cycle with a priority below that of its event |
| `EventQueues.LaterHandlersRunTheList` | Simulator/Extras/NVmain/src/EventQueue.cpp:358-418 | handlers that schedule strictly later cycles leave the running list alone, and exactly it is run |
| `EventQueues.InsertSorted` | Simulator/Extras/NVmain/src/EventQueue.cpp:102-179 | a sorted list stays sorted if and only if the stored priority fits the insertion point |
| `EventQueues.StoredPriorityUnsorts` | Simulator/Extras/NVmain/src/MemoryController.cpp:1701-1710 | the transaction wake-up, inserted with priority 30 and storing 0, goes behind a refresh callback of priority 20 |
| `EventQueues.CallbackIsStable` | Simulator/Extras/NVmain/src/EventQueue.cpp:182-195 | a callback keeps the list sorted and goes behind all events of its priority and before all later ones |
| `EventQueues.FrontBlockKept` | Simulator/Extras/NVmain/src/EventQueue.cpp:137-195 | events of the lowest priority stay in front whatever else is inserted |
| `EventQueues.RemovedIs` | Simulator/Extras/NVmain/src/EventQueue.cpp:198-238 | removal takes out the first occurrence of the event and leaves all others in their order |
| `EventKernel.EventQueue.InsertEvent` | Simulator/Extras/NVmain/src/EventQueue.cpp:137-179 | the list walk implements the insertion point, and nothing else of the queue changes |
| `EventKernel.EventQueue.InsertCallback` | Simulator/Extras/NVmain/src/EventQueue.cpp:182-195 | the callback is inserted with the priority it stores |
| `EventKernel.EventQueue.RemoveEvent` | Simulator/Extras/NVmain/src/EventQueue.cpp:198-238 | exactly the first occurrence of the event goes, an emptied list goes with it, the next cycle is recomputed; the result says whether it was there |
| `EventKernel.EventQueue.Process` | Simulator/Extras/NVmain/src/EventQueue.cpp:358-418 | refines the account of one cycle: all events run with the elapsed time since the last cycle with events, the list dropped, that cycle remembered, the next cycle found |
| `EventKernel.EventQueue.RunEvent` | Simulator/Extras/NVmain/src/EventQueue.cpp:366-404 | running one event leaves the outcome of the cycle unchanged and lowers the termination measure |
| `EventKernel.EventQueue.Loop` | Simulator/Extras/NVmain/src/EventQueue.cpp:312-325 | one cycle of single-stepping |
| `EventKernel.EventQueue.LoopSteps` | Simulator/Extras/NVmain/src/EventQueue.cpp:327-356 | the jumping loop reaches exactly the state of advancing to current + steps, and terminates by (steps left, event pending now) |
| `ClockRatios.RatioIsSound` | Simulator/Extras/NVmain/src/EventQueue.cpp:476-570 | every ratio of frequencies of at least 1 converts monotonically between local and global cycles, and there and back never overtakes |
| `ClockRatios.ConversionsRoundDown` | Simulator/Extras/NVmain/src/EventQueue.cpp:476-570 | local * F <= global * f < (local + 1) * F for the local cycle of a global one, and the mirror image for the global cycle of a local one |
| `ClockRatios.ClockSkew` | Simulator/Extras/NVmain/src/EventQueue.cpp:476-570 | what being level means in the two frequencies alone: the local cycle has come and the next has not |
| `GlobalQueues.GlobalEventQueue.constructor` | Simulator/Extras/NVmain/src/EventQueue.cpp:446-474 | queues no faster than the global frequency start level with it |
| `GlobalQueues.GlobalEventQueue.GetNextEvent` | Simulator/Extras/NVmain/src/EventQueue.cpp:520-549 | the earliest pending event in global time and its queue, or none; by products of cycles and frequencies its time is at or before that of every pending event |
| `GlobalQueues.GlobalEventQueue.Sync` | Simulator/Extras/NVmain/src/EventQueue.cpp:556-572 | every queue is brought up to the global clock and no further: (local + 1) * frequency > global * its frequency for every queue |
| `GlobalQueues.GlobalEventQueue.Cycle` | Simulator/Extras/NVmain/src/EventQueue.cpp:476-508 | the global clock advances by exactly the steps; by products of cycles and frequencies no queue is behind or ahead of it, and none has an event due; each is where it would be had it run alone up to its clock; the loop terminates |
| `GlobalQueues.SlackDecreases` | Simulator/Extras/NVmain/src/EventQueue.cpp:476-508 | the termination measure: running a pending event lowers the sum of the cycles the queues have left |
| `GlobalQueues.SyncedFacts` | Simulator/Extras/NVmain/src/EventQueue.cpp:556-572 | syncing keeps all queues in order, levels the clocks, and runs nothing where nothing is due |
| `GlobalQueues.JumpFacts` | Simulator/Extras/NVmain/src/EventQueue.cpp:476-508 | running the next event of one queue and moving the global clock keeps all queues in order |
| `RowShadow.IssueSimulates` | Simulator/Extras/NVmain/src/MemoryController.cpp:1523-1637 | expanding a transaction keeps the shadow equal to the replay of the unissued commands on the device, which stays legal |
| `RowShadow.CloseAllSimulates` | Simulator/Extras/NVmain/src/MemoryController.cpp:668-698 | closing a bank for a refresh keeps it |
| `RowShadow.PushRefreshSimulates` | Simulator/Extras/NVmain/src/MemoryController.cpp:700-704 | queueing the REFRESH behind it keeps it: the bank is closed when it is reached |
| `RowShadow.IssueHeadSimulates` | Simulator/Extras/NVmain/src/MemoryController.cpp:1658-1716 | the device accepts the head of every queue, and issuing it keeps the simulation |
| `RowShadow.CleanupSimulates` | Simulator/Extras/NVmain/src/MemoryController.cpp:292-304 | removing issued commands keeps it |
| `RowShadow.TakeSimulates` | Simulator/Extras/NVmain/src/MemoryController.cpp:1476-1716 | every step of the controller on a bank keeps it and is legal for the device |
| `RowShadow.RunSimulates` | Simulator/Extras/NVmain/src/MemoryController.cpp:651-741 | in every state of every run, whatever the scheduler and the refresh timer do, the shadow is the replay of the unissued commands, `activateQueued` tells whether a subarray is active, and no enabled step is illegal |
| `RowShadow.IssueCarriesOnce` | Simulator/Extras/NVmain/src/MemoryController.cpp:1523-1646 | a transaction is accepted if and only if the queue is empty or it hits the effective row; accepted it lands once, last in the queue, as the commands it needs: write for write and read for read, behind an ACTIVATE of its row unless it hits, behind a PRECHARGE if another row is open, closing the row when it is the last one; the shadow follows; refused nothing changes |
| `RowShadow.RunServes` | Simulator/Extras/NVmain/src/MemoryController.cpp:1523-1637 | in every state of every run each queued command that carries a transaction writes if and only if it does, goes to its subarray and row, and precharges only after the last one of the row; no other command accesses data |
| `RowShadow.RestrictedClosePage` | Simulator/Extras/NVmain/src/MemoryController.cpp:1523-1560 | when every transaction is the last of its row, no bank is ever left active |
| `RoundRobin.QueueIdBijective` | Simulator/Extras/NVmain/src/MemoryController.cpp:1754-1783 | queue numbers and (rank, bank) pairs correspond one to one for both schemes |
| `RoundRobin.NextQueue` | Simulator/Extras/NVmain/src/MemoryController.cpp:1754-1783 | scheme 1 numbers the ranks of a bank in a row, scheme 2 the banks of a rank |
| `RoundRobin.ScanVisitsAll` | Simulator/Extras/NVmain/src/MemoryController.cpp:1658-1666 | a scan visits every queue exactly once |
| `RoundRobin.PickComplete` | Simulator/Extras/NVmain/src/MemoryController.cpp:1658-1716 | nothing is issued if and only if no head is issuable |
| `RoundRobin.ServedInTime` | Simulator/Extras/NVmain/src/MemoryController.cpp:1658-1716 | a queue that stays issuable is served within its distance from the scan start |
| `RoundRobin.BoundedWaiting` | Simulator/Extras/NVmain/src/MemoryController.cpp:1862-1873 | it sees at most as many commands of other queues as there are queues |
| `RoundRobin.MovesRound` | Simulator/Extras/NVmain/src/MemoryController.cpp:1862-1873 | the scan start runs through one more value than there are queues, in turn |
| `RefreshGroups.HistoryBalanced` | Simulator/Extras/NVmain/src/MemoryController.cpp:613-645 | over every history of a group, pulses = delayed + waiting + issued, and the flag assertion has failed as often as a REFRESH was queued while the flag was set, once nothing is waiting |
| `RefreshGroups.AssertionHoldsIff` | Simulator/Extras/NVmain/src/MemoryController.cpp:613-645 | from and to no REFRESH waiting, the assertion holds throughout if and only if none is queued while an earlier one waits, and fails at most as often as one is |
| `RefreshGroups.LateRefreshFails` | Simulator/Extras/NVmain/src/MemoryController.cpp:613-625 | a history in which the assertion fails |
| `RefreshGroups.ScanGroup` | Simulator/Extras/NVmain/src/MemoryController.cpp:653-660 | the bank numbers of the refresh scan are the heads of the groups in round-robin order |
| `RefreshGroups.PulseCycleIs` | Simulator/Extras/NVmain/src/MemoryController.cpp:747-764 | the cycle of the m-th pulse, from the first insertion and the re-insertion an interval later by every pulse |
| `RefreshGroups.PulsesNeverCollide` | Simulator/Extras/NVmain/src/MemoryController.cpp:514-549 | pulses of different groups never share a cycle when the slice is at least 1 |
| `RefreshGroups.WindowCoverage` | Simulator/Extras/NVmain/src/MemoryController.cpp:514-549 | every window of tREFW cycles after start-up holds at least ROWS/RefreshRows pulses of each group |
| `RefreshGroups.IssueWaiting` | Simulator/Extras/NVmain/src/MemoryController.cpp:1523-1637 | expanding a transaction changes no number of waiting REFRESH commands |
| `ControllerConfig.Locate` | Simulator/Extras/NVmain/src/MemoryController.cpp:1754-1783 | the queue number of a bank identifies it, and every number below the queue count belongs to a bank |
| `Controllers.EligibleIsAccepted` | Simulator/Extras/NVmain/src/MemoryController.cpp:1098-1159 | a transaction that any search may return is accepted, lands as the commands it needs, and is the only one its queue then carries |
| `Controllers.SearchServes` | Simulator/Extras/NVmain/src/MemoryController.cpp:1098-1464 | a search wants a transaction if and only if its expansion is of the kind searched for: a lone access for a row hit; an ACTIVATE in an active bank whose row was hit too often for a starved one; an active bank for the oldest ready one; a closed bank for a closed one |
| `Controllers.MemoryController.constructor` | Simulator/Extras/NVmain/src/MemoryController.cpp:400-549 | the initial controller satisfies all invariants |
| `Controllers.MemoryController.FindRequest` | Simulator/Extras/NVmain/src/MemoryController.cpp:1295-1464 | the first transaction whose bank has an empty queue and no refresh due or queued, that arrived earlier and whose expansion is of the kind searched for, is taken out, and none is found only if there is none; the rest keep contents and order; it is marked as the last of its row if and only if the close-page policy says so and no transaction left behind wants the row |
| `Controllers.MemoryController.Schedule` | Simulator/Extras/NVmain/src/MemoryController.cpp:1098-1464 | a transaction that leaves the transaction queue lands exactly once, in the queue of its own bank, as the commands it needs; every other queue is untouched; a callback comes in time for the head of every queue |
| `Controllers.MemoryController.Expand` | Simulator/Extras/NVmain/src/MemoryController.cpp:1523-1637 | the branches that update the arrays in place implement the expansion |
| `Controllers.MemoryController.IssueMemoryCommands` | Simulator/Extras/NVmain/src/MemoryController.cpp:1523-1646 | one bank changes, as the expansion says: the transaction lands as the commands it needs; all invariants hold afterwards; a callback is scheduled, once, in time for the head of every queue |
| `Controllers.MemoryController.HandleRefresh` | Simulator/Extras/NVmain/src/MemoryController.cpp:651-741 | either no group is due and nothing changes, or a due group's counter drops and the cycle is marked as one that issues nothing; then a callback comes in time for the head of every queue, and no due group with empty queues is left unless a command was issued in this cycle; the recursion through the wake-up logic terminates from every state by the sum of the counters |
| `Controllers.MemoryController.FindNeed` | Simulator/Extras/NVmain/src/MemoryController.cpp:651-662 | the scan finds the first group at the threshold in round-robin order over ranks and groups, or there is none at all |
| `Controllers.MemoryController.TakeRefresh` | Simulator/Extras/NVmain/src/MemoryController.cpp:662-719 | all banks of the group are closed and flagged, its first bank gets the REFRESH, one pulse moves from the counter to the queue |
| `Controllers.MemoryController.QueueRefresh` | Simulator/Extras/NVmain/src/MemoryController.cpp:665-704 | exactly the banks of the group change |
| `Controllers.MemoryController.ScheduleCommandWake` | Simulator/Extras/NVmain/src/MemoryController.cpp:231-247 | afterwards a callback is scheduled, later than now and no later than the memory names for the head of every queue, and no cycle is scheduled twice; when no refresh is due, the wake-up is the least of those cycles and nothing else changes |
| `Controllers.MemoryController.NextIssuable` | Simulator/Extras/NVmain/src/MemoryController.cpp:1788-1823 | when no refresh is due, the least cycle the memory names for a head, or the next cycle if that has passed, or never if there is none; in any case that cycle or a scheduled callback comes in time for every head, and a due refresh whose queues are empty is handled, or the next cycle is returned when a command was issued in this one; the mutual recursion into the refresh handling terminates |
| `Controllers.MemoryController.ProcessRefreshPulse` | Simulator/Extras/NVmain/src/MemoryController.cpp:747-764 | one pulse is booked for its group, the flags follow the threshold, and the next pulse is inserted an interval later |
| `Controllers.MemoryController.RefreshCallback` | Simulator/Extras/NVmain/src/MemoryController.cpp:277-290 | afterwards every counter is below the threshold and every `bankNeedRefresh` flag is clear; exactly one pulse was booked and its successor inserted; if a queue changed, a callback comes in time for every head |
| `Controllers.MemoryController.ResetRefreshQueued` | Simulator/Extras/NVmain/src/MemoryController.cpp:613-625 | the flags of the bank's group are cleared and no others |
| `Controllers.MemoryController.IsRefreshBankQueueEmpty` | Simulator/Extras/NVmain/src/MemoryController.cpp:770-785 | true if and only if every queue of the group is effectively empty, which is to say empty once the issued commands are removed |
| `Controllers.MemoryController.CycleCommandQueues` | Simulator/Extras/NVmain/src/MemoryController.cpp:1648-1740 | at most one command per cycle, the first issuable head in round-robin order, none after a refresh was handled; the memory takes the head that is issued, which was never issued before; none is issued only if the cycle is blocked or the memory takes no head of any queue; the cleanup is inserted for the next cycle, and the transaction wake-up when the queue becomes empty and has a transaction |
| `Controllers.MemoryController.PickQueue` | Simulator/Extras/NVmain/src/MemoryController.cpp:1648-1668 | the scan stops at the first queue whose head the memory takes, and finds none only if there is none |
| `Controllers.MemoryController.CommandQueueCallback` | Simulator/Extras/NVmain/src/MemoryController.cpp:249-275 | the class's own callback satisfies `CleanupOrder.Callback`, with an issued head as the stale one; the least cycle the memory names for a head is scheduled |
| `Controllers.MemoryController.IssueFrom` | Simulator/Extras/NVmain/src/MemoryController.cpp:1668-1716 | exactly one head is marked and goes to the device; a REFRESH clears its group's flags |
| `Controllers.MemoryController.CleanupCallback` | Simulator/Extras/NVmain/src/MemoryController.cpp:292-304 | exactly the issued commands are removed, and none is left; it satisfies `CleanupOrder.Callback` |
| `CleanupOrder.NeverIssuedTwice` | Simulator/Extras/NVmain/src/MemoryController.cpp:1648-1716 | in every run of advances and of insertions, removals and arrivals between them, with any number of controllers on the event queue, no command is issued while an issued one heads its queue |
| `CleanupOrder.StaleMeansCleanup` | Simulator/Extras/NVmain/src/MemoryController.cpp:1648-1665 | when an event that is no cleanup runs while an issued command heads its queue, that command was issued in this very cycle, which is what `CycleCommandQueues` needs |
| `CleanupOrder.DoGood` | Simulator/Extras/NVmain/src/EventQueue.cpp:137-238 | every action of a running callback keeps the cleanup in front and still to come |
| `SubArrayTiming.TimingSafety` | Simulator/Extras/NVmain/src/SubArray.cpp:275-795 | any two accepted commands of a run, adjacent or not, are separated by the interval of their pair |
| `SubArrayTiming.MeetsParameters` | Simulator/Extras/NVmain/src/SubArray.cpp:275-795 | the same in the parameters of the memory: tRCD and tRAS to a precharge, tRP and tRFC to an activation, tBURST and tCCD for every burst, tWTR, tWR and tRTP after data |
| `SubArrayTiming.EarliestAfter` | Simulator/Extras/NVmain/src/SubArray.cpp:275-795 | the constraint an accepted command sets holds in all later states |
| `SubArrayTiming.RowCycleTime` | Simulator/Extras/NVmain/src/SubArray.cpp:275-356 | activations are max(tRCD,tRAS) + max(1,tRP) apart without implicit precharges |
| `SubArrayTiming.ShortRowCycle` | Simulator/Extras/NVmain/src/SubArray.cpp:395-413 | for all parameters that do not make an implicit precharge wait, a run that breaks the row cycle time |
| `SubArrayTiming.RowCycleSafeIff` | Simulator/Extras/NVmain/src/SubArray.cpp:395-436 | the row cycle time holds in all runs if and only if the parameters make it wait |
| `BankTiming.IssuableIsTrusted` | Simulator/Extras/NVmain/Banks/DDR3Bank/DDR3Bank.cpp:714-923 | a command succeeds at bank and subarrays if and only if it is issuable, and the invariant of the active list holds afterwards |
| `BankTiming.RunTrusted` | Simulator/Extras/NVmain/Banks/DDR3Bank/DDR3Bank.cpp:217-923 | the same in every state of every run: the list is free of duplicates, holds exactly the open subarrays with no implicit precharge pending, and is nonempty if and only if the bank is open or in active power-down |
| `BankTiming.CloseListedFacts` | Simulator/Extras/NVmain/Banks/DDR3Bank/DDR3Bank.cpp:543-655 | precharging all listed subarrays succeeds and releases exactly those |
| `RowAccess.AccessIff` | Simulator/Extras/NVmain/src/SubArray.cpp:1114-1178 | in every run of a subarray a read or write is accepted if and only if its time has come and an accepted activation opened its row with no activation, precharge, refresh or implicit precharge accepted since |
| `RowAccess.AccessOpened` | Simulator/Extras/NVmain/Banks/DDR3Bank/DDR3Bank.cpp:370-541 | in every run of a bank an accepted read or write goes to the row that an accepted activation opened in its subarray, with no PRECHARGE_ALL accepted since either |
| `RowAccess.OpenedIsAccessible` | Simulator/Extras/NVmain/Banks/DDR3Bank/DDR3Bank.cpp:370-541 | and every row so opened can be accessed as soon as the limits of bank and subarray allow, while the bank is awake |
| `Acceptance.LimitIsApart` | Simulator/Extras/NVmain/src/SubArray.cpp:275-795 | a limit has passed if and only if every accepted command is its interval back: limits are no looser and no stricter than the intervals |
| `Acceptance.AcceptedIff` | Simulator/Extras/NVmain/src/SubArray.cpp:1114-1220 | a subarray accepts a command if and only if every accepted command is its interval back and the command finds what it needs: its own row open, no row open, or for a precharge either a row open or the subarray ready for an activation |
| `BankProjection.SubarrayRuns` | Simulator/Extras/NVmain/Banks/DDR3Bank/DDR3Bank.cpp:314-697 | in every run of a bank each subarray goes through a run of its own, of the commands the bank passes on, all of which it accepts |
| `BankProjection.SubarraysKeepApart` | Simulator/Extras/NVmain/Banks/DDR3Bank/DDR3Bank.cpp:314-697 | so two accepted commands that reach the same subarray, PRECHARGE_ALL among them, are separated by the subarray's interval for the pair |
| `BankAcceptance.LimitIsApart` | Simulator/Extras/NVmain/Banks/DDR3Bank/DDR3Bank.cpp:217-697 | a limit of the bank other than that of powering down has passed if and only if every accepted command is its interval back |
| `BankAcceptance.AcceptedIff` | Simulator/Extras/NVmain/Banks/DDR3Bank/DDR3Bank.cpp:714-923 | a bank accepts a command to a subarray if and only if the last power command did not power it down, every accepted command is its interval back at bank and subarray, and the command finds what it needs |
| `BankAcceptance.PowerUpIff` | Simulator/Extras/NVmain/Banks/DDR3Bank/DDR3Bank.cpp:267-312 | powering up is accepted if and only if the bank is down and has been for tPD |
| `BankSeparation.BankTimingSafety` | Simulator/Extras/NVmain/Banks/DDR3Bank/DDR3Bank.cpp:217-697 | any two accepted commands of a bank, adjacent or not and to any subarrays, power-down and power-up included, are separated by the interval of their pair; for powering down, unless a write with implicit precharge is accepted in between |
| `BankSeparation.PowerDownIsQuiet` | Simulator/Extras/NVmain/Banks/DDR3Bank/DDR3Bank.cpp:217-312 | after powering down, nothing but powering up is accepted before tPD and the exit time have passed, in all runs |
| `BankSeparation.LimitKept` | Simulator/Extras/NVmain/Banks/DDR3Bank/DDR3Bank.cpp:370-541 | no command lowers a limit of the bank, except the power-down limit by a write with implicit precharge |
| `BankSeparation.PowerDownAfterRefresh` | Simulator/Extras/NVmain/Banks/DDR3Bank/DDR3Bank.cpp:454-541 | powering down waits for a refresh unless a write with implicit precharge is accepted in between |
| `BankSeparation.PowerDownWaitsForWork` | Simulator/Extras/NVmain/Banks/DDR3Bank/DDR3Bank.cpp:800-846 | powering down waits for the work of every command to every subarray: the row restored, the read data on the bus, the write restored and precharged |
| `BankSeparation.PowerDownWaitsForWrites` | Simulator/Extras/NVmain/src/SubArray.cpp:644-650 | and for the cells of the last write to every subarray to be programmed |
| `BankSeparation.PowerUpRestores` | Simulator/Extras/NVmain/Banks/DDR3Bank/DDR3Bank.cpp:217-312 | after powering down and up the bank is open if and only if it was, and reads wait for exactly the exit time of the mode asked for |
| `RowAccess.ReadWaitsForMode` | Simulator/Extras/NVmain/Banks/DDR3Bank/DDR3Bank.cpp:217-312 | told by the commands alone: with no row open, a read after a slow-exit power-down waits tXPDLL after powering up; with fast exit or a row open it waits tXP, and no longer |
| `RefreshPowerDown.PowerDownSafeIff` | Simulator/Extras/NVmain/Banks/DDR3Bank/DDR3Bank.cpp:454-541 | in no run does a bank of n subarrays power down before an accepted refresh is over if and only if n < 2 or the shortest write with implicit precharge keeps it up for tRFC |
| `RefreshPowerDown.PowerDownDuringRefresh` | Simulator/Extras/NVmain/Banks/DDR3Bank/DDR3Bank.cpp:454-541 | for all other parameters, a run in which it does |
| `RefreshPowerDown.WriteDoneKept` | Simulator/Extras/NVmain/src/SubArray.cpp:644-650 | a write in progress is only followed by one that ends at least its own time after its start |
| `Devices.SubArray.IssueCommand` | Simulator/Extras/NVmain/src/SubArray.cpp:1223-1269 | the object implements the timing automaton: accepted if and only if issuable |
| `Devices.SubArray.Activate` | Simulator/Extras/NVmain/src/SubArray.cpp:275-356 | the fields after an activation |
| `Devices.SubArray.Read` | Simulator/Extras/NVmain/src/SubArray.cpp:361-500 | the fields after a read, with and without implicit precharge |
| `Devices.SubArray.Write` | Simulator/Extras/NVmain/src/SubArray.cpp:506-710 | the fields after a write, with and without implicit precharge |
| `Devices.SubArray.Precharge` | Simulator/Extras/NVmain/src/SubArray.cpp:715-770 | the fields after a precharge |
| `Devices.SubArray.Refresh` | Simulator/Extras/NVmain/src/SubArray.cpp:776-826 | the fields after a refresh |
| `Devices.SubArray.RequestComplete` | Simulator/Extras/NVmain/src/SubArray.cpp:1271-1366 | the responses due run, in order |
| `Devices.DDR3Bank.IsIssuable` | Simulator/Extras/NVmain/Banks/DDR3Bank/DDR3Bank.cpp:714-867 | the loops over subarrays decide issuability |
| `Devices.DDR3Bank.IssueCommand` | Simulator/Extras/NVmain/Banks/DDR3Bank/DDR3Bank.cpp:869-923 | the object implements the bank automaton, and keeps its invariant |
| `Devices.DDR3Bank.PrechargeAll` | Simulator/Extras/NVmain/Banks/DDR3Bank/DDR3Bank.cpp:597-637 | the loop over the active list closes all of it |
| `Devices.DDR3Bank.EnterPowerDown` | Simulator/Extras/NVmain/Banks/DDR3Bank/DDR3Bank.cpp:217-265 | the state and limits after powering down |
| `Devices.DDR3Bank.LeavePowerDown` | Simulator/Extras/NVmain/Banks/DDR3Bank/DDR3Bank.cpp:267-312 | the state and limits after powering up |
| `WritePausing.InterruptInFlight` | Simulator/Extras/NVmain/src/SubArray.cpp:829-915 | each interruption of an attempt either makes the next one shorter or uses up a cancellation, and always marks one of the two |
| `WritePausing.InterruptProgress` | Simulator/Extras/NVmain/src/SubArray.cpp:829-915 | the same from before the attempt |
| `WritePausing.FinitelyOften` | Simulator/Extras/NVmain/src/SubArray.cpp:561-592 | a write is interrupted at most as often as its measure and cancelled at most max(1, MaxCancellations) times |
| `WritePausing.NewWriteBound` | Simulator/Extras/NVmain/src/SubArray.cpp:829-915 | the bound in closed form for a new write |
| `WritePausing.WorkKept` | Simulator/Extras/NVmain/src/SubArray.cpp:829-880 | an interruption in optimal mode keeps all cycles done, otherwise those before the running iteration; the write is paused if and only if the cycles kept are more than the threshold of the attempt |
| `WritePausing.PausesLoseNothing` | Simulator/Extras/NVmain/src/SubArray.cpp:561-592 | a write that is paused any number of times in optimal mode takes its full time altogether |
| `PausingRuns.LimitsRise` | Simulator/Extras/NVmain/src/SubArray.cpp:275-795 | no accepted command lowers any of the five limits a write saves |
| `PausingRuns.FirstIs` | Simulator/Extras/NVmain/src/SubArray.cpp:1271-1366 | pending responses run earliest first, and of the same cycle in the order they were scheduled |
| `PausingRuns.NoneDue` | Simulator/Extras/NVmain/src/SubArray.cpp:1271-1366 | afterwards none is due |
| `PausingRuns.PausingIsTrusted` | Simulator/Extras/NVmain/src/SubArray.cpp:1124-1157 | in every run with interruptions, with and without precharge, a command that is issuable before the write in progress is interrupted is issuable after the limits are restored |
| `PausingRuns.NeverInterruptsIff` | Simulator/Extras/NVmain/src/SubArray.cpp:1124-1157 | with precharge, no run interrupts a write if and only if tCCD <= tBURST + tWTR and tCCD <= tAL + tBURST + tWR + tRP |
| `PausingRuns.InterruptsWithoutPrecharge` | Simulator/Extras/NVmain/src/SubArray.cpp:1126-1131 | without precharge, for all parameters, a run in which an activation with priority interrupts a write |
| `PausingRuns.InterruptedFinitelyOften` | Simulator/Extras/NVmain/src/SubArray.cpp:829-915 | in every run each request is interrupted at most max(1, MaxCancellations) * (w + 1) + w times and cancelled at most max(1, MaxCancellations) times, attempts taking at most w cycles |
| `PausingRuns.HaltedBudget` | Simulator/Extras/NVmain/src/SubArray.cpp:829-915 | an interruption lowers the measure of its own request, and of no other |
| `PausingRuns.InterruptionUndoesWrite` | Simulator/Extras/NVmain/src/SubArray.cpp:885-915 | an interruption gives back exactly the limits from before the write; the open row stays, no other request changes, and the completion comes in the next cycle |
| `PausingRuns.InterruptNeeds` | Simulator/Extras/NVmain/src/SubArray.cpp:1124-1157 | only a write that is not forced is interrupted, by a read of the open row or by an activation with priority, once its time has come |
| `PausableSubArrays.PausableSubArray.IssueCommand` | Simulator/Extras/NVmain/src/SubArray.cpp:1223-1269 | accepted if and only if the test with forced and unprioritised interruptions passes, with and without precharge: the second test, after the interruption, never disagrees |
| `PausableSubArrays.PausableSubArray.Write` | Simulator/Extras/NVmain/src/SubArray.cpp:561-650 | the limits before the write are saved, those after it follow from its duration and are no lower |
| `PausableSubArrays.PausableSubArray.CheckWritePausing` | Simulator/Extras/NVmain/src/SubArray.cpp:829-915 | the request becomes what the interruption makes of it, the completion moves to the next cycle, the restored limits are no stricter |
| `PausableSubArrays.PausableSubArray.RequestComplete` | Simulator/Extras/NVmain/src/SubArray.cpp:1271-1366 | the loop runs every response that is due, earliest first, those they schedule included |
| `QueueProgress.LegalIsIssuable` | Simulator/Extras/NVmain/Banks/DDR3Bank/DDR3Bank.cpp:714-867 | a command that the row buffers allow is issuable as soon as no limit and no pending response is later |
| `QueueProgress.IssueApplies` | Simulator/Extras/NVmain/Banks/DDR3Bank/DDR3Bank.cpp:314-697 | an issued command changes the row buffers of the timing automaton as the controller's shadow assumes |
| `QueueProgress.IssueQuiet` | Simulator/Extras/NVmain/Banks/DDR3Bank/DDR3Bank.cpp:314-697 | after a fixed settling time no command of bounded bursts and latency holds up another |
| `QueueProgress.HeadsBecomeIssuable` | Simulator/Extras/NVmain/src/MemoryController.cpp:1717-1740 | in every run of a queue and its bank, the head of the queue is issuable in every cycle from the settling time after the last command on |
| `AddressMap.Mlog2` | Simulator/Extras/NVmain/include/NVMHelpers.cpp:38-53 | 2^r <= n < 2^(r+1), and 0 below 2 |
| `AddressMap.SchemeIsPermutation` | Simulator/Extras/NVmain/src/TranslationMethod.cpp:135-181 | a scheme gives a permutation of 0..5 if and only if its first six tokens are known and distinct and any later ones unknown |
| `AddressMap.ProperIsDecisive` | Simulator/Extras/NVmain/src/TranslationMethod.cpp:135-181 | every string of distinct known tokens is such a scheme |
| `AddressFields.TokensOfJoined` | Simulator/Extras/NVmain/src/TranslationMethod.cpp:146-150 | the tokens of a scheme of words joined by colons are the words, in their order |
| `AddressFields.TokensRank` | Simulator/Extras/NVmain/src/TranslationMethod.cpp:135-181 | an earlier token names a more significant field; fields without a token come below all that have one, subarray, channel, rank, bank, row, column |
| `AddressFields.TokenOrder` | Simulator/Extras/NVmain/src/TranslationMethod.cpp:150-170 | which field each of R, C, BK, RK, CH and SA stands for: token i puts it at position 5 - i |
| `AddressFields.FieldBits` | Simulator/Extras/NVmain/src/AddressTranslator.cpp:189-231 | each coordinate is the bits of the address above the burst offset and above the bits of all less significant fields |
| `AddressFields.RowOnTop` | Simulator/Extras/NVmain/src/AddressTranslator.cpp:189-231 | a scheme that starts with R has the row in the topmost bits, above those of the five other fields |
| `AddressMap.CoordinatesOfAddress` | Simulator/Extras/NVmain/src/AddressTranslator.cpp:76-231 | translating the address of coordinates gives them back, for every order and all widths |
| `AddressMap.AddressOfCoordinates` | Simulator/Extras/NVmain/src/AddressTranslator.cpp:76-231 | the address of an address's coordinates is the address with its burst offset cleared |
| `AddressMap.CoordinatesFit` | Simulator/Extras/NVmain/src/AddressTranslator.cpp:189-231 | every decoded field fits its width |
| `AddressMap.AddressMapBijective` | Simulator/Extras/NVmain/src/AddressTranslator.cpp:76-231 | the map is one to one and onto the aligned addresses of the memory |
| `AddressTranslators.TranslationMethod.SetGeometry` | Simulator/Extras/NVmain/src/MemoryController.cpp:375-385 | every width is the floor logarithm of its count, so no field can exceed its count even when that is no power of two |
| `AddressTranslators.TranslationMethod.SetAddressMappingScheme` | Simulator/Extras/NVmain/src/TranslationMethod.cpp:135-181 | the token loop and the filling of missing fields compute the order of the scheme, a permutation exactly when it should be |
| `AddressTranslators.AddressTranslator.Translate` | Simulator/Extras/NVmain/src/AddressTranslator.cpp:189-231 | the loop of remainders and shifts computes the coordinates |
| `AddressTranslators.AddressTranslator.Strip` | Simulator/Extras/NVmain/src/AddressTranslator.cpp:203-211 | the two shifts drop exactly the position within a burst |
| `AddressTranslators.AddressTranslator.ReverseTranslate` | Simulator/Extras/NVmain/src/AddressTranslator.cpp:76-153 | the loop in 64-bit arithmetic is exact for all memories of up to 2^64 bytes |
| `AddressTranslators.DivideIs` | Simulator/Extras/NVmain/src/AddressTranslator.cpp:329-353 | the shift of `Divide` is the division by the size of the field |
| `FlipNWriteData.InvertInvolutiveIff` | Simulator/Extras/NVmain/DataEncoders/FlipNWrite/FlipNWrite.cpp:78-116 | inverting a range twice restores every word if and only if the range is made of whole bytes |
| `FlipNWriteData.ToggledTwice` | Simulator/Extras/NVmain/DataEncoders/FlipNWrite/FlipNWrite.cpp:177-186 | inverting the flagged partitions twice restores the word |
| `FlipNWriteData.StoreFacts` | Simulator/Extras/NVmain/DataEncoders/FlipNWrite/FlipNWrite.cpp:226-263 | the stored word is the new one with exactly the flagged partitions inverted; flagged if and only if more than half changed; the charge is at most half of each partition and at most the bits that differ |
| `FlipNWriteData.StoreCharges` | Simulator/Extras/NVmain/DataEncoders/FlipNWrite/FlipNWrite.cpp:226-263 | the counters exactly: the bits that differ are added to the one, and of each partition the bits that differ or agree, whichever are fewer, to the other |
| `FlipNWriteData.KeysDistinct` | Simulator/Extras/NVmain/DataEncoders/FlipNWrite/FlipNWrite.cpp:233 | no two partitions of the memory share a key |
| `FlipNWriteData.WriteDecodes` | Simulator/Extras/NVmain/DataEncoders/FlipNWrite/FlipNWrite.cpp:127-268 | a write keeps every other word decodable to the same data, and the word it compares with is the one really stored; `bitCompareSwapWrites` grows by exactly the bits in which the stored and the new word differ, `bitsFlipped` by the charge |
| `FlipNWriteData.FreshDecodes` | Simulator/Extras/NVmain/DataEncoders/FlipNWrite/FlipNWrite.cpp:40-47 | a memory with no flags decodes to its contents |
| `FlipNWriteData.RunDecodes` | Simulator/Extras/NVmain/DataEncoders/FlipNWrite/FlipNWrite.cpp:127-268 | after any run of writes every word decodes to what was last written to it, within the bounds of the counters |
| `FlipNWriteCharge.ChargedExactlyIff` | Simulator/Extras/NVmain/DataEncoders/FlipNWrite/FlipNWrite.cpp:226-263 | for every word, whatever was stored and marked before: the charge is the number of cells that change if and only if each byte of the word reads the same from both ends |
| `FlipNWriteCharge.ChargeMissesCells` | Simulator/Extras/NVmain/DataEncoders/FlipNWrite/FlipNWrite.cpp:240-250 | a write that is charged nothing and changes six cells |
| `FlipNWriteEncoder.InvertByte` | Simulator/Extras/NVmain/DataEncoders/FlipNWrite/FlipNWrite.cpp:92-115 | the shift loop complements and reverses the bits in range |
| `FlipNWriteEncoder.InvertData` | Simulator/Extras/NVmain/DataEncoders/FlipNWrite/FlipNWrite.cpp:78-116 | the block is inverted in place, bytes outside the range untouched |
| `FlipNWriteEncoder.FlipNWrite.Write` | Simulator/Extras/NVmain/DataEncoders/FlipNWrite/FlipNWrite.cpp:127-268 | the loops over partitions, bytes and bits compute the encoded write, flags and counters, and turn the old data into what is stored |
| `FlipNWriteEncoder.FlipNWrite.CountModified` | Simulator/Extras/NVmain/DataEncoders/FlipNWrite/FlipNWrite.cpp:168-223 | each partition's count is the number of its bits that differ |
| `RowCache.MoveFacts` | Simulator/Extras/NVmain/Banks/CachedDDR3Bank/CachedDDR3Bank.cpp:285-294 | a hit is a permutation that keeps the order of the other buffers |
| `RowCache.StepKeeps` | Simulator/Extras/NVmain/Banks/CachedDDR3Bank/CachedDDR3Bank.cpp:103-366 | every command keeps the invariant and the order of last use |
| `RowCache.EvictionFacts` | Simulator/Extras/NVmain/Banks/CachedDDR3Bank/CachedDDR3Bank.cpp:103-186 | only the last buffer is evicted, only when all are bound to other rows, and no other was used less recently; its dirty words are written back |
| `RowCache.RunInvariants` | Simulator/Extras/NVmain/Banks/CachedDDR3Bank/CachedDDR3Bank.cpp:103-366 | in every run: bound buffers are a prefix with distinct rows in the order of last use; writebacks and dirty words together never exceed the write hits; none of either when read-only |
| `RowCache.EvictionIsLeastRecentIff` | Simulator/Extras/NVmain/Banks/CachedDDR3Bank/CachedDDR3Bank.cpp:142-178 | in every run an eviction takes the row least recently allocated or used if and only if the last buffer was used since it was bound, or every other one was used since then |
| `RowCache.EvictsTheNewest` | Simulator/Extras/NVmain/Banks/CachedDDR3Bank/CachedDDR3Bank.cpp:142-178 | a run in which the most recently touched row is evicted |
| `RowCache.HitsCachedRows` | Simulator/Extras/NVmain/Banks/CachedDDR3Bank/CachedDDR3Bank.cpp:250-330 | with buffers as long as a row, in every run a word hits if and only if its row has a buffer, and an activated row has one |
| `RowCache.AllocationHolds` | Simulator/Extras/NVmain/Banks/CachedDDR3Bank/CachedDDR3Bank.cpp:103-186 | after an activation that allocates, exactly the words of the aligned block of columns around the one asked for hit |
| `RowCache.DirtyStep` | Simulator/Extras/NVmain/Banks/CachedDDR3Bank/CachedDDR3Bank.cpp:103-374 | a word is dirty exactly from the write that hits it until its row loses its buffer |
| `RowCache.RunCounts` | Simulator/Extras/NVmain/Banks/CachedDDR3Bank/CachedDDR3Bank.cpp:103-366 | in every run the counters are exact: one allocation for every activation of a row without a buffer, one hit for every word served |
| `CachedBanks.CachedDDR3Bank.constructor` | Simulator/Extras/NVmain/Banks/CachedDDR3Bank/CachedDDR3Bank.cpp:75-100 | the initial cache satisfies the invariant |
| `CachedBanks.CachedDDR3Bank.Activate` | Simulator/Extras/NVmain/Banks/CachedDDR3Bank/CachedDDR3Bank.cpp:103-186 | the scan, the binding and the eviction implement the cache; read-only buffers are never written back |
| `CachedBanks.CachedDDR3Bank.Read` | Simulator/Extras/NVmain/Banks/CachedDDR3Bank/CachedDDR3Bank.cpp:250-305 | a hit if and only if a buffer holds the word, and then moved to the front in place |
| `CachedBanks.CachedDDR3Bank.Write` | Simulator/Extras/NVmain/Banks/CachedDDR3Bank/CachedDDR3Bank.cpp:308-374 | the same for writable buffers, with the word marked dirty |
| `CheckpointUpgrader.Process` | Simulator/GEM5/gem5/util/cpt_upgrader.py:240-252 | for all tables: each needed migration is applied at most once, exactly once on success, and only when the tags it depends on are the checkpoint's or those of earlier migrations; on success the checkpoint has the tag of every upgrader and of no downgrader and keeps its other tags; the result does not depend on set order |
| `CheckpointUpgrader.ApplyRound` | Simulator/GEM5/gem5/util/cpt_upgrader.py:146-154 | a round applies each ready migration once, in any order with the same tags |
| `CheckpointUpgrader.CompletesIff` | Simulator/GEM5/gem5/util/cpt_upgrader.py:240-252 | without downgraders, the loop completes if and only if no set of missing upgrades is stuck, and then has all upgrader tags |
| `CheckpointUpgrader.AcyclicIff` | Simulator/GEM5/gem5/util/cpt_upgrader.py:240-252 | an audited table of upgraders completes for all checkpoints if and only if its dependencies have no cycle |
| `CheckpointUpgrader.AcyclicCompletes` | Simulator/GEM5/gem5/util/cpt_upgrader.py:240-252 | with acyclic dependencies the loop never aborts and ends with the initial tags plus all upgrader tags |
| `CheckpointUpgrader.Resolve` | Simulator/GEM5/gem5/util/cpt_upgrader.py:173-185 | loading succeeds if and only if every named tag exists; although the audit runs while forward dependencies are still being added, the result is audited and has exactly the declared dependencies |
| `CheckpointUpgrader.LinkLegacy` | Simulator/GEM5/gem5/util/cpt_upgrader.py:167-171 | the legacy versions from 3 up to the first gap are linked; fails exactly when version 3 lacks a predecessor |
| `CheckpointUpgrader.ChainedAt` | Simulator/GEM5/gem5/util/cpt_upgrader.py:167-171 | exactly the versions of the chain lose their declared dependencies, for their predecessor |
| `MessageFraming.VarintRoundTrip` | Simulator/GEM5/gem5/util/protolib.py:101-127 | decoding an encoded number, whatever follows it, uses exactly its bytes and returns it if and only if it is below 2^32 |
| `MessageFraming.VarintBytes` | Simulator/GEM5/gem5/util/protolib.py:145-158 | the format: byte i holds bits 7i to 7i + 6, and its top bit is set on all bytes but the last |
| `MessageFraming.FramingRoundTrip` | Simulator/GEM5/gem5/util/protolib.py:129-166 | for all sequences of messages: the file gives them back if and only if each is nonempty and shorter than 2^32 bytes, but for a last one of 2^63 bytes or more, for which the rest of the file is read |
| `MessageFiles.EncodeVarint32` | Simulator/GEM5/gem5/util/protolib.py:145-158 | the loop writes the varint |
| `MessageFiles.DecodeVarint32` | Simulator/GEM5/gem5/util/protolib.py:101-127 | the loop reads a varint, the end of the file or too many bytes, and leaves the file behind it |
| `MessageFiles.DecodeMessage` | Simulator/GEM5/gem5/util/protolib.py:129-143 | a message is found exactly when the length is read and not 0, and the rest of the file is left |
| `MessageFiles.WriteAndRead` | Simulator/GEM5/gem5/util/protolib.py:129-166 | messages written to a file and read back are the same in the same order |

## Assumptions of the model

- Event handlers do not touch the past, cancel events of later cycles only, and add a bounded number
  of events to the running cycle (`EventQueues.WellBehaved`); without the bound the source does not
  terminate. Cycle numbers stay below the largest `ncycle_t`.
- Frequencies are exact positive rationals and the pause percentage is an exact real; the source
  uses doubles. Queues are no faster than the global clock.
- The controller has per-bank queues, ScheduleScheme 1 or 2, `UsePrecharge`, BanksPerRefresh dividing
  BANKS and a refresh threshold of at least 1. Where the source asserts that `refreshQueued` is set,
  the model counts the failure and goes on.
- Callbacks of controllers use the priorities of `MemoryController.h`; events other than their
  cleanups are inserted with and store priorities of at least 0. What the event queue already holds
  (`FindCallback`) is a parameter of the controller's methods.
- Timing parameters make the unsigned differences of the source non-negative, and the responses a
  command schedules fall in a later cycle (`SubArrayTiming.Timing.Ok`): one that fell in the running
  cycle would be erased unrun.
- Responses of a subarray run before commands of the same cycle. Commands of the command-queue
  callback do, by priority; those that a controller issues from a cycle event, which has the priority
  of responses, do when the response was inserted first.
- At most one command is offered to a subarray with write pausing per cycle, and a write is offered
  again only after it was interrupted, as the controllers do.
- The partitions of the Flip-N-Write encoder are whole bytes and fill a word; otherwise the source
  loses bits or counts outside its array. The old data of a write are the word last written, and keys
  do not wrap around 64 bits.
- Row buffers that were never bound hold no column, where the source leaves their range
  uninitialised.
- Two files of the checkpoint upgrader do not declare the same tag.

## Left out

- EventKernel.EventQueue.RunEvent: the source frees an event after running it and leaves it in the list, where an insertion into the running cycle still reads its priority; the model keeps the event until the cycle ends.
- Controllers.MemoryController.FindRequest: FindWriteStalledRead and FindCachedAddress are left out; they add conditions, not state.
- Controllers.MemoryController.IssueMemoryCommands: the branch for cached requests is left out; it bypasses the row-buffer shadow.
- CachedBanks.CachedDDR3Bank.Write: on a hit takes columns below CachedRowSize only; the source indexes the dirty flags with the column of the row and runs out of them otherwise. The limits and responses of a hit are left out.
- CachedBanks.CachedDDR3Bank.Read: the limits and responses of a hit are left out.
- CachedBanks.CachedDDR3Bank.Activate: the timing limits it sets and the histograms of reads and writes per allocation are left out.
- CheckpointUpgrader.CompletesIff: takes tables without downgraders, because `ready` tests for the presence of a tag where the header comment asks for its removal.
- Controllers.MemoryController.CycleCommandQueues: inserts the cleanup without looking for one that is already scheduled for the cycle.
- FlipNWriteData.RunDecodes: bounds the counters over a run; `FlipNWriteData.WriteDecodes` states them exactly for each write.
- BankAcceptance.LimitIsApart: excludes powering down, whose limit a write with implicit precharge replaces; `BankSeparation.BankTimingSafety` and `RefreshPowerDown.PowerDownSafeIff` cover it.
- MessageFiles.DecodeMessage: returns the bytes of the message; parsing them is protobuf's.
- QueueProgress.HeadsBecomeIssuable: takes one bank; a REFRESH for several banks also waits for the others at the rank, which is not part of this model.
- Per-rank and per-subarray queues, ScheduleScheme 0, write-back mode, low-power handling in the controller, the deadlock timer, statistics and energy.
- Rank-level timing, interconnects, the concrete schedulers, data encoder and endurance latencies, refresh row counters.
- DRCDecoder, ByteModel, Migrator, configuration parsing, trace readers and writers, object ownership and deletion.
- Random pulse counts of multi-level cell writes; the write time is a parameter.
