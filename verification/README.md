# Verified models of the RIL, sensor and WiFi cores

This device tree is mostly shims, tables and marshalling around five small stateful cores. The project models those
cores in Dafny and proves what they keep over every run, not only over single calls.

**RIL event loop** (`hal/libril/ril_event.cpp`, wake pipe in `hal/libril/ril.cpp`)
- `Timeval`: the `struct timeval` macros. `TimerQueue`, `WatchSlots`: the timer list and the watch table as values.
- `RilEvents`, `RilWatch`, `RilLoop`: the intrusive circular lists, the watch table and one loop pass as heap objects,
  each method proved against the value functions. `LoopEffects`: what event functions do to the loop during a pass.
- `TimerRuns`: loop thread, threads that add timers and watches, wake pipe and clock as a step system.

**RIL requests** (`hal/libril/ril.cpp`)
- `PendingRequests`: the linked list of pending requests on the heap.
- `RequestRuns`: pending lists, the one-in-flight queues of proxies 1 and 3, acknowledgement and completion as steps.
- `WakeLock`: the counted wake lock against its cancellable timers, with grab, release and timer callback split wherever
  one can come between another's accesses to the last-timer pointer. `ThreadTable`: the move-to-front thread table.

**Radio service** (`hal/libril/ril_service.cpp`)
- `CallbackReset`: `checkReturnStatus` racing with `setResponseFunctions` and with itself. `HexDecode`: SMS PDUs.

**Sensor multi-HAL** (`hal/sensors`)
- `SensorRing`: the ring buffer. `SensorHandles`: the two handle maps. `SensorSystem`: one unlocked writer per ring, one
  reader, both condition variables, poll scanning and delivery as a step system.

**WiFi HAL** (`hal/wifi_hal`)
- `WifiTables`: the handler and command tables. `WifiLifetime`: reference counts while the API thread and the event
  thread interleave. `WifiCleanup`: the cleanup loop.

A step system has `State`, `Step`, `Enabled`, `Do`, `Init` and `Run`; its theorems speak of every state of every `Run`.
Where a class exists beside it, its methods promise the functions the step system uses or keep the same invariant.

Where a property fails for some inputs, the project says when. Each of these is an if-and-only-if:
`WatchSlots.RemoveCoherentIff` (two watched slots with one descriptor), `SensorHandles.InverseIffDistinct` (a module that
lists a handle twice), `SensorHandles.DroppedIff` (metadata events with sensor field -1 are dropped as well),
`SensorSystem.NoReadsSleepsOnData` (poll for no events), `RequestRuns.SerialIffCareful` (FMT_IGNORE on a queued proxy,
radio power on the second slot), `WakeLock.StepKeepsInvIff` (the event loop's unguarded access to the last-timer pointer
between another thread's accesses, or the other way round), `WakeLock.StepKeepsNewestIff` (a grab and an older timer's
timeout overtaking each other), `CallbackReset.ResetIff` (2^32 replacements), `WifiCleanup.EndsIff` (a NULL command),
`WifiLifetime.CancelDanglesIff` and `WifiLifetime.UndoDanglesIff` (two live commands listening to one event).

## Model

| member | source | states |
|---|---|---|
| Timevals.TimerAdd | hal/libril/ril_event.cpp:43-53 | the result is the sum in microseconds; one carry normalises it iff the microseconds add up to 0 to 1999999 |
| Timevals.TimerSub | hal/libril/ril_event.cpp:62-71 | the result is the difference in microseconds, normalised if the operands are |
| Timevals.TimerLessIsOrder | hal/libril/ril_event.cpp:55-60 | on normalised values the comparison is the order of microseconds |
| Timevals.TimerLessNeedsNormalised | hal/libril/ril_event.cpp:55-60 | a pair that is not normalised and compares wrongly |
| Timevals.NormalisedIsCanonical | hal/libril/ril_event.cpp:43-71 | equal microseconds mean equal normalised values |
| TimerQueue.FirstDueAt | hal/libril/ril_event.cpp:166-182 | everything before the position is earlier than the given time, the timer at it is not |
| TimerQueue.Insert | hal/libril/ril_event.cpp:300-311 | the timer stands before the first timer not earlier than it; the others keep their order |
| TimerQueue.InsertOrdered | hal/libril/ril_event.cpp:291-317 | insertion keeps the list sorted by deadline, equal deadlines newest first |
| TimerQueue.InsertDistinct | hal/libril/ril_event.cpp:291-317 | a list of distinct timers stays so when a younger timer is inserted |
| TimerQueue.ExpiredIsAllDue | hal/libril/ril_event.cpp:163-185 | on a sorted list the extracted prefix is exactly the set of timers strictly past their deadline |
| TimerQueue.TimeToFirstIsLeast | hal/libril/ril_event.cpp:220-243 | the select bound is the least max(0, deadline minus now) of all listed timers, and one of them attains it |
| WatchSlots.FirstFree | hal/libril/ril_event.cpp:275-276 | the first free slot, or the table length if all are taken |
| WatchSlots.AddKeepsCoherent | hal/libril/ril_event.cpp:270-288 | after an add readFds is the set of watched descriptors and nfds is one more than the largest (0 or 1 when none is watched) |
| WatchSlots.AddKeepsDistinct | hal/libril/ril_event.cpp:270-288 | descriptors stay distinct iff the new one was not watched (or the table was full) |
| WatchSlots.LargestFd | hal/libril/ril_event.cpp:148-158 | the largest watched descriptor, or 0 for an empty table |
| WatchSlots.RemoveCoherentIff | hal/libril/ril_event.cpp:139-161 | after a removal readFds is again the set of watched descriptors iff no other slot shares the descriptor |
| WatchSlots.RemoveKeepsNfds | hal/libril/ril_event.cpp:139-161 | after any removal nfds is again one more than the largest watched descriptor, shared or not |
| WatchSlots.RemoveKeepsDistinct | hal/libril/ril_event.cpp:139-161 | removal keeps descriptors distinct |
| WatchSlots.SharedFdLosesWatch | hal/libril/ril_event.cpp:139-161 | two slots on one descriptor: removing one leaves the other unwatched |
| WatchSlots.ReadyScan | hal/libril/ril_event.cpp:187-205 | only ready watched slots are reported, in slot order without repetition, at most n of them |
| WatchSlots.ReadyScanComplete | hal/libril/ril_event.cpp:187-205 | the scan that stops after n finds misses no ready slot iff n is at least their number |
| WatchSlots.ReadySlotsBounded | hal/libril/ril_event.cpp:187-205 | with distinct descriptors there are no more ready slots than ready descriptors |
| WatchSlots.EarlyExitMissesNothing | hal/libril/ril_event.cpp:187-205 | with select's count the early exit still reports every ready watched event exactly once |
| WatchSlots.SweepIsScan | hal/libril/ril_event.cpp:187-205 | removing non-persistent events while scanning does not change what the scan reports |
| WatchSlots.SweepKeepsCoherent | hal/libril/ril_event.cpp:187-205 | the whole sweep keeps readFds, nfds and distinctness |
| RilEvents.RingDistinct | hal/libril/ril_event.cpp:109-136 | well-formed circular lists have no repeated node |
| RilEvents.InitList | hal/libril/ril_event.cpp:109-115 | an initialised head is an empty ring, with descriptor -1 |
| RilEvents.AddToList | hal/libril/ril_event.cpp:117-124 | linking in front of a node inserts at that position of the ring and keeps it well formed in both directions |
| RilEvents.RemoveFromList | hal/libril/ril_event.cpp:126-136 | unlinking removes exactly that position, keeps the ring well formed and clears the node's links |
| RilEvents.EventLists.TimerAdd | hal/libril/ril_event.cpp:291-317 | timer_list becomes the sorted insertion of the absolute deadline, for every time that one carry normalises; without a time nothing changes |
| RilEvents.EventLists.FindInsertion | hal/libril/ril_event.cpp:300-305 | the list walk stops at the first timer not earlier than the new one |
| RilEvents.EventLists.ProcessTimeouts | hal/libril/ril_event.cpp:163-185 | exactly the expired prefix moves, in order, behind pending_list; both lists stay disjoint rings |
| RilEvents.EventLists.FireFirst | hal/libril/ril_event.cpp:210-216 | one event leaves pending_list and its function is called |
| RilEvents.EventLists.CalcNextTimeout | hal/libril/ril_event.cpp:220-243 | no bound without timers; otherwise a normalised max(0, first deadline minus now) |
| RilWatch.WatchTable.EventSet | hal/libril/ril_event.cpp:257-267 | an initialised event is in no slot and leaves the table alone |
| RilWatch.WatchTable.EventAdd | hal/libril/ril_event.cpp:270-288 | the event takes the first free slot, its index names it, readFds and nfds follow; the table stays free of shared descriptors iff it was full or the descriptor was not watched |
| RilWatch.WatchTable.RemoveWatch | hal/libril/ril_event.cpp:139-161 | slot, index, readFds and nfds after a removal; watch_table[i] is an event iff its index is i; without shared descriptors readFds and nfds stay exact |
| RilWatch.WatchTable.EventDel | hal/libril/ril_event.cpp:320-334 | an event with a valid index is removed, any other changes nothing |
| RilLoop.EventLoop.TimerAdd | hal/libril/ril_event.cpp:291-317 | adding a timer keeps the lists disjoint from each other and from the watched events, also while events are being fired |
| RilLoop.EventLoop.EventAdd | hal/libril/ril_event.cpp:270-288 | adding a watch keeps the invariant of the whole module, and with a new descriptor readFds and nfds stay exact |
| RilLoop.EventLoop.EventDel | hal/libril/ril_event.cpp:320-334 | deleting a watch keeps the invariant of the whole module and readFds and nfds exact |
| RilLoop.EventLoop.ProcessReadReadies | hal/libril/ril_event.cpp:187-205 | pending_list grows by the ready events in slot order; the table becomes the swept table |
| RilLoop.EventLoop.React | hal/libril/ril_event.cpp:270-334 | what a called function does to other events keeps the invariant of the module while the rest is still pending |
| RilLoop.EventLoop.FirePending | hal/libril/ril_event.cpp:207-218 | every pending event is called once in list order and pending_list is empty afterwards, with the functions adding and deleting timers and watches behind each call |
| RilLoop.EventLoop.Pass | hal/libril/ril_event.cpp:350-389 | one pass calls the expired timers in firing order, then the ready events in slot order, and empties pending_list, whatever timers and watches the called functions add or delete; lists and table end as the sweep followed by what the functions did; readFds and nfds stay exact if new watches are for new descriptors |
| LoopEffects.HealthyIff | hal/libril/ril_event.cpp:270-334 | one addition or deletion keeps descriptors distinct and readFds and nfds exact iff it is no watch for a watched descriptor |
| LoopEffects.EffectsKeep | hal/libril/ril_event.cpp:270-334 | any sequence of additions and deletions keeps timer_list in firing order, and readFds and nfds exact if new watches are for new descriptors |
| TimerRuns.StepKeepsInv | hal/libril/ril_event.cpp:163-389 | every step keeps the timers in one line of firing order, every listed timer covered by the bound, a wake byte or an owed trigger, and every watched descriptor likewise |
| TimerRuns.FiringOrder | hal/libril/ril_event.cpp:163-218 | in every run timers fire in deadline order across passes, newest first among equals, at most once, strictly after the deadline, none lost |
| TimerRuns.HistoryGrows | hal/libril/ril_event.cpp:207-218 | what has fired stays fired, in the same order |
| TimerRuns.NoMissedWakeup | hal/libril/ril.cpp:560-591 | in every run a loop asleep beyond a listed timer is about to be woken or its inserter has still to trigger |
| TimerRuns.NewFdReachesSelect | hal/libril/ril.cpp:571-574 | in every run a loop asleep without a watched descriptor in its set is about to be woken or the adder has still to trigger |
| TimerRuns.PassTakesAllDue | hal/libril/ril_event.cpp:163-185 | a pass takes every timer whose deadline has passed |
| TimerRuns.DueTimerFires | hal/libril/ril_event.cpp:163-218 | in every run a timer past its deadline when a pass looks has fired when the loop is back at its top |
| TimerRuns.DrainedBeforeBound | hal/libril/ril.cpp:581-591 | a pass that still has processWakeupCallback to call, or is in it, gets back to its top only behind a read that finds the pipe empty |
| TimerRuns.ReadyPipeIsDrained | hal/libril/ril.cpp:581-591 | in every run, once select has returned with a byte in the wake pipe, the pipe has been empty before the loop is at its top again |
| TimerRuns.PipeReadIff | hal/libril/ril.cpp:581-591 | in every run a pass reads the wake pipe exactly when select found it ready |
| TimerRuns.DrainEnds | hal/libril/ril.cpp:581-591 | processWakeupCallback empties b bytes in b / 16 reads, rounded up, and changes nothing else |
| TimerRuns.PassInOrder | hal/libril/ril_event.cpp:350-389 | in every run consecutive moves of the loop thread follow the order copy, bound, select, timeouts, readable descriptors, callbacks, and an interrupted select goes back to the copy |
| TimerRuns.FirstIsCopy | hal/libril/ril_event.cpp:350-389 | in every run the first of these moves is the copy |
| TimerRuns.ClockIs | hal/libril/ril_event.cpp:101-107 | in every run the clock has advanced by the time that passed |
| TimerRuns.TimersAreThoseAdded | hal/libril/ril_event.cpp:291-317 | in every run the timers fired, pending or listed are exactly those added, due at the time of the call plus the delay |
| TimerRuns.FiredAfterItsDelay | hal/libril/ril_event.cpp:163-218 | in every run a timer that fired was added, and more than its delay had passed |
| TimerRuns.HistoryIff | hal/libril/ril_event.cpp:207-218 | in every run the calls recorded are those of the first pending timer at each firing, at that time |
| TimerRuns.SelectIsTold | hal/libril/ril_event.cpp:350-371 | in every run select is given the descriptors watched at the copy and the least wait of the listed timers, no bound iff none is listed |
| TimerRuns.WatchedIff | hal/libril/ril_event.cpp:270-334 | in every run the watched descriptors are those added and not removed since |
| TimerRuns.OwingIff | hal/libril/ril.cpp:560-574 | in every run the adders still to trigger are those that added from another thread and have not triggered since |
| TimerRuns.OwingFdsIff | hal/libril/ril.cpp:571-574 | the same for descriptors |
| TimerRuns.BytesAreTriggers | hal/libril/ril.cpp:560-569 | between reads the pipe gains one byte for each trigger |
| PendingRequests.PendingList.AddRequestToList | hal/libril/ril.cpp:498-558 | the request becomes the first node of a well-formed list |
| PendingRequests.PendingList.CheckAndDequeueIfAck | hal/libril/ril.cpp:1150-1205 | found iff listed; an ack marks and never removes; a completion removes exactly that node and keeps the order of the rest |
| PendingRequests.PendingList.Unlink | hal/libril/ril.cpp:1195-1197 | overwriting the link that leads to a node removes it, at the head as well |
| RequestRuns.RunKeepsInv | hal/libril/ril.cpp:498-558 | in every run each slot's pending list holds exactly its uncompleted requests, once each, and each queue only waiting requests |
| RequestRuns.OnItsPendingList | hal/libril/ril.cpp:498-558 | in every run a queued or dispatched request is once on its own slot's pending list and on no other |
| RequestRuns.AtMostOneResponse | hal/libril/ril.cpp:1240-1478 | in every run no request is answered twice, however often its token is completed |
| RequestRuns.OnlyFirstCompletion | hal/libril/ril.cpp:1240-1255 | in every run the first completion of a request is accepted and every later one changes nothing |
| RequestRuns.FinishesOnce | hal/libril/ril.cpp:1240-1478 | in every run a request finishes at most once, and only behind its accepted completion |
| RequestRuns.AnsweredIff | hal/libril/ril.cpp:1268-1462 | in every run a request has been answered once if it finished uncancelled, is not local and has a response function, else not at all |
| RequestRuns.CalledOnce | hal/libril/ril.cpp:865-947 | in every run, careful or not, onRequest was called once for each request dispatched or further on and for no other, a queued request is in its channel's queue, and off proxies 1 and 3 the calls are the arrivals in order |
| RequestRuns.HistoriesAre | hal/libril/ril.cpp:865-947 | in every run arrivals and completions of a channel are those of its enqueue and finish steps |
| RequestRuns.AckedIff | hal/libril/ril.cpp:1208-1237 | in every run the acknowledged requests are those acknowledged while pending |
| RequestRuns.PendingNewestFirst | hal/libril/ril.cpp:498-550 | in every run a pending list has its requests in the reverse order of their addition |
| RequestRuns.SerialIffCareful | hal/libril/ril.cpp:865-947 | a step keeps every channel serial iff it sends no FMT_IGNORE request on proxies 1 and 3 and no radio power for slot 2 unless both slots are busy |
| RequestRuns.FirstRequestMayBreakSerial | hal/libril/ril.cpp:874-891 | either kind of request breaks the channels even as the first request |
| RequestRuns.OneInFlight | hal/libril/ril.cpp:823-862 | in every careful run busy means exactly one request in flight, and a waiting queue means busy |
| RequestRuns.DispatchedInOrder | hal/libril/ril.cpp:865-947 | in every careful run requests are dispatched in order of arrival |
| RequestRuns.DispatchedAfter | hal/libril/ril.cpp:1464-1478 | a request that queues behind p others is dispatched by a later moment iff p + 1 requests of its channel finished in between |
| RequestRuns.ProxyChannels.MyEnqueue | hal/libril/ril.cpp:865-947 | busy flags, queues and calls are those of the step system, of which RequestRuns.CalledOnce says that every request is sent or queued |
| RequestRuns.ProxyChannels.MyDequeue | hal/libril/ril.cpp:823-862 | the oldest waiting request is dispatched, or the channel becomes free |
| RequestRuns.ProxyChannels.RequestDone | hal/libril/ril.cpp:1464-1478 | a completion frees the channel of its slot and passes it to the next request |
| WakeLock.StepKeepsInvIff | hal/libril/ril.cpp:646-673 | a step keeps the wake-lock invariant iff it does not clear the last-timer pointer between a grab's or release's test and write, does not set it between the callback's compare and clear, and is no failed allocation while held |
| WakeLock.SetWhileClearing | hal/libril/ril.cpp:1494-1497 | a pointer set between compare and clear leaves the lock held by a timer nothing points to |
| WakeLock.ClearWhileWriting | hal/libril/ril.cpp:1494-1521 | a pointer cleared between test and write makes the cancellation go through NULL or a freed timer |
| WakeLock.RunKeepsInv | hal/libril/ril.cpp:1482-1552 | in every careful run: held iff the count is positive, held by a live uncancelled last timer, every other unspent timer cancelled, the last-timer pointer never dangling |
| WakeLock.HeldLockTimesOut | hal/libril/ril.cpp:1534-1552 | a held lock always has a timer that can fire and then gives it up |
| WakeLock.StepKeepsNewestIff | hal/libril/ril.cpp:1534-1545 | a timeout on its way to the mutex stays the newest grab's, and no timer stays armed without a held lock, iff no grab overtakes the timeout and no older timer is read during a grab |
| WakeLock.HeldIffArmed | hal/libril/ril.cpp:1507-1545 | in such runs, with the mutex open, the lock is held exactly while a timer is armed to give it up |
| WakeLock.HeldUntil | hal/libril/ril.cpp:1507-1545 | the lock is given up only by the last matching release or by the newest grab's own timer |
| WakeLock.CountIs | hal/libril/ril.cpp:1482-1529 | over any stretch of any run without an armed timeout or a release at a count of at most 1, the count changes by the grabs less the releases |
| WakeLock.HeldWhileOutstanding | hal/libril/ril.cpp:1482-1529 | in every careful run the lock is held, with the count of unreleased grabs, while fewer releases than grabs have happened since it was free and no armed timeout |
| WakeLock.LiveIff | hal/libril/ril.cpp:646-673 | in every run the allocated timers are those of grabs whose callback has not freed them |
| WakeLock.HurriedGrabIsLost | hal/libril/ril.cpp:1534-1545 | a grab that overtakes an armed timeout loses its lock to it |
| WakeLock.CalledBackIs | hal/libril/ril.cpp:646-673 | an undisturbed timer callback frees the timer, gives the lock up iff it is the last timer's and then leaves no pointer to it |
| WakeLock.WakeLockState.GrabPartialWakeLock | hal/libril/ril.cpp:1482-1505 | afterwards the new timer alone is armed and the invariant holds unless the event loop is about to clear the pointer; a failed allocation drops the lock, which keeps the invariant iff the count was 0 |
| WakeLock.WakeLockState.ReleaseWakeLock | hal/libril/ril.cpp:1507-1529 | keeps the invariant; the last matching release leaves no timer armed, any other changes only the count |
| WakeLock.WakeLockState.WakeTimeoutCallback | hal/libril/ril.cpp:1534-1552 | an armed timeout gives the lock up whatever the count |
| WakeLock.WakeLockState.UserTimerCallback | hal/libril/ril.cpp:646-673 | the code has the effect of the five steps and keeps the invariant |
| ThreadTable.RecentIsByRecency | hal/libril/ril.cpp:344-366 | the unbounded list is the latest registration of each thread, newest first |
| ThreadTable.MoveToFrontShown | hal/libril/ril.cpp:344-366 | cutting the list off before or after a move to the front shows the same table |
| ThreadTable.ThreadPids.FindEntry | hal/libril/ril.cpp:348-356 | the search stops at the first entry that is empty or the thread's own, or at the end |
| ThreadTable.ThreadPids.ShiftUp | hal/libril/ril.cpp:358-362 | the entries in front of a place move up by one over it, the others stay |
| ThreadTable.ThreadPids.AddThreadPid | hal/libril/ril.cpp:344-366 | after any history the array holds the 12 most recently registered distinct threads in recency order with their latest channel ids |
| ThreadTable.TableIsByRecency | hal/libril/ril.cpp:344-366 | each row is the latest registration of its thread, rows newest first, empty rows last |
| CallbackReset.StepKeepsInv | hal/libril/ril_service.cpp:790-858 | every step keeps what each thread remembers of the callbacks it used |
| CallbackReset.ResetIff | hal/libril/ril_service.cpp:790-832 | in every run a failed call resets iff the callbacks were replaced a multiple of 2^32 times since; with none, it resets those it used |
| CallbackReset.NewerCallbacksSurvive | hal/libril/ril_service.cpp:807-822 | below 2^32 replacements newer callbacks are never reset, and other slots and services are left alone |
| CallbackReset.CallbacksAreTheLatest | hal/libril/ril_service.cpp:838-858 | in every run a key's callbacks are those of its latest setResponseFunctions, or none if a failed call has reset them since |
| CallbackReset.GenerationIs | hal/libril/ril_service.cpp:838-858 | in every run the counter counts the replacements and resets of its key, modulo 2^32 |
| CallbackReset.CallUsesCurrent | hal/libril/ril_service.cpp:790-832 | in every run a call uses the callbacks current when it takes the read lock, and they stay until its thread goes on |
| CallbackReset.ResetAtMostOnce | hal/libril/ril_service.cpp:790-822 | of the calls that failed on the same callbacks, once one has reset them a later one resets iff they were replaced a positive multiple of 2^32 times since, and before that changes nothing |
| CallbackReset.LockHeldOnReturn | hal/libril/ril_service.cpp:790-832 | between a failure and the thread's next move it decides once and then relocks once; from there on it holds the read lock, nothing is written under it, and the callbacks are those it saw on return |
| CallbackReset.ReaderSeesOneVersion | hal/libril/ril_service.cpp:838-858 | in every run nothing is written under a read lock while a thread holds it |
| CallbackReset.FailedCallReturns | hal/libril/ril_service.cpp:799-831 | from every state a failed call gets its read lock back once the calls then reading have ended, with two steps of its own |
| CallbackReset.CallbackHolder.SetResponseFunctions | hal/libril/ril_service.cpp:838-858 | the callbacks are replaced and every counter noted within 2^32 replacements is outdated |
| CallbackReset.CallbackHolder.ResetIfUnchanged | hal/libril/ril_service.cpp:807-820 | a reset happens iff the replacements since the noted generation are a multiple of 2^32 |
| CallbackReset.CallbackHolder.CheckReturnStatus | hal/libril/ril_service.cpp:790-832 | with other threads replacing the callbacks meanwhile, the newest replacement stays; without any, the callbacks go |
| HexDecode.ConvertHexStringToBytes | hal/libril/ril_service.cpp:6791-6820 | null iff odd length or a character that is not hex; else the encoded bytes written twice, filling the buffer |
| HexDecode.EncodesUnique | hal/libril/ril_service.cpp:6791-6820 | a text encodes at most one byte string |
| HexDecode.EncodesIsHex | hal/libril/ril_service.cpp:6791-6820 | only hex text of even length encodes anything |
| HexDecode.DecodeEncoded | hal/libril/ril_service.cpp:6791-6820 | decoding any hex encoding of a byte string gives it back |
| HexDecode.EncodeEncodes | hal/libril/ril_service.cpp:6783-6789 | every byte string has encodings, with each digit's case chosen freely |
| HexDecode.NewSmsInd | hal/libril/ril_service.cpp:6822-6855 | a PDU is forwarded iff the C string is hex of even length, and it is the bytes that string encodes |
| SensorRing.RegionIsFree | hal/sensors/SensorEventQueue.cpp:39-59 | a region is handed out iff there is room and a positive request; it is the longest that fits and overlaps nothing readable |
| SensorRing.WriteKeepsContents | hal/sensors/SensorEventQueue.cpp:39-59 | writes into the region do not change what is readable |
| SensorRing.MarkAppends | hal/sensors/SensorEventQueue.cpp:61-63 | marking appends exactly the events written |
| SensorRing.DequeueDrops | hal/sensors/SensorEventQueue.cpp:74-81 | dequeue drops the oldest event and does not move the place of the next write |
| SensorRing.SensorEventQueue.GetWritableRegion | hal/sensors/SensorEventQueue.cpp:39-59 | the queue's arithmetic gives that region |
| SensorRing.SensorEventQueue.MarkAsWritten | hal/sensors/SensorEventQueue.cpp:61-63 | any count is added; the queue stays valid iff it fits, and a count within the region appends its events |
| SensorRing.SensorEventQueue.Peek | hal/sensors/SensorEventQueue.cpp:69-72 | the oldest readable event, if any |
| SensorRing.SensorEventQueue.Dequeue | hal/sensors/SensorEventQueue.cpp:74-81 | the queue after a dequeue; it broadcasts iff the ring was full |
| SensorHandles.AssignAllShape | hal/sensors/multihal.cpp:92-101 | after any assignments global handles count from 1 and each sensor maps to its last one |
| SensorHandles.SensorRoundTrip | hal/sensors/multihal.cpp:92-134 | a sensor's global handle leads back to its module and local handle |
| SensorHandles.InverseIffDistinct | hal/sensors/multihal.cpp:92-134 | the two maps are inverse iff no module lists a handle twice |
| SensorHandles.UniqueMeansDistinct | hal/sensors/multihal.cpp:640-711 | handles unique within each module are enough for that |
| SensorHandles.HandleTable.AssignGlobalHandle | hal/sensors/multihal.cpp:92-101 | both maps gain the new pair and the counter advances |
| SensorHandles.HandleTable.LazyInit | hal/sensors/multihal.cpp:671-702 | the maps cover all sensors of all modules in module order; the published handles are 1, 2, 3 and so on |
| SensorHandles.DroppedIff | hal/sensors/multihal.cpp:316-336 | a normal event is dropped iff its handle is unregistered, a metadata event iff its sensor field is -1 |
| SensorSystem.StepKeepsRings | hal/sensors/multihal.cpp:136-180 | every interleaving of unlocked writes and dequeues keeps every ring valid and its handed-out region free |
| SensorSystem.RingRefinesFifo | hal/sensors/SensorEventQueue.cpp:39-81 | in every run what the device polls returned is the consumed events, then the readable ones, then those not marked yet, and the region under writing overlaps none of the readable |
| SensorSystem.NoLostWakeup | hal/sensors/multihal.cpp:346-373 | in every run an unsignalled waiting writer has a full ring; an unsignalled waiting reader has set waiting_for_data and, polling for at least one event, has only empty rings |
| SensorSystem.ReaderWokenIff | hal/sensors/multihal.cpp:346-373 | in every run a waiting poll is woken iff a writer marked events since, or spuriously |
| SensorSystem.WriterWokenIff | hal/sensors/multihal.cpp:151-153 | in every run a writer waiting for space is woken iff the reader took an event from its ring since, or spuriously |
| SensorSystem.WriterInOrder | hal/sensors/multihal.cpp:143-178 | in every run a writer enters until it gets space, polls, and marks what a positive return brought before it enters again |
| SensorSystem.EnterTakesAll | hal/sensors/multihal.cpp:150-157 | in every run a writer waits iff its ring is full, and is otherwise given the largest contiguous free region |
| SensorSystem.ProducedAreWritten | hal/sensors/multihal.cpp:160-171 | in every run the events a device poll returns are those the device wrote last at these places |
| SensorSystem.ProducedIsReturned | hal/sensors/multihal.cpp:160-171 | in every run a module has produced as many events as its device polls returned |
| SensorSystem.PollReturnsWhatItDelivered | hal/sensors/multihal.cpp:338-378 | a poll returns between 1 and maxReads events, those delivered since it was called |
| SensorSystem.PollDeliversAtMost | hal/sensors/multihal.cpp:338-378 | in every run between a poll's call and return at least one and at most the maxReads of that call are delivered |
| SensorSystem.PollIsOver | hal/sensors/multihal.cpp:338-378 | between polls nothing is delivered |
| SensorSystem.EndToEndDelivery | hal/sensors/multihal.cpp:338-378 | in every run each module's delivered events are its consumed ones remapped, and the rest is in its ring or not marked yet |
| SensorSystem.EverySensorArrives | hal/sensors/multihal.cpp:316-378 | with the maps of the module lists exactly the metadata and registered events arrive, in order, each with a handle that leads back to its sensor |
| SensorSystem.NoReadsSleepsOnData | hal/sensors/multihal.cpp:338-378 | with events queued a poll goes to sleep at once iff maxReads is not positive |
| SensorSystem.RoundRobinIsFair | hal/sensors/multihal.cpp:338-378 | over any stretch of any run two rings that never run dry are read equally often, give or take one |
| SensorSystem.ScanDecreases | hal/sensors/multihal.cpp:352-368 | each round of the inner loop lowers (queued events, rings not yet found empty) |
| SensorSystem.PollScan | hal/sensors/multihal.cpp:338-378 | the inner loop terminates with the rings, index and events of the step system |
| WifiTables.DistinctTable | hal/wifi_hal/common.cpp:77-198 | with distinct keys registering, unregistering and finding work as on a map |
| WifiTables.EntryGoneIff | hal/wifi_hal/common.cpp:129-150 | unregistering a key removes a given entry iff no earlier entry has that key |
| WifiTables.Registry.Register | hal/wifi_hal/common.cpp:77-101 | appended iff there is room, else an error and no change |
| WifiTables.Registry.Unregister | hal/wifi_hal/common.cpp:175-198 | the first entry of the key is removed and returned, the others keep their order |
| WifiTables.Registry.MoveDown | hal/wifi_hal/common.cpp:142-144 | moving the rest down closes the gap |
| WifiTables.Registry.Get | hal/wifi_hal/common.cpp:200-214 | the first entry of the key, if any |
| WifiLifetime.StepKeepsInv | hal/wifi_hal/rtt.cpp:460-644 | every careful step of either thread keeps: references are the owner's plus the event thread's, one owner at most, handlers only of owned commands |
| WifiLifetime.HandlersAlive | hal/wifi_hal/wifi_hal.cpp:508-540 | in every careful run each handler's command has at least one reference |
| WifiLifetime.CallbackAlive | hal/wifi_hal/wifi_hal.cpp:517-534 | in every careful run a dispatched command is not deleted before its callback returns, even if it releases itself |
| WifiLifetime.ApiAlive | hal/wifi_hal/common.cpp:231-244 | in every careful run the API thread works only on commands that are not deleted |
| WifiLifetime.OwnerReleasedOnce | hal/wifi_hal/rtt.cpp:608-619 | in every careful run the owner's reference is released at most once, exactly once by deletion, whether completion or cancel wins |
| WifiLifetime.NoLeak | hal/wifi_hal/gscan.cpp:707-751 | in every careful run, with both threads at rest, a command is in the table iff it is not deleted |
| WifiLifetime.CancelDanglesIff | hal/wifi_hal/common.cpp:231-244 | whatever the tables hold, an undisturbed cancel leaves a handler on the command it deletes iff one of the command's own handlers stands behind another handler of the same event |
| WifiLifetime.UndoneLeavesIff | hal/wifi_hal/gscan.cpp:640-648 | the same for any tables: behind another handler, or not for an event undone |
| WifiLifetime.UndoDanglesIff | hal/wifi_hal/gscan.cpp:416-435 | in every run an undisturbed failed start leaves a handler on the command it deletes iff one of the command's own handlers stands behind another handler of the same event |
| WifiLifetime.CompletionLeavesNone | hal/wifi_hal/rtt.cpp:608-619 | in every run an undisturbed completion leaves no handler on its command, on shared events too |
| WifiLifetime.SharedEventDangles | hal/wifi_hal/rtt.cpp:460-496 | a run from the initial state: two commands started on one event, the second cancelled; the next event goes to a deleted command |
| WifiLifetime.FailedStartDangles | hal/wifi_hal/gscan.cpp:753-777 | a run from the initial state without any cancel: a second command on an event fails to start; the next event goes to a deleted command |
| WifiLifetime.RunKeepsOwnEvents | hal/wifi_hal/common.cpp:77-101 | in every run commands have handlers only for events of their own that they came to register for, and at most one for each |
| WifiLifetime.StartRegistersAll | hal/wifi_hal/gscan.cpp:416-435 | an undisturbed start with room in both tables leaves the command in its table and a handler for each of its events, in order |
| WifiLifetime.RunListens | hal/wifi_hal/common.cpp:77-101 | in every careful run without a stop by event and with room in the handler table a started command in the table has a handler for each of its events unless it is completing |
| WifiLifetime.EventReachesCommand | hal/wifi_hal/wifi_hal.cpp:508-540 | in such runs an event of a started command is dispatched to that command |
| WifiLifetime.StopEventStops | hal/wifi_hal/common.cpp:129-150 | in every careful run a stop by event takes away the handler of that event and no other |
| WifiCleanup.ProgressIff | hal/wifi_hal/wifi_hal.cpp:377-393 | a round lowers num_cmd - bad_commands iff its entry is not NULL |
| WifiCleanup.AfterRound | hal/wifi_hal/wifi_hal.cpp:377-393 | each round handles the next command of the original table, whether or not it leaves and whoever shares its id; a NULL changes nothing |
| WifiCleanup.EndsIff | hal/wifi_hal/wifi_hal.cpp:377-393 | the loop ends iff the table has no NULL entry, with every command handled once in order; else it stays at the first NULL for ever |
| WifiCleanup.StayersRemain | hal/wifi_hal/wifi_hal.cpp:377-393 | with distinct ids exactly the commands that do not leave the table remain |
| WifiCleanup.CallsAt | hal/wifi_hal/wifi_hal.cpp:377-393 | of those calls, calls 2i and 2i + 1 are the cancel and the release of command i |
| WifiCleanup.Hal.Cleanup | hal/wifi_hal/wifi_hal.cpp:377-393 | every registered command is cancelled once and then released once, before the next one is cancelled, in table order, also with shared ids |

## Left out

- TimerRuns.NoMissedWakeup: calcNextTimeout, which reads the timer list without its lock, is one step.
- TimerRuns.FiringOrder: assumes a monotone clock and non-negative delays; deadlines are microseconds, not pairs.
- RilEvents.EventLists.TimerAdd: requires microseconds that one carry can normalise; Timevals.TimerLessNeedsNormalised shows the comparison failing without.
- RilLoop.EventLoop.Pass: what an event function does happens when it returns, and concerns, for additions, events that are on no list and in no slot when the pass begins, each event once.
- RilLoop.EventLoop.TimerAdd: requires an event that is not watched; the source overwrites the descriptor of any other.
- RequestRuns.SerialIffCareful: my_enqueue and the channel part of a completion take no lock in the source and are single steps; two slots, as SIM_COUNT is 2.
- RequestRuns.AtMostOneResponse: tokens are identities that are never reused; responses sent by sendErrorResponse are not counted.
- RequestRuns.ProxyChannels.MyEnqueue: the linked queue is a sequence, payload buffers and their freeing are not modelled.
- WakeLock.RunKeepsInv: callback versions below 13 are not modelled; the channel id -1 is taken to be below RIL_URC; each single access to the pointer or a timer is atomic.
- CallbackReset.ResetIff: responders called without the read lock (sendErrorResponse, resendLastNITZTimeData) are not modelled.
- SensorSystem.PollScan: works on ring values rather than on the queue objects; `SensorRing.SensorEventQueue` proves the queue methods equal to the ring functions it uses.
- SensorSystem.EverySensorArrives: all sub-HAL opens succeed, event payloads are opaque, a device poll returns at most the length it was given.
- WifiLifetime.StepKeepsInv: one API thread; a careful step gives new commands ids and events that no live command has; each command-table operation is atomic, although the source takes no lock for it.
- WifiCleanup.Hal.Cleanup: requires a table without NULL entries, with which the source's loop would not end (WifiCleanup.EndsIff); the event loop has stopped and cancel registers nothing.
- HexDecode.ConvertHexStringToBytes: allocation succeeds.
- RIL_myProxyIdByThread: its lookup result is discarded by the source.
- HIDL marshalling, command and response tables, netlink parsing, SAP, lights, power, camera and shim libraries: field copying, tables and one-line wrappers.
- `sensors_poll_context_t::batch`, sub-HAL loading, pthreads, select and pipes beyond lock, wait, wake-byte and clock steps.
