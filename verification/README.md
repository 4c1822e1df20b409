# comapi: timers, event loop, byte streams and text codecs, in Dafny

A model of the event library's hard core, with proofs of what it keeps over every run. `dafny verify dfyconfig.toml`
checks the whole project.

Most components come in two forms that are proved to agree:

* a step machine on values (`State`, `Step`, `Legal`, `Next`, `Run`), about which the theorems over all runs are proved;
* a class in the shape of the C++ class, whose methods change fields step by step and are proved to take exactly those
  steps. Where the class keeps a ghost trace (`TimerQueue`, `EventFd`) its `Valid()` says that the fields are where the
  trace leads, so a theorem about runs is a theorem about every object, and the lemmas behind the class say so.

| component | step machine, theorems | class |
|---|---|---|
| timer scheduler | `Timer.dfy`, `OrderedQueue.dfy`, `Scheduler.dfy`, `ArmingRule.dfy`, `TimerHistory.dfy`, `HandlerEnds.dfy` | `Timer.dfy`, `TimerQueue.dfy` |
| cross-thread callback queue | `WakeUp.dfy` | `EventFd.dfy` |
| event registry and epoll | `Registry.dfy`, `Registration.dfy` | `EventCtrl.dfy` |
| byte buffer and CRLF framing | `Framing.dfy` | `Buffer.dfy`, `LineReader.dfy` |
| TCP connection | `Connection.dfy` | `TcpConnect.dfy` |
| connection pool | `TcpServer.dfy` | `TcpServer.dfy` |
| address text, path list | `Text.dfy`, `AddressText.dfy`, `PathList.dfy` | |
| thread start, loop pool | `ThreadStart.dfy`, `ThreadPool.dfy` | `ThreadPool.dfy` |

## What the outside world is

* The monotonic clock is a class whose every reading is arbitrary but not earlier than the last. Readings stay below
  2^62 ms, so signed 64-bit sums do not overflow; the one unsigned subtraction (src/timer/timer.cpp:63) is written out
  with its wrap-around.
* The instant of `timerfd_settime` is the reading from which the relative value was computed, in ms.
* The eventfd counter saturates; `epoll_ctl` fails exactly for a known (add) or unknown (modify, delete) descriptor;
  results of `send`, `readv` and `epoll_wait` are arbitrary parameters within what the call may return.
* A user callback is what it does to the modelled state: a finite script of registry commands, a list of posts, bytes
  taken out of the read buffer. The user callbacks of a connection stand in tail position, so what they call on the
  same connection is a further step; the counters `completions` and `closes` count the places where they are called.
* A `std::multimap` is a sequence sorted by key in which an equal key goes behind the ones already there; a
  `std::vector` or `std::list` is a sequence; a shared pointer is a reference.

## Where the code does not do what it promises

Each is stated as a lemma or contract that says exactly when the promise holds, most with a concrete run or value that
breaks it.

* Late arming: the delay is an unsigned difference, so an arming whose clock reading is past the deadline asks for
  about 2^64 ms (`LateArmingIsPossible`). The timerfd covers the earliest deadline throughout a run if and only if every
  arming reads the clock no later than the deadline it arms for (`ArmingInvariant`).
* The lazy arming asks the two maps separately (src/timer/timerQueue.cpp:161). One timer in the other map with the same
  deadline therefore does not keep an addition from arming again, and within the last 15 ms that moves the expiry behind
  the older timer's deadline (`TieAcrossMapsMovesExpiry`, `TieAcrossMapsIsPossible`). An addition arms if and only if its
  deadline is before everything in its own map and after nothing in the other, where at most one timer shares it
  (`AdditionArmsIff`).
* A recurring timer of interval 0 keeps the expiry handler in its loop, whatever the clock does
  (`ZeroIntervalIsReachable`, `ZeroIntervalNeverEnds`). In every reachable state the handler can run to its end, and its
  second loop is bounded while the clock stays below a horizon, if and only if no call of `addRecurringTimer` so far had
  interval 0 (`HandlerEndsIff`, `PassEndsIff`).
* The guard of `writeEvent` (src/net/tcp/tcpConnect.cpp:88) is inverted. As written, a byte that was buffered once is
  never sent (`NothingIsSentAsWritten`, `SecondByteIsStuck`). Conservation and order hold under both readings of the
  guard; draining is proved for the meant one.
* The address parser stores its base-256 number without `htonl` (src/net/tcp/socketOperation.cpp:192), so on a
  little-endian host parsing a printed address mirrors its octets; the round trip is the identity if and only if the
  octets are a palindrome (`RoundTripIff`, `LoopbackIsMirrored`). The printer is injective all the same, so pool names are distinct.
* A parsed number is truncated to 16 bits before the range check, so the text of 65536 is accepted as octet 0
  (`PrintedU16`) and that of -65535 as octet 1 (`NegativeU16`).
* `getEventLoopInThread` looks at its condition once; one spurious wake-up can make it return null
  (`SpuriousWakeUpReturnsNull`). It returns null in exactly those runs in which its wait is over before the loop is
  published (`NullIffTakenUnpublished`), and never in a run in which its own wait does not wake spuriously, whatever the
  wait of the new thread does (`LoopIsNotNull`, `SpuriousWakeUpsMayPass`).
* `Event::handle` calls the read callback twice for one report exactly when the callback is installed, the peer hung up
  without input pending and urgent data or a half-close is reported too (`ReadCalledTwiceIff`,
  `HungUpPeerIsReadTwice`).
* The 32-bit write index of a buffer goes back only when the buffer runs empty. An append is one on the byte queue if
  and only if the index does not wrap (`Buffer.Append`).
* Registry and interest list stop agreeing exactly through a modify with an object other than the registered one whose
  mask differs, or through closing a descriptor that is still registered: for one command (`AgreementIffHarmless`,
  `WrongModifyBreaks`), throughout a script (`ScriptAgreesIff`) and throughout a dispatch (`BatchAgreesIff`).
* The pool is the set of live connections if and only if no peer is accepted again while its connection is live
  (`PoolInvariant`, `SamePeerTwice`).

## Model

| member | source | states |
|---|---|---|
| Timers.ArmingDelayExact | src/timer/timer.cpp:61-76 | the delay is max(deadline - reading, 15) ms when the reading is in time and reaches deadline + 2^64 when it is late; an arming expires within 15 ms after its deadline, and not before it, if and only if it read the clock in time |
| Timers.MillisRoundsDown | src/timer/timer.cpp:31-37 | seconds * 1000 plus nanoseconds / 10^6 is the whole reading in ns rounded down to ms |
| Timers.Clock.Read | src/timer/timer.cpp:39-47 | a reading is normalised and never earlier, in ns and in ms, than the one before |
| Timers.Timer.constructor | src/timer/timer.cpp:8-11 | a new timer starts at a fresh clock reading |
| Timers.Timer.GetTimeout | src/timer/timer.cpp:13-29 | the seconds/nanoseconds split and carry give a normalised timespec exactly one interval after the start |
| Timers.Timer.GetTimeOutMSecond | src/timer/timer.cpp:31-37 | the deadline is the start in whole ms plus the interval, despite split and carry |
| Timers.Timer.GetTimeInterval | src/timer/timer.cpp:61-76 | the timespec for the timerfd is normalised, never the disarming zero, and is the arming delay to the nanosecond |
| Timers.Timer.Update | src/timer/timer.cpp:78-81 | the start becomes the current reading |
| OrderedQueue.InsertContents | src/timer/timerQueue.cpp:159 | an insertion adds exactly the new entry |
| OrderedQueue.InsertSorted | src/timer/timerQueue.cpp:159 | an insertion keeps the keys sorted |
| OrderedQueue.InsertIsStable | src/timer/timerQueue.cpp:159 | the new entry goes behind all entries of equal key, and nothing else moves |
| OrderedQueue.CountKeyPositive | src/timer/timerQueue.cpp:102 | a count is positive if and only if an entry has the key |
| OrderedQueue.CountKeyInsert | src/timer/timerQueue.cpp:102 | an insertion raises the count of its own key by one and no other |
| Scheduler.OnceView | src/timer/timerQueue.cpp:52-63 | only an addition and a firing touch the one-shot map: one inserts stably, the other takes the head |
| Scheduler.RecurringView | src/timer/timerQueue.cpp:65-81 | inserting the renewed key before erasing the old entry through the iterator leaves the map as erasing first would |
| Scheduler.RunJoin | src/timer/timerQueue.cpp:47-85 | a sequence of steps is a run if and only if its parts are, one from where the other ends |
| Scheduler.RunSnoc | src/timer/timerQueue.cpp:47-85 | a run is extended by any step legal where it ends |
| ArmingRule.QueuesStayGood | src/timer/timerQueue.cpp:65-81 | both maps stay sorted, with bounded keys, through every step |
| ArmingRule.HeadIsEarliest | src/timer/timerQueue.cpp:120-153 | the head the handler arms for is the minimum over both maps, and it finds one whenever there is one |
| ArmingRule.NeedResetMeansNoneBefore | src/timer/timerQueue.cpp:87-107 | a map that asks for an arming holds nothing earlier than the new deadline |
| ArmingRule.DeclineMeansEarlierEntry | src/timer/timerQueue.cpp:87-107 | a map that declines holds an earlier entry, or another one at the same deadline |
| ArmingRule.CountAtMostOne | src/timer/timerQueue.cpp:102 | a count is at most one if and only if no two entries have the key |
| ArmingRule.OwnMapAsksIff | src/timer/timerQueue.cpp:87-107 | the map that holds the new timer asks for an arming if and only if every key it held before is later |
| ArmingRule.OtherMapAsksIff | src/timer/timerQueue.cpp:87-107 | the other map asks if and only if none of its keys is earlier and at most one is equal |
| ArmingRule.AdditionArmsIff | src/timer/timerQueue.cpp:155-181 | an addition arms, for its own deadline, if and only if both hold; otherwise the timerfd is as before |
| ArmingRule.TieAcrossMapsMovesExpiry | src/timer/timerQueue.cpp:161-164 | an equal deadline in the other map: the addition arms again and the older timer's expiry moves behind its deadline |
| ArmingRule.TieAcrossMapsIsPossible | src/timer/timerQueue.cpp:155-181 | a run of two additions that moves the expiry from 105 to 115 |
| ArmingRule.SkipKeepsEarliest | src/timer/timerQueue.cpp:161-164 | an addition that skips the arming leaves the minimum over both maps where it was |
| ArmingRule.ArmedForIsEarliest | src/timer/timerQueue.cpp:155-181 | every arming is for the minimum over both maps |
| ArmingRule.ArmingCovers | src/timer/timerQueue.cpp:109-118 | after an arming the timerfd covers the pending timers if and only if the reading was in time |
| ArmingRule.SkipCovers | src/timer/timerQueue.cpp:87-107 | a skipped arming never leaves an earlier deadline uncovered |
| ArmingRule.CoveredIffInTime | src/timer/timerQueue.cpp:47-181 | one step: covered afterwards if and only if the step's arming was in time |
| ArmingRule.ArmingInvariant | src/timer/timerQueue.cpp:47-181 | every run: whenever timers are pending outside the handler the timerfd expires at d <= e <= d + 15 for the earliest deadline d, if and only if every arming was in time |
| ArmingRule.LateArmingIsPossible | src/timer/timer.cpp:61-64 | a run of one addition after which the timerfd is set 2^64 ms late |
| ArmingRule.FiredOrDueHolds | src/timer/timerQueue.cpp:52-81 | until something fires, a due timer stays in front of one of the two loops |
| ArmingRule.ExpiryFiresSomething | src/timer/timerQueue.cpp:47-85 | every expiry of a covering timerfd fires at least one timer before the handler re-arms |
| TimerHistory.OnceInvHolds | src/timer/timerQueue.cpp:52-63 | every run: one-shot timers added are the pending plus the fired, identities distinct, none fired early |
| TimerHistory.OnceTimersFireExactlyOnce | src/timer/timerQueue.cpp:52-63 | every reachable state: an added one-shot timer is either pending or fired once, never before start plus interval |
| TimerHistory.OncePass | src/timer/timerQueue.cpp:52-63 | a pass fires a prefix of the map in order and leaves the rest |
| TimerHistory.OncePassFiresAllDue | src/timer/timerQueue.cpp:52-63 | a pass fires exactly the timers due at the reading that ended it, in deadline order with ties in insertion order |
| TimerHistory.RecurringInvStep | src/timer/timerQueue.cpp:65-81 | a step loses and doubles no recurring timer and keeps the firings of each an interval apart |
| TimerHistory.RecurringInvHolds | src/timer/timerQueue.cpp:65-81 | the same over every run |
| TimerHistory.ReachableInv | src/timer/timerQueue.cpp:65-81 | the same in every reachable state |
| TimerHistory.OneEntryEach | src/timer/timerQueue.cpp:65-81 | each recurring timer sits in exactly one entry |
| TimerHistory.ReachableSpaced | src/timer/timerQueue.cpp:65-81 | two firings of one timer are at least its interval apart, however late the handler ran |
| TimerHistory.SpacedFirings | src/timer/timerQueue.cpp:65-81 | n firings of one timer span at least n - 1 intervals |
| TimerHistory.WindowBound | src/timer/timerQueue.cpp:65-81 | firings within a window of readings number at most 1 + window / interval |
| TimerHistory.FiringsAreBounded | src/timer/timerQueue.cpp:65-81 | between two states of a run a timer fires at most 1 + elapsed / interval times, so once under a frozen clock |
| TimerHistory.FireReducesWork | src/timer/timerQueue.cpp:65-81 | with a positive interval each iteration strictly lowers the sum over entries of max(0, H + 1 - key) |
| TimerHistory.RecurringPassEnds | src/timer/timerQueue.cpp:65-81 | a pass whose readings stay at or below H has at most that many iterations |
| TimerHistory.ZeroIntervalStaysDue | src/timer/timerQueue.cpp:65-81 | a due timer of interval 0 is due again after every iteration |
| TimerHistory.ZeroIntervalIsReachable | src/timer/timerQueue.cpp:65-81 | three steps lead to a due timer of interval 0 in front of the loop |
| TimerHistory.ZeroIntervalNeverEnds | src/timer/timerQueue.cpp:65-81 | with such a timer the loop has no exit |
| TimerHistory.EntryStaysOrFires | src/timer/timerQueue.cpp:65-81 | an entry leaves the recurring map only by firing |
| TimerHistory.RecurringPassFiresAllDue | src/timer/timerQueue.cpp:65-81 | a complete second loop fires, at least once, exactly those of the entries it finds that are due at the reading that ended it, and leaves none due at that reading |
| HandlerEnds.KeysWithinHolds | src/timer/timerQueue.cpp:65-81 | every run: no recurring key is further ahead of the clock than the interval of its timer |
| HandlerEnds.PositiveIffAdded | src/timer/timerQueue.cpp:173-181 | the intervals in the recurring map are positive if and only if those of all additions were |
| HandlerEnds.Reachable | src/timer/timerQueue.cpp:47-181 | every reachable state: a due timer of interval 0 is in the map if and only if some addition had interval 0 |
| HandlerEnds.FrozenPass | src/timer/timerQueue.cpp:65-81 | with positive intervals the second loop ends even while the clock stands still |
| HandlerEnds.LongPass | src/timer/timerQueue.cpp:65-81 | with a due timer of interval 0 it goes on for any number of iterations even then |
| HandlerEnds.PassEndsIff | src/timer/timerQueue.cpp:65-81 | every reachable state in front of the second loop: it can end, and is bounded below any horizon of readings, if and only if no recurring timer was added with interval 0 |
| HandlerEnds.NeverRearms | src/timer/timerQueue.cpp:52-84 | with a due timer of interval 0 the handler does not reach its closing arming |
| HandlerEnds.HandlerEndsIff | src/timer/timerQueue.cpp:47-85 | every reachable state outside the handler: a complete run of the handler exists if and only if no recurring timer was added with interval 0 |
| TimerQueues.TimerFd.SetTime | src/timer/timerQueue.cpp:109-118 | a relative one-shot setting; zero disarms |
| TimerQueues.TimerFd.Read | src/timer/timerQueue.cpp:37-45 | a read uses up an expiry that has happened and nothing else |
| TimerQueues.TimerQueue.constructor | src/timer/timerQueue.cpp:14-19 | both maps start empty and the trace starts here |
| TimerQueues.TimerQueue.NeedResetTimer | src/timer/timerQueue.cpp:87-107 | decides by keys and by the timeout the object computes, as the machine does |
| TimerQueues.TimerQueue.ResetTimerFor | src/timer/timerQueue.cpp:109-118 | the timerfd is set to the reading plus the arming delay of this timer |
| TimerQueues.TimerQueue.ResetTimer | src/timer/timerQueue.cpp:120-153 | choosing by the timeouts the objects compute picks the minimum that the keys give |
| TimerQueues.TimerQueue.ArmForNew | src/timer/timerQueue.cpp:161-164 | arms exactly when both maps ask for it, the second asked only if the first does |
| TimerQueues.TimerQueue.InsertOnce | src/timer/timerQueue.cpp:157-159 | the new object sits in one entry, under the deadline it computes |
| TimerQueues.TimerQueue.InsertRecurring | src/timer/timerQueue.cpp:175-176 | the same for the recurring map |
| TimerQueues.TimerQueue.AddOnceTimer | src/timer/timerQueue.cpp:155-165 | one addition step; key coherence, separation and the trace are kept, the other map is untouched; the timerfd is armed for the new deadline if and only if it is a new minimum as in AdditionArmsIff, and left alone if the own map held anything as early |
| TimerQueues.TimerQueue.AddRecurringTimer | src/timer/timerQueue.cpp:173-181 | the same for a recurring timer, with the maps exchanged |
| TimerQueues.TimerQueue.BeginPass | src/timer/timerQueue.cpp:49-50 | the handler starts by reading the timerfd |
| TimerQueues.TimerQueue.FireOnceHead | src/timer/timerQueue.cpp:61-62 | one firing step, and the entry is gone |
| TimerQueues.TimerQueue.RunOnceTimers | src/timer/timerQueue.cpp:54-63 | the loop takes firing steps and one exit, and ends |
| TimerQueues.TimerQueue.RenewHead | src/timer/timerQueue.cpp:73-79 | updating the object under its old key, inserting the new key and erasing the old entry restores coherence and separation and is one firing step |
| TimerQueues.TimerQueue.RunRecurringTimers | src/timer/timerQueue.cpp:65-81 | the loop takes firing steps and one exit, and ends when all intervals are positive |
| TimerQueues.TimerQueue.RearmAfterPass | src/timer/timerQueue.cpp:83-84 | the closing arming, for the earliest pending timer |
| TimerQueues.TimerQueue.TimerHandle | src/timer/timerQueue.cpp:47-85 | the whole handler is one pass of steps, starts and ends at a public boundary, and creates no timer |
| TimerQueues.PendingTimersAreCovered | src/timer/timerQueue.cpp:47-181 | every object at every public boundary: the timerfd is set within 15 ms after the earliest deadline its Timer objects compute, given in-time armings |
| TimerQueues.PendingOnceHasNotFired | src/timer/timerQueue.cpp:52-63 | every object: a one-shot timer in the map has never fired |
| TimerQueues.RecurringTimersAreKept | src/timer/timerQueue.cpp:65-81 | every object: the recurring map holds exactly the recurring timers added, once each, with spaced firings |
| TimerQueues.HandlerOfObjectEndsIff | src/timer/timerQueue.cpp:47-85 | every object: its handler can run to its end if and only if no Timer in its recurring map has interval 0, which is what TimerHandle requires |
| WakeUp.NoLostWakeUpStep | src/event/eventfd.cpp:48-81 | each atomic step of any thread keeps: a waiting callback has a wake-up on its way |
| WakeUp.InOrderStep | src/event/eventfd.cpp:61-97 | each step keeps: started ++ rest of the batch ++ queue is what was posted |
| WakeUp.InvHolds | src/event/eventfd.cpp:48-97 | both over every interleaving of any number of posters with the loop |
| WakeUp.ExecutedIsPrefixOfPosted | src/event/eventfd.cpp:61-97 | callbacks run at most once each, in push order, in every reachable state |
| WakeUp.BatchIsFixed | src/event/eventfd.cpp:83-97 | nothing but a swap changes what the batch consists of |
| WakeUp.BatchExecutesTheSwappedQueue | src/event/eventfd.cpp:83-97 | a batch executes exactly the queue of its swap, although its callbacks and other threads post meanwhile |
| WakeUp.LoopStepLowersPotential | src/event/eventfd.cpp:76-97 | each step of the loop lowers a bound on the work left, re-posting included |
| WakeUp.SettleRuns | src/event/eventfd.cpp:76-97 | the loop alone runs into its wait within the bound |
| WakeUp.BlockedMeansDone | src/event/eventfd.cpp:48-81 | with no poster between push and write the loop blocks only when everything posted was executed |
| WakeUp.EverythingIsDelivered | src/event/eventfd.cpp:48-97 | from every reachable state of that kind everything posted is executed, once and in order, within the bound |
| EventFds.EventFd.AtomicPushBack | src/event/eventfd.cpp:61-66 | the critical section is the push step |
| EventFds.EventFd.PostImpl | src/event/eventfd.cpp:48-59 | an empty function changes nothing; any other is pushed, then signalled |
| EventFds.EventFd.AtomicPopAll | src/event/eventfd.cpp:68-74 | the swap hands out the whole queue and leaves an empty one |
| EventFds.EventFd.Execute | src/event/eventfd.cpp:14-17 | what a callback posts is queued in order and signalled, and does not touch the batch |
| EventFds.EventFd.PopAndExecuteFirstCallback | src/event/eventfd.cpp:92-97 | the first callback, and only it, is executed and leaves the batch |
| EventFds.EventFd.ExecuteCallbacks | src/event/eventfd.cpp:83-90 | the queue of this moment is executed in order; afterwards the queue is what the batch posted, signalled if and only if it is not empty |
| EventFds.EventFd.HandleEvents | src/event/eventfd.cpp:76-81 | the same for the read callback as a whole |
| EventFds.NothingIsLost | src/event/eventfd.cpp:48-97 | every object: started ++ batch ++ queue is what was posted, and a waiting queue is signalled |
| Registry.TogglingSetsOrClears | src/event/event.cpp:19-44 | enabling sets all bits of the flags, disabling clears all of them |
| Registry.TogglingKeepsOthers | src/event/event.cpp:19-44 | neither changes any other bit |
| Registry.KindsAreSeparate | src/event/event.cpp:19-44 | reading, writing and error interest have their own epoll bits, and changing one kind leaves the others |
| Registration.AddRegisters | src/event/eventCtrl.cpp:27-32 | an addition enters the object and its mask under an unknown descriptor, keeps what a known one has, and touches no other descriptor |
| Registration.DeleteUnregisters | src/event/eventCtrl.cpp:34-42 | a deletion takes the descriptor off both sides and touches no other |
| Registration.DeleteFdUnregisters | src/event/eventCtrl.cpp:66-76 | the same by descriptor if it is registered, nothing otherwise |
| Registration.ScriptOfOne | src/event/eventCtrl.cpp:98 | a script of one command is that command |
| Registry.AgreementIffHarmless | src/event/eventCtrl.cpp:27-76 | a command keeps registry and interest list in agreement if and only if it is not a modify with a wrong mask or a close of a registered descriptor |
| Registry.WrongModifyBreaks | src/event/eventCtrl.cpp:44-51 | a modify through a second object for a registered descriptor breaks the agreement |
| Registry.SetMaskAgrees | src/event/event.cpp:19-50 | every mask change reaches the interest list through the registered object, and only its own descriptor |
| Registry.ScriptKeepsAgreement | src/event/eventCtrl.cpp:27-76 | the same over a whole script of commands |
| Registry.ScriptAgreesIff | src/event/eventCtrl.cpp:27-76 | registry and interest list agree after every command of a script if and only if each command is harmless where it runs |
| Registry.AgreementThroughDispatch | src/event/eventCtrl.cpp:81-105 | whatever handlers add, delete and toggle in mid-batch, afterwards registry and interest list agree and no null entry is left |
| Registry.BatchAgreesIff | src/event/eventCtrl.cpp:81-105 | the same throughout all handlers of a dispatch |
| Registry.OrdinaryHandlersAgree | src/event/eventCtrl.cpp:81-105 | handlers that never modify through an object of their own and never close a descriptor need no further condition |
| Registry.RunScriptConcat | src/event/event.cpp:105-143 | scripts run one after the other are one script |
| Registry.ScriptRegisters | src/event/eventCtrl.cpp:27-76 | only an addition makes an object registered |
| Registry.UnregisteredIsNotCalled | src/event/eventCtrl.cpp:92-104 | an object that is not registered at some point of a batch, and that no later handler adds, is not called from there on |
| Registration.DeletionTakesEffect | src/event/eventCtrl.cpp:34-76 | deleting an object, or its descriptor, leaves the object registered under no descriptor |
| Registration.DeletedStaysOut | src/event/eventCtrl.cpp:34-76 | so does every script that deletes it and does not add it again, whatever else it does |
| Registration.DeletedIsNotCalled | src/event/eventCtrl.cpp:92-104 | an event that the handler of one report deletes is not called by any later report of the batch |
| Registration.RegisteredIsCalled | src/event/eventCtrl.cpp:95-98 | the object registered for a report is called for it |
| Registration.DispatchEffect | src/event/eventCtrl.cpp:92-104 | a report for a registered object runs the scripts of the calls its handler makes; one for anything else takes the descriptor off both sides and touches no other |
| Registration.DispatchAllSnoc | src/event/eventCtrl.cpp:92-104 | every report is dispatched, in the state that the earlier ones leave |
| Registry.CallsExactly | src/event/event.cpp:105-143 | bit by bit, which callbacks a report calls: the error callback alone on an error, else hang-up read, read and write, each at most once and in this order |
| Registry.CallsRunTheirScripts | src/event/event.cpp:105-143 | each call runs the script of its own callback |
| Registry.ReadCalledTwiceIff | src/event/event.cpp:105-143 | the handler calls the read callback in both its places, and runs both scripts, if and only if the callback is installed and the report has hang-up without input, no error, and urgent data or half-close; without a read callback it calls it in neither |
| Registry.HungUpPeerIsReadTwice | src/event/event.cpp:119-134 | the report of hang-up and half-close runs both scripts |
| EventCtrls.Epoll.AddEvent | src/event/epoll.cpp:42-50 | fails if and only if the descriptor is known |
| EventCtrls.Epoll.ModifyEvent | src/event/epoll.cpp:73-81 | fails if and only if it is unknown |
| EventCtrls.Epoll.RemoveFd | src/event/epoll.cpp:62-71 | fails if and only if it is unknown; afterwards it is unknown |
| EventCtrls.Event.Store | src/event/event.cpp:92-95 | a new mask goes to epoll through the object registered for the descriptor |
| EventCtrls.Event.Enable | src/event/event.cpp:19-44 | the flags of one kind of interest are set or cleared, every other bit is kept, and the registered object's new mask is in epoll |
| EventCtrls.Event.DisableAll | src/event/event.cpp:46-50 | the mask becomes empty, and so does the registered object's interest in epoll |
| EventCtrls.Event.RemoveFromLoop | src/event/event.cpp:97-100 | deletion by descriptor |
| EventCtrls.Event.Invoke | src/event/event.cpp:121-124 | a callback is called if and only if it is installed |
| EventCtrls.Event.Handle | src/event/event.cpp:105-143 | the callbacks a report asks for run in order: error alone, else hang-up, read, write |
| EventCtrls.EventCtrl.AddEvent | src/event/eventCtrl.cpp:27-32 | the object enters the registry and its mask epoll, each unless the descriptor is known there |
| EventCtrls.EventCtrl.DeleteEvent | src/event/eventCtrl.cpp:34-42 | the descriptor of the object leaves the registry and epoll, and no other does |
| EventCtrls.EventCtrl.DeleteFd | src/event/eventCtrl.cpp:66-76 | the deletion by descriptor, only if registered |
| EventCtrls.EventCtrl.ModifyEvent | src/event/eventCtrl.cpp:44-51 | the mask of the argument goes to epoll if its descriptor is registered |
| EventCtrls.EventCtrl.ModifyFd | src/event/eventCtrl.cpp:53-64 | the mask of the registered object goes to epoll; a null entry is skipped |
| EventCtrls.EventCtrl.RunScript | src/event/eventCtrl.cpp:98 | a callback is a script of commands on the live objects |
| EventCtrls.EventCtrl.DispatchOne | src/event/eventCtrl.cpp:92-104 | the registered object runs the scripts its handler calls for; for an unknown or null entry the descriptor leaves both sides |
| EventCtrls.EventCtrl.WaitAndRunHandler | src/event/eventCtrl.cpp:81-105 | the whole dispatch on live objects; registry and interest list agree afterwards if they did and the handlers' commands are harmless |
| Framing.CrlfBytes | src/net/tcp/buffer.cpp:183 | the separator is the bytes 13 and 10 in this order |
| Framing.FirstCrlfIsFirst | src/net/tcp/buffer.cpp:181-186 | a hit is a CRLF with none before it; no hit means there is none |
| Framing.HitIsStable | src/net/tcp/buffer.cpp:181-186 | later appends do not move a hit |
| Framing.SplitLosesNothing | src/net/tcp/buffer.cpp:181-202 | lines, CRLFs and rest are the input |
| Framing.LinesAreMinimal | src/net/tcp/buffer.cpp:181-202 | no line and no rest contains a CRLF |
| Framing.SplitAppend | src/net/tcp/buffer.cpp:98-103 | appended bytes concern only the incomplete rest |
| Framing.FeedFrom | src/net/tcp/buffer.cpp:98-202 | taking the complete lines after every append gives the lines of the whole input |
| Framing.FramingIgnoresChunking | src/net/tcp/buffer.cpp:98-202 | two ways of cutting the same input into appends give the same lines and rest |
| Buffers.Buffer.constructor | src/net/tcp/buffer.cpp:12-15 | a new buffer is an empty queue |
| Buffers.Buffer.ReadableBytes | src/net/tcp/buffer.cpp:38-41 | the length of the queue |
| Buffers.Buffer.IsEmpty | src/net/tcp/buffer.cpp:28-31 | true if and only if the queue is empty |
| Buffers.Buffer.EnsureWritableBytes | src/net/tcp/buffer.cpp:113-119 | grows to exactly what is needed and keeps what is stored |
| Buffers.Buffer.Append | src/net/tcp/buffer.cpp:98-103 | appends to the queue, if and only if the 32-bit index does not wrap |
| Buffers.Buffer.ReadFromIO | src/net/tcp/buffer.cpp:53-93 | appends exactly the bytes received, whether they fit, spill into the second block or find no room; an error changes nothing |
| Buffers.Buffer.ClearReadIndex | src/net/tcp/buffer.cpp:126-136 | drops a prefix; dropping all of it moves both indices back |
| Buffers.Buffer.ReadBytes | src/net/tcp/buffer.cpp:142-172 | the bytes handed out followed by the queue left are the old queue |
| Buffers.Buffer.Swap | src/net/tcp/buffer.cpp:174-179 | exchanges two queues |
| Buffers.Buffer.FindCRLF | src/net/tcp/buffer.cpp:181-186 | finds the first CRLF of the queue |
| Buffers.Buffer.RetrieveUntil | src/net/tcp/buffer.cpp:191-202 | drops up to a position; one outside the queue changes nothing |
| LineReader.TakeLine | src/net/tcp/buffer.cpp:181-202 | the bytes before a CRLF that was found, and retrieval past it |
| LineReader.RetrieveLines | src/net/tcp/buffer.cpp:181-202 | repeating findCRLF and retrieveUntil on a Buffer yields exactly the complete lines of its queue and leaves the rest |
| LineReader.FeedChunks | src/net/tcp/buffer.cpp:98-202 | doing so after every append yields the lines and the rest of the whole input, however it was cut into appends |
| Connection.WriteAcceptedIff | src/net/tcp/tcpConnect.cpp:172-217 | a payload is accepted if and only if the connection is not disconnected and no direct send fails with EPIPE, ECONNRESET, ENOTCONN or EINVAL; otherwise nothing changes |
| Connection.AcceptedGoes | src/net/tcp/tcpConnect.cpp:184-217 | an accepted payload is split between kernel and buffer by a direct send and put behind the buffer otherwise; completion is reported at once only if the kernel takes all of it |
| Connection.BlockedSendIsBuffered | src/net/tcp/tcpConnect.cpp:194-217 | a send that would block loses nothing: the payload is buffered and write interest on |
| Connection.ClosesIff | src/net/tcp/tcpConnect.cpp:57-133 | a step closes if and only if it is an error event, an end of stream, or a read or unguarded write failing with anything but would-block, and the connection was not disconnected |
| Connection.PhaseChanges | src/net/tcp/tcpConnect.cpp:150-235 | otherwise the phase changes only by connecting and by shutting down a connected connection |
| Connection.ReadDelivers | src/net/tcp/tcpConnect.cpp:57-67 | received bytes go behind those not taken yet, and nothing but the message callback takes any |
| Connection.ConservedStep | src/net/tcp/tcpConnect.cpp:57-219 | each step keeps sent ++ buffered == accepted and taken ++ buffered == received |
| Connection.StreamsKeptStep | src/net/tcp/tcpConnect.cpp:57-219 | and write interest on exactly while bytes are buffered |
| Connection.StreamsAreConserved | src/net/tcp/tcpConnect.cpp:57-219 | both over every run with partial, blocking and failing sends, under either reading of the guard |
| Connection.WriteEventSendsIff | src/net/tcp/tcpConnect.cpp:86-104 | a write event sends if and only if the guard is the meant one and the kernel takes bytes |
| Connection.NothingIsSentAsWritten | src/net/tcp/tcpConnect.cpp:86-92 | as written, once a byte is buffered nothing more is sent in any continuation |
| Connection.SecondByteIsStuck | src/net/tcp/tcpConnect.cpp:86-92 | a run of three steps that shows it, next to the same run under the meant guard |
| Connection.ProductiveEventsDrain | src/net/tcp/tcpConnect.cpp:94-105 | under the meant guard productive write events empty the buffer in at most as many events as it has bytes; interest and completion change exactly on the emptying one |
| Connection.ClosesAtMostOnce | src/net/tcp/tcpConnect.cpp:122-155 | over every run the close callback runs at most once per connectedHandle |
| TcpConnects.TcpConnect.constructor | src/net/tcp/tcpConnect.cpp:14-29 | a new connection has two empty buffers, no interest, and the printed peer address as its name |
| TcpConnects.TcpConnect.ConnectedHandle | src/net/tcp/tcpConnect.cpp:150-155 | the connect step, with interest in reading and errors |
| TcpConnects.TcpConnect.CloseEvent | src/net/tcp/tcpConnect.cpp:122-133 | the close is reported unless already disconnected |
| TcpConnects.TcpConnect.ErrorEvent | src/net/tcp/tcpConnect.cpp:157-160 | an error closes |
| TcpConnects.TcpConnect.ShutdownWrite | src/net/tcp/tcpConnect.cpp:228-235 | only a connected connection starts disconnecting and shuts down its socket's write side |
| TcpConnects.TcpConnect.SendAtOnce | src/net/tcp/tcpConnect.cpp:184-208 | a direct send is tried only with nothing waiting; exactly the errors 32, 104, 107 and 22 refuse the payload |
| TcpConnects.TcpConnect.BufferRest | src/net/tcp/tcpConnect.cpp:210-217 | the rest goes behind what is buffered and interest on, up to the wrap of the index |
| TcpConnects.TcpConnect.Write | src/net/tcp/tcpConnect.cpp:172-219 | the write step on the two-index buffer, conservation included, exactly when the index does not wrap |
| TcpConnects.TcpConnect.ClearSent | src/net/tcp/tcpConnect.cpp:95-105 | what was taken leaves the buffer, and interest goes with the last byte |
| TcpConnects.TcpConnect.WriteEvent | src/net/tcp/tcpConnect.cpp:86-120 | the write-event step with the guard as written |
| TcpConnects.TcpConnect.ReadEvent | src/net/tcp/tcpConnect.cpp:57-83 | the read-event step on the two-index buffer, exactly when the index does not wrap |
| TcpConnects.TcpConnect.TakeInput | src/net/tcp/buffer.cpp:161-172 | a message callback takes the front of what was received and leaves the rest |
| TcpServers.PoolStaysLiveIff | src/net/tcp/tcpServer.cpp:30-72 | a step keeps the pool equal to the live connections if and only if it does not accept a peer still live |
| TcpServers.AcceptKeepsIff | src/net/tcp/tcpServer.cpp:30-56 | the accepting case, by injectivity of the names |
| TcpServers.SamePeerTwice | src/net/tcp/tcpServer.cpp:53-72 | two accepts of one peer leave a live connection outside the pool, and its close takes the other one out |
| TcpServers.CloseKeeps | src/net/tcp/tcpServer.cpp:106-111 | the closing case |
| TcpServers.PoolInvariant | src/net/tcp/tcpServer.cpp:30-111 | the same throughout every run |
| TcpServers.TcpServer.AddConnect | src/net/tcp/tcpServer.cpp:53-56 | an entry already there is kept |
| TcpServers.TcpServer.RemoveConnect | src/net/tcp/tcpServer.cpp:69-72 | the entry of the name is removed |
| TcpServers.TcpServer.NewConnected | src/net/tcp/tcpServer.cpp:30-51 | the accept step with a fresh, connected connection |
| TcpServers.TcpServer.ConnectCloseEvent | src/net/tcp/tcpServer.cpp:106-111 | the close step, by the connection's own name |
| AddressText.PrintBytes | src/net/tcp/socketOperation.cpp:207-216 | the loop prints the bytes in memory order, joined by dots |
| AddressText.IpToString | src/net/tcp/socketOperation.cpp:205-220 | octets, a colon and the port in host order |
| AddressText.StringToInt | src/net/tcp/socketOperation.cpp:229-237 | the leading number, truncated to 16 bits; false where stoi throws |
| AddressText.SplitDots | src/net/tcp/socketOperation.cpp:150-162 | the loop yields the pieces between all dots, empty ones included |
| AddressText.ReadOctets | src/net/tcp/socketOperation.cpp:169-180 | succeeds if and only if every piece is an octet text, with their values |
| AddressText.ShiftTogether | src/net/tcp/socketOperation.cpp:182-187 | the shifts build the base-256 number and lose no bit |
| AddressText.ToAddrIpv4 | src/net/tcp/socketOperation.cpp:148-194 | accepts exactly four octet texts and stores their number unswapped |
| AddressText.ToAddrPortIpv4 | src/net/tcp/socketOperation.cpp:129-146 | splits at the first colon; fails without one or without a port number |
| AddressText.PrintedU16 | src/net/tcp/socketOperation.cpp:229-237 | which decimal numbers the parser takes for octets: those below 2^31 with lowest 16 bits at most 255 |
| AddressText.MirroredIsInvolution | src/net/tcp/socketOperation.cpp:192 | mirroring twice is the identity, once exactly for palindromic octets |
| AddressText.NegativeU16 | src/net/tcp/socketOperation.cpp:229-237 | a negative number is taken by its lowest 16 bits |
| AddressText.PortBytes | src/net/tcp/socketOperation.cpp:205-220 | the printed and the stored port are the two bytes in network order |
| AddressText.ParseNeedsColon | src/net/tcp/socketOperation.cpp:131-135 | a text without a colon is rejected |
| AddressText.ParseIff | src/net/tcp/socketOperation.cpp:129-194 | any other text is accepted if and only if four octet texts stand between the dots before its first colon and a number behind it; which address and port it then gives |
| AddressText.EveryTextHasParts | src/net/tcp/socketOperation.cpp:131-162 | every text with a colon has that form |
| AddressText.PrintedLoopback | src/net/tcp/socketOperation.cpp:205-220 | one address in full: 127.0.0.1:8080 |
| AddressText.ParsePrinted | src/net/tcp/socketOperation.cpp:129-220 | parsing a printed address restores the port and every octet, in mirrored order |
| AddressText.RoundTripIff | src/net/tcp/socketOperation.cpp:129-220 | the round trip is the identity if and only if the octets are a palindrome |
| AddressText.LoopbackIsMirrored | src/net/tcp/socketOperation.cpp:192 | parsing the text of 127.0.0.1 does not give the printed address back |
| AddressText.TwoRoundTrips | src/net/tcp/socketOperation.cpp:129-220 | two round trips are the identity for every address |
| AddressText.PrintIsInjective | src/net/tcp/tcpServer.cpp:39-41 | different peers have different pool names |
| Text.SplitAtSeparator | src/net/tcp/socketOperation.cpp:150-162 | splitting at a separator concatenates the pieces of both sides |
| Text.SplitInvertsJoin | src/net/tcp/socketOperation.cpp:150-162 | splitting inverts joining for all lists of pieces free of the separator |
| Text.JoinInvertsSplit | src/net/tcp/socketOperation.cpp:150-162 | every text is its pieces joined by the separator |
| Text.NoLeadingZero | src/net/tcp/socketOperation.cpp:211-218 | no number but 0 is printed with a leading zero |
| Text.StoISkipsSpace | src/net/tcp/socketOperation.cpp:229-237 | stoi skips the white space that isspace accepts |
| Text.SpaceCharacters | src/net/tcp/socketOperation.cpp:229-237 | which six characters these are |
| Text.StoIOfSigned | src/net/tcp/socketOperation.cpp:229-237 | stoi takes one sign, down to -2^31 |
| Text.StoIIgnoresRest | src/net/tcp/socketOperation.cpp:229-237 | stoi ignores what follows the digits |
| Text.StoIRejects | src/net/tcp/socketOperation.cpp:229-237 | stoi throws without a digit behind white space and sign |
| Text.PrintedValue | src/net/tcp/socketOperation.cpp:229-237 | reading a printed number gives the number |
| Text.StoIOfPrinted | src/net/tcp/socketOperation.cpp:229-237 | stoi inverts printing up to the limit of int and throws beyond |
| PathList.PathsAtColon | src/plugin/pluginCreator.cpp:86-110 | split(a ":" b) == split(a) ++ split(b) for all strings |
| PathList.PathsAreProper | src/plugin/pluginCreator.cpp:86-110 | no piece is empty or contains a colon |
| PathList.PathsInvertJoin | src/plugin/pluginCreator.cpp:86-110 | splitting inverts joining on every list of non-empty colon-free pieces |
| PathList.ColonSeparatedStringToPaths | src/plugin/pluginCreator.cpp:86-110 | the iterator loop computes that split |
| ThreadStart.SafeHolds | src/thread/thread.cpp:15-31 | every interleaving: no run before start, nobody asleep on a condition already true, a loop that is returned is the published one |
| ThreadStart.LoopIsNotNull | src/thread/eventThread.cpp:10-33 | unless the creator's own wait wakes spuriously, the loop returned is the one published |
| ThreadStart.NullIffTakenUnpublished | src/thread/eventThread.cpp:10-21 | of all runs that returned, null was returned by exactly those whose wait was over before the loop was published; all others returned the published loop |
| ThreadStart.SpuriousWakeUpReturnsNull | src/thread/eventThread.cpp:10-21 | with one, null can be returned |
| ThreadStart.SpuriousWakeUpsMayPass | src/thread/thread.cpp:22-31 | two runs with a spurious wake-up, one of each wait, that return the loop |
| ThreadStart.StepsComeCloser | src/thread/eventThread.cpp:10-33 | every proper step of either thread lowers the distance to the end |
| ThreadStart.NoDeadlock | src/thread/eventThread.cpp:10-33 | some thread can move until both are done |
| ThreadStart.ProperRunsAreShort | src/thread/eventThread.cpp:10-33 | runs without spurious wake-ups are bounded by the distance |
| ThreadStart.StartAlwaysCompletes | src/thread/eventThread.cpp:10-33 | every run that only a spurious wake-up could continue has ended with the loop published, and returned unless the creator's wait woke spuriously; without spurious wake-ups within eight steps |
| ThreadPools.IndexWalksRound | src/thread/eventThreadPool.cpp:50-64 | the index walks the pool and wraps, the 16-bit limit included |
| ThreadPools.EachLoopOnce | src/thread/eventThreadPool.cpp:50-64 | among the calls of one round each reachable loop is chosen exactly once |
| ThreadPools.PoolEntryIsNullIff | src/thread/eventThreadPool.cpp:18-31 | an entry of the pool is null exactly where the wait was over before the loop was published, and the thread's own loop everywhere else |
| ThreadPools.PoolHasNoNull | src/thread/eventThreadPool.cpp:18-31 | start handshakes in which no creator's wait wakes spuriously fill the pool with the threads' own loops, none null |
| ThreadPools.EventThreadPool.SetThreadNum | src/thread/eventThreadPool.cpp:45-48 | sets the number and nothing else |
| ThreadPools.EventThreadPool.Init | src/thread/eventThreadPool.cpp:18-31 | appends exactly the loops the handshakes returned, in order |
| ThreadPools.EventThreadPool.GetOneLoopFromPool | src/thread/eventThreadPool.cpp:50-64 | the main loop for an empty pool, else the entry at the advanced index |

## Left out

- TimerQueues.TimerQueue.TimerHandle: requires positive recurring intervals, which is exactly the condition under which the original comes back (TimerQueues.HandlerOfObjectEndsIff); a method here has to end. What the handler does with an interval of 0 is stated on its steps (HandlerEnds.NeverRearms, HandlerEnds.LongPass) and per iteration on the object (TimerQueues.TimerQueue.RenewHead has no such requirement).
- TimerQueues.TimerQueue.RunRecurringTimers: the same; the loop is proved to end under the clock limit of 2^62 ms.
- TimerQueues.TimerQueue.constructor: does not register the timerfd's event with an event loop; the handler is called by whoever sees the expiry.
- TimerQueues.TimerQueue.AddOnceTimer: timer callbacks that add timers are not modelled; the mutex is not recursive, so through the locking entry points they would block.
- TimerQueues.TimerFd.SetTime: a failing `timerfd_settime` or `read` is not modelled.
- EventFds.EventFd.PostImpl: one uncontended call; its interleavings with other threads are those of WakeUp.
- EventCtrls.Event.Handle: a handler that calls `waitAndRunHandler` again is not modelled; handlers are scripts of registry commands.
- EventCtrls.EventCtrl.WaitAndRunHandler: the order and choice of reports are arbitrary, so the relation between masks and reports is not used.
- Buffers.Buffer.ReadFromIO: the result is a C++ int; a single read of 2^31 bytes or more is not modelled as negative. The free part of the vector and the second block are filled in one step.
- LineReader.FeedChunks: the loop is that of a caller; the library offers findCRLF and retrieveUntil but does not call them itself. The bound on the input is that of the 32-bit write index when the buffer never runs empty.
- TcpConnects.TcpConnect.Write: the count a send returns is held in an int; payloads of 2^31 bytes or more are not modelled as negative counts. A wrapped 32-bit index leaves the buffer outside its invariant, and nothing is claimed from there on.
- TcpConnects.TcpConnect.constructor: does not register the event with an event loop nor install its four callbacks; interest is three flags of the connection, and the agreement of such masks with epoll is the subject of Registry.
- TcpConnects.TcpConnect.WriteEvent: takes the step of the guard as written; the meant guard exists only as a parameter of the step machine.
- AddressText.ParsePrinted: memory order is that of a little-endian host.
- ThreadPools.EventThreadPool.Init: each thread is one run of the handshake machine passed in as a parameter; thread creation and scheduling are not modelled.
- TcpServers.TcpServer.NewConnected: calls of the server are sequential; data races on the pool, the choice of loop, the callbacks installed, connection lifetime and the user's connect callback are not modelled.
- `readAsString` and the `readAll` forms: the same as ReadBytes, with another container or the full length.
- `getOneLoopWithHash`, `runOnceAfter`, `runEveryInterval`: thin wrappers; conversions of negative ints are not modelled.
- `writeInLoop`, the functions of EventLoop, destructors, socket options, logging and error text.
- `Engine`, the boost::asio adapter, plugin loading and storage, the signal monitor, the C interface: delegation, foreign calls or plain map agreement.
