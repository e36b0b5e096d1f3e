# Verified models of the huashan device tree

The device tree for the Sony huashan carries its own copies of three pieces of system code in which
pointers, clocks and threads meet: the radio interface daemon library (`libril`), a `Looper`, and
`GraphicBuffer` with its allocator. It also has the script that packs a boot image. This project models
them in Dafny and proves what callers rely on.

| files | what they model |
|---|---|
| `TimeVals`, `EventSpec`, `EventQueues`, `EventLoop`, `EventRefinement`, `EventWakeup` | the libril event loop: two circular lists with sentinels, the watch table, `nfds`, whole runs of the loop, the proof that a turn of the class is such a run, and how other threads wake the loop |
| `LooperSpec`, `Looper`, `LooperProtocol`, `LooperRefinement` | the `Looper`: its queue, fd requests and responses, the wake-up protocol between threads, and the proof that a poll of the class is a run of that protocol |
| `RilRequests`, `RequestProtocol` | pending requests, acks and completions, on the heap and in every interleaving |
| `WakeLock`, `RilWakeLock` | the counted wake lock and its cancellable timers |
| `ClientDeath`, `ClientService` | resetting the callbacks of a dead client while new ones are being installed |
| `BufferSpec`, `GraphicBuffer`, `BufferOwnership` | flattening, unflattening and who releases a buffer handle |
| `SapQueue` | the queue of SAP requests waiting for the modem |
| `ElfImage` | the boot image writer, against a reader of the TIS ELF specification 1.2, Book I, chapter 1 |

Each part has the same build. Functions on values say what every critical section does (`Sequences` has the
two list edits they share). Classes with the original's fields carry out the loops and pointer writes, and
transition systems interleave critical sections in any order; the main results are about every run of them.
The two are tied together. `EventQueues`, `RilWakeLock` and `ClientService` compute the very functions that
`EventLoop`, `WakeLock` and `ClientDeath` take as steps. `RilRequests` carries a state of `RequestProtocol`, and
its ack, its completion, issuing, and the error answer are stated sequences of that protocol's steps.
`LooperRefinement` shows that a call of `Looper.PollInner` is a run of `LooperProtocol`, and `EventRefinement`
that a turn of the event loop is a run of `EventLoop`. Where a class method needs to know what happens while a
lock is free, or on another thread, a script parameter says what callbacks and other threads do there, so its
contract holds for every such script.

What is taken as given:

- Preconditions of libril: an event is in no list and no slot of the watch table when a timer is set on it
  (`TimerAddedSafelyIff` shows that this is exactly what keeps the queues consistent) or when it is initialised
  again, a watch is not already in the table, watched descriptors are distinct and not negative, timevals are
  normalised, intervals are not negative and the clock is monotone. `select` returns the number of
  descriptors it leaves in the set.
- `calcNextTimeout`, `firePending` and the copying of the descriptor set do without the mutex; each is one step here.
- Nobody deletes the watch of the wake pipe, which is in place when the loop starts.
- Memory allocation succeeds, and the address of a freed object is not reused.
- `toMillisecondTimeoutDelay` is not part of this model; it is assumed to return the interval rounded up to
  milliseconds, and 0 for a time that has come. The wake pipe accepts a byte or is already full.
- A thread calling `checkReturnStatus` holds the lock, as its comment asks.
- A header given to `dispatchRequest` is a new one; a token given to the SAP `onRequestComplete` names a request
  whose memory has not been freed.
- `gralloc`, `native_handle_create`, `epoll_ctl`, `select` and the clock are parameters. The numeric
  values of `status_t` come from utils/Errors.h, which is not part of this model.

Where the code and its own words differ, the model follows the code:

- `ril_event_del` says it removes an event "from watch or timer list"; it only ever removes a watch.
- The comment in `checkReturnStatus` says its caller holds a read lock. The NITZ path of
  `RIL_onUnsolicitedResponse` holds the write lock, and gets back a read lock.
- `Looper.h` promises 0 from `addFd` for invalid arguments; the code returns -1.
- Timers with equal deadlines fire newest first, and a timer fires strictly after its deadline.
- `GraphicBuffer` takes a handle with `keepOwnership` without asking who owns it. `SoleIffClean` says when that is
  safe, and `UncleanReleasesTwice` that nothing weaker will do.
- `RIL_onRequestAck` reads the request after it has left the mutex; `AckReadsLiveIff` says when it is still there.
- `sendErrorResponse` answers a request and leaves it listed; `SingleAnswerIffGiven` says when that
  is its only answer.
- A grab that comes between the reading of `userParam` and `wakeTimeoutCallback` loses its lock at once;
  `DropsEarlyIffGrabbed` says exactly when.
- `userTimerCallback` checks `s_last_wake_timeout_info` and clears it in two unlocked accesses. A grab in
  between is forgotten; `TrackedIffClean` says exactly when the bookkeeping is exact, and `WakeLockSafe`
  what holds regardless.
- Grabs and releases test `s_last_wake_timeout_info` and then write through it, under a mutex that
  `userTimerCallback` does not take. `WriteMeetsIffSecure` says exactly when the write is safe, and
  `WriteCanMiss` shows a run in which it is not; what such a write does to memory is not followed further.

## Model

| member | source | states |
|---|---|---|
| TimeVals.Add | libril/ril_event.cpp:37-47 | timeradd is addition of microseconds, and one carry keeps normalised timevals normalised |
| TimeVals.Less | libril/ril_event.cpp:49-54 | on normalised timevals the two-field comparison is the order of microseconds |
| TimeVals.Sub | libril/ril_event.cpp:56-66 | timersub is subtraction of microseconds, and one borrow keeps normalised timevals normalised |
| EventSpec.InsertTimer | libril/ril_event.cpp:301-307 | insertion before the first timer that is not earlier keeps a sorted list sorted and adds exactly that timer |
| EventSpec.Expire | libril/ril_event.cpp:158-180 | expiry keeps the queues consistent, leaves watches alone, and leaves no timer that is before the clock |
| EventSpec.Apply | libril/ril_event.cpp:251-329 | no call open to callbacks or other threads, setting an event anew included, breaks the queues or touches the pending list |
| EventSpec.ReadyExact | libril/ril_event.cpp:182-200 | with distinct descriptors the countdown of select's count never cuts the scan short: every ready watch is queued once at its rank in slot order, and exactly the ready one-shot watches leave the table |
| EventQueues.AddToList | libril/ril_event.cpp:112-119 | the four pointer writes turn a well-formed ring into the ring with the event in front of the given node |
| EventQueues.RemoveFromList | libril/ril_event.cpp:121-131 | unlinking any node leaves a well-formed ring of the others, and nulls the node's own links |
| EventQueues.RingWalk | libril/ril_event.cpp:104-131 | following next from a sentinel passes every node once, in order, and is back after exactly the length plus one steps |
| EventQueues.EventQueues.constructor | libril/ril_event.cpp:240-249 | initialisation gives two empty rings, an empty table and a valid state |
| EventQueues.EventQueues.Set | libril/ril_event.cpp:251-262 | initialising a new event, or again one that is in no list and no slot, leaves it unlinked with its new descriptor and persistence, and the queues as they were |
| EventQueues.EventQueues.TimerAdd | libril/ril_event.cpp:285-312 | the event gets clock plus interval as its time-out and no descriptor, and stands in front of the first timer that is not earlier, everything else unchanged; a missing interval adds nothing |
| EventSpec.TimerAddedSafelyIff | libril/ril_event.cpp:285-312 | setting a timer on an event keeps the queues consistent if and only if the event is in no list and no slot |
| EventQueues.EventQueues.FindPlace | libril/ril_event.cpp:294-305 | the search ends at the first timer that is not earlier than the new deadline, or at the sentinel |
| EventQueues.EventQueues.EventAdd | libril/ril_event.cpp:264-283 | the first free entry of the table, and no other, becomes the event; index, readFds and nfds follow; a full table leaves everything as it was |
| EventQueues.EventQueues.RemoveWatch | libril/ril_event.cpp:134-156 | the slot is emptied, and readFds and nfds are again exact although nfds is recomputed only when the largest descriptor goes |
| EventQueues.LargestFd | libril/ril_event.cpp:142-154 | the scan makes nfds one more than the largest watched descriptor, and exactly 1 for an empty table |
| EventQueues.NfdsStays | libril/ril_event.cpp:142-154 | skipping the scan is right: dropping any descriptor but the largest leaves nfds exact |
| EventQueues.EventQueues.EventDel | libril/ril_event.cpp:314-329 | the table is null where it held the event and as before elsewhere, readFds loses exactly the event's descriptor if it had an entry, its index is -1, and timers, pending events and other events are as before |
| EventQueues.EventQueues.ProcessTimeouts | libril/ril_event.cpp:158-180 | on the heap, the leading timers strictly before now and no others move, in order, to the end of the pending ring |
| EventQueues.EventQueues.ProcessReadReadies | libril/ril_event.cpp:182-200 | on the heap, ready watches join the pending ring in slot order and one-shot ones leave the table |
| EventQueues.EventQueues.FirePending | libril/ril_event.cpp:202-213 | whatever the callbacks and other threads do, every pending event is called once in order, the saved next pointer stays good, the list ends empty and the loop terminates |
| EventQueues.EventQueues.CalcNextTimeout | libril/ril_event.cpp:215-238 | -1 exactly when no timer is queued; otherwise the least deadline of all timers minus now, or 0, as a normalised timeval |
| EventQueues.EventQueues.LoopPass | libril/ril_event.cpp:353-383 | one turn sleeps until the least deadline, fires the expired timers in list order, then the ready watches in slot order, each once at its rank and no other, and leaves nothing pending; an interrupted select fires nothing |
| EventRefinement.PassIsRun | libril/ril_event.cpp:353-383 | one turn with all that callbacks and other threads do is a run of the loop's steps that ends in the queues the contract of LoopPass names and has fired what was pending, in order |
| EventLoop.TimersFireInOrder | libril/ril_event.cpp:158-213 | over every run, with timers added at any point, fired deadlines never decrease and no timer fires before the clock is strictly past it |
| EventLoop.TimersConserved | libril/ril_event.cpp:158-213 | over every run, each timer ever added is queued, pending or fired, exactly once |
| EventLoop.LoopNeverStuck | libril/ril_event.cpp:345-383 | in every reachable state the loop thread's next phase can run, and nothing is pending when it goes back to select |
| EventWakeup.NeverOversleeps | libril/ril.cpp:263-294 | in every interleaving a loop asleep in select watches the wake pipe, and a byte there is unread or owed, or it watches every descriptor it should and its time-out ends when the first queued timer is due, late only by the time it took to fall asleep |
| EventWakeup.CallWakesLoop | libril/ril.cpp:263-277 | a timer or watch that another thread adds while the loop sleeps lets select return once its byte is written |
| EventWakeup.GoesToSleep | libril/ril_event.cpp:353-368 | from the start of a turn the loop gets to sleep with a copy of the watched descriptors and a time-out for the least deadline |
| LooperSpec.InsertOrdered | libshims/utils/Looper.cpp:507-517 | insertion behind everything not later keeps the queue sorted by time and first-in first-out among equals |
| LooperSpec.RemoveSplits | libshims/utils/Looper.cpp:534-567 | removal splits the queue into the messages kept and the matching ones, losing and inventing none |
| LooperSpec.RemoveOnly | libshims/utils/Looper.cpp:534-567 | the handler's messages, or of these only those of the type named, are gone; every other message is there as often as before, and in the same order |
| LooperSpec.RemoveOrdered | libshims/utils/Looper.cpp:534-567 | removal keeps the order of the rest |
| LooperSpec.PerformKeeps | libshims/utils/Looper.cpp:404-567 | sending, removing, addFd and removeFd keep the queue ordered, the requests well tagged and the epoll set equal to the wake pipe plus the requested descriptors |
| LooperSpec.AddFdBothOrNeither | libshims/utils/Looper.cpp:408-464 | addFd succeeds exactly when its arguments are valid and the kernel agrees; it changes the requests and the epoll set together or not at all |
| LooperSpec.RemoveFdBothOrNeither | libshims/utils/Looper.cpp:466-487 | removeFd takes the descriptor out of both sides or neither, and tells the three cases apart |
| LooperSpec.EpollEvents | libshims/utils/Looper.cpp:428-430 | input and output are asked of epoll exactly when the caller asks for them, and nothing else is |
| Loopers.Looper.SendMessageAtTime | libshims/utils/Looper.cpp:500-532 | the message goes behind everything that is not later, the others stay, and a wake byte is written exactly for a new head while no message is being delivered |
| Loopers.Looper.RemoveMessages | libshims/utils/Looper.cpp:534-567 | the backward scan drops the handler's messages, or of these only those of the type named, keeps every other as often as it was, and keeps their order |
| Loopers.Looper.AddFd | libshims/utils/Looper.cpp:412-464 | 1 exactly for valid arguments the kernel accepts, and then the request, tagged, and its translated events are recorded; otherwise -1 and nothing changes |
| Loopers.Looper.RemoveFd | libshims/utils/Looper.cpp:466-487 | 0 exactly for an unknown descriptor, 1 exactly when the kernel agrees, and only then both sides lose the descriptor |
| Loopers.Looper.Awoken | libshims/utils/Looper.cpp:385-395 | reading until a short read empties the pipe |
| Loopers.Looper.GatherResponses | libshims/utils/Looper.cpp:255-278 | one response per event on a requested descriptor and no other, in order, with the request and exactly the four flags reported; the pipe is drained when its event says so |
| Loopers.Looper.Invoke | libshims/utils/Looper.cpp:320-334 | a callback's descriptor is removed if, and only if, the callback returns 0 and the kernel agrees |
| Loopers.Looper.DispatchMessages | libshims/utils/Looper.cpp:281-313 | for every script of handlers the loop delivers due heads until none is due, and leaves mNextMessageUptime at the time of the head |
| Loopers.Looper.RunCallbacks | libshims/utils/Looper.cpp:318-338 | every response with a callback is called once, none of the others, and a zero result removes the descriptor |
| Loopers.Looper.PollInner | libshims/utils/Looper.cpp:195-340 | the responses of the previous poll have all been consumed once when they are cleared; those with callbacks are consumed before the return; the time-out and result are the documented ones |
| Loopers.Looper.PollOnce | libshims/utils/Looper.cpp:159-193 | polls only when no response is waiting and then once; returns one response never returned before, or a POLL code when none is left |
| LooperRefinement.PollIsRun | libshims/utils/Looper.cpp:195-340 | a call of pollInner, whatever handlers, callbacks and other threads do, is a run of the protocol between worlds that show the shared state before it and the one its contract names |
| LooperProtocol.NoLostWakeup | libshims/utils/Looper.cpp:200-224 | in every interleaving a blocked looper has an empty queue, a wake byte waiting or owed, or a head not due before the time its time-out was computed for, and then the time-out ends less than a millisecond after the head is due |
| LooperProtocol.MessagesConserved | libshims/utils/Looper.cpp:281-313 | in every interleaving, sent messages are the queued, delivered and removed ones, each once |
| LooperProtocol.DeliveredInOrder | libshims/utils/Looper.cpp:281-313 | no message is delivered before it is due or overtaken by one sent later and due no earlier |
| LooperProtocol.DeliversEarliest | libshims/utils/Looper.cpp:283-307 | each delivery is of the head, which is due and the earliest message queued at that instant |
| RilRequests.Pending.AddRequest | libril/ril.cpp:206-261 | unsupported numbers get no request; others are put in front, with the caller's serial and slot and no flag set |
| RilRequests.Pending.CheckAndDequeue | libril/ril.cpp:512-568 | accepted exactly when listed; an ack only sets the flag; a completion removes that node alone and keeps the order; an unlisted token changes nothing |
| RilRequests.MinusMembers | libril/ril.cpp:546-563 | removal takes out the token's request and no other |
| RilRequests.Ril.OnRequestAck | libril/ril.cpp:570-602 | the client is acknowledged exactly for listed tokens, the list stays as it was, and the call is the protocol's ack followed by its read |
| RilRequests.Ril.OnRequestComplete | libril/ril.cpp:603-660 | a listed token leaves the list alone and gets one response with its own serial and slot, asking for an ack with a grab exactly if its ack was sent before; any other gets none; the call is the protocol's completion, grab, response and free |
| RilRequests.Ril.DispatchStrings | libril/ril_service.cpp:588-643 | the request is issued, handed over, and the vendor's calls happen in order, then the made-up completion of a network selection; it ends with the error of the vendor's first completion, or 0 from the made-up one, or listed and unanswered; if a string cannot be copied the vendor is not called, and the request gets an error and stays listed |
| RilRequests.Ril.OnRequest | libril/ril_service.cpp:616 | the vendor's calls are the protocol's steps in order, and its own token is answered by the first of them that completes it, if any does |
| RilRequests.Ril.CopyStrings | libril/ril_service.cpp:529-549 | all strings are copied if and only if no text is longer than its size says; the first that is gets the request an error answer |
| RilRequests.AckIsRun | libril/ril.cpp:512-602 | with nothing else under way, an ack runs through the protocol's two steps to the state the method reaches |
| RilRequests.CompleteIsRun | libril/ril.cpp:603-660 | with nothing else under way, a completion runs through the protocol's steps to the state the method reaches |
| RilRequests.AnsweredIffNotListed | libril/ril.cpp:512-660 | between calls every request ever issued is either listed or answered |
| RequestProtocol.AnsweredAtMostOnce | libril/ril.cpp:603-660 | in every interleaving no request is answered twice, or while listed, and each response carries its request's serial and slot |
| RequestProtocol.AckExpectedIffAcked | libril/ril.cpp:633-642 | from version 13 on, a response expects an ack exactly when an ack had been accepted, and there is one wake-lock grab for each of these |
| RequestProtocol.AnswerIsFinal | libril/ril.cpp:544-567 | once a request has its response, however the run goes on, acks and completions of its token change nothing, and the response stays and remains the only one |
| RequestProtocol.FakeCompletionAnswersOnce | libril/ril_service.cpp:629-641 | once the vendor call and the dispatcher's own completion of a network selection request are over, it is off the list, and with nothing in flight it has exactly one response |
| RequestProtocol.AckReadsLiveIff | libril/ril.cpp:570-602 | the read after an accepted ack meets a live request, whatever the threads already under way do first, if and only if the request is still listed, that is, no completion of the token has been accepted |
| RequestProtocol.AckCanMisread | libril/ril.cpp:577-591 | a concrete run in which that read meets a freed request |
| RequestProtocol.AnswersOnceIfGiven | libril/ril_service.cpp:511-514 | requests not given to the vendor stay listed throughout a run if and only if the vendor never completes one of them, and then no request has both an error and a response, or two errors |
| RequestProtocol.SingleAnswerIffGiven | libril/ril_service.cpp:511-514 | after a run in which the vendor completed only what it was given, the next step is of that kind if and only if no continuation of that kind answers a request twice |
| WakeLock.WakeLockSafe | libril/ril.cpp:662-733 | in every interleaving the lock is held exactly when the count is positive, the last-timer pointer is NULL or names an allocated info, and while held the last grab's timer, due 200 ms after it, is queued uncancelled or about to release the lock; no write through the pointer misses if every test of it is secure |
| WakeLock.HeldWhileOutstanding | libril/ril.cpp:662-710 | in every interleaving a held lock has as count the grabs less the releases, and stays held until as many releases as grabs have come, unless a timer takes it; and then it goes |
| WakeLock.GrabAlone | libril/ril.cpp:662-686 | an undisturbed grab adds one to the count, arms its own timer for 200 ms, records it, and cancels the one recorded before |
| WakeLock.ReleaseAlone | libril/ril.cpp:688-710 | a release only counts down while others hold the lock; the last one frees it and, undisturbed, cancels the recorded timer |
| WakeLock.WriteMeetsIffSecure | libril/ril.cpp:676-679 | when a grab or release finds an info by its test, its write meets that info whatever the event loop does until then, if and only if the event loop is waiting for the mutex, or the info is queued and uncancelled and the event loop is not about to write NULL |
| WakeLock.WriteCanMiss | libril/ril.cpp:676-679 | a concrete run in which NULL is written between test and write of a grab |
| WakeLock.HeldAtMostTimeout | libril/ril.cpp:662-733 | once overdue timers have fired, a held lock was grabbed at most 200 ms ago |
| WakeLock.StepTracks | libril/ril.cpp:350-364 | one step keeps the only uncancelled timer in s_last_wake_timeout_info if and only if it is not a late write of NULL |
| WakeLock.TrackedIffClean | libril/ril.cpp:350-364 | throughout a run every uncancelled timer is the one s_last_wake_timeout_info names or the one a grab under way is about to store there, if and only if no write of NULL comes after a grab that followed its check, unless that grab's timer has been cancelled by then |
| WakeLock.LateClearLosesTimer | libril/ril.cpp:359-361 | a concrete run in which a grab between check and write of NULL leaves an armed timer that nothing points to |
| WakeLock.DropsEarlyIffNotNewest | libril/ril.cpp:712-733 | the last grab's timer takes the lock away strictly later than 200 ms after it; the lock goes earlier if and only if another timer takes it while that one is queued and not due |
| WakeLock.DropsEarlyIffGrabbed | libril/ril.cpp:350-357 | with exact bookkeeping, a fired timer takes the lock early only if a grab was under way at the read of userParam or came between the read and the call, and exactly then if the call follows within 200 ms |
| WakeLock.GrabLosesLock | libril/ril.cpp:350-357 | a concrete run with exact bookkeeping in which the lock goes at the instant of a grab |
| RilWakeLock.Ril.GrabPartialWakeLock | libril/ril.cpp:662-686 | whatever the event loop does before the test, before the write and before the store, the method takes the lock, counts, queues the new timer, cancels the previous one and stores the new one, as the protocol's steps; the write meets the info found if the test was secure |
| RilWakeLock.Ril.ReleaseWakeLock | libril/ril.cpp:688-710 | above a count of one the method only counts down; otherwise it releases the lock and cancels the timer, whatever the event loop does before the test and the write; the write meets the info found if the test was secure |
| RilWakeLock.Ril.CancelLast | libril/ril.cpp:676-679 | the test and the write through the pointer are the protocol's steps around those of the event loop, and a write after a secure test meets its info |
| RilWakeLock.Ril.WakeTimeoutCallback | libril/ril.cpp:712-733 | an uncancelled timer zeroes the count and releases the lock; a cancelled one does nothing |
| RilWakeLock.Ril.UserTimerCallback | libril/ril.cpp:350-364 | without interference a fired timer is freed, is not left in the last-timer pointer, and releases the lock unless cancelled |
| ClientDeath.StaleFailureNeverClears | libril/ril_service.cpp:780-824 | in every interleaving a failure clears only the installation on which the call failed, and no counter value or installation is cleared twice |
| ClientDeath.CallerHoldsOneShare | libril/ril_service.cpp:787-822 | a caller of checkReturnStatus comes back holding exactly one read share and no write lock, however it came in |
| ClientDeath.CallbacksWhole | libril/ril_service.cpp:839-846 | the newer interfaces are present together or not at all, from the same installation as the older ones, whatever the client passes as null |
| ClientDeath.NoDeadlock | libril/ril_service.cpp:787-822 | as long as some thread is under way, some thread under way can go on |
| ClientDeath.CallCanFail | libril/ril_service.cpp:780-787 | a thread that may read can make a call to installed callbacks, and the call can fail |
| ClientDeath.UndisturbedReset | libril/ril_service.cpp:787-824 | undisturbed, checkReturnStatus runs through, clears all callbacks of the service, and ends with one read share |
| ClientService.ResetIffUndisturbed | libril/ril_service.cpp:792-819 | a failure clears the callbacks if and only if nobody installed or cleared callbacks of that service while the lock was free; it then clears the installation that failed, and otherwise neither service changes |
| ClientService.CounterTells | libril/ril_service.cpp:798-814 | through any run the counter is the same as before exactly when no installation or clearing took place, and then the callbacks are the same too |
| ClientService.Slot.CheckReturnStatus | libril/ril_service.cpp:787-824 | whatever others do in the two gaps, the fields go through the steps of the protocol, and the caller of a failed call ends with one read share and no write lock; a call that went well changes nothing |
| ClientService.Slot.SetRadioFunctions | libril/ril_service.cpp:830-857 | the interfaces that are not null come from this installation, the newer two only if neither is null and both casts succeed; the counter moves by one, no lock is kept, and a client with an indication interface then gets its two initial indications |
| ClientService.Slot.OnNewCommandConnect | libril/ril.cpp:321-330 | the two initial indications go to the client whose indication interface is installed, under the read lock each time, and the lock is left as it was |
| ClientService.Slot.SetOemHookFunctions | libril/ril_service.cpp:2953-2972 | the interfaces that are not null come from this installation, the other service is left alone and no lock is kept |
| BufferSpec.RoundTrip | libshims/ui/GraphicBuffer.cpp:213-332 | a reader whose handle creation and registration succeed recovers a flattened buffer if and only if it is within the limits and either carries something or is blank; reader and writer then account for the same amounts |
| GraphicBuffers.GraphicBuffer.Flatten | libshims/ui/GraphicBuffer.cpp:221-255 | writes magic, width, height, stride, format, usage and the two counts at the cursor, then the integers, and the descriptors at theirs; moves the four cursors by the needed amounts, and on failure changes nothing |
| GraphicBuffers.GraphicBuffer.Unflatten | libshims/ui/GraphicBuffer.cpp:257-332 | every acceptance and error case with its status, the fields read from their places, the old handle given back by its route, and what is left in the buffer; on any error the four cursors stay |
| GraphicBuffers.GraphicBuffer.Allocated | libshims/ui/GraphicBuffer.cpp:49-61 | the allocating constructor ends with the granted buffer and its record, or blank with the error kept as its init status |
| GraphicBuffers.GraphicBuffer.Wrapping | libshims/ui/GraphicBuffer.cpp:63-89 | a wrapper shows the handle and geometry it is given, and owns the handle exactly if asked to keep ownership |
| GraphicBuffers.PassOn | libshims/ui/GraphicBuffer.cpp:213-332 | flattening one buffer into arrays and unflattening another from the same place gives the same contents if and only if the first fits and is transportable, and then all four cursors agree |
| GraphicBuffers.GraphicBuffer.Reallocate | libshims/ui/GraphicBuffer.cpp:128-147 | refused unless the buffer owns data; after success it shows exactly the width, height, format and usage asked for; the handle is kept, with nothing released, exactly if there was one and all four were equal; otherwise the old one is released once through the allocator first |
| GraphicBuffers.GraphicBuffer.InitSize | libshims/ui/GraphicBuffer.cpp:149-164 | geometry and handle change only when the allocator grants the buffer |
| GraphicBuffers.GraphicBuffer.FreeHandle | libshims/ui/GraphicBuffer.cpp:98-110 | the handle is released once by the route of its owner tag, or not at all without one |
| GraphicBuffers.GraphicBuffer.Destroy | libshims/ui/GraphicBuffer.cpp:91-96 | a destroyed buffer gives its handle back if it has one |
| GraphicBuffers.GraphicBufferAllocator.Alloc | libshims/ui/GraphicBufferAllocator.cpp:93-139 | a granted handle gets a record of what gralloc was asked for: one pixel for an empty side, the masked usage, and the size in bytes; a refusal leaves the records alone |
| GraphicBuffers.GraphicBufferAllocator.Free | libshims/ui/GraphicBufferAllocator.cpp:141-156 | the handle is released, and its record goes exactly when gralloc agrees |
| BufferOwnership.ReleasedAtMostOnce | libshims/ui/GraphicBuffer.cpp:37-164 | over every sequence of operations on any number of buffers whose owning wrappers are clean, no handle is given back twice, and no owner holds a handle already given back |
| BufferOwnership.SoleIffClean | libshims/ui/GraphicBuffer.cpp:63-89 | throughout a run every owned handle has one owner and has not been given back, if and only if no buffer is made with keepOwnership around a handle that another buffer owns or that has been given back |
| BufferOwnership.UncleanReleasesTwice | libshims/ui/GraphicBuffer.cpp:63-110 | after any clean run, every wrapper that is not clean can be followed by destructions alone that give its handle back twice |
| BufferOwnership.WrappedHandleReleasedTwice | libshims/ui/GraphicBuffer.cpp:63-110 | a concrete run: an allocated buffer, an owning wrapper around its handle, and both destroyed |
| BufferOwnership.DataHasRecord | libshims/ui/GraphicBufferAllocator.cpp:93-156 | over every sequence of operations, a buffer that owns data with a handle has a record in sAllocList made for its geometry, and only the allocator's handles go back to it |
| SapQueue.RilQueue.Enqueue | libril/rilSocketQueue.h:120-134 | the request becomes the first of the list |
| SapQueue.RilQueue.Dequeue | libril/rilSocketQueue.h:101-118 | after waiting while the queue is empty, the first request is taken, which is the last to have arrived |
| SapQueue.RilQueue.CheckAndDequeue | libril/rilSocketQueue.h:136-156 | of the requests with this id and this token the one nearest the front is unlinked and freed, and no other; without one nothing changes |
| SapQueue.CompletesOwnIffFirst | libril/RilSapSocket.cpp:233-275 | completing a pending request frees that request, and leaves no pending request with a freed header, if and only if no request nearer the front has the same id and token |
| SapQueue.SameKeyFreesWrong | libril/RilSapSocket.cpp:233-275 | with one key pending twice, completing the older request frees the newer one and leaves the older pending with its header freed |
| SapQueue.SapSocket.DispatchRequest | libril/RilSapSocket.cpp:200-214 | a dispatched request is pending in front, with its own header; pending keys stay distinct exactly if its key was not pending |
| SapQueue.SapSocket.OnRequestComplete | libril/RilSapSocket.cpp:233-275 | any live token gets one response with its id and token; the first request with its key and its own header are freed; these belong together, and no pending request keeps a freed header, if and only if none nearer the front has the key |
| ElfImage.WritesSurvive | boot/mkelf.py:143-161 | when no two writes overlap, the finished file holds the bytes of each where it put them |
| ElfImage.NoOverlapIffFit | boot/mkelf.py:133-159 | the writes are disjoint if and only if the headers end before the first page, or before the board name, but for files without contents |
| ElfImage.ImageReadsBack | boot/mkelf.py:62-120 | a reader following the header and program headers finds an ARM executable of version 1, the entry point and every segment's type, addresses, flags and exact bytes, and the board name in the sixteen bytes before the first page |
| ElfImage.AssignOffsets | boot/mkelf.py:133-141 | the first segment starts at 4096, and each further one where the one before it ends |
| ElfImage.MakeElf | boot/mkelf.py:122-161 | fails exactly when a field cannot be packed or there is no input, and otherwise the file reads back when the headers fit |

## Left out

- EventLoop.TimersFireInOrder: intervals are taken to be non-negative; a negative one could put a timer before those already fired.
- LooperProtocol.NoLostWakeup: does not cover a write to the wake pipe that fails for a reason other than a full pipe.
- BufferSpec.RoundTrip: byte positions of the cursors are not claimed to match the memory written, because the pointers advance by a byte count taken as a number of integers.
- ClientDeath: calls made through sendErrorResponse, which do not hold the lock.
- Completion of every dispatched request: the paths through sendErrorResponse answer without dequeuing, so the code does not do this. The other dispatch functions have the shape of dispatchStrings.
- Leaks of handles on the error paths of unflatten, which drop a handle without releasing it.
- Versions below 13 of the wake lock, the NITZ cache and its resending, slots beyond the first, exhaustion of memory, and wrap-around of counters.
- pollAll, the thread-local looper, and re-entrant polling.
- The SAP socket list and the protobuf encoding around it.
- The translators of radio responses and indications, the request wrappers, hex decoding, and the tables of names.
- Command-line parsing and the reading of input files in the image writer; a file is taken not to change size between the two looks at it.
- Camera, GNSS, lights, vibrator, sensors, touch, MAC address set-up and the settings app: field copying, sysfs and binder calls with bounded domains.
