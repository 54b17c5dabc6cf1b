# luasys Win32 event queue, modelled in Dafny

This project models the Win32 backend of the luasys event queue
(`src/event/win32.c`) and the 64-bit and time macros it relies on
(`src/common.h`).

The queue (`struct event_queue`, the class `Win32Queue.EventQueue`) keeps the
following state:

- a count of registered events;
- a count of completion-port events;
- a single host-message slot;
- a ready list;
- a count of signals waiting;
- a head-first list of workers.

Each worker (`struct win32thr`, the class `Workers.Worker`) holds up to
`NEVENT - 1` events in a slot array. A parallel handle array keeps the worker's
wakeup handle just after the last used slot.

The model covers these operations:

- **Registration.** `evq_add` routes an event, in this order, to the signal
  channel, the message slot, the completion port, or the first worker with a
  free slot. When every worker is full it creates a new worker, which the
  model places at the end of the chain. The model also
  covers `evq_add_timer`, `evq_set_timeout`, `evq_del`, `evq_modify`, and
  `evq_add_dirwatch` with its filter choice.
- **One wait cycle of `evq_wait`.**
  - The early exits.
  - The timeout handed to the wait, cut to the head's nearest deadline.
  - The six exits after the wait and their return codes.
  - The order in which workers are scanned.
  - The slot scan. It starts at the slot the wait reported, walks forward over
    the signalled slots, prepends every slot with a non-zero result to the
    ready list, and removes one-shot events. A removal shifts the later slots
    down, and the scan steps back one slot to match.
- **The packing macros** `INT64_MAKE`, `INT64_LOW` and `INT64_HIGH`, on bit
  patterns.

The slot scan is stated twice:

- On values: the module `Scan` gives masks of the examined, delivered and
  removed slots, computed from the slots as they were before the scan.
- On the arrays: `ScanWorker` is proved to leave exactly the slots those
  masks describe, to build exactly the list they describe, and to give each
  event the flags and deadline they describe. This shows that the `--i, --n,
  --hp` step never skips or re-reads a slot.

The model stands in for what it cannot see:

- **Platform and helper answers are inputs.** This covers the Windows calls
  (`MsgWaitForMultipleObjects`, `WaitForSingleObject`, `WSAEnumNetworkEvents`,
  `GetExitCodeProcess`, `CreateIoCompletionPort`, `FindFirstChangeNotification`,
  `GetQueueStatus`). It also covers the helpers whose bodies are not part of
  this model (`win32thr_*`, `win32iocp_*`, `timeout_*`, `signal_*`). The
  answers arrive as the records `AddAnswers` and `WaitAnswers`, or as boolean
  parameters.
- **Helper calls are recorded.** The helpers that act outside the queue's own
  state are recorded in a ghost trace `calls`. Contracts can then say which
  ones were made, in which order, and with which arguments.
- **Assumed helper behaviour.** The helpers that change worker slots
  (`win32thr_add`, `win32thr_del`) are small methods that do what the backend
  relies on:
  - `win32thr_add` appends to the slot array.
  - `win32thr_del` removes the slot and shifts every later slot down by one.
    The scan's `--i, --n, --hp` step depends on this. It leaves the event's
    deadline and worker as they are.
  - `win32thr_init` puts the new worker at the end of the chain.
  - `win32iocp_set` leaves the event's flags as they are.

The source behaviour is kept as written, including two cases that may look
surprising:

- `evq_del` of a signal event uncounts the event before `signal_del` runs, so
  the count drops even when `signal_del` fails.
- An exit-status result of `GetExitCodeProcess` is shifted as a 32-bit
  unsigned value, so its high bits are lost.

The `EVENT_*` bit values live in a header that is not part of this model.
`flags.dfy` picks its own positions. The properties rely only on these facts:

- the interest, kind and state bits are distinct single bits;
- the result field starts at `EVENT_EOF_SHIFT_RES`, with `EVENT_EOF_RES` as its
  lowest bit.

The `FD_*`, `FILE_NOTIFY_CHANGE_*` and `WAIT_*` values are those of the Windows
SDK.

## Model

| member | source | states |
|---|---|---|
| Common.InfiniteIsNotFinite | src/common.h:223-231 | TIMEOUT_INFINITE is `(msec_t) -1`, so no non-negative timeout equals it |
| Common.Make | src/common.h:115 | INT64_MAKE with the shift done without overflow packs `hi * 2^32 + lo`, with `lo` zero-extended |
| Common.Low | src/common.h:116 | INT64_LOW keeps the low 32 bits |
| Common.High | src/common.h:117 | INT64_HIGH keeps bits 32 to 63 |
| Common.LowOfMake | src/common.h:115-116 | INT64_LOW(INT64_MAKE(lo, hi)) == lo |
| Common.HighOfMake | src/common.h:115-117 | INT64_HIGH(INT64_MAKE(lo, hi)) == hi |
| Common.MakeOfParts | src/common.h:115-117 | INT64_MAKE(INT64_LOW(x), INT64_HIGH(x)) == x for every 64-bit x |
| Common.MakeAsWritten | src/common.h:115 | the macro as written is defined exactly when hi's top bit is clear, and then agrees with `Make` |
| Common.MakeAsWrittenRoundTrip | src/common.h:115-117 | where the macro as written is defined, it gives a non-negative int64 from which both halves come back |
| Common.MakeAsWrittenFailsOnNegative | src/common.h:115-117 | the macro as written cannot rebuild any negative int64 from its halves: the signed shift overflows |
| Common.SignExtend | src/common.h:115 | `(int64_t)` of a 32-bit int keeps the low half and fills the high half with the sign bit |
| Common.NegativeLowKeepsHigh | src/common.h:115 | the `(unsigned int)` cast on `lo` is what keeps `hi`: a sign-extended negative `lo` would set every high bit |
| EventFlags.SlotResult | src/event/win32.c:362-379 | result bits of a slot: for a socket, read/write exactly when the interest and the WFD mask meet, EOF exactly on FD_CLOSE, nothing else, nothing when enumeration fails; any other kind always reports read, a process also its exit status in the result field |
| EventFlags.WfdMask | src/event/win32.c:217-225 | the Winsock mask evq_modify selects: WFD_READ for read interest, WFD_WRITE for write interest, both, or 0 |
| EventFlags.SelectedMaskSuffices | src/event/win32.c:222-227 | filtering network events through the selected mask changes no result bit of a socket with read or write interest |
| EventFlags.DirwatchFilter | src/event/win32.c:104-112 | any bit of the result field asks for last-write changes only; otherwise the broad filter, which includes last-write |
| EventFlags.ClearResultField | src/event/win32.c:115 | the result field is cleared, every other bit kept, and the filter the event then asks for is the broad one |
| EventFlags.Activate | src/event/win32.c:382 | a delivered event keeps its flags and gains EVENT_ACTIVE and the result bits |
| EventFlags.Dropped | src/event/win32.c:213 | the directions cancelled are exactly those the old interest had and the new one lacks |
| EventFlags.MarkOverlapped | src/event/win32.c:76-82 | a completion-port event keeps its flags, gains EVENT_AIO, and gains EVENT_AIO_SKIP exactly when the platform accepted skipping, and nothing else |
| Scan.MarkedExtremes | src/event/win32.c:386-388 | the count of removals below slot j is 0 exactly when none of those slots is removed, and j exactly when all are |
| Scan.KeptLength | src/event/win32.c:386-388 | removing the marked slots shortens the slot array by their number |
| Scan.KeptMembership | src/event/win32.c:386-388 | an event stays in the slots exactly when one of its positions is not removed |
| Scan.KeptDistinct | src/event/win32.c:386-388 | removing slots keeps the slots free of duplicates |
| Scan.DeliveredMembership | src/event/win32.c:381-384 | an event is on the ready list exactly when one of its slots is delivered |
| Scan.DeliveredDistinct | src/event/win32.c:381-384 | no event is prepended twice when the slots hold distinct events |
| Scan.DeliveredAbsent | src/event/win32.c:381-384 | an event that is not among the first j slots is never prepended |
| Scan.RemovedExactlyDropped | src/event/win32.c:386-388 | after the scan, a slot's event is still in the slots exactly when the scan did not remove it |
| Scan.PrefixUntouched | src/event/win32.c:350-353 | slots before the one the wait reported are never examined, delivered or removed, and keep their flags and deadlines |
| Scan.WithoutAt | src/event/win32.c:387-388 | removing the slot of an event from distinct slots shifts the later ones down and drops only that event |
| Workers.Worker.constructor | src/event/win32.c:25 | a new worker has no used slots and its wakeup handle in handles[0] |
| Workers.Worker.Append | src/event/win32.c:98 | adding puts the event and its handle in a new last slot and keeps the wakeup handle just after it |
| Workers.Worker.RemoveAt | src/event/win32.c:386-388 | removing slot k shifts every later slot and the wakeup handle down one place, the others keeping their order |
| Workers.Worker.Find | src/event/win32.c:387 | the slot found holds the event |
| WaitCycle.WaitTimeout | src/event/win32.c:249-271 | the wait timeout is 0 or the shrunk timeout: the shrunk one exactly when the caller did not poll and, on Windows NT, nothing is ready from the port and no signal waits |
| WaitCycle.NeverBlocksNeedlessly | src/event/win32.c:249-271 | a poll never blocks, nor does a Windows NT wait with port events or signals pending; otherwise the wait lasts until the head's nearest deadline |
| WaitCycle.CodeMeaning | src/event/win32.c:245-417 | evq_wait returns EVQ_TIMEOUT exactly when the wait timed out with no signal waiting, nothing ready and no early exit, and the head had no timeouts or nothing was collected; EVQ_FAILED exactly when the wait failed and no early exit was taken |
| WaitCycle.ScanOrder | src/event/win32.c:305-331 | the workers scanned are indices of existing workers |
| WaitCycle.ScanOrderSound | src/event/win32.c:305-331 | the scan visits each worker at most once, the head exactly when it is alone or was not woken by its wakeup handle, every worker that reported a wake, and no other |
| WaitCycle.GatheredMembership | src/event/win32.c:336-401 | an event is on the list the worker loop builds exactly when it is in some worker's contribution |
| WaitCycle.Yields | src/event/win32.c:336-401 | each scanned worker contributes its expired timeouts when its timeouts were due, and otherwise the slots its scan delivers |
| Win32Queue.RouteOrder | src/event/win32.c:61-86 | the signal bit overrides every other bit, the message bit overrides the socket bits, and the completion port takes exactly non-accepting sockets when the port exists |
| Win32Queue.DeadlineAfterSet | src/event/win32.c:144-153 | after evq_set_timeout an event has no deadline exactly when the timeout changed and is infinite or could not be added; otherwise it is due `msec` after now |
| Win32Queue.SetTimeoutCode | src/event/win32.c:144-153 | evq_set_timeout fails exactly when the timeout changed, is finite and timeout_add failed |
| Win32Queue.SetTimeoutDecision | src/event/win32.c:144-153 | the same timeout is a reset with no delete or insert; a changed timeout deletes the old deadline first; an infinite one inserts nothing and succeeds; a finite one is inserted last |
| Win32Queue.NoInfiniteDeadline | src/event/win32.c:152-153 | no deadline ever carries the TIMEOUT_INFINITE sentinel |
| Win32Queue.EventQueue.constructor | src/event/win32.c:14-35 | a new queue has one empty head worker, no events, an empty ready list and no message event, and a completion port only on Windows NT |
| Win32Queue.EventQueue.FindWorker | src/event/win32.c:88-89 | the placement walk finds the first worker with a free slot, or reports that every worker is full |
| Win32Queue.EventQueue.Add | src/event/win32.c:53-99 | per route: the signal channel decides the result; the message event replaces the message slot; the port route fails only on an association error other than "already associated", else marks, counts and arms the event; the worker route puts the event and its handle in a new last slot of the first worker with a free slot, or of a new dormant worker, exactly on success, leaving that worker dormant with its other slots, handles and wait result, and every other worker's slots, handles, wait result and run state as they were; off the worker route no worker changes; the count grows exactly on success |
| Win32Queue.EventQueue.AddToSignal | src/event/win32.c:59-62 | signal_add is called once and decides the result and the count |
| Win32Queue.EventQueue.AddToMessage | src/event/win32.c:64-68 | the event takes the message slot and counts, with no helper call |
| Win32Queue.EventQueue.AddToPort | src/event/win32.c:70-86 | a real association error fails with nothing changed; otherwise the event is marked overlapped, counted on the port and in the queue, and armed with its original interest |
| Win32Queue.EventQueue.AddToWorker | src/event/win32.c:88-98 | the worker chosen is the first with a free slot, or a new one when all are full; it takes the event and its handle in a new last slot exactly on success, keeps its other slots, handles and wait result and is dormant; every other worker is as it was; the event's worker is the chosen one on success and the head otherwise |
| Win32Queue.EventQueue.AddToExisting | src/event/win32.c:91-98 | the first worker with a free slot is put to sleep and takes the event and its handle in a new last slot exactly on success; no other worker changes |
| Win32Queue.EventQueue.AddToNew | src/event/win32.c:93-98 | when every worker is full, a new dormant worker is created (placed last in the chain) and holds the event and its handle alone on success, or creating it fails and the call fails; the existing workers do not change |
| Win32Queue.EventQueue.AddToCreated | src/event/win32.c:93-98 | the event goes into the newly created worker as the worker route's second case |
| Win32Queue.EventQueue.NoWorker | src/event/win32.c:94-95 | a failed worker creation fails the call with nothing else changed |
| Win32Queue.EventQueue.PlaceIn | src/event/win32.c:98 | win32thr_add on a dormant worker: the event and its handle are in a new last slot exactly on success, the worker keeps its other slots, handles and wait result, the other workers are untouched, the count grows by one on success |
| Win32Queue.EventQueue.PlacedExisting | src/event/win32.c:88-98 | placing in the first free worker is the worker route's first case |
| Win32Queue.EventQueue.PlacedNew | src/event/win32.c:88-98 | placing in a new worker when all are full is the worker route's second case |
| Win32Queue.EventQueue.SetTimeout | src/event/win32.c:135-154 | an inactive event's worker is put to sleep; the deadline, result and timeout-index calls are those of DeadlineAfterSet, SetTimeoutCode and SetTimeoutCalls |
| Win32Queue.EventQueue.AddTimer | src/event/win32.c:156-165 | the timer belongs to the head and counts exactly when setting its timeout succeeds |
| Win32Queue.EventQueue.Del | src/event/win32.c:167-204 | a timer, port, signal or message event loses its deadline and worker and is uncounted, the port count drops for a port event, the message slot empties for a message event, only a failing signal_del fails, and no worker changes; any other event leaves its worker's slots together with its handle, the later ones moving down, the worker keeping its wait result and left dormant, every other worker untouched |
| Win32Queue.EventQueue.DelUnhosted | src/event/win32.c:175-197 | the unhosted branch of evq_del as DelOutcome states it, with no worker changed |
| Win32Queue.EventQueue.Unhost | src/event/win32.c:175-197 | the deadline is deleted if there is one, the worker cleared and the event uncounted; a port event is cancelled when pending and uncounted on the port, a signal event's result is signal_del's, a message event empties the message slot |
| Win32Queue.EventQueue.DelHosted | src/event/win32.c:200-203 | a hosted event leaves its worker's slots with its handle and is uncounted; the worker is dormant afterwards and keeps its wait result; no other worker changes |
| Win32Queue.EventQueue.DelFromWorker | src/event/win32.c:203 | win32thr_del removes exactly that event and its handle from the dormant worker, shifting the later slots down; no other worker changes |
| Win32Queue.EventQueue.AddDirwatch | src/event/win32.c:101-133 | the result field is cleared in every case; a failed path conversion fails before asking for a notification; a null or invalid handle fails after, with no worker changed; otherwise the event gets the handle and is added with the cleared flags exactly as Add states for them, the notification call recorded first |
| Win32Queue.EventQueue.OpenDirwatch | src/event/win32.c:104-131 | the filter asked for is DirwatchFilter of the original flags, the result field is cleared, and the handle is kept exactly when usable |
| Win32Queue.EventQueue.AddOpened | src/event/win32.c:131-132 | the opened watch is added like any other event, with Add's outcome for its route |
| Win32Queue.EventQueue.Modify | src/event/win32.c:206-232 | a port event with an operation in flight has exactly the dropped directions cancelled, then is armed with the new interest; the port branch leaves the worker's run state alone; any other event's worker sleeps unless active, when its run state is kept, and WfdMask of the new interest is selected on its slot's handle; the result follows the helper |
| Win32Queue.EventQueue.WaitForObjects | src/event/win32.c:257-278 | the port's events become the ready list when it has any; the wait observes n+1 handles, with a zero timeout when port events or signals were pending before it on Windows NT, and host messages exactly when a message event exists; the time and the waiting signals are read afterwards |
| Win32Queue.EventQueue.Wait | src/event/win32.c:234-418 | one cycle takes the exit PathOf names and returns CodeOf for it, judged on the signals waiting after the wait; every exit leaves the queue valid with the same workers, so another cycle, add or delete may follow; every exit but collecting leaves the workers and the count untouched; the early exits make no call, and an expired head deadline delivers its events; otherwise the wait is made with WaitTimeout, judged on the signals waiting before it, and each non-collecting exit's ready list and signal count are as Exited and the message clause state |
| Win32Queue.EventQueue.Woken | src/event/win32.c:273-418 | once no early exit was taken, the exit is WokenPath's and the code CodeOf's, both on the signals waiting after the wait; the queue stays valid with the same workers, the non-collecting exits leave the workers and the count untouched, and their ready lists and signal counts are AfterWait's |
| Win32Queue.EventQueue.AfterWait | src/event/win32.c:273-418 | per exit: a timeout with events ready stores them, a timeout with nothing due returns EVQ_TIMEOUT, a message wake activates the message event, a failure returns EVQ_FAILED, and only collecting scans the workers, drains the signals waiting after the wait and builds the ready list from its parts; every exit keeps the queue valid with the same workers, and the other exits leave the workers and the count untouched |
| Win32Queue.EventQueue.WakeUp | src/event/win32.c:273-297 | the wait, then the tests in source order: each exit that ends the cycle there keeps the queue valid, the workers and the count, and leaves the ready list the wait left (or the message event in front of it); otherwise the workers are still as the cycle found them |
| Win32Queue.EventQueue.MessageWake | src/event/win32.c:287-295 | an inactive message event is marked active and put in front; otherwise the list is unchanged |
| Win32Queue.EventQueue.ScanAll | src/event/win32.c:303-401 | the head records the wait result, the workers of ScanOrder are scanned, the rest untouched, and the gathered list is CycleYield |
| Win32Queue.EventQueue.StartScan | src/event/win32.c:303-336 | the head records the wait result and the scan order is ScanOrder's, with no worker scanned yet |
| Win32Queue.EventQueue.Collect | src/event/win32.c:299-418 | the ready list is the message event, the workers' contributions, the interrupted signals' events and the port's new events, in that order, in front of the earlier list; the signals are drained; an empty list is not stored and the code is CodeOf's |
| Win32Queue.EventQueue.ScanAndDeliver | src/event/win32.c:336-418 | the scan's contributions and the message event go in front of the list, which is stored unless empty |
| Win32Queue.EventQueue.DrainSignals | src/event/win32.c:299-334 | the waiting signals are taken and zeroed, and the port's new events and then the interrupted signals' events go in front |
| Win32Queue.EventQueue.SetHeadIdx | src/event/win32.c:303 | the head records the wait result, nothing else changes |
| Win32Queue.EventQueue.Deliver | src/event/win32.c:403-418 | the message event goes in front when messages are queued; an empty list is left alone and reported as a timeout exactly when the wait timed out with no signal waiting |
| Win32Queue.EventQueue.ScanWorkers | src/event/win32.c:336-401 | each worker of the order is scanned and its contribution goes in front of those before it; the count loses the slots removed; other workers are untouched |
| Win32Queue.EventQueue.ScanStep | src/event/win32.c:336-401 | one pass of the worker loop keeps the loop's state |
| Win32Queue.EventQueue.ScanPass | src/event/win32.c:336-401 | scanning one worker moves the scan on by one worker and prepends that worker's contribution |
| Win32Queue.EventQueue.ScanOne | src/event/win32.c:338-400 | the worker is put to sleep; with its timeouts due it contributes the expired events, otherwise its slot scan |
| Win32Queue.EventQueue.Visit | src/event/win32.c:358-391 | one slot: delivered exactly when its result is non-zero, then marked active with the result; a delivered one-shot event is removed with the later slots shifted; a delivered kept event with an automatic deadline has it moved to the cycle's time |
| Win32Queue.EventQueue.ScanWorker | src/event/win32.c:350-398 | the slots left are exactly those not removed, in order; the list gains exactly the delivered slots, in prepend order; the count loses the removed slots; each slot's flags and deadline are FlagsAfter's and DeadlineAfter's |
| Win32Queue.EventQueue.ScanFrom | src/event/win32.c:356-398 | the examine-and-skip loop reaches the end of the slots with exactly the delivered slots prepended and the removed slots uncounted |
| Win32Queue.EventQueue.VisitStep | src/event/win32.c:358-391 | examining original slot j, at slot j less the removals before it, moves the scan past j |
| Win32Queue.EventQueue.ScanningAt | src/event/win32.c:358-359 | mid-scan, original slot j sits at position j less the removals before it |
| Win32Queue.ScanStart | src/event/win32.c:350-353 | before the first examined slot nothing has changed, and when the reported index is past the used slots the scan does nothing |
| Win32Queue.ScanDone | src/event/win32.c:395-396 | once every slot is passed, the worker holds exactly the kept slots with their final flags and deadlines |
| Win32Queue.SkipUnsignalled | src/event/win32.c:393-397 | the walk stops at the next slot whose handle is signalled or at the end, passing only unexamined slots |
| Win32Queue.SkipHandles | src/event/win32.c:393-397 | the handle loop passes only unsignalled slots, keeping its index equal to the original position less the removals |
| Win32Queue.SkipStep | src/event/win32.c:393-397 | passing an unsignalled slot delivers and removes nothing |
| Win32Queue.HandleAt | src/event/win32.c:397 | mid-scan, the handle of original slot j sits at position j less the removals before it |

## Left out

- Concurrency: the critical sections around `wth_ready` and `sig_ready`, the
  workers' own threads and `sys_vm_leave`/`sys_vm_enter` are not modelled. A
  cycle reads the drained worker list as an input, and the waiting signals
  twice: the count before the wait is the queue's, the count after it (which
  other threads may have raised meanwhile) is an input answer.
- I/O and the clock: every Windows call and `sys_milliseconds` is an input
  answer; nothing here opens, waits on or resets a handle.
- The helpers `win32thr_*`, `win32iocp_*`, `timeout_*` and `signal_*` are not
  part of this model. Their effects on the queue are assumed: adding and
  removing slots, deadlines, and the counts. Their effects outside the queue
  are recorded as calls. `win32thr_del`'s downward shift is an assumption the
  scan's `--i, --n` step depends on.
- `win32thr_sleep` is reduced to marking the worker dormant, and
  `win32thr_poll` to its answer that the queue is empty.
- `iocp_is_empty` is modelled as the port count being zero. The events the
  port yields, the expired timeouts of each worker, `timeout_get` and
  `GetQueueStatus` are input answers. Which workers have timeouts is an input
  set.
- `evq_init`'s resource creation failures and `evq_done` are not modelled: the
  constructor is a successful `evq_init`.
- The `reuse_fd` argument of `evq_del` is ignored by the source and absent
  here; `ev->w.index` is not a field: the slot of an event is found by search
  among distinct slots.
- Win32Queue.EventQueue.Wait: on a collecting exit it states that the queue
  is valid with the same workers, but not the ready list, the drained signals
  or how the scan left the workers and the count. `AfterWait` states those
  against ghost tables of the workers on entry; carrying them up would put
  those tables into every proof of `Wait`, past the resource limit.
- Win32Queue.EventQueue.Woken: the same as `Wait` on a collecting exit.
- Win32Queue.EventQueue.Add: assumes that `win32iocp_set` leaves the event's
  flags as they are, and so ensures them exactly. Its body is not part of this
  model, and `EVENT_PENDING`, which `evq_del` and `evq_modify` read
  (win32.c:184, 212), is set by code outside this model.
- Win32Queue.EventQueue.AddToPort: the same assumption about `win32iocp_set`.
- Win32Queue.EventQueue.Modify: the same assumption about `win32iocp_set` on
  the port branch.
- Win32Queue.EventQueue.AddToNew: assumes that `win32thr_init` puts the new
  worker at the end of the chain; its body is not part of this model. Only the
  order in which later additions look for a free slot depends on it.
- Win32Queue.EventQueue.AddToCreated: the same assumption about
  `win32thr_init`.
- Win32Queue.EventQueue.Del: assumes that `win32thr_del` leaves the event's
  deadline and worker back-reference as they are, so the hosted branch states
  both kept. Its body is not part of this model; the unhosted branch clears
  both itself (win32.c:178-180), and an unregistered event's back-reference
  is expected to be null.
- Win32Queue.EventQueue.DelHosted: the same assumption about `win32thr_del`.
- Win32Queue.EventQueue.ScanWorker: the same assumption about `win32thr_del`
  for a one-shot event the scan removes: its deadline (`DeadlineVisited`) and
  worker are kept.
- Win32Queue.EventQueue.Wait: no event may sit in the slots of two workers
  (`SlotsDisjoint`). The backend keeps this but nothing here proves it across
  registrations.
- Win32Queue.EventQueue.ScanAndDeliver: the message event is read before the
  scan rather than after it. The scan does not change the message slot, so
  the value is the same.
- The `owner` map of `EventQueue` is a proof device that keeps the workers'
  arrays apart; it has no counterpart in the source.
- Bit-exact `EVENT_*` values: the header that defines them is not part of this
  model, so the positions are chosen here (see above).
- UTF-8 to file-name conversion in `evq_add_dirwatch` is an input (`pathOk`).

## Findings

| source | as written | input that shows it | evidently intended | confidence | as-written member | corrected member |
|---|---|---|---|---|---|---|
| src/common.h:115 | `INT64_MAKE` shifts `(int64_t) hi` left by 32, which is undefined behaviour in C when `hi` has its top bit set | `INT64_MAKE(INT64_LOW(-1), INT64_HIGH(-1))`: `hi` is 0xFFFFFFFF and the signed shift overflows | an unsigned shift, `((uint64_t) (unsigned int) hi << 32) \| (unsigned int) lo`, which rebuilds every 64-bit value from its halves | not executed | Common.MakeAsWrittenFailsOnNegative | Common.MakeOfParts |
