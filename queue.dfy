/** The event queue of the Win32 backend (src/event/win32.c): registration
    (`evq_add`, `evq_add_dirwatch`, `evq_add_timer`), deadlines
    (`evq_set_timeout`), removal (`evq_del`), interest changes (`evq_modify`)
    and one wait cycle (`evq_wait`).

    The Windows and Winsock calls are not modelled: what they answer is a
    parameter of the operation that calls them. The helpers the backend calls
    from files that are not part of this model (the worker, completion-port,
    timeout and signal helpers) are methods below whose bodies do only what
    their stated contract says; every call whose effect the backend does not
    itself observe is recorded in the ghost trace `calls`, so that the
    contracts can say which helpers an operation invoked, with which
    arguments and in which order.

    Some contracts compare a predicate, or a conjunction of several, with
    `true`. `P(...) == true` means exactly `P(...)`; it is written so that
    the verifier checks the whole of it as one fact instead of splitting it
    into its clauses, which keeps those proofs small. */
module Win32Queue {

  import opened Common
  import opened EventFlags
  import opened Scan
  import opened Workers
  import opened WaitCycle

  /** `ERROR_INVALID_PARAMETER`: what associating an already associated
      handle with the completion port reports (win32.c:73). */
  const ERROR_INVALID_PARAMETER: int := 87

  /** The null handle and `INVALID_HANDLE_VALUE`. */
  const NULL_HANDLE: Handle := 0
  const INVALID_HANDLE_VALUE: Handle := -1

  /** A call into a helper or a platform function whose effect lies outside
      the queue's own state. */
  datatype Call =
    | SignalAdd(ev: Event)
    | SignalDel(ev: Event)
    | IocpSet(ev: Event, flags: Flags)
    | IocpCancel(ev: Event, rw: Flags)
    | TimeoutAdd(ev: Event, msec: Msec)
    | TimeoutDel(ev: Event)
    | EventSelect(fd: Handle, handle: Handle, mask: bv32)
    | ChangeNotification(filter: bv32)
    | MsgWait(count: int, timeout: Msec, allEvents: bool)

  /** The platform's and the helpers' answers to one `evq_add`. */
  datatype AddAnswers = AddAnswers(
    signalAdded: bool,      // signal_add succeeded
    associated: bool,       // CreateIoCompletionPort succeeded
    lastError: int,         // GetLastError after a failed association
    skipModes: bool,        // SetFileCompletionNotificationModes exists and succeeded
    workerCreated: bool,    // win32thr_init succeeded
    wakeup: Handle,         // the new worker's wakeup handle
    slotHandle: Handle,     // the waitable handle win32thr_add puts in the slot
    slotAdded: bool)        // win32thr_add succeeded

  /** In the slot table `t` (each worker's used slots, head first), worker k
      is the first with a free slot. */
  predicate IsFirstFree(t: seq<seq<Event>>, k: int)
  {
    0 <= k < |t| && |t[k]| < NEVENT - 1 && forall m :: 0 <= m < k ==> |t[m]| >= NEVENT - 1
  }

  /** How the worker route of `evq_add` changes the workers, given those
      before (`ws0`) and after (`ws`): an existing worker k is put to sleep
      and nothing is created, or k is a newly created, dormant worker that
      holds the event alone when the call succeeds, or creating it failed
      and the call fails. */
  ghost predicate WorkerPlaced(ws0: seq<Worker>, ws: seq<Worker>, k: int, ev: Event, ans: AddAnswers, r: int)
    reads ws
  {
    && 0 <= k <= |ws0|
    && (k < |ws0| ==> ws == ws0 && ws[k].state == Dormant && (r == 0 <==> ans.slotAdded))
    && (k == |ws0| ==> |ws0| <= |ws| && ws[..|ws0|] == ws0
                       && (!ans.workerCreated ==> r == -1 && ws == ws0)
                       && (ans.workerCreated ==>
                             |ws| == k + 1 && ws[k].n == (if r == 0 then 1 else 0) && ws[k].state == Dormant
                             && ws[k].signal == ans.wakeup && (r == 0 <==> ans.slotAdded)))
  }

  /** In the slot table `t`, every worker's slot array is full. */
  predicate AllFull(t: seq<seq<Event>>)
  {
    forall m :: 0 <= m < |t| ==> |t[m]| >= NEVENT - 1
  }

  /** The used slots of each of `ws`, in order. */
  ghost function SlotsOf(ws: seq<Worker>): (t: seq<seq<Event>>)
    reads (set m | 0 <= m < |ws| :: ws[m])`n, set m | 0 <= m < |ws| :: ws[m].events
    requires forall m :: 0 <= m < |ws| ==> 0 <= ws[m].n <= ws[m].events.Length
    ensures |t| == |ws| && forall m :: 0 <= m < |ws| ==> t[m] == ws[m].Slots()
  {
    if ws == [] then [] else SlotsOf(ws[..|ws| - 1]) + [ws[|ws| - 1].Slots()]
  }

  /** The handles of the used slots of each of `ws`, in order. */
  ghost function HandlesOf(ws: seq<Worker>): (t: seq<seq<Handle>>)
    reads (set m | 0 <= m < |ws| :: ws[m])`n, set m | 0 <= m < |ws| :: ws[m].handles
    requires forall m :: 0 <= m < |ws| ==> 0 <= ws[m].n <= ws[m].handles.Length
    ensures |t| == |ws| && forall m :: 0 <= m < |ws| ==> t[m] == ws[m].Handles()
  {
    if ws == [] then [] else HandlesOf(ws[..|ws| - 1]) + [ws[|ws| - 1].Handles()]
  }

  /** The wait result each of `ws` last reported. */
  ghost function IdxOf(ws: seq<Worker>): (t: seq<int>)
    reads (set m | 0 <= m < |ws| :: ws[m])`idx
    ensures |t| == |ws| && forall m :: 0 <= m < |ws| ==> t[m] == ws[m].idx
  {
    if ws == [] then [] else IdxOf(ws[..|ws| - 1]) + [ws[|ws| - 1].idx]
  }

  /** The run state of each of `ws`. */
  ghost function StatesOf(ws: seq<Worker>): (t: seq<RunState>)
    reads (set m | 0 <= m < |ws| :: ws[m])`state
    ensures |t| == |ws| && forall m :: 0 <= m < |ws| ==> t[m] == ws[m].state
  {
    if ws == [] then [] else StatesOf(ws[..|ws| - 1]) + [ws[|ws| - 1].state]
  }

  /** Each worker's used slots, their handles, its last wait result and its
      run state, head first: what changes to the workers are stated against. */
  datatype WorkerTable = WorkerTable(slots: seq<seq<Event>>, handles: seq<seq<Handle>>, idx: seq<int>, states: seq<RunState>)
  {
    /** The table has a row of each kind for each of `n` workers. */
    predicate Sized(n: int)
    {
      |slots| == n && |handles| == n && |idx| == n && |states| == n
    }

    /** The table with one more worker, empty, dormant and with wait result 0. */
    function Grown(): WorkerTable
    {
      WorkerTable(slots + [[]], handles + [[]], idx + [0], states + [Dormant])
    }

    /** The table with worker k dormant. */
    function Asleep(k: int): WorkerTable
      requires 0 <= k < |states|
    {
      this.(states := states[k := Dormant])
    }
  }

  /** The views of the slots in the table `t`, whose handles are `ht`. */
  ghost function ViewsOf(t: seq<seq<Event>>, ht: seq<seq<Handle>>): (vt: seq<seq<SlotView>>)
    reads TableEvents(t)
    requires |t| == |ht| && forall m :: 0 <= m < |t| ==> |t[m]| == |ht[m]|
    ensures |vt| == |t| && forall m :: 0 <= m < |t| ==> vt[m] == Views(t[m], ht[m])
  {
    if t == [] then []
    else
      var last := |t| - 1;
      assert TableEvents(t[..last]) <= TableEvents(t) by {
        forall e | e in TableEvents(t[..last]) ensures e in TableEvents(t) {
          var m, k :| 0 <= m < last && 0 <= k < |t[m]| && e == t[..last][m][k];
        }
      }
      ViewsOf(t[..last], ht[..last]) + [Views(t[last], ht[last])]
  }

  /** Where `evq_add` sends an event. */
  datatype Route = SignalRoute | MessageRoute | PortRoute | WorkerRoute

  /** The route of an event with flags `f` (win32.c:61-98): the tests are
      tried in this order, so a signal event goes to the signal channel
      whatever else it asks for, and a host-message event takes the message
      slot unless it is a signal event. */
  function RouteOf(f: Flags, hasPort: bool): Route
  {
    if Has(f, EVENT_SIGNAL) then SignalRoute
    else if Has(f, EVENT_WINMSG) then MessageRoute
    else if PortEligible(f) && hasPort then PortRoute
    else WorkerRoute
  }

  /** The order of the routing tests: the signal bit overrides every other
      bit, the message bit overrides the socket bits, and the completion
      port takes only sockets that do not accept connections, and only when
      the port exists. */
  lemma RouteOrder(f: Flags, hasPort: bool)
    ensures Has(f, EVENT_SIGNAL) ==> RouteOf(f, hasPort) == SignalRoute
    ensures !Has(f, EVENT_SIGNAL) && Has(f, EVENT_WINMSG) ==> RouteOf(f, hasPort) == MessageRoute
    ensures RouteOf(f, hasPort) == PortRoute <==>
      !Has(f, EVENT_SIGNAL) && !Has(f, EVENT_WINMSG) && Has(f, EVENT_SOCKET) && !Has(f, EVENT_SOCKET_ACC_CONN) && hasPort
  {
  }

  /** The kinds `evq_del` handles without a worker (win32.c:175). */
  predicate Unhosted(f: Flags)
  {
    f & (EVENT_TIMER | EVENT_AIO | EVENT_SIGNAL | EVENT_WINMSG) != 0
  }

  /** The event already has a deadline with timeout `msec`. */
  predicate SameTimeout(tq: Option<Deadline>, msec: Msec)
  {
    tq.Some? && tq.value.msec == msec
  }

  /** The event's deadline after `evq_set_timeout(ev, msec)` at time `now`
      (win32.c:144-153), where `added` is whether `timeout_add` succeeds: a
      deadline with the same timeout is moved to `now`; otherwise the old one
      is dropped and, unless `msec` is TIMEOUT_INFINITE, a new one due `msec`
      after `now` is added. */
  function DeadlineAfterSet(tq: Option<Deadline>, msec: Msec, now: int, added: bool): (d: Option<Deadline>)
    ensures d.Some? ==> d.value == Deadline(msec, now + msec as int)
    ensures d.None? <==> !SameTimeout(tq, msec) && (msec == TIMEOUT_INFINITE || !added)
  {
    if SameTimeout(tq, msec) then Some(Deadline(msec, now + msec as int))
    else if msec == TIMEOUT_INFINITE || !added then None
    else Some(Deadline(msec, now + msec as int))
  }

  /** What `evq_set_timeout` returns: only a failing `timeout_add` fails it. */
  function SetTimeoutCode(tq: Option<Deadline>, msec: Msec, added: bool): (r: int)
    ensures r == -1 <==> !SameTimeout(tq, msec) && msec != TIMEOUT_INFINITE && !added
    ensures r == 0 || r == -1
  {
    if SameTimeout(tq, msec) || msec == TIMEOUT_INFINITE || added then 0 else -1
  }

  /** The timeout-index calls `evq_set_timeout` makes (`timeout_reset` is
      not among them: it only moves the deadline). */
  function SetTimeoutCalls(ev: Event, tq: Option<Deadline>, msec: Msec): seq<Call>
  {
    if SameTimeout(tq, msec) then []
    else (if tq.Some? then [TimeoutDel(ev)] else []) + (if msec == TIMEOUT_INFINITE then [] else [TimeoutAdd(ev, msec)])
  }

  /** The decision of `evq_set_timeout`: the same timeout is a reset with no
      delete or insert; a different one deletes the old deadline first, if
      there is one; TIMEOUT_INFINITE inserts nothing, leaves no deadline and
      succeeds; a finite timeout is inserted last. */
  lemma SetTimeoutDecision(ev: Event, tq: Option<Deadline>, msec: Msec, now: int, added: bool)
    ensures SameTimeout(tq, msec) ==>
      SetTimeoutCalls(ev, tq, msec) == [] && SetTimeoutCode(tq, msec, added) == 0
      && DeadlineAfterSet(tq, msec, now, added) == Some(Deadline(tq.value.msec, now + tq.value.msec as int))
    ensures !SameTimeout(tq, msec) && tq.Some? ==> SetTimeoutCalls(ev, tq, msec)[0] == TimeoutDel(ev)
    ensures !SameTimeout(tq, msec) && msec == TIMEOUT_INFINITE ==>
      DeadlineAfterSet(tq, msec, now, added).None? && SetTimeoutCode(tq, msec, added) == 0
      && TimeoutAdd(ev, msec) !in SetTimeoutCalls(ev, tq, msec)
    ensures !SameTimeout(tq, msec) && msec != TIMEOUT_INFINITE ==>
      var c := SetTimeoutCalls(ev, tq, msec);
      |c| >= 1 && c[|c| - 1] == TimeoutAdd(ev, msec)
  {
  }

  /** No deadline ever carries the TIMEOUT_INFINITE sentinel: setting a
      timeout keeps that so. */
  lemma NoInfiniteDeadline(tq: Option<Deadline>, msec: Msec, now: int, added: bool)
    requires tq.Some? ==> tq.value.msec != TIMEOUT_INFINITE
    ensures var d := DeadlineAfterSet(tq, msec, now, added); d.Some? ==> d.value.msec != TIMEOUT_INFINITE
  {
  }

  /** The helper calls `evq_del` makes for an event of a kind without a
      worker (win32.c:177-192): its deadline is deleted if it has one; then a
      completion-port event with an operation in flight has both directions
      cancelled, or else a signal event is taken off the signal channel. */
  function UnhostedDelCalls(ev: Event, flags: Flags, tq: Option<Deadline>): seq<Call>
  {
    (if tq.Some? then [TimeoutDel(ev)] else [])
    + (if Has(flags, EVENT_AIO) then (if Has(flags, EVENT_PENDING) then [IocpCancel(ev, EVENT_READ | EVENT_WRITE)] else [])
       else if Has(flags, EVENT_SIGNAL) then [SignalDel(ev)] else [])
  }

  /** `struct event_queue`. */
  class EventQueue {
    /** The number of registered events (`evq->nevents`). */
    var nevents: int
    /** The number of completion-port events (`evq->iocp.n`). */
    var iocpN: int
    /** A completion port exists (`evq->iocp.h != NULL`). */
    const hasPort: bool
    /** `is_WinNT`. */
    const winNT: bool
    /** The host-message event (`evq->win_msg`). */
    var winMsg: Event?
    /** The workers, head first (`evq->head` and its `next` chain). */
    var workers: seq<Worker>
    /** The cycle's time (`evq->now`). */
    var now: int
    /** The ready list (`evq->ev_ready`, linked through `next_ready`), head first. */
    var evReady: seq<Event>
    /** Signals waiting to be processed (`evq->sig_ready`). */
    var sigReady: int
    /** The calls made so far into helpers outside the queue's state. */
    ghost var calls: seq<Call>
    /** The position of each worker, and of each worker's two arrays, in
        `workers`: a proof device that keeps them all apart. */
    ghost var owner: map<object, int>

    /** The workers and their arrays. */
    ghost function Repr(): set<object>
      reads this`workers
    {
      (set m | 0 <= m < |workers| :: workers[m] as object)
      + (set m | 0 <= m < |workers| :: workers[m].events as object)
      + (set m | 0 <= m < |workers| :: workers[m].handles as object)
    }

    /** Neither the queue nor an event is part of the workers' footprint. */
    lemma OutsideRepr(ev: Event?)
      ensures ev !in Repr() && this !in Repr()
    {
    }

    ghost predicate Valid()
      reads this`workers, this`owner, Repr()
    {
      && |workers| >= 1
      && (forall m :: 0 <= m < |workers| ==>
            && workers[m] in owner && owner[workers[m]] == m
            && workers[m].events in owner && owner[workers[m].events] == m
            && workers[m].handles in owner && owner[workers[m].handles] == m)
      && (forall m :: 0 <= m < |workers| ==> workers[m].Valid())
    }

    /** No worker slot holds `ev`. */
    ghost predicate Unslotted(ev: Event)
      reads this`workers, this`owner, Repr()
      requires Valid()
    {
      forall m :: 0 <= m < |workers| ==> ev !in workers[m].Slots()
    }

    /** Each worker's used slots, head first. */
    ghost function SlotTable(): (t: seq<seq<Event>>)
      reads this`workers, this`owner, Repr()
      requires Valid()
      ensures |t| == |workers| && forall m :: 0 <= m < |workers| ==> t[m] == workers[m].Slots()
    {
      SlotsOf(workers)
    }

    /** The workers' slots, handles, wait results and run states. */
    ghost function Table(): (t: WorkerTable)
      reads this`workers, this`owner, Repr()
      requires Valid()
      ensures t.Sized(|workers|)
    {
      WorkerTable(SlotTable(), HandleTable(), IdxOf(workers), StatesOf(workers))
    }

    /** Every worker that the table `t` records, other than worker k, has
        the slots, handles, wait result and run state `t` gives it. */
    ghost predicate OthersAsIn(t: WorkerTable, k: int)
      reads this`workers, this`owner, Repr()
      requires Valid()
    {
      && t.Sized(|t.slots|) && |t.slots| <= |workers|
      && forall m :: 0 <= m < |t.slots| && m != k ==>
           && workers[m].Slots() == t.slots[m] && workers[m].Handles() == t.handles[m]
           && workers[m].idx == t.idx[m] && workers[m].state == t.states[m]
    }

    /** What the worker route of `evq_add` did, given the workers `ws0` and
        their table `t0` before it: worker k is the first with a free slot,
        or every worker was full and k is a new worker (see `WorkerPlaced`);
        worker k holds the event in a new last slot, with the waitable handle
        `win32thr_add` chose, exactly when the call succeeded, and keeps its
        other slots, handles and wait result; every other worker is as it
        was; the event records its worker. */
    ghost predicate WorkerAdded(ws0: seq<Worker>, t0: WorkerTable, ev: Event, ans: AddAnswers, k: int, r: int)
      reads this`workers, this`owner, Repr(), ev`wth
      requires Valid() && t0.Sized(|ws0|) && |ws0| >= 1
    {
      && WorkerPlaced(ws0, workers, k, ev, ans, r)
      && (k < |ws0| ==> IsFirstFree(t0.slots, k))
      && (k == |ws0| ==> AllFull(t0.slots))
      && OthersAsIn(t0, k)
      && (k < |workers| ==>
            var s0 := if k < |ws0| then t0.slots[k] else [];
            var h0 := if k < |ws0| then t0.handles[k] else [];
            && workers[k].Slots() == s0 + (if r == 0 then [ev] else [])
            && workers[k].Handles() == h0 + (if r == 0 then [ans.slotHandle] else [])
            && workers[k].idx == (if k < |ws0| then t0.idx[k] else 0))
      && (r == 0 ==> ev.wth == workers[k])
      && (r == -1 ==> ev.wth == ws0[0])
    }

    /** Worker k of the workers `ws1`, whose table was `t1`, is dormant and
        holds `ev` in a new last slot, with handle `h`, exactly when `r` is
        0, keeping its other slots, handles and wait result; the other
        workers are as in `t1`; the event records worker k, or the head when
        adding failed. */
    ghost predicate Placed(ws1: seq<Worker>, t1: WorkerTable, k: int, ev: Event, h: Handle, r: int)
      reads this`workers, this`owner, Repr(), ev`wth
      requires Valid()
    {
      && workers == ws1 && t1.Sized(|ws1|) && 0 <= k < |ws1|
      && workers[k].Slots() == t1.slots[k] + (if r == 0 then [ev] else [])
      && workers[k].Handles() == t1.handles[k] + (if r == 0 then [h] else [])
      && workers[k].idx == t1.idx[k] && workers[k].state == Dormant
      && OthersAsIn(t1, k)
      && ev.wth == (if r == 0 then workers[k] else workers[0])
    }

    /** Putting the first worker with a free slot to sleep and placing the
        event in it is the worker route's first case. */
    lemma PlacedExisting(ws0: seq<Worker>, t0: WorkerTable, k: int, ev: Event, ans: AddAnswers, r: int)
      requires (Valid() && t0.Sized(|ws0|) && IsFirstFree(t0.slots, k)) == true
      requires Placed(ws0, t0.Asleep(k), k, ev, ans.slotHandle, r) == true && (r == 0 <==> ans.slotAdded)
      ensures WorkerAdded(ws0, t0, ev, ans, k, r) == true
    {
    }

    /** Placing the event in a newly created worker, appended when every
        worker was full, is the worker route's second case. */
    lemma PlacedNew(ws0: seq<Worker>, t0: WorkerTable, c: Worker, ev: Event, ans: AddAnswers, r: int)
      requires (Valid() && t0.Sized(|ws0|) && |ws0| >= 1 && AllFull(t0.slots)) == true
      requires Placed(ws0 + [c], t0.Grown(), |ws0|, ev, ans.slotHandle, r) == true && (r == 0 <==> ans.slotAdded)
      requires ans.workerCreated && c.signal == ans.wakeup
      ensures WorkerAdded(ws0, t0, ev, ans, |ws0|, r) == true
    {
      assert workers[..|ws0|] == ws0;
    }

    /** The queue as a successful `evq_init` leaves it (win32.c:14-35): an
        empty head worker whose wakeup handle sits in its first slot. */
    constructor (winNT: bool, portCreated: bool, signal: Handle, now: int)
      ensures Valid() && fresh(Repr())
      ensures |workers| == 1 && workers[0].n == 0 && workers[0].signal == signal
      ensures nevents == 0 && iocpN == 0 && winMsg == null && evReady == [] && sigReady == 0
      ensures this.winNT == winNT && hasPort == (winNT && portCreated) && this.now == now
    {
      var head := new Worker(signal);
      this.winNT := winNT;
      hasPort := winNT && portCreated;
      workers := [head];
      owner := map[head := 0, head.events := 0, head.handles := 0];
      nevents := 0;
      iocpN := 0;
      winMsg := null;
      this.now := now;
      evReady := [];
      sigReady := 0;
      calls := [];
    }

    // ---- Helpers whose C bodies are not part of this model ----

    /** `win32thr_sleep`: the worker stops waiting so that its slots may be
        changed. */
    method ThreadSleep(w: Worker)
      modifies w`state
      ensures w.state == Dormant
    {
      w.state := Dormant;
    }

    /** `win32thr_init`: a new, empty worker joins the chain, or creating it
        fails and nothing changes. Where it joins is not visible here; it is
        taken to be the end of the chain. */
    method ThreadInit(wakeup: Handle, ok: bool) returns (w: Worker?)
      requires Valid()
      modifies this`workers, this`owner
      ensures Valid()
      ensures ok ==> (w != null && fresh(w) && fresh(w.events) && fresh(w.handles)
                      && workers == old(workers) + [w] && Table() == old(Table()).Grown()
                      && w.n == 0 && w.state == Dormant && w.signal == wakeup)
      ensures !ok ==> w == null && workers == old(workers) && Table() == old(Table())
    {
      w := null;
      if ok {
        var v := new Worker(wakeup);
        owner := owner[v := |workers|][v.events := |workers|][v.handles := |workers|];
        workers := workers + [v];
        Extended(v);
        ExtendedHandles(v);
        ExtendedRest(v);
        w := v;
      }
    }

    /** Appending a fresh, valid and empty worker keeps the queue valid and
        adds an empty row to its slot table. */
    twostate lemma Extended(new v: Worker)
      requires old(Valid()) && v.Valid() && v.n == 0 && v.idx == 0 && v.state == Dormant
      requires fresh(v) && fresh(v.events) && fresh(v.handles)
      requires workers == old(workers) + [v]
      requires owner == old(owner)[v := |old(workers)|][v.events := |old(workers)|][v.handles := |old(workers)|]
      requires unchanged(old(Repr()))
      ensures Valid() && SlotTable() == old(SlotTable()) + [[]]
    {
      assert SlotTable() == old(SlotTable()) + [v.Slots()];
    }

    /** ... and an empty row to its handle table. */
    twostate lemma ExtendedHandles(new v: Worker)
      requires old(Valid()) && v.Valid() && v.n == 0 && v.idx == 0 && v.state == Dormant
      requires fresh(v) && fresh(v.events) && fresh(v.handles)
      requires workers == old(workers) + [v]
      requires owner == old(owner)[v := |old(workers)|][v.events := |old(workers)|][v.handles := |old(workers)|]
      requires unchanged(old(Repr()))
      requires Valid()
      ensures HandleTable() == old(HandleTable()) + [[]]
    {
      assert HandleTable() == old(HandleTable()) + [v.Handles()];
    }

    /** ... and, the worker being dormant with wait result 0, those rows to
        the other two tables. */
    twostate lemma ExtendedRest(new v: Worker)
      requires old(Valid()) && v.Valid() && v.n == 0 && v.idx == 0 && v.state == Dormant
      requires fresh(v) && fresh(v.events) && fresh(v.handles)
      requires workers == old(workers) + [v]
      requires owner == old(owner)[v := |old(workers)|][v.events := |old(workers)|][v.handles := |old(workers)|]
      requires unchanged(old(Repr()))
      ensures IdxOf(workers) == old(IdxOf(workers)) + [0] && StatesOf(workers) == old(StatesOf(workers)) + [Dormant]
    {
      assert IdxOf(workers) == old(IdxOf(workers)) + [v.idx];
      assert StatesOf(workers) == old(StatesOf(workers)) + [v.state];
    }

    /** `win32thr_add`: the event takes the first free slot of a dormant
        worker with the waitable handle `h`, counts as registered and records
        its worker; or adding fails and nothing changes. */
    method ThreadAdd(w: Worker, ev: Event, h: Handle, ok: bool) returns (r: int)
      requires w.Valid() && w.state == Dormant && w.n < NEVENT - 1 && ev !in w.Slots()
      modifies w`n, w.events, w.handles, this`nevents, ev`wth
      ensures w.Valid()
      ensures ok ==> (r == 0 && w.Slots() == old(w.Slots()) + [ev] && w.Handles() == old(w.Handles()) + [h]
                      && nevents == old(nevents) + 1 && ev.wth == w)
      ensures !ok ==> r == -1 && unchanged(w, w.events, w.handles, this, ev)
    {
      if !ok {
        return -1;
      }
      w.Append(ev, h);
      nevents := nevents + 1;
      ev.wth := w;
      r := 0;
    }

    /** `win32thr_del`: the event's slot is removed and every later slot moves
        down one place (what the scan's `--i, --n, --hp` relies on); the event
        no longer counts as registered. Its deadline and worker are taken to
        be left as they are. */
    method ThreadDel(w: Worker, ev: Event) returns (r: int)
      requires w.Valid() && w.state == Dormant && ev in w.Slots()
      modifies w`n, w.events, w.handles, this`nevents
      ensures w.Valid() && r == 0 && nevents == old(nevents) - 1 && w.n == old(w.n) - 1
      ensures forall k :: 0 <= k < old(w.n) && old(w.Slots())[k] == ev ==>
        w.Slots() == old(w.Slots()[..k] + w.Slots()[k + 1..])
        && w.Handles() == old(w.Handles()[..k] + w.Handles()[k + 1..])
    {
      var k := w.Find(ev);
      w.RemoveAt(k);
      nevents := nevents - 1;
      r := 0;
    }

    /** `signal_add`: on success the event counts as registered. */
    method SignalAddCall(ev: Event, ok: bool) returns (r: int)
      modifies this`nevents, this`calls
      ensures calls == old(calls) + [SignalAdd(ev)]
      ensures r == (if ok then 0 else -1) && nevents == old(nevents) + (if ok then 1 else 0)
    {
      calls := calls + [SignalAdd(ev)];
      if ok {
        nevents := nevents + 1;
        r := 0;
      } else {
        r := -1;
      }
    }

    /** `signal_del`. */
    method SignalDelCall(ev: Event, ok: bool) returns (r: int)
      modifies this`calls
      ensures calls == old(calls) + [SignalDel(ev)] && r == (if ok then 0 else -1)
    {
      calls := calls + [SignalDel(ev)];
      r := if ok then 0 else -1;
    }

    /** `win32iocp_set`: arms the completion-port operations for `flags`.
        The event's flags are taken to be left as they are. */
    method IocpSetCall(ev: Event, flags: Flags, ok: bool) returns (r: int)
      modifies this`calls
      ensures calls == old(calls) + [IocpSet(ev, flags)] && r == (if ok then 0 else -1)
    {
      calls := calls + [IocpSet(ev, flags)];
      r := if ok then 0 else -1;
    }

    /** `win32iocp_cancel`: cancels the pending operations of directions `rw`. */
    method IocpCancelCall(ev: Event, rw: Flags)
      modifies this`calls
      ensures calls == old(calls) + [IocpCancel(ev, rw)]
    {
      calls := calls + [IocpCancel(ev, rw)];
    }

    /** `timeout_add`: on success the event gets a deadline `msec` after `at`. */
    method TimeoutAddCall(ev: Event, msec: Msec, at: int, ok: bool) returns (r: int)
      modifies ev`tq, this`calls
      ensures calls == old(calls) + [TimeoutAdd(ev, msec)]
      ensures ok ==> r == 0 && ev.tq == Some(Deadline(msec, at + msec as int))
      ensures !ok ==> r == -1 && ev.tq == old(ev.tq)
    {
      calls := calls + [TimeoutAdd(ev, msec)];
      if ok {
        ev.tq := Some(Deadline(msec, at + msec as int));
        r := 0;
      } else {
        r := -1;
      }
    }

    /** `timeout_del`: the event's deadline is removed. */
    method TimeoutDelCall(ev: Event)
      modifies ev`tq, this`calls
      ensures calls == old(calls) + [TimeoutDel(ev)] && ev.tq == None
    {
      calls := calls + [TimeoutDel(ev)];
      ev.tq := None;
    }

    /** `timeout_reset`: the deadline keeps its timeout and now falls due
        that long after `at`. */
    method TimeoutReset(ev: Event, at: int)
      requires ev.tq.Some?
      modifies ev`tq
      ensures ev.tq == Some(Deadline(old(ev.tq).value.msec, at + old(ev.tq).value.msec as int))
    {
      ev.tq := Some(Deadline(ev.tq.value.msec, at + ev.tq.value.msec as int));
    }

    // ---- Registration ----

    /** The placement walk of `evq_add` (win32.c:88-89): the first worker,
        head first, with a free slot, or `|workers|` when all are full. */
    method FindWorker() returns (k: int)
      requires Valid()
      ensures Valid() && workers == old(workers) && Table() == old(Table())
      ensures 0 <= k <= |workers|
      ensures k < |workers| ==> IsFirstFree(SlotTable(), k)
      ensures k == |workers| ==> AllFull(SlotTable())
    {
      k := 0;
      while workers[k].n >= NEVENT - 1
        invariant 0 <= k < |workers|
        invariant forall m :: 0 <= m < k ==> workers[m].n >= NEVENT - 1
        decreases |workers| - k
      {
        k := k + 1;
        if k == |workers| {
          return;
        }
      }
    }

    /** What `evq_add` did to an event whose flags were `f0`, given the
        workers `ws0` and their table `t0`, the call record `calls0`, the
        port count `iocp0`, the message slot `msg0` and the registered count
        `n0` before it (win32.c:53-99), where `route` is the route of `f0`.
        The event goes, in this order, to the signal channel, to the host-message slot, to the completion port, or
        to a worker slot; whatever the route, the registered count grows by
        one exactly when the call succeeds. Off the worker route the event's
        worker is the head and the workers are the same; the flags change only on
        the port route, the message slot only on the message route. */
    ghost predicate AddOutcome(route: Route, ev: Event, ans: AddAnswers, f0: Flags, ws0: seq<Worker>, t0: WorkerTable,
                               calls0: seq<Call>, iocp0: int, msg0: Event?, n0: int, k: int, r: int)
      reads this`nevents, this`iocpN, this`winMsg, this`workers, this`owner, this`calls, Repr(), ev`wth, ev`flags
      requires Valid() && t0.Sized(|ws0|) && |ws0| >= 1
    {
      && (r == 0 || r == -1) && nevents == n0 + (if r == 0 then 1 else 0)
      && (route != WorkerRoute ==> ev.wth == ws0[0] && workers == ws0)
      && (route != PortRoute ==> ev.flags == f0 && iocpN == iocp0)
      && (route != MessageRoute ==> winMsg == msg0)
      && match route
         case SignalRoute => calls == calls0 + [SignalAdd(ev)] && r == (if ans.signalAdded then 0 else -1)
         case MessageRoute => r == 0 && winMsg == ev && calls == calls0
         case PortRoute =>
           if !ans.associated && ans.lastError != ERROR_INVALID_PARAMETER
           then r == -1 && iocpN == iocp0 && ev.flags == f0 && calls == calls0
           else r == 0 && iocpN == iocp0 + 1 && calls == calls0 + [IocpSet(ev, f0)]
                && ev.flags == MarkOverlapped(f0, ans.skipModes)
         case WorkerRoute => calls == calls0 && WorkerAdded(ws0, t0, ev, ans, k, r)
    }

    /** `evq_add` (win32.c:53-99), as `AddOutcome` says. `k` is the worker
        index the worker route chose. */
    method Add(ev: Event, ans: AddAnswers) returns (r: int, ghost k: int)
      requires Valid() && Unslotted(ev)
      modifies this`nevents, this`iocpN, this`winMsg, this`workers, this`owner, this`calls, Repr(), ev`wth, ev`flags
      ensures Valid()
      ensures AddOutcome(RouteOf(old(ev.flags), hasPort), ev, ans, old(ev.flags), old(workers), old(Table()), old(calls), old(iocpN), old(winMsg), old(nevents), k, r) == true
      ensures RouteOf(old(ev.flags), hasPort) != WorkerRoute ==> unchanged(old(Repr()))
    {
      OutsideRepr(ev);
      // `ev->wth = &evq->head` comes first on every route; each route's
      // method does it itself.
      k := 0;
      match RouteOf(ev.flags, hasPort)
      case SignalRoute =>
        r := AddToSignal(ev, ans);
      case MessageRoute =>
        r := AddToMessage(ev);
      case PortRoute =>
        r := AddToPort(ev, ans);
      case WorkerRoute =>
        r, k := AddToWorker(ev, ans);
    }

    /** The signal route of `evq_add` (win32.c:59-62): `signal_add` decides. */
    method AddToSignal(ev: Event, ans: AddAnswers) returns (r: int)
      requires Valid()
      modifies this`nevents, this`calls, ev`wth
      ensures Valid() && ev.wth == old(workers[0]) && ev.flags == old(ev.flags)
      ensures calls == old(calls) + [SignalAdd(ev)] && r == (if ans.signalAdded then 0 else -1)
      ensures nevents == old(nevents) + (if ans.signalAdded then 1 else 0)
      ensures workers == old(workers) && winMsg == old(winMsg) && iocpN == old(iocpN)
    {
      OutsideRepr(ev);
      ev.wth := workers[0];
      r := SignalAddCall(ev, ans.signalAdded);
    }

    /** The host-message route of `evq_add` (win32.c:59, 64-68): the event
        takes the message slot, replacing whatever was there, and counts as
        registered. */
    method AddToMessage(ev: Event) returns (r: int)
      requires Valid()
      modifies this`nevents, this`winMsg, ev`wth
      ensures Valid() && r == 0 && winMsg == ev && nevents == old(nevents) + 1
      ensures ev.wth == old(workers[0]) && ev.flags == old(ev.flags)
      ensures calls == old(calls) && workers == old(workers) && iocpN == old(iocpN)
    {
      OutsideRepr(ev);
      ev.wth := workers[0];
      winMsg := ev;
      nevents := nevents + 1;
      r := 0;
    }

    /** The completion-port route of `evq_add` (win32.c:70-86): an
        association that fails for any reason but "already associated" fails
        the call; otherwise the event is marked overlapped, counted on the
        port and in the queue, marked to skip completion notifications when
        the platform accepts that, and armed with its original interest. */
    method AddToPort(ev: Event, ans: AddAnswers) returns (r: int)
      requires Valid()
      modifies this`nevents, this`iocpN, this`calls, ev`flags, ev`wth
      ensures Valid() && ev.wth == old(workers[0]) && workers == old(workers) && winMsg == old(winMsg)
      ensures !ans.associated && ans.lastError != ERROR_INVALID_PARAMETER ==>
        r == -1 && nevents == old(nevents) && iocpN == old(iocpN) && ev.flags == old(ev.flags) && calls == old(calls)
      ensures ans.associated || ans.lastError == ERROR_INVALID_PARAMETER ==>
        && r == 0 && nevents == old(nevents) + 1 && iocpN == old(iocpN) + 1
        && calls == old(calls) + [IocpSet(ev, old(ev.flags))]
        && ev.flags == MarkOverlapped(old(ev.flags), ans.skipModes)
    {
      OutsideRepr(ev);
      ev.wth := workers[0];
      var evFlags := ev.flags;
      if !ans.associated && ans.lastError != ERROR_INVALID_PARAMETER {
        return -1;
      }
      ev.flags := WithAio(ev.flags);
      iocpN := iocpN + 1;
      nevents := nevents + 1;
      if ans.skipModes {
        ev.flags := WithAioSkip(ev.flags);
      }
      // The helper's own result is not looked at.
      var _ := IocpSetCall(ev, evFlags, true);
      r := 0;
    }

    /** The worker route of `evq_add` (win32.c:59, 88-98): the first worker with
        a free slot is put to sleep and takes the event; when every worker is
        full a new one is created, and the call fails if that fails. */
    method AddToWorker(ev: Event, ans: AddAnswers) returns (r: int, ghost k: int)
      requires Valid() && Unslotted(ev) && RouteOf(ev.flags, hasPort) == WorkerRoute
      modifies this`nevents, this`workers, this`owner, Repr(), ev`wth
      ensures Valid() && (r == 0 || r == -1)
      ensures nevents == old(nevents) + (if r == 0 then 1 else 0)
      ensures WorkerAdded(old(workers), old(Table()), ev, ans, k, r) == true
      ensures ev.flags == old(ev.flags) && calls == old(calls) && winMsg == old(winMsg) && iocpN == old(iocpN)
    {
      ghost var ws0, t0 := workers, Table();
      var first := FindWorker();
      k := first;
      if first < |workers| {
        r := AddToExisting(first, ev, ans, ws0, t0);
      } else {
        r := AddToNew(ev, ans, ws0, t0);
      }
    }

    /** `win32thr_sleep` then `win32thr_add` on worker k, the first with a
        free slot (win32.c:59, 92, 98). */
    method AddToExisting(k: int, ev: Event, ans: AddAnswers, ghost ws0: seq<Worker>, ghost t0: WorkerTable)
      returns (r: int)
      requires Valid() && ws0 == workers && t0 == Table() && IsFirstFree(t0.slots, k) && Unslotted(ev)
      modifies this`nevents, workers[k], workers[k].events, workers[k].handles, ev`wth
      ensures Valid() && (r == 0 || r == -1)
      ensures nevents == old(nevents) + (if r == 0 then 1 else 0)
      ensures WorkerAdded(ws0, t0, ev, ans, k, r) == true
      ensures ev.flags == old(ev.flags) && calls == old(calls) && winMsg == old(winMsg) && iocpN == old(iocpN)
    {
      SleepWorker(workers[k], k);
      r := PlaceIn(k, ev, ans, ws0, t0.Asleep(k));
      PlacedExisting(ws0, t0, k, ev, ans, r);
    }

    /** `win32thr_init` then `win32thr_add` on the new worker, when every
        worker is full (win32.c:59, 94-95, 98). */
    method AddToNew(ev: Event, ans: AddAnswers, ghost ws0: seq<Worker>, ghost t0: WorkerTable) returns (r: int)
      requires Valid() && ws0 == workers && t0 == Table() && AllFull(t0.slots)
      modifies this`nevents, this`workers, this`owner, ev`wth
      ensures Valid() && (r == 0 || r == -1)
      ensures nevents == old(nevents) + (if r == 0 then 1 else 0)
      ensures WorkerAdded(ws0, t0, ev, ans, |ws0|, r) == true
      ensures ev.flags == old(ev.flags) && calls == old(calls) && winMsg == old(winMsg) && iocpN == old(iocpN)
    {
      var created := ThreadInit(ans.wakeup, ans.workerCreated);
      if created == null {
        r := NoWorker(ev, ans, ws0, t0);
        return;
      }
      r := AddToCreated(created, ev, ans, ws0, t0);
    }

    /** The worker route's second case once the worker `c` was created and
        appended: the event is placed in it. */
    method AddToCreated(c: Worker, ev: Event, ans: AddAnswers, ghost ws0: seq<Worker>, ghost t0: WorkerTable) returns (r: int)
      requires (Valid() && t0.Sized(|ws0|) && |ws0| >= 1 && AllFull(t0.slots) && workers == ws0 + [c]
                && Table() == t0.Grown() && ans.workerCreated && c.signal == ans.wakeup && c.n == 0 && c.state == Dormant) == true
      modifies this`nevents, c, c.events, c.handles, ev`wth
      ensures Valid() && (r == 0 || r == -1)
      ensures nevents == old(nevents) + (if r == 0 then 1 else 0)
      ensures WorkerAdded(ws0, t0, ev, ans, |ws0|, r) == true
      ensures ev.flags == old(ev.flags) && calls == old(calls) && winMsg == old(winMsg) && iocpN == old(iocpN)
    {
      r := PlaceIn(|workers| - 1, ev, ans, ws0 + [c], t0.Grown());
      PlacedNew(ws0, t0, c, ev, ans, r);
    }

    /** The worker route when creating a worker fails: the event keeps the
        head as its worker and the call fails. */
    method NoWorker(ev: Event, ans: AddAnswers, ghost ws0: seq<Worker>, ghost t0: WorkerTable) returns (r: int)
      requires Valid() && ws0 == workers && t0 == Table() && AllFull(t0.slots) && !ans.workerCreated
      modifies ev`wth
      ensures Valid() && r == -1 && WorkerAdded(ws0, t0, ev, ans, |ws0|, r) == true
    {
      ev.wth := workers[0];
      r := -1;
    }

    /** `win32thr_sleep` on worker k, seen from the queue: nothing else
        changes. */
    method SleepWorker(w: Worker, ghost k: int)
      requires Valid() && 0 <= k < |workers| && w == workers[k]
      modifies w`state
      ensures Valid() && workers == old(workers) && w.state == Dormant && Table() == old(Table()).Asleep(k)
    {
      ThreadSleep(w);
      SleptValid(k);
      SleptTable(k);
    }

    /** A change to the workers' run states alone keeps the queue valid. */
    twostate lemma SleptValid(new k: int)
      requires old(Valid()) && workers == old(workers) && owner == old(owner) && 0 <= k < |workers|
      requires forall m :: 0 <= m < |workers| ==>
        workers[m].n == old(workers[m].n) && workers[m].idx == old(workers[m].idx)
        && unchanged(workers[m].events, workers[m].handles)
      ensures Valid()
    {
    }

    /** Putting worker k to sleep, and changing no other run state, changes
        the table only in worker k's run state. */
    twostate lemma SleptTable(new k: int)
      requires old(Valid()) && Valid() && workers == old(workers) && 0 <= k < |workers| && workers[k].state == Dormant
      requires forall m :: 0 <= m < |workers| ==>
        workers[m].n == old(workers[m].n) && workers[m].idx == old(workers[m].idx)
        && unchanged(workers[m].events, workers[m].handles)
      requires forall m :: 0 <= m < |workers| && m != k ==> workers[m].state == old(workers[m].state)
      ensures Table() == old(Table()).Asleep(k)
    {
      assert SlotTable() == old(SlotTable()) && HandleTable() == old(HandleTable());
      assert IdxOf(workers) == old(IdxOf(workers));
      assert StatesOf(workers) == old(StatesOf(workers))[k := Dormant];
    }

    /** The event's worker is set to the head, then `win32thr_add` runs on
        worker k, dormant and with a free slot; the other workers are
        untouched. `ws0` and `t0` are the workers and their table on entry. */
    method PlaceIn(k: int, ev: Event, ans: AddAnswers, ghost ws0: seq<Worker>, ghost t0: WorkerTable)
      returns (r: int)
      requires (Valid() && ws0 == workers && t0 == Table()) == true
      requires 0 <= k < |workers| && workers[k].state == Dormant && |t0.slots[k]| < NEVENT - 1 && ev !in t0.slots[k]
      modifies this`nevents, workers[k], workers[k].events, workers[k].handles, ev`wth
      ensures Valid() && (r == 0 || r == -1) && (r == 0 <==> ans.slotAdded)
      ensures nevents == old(nevents) + (if r == 0 then 1 else 0)
      ensures Placed(ws0, t0, k, ev, ans.slotHandle, r) == true
      ensures ev.flags == old(ev.flags) && calls == old(calls) && winMsg == old(winMsg) && iocpN == old(iocpN)
    {
      ev.wth := workers[0];
      r := AddSlot(workers[k], ev, ans.slotHandle, ans.slotAdded, k);
      SlotPlaced(ws0, t0, k, ev, ans.slotHandle, r);
    }

    /** The `win32thr_add` call itself on worker k, which changes no other
        worker. */
    method AddSlot(w: Worker, ev: Event, h: Handle, ok: bool, ghost k: int) returns (r: int)
      requires (Valid() && 0 <= k < |workers| && w == workers[k]) == true
      requires w.state == Dormant && w.n < NEVENT - 1 && ev !in w.Slots()
      modifies this`nevents, w`n, w.events, w.handles, ev`wth
      ensures r == (if ok then 0 else -1) && nevents == old(nevents) + (if ok then 1 else 0) && w.Valid()
      ensures w.Slots() == old(w.Slots()) + (if ok then [ev] else [])
      ensures w.Handles() == old(w.Handles()) + (if ok then [h] else [])
      ensures ev.wth == (if ok then w else old(ev.wth))
      ensures (forall m :: 0 <= m < |workers| && m != k ==>
                 unchanged(workers[m], workers[m].events, workers[m].handles)) == true
    {
      r := ThreadAdd(w, ev, h, ok);
    }

    /** Adding `ev` with handle `h` to worker k alone, or failing to, and
        changing nothing else, places it as `Placed` says. */
    twostate lemma SlotPlaced(new ws0: seq<Worker>, new t0: WorkerTable, new k: int, new ev: Event, new h: Handle, new r: int)
      requires old(allocated(t0))
      requires (old(Valid()) && old(Table()) == t0 && workers == old(workers) && ws0 == workers && owner == old(owner)
                && 0 <= k < |workers| && workers[k].Valid() && workers[k].idx == old(workers[k].idx)
                && workers[k].state == Dormant
                && workers[k].Slots() == old(workers[k].Slots()) + (if r == 0 then [ev] else [])
                && workers[k].Handles() == old(workers[k].Handles()) + (if r == 0 then [h] else [])
                && ev.wth == (if r == 0 then workers[k] else workers[0])) == true
      requires (forall m :: 0 <= m < |workers| && m != k ==>
                  unchanged(workers[m], workers[m].events, workers[m].handles)) == true
      ensures Valid() && Placed(ws0, t0, k, ev, h, r) == true
    {
      OthersKept(k);
    }

    /** A change that leaves the workers, their footprint and the owner map
        alone keeps the queue valid. */
    twostate lemma ReprKept()
      requires old(Valid()) && workers == old(workers) && owner == old(owner) && unchanged(old(Repr()))
      ensures Valid()
    {
    }

    /** A change to worker k alone keeps the queue valid and every other
        worker as it was. */
    twostate lemma OthersKept(new k: int)
      requires (old(Valid()) && workers == old(workers) && owner == old(owner) && 0 <= k < |workers| && workers[k].Valid()
                && forall m :: 0 <= m < |workers| && m != k ==>
                     unchanged(workers[m], workers[m].events, workers[m].handles)) == true
      ensures Valid() && OthersAsIn(old(Table()), k) == true
    {
    }

    // ---- Deadlines ----

    /** `evq_set_timeout` (win32.c:135-154), where `added` is whether
        `timeout_add` succeeds: an inactive event's worker is put to sleep
        first; then the deadline, the result and the timeout-index calls are
        as `DeadlineAfterSet`, `SetTimeoutCode` and `SetTimeoutCalls` say. */
    method SetTimeout(ev: Event, msec: Msec, added: bool) returns (r: int)
      requires ev.wth != null
      modifies ev.wth`state, ev`tq, this`calls
      ensures r == SetTimeoutCode(old(ev.tq), msec, added)
      ensures ev.tq == DeadlineAfterSet(old(ev.tq), msec, now, added)
      ensures calls == old(calls) + SetTimeoutCalls(ev, old(ev.tq), msec)
      ensures !Has(old(ev.flags), EVENT_ACTIVE) ==> ev.wth.state == Dormant
      ensures Has(old(ev.flags), EVENT_ACTIVE) ==> ev.wth.state == old(ev.wth.state)
    {
      if !Has(ev.flags, EVENT_ACTIVE) {
        ThreadSleep(ev.wth);
      }
      if ev.tq.Some? {
        if ev.tq.value.msec == msec {
          TimeoutReset(ev, now);
          return 0;
        }
        TimeoutDelCall(ev);
      }
      if msec == TIMEOUT_INFINITE {
        return 0;
      }
      r := TimeoutAddCall(ev, msec, now, added);
    }

    /** `evq_add_timer` (win32.c:156-165): the timer is owned by the head
        worker and counts as registered exactly when setting its timeout
        succeeds. */
    method AddTimer(ev: Event, msec: Msec, added: bool) returns (r: int)
      requires Valid()
      modifies this`nevents, this`calls, {workers[0]}`state, ev`wth, ev`tq
      ensures Valid() && ev.wth == workers[0] && workers == old(workers)
      ensures r == SetTimeoutCode(old(ev.tq), msec, added)
      ensures nevents == old(nevents) + (if r == 0 then 1 else 0)
      ensures ev.tq == DeadlineAfterSet(old(ev.tq), msec, now, added)
      ensures calls == old(calls) + SetTimeoutCalls(ev, old(ev.tq), msec)
    {
      ev.wth := workers[0];
      r := SetTimeout(ev, msec, added);
      if r == 0 {
        nevents := nevents + 1;
      }
    }

    // ---- Removal and interest changes ----

    /** Worker k, whose row in the table `t0` held `ev` in slot j, lost that
        slot and its handle, the later ones moving down one place; it keeps
        its wait result and is dormant; every other worker is as `t0` says. */
    ghost predicate DeletedFrom(t0: WorkerTable, k: int, j: int, ev: Event)
      reads this`workers, this`owner, Repr()
      requires Valid()
    {
      && t0.Sized(|workers|) && 0 <= k < |workers| && OthersAsIn(t0, k)
      && 0 <= j < |t0.slots[k]| && |t0.handles[k]| == |t0.slots[k]| && t0.slots[k][j] == ev
      && workers[k].Slots() == t0.slots[k][..j] + t0.slots[k][j + 1..]
      && workers[k].Handles() == t0.handles[k][..j] + t0.handles[k][j + 1..]
      && workers[k].Slots() == Without(t0.slots[k], ev) && ev !in workers[k].Slots()
      && workers[k].idx == t0.idx[k] && workers[k].state == Dormant
    }


    /** What `evq_del` did to an event whose flags were `f`, given the
        table `t0`, the call record `calls0`, the deadline `tq0`, the worker
        `wth0`, the port count `iocp0`, the message slot `msg0` and the
        registered count `n0` before it (win32.c:167-202). An event of a
        kind without a worker (a timer, a completion-port, signal or message
        event) loses its deadline and its worker and stops counting as
        registered; a completion-port event also stops counting on the port,
        a message event empties the message slot, and only a signal event
        can fail, when `signal_del` does (`signalDeleted`), after it was
        uncounted. Any other event is taken out of slot j of its worker k
        and nothing else about the queue or the event changes. */
    ghost predicate DelOutcome(f: Flags, ev: Event, signalDeleted: bool, t0: WorkerTable, calls0: seq<Call>,
                               tq0: Option<Deadline>, wth0: Worker?, iocp0: int, msg0: Event?, n0: int, k: int, j: int, r: int)
      reads this`nevents, this`iocpN, this`winMsg, this`workers, this`owner, this`calls, Repr(), ev`tq, ev`wth
      requires Valid()
    {
      && nevents == n0 - 1
      && if Unhosted(f) then
           && calls == calls0 + UnhostedDelCalls(ev, f, tq0) && ev.tq == None && ev.wth == null
           && iocpN == iocp0 - (if Has(f, EVENT_AIO) then 1 else 0)
           && winMsg == (if !Has(f, EVENT_AIO) && !Has(f, EVENT_SIGNAL) && Has(f, EVENT_WINMSG) then null else msg0)
           && r == (if !Has(f, EVENT_AIO) && Has(f, EVENT_SIGNAL) && !signalDeleted then -1 else 0)
         else
           && r == 0 && calls == calls0 && iocpN == iocp0 && winMsg == msg0 && ev.tq == tq0 && ev.wth == wth0
           && DeletedFrom(t0, k, j, ev)
    }

    /** Whether the table recorded worker k as asleep or not makes no
        difference to a deletion from it. */
    lemma DelOutcomeAsleep(f: Flags, ev: Event, signalDeleted: bool, t0: WorkerTable, calls0: seq<Call>,
                           tq0: Option<Deadline>, wth0: Worker?, iocp0: int, msg0: Event?, n0: int, k: int, j: int, r: int)
      requires Valid() && 0 <= k < |t0.states|
      requires DelOutcome(f, ev, signalDeleted, t0.Asleep(k), calls0, tq0, wth0, iocp0, msg0, n0, k, j, r) == true
      ensures DelOutcome(f, ev, signalDeleted, t0, calls0, tq0, wth0, iocp0, msg0, n0, k, j, r) == true
    {
    }

    /** `evq_del` (win32.c:167-202), as `DelOutcome` says; the workers stay
        the same, and a worker-hosted event's worker k is put to sleep first
        unless the event is active, in which case the scan that delivered it
        left the worker dormant. `j` is the slot the event held. */
    method Del(ev: Event, signalDeleted: bool, ghost k: int) returns (r: int, ghost j: int)
      requires Valid() && ev.wth != null
      requires !Unhosted(ev.flags) ==>
        && 0 <= k < |workers| && ev.wth == workers[k] && ev in workers[k].Slots()
        && (Has(ev.flags, EVENT_ACTIVE) ==> workers[k].state == Dormant)
      modifies this`nevents, this`iocpN, this`winMsg, this`calls, Repr(), ev`tq, ev`wth
      ensures Valid() && workers == old(workers)
      ensures DelOutcome(old(ev.flags), ev, signalDeleted, old(Table()), old(calls), old(ev.tq), old(ev.wth),
                         old(iocpN), old(winMsg), old(nevents), k, j, r) == true
      ensures Unhosted(old(ev.flags)) ==> unchanged(old(Repr()))
    {
      if Unhosted(ev.flags) {
        j := 0;
        r := DelUnhosted(ev, signalDeleted, k);
      } else {
        r, j := DelHosted(ev, signalDeleted, k);
      }
    }

    /** The part of `evq_del` for kinds without a worker (win32.c:175-197),
        which leaves the workers alone. */
    method DelUnhosted(ev: Event, signalDeleted: bool, ghost k: int) returns (r: int)
      requires Valid() && Unhosted(ev.flags)
      modifies this`nevents, this`iocpN, this`winMsg, this`calls, ev`tq, ev`wth
      ensures Valid() && workers == old(workers) && unchanged(old(Repr()))
      ensures DelOutcome(old(ev.flags), ev, signalDeleted, old(Table()), old(calls), old(ev.tq), old(ev.wth),
                         old(iocpN), old(winMsg), old(nevents), k, 0, r) == true
    {
      OutsideRepr(ev);
      r := Unhost(ev, signalDeleted);
      ReprKept();
    }

    /** The steps of `evq_del` for kinds without a worker (win32.c:175-197). */
    method Unhost(ev: Event, signalDeleted: bool) returns (r: int)
      requires Unhosted(ev.flags)
      modifies this`nevents, this`iocpN, this`winMsg, this`calls, ev`tq, ev`wth
      ensures nevents == old(nevents) - 1 && ev.tq == None && ev.wth == null
      ensures var f := old(ev.flags);
        && calls == old(calls) + UnhostedDelCalls(ev, f, old(ev.tq))
        && iocpN == old(iocpN) - (if Has(f, EVENT_AIO) then 1 else 0)
        && winMsg == (if !Has(f, EVENT_AIO) && !Has(f, EVENT_SIGNAL) && Has(f, EVENT_WINMSG) then null else old(winMsg))
        && r == (if !Has(f, EVENT_AIO) && Has(f, EVENT_SIGNAL) && !signalDeleted then -1 else 0)
    {
      var evFlags := ev.flags;
      if ev.tq.Some? {
        TimeoutDelCall(ev);
      }
      ev.wth := null;
      nevents := nevents - 1;
      if Has(evFlags, EVENT_AIO) {
        if Has(evFlags, EVENT_PENDING) {
          IocpCancelCall(ev, EVENT_READ | EVENT_WRITE);
        }
        iocpN := iocpN - 1;
        return 0;
      }
      if Has(evFlags, EVENT_SIGNAL) {
        r := SignalDelCall(ev, signalDeleted);
        return;
      }
      if Has(evFlags, EVENT_WINMSG) {
        winMsg := null;
      }
      r := 0;
    }

    /** The part of `evq_del` for worker-hosted events (win32.c:199-202). */
    method DelHosted(ev: Event, ghost signalDeleted: bool, ghost k: int) returns (r: int, ghost j: int)
      requires Valid() && !Unhosted(ev.flags) && 0 <= k < |workers| && ev.wth == workers[k] && ev in workers[k].Slots()
      requires Has(ev.flags, EVENT_ACTIVE) ==> workers[k].state == Dormant
      modifies this`nevents, workers[k], workers[k].events, workers[k].handles
      ensures Valid() && workers == old(workers)
      ensures DelOutcome(old(ev.flags), ev, signalDeleted, old(Table()), old(calls), old(ev.tq), old(ev.wth),
                         old(iocpN), old(winMsg), old(nevents), k, j, r) == true
    {
      ghost var t0 := Table();
      if !Has(ev.flags, EVENT_ACTIVE) {
        SleepWorker(ev.wth, k);
        r, j := DelFromWorker(ev, signalDeleted, k, t0.Asleep(k));
        DelOutcomeAsleep(ev.flags, ev, signalDeleted, t0, calls, ev.tq, ev.wth, iocpN, winMsg, old(nevents), k, j, r);
      } else {
        r, j := DelFromWorker(ev, signalDeleted, k, t0);
      }
    }

    /** `win32thr_del` on the dormant worker k that hosts `ev`, where `t0`
        is the table before it. */
    method DelFromWorker(ev: Event, ghost signalDeleted: bool, ghost k: int, ghost t0: WorkerTable) returns (r: int, ghost j: int)
      requires Valid() && !Unhosted(ev.flags) && Table() == t0
      requires 0 <= k < |workers| && ev.wth == workers[k] && ev in workers[k].Slots() && workers[k].state == Dormant
      modifies this`nevents, workers[k], workers[k].events, workers[k].handles
      ensures Valid() && workers == old(workers)
      ensures DelOutcome(old(ev.flags), ev, signalDeleted, t0, old(calls), old(ev.tq), old(ev.wth),
                         old(iocpN), old(winMsg), old(nevents), k, j, r) == true
    {
      ghost var s0 := ev.wth.Slots();
      j :| 0 <= j < |s0| && s0[j] == ev;
      r := DelSlot(ev.wth, ev, k, j);
      SlotDeleted(ev, signalDeleted, k, j, t0, r);
    }

    /** Removing slot j, which held `ev`, from worker k alone, and changing
        nothing else, is a deletion as `DelOutcome` says. */
    twostate lemma SlotDeleted(new ev: Event, new signalDeleted: bool, new k: int, new j: int, new t0: WorkerTable, new r: int)
      requires old(allocated(ev)) && old(allocated(t0))
      requires (old(Valid()) && old(Table()) == t0 && !Unhosted(ev.flags) && ev.flags == old(ev.flags)
                && workers == old(workers) && owner == old(owner) && 0 <= k < |workers| && ev.wth == workers[k]
                && ev.tq == old(ev.tq) && ev.wth == old(ev.wth) && calls == old(calls) && iocpN == old(iocpN)
                && winMsg == old(winMsg) && r == 0 && nevents == old(nevents) - 1
                && 0 <= j < |old(workers[k].Slots())| && old(workers[k].Slots())[j] == ev
                && workers[k].Valid() && workers[k].idx == old(workers[k].idx) && workers[k].state == Dormant
                && workers[k].Slots() == old(workers[k].Slots()[..j] + workers[k].Slots()[j + 1..])
                && workers[k].Handles() == old(workers[k].Handles()[..j] + workers[k].Handles()[j + 1..])) == true
      requires (forall m :: 0 <= m < |workers| && m != k ==>
                  unchanged(workers[m], workers[m].events, workers[m].handles)) == true
      ensures Valid() && DelOutcome(old(ev.flags), ev, signalDeleted, t0, old(calls), old(ev.tq), old(ev.wth),
                                    old(iocpN), old(winMsg), old(nevents), k, j, r) == true
    {
      WithoutAt(old(workers[k].Slots()), j);
      OthersKept(k);
    }

    /** The `win32thr_del` call itself: slot j of worker k, which holds
        `ev`, and its handle go, and no other worker changes. */
    method DelSlot(w: Worker, ev: Event, ghost k: int, ghost j: int) returns (r: int)
      requires Valid() && 0 <= k < |workers| && w == workers[k] && w.state == Dormant
      requires 0 <= j < |w.Slots()| && w.Slots()[j] == ev
      modifies this`nevents, w`n, w.events, w.handles
      ensures r == 0 && nevents == old(nevents) - 1 && w.Valid()
      ensures w.Slots() == old(w.Slots()[..j] + w.Slots()[j + 1..])
      ensures w.Handles() == old(w.Handles()[..j] + w.Handles()[j + 1..])
      ensures (forall m :: 0 <= m < |workers| && m != k ==>
                 unchanged(workers[m], workers[m].events, workers[m].handles)) == true
    {
      r := ThreadDel(w, ev);
    }

    /** `evq_add_dirwatch` (win32.c:101-133). `pathOk` says whether the path
        converts to a file name and `fd` is what FindFirstChangeNotification
        answers. The filter is chosen from the request bits, which are then
        cleared; a failed conversion returns -1 before any notification is
        asked for, a null or invalid handle returns -1 after, and otherwise
        the event gets the handle and is added like any other. */
    method AddDirwatch(ev: Event, pathOk: bool, fd: Handle, ans: AddAnswers) returns (r: int, ghost k: int)
      requires Valid() && Unslotted(ev)
      modifies this`nevents, this`iocpN, this`winMsg, this`workers, this`owner, this`calls, Repr(), ev`wth, ev`flags, ev`fd
      ensures Valid() && (r == 0 || r == -1)
      ensures !pathOk || fd == NULL_HANDLE || fd == INVALID_HANDLE_VALUE ==>
        && r == -1 && ev.flags == ClearResultField(old(ev.flags)) && ev.fd == old(ev.fd)
        && calls == old(calls) + (if pathOk then [ChangeNotification(DirwatchFilter(old(ev.flags)))] else [])
        && nevents == old(nevents) && workers == old(workers) && unchanged(old(Repr()))
        && iocpN == old(iocpN) && winMsg == old(winMsg) && ev.wth == old(ev.wth)
      ensures pathOk && fd != NULL_HANDLE && fd != INVALID_HANDLE_VALUE ==>
        && ev.fd == fd
        && AddOutcome(RouteOf(ClearResultField(old(ev.flags)), hasPort), ev, ans, ClearResultField(old(ev.flags)), old(workers), old(Table()),
                      old(calls) + [ChangeNotification(DirwatchFilter(old(ev.flags)))],
                      old(iocpN), old(winMsg), old(nevents), k, r) == true
        && (RouteOf(ClearResultField(old(ev.flags)), hasPort) != WorkerRoute ==> unchanged(old(Repr())))
    {
      k := 0;
      ghost var ws0, t0, flags0, calls0 := workers, Table(), ev.flags, calls;
      var usable := OpenDirwatch(ev, pathOk, fd);
      if !usable {
        return -1, k;
      }
      r, k := AddOpened(ev, ans, ws0, t0, flags0, calls0);
    }

    /** The tail of `evq_add_dirwatch` (win32.c:131-132): the opened watch is
        added; `ws0`, `t0`, `flags0` and `calls0` are the workers, their
        table, the event's flags and the call record before it was opened. */
    method AddOpened(ev: Event, ans: AddAnswers, ghost ws0: seq<Worker>, ghost t0: WorkerTable,
                     ghost flags0: Flags, ghost calls0: seq<Call>)
        returns (r: int, ghost k: int)
      requires Valid() && Unslotted(ev)
      requires workers == ws0 && Table() == t0 && ev.flags == ClearResultField(flags0)
      requires calls == calls0 + [ChangeNotification(DirwatchFilter(flags0))]
      modifies this`nevents, this`iocpN, this`winMsg, this`workers, this`owner, this`calls, Repr(), ev`wth, ev`flags
      ensures Valid() && ev.fd == old(ev.fd)
      ensures AddOutcome(RouteOf(ClearResultField(flags0), hasPort), ev, ans, ClearResultField(flags0), ws0, t0, calls0 + [ChangeNotification(DirwatchFilter(flags0))],
                         old(iocpN), old(winMsg), old(nevents), k, r) == true
      ensures RouteOf(ClearResultField(flags0), hasPort) != WorkerRoute ==> unchanged(old(Repr()))
    {
      OutsideRepr(ev);
      r, k := Add(ev, ans);
    }

    /** The part of `evq_add_dirwatch` before the event is added
        (win32.c:104-131): choose the filter, clear the request bits, ask for
        the notification handle and keep it when it is usable. No worker is
        touched. */
    method OpenDirwatch(ev: Event, pathOk: bool, fd: Handle) returns (usable: bool)
      requires Valid() && Unslotted(ev)
      modifies this`calls, ev`flags, ev`fd
      ensures Valid() && unchanged(Repr())
      ensures usable <==> pathOk && fd != NULL_HANDLE && fd != INVALID_HANDLE_VALUE
      ensures ev.flags == ClearResultField(old(ev.flags))
      ensures ev.fd == (if usable then fd else old(ev.fd))
      ensures calls == old(calls) + (if pathOk then [ChangeNotification(DirwatchFilter(old(ev.flags)))] else [])
    {
      OutsideRepr(ev);
      var filter := DirwatchFilter(ev.flags);
      usable := pathOk && fd != NULL_HANDLE && fd != INVALID_HANDLE_VALUE;
      ev.flags := ClearResultField(ev.flags);
      calls := calls + (if pathOk then [ChangeNotification(filter)] else []);
      ev.fd := if usable then fd else ev.fd;
    }

    /** `evq_modify` (win32.c:204-231), where `setOk` is what
        `win32iocp_set` answers and `selectOk` whether `WSAEventSelect`
        succeeds. A completion-port event with an operation in flight has the
        directions it drops cancelled, then is armed with the new interest;
        its worker's run state is left alone. Any other event is a
        worker-hosted socket: its worker is put to sleep unless the event is
        active, in which case the run state stays as it was, and the Winsock
        mask for the new
        interest is selected on the handle of its slot j; the call fails
        when that does. The event's own flags are left to the caller. */
    method Modify(ev: Event, flags: Flags, setOk: bool, selectOk: bool, ghost k: int) returns (r: int, ghost j: int)
      requires !Has(ev.flags, EVENT_AIO) ==>
        0 <= k < |workers| && ev.wth == workers[k] && workers[k].Valid() && ev in workers[k].Slots()
      modifies this`calls, {ev.wth}`state
      ensures Has(old(ev.flags), EVENT_AIO) ==>
        && calls == old(calls) + (if Has(old(ev.flags), EVENT_PENDING) then [IocpCancel(ev, Dropped(old(ev.flags), flags))] else [])
                                + [IocpSet(ev, flags)]
        && r == (if setOk then 0 else -1)
      ensures !Has(old(ev.flags), EVENT_AIO) ==>
        && 0 <= j < workers[k].n && workers[k].events[j] == ev
        && calls == old(calls) + [EventSelect(ev.fd, workers[k].handles[j], WfdMask(flags))]
        && r == (if selectOk then 0 else -1)
        && (!Has(old(ev.flags), EVENT_ACTIVE) ==> workers[k].state == Dormant)
      ensures ev.wth != null && (Has(old(ev.flags), EVENT_AIO) || Has(old(ev.flags), EVENT_ACTIVE)) ==>
        ev.wth.state == old(ev.wth.state)
    {
      var evFlags := ev.flags;
      j := 0;
      if Has(evFlags, EVENT_AIO) {
        if Has(evFlags, EVENT_PENDING) {
          IocpCancelCall(ev, Dropped(evFlags, flags));
        }
        r := IocpSetCall(ev, flags, setOk);
        return;
      }
      var w := ev.wth;
      if !Has(evFlags, EVENT_ACTIVE) {
        ThreadSleep(w);
      }
      var event := WfdMask(flags);
      j := w.Find(ev);
      calls := calls + [EventSelect(ev.fd, w.handles[j], event)];
      r := if selectOk then 0 else -1;
    }

    // ---- One wait cycle ----

    /** The ready list once the wait returns (win32.c:257-263, 280): the
        events taken from the completion port before waiting, if there were
        any, or else the list as it was. */
    function ReadyAfterWait(ans: WaitAnswers): seq<Event>
      reads this`iocpN, this`evReady
    {
      if PortReady(winNT, iocpN, ans.portEvents) then ans.portEvents else evReady
    }

    /** The blocking part of `evq_wait` (win32.c:257-278), given the timeout
        `t` left after the head's deadlines cut it: on Windows NT the
        completion port is asked first, and events from it or waiting
        signals make the wait a poll; the wait observes the head's n slot
        handles and its wakeup handle, and host messages when a message
        event is registered; the cycle's time is read afterwards, and the
        waiting signals are those other threads have left by then
        (`ans.sigAfter`). */
    method WaitForObjects(t: Msec, ans: WaitAnswers, n: int) returns (ready: seq<Event>, ghost rec: Call)
      modifies this`evReady, this`calls, this`now, this`sigReady
      ensures evReady == ready == old(ReadyAfterWait(ans))
      ensures rec == MsgWait(n + 1, if winNT && (PortReady(winNT, iocpN, ans.portEvents) || old(sigReady) != 0)
                                    then 0 else t, winMsg != null)
      ensures calls == old(calls) + [rec]
      ensures now == ans.after && sigReady == ans.sigAfter
      ensures unchanged(Repr())
    {
      OutsideRepr(null);
      var timeout := t;
      if winNT {
        var fromPort: seq<Event> := [];
        if iocpN != 0 {
          fromPort := ans.portEvents;
        }
        if fromPort != [] {
          evReady := fromPort;
          timeout := 0;
        } else if sigReady != 0 {
          timeout := 0;
        }
      }
      rec := MsgWait(n + 1, timeout, winMsg != null);
      calls := calls + [rec];
      now := ans.after;
      sigReady := ans.sigAfter;
      ready := evReady;
    }

    /** `evq_wait` (win32.c:234-418), one cycle of the queue with the
        caller's `timeout` (0 polls). With workers besides the head, a poll of
        theirs that leaves the queue empty ends the cycle at once. A non-zero
        timeout is cut to the head's nearest deadline; when that deadline is
        already due, the head's expired events become the ready list without
        waiting. Otherwise the wait is made (`AfterWait`), with the timeout
        `WaitTimeout` gives for the signals waiting before it, and recorded
        as `rec`. The exit taken is the one `PathOf` names, and the code
        returned is the one `CodeOf` gives for it, both for the signals
        waiting once the wait returns, `empty` being whether a collecting
        exit found nothing ready. Every exit keeps the queue valid, so that
        the next cycle, registration or removal may follow; only a
        collecting exit touches the workers and the count, and it leaves
        them as `Scanned` describes against the tables `T0`, `HT0`, `VT0`,
        `I0` and `ST0` of the workers on entry. */
    method Wait(timeout: Msec, ans: WaitAnswers)
      returns (code: WaitCode, ghost path: WaitPath, ghost empty: bool, ghost rec: Call)
      requires Valid() && AnswersFit(ans, |workers|) && SlotsDisjoint(SlotTable())
      modifies this`now, this`evReady, this`sigReady, this`calls, this`nevents, Repr(), {winMsg}`flags,
               TableEvents(SlotTable())`flags, TableEvents(SlotTable())`tq
      ensures path == old(PathOf(|workers| > 1, timeout, ans, ReadyAfterWait(ans) != [], workers[0].n, 0 in ans.timers, ans.sigAfter != 0))
      ensures code == CodeOf(path, empty, ans.waitRes, ans.sigAfter != 0)
      ensures (Valid() && workers == old(workers)) == true
      ensures path != Collected ==> unchanged(old(Repr())) && nevents == old(nevents)
      ensures path == Polled || path == ExpiredFirst ==> calls == old(calls) && sigReady == old(sigReady)
      ensures path == Polled ==> evReady == old(evReady)
      ensures path == ExpiredFirst ==> evReady == ans.headExpired
      ensures path != Polled && path != ExpiredFirst ==>
        rec == MsgWait(old(workers[0].n) + 1,
                       WaitTimeout(timeout, ans.shrunk, old(PortReady(winNT, iocpN, ans.portEvents)), old(sigReady) != 0, winNT),
                       old(winMsg) != null)
      ensures path != Polled && path != ExpiredFirst ==> Exited(ans, path, old(ReadyAfterWait(ans)), old(nevents), old(workers)) == true
      ensures path == Message ==>
        var msg := old(winMsg);
        if msg != null && !Has(old(msg.flags), EVENT_ACTIVE) then
          msg.flags == Activate(old(msg.flags), 0) && evReady == [msg] + old(ReadyAfterWait(ans))
        else evReady == old(ReadyAfterWait(ans))
    {
      empty, rec := false, MsgWait(0, 0, false);
      if |workers| > 1 && ans.polledEmpty {
        path, code := Polled, Ok;
      } else if timeout != 0 && ans.shrunk == 0 {
        evReady := ans.headExpired;
        path, code := ExpiredFirst, Ok;
      } else {
        code, path, empty, rec := Woken(if timeout != 0 then ans.shrunk else 0, ans);
        assert path != Polled && path != ExpiredFirst;
      }
    }

    /** The cycle of `evq_wait` once no early exit was taken: `t` is the
        timeout cut to the head's deadlines; the workers are as they were
        left, and `T0`, `HT0`, `VT0`, `I0` and `ST0` record them. */
    method Woken(t: Msec, ans: WaitAnswers)
      returns (code: WaitCode, ghost path: WaitPath, ghost empty: bool, ghost rec: Call)
      requires Valid() && AnswersFit(ans, |workers|) && SlotsDisjoint(SlotTable())
      modifies this`now, this`evReady, this`sigReady, this`calls, this`nevents, Repr(), {winMsg}`flags,
               TableEvents(SlotTable())`flags, TableEvents(SlotTable())`tq
      ensures path == WokenPath(ans, old(ReadyAfterWait(ans)) != [], old(workers[0].n), 0 in ans.timers, ans.sigAfter != 0)
      ensures code == CodeOf(path, empty, ans.waitRes, ans.sigAfter != 0)
      ensures rec == MsgWait(old(workers[0].n) + 1, if winNT && (PortReady(winNT, old(iocpN), ans.portEvents) || old(sigReady) != 0)
                                                    then 0 else t, old(winMsg) != null)
      ensures Exited(ans, path, old(ReadyAfterWait(ans)), old(nevents), old(workers)) == true
      ensures path != Collected ==> unchanged(old(Repr()))
      ensures path == Message ==>
        var msg := old(winMsg);
        if msg != null && !Has(old(msg.flags), EVENT_ACTIVE) then
          msg.flags == Activate(old(msg.flags), 0) && evReady == [msg] + old(ReadyAfterWait(ans))
        else evReady == old(ReadyAfterWait(ans))
    {
      var n := workers[0].n;
      ghost var T0, HT0, VT0, I0, ST0 := UnscannedAtStart(ans);
      code, path, empty, rec := AfterWait(t, ans, n, T0, HT0, VT0, I0, ST0);
    }

    /** On entry to a cycle the workers are as `Unscanned` describes, with
        their own tables. */
    lemma UnscannedAtStart(ans: WaitAnswers)
      returns (T0: seq<seq<Event>>, HT0: seq<seq<Handle>>, VT0: seq<seq<SlotView>>, I0: seq<int>, ST0: seq<RunState>)
      requires (Valid() && AnswersFit(ans, |workers|) && SlotsDisjoint(SlotTable())) == true
      ensures T0 == SlotTable() && HT0 == HandleTable() && VT0 == ViewsOf(T0, HT0) && I0 == IdxOf(workers) && ST0 == StatesOf(workers)
      ensures Unscanned(ans, workers[0].n, T0, HT0, VT0, I0, ST0) == true
    {
      T0, HT0 := SlotTable(), HandleTable();
      VT0, I0, ST0 := ViewsOf(T0, HT0), IdxOf(workers), StatesOf(workers);
    }

    /** What a cycle leaves once the wait has returned on exit `path`, given
        the state before the cycle: `ready0` the ready list the wait left
        (`ReadyAfterWait`), `n0` the event count and `ws0` the workers. Every
        exit leaves the queue valid, with the same workers. An exit that does
        not collect keeps the count and leaves the signals other threads
        raised during the wait; a timeout with events ready and a failed wait
        keep the ready list the wait left, and a timeout with nothing due
        finds it empty. */
    ghost predicate Exited(ans: WaitAnswers, path: WaitPath, ready0: seq<Event>, n0: int, ws0: seq<Worker>)
      reads this`workers, this`owner, this`nevents, this`evReady, this`sigReady, Repr()
    {
      && Valid() && workers == ws0
      && (path != Collected ==> nevents == n0 && sigReady == ans.sigAfter)
      && (path == ReadyOnTimeout || path == WaitFailed ==> evReady == ready0)
      && (path == NothingDue ==> evReady == ready0 == [])
    }

    /** The cycle from the wait on (win32.c:273-418), entered with the
        workers as `Unscanned` describes and `t` the timeout left after the
        head's deadlines: the wait is made and recorded, then the exit
        `WokenPath` names is taken. A timeout with events already ready
        stores them; a timeout with nothing that can have fired returns
        EVQ_TIMEOUT; a host message wakes the message event; a failed wait
        returns EVQ_FAILED; anything else is collected. Every exit keeps the
        queue valid, and only a collecting exit touches the workers and the
        count. */
    method AfterWait(t: Msec, ans: WaitAnswers, n: int,
                     ghost T0: seq<seq<Event>>, ghost HT0: seq<seq<Handle>>, ghost VT0: seq<seq<SlotView>>,
                     ghost I0: seq<int>, ghost ST0: seq<RunState>)
      returns (code: WaitCode, ghost path: WaitPath, ghost empty: bool, ghost rec: Call)
      requires Unscanned(ans, n, T0, HT0, VT0, I0, ST0) == true
      modifies this`now, this`evReady, this`sigReady, this`calls, this`nevents, Repr(), {winMsg}`flags,
               TableEvents(T0)`flags, TableEvents(T0)`tq
      ensures path == WokenPath(ans, old(ReadyAfterWait(ans)) != [], n, 0 in ans.timers, ans.sigAfter != 0)
      ensures code == CodeOf(path, empty, ans.waitRes, ans.sigAfter != 0)
      ensures rec == MsgWait(n + 1, if winNT && (PortReady(winNT, old(iocpN), ans.portEvents) || old(sigReady) != 0)
                                    then 0 else t, old(winMsg) != null)
      ensures Exited(ans, path, old(ReadyAfterWait(ans)), old(nevents), old(workers)) == true
      ensures path != Collected ==> unchanged(old(Repr()))
      ensures path == Message ==>
        var msg := old(winMsg);
        if msg != null && !Has(old(msg.flags), EVENT_ACTIVE) then
          msg.flags == Activate(old(msg.flags), 0) && evReady == [msg] + old(ReadyAfterWait(ans))
        else evReady == old(ReadyAfterWait(ans))
      ensures path == Collected ==>
        && Scanned(ans, n, ans.after, old(nevents), old(workers), T0, HT0, VT0, I0, ST0) == true
        && var sig := ans.sigAfter != 0;
           var ready := MessageFront(old(winMsg), ans) + (CycleYield(ans, n, |old(workers)|, T0, VT0, I0)
                          + Drained(ans, sig, old(iocpN), old(ReadyAfterWait(ans))));
           && sigReady == 0 && evReady == (if ready == [] then old(ReadyAfterWait(ans)) else ready)
           && empty == (ready == [])
    {
      ghost var front, port := MessageFront(winMsg, ans), iocpN;
      var ready, done;
      ready, done, code, path, rec := WakeUp(t, ans, n, T0, HT0, VT0, I0, ST0);
      empty := false;
      if !done {
        empty := front + (CycleYield(ans, n, |workers|, T0, VT0, I0) + Drained(ans, ans.sigAfter != 0, port, ready)) == [];
        code := Collect(ans, n, ready, T0, HT0, VT0, I0, ST0);
        CollectedExit(ans, n, ans.after, old(nevents), old(workers), T0, HT0, VT0, I0, ST0, ready);
      }
    }

    /** A collecting exit, which leaves the workers as `Scanned` describes,
        is one `Exited` allows. */
    lemma CollectedExit(ans: WaitAnswers, n: int, now0: int, n0: int, ws0: seq<Worker>,
                        T0: seq<seq<Event>>, HT0: seq<seq<Handle>>, VT0: seq<seq<SlotView>>,
                        I0: seq<int>, ST0: seq<RunState>, ready0: seq<Event>)
      requires Scanned(ans, n, now0, n0, ws0, T0, HT0, VT0, I0, ST0) == true
      ensures Exited(ans, Collected, ready0, n0, ws0) == true
    {
    }

    /** The wait and the tests made once it returns (win32.c:273-297), with
        the workers as `Unscanned` describes: the exits that end the cycle
        there (`done`) touch neither the workers nor the count; otherwise the
        ready list is the one the wait left and the workers are still as
        `Unscanned` describes. */
    method WakeUp(t: Msec, ans: WaitAnswers, n: int,
                  ghost T0: seq<seq<Event>>, ghost HT0: seq<seq<Handle>>, ghost VT0: seq<seq<SlotView>>,
                  ghost I0: seq<int>, ghost ST0: seq<RunState>)
      returns (ready: seq<Event>, done: bool, code: WaitCode, ghost path: WaitPath, ghost rec: Call)
      requires Unscanned(ans, n, T0, HT0, VT0, I0, ST0) == true
      modifies this`now, this`evReady, this`sigReady, this`calls, {winMsg}`flags
      ensures path == WokenPath(ans, old(ReadyAfterWait(ans)) != [], n, 0 in ans.timers, ans.sigAfter != 0)
      ensures done <==> path != Collected
      ensures done ==> code == CodeOf(path, false, ans.waitRes, ans.sigAfter != 0)
      ensures rec == MsgWait(n + 1, if winNT && (PortReady(winNT, old(iocpN), ans.portEvents) || old(sigReady) != 0)
                                    then 0 else t, old(winMsg) != null)
      ensures now == ans.after && sigReady == ans.sigAfter && unchanged(Repr())
      ensures Valid() && (!done ==> Unscanned(ans, n, T0, HT0, VT0, I0, ST0) == true)
      ensures done ==> Exited(ans, path, old(ReadyAfterWait(ans)), old(nevents), old(workers)) == true
      ensures path != Message ==> evReady == ready == old(ReadyAfterWait(ans))
      ensures path == Message ==>
        var msg := winMsg;
        if msg != null && !Has(old(msg.flags), EVENT_ACTIVE) then
          msg.flags == Activate(old(msg.flags), 0) && evReady == [msg] + old(ReadyAfterWait(ans))
        else evReady == old(ReadyAfterWait(ans))
      ensures evReady == ready
    {
      ready, rec := WaitForObjects(t, ans, n);
      UnscannedKept(ans, n, T0, HT0, VT0, I0, ST0);
      done := true;
      if ans.waitRes == WAIT_TIMEOUT && ready != [] {
        path, code := ReadyOnTimeout, Ok;
      } else if ans.waitRes == WAIT_TIMEOUT && 0 !in ans.timers && sigReady == 0 {
        path, code := NothingDue, Timeout;
      } else if ans.waitRes == WAIT_OBJECT_0 + n + 1 {
        path, code := Message, Ok;
        ready := MessageWake(ready);
      } else if ans.waitRes == WAIT_FAILED {
        path, code := WaitFailed, Failed;
      } else {
        done, path, code := false, Collected, Ok;
      }
    }

    /** The wake by a host message (win32.c:287-295): an inactive message
        event is marked active and put at the front of the ready list. */
    method MessageWake(ready0: seq<Event>) returns (ready: seq<Event>)
      modifies this`evReady, {winMsg}`flags
      ensures winMsg != null && !Has(old(winMsg.flags), EVENT_ACTIVE) ==>
        winMsg.flags == Activate(old(winMsg.flags), 0) && ready == [winMsg] + ready0
      ensures !(winMsg != null && !Has(old(winMsg.flags), EVENT_ACTIVE)) ==> ready == ready0
      ensures evReady == ready && unchanged(Repr())
    {
      OutsideRepr(winMsg);
      ready := ready0;
      var ev := winMsg;
      if ev != null && !Has(ev.flags, EVENT_ACTIVE) {
        ev.flags := Activate(ev.flags, 0);
        ready := [ev] + ready;
      }
      evReady := ready;
    }

    /** The scan of a collecting cycle (win32.c:303, 336-401): the head
        records the wait result `wait_res`, and the workers of `ScanOrder` are
        scanned, their contributions gathered ahead of an empty list. `n` is
        the head's used slots when the wait began; `T0`, `HT0`, `VT0`, `I0`
        and `ST0` are the workers' state on entry. */
    method ScanAll(ans: WaitAnswers, n: int,
                   ghost T0: seq<seq<Event>>, ghost HT0: seq<seq<Handle>>, ghost VT0: seq<seq<SlotView>>,
                   ghost I0: seq<int>, ghost ST0: seq<RunState>)
      returns (gathered: seq<Event>)
      requires Unscanned(ans, n, T0, HT0, VT0, I0, ST0) == true
      modifies this`nevents, Repr(), TableEvents(T0)`flags, TableEvents(T0)`tq
      ensures Scanned(ans, n, old(now), old(nevents), old(workers), T0, HT0, VT0, I0, ST0) == true
      ensures gathered == CycleYield(ans, n, |old(workers)|, T0, VT0, I0)
      ensures sigReady == old(sigReady) && evReady == old(evReady)
    {
      var order := StartScan(ans, n, T0, HT0, VT0, I0, ST0);
      OutsideRepr(null);
      gathered := ScanWorkers(order, ans, now, [], T0, HT0, VT0, I0[0 := ans.waitRes], ST0);
      GatheredWhole(Yields(order, T0, VT0, I0[0 := ans.waitRes], ans));
    }

    /** The start of the scan: the head records the wait result, and the
        workers to scan are chosen, none of them scanned yet. */
    method StartScan(ans: WaitAnswers, n: int,
                     ghost T0: seq<seq<Event>>, ghost HT0: seq<seq<Handle>>, ghost VT0: seq<seq<SlotView>>,
                     ghost I0: seq<int>, ghost ST0: seq<RunState>)
      returns (order: seq<int>)
      requires Unscanned(ans, n, T0, HT0, VT0, I0, ST0) == true
      modifies {workers[0]}`idx
      ensures order == ScanOrder(|workers| > 1, ans.waitRes, n, ans.readyThreads, |workers|)
      ensures Valid() && SlotsDisjoint(T0) && ScanProgress(order, 0, ans, now, T0, HT0, VT0, I0[0 := ans.waitRes], ST0)
    {
      SetHeadIdx(ans.waitRes, T0, HT0, VT0, I0, ST0);
      order := ScanOrder(|workers| > 1, ans.waitRes, n, ans.readyThreads, |workers|);
      ScanOrderSound(|workers| > 1, ans.waitRes, n, ans.readyThreads, |workers|);
    }

    /** The collecting part of `evq_wait` (win32.c:299-418), entered with
        the ready list `ready0` the wait left. The completion port's new
        events, the interrupted signals, each scanned worker's contribution
        and the message event come in front of it, in that order; the waiting
        signals are drained. The ready list is stored unless it is empty, in
        which case the cycle reports a timeout exactly when the wait timed out
        with no signal waiting. */
    method Collect(ans: WaitAnswers, n: int, ready0: seq<Event>,
                   ghost T0: seq<seq<Event>>, ghost HT0: seq<seq<Handle>>, ghost VT0: seq<seq<SlotView>>,
                   ghost I0: seq<int>, ghost ST0: seq<RunState>)
      returns (code: WaitCode)
      requires Unscanned(ans, n, T0, HT0, VT0, I0, ST0) == true
      modifies this`evReady, this`sigReady, this`nevents, Repr(), TableEvents(T0)`flags, TableEvents(T0)`tq
      ensures Scanned(ans, n, old(now), old(nevents), old(workers), T0, HT0, VT0, I0, ST0) == true
      ensures var sig := old(sigReady) != 0;
        var ready := MessageFront(old(winMsg), ans) + (CycleYield(ans, n, |old(workers)|, T0, VT0, I0) + Drained(ans, sig, old(iocpN), ready0));
        && sigReady == 0 && evReady == (if ready == [] then old(evReady) else ready)
        && code == CodeOf(Collected, ready == [], ans.waitRes, sig)
    {
      var ready, sig := DrainSignals(ans, ready0);
      code := ScanAndDeliver(ans, n, ready, sig, T0, HT0, VT0, I0, ST0);
    }

    /** The scan and the delivery of a collecting cycle, entered with the
        ready list `ready0` and the drained signals `sig`. */
    method ScanAndDeliver(ans: WaitAnswers, n: int, ready0: seq<Event>, sig: int,
                          ghost T0: seq<seq<Event>>, ghost HT0: seq<seq<Handle>>, ghost VT0: seq<seq<SlotView>>,
                          ghost I0: seq<int>, ghost ST0: seq<RunState>)
      returns (code: WaitCode)
      requires Unscanned(ans, n, T0, HT0, VT0, I0, ST0) == true
      modifies this`evReady, this`nevents, Repr(), TableEvents(T0)`flags, TableEvents(T0)`tq
      ensures Scanned(ans, n, old(now), old(nevents), old(workers), T0, HT0, VT0, I0, ST0) == true
      ensures var ready := MessageFront(old(winMsg), ans) + (CycleYield(ans, n, |old(workers)|, T0, VT0, I0) + ready0);
        && sigReady == old(sigReady)
        && evReady == (if ready == [] then old(evReady) else ready)
        && code == CodeOf(Collected, ready == [], ans.waitRes, sig != 0)
    {
      OutsideRepr(null);
      ghost var now0, n0, ws0 := now, nevents, workers;
      var msg := winMsg;
      var gathered := ScanAll(ans, n, T0, HT0, VT0, I0, ST0);
      code := Deliver(ans, msg, gathered + ready0, sig, n, now0, n0, ws0, T0, HT0, VT0, I0, ST0);
    }

    /** The ready list `ready0` once the completion port's new events (when
        it holds any) and the interrupted signals' events (when signals were
        waiting) are put in front of it, in that order. */
    static function Drained(ans: WaitAnswers, sig: bool, iocpN: int, ready0: seq<Event>): seq<Event>
    {
      (if sig then ans.interrupts else []) + (if iocpN != 0 then ans.portEventsAfter else []) + ready0
    }

    /** The queue-side steps between the wait and the scan (win32.c:299-334):
        the completion port's new events are put in front of `ready0`, the
        waiting signals are drained (with workers besides the head they are
        always taken, without only when there are some), and the interrupted
        signals' events go in front. */
    method DrainSignals(ans: WaitAnswers, ready0: seq<Event>) returns (ready: seq<Event>, sig: int)
      modifies this`sigReady
      ensures sig == old(sigReady) && sigReady == 0
      ensures ready == Drained(ans, sig != 0, iocpN, ready0)
    {
      ready := ready0;
      if iocpN != 0 {
        ready := ans.portEventsAfter + ready;
      }
      sig := 0;
      if |workers| > 1 {
        sig := sigReady;
        sigReady := 0;
      } else if sigReady != 0 {
        sig := sigReady;
        sigReady := 0;
      }
      if sig != 0 {
        ready := ans.interrupts + ready;
      }
    }

    /** `wth->idx = wait_res` for the head (win32.c:303). */
    method SetHeadIdx(waitRes: int, ghost T0: seq<seq<Event>>, ghost HT0: seq<seq<Handle>>,
                      ghost VT0: seq<seq<SlotView>>, ghost I0: seq<int>, ghost ST0: seq<RunState>)
      requires Valid() && 0 <= waitRes && |T0| == |HT0| == |VT0| == |I0| == |ST0| == |workers|
      requires forall q :: 0 <= q < |workers| ==> Untouched(workers[q], T0[q], HT0[q], VT0[q], I0[q], ST0[q])
      modifies {workers[0]}`idx
      ensures Valid()
      ensures forall q :: 0 <= q < |workers| ==> Untouched(workers[q], T0[q], HT0[q], VT0[q], I0[0 := waitRes][q], ST0[q])
    {
      workers[0].idx := waitRes;
    }

    /** The message event `msg`, when one is registered and host messages
        are queued (win32.c:403-411). */
    static function MessageFront(msg: Event?, ans: WaitAnswers): seq<Event>
    {
      if msg != null && ans.msgQueued then [msg] else []
    }

    /** The end of a collecting cycle (win32.c:403-418): the message event
        goes in front when host messages are queued; an empty ready list is
        left alone and reported as a timeout exactly when the wait timed out
        with no signal waiting; otherwise it is stored. */
    method Deliver(ans: WaitAnswers, msg: Event?, ready0: seq<Event>, sig: int, ghost n: int, ghost now0: int,
                   ghost n0: int, ghost ws0: seq<Worker>,
                   ghost T0: seq<seq<Event>>, ghost HT0: seq<seq<Handle>>, ghost VT0: seq<seq<SlotView>>,
                   ghost I0: seq<int>, ghost ST0: seq<RunState>)
      returns (code: WaitCode)
      requires Scanned(ans, n, now0, n0, ws0, T0, HT0, VT0, I0, ST0) == true
      modifies this`evReady
      ensures Scanned(ans, n, now0, n0, ws0, T0, HT0, VT0, I0, ST0) == true
      ensures var ready := MessageFront(msg, ans) + ready0;
        && evReady == (if ready == [] then old(evReady) else ready)
        && code == CodeOf(Collected, ready == [], ans.waitRes, sig != 0)
    {
      var ready := ready0;
      if msg != null && ans.msgQueued {
        ready := [msg as Event] + ready;
      }
      code := Ok;
      if ready == [] {
        if ans.waitRes == WAIT_TIMEOUT && sig == 0 {
          code := Timeout;
        }
      } else {
        evReady := ready;
      }
      ScannedKept(ans, n, now0, n0, ws0, T0, HT0, VT0, I0, ST0);
    }

    /** `Scanned` is kept by a step that changes nothing it reads. */
    twostate lemma ScannedKept(new ans: WaitAnswers, new n: int, new now0: int, new n0: int, new ws0: seq<Worker>,
                               new T0: seq<seq<Event>>, new HT0: seq<seq<Handle>>, new VT0: seq<seq<SlotView>>,
                               new I0: seq<int>, new ST0: seq<RunState>)
      requires old(allocated(ans)) && old(allocated(ws0)) && old(allocated(T0))
      requires old(Scanned(ans, n, now0, n0, ws0, T0, HT0, VT0, I0, ST0)) == true
      requires workers == old(workers) && owner == old(owner) && nevents == old(nevents)
      requires unchanged(old(Repr())) && unchanged(TableEvents(T0))
      ensures Scanned(ans, n, now0, n0, ws0, T0, HT0, VT0, I0, ST0) == true
    {
    }

    /** `Unscanned` is kept by a step that changes nothing it reads. */
    twostate lemma UnscannedKept(new ans: WaitAnswers, new n: int,
                                 new T0: seq<seq<Event>>, new HT0: seq<seq<Handle>>, new VT0: seq<seq<SlotView>>,
                                 new I0: seq<int>, new ST0: seq<RunState>)
      requires old(allocated(ans)) && old(allocated(T0))
      requires old(Unscanned(ans, n, T0, HT0, VT0, I0, ST0)) == true
      requires workers == old(workers) && owner == old(owner)
      requires unchanged(old(Repr())) && unchanged(TableEvents(T0))
      ensures Unscanned(ans, n, T0, HT0, VT0, I0, ST0) == true
    {
    }

    // ---- The worker loop of evq_wait ----

    /** The handles of each worker's used slots, head first. */
    ghost function HandleTable(): (t: seq<seq<Handle>>)
      reads this`workers, this`owner, Repr()
      requires Valid()
      ensures |t| == |workers| && forall m :: 0 <= m < |workers| ==> t[m] == workers[m].Handles()
    {
      HandlesOf(workers)
    }

    /** The workers as a collecting cycle finds them: each as the tables
        `T0` (slots), `HT0` (their handles), `VT0` (their views), `I0` (wait
        results) and `ST0` (run states) record it, no event in the slots of
        two workers, `n` the head's used slots, and answers that fit. */
    ghost predicate Unscanned(ans: WaitAnswers, n: int, T0: seq<seq<Event>>, HT0: seq<seq<Handle>>,
                              VT0: seq<seq<SlotView>>, I0: seq<int>, ST0: seq<RunState>)
      reads this`workers, this`owner, Repr(), TableEvents(T0)
    {
      && Valid() && AnswersFit(ans, |workers|) && SlotsDisjoint(T0) && n == workers[0].n
      && |T0| == |HT0| == |VT0| == |I0| == |ST0| == |workers|
      && (forall q :: 0 <= q < |workers| ==> |VT0[q]| == |T0[q]|)
      && (forall q :: 0 <= q < |workers| ==> Untouched(workers[q], T0[q], HT0[q], VT0[q], I0[q], ST0[q]))
    }

    /** The workers after the scan of a collecting cycle that found them as
        `Unscanned` describes, with `ws0` the workers, `n0` the event count
        and `now` the time: the head records the wait result, the workers of
        `ScanOrder` are scanned and all others untouched, and the count
        loses the slots the scan removed. */
    ghost predicate Scanned(ans: WaitAnswers, n: int, now: int, n0: int, ws0: seq<Worker>,
                            T0: seq<seq<Event>>, HT0: seq<seq<Handle>>, VT0: seq<seq<SlotView>>,
                            I0: seq<int>, ST0: seq<RunState>)
      reads this`workers, this`owner, this`nevents, Repr(), TableEvents(T0)
    {
      && Valid() && workers == ws0 && AnswersFit(ans, |ws0|)
      && |T0| == |VT0| == |I0| == |ws0|
      && var order := ScanOrder(|ws0| > 1, ans.waitRes, n, ans.readyThreads, |ws0|);
         var I1 := I0[0 := ans.waitRes];
         && ScanProgress(order, |order|, ans, now, T0, HT0, VT0, I1, ST0)
         && nevents == n0 - RemovedSum(order, VT0, I1, ans, |order|)
    }

    /** Part-way through the worker loop of `evq_wait`: the first p workers
        of `order` have been scanned, and every other worker is as it was.
        `T0`, `HT0`, `VT0`, `I0` and `ST0` are each worker's slots, handles,
        slot views, wait result and run state before the loop. */
    ghost predicate ScanProgress(order: seq<int>, p: int, ans: WaitAnswers, now: int,
                                 T0: seq<seq<Event>>, HT0: seq<seq<Handle>>, VT0: seq<seq<SlotView>>,
                                 I0: seq<int>, ST0: seq<RunState>)
      reads this`workers, this`owner, Repr(), TableEvents(T0)
    {
      && |workers| == |T0| == |HT0| == |VT0| == |I0| == |ST0|
      && 0 <= p <= |order| && Distinct(order) && (forall i :: 0 <= i < |order| ==> 0 <= order[i] < |workers|)
      && (forall i :: 0 <= i < p ==>
            AfterScan(workers[order[i]], T0[order[i]], HT0[order[i]], VT0[order[i]], I0[order[i]],
                      TimedOut(order[i], ans.timers, I0[order[i]]), ans.probe, now))
      && (forall q :: 0 <= q < |workers| && q !in order[..p] ==>
            Untouched(workers[q], T0[q], HT0[q], VT0[q], I0[q], ST0[q]))
    }

    /** The state of the worker loop after p workers: the scan progress,
        the ready list with the contributions of those workers ahead of
        `ready0`, and `n0` less the slots they removed as the event count. */
    ghost predicate ScanLoop(order: seq<int>, p: int, ans: WaitAnswers, now: int, ready0: seq<Event>,
                             ready: seq<Event>, n0: int, ws0: seq<Worker>,
                             T0: seq<seq<Event>>, HT0: seq<seq<Handle>>, VT0: seq<seq<SlotView>>,
                             I0: seq<int>, ST0: seq<RunState>)
      reads this`workers, this`owner, this`nevents, Repr(), TableEvents(T0)
    {
      && Valid() && workers == ws0 && SlotsDisjoint(T0)
      && ScanProgress(order, p, ans, now, T0, HT0, VT0, I0, ST0)
      && (forall q :: 0 <= q < |T0| ==> |VT0[q]| == |T0[q]|)
      && ready == Gathered(Yields(order, T0, VT0, I0, ans)[..p]) + ready0
      && nevents == n0 - RemovedSum(order, VT0, I0, ans, p)
    }

    /** The worker loop of `evq_wait` (win32.c:336-401) over the workers in
        `order`: each is put to sleep and contributes its `Yield` to the ready
        list, the later ones ahead of the earlier; the slots removed leave
        the event count; the workers not in `order` are untouched. */
    method ScanWorkers(order: seq<int>, ans: WaitAnswers, now: int, ready0: seq<Event>,
                       ghost T0: seq<seq<Event>>, ghost HT0: seq<seq<Handle>>, ghost VT0: seq<seq<SlotView>>,
                       ghost I0: seq<int>, ghost ST0: seq<RunState>)
      returns (ready: seq<Event>)
      requires Valid() && SlotsDisjoint(T0) && ScanProgress(order, 0, ans, now, T0, HT0, VT0, I0, ST0)
      modifies Repr(), this`nevents, TableEvents(T0)`flags, TableEvents(T0)`tq
      ensures ScanLoop(order, |order|, ans, now, ready0, ready, old(nevents), old(workers), T0, HT0, VT0, I0, ST0) == true
    {
      ready := ready0;
      for p := 0 to |order|
        invariant workers == old(workers)
        invariant ScanLoop(order, p, ans, now, ready0, ready, old(nevents), old(workers), T0, HT0, VT0, I0, ST0) == true
      {
        ready := ScanStep(order, p, ans, now, ready0, ready, old(nevents), old(workers), T0, HT0, VT0, I0, ST0);
      }
    }

    /** One pass of the worker loop: scan worker `order[p]`, whose
        contribution goes ahead of those of the workers before it. */
    method ScanStep(order: seq<int>, p: int, ans: WaitAnswers, now: int, ghost ready0: seq<Event>, ready1: seq<Event>,
                    ghost n0: int, ghost ws0: seq<Worker>,
                    ghost T0: seq<seq<Event>>, ghost HT0: seq<seq<Handle>>, ghost VT0: seq<seq<SlotView>>,
                    ghost I0: seq<int>, ghost ST0: seq<RunState>)
      returns (ready: seq<Event>)
      requires ScanLoop(order, p, ans, now, ready0, ready1, n0, ws0, T0, HT0, VT0, I0, ST0) == true && p < |order|
      modifies Repr(), this`nevents, TableEvents(T0)`flags, TableEvents(T0)`tq
      ensures ScanLoop(order, p + 1, ans, now, ready0, ready, n0, ws0, T0, HT0, VT0, I0, ST0) == true
    {
      ready := ScanPass(order, p, ans, now, ready1, T0, HT0, VT0, I0, ST0);
      GatheredNext(Yields(order, T0, VT0, I0, ans), p, ready0, ready1);
    }

    /** Scanning worker `order[p]` moves the scan on by one worker. */
    method ScanPass(order: seq<int>, p: int, ans: WaitAnswers, now: int, ready1: seq<Event>,
                    ghost T0: seq<seq<Event>>, ghost HT0: seq<seq<Handle>>, ghost VT0: seq<seq<SlotView>>,
                    ghost I0: seq<int>, ghost ST0: seq<RunState>)
      returns (ready: seq<Event>)
      requires Valid() && SlotsDisjoint(T0) && ScanProgress(order, p, ans, now, T0, HT0, VT0, I0, ST0) && p < |order|
      modifies Repr(), this`nevents, TableEvents(T0)`flags, TableEvents(T0)`tq
      ensures workers == old(workers)
      ensures Valid() && ScanProgress(order, p + 1, ans, now, T0, HT0, VT0, I0, ST0)
      ensures ready == Yields(order, T0, VT0, I0, ans)[p] + ready1
      ensures nevents == old(nevents)
        - Removed(VT0[order[p]], I0[order[p]], TimedOut(order[p], ans.timers, I0[order[p]]), ans.probe)
    {
      var m := order[p];
      assert m !in order[..p];
      ready := ScanOne(m, ans, now, ready1, T0, HT0, VT0, I0, ST0);
      assert order[..p + 1] == order[..p] + [m];
      ScanKeepsOthers(order, p, ans, now, T0, HT0, VT0, I0, ST0);
    }

    /** Scanning worker `order[p]` leaves every other worker and its slots
        as they were, so the scan moves on by one worker. */
    twostate lemma ScanKeepsOthers(new order: seq<int>, new p: int, new ans: WaitAnswers, new now: int,
                                   new T0: seq<seq<Event>>, new HT0: seq<seq<Handle>>, new VT0: seq<seq<SlotView>>,
                                   new I0: seq<int>, new ST0: seq<RunState>)
      requires old(allocated(ans)) && old(allocated(T0))
      requires old(Valid()) && workers == old(workers) && owner == old(owner) && old(ScanProgress(order, p, ans, now, T0, HT0, VT0, I0, ST0))
      requires p < |order| && order[..p + 1] == order[..p] + [order[p]]
      requires AfterScan(workers[order[p]], T0[order[p]], HT0[order[p]], VT0[order[p]], I0[order[p]],
                         TimedOut(order[p], ans.timers, I0[order[p]]), ans.probe, now)
      requires forall q :: 0 <= q < |workers| && q != order[p] ==>
        && unchanged(workers[q], workers[q].events, workers[q].handles)
        && forall k :: 0 <= k < |T0[q]| ==> unchanged(T0[q][k])
      ensures Valid() && ScanProgress(order, p + 1, ans, now, T0, HT0, VT0, I0, ST0)
    {
    }

    /** Worker m's pass of the loop (win32.c:338-400): it is put to sleep;
        if it has timeouts and its wait timed out, its expired timeouts are
        prepended; otherwise its slots are scanned. */
    method ScanOne(m: int, ans: WaitAnswers, now: int, ready0: seq<Event>,
                   ghost T0: seq<seq<Event>>, ghost HT0: seq<seq<Handle>>, ghost VT0: seq<seq<SlotView>>,
                   ghost I0: seq<int>, ghost ST0: seq<RunState>)
      returns (ready: seq<Event>)
      requires 0 <= m < |workers| && |workers| == |T0| == |HT0| == |VT0| == |I0| == |ST0|
      requires Untouched(workers[m], T0[m], HT0[m], VT0[m], I0[m], ST0[m])
      modifies workers[m], workers[m].events, workers[m].handles, this`nevents, T0[m]`flags, T0[m]`tq
      ensures AfterScan(workers[m], T0[m], HT0[m], VT0[m], I0[m], TimedOut(m, ans.timers, I0[m]), ans.probe, now)
      ensures ready == Yield(T0[m], VT0[m], I0[m], TimedOut(m, ans.timers, I0[m]), ans.expired(m), ans.probe) + ready0
      ensures nevents == old(nevents) - Removed(VT0[m], I0[m], TimedOut(m, ans.timers, I0[m]), ans.probe)
    {
      var w := workers[m];
      w.state := Dormant;
      if m in ans.timers && w.idx == WAIT_TIMEOUT {
        ready := ans.expired(m) + ready0;
      } else {
        assert Views(w.Slots(), w.Handles()) == VT0[m];
        ready := ScanWorker(w, ans.probe, now, ready0);
      }
    }

    // ---- The slot scan of evq_wait ----

    /** One examined slot (win32.c:358-391): its result is computed from the
        probes; a non-zero result marks the event active with those result
        bits and prepends it to the ready list; then a one-shot event is
        removed from the worker, while an event with a deadline that is not
        managed by hand has its deadline moved to the cycle's time. The
        caller steps back one slot when `removed` is true. */
    method Visit(w: Worker, i: int, ev: Event, probe: Probe, cycleNow: int, ready0: seq<Event>)
      returns (ready: seq<Event>, removed: bool)
      requires w.Valid() && w.state == Dormant && 0 <= i < w.n && w.events[i] == ev
      modifies w`n, w.events, w.handles, this`nevents, ev`flags, ev`tq
      ensures w.Valid()
      ensures var v := SlotView(old(ev.flags), old(ev.fd), old(ev.tq), old(w.handles[i]));
        && removed == Removes(v, probe)
        && ready == (if Delivers(v, probe) then [ev] + ready0 else ready0)
        && ev.flags == FlagsVisited(v, probe)
        && ev.tq == DeadlineVisited(v, probe, cycleNow)
        && (removed ==> w.Slots() == old(w.Slots()[..i] + w.Slots()[i + 1..])
                        && w.Handles() == old(w.Handles()[..i] + w.Handles()[i + 1..])
                        && nevents == old(nevents) - 1)
        && (!removed ==> w.Slots() == old(w.Slots()) && w.Handles() == old(w.Handles()) && nevents == old(nevents))
    {
      ready := ready0;
      removed := false;
      var evFlags := ev.flags;
      var res := SlotResult(evFlags, Network(probe, ev.fd), ExitCode(probe, ev.fd));
      if res != 0 {
        ev.flags := Activate(ev.flags, res);
        ready := [ev] + ready;
        if Has(evFlags, EVENT_ONESHOT) {
          assert w.Slots()[i] == ev;
          var _ := ThreadDel(w, ev);
          removed := true;
        } else if ev.tq.Some? && !Has(evFlags, EVENT_TIMEOUT_MANUAL) {
          TimeoutReset(ev, cycleNow);
        }
      }
    }

    /** The scan of one worker's slots in a wait cycle (win32.c:350-398),
        starting at the slot where the worker's wait was satisfied
        (`w.idx`). In terms of the slots as they were before the scan, it
        delivers exactly the slots `Fires` marks, prepending each to the
        ready list in slot order, removes exactly those `Drops` marks, keeping
        the others in order, and sets each slot's flags and deadline as
        `FlagsAfter` and `DeadlineAfter` say. */
    method ScanWorker(w: Worker, probe: Probe, cycleNow: int, ready0: seq<Event>) returns (ready: seq<Event>)
      requires w.Valid() && w.state == Dormant
      modifies w`n, w.events, w.handles, this`nevents, w.Slots()`flags, w.Slots()`tq
      ensures w.Valid()
      ensures var S0 := old(w.Slots()); var vs := old(Views(w.Slots(), w.Handles()));
        var D := DropMask(vs, w.idx, probe);
        && w.Slots() == Kept(S0, D, |S0|)
        && w.Handles() == Kept(old(w.Handles()), D, |S0|)
        && ready == Delivered(S0, FireMask(vs, w.idx, probe), |S0|) + ready0
        && nevents == old(nevents) - Marked(D, |S0|)
        && (forall k :: 0 <= k < |S0| ==>
              S0[k].flags == FlagsAfter(vs, w.idx, probe, k) && S0[k].tq == DeadlineAfter(vs, w.idx, probe, cycleNow, k))
    {
      ghost var S0 := w.Slots();
      ghost var H0 := w.Handles();
      ghost var V0 := Views(S0, H0);
      ghost var F := FireMask(V0, w.idx, probe);
      ghost var D := DropMask(V0, w.idx, probe);
      ScanStart(w, S0, H0, V0, F, D, probe, cycleNow);
      if w.idx >= w.n {
        // No slot is examined: the wait was satisfied by the wakeup handle,
        // by a message or by a timeout, or slots were deleted meanwhile.
        ready := ready0;
      } else {
        ready := ScanFrom(w, probe, cycleNow, ready0, S0, H0, V0, F, D, nevents);
      }
      ScanDone(w, S0, H0, V0, D, probe, cycleNow);
    }

    /** The loop of the scan (win32.c:356-398): examine the current slot, then
        walk to the next signalled one, until the slots run out. */
    method ScanFrom(w: Worker, probe: Probe, cycleNow: int, ready0: seq<Event>, ghost S0: seq<Event>,
                    ghost H0: seq<Handle>, ghost V0: seq<SlotView>, ghost F: seq<bool>, ghost D: seq<bool>,
                    ghost N0: int)
      returns (ready: seq<Event>)
      requires Scanning(w, S0, H0, V0, D, probe, cycleNow, w.idx) && w.idx < |S0| && Distinct(S0)
      requires forall k :: 0 <= k < |S0| ==> S0[k].fd == V0[k].fd && H0[k] == V0[k].handle
      requires F == FireMask(V0, w.idx, probe) && D == DropMask(V0, w.idx, probe)
      requires Marked(D, w.idx) == 0 && Delivered(S0, F, w.idx) == [] && nevents == N0
      modifies w`n, w.events, w.handles, this`nevents, S0`flags, S0`tq
      ensures Scanning(w, S0, H0, V0, D, probe, cycleNow, |S0|)
      ensures ready == Delivered(S0, F, |S0|) + ready0 && nevents == N0 - Marked(D, |S0|)
    {
      ready := ready0;
      var i := w.idx;
      ghost var j := i;
      var done := false;
      while !done
        invariant Scanning(w, S0, H0, V0, D, probe, cycleNow, j) && w.idx <= j
        invariant i == j - Marked(D, j) && (done <==> j == |S0|) && (!done ==> Examined(V0, w.idx, probe, j))
        invariant ready == Delivered(S0, F, j) + ready0
        invariant nevents == N0 - Marked(D, j)
        decreases |S0| - j
      {
        ready, i, j := VisitStep(w, S0, H0, V0, F, D, probe, cycleNow, ready0, N0, ready, i, j);
        i, j, done := SkipUnsignalled(w, probe, cycleNow, V0, S0, H0, F, D, i, j);
      }
    }

    /** The examination of original slot j, which sits at slot i (win32.c:358-391
        with the `--i` of line 388), as a step of the scan. */
    method VisitStep(w: Worker, ghost S0: seq<Event>, ghost H0: seq<Handle>, ghost V0: seq<SlotView>,
                     ghost F: seq<bool>, ghost D: seq<bool>, probe: Probe, cycleNow: int,
                     ghost ready0: seq<Event>, ghost N0: int, ready1: seq<Event>, i0: int, ghost j: int)
      returns (ready: seq<Event>, i: int, ghost next: int)
      requires Scanning(w, S0, H0, V0, D, probe, cycleNow, j) && j < |S0| && Distinct(S0)
      requires F == FireMask(V0, w.idx, probe) && D == DropMask(V0, w.idx, probe)
      requires S0[j].fd == V0[j].fd && H0[j] == V0[j].handle
      requires i0 == j - Marked(D, j) && Examined(V0, w.idx, probe, j)
      requires ready1 == Delivered(S0, F, j) + ready0 && nevents == N0 - Marked(D, j)
      modifies w`n, w.events, w.handles, this`nevents, S0`flags, S0`tq
      ensures next == j + 1 && Scanning(w, S0, H0, V0, D, probe, cycleNow, next)
      ensures i + 1 == next - Marked(D, next)
      ensures ready == Delivered(S0, F, next) + ready0 && nevents == N0 - Marked(D, next)
    {
      next := j + 1;
      ScanningAt(w, S0, H0, V0, D, probe, cycleNow, j, i0);
      var removed;
      ready, removed := Visit(w, i0, w.events[i0], probe, cycleNow, ready1);
      i := if removed then i0 - 1 else i0;
      DeliveredStep(S0, F, j, ready0);
      forall k | 0 <= k < |S0| && k != j
        ensures S0[k].flags == old(S0[k].flags) && S0[k].tq == old(S0[k].tq)
      {
        assert S0[k] != S0[j];
      }
      ScanningAdvance(w, S0, H0, V0, D, probe, cycleNow, j, i0, removed);
    }

    /** What the scan state says of original slot j, the current slot i0. */
    lemma ScanningAt(w: Worker, S0: seq<Event>, H0: seq<Handle>, V0: seq<SlotView>, D: seq<bool>,
                     p: Probe, now: int, j: int, i0: int)
      requires Scanning(w, S0, H0, V0, D, p, now, j) && j < |S0| && i0 == j - Marked(D, j)
      requires S0[j].fd == V0[j].fd && H0[j] == V0[j].handle
      ensures 0 <= i0 < w.n && w.events[i0] == S0[j] && w.handles[i0] == H0[j]
      ensures SlotView(S0[j].flags, S0[j].fd, S0[j].tq, w.handles[i0]) == V0[j]
    {
      KeptLength(S0, D, j);
      KeptLength(H0, D, j);
      assert w.Slots()[i0] == S0[j] && w.Handles()[i0] == H0[j];
    }

    /** Examining original slot j, at current slot i0, moves the scan state
        past it: its flags and deadline take their final values and it is
        removed or kept as the drop mask says. */
    twostate lemma ScanningAdvance(new w: Worker, new S0: seq<Event>, new H0: seq<Handle>, new V0: seq<SlotView>, new D: seq<bool>,
                                   new p: Probe, new now: int, new j: int, new i0: int, new removed: bool)
      requires old(allocated(w)) && old(allocated(S0))
      requires old(Scanning(w, S0, H0, V0, D, p, now, j)) && j < |S0| && i0 == j - Marked(D, j)
      requires D == DropMask(V0, w.idx, p) && Examined(V0, w.idx, p, j)
      requires w.idx == old(w.idx) && w.state == Dormant && w.Valid()
      requires removed == Removes(V0[j], p)
      requires S0[j].flags == FlagsVisited(V0[j], p) && S0[j].tq == DeadlineVisited(V0[j], p, now)
      requires old(w.Slots()[i0]) == S0[j] && 0 <= i0 < old(w.n)
      requires removed ==> w.Slots() == old(w.Slots()[..i0] + w.Slots()[i0 + 1..])
                           && w.Handles() == old(w.Handles()[..i0] + w.Handles()[i0 + 1..])
      requires !removed ==> w.Slots() == old(w.Slots()) && w.Handles() == old(w.Handles())
      requires forall k :: 0 <= k < |S0| && k != j ==> S0[k].flags == old(S0[k].flags) && S0[k].tq == old(S0[k].tq)
      ensures Scanning(w, S0, H0, V0, D, p, now, j + 1)
      ensures (if removed then i0 - 1 else i0) + 1 == j + 1 - Marked(D, j + 1)
    {
      KeptLength(S0, D, j);
      KeptLength(H0, D, j);
      if removed {
        StepDropped(S0, D, j);
        StepDropped(H0, D, j);
      } else {
        StepKept(S0, D, j);
        StepKept(H0, D, j);
      }
      assert S0[j].flags == FlagsAfter(V0, w.idx, p, j);
      assert S0[j].tq == DeadlineAfter(V0, w.idx, p, now, j);
    }
  }

  /** The state of a worker part-way through the scan, once the slots that
      were at positions below j have been dealt with: those the scan removed
      are gone and the rest keep their order, the slots below j carry their
      final flags and deadlines, and the others are untouched. */
  ghost predicate Scanning(w: Worker, S0: seq<Event>, H0: seq<Handle>, V0: seq<SlotView>, D: seq<bool>,
                           p: Probe, now: int, j: int)
    reads w, w.events, w.handles, S0
  {
    && |S0| == |H0| == |V0| == |D| && 0 <= j <= |S0|
    && w.Valid() && w.state == Dormant
    && w.n == |S0| - Marked(D, j)
    && w.Slots() == Kept(S0, D, j) + S0[j..]
    && w.Handles() == Kept(H0, D, j) + H0[j..]
    && (forall k :: 0 <= k < j ==>
          S0[k].flags == FlagsAfter(V0, w.idx, p, k) && S0[k].tq == DeadlineAfter(V0, w.idx, p, now, k))
    && (forall k :: j <= k < |S0| ==> S0[k].flags == V0[k].flags && S0[k].tq == V0[k].tq)
  }

  /** The scan state before the first examined slot: the slots below
      `idx` are never examined, so nothing has changed there. When `idx` is
      past the used slots, that is the whole scan. */
  lemma ScanStart(w: Worker, S0: seq<Event>, H0: seq<Handle>, V0: seq<SlotView>, F: seq<bool>, D: seq<bool>,
                  p: Probe, now: int)
    requires w.Valid() && w.state == Dormant
    requires S0 == w.Slots() && H0 == w.Handles() && V0 == Views(S0, H0)
    requires F == FireMask(V0, w.idx, p) && D == DropMask(V0, w.idx, p)
    ensures Distinct(S0)
    ensures forall k :: 0 <= k < |S0| ==> S0[k].fd == V0[k].fd && H0[k] == V0[k].handle
    ensures var j := if w.idx < |S0| then w.idx else |S0|;
      && Scanning(w, S0, H0, V0, D, p, now, j) == true
      && Marked(D, j) == 0 && Delivered(S0, F, j) == []
  {
    var j := if w.idx < |S0| then w.idx else |S0|;
    forall k | 0 <= k < j {
      PrefixUntouched(V0, w.idx, p, now, k);
    }
    Unmarked(S0, D, j);
    Unmarked(H0, D, j);
    Unmarked(S0, F, j);
  }

  /** The scan state once every slot has been passed. */
  lemma ScanDone(w: Worker, S0: seq<Event>, H0: seq<Handle>, V0: seq<SlotView>, D: seq<bool>, p: Probe, now: int)
    requires Scanning(w, S0, H0, V0, D, p, now, |S0|)
    ensures w.Valid() && w.Slots() == Kept(S0, D, |S0|) && w.Handles() == Kept(H0, D, |S0|)
    ensures forall k :: 0 <= k < |S0| ==>
      S0[k].flags == FlagsAfter(V0, w.idx, p, k) && S0[k].tq == DeadlineAfter(V0, w.idx, p, now, k)
  {
    KeptAll(S0, D);
    KeptAll(H0, D);
  }

  /** Passing slots that are not examined moves the scan state past them:
      their flags and deadlines are already final. */
  lemma ScanningSkip(w: Worker, S0: seq<Event>, H0: seq<Handle>, V0: seq<SlotView>, D: seq<bool>,
                     p: Probe, now: int, j0: int, j: int)
    requires Scanning(w, S0, H0, V0, D, p, now, j0) && j0 <= j <= |S0|
    requires forall k :: j0 <= k < j ==> !Examined(V0, w.idx, p, k)
    requires Marked(D, j) == Marked(D, j0)
    requires Kept(S0, D, j) + S0[j..] == Kept(S0, D, j0) + S0[j0..]
    requires Kept(H0, D, j) + H0[j..] == Kept(H0, D, j0) + H0[j0..]
    ensures Scanning(w, S0, H0, V0, D, p, now, j)
  {
  }

  /** The walk over the slots after an examined one (`while (++i < n) { hp++;
      if (signalled(*hp)) break; }`, win32.c:393-397): it stops at the next
      slot whose handle is signalled, or at the end of the slots (`done`).
      The slots it passes are not examined, so the scan state moves past
      them with nothing delivered or removed. */
  method SkipUnsignalled(w: Worker, probe: Probe, cycleNow: int, ghost V0: seq<SlotView>, ghost S0: seq<Event>,
                         ghost H0: seq<Handle>, ghost F: seq<bool>, ghost D: seq<bool>,
                         i0: int, ghost j0: int)
    returns (i: int, ghost j: int, done: bool)
    requires Scanning(w, S0, H0, V0, D, probe, cycleNow, j0) && w.idx < j0
    requires forall k :: 0 <= k < |V0| ==> V0[k].handle == H0[k]
    requires F == FireMask(V0, w.idx, probe) && D == DropMask(V0, w.idx, probe)
    requires i0 + 1 == j0 - Marked(D, j0)
    ensures Scanning(w, S0, H0, V0, D, probe, cycleNow, j)
    ensures j0 <= j <= |S0| && (done <==> j == |S0|)
    ensures !done ==> Examined(V0, w.idx, probe, j)
    ensures i == j - Marked(D, j)
    ensures Marked(D, j) == Marked(D, j0) && Delivered(S0, F, j) == Delivered(S0, F, j0)
  {
    i, j := SkipHandles(w.handles, w.n, w.idx, probe, V0, S0, H0, F, D, i0, j0);
    done := i == w.n;
    ScanningSkip(w, S0, H0, V0, D, probe, cycleNow, j0, j);
  }

  /** Slots j0 to j were passed unexamined: nothing was delivered or removed
      there, and the handle loop's index i is j less the slots removed. */
  ghost predicate Skipping(V0: seq<SlotView>, S0: seq<Event>, H0: seq<Handle>, F: seq<bool>, D: seq<bool>,
                           idx: int, probe: Probe, j0: int, j: int, i: int)
  {
    && |S0| == |H0| == |V0| == |F| == |D| && 0 <= idx < j0 <= j <= |S0|
    && (forall k :: j0 <= k < j ==> !Examined(V0, idx, probe, k))
    && i == j - Marked(D, j) && Marked(D, j) == Marked(D, j0)
    && Delivered(S0, F, j) == Delivered(S0, F, j0)
    && Kept(S0, D, j) + S0[j..] == Kept(S0, D, j0) + S0[j0..]
    && Kept(H0, D, j) + H0[j..] == Kept(H0, D, j0) + H0[j0..]
  }

  /** The loop of `SkipUnsignalled` over the handle array `hs`, whose first
      `n` entries are the kept handles below `j0` followed by the original
      handles from `j0` on. */
  method SkipHandles(hs: array<Handle>, n: int, idx: int, probe: Probe, ghost V0: seq<SlotView>, ghost S0: seq<Event>,
                     ghost H0: seq<Handle>, ghost F: seq<bool>, ghost D: seq<bool>,
                     i0: int, ghost j0: int)
    returns (i: int, ghost j: int)
    requires |S0| == |H0| == |V0| && 0 <= idx < j0 <= |S0|
    requires forall k :: 0 <= k < |V0| ==> V0[k].handle == H0[k]
    requires F == FireMask(V0, idx, probe) && D == DropMask(V0, idx, probe)
    requires n == |S0| - Marked(D, j0) <= hs.Length && hs[..n] == Kept(H0, D, j0) + H0[j0..]
    requires i0 + 1 == j0 - Marked(D, j0)
    ensures Skipping(V0, S0, H0, F, D, idx, probe, j0, j, i)
    ensures (i == n <==> j == |S0|) && (j < |S0| ==> Examined(V0, idx, probe, j))
  {
    i := i0 + 1;
    j := j0;
    if j < |S0| {
      HandleAt(hs, n, H0, D, j0, j);
    }
    while i < n && !Signaled(probe, hs[i])
      invariant Skipping(V0, S0, H0, F, D, idx, probe, j0, j, i)
      invariant j < |S0| ==> hs[i] == H0[j]
      decreases |S0| - j
    {
      SkipStep(V0, S0, H0, F, D, idx, probe, j0, j, i);
      i := i + 1;
      j := j + 1;
      if j < |S0| {
        HandleAt(hs, n, H0, D, j0, j);
      }
    }
  }

  /** Passing an unsignalled slot j after `idx`: it is not examined, so
      nothing is delivered or removed there. */
  lemma SkipStep(V0: seq<SlotView>, S0: seq<Event>, H0: seq<Handle>, F: seq<bool>, D: seq<bool>,
                 idx: int, probe: Probe, j0: int, j: int, i: int)
    requires Skipping(V0, S0, H0, F, D, idx, probe, j0, j, i) && j < |S0|
    requires F == FireMask(V0, idx, probe) && D == DropMask(V0, idx, probe)
    requires V0[j].handle == H0[j] && !Signaled(probe, H0[j])
    ensures Skipping(V0, S0, H0, F, D, idx, probe, j0, j + 1, i + 1)
  {
    StepKept(S0, D, j);
    StepKept(H0, D, j);
  }

  /** Mid-scan, the handle of original slot j sits at position j less the
      number of slots removed before it. */
  lemma HandleAt(hs: array<Handle>, n: int, H0: seq<Handle>, D: seq<bool>, j0: int, j: int)
    requires |H0| == |D| && 0 <= j0 <= j < |H0| && 0 <= n <= hs.Length
    requires hs[..n] == Kept(H0, D, j0) + H0[j0..]
    requires Kept(H0, D, j) + H0[j..] == Kept(H0, D, j0) + H0[j0..]
    ensures j - Marked(D, j) < n && hs[j - Marked(D, j)] == H0[j]
  {
    KeptLength(H0, D, j);
    assert hs[..n][j - Marked(D, j)] == H0[j];
  }
}
