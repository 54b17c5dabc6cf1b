/** The decisions of one `evq_wait` cycle (src/event/win32.c:234-418): the
    timeout handed to MsgWaitForMultipleObjects, which of the cycle's exits
    is taken, the order in which workers are scanned, what the scan of each
    worker contributes to the ready list, and the return code. The
    platform's and the helpers' answers arrive together as `WaitAnswers`. */
module WaitCycle {

  import opened Common
  import opened EventFlags
  import opened Scan
  import opened Workers

  // Results of MsgWaitForMultipleObjects (a DWORD).
  const WAIT_OBJECT_0: int := 0
  const WAIT_TIMEOUT: int := 0x102
  const WAIT_FAILED: int := 0xFFFF_FFFF

  /** What `evq_wait` returns: 0, EVQ_TIMEOUT or EVQ_FAILED. */
  datatype WaitCode = Ok | Timeout | Failed

  /** The platform's and the helpers' answers during one `evq_wait`. Workers
      are named by their position in the worker list, the head being 0. */
  datatype WaitAnswers = WaitAnswers(
    polledEmpty: bool,                  // win32thr_poll(evq) && evq_is_empty(evq)
    shrunk: Msec,                       // timeout_get on the head's timeouts
    headExpired: seq<Event>,            // timeout_process on the head's timeouts, before waiting
    portEvents: seq<Event>,             // win32iocp_process before the wait
    waitRes: int,                       // MsgWaitForMultipleObjects
    after: int,                         // sys_milliseconds after the wait
    sigAfter: int,                      // evq->sig_ready once the wait returns
    portEventsAfter: seq<Event>,        // win32iocp_process after the wait
    readyThreads: seq<int>,             // evq->wth_ready, drained
    interrupts: seq<Event>,             // signal_process_interrupt
    timers: set<int>,                   // the workers whose timeout list is not empty
    expired: int -> seq<Event>,         // timeout_process on a worker's timeouts, after waiting
    probe: Probe,                       // the per-slot probes of the scan
    msgQueued: bool)                    // GetQueueStatus(QS_ALLEVENTS) != 0

  /** What the answers can be: a DWORD wait result, and a drained ready list
      of distinct workers other than the head. */
  predicate AnswersFit(ans: WaitAnswers, count: int)
  {
    && 0 <= ans.waitRes <= WAIT_FAILED
    && (forall i :: 0 <= i < |ans.readyThreads| ==> 1 <= ans.readyThreads[i] < count)
    && Distinct(ans.readyThreads)
  }

  /** Where one wait cycle ends. */
  datatype WaitPath =
    | Polled          // a worker poll found the queue empty (win32.c:245-246)
    | ExpiredFirst    // the head's nearest deadline is already due (249-254)
    | ReadyOnTimeout  // the wait timed out with events already ready (282-283)
    | NothingDue      // the wait timed out and nothing can have fired (284-285)
    | Message         // a host message ended the wait (287-294)
    | WaitFailed      // the wait failed (296-297)
    | Collected       // a handle or a worker woke the wait: collect (299-418)

  /** The completion port already had events before the wait (win32.c:258-259):
      it is asked only on Windows NT and only when it holds events. */
  predicate PortReady(winNT: bool, iocpN: int, portEvents: seq<Event>)
  {
    winNT && iocpN != 0 && portEvents != []
  }

  /** The timeout `evq_wait` gives MsgWaitForMultipleObjects (win32.c:249-271):
      a non-zero request is first cut to the head's nearest deadline
      (`shrunk`); on Windows NT, events already taken from the completion
      port or signals waiting make it 0. */
  function WaitTimeout(timeout: Msec, shrunk: Msec, portReady: bool, sigPending: bool, winNT: bool): (t: Msec)
    ensures t == 0 || t == shrunk
    ensures t == shrunk <==> (timeout != 0 && !(winNT && (portReady || sigPending))) || shrunk == 0
  {
    var t := if timeout != 0 then shrunk else 0;
    if winNT && (portReady || sigPending) then 0 else t
  }

  /** A poll (timeout 0) never blocks, and nor does a wait that already has
      something to deliver on Windows NT. */
  lemma NeverBlocksNeedlessly(timeout: Msec, shrunk: Msec, portReady: bool, sigPending: bool, winNT: bool)
    ensures timeout == 0 ==> WaitTimeout(timeout, shrunk, portReady, sigPending, winNT) == 0
    ensures winNT && (portReady || sigPending) ==> WaitTimeout(timeout, shrunk, portReady, sigPending, winNT) == 0
    ensures timeout != 0 && !(winNT && (portReady || sigPending)) ==>
      WaitTimeout(timeout, shrunk, portReady, sigPending, winNT) == shrunk
  {
  }

  /** The exit a cycle takes (win32.c:245-297). `multi` is whether there are
      workers besides the head, `readyBefore` whether the ready list is not
      empty when the wait returns, `headN` the head's used slots,
      `headTimers` whether the head has timeouts and `sigPending` whether
      signals are waiting once the wait has returned. */
  function PathOf(multi: bool, timeout: Msec, ans: WaitAnswers, readyBefore: bool, headN: int,
                  headTimers: bool, sigPending: bool): WaitPath
  {
    if multi && ans.polledEmpty then Polled
    else if timeout != 0 && ans.shrunk == 0 then ExpiredFirst
    else WokenPath(ans, readyBefore, headN, headTimers, sigPending)
  }

  /** The exit a cycle takes once the wait has returned (win32.c:282-297). */
  function WokenPath(ans: WaitAnswers, readyBefore: bool, headN: int, headTimers: bool, sigPending: bool): WaitPath
  {
    if ans.waitRes == WAIT_TIMEOUT && readyBefore then ReadyOnTimeout
    else if ans.waitRes == WAIT_TIMEOUT && !headTimers && !sigPending then NothingDue
    else if ans.waitRes == WAIT_OBJECT_0 + headN + 1 then Message
    else if ans.waitRes == WAIT_FAILED then WaitFailed
    else Collected
  }

  /** The code `evq_wait` returns on each exit; after collecting, `empty` is
      whether nothing at all became ready (win32.c:412-417). */
  function CodeOf(path: WaitPath, empty: bool, waitRes: int, sigPending: bool): WaitCode
  {
    match path
    case NothingDue => Timeout
    case WaitFailed => Failed
    case Collected => if empty && waitRes == WAIT_TIMEOUT && !sigPending then Timeout else Ok
    case _ => Ok
  }

  /** EVQ_TIMEOUT means the wait timed out, no signal was waiting and the
      cycle has nothing to deliver; EVQ_FAILED means the wait failed. Every
      other exit returns 0. */
  lemma {:induction false} CodeMeaning(multi: bool, timeout: Msec, ans: WaitAnswers, readyBefore: bool,
                                       headN: int, headTimers: bool, sigPending: bool, empty: bool)
    requires 0 <= headN < NEVENT
    ensures var path := PathOf(multi, timeout, ans, readyBefore, headN, headTimers, sigPending);
      && (CodeOf(path, empty, ans.waitRes, sigPending) == Timeout <==>
            && ans.waitRes == WAIT_TIMEOUT && !sigPending && !readyBefore
            && !(multi && ans.polledEmpty) && !(timeout != 0 && ans.shrunk == 0)
            && (!headTimers || empty))
      && (CodeOf(path, empty, ans.waitRes, sigPending) == Failed <==>
            ans.waitRes == WAIT_FAILED && !(multi && ans.polledEmpty) && !(timeout != 0 && ans.shrunk == 0))
  {
    var path := PathOf(multi, timeout, ans, readyBefore, headN, headTimers, sigPending);
    // A message wake needs a wait result of at most NEVENT, so it is never
    // confused with a timeout or a failure.
    assert ans.waitRes == WAIT_OBJECT_0 + headN + 1 ==> ans.waitRes != WAIT_TIMEOUT && ans.waitRes != WAIT_FAILED;
  }

  /** The workers a collecting cycle scans, in order (win32.c:305-336): the
      head alone when it has no workers besides; otherwise the workers that
      reported a wake, preceded by the head unless the head's own wait was
      ended by its wakeup handle. */
  function ScanOrder(multi: bool, waitRes: int, headN: int, readyThreads: seq<int>, count: int): (order: seq<int>)
    requires count >= 1 && forall i :: 0 <= i < |readyThreads| ==> 1 <= readyThreads[i] < count
    ensures forall i :: 0 <= i < |order| ==> 0 <= order[i] < count
  {
    if !multi then [0]
    else if waitRes == WAIT_OBJECT_0 + headN then readyThreads
    else [0] + readyThreads
  }

  /** The scan order visits each worker at most once, only workers that
      exist, the head exactly when it was not woken through its wakeup
      handle (or is alone), and every worker that reported a wake. */
  lemma {:induction false} ScanOrderSound(multi: bool, waitRes: int, headN: int, readyThreads: seq<int>, count: int)
    requires count >= 1 && (multi <==> count > 1)
    requires forall i :: 0 <= i < |readyThreads| ==> 1 <= readyThreads[i] < count
    requires Distinct(readyThreads)
    ensures var order := ScanOrder(multi, waitRes, headN, readyThreads, count);
      && Distinct(order)
      && (0 in order <==> !multi || waitRes != WAIT_OBJECT_0 + headN)
      && (forall m :: m in readyThreads ==> m in order)
      && (forall m :: m in order && m != 0 ==> m in readyThreads)
  {
    var order := ScanOrder(multi, waitRes, headN, readyThreads, count);
    if multi && waitRes != WAIT_OBJECT_0 + headN {
      assert order == [0] + readyThreads;
      assert 0 !in readyThreads;
      forall a, b | 0 <= a < b < |order| ensures order[a] != order[b] {
        if a > 0 {
          assert order[a] == readyThreads[a - 1] && order[b] == readyThreads[b - 1];
        } else {
          assert order[b] == readyThreads[b - 1];
        }
      }
    }
  }

  /** A worker whose timeouts are due rather than its handles: it has
      timeouts and its wait reported a timeout (win32.c:343-347). */
  predicate TimedOut(m: int, timers: set<int>, idx: int)
  {
    m in timers && idx == WAIT_TIMEOUT
  }

  /** What scanning one worker prepends to the ready list: its expired
      timeouts, or else the slots the scan delivers, in the order the
      prepends leave them. */
  function Yield(s: seq<Event>, vs: seq<SlotView>, idx: int, timedOut: bool, expired: seq<Event>, p: Probe): seq<Event>
    requires |vs| == |s|
  {
    if timedOut then expired else Delivered(s, FireMask(vs, idx, p), |s|)
  }

  /** How many slots scanning one worker removes. */
  function Removed(vs: seq<SlotView>, idx: int, timedOut: bool, p: Probe): nat
  {
    if timedOut then 0 else Marked(DropMask(vs, idx, p), |vs|)
  }

  /** The ready list after prepending `ys[0]`, then `ys[1]`, and so on: the
      last contribution comes first. */
  function Gathered(ys: seq<seq<Event>>): seq<Event>
  {
    if ys == [] then [] else ys[|ys| - 1] + Gathered(ys[..|ys| - 1])
  }

  /** Prepending one more contribution. */
  lemma GatheredStep(ys: seq<seq<Event>>, y: seq<Event>)
    ensures Gathered(ys + [y]) == y + Gathered(ys)
  {
    assert (ys + [y])[..|ys|] == ys;
  }

  /** One more step of a ready list built by gathering. */
  lemma GatheredNext(ys: seq<seq<Event>>, p: int, ready0: seq<Event>, ready1: seq<Event>)
    requires 0 <= p < |ys| && ready1 == Gathered(ys[..p]) + ready0
    ensures ys[p] + ready1 == Gathered(ys[..p + 1]) + ready0
  {
    assert ys[..p + 1] == ys[..p] + [ys[p]];
    GatheredStep(ys[..p], ys[p]);
  }

  /** Gathering all the contributions. */
  lemma GatheredWhole(ys: seq<seq<Event>>)
    ensures Gathered(ys[..|ys|]) == Gathered(ys)
  {
    assert ys[..|ys|] == ys;
  }

  /** Every gathered event comes from some contribution, and every
      contribution is gathered whole. */
  lemma {:induction false} GatheredMembership(ys: seq<seq<Event>>, x: Event)
    ensures x in Gathered(ys) <==> exists i :: 0 <= i < |ys| && x in ys[i]
  {
    if ys != [] {
      var last := |ys| - 1;
      var init := ys[..last];
      GatheredMembership(init, x);
      assert Gathered(ys) == ys[last] + Gathered(init);
      if x in Gathered(ys) && x !in ys[last] {
        var i :| 0 <= i < last && x in init[i];
        assert x in ys[i];
      }
      if exists i :: 0 <= i < |ys| && x in ys[i] {
        var i :| 0 <= i < |ys| && x in ys[i];
        if i < last {
          assert x in init[i];
        }
      }
    }
  }

  /** A worker after the cycle has scanned it: asleep, with `idx` as its
      wait result; if its timeouts were due its slots are as they were,
      otherwise they are what the scan of its slots leaves (the slots `Drops`
      marks are gone, and every slot has the flags and deadline
      `FlagsAfter` and `DeadlineAfter` give). `s`, `hs` and `vs` are its
      slots, their handles and their views before the scan. */
  ghost predicate AfterScan(w: Worker, s: seq<Event>, hs: seq<Handle>, vs: seq<SlotView>, idx: int,
                            timedOut: bool, p: Probe, now: int)
    reads w, w.events, w.handles, s
  {
    && |s| == |hs| == |vs|
    && w.Valid() && w.state == Dormant && w.idx == idx
    && (timedOut ==>
          && w.Slots() == s && w.Handles() == hs
          && forall k :: 0 <= k < |s| ==> s[k].flags == vs[k].flags && s[k].tq == vs[k].tq)
    && (!timedOut ==>
          var D := DropMask(vs, idx, p);
          && w.Slots() == Kept(s, D, |s|) && w.Handles() == Kept(hs, D, |s|)
          && forall k :: 0 <= k < |s| ==> s[k].flags == FlagsAfter(vs, idx, p, k) && s[k].tq == DeadlineAfter(vs, idx, p, now, k))
  }

  /** A worker the cycle has not scanned (yet): everything as it was. */
  ghost predicate Untouched(w: Worker, s: seq<Event>, hs: seq<Handle>, vs: seq<SlotView>, idx: int, st: RunState)
    reads w, w.events, w.handles, s
  {
    && |s| == |hs| == |vs|
    && w.Valid() && w.state == st && w.idx == idx
    && w.Slots() == s && w.Handles() == hs
    && forall k :: 0 <= k < |s| ==>
         s[k].flags == vs[k].flags && s[k].tq == vs[k].tq && s[k].fd == vs[k].fd && hs[k] == vs[k].handle
  }

  /** The contributions of the workers in `order`, scanned one after the
      other, from their slots `t`, views `vt` and wait results `it` before
      the scan. */
  function Yields(order: seq<int>, t: seq<seq<Event>>, vt: seq<seq<SlotView>>, it: seq<int>, ans: WaitAnswers)
    : (ys: seq<seq<Event>>)
    requires |t| == |vt| == |it| && (forall i :: 0 <= i < |order| ==> 0 <= order[i] < |t|)
    requires forall q :: 0 <= q < |t| ==> |vt[q]| == |t[q]|
    ensures |ys| == |order|
    ensures forall i :: 0 <= i < |order| ==>
      ys[i] == Yield(t[order[i]], vt[order[i]], it[order[i]], TimedOut(order[i], ans.timers, it[order[i]]),
                     ans.expired(order[i]), ans.probe)
  {
    seq(|order|, i requires 0 <= i < |order| =>
      Yield(t[order[i]], vt[order[i]], it[order[i]], TimedOut(order[i], ans.timers, it[order[i]]),
            ans.expired(order[i]), ans.probe))
  }

  /** What the scan of a collecting cycle gathers: the contributions of the
      workers of `ScanOrder`, from their slots `t`, views `vt` and wait
      results `it` before it, the head's replaced by the wait result. (The
      `== true` keeps the precondition one fact for the verifier; it means
      the conjunction itself.) */
  function CycleYield(ans: WaitAnswers, n: int, count: int, t: seq<seq<Event>>, vt: seq<seq<SlotView>>,
                      it: seq<int>): seq<Event>
    requires (count >= 1 && AnswersFit(ans, count) && |t| == |vt| == |it| == count
              && forall q :: 0 <= q < count ==> |vt[q]| == |t[q]|) == true
  {
    Gathered(Yields(ScanOrder(count > 1, ans.waitRes, n, ans.readyThreads, count), t, vt, it[0 := ans.waitRes], ans))
  }

  /** How many slots the scans of the first j workers of `order` remove. */
  function RemovedSum(order: seq<int>, vt: seq<seq<SlotView>>, it: seq<int>, ans: WaitAnswers, j: int): nat
    requires |vt| == |it| && 0 <= j <= |order| && (forall i :: 0 <= i < |order| ==> 0 <= order[i] < |vt|)
  {
    if j == 0 then 0
    else RemovedSum(order, vt, it, ans, j - 1)
         + Removed(vt[order[j - 1]], it[order[j - 1]], TimedOut(order[j - 1], ans.timers, it[order[j - 1]]), ans.probe)
  }

  /** No event sits in the slots of two workers. */
  predicate SlotsDisjoint(t: seq<seq<Event>>)
  {
    forall a, b, k :: 0 <= a < |t| && 0 <= b < |t| && a != b && 0 <= k < |t[a]| ==> t[a][k] !in t[b]
  }

  /** Every event in a slot of the table. */
  function TableEvents(t: seq<seq<Event>>): set<Event>
  {
    set m, k | 0 <= m < |t| && 0 <= k < |t[m]| :: t[m][k]
  }
}
