/** A worker of the Win32 backend: a bounded wait set of event slots plus the
    worker's own wakeup handle. The slot array holds NEVENT - 1 events; the
    handle array holds one waitable handle per slot and, right after the last
    used slot, the wakeup handle (`handles[n]`, set at src/event/win32.c:25
    for an empty worker), so that a wait result of `WAIT_OBJECT_0 + n` means
    "woken" (win32.c:274, 316).

    The slot helpers `Append` and `RemoveAt` are the parts of `win32thr_add`
    and `win32thr_del` that the scan in `evq_wait` depends on; their C bodies
    (win32thr.c) are not part of this model. `RemoveAt` shifts the later slots
    down by one, which is what the `--i, --n, --hp` step at win32.c:388
    assumes. */
module Workers {

  import opened Common
  import opened EventFlags
  import opened Scan

  /** `NEVENT`: MAXIMUM_WAIT_OBJECTS, the most handles one wait observes. */
  const NEVENT: int := 64

  /** A native HANDLE or SOCKET value. */
  type Handle = int

  /** `WTHR_SLEEP` (dormant: safe to reconfigure) or blocked in its own wait. */
  datatype RunState = Dormant | Waiting

  /** `struct event`: the fields the backend reads and writes. */
  class Event {
    var flags: Flags
    var fd: Handle
    /** The worker responsible for the event (`ev->wth`). */
    var wth: Worker?
    /** The event's deadline (`ev->tq`), None when it has none. */
    var tq: Option<Deadline>
  }

  /** `struct win32thr`. */
  class Worker {
    var n: int
    const events: array<Event>
    const handles: array<Handle>
    /** The wakeup handle (`wth->signal`). */
    const signal: Handle
    /** The index the last satisfied wait reported (`wth->idx`). */
    var idx: int
    var state: RunState

    ghost predicate Valid()
      reads this`n, this`idx, events, handles
    {
      && events.Length == NEVENT - 1
      && handles.Length == NEVENT
      && 0 <= n <= NEVENT - 1
      && idx >= 0
      && handles[n] == signal
      && (forall a, b :: 0 <= a < b < n ==> events[a] != events[b])
    }

    /** The events in the used slots, in slot order. */
    ghost function Slots(): (s: seq<Event>)
      reads this`n, events
      requires 0 <= n <= events.Length
      ensures |s| == n
    {
      events[..n]
    }

    /** The events in the used slots, as a set (the scan's write frame). */
    ghost function SlotSet(): set<Event>
      reads this`n, events
      requires 0 <= n <= events.Length
    {
      set e | e in Slots()
    }

    /** The handles of the used slots, in slot order. */
    ghost function Handles(): (s: seq<Handle>)
      reads this`n, handles
      requires 0 <= n <= handles.Length
      ensures |s| == n
    {
      handles[..n]
    }

    /** A new, empty worker whose wakeup handle is `signal`. */
    constructor (signal: Handle)
      ensures Valid() && fresh(events) && fresh(handles)
      ensures this.signal == signal && n == 0 && Slots() == [] && state == Dormant && idx == 0
    {
      this.signal := signal;
      var blank := new Event;
      events := new Event[NEVENT - 1](_ => blank);
      var hs := new Handle[NEVENT](_ => signal);
      handles := hs;
      n := 0;
      idx := 0;
      state := Dormant;
    }

    /** Puts `ev` with waitable handle `h` in the first free slot and moves
        the wakeup handle one place up. */
    method Append(ev: Event, h: Handle)
      requires Valid() && n < NEVENT - 1 && ev !in Slots()
      modifies this`n, events, handles
      ensures Valid() && n == old(n) + 1
      ensures Slots() == old(Slots()) + [ev]
      ensures Handles() == old(Handles()) + [h]
    {
      events[n] := ev;
      handles[n + 1] := signal;
      handles[n] := h;
      n := n + 1;
      assert Slots() == old(Slots()) + [ev];
    }

    /** Removes slot k: every later slot and the wakeup handle move down one
        place, the order of the others is kept. */
    method RemoveAt(k: int)
      requires Valid() && 0 <= k < n
      modifies this`n, events, handles
      ensures Valid() && n == old(n) - 1
      ensures Slots() == old(Slots()[..k] + Slots()[k + 1..])
      ensures Handles() == old(Handles()[..k] + Handles()[k + 1..])
    {
      var i := k;
      while i < n
        invariant k <= i <= n == old(n)
        invariant forall m :: 0 <= m < k ==> events[m] == old(events[m]) && handles[m] == old(handles[m])
        invariant forall m :: k <= m < i ==> handles[m] == old(handles[m + 1])
        invariant forall m :: k <= m < i && m < n - 1 ==> events[m] == old(events[m + 1])
        invariant forall m :: i <= m < events.Length ==> events[m] == old(events[m])
        invariant forall m :: i <= m < handles.Length ==> handles[m] == old(handles[m])
      {
        if i + 1 < n {
          events[i] := events[i + 1];
        }
        handles[i] := handles[i + 1];
        i := i + 1;
      }
      n := n - 1;
      assert Slots() == old(Slots()[..k] + Slots()[k + 1..]);
      assert Handles() == old(Handles()[..k] + Handles()[k + 1..]);
    }

    /** The slot holding `ev`. */
    method Find(ev: Event) returns (k: int)
      requires Valid() && ev in Slots()
      ensures 0 <= k < n && events[k] == ev
    {
      k := 0;
      while events[k] != ev
        invariant 0 <= k < n
        invariant forall m :: 0 <= m < k ==> events[m] != ev
        invariant ev in Slots()[k..]
        decreases n - k
      {
        k := k + 1;
      }
    }
  }

  /** What the scan reads of each slot: the event's flags, handle or socket
      and deadline, with the slot's waitable handle. */
  ghost function Views(s: seq<Event>, hs: seq<Handle>): (vs: seq<SlotView>)
    requires |s| == |hs|
    reads s
    ensures |vs| == |s|
    ensures forall k :: 0 <= k < |s| ==> vs[k] == SlotView(s[k].flags, s[k].fd, s[k].tq, hs[k])
  {
    seq(|s|, k requires 0 <= k < |s| reads s => SlotView(s[k].flags, s[k].fd, s[k].tq, hs[k]))
  }
}
