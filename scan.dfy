/** The meaning of one pass of the slot scan in `evq_wait`
    (src/event/win32.c:350-398), stated on values.

    The scan starts at the slot whose wait was satisfied (`idx`), examines it,
    then walks forward over the slots whose handle is signalled. Every examined
    slot with a non-zero result is prepended to the ready list; a one-shot one
    is also removed from the worker, which shifts the later slots down. The
    functions below say, in terms of the slots as they were when the scan
    began, which slots are examined, which are delivered, which are removed,
    and what the slot array and the ready list are afterwards. */
module Scan {

  import opened Common
  import opened EventFlags

  /** A deadline in a timeout index: its relative timeout and when it falls due. */
  datatype Deadline = Deadline(msec: Msec, due: int)

  /** What the scan reads of one slot before it starts: the event's flags, its
      handle or socket, its deadline, and the waitable handle in the slot. */
  datatype SlotView = SlotView(flags: Flags, fd: int, tq: Option<Deadline>, handle: int)

  /** The platform's answers during a scan: the handles that are signalled
      (`WaitForSingleObject(h, 0) == WAIT_OBJECT_0`), the network events
      `WSAEnumNetworkEvents` reports for each socket it succeeds on, and the
      status `GetExitCodeProcess` reports for each process. */
  datatype Probe = Probe(signaled: set<int>, network: map<int, bv32>, exitCode: map<int, bv32>)

  predicate Signaled(p: Probe, h: int)
  {
    h in p.signaled
  }

  /** What `WSAEnumNetworkEvents` reports for socket `fd`: None when it fails. */
  function Network(p: Probe, fd: int): NetworkEvents
  {
    if fd in p.network then Some(p.network[fd]) else None
  }

  /** What `GetExitCodeProcess` stores for process `fd`; the source does not
      look at whether the call succeeded, and a process the probe does not
      list reads as status 0. */
  function ExitCode(p: Probe, fd: int): bv32
  {
    if fd in p.exitCode then p.exitCode[fd] else 0
  }

  /** The result bits of a slot (win32.c:362-379). */
  function Result(v: SlotView, p: Probe): Flags
  {
    SlotResult(v.flags, Network(p, v.fd), ExitCode(p, v.fd))
  }

  /** Examining a slot delivers it: its result is non-zero (win32.c:380). */
  predicate Delivers(v: SlotView, p: Probe)
  {
    Result(v, p) != 0
  }

  /** Examining a slot removes it: delivered and one-shot (win32.c:384-388). */
  predicate Removes(v: SlotView, p: Probe)
  {
    Delivers(v, p) && Has(v.flags, EVENT_ONESHOT)
  }

  /** The flags of an examined slot afterwards: `ev->flags |= EVENT_ACTIVE | res`
      when delivered (win32.c:382), unchanged otherwise. */
  function FlagsVisited(v: SlotView, p: Probe): Flags
  {
    if Delivers(v, p) then Activate(v.flags, Result(v, p)) else v.flags
  }

  /** The deadline of an examined slot afterwards: a delivered slot that is
      kept, has a deadline and does not manage it by hand has it moved to the
      cycle's `now` (win32.c:389-390). */
  function DeadlineVisited(v: SlotView, p: Probe, now: int): Option<Deadline>
  {
    if Delivers(v, p) && !Has(v.flags, EVENT_ONESHOT) && v.tq.Some? && !Has(v.flags, EVENT_TIMEOUT_MANUAL)
    then Some(Deadline(v.tq.value.msec, now + v.tq.value.msec as int))
    else v.tq
  }

  /** Slot k is examined: it is where the wait was satisfied, or it comes later
      and its handle is signalled. */
  predicate Examined(vs: seq<SlotView>, idx: int, p: Probe, k: int)
    requires 0 <= k < |vs|
  {
    k == idx || (idx < k && Signaled(p, vs[k].handle))
  }

  /** Slot k is delivered. */
  predicate Fires(vs: seq<SlotView>, idx: int, p: Probe, k: int)
    requires 0 <= k < |vs|
  {
    Examined(vs, idx, p, k) && Delivers(vs[k], p)
  }

  /** Slot k is removed. */
  predicate Drops(vs: seq<SlotView>, idx: int, p: Probe, k: int)
    requires 0 <= k < |vs|
  {
    Examined(vs, idx, p, k) && Removes(vs[k], p)
  }

  function FireMask(vs: seq<SlotView>, idx: int, p: Probe): (m: seq<bool>)
    ensures |m| == |vs|
    ensures forall k :: 0 <= k < |vs| ==> m[k] == Fires(vs, idx, p, k)
  {
    seq(|vs|, k requires 0 <= k < |vs| => Fires(vs, idx, p, k))
  }

  function DropMask(vs: seq<SlotView>, idx: int, p: Probe): (m: seq<bool>)
    ensures |m| == |vs|
    ensures forall k :: 0 <= k < |vs| ==> m[k] == Drops(vs, idx, p, k)
  {
    seq(|vs|, k requires 0 <= k < |vs| => Drops(vs, idx, p, k))
  }

  /** The flags slot k has after the scan. */
  function FlagsAfter(vs: seq<SlotView>, idx: int, p: Probe, k: int): Flags
    requires 0 <= k < |vs|
  {
    if Examined(vs, idx, p, k) then FlagsVisited(vs[k], p) else vs[k].flags
  }

  /** The deadline slot k has after the scan. */
  function DeadlineAfter(vs: seq<SlotView>, idx: int, p: Probe, now: int, k: int): Option<Deadline>
    requires 0 <= k < |vs|
  {
    if Examined(vs, idx, p, k) then DeadlineVisited(vs[k], p, now) else vs[k].tq
  }

  /** The first j elements of `s` without the positions `drop` marks, in order:
      the slots the scan has kept once it has passed original slot j. */
  function Kept<T>(s: seq<T>, drop: seq<bool>, j: int): seq<T>
    requires |s| == |drop| && 0 <= j <= |s|
    decreases j
  {
    if j == 0 then [] else Kept(s, drop, j - 1) + (if drop[j - 1] then [] else [s[j - 1]])
  }

  /** The list built by prepending `s[k]` for every k < j that `fire` marks, in
      increasing k: the last one prepended comes first. */
  function Delivered<T>(s: seq<T>, fire: seq<bool>, j: int): seq<T>
    requires |s| == |fire| && 0 <= j <= |s|
    decreases j
  {
    if j == 0 then [] else (if fire[j - 1] then [s[j - 1]] else []) + Delivered(s, fire, j - 1)
  }

  /** The number of marked positions below j: none exactly when no position
      below j is marked, all exactly when every one is. */
  function Marked(m: seq<bool>, j: int): (c: nat)
    requires 0 <= j <= |m|
    ensures c <= j
    decreases j
  {
    if j == 0 then 0 else Marked(m, j - 1) + (if m[j - 1] then 1 else 0)
  }

  /** No position below j is marked exactly when the count is 0, and every
      one is exactly when the count is j. */
  lemma {:induction false} MarkedExtremes(m: seq<bool>, j: int)
    requires 0 <= j <= |m|
    ensures Marked(m, j) == 0 <==> forall i :: 0 <= i < j ==> !m[i]
    ensures Marked(m, j) == j <==> forall i :: 0 <= i < j ==> m[i]
  {
    if j > 0 {
      MarkedExtremes(m, j - 1);
    }
  }

  /** Removing the marked positions shortens the sequence by their number. */
  lemma {:induction false} KeptLength<T>(s: seq<T>, drop: seq<bool>, j: int)
    requires |s| == |drop| && 0 <= j <= |s|
    ensures |Kept(s, drop, j)| == j - Marked(drop, j)
    decreases j
  {
    if j > 0 {
      KeptLength(s, drop, j - 1);
    }
  }

  /** An element is kept exactly when one of its positions is unmarked. */
  lemma {:induction false} KeptMembership<T>(s: seq<T>, drop: seq<bool>, j: int, x: T)
    requires |s| == |drop| && 0 <= j <= |s|
    ensures x in Kept(s, drop, j) <==> exists k :: 0 <= k < j && !drop[k] && s[k] == x
    decreases j
  {
    if j > 0 {
      KeptMembership(s, drop, j - 1, x);
    }
  }

  predicate Distinct<T(==)>(s: seq<T>)
  {
    forall a, b :: 0 <= a < b < |s| ==> s[a] != s[b]
  }

  /** `s` with every occurrence of `x` taken out, the rest in order. */
  function Without<T(==)>(s: seq<T>, x: T): seq<T>
  {
    if s == [] then [] else (if s[0] == x then [] else [s[0]]) + Without(s[1..], x)
  }

  /** In a duplicate-free sequence, taking out the element at position j
      is taking out that value: the slot array after `win32thr_del` no
      longer holds the event, and the others keep their order. */
  lemma {:induction false} WithoutAt<T>(s: seq<T>, j: int)
    requires Distinct(s) && 0 <= j < |s|
    ensures Without(s, s[j]) == s[..j] + s[j + 1..]
    ensures s[j] !in Without(s, s[j]) && |Without(s, s[j])| == |s| - 1
    ensures forall y :: y in s && y != s[j] ==> y in Without(s, s[j])
  {
    if j == 0 {
      WithoutAbsent(s[1..], s[0]);
    } else {
      WithoutAt(s[1..], j - 1);
      assert s[1..][..j - 1] + s[1..][j..] == s[1..j] + s[j + 1..];
      assert s[..j] + s[j + 1..] == [s[0]] + (s[1..j] + s[j + 1..]);
    }
  }

  /** Taking out a value that does not occur changes nothing. */
  lemma {:induction false} WithoutAbsent<T>(s: seq<T>, x: T)
    requires x !in s
    ensures Without(s, x) == s
  {
    if s != [] {
      WithoutAbsent(s[1..], x);
      assert s == [s[0]] + s[1..];
    }
  }

  /** Removing positions from a duplicate-free sequence leaves it duplicate-free. */
  lemma {:induction false} KeptDistinct<T>(s: seq<T>, drop: seq<bool>, j: int)
    requires |s| == |drop| && 0 <= j <= |s| && Distinct(s)
    ensures Distinct(Kept(s, drop, j))
    decreases j
  {
    if j > 0 {
      KeptDistinct(s, drop, j - 1);
      if !drop[j - 1] {
        KeptMembership(s, drop, j - 1, s[j - 1]);
      }
    }
  }

  /** An element is prepended exactly when one of its marked positions lies
      below j: no delivered slot is skipped. */
  lemma {:induction false} DeliveredMembership<T>(s: seq<T>, fire: seq<bool>, j: int, x: T)
    requires |s| == |fire| && 0 <= j <= |s|
    ensures x in Delivered(s, fire, j) <==> exists k :: 0 <= k < j && fire[k] && s[k] == x
    decreases j
  {
    if j > 0 {
      DeliveredMembership(s, fire, j - 1, x);
      assert Delivered(s, fire, j) == (if fire[j - 1] then [s[j - 1]] else []) + Delivered(s, fire, j - 1);
    }
  }

  /** Prepending the marked elements of a duplicate-free sequence gives a
      duplicate-free list: no slot is delivered twice. */
  lemma {:induction false} DeliveredDistinct<T>(s: seq<T>, fire: seq<bool>, j: int)
    requires |s| == |fire| && 0 <= j <= |s| && Distinct(s)
    ensures Distinct(Delivered(s, fire, j))
    decreases j
  {
    if j > 0 {
      DeliveredDistinct(s, fire, j - 1);
      var rest := Delivered(s, fire, j - 1);
      if fire[j - 1] {
        DeliveredAbsent(s, fire, j - 1, s[j - 1]);
        PrependDistinct(s[j - 1], rest);
      }
    }
  }

  /** Prepending an element that does not occur keeps a list duplicate-free. */
  lemma PrependDistinct<T>(x: T, r: seq<T>)
    requires Distinct(r) && x !in r
    ensures Distinct([x] + r)
  {
    var a := [x] + r;
    forall p, q | 0 <= p < q < |a|
      ensures a[p] != a[q]
    {
      if p == 0 {
        assert a[q] == r[q - 1];
      } else {
        assert a[p] == r[p - 1] && a[q] == r[q - 1];
      }
    }
  }

  /** An element that does not occur among the first j is never prepended. */
  lemma {:induction false} DeliveredAbsent<T>(s: seq<T>, fire: seq<bool>, j: int, x: T)
    requires |s| == |fire| && 0 <= j <= |s| && forall k :: 0 <= k < j ==> s[k] != x
    ensures x !in Delivered(s, fire, j)
    decreases j
  {
    if j > 0 {
      DeliveredAbsent(s, fire, j - 1, x);
      assert Delivered(s, fire, j) == (if fire[j - 1] then [s[j - 1]] else []) + Delivered(s, fire, j - 1);
    }
  }

  /** A delivered one-shot event is no longer in the slots, and every other
      event still is. */
  lemma {:induction false} RemovedExactlyDropped<T>(s: seq<T>, drop: seq<bool>, k: int)
    requires |s| == |drop| && Distinct(s) && 0 <= k < |s|
    ensures s[k] in Kept(s, drop, |s|) <==> !drop[k]
  {
    KeptMembership(s, drop, |s|, s[k]);
  }

  /** Slots before the one where the wait was satisfied are never examined,
      so the scan leaves them where they were. */
  lemma {:induction false} PrefixUntouched(vs: seq<SlotView>, idx: int, p: Probe, now: int, k: int)
    requires 0 <= k < |vs| && k < idx
    ensures !Fires(vs, idx, p, k) && !Drops(vs, idx, p, k)
    ensures FlagsAfter(vs, idx, p, k) == vs[k].flags && DeadlineAfter(vs, idx, p, now, k) == vs[k].tq
  {
  }

  /** After the whole scan, the kept prefix is the whole result. */
  lemma KeptAll<T>(s: seq<T>, drop: seq<bool>)
    requires |s| == |drop|
    ensures Kept(s, drop, |s|) + s[|s|..] == Kept(s, drop, |s|)
  {
    assert s[|s|..] == [];
  }

  /** With no position below j marked, nothing is removed, prepended or
      counted there. */
  lemma {:induction false} Unmarked<T>(s: seq<T>, m: seq<bool>, j: int)
    requires |s| == |m| && 0 <= j <= |s| && forall k :: 0 <= k < j ==> !m[k]
    ensures Kept(s, m, j) == s[..j] && Delivered(s, m, j) == [] && Marked(m, j) == 0
    decreases j
  {
    if j > 0 {
      Unmarked(s, m, j - 1);
      assert s[..j] == s[..j - 1] + [s[j - 1]];
    }
  }

  /** Positions before the first marked one keep their places. */
  lemma {:induction false} KeptPrefix<T>(s: seq<T>, drop: seq<bool>, i: int, j: int)
    requires |s| == |drop| && 0 <= i <= j <= |s|
    requires forall k :: 0 <= k < i ==> !drop[k]
    ensures |Kept(s, drop, j)| >= i && Kept(s, drop, j)[..i] == s[..i]
    decreases j
  {
    if j == i {
      Unmarked(s, drop, i);
    } else {
      KeptPrefix(s, drop, i, j - 1);
      var a := Kept(s, drop, j - 1);
      assert Kept(s, drop, j)[..i] == a[..i];
    }
  }

  /** Passing position j prepends `s[j]` to the delivered list when `fire`
      marks it. */
  lemma DeliveredStep<T>(s: seq<T>, fire: seq<bool>, j: int, rest: seq<T>)
    requires |s| == |fire| && 0 <= j < |s|
    ensures Delivered(s, fire, j + 1) + rest
      == if fire[j] then [s[j]] + (Delivered(s, fire, j) + rest) else Delivered(s, fire, j) + rest
  {
    if fire[j] {
      assert Delivered(s, fire, j + 1) == [s[j]] + Delivered(s, fire, j);
    }
  }

  /** Passing a kept position j moves it from the unscanned suffix to the kept prefix. */
  lemma StepKept<T>(s: seq<T>, drop: seq<bool>, j: int)
    requires |s| == |drop| && 0 <= j < |s| && !drop[j]
    ensures Kept(s, drop, j) + s[j..] == Kept(s, drop, j + 1) + s[j + 1..]
  {
    assert s[j..] == [s[j]] + s[j + 1..];
  }

  /** Removing a dropped position j, which sits right after the kept prefix,
      leaves the kept prefix up to j + 1 followed by the rest. */
  lemma StepDropped<T>(s: seq<T>, drop: seq<bool>, j: int)
    requires |s| == |drop| && 0 <= j < |s| && drop[j]
    ensures var a := Kept(s, drop, j) + s[j..];
      var i := |Kept(s, drop, j)|;
      a[..i] + a[i + 1..] == Kept(s, drop, j + 1) + s[j + 1..]
  {
    var a := Kept(s, drop, j) + s[j..];
    var i := |Kept(s, drop, j)|;
    assert a[..i] == Kept(s, drop, j);
    assert a[i + 1..] == s[j + 1..];
  }
}
