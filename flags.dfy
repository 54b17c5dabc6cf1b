/** Event flag bits and the pure bit computations of the Win32 backend
    (src/event/win32.c): the per-slot readiness result, the Winsock interest
    mask of `evq_modify` and the change-notification filter of
    `evq_add_dirwatch`.

    The EVENT_* values live in the event-queue header, which is not part of
    this model: the bit positions below are this model's own choice. What the
    properties rely on is only that the kind, interest and state bits are
    distinct single bits below EVENT_EOF_SHIFT_RES, and that the result field
    starts with EVENT_EOF_RES at bit EVENT_EOF_SHIFT_RES. The FD_*,
    FILE_NOTIFY_CHANGE_* values are those of the Windows SDK headers. */
module EventFlags {

  import opened Common

  type Flags = bv32

  // Interest, kind and behaviour bits of `ev->flags`.
  const EVENT_READ: Flags            := 0x0000_0001
  const EVENT_WRITE: Flags           := 0x0000_0002
  const EVENT_ONESHOT: Flags         := 0x0000_0004
  const EVENT_SOCKET: Flags          := 0x0000_0010
  const EVENT_TIMER: Flags           := 0x0000_0020
  const EVENT_PID: Flags             := 0x0000_0040
  const EVENT_SIGNAL: Flags          := 0x0000_0080
  const EVENT_WINMSG: Flags          := 0x0000_0100
  const EVENT_DIRWATCH: Flags        := 0x0000_0200
  const EVENT_TIMEOUT_MANUAL: Flags  := 0x0000_0400
  const EVENT_SOCKET_ACC_CONN: Flags := 0x0000_4000
  const EVENT_AIO: Flags             := 0x0000_8000
  const EVENT_AIO_SKIP: Flags        := 0x0001_0000
  const EVENT_PENDING: Flags         := 0x0002_0000
  const EVENT_ACTIVE: Flags          := 0x0008_0000

  // The result field.
  const EVENT_READ_RES: Flags        := 0x0010_0000
  const EVENT_WRITE_RES: Flags       := 0x0020_0000
  const EVENT_EOF_SHIFT_RES: bv32    := 24
  const EVENT_EOF_RES: Flags         := 0x0100_0000
  const EVENT_EOF_MASK_RES: Flags    := 0xFF00_0000

  // Winsock network-event bits (winsock2.h).
  const FD_READ: bv32    := 0x01
  const FD_WRITE: bv32   := 0x02
  const FD_OOB: bv32     := 0x04
  const FD_ACCEPT: bv32  := 0x08
  const FD_CONNECT: bv32 := 0x10
  const FD_CLOSE: bv32   := 0x20

  /** Readiness to read: data, a pending connection or the peer closing. */
  const WFD_READ: bv32  := FD_READ | FD_ACCEPT | FD_CLOSE
  /** Readiness to write: buffer space, a completed connect or the peer closing. */
  const WFD_WRITE: bv32 := FD_WRITE | FD_CONNECT | FD_CLOSE

  // Change-notification filters (winnt.h).
  const FILE_NOTIFY_CHANGE_FILE_NAME: bv32  := 0x001
  const FILE_NOTIFY_CHANGE_DIR_NAME: bv32   := 0x002
  const FILE_NOTIFY_CHANGE_ATTRIBUTES: bv32 := 0x004
  const FILE_NOTIFY_CHANGE_SIZE: bv32       := 0x008
  const FILE_NOTIFY_CHANGE_LAST_WRITE: bv32 := 0x010
  const FILE_NOTIFY_CHANGE_CREATION: bv32   := 0x040
  const FILE_NOTIFY_CHANGE_SECURITY: bv32   := 0x100

  /** The broad filter of `evq_add_dirwatch`. */
  const DIRWATCH_ALL: bv32 :=
    FILE_NOTIFY_CHANGE_FILE_NAME | FILE_NOTIFY_CHANGE_DIR_NAME
    | FILE_NOTIFY_CHANGE_ATTRIBUTES | FILE_NOTIFY_CHANGE_SIZE
    | FILE_NOTIFY_CHANGE_LAST_WRITE | FILE_NOTIFY_CHANGE_CREATION
    | FILE_NOTIFY_CHANGE_SECURITY

  predicate Has(flags: Flags, bit: Flags)
  {
    flags & bit != 0
  }

  /** The answer of `WSAEnumNetworkEvents` for one socket: the network-event
      bits, or None when the call fails. */
  type NetworkEvents = Option<bv32>

  /** The result bits a signalled slot yields (win32.c:362-379). `net` is what
      `WSAEnumNetworkEvents` reports for a socket and `status` what
      `GetExitCodeProcess` reports for a process; each is used only for its
      kind of event. `status << EVENT_EOF_SHIFT_RES` is the C shift of an
      unsigned 32-bit value: bits shifted past bit 31 are lost. */
  function SlotResult(flags: Flags, net: NetworkEvents, status: bv32): (res: Flags)
    // sockets
    ensures Has(flags, EVENT_SOCKET) && net.Some? ==>
      && (Has(res, EVENT_READ_RES) <==> Has(flags, EVENT_READ) && net.value & WFD_READ != 0)
      && (Has(res, EVENT_WRITE_RES) <==> Has(flags, EVENT_WRITE) && net.value & WFD_WRITE != 0)
      && (Has(res, EVENT_EOF_RES) <==> net.value & FD_CLOSE != 0)
      && res & !(EVENT_READ_RES | EVENT_WRITE_RES | EVENT_EOF_RES) == 0
    ensures Has(flags, EVENT_SOCKET) && net.None? ==> res == 0
    // every other kind reports unconditionally
    ensures !Has(flags, EVENT_SOCKET) ==> Has(res, EVENT_READ_RES)
    ensures !Has(flags, EVENT_SOCKET) && !Has(flags, EVENT_PID) ==> res == EVENT_READ_RES
    ensures !Has(flags, EVENT_SOCKET) && Has(flags, EVENT_PID) ==>
      res & EVENT_EOF_MASK_RES == status << EVENT_EOF_SHIFT_RES
      && res & !EVENT_EOF_MASK_RES == EVENT_READ_RES
  {
    if !Has(flags, EVENT_SOCKET) then
      (if Has(flags, EVENT_PID) then status << EVENT_EOF_SHIFT_RES else 0) | EVENT_READ_RES
    else if net.None? then
      0
    else
      var ne := net.value;
      (if Has(flags, EVENT_READ) && ne & WFD_READ != 0 then EVENT_READ_RES else 0)
      | (if Has(flags, EVENT_WRITE) && ne & WFD_WRITE != 0 then EVENT_WRITE_RES else 0)
      | (if ne & FD_CLOSE != 0 then EVENT_EOF_RES else 0)
  }

  /** The Winsock event mask `evq_modify` selects for a worker-hosted socket
      (win32.c:217, 222-225). */
  function WfdMask(flags: Flags): (mask: bv32)
    ensures Has(flags, EVENT_READ) && !Has(flags, EVENT_WRITE) ==> mask == WFD_READ
    ensures !Has(flags, EVENT_READ) && Has(flags, EVENT_WRITE) ==> mask == WFD_WRITE
    ensures Has(flags, EVENT_READ) && Has(flags, EVENT_WRITE) ==> mask == WFD_READ | WFD_WRITE
    ensures !Has(flags, EVENT_READ) && !Has(flags, EVENT_WRITE) ==> mask == 0
  {
    var event: bv32 := if Has(flags, EVENT_READ) then WFD_READ else 0;
    if Has(flags, EVENT_WRITE) then event | WFD_WRITE else event
  }

  /** The mask `evq_modify` selects is exactly what the readiness of a socket
      with read or write interest looks at: filtering the reported network
      events through it changes no result bit. */
  lemma SelectedMaskSuffices(flags: Flags, ne: bv32, status: bv32)
    requires Has(flags, EVENT_READ) || Has(flags, EVENT_WRITE)
    ensures SlotResult(flags, Some(ne & WfdMask(flags)), status) == SlotResult(flags, Some(ne), status)
  {
  }

  /** The change-notification filter of `evq_add_dirwatch` (win32.c:104-112):
      any bit set at or above EVENT_EOF_SHIFT_RES asks for last-write changes
      only; otherwise the broad filter. */
  function DirwatchFilter(flags: Flags): (filter: bv32)
    ensures flags & EVENT_EOF_MASK_RES != 0 ==> filter == FILE_NOTIFY_CHANGE_LAST_WRITE
    ensures flags & EVENT_EOF_MASK_RES == 0 ==>
      filter == 0x15F && filter & FILE_NOTIFY_CHANGE_LAST_WRITE != 0
  {
    if flags >> EVENT_EOF_SHIFT_RES != 0 then FILE_NOTIFY_CHANGE_LAST_WRITE else DIRWATCH_ALL
  }

  /** `ev->flags &= ~EVENT_EOF_MASK_RES` (win32.c:115): the request bits that
      chose the filter are cleared and nothing else is touched. */
  function ClearResultField(flags: Flags): (f: Flags)
    ensures f & EVENT_EOF_MASK_RES == 0
    ensures f & !EVENT_EOF_MASK_RES == flags & !EVENT_EOF_MASK_RES
    ensures DirwatchFilter(f) == DIRWATCH_ALL
  {
    flags & !EVENT_EOF_MASK_RES
  }

  /** `ev->flags |= EVENT_ACTIVE | res` (win32.c:382): a delivered slot keeps
      every flag it had and gains EVENT_ACTIVE and the result bits. */
  function Activate(flags: Flags, res: Flags): (f: Flags)
    ensures f & flags == flags && f & res == res && Has(f, EVENT_ACTIVE)
  {
    flags | EVENT_ACTIVE | res
  }

  /** The bits of `before` that `after` drops (`ev_flags & ~flags`,
      win32.c:213): for each direction, it is set exactly when the earlier
      interest had it and the new one does not. */
  function Dropped(before: Flags, after: Flags): (d: Flags)
    ensures Has(d, EVENT_READ) <==> Has(before, EVENT_READ) && !Has(after, EVENT_READ)
    ensures Has(d, EVENT_WRITE) <==> Has(before, EVENT_WRITE) && !Has(after, EVENT_WRITE)
    ensures d & after == 0 && d | before == before
  {
    before & !after
  }

  /** `ev->flags |= EVENT_AIO` (win32.c:76). */
  function WithAio(flags: Flags): Flags
  {
    flags | EVENT_AIO
  }

  /** `ev->flags |= EVENT_AIO_SKIP` (win32.c:82). */
  function WithAioSkip(flags: Flags): Flags
  {
    flags | EVENT_AIO_SKIP
  }

  /** The flags of an event the completion port takes (win32.c:76, 80-82):
      EVENT_AIO is added, and EVENT_AIO_SKIP when the platform accepted to
      skip notifications of operations that complete at once. */
  function MarkOverlapped(flags: Flags, skip: bool): (f: Flags)
    ensures f & flags == flags && Has(f, EVENT_AIO)
    ensures Has(f, EVENT_AIO_SKIP) <==> skip || Has(flags, EVENT_AIO_SKIP)
    ensures f | EVENT_AIO | EVENT_AIO_SKIP == flags | EVENT_AIO | EVENT_AIO_SKIP
  {
    if skip then WithAioSkip(WithAio(flags)) else WithAio(flags)
  }

  /** A socket that does not accept connections (win32.c:70): the kind the
      completion port may take. */
  predicate PortEligible(flags: Flags)
  {
    flags & (EVENT_SOCKET | EVENT_SOCKET_ACC_CONN) == EVENT_SOCKET
  }
}
