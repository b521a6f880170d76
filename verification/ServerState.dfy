/** The connection table of iris.c and what its operations do to it, as functions and relations on states. */
module ServerState {
  import opened Words
  import opened Text
  import opened Frames
  import opened Reassembly
  import opened Kernel

  datatype Timespec = Timespec(sec: int, nsec: int)

  predicate Normal(t: Timespec) { 0 <= t.nsec < 1_000_000_000 }

  function Nanos(t: Timespec): (n: int)
    ensures n == t.sec * 1_000_000_000 + t.nsec
  {
    t.sec * 1_000_000_000 + t.nsec
  }

  /** The `past_deadline` macro. */
  predicate PastDeadline(n: Timespec, d: Timespec) {
    n.sec > d.sec || (n.sec == d.sec && n.nsec >= d.nsec)
  }

  lemma PastDeadlineIsElapsed(n: Timespec, d: Timespec)
    requires Normal(n) && Normal(d)
    ensures PastDeadline(n, d) <==> Nanos(n) >= Nanos(d)
  {
  }

  /** One `struct client`; `times` records when its frames were judged. */
  datatype Slot = Slot(fd: int, offset: int, bytes: int, pdu: seq<byte>, deadline: Timespec, times: seq<nat>)

  datatype End = ByPeer | ByError | ByEvent | Purged

  /** A connection that is over: what was read of it, what was not, when its frames were judged. */
  datatype Session = Session(taken: seq<byte>, unread: seq<byte>, times: seq<nat>, end: End)

  /** A result handed to `iris_call_submit_result()`, with the connection it came from. */
  datatype Entry = Entry(sid: nat, pdu: Pdu)

  datatype State = State(
    slots: seq<Slot>,
    conns: map<int, Conn>,
    past: map<nat, Session>,
    nextSid: nat,
    log: seq<Entry>,
    opens: nat,
    closes: nat)

  // ----- the table

  /** `client_find()`: the first slot with a descriptor, or -1. */
  function Find(slots: seq<Slot>, fd: int): (i: int)
    ensures -1 <= i < |slots|
    ensures i >= 0 ==> slots[i].fd == fd && forall k :: 0 <= k < i ==> slots[k].fd != fd
    ensures i == -1 ==> forall k :: 0 <= k < |slots| ==> slots[k].fd != fd
  {
    if slots == [] then -1
    else if slots[0].fd == fd then 0
    else
      var i := Find(slots[1..], fd);
      if i == -1 then -1 else i + 1
  }

  /** The end of the connection in a slot. */
  function EndAt(s: State, i: nat, end: End): State
    requires i < |s.slots| && s.slots[i].fd in s.conns
  {
    var fd := s.slots[i].fd;
    var c := s.conns[fd];
    s.(slots := s.slots[i := s.slots[i].(fd := -1)],
       conns := s.conns - {fd},
       past := s.past[c.sid := Session(c.taken, c.queue, s.slots[i].times, end)],
       closes := s.closes + 1)
  }

  /** `client_close()`: by descriptor; nothing happens to a descriptor without a client. */
  function Close(s: State, fd: int, end: End): State {
    var i := Find(s.slots, fd);
    if i == -1 then s
    else if fd in s.conns then EndAt(s, i, end)
    else s.(slots := s.slots[i := s.slots[i].(fd := -1)])
  }

  predicate Expired(slot: Slot, now: Timespec) { slot.fd >= 0 && PastDeadline(now, slot.deadline) }

  /** `clients_purge()` from slot `i` on. */
  function PurgeFrom(s: State, i: nat, now: Timespec): (p: State)
    requires i <= |s.slots|
    ensures |p.slots| == |s.slots|
    decreases |s.slots| - i
  {
    if i == |s.slots| then s
    else PurgeFrom(if Expired(s.slots[i], now) then Close(s, s.slots[i].fd, Purged) else s, i + 1, now)
  }

  /** `client_new()`: the first free slot, from scratch; nothing when there is none. */
  function NewClient(s: State, fd: int, now: Timespec, lifetime: int): State {
    var i := Find(s.slots, -1);
    if i == -1 then s
    else
      var slot := Slot(fd, 0, 0, Zeroes(SIZE), Timespec(now.sec + lifetime, now.nsec), []);
      s.(slots := s.slots[i := slot], opens := s.opens + 1)
  }

  /** What `accept()`, `nonblocking()` and `epoll_ctl()` come to. */
  datatype AcceptOutcome =
    | Taken(fd: int, queue: seq<byte>, eof: bool)
    | NoneLeft
    | AcceptFailed
    | SetupFailed(fd: int)

  /** Registering a descriptor that is already readable is an edge. */
  function Admit(s: State, fd: int, queue: seq<byte>, eof: bool): State {
    s.(conns := s.conns[fd := Conn(s.nextSid, [], queue, eof, queue != [] || eof)], nextSid := s.nextSid + 1)
  }

  /** `net_accept()`; the clock is read once for the purge and again for a new client. */
  function NetAccept(s: State, now: Timespec, born: Timespec, lifetime: int, outcome: AcceptOutcome): State {
    var p := PurgeFrom(s, 0, now);
    match outcome
    case Taken(fd, queue, eof) => NewClient(Admit(p, fd, queue, eof), fd, born, lifetime)
    case NoneLeft => p
    case AcceptFailed => p
    case SetupFailed(_) => p
  }

  function Tag(sid: nat, pdus: seq<Pdu>): (t: seq<Entry>)
    ensures |t| == |pdus|
  {
    seq(|pdus|, i requires 0 <= i < |pdus| => Entry(sid, pdus[i]))
  }

  /** `recv_data()` on slot `i`, between two states. It consumes `got`, judges the frames that completes,
      submits those accepted, and stops in one of two ways: everything is read and the connection goes on,
      or the connection is over. */
  ghost predicate ReceivedAt(s: State, t: State, i: nat, later: Conn, got: seq<byte>, times: seq<nat>, results: seq<Pdu>) {
    && i < |s.slots| == |t.slots| && s.slots[i].fd in s.conns
    && var fd := s.slots[i].fd;
    var c := s.conns[fd];
    var slot, slot' := s.slots[i], t.slots[i];
    && Advanced(c, later, got)
    && SIZE * |slot.times| <= |c.taken|
    && SIZE * |times| <= |later.taken| < SIZE * |times| + SIZE
    && slot.times <= times
    && Decode(later.taken, times) == Decode(c.taken, slot.times) + results
    && t.log == s.log + Tag(c.sid, results)
    && t.slots == s.slots[i := slot']
    && slot'.deadline == slot.deadline
    && t.nextSid == s.nextSid && t.opens == s.opens
    && ((&& later.queue == [] && !later.eof
         && slot'.fd == fd && slot'.times == times
         && Framed(slot'.pdu, slot'.offset, slot'.bytes, later.taken, times)
         && t.conns == s.conns[fd := later] && t.past == s.past && t.closes == s.closes)
        || (exists end ::
         && slot'.fd == -1
         && (end == ByPeer || end == ByError) && (end == ByPeer ==> later.queue == [] && later.eof)
         && t.conns == s.conns - {fd}
         && t.past == s.past[c.sid := Session(later.taken, later.queue, times, end)]
         && t.closes == s.closes + 1))
  }

  /** `recv_data()`: nothing for a descriptor without a client. */
  ghost predicate Received(s: State, t: State, fd: int) {
    var i := Find(s.slots, fd);
    if i == -1 then t == s
    else exists later, got, times, results :: ReceivedAt(s, t, i, later, got, times, results)
  }
}
