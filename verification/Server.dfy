/** The server of iris.c: the `CLIENTS` array and the functions that work on it in place. */
module Server {
  import opened Words
  import opened Text
  import opened CrcTable
  import opened Frames
  import opened Reassembly
  import opened Kernel
  import opened ServerState
  import opened ServerInvariant
  import opened Receiving

  /** `struct client`; the ghost field records when its frames were judged. */
  class Client {
    var fd: int
    var offset: int
    var bytes: int
    var deadline: Timespec
    const pdu: array<byte>
    ghost var times: seq<nat>

    constructor ()
      ensures fresh(pdu) && pdu.Length == SIZE
    {
      fd, offset, bytes, deadline, times := 0, 0, 0, Timespec(0, 0), [];
      pdu := new byte[SIZE](_ => 0);
    }

    ghost function Slot(): Slot
      reads this, pdu
    {
      ServerState.Slot.Slot(fd, offset, bytes, pdu[..], deadline, times)
    }

    /** The slot as `client_new()` leaves it. */
    method Start(fd: int, deadline: Timespec)
      requires pdu.Length == SIZE
      modifies this, pdu
      ensures Slot() == ServerState.Slot.Slot(fd, 0, 0, Zeroes(SIZE), deadline, [])
    {
      this.fd := fd;
      offset := 0;
      bytes := 0;
      ZeroFill(pdu);
      this.deadline := deadline;
      times := [];
    }
  }

  /** The listening socket: how many connections wait, whether an edge is pending for it, and what the
      kernel answers next. */
  class Listener {
    const sock: int
    var backlog: nat
    var listening: bool
    var script: seq<AcceptOutcome>

    constructor (sock: int, script: seq<AcceptOutcome>)
      ensures this.sock == sock && this.script == script && backlog == 0 && !listening
    {
      this.sock, this.script, backlog, listening := sock, script, 0, false;
    }

    /** What `accept()` and the set-up of the new socket come to. A new descriptor is never one that is open. */
    function Answer(conns: map<int, Conn>): AcceptOutcome
      reads this
    {
      if backlog == 0 then NoneLeft
      else if script == [] || !(script[0].Taken? || script[0].SetupFailed?) then AcceptFailed
      else if script[0].fd < 0 || script[0].fd in conns || script[0].fd == sock then AcceptFailed
      else script[0]
    }

    method Accept(conns: map<int, Conn>) returns (outcome: AcceptOutcome)
      modifies this`backlog, this`script
      ensures outcome == old(Answer(conns))
      ensures outcome.NoneLeft? ==> old(backlog) == 0
      ensures outcome.Taken? || outcome.SetupFailed? ==>
                outcome.fd >= 0 && outcome.fd !in conns && outcome.fd != sock
                && old(backlog) > 0 && backlog == old(backlog) - 1
      ensures outcome.NoneLeft? || outcome.AcceptFailed? ==> backlog == old(backlog)
    {
      outcome := Answer(conns);
      if backlog > 0 && script != [] { script := script[1..]; }
      if outcome.Taken? || outcome.SetupFailed? { backlog := backlog - 1; }
    }
  }

  /** Clients and their buffers are all separate. */
  predicate Unshared(clients: seq<Client>) {
    && (forall i, j :: 0 <= i < j < |clients| ==> clients[i] != clients[j] && clients[i].pdu != clients[j].pdu)
    && (forall i :: 0 <= i < |clients| ==> clients[i].pdu.Length == SIZE)
  }

  /** `client_init()`: so many slots, all free. */
  method ClientInit(n: nat) returns (clients: seq<Client>)
    ensures |clients| == n && Unshared(clients)
    ensures forall i :: 0 <= i < n ==> fresh(clients[i]) && fresh(clients[i].pdu) && clients[i].fd == -1
  {
    clients := [];
    for i := 0 to n
      invariant |clients| == i && Unshared(clients)
      invariant forall k :: 0 <= k < i ==> fresh(clients[k]) && fresh(clients[k].pdu)
    {
      var c := new Client();
      clients := clients + [c];
    }
    for i := 0 to n
      invariant forall k :: 0 <= k < i ==> clients[k].fd == -1
    {
      clients[i].fd := -1;
    }
  }

  class Server {
    const clients: seq<Client>
    const kernel: Sockets
    const table: Table
    const order: Order
    ghost const buffers: set<object>
    ghost var past: map<nat, Session>
    var nextSid: nat
    ghost var log: seq<Entry>
    ghost var opens: nat
    ghost var closes: nat

    ghost predicate Separate() {
      && Unshared(clients) && (forall i :: 0 <= i < |clients| ==> clients[i].pdu in buffers)
      && {this, kernel, table, table.entries} !! buffers && (forall i :: 0 <= i < |clients| ==> clients[i] !in buffers)
    }

    ghost predicate Valid()
      reads table, table.entries
    {
      Separate() && (table.Blank() || table.Filled())
    }

    ghost function Slots(): (s: seq<Slot>)
      requires Separate()
      reads clients, buffers
      ensures |s| == |clients| && forall i :: 0 <= i < |s| ==> s[i] == clients[i].Slot()
    {
      SlotsUpTo(|clients|)
    }

    ghost function SlotsUpTo(n: nat): (s: seq<Slot>)
      requires Separate() && n <= |clients|
      reads clients, buffers
      ensures |s| == n && forall i :: 0 <= i < n ==> s[i] == clients[i].Slot()
    {
      if n == 0 then [] else SlotsUpTo(n - 1) + [clients[n - 1].Slot()]
    }

    ghost function St(): State
      requires Separate()
      reads this, kernel, clients, buffers
    {
      State(Slots(), kernel.conns, past, nextSid, log, opens, closes)
    }

    /** A server with the slots `client_init()` made. */
    constructor (clients: seq<Client>, kernel: Sockets, table: Table, order: Order)
      requires Unshared(clients) && forall i :: 0 <= i < |clients| ==> clients[i].fd == -1
      requires forall i :: 0 <= i < |clients| ==> table.entries as object != clients[i].pdu
      requires kernel.conns == map[] && table.Blank()
      ensures Valid() && this.clients == clients && this.kernel == kernel && this.table == table
      ensures forall b :: b in buffers ==> exists i :: 0 <= i < |clients| && b == clients[i].pdu
      ensures log == [] && past == map[] && nextSid == opens == closes == 0
      ensures forall i :: 0 <= i < |clients| ==> clients[i].fd == -1
    {
      this.clients, this.kernel, this.table, this.order := clients, kernel, table, order;
      buffers := set i | 0 <= i < |clients| :: clients[i].pdu;
      past, nextSid, log, opens, closes := map[], 0, [], 0, 0;
    }

    /** When the memory of one client was written, only its slot is different. */
    twostate lemma OneSlotChanged(i: nat)
      requires Separate() && i < |clients|
      requires forall k :: 0 <= k < |clients| && k != i ==> unchanged(clients[k]) && unchanged(clients[k].pdu)
      ensures Slots() == old(Slots())[i := clients[i].Slot()]
    {
      forall k | 0 <= k < |clients| ensures Slots()[k] == old(Slots())[i := clients[i].Slot()][k] {
        if k != i { assert clients[k].Slot() == old(clients[k].Slot()); }
      }
    }

    /** `client_find()`. */
    method ClientFind(fd: int) returns (i: int)
      requires Separate()
      ensures i == Find(Slots(), fd)
    {
      i := 0;
      while i < |clients|
        invariant 0 <= i <= |clients|
        invariant forall k :: 0 <= k < i ==> clients[k].fd != fd
      {
        if clients[i].fd == fd {
          FindIs(Slots(), fd, i);
          return i;
        }
        i := i + 1;
      }
      FindIs(Slots(), fd, -1);
      return -1;
    }

    /** `client_new()`. */
    method ClientNew(fd: int, now: Timespec, lifetime: int) returns (i: int)
      requires Separate()
      modifies clients, buffers, `opens
      ensures i == Find(old(Slots()), -1)
      ensures St() == NewClient(old(St()), fd, now, lifetime)
    {
      ghost var s := St();
      i := ClientFind(-1);
      if i == -1 {
        return;
      }
      opens := opens + 1;
      FillSlot(i, fd, now.(sec := now.sec + lifetime));
      AddedState(s, St(), fd, now, lifetime, i);
    }

    method FillSlot(i: nat, fd: int, deadline: Timespec)
      requires Separate() && i < |clients|
      modifies clients[i], clients[i].pdu
      ensures Slots() == old(Slots())[i := ServerState.Slot.Slot(fd, 0, 0, Zeroes(SIZE), deadline, [])]
    {
      clients[i].Start(fd, deadline);
      OneSlotChanged(i);
    }

    method FreeSlot(i: nat)
      requires Separate() && i < |clients|
      modifies clients[i]
      ensures Slots() == old(Slots())[i := old(Slots())[i].(fd := -1)]
    {
      clients[i].fd := -1;
      OneSlotChanged(i);
    }

    /** `close()`: the connection is history; nothing happens to a descriptor that is not open. */
    method CloseDescriptor(fd: int, ghost times: seq<nat>, ghost end: End)
      modifies kernel`conns, `past, `closes
      ensures if fd in old(kernel.conns) then
                var c := old(kernel.conns[fd]);
                && kernel.conns == old(kernel.conns) - {fd}
                && past == old(past)[c.sid := Session(c.taken, c.queue, times, end)] && closes == old(closes) + 1
              else kernel.conns == old(kernel.conns) && past == old(past) && closes == old(closes)
    {
      if fd in kernel.conns {
        ghost var c := kernel.conns[fd];
        past := past[c.sid := Session(c.taken, c.queue, times, end)];
        closes := closes + 1;
        kernel.conns := kernel.conns - {fd};
      }
    }

    /** `client_close()`: the slot is free again, the descriptor closed. */
    method ClientClose(fd: int, ghost end: End)
      requires Separate()
      modifies clients, kernel`conns, `past, `closes
      ensures St() == Close(old(St()), fd, end)
    {
      ghost var s := St();
      var i := ClientFind(fd);
      if i >= 0 {
        ghost var times := clients[i].times;
        FreeSlot(i);
        CloseDescriptor(fd, times, end);
        ClosedState(s, St(), fd, i, end);
      }
    }

    /** `clients_purge()`. */
    method ClientsPurge(now: Timespec)
      requires Separate()
      modifies clients, kernel`conns, `past, `closes
      ensures St() == PurgeFrom(old(St()), 0, now)
    {
      ghost var s := St();
      var i := 0;
      while i < |clients|
        invariant 0 <= i <= |clients|
        invariant PurgeFrom(St(), i, now) == PurgeFrom(s, 0, now)
      {
        var c := clients[i];
        if c.fd >= 0 && PastDeadline(now, c.deadline) {
          ClientClose(c.fd, Purged);
        }
        i := i + 1;
      }
    }

    /** `net_accept()`: purge, accept, and a client for the connection if there is room. */
    method NetAccept(listener: Listener, now: Timespec, born: Timespec, lifetime: int)
      returns (fd: int, outcome: AcceptOutcome)
      requires Separate() && listener !in buffers
      modifies clients, buffers, kernel`conns, `past, `closes, `opens, `nextSid, listener`backlog, listener`script
      ensures outcome == old(listener.Answer(PurgeFrom(St(), 0, now).conns))
      ensures var p := PurgeFrom(old(St()), 0, now);
              Possible(p, outcome) && (outcome.Taken? || outcome.SetupFailed? ==> outcome.fd != listener.sock)
      ensures St() == ServerState.NetAccept(old(St()), now, born, lifetime, outcome)
      ensures fd == if outcome.Taken? then outcome.fd else -1
      ensures outcome.NoneLeft? ==> old(listener.backlog) == 0
      ensures if outcome.Taken? || outcome.SetupFailed? then
                old(listener.backlog) > 0 && listener.backlog == old(listener.backlog) - 1
              else listener.backlog == old(listener.backlog)
    {
      ClientsPurge(now);
      ghost var p := St();
      outcome := listener.Accept(kernel.conns);
      assert St() == p;
      if !outcome.Taken? {
        return -1, outcome;
      }
      fd := outcome.fd;
      EpollAdd(fd, outcome.queue, outcome.eof);
      var i := ClientNew(fd, born, lifetime);
    }

    /** Registering the new connection for edge-triggered events. */
    method EpollAdd(fd: int, queue: seq<byte>, eof: bool)
      requires Separate()
      modifies kernel`conns, `nextSid
      ensures St() == Admit(old(St()), fd, queue, eof)
    {
      ghost var t := Admit(St(), fd, queue, eof);
      kernel.conns := kernel.conns[fd := Conn(nextSid, [], queue, eof, queue != [] || eof)];
      nextSid := nextSid + 1;
      assert Slots() == t.slots;
    }

    /** A complete frame: unpacked in place, submitted if it is good, and the buffer cleared. */
    method JudgeFrame(c: Client, ghost sid: nat) returns (ghost now: nat)
      requires Valid() && c in clients
      modifies c`times, c.pdu, kernel`clock, table.entries, `log
      ensures Valid() && c.pdu[..] == Zeroes(SIZE)
      ensures now == Sockets.Tick(old(kernel.clock)) && kernel.clock == Sockets.Ticked(old(kernel.clock))
      ensures c.times == old(c.times) + [now]
      ensures log == old(log) + Tag(sid, Judge(now, old(c.pdu[..])))
    {
      var t := kernel.Time();
      now := t;
      c.times := c.times + [t];
      Submit(c, sid, t);
      ZeroFill(c.pdu);
    }

    /** The frame unpacked, and submitted if that succeeds. */
    method Submit(c: Client, ghost sid: nat, now: nat)
      requires Valid() && c in clients
      modifies c.pdu, table.entries, `log
      ensures Valid() && log == old(log) + Tag(sid, Judge(now, old(c.pdu[..])))
    {
      ghost var frame: Memory := c.pdu[..];
      var status := PduUnpack(table, c.pdu, order, now);
      if status == 0 {
        ViewOfImage(order, View(Big, frame));
        log := log + [Entry(sid, View(order, c.pdu[..]))];
      }
    }

    /** In the middle of `recv_data()` on slot `i`, started in state `s`. */
    ghost predicate Midst(i: nat, s: State, got: seq<byte>, results: seq<Pdu>)
      requires Separate()
      reads this, kernel, clients, buffers
    {
      && i < |clients| && clients[i].fd in kernel.conns
      && Underway(s, i, clients[i].Slot(), kernel.conns[clients[i].fd], got, results)
      && St() == Midway(s, i, clients[i].Slot(), kernel.conns[clients[i].fd], results)
    }

    /** Behind a read in the middle of `recv_data()`: `slot` and `conn` are from before it, `more` was read. */
    ghost predicate HasRead(i: nat, s: State, slot: Slot, conn: Conn, got: seq<byte>, results: seq<Pdu>,
                            len: int, errno: Errno, more: seq<byte>)
      requires Separate()
      reads this, kernel, clients, buffers
    {
      && i < |clients| && clients[i].fd in kernel.conns
      && Underway(s, i, slot, conn, got, results)
      && ReadUntil(conn, kernel.conns[clients[i].fd], more, SIZE - slot.offset, errno)
      && len == (if errno == Failure then -1 else |more|)
      && clients[i].Slot() == slot.(pdu := Patch(slot.pdu, slot.offset, more))
      && St() == Midway(s, i, clients[i].Slot(), kernel.conns[clients[i].fd], results)
    }

    /** The first half of a turn of the loop: reading behind the unfinished frame. */
    method ReadMore(i: nat, ghost s: State, ghost got: seq<byte>, ghost results: seq<Pdu>)
      returns (len: int, errno: Errno, ghost more: seq<byte>)
      requires Valid() && Midst(i, s, got, results)
      modifies clients[i].pdu, kernel`conns, kernel`script, kernel`failures
      ensures kernel.failures == old(kernel.failures) + if errno == Failure then 1 else 0
      ensures Valid() && HasRead(i, s, old(clients[i].Slot()), old(kernel.conns[clients[i].fd]), got, results,
                                 len, errno, more)
      ensures more != [] ==> Nearer(old(kernel.script), old(kernel.conns[clients[i].fd]),
                                    kernel.script, kernel.conns[clients[i].fd])
    {
      var c := clients[i];
      len, errno, more := kernel.PduRead(c.fd, c.pdu, c.offset);
      OneSlotChanged(i);
      assert Slots() == s.slots[i := c.Slot()];
    }

    /** The second half: the bytes read are counted, and a complete frame is judged. */
    method Count(c: Client, len: nat, ghost sid: nat) returns (ghost now: nat)
      requires Valid() && c in clients && 0 <= c.offset <= c.offset + len <= SIZE
      modifies c, c.pdu, kernel`clock, table.entries, `log
      ensures Valid()
      ensures c.Slot() == Counted(old(c.Slot()), len, now)
      ensures log == old(log) + Tag(sid, Reported(old(c.Slot()), len, now))
    {
      ghost var before := c.Slot();
      now := 0;
      c.offset := c.offset + len;
      c.bytes := c.bytes + len;
      if c.offset >= SIZE {
        c.offset := 0;
        now := JudgeFrame(c, sid);
      }
      CountedIs(before, c.Slot(), len, now);
    }

    method Account(i: nat, len: nat, ghost sid: nat) returns (ghost now: nat)
      requires Valid() && i < |clients| && 0 <= clients[i].offset <= clients[i].offset + len <= SIZE
      modifies clients[i], clients[i].pdu, kernel`clock, table.entries, `log
      ensures Valid()
      ensures clients[i].Slot() == Counted(old(clients[i].Slot()), len, now)
      ensures St() == old(St()).(slots := old(Slots())[i := clients[i].Slot()],
                                 log := old(log) + Tag(sid, Reported(old(clients[i].Slot()), len, now)))
    {
      now := Count(clients[i], len, sid);
      OneSlotChanged(i);
    }

    /** A read that brought nothing: done for now, or done for good. */
    method Leave(i: nat, len: int, errno: Errno, ghost s: State, ghost slot: Slot, ghost conn: Conn, ghost got: seq<byte>,
                 ghost results: seq<Pdu>, ghost more: seq<byte>)
      requires Valid() && HasRead(i, s, slot, conn, got, results, len, errno, more) && len <= 0
      requires Find(s.slots, slot.fd) == i
      modifies clients, kernel`conns, `past, `closes
      ensures Over(s, St(), old(clients[i].fd), errno == Failure)
    {
      ghost var after, next := clients[i].Slot(), kernel.conns[clients[i].fd];
      if errno == Again {
        DriedUp(s, i, slot, conn, got, results, more, next, after);
      } else {
        ghost var end := if len == 0 then ByPeer else ByError;
        StillThere(s, i, after, next, results);
        ClientClose(clients[i].fd, end);
        GoneFor(s, i, slot, conn, got, results, more, next, after, end);
      }
    }

    /** One turn of the loop of `recv_data()`, started on slot `i` in state `s`. */
    method Turn(i: nat, ghost s: State, ghost got: seq<byte>, ghost results: seq<Pdu>)
      returns (done: bool, ghost got': seq<byte>, ghost results': seq<Pdu>)
      requires Valid() && Midst(i, s, got, results) && Find(s.slots, clients[i].fd) == i
      modifies clients, buffers, kernel, table.entries, `past, `closes, `log
      ensures Valid()
      ensures done ==> Over(s, St(), old(clients[i].fd), kernel.failures > old(kernel.failures))
      ensures !done ==> kernel.failures == old(kernel.failures)
      ensures !done ==> clients[i].fd == old(clients[i].fd) && Midst(i, s, got', results')
      ensures !done ==> Nearer(old(kernel.script), old(kernel.conns[clients[i].fd]),
                               kernel.script, kernel.conns[clients[i].fd])
    {
      ghost var slot, conn := clients[i].Slot(), kernel.conns[clients[i].fd];
      var len, errno, more := ReadMore(i, s, got, results);
      got', results' := got, results;
      if len <= 0 {
        done := true;
        Leave(i, len, errno, s, slot, conn, got, results, more);
        return;
      }
      done := false;
      got' := got + more;
      results' := Absorb(i, len, errno, s, slot, conn, got, results, more);
    }

    /** A read that brought something. */
    method Absorb(i: nat, len: nat, errno: Errno, ghost s: State, ghost slot: Slot, ghost conn: Conn, ghost got: seq<byte>,
                  ghost results: seq<Pdu>, ghost more: seq<byte>) returns (ghost results': seq<Pdu>)
      requires Valid() && HasRead(i, s, slot, conn, got, results, len, errno, more)
      modifies clients[i], clients[i].pdu, kernel`clock, table.entries, `log
      ensures Valid() && clients[i].fd == old(clients[i].fd)
      ensures Midst(i, s, got + more, results')
    {
      ghost var next := kernel.conns[clients[i].fd];
      ghost var filled := clients[i].Slot();
      ghost var now := Account(i, len, next.sid);
      Counts(s, i, slot, conn, got, results, more, next, now);
      results' := results + Reported(filled, len, now);
    }

    /** `recv_data()`: reads, frame by frame, until nothing is left or the connection is over. */
    method RecvData(fd: int) returns (rc: int)
      requires Valid() && ClientReady(St(), fd)
      modifies clients, buffers, kernel, table.entries, `past, `closes, `log
      ensures Valid() && rc == 0
      ensures Received(old(St()), St(), fd)
      ensures kernel.failures > old(kernel.failures) <==> Broken(old(St()), St(), fd)
    {
      ghost var s := St();
      rc := 0;
      var i := ClientFind(fd);
      if i == -1 {
        return;
      }
      Begin(s, i);
      ghost var got, results: seq<Pdu> := [], [];
      var done := false;
      while !done
        invariant Valid()
        invariant !done ==> clients[i].fd == fd && Midst(i, s, got, results)
        invariant done ==> Over(s, St(), fd, kernel.failures > old(kernel.failures))
        invariant !done ==> kernel.failures == old(kernel.failures)
        decreases !done, |kernel.script|, if fd in kernel.conns then |kernel.conns[fd].queue| else 0
      {
        done, got, results := Turn(i, s, got, results);
      }
    }
  }

  /** The connection of a client ended on a read error. */
  ghost predicate Broken(s: State, t: State, fd: int) {
    && Find(s.slots, fd) != -1 && fd in s.conns && fd !in t.conns
    && s.conns[fd].sid in t.past && t.past[s.conns[fd].sid].end == ByError
  }

  /** Nearer to the end: less of the script is left, or, when there is none, less of what has arrived. */
  predicate Nearer(script: seq<ReadEvent>, c: Conn, script': seq<ReadEvent>, c': Conn) {
    if script == [] then script' == [] && |c'.queue| < |c.queue| else |script'| < |script|
  }

  /** `recv_data()` is over, and it ended the connection on an error if and only if a read failed. */
  ghost predicate Over(s: State, t: State, fd: int, failed: bool) {
    Received(s, t, fd) && (failed <==> Broken(s, t, fd))
  }

  /** Everything is read and the connection stays. */
  lemma DriedUp(s: State, i: nat, slot: Slot, conn: Conn, got: seq<byte>, results: seq<Pdu>, more: seq<byte>,
                next: Conn, after: Slot)
    requires Underway(s, i, slot, conn, got, results) && Find(s.slots, slot.fd) == i
    requires ReadUntil(conn, next, more, SIZE - slot.offset, Again) && |more| == 0
    requires after == slot.(pdu := Patch(slot.pdu, slot.offset, more))
    ensures Over(s, Midway(s, i, after, next, results), slot.fd, false)
  {
    Partial(s, i, slot, conn, got, results, more, next);
    Drained(s, i, after, next, got + more, results);
  }

  /** The connection is over. */
  lemma GoneFor(s: State, i: nat, slot: Slot, conn: Conn, got: seq<byte>, results: seq<Pdu>, more: seq<byte>,
                next: Conn, after: Slot, end: End)
    requires Underway(s, i, slot, conn, got, results) && Find(s.slots, slot.fd) == i
    requires Advanced(conn, next, more) && slot.offset + |more| < SIZE
    requires (end == ByPeer || end == ByError) && (end == ByPeer ==> next.queue == [] && next.eof)
    requires after == slot.(pdu := Patch(slot.pdu, slot.offset, more))
    ensures Over(s, EndAt(Midway(s, i, after, next, results), i, end), slot.fd, end == ByError)
  {
    Ended(s, i, slot, conn, got, results, more, next, after, end);
    EndedSlots(s, i, after, next, results, end);
  }

  lemma CountedIs(slot: Slot, after: Slot, len: nat, now: nat)
    requires after.fd == slot.fd && after.deadline == slot.deadline && after.bytes == slot.bytes + len
    requires if slot.offset + len < SIZE then
               after.offset == slot.offset + len && after.pdu == slot.pdu && after.times == slot.times
             else after.offset == 0 && after.pdu == Zeroes(SIZE) && after.times == slot.times + [now]
    ensures after == Counted(slot, len, now)
  {
  }

  lemma StillThere(s: State, i: nat, slot: Slot, later: Conn, results: seq<Pdu>)
    requires i < |s.slots| && slot.fd == s.slots[i].fd && Find(s.slots, slot.fd) == i
    ensures Find(Midway(s, i, slot, later, results).slots, slot.fd) == i
    ensures slot.fd in Midway(s, i, slot, later, results).conns
  {
    FindIs(Midway(s, i, slot, later, results).slots, slot.fd, i);
  }

  /** A client in use is on an open connection, with its buffer in step. */
  ghost predicate ClientReady(s: State, fd: int) {
    var i := Find(s.slots, fd);
    i >= 0 ==> fd in s.conns
               && Framed(s.slots[i].pdu, s.slots[i].offset, s.slots[i].bytes, s.conns[fd].taken, s.slots[i].times)
  }

  lemma InvReady(s: State, fd: int)
    requires Inv(s) && fd != -1
    ensures ClientReady(s, fd)
  {
    var i := Find(s.slots, fd);
    if i >= 0 { assert SlotOk(s, i); }
  }

  /** A state whose slot is freed and whose descriptor is closed is the closed one. */
  lemma ClosedState(s: State, t: State, fd: int, i: nat, end: End)
    requires i == Find(s.slots, fd) && t.slots == s.slots[i := s.slots[i].(fd := -1)]
    requires if fd in s.conns then
               var c := s.conns[fd];
               && t.conns == s.conns - {fd} && t.closes == s.closes + 1
               && t.past == s.past[c.sid := Session(c.taken, c.queue, s.slots[i].times, end)]
             else t.conns == s.conns && t.past == s.past && t.closes == s.closes
    requires t.nextSid == s.nextSid && t.log == s.log && t.opens == s.opens
    ensures t == Close(s, fd, end)
  {
  }

  /** A state whose first free slot was started afresh has the new client. */
  lemma AddedState(s: State, t: State, fd: int, now: Timespec, lifetime: int, i: nat)
    requires i == Find(s.slots, -1) && t.opens == s.opens + 1
    requires t.slots == s.slots[i := Slot(fd, 0, 0, Zeroes(SIZE), Timespec(now.sec + lifetime, now.nsec), [])]
    requires t.conns == s.conns && t.past == s.past && t.closes == s.closes && t.nextSid == s.nextSid && t.log == s.log
    ensures t == NewClient(s, fd, now, lifetime)
  {
  }

  method ZeroFill(a: array<byte>)
    modifies a
    ensures a[..] == Zeroes(a.Length)
  {
    for i := 0 to a.Length
      invariant forall k :: 0 <= k < i ==> a[k] == 0
    {
      a[i] := 0;
    }
  }

  lemma FindIs(slots: seq<Slot>, fd: int, i: int)
    requires -1 <= i < |slots|
    requires i >= 0 ==> slots[i].fd == fd && forall k :: 0 <= k < i ==> slots[k].fd != fd
    requires i == -1 ==> forall k :: 0 <= k < |slots| ==> slots[k].fd != fd
    ensures Find(slots, fd) == i
  {
  }
}
