/** `mainloop()` as a transition system: everything that can happen between two states of the server,
    and what holds in every state it can reach. */
module EventLoop {
  import opened Words
  import opened Kernel
  import opened ServerState
  import opened ServerInvariant

  const MAX_EVENTS: nat := 64

  /** One element of what `epoll_wait()` returned; `input` is the EPOLLIN flag. */
  datatype Event = Event(fd: int, input: bool)

  /** The server between two steps: the table and its connections, the rest of the current batch of
      events, whether the accept loop is running, and the state of the listening socket. */
  datatype World = World(s: State, batch: seq<Event>, accepting: bool, sock: int, backlog: nat, listening: bool)

  datatype Step =
    | Arrives(fd: int, data: seq<byte>, hangup: bool)
    | Edge(fd: int)
    | Connects
    | Waits(events: seq<Event>)
    | TurnsToListener
    | Accepts(now: Timespec, born: Timespec, lifetime: int, outcome: AcceptOutcome)
    | ReceivesData
    | HandlesOther

  predicate InBatch(batch: seq<Event>, fd: int) { exists k :: 0 <= k < |batch| && batch[k].fd == fd }

  /** An event `epoll_wait()` may report: an edge is pending, and what can be read is flagged. */
  predicate Reportable(conns: map<int, Conn>, sock: int, listening: bool, e: Event) {
    if e.fd == sock then listening
    else e.fd in conns && conns[e.fd].ready && (conns[e.fd].queue != [] || conns[e.fd].eof ==> e.input)
  }

  /** Reporting an edge takes it. */
  function Reported(conns: map<int, Conn>, events: seq<Event>): map<int, Conn> {
    map fd | fd in conns :: if InBatch(events, fd) then conns[fd].(ready := false) else conns[fd]
  }

  ghost predicate Next(w: World, v: World, step: Step) {
    match step
    case Arrives(fd, data, hangup) =>
      fd in w.s.conns && v == w.(s := w.s.(conns := w.s.conns[fd := Deliver(w.s.conns[fd], data, hangup)]))
    case Edge(fd) =>
      fd in w.s.conns && v == w.(s := w.s.(conns := w.s.conns[fd := w.s.conns[fd].(ready := true)]))
    case Connects =>
      v == w.(backlog := w.backlog + 1, listening := true)
    case Waits(events) =>
      && w.batch == [] && !w.accepting && |events| <= MAX_EVENTS
      && (forall k :: 0 <= k < |events| ==> Reportable(w.s.conns, w.sock, w.listening, events[k]))
      && v == w.(batch := events, s := w.s.(conns := Reported(w.s.conns, events)),
                 listening := w.listening && !InBatch(events, w.sock))
    case TurnsToListener =>
      !w.accepting && w.batch != [] && w.batch[0].fd == w.sock && v == w.(batch := w.batch[1..], accepting := true)
    case Accepts(now, born, lifetime, outcome) =>
      && w.accepting && Possible(PurgeFrom(w.s, 0, now), outcome)
      && (outcome.Taken? || outcome.SetupFailed? ==> outcome.fd != w.sock)
      && (if outcome.Taken? || outcome.SetupFailed? then w.backlog > 0 && v.backlog == w.backlog - 1
          else v.backlog == w.backlog)
      && (outcome.NoneLeft? ==> w.backlog == 0)
      && v == w.(s := NetAccept(w.s, now, born, lifetime, outcome), accepting := outcome.Taken?, backlog := v.backlog)
    case ReceivesData =>
      && !w.accepting && w.batch != [] && w.batch[0].fd != w.sock && w.batch[0].input
      && Received(w.s, v.s, w.batch[0].fd)
      && v == w.(s := v.s, batch := w.batch[1..])
    case HandlesOther =>
      && !w.accepting && w.batch != [] && w.batch[0].fd != w.sock && !w.batch[0].input
      && v == w.(s := Close(w.s, w.batch[0].fd, ByEvent), batch := w.batch[1..])
  }

  /** A client with something to read will be turned to: its edge is pending or in the current batch. */
  ghost predicate Awake(w: World) {
    forall i :: 0 <= i < |w.s.slots| && w.s.slots[i].fd in w.s.conns ==> ConnAwake(w, w.s.slots[i].fd)
  }

  ghost predicate ConnAwake(w: World, fd: int)
    requires fd in w.s.conns
  {
    w.s.conns[fd].queue != [] || w.s.conns[fd].eof ==> w.s.conns[fd].ready || InBatch(w.batch, fd)
  }

  ghost predicate WorldInv(w: World) {
    && Inv(w.s) && w.sock >= 0 && w.sock !in w.s.conns && Awake(w)
    && forall k :: 0 <= k < |w.batch| ==> w.batch[k].fd >= 0
  }

  // ----- each step keeps the invariant

  /** Clients stay as awake as they were while no descriptor, no edge of theirs and no event is lost. */
  lemma StillAwake(w: World, v: World)
    requires Awake(w) && v.s.slots == w.s.slots && v.s.conns.Keys == w.s.conns.Keys
    requires forall fd :: fd in v.s.conns ==> KeptAwake(w, v, fd)
    ensures Awake(v)
  {
    forall i | 0 <= i < |v.s.slots| && v.s.slots[i].fd in v.s.conns ensures ConnAwake(v, v.s.slots[i].fd) {
      var fd := v.s.slots[i].fd;
      assert fd in w.s.conns && ConnAwake(w, w.s.slots[i].fd);
      assert KeptAwake(w, v, fd);
    }
  }

  ghost predicate KeptAwake(w: World, v: World, fd: int) {
    fd in w.s.conns && fd in v.s.conns && (ConnAwake(w, fd) ==> ConnAwake(v, fd))
  }

  /** One connection changes; what was read of it does not. */
  lemma TouchKeeps(w: World, v: World, fd: int, c: Conn)
    requires WorldInv(w) && fd in w.s.conns && v == w.(s := w.s.(conns := w.s.conns[fd := c]))
    requires c.sid == w.s.conns[fd].sid && c.taken == w.s.conns[fd].taken
    requires c.ready || c == w.s.conns[fd]
    ensures WorldInv(v)
  {
    assert v.s.conns.Keys == w.s.conns.Keys;
    SameTakenKeepsInv(w.s, v.s);
    forall gd | gd in v.s.conns ensures KeptAwake(w, v, gd) {}
    StillAwake(w, v);
  }

  lemma DeliverReady(c: Conn, data: seq<byte>, hangup: bool)
    ensures var d := Deliver(c, data, hangup);
            d.sid == c.sid && d.taken == c.taken && (d.ready || d == c)
  {
    if data == [] { assert c.queue + data == c.queue; }
  }

  lemma WaitKeeps(w: World, v: World, events: seq<Event>)
    requires WorldInv(w) && Next(w, v, Waits(events))
    ensures WorldInv(v)
  {
    forall k | 0 <= k < |v.batch| ensures v.batch[k].fd >= 0 {
      assert Reportable(w.s.conns, w.sock, w.listening, events[k]);
      if events[k].fd != w.sock { assert ConnOk(w.s, events[k].fd); }
    }
    assert v.s.conns.Keys == w.s.conns.Keys;
    SameTakenKeepsInv(w.s, v.s);
    forall fd | fd in v.s.conns ensures KeptAwake(w, v, fd) {}
    StillAwake(w, v);
  }

  lemma AcceptKeeps(w: World, v: World, now: Timespec, born: Timespec, lifetime: int, outcome: AcceptOutcome)
    requires WorldInv(w) && Next(w, v, Accepts(now, born, lifetime, outcome))
    ensures WorldInv(v)
  {
    NetAcceptKeepsInv(w.s, now, born, lifetime, outcome);
    PurgeExact(w.s, 0, now);
    var p := PurgeFrom(w.s, 0, now);
    forall i | 0 <= i < |v.s.slots| && v.s.slots[i].fd in v.s.conns ensures ConnAwake(v, v.s.slots[i].fd) {
      var fd := v.s.slots[i].fd;
      if !(outcome.Taken? && fd == outcome.fd) {
        assert v.s.slots[i] == p.slots[i];
        if p.slots[i].fd != -1 { assert w.s.slots[i].fd == fd && ConnAwake(w, fd); }
      }
    }
  }

  lemma CloseKeeps(w: World, v: World)
    requires WorldInv(w) && Next(w, v, HandlesOther)
    ensures WorldInv(v)
  {
    CloseKeepsInv(w.s, w.batch[0].fd, ByEvent);
    CloseTouches(w.s, w.batch[0].fd, ByEvent);
    OthersAwake(w, v, w.batch[0].fd);
  }

  /** Only one descriptor is touched, and no client on it has anything left to read. */
  ghost predicate Touches(s: State, t: State, fd: int) {
    && |t.slots| == |s.slots|
    && (forall k :: 0 <= k < |t.slots| && t.slots[k].fd in t.conns && t.slots[k].fd != fd ==> SameClient(s, t, k))
    && (fd in t.conns && (t.conns[fd].queue != [] || t.conns[fd].eof) ==>
          (forall k :: 0 <= k < |t.slots| ==> t.slots[k].fd != fd))
  }

  ghost predicate SameClient(s: State, t: State, k: nat) {
    k < |s.slots| && k < |t.slots| && t.slots[k].fd == s.slots[k].fd
    && t.slots[k].fd in s.conns && t.slots[k].fd in t.conns && t.conns[t.slots[k].fd] == s.conns[t.slots[k].fd]
  }

  lemma CloseTouches(s: State, fd: int, end: End)
    requires Inv(s)
    ensures Touches(s, Close(s, fd, end), fd)
  {
    var i := Find(s.slots, fd);
    if i >= 0 && fd !in s.conns {
      assert SlotOk(s, i);
    }
  }

  lemma ReceivedTouches(s: State, t: State, fd: int)
    requires Inv(s) && Received(s, t, fd)
    ensures Touches(s, t, fd)
  {
    var i := Find(s.slots, fd);
    if i >= 0 {
      var later, got, times, results :| ReceivedAt(s, t, i, later, got, times, results);
      assert t.slots == s.slots[i := t.slots[i]];
    }
  }

  /** Working off one event leaves every other client as awake as it was. */
  lemma OthersAwake(w: World, v: World, fd: int)
    requires Awake(w) && w.batch != [] && w.batch[0].fd == fd && v.batch == w.batch[1..]
    requires Touches(w.s, v.s, fd)
    ensures Awake(v)
  {
    forall k | 0 <= k < |v.s.slots| && v.s.slots[k].fd in v.s.conns ensures ConnAwake(v, v.s.slots[k].fd) {
      var gd := v.s.slots[k].fd;
      if gd != fd {
        assert SameClient(w.s, v.s, k);
        assert ConnAwake(w, gd);
        if InBatch(w.batch, gd) {
          var b :| 0 <= b < |w.batch| && w.batch[b].fd == gd;
          assert v.batch[b - 1].fd == gd;
        }
      }
    }
  }

  lemma ReceiveKeeps(w: World, v: World)
    requires WorldInv(w) && Next(w, v, ReceivesData)
    ensures WorldInv(v)
  {
    var fd := w.batch[0].fd;
    ReceivedTouches(w.s, v.s, fd);
    ReceivedInv(w.s, v.s, fd);
    OthersAwake(w, v, fd);
  }

  lemma ReceivedInv(s: State, t: State, fd: int)
    requires Inv(s) && Received(s, t, fd) && fd >= 0
    ensures Inv(t) && (forall gd :: gd in t.conns ==> gd in s.conns)
  {
    var i := Find(s.slots, fd);
    if i >= 0 {
      var later, got, times, results :| ReceivedAt(s, t, i, later, got, times, results);
      ReceivedKeepsInv(s, t, i, later, got, times, results);
    }
  }

  /** A step that concerns only the listening socket. */
  lemma QuietStepKeeps(w: World, v: World)
    requires WorldInv(w) && v.s == w.s && v.sock == w.sock
    requires v.batch == w.batch || (w.batch != [] && w.batch[0].fd == w.sock && v.batch == w.batch[1..])
    ensures WorldInv(v)
  {
    forall fd | fd in v.s.conns ensures KeptAwake(w, v, fd) {
      if v.batch != w.batch && InBatch(w.batch, fd) {
        var k :| 0 <= k < |w.batch| && w.batch[k].fd == fd;
        assert v.batch[k - 1].fd == fd;
      }
    }
    StillAwake(w, v);
  }

  lemma NextKeepsInv(w: World, v: World, step: Step)
    requires WorldInv(w) && Next(w, v, step)
    ensures WorldInv(v)
  {
    match step
    case Arrives(fd, data, hangup) =>
      DeliverReady(w.s.conns[fd], data, hangup);
      TouchKeeps(w, v, fd, Deliver(w.s.conns[fd], data, hangup));
    case Edge(fd) => TouchKeeps(w, v, fd, w.s.conns[fd].(ready := true));
    case Connects => QuietStepKeeps(w, v);
    case TurnsToListener => QuietStepKeeps(w, v);
    case Waits(events) => WaitKeeps(w, v, events);
    case Accepts(now, born, lifetime, outcome) => AcceptKeeps(w, v, now, born, lifetime, outcome);
    case ReceivesData => ReceiveKeeps(w, v);
    case HandlesOther => CloseKeeps(w, v);
  }

  // ----- runs

  /** After `client_init(n)`, before anything has happened. */
  ghost predicate Init(w: World) {
    && (forall i :: 0 <= i < |w.s.slots| ==> w.s.slots[i].fd == -1)
    && w.s.conns == map[] && w.s.past == map[] && w.s.nextSid == 0 && w.s.log == []
    && w.s.opens == w.s.closes == 0
    && w.batch == [] && !w.accepting && w.sock >= 0 && w.backlog == 0 && !w.listening
  }

  ghost predicate IsRun(ws: seq<World>, steps: seq<Step>) {
    && |ws| == |steps| + 1 && Init(ws[0])
    && forall k :: 0 <= k < |steps| ==> Next(ws[k], ws[k + 1], steps[k])
  }

  lemma {:induction false} NoneLive(slots: seq<Slot>)
    requires forall i :: 0 <= i < |slots| ==> slots[i].fd == -1
    ensures LiveCount(slots) == 0
  {
    if slots != [] { NoneLive(slots[1..]); }
  }

  lemma {:induction false} RunKeepsInv(ws: seq<World>, steps: seq<Step>, n: nat)
    requires IsRun(ws, steps) && n < |ws|
    ensures WorldInv(ws[n])
  {
    if n == 0 {
      NoneLive(ws[0].s.slots);
    } else {
      RunKeepsInv(ws, steps, n - 1);
      NextKeepsInv(ws[n - 1], ws[n], steps[n - 1]);
    }
  }
}
