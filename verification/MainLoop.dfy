/** `mainloop()` of iris.c for one batch of events: what it does is a run of the transition system. */
module MainLoop {
  import opened Words
  import opened Frames
  import opened CrcTable
  import opened Kernel
  import opened ServerState
  import opened EventLoop
  import opened Server

  /** How many of some steps are an `epoll_wait()` that returns. */
  function WaitsIn(steps: seq<Step>): nat {
    if steps == [] then 0
    else WaitsIn(steps[..|steps| - 1]) + if steps[|steps| - 1].Waits? then 1 else 0
  }

  lemma {:induction false} WaitsAppend(a: seq<Step>, b: seq<Step>)
    ensures WaitsIn(a + b) == WaitsIn(a) + WaitsIn(b)
    decreases |b|
  {
    if b == [] {
      assert a + b == a;
    } else {
      var n := |b| - 1;
      WaitsAppend(a, b[..n]);
      assert (a + b)[..|a + b| - 1] == a + b[..n];
    }
  }

  /** `v` is reached from `w` by some steps, `k` of which wait for events. */
  ghost predicate Reaches(w: World, v: World, k: nat) {
    exists ws, steps :: Path(w, v, ws, steps) && WaitsIn(steps) == k
  }

  ghost predicate Path(w: World, v: World, ws: seq<World>, steps: seq<Step>) {
    && |ws| == |steps| + 1 && ws[0] == w && ws[|steps|] == v
    && forall k :: 0 <= k < |steps| ==> Next(ws[k], ws[k + 1], steps[k])
  }

  lemma ReachesSelf(w: World)
    ensures Reaches(w, w, 0)
  {
    var none: seq<Step> := [];
    assert Path(w, w, [w], none) && WaitsIn(none) == 0;
  }

  lemma OneStep(w: World, v: World, step: Step)
    requires Next(w, v, step)
    ensures Reaches(w, v, if step.Waits? then 1 else 0)
  {
    var steps := [step];
    assert steps[..0] == [] && Path(w, v, [w, v], steps) && WaitsIn(steps) == if step.Waits? then 1 else 0;
  }

  lemma ReachesOn(w: World, v: World, u: World, k: nat, l: nat)
    requires Reaches(w, v, k) && Reaches(v, u, l)
    ensures Reaches(w, u, k + l)
  {
    var ws, steps :| Path(w, v, ws, steps) && WaitsIn(steps) == k;
    var ws', steps' :| Path(v, u, ws', steps') && WaitsIn(steps') == l;
    PathOn(w, v, u, ws, steps, ws', steps');
    WaitsAppend(steps, steps');
  }

  lemma PathOn(w: World, v: World, u: World, ws: seq<World>, steps: seq<Step>, ws': seq<World>, steps': seq<Step>)
    requires Path(w, v, ws, steps) && Path(v, u, ws', steps')
    ensures Path(w, u, ws + ws'[1..], steps + steps')
  {
    var all, every := ws + ws'[1..], steps + steps';
    forall k | 0 <= k < |every| ensures Next(all[k], all[k + 1], every[k]) {
      if k < |steps| {
        assert Next(ws[k], ws[k + 1], steps[k]);
      } else {
        assert Next(ws'[k - |steps|], ws'[k + 1 - |steps|], steps'[k - |steps|]);
      }
    }
  }

  lemma ReachesStep(w: World, v: World, u: World, step: Step)
    requires Reaches(w, v, 0) && Next(v, u, step) && !step.Waits?
    ensures Reaches(w, u, 0)
  {
    OneStep(v, u, step);
    ReachesOn(w, v, u, 0, 0);
  }

  /** The state of the program as a state of the transition system. */
  ghost function Now(server: Server, listener: Listener, batch: seq<Event>, accepting: bool): World
    requires server.Separate()
    reads server, server.kernel, server.clients, server.buffers, listener
  {
    World(server.St(), batch, accepting, listener.sock, listener.backlog, listener.listening)
  }

  /** One `net_accept()` of the accept loop. */
  method AcceptOne(server: Server, listener: Listener, now: Timespec, born: Timespec, lifetime: int, rest: seq<Event>,
                   ghost start: World) returns (going: bool)
    requires server.Valid() && listener !in server.buffers
    requires WorldInv(Now(server, listener, rest, true)) && Reaches(start, Now(server, listener, rest, true), 0)
    modifies server, server.clients, server.buffers, server.kernel, listener
    ensures server.Valid()
    ensures listener.backlog <= old(listener.backlog) && (going ==> listener.backlog < old(listener.backlog))
    ensures WorldInv(Now(server, listener, rest, going)) && Reaches(start, Now(server, listener, rest, going), 0)
  {
    ghost var w := Now(server, listener, rest, true);
    var fd, outcome := server.NetAccept(listener, now, born, lifetime);
    going := fd >= 0;
    ghost var v := Now(server, listener, rest, going);
    ghost var step := Accepts(now, born, lifetime, outcome);
    assert Next(w, v, step);
    NextKeepsInv(w, v, step);
    ReachesStep(start, w, v, step);
  }

  /** `while (net_accept(...) >= 0)`. */
  method AcceptAll(server: Server, listener: Listener, clock: seq<Timespec>, lifetime: int, rest: seq<Event>,
                   ghost start: World)
    requires server.Valid() && listener !in server.buffers
    requires WorldInv(Now(server, listener, rest, true)) && Reaches(start, Now(server, listener, rest, true), 0)
    modifies server, server.clients, server.buffers, server.kernel, listener
    ensures server.Valid()
    ensures WorldInv(Now(server, listener, rest, false)) && Reaches(start, Now(server, listener, rest, false), 0)
  {
    var going, k := true, 0;
    while going
      invariant server.Valid()
      invariant WorldInv(Now(server, listener, rest, going)) && Reaches(start, Now(server, listener, rest, going), 0)
      decreases going, listener.backlog
    {
      var now := if k < |clock| then clock[k] else Timespec(0, 0);
      var born := if k + 1 < |clock| then clock[k + 1] else now;
      k := k + 2;
      going := AcceptOne(server, listener, now, born, lifetime, rest, start);
    }
  }

  /** Data: the client of the descriptor, if there is one, receives. */
  method HandleData(server: Server, listener: Listener, batch: seq<Event>, ghost start: World)
    requires server.Valid() && listener !in server.buffers && batch != [] && batch[0].fd != listener.sock && batch[0].input
    requires WorldInv(Now(server, listener, batch, false)) && Reaches(start, Now(server, listener, batch, false), 0)
    modifies server, server.clients, server.buffers, server.kernel, server.table.entries
    ensures server.Valid() && Received(old(server.St()), server.St(), batch[0].fd)
    ensures WorldInv(Now(server, listener, batch[1..], false)) && Reaches(start, Now(server, listener, batch[1..], false), 0)
  {
    ghost var w := Now(server, listener, batch, false);
    InvReady(w.s, batch[0].fd);
    var rc := server.RecvData(batch[0].fd);
    ghost var v := Now(server, listener, batch[1..], false);
    assert Next(w, v, ReceivesData);
    NextKeepsInv(w, v, ReceivesData);
    ReachesStep(start, w, v, ReceivesData);
  }

  /** Anything else: the client of the descriptor, if there is one, is closed. */
  method HandleOther(server: Server, listener: Listener, batch: seq<Event>, ghost start: World)
    requires server.Valid() && listener !in server.buffers && batch != [] && batch[0].fd != listener.sock && !batch[0].input
    requires WorldInv(Now(server, listener, batch, false)) && Reaches(start, Now(server, listener, batch, false), 0)
    modifies server, server.clients, server.kernel
    ensures server.Valid() && server.St() == Close(old(server.St()), batch[0].fd, ByEvent)
    ensures WorldInv(Now(server, listener, batch[1..], false)) && Reaches(start, Now(server, listener, batch[1..], false), 0)
  {
    ghost var w := Now(server, listener, batch, false);
    server.ClientClose(batch[0].fd, ByEvent);
    ghost var v := Now(server, listener, batch[1..], false);
    assert Next(w, v, HandlesOther);
    NextKeepsInv(w, v, HandlesOther);
    ReachesStep(start, w, v, HandlesOther);
  }

  /** A connection attempt: the accept loop, and nothing but the accept loop. */
  method HandleListener(server: Server, listener: Listener, batch: seq<Event>, clock: seq<Timespec>, lifetime: int,
                        ghost start: World)
    requires server.Valid() && listener !in server.buffers && batch != [] && batch[0].fd == listener.sock
    requires WorldInv(Now(server, listener, batch, false)) && Reaches(start, Now(server, listener, batch, false), 0)
    modifies server, server.clients, server.buffers, server.kernel, listener
    ensures server.Valid()
    ensures Reaches(old(Now(server, listener, batch[1..], true)), Now(server, listener, batch[1..], false), 0)
    ensures WorldInv(Now(server, listener, batch[1..], false)) && Reaches(start, Now(server, listener, batch[1..], false), 0)
  {
    ghost var w, v := Now(server, listener, batch, false), Now(server, listener, batch[1..], true);
    NextKeepsInv(w, v, TurnsToListener);
    ReachesStep(start, w, v, TurnsToListener);
    ReachesSelf(v);
    AcceptAll(server, listener, clock, lifetime, batch[1..], v);
    ReachesOn(start, v, Now(server, listener, batch[1..], false), 0, 0);
  }

  /** One event of the batch: a connection attempt starts the accept loop, data is received, and anything else closes
      the client. */
  method HandleEvent(server: Server, listener: Listener, batch: seq<Event>, clock: seq<Timespec>, lifetime: int,
                     ghost start: World)
    requires server.Valid() && listener !in server.buffers && batch != []
    requires WorldInv(Now(server, listener, batch, false)) && Reaches(start, Now(server, listener, batch, false), 0)
    modifies server, server.clients, server.buffers, server.kernel, server.table.entries, listener
    ensures server.Valid()
    ensures batch[0].fd == listener.sock ==>
              Reaches(old(Now(server, listener, batch[1..], true)), Now(server, listener, batch[1..], false), 0)
    ensures batch[0].fd != listener.sock ==>
              listener.backlog == old(listener.backlog) && listener.listening == old(listener.listening)
    ensures batch[0].fd != listener.sock && batch[0].input ==> Received(old(server.St()), server.St(), batch[0].fd)
    ensures batch[0].fd != listener.sock && !batch[0].input ==>
              server.St() == Close(old(server.St()), batch[0].fd, ByEvent)
    ensures WorldInv(Now(server, listener, batch[1..], false)) && Reaches(start, Now(server, listener, batch[1..], false), 0)
  {
    if batch[0].fd == listener.sock {
      HandleListener(server, listener, batch, clock, lifetime, start);
    } else if batch[0].input {
      HandleData(server, listener, batch, start);
    } else {
      HandleOther(server, listener, batch, start);
    }
  }

  /** The `for` loop over the events one `epoll_wait()` returned. */
  method HandleBatch(server: Server, listener: Listener, events: seq<Event>, clock: seq<Timespec>, lifetime: int)
    requires server.Valid() && listener !in server.buffers
    requires WorldInv(Now(server, listener, events, false))
    modifies server, server.clients, server.buffers, server.kernel, server.table.entries, listener
    ensures server.Valid()
    ensures WorldInv(Now(server, listener, [], false))
    ensures Reaches(old(Now(server, listener, events, false)), Now(server, listener, [], false), 0)
  {
    ghost var start := Now(server, listener, events, false);
    ReachesSelf(start);
    for i := 0 to |events|
      invariant server.Valid()
      invariant WorldInv(Now(server, listener, events[i..], false))
      invariant Reaches(start, Now(server, listener, events[i..], false), 0)
    {
      assert events[i..][1..] == events[i + 1..];
      HandleEvent(server, listener, events[i..], clock, lifetime, start);
    }
  }

  /** What one `epoll_wait()` meets: who connects and what arrives before it returns, and the events it returns. */
  datatype Round = Round(arrivals: seq<Arrival>, events: seq<Event>)
  datatype Arrival = Call | Data(fd: int, data: seq<byte>, hangup: bool) | Trouble(fd: int)

  /** What happens to one connection. */
  method Touch(server: Server, listener: Listener, fd: int, conn: Conn)
    requires server.Valid() && listener !in server.buffers && fd in server.kernel.conns
    modifies server.kernel`conns
    ensures server.Valid()
    ensures var w := old(Now(server, listener, [], false));
            Now(server, listener, [], false) == w.(s := w.s.(conns := w.s.conns[fd := conn]))
  {
    server.kernel.conns := server.kernel.conns[fd := conn];
  }

  lemma StepFrom(w: World, v: World, step: Step)
    requires WorldInv(w) && Next(w, v, step)
    ensures WorldInv(v) && Reaches(w, v, if step.Waits? then 1 else 0)
  {
    NextKeepsInv(w, v, step);
    OneStep(w, v, step);
  }

  method Arrive(server: Server, listener: Listener, a: Arrival)
    requires server.Valid() && listener !in server.buffers
    requires WorldInv(Now(server, listener, [], false))
    modifies server.kernel`conns, listener
    ensures server.Valid()
    ensures WorldInv(Now(server, listener, [], false))
    ensures Reaches(old(Now(server, listener, [], false)), Now(server, listener, [], false), 0)
  {
    ghost var w := Now(server, listener, [], false);
    ReachesSelf(w);
    match a
    case Call =>
      listener.backlog := listener.backlog + 1;
      listener.listening := true;
      StepFrom(w, Now(server, listener, [], false), Connects);
    case Data(fd, data, hangup) =>
      if fd in server.kernel.conns {
        Touch(server, listener, fd, Deliver(server.kernel.conns[fd], data, hangup));
        StepFrom(w, Now(server, listener, [], false), Arrives(fd, data, hangup));
      }
    case Trouble(fd) =>
      if fd in server.kernel.conns {
        Touch(server, listener, fd, server.kernel.conns[fd].(ready := true));
        StepFrom(w, Now(server, listener, [], false), Edge(fd));
      }
  }

  method ArriveAll(server: Server, listener: Listener, arrivals: seq<Arrival>)
    requires server.Valid() && listener !in server.buffers
    requires WorldInv(Now(server, listener, [], false))
    modifies server.kernel`conns, listener
    ensures server.Valid()
    ensures WorldInv(Now(server, listener, [], false))
    ensures Reaches(old(Now(server, listener, [], false)), Now(server, listener, [], false), 0)
  {
    ghost var start := Now(server, listener, [], false);
    ReachesSelf(start);
    for i := 0 to |arrivals|
      invariant server.Valid() && WorldInv(Now(server, listener, [], false))
      invariant Reaches(start, Now(server, listener, [], false), 0)
    {
      ghost var w := Now(server, listener, [], false);
      Arrive(server, listener, arrivals[i]);
      ReachesOn(start, w, Now(server, listener, [], false), 0, 0);
    }
  }

  /** Events are reported only for pending edges, and at most as many as asked for. */
  function Pending(conns: map<int, Conn>, sock: int, listening: bool, proposed: seq<Event>): (events: seq<Event>)
    ensures |events| <= 64 && forall k :: 0 <= k < |events| ==> Reportable(conns, sock, listening, events[k])
  {
    if |proposed| <= MAX_EVENTS && forall k :: 0 <= k < |proposed| ==> Reportable(conns, sock, listening, proposed[k])
    then proposed else []
  }

  /** `epoll_wait()`: some of the pending edges, which it takes. */
  method EpollWait(server: Server, listener: Listener, proposed: seq<Event>) returns (events: seq<Event>)
    requires server.Valid() && listener !in server.buffers
    requires WorldInv(Now(server, listener, [], false))
    modifies server.kernel`conns, listener`listening
    ensures server.Valid()
    ensures events == old(Pending(server.kernel.conns, listener.sock, listener.listening, proposed))
    ensures WorldInv(Now(server, listener, events, false))
    ensures Reaches(old(Now(server, listener, [], false)), Now(server, listener, events, false), 1)
  {
    ghost var w := Now(server, listener, [], false);
    events := Pending(server.kernel.conns, listener.sock, listener.listening, proposed);
    server.kernel.conns := Reported(server.kernel.conns, events);
    listener.listening := listener.listening && !InBatch(events, listener.sock);
    ghost var v := Now(server, listener, events, false);
    StepFrom(w, v, Waits(events));
  }

  /** One turn of the outer loop. */
  method OneRound(server: Server, listener: Listener, round: Round, clock: seq<Timespec>, lifetime: int)
    requires server.Valid() && listener !in server.buffers
    requires WorldInv(Now(server, listener, [], false))
    modifies server, server.clients, server.buffers, server.kernel, server.table.entries, listener
    ensures server.Valid()
    ensures WorldInv(Now(server, listener, [], false))
    ensures Reaches(old(Now(server, listener, [], false)), Now(server, listener, [], false), 1)
  {
    ghost var start := Now(server, listener, [], false);
    ArriveAll(server, listener, round.arrivals);
    ghost var w := Now(server, listener, [], false);
    var events := EpollWait(server, listener, round.events);
    ghost var v := Now(server, listener, events, false);
    HandleBatch(server, listener, events, clock, lifetime);
    ReachesOn(start, w, v, 0, 1);
    ReachesOn(start, v, Now(server, listener, [], false), 1, 0);
  }

  /** `client_init()` and `mainloop()` for any number of turns: what the program does, from its start on,
      is a run of the transition system. */
  method Serve(slots: nat, kernel: Sockets, listener: Listener, order: Order, rounds: seq<Round>, clock: seq<Timespec>,
               lifetime: int) returns (server: Server)
    requires kernel.conns == map[] && listener.sock >= 0 && listener.backlog == 0 && !listener.listening
    modifies kernel, listener
    ensures server.Valid()
    ensures exists ws: seq<World>, steps: seq<Step> :: IsRun(ws, steps) && WaitsIn(steps) == |rounds|
                                && |ws[0].s.slots| == slots
                                && ws[|steps|] == Now(server, listener, [], false)
  {
    server := Start(slots, kernel, listener, order);
    ghost var start := Now(server, listener, [], false);
    ReachesSelf(start);
    for i := 0 to |rounds|
      invariant fresh(server) && fresh(server.buffers) && fresh(server.clients) && fresh(server.table.entries)
      invariant server.kernel == kernel && listener !in server.buffers
      invariant server.Valid() && WorldInv(Now(server, listener, [], false))
      invariant Reaches(start, Now(server, listener, [], false), i)
    {
      ghost var w := Now(server, listener, [], false);
      OneRound(server, listener, rounds[i], clock, lifetime);
      ReachesOn(start, w, Now(server, listener, [], false), i, 1);
    }
    ghost var ws, steps :| Path(start, Now(server, listener, [], false), ws, steps) && WaitsIn(steps) == |rounds|;
    assert IsRun(ws, steps);
  }

  method Start(slots: nat, kernel: Sockets, listener: Listener, order: Order) returns (server: Server)
    requires kernel.conns == map[] && listener.sock >= 0 && listener.backlog == 0 && !listener.listening
    ensures fresh(server) && fresh(server.buffers) && fresh(server.clients) && fresh(server.table.entries)
    ensures server.Valid() && server.kernel == kernel && |server.clients| == slots && listener !in server.buffers
    ensures Init(Now(server, listener, [], false)) && WorldInv(Now(server, listener, [], false))
  {
    var clients := ClientInit(slots);
    var table := new Table();
    server := new Server(clients, kernel, table, order);
    ghost var w := Now(server, listener, [], false);
    var none: seq<Step> := [];
    RunKeepsInv([w], none, 0);
  }
}
