/** Where accepting falls short: connections that are left without a client, and connections that are left waiting. */
module Accepting {
  import opened Text
  import opened Frames
  import opened Kernel
  import opened ServerState
  import opened ServerInvariant
  import opened EventLoop

  // ----- descriptors without a client

  /** An open connection nobody looks after. */
  ghost predicate Stranded(w: World, fd: int) {
    fd in w.s.conns && Find(w.s.slots, fd) == -1
  }

  /** No slot is free, and none will be freed by a purge. */
  predicate AllTaken(slots: seq<Slot>, now: Timespec) {
    forall k :: 0 <= k < |slots| ==> slots[k].fd != -1 && !Expired(slots[k], now)
  }

  /** An accepted connection is left without a client exactly when every slot is in use and not past its deadline. */
  lemma AcceptedWithoutClient(w: World, v: World, now: Timespec, born: Timespec, lifetime: int, outcome: AcceptOutcome)
    requires WorldInv(w) && outcome.Taken? && Next(w, v, Accepts(now, born, lifetime, outcome))
    ensures Stranded(v, outcome.fd) <==> AllTaken(w.s.slots, now)
  {
    PurgeExact(w.s, 0, now);
    var p := PurgeFrom(w.s, 0, now);
    forall k | 0 <= k < |p.slots| ensures p.slots[k].fd != outcome.fd { assert SlotOk(p, k); }
    var i := Find(p.slots, -1);
    if i >= 0 {
      assert v.s.slots[i].fd == outcome.fd && p.slots[i].fd == -1;
    } else {
      forall k | 0 <= k < |w.s.slots| ensures w.s.slots[k].fd != -1 && !Expired(w.s.slots[k], now) {
        assert p.slots[k].fd != -1;
      }
    }
  }

  lemma NextKeepsStranded(w: World, v: World, step: Step, fd: int)
    requires WorldInv(w) && Stranded(w, fd) && Next(w, v, step)
    ensures Stranded(v, fd) && v.s.conns[fd].sid == w.s.conns[fd].sid
  {
    assert ConnOk(w.s, fd);
    match step
    case Accepts(now, born, lifetime, outcome) =>
      PurgeExact(w.s, 0, now);
      StillWithout(w.s, PurgeFrom(w.s, 0, now), now, born, lifetime, outcome, fd);
    case ReceivesData =>
      OthersReceived(w.s, v.s, w.batch[0].fd, fd);
    case _ =>
  }

  /** Receiving on one descriptor leaves the others alone. */
  lemma OthersReceived(s: State, t: State, gd: int, fd: int)
    requires Received(s, t, gd) && fd in s.conns && Find(s.slots, fd) == -1 && fd != -1
    ensures fd in t.conns && t.conns[fd] == s.conns[fd] && Find(t.slots, fd) == -1
  {
    var i := Find(s.slots, gd);
    if i >= 0 {
      var later, got, times, results :| ReceivedAt(s, t, i, later, got, times, results);
    }
  }

  lemma StillWithout(s: State, p: State, now: Timespec, born: Timespec, lifetime: int, outcome: AcceptOutcome, fd: int)
    requires p == PurgeFrom(s, 0, now) && PurgedFrom(s, p, 0, now) && Possible(p, outcome)
    requires fd >= 0 && fd in s.conns && Find(s.slots, fd) == -1
    ensures var t := NetAccept(s, now, born, lifetime, outcome);
            fd in t.conns && t.conns[fd] == s.conns[fd] && Find(t.slots, fd) == -1
  {
    assert fd in p.conns;
    forall k | 0 <= k < |p.slots| ensures p.slots[k].fd != fd {}
  }

  /** Such a connection stays open and unread in the rest of the run: nothing ever reads or closes it. */
  lemma {:induction false} StrandedForever(ws: seq<World>, steps: seq<Step>, n: nat, m: nat, fd: int)
    requires IsRun(ws, steps) && n <= m < |ws| && Stranded(ws[n], fd)
    ensures Stranded(ws[m], fd) && ws[m].s.conns[fd].sid == ws[n].s.conns[fd].sid && ws[m].s.conns[fd].taken == []
    decreases m
  {
    if n < m {
      StrandedForever(ws, steps, n, m - 1, fd);
      RunKeepsInv(ws, steps, m - 1);
      NextKeepsStranded(ws[m - 1], ws[m], steps[m - 1], fd);
    }
    RunKeepsInv(ws, steps, m);
    StrandedUnread(ws[m], fd);
  }

  lemma StrandedUnread(w: World, fd: int)
    requires WorldInv(w) && Stranded(w, fd)
    ensures w.s.conns[fd].taken == []
  {
    assert ConnOk(w.s, fd);
  }

  // ----- the listening socket

  /** Waiting connections will be turned to. */
  predicate Draining(w: World) {
    w.backlog > 0 ==> w.listening || w.accepting || InBatch(w.batch, w.sock)
  }

  /** A turn of the accept loop that fails while somebody else is waiting, the edge that started the loop being spent
      and no other one in sight. A connection whose set-up fails waits no longer itself. */
  predicate Forgets(w: World, step: Step) {
    && step.Accepts? && !w.listening && !InBatch(w.batch, w.sock)
    && ((step.outcome.AcceptFailed? && w.backlog > 0) || (step.outcome.SetupFailed? && w.backlog > 1))
  }

  lemma TailInBatch(batch: seq<Event>, fd: int)
    requires batch != [] && batch[0].fd != fd
    ensures InBatch(batch[1..], fd) <==> InBatch(batch, fd)
  {
    if InBatch(batch, fd) {
      var k :| 0 <= k < |batch| && batch[k].fd == fd;
      assert batch[1..][k - 1].fd == fd;
    }
  }

  /** The accept loop ends on any error, not only when nothing is left: such a turn, and no other step, forgets those
      who wait. */
  lemma NextForgets(w: World, v: World, step: Step)
    requires Draining(w) && Next(w, v, step)
    ensures Draining(v) <==> !Forgets(w, step)
  {
    if step.ReceivesData? || step.HandlesOther? {
      TailInBatch(w.batch, w.sock);
    }
  }

  /** And they stay forgotten, all of them, until somebody else connects. */
  lemma NextStaysForgotten(w: World, v: World, step: Step)
    requires !Draining(w) && Next(w, v, step)
    ensures if step.Connects? then Draining(v) else !Draining(v) && v.backlog == w.backlog
  {
    if step.ReceivesData? || step.HandlesOther? {
      TailInBatch(w.batch, w.sock);
    }
    if step.Waits? { OnlyEdgesReported(w.s.conns, w.sock, step.events); }
  }

  lemma OnlyEdgesReported(conns: map<int, Conn>, sock: int, events: seq<Event>)
    requires forall k :: 0 <= k < |events| ==> Reportable(conns, sock, false, events[k])
    ensures !InBatch(events, sock)
  {
    forall k | 0 <= k < |events| ensures events[k].fd != sock { assert Reportable(conns, sock, false, events[k]); }
  }

  /** Nobody has connected since the accept loop failed with connections waiting. */
  ghost predicate ForgottenSince(ws: seq<World>, steps: seq<Step>, k: nat, n: nat)
    requires |ws| == |steps| + 1 && n < |ws|
  {
    k < n && Forgets(ws[k], steps[k]) && forall j :: k < j < n ==> !steps[j].Connects?
  }

  /** In every run: waiting connections are left without an event exactly when some turn of the accept loop failed
      with them waiting and nobody has connected since. */
  lemma {:induction false} ListenerForgotten(ws: seq<World>, steps: seq<Step>, n: nat)
    requires IsRun(ws, steps) && n < |ws|
    ensures !Draining(ws[n]) <==> exists k: nat :: ForgottenSince(ws, steps, k, n)
    decreases n
  {
    if n > 0 {
      var w, v, step := ws[n - 1], ws[n], steps[n - 1];
      ListenerForgotten(ws, steps, n - 1);
      assert Next(w, v, step);
      if Draining(w) {
        NextForgets(w, v, step);
        if Forgets(w, step) {
          assert ForgottenSince(ws, steps, n - 1, n);
        } else {
          forall k: nat ensures !ForgottenSince(ws, steps, k, n) {
            if k < n - 1 { assert !ForgottenSince(ws, steps, k, n - 1); }
          }
        }
      } else {
        NextStaysForgotten(w, v, step);
        var k: nat :| ForgottenSince(ws, steps, k, n - 1);
        if step.Connects? {
          forall l: nat ensures !ForgottenSince(ws, steps, l, n) {
            if l < n - 1 { assert steps[n - 1].Connects?; }
          }
        } else {
          assert ForgottenSince(ws, steps, k, n);
        }
      }
    }
  }

  /** As long as nobody else connects, not one of them is taken. */
  lemma {:induction false} StaysForgotten(ws: seq<World>, steps: seq<Step>, n: nat, m: nat)
    requires IsRun(ws, steps) && n <= m < |ws| && !Draining(ws[n])
    requires forall j :: n <= j < m ==> !steps[j].Connects?
    ensures !Draining(ws[m]) && ws[m].backlog == ws[n].backlog
    decreases m
  {
    if n < m {
      StaysForgotten(ws, steps, n, m - 1);
      NextStaysForgotten(ws[m - 1], ws[m], steps[m - 1]);
    }
  }

  // ----- it happens

  const START: Timespec := Timespec(0, 0)

  function Started(slots: seq<Slot>): World {
    World(State(slots, map[], map[], 0, [], 0, 0), [], false, 3, 0, false)
  }

  /** The worlds a list of steps and the worlds behind them make. */
  lemma Extend(ws: seq<World>, steps: seq<Step>, v: World, step: Step)
    requires IsRun(ws, steps) && Next(ws[|steps|], v, step)
    ensures IsRun(ws + [v], steps + [step])
  {
    var all, every := ws + [v], steps + [step];
    forall k | 0 <= k < |every| ensures Next(all[k], all[k + 1], every[k]) {
      if k < |steps| { assert Next(ws[k], ws[k + 1], steps[k]); }
    }
  }

  function Called(w: World): World { w.(backlog := w.backlog + 1, listening := true) }
  function Alerted(w: World): World { w.(batch := [Event(w.sock, true)], listening := false) }
  function Turned(w: World): World { w.(batch := [], accepting := true) }

  /** From a start, `epoll_wait()` reports a connection and the accept loop begins. */
  lemma LoopBegins(w: World)
    requires w.s.conns == map[] && w.batch == [] && !w.accepting && w.listening
    ensures Next(w, Alerted(w), Waits([Event(w.sock, true)])) && Next(Alerted(w), Turned(Alerted(w)), TurnsToListener)
  {
    var e := Event(w.sock, true);
    assert [e][0].fd == w.sock && InBatch([e], w.sock);
    assert Reported(map[], [e]) == map[];
    assert [e][1..] == [];
  }

  /** One connection, one failing `accept()`: the connection is forgotten. */
  lemma ForgottenExample() returns (ws: seq<World>, steps: seq<Step>)
    ensures IsRun(ws, steps) && steps == [Connects, Waits([Event(3, true)]), TurnsToListener,
                                          Accepts(START, START, 20, AcceptFailed)]
    ensures ws[4].backlog == 1 && !Draining(ws[4])
  {
    var w0 := Started([]);
    var w1 := Called(w0);
    var w3 := Turned(Alerted(w1));
    var none: seq<Step> := [];
    LoopBegins(w1);
    Extend([w0], none, w1, Connects);
    Extend([w0, w1], [Connects], Alerted(w1), Waits([Event(3, true)]));
    Extend([w0, w1, Alerted(w1)], [Connects, Waits([Event(3, true)])], w3, TurnsToListener);
    ws := [w0, w1, Alerted(w1), w3];
    steps := [Connects, Waits([Event(3, true)]), TurnsToListener];
    Extend(ws, steps, w3.(accepting := false), Accepts(START, START, 20, AcceptFailed));
    ws, steps := ws + [w3.(accepting := false)], steps + [Accepts(START, START, 20, AcceptFailed)];
  }

  /** The run up to the accept loop with two connections waiting and one slot free. */
  lemma TwoWaiting() returns (ws: seq<World>, steps: seq<Step>)
    ensures IsRun(ws, steps) && steps == [Connects, Connects, Waits([Event(3, true)]), TurnsToListener]
    ensures ws[4] == Turned(Alerted(Called(Called(ws[0]))))
    ensures ws[0] == Started([Slot(-1, 0, 0, Zeroes(SIZE), START, [])])
  {
    var w0 := Started([Slot(-1, 0, 0, Zeroes(SIZE), START, [])]);
    var w1, w2 := Called(w0), Called(Called(w0));
    var none: seq<Step> := [];
    LoopBegins(w2);
    Extend([w0], none, w1, Connects);
    Extend([w0, w1], [Connects], w2, Connects);
    Extend([w0, w1, w2], [Connects, Connects], Alerted(w2), Waits([Event(3, true)]));
    ws := [w0, w1, w2, Alerted(w2)];
    steps := [Connects, Connects, Waits([Event(3, true)])];
    Extend(ws, steps, Turned(Alerted(w2)), TurnsToListener);
    ws, steps := ws + [Turned(Alerted(w2))], steps + [TurnsToListener];
  }

  /** One slot, two connections: the second one is left without a client. */
  lemma StrandedExample() returns (ws: seq<World>, steps: seq<Step>)
    ensures IsRun(ws, steps) && |ws[0].s.slots| == 1
    ensures steps == [Connects, Connects, Waits([Event(3, true)]), TurnsToListener,
                      Accepts(START, START, 20, Taken(4, [], false)), Accepts(START, START, 20, Taken(5, [], false))]
    ensures Stranded(ws[6], 5)
  {
    ws, steps := TwoWaiting();
    var first, second := Accepts(START, START, 20, Taken(4, [], false)), Accepts(START, START, 20, Taken(5, [], false));
    var w4 := ws[4];
    var w5 := w4.(backlog := 1, s := NetAccept(w4.s, START, START, 20, Taken(4, [], false)));
    var w6 := w5.(backlog := 0, s := NetAccept(w5.s, START, START, 20, Taken(5, [], false)));
    FirstTaken(w4.s);
    SecondTaken(w5.s);
    Extend(ws, steps, w5, first);
    Extend(ws + [w5], steps + [first], w6, second);
    ws, steps := ws + [w5] + [w6], steps + [first] + [second];
  }

  lemma FirstTaken(s: State)
    requires |s.slots| == 1 && s.slots[0].fd == -1
    ensures var t := NetAccept(s, START, START, 20, Taken(4, [], false));
            && |t.slots| == 1 && t.slots[0].fd == 4 && t.slots[0].deadline == Timespec(20, 0)
            && t.conns.Keys == s.conns.Keys + {4} && PurgeFrom(s, 0, START) == s
  {
    OneSlotPurge(s, START);
  }

  lemma SecondTaken(s: State)
    requires |s.slots| == 1 && s.slots[0].fd == 4 && s.slots[0].deadline == Timespec(20, 0)
    ensures var t := NetAccept(s, START, START, 20, Taken(5, [], false));
            t.slots == s.slots && 5 in t.conns && PurgeFrom(s, 0, START) == s
  {
    OneSlotPurge(s, START);
  }

  lemma OneSlotPurge(s: State, now: Timespec)
    requires |s.slots| == 1 && !Expired(s.slots[0], now)
    ensures PurgeFrom(s, 0, now) == s
  {
    assert PurgeFrom(s, 1, now) == s;
  }
}
