/** Where every single result of the server comes from. */
module Origins {
  import opened Words
  import opened Frames
  import opened Kernel
  import opened ServerState
  import opened ServerInvariant
  import opened EventLoop
  import opened Runs
  import opened Verdicts

  /** A connection that is open or on record. */
  ghost predicate Known(s: State, sid: nat) {
    sid in s.past || exists fd :: fd in s.conns && s.conns[fd].sid == sid
  }

  ghost predicate KeepsKnown(s: State, t: State) { forall sid :: Known(s, sid) ==> Known(t, sid) }

  ghost predicate AllKnown(s: State) { forall k :: 0 <= k < |s.log| ==> Known(s, s.log[k].sid) }

  lemma SameSidsKept(s: State, t: State)
    requires t.past == s.past && forall fd :: fd in s.conns ==> fd in t.conns && t.conns[fd].sid == s.conns[fd].sid
    ensures KeepsKnown(s, t)
  {
  }

  /** Ending a connection puts it on record. */
  lemma EndKnown(s: State, t: State, fd: int)
    requires fd in s.conns && t.conns == s.conns - {fd} && s.past.Keys + {s.conns[fd].sid} <= t.past.Keys
    ensures KeepsKnown(s, t)
  {
    forall sid | Known(s, sid) ensures Known(t, sid) {
      if sid !in t.past {
        var gd :| gd in s.conns && s.conns[gd].sid == sid;
        assert gd in t.conns && t.conns[gd].sid == sid;
      }
    }
  }

  lemma CloseKnown(s: State, fd: int, end: End)
    ensures KeepsKnown(s, Close(s, fd, end)) && Close(s, fd, end).log == s.log
  {
    var i := Find(s.slots, fd);
    if i >= 0 && fd in s.conns { EndKnown(s, EndAt(s, i, end), fd); }
  }

  lemma {:induction false} PurgeKnown(s: State, i: nat, now: Timespec)
    requires i <= |s.slots|
    ensures KeepsKnown(s, PurgeFrom(s, i, now)) && PurgeFrom(s, i, now).log == s.log
    decreases |s.slots| - i
  {
    if i < |s.slots| {
      var t := if Expired(s.slots[i], now) then Close(s, s.slots[i].fd, Purged) else s;
      CloseKnown(s, s.slots[i].fd, Purged);
      PurgeKnown(t, i + 1, now);
    }
  }

  lemma AcceptKnown(s: State, now: Timespec, born: Timespec, lifetime: int, outcome: AcceptOutcome)
    requires Possible(PurgeFrom(s, 0, now), outcome)
    ensures KeepsKnown(s, NetAccept(s, now, born, lifetime, outcome))
    ensures NetAccept(s, now, born, lifetime, outcome).log == s.log
  {
    PurgeKnown(s, 0, now);
    SameSidsKept(PurgeFrom(s, 0, now), NetAccept(s, now, born, lifetime, outcome));
  }

  /** What is received is added to the log under the connection it was read from. */
  lemma ReceiveKnown(s: State, t: State, i: nat, later: Conn, got: seq<byte>, times: seq<nat>, results: seq<Pdu>)
    requires ReceivedAt(s, t, i, later, got, times, results)
    ensures KeepsKnown(s, t) && (AllKnown(s) ==> AllKnown(t))
  {
    var fd := s.slots[i].fd;
    var sid := s.conns[fd].sid;
    if t.past == s.past && fd in t.conns { SameSidsKept(s, t); } else { EndKnown(s, t, fd); }
    assert Known(s, sid);
    if AllKnown(s) {
      forall k | 0 <= k < |t.log| ensures Known(t, t.log[k].sid) {
        if k < |s.log| { assert t.log[k] == s.log[k]; } else { assert t.log[k].sid == sid; }
      }
    }
  }

  lemma SameLog(s: State, t: State)
    requires AllKnown(s) && KeepsKnown(s, t) && t.log == s.log
    ensures AllKnown(t)
  {
  }

  lemma NextKeepsKnown(w: World, v: World, step: Step)
    requires Next(w, v, step) && AllKnown(w.s)
    ensures AllKnown(v.s)
  {
    match step
    case Accepts(now, born, lifetime, outcome) =>
      AcceptKnown(w.s, now, born, lifetime, outcome);
      SameLog(w.s, v.s);
    case HandlesOther =>
      CloseKnown(w.s, w.batch[0].fd, ByEvent);
      SameLog(w.s, v.s);
    case ReceivesData =>
      var i := Find(w.s.slots, w.batch[0].fd);
      if i >= 0 {
        var later, got, times, results :| ReceivedAt(w.s, v.s, i, later, got, times, results);
        ReceiveKnown(w.s, v.s, i, later, got, times, results);
      }
    case _ =>
      SameSidsKept(w.s, v.s);
      SameLog(w.s, v.s);
  }

  lemma {:induction false} RunKeepsKnown(ws: seq<World>, steps: seq<Step>, n: nat)
    requires IsRun(ws, steps) && n < |ws|
    ensures AllKnown(ws[n].s)
  {
    if n > 0 {
      RunKeepsKnown(ws, steps, n - 1);
      NextKeepsKnown(ws[n - 1], ws[n], steps[n - 1]);
    }
  }

  /** A connection that has an entry in the log has a record of what was read from it. */
  lemma KnownIsConsumed(s: State, sid: nat) returns (taken: seq<byte>, times: seq<nat>)
    requires Inv(s) && Known(s, sid) && Only(s.log, sid) != []
    ensures Consumed(s, sid, taken, times)
  {
    if sid in s.past {
      taken, times := s.past[sid].taken, s.past[sid].times;
    } else {
      var fd :| fd in s.conns && s.conns[fd].sid == sid;
      assert ConnOk(s, fd);
      var i := Find(s.slots, fd);
      taken, times := s.conns[fd].taken, s.slots[i].times;
    }
  }

  /** Entry `k` of the log is one of the results of its connection. */
  lemma {:induction false} EntryIsResult(log: seq<Entry>, k: nat) returns (j: nat)
    requires k < |log|
    ensures j < |Only(log, log[k].sid)| && Only(log, log[k].sid)[j] == log[k].pdu
    decreases |log|
  {
    var n := |log| - 1;
    if k < n {
      assert log[..n][k] == log[k];
      j := EntryIsResult(log[..n], k);
    } else {
      j := |Only(log[..n], log[n].sid)|;
    }
  }

  /** In every reachable state, every entry of the log says what the bytes of a frame say that was read whole from its
      connection and that has the CRC-32 of its cleared self, version 1 and a recent timestamp. */
  lemma EveryResultIsGenuine(ws: seq<World>, steps: seq<Step>, n: nat, k: nat)
    returns (taken: seq<byte>, times: seq<nat>, number: nat)
    requires IsRun(ws, steps) && n < |ws| && k < |ws[n].s.log|
    ensures Consumed(ws[n].s, ws[n].s.log[k].sid, taken, times)
    ensures 4300 * |times| <= |taken| && Supports(taken, times, number, ws[n].s.log[k].pdu)
  {
    RunKeepsInv(ws, steps, n);
    RunKeepsKnown(ws, steps, n);
    var s := ws[n].s;
    var sid := s.log[k].sid;
    var j := EntryIsResult(s.log, k);
    taken, times := KnownIsConsumed(s, sid);
    var ks := SubmittedExactly(ws, steps, n, sid, taken, times);
    number := ks[j];
  }
}
