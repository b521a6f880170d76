/** What holds in every run of the server. */
module Runs {
  import opened Words
  import opened Text
  import opened Frames
  import opened Reassembly
  import opened ServerState
  import opened ServerInvariant
  import opened EventLoop

  /** In every reachable state: descriptors in use are distinct and open, at most one per slot, and
      the table gains and loses clients only by opening and closing them. */
  lemma TableSafety(ws: seq<World>, steps: seq<Step>, n: nat)
    requires IsRun(ws, steps) && n < |ws|
    ensures var s := ws[n].s;
            && Distinct(s.slots)
            && (forall i :: 0 <= i < |s.slots| && s.slots[i].fd != -1 ==> s.slots[i].fd in s.conns)
            && LiveCount(s.slots) == s.opens - s.closes <= |s.slots|
  {
    RunKeepsInv(ws, steps, n);
    var s := ws[n].s;
    forall i | 0 <= i < |s.slots| && s.slots[i].fd != -1 ensures s.slots[i].fd in s.conns {
      assert SlotOk(s, i);
    }
    FullWhenAllLive(s.slots);
  }

  /** What a connection has come to: the bytes read from it and the times its frames were judged. */
  ghost predicate Consumed(s: State, sid: nat, taken: seq<byte>, times: seq<nat>) {
    || (sid in s.past && s.past[sid].taken == taken && s.past[sid].times == times)
    || exists i :: 0 <= i < |s.slots| && s.slots[i].fd in s.conns && s.conns[s.slots[i].fd].sid == sid
                   && s.conns[s.slots[i].fd].taken == taken && s.slots[i].times == times
  }

  /** In every reachable state, the results submitted for a connection are those of its own bytes
      alone: all whole frames among them, judged one by one, whatever else has used its slot or descriptor. */
  lemma Isolation(ws: seq<World>, steps: seq<Step>, n: nat, sid: nat, taken: seq<byte>, times: seq<nat>)
    requires IsRun(ws, steps) && n < |ws| && Consumed(ws[n].s, sid, taken, times)
    ensures SIZE * |times| <= |taken| < SIZE * |times| + SIZE
    ensures Only(ws[n].s.log, sid) == Decode(taken, times)
  {
    RunKeepsInv(ws, steps, n);
    var s := ws[n].s;
    if sid in s.past && s.past[sid].taken == taken && s.past[sid].times == times {
      assert PastOk(s, sid);
    } else {
      var i :| 0 <= i < |s.slots| && s.slots[i].fd in s.conns && s.conns[s.slots[i].fd].sid == sid
               && s.conns[s.slots[i].fd].taken == taken && s.slots[i].times == times;
      assert SlotOk(s, i) && ConnOk(s, s.slots[i].fd);
    }
  }

  /** How the bytes of a connection were cut into reads, and what happened in between, makes no
      difference: two connections of two runs that came to the same bytes gave the same results, if
      the clock gave every frame the same verdict. */
  lemma ChunkingIndependence(ws: seq<World>, steps: seq<Step>, n: nat, sid: nat, times: seq<nat>,
                             ws': seq<World>, steps': seq<Step>, n': nat, sid': nat, times': seq<nat>, taken: seq<byte>)
    requires IsRun(ws, steps) && n < |ws| && Consumed(ws[n].s, sid, taken, times)
    requires IsRun(ws', steps') && n' < |ws'| && Consumed(ws'[n'].s, sid', taken, times')
    requires forall i :: 0 <= i < |times| && i < |times'| ==> SameVerdict(taken, i, times[i], times'[i])
    ensures Only(ws[n].s.log, sid) == Only(ws'[n'].s.log, sid')
  {
    Isolation(ws, steps, n, sid, taken, times);
    Isolation(ws', steps', n', sid', taken, times');
    DecodeByVerdict(taken, times, times');
  }

  /** In every reachable state the buffer of a client holds the unfinished frame and zeros behind it,
      and its counters tell how much was read. */
  lemma BufferInStep(ws: seq<World>, steps: seq<Step>, n: nat, i: nat)
    requires IsRun(ws, steps) && n < |ws| && i < |ws[n].s.slots| && ws[n].s.slots[i].fd != -1
    ensures var slot := ws[n].s.slots[i];
            && slot.fd in ws[n].s.conns
            && var taken := ws[n].s.conns[slot.fd].taken;
            && |slot.pdu| == SIZE && 0 <= slot.offset < SIZE && slot.bytes == |taken| == SIZE * |slot.times| + slot.offset
            && slot.pdu[..slot.offset] == taken[|taken| - slot.offset..]
            && slot.pdu[slot.offset..] == Zeroes(SIZE - slot.offset)
  {
    RunKeepsInv(ws, steps, n);
    assert SlotOk(ws[n].s, i);
  }

  /** A connection that ended because its peer finished was read to its last byte. */
  lemma FinishedIsReadOut(ws: seq<World>, steps: seq<Step>, n: nat, sid: nat)
    requires IsRun(ws, steps) && n < |ws| && sid in ws[n].s.past && ws[n].s.past[sid].end == ByPeer
    ensures var p := ws[n].s.past[sid];
            && p.unread == [] && |p.times| == |p.taken| / SIZE
            && Only(ws[n].s.log, sid) == Decode(p.taken, p.times)
  {
    RunKeepsInv(ws, steps, n);
    assert PastOk(ws[n].s, sid);
  }

  /** In every reachable state a client with something to read, or whose peer has finished, will be turned to:
      its edge is pending or in the batch being worked off. */
  lemma AlwaysAwake(ws: seq<World>, steps: seq<Step>, n: nat, i: nat)
    requires IsRun(ws, steps) && n < |ws| && i < |ws[n].s.slots| && ws[n].s.slots[i].fd != -1
    ensures var w := ws[n];
            var fd := w.s.slots[i].fd;
            && fd in w.s.conns
            && (w.s.conns[fd].queue != [] || w.s.conns[fd].eof ==> w.s.conns[fd].ready || InBatch(w.batch, fd))
  {
    RunKeepsInv(ws, steps, n);
    assert SlotOk(ws[n].s, i);
    assert ConnAwake(ws[n], ws[n].s.slots[i].fd);
  }

  /** No event is pending or being worked off. */
  ghost predicate Quiet(w: World) {
    w.batch == [] && forall fd :: fd in w.s.conns ==> !w.s.conns[fd].ready
  }

  /** No wake-up is ever lost: once the server is quiet, everything that arrived for a client has been
      read, its whole frames are judged, and no client whose peer has finished is left. */
  lemma NothingLost(ws: seq<World>, steps: seq<Step>, n: nat, i: nat)
    requires IsRun(ws, steps) && n < |ws| && Quiet(ws[n])
    requires i < |ws[n].s.slots| && ws[n].s.slots[i].fd != -1
    ensures var s := ws[n].s;
            && s.slots[i].fd in s.conns
            && var c := s.conns[s.slots[i].fd];
            && c.queue == [] && !c.eof
            && SIZE * |s.slots[i].times| <= |c.taken| < SIZE * |s.slots[i].times| + SIZE
            && Only(s.log, c.sid) == Decode(c.taken, s.slots[i].times)
  {
    RunKeepsInv(ws, steps, n);
    var s := ws[n].s;
    assert SlotOk(s, i);
    assert ConnAwake(ws[n], s.slots[i].fd);
  }

  /** Steps that keep what is closed. */
  ghost predicate KeepsPast(s: State, t: State) {
    forall sid :: sid in s.past ==>
      sid in t.past && t.past[sid] == s.past[sid] && Only(t.log, sid) == Only(s.log, sid)
  }

  lemma NextKeepsPast(w: World, v: World, step: Step)
    requires WorldInv(w) && Next(w, v, step)
    ensures KeepsPast(w.s, v.s)
  {
    match step
    case Accepts(now, born, lifetime, outcome) => PurgeExact(w.s, 0, now);
    case HandlesOther =>
      if w.batch[0].fd in w.s.conns { assert ConnOk(w.s, w.batch[0].fd); }
    case ReceivesData =>
      var fd := w.batch[0].fd;
      var i := Find(w.s.slots, fd);
      if i >= 0 {
        var later, got, times, results :| ReceivedAt(w.s, v.s, i, later, got, times, results);
        assert ConnOk(w.s, fd);
        forall sid | sid in w.s.past ensures Only(v.s.log, sid) == Only(w.s.log, sid) {
          OnlyAppend(w.s.log, Tag(later.sid, results), sid);
          OnlyTag(later.sid, results, sid);
        }
      }
    case _ =>
  }

  lemma KeepsPastTwice(s: State, t: State, u: State)
    requires KeepsPast(s, t) && KeepsPast(t, u)
    ensures KeepsPast(s, u)
  {
  }

  /** What a closed connection amounted to never changes again, in the rest of the run. */
  lemma {:induction false} PastIsForever(ws: seq<World>, steps: seq<Step>, n: nat, m: nat)
    requires IsRun(ws, steps) && n <= m < |ws|
    ensures KeepsPast(ws[n].s, ws[m].s)
    decreases m
  {
    if n < m {
      PastIsForever(ws, steps, n, m - 1);
      RunKeepsInv(ws, steps, m - 1);
      NextKeepsPast(ws[m - 1], ws[m], steps[m - 1]);
      KeepsPastTwice(ws[n].s, ws[m - 1].s, ws[m].s);
    }
  }
}
