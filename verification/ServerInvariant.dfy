/** What every operation of the server keeps. */
module ServerInvariant {
  import opened Words
  import opened Frames
  import opened Reassembly
  import opened Kernel
  import opened ServerState

  /** The results submitted for one connection. */
  function Only(log: seq<Entry>, sid: nat): seq<Pdu> {
    if log == [] then [] else
      var n := |log| - 1;
      Only(log[..n], sid) + (if log[n].sid == sid then [log[n].pdu] else [])
  }

  lemma {:induction false} OnlyAppend(log: seq<Entry>, more: seq<Entry>, sid: nat)
    ensures Only(log + more, sid) == Only(log, sid) + Only(more, sid)
    decreases |more|
  {
    if more == [] {
      assert log + more == log;
    } else {
      var n := |more| - 1;
      OnlyAppend(log, more[..n], sid);
      assert (log + more)[..|log| + n] == log + more[..n];
    }
  }

  lemma {:induction false} OnlyTag(sid: nat, pdus: seq<Pdu>, other: nat)
    ensures Only(Tag(sid, pdus), other) == if sid == other then pdus else []
    decreases |pdus|
  {
    if pdus != [] {
      var n := |pdus| - 1;
      OnlyTag(sid, pdus[..n], other);
      assert Tag(sid, pdus)[..n] == Tag(sid, pdus[..n]);
    }
  }

  /** Descriptors of slots in use are all different. */
  ghost predicate Distinct(slots: seq<Slot>) {
    forall i, j :: 0 <= i < j < |slots| && slots[i].fd != -1 ==> slots[i].fd != slots[j].fd
  }

  /** A slot is free, or holds an open connection, its unfinished frame, and all its results are out. */
  ghost predicate SlotOk(s: State, i: nat)
    requires i < |s.slots|
  {
    var slot := s.slots[i];
    slot.fd == -1 ||
      (slot.fd in s.conns &&
       var c := s.conns[slot.fd];
       && Framed(slot.pdu, slot.offset, slot.bytes, c.taken, slot.times)
       && Only(s.log, c.sid) == Decode(c.taken, slot.times))
  }

  /** An open connection has its own identity; without a slot nothing of it was ever read. */
  ghost predicate ConnOk(s: State, fd: int)
    requires fd in s.conns
  {
    var c := s.conns[fd];
    && fd >= 0 && c.sid < s.nextSid && c.sid !in s.past
    && (Find(s.slots, fd) == -1 ==> c.taken == [] && Only(s.log, c.sid) == [])
  }

  /** A closed connection: its results are those of the whole frames read from it. */
  ghost predicate PastOk(s: State, sid: nat)
    requires sid in s.past
  {
    var p := s.past[sid];
    && sid < s.nextSid
    && SIZE * |p.times| <= |p.taken| < SIZE * |p.times| + SIZE
    && (p.end == ByPeer ==> p.unread == [])
    && Only(s.log, sid) == Decode(p.taken, p.times)
  }

  function LiveCount(slots: seq<Slot>): nat {
    if slots == [] then 0 else (if slots[0].fd == -1 then 0 else 1) + LiveCount(slots[1..])
  }

  ghost predicate SlotsOk(s: State) { forall i :: 0 <= i < |s.slots| ==> SlotOk(s, i) }

  ghost predicate ConnsOk(s: State) {
    && (forall fd :: fd in s.conns ==> ConnOk(s, fd))
    && (forall fd, gd :: fd in s.conns && gd in s.conns && fd != gd ==> s.conns[fd].sid != s.conns[gd].sid)
  }

  ghost predicate HistoryOk(s: State) {
    && (forall sid :: sid in s.past ==> PastOk(s, sid))
    && (forall k :: 0 <= k < |s.log| ==> s.log[k].sid < s.nextSid)
  }

  ghost predicate Inv(s: State) {
    && Distinct(s.slots) && SlotsOk(s) && ConnsOk(s) && HistoryOk(s)
    && LiveCount(s.slots) + s.closes == s.opens
  }

  lemma FindDistinct(slots: seq<Slot>, i: nat)
    requires Distinct(slots) && i < |slots| && slots[i].fd != -1
    ensures Find(slots, slots[i].fd) == i
  {
    var k := Find(slots, slots[i].fd);
    assert k >= 0 && slots[k].fd == slots[i].fd;
  }

  lemma {:induction false} LiveCountUpdate(slots: seq<Slot>, i: nat, slot: Slot)
    requires i < |slots|
    ensures LiveCount(slots[i := slot]) == LiveCount(slots) - (if slots[i].fd == -1 then 0 else 1)
                                                             + (if slot.fd == -1 then 0 else 1)
  {
    if i > 0 {
      assert slots[i := slot][1..] == slots[1..][i - 1 := slot];
      LiveCountUpdate(slots[1..], i - 1, slot);
    } else {
      assert slots[i := slot][1..] == slots[1..];
    }
  }

  /** What arrives for connections, and events for them, do not matter to the invariant. */
  lemma SameTakenKeepsInv(s: State, t: State)
    requires Inv(s) && t == s.(conns := t.conns) && t.conns.Keys == s.conns.Keys
    requires forall fd :: fd in s.conns ==> t.conns[fd].sid == s.conns[fd].sid && t.conns[fd].taken == s.conns[fd].taken
    ensures Inv(t)
  {
    forall k | 0 <= k < |t.slots| ensures SlotOk(t, k) { assert SlotOk(s, k); }
    forall fd | fd in t.conns ensures ConnOk(t, fd) { assert fd in s.conns && ConnOk(s, fd); }
    forall sid | sid in t.past ensures PastOk(t, sid) { assert PastOk(s, sid); }
  }

  // ----- closing

  lemma EndKeepsInv(s: State, i: nat, end: End)
    requires Inv(s) && i < |s.slots| && s.slots[i].fd != -1 && end != ByPeer
    ensures s.slots[i].fd in s.conns && Inv(EndAt(s, i, end))
  {
    assert SlotOk(s, i);
    var t := EndAt(s, i, end);
    var fd := s.slots[i].fd;
    var c := s.conns[fd];
    LiveCountUpdate(s.slots, i, t.slots[i]);
    forall k | 0 <= k < |t.slots| ensures SlotOk(t, k) {
      assert SlotOk(s, k);
    }
    forall gd | gd in t.conns ensures ConnOk(t, gd) {
      assert ConnOk(s, gd) && ConnOk(s, fd);
      FindAfterEnd(s, i, gd);
    }
    forall sid | sid in t.past ensures PastOk(t, sid) {
      if sid != c.sid { assert PastOk(s, sid); } else { assert ConnOk(s, fd); }
    }
  }

  lemma FindAfterEnd(s: State, i: nat, gd: int)
    requires Distinct(s.slots) && i < |s.slots| && s.slots[i].fd != -1 && gd != s.slots[i].fd && gd >= 0
    ensures Find(s.slots[i := s.slots[i].(fd := -1)], gd) == -1 <==> Find(s.slots, gd) == -1
  {
    var t := s.slots[i := s.slots[i].(fd := -1)];
    var k, l := Find(s.slots, gd), Find(t, gd);
    if k >= 0 { assert t[k].fd == gd; }
    if l >= 0 { assert s.slots[l].fd == gd; }
  }

  lemma CloseKeepsInv(s: State, fd: int, end: End)
    requires Inv(s) && end != ByPeer
    ensures Inv(Close(s, fd, end))
  {
    var i := Find(s.slots, fd);
    if i >= 0 && fd in s.conns {
      assert ConnOk(s, fd);
      EndKeepsInv(s, i, end);
    } else if i >= 0 {
      assert SlotOk(s, i);
      assert Close(s, fd, end) == s;
    }
  }

  // ----- purging

  /** `p` is `s` with exactly the expired clients from slot `i` on closed, and nothing else touched. */
  ghost predicate PurgedFrom(s: State, p: State, i: nat, now: Timespec) {
    && |p.slots| == |s.slots|
    && (forall k :: 0 <= k < |s.slots| ==>
          p.slots[k] == if k >= i && Expired(s.slots[k], now) then s.slots[k].(fd := -1) else s.slots[k])
    && (forall fd :: fd in p.conns <==> fd in s.conns && !ExpiredFd(s.slots, i, now, fd))
    && (forall fd :: fd in p.conns ==> p.conns[fd] == s.conns[fd])
    && (forall sid :: sid in s.past ==> sid in p.past && p.past[sid] == s.past[sid])
    && p.log == s.log && p.nextSid == s.nextSid && p.opens == s.opens
  }

  /** Some expired client from slot `i` on has this descriptor. */
  ghost predicate ExpiredFd(slots: seq<Slot>, i: nat, now: Timespec, fd: int) {
    exists k :: i <= k < |slots| && Expired(slots[k], now) && slots[k].fd == fd
  }

  lemma EndPurges(s: State, p: State, i: nat, now: Timespec)
    requires Inv(s) && i < |s.slots| && Expired(s.slots[i], now) && s.slots[i].fd in s.conns
    requires PurgedFrom(EndAt(s, i, Purged), p, i + 1, now)
    ensures PurgedFrom(s, p, i, now)
  {
    var t := EndAt(s, i, Purged);
    assert ConnOk(s, s.slots[i].fd);
    forall fd ensures fd in p.conns <==> fd in s.conns && !ExpiredFd(s.slots, i, now, fd) {
      if ExpiredFd(s.slots, i, now, fd) {
        var k :| i <= k < |s.slots| && Expired(s.slots[k], now) && s.slots[k].fd == fd;
        if k > i { assert Expired(t.slots[k], now) && t.slots[k].fd == fd; }
      }
      if ExpiredFd(t.slots, i + 1, now, fd) {
        var k :| i + 1 <= k < |t.slots| && Expired(t.slots[k], now) && t.slots[k].fd == fd;
        assert Expired(s.slots[k], now) && s.slots[k].fd == fd;
      }
    }
  }

  /** Although it closes by looking the descriptor up, a purge closes exactly the slots it finds expired. */
  lemma {:induction false} PurgeExact(s: State, i: nat, now: Timespec)
    requires Inv(s) && i <= |s.slots|
    ensures PurgedFrom(s, PurgeFrom(s, i, now), i, now)
    ensures Inv(PurgeFrom(s, i, now))
    decreases |s.slots| - i
  {
    if i < |s.slots| {
      if Expired(s.slots[i], now) {
        FindDistinct(s.slots, i);
        EndKeepsInv(s, i, Purged);
        var t := EndAt(s, i, Purged);
        PurgeExact(t, i + 1, now);
        EndPurges(s, PurgeFrom(t, i + 1, now), i, now);
      } else {
        PurgeExact(s, i + 1, now);
        SkipUnexpired(s, PurgeFrom(s, i + 1, now), i, now);
      }
    }
  }

  lemma SkipUnexpired(s: State, p: State, i: nat, now: Timespec)
    requires i < |s.slots| && !Expired(s.slots[i], now) && PurgedFrom(s, p, i + 1, now)
    ensures PurgedFrom(s, p, i, now)
  {
    forall fd ensures ExpiredFd(s.slots, i, now, fd) <==> ExpiredFd(s.slots, i + 1, now, fd) {
    }
  }

  /** All times are times of a clock. */
  predicate NormalTimes(slots: seq<Slot>) { forall k :: 0 <= k < |slots| ==> Normal(slots[k].deadline) }

  /** The purge in nanoseconds: no client whose time is up is left, every client with time left is as it was, on an
      open connection, and a client that is gone is on record as purged, with what was read of it. */
  lemma PurgeInTime(s: State, now: Timespec)
    requires Inv(s) && Normal(now) && NormalTimes(s.slots)
    ensures var p := PurgeFrom(s, 0, now);
            && |p.slots| == |s.slots|
            && forall k :: 0 <= k < |s.slots| && s.slots[k].fd != -1 ==>
                 (if Nanos(now) < Nanos(s.slots[k].deadline) then KeptClient(s, p, k) else PurgedClient(s, p, k))
    ensures var p := PurgeFrom(s, 0, now);
            forall k :: 0 <= k < |p.slots| && p.slots[k].fd != -1 ==> Nanos(now) < Nanos(p.slots[k].deadline)
  {
    var p := PurgeFrom(s, 0, now);
    PurgeExact(s, 0, now);
    forall k | 0 <= k < |s.slots| && s.slots[k].fd != -1
      ensures if Nanos(now) < Nanos(s.slots[k].deadline) then KeptClient(s, p, k) else PurgedClient(s, p, k)
    {
      PastDeadlineIsElapsed(now, s.slots[k].deadline);
      assert SlotOk(s, k) && ConnOk(s, s.slots[k].fd);
      if Nanos(now) < Nanos(s.slots[k].deadline) {
        NotExpiredFd(s, k, now);
      } else {
        PurgedOnRecord(s, 0, now, k);
      }
    }
    forall k | 0 <= k < |p.slots| && p.slots[k].fd != -1 ensures Nanos(now) < Nanos(p.slots[k].deadline) {
      PastDeadlineIsElapsed(now, s.slots[k].deadline);
      assert SlotOk(s, k) && (s.slots[k].fd != -1 ==> ConnOk(s, s.slots[k].fd));
    }
  }

  ghost predicate KeptClient(s: State, p: State, k: nat)
    requires k < |s.slots| && k < |p.slots|
  {
    var fd := s.slots[k].fd;
    p.slots[k] == s.slots[k] && fd in s.conns && fd in p.conns && p.conns[fd] == s.conns[fd]
  }

  ghost predicate PurgedClient(s: State, p: State, k: nat)
    requires k < |s.slots| && k < |p.slots|
  {
    var fd := s.slots[k].fd;
    && p.slots[k].fd == -1 && fd in s.conns && fd !in p.conns
    && var c := s.conns[fd];
    c.sid in p.past && p.past[c.sid] == Session(c.taken, c.queue, s.slots[k].times, Purged)
  }

  lemma NotExpiredFd(s: State, k: nat, now: Timespec)
    requires Inv(s) && k < |s.slots| && s.slots[k].fd != -1 && !Expired(s.slots[k], now)
    ensures !ExpiredFd(s.slots, 0, now, s.slots[k].fd)
  {
    forall i | 0 <= i < |s.slots| && Expired(s.slots[i], now) ensures s.slots[i].fd != s.slots[k].fd {
      if i < k { assert s.slots[i].fd != -1; }
    }
  }

  /** An expired client ends on record. */
  lemma {:induction false} PurgedOnRecord(s: State, i: nat, now: Timespec, k: nat)
    requires Inv(s) && i <= k < |s.slots| && Expired(s.slots[k], now)
    ensures PurgedClient(s, PurgeFrom(s, i, now), k)
    decreases |s.slots| - i
  {
    assert SlotOk(s, k) && ConnOk(s, s.slots[k].fd);
    PurgeExact(s, i, now);
    assert ExpiredFd(s.slots, i, now, s.slots[k].fd);
    if Expired(s.slots[i], now) {
      FindDistinct(s.slots, i);
      EndKeepsInv(s, i, Purged);
      var t := EndAt(s, i, Purged);
      PurgeExact(t, i + 1, now);
      if i < k {
        assert SlotOk(s, i) && ConnOk(s, s.slots[i].fd);
        PurgedOnRecord(t, i + 1, now, k);
      }
    } else {
      PurgedOnRecord(s, i + 1, now, k);
    }
  }

  // ----- accepting

  /** A new client gets its lifetime from the moment it is accepted, in the first free slot; a purge at a later moment
      finds its time up exactly from then on. No other slot is touched. */
  lemma NewClientLives(s: State, fd: int, born: Timespec, lifetime: int, i: nat, now: Timespec)
    requires fd >= 0 && i < |s.slots| && s.slots[i].fd == -1 && (forall k :: 0 <= k < i ==> s.slots[k].fd != -1)
    requires Normal(born) && Normal(now)
    ensures var t := NewClient(s, fd, born, lifetime);
            && |t.slots| == |s.slots| && t.slots[i].fd == fd && t.slots[i].offset == 0 && t.slots[i].bytes == 0
            && Nanos(t.slots[i].deadline) == Nanos(born) + lifetime * 1_000_000_000
            && (Expired(t.slots[i], now) <==> Nanos(now) >= Nanos(born) + lifetime * 1_000_000_000)
            && forall k :: 0 <= k < |s.slots| && k != i ==> t.slots[k] == s.slots[k]
  {
    assert Find(s.slots, -1) == i;
    PastDeadlineIsElapsed(now, Timespec(born.sec + lifetime, born.nsec));
  }

  lemma {:induction false} OnlyNone(log: seq<Entry>, sid: nat)
    requires forall k :: 0 <= k < |log| ==> log[k].sid != sid
    ensures Only(log, sid) == []
  {
    if log != [] { OnlyNone(log[..|log| - 1], sid); }
  }

  lemma AdmitKeepsInv(s: State, fd: int, queue: seq<byte>, eof: bool)
    requires Inv(s) && fd >= 0 && fd !in s.conns
    ensures Inv(Admit(s, fd, queue, eof))
  {
    var t := Admit(s, fd, queue, eof);
    OnlyNone(s.log, s.nextSid);
    forall k | 0 <= k < |t.slots| ensures SlotOk(t, k) { assert SlotOk(s, k); }
    forall gd | gd in t.conns ensures ConnOk(t, gd) {
      if gd != fd {
        assert ConnOk(s, gd);
      } else {
        assert s.nextSid !in s.past;
      }
    }
    forall gd, hd | gd in t.conns && hd in t.conns && gd != hd ensures t.conns[gd].sid != t.conns[hd].sid {
      if gd != fd { assert ConnOk(s, gd); }
      if hd != fd { assert ConnOk(s, hd); }
    }
    forall sid | sid in t.past ensures PastOk(t, sid) { assert PastOk(s, sid); }
  }

  /** A fresh client on a connection nothing was read from. */
  lemma NewClientKeepsInv(s: State, fd: int, now: Timespec, lifetime: int)
    requires Inv(s) && fd in s.conns && fd >= 0 && Find(s.slots, fd) == -1
    ensures Inv(NewClient(s, fd, now, lifetime))
  {
    var i := Find(s.slots, -1);
    if i >= 0 {
      var t := NewClient(s, fd, now, lifetime);
      assert ConnOk(s, fd);
      LiveCountUpdate(s.slots, i, t.slots[i]);
      forall k | 0 <= k < |t.slots| ensures SlotOk(t, k) {
        if k != i { assert SlotOk(s, k); }
      }
      forall gd | gd in t.conns ensures ConnOk(t, gd) {
        assert ConnOk(s, gd);
        if Find(s.slots, gd) >= 0 {
          var k := Find(s.slots, gd);
          assert t.slots[k].fd == gd;
        }
      }
      forall sid | sid in t.past ensures PastOk(t, sid) { assert PastOk(s, sid); }
    }
  }

  /** `client_new()` fails, changing nothing, exactly when every slot is in use. */
  lemma {:induction false} FullWhenAllLive(slots: seq<Slot>)
    ensures LiveCount(slots) <= |slots|
    ensures Find(slots, -1) == -1 <==> LiveCount(slots) == |slots|
  {
    if slots != [] { FullWhenAllLive(slots[1..]); }
  }

  lemma NewClientOutcome(s: State, fd: int, now: Timespec, lifetime: int)
    requires fd != -1
    ensures NewClient(s, fd, now, lifetime) == s <==> LiveCount(s.slots) == |s.slots|
    ensures LiveCount(s.slots) < |s.slots| ==> LiveCount(NewClient(s, fd, now, lifetime).slots) == LiveCount(s.slots) + 1
  {
    FullWhenAllLive(s.slots);
    var i := Find(s.slots, -1);
    if i >= 0 { LiveCountUpdate(s.slots, i, NewClient(s, fd, now, lifetime).slots[i]); }
  }

  predicate Possible(s: State, outcome: AcceptOutcome) {
    outcome.Taken? || outcome.SetupFailed? ==> outcome.fd >= 0 && outcome.fd !in s.conns
  }

  /** Accepting opens the one connection it takes, of which nothing has been read, and no other; without one it only
      purges. */
  lemma AcceptOpensOne(s: State, now: Timespec, born: Timespec, lifetime: int, outcome: AcceptOutcome)
    requires Inv(s) && Possible(PurgeFrom(s, 0, now), outcome)
    ensures var p, t := PurgeFrom(s, 0, now), NetAccept(s, now, born, lifetime, outcome);
            if outcome.Taken? then
              && t.conns.Keys == p.conns.Keys + {outcome.fd} && (forall fd :: fd in p.conns ==> t.conns[fd] == p.conns[fd])
              && t.conns[outcome.fd].sid == s.nextSid && t.conns[outcome.fd].taken == []
              && t.conns[outcome.fd].queue == outcome.queue && t.conns[outcome.fd].eof == outcome.eof
              && t.past == p.past && t.log == s.log
            else PurgedFrom(s, t, 0, now)
  {
    PurgeExact(s, 0, now);
  }

  lemma NetAcceptKeepsInv(s: State, now: Timespec, born: Timespec, lifetime: int, outcome: AcceptOutcome)
    requires Inv(s) && Possible(PurgeFrom(s, 0, now), outcome)
    ensures Inv(NetAccept(s, now, born, lifetime, outcome))
  {
    PurgeExact(s, 0, now);
    var p := PurgeFrom(s, 0, now);
    if outcome.Taken? {
      AdmitKeepsInv(p, outcome.fd, outcome.queue, outcome.eof);
      var q := Admit(p, outcome.fd, outcome.queue, outcome.eof);
      forall k | 0 <= k < |q.slots| ensures q.slots[k].fd != outcome.fd { assert SlotOk(p, k); }
      NewClientKeepsInv(q, outcome.fd, born, lifetime);
    }
  }

  // ----- receiving

  lemma LogAfter(log: seq<Entry>, sid: nat, results: seq<Pdu>, other: nat)
    ensures Only(log + Tag(sid, results), other) == Only(log, other) + (if other == sid then results else [])
  {
    OnlyAppend(log, Tag(sid, results), other);
    OnlyTag(sid, results, other);
  }

  lemma ReceivedSlots(s: State, t: State, i: nat, later: Conn, got: seq<byte>, times: seq<nat>, results: seq<Pdu>, k: nat)
    requires Inv(s) && i < |s.slots| && s.slots[i].fd != -1 && k < |s.slots|
    requires ReceivedAt(s, t, i, later, got, times, results)
    ensures SlotOk(t, k)
  {
    assert SlotOk(s, i) && SlotOk(s, k) && ConnOk(s, s.slots[i].fd);
    var sid := s.conns[s.slots[i].fd].sid;
    if s.slots[k].fd != -1 {
      LogAfter(s.log, sid, results, s.conns[s.slots[k].fd].sid);
    }
  }

  lemma ReceivedConns(s: State, t: State, i: nat, later: Conn, got: seq<byte>, times: seq<nat>, results: seq<Pdu>, gd: int)
    requires Inv(s) && i < |s.slots| && s.slots[i].fd != -1 && gd in t.conns
    requires ReceivedAt(s, t, i, later, got, times, results)
    ensures ConnOk(t, gd)
  {
    var fd := s.slots[i].fd;
    assert SlotOk(s, i) && ConnOk(s, fd) && ConnOk(s, gd);
    LogAfter(s.log, s.conns[fd].sid, results, s.conns[gd].sid);
    if gd == fd {
      assert t.slots[i].fd == fd;
    } else {
      var k := Find(s.slots, gd);
      if k >= 0 { assert t.slots[k].fd == gd; }
    }
  }

  lemma ReceivedPast(s: State, t: State, i: nat, later: Conn, got: seq<byte>, times: seq<nat>, results: seq<Pdu>, sid: nat)
    requires Inv(s) && i < |s.slots| && s.slots[i].fd != -1 && sid in t.past
    requires ReceivedAt(s, t, i, later, got, times, results)
    ensures PastOk(t, sid)
  {
    var fd := s.slots[i].fd;
    assert SlotOk(s, i) && ConnOk(s, fd);
    LogAfter(s.log, s.conns[fd].sid, results, sid);
    if sid != s.conns[fd].sid { assert PastOk(s, sid); }
  }

  lemma ReceivedKeepsInv(s: State, t: State, i: nat, later: Conn, got: seq<byte>, times: seq<nat>, results: seq<Pdu>)
    requires Inv(s) && i < |s.slots| && s.slots[i].fd != -1
    requires ReceivedAt(s, t, i, later, got, times, results)
    ensures Inv(t)
  {
    assert ConnOk(s, s.slots[i].fd);
    LiveCountUpdate(s.slots, i, t.slots[i]);
    forall k | 0 <= k < |t.slots| ensures SlotOk(t, k) {
      ReceivedSlots(s, t, i, later, got, times, results, k);
    }
    forall gd | gd in t.conns ensures ConnOk(t, gd) {
      ReceivedConns(s, t, i, later, got, times, results, gd);
    }
    forall sid | sid in t.past ensures PastOk(t, sid) {
      ReceivedPast(s, t, i, later, got, times, results, sid);
    }
  }
}
