/** One call of `recv_data()` while it runs: what has been consumed and submitted so far. */
module Receiving {
  import opened Words
  import opened Text
  import opened Frames
  import opened Reassembly
  import opened Kernel
  import opened ServerState

  /** Having started on slot `i` of state `s`: the slot and the connection now, and what went out. */
  ghost predicate Underway(s: State, i: nat, slot: Slot, later: Conn, got: seq<byte>, results: seq<Pdu>) {
    && i < |s.slots| && s.slots[i].fd in s.conns
    && slot.fd == s.slots[i].fd && slot.deadline == s.slots[i].deadline
    && var c := s.conns[slot.fd];
    && Advanced(c, later, got)
    && Framed(slot.pdu, slot.offset, slot.bytes, later.taken, slot.times)
    && SIZE * |s.slots[i].times| <= |c.taken| && s.slots[i].times <= slot.times
    && Decode(later.taken, slot.times) == Decode(c.taken, s.slots[i].times) + results
  }

  /** The state of the server at that point. */
  function Midway(s: State, i: nat, slot: Slot, later: Conn, results: seq<Pdu>): State
    requires i < |s.slots|
  {
    s.(slots := s.slots[i := slot], conns := s.conns[slot.fd := later], log := s.log + Tag(later.sid, results))
  }

  lemma Begin(s: State, i: nat)
    requires i < |s.slots| && s.slots[i].fd in s.conns
    requires var slot, c := s.slots[i], s.conns[s.slots[i].fd];
             Framed(slot.pdu, slot.offset, slot.bytes, c.taken, slot.times)
    ensures Underway(s, i, s.slots[i], s.conns[s.slots[i].fd], [], [])
    ensures Midway(s, i, s.slots[i], s.conns[s.slots[i].fd], []) == s
  {
    var slot, c := s.slots[i], s.conns[s.slots[i].fd];
    assert c.taken + [] == c.taken && [] + c.queue == c.queue;
    assert s.slots[i := slot] == s.slots && s.conns[slot.fd := c] == s.conns;
    assert s.log + Tag(c.sid, []) == s.log;
    assert Decode(c.taken, slot.times) + [] == Decode(c.taken, slot.times);
  }

  /** A partial read extends the frame. */
  lemma Partial(s: State, i: nat, slot: Slot, later: Conn, got: seq<byte>, results: seq<Pdu>,
                more: seq<byte>, next: Conn)
    requires Underway(s, i, slot, later, got, results)
    requires Advanced(later, next, more) && slot.offset + |more| < SIZE
    ensures Underway(s, i, slot.(pdu := Patch(slot.pdu, slot.offset, more), offset := slot.offset + |more|,
                                 bytes := slot.bytes + |more|), next, got + more, results)
  {
    AdvancedTwice(s.conns[slot.fd], later, next, got, more);
    FrameGrows(slot.pdu, slot.offset, slot.bytes, later.taken, slot.times, more);
  }

  /** A full read completes it; it is judged and the buffer starts afresh. */
  lemma Complete(s: State, i: nat, slot: Slot, later: Conn, got: seq<byte>, results: seq<Pdu>,
                 more: seq<byte>, next: Conn, zeroed: seq<byte>, now: nat)
    requires Underway(s, i, slot, later, got, results)
    requires Advanced(later, next, more) && slot.offset + |more| == SIZE
    requires |zeroed| == SIZE && forall k :: 0 <= k < SIZE ==> zeroed[k] == 0
    ensures Underway(s, i, slot.(pdu := zeroed, offset := 0, bytes := slot.bytes + |more|, times := slot.times + [now]),
                     next, got + more, results + Judge(now, Patch(slot.pdu, slot.offset, more)))
  {
    AdvancedTwice(s.conns[slot.fd], later, next, got, more);
    FrameCompletes(slot.pdu, slot.offset, slot.bytes, later.taken, slot.times, more, zeroed, now);
    assert slot.times <= slot.times + [now];
    var d0 := Decode(s.conns[slot.fd].taken, s.slots[i].times);
    var j := Judge(now, Patch(slot.pdu, slot.offset, more));
    assert d0 + results + j == d0 + (results + j);
  }

  lemma TagMore(log: seq<Entry>, sid: nat, a: seq<Pdu>, b: seq<Pdu>)
    ensures log + Tag(sid, a) + Tag(sid, b) == log + Tag(sid, a + b)
  {
  }

  /** The slot after counting `len` bytes just read into it; a full frame is judged at `now`. */
  function Counted(slot: Slot, len: nat, now: nat): Slot {
    if slot.offset + len < SIZE then slot.(offset := slot.offset + len, bytes := slot.bytes + len)
    else slot.(pdu := Zeroes(SIZE), offset := 0, bytes := slot.bytes + len, times := slot.times + [now])
  }

  /** What that submits. */
  function Reported(slot: Slot, len: nat, now: nat): seq<Pdu>
    requires |slot.pdu| == SIZE
  {
    if slot.offset + len < SIZE then [] else Judge(now, slot.pdu)
  }

  lemma Counts(s: State, i: nat, slot: Slot, conn: Conn, got: seq<byte>, results: seq<Pdu>,
               more: seq<byte>, next: Conn, now: nat)
    requires Underway(s, i, slot, conn, got, results)
    requires Advanced(conn, next, more) && slot.offset + |more| <= SIZE
    ensures var filled := slot.(pdu := Patch(slot.pdu, slot.offset, more));
            var after, report := Counted(filled, |more|, now), Reported(filled, |more|, now);
            && Underway(s, i, after, next, got + more, results + report)
            && var m := Midway(s, i, filled, next, results);
            && m.(slots := m.slots[i := after], log := m.log + Tag(next.sid, report))
               == Midway(s, i, after, next, results + report)
  {
    var filled := slot.(pdu := Patch(slot.pdu, slot.offset, more));
    TagMore(s.log, next.sid, results, Reported(filled, |more|, now));
    var after := Counted(filled, |more|, now);
    assert s.slots[i := filled][i := after] == s.slots[i := after];
    if slot.offset + |more| < SIZE {
      Partial(s, i, slot, conn, got, results, more, next);
      assert results + [] == results;
    } else {
      Complete(s, i, slot, conn, got, results, more, next, Zeroes(SIZE), now);
    }
  }

  /** Everything read and the connection still up: `recv_data()` returns. */
  lemma Drained(s: State, i: nat, slot: Slot, later: Conn, got: seq<byte>, results: seq<Pdu>)
    requires Underway(s, i, slot, later, got, results) && later.queue == [] && !later.eof
    requires Find(s.slots, slot.fd) == i
    ensures Received(s, Midway(s, i, slot, later, results), slot.fd)
  {
    assert ReceivedAt(s, Midway(s, i, slot, later, results), i, later, got, slot.times, results);
  }

  /** The end of the stream or an error, possibly after some bytes of an unfinished frame: the client is closed. */
  lemma Ended(s: State, i: nat, slot: Slot, later: Conn, got: seq<byte>, results: seq<Pdu>,
              more: seq<byte>, next: Conn, after: Slot, end: End)
    requires Underway(s, i, slot, later, got, results)
    requires Advanced(later, next, more) && slot.offset + |more| < SIZE
    requires Find(s.slots, slot.fd) == i
    requires (end == ByPeer || end == ByError) && (end == ByPeer ==> next.queue == [] && next.eof)
    requires after.fd == slot.fd && after.deadline == slot.deadline && after.times == slot.times
    ensures Received(s, EndAt(Midway(s, i, after, next, results), i, end), slot.fd)
  {
    Partial(s, i, slot, later, got, results, more, next);
    EndedSlots(s, i, after, next, results, end);
    var t := EndAt(Midway(s, i, after, next, results), i, end);
    assert ReceivedAt(s, t, i, next, got + more, slot.times, results);
  }

  /** The state after the end of a connection, told from the state the call started in. */
  lemma EndedSlots(s: State, i: nat, after: Slot, next: Conn, results: seq<Pdu>, end: End)
    requires i < |s.slots| && s.slots[i].fd == after.fd && after.fd in s.conns
    ensures var t := EndAt(Midway(s, i, after, next, results), i, end);
            && t.slots == s.slots[i := after.(fd := -1)] && t.conns == s.conns - {after.fd}
            && t.past == s.past[next.sid := Session(next.taken, next.queue, after.times, end)]
            && t.closes == s.closes + 1 && t.log == s.log + Tag(next.sid, results)
  {
    var t := EndAt(Midway(s, i, after, next, results), i, end);
    assert t.slots == s.slots[i := after.(fd := -1)];
    assert t.conns == s.conns - {after.fd};
  }
}
