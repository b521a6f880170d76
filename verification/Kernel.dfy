/** The part of the operating system iris.c talks to, and `pdu_read()` on top of it.

    Every connection is a first-in first-out queue of bytes. What arrives while a call is running, how
    much a `read()` returns and when it fails are decided by a script nothing constrains. */
module Kernel {
  import opened Words
  import opened Frames

  /** One connection: who it is, the bytes read from it so far, the bytes not read yet, whether its
      peer has finished, and whether an edge-triggered event is pending for it. */
  datatype Conn = Conn(sid: nat, taken: seq<byte>, queue: seq<byte>, eof: bool, ready: bool)

  /** What one `read()` meets: data and possibly the end of the stream arriving just before it, the
      most it returns, and a hard error. */
  datatype ReadEvent = ReadEvent(arrive: seq<byte>, hangup: bool, limit: nat, fail: bool)

  datatype Errno = NoError | Again | Failure

  /** Data or the end of the stream reaches a connection: an edge, if anything did. */
  function Deliver(c: Conn, data: seq<byte>, hangup: bool): Conn {
    if c.eof then c
    else c.(queue := c.queue + data, eof := hangup, ready := c.ready || data != [] || hangup)
  }

  /** `later` is `c` after some more arrived and `got` was read. */
  ghost predicate Advanced(c: Conn, later: Conn, got: seq<byte>) {
    && later.sid == c.sid
    && later.taken == c.taken + got
    && c.queue <= got + later.queue
    && (c.eof ==> later.eof && got + later.queue == c.queue)
    && (later.queue != [] || later.eof ==> c.queue != [] || c.eof || later.ready)
    && (c.ready ==> later.ready)
  }

  lemma AdvancedTwice(a: Conn, b: Conn, c: Conn, g: seq<byte>, h: seq<byte>)
    requires Advanced(a, b, g) && Advanced(b, c, h)
    ensures Advanced(a, c, g + h)
  {
    assert g + (h + c.queue) == (g + h) + c.queue;
    assert a.taken + g + h == a.taken + (g + h);
  }

  lemma PatchTwice(s: seq<byte>, at: nat, g: seq<byte>, h: seq<byte>)
    requires at + |g| + |h| <= |s|
    ensures Patch(Patch(s, at, g), at + |g|, h) == Patch(s, at, g + h)
  {
  }

  datatype ReadResult = ReadResult(conn: Conn, got: seq<byte>, errno: Errno)

  /** `read()` of at most `count` bytes; no bytes and no error is the end of the stream. */
  function ReadFrom(c: Conn, ev: ReadEvent, count: nat): (r: ReadResult)
    requires count > 0
  {
    var d := Deliver(c, ev.arrive, ev.hangup);
    if ev.fail then ReadResult(d, [], Failure)
    else if d.queue == [] then ReadResult(d, [], if d.eof then NoError else Again)
    else
      var most := if ev.limit < 1 then 1 else if ev.limit < count then ev.limit else count;
      var m := if most < |d.queue| then most else |d.queue|;
      ReadResult(d.(taken := d.taken + d.queue[..m], queue := d.queue[m..]), d.queue[..m], NoError)
  }

  lemma ReadAdvances(c: Conn, ev: ReadEvent, count: nat)
    requires count > 0
    ensures var r := ReadFrom(c, ev, count);
            && Advanced(c, r.conn, r.got) && |r.got| <= count
            && (ev.arrive == [] ==> |r.conn.queue| + |r.got| == |c.queue|)
            && (r.errno != NoError ==> r.got == [])
            && (r.errno == Again ==> r.conn.queue == [] && !r.conn.eof)
            && (r.errno == NoError && r.got == [] ==> r.conn.queue == [] && r.conn.eof)
  {
    var d := Deliver(c, ev.arrive, ev.hangup);
    DeliverAdvances(c, ev.arrive, ev.hangup);
    if !ev.fail && d.queue != [] {
      var most := if ev.limit < 1 then 1 else if ev.limit < count then ev.limit else count;
      var m := if most < |d.queue| then most else |d.queue|;
      TakeAdvances(c, d, m);
    }
  }

  lemma DeliverAdvances(c: Conn, data: seq<byte>, hangup: bool)
    ensures Advanced(c, Deliver(c, data, hangup), [])
    ensures data == [] ==> Deliver(c, data, hangup).queue == c.queue
    ensures !c.eof ==> Deliver(c, data, hangup).queue == c.queue + data && Deliver(c, data, hangup).eof == hangup
  {
    var d := Deliver(c, data, hangup);
    assert c.taken + [] == c.taken && [] + d.queue == d.queue;
  }

  /** Taking bytes off the front of a queue. */
  lemma TakeAdvances(c: Conn, d: Conn, m: nat)
    requires Advanced(c, d, []) && m <= |d.queue|
    ensures Advanced(c, d.(taken := d.taken + d.queue[..m], queue := d.queue[m..]), d.queue[..m])
  {
    assert c.taken + [] == c.taken && [] + d.queue == d.queue;
    assert d.queue[..m] + d.queue[m..] == d.queue;
  }

  /** How reading until `room` bytes are there can end: complete, drained, at the end, or broken. */
  ghost predicate ReadUntil(c: Conn, later: Conn, got: seq<byte>, room: nat, errno: Errno) {
    && Advanced(c, later, got) && |got| <= room
    && (errno == Again ==> later.queue == [] && !later.eof)
    && (errno == Failure ==> |got| < room)
    && (errno == NoError && |got| < room ==> later.queue == [] && later.eof)
  }

  method CopyTo(buf: array<byte>, at: nat, data: seq<byte>)
    requires at + |data| <= buf.Length
    modifies buf
    ensures buf[..] == Patch(old(buf[..]), at, data)
  {
    for i := 0 to |data|
      invariant forall k :: 0 <= k < i ==> buf[at + k] == data[k]
      invariant forall k :: 0 <= k < buf.Length && !(at <= k < at + i) ==> buf[k] == old(buf[k])
    {
      buf[at + i] := data[i];
    }
    ghost var p := Patch(old(buf[..]), at, data);
    forall k | 0 <= k < buf.Length ensures buf[k] == p[k] {
      if at <= k < at + |data| { assert buf[at + (k - at)] == data[k - at]; }
    }
  }

  class Sockets {
    var conns: map<int, Conn>
    var script: seq<ReadEvent>
    var clock: seq<nat>
    ghost var failures: nat

    constructor (script: seq<ReadEvent>, clock: seq<nat>)
      ensures conns == map[] && this.script == script && this.clock == clock
    {
      conns, this.script, this.clock, failures := map[], script, clock, 0;
    }

    /** What the clock says next, and what it says after that. */
    static function Tick(clock: seq<nat>): nat { if clock == [] then 0 else clock[0] }
    static function Ticked(clock: seq<nat>): seq<nat> { if clock == [] then [] else clock[1..] }

    /** `time()`: whatever the clock says. */
    method Time() returns (now: nat)
      modifies this`clock
      ensures now == Tick(old(clock)) && clock == Ticked(old(clock))
    {
      if clock == [] {
        now := 0;
      } else {
        now := clock[0];
        clock := clock[1..];
      }
    }

    /** The next event of the script; once it is used up, nothing more arrives and nothing fails. */
    function Next(count: nat): ReadEvent
      reads this`script
    {
      if script == [] then ReadEvent([], false, count, false) else script[0]
    }

    /** `read()` on a non-blocking socket. */
    method Read(fd: int, buf: array<byte>, at: nat, count: nat) returns (n: int, errno: Errno)
      requires fd in conns && count > 0 && at + count <= buf.Length
      modifies this`conns, this`script, this`failures, buf
      ensures failures == old(failures) + if errno == Failure then 1 else 0
      ensures var r := ReadFrom(old(conns[fd]), old(Next(count)), count);
              && conns == old(conns)[fd := r.conn]
              && errno == r.errno && n == (if errno == NoError then |r.got| else -1)
              && at + |r.got| <= buf.Length
              && buf[..] == Patch(old(buf[..]), at, r.got)
      ensures script == if old(script) == [] then [] else old(script)[1..]
    {
      var r := ReadFrom(conns[fd], Next(count), count);
      ReadAdvances(conns[fd], Next(count), count);
      script := if script == [] then [] else script[1..];
      conns := conns[fd := r.conn];
      CopyTo(buf, at, r.got);
      n, errno := if r.errno == NoError then |r.got| else -1, r.errno;
      failures := failures + if errno == Failure then 1 else 0;
    }

    /** One turn of the loop of `pdu_read()`, with `got` read into the buffer since `c0` and `s0`. */
    method ReadSome(fd: int, buf: array<byte>, start: nat, offset: nat, want: nat, ghost c0: Conn, ghost s0: seq<byte>,
                    ghost got: seq<byte>) returns (n: int, errno: Errno, ghost all: seq<byte>)
      requires fd in conns && buf.Length == SIZE == |s0| && want > 0 && want + offset + start == SIZE && offset == |got|
      requires Advanced(c0, conns[fd], got) && buf[..] == Patch(s0, start, got)
      modifies this`conns, this`script, this`failures, buf
      ensures failures == old(failures) + (if errno == Failure then 1 else 0)
      ensures fd in conns && conns == old(conns)[fd := conns[fd]]
      ensures Advanced(c0, conns[fd], all) && |all| == |got| + (if n > 0 then n else 0) <= SIZE - start
      ensures buf[..] == Patch(s0, start, all)
      ensures n <= want && (n < 0 <==> errno != NoError)
      ensures errno == Again ==> conns[fd].queue == [] && !conns[fd].eof
      ensures errno == NoError && n == 0 ==> conns[fd].queue == [] && conns[fd].eof
      ensures if old(script) == [] then script == [] && |conns[fd].queue| + |all| == |old(conns[fd]).queue| + |got|
              else |script| < |old(script)|
    {
      ghost var before := conns[fd];
      ghost var r := ReadFrom(before, Next(want), want);
      ReadAdvances(before, Next(want), want);
      AdvancedTwice(c0, before, r.conn, got, r.got);
      PatchTwice(s0, start, got, r.got);
      n, errno := Read(fd, buf, start + offset, want);
      all := got + r.got;
    }

    /** `pdu_read()`: reads on until the frame is complete, nothing is left, the stream ends or fails. */
    method PduRead(fd: int, buf: array?<byte>, start: nat) returns (len: int, errno: Errno, ghost got: seq<byte>)
      requires fd in conns && (buf != null ==> buf.Length == SIZE)
      modifies this`conns, this`script, this`failures, buf
      ensures buf == null || start > SIZE ==>
        len == -1 && errno == Failure && got == [] && conns == old(conns) && script == old(script)
      ensures buf != null && start <= SIZE ==>
        && failures == old(failures) + (if errno == Failure then 1 else 0)
        && fd in conns && conns == old(conns)[fd := conns[fd]]
        && ReadUntil(old(conns[fd]), conns[fd], got, SIZE - start, errno)
        && buf[..] == Patch(old(buf[..]), start, got)
        && len == (if errno == Failure then -1 else |got|)
        && (if old(script) == [] then script == [] && |conns[fd].queue| + |got| == |old(conns[fd]).queue|
            else start < SIZE ==> |script| < |old(script)|)
    {
      if buf == null || SIZE - start < 0 {
        return -1, Failure, [];
      }
      var want, offset := SIZE - start, 0;
      ghost var c0, s0 := conns[fd], buf[..];
      got, errno := [], NoError;
      assert s0 == Patch(s0, start, []);
      var n := 0;
      while want > 0
        invariant 0 <= want && want + offset + start == SIZE && offset == |got| && errno == NoError
        invariant failures == old(failures)
        invariant fd in conns && conns == old(conns)[fd := conns[fd]]
        invariant Advanced(c0, conns[fd], got)
        invariant buf[..] == Patch(s0, start, got)
        invariant if old(script) == [] then script == [] && |conns[fd].queue| + |got| == |c0.queue|
                  else |script| < |old(script)| || (want == SIZE - start && script == old(script))
        decreases want
      {
        n, errno, got := ReadSome(fd, buf, start, offset, want, c0, s0, got);
        if n <= 0 { break; }
        offset := offset + n;
        want := want - n;
      }
      if n < 0 && errno != Again {
        return -1, errno, got;
      }
      return offset, errno, got;
    }
  }
}
