/** The sending half: `pdu_write()` of iris.c and the loop in `main` of send_iris.c. */
module Sending {
  import opened Words
  import opened CrcTable
  import opened Frames

  /** What one `write()` does: takes at most so many bytes, takes none, or fails. */
  datatype WriteOutcome = Takes(most: nat) | TakesNone | Fails

  /** How many bytes of one frame got out. */
  type Length = n: nat | n <= SIZE

  /** How many bytes of a frame get out, whether the write failed, and what is left of the script. */
  datatype Written = Written(sent: nat, failed: bool, script: seq<WriteOutcome>)

  /** `pdu_write()` of `len` bytes: on after short writes, until done, an error, or a write of nothing. */
  function WriteOut(len: nat, script: seq<WriteOutcome>): (w: Written)
    ensures w.sent <= len && |w.script| <= |script| && (w.failed ==> w.sent < len)
    ensures TakesNone !in script && !w.failed ==> w.sent == len
    ensures TakesNone !in script ==> TakesNone !in w.script
    decreases |script|
  {
    if len == 0 then Written(0, false, script)
    else if script == [] then Written(len, false, script)
    else
      match script[0]
      case Fails => Written(0, true, script[1..])
      case TakesNone => Written(0, false, script[1..])
      case Takes(most) =>
        var n := if most < 1 then 1 else if most < len then most else len;
        var w := WriteOut(len - n, script[1..]);
        w.(sent := n + w.sent)
  }

  /** One `write()` of up to `len` bytes. */
  function WriteOnce(len: nat, script: seq<WriteOutcome>): (n: int)
    requires len > 0
    ensures -1 <= n <= len
  {
    if script == [] then len else
      match script[0]
      case Fails => -1
      case TakesNone => 0
      case Takes(most) => if most < 1 then 1 else if most < len then most else len
  }

  lemma WriteStep(len: nat, script: seq<WriteOutcome>)
    requires len > 0
    ensures var n, rest := WriteOnce(len, script), if script == [] then [] else script[1..];
            WriteOut(len, script) == if n <= 0 then Written(0, n < 0, rest)
                                     else var w := WriteOut(len - n, rest); w.(sent := n + w.sent)
  {
    if script == [] {
      assert WriteOut(0, []) == Written(0, false, []);
    }
  }

  /** The numbers of bytes sent of each of `n` frames, up to and including one whose write failed. */
  function Lengths(n: nat, script: seq<WriteOutcome>): (ls: seq<Length>)
    ensures |ls| <= n
    decreases n, |script|
  {
    if n == 0 then [] else
      var w := WriteOut(SIZE, script);
      [w.sent] + (if w.failed then [] else Lengths(n - 1, w.script))
  }

  /** How many frames the program counts as sent. */
  function CountSent(n: nat, script: seq<WriteOutcome>): (k: nat)
    ensures k <= |Lengths(n, script)| <= k + 1 && (k < n <==> k < |Lengths(n, script)|)
    decreases n, |script|
  {
    if n == 0 then 0 else
      var w := WriteOut(SIZE, script);
      if w.failed then 0 else 1 + CountSent(n - 1, w.script)
  }

  /** The bytes that get out. */
  function Wire(frames: seq<Memory>, lengths: seq<Length>): (s: seq<byte>)
    requires |lengths| <= |frames|
    decreases |lengths|
  {
    if lengths == [] then [] else frames[0][..lengths[0]] + Wire(frames[1..], lengths[1..])
  }

  function Concat(frames: seq<Memory>): (s: seq<byte>)
    ensures |s| == SIZE * |frames|
  {
    if frames == [] then [] else frames[0] + Concat(frames[1..])
  }

  // ----- what is on the wire

  predicate AllZero(lengths: seq<Length>) { forall i :: 0 <= i < |lengths| ==> lengths[i] == 0 }

  /** After a frame that was cut short nothing follows. */
  predicate NoGap(lengths: seq<Length>) {
    lengths == [] || (if lengths[0] < SIZE then AllZero(lengths[1..]) else NoGap(lengths[1..]))
  }

  lemma {:induction false} WireOfZeros(frames: seq<Memory>, lengths: seq<Length>)
    requires |lengths| <= |frames| && AllZero(lengths)
    ensures Wire(frames, lengths) == []
    decreases |lengths|
  {
    if lengths != [] {
      assert AllZero(lengths[1..]) by {
        forall i | 0 <= i < |lengths[1..]| ensures lengths[1..][i] == 0 { assert lengths[i + 1] == 0; }
      }
      WireOfZeros(frames[1..], lengths[1..]);
    }
  }

  lemma {:induction false} NoGapIsPrefix(frames: seq<Memory>, lengths: seq<Length>)
    requires |lengths| <= |frames| && NoGap(lengths)
    ensures Wire(frames, lengths) <= Concat(frames)
    decreases |lengths|
  {
    if lengths != [] {
      if lengths[0] < SIZE {
        WireOfZeros(frames[1..], lengths[1..]);
        assert Wire(frames, lengths) == frames[0][..lengths[0]];
      } else {
        NoGapIsPrefix(frames[1..], lengths[1..]);
        assert frames[0][..lengths[0]] == frames[0];
      }
    }
  }

  function Filled(b: byte): Memory { seq(SIZE, _ => b) }

  /** One frame of zeros, the others of ones. */
  function Marked(n: nat): (fs: seq<Memory>)
    requires n > 0
    ensures |fs| == n
  {
    [Filled(0)] + seq(n - 1, _ => Filled(1))
  }

  lemma {:induction false} OnesOnWire(frames: seq<Memory>, lengths: seq<Length>)
    requires |lengths| <= |frames|
    requires !AllZero(lengths) && forall i :: 0 <= i < |frames| ==> frames[i] == Filled(1)
    ensures Wire(frames, lengths) != [] && Wire(frames, lengths)[0] == 1
    decreases |lengths|
  {
    if lengths[0] == 0 {
      assert !AllZero(lengths[1..]) by {
        var i :| 0 <= i < |lengths| && lengths[i] != 0;
        assert lengths[1..][i - 1] != 0;
      }
      OnesOnWire(frames[1..], lengths[1..]);
    }
  }

  /** Frames for which a gap shows. */
  lemma {:induction false} GapShows(lengths: seq<Length>, n: nat) returns (frames: seq<Memory>)
    requires |lengths| <= n && !NoGap(lengths)
    ensures |frames| == n && !(Wire(frames, lengths) <= Concat(frames))
    decreases |lengths|
  {
    if lengths[0] < SIZE {
      frames := Marked(n);
      var k := lengths[0];
      OnesOnWire(frames[1..], lengths[1..]);
      assert Wire(frames, lengths)[k] == 1;
      assert Concat(frames)[k] == frames[0][k] == 0;
    } else {
      var rest := GapShows(lengths[1..], n - 1);
      frames := [Filled(0)] + rest;
      assert frames[1..] == rest && frames[0][..SIZE] == frames[0];
      assert Wire(frames, lengths)[SIZE..] == Wire(rest, lengths[1..]);
      assert Concat(frames)[SIZE..] == Concat(rest);
    }
  }

  /** The writes followed one by one: `left` bytes of the current frame and `frames` frames, this one included, are to
      go, and `stalled` tells that a write took nothing. A gap is a write that takes something after that. */
  predicate Gaps(left: nat, frames: nat, stalled: bool, script: seq<WriteOutcome>)
    decreases |script|
  {
    if frames == 0 then false
    else if script == [] then stalled
    else
      match script[0]
      case Fails => false
      case TakesNone => Gaps(SIZE, frames - 1, true, script[1..])
      case Takes(most) =>
        stalled ||
        (var n := if most < 1 then 1 else most;
         if n < left then Gaps(left - n, frames, false, script[1..]) else Gaps(SIZE, frames - 1, false, script[1..]))
  }

  /** Some write of the first `n` frames takes nothing, and a later one before any failure takes something. */
  predicate LeavesGap(n: nat, script: seq<WriteOutcome>) { Gaps(SIZE, n, false, script) }

  /** Following the writes of one frame. */
  lemma {:induction false} GapsFrame(left: nat, n: nat, script: seq<WriteOutcome>)
    requires left > 0 && n > 0
    ensures var w := WriteOut(left, script);
            Gaps(left, n, false, script) <==> !w.failed && Gaps(SIZE, n - 1, w.sent < left, w.script)
    decreases |script|
  {
    if script != [] && script[0].Takes? {
      var most := script[0].most;
      var m := if most < 1 then 1 else most;
      if m < left {
        GapsFrame(left - m, n, script[1..]);
      } else {
        assert WriteOut(0, script[1..]) == Written(0, false, script[1..]);
      }
    }
  }

  /** After a write that took nothing, anything sent is behind a gap. */
  lemma {:induction false} GapsStalled(n: nat, script: seq<WriteOutcome>)
    ensures Gaps(SIZE, n, true, script) <==> !AllZero(Lengths(n, script))
    decreases n
  {
    if n > 0 {
      AllZeroFirst(n, script);
      FirstWrite(script);
      if script != [] && script[0].TakesNone? { GapsStalled(n - 1, script[1..]); }
    }
  }

  lemma FirstWrite(script: seq<WriteOutcome>)
    ensures var w := WriteOut(SIZE, script);
            && (script == [] || script[0].Takes? ==> w.sent > 0)
            && (script != [] && script[0].Fails? ==> w.sent == 0 && w.failed)
            && (script != [] && script[0].TakesNone? ==> w == Written(0, false, script[1..]))
  {
  }

  lemma AllZeroFirst(n: nat, script: seq<WriteOutcome>)
    requires n > 0
    ensures var w := WriteOut(SIZE, script);
            AllZero(Lengths(n, script)) <==> w.sent == 0 && (w.failed || AllZero(Lengths(n - 1, w.script)))
  {
    var w := WriteOut(SIZE, script);
    LengthsStep(n, script);
    if w.failed {
      AllZeroCons(w.sent, []);
    } else {
      AllZeroCons(w.sent, Lengths(n - 1, w.script));
    }
  }

  lemma AllZeroCons(x: Length, rest: seq<Length>)
    ensures AllZero([x] + rest) <==> x == 0 && AllZero(rest)
  {
    if AllZero([x] + rest) {
      assert ([x] + rest)[0] == 0;
      forall i | 0 <= i < |rest| ensures rest[i] == 0 { assert ([x] + rest)[i + 1] == 0; }
    }
  }

  lemma {:induction false} NoGapOnScript(n: nat, script: seq<WriteOutcome>)
    ensures NoGap(Lengths(n, script)) <==> !LeavesGap(n, script)
    decreases n
  {
    if n > 0 {
      var w := WriteOut(SIZE, script);
      GapsFrame(SIZE, n, script);
      FirstLength(n, script);
      if !w.failed {
        if w.sent < SIZE { GapsStalled(n - 1, w.script); } else { NoGapOnScript(n - 1, w.script); }
      }
    }
  }

  lemma FirstLength(n: nat, script: seq<WriteOutcome>)
    requires n > 0
    ensures var w := WriteOut(SIZE, script);
            NoGap(Lengths(n, script)) <==>
              w.failed || if w.sent < SIZE then AllZero(Lengths(n - 1, w.script)) else NoGap(Lengths(n - 1, w.script))
  {
    var w := WriteOut(SIZE, script);
    LengthsStep(n, script);
    if w.failed {
      NoGapCons(w.sent, []);
    } else {
      NoGapCons(w.sent, Lengths(n - 1, w.script));
    }
  }

  lemma NoGapCons(x: Length, rest: seq<Length>)
    ensures NoGap([x] + rest) <==> if x < SIZE then AllZero(rest) else NoGap(rest)
  {
    assert ([x] + rest)[1..] == rest;
  }

  /** A socket whose writes of something always take something leaves no gap. */
  lemma OrdinaryWrites(n: nat, script: seq<WriteOutcome>)
    requires TakesNone !in script
    ensures !LeavesGap(n, script)
  {
    WholeFrames(n, script);
    NoGapOnScript(n, script);
  }

  /** Whatever the frames, the wire is a prefix of them in a row if and only if no write takes something behind one
      that took nothing: the program takes that one for success and goes on with the next frame. */
  lemma WireIsPrefix(n: nat, script: seq<WriteOutcome>)
    ensures (forall frames: seq<Memory> :: |frames| == n ==> Wire(frames, Lengths(n, script)) <= Concat(frames))
            <==> !LeavesGap(n, script)
  {
    NoGapOnScript(n, script);
    if NoGap(Lengths(n, script)) {
      forall frames: seq<Memory> | |frames| == n ensures Wire(frames, Lengths(n, script)) <= Concat(frames) {
        NoGapIsPrefix(frames, Lengths(n, script));
      }
    } else {
      var frames := GapShows(Lengths(n, script), n);
    }
  }

  /** Such a gap exists. */
  lemma GapExample()
    ensures LeavesGap(2, [TakesNone])
  {
    assert [TakesNone][1..] == [];
    assert Gaps(SIZE, 1, true, []);
  }

  /** A socket whose writes always take something or fail sends whole frames, except where one failed. */
  lemma {:induction false} WholeFrames(n: nat, script: seq<WriteOutcome>)
    requires TakesNone !in script
    ensures var ls, k := Lengths(n, script), CountSent(n, script);
            WholeUpTo(ls, k) && NoGap(ls)
    decreases n
  {
    if n > 0 {
      var w := WriteOut(SIZE, script);
      if w.failed {
        FirstCut(n, script);
      } else {
        WholeFrames(n - 1, w.script);
        FirstWhole(n, script, w, Lengths(n - 1, w.script), CountSent(n - 1, w.script));
      }
    }
  }

  lemma FirstWhole(n: nat, script: seq<WriteOutcome>, w: Written, rest: seq<Length>, k: nat)
    requires n > 0 && w == WriteOut(SIZE, script) && !w.failed && w.sent == SIZE
    requires rest == Lengths(n - 1, w.script) && k == CountSent(n - 1, w.script) && WholeUpTo(rest, k) && NoGap(rest)
    ensures WholeUpTo(Lengths(n, script), CountSent(n, script)) && NoGap(Lengths(n, script))
  {
    LengthsStep(n, script);
    OneMoreWhole(w.sent, rest, k);
  }

  lemma FirstCut(n: nat, script: seq<WriteOutcome>)
    requires n > 0 && WriteOut(SIZE, script).failed
    ensures WholeUpTo(Lengths(n, script), CountSent(n, script)) && NoGap(Lengths(n, script))
  {
    LengthsStep(n, script);
    CutFrame(WriteOut(SIZE, script).sent);
  }

  /** The first `k` frames are whole, and the next one is not. */
  ghost predicate WholeUpTo(ls: seq<Length>, k: nat) {
    k <= |ls| && (forall i :: 0 <= i < k ==> ls[i] == SIZE) && (k < |ls| ==> ls[k] < SIZE)
  }

  lemma OneMoreWhole(x: Length, rest: seq<Length>, k: nat)
    requires x == SIZE && WholeUpTo(rest, k) && NoGap(rest)
    ensures WholeUpTo([x] + rest, 1 + k) && NoGap([x] + rest)
  {
    NoGapCons(x, rest);
  }

  lemma CutFrame(x: Length)
    requires x < SIZE
    ensures WholeUpTo([x] + [], 0) && NoGap([x] + [])
  {
    NoGapCons(x, []);
  }

  /** Frames sent whole are on the wire as they are. */
  lemma {:induction false} WireOfWhole(frames: seq<Memory>, lengths: seq<Length>)
    requires |lengths| == |frames| && forall i :: 0 <= i < |lengths| ==> lengths[i] == SIZE
    ensures Wire(frames, lengths) == Concat(frames)
    decreases |lengths|
  {
    if lengths != [] {
      WireOfWhole(frames[1..], lengths[1..]);
      assert frames[0][..SIZE] == frames[0];
    }
  }

  lemma {:induction false} FrameGoesOut(len: nat, script: seq<WriteOutcome>)
    requires Fails !in script
    ensures !WriteOut(len, script).failed && Fails !in WriteOut(len, script).script
    decreases |script|
  {
    if len > 0 && script != [] && script[0].Takes? {
      var most := script[0].most;
      FrameGoesOut(len - (if most < 1 then 1 else if most < len then most else len), script[1..]);
    }
  }

  /** Without a failing write all frames are counted. */
  lemma {:induction false} AllCounted(n: nat, script: seq<WriteOutcome>)
    requires Fails !in script
    ensures CountSent(n, script) == n
    decreases n
  {
    if n > 0 {
      FrameGoesOut(SIZE, script);
      LengthsStep(n, script);
      AllCounted(n - 1, WriteOut(SIZE, script).script);
    }
  }

  /** What is on the wire when all frames were counted and no write took nothing. */
  lemma AllOnWire(frames: seq<Memory>, script: seq<WriteOutcome>)
    requires TakesNone !in script && CountSent(|frames|, script) == |frames|
    ensures Wire(frames, Lengths(|frames|, script)) == Concat(frames)
  {
    WholeFrames(|frames|, script);
    WireOfWhole(frames, Lengths(|frames|, script));
  }

  // ----- the code

  /** What is still to come of a frame `off` bytes of which are out, as an outcome for the frame. */
  function Behind(off: nat, w: Written): Written { w.(sent := off + w.sent) }

  lemma BehindStep(off: nat, len: nat, script: seq<WriteOutcome>)
    requires len > 0
    ensures var n, rest := WriteOnce(len, script), if script == [] then [] else script[1..];
            Behind(off, WriteOut(len, script)) == if n <= 0 then Written(off, n < 0, rest)
                                                  else Behind(off + n, WriteOut(len - n, rest))
  {
    WriteStep(len, script);
  }

  lemma WireGrows(base: seq<byte>, buf: seq<byte>, off: nat, n: nat)
    requires off + n <= |buf|
    ensures base + buf[..off] + buf[off..off + n] == base + buf[..off + n]
  {
    assert buf[..off] + buf[off..off + n] == buf[..off + n];
  }

  /** A connected socket: everything written to it, and how its next writes go. */
  class Socket {
    var wire: seq<byte>
    var script: seq<WriteOutcome>

    constructor (script: seq<WriteOutcome>)
      ensures wire == [] && this.script == script
    {
      wire, this.script := [], script;
    }

    /** `write()`. */
    method Write(buf: array<byte>, at: nat, len: nat) returns (n: int)
      requires at + len <= buf.Length && len > 0
      modifies this
      ensures script == if old(script) == [] then [] else old(script)[1..]
      ensures n == WriteOnce(len, old(script))
      ensures wire == old(wire) + buf[at..at + if n < 0 then 0 else n]
    {
      n := WriteOnce(len, script);
      script := if script == [] then [] else script[1..];
      wire := wire + buf[at..at + if n < 0 then 0 else n];
    }

    /** One turn of the loop of `pdu_write()`. */
    method WriteSome(buf: array<byte>, off: nat, len: nat, ghost base: seq<byte>, ghost w: Written) returns (n: int)
      requires buf.Length == SIZE && off + len == SIZE && len > 0
      requires wire == base + buf[..off] && w == Behind(off, WriteOut(len, script))
      modifies this
      ensures -1 <= n <= len
      ensures n <= 0 ==> w == Written(off, n < 0, script) && wire == base + buf[..off]
      ensures n > 0 ==> w == Behind(off + n, WriteOut(len - n, script)) && wire == base + buf[..off + n]
    {
      BehindStep(off, len, script);
      n := Write(buf, off, len);
      ghost var m := if n < 0 then 0 else n;
      WireGrows(base, buf[..], off, m);
      assert wire == base + buf[..off + m];
    }

    /** `pdu_write()`. */
    method PduWrite(buf: array?<byte>) returns (n: int)
      requires buf != null ==> buf.Length == SIZE
      modifies this
      ensures buf == null ==> n == -1 && wire == old(wire) && script == old(script)
      ensures buf != null ==>
        var w := WriteOut(SIZE, old(script));
        && n == (if w.failed then -1 else w.sent)
        && script == w.script && wire == old(wire) + buf[..w.sent]
    {
      if buf == null {
        return -1;
      }
      var len, off := SIZE, 0;
      n := 0;
      ghost var base, w := wire, WriteOut(SIZE, script);
      while len > 0
        invariant 0 <= len && off + len == SIZE
        invariant wire == base + buf[..off]
        invariant w == Behind(off, WriteOut(len, script))
      {
        n := WriteSome(buf, off, len, base, w);
        if n <= 0 {
          return if n < 0 then n else off;
        }
        off := off + n;
        len := len - n;
      }
      return off;
    }
  }

  /** The frame of a packet sent at a given time; the clock is cut to 32 bits. */
  function StampedFrame(p: Pdu, now: nat): Memory
    requires p.Shape()
  {
    Frame(p.(ts := now % 0x1_0000_0000))
  }

  /** The frames for some packets stamped at the given times. */
  function Stamped(packets: seq<Pdu>, times: seq<nat>): (fs: seq<Memory>)
    requires |packets| == |times| && forall i :: 0 <= i < |packets| ==> packets[i].Shape()
    ensures |fs| == |packets|
  {
    seq(|packets|, i requires 0 <= i < |packets| => StampedFrame(packets[i], times[i]))
  }

  lemma {:induction false} WireSnoc(frames: seq<Memory>, ls: seq<Length>, l: Length)
    requires |ls| < |frames|
    ensures Wire(frames, ls + [l]) == Wire(frames, ls) + frames[|ls|][..l]
    decreases |ls|
  {
    if ls == [] {
      assert (ls + [l])[1..] == [];
    } else {
      assert (ls + [l])[1..] == ls[1..] + [l];
      WireSnoc(frames[1..], ls[1..], l);
    }
  }

  /** The packets in the memory of a machine. */
  ghost function Views(o: Order, packets: seq<array<byte>>): (ps: seq<Pdu>)
    requires forall i :: 0 <= i < |packets| ==> packets[i].Length == SIZE
    reads packets
    ensures |ps| == |packets| && forall i :: 0 <= i < |ps| ==> ps[i] == View(o, packets[i][..])
    decreases |packets|
  {
    if packets == [] then [] else [View(o, packets[0][..])] + Views(o, packets[1..])
  }

  lemma StampedView(o: Order, s: Memory, ts: uint32)
    ensures View(o, Patch(s, 4, Bytes32(o, ts))) == View(o, s).(ts := ts)
  {
    var p := View(o, s);
    ImageOfView(o, s);
    FieldsOfImage(o, p);
    PatchField(Bytes32(o, p.crc), Bytes32(o, p.ts), Bytes16(o, p.version), Bytes16(o, p.rc),
               p.host + p.service + p.output, Bytes32(o, ts), [0, 0]);
    FieldsOfImage(o, p.(ts := ts));
    ViewOfImage(o, p.(ts := ts));
  }

  /** `packets[i].ts = now; pdu_pack(&packets[i])`. */
  method StampAndPack(table: Table, packet: array<byte>, o: Order, now: nat)
    requires (table.Blank() || table.Filled()) && packet.Length == SIZE
    modifies table.entries, packet
    ensures table.Filled() && packet[..] == StampedFrame(View(o, old(packet[..])), now)
  {
    StampedView(o, packet[..], now % 0x1_0000_0000);
    Store32(packet, 4, o, now % 0x1_0000_0000);
    var status := PduPack(table, packet, o);
  }

  /** What the rest of the loop does, one frame at a time. */
  lemma LengthsStep(m: nat, script: seq<WriteOutcome>)
    requires m > 0
    ensures var w := WriteOut(SIZE, script);
            if w.failed then Lengths(m, script) == [w.sent] + [] && CountSent(m, script) == 0
            else Lengths(m, script) == [w.sent] + Lengths(m - 1, w.script)
                 && CountSent(m, script) == 1 + CountSent(m - 1, w.script)
  {
    assert WriteOut(SIZE, script).failed ==> Lengths(m, script) == [WriteOut(SIZE, script).sent];
  }

  /** One turn of the loop of `main`. */
  method SendOne(sock: Socket, table: Table, packet: array<byte>, o: Order, now: nat) returns (written: int)
    requires (table.Blank() || table.Filled()) && packet.Length == SIZE
    modifies sock, table.entries, packet
    ensures table.Filled()
    ensures var w, f := WriteOut(SIZE, old(sock.script)), StampedFrame(View(o, old(packet[..])), now);
            && sock.wire == old(sock.wire) + f[..w.sent] && sock.script == w.script
            && written == if w.failed then -1 else w.sent
  {
    StampAndPack(table, packet, o, now);
    written := sock.PduWrite(packet);
    assert packet[..] == StampedFrame(View(o, old(packet[..])), now);
  }

  /** The packets are separate structures in memory. */
  ghost predicate Apart(packets: seq<array<byte>>) {
    && (forall i :: 0 <= i < |packets| ==> packets[i].Length == SIZE)
    && (forall i, j :: 0 <= i < j < |packets| ==> packets[i] != packets[j])
  }

  /** What is left to do of the loop of `main`, from packet `k` on. */
  ghost predicate Ready(packets: seq<array<byte>>, o: Order, clock: seq<nat>, frames: seq<Memory>, k: nat)
    requires |packets| == |clock| == |frames| && Apart(packets)
    reads packets
  {
    forall i {:trigger packets[i]} :: k <= i < |packets| ==> frames[i] == StampedFrame(View(o, packets[i][..]), clock[i])
  }

  lemma AllReady(packets: seq<array<byte>>, o: Order, clock: seq<nat>)
    requires |packets| == |clock| && Apart(packets)
    ensures Ready(packets, o, clock, Stamped(Views(o, packets), clock), 0)
  {
  }

  /** One turn: packet `k` is sent, the later ones are still to be. */
  method SendNext(sock: Socket, table: Table, packets: seq<array<byte>>, o: Order, clock: seq<nat>, k: nat,
                  ghost frames: seq<Memory>) returns (written: int)
    requires table.Blank() || table.Filled()
    requires |packets| == |clock| == |frames| && k < |packets|
    requires Apart(packets) && Ready(packets, o, clock, frames, k)
    modifies sock, table.entries, packets[k]
    ensures table.Filled() && Ready(packets, o, clock, frames, k + 1)
    ensures var w := WriteOut(SIZE, old(sock.script));
            && sock.wire == old(sock.wire) + frames[k][..w.sent] && sock.script == w.script
            && written == if w.failed then -1 else w.sent
  {
    assert frames[k] == StampedFrame(View(o, packets[k][..]), clock[k]);
    written := SendOne(sock, table, packets[k], o, clock[k]);
    forall i | k + 1 <= i < |packets| ensures frames[i] == StampedFrame(View(o, packets[i][..]), clock[i]) {
      assert packets[i][..] == old(packets[i][..]);
    }
  }

  /** After `k` whole turns, with `m` to go: what they sent, and what the rest will make of it. */
  ghost predicate Progress(base: seq<byte>, frames: seq<Memory>, script: seq<WriteOutcome>, done: seq<Length>,
                           k: nat, m: nat, wire: seq<byte>, left: seq<WriteOutcome>) {
    && k == |done| && k + m == |frames|
    && Lengths(|frames|, script) == done + Lengths(m, left) && CountSent(|frames|, script) == k + CountSent(m, left)
    && wire == base + Wire(frames, done)
  }

  /** What is on the wire and how many frames were counted, in the end. */
  ghost predicate Outcome(base: seq<byte>, frames: seq<Memory>, script: seq<WriteOutcome>, k: nat, wire: seq<byte>) {
    wire == base + Wire(frames, Lengths(|frames|, script)) && k == CountSent(|frames|, script)
  }

  lemma Progressed0(base: seq<byte>, frames: seq<Memory>, script: seq<WriteOutcome>)
    ensures Progress(base, frames, script, [], 0, |frames|, base, script)
  {
    assert Lengths(|frames|, script) == [] + Lengths(|frames|, script) && base == base + Wire(frames, []);
  }

  /** One more turn, from `done`, `k`, `m` and `wire` to the primed ones. */
  lemma Progressed(base: seq<byte>, frames: seq<Memory>, script: seq<WriteOutcome>, done: seq<Length>, k: nat, m: nat,
                   wire: seq<byte>, left: seq<WriteOutcome>, w: Written,
                   done': seq<Length>, k': nat, m': nat, wire': seq<byte>)
    requires Progress(base, frames, script, done, k, m, wire, left) && m > 0 && w == WriteOut(SIZE, left)
    requires done' == done + [w.sent] && k' == k + 1 && m' == m - 1 && wire' == wire + frames[k][..w.sent]
    ensures if w.failed then Outcome(base, frames, script, k, wire')
            else Progress(base, frames, script, done', k', m', wire', w.script)
  {
    if w.failed {
      Stopped(base, frames, script, done, k, m, wire, left, w, wire');
    } else {
      LengthsOn(m, left, w, m');
      WentOn(base, frames, script, done, k, m, wire, left, w.sent, w.script, done', k', m', wire');
    }
  }

  lemma LengthsOn(m: nat, left: seq<WriteOutcome>, w: Written, m': nat)
    requires m > 0 && m' == m - 1 && w == WriteOut(SIZE, left) && !w.failed
    ensures Lengths(m, left) == [w.sent] + Lengths(m', w.script) && CountSent(m, left) == 1 + CountSent(m', w.script)
  {
    LengthsStep(m, left);
  }

  lemma Stopped(base: seq<byte>, frames: seq<Memory>, script: seq<WriteOutcome>, done: seq<Length>, k: nat, m: nat,
                wire: seq<byte>, left: seq<WriteOutcome>, w: Written, wire': seq<byte>)
    requires Progress(base, frames, script, done, k, m, wire, left) && m > 0 && w == WriteOut(SIZE, left)
    requires w.failed && wire' == wire + frames[k][..w.sent]
    ensures Outcome(base, frames, script, k, wire')
  {
    LengthsStep(m, left);
    OneMore(base, frames, done, k, w.sent, Lengths(|frames|, script), [], wire);
  }

  lemma WentOn(base: seq<byte>, frames: seq<Memory>, script: seq<WriteOutcome>, done: seq<Length>, k: nat, m: nat,
               wire: seq<byte>, left: seq<WriteOutcome>, x: Length, next: seq<WriteOutcome>,
               done': seq<Length>, k': nat, m': nat, wire': seq<byte>)
    requires Progress(base, frames, script, done, k, m, wire, left) && m > 0
    requires Lengths(m, left) == [x] + Lengths(m', next) && CountSent(m, left) == 1 + CountSent(m', next)
    requires done' == done + [x] && k' == k + 1 && m' == m - 1 && wire' == wire + frames[k][..x]
    ensures Progress(base, frames, script, done', k', m', wire', next)
  {
    OneMore(base, frames, done, k, x, Lengths(|frames|, script), Lengths(m', next), wire);
  }

  /** One more length, one more piece on the wire. */
  lemma OneMore(base: seq<byte>, frames: seq<Memory>, done: seq<Length>, k: nat, x: Length, all: seq<Length>,
                more: seq<Length>, wire: seq<byte>)
    requires k == |done| < |frames| && all == done + ([x] + more) && wire == base + Wire(frames, done)
    ensures all == (done + [x]) + more && (more == [] ==> all == done + [x])
    ensures wire + frames[k][..x] == base + Wire(frames, done + [x])
  {
    Regrouped(done, [x], more);
    WireSnoc(frames, done, x);
    Regrouped(base, Wire(frames, done), frames[k][..x]);
  }

  lemma ProgressedAll(base: seq<byte>, frames: seq<Memory>, script: seq<WriteOutcome>, done: seq<Length>, k: nat,
                      wire: seq<byte>, left: seq<WriteOutcome>)
    requires Progress(base, frames, script, done, k, 0, wire, left)
    ensures k == |frames| && Outcome(base, frames, script, k, wire)
  {
    assert Lengths(0, left) == [] && done + [] == done;
  }

  /** One turn of the loop of `main`: stamp, pack in place, write. */
  method SendTurn(sock: Socket, table: Table, packets: seq<array<byte>>, o: Order, clock: seq<nat>, k: nat, ghost m: nat,
                  ghost frames: seq<Memory>, ghost base: seq<byte>, ghost script: seq<WriteOutcome>, ghost done: seq<Length>)
    returns (ok: bool, k': nat, ghost m': nat, ghost done': seq<Length>)
    requires table.Blank() || table.Filled()
    requires |packets| == |clock| == |frames| && k < |packets| && Apart(packets) && m > 0
    requires Ready(packets, o, clock, frames, k)
    requires Progress(base, frames, script, done, k, m, sock.wire, sock.script)
    modifies sock, table.entries, packets
    ensures table.Filled() && Ready(packets, o, clock, frames, k + 1)
    ensures ok ==> k' == k + 1 && m' == m - 1 && Progress(base, frames, script, done', k', m', sock.wire, sock.script)
    ensures !ok ==> k' == k && Outcome(base, frames, script, k', sock.wire)
  {
    ghost var w := WriteOut(SIZE, sock.script);
    ghost var wire := sock.wire + frames[k][..w.sent];
    k', m', done' := k + 1, m - 1, done + [w.sent];
    Progressed(base, frames, script, done, k, m, sock.wire, sock.script, w, done', k', m', wire);
    var written := SendNext(sock, table, packets, o, clock, k, frames);
    assert sock.wire == wire && sock.script == w.script;
    ok := written >= 0;
    if !ok { k' := k; }
  }

  /** The loop of `main`: on until all packets are sent or a write fails. */
  method SendFrames(sock: Socket, table: Table, packets: seq<array<byte>>, o: Order, clock: seq<nat>,
                    ghost frames: seq<Memory>) returns (nsent: nat, status: int)
    requires table.Blank() || table.Filled()
    requires |packets| == |clock| == |frames| && Apart(packets)
    requires Ready(packets, o, clock, frames, 0)
    modifies sock, table.entries, packets
    ensures nsent <= |packets| && status == if nsent == |packets| then 0 else 3
    ensures Outcome(old(sock.wire), frames, old(sock.script), nsent, sock.wire)
  {
    ghost var base, script := sock.wire, sock.script;
    ghost var done: seq<Length> := [];
    ghost var m: nat := |packets|;
    nsent, status := 0, 0;
    Progressed0(base, frames, script);
    while nsent < |packets|
      invariant nsent + m == |packets| && (table.Blank() || table.Filled())
      invariant Progress(base, frames, script, done, nsent, m, sock.wire, sock.script)
      invariant Ready(packets, o, clock, frames, nsent)
    {
      var ok;
      ok, nsent, m, done := SendTurn(sock, table, packets, o, clock, nsent, m, frames, base, script, done);
      if !ok {
        status := 3;
        return;
      }
    }
    ProgressedAll(base, frames, script, done, nsent, sock.wire, sock.script);
  }

  /** `main` of send_iris.c, from the packets in memory to the bytes on the wire. */
  method SendAll(sock: Socket, table: Table, packets: seq<array<byte>>, o: Order, clock: seq<nat>)
    returns (nsent: nat, status: int)
    requires table.Blank() || table.Filled()
    requires |clock| == |packets| && Apart(packets)
    modifies sock, table.entries, packets
    ensures nsent == CountSent(|packets|, old(sock.script)) && status == if nsent == |packets| then 0 else 3
    ensures sock.wire == old(sock.wire) + Wire(Stamped(old(Views(o, packets)), clock), Lengths(|packets|, old(sock.script)))
  {
    AllReady(packets, o, clock);
    ghost var frames := Stamped(Views(o, packets), clock);
    ghost var base, script := sock.wire, sock.script;
    nsent, status := SendFrames(sock, table, packets, o, clock, frames);
    assert Outcome(base, frames, script, nsent, sock.wire) && |frames| == |packets|;
  }
}
