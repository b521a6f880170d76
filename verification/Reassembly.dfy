/** What a byte stream means to the receiver: the stream cut into frames, each judged on its own. */
module Reassembly {
  import opened Words
  import opened Frames

  /** What the receiver submits for one frame at a given time. */
  function Judge(now: nat, f: Memory): (r: seq<Pdu>) {
    if Accepted(now, f) then [View(Big, f)] else []
  }

  /** The results of the first `|times|` frames of a stream, frame `i` judged at `times[i]`. */
  function Decode(s: seq<byte>, times: seq<nat>): (r: seq<Pdu>)
    requires SIZE * |times| <= |s|
    decreases |times|
  {
    if times == [] then [] else
      var n := |times| - 1;
      Decode(s, times[..n]) + Judge(times[n], s[SIZE * n..SIZE * n + SIZE])
  }

  lemma DecodeLast(s: seq<byte>, times: seq<nat>, f: Memory)
    requires times != [] && SIZE * |times| <= |s|
    requires f == s[SIZE * (|times| - 1)..SIZE * (|times| - 1) + SIZE]
    ensures Decode(s, times) == Decode(s, times[..|times| - 1]) + Judge(times[|times| - 1], f)
  {
  }

  lemma SliceOfSum(s: seq<byte>, t: seq<byte>, a: nat, b: nat)
    requires a <= b <= |s|
    ensures (s + t)[a..b] == s[a..b]
  {
  }

  /** Only the bytes of the frames matter. */
  lemma {:induction false} DecodePrefix(s: seq<byte>, t: seq<byte>, times: seq<nat>)
    requires SIZE * |times| <= |s|
    ensures Decode(s + t, times) == Decode(s, times)
    decreases |times|
  {
    if times != [] {
      var n := |times| - 1;
      var f := s[SIZE * n..SIZE * n + SIZE];
      DecodePrefix(s, t, times[..n]);
      SliceOfSum(s, t, SIZE * n, SIZE * n + SIZE);
      DecodeLast(s + t, times, f);
      DecodeLast(s, times, f);
    }
  }

  /** The times of judging matter only as far as they decide whether a frame is accepted. */
  lemma {:induction false} DecodeByVerdict(s: seq<byte>, t: seq<nat>, u: seq<nat>)
    requires |t| == |u| && SIZE * |t| <= |s|
    requires forall i :: 0 <= i < |t| ==> SameVerdict(s, i, t[i], u[i])
    ensures Decode(s, t) == Decode(s, u)
    decreases |t|
  {
    if t != [] {
      var n := |t| - 1;
      var f := s[SIZE * n..SIZE * n + SIZE];
      DecodeByVerdict(s, t[..n], u[..n]);
      assert SameVerdict(s, n, t[n], u[n]);
      DecodeLast(s, t, f);
      DecodeLast(s, u, f);
    }
  }

  /** Frame `i` of a stream is accepted at both times or at neither. */
  ghost predicate SameVerdict(s: seq<byte>, i: nat, now: nat, later: nat) {
    SIZE * i + SIZE <= |s| && Judge(now, s[SIZE * i..SIZE * i + SIZE]) == Judge(later, s[SIZE * i..SIZE * i + SIZE])
  }

  /** One more frame, one more judgement. */
  lemma DecodeSnoc(s: seq<byte>, times: seq<nat>, now: nat)
    requires SIZE * |times| + SIZE <= |s|
    ensures Decode(s, times + [now])
         == Decode(s, times) + Judge(now, s[SIZE * |times|..SIZE * |times| + SIZE])
  {
    var all := times + [now];
    assert all != [] && |all| - 1 == |times| && all[|times|] == now && all[..|times|] == times;
  }

  /** The receive state of a connection that has consumed `taken`: whole frames are gone, the
      rest is at the start of an otherwise zeroed buffer. */
  ghost predicate Framed(pdu: seq<byte>, offset: int, bytes: int, taken: seq<byte>, times: seq<nat>) {
    && |pdu| == SIZE
    && 0 <= offset < SIZE
    && bytes == |taken| == SIZE * |times| + offset
    && pdu[..offset] == taken[SIZE * |times|..]
    && (forall i :: offset <= i < SIZE ==> pdu[i] == 0)
  }

  lemma PatchTail(pdu: seq<byte>, offset: nat, rest: seq<byte>, more: seq<byte>)
    requires offset + |more| <= |pdu| && pdu[..offset] == rest
    ensures Patch(pdu, offset, more)[..offset + |more|] == rest + more
    ensures forall i :: offset + |more| <= i < |pdu| ==> Patch(pdu, offset, more)[i] == pdu[i]
  {
  }

  lemma DropAppend(taken: seq<byte>, more: seq<byte>, n: nat)
    requires n <= |taken|
    ensures (taken + more)[n..] == taken[n..] + more
  {
  }

  /** Bytes read behind the unfinished frame extend it. */
  lemma FrameGrows(pdu: seq<byte>, offset: int, bytes: int, taken: seq<byte>, times: seq<nat>, more: seq<byte>)
    requires Framed(pdu, offset, bytes, taken, times) && offset + |more| < SIZE
    ensures Framed(Patch(pdu, offset, more), offset + |more|, bytes + |more|, taken + more, times)
    ensures Decode(taken + more, times) == Decode(taken, times)
  {
    DecodePrefix(taken, more, times);
    PatchTail(pdu, offset, taken[SIZE * |times|..], more);
    DropAppend(taken, more, SIZE * |times|);
  }

  /** Once the frame is full the buffer is the next frame of the stream; zeroed, it waits for another. */
  lemma FrameCompletes(pdu: seq<byte>, offset: int, bytes: int, taken: seq<byte>, times: seq<nat>, more: seq<byte>,
                       zeroed: seq<byte>, now: nat)
    requires Framed(pdu, offset, bytes, taken, times) && offset + |more| == SIZE
    requires |zeroed| == SIZE && forall i :: 0 <= i < SIZE ==> zeroed[i] == 0
    ensures |Patch(pdu, offset, more)| == SIZE
    ensures Framed(zeroed, 0, bytes + |more|, taken + more, times + [now])
    ensures Decode(taken + more, times + [now]) == Decode(taken, times) + Judge(now, Patch(pdu, offset, more))
  {
    var n := SIZE * |times|;
    var rest := taken[n..];
    PatchTail(pdu, offset, rest, more);
    var frame := Patch(pdu, offset, more);
    assert frame == frame[..SIZE] == rest + more;
    LastFrame(taken, more, n);
    DecodePrefix(taken, more, times);
    DecodeSnoc(taken + more, times, now);
  }

  lemma LastFrame(taken: seq<byte>, more: seq<byte>, n: nat)
    requires n <= |taken| && |taken| - n + |more| == SIZE
    ensures |taken + more| == n + SIZE && (taken + more)[n..n + SIZE] == taken[n..] + more
    ensures (taken + more)[n + SIZE..] == []
  {
  }
}
