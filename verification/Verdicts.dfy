/** Which frames of a connection are submitted: those that deserve it, and no others. */
module Verdicts {
  import opened Words
  import opened Frames
  import opened WireFormat
  import opened Burst
  import opened Reassembly
  import opened ServerInvariant
  import opened EventLoop
  import opened Runs

  /** Frame `k` of a stream. */
  function FrameAt(s: seq<byte>, k: nat): Memory
    requires 4300 * k + 4300 <= |s|
  {
    s[4300 * k..4300 * k + 4300]
  }

  /** A result says what the bytes of a frame say. */
  ghost predicate Says(p: Pdu, f: Memory) {
    && p.ts == Number4(f[4], f[5], f[6], f[7]) && p.version == 1 && p.rc == Number2(f[10], f[11])
    && p.host == f[12..76] && p.service == f[76..204] && p.output == f[204..4300]
  }

  /** A single frame gives one result, that of its bytes, if it is genuine, and none otherwise. */
  lemma JudgeExactly(now: nat, f: Memory)
    ensures if Genuine(f, now) then |Judge(now, f)| == 1 && Says(Judge(now, f)[0], f) else Judge(now, f) == []
  {
    AcceptedIsGenuine(f, now);
    ViewBytes(f);
  }

  predicate Increasing(ks: seq<nat>) { forall i, j :: 0 <= i < j < |ks| ==> ks[i] < ks[j] }

  lemma IncreasingSnoc(ks: seq<nat>, n: nat)
    requires Increasing(ks) && forall j :: 0 <= j < |ks| ==> ks[j] < n
    ensures Increasing(ks + [n])
  {
  }

  /** The genuine frames of a stream, by their numbers, in order, and a result for each of them. */
  ghost predicate Selected(s: seq<byte>, times: seq<nat>, ks: seq<nat>, results: seq<Pdu>)
    requires 4300 * |times| <= |s|
  {
    && |ks| == |results|
    && (forall j :: 0 <= j < |ks| ==> Supports(s, times, ks[j], results[j]))
    && Increasing(ks)
    && (forall k: nat :: k < |times| && Genuine(FrameAt(s, k), times[k]) ==> k in ks)
  }

  ghost predicate Supports(s: seq<byte>, times: seq<nat>, k: nat, p: Pdu)
    requires 4300 * |times| <= |s|
  {
    k < |times| && Genuine(FrameAt(s, k), times[k]) && Says(p, FrameAt(s, k))
  }

  lemma {:induction false} DecodeSelects(s: seq<byte>, times: seq<nat>) returns (ks: seq<nat>)
    requires 4300 * |times| <= |s|
    ensures Selected(s, times, ks, Decode(s, times))
    decreases |times|
  {
    ks := [];
    if times != [] {
      var n := |times| - 1;
      var f := FrameAt(s, n);
      ks := DecodeSelects(s, times[..n]);
      SelectedLater(s, times, ks, Decode(s, times[..n]));
      ks := SelectLast(s, times, ks, Decode(s, times[..n]));
      DecodeLast(s, times, f);
    }
  }

  lemma SelectLast(s: seq<byte>, times: seq<nat>, ks: seq<nat>, before: seq<Pdu>) returns (all: seq<nat>)
    requires 4300 * |times| <= |s| && times != [] && SelectedBefore(s, times, ks, before)
    ensures var n := |times| - 1; Selected(s, times, all, before + Judge(times[n], FrameAt(s, n)))
  {
    var n := |times| - 1;
    var j := Judge(times[n], FrameAt(s, n));
    JudgeExactly(times[n], FrameAt(s, n));
    if Genuine(FrameAt(s, n), times[n]) {
      SelectedOneMore(s, times, ks, before, j[0]);
      assert j == [j[0]];
      all := ks + [n];
    } else {
      SelectedNoMore(s, times, ks, before);
      NothingMore(before);
      all := ks;
    }
  }

  /** A selection among all frames but the last one, seen among all of them. */
  ghost predicate SelectedBefore(s: seq<byte>, times: seq<nat>, ks: seq<nat>, results: seq<Pdu>)
    requires 4300 * |times| <= |s| && times != []
  {
    && |ks| == |results|
    && (forall j :: 0 <= j < |ks| ==> ks[j] < |times| - 1 && Supports(s, times, ks[j], results[j]))
    && Increasing(ks)
    && (forall k: nat :: k < |times| - 1 && Genuine(FrameAt(s, k), times[k]) ==> k in ks)
  }

  lemma SelectedLater(s: seq<byte>, times: seq<nat>, ks: seq<nat>, results: seq<Pdu>)
    requires 4300 * |times| <= |s| && times != [] && Selected(s, times[..|times| - 1], ks, results)
    ensures SelectedBefore(s, times, ks, results)
  {
    forall j | 0 <= j < |ks| ensures ks[j] < |times| - 1 && Supports(s, times, ks[j], results[j]) {
      assert Supports(s, times[..|times| - 1], ks[j], results[j]);
    }
  }

  lemma SelectedOneMore(s: seq<byte>, times: seq<nat>, ks: seq<nat>, results: seq<Pdu>, p: Pdu)
    requires 4300 * |times| <= |s| && times != [] && SelectedBefore(s, times, ks, results)
    requires Supports(s, times, |times| - 1, p)
    ensures Selected(s, times, ks + [|times| - 1], results + [p])
  {
    var all, ps := ks + [|times| - 1], results + [p];
    forall j | 0 <= j < |all| ensures Supports(s, times, all[j], ps[j]) {
      if j < |ks| { assert Supports(s, times, ks[j], results[j]); }
    }
    AllCovered(s, times, ks);
    IncreasingSnoc(ks, |times| - 1);
  }

  lemma AllCovered(s: seq<byte>, times: seq<nat>, ks: seq<nat>)
    requires 4300 * |times| <= |s| && times != []
    requires forall k: nat :: k < |times| - 1 && Genuine(FrameAt(s, k), times[k]) ==> k in ks
    ensures forall k: nat :: k < |times| && Genuine(FrameAt(s, k), times[k]) ==> k in ks + [|times| - 1]
  {
    assert (ks + [|times| - 1])[|ks|] == |times| - 1;
  }

  lemma SelectedNoMore(s: seq<byte>, times: seq<nat>, ks: seq<nat>, results: seq<Pdu>)
    requires 4300 * |times| <= |s| && times != [] && SelectedBefore(s, times, ks, results)
    requires !Genuine(FrameAt(s, |times| - 1), times[|times| - 1])
    ensures Selected(s, times, ks, results)
  {
  }

  /** In every reachable state, what was submitted for a connection is one result for each of its whole frames whose
      CRC-32, version and timestamp are right, with the contents of that frame, in order, and nothing else. */
  lemma SubmittedExactly(ws: seq<World>, steps: seq<Step>, n: nat, sid: nat, taken: seq<byte>, times: seq<nat>)
    returns (ks: seq<nat>)
    requires IsRun(ws, steps) && n < |ws| && Consumed(ws[n].s, sid, taken, times)
    ensures |times| == |taken| / 4300
    ensures Selected(taken, times, ks, Only(ws[n].s.log, sid))
  {
    Isolation(ws, steps, n, sid, taken, times);
    ks := DecodeSelects(taken, times);
  }

  // ----- frames that are not genuine

  /** A stream with frame `k` taken out, and the times without its time. */
  function Without(s: seq<byte>, k: nat): seq<byte>
    requires 4300 * k + 4300 <= |s|
  {
    s[..4300 * k] + s[4300 * k + 4300..]
  }

  function TimesWithout(times: seq<nat>, k: nat): seq<nat>
    requires k < |times|
  {
    times[..k] + times[k + 1..]
  }

  lemma FrameBehind(s: seq<byte>, k: nat, n: nat)
    requires k < n && 4300 * n + 4300 <= |s|
    ensures |Without(s, k)| == |s| - 4300 && FrameAt(Without(s, k), n - 1) == FrameAt(s, n)
  {
    SlicesBehind(s, 4300 * k, 4300 * n);
  }

  lemma SlicesBehind(s: seq<byte>, a: nat, b: nat)
    requires a + 4300 <= b && b + 4300 <= |s|
    ensures (s[..a] + s[a + 4300..])[b - 4300..b] == s[b..b + 4300]
  {
  }

  /** A frame that is not genuine changes nothing: the stream gives what it would give without it. */
  lemma {:induction false} DecodeWithout(s: seq<byte>, times: seq<nat>, k: nat)
    requires 4300 * |times| <= |s| && k < |times| && !Genuine(FrameAt(s, k), times[k])
    ensures 4300 * |TimesWithout(times, k)| <= |Without(s, k)|
    ensures Decode(s, times) == Decode(Without(s, k), TimesWithout(times, k))
    decreases |times|
  {
    var n := |times| - 1;
    if k == n {
      LastWithout(s, times, n);
    } else {
      DecodeWithout(s, times[..n], k);
      LaterWithout(s, times[..n], k, times[n]);
      TimesBehind(times, k, n);
    }
  }

  lemma LastWithout(s: seq<byte>, times: seq<nat>, n: nat)
    requires |times| == n + 1 && 4300 * n + 4300 <= |s| && !Genuine(FrameAt(s, n), times[n])
    ensures Decode(s, times) == Decode(Without(s, n), TimesWithout(times, n))
  {
    var f := FrameAt(s, n);
    DecodeLast(s, times, f);
    JudgeExactly(times[n], f);
    assert TimesWithout(times, n) == times[..n];
    NothingMore(Decode(s, times[..n]));
    CutAt(s, 4300 * n);
    DecodePrefix(s[..4300 * n], s[4300 * n..], times[..n]);
    DecodePrefix(s[..4300 * n], s[4300 * n + 4300..], times[..n]);
  }

  lemma NothingMore(ps: seq<Pdu>)
    ensures ps + [] == ps
  {
  }

  lemma LaterWithout(s: seq<byte>, some: seq<nat>, k: nat, last: nat)
    requires k < |some| && 4300 * |some| + 4300 <= |s|
    requires Decode(s, some) == Decode(Without(s, k), TimesWithout(some, k))
    ensures Decode(s, some + [last]) == Decode(Without(s, k), TimesWithout(some, k) + [last])
  {
    FrameBehind(s, k, |some|);
    SameLast(s, Without(s, k), some, TimesWithout(some, k), FrameAt(s, |some|), last);
  }

  lemma TimesBehind(times: seq<nat>, k: nat, n: nat)
    requires |times| == n + 1 && k < n
    ensures times == times[..n] + [times[n]] && TimesWithout(times, k) == TimesWithout(times[..n], k) + [times[n]]
  {
  }

  lemma SameLast(s: seq<byte>, t: seq<byte>, a: seq<nat>, b: seq<nat>, f: Memory, now: nat)
    requires 4300 * |a| + 4300 <= |s| && f == FrameAt(s, |a|)
    requires 4300 * |b| + 4300 <= |t| && f == FrameAt(t, |b|)
    requires Decode(s, a) == Decode(t, b)
    ensures Decode(s, a + [now]) == Decode(t, b + [now])
  {
    SnocFrame(s, a, now, f);
    SnocFrame(t, b, now, f);
  }

  lemma SnocFrame(s: seq<byte>, a: seq<nat>, now: nat, f: Memory)
    requires 4300 * |a| + 4300 <= |s| && f == FrameAt(s, |a|)
    ensures Decode(s, a + [now]) == Decode(s, a) + Judge(now, f)
  {
    var all := a + [now];
    assert |all| - 1 == |a| && all[..|a|] == a && all[|a|] == now;
    DecodeLast(s, all, f);
  }

  lemma CutAt(s: seq<byte>, a: nat)
    requires a <= |s|
    ensures s[..a] + s[a..] == s
  {
  }

  /** Damage to four consecutive bytes of a packed frame behind its CRC, or a packed frame that is not recent. */
  ghost predicate Worthless(f: Memory, now: nat, p: Pdu, at: nat) {
    && p.Shape()
    && ((f == Frame(p) && !Recent(p.ts, now))
        || (f != Frame(p) && 4 <= at < 4300 && forall i :: 0 <= i < 4300 && !(at <= i < at + 4) ==> f[i] == Frame(p)[i]))
  }

  lemma WorthlessIsNotGenuine(f: Memory, now: nat, p: Pdu, at: nat)
    requires Worthless(f, now, p, at)
    ensures !Genuine(f, now)
  {
    AcceptedIsGenuine(f, now);
    if f == Frame(p) {
      PackThenUnpack(p, now);
      FreshIsRecent(now, p.ts);
    } else {
      FourByteDamageRejected(p, f, at, now);
    }
  }

  /** In every reachable state: if frame `k` of a connection is a packed frame damaged within four bytes, or a stale
      one, the connection has given what it would have given without that frame. */
  lemma WorthlessGainsNothing(ws: seq<World>, steps: seq<Step>, n: nat, sid: nat, taken: seq<byte>, times: seq<nat>,
                              k: nat, p: Pdu, at: nat)
    requires IsRun(ws, steps) && n < |ws| && Consumed(ws[n].s, sid, taken, times)
    requires k < |times| && 4300 * k + 4300 <= |taken| && Worthless(FrameAt(taken, k), times[k], p, at)
    ensures 4300 * |TimesWithout(times, k)| <= |Without(taken, k)|
    ensures Only(ws[n].s.log, sid) == Decode(Without(taken, k), TimesWithout(times, k))
  {
    Isolation(ws, steps, n, sid, taken, times);
    WorthlessIsNotGenuine(FrameAt(taken, k), times[k], p, at);
    DecodeWithout(taken, times, k);
  }
}
