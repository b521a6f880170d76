/** What the CRC of iris.c detects for certain: any change confined to 32 consecutive bits. */
module Burst {
  import opened Gf2
  import opened Words
  import opened Crc32
  import opened CrcTable
  import opened Frames

  lemma {:induction false} BitsOfZero(n: nat)
    ensures Bits(0, n) == Zeros(n)
  {
    if n > 0 {
      BitsOfZero(n - 1);
      assert Zeros(n) == [false] + Zeros(n - 1);
    }
  }

  /** The register before a step, given that the step left its top bit clear. */
  lemma StepBack(r: uint32, b: bool)
    requires !Bits(Shift(Xor(r, Bit(b))), WIDTH)[31]
    ensures Bits(r, WIDTH) == [b] + Bits(Shift(Xor(r, Bit(b))), WIDTH)[..31]
  {
    var x := Xor(r, Bit(b));
    FeedFits(r, b);
    ShiftBits(x);
    FeedBits(r, b, WIDTH);
    FirstBit(x, WIDTH);
    FirstBit(r, WIDTH);
    StepBackBits(Bits(r, WIDTH), Bits(x, WIDTH), Bits(Shift(x), WIDTH), b);
  }

  lemma FirstBit(x: nat, n: nat)
    requires n > 0
    ensures Bits(x, n)[0] == Odd(x)
  {
  }

  lemma StepBackBits(r: Poly, x: Poly, s: Poly, b: bool)
    requires |r| == |x| == |s| == 32 && x == [r[0] != b] + r[1..]
    requires s == Add(x[1..] + [false], if x[0] then Generator()[1..] else Zeros(32)) && !s[31]
    ensures r == [b] + s[..31]
  {
    assert Generator()[32];
    assert s[31] == x[0];
    forall i | 0 <= i < 31 ensures s[i] == r[i + 1] { assert x[1..][i] == x[i + 1]; }
  }

  /** Up to 32 bits that leave the register empty are the bits that were in it. */
  lemma {:induction false} OnlyOwnBitsClear(r: uint32, bits: seq<bool>)
    requires |bits| <= 32 && Run(r, bits) == 0
    ensures Bits(r, WIDTH) == bits + Zeros(32 - |bits|)
    decreases |bits|
  {
    if bits == [] {
      BitsOfZero(WIDTH);
    } else {
      FeedFits(r, bits[0]);
      var next := Shift(Xor(r, Bit(bits[0])));
      OnlyOwnBitsClear(next, bits[1..]);
      assert Bits(next, WIDTH) == bits[1..] + Zeros(33 - |bits|);
      StepBack(r, bits[0]);
    }
  }

  /** Different bits, at most 32 of them, lead a register to different states. */
  lemma BurstSeparates(r: uint32, e: seq<bool>, e': seq<bool>)
    requires |e| == |e'| <= 32 && e != e'
    ensures Run(r, e) != Run(r, e')
  {
    if Run(r, e) == Run(r, e') {
      RunLinear(r, e, r, e');
      XorSelf(r);
      XorSelf(Run(r, e));
      var d := Add(e, e');
      OnlyOwnBitsClear(0, d);
      BitsOfZero(WIDTH);
      forall i | 0 <= i < |e| ensures e[i] == e'[i] {
        assert !d[i] by { assert Zeros(WIDTH)[i] == (d + Zeros(WIDTH - |d|))[i]; }
      }
      assert false;
    }
  }

  /** Equal bits never bring two different states together. */
  lemma SameBitsSeparate(r: uint32, s: uint32, bits: seq<bool>)
    requires r != s
    ensures Run(r, bits) != Run(s, bits)
  {
    RunLinear(r, bits, s, bits);
    assert Add(bits, bits) == Zeros(|bits|);
    XorFits(r, s);
    if Xor(r, s) == 0 { XorNothing(r, s); }
    RunZerosNonzero(Xor(r, s), |bits|);
    XorSelf(Run(r, bits));
  }

  lemma {:induction false} MessageBitsInjective(m: seq<byte>, m': seq<byte>)
    requires |m| == |m'| && MessageBits(m) == MessageBits(m')
    ensures m == m'
  {
    if m != [] {
      var b, b' := MessageBits(m), MessageBits(m');
      assert b[..8] == Bits(m[0], 8) && b'[..8] == Bits(m'[0], 8);
      assert b[8..] == MessageBits(m[1..]) && b'[8..] == MessageBits(m'[1..]);
      Pow2Values();
      BitsInjective(m[0], m'[0], 8);
      MessageBitsInjective(m[1..], m'[1..]);
    }
  }

  /** The bits of two messages agree outside the 32 from bit `k` on. */
  ghost predicate DifferWithin(m: seq<byte>, m': seq<byte>, k: nat) {
    && |m| == |m'|
    && (forall i :: 0 <= i < 8 * |m| && !(k <= i < k + 32) ==> MessageBits(m)[i] == MessageBits(m')[i])
  }

  lemma CrcSeparates(m: seq<byte>, m': seq<byte>)
    requires Run(ONES, MessageBits(m)) != Run(ONES, MessageBits(m'))
    ensures Crc(m) != Crc(m')
  {
    XorUndo(Run(ONES, MessageBits(m)), ONES);
    XorUndo(Run(ONES, MessageBits(m')), ONES);
  }

  lemma RunThree(r: nat, a: seq<bool>, b: seq<bool>, c: seq<bool>)
    ensures Run(r, a + b + c) == Run(Run(Run(r, a), b), c)
  {
    RunAppend(r, a + b, c);
    RunAppend(r, a, b);
  }

  lemma MiddleSeparates(a: seq<bool>, e: seq<bool>, e': seq<bool>, z: seq<bool>)
    requires |e| == |e'| <= 32 && e != e'
    ensures Run(ONES, a + e + z) != Run(ONES, a + e' + z)
  {
    var r := Run(ONES, a);
    RunFits(ONES, a);
    RunFits(r, e);
    RunFits(r, e');
    BurstSeparates(r, e, e');
    SameBitsSeparate(Run(r, e), Run(r, e'), z);
    RunThree(ONES, a, e, z);
    RunThree(ONES, a, e', z);
  }

  /** Two messages that differ only inside a window of 32 bits have different CRCs. */
  lemma BurstChangesCrc(m: seq<byte>, m': seq<byte>, k: nat)
    requires DifferWithin(m, m', k) && m != m'
    ensures Crc(m) != Crc(m')
  {
    var a, b := MessageBits(m), MessageBits(m');
    if a == b { MessageBitsInjective(m, m'); }
    var pre, e, e', post := Window(a, b, k);
    MiddleSeparates(pre, e, e', post);
    CrcSeparates(m, m');
  }

  /** Bits that agree outside a window, taken apart around it. */
  lemma Window(a: seq<bool>, b: seq<bool>, k: nat)
    returns (pre: seq<bool>, e: seq<bool>, e': seq<bool>, post: seq<bool>)
    requires |a| == |b| && a != b && forall i :: 0 <= i < |a| && !(k <= i < k + 32) ==> a[i] == b[i]
    ensures a == pre + e + post && b == pre + e' + post && |e| == |e'| <= 32 && e != e'
  {
    var lo := if k < |a| then k else |a|;
    var hi := if k + 32 < |a| then k + 32 else |a|;
    pre, e, e', post := a[..lo], a[lo..hi], b[lo..hi], a[hi..];
    assert a == pre + e + post;
    assert b == pre + e' + post;
  }

  // ----- damaged frames

  /** Four consecutive bytes are a window of 32 bits. */
  lemma FourBytesAreBurst(m: seq<byte>, m': seq<byte>, at: nat)
    requires |m| == |m'| && at <= |m|
    requires forall i :: 0 <= i < |m| && !(at <= i < at + 4) ==> m[i] == m'[i]
    ensures DifferWithin(m, m', 8 * at)
  {
    var hi := if at + 4 < |m| then at + 4 else |m|;
    assert m[..at] == m'[..at] && m[hi..] == m'[hi..];
    assert m == m[..at] + (m[at..hi] + m[hi..]) && m' == m'[..at] + (m'[at..hi] + m'[hi..]);
    HeadsDiffer(m[at..hi], m'[at..hi], m[hi..]);
    PrefixedDiffer(m[..at], m[at..hi] + m[hi..], m'[at..hi] + m'[hi..], 0);
  }

  lemma HeadsDiffer(a: seq<byte>, b: seq<byte>, t: seq<byte>)
    requires |a| == |b| <= 4
    ensures DifferWithin(a + t, b + t, 0)
  {
    MessageBitsAppend(a, t);
    MessageBitsAppend(b, t);
  }

  lemma PrefixedDiffer(z: seq<byte>, a: seq<byte>, b: seq<byte>, k: nat)
    requires DifferWithin(a, b, k)
    ensures DifferWithin(z + a, z + b, k + 8 * |z|)
  {
    MessageBitsAppend(z, a);
    MessageBitsAppend(z, b);
    var n := 8 * |z|;
    forall i | 0 <= i < 8 * |z + a| && !(k + n <= i < k + n + 32)
      ensures MessageBits(z + a)[i] == MessageBits(z + b)[i]
    {
      if i >= n {
        assert MessageBits(a)[i - n] == MessageBits(b)[i - n];
      }
    }
  }

  /** A burst of at most 32 bits anywhere behind the CRC field, or any change inside it, is rejected. */
  lemma DamageRejected(f: Memory, g: Memory, k: nat, now: nat)
    requires CrcMatches(f) && f != g
    requires f[4..] == g[4..] || (f[..4] == g[..4] && DifferWithin(f[4..], g[4..], k))
    ensures !Accepted(now, g)
  {
    assert f == f[0..4] + f[4..] && g == g[0..4] + g[4..];
    assert f[0..4] == f[..4] && g[0..4] == g[..4];
    if f[4..] == g[4..] {
      Bytes32OfValue(Big, f[0..4]);
      Bytes32OfValue(Big, g[0..4]);
    } else {
      var zeros: seq<byte> := [0, 0, 0, 0];
      PrefixedDiffer(zeros, f[4..], g[4..], k);
      assert Cleared(f)[4..] == f[4..] && Cleared(g)[4..] == g[4..];
      BurstChangesCrc(Cleared(f), Cleared(g), k + 32);
    }
  }

  /** Damage to at most four consecutive bytes of a packed frame never gets past `pdu_unpack()`. */
  lemma FourByteDamageRejected(p: Pdu, g: Memory, at: nat, now: nat)
    requires p.Shape() && g != Frame(p)
    requires 4 <= at < SIZE
    requires forall i :: 0 <= i < SIZE && !(at <= i < at + 4) ==> g[i] == Frame(p)[i]
    ensures !Accepted(now, g)
  {
    var f := Frame(p);
    PackThenUnpack(p, now);
    assert f[..4] == g[..4];
    FourBytesAreBurst(f[4..], g[4..], at - 4);
    DamageRejected(f, g, 8 * (at - 4), now);
  }
}
