/** The CRC-32 of `crc32()` in iris.c as a bit-serial register, and the polynomial
    division that register performs. */
module Crc32 {
  import opened Gf2
  import opened Words

  const POLYNOMIAL: uint32 := 0xEDB88320
  const ONES: uint32 := 0xFFFF_FFFF

  // ----- the bit-serial register

  function Bit(b: bool): nat { if b then 1 else 0 }

  /** One shift of the reflected register. */
  function Shift(r: nat): nat {
    if Odd(r) then Xor(r / 2, POLYNOMIAL) else r / 2
  }

  /** Feeds message bits into the register, one at a time. */
  function Run(r: nat, bits: seq<bool>): nat
    decreases |bits|, r
  {
    if bits == [] then r else Run(Shift(Xor(r, Bit(bits[0]))), bits[1..])
  }

  /** The bits of a message in transmission order: each byte least significant bit first. */
  function MessageBits(m: seq<byte>): (s: seq<bool>)
    ensures |s| == 8 * |m|
  {
    if m == [] then [] else Bits(m[0], 8) + MessageBits(m[1..])
  }

  /** The CRC of a message, as the complemented bit-serial register. */
  function Crc(m: seq<byte>): nat {
    Xor(Run(ONES, MessageBits(m)), ONES)
  }

  lemma {:induction false} RunAppend(r: nat, a: seq<bool>, b: seq<bool>)
    ensures Run(r, a + b) == Run(Run(r, a), b)
    decreases |a|
  {
    if a == [] {
      assert a + b == b;
    } else {
      assert (a + b)[1..] == a[1..] + b;
      RunAppend(Shift(Xor(r, Bit(a[0]))), a[1..], b);
    }
  }

  lemma {:induction false} MessageBitsAppend(a: seq<byte>, b: seq<byte>)
    ensures MessageBits(a + b) == MessageBits(a) + MessageBits(b)
    decreases |a|
  {
    if a == [] {
      assert a + b == b;
    } else {
      assert (a + b)[0] == a[0] && (a + b)[1..] == a[1..] + b;
      var head, rest := Bits(a[0], 8), MessageBits(a[1..]);
      MessageBitsAppend(a[1..], b);
      assert head + (rest + MessageBits(b)) == (head + rest) + MessageBits(b);
    }
  }

  // ----- the register is linear

  lemma XorShuffle(a: nat, b: nat, c: nat, d: nat)
    ensures Xor(Xor(a, b), Xor(c, d)) == Xor(Xor(a, c), Xor(b, d))
  {
    calc {
      Xor(Xor(a, b), Xor(c, d));
      { XorAssociates(a, b, Xor(c, d)); }
      Xor(a, Xor(b, Xor(c, d)));
      { XorAssociates(b, c, d); XorCommutes(b, c); XorAssociates(c, b, d); }
      Xor(a, Xor(c, Xor(b, d)));
      { XorAssociates(a, c, Xor(b, d)); }
      Xor(Xor(a, c), Xor(b, d));
    }
  }

  /** The feedback of two odd registers cancels, that of one does not. */
  lemma XorFeedback(a: nat, b: nat, p: nat)
    ensures Xor(Xor(a, p), Xor(b, p)) == Xor(a, b)
    ensures Xor(Xor(a, p), b) == Xor(Xor(a, b), p)
    ensures Xor(a, Xor(b, p)) == Xor(Xor(a, b), p)
  {
    XorShuffle(a, p, b, p);
    XorSelf(p);
    XorZero(Xor(a, b));
    XorAssociates(a, b, p);
    XorAssociates(a, p, b);
    XorCommutes(p, b);
  }

  lemma ShiftLinear(a: nat, b: nat)
    ensures Xor(Shift(a), Shift(b)) == Shift(Xor(a, b))
  {
    XorParts(a, b);
    XorFeedback(a / 2, b / 2, POLYNOMIAL);
  }

  /** Two runs side by side: the difference of the registers is the register of the differences. */
  lemma {:induction false} RunLinear(r: nat, a: seq<bool>, s: nat, b: seq<bool>)
    requires |a| == |b|
    ensures Xor(Run(r, a), Run(s, b)) == Run(Xor(r, s), Add(a, b))
    decreases |a|
  {
    if a != [] {
      var ra, sb := Xor(r, Bit(a[0])), Xor(s, Bit(b[0]));
      RunLinear(Shift(ra), a[1..], Shift(sb), b[1..]);
      ShiftLinear(ra, sb);
      XorShuffle(r, Bit(a[0]), s, Bit(b[0]));
      assert Xor(Bit(a[0]), Bit(b[0])) == Bit(Add(a, b)[0]);
      assert Add(a, b)[1..] == Add(a[1..], b[1..]);
    }
  }

  // ----- the register divides by the generator

  lemma AddCons(a: bool, p: Poly, b: bool, q: Poly)
    requires |p| == |q|
    ensures Add([a] + p, [b] + q) == [a != b] + Add(p, q)
  {
  }

  lemma {:induction false} BitsXor(a: nat, b: nat, n: nat)
    ensures Bits(Xor(a, b), n) == Add(Bits(a, n), Bits(b, n))
    decreases n
  {
    if n > 0 {
      XorParts(a, b);
      BitsXor(a / 2, b / 2, n - 1);
      AddCons(Odd(a), Bits(a / 2, n - 1), Odd(b), Bits(b / 2, n - 1));
    }
  }

  /** The width of the register. */
  const WIDTH: nat := 32

  lemma Pow2Values()
    ensures Pow2(8) == 0x100 && Pow2(WIDTH) == 0x1_0000_0000
  {
    assert Pow2(8) == 0x100;
    assert Pow2(16) == 0x1_0000;
    assert Pow2(24) == 0x100_0000;
    assert Pow2(32) == 0x1_0000_0000;
  }

  /** What is above the `n` bits of a value that has no more. */
  lemma {:induction false} BitsPad(x: nat, n: nat)
    requires x < Pow2(n)
    ensures Bits(x, n + 1) == Bits(x, n) + [false]
    decreases n
  {
    if n > 0 {
      BitsPad(x / 2, n - 1);
      assert Bits(x, n + 1) == [Odd(x)] + (Bits(x / 2, n - 1) + [false]);
    }
  }

  lemma HalfBits(x: uint32)
    ensures Bits(x / 2, WIDTH) == Bits(x, WIDTH)[1..] + [false]
  {
    Pow2Values();
    BitsPad(x, WIDTH);
    assert Bits(x, WIDTH + 1)[1..] == Bits(x / 2, WIDTH);
  }

  /** The number with given bits, least significant first. */
  function Pack(s: seq<bool>): nat {
    if s == [] then 0 else Bit(s[0]) + 2 * Pack(s[1..])
  }

  lemma {:induction false} BitsPack(s: seq<bool>)
    ensures Bits(Pack(s), |s|) == s
  {
    if s != [] {
      BitsPack(s[1..]);
      assert Pack(s) / 2 == Pack(s[1..]);
    }
  }

  lemma PackCons(b: bool, s: seq<bool>)
    ensures Pack([b] + s) == Bit(b) + 2 * Pack(s)
  {
    assert ([b] + s)[1..] == s;
  }

  lemma PackNibble(a: bool, b: bool, c: bool, d: bool, s: seq<bool>) returns (t: seq<bool>)
    ensures t == [a, b, c, d] + s
    ensures Pack(t) == Bit(a) + 2 * Bit(b) + 4 * Bit(c) + 8 * Bit(d) + 16 * Pack(s)
  {
    PackCons(d, s);
    PackCons(c, [d] + s);
    PackCons(b, [c] + ([d] + s));
    PackCons(a, [b] + ([c] + ([d] + s)));
    t := [a] + ([b] + ([c] + ([d] + s)));
  }

  lemma PackedLow() returns (t: seq<bool>)
    ensures t == [false, false, false, true, true, true, false, true, true, false, true, true, false, true, true, true]
    ensures Pack(t) == 0xEDB8
  {
    t := PackNibble(false, true, true, true, []);
    t := PackNibble(true, false, true, true, t);
    t := PackNibble(true, true, false, true, t);
    t := PackNibble(false, false, false, true, t);
  }

  lemma PackedTail() returns (t: seq<bool>)
    ensures t == Generator()[1..]
    ensures Pack(t) == POLYNOMIAL
  {
    t := PackedLow();
    t := PackNibble(false, false, false, true, t);
    t := PackNibble(true, true, false, false, t);
    t := PackNibble(false, true, false, false, t);
    t := PackNibble(false, false, false, false, t);
  }

  /** The constant in the code is the generator without its leading term, reflected. */
  lemma PolynomialBits()
    ensures Bits(POLYNOMIAL, WIDTH) == Generator()[1..]
  {
    var t := PackedTail();
    BitsPack(t);
  }

  lemma OnesBits()
    ensures Bits(ONES, WIDTH) == AllOnes(WIDTH)
  {
    Pow2Values();
    BitsOnes(WIDTH);
  }

  function AllOnes(n: nat): (p: Poly)
    ensures |p| == n
  {
    seq(n, _ => true)
  }

  lemma Pow2Positive(n: nat)
    ensures Pow2(n) > 0
  {
  }

  lemma {:induction false} BitsOnes(n: nat)
    requires Pow2(n) > 0
    ensures Bits(Pow2(n) - 1, n) == AllOnes(n)
  {
    if n > 0 {
      Pow2Positive(n - 1);
      BitsOnes(n - 1);
      assert (Pow2(n) - 1) / 2 == Pow2(n - 1) - 1;
    }
  }

  /** A register shift is one step of long division. */
  lemma ShiftBits(r: uint32)
    ensures Bits(Shift(r), WIDTH)
         == Add(Bits(r, WIDTH)[1..] + [false], if Odd(r) then Generator()[1..] else Zeros(WIDTH))
  {
    HalfBits(r);
    if Odd(r) {
      BitsXor(r / 2, POLYNOMIAL, WIDTH);
      PolynomialBits();
    }
  }

  lemma XorFits(a: uint32, b: uint32)
    ensures Xor(a, b) < 0x1_0000_0000
  {
    Pow2Values();
    XorBound(a, b, WIDTH);
  }

  lemma FeedFits(r: uint32, b: bool)
    ensures Xor(r, Bit(b)) < 0x1_0000_0000 && Shift(Xor(r, Bit(b))) < 0x1_0000_0000
  {
    XorFits(r, Bit(b));
    XorFits(Xor(r, Bit(b)) / 2, POLYNOMIAL);
  }

  /** The register never outgrows 32 bits. */
  lemma {:induction false} RunFits(r: uint32, bits: seq<bool>)
    ensures Run(r, bits) < 0x1_0000_0000
    decreases |bits|
  {
    if bits != [] {
      FeedFits(r, bits[0]);
      RunFits(Shift(Xor(r, Bit(bits[0]))), bits[1..]);
    }
  }

  lemma CrcFits(m: seq<byte>)
    ensures Crc(m) < 0x1_0000_0000
  {
    RunFits(ONES, MessageBits(m));
    XorFits(Run(ONES, MessageBits(m)), ONES);
  }

  lemma FeedBits(r: nat, b: bool, n: nat)
    requires n > 0
    ensures Bits(Xor(r, Bit(b)), n) == [Odd(r) != b] + Bits(r, n)[1..]
  {
    XorParts(r, Bit(b));
    XorZero(r / 2);
  }

  /** The bits shifted out of the register while it runs. */
  function Quotient(r: nat, bits: seq<bool>): (q: Poly)
    ensures |q| == |bits|
    decreases |bits|
  {
    if bits == [] then [] else
      var x := Xor(r, Bit(bits[0]));
      [Odd(x)] + Quotient(Shift(x), bits[1..])
  }

  /** What the register divides: the message times x^32, plus its initial content up front. */
  function Dividend(r: nat, bits: seq<bool>): (p: Poly)
    ensures |p| == |bits| + 32
  {
    Add(bits + Zeros(32), Bits(r, WIDTH) + Zeros(|bits|))
  }

  lemma {:induction false} RunDivides(r: uint32, bits: seq<bool>)
    ensures IsDivision(Dividend(r, bits), Quotient(r, bits), Bits(Run(r, bits), WIDTH))
    decreases |bits|
  {
    if bits == [] {
    } else {
      var x := Xor(r, Bit(bits[0]));
      FeedFits(r, bits[0]);
      RunDivides(Shift(x), bits[1..]);
      ShiftBits(x);
      FeedBits(r, bits[0], WIDTH);
      DivisionStep(bits, Bits(r, WIDTH), Bits(x, WIDTH), Bits(Shift(x), WIDTH),
                   Quotient(Shift(x), bits[1..]), Bits(Run(r, bits), WIDTH));
    }
  }

  lemma DivisionStep(bits: seq<bool>, r: Poly, x: Poly, s: Poly, q: Poly, rem: Poly)
    requires |bits| > 0 && |r| == |x| == |s| == |rem| == 32
    requires x == [r[0] != bits[0]] + r[1..]
    requires s == Add(x[1..] + [false], if x[0] then Generator()[1..] else Zeros(32))
    requires |q| == |bits| - 1
    requires IsDivision(Add(bits[1..] + Zeros(32), s + Zeros(|q|)), q, rem)
    ensures IsDivision(Add(bits + Zeros(32), r + Zeros(|bits|)), [x[0]] + q, rem)
  {
    var rest := Add(bits[1..] + Zeros(32), s + Zeros(|q|));
    var p := Add(bits + Zeros(32), r + Zeros(|bits|));
    DivisionShift(bits, r, x, s, p, rest);
    TimesCons(x[0], q);
    DivisionCons(x[0], Times(q), rem, p, rest);
  }

  /** A leading coefficient put in front of a division. */
  lemma DivisionCons(b: bool, t: Poly, rem: Poly, p: Poly, rest: Poly)
    requires |rem| == 32 <= |t| && |p| == |t| + 1 && rest == Add(t, Zeros(|t| - 32) + rem)
    requires p[0] == b && forall i :: 0 < i < |p| ==> p[i] == (rest[i - 1] != (b && i < 33 && Generator()[i]))
    ensures p == Add(Leading(b, |t| - 32, t), Zeros(|t| - 31) + rem)
  {
    var n := |t| - 32;
    forall i | 0 <= i < |p| ensures p[i] == Add(Leading(b, n, t), Zeros(n + 1) + rem)[i] {
      LeadingAt(b, n, t, i);
      ZerosBefore(n + 1, rem, i);
      if i > 0 { ZerosBefore(n, rem, i - 1); }
    }
  }

  /** The generator at the top of a polynomial of degree `n` + 32, if `b`, and `t` below it. */
  function Leading(b: bool, n: nat, t: Poly): (p: Poly)
    requires |t| == n + 32
    ensures |p| == n + 33
  {
    Add((if b then Generator() else Zeros(33)) + Zeros(n), [false] + t)
  }

  lemma LeadingAt(b: bool, n: nat, t: Poly, i: nat)
    requires |t| == n + 32 && i < n + 33
    ensures Leading(b, n, t)[i] == ((b && i < 33 && Generator()[i]) != (i > 0 && t[i - 1]))
  {
  }

  lemma TimesCons(b: bool, q: Poly)
    ensures Times([b] + q) == Leading(b, |q|, Times(q))
  {
    var qq := [b] + q;
    assert qq[0] == b && qq[1..] == q && |qq| - 1 == |q|;
  }

  lemma ZerosBefore(n: nat, rem: Poly, i: nat)
    requires i < n + |rem|
    ensures (Zeros(n) + rem)[i] == (i >= n && rem[i - n])
  {
  }

  /** Subtracting the generator when the leading coefficient is set leaves the dividend of the next step. */
  lemma DivisionShift(bits: seq<bool>, r: Poly, x: Poly, s: Poly, p: Poly, rest: Poly)
    requires |bits| > 0 && |r| == |x| == |s| == 32
    requires x == [r[0] != bits[0]] + r[1..]
    requires s == Add(x[1..] + [false], if x[0] then Generator()[1..] else Zeros(32))
    requires rest == Add(bits[1..] + Zeros(32), s + Zeros(|bits| - 1))
    requires p == Add(bits + Zeros(32), r + Zeros(|bits|))
    ensures p[0] == x[0]
    ensures forall i :: 0 < i < |p| ==> p[i] == (rest[i - 1] != (x[0] && i < 33 && Generator()[i]))
  {
  }

  /** The polynomial a CRC-32 divides: the message times x^32, its first 32 bits complemented. */
  function Prepared(m: seq<byte>): (p: Poly) {
    Add(MessageBits(m) + Zeros(32), AllOnes(32) + Zeros(8 * |m|))
  }

  /** The CRC of a message is the complement of its remainder, and of nothing else. */
  lemma CrcIsRemainder(m: seq<byte>, r: Poly)
    ensures IsRemainder(Prepared(m), r) <==> r == Add(Bits(Crc(m), 32), AllOnes(32))
  {
    var bits := MessageBits(m);
    var run := Run(ONES, bits);
    OnesBits();
    RunDivides(ONES, bits);
    BitsXor(run, ONES, WIDTH);
    var complement := Add(Bits(Crc(m), WIDTH), AllOnes(32));
    assert complement == Bits(run, WIDTH);
    assert IsRemainder(Prepared(m), complement);
    if IsRemainder(Prepared(m), r) {
      var q :| IsDivision(Prepared(m), q, r);
      DivisionUnique(Prepared(m), q, r, Quotient(ONES, bits), Bits(run, WIDTH));
    }
  }
}
