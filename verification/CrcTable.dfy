/** The table-driven `crc32()` of iris.c, with its lazily filled global table. */
module CrcTable {
  import opened Gf2
  import opened Words
  import opened Crc32

  // ----- eight bit steps are one table step

  /** The table entry for a byte: eight shifts of the register that holds it. */
  function Entry(x: nat): nat {
    Run(x, Zeros(8))
  }

  lemma HalfFeed(x: nat)
    ensures Shift(Xor(x, Bit(Odd(x)))) == x / 2
  {
    XorParts(x, Bit(Odd(x)));
    XorZero(x / 2);
  }

  function Halved(x: nat, n: nat): nat
    decreases n, x
  {
    if n == 0 then x else Halved(x / 2, n - 1)
  }

  /** A register fed its own low bits only shifts. */
  lemma {:induction false} RunOwnBits(x: nat, n: nat)
    ensures Run(x, Bits(x, n)) == Halved(x, n)
    decreases n
  {
    if n > 0 {
      HalfFeed(x);
      RunOwnBits(x / 2, n - 1);
      assert Bits(x, n)[1..] == Bits(x / 2, n - 1);
    }
  }

  lemma {:induction false} HalvedXor(a: nat, b: nat, n: nat)
    ensures Halved(Xor(a, b), n) == Xor(Halved(a, n), Halved(b, n))
    decreases n
  {
    if n > 0 {
      XorParts(a, b);
      HalvedXor(a / 2, b / 2, n - 1);
    }
  }

  lemma HalvedByte(x: nat)
    ensures Halved(x, 8) == x / 256
  {
    var x1 := x / 2;
    var x2 := x1 / 2;
    var x3 := x2 / 2;
    var x4 := x3 / 2;
    var x5 := x4 / 2;
    var x6 := x5 / 2;
    var x7 := x6 / 2;
    HalvedStep(x, 8);
    HalvedStep(x1, 7);
    HalvedStep(x2, 6);
    HalvedStep(x3, 5);
    HalvedStep(x4, 4);
    HalvedStep(x5, 3);
    HalvedStep(x6, 2);
    HalvedStep(x7, 1);
    EightHalves(x, x1, x2, x3, x4, x5, x6, x7);
  }

  lemma HalvedStep(x: nat, n: nat)
    requires n > 0
    ensures Halved(x, n) == Halved(x / 2, n - 1) && Halved(x, 0) == x && Halved(x / 2, 0) == x / 2
  {
  }

  lemma EightHalves(x: nat, x1: nat, x2: nat, x3: nat, x4: nat, x5: nat, x6: nat, x7: nat)
    requires x1 == x / 2 && x2 == x1 / 2 && x3 == x2 / 2 && x4 == x3 / 2
    requires x5 == x4 / 2 && x6 == x5 / 2 && x7 == x6 / 2
    ensures x7 / 2 == x / 256
  {
    assert x2 == x / 4 && x4 == x2 / 4 && x6 == x4 / 4 && x7 / 2 == x6 / 4;
    assert x4 == x / 16 && x7 / 2 == x4 / 16;
  }

  /** Adding a multiple of 2^n does not change the low n bits. */
  lemma {:induction false} BitsPlus(x: nat, k: nat, n: nat)
    ensures Bits(x + k * Pow2(n), n) == Bits(x, n)
    decreases n
  {
    if n > 0 {
      var t := k * Pow2(n - 1);
      assert k * Pow2(n) == 2 * t;
      assert (x + 2 * t) / 2 == x / 2 + t;
      BitsPlus(x / 2, k, n - 1);
    }
  }

  lemma BitsLowByte(x: nat)
    ensures Bits(x % 256, 8) == Bits(x, 8)
  {
    Pow2Values();
    var n := 8;
    BitsPlus(x % 256, x / 256, n);
  }

  lemma AddTwice(p: Poly, q: Poly)
    requires |p| == |q|
    ensures Add(p, Add(p, q)) == q
  {
  }

  /** Removing the table index from the register leaves the message byte in its low bits. */
  lemma IndexRemoved(r: nat, c: nat, s: nat, n: nat)
    requires Bits(s, n) == Bits(Xor(r, c), n)
    ensures Bits(Xor(r, s), n) == Bits(c, n)
  {
    BitsXor(r, c, n);
    BitsXor(r, s, n);
    AddTwice(Bits(r, n), Bits(c, n));
  }

  lemma XorUndo(r: nat, s: nat)
    ensures Xor(Xor(r, s), s) == r
  {
    XorAssociates(r, s, s);
    XorSelf(s);
    XorZero(r);
  }

  /** One byte of message is eight bit steps, or one look-up. */
  lemma TableStep(r: nat, c: byte)
    ensures Run(r, Bits(c, 8)) == Xor(r / 256, Entry(Xor(r, c) % 256))
  {
    var n: nat := 8;
    var s := Xor(r, c) % 256;
    var y := Xor(r, s);
    BitsLowByte(Xor(r, c));
    IndexRemoved(r, c, s, n);
    RunOwnBits(y, n);
    HalvedXor(r, s, n);
    HalvedByte(r);
    HalvedByte(s);
    XorZero(r / 256);
    RunLinear(y, Bits(c, n), s, Zeros(n));
    XorUndo(r, s);
    assert Add(Bits(c, n), Zeros(n)) == Bits(c, n);
  }

  lemma RunZero(r: nat, j: nat)
    requires j > 0
    ensures Run(r, Zeros(j)) == Run(Shift(r), Zeros(j - 1))
  {
    XorZero(r);
    assert Zeros(j)[1..] == Zeros(j - 1);
  }

  lemma XorNothing(a: nat, b: nat)
    requires Xor(a, b) == 0
    ensures a == b
  {
    XorUndo(a, b);
    XorCommutes(0, b);
    XorZero(b);
  }

  /** No run of zeros clears a register. */
  lemma {:induction false} RunZerosNonzero(r: uint32, n: nat)
    requires r != 0
    ensures Run(r, Zeros(n)) != 0
    decreases n
  {
    if n > 0 {
      if Shift(r) == 0 {
        if Odd(r) { XorNothing(r / 2, POLYNOMIAL); }
        assert false;
      }
      RunZero(r, n);
      XorZero(r);
      FeedFits(r, false);
      RunZerosNonzero(Shift(r), n - 1);
    }
  }

  /** The entry the lazy initialisation looks at is zero only while the table is blank. */
  lemma GuardIsSound()
    ensures Entry(144) != 0
  {
    RunZerosNonzero(144, 8);
  }

  // ----- the code

  /** The inner loop of the initialisation: eight shifts of a byte value. */
  method ShiftEight(i: byte) returns (crc: nat)
    ensures crc == Entry(i)
  {
    crc := i;
    var j: nat := 8;
    while j > 0
      invariant Run(crc, Zeros(j)) == Entry(i)
    {
      RunZero(crc, j);
      if crc % 2 == 1 {
        crc := Xor(crc / 2, 0xEDB88320);
      } else {
        crc := crc / 2;
      }
      j := j - 1;
    }
  }

  lemma MaskIdle(r: uint32)
    ensures (r / 256) % 0x100_0000 == r / 256
  {
  }

  /** A look-up extends the message by a byte; the mask on the shifted register does nothing. */
  lemma LookupStep(m: seq<byte>, c: byte, r: nat)
    requires r == Run(ONES, MessageBits(m))
    ensures Xor((r / 256) % 0x100_0000, Entry(Xor(r, c) % 256)) == Run(ONES, MessageBits(m + [c]))
  {
    RunFits(ONES, MessageBits(m));
    MaskIdle(r);
    RunByte(m, c);
    TableStep(r, c);
  }

  /** The global `CRC32[256]`, all zero until the first call. */
  class Table {
    const entries: array<nat>

    ghost predicate Filled()
      reads this, entries
    {
      entries.Length == 256 && forall i :: 0 <= i < 256 ==> entries[i] == Entry(i)
    }

    ghost predicate Blank()
      reads this, entries
    {
      entries.Length == 256 && forall i :: 0 <= i < 256 ==> entries[i] == 0
    }

    constructor ()
      ensures Blank() && fresh(entries)
    {
      entries := new nat[256](_ => 0);
    }

    /** The initialisation in `crc32()`: eight shifts of every byte value. */
    method Fill()
      requires entries.Length == 256
      modifies entries
      ensures Filled()
    {
      for i := 0 to 256
        invariant forall k :: 0 <= k < i ==> entries[k] == Entry(k)
      {
        entries[i] := ShiftEight(i);
      }
    }

    /** `crc32()`: fills the table on the first call, then does one look-up a byte. */
    method Checksum(buf: array?<byte>, len: int) returns (crc: nat)
      requires Blank() || Filled()
      requires buf != null ==> len <= buf.Length
      modifies entries
      ensures Filled()
      ensures old(Filled()) ==> entries[..] == old(entries[..])
      ensures crc == if buf == null then 0 else Crc(buf[..if len < 0 then 0 else len])
      ensures crc < 0x1_0000_0000
    {
      GuardIsSound();
      if entries[144] == 0 {
        Fill();
      }
      if buf == null {
        return 0;
      }
      crc := Scan(buf, len);
    }

    /** The look-up loop, over a filled table. */
    method Scan(buf: array<byte>, len: int) returns (crc: nat)
      requires Filled() && len <= buf.Length
      ensures crc == Crc(buf[..if len < 0 then 0 else len]) < 0x1_0000_0000
    {
      crc := 0xFFFF_FFFF;
      var i := 0;
      while i < len
        invariant 0 <= i && (i <= len || i == 0)
        invariant crc == Run(ONES, MessageBits(buf[..i]))
      {
        var c := buf[i];
        LookupStep(buf[..i], c, crc);
        assert buf[..i + 1] == buf[..i] + [c];
        crc := Xor((crc / 256) % 0x100_0000, entries[Xor(crc, c) % 256]);
        i := i + 1;
      }
      CrcFits(buf[..i]);
      crc := Xor(crc, 0xFFFF_FFFF);
    }
  }

  lemma RunByte(m: seq<byte>, c: byte)
    ensures Run(ONES, MessageBits(m + [c])) == Run(Run(ONES, MessageBits(m)), Bits(c, 8))
  {
    MessageBitsAppend(m, [c]);
    RunAppend(ONES, MessageBits(m), Bits(c, 8));
    assert MessageBits([c]) == Bits(c, 8) + MessageBits([]);
    assert MessageBits([c]) == Bits(c, 8);
  }
}
