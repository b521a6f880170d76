/** What a frame is, byte by byte and number by number, without the functions that lay it out. */
module WireFormat {
  import opened Words
  import opened Crc32
  import opened Frames

  /** The number four bytes spell, and two. */
  function Number4(a: int, b: int, c: int, d: int): (n: int)
    ensures n == a * 16777216 + b * 65536 + c * 256 + d
  {
    ((a * 256 + b) * 256 + c) * 256 + d
  }

  function Number2(a: int, b: int): (n: int)
    ensures n == a * 256 + b
  {
    a * 256 + b
  }

  /** Four bytes as a number, the most significant first, and two. */
  lemma BigBytes(x: uint32, y: uint16)
    ensures var b := Bytes32(Big, x); Number4(b[0], b[1], b[2], b[3]) == x
    ensures var b := Bytes16(Big, y); Number2(b[0], b[1]) == y
  {
    var hi: uint16, lo: uint16 := (x as int) / 0x1_0000, (x as int) % 0x1_0000;
    assert Bytes32(Big, x) == Bytes16(Big, hi) + Bytes16(Big, lo);
  }

  /** The least significant first. */
  lemma LittleBytes(x: uint32, y: uint16)
    ensures var b := Bytes32(Little, x); Number4(b[3], b[2], b[1], b[0]) == x
    ensures var b := Bytes16(Little, y); Number2(b[1], b[0]) == y
  {
    var hi: uint16, lo: uint16 := (x as int) / 0x1_0000, (x as int) % 0x1_0000;
    assert Bytes32(Little, x) == Bytes16(Little, lo) + Bytes16(Little, hi);
  }

  /** The bytes of a structure in a machine that stores the most significant byte first, which is how it is sent. */
  lemma BigImage(p: Pdu)
    requires p.Shape()
    ensures var f := Image(Big, p);
            && Number4(f[0], f[1], f[2], f[3]) == p.crc
            && Number4(f[4], f[5], f[6], f[7]) == p.ts
            && Number2(f[8], f[9]) == p.version && Number2(f[10], f[11]) == p.rc
            && f[12..76] == p.host && f[76..204] == p.service && f[204..4300] == p.output
  {
    var f := Image(Big, p);
    Pieces(Bytes32(Big, p.crc), Bytes32(Big, p.ts), Bytes16(Big, p.version), Bytes16(Big, p.rc),
           p.host, p.service, p.output);
    Indices(f);
    BigBytes(p.crc, p.version);
    BigBytes(p.ts, p.rc);
  }

  /** The bytes of a structure in a machine that stores the least significant byte first. */
  lemma LittleImage(p: Pdu)
    requires p.Shape()
    ensures var f := Image(Little, p);
            && Number4(f[3], f[2], f[1], f[0]) == p.crc
            && Number4(f[7], f[6], f[5], f[4]) == p.ts
            && Number2(f[9], f[8]) == p.version && Number2(f[11], f[10]) == p.rc
            && f[12..76] == p.host && f[76..204] == p.service && f[204..4300] == p.output
  {
    var f := Image(Little, p);
    Pieces(Bytes32(Little, p.crc), Bytes32(Little, p.ts), Bytes16(Little, p.version), Bytes16(Little, p.rc),
           p.host, p.service, p.output);
    Indices(f);
    LittleBytes(p.crc, p.version);
    LittleBytes(p.ts, p.rc);
  }

  lemma Indices(f: Memory)
    ensures var a, b, c, d := f[0..4], f[4..8], f[8..10], f[10..12];
            && a[0] == f[0] && a[1] == f[1] && a[2] == f[2] && a[3] == f[3]
            && b[0] == f[4] && b[1] == f[5] && b[2] == f[6] && b[3] == f[7]
            && c[0] == f[8] && c[1] == f[9] && d[0] == f[10] && d[1] == f[11]
  {
  }

  /** A packed frame: the CRC-32 of the frame with four zeros in its place, the timestamp, version 1 and the return
      code, each with its most significant byte first, and the three texts as they are. */
  lemma FrameBytes(p: Pdu, f: Memory)
    requires p.Shape() && f == Frame(p)
    ensures && |f| == 4300
            && Number4(f[0], f[1], f[2], f[3]) == Crc([0, 0, 0, 0] + f[4..])
            && Number4(f[4], f[5], f[6], f[7]) == p.ts
            && f[8] == 0 && f[9] == 1 && Number2(f[10], f[11]) == p.rc
            && f[12..76] == p.host && f[76..204] == p.service && f[204..4300] == p.output
  {
    PackThenUnpack(p, 0);
    ViewBytes(f);
    CrcOfFrame(f);
  }

  lemma CrcOfFrame(f: Memory)
    ensures CrcMatches(f) <==> Number4(f[0], f[1], f[2], f[3]) == Crc([0, 0, 0, 0] + f[4..])
  {
    ViewBytes(f);
  }

  /** What the fields of received bytes are. */
  lemma ViewBytes(f: Memory)
    ensures var p := View(Big, f);
            && p.crc == Number4(f[0], f[1], f[2], f[3])
            && p.ts == Number4(f[4], f[5], f[6], f[7])
            && p.version == Number2(f[8], f[9]) && p.rc == Number2(f[10], f[11])
            && p.host == f[12..76] && p.service == f[76..204] && p.output == f[204..4300]
  {
    ImageOfView(Big, f);
    BigImage(View(Big, f));
  }

  /** What `pdu_unpack()` leaves in the buffer where the most significant byte comes first: what was there. */
  lemma UnpackedBig(f: Memory)
    ensures Unpacked(Big, f) == f
  {
    ImageOfView(Big, f);
    Bytes32OfValue(Big, f[0..4]);
    assert f == f[0..4] + f[4..];
  }

  /** And where the least significant byte comes first: after a good CRC, the numbers turned around and the texts as
      they are; after a bad one, nothing turned around but the CRC. */
  lemma UnpackedLittle(f: Memory, m: Memory)
    requires m == Unpacked(Little, f)
    ensures m[3] == f[0] && m[2] == f[1] && m[1] == f[2] && m[0] == f[3]
    ensures CrcMatches(f) ==>
              && m[7] == f[4] && m[6] == f[5] && m[5] == f[6] && m[4] == f[7]
              && m[9] == f[8] && m[8] == f[9] && m[11] == f[10] && m[10] == f[11] && m[12..] == f[12..]
    ensures !CrcMatches(f) ==> m[4..] == f[4..]
  {
    if CrcMatches(f) {
      TurnedAround(f, m);
    } else {
      CrcTurned(f, m);
    }
  }

  lemma TurnedAround(f: Memory, m: Memory)
    requires m == Image(Little, View(Big, f))
    ensures m[3] == f[0] && m[2] == f[1] && m[1] == f[2] && m[0] == f[3]
    ensures m[7] == f[4] && m[6] == f[5] && m[5] == f[6] && m[4] == f[7]
    ensures m[9] == f[8] && m[8] == f[9] && m[11] == f[10] && m[10] == f[11] && m[12..] == f[12..]
  {
    var p := View(Big, f);
    ViewBytes(f);
    LittleImage(p);
    Indices(f);
    Indices(m);
    SameDigits(m[0..4], f[0..4], p.crc);
    SameDigits(m[4..8], f[4..8], p.ts);
    SamePair(m[8..10], f[8..10], p.version);
    SamePair(m[10..12], f[10..12], p.rc);
    SameText(f, m);
  }

  lemma SameText(f: Memory, m: Memory)
    requires m[12..76] == f[12..76] && m[76..204] == f[76..204] && m[204..4300] == f[204..4300]
    ensures m[12..] == f[12..]
  {
    assert m[12..] == m[12..76] + m[76..204] + m[204..4300];
    assert f[12..] == f[12..76] + f[76..204] + f[204..4300];
  }

  lemma CrcTurned(f: Memory, m: Memory)
    requires m == Bytes32(Little, Value32(Big, f[0..4])) + f[4..]
    ensures m[3] == f[0] && m[2] == f[1] && m[1] == f[2] && m[0] == f[3] && m[4..] == f[4..]
  {
    var x := Value32(Big, f[0..4]);
    Bytes32OfValue(Big, f[0..4]);
    BigBytes(x, 0);
    LittleBytes(x, 0);
    SameDigits(Bytes32(Little, x), f[0..4], x);
  }

  /** A number has one spelling of four bytes, forwards and backwards. */
  lemma SameDigits(little: Word4, big: Word4, x: uint32)
    requires Number4(little[3], little[2], little[1], little[0]) == x
    requires Number4(big[0], big[1], big[2], big[3]) == x
    ensures little[3] == big[0] && little[2] == big[1] && little[1] == big[2] && little[0] == big[3]
  {
  }

  lemma SamePair(little: Word2, big: Word2, y: uint16)
    requires Number2(little[1], little[0]) == y == Number2(big[0], big[1])
    ensures little[1] == big[0] && little[0] == big[1]
  {
  }

  /** Exactly what makes `pdu_unpack()` accept 4300 bytes: the CRC-32, version 1 and a recent timestamp. */
  ghost predicate Genuine(f: Memory, now: nat) {
    && Number4(f[0], f[1], f[2], f[3]) == Crc([0, 0, 0, 0] + f[4..])
    && f[8] == 0 && f[9] == 1
    && Recent(Number4(f[4], f[5], f[6], f[7]), now)
  }

  /** Within 900 seconds; or after 2106, and above the low 32 bits of the clock. */
  predicate Recent(ts: int, now: nat) {
    -900 <= ts - now <= 900 || (now >= 0x1_0000_0000 && ts > now % 0x1_0000_0000)
  }

  lemma FreshIsRecent(now: nat, ts: uint32)
    ensures Fresh(now, ts) <==> Recent(ts, now)
  {
  }

  lemma VersionOne(a: byte, b: byte)
    ensures Number2(a, b) == 1 <==> a == 0 && b == 1
  {
  }

  lemma VersionOfFrame(f: Memory)
    ensures View(Big, f).version == PROTOCOL_VERSION <==> f[8] == 0 && f[9] == 1
  {
    ViewBytes(f);
    VersionOne(f[8], f[9]);
  }

  lemma AgeOfFrame(f: Memory, now: nat)
    ensures Fresh(now, View(Big, f).ts) <==> Recent(Number4(f[4], f[5], f[6], f[7]), now)
  {
    ViewBytes(f);
    FreshIsRecent(now, View(Big, f).ts);
  }

  lemma AcceptedIsGenuine(f: Memory, now: nat)
    ensures Accepted(now, f) <==> Genuine(f, now)
  {
    CrcOfFrame(f);
    VersionOfFrame(f);
    AgeOfFrame(f, now);
  }
}
