/** `struct pdu` in memory and on the wire: `pdu_pack()` and `pdu_unpack()` of iris.c. */
module Frames {
  import opened Words
  import opened Crc32
  import opened CrcTable

  const SIZE: nat := 4300
  const HOST_LEN: nat := 64
  const SERVICE_LEN: nat := 128
  const OUTPUT_LEN: nat := 4096
  const PROTOCOL_VERSION: uint16 := 1
  const MAX_AGE: nat := 900

  /** The order in which a machine stores the bytes of an integer. */
  datatype Order = Big | Little

  type Word2 = s: seq<byte> | |s| == 2 witness [0, 0]
  type Word4 = s: seq<byte> | |s| == 4 witness [0, 0, 0, 0]

  function Bytes16(o: Order, x: uint16): (s: Word2) {
    var n: int := x;
    var hi: byte, lo: byte := n / 0x100, n % 0x100;
    if o == Big then [hi, lo] else [lo, hi]
  }

  function Value16(o: Order, s: Word2): uint16 {
    var hi: int, lo: int := s[if o == Big then 0 else 1], s[if o == Big then 1 else 0];
    hi * 0x100 + lo
  }

  function Bytes32(o: Order, x: uint32): (s: Word4) {
    var hi: uint16, lo: uint16 := (x as int) / 0x1_0000, (x as int) % 0x1_0000;
    if o == Big then Bytes16(Big, hi) + Bytes16(Big, lo) else Bytes16(Little, lo) + Bytes16(Little, hi)
  }

  function Value32(o: Order, s: Word4): uint32 {
    var a: int, b: int := Value16(o, s[..2]), Value16(o, s[2..]);
    if o == Big then a * 0x1_0000 + b else b * 0x1_0000 + a
  }

  lemma Value16Inverts(o: Order, x: uint16, s: Word2)
    ensures Value16(o, Bytes16(o, x)) == x
    ensures Bytes16(o, Value16(o, s)) == s
  {
  }

  lemma Value32OfBytes(o: Order, x: uint32)
    ensures Value32(o, Bytes32(o, x)) == x
  {
    var hi: uint16, lo: uint16 := (x as int) / 0x1_0000, (x as int) % 0x1_0000;
    Value16Inverts(o, hi, [0, 0]);
    Value16Inverts(o, lo, [0, 0]);
    assert Bytes32(o, x)[..2] == Bytes16(o, if o == Big then hi else lo);
    assert Bytes32(o, x)[2..] == Bytes16(o, if o == Big then lo else hi);
  }

  lemma Bytes32OfValue(o: Order, s: Word4)
    ensures Bytes32(o, Value32(o, s)) == s
  {
    Value16Inverts(o, 0, s[..2]);
    Value16Inverts(o, 0, s[2..]);
    var a: int, b: int := Value16(o, s[..2]), Value16(o, s[2..]);
    assert (a * 0x1_0000 + b) / 0x1_0000 == a && (a * 0x1_0000 + b) % 0x1_0000 == b;
    assert (b * 0x1_0000 + a) / 0x1_0000 == b && (b * 0x1_0000 + a) % 0x1_0000 == a;
    assert s == s[..2] + s[2..];
  }

  // htonl and friends on a machine of order `o`: the number whose bytes in memory are in network order

  function Htons(o: Order, x: uint16): uint16 { Value16(o, Bytes16(Big, x)) }
  function Ntohs(o: Order, x: uint16): uint16 { Value16(Big, Bytes16(o, x)) }
  function Htonl(o: Order, x: uint32): uint32 { Value32(o, Bytes32(Big, x)) }
  function Ntohl(o: Order, x: uint32): uint32 { Value32(Big, Bytes32(o, x)) }

  datatype Pdu = Pdu(crc: uint32, ts: uint32, version: uint16, rc: uint16,
                     host: seq<byte>, service: seq<byte>, output: seq<byte>)
  {
    predicate Shape() {
      |host| == HOST_LEN && |service| == SERVICE_LEN && |output| == OUTPUT_LEN
    }
  }

  type Memory = s: seq<byte> | |s| == SIZE witness seq(SIZE, _ => 0)

  /** The structure as it lies in the memory of a machine; network order is the wire form. */
  function Image(o: Order, p: Pdu): (s: Memory)
    requires p.Shape()
  {
    Bytes32(o, p.crc) + Bytes32(o, p.ts) + Bytes16(o, p.version) + Bytes16(o, p.rc) + (p.host + p.service + p.output)
  }

  function View(o: Order, s: Memory): (p: Pdu)
    ensures p.Shape()
  {
    Pdu(Value32(o, s[0..4]), Value32(o, s[4..8]), Value16(o, s[8..10]), Value16(o, s[10..12]),
        s[12..76], s[76..204], s[204..4300])
  }

  lemma ViewOfImage(o: Order, p: Pdu)
    requires p.Shape()
    ensures View(o, Image(o, p)) == p
  {
    Pieces(Bytes32(o, p.crc), Bytes32(o, p.ts), Bytes16(o, p.version), Bytes16(o, p.rc), p.host, p.service, p.output);
    Value32OfBytes(o, p.crc);
    Value32OfBytes(o, p.ts);
    Value16Inverts(o, p.version, [0, 0]);
    Value16Inverts(o, p.rc, [0, 0]);
  }

  /** Where the fields of a structure lie. */
  lemma Pieces(crc: Word4, ts: Word4, version: Word2, rc: Word2, host: seq<byte>, service: seq<byte>, output: seq<byte>)
    requires |host| == HOST_LEN && |service| == SERVICE_LEN && |output| == OUTPUT_LEN
    ensures var s := crc + ts + version + rc + (host + service + output);
            && |s| == SIZE && s[0..4] == crc && s[4..8] == ts && s[8..10] == version && s[10..12] == rc
            && s[12..76] == host && s[76..204] == service && s[204..4300] == output
  {
    TextPieces(crc + ts + version + rc, host, service, output);
  }

  lemma TextPieces(header: seq<byte>, host: seq<byte>, service: seq<byte>, output: seq<byte>)
    requires |header| == 12 && |host| == HOST_LEN && |service| == SERVICE_LEN && |output| == OUTPUT_LEN
    ensures var s := header + (host + service + output);
            && |s| == SIZE && s[12..76] == host && s[76..204] == service && s[204..4300] == output
  {
  }

  lemma ImageOfView(o: Order, s: Memory)
    ensures Image(o, View(o, s)) == s
  {
    Bytes32OfValue(o, s[0..4]);
    Bytes32OfValue(o, s[4..8]);
    Value16Inverts(o, 0, s[8..10]);
    Value16Inverts(o, 0, s[10..12]);
    assert s == s[0..4] + s[4..8] + s[8..10] + s[10..12] + s[12..76] + s[76..204] + s[204..4300];
  }

  // ----- what a packed frame is

  /** The frame with its CRC field cleared, the message its CRC is taken of. */
  function Cleared(s: Memory): (c: Memory) { [0, 0, 0, 0] + s[4..] }

  function FrameCrc(s: Memory): uint32 {
    CrcFits(Cleared(s));
    Crc(Cleared(s))
  }

  /** The PDU as it is after packing: current version, matching CRC. */
  function Sealed(p: Pdu): (q: Pdu)
    requires p.Shape()
    ensures q.Shape()
  {
    p.(version := PROTOCOL_VERSION, crc := FrameCrc(Image(Big, p.(version := PROTOCOL_VERSION))))
  }

  /** The 4300 bytes sent for a PDU. */
  function Frame(p: Pdu): (s: Memory)
    requires p.Shape()
  {
    Image(Big, Sealed(p))
  }

  predicate CrcMatches(s: Memory) { Value32(Big, s[0..4]) == FrameCrc(s) }

  /** Within 900 seconds of the clock; a clock beyond 32 bits also lets through every
      timestamp above its own low 32 bits. */
  predicate Fresh(now: nat, ts: uint32) {
    || (ts <= now + MAX_AGE && now <= ts + MAX_AGE)
    || (now >= 0x1_0000_0000 && ts > now % 0x1_0000_0000)
  }

  predicate Accepted(now: nat, s: Memory) {
    CrcMatches(s) && View(Big, s).version == PROTOCOL_VERSION && Fresh(now, View(Big, s).ts)
  }

  /** The buffer after unpacking: all in host order, or only the CRC field when that did not match. */
  function Unpacked(o: Order, s: Memory): (m: Memory) {
    if CrcMatches(s) then Image(o, View(Big, s)) else Bytes32(o, Value32(Big, s[0..4])) + s[4..]
  }

  // ----- the code

  method Load16(buf: array<byte>, at: nat, o: Order) returns (x: uint16)
    requires at + 2 <= buf.Length
    ensures x == Value16(o, buf[at..at + 2])
  {
    x := Value16(o, [buf[at], buf[at + 1]]);
    assert buf[at..at + 2] == [buf[at], buf[at + 1]];
  }

  method Load32(buf: array<byte>, at: nat, o: Order) returns (x: uint32)
    requires at + 4 <= buf.Length
    ensures x == Value32(o, buf[at..at + 4])
  {
    x := Value32(o, [buf[at], buf[at + 1], buf[at + 2], buf[at + 3]]);
    assert buf[at..at + 4] == [buf[at], buf[at + 1], buf[at + 2], buf[at + 3]];
  }

  /** Overwriting part of a sequence. */
  function Patch(s: seq<byte>, at: nat, w: seq<byte>): (t: seq<byte>)
    requires at + |w| <= |s|
    ensures |t| == |s|
  {
    s[..at] + w + s[at + |w|..]
  }

  method Store16(buf: array<byte>, at: nat, o: Order, x: uint16)
    requires at + 2 <= buf.Length
    modifies buf
    ensures buf[..] == Patch(old(buf[..]), at, Bytes16(o, x))
  {
    var w := Bytes16(o, x);
    buf[at], buf[at + 1] := w[0], w[1];
  }

  method Store32(buf: array<byte>, at: nat, o: Order, x: uint32)
    requires at + 4 <= buf.Length
    modifies buf
    ensures buf[..] == Patch(old(buf[..]), at, Bytes32(o, x))
  {
    var w := Bytes32(o, x);
    buf[at], buf[at + 1], buf[at + 2], buf[at + 3] := w[0], w[1], w[2], w[3];
  }

  lemma NetworkBytes(o: Order, x: uint32, y: uint16)
    ensures Bytes32(o, Htonl(o, x)) == Bytes32(Big, x)
    ensures Bytes16(o, Htons(o, y)) == Bytes16(Big, y)
  {
    Bytes32OfValue(o, Bytes32(Big, x));
    Value16Inverts(o, 0, Bytes16(Big, y));
  }

  /** A memory image by its fields: CRC, timestamp, version, return code, text. */
  function Fields(crc: Word4, ts: Word4, version: Word2, rc: Word2, text: seq<byte>): (s: seq<byte>)
    ensures |s| == 12 + |text|
  {
    crc + ts + version + rc + text
  }

  lemma PatchField(crc: Word4, ts: Word4, version: Word2, rc: Word2, text: seq<byte>, w: Word4, h: Word2)
    ensures Patch(Fields(crc, ts, version, rc, text), 0, w) == Fields(w, ts, version, rc, text)
    ensures Patch(Fields(crc, ts, version, rc, text), 4, w) == Fields(crc, w, version, rc, text)
    ensures Patch(Fields(crc, ts, version, rc, text), 8, h) == Fields(crc, ts, h, rc, text)
    ensures Patch(Fields(crc, ts, version, rc, text), 10, h) == Fields(crc, ts, version, h, text)
  {
  }

  lemma FieldsOfView(o: Order, s: Memory)
    ensures s == Fields(s[0..4], s[4..8], s[8..10], s[10..12], s[12..])
    ensures View(o, s).host + View(o, s).service + View(o, s).output == s[12..]
  {
  }

  lemma FieldsOfImage(o: Order, p: Pdu)
    requires p.Shape()
    ensures Image(o, p) == Fields(Bytes32(o, p.crc), Bytes32(o, p.ts), Bytes16(o, p.version), Bytes16(o, p.rc),
                                  p.host + p.service + p.output)
  {
  }

  /** `x = htonl(x)` on a field of a machine of order `o`. */
  method HostToNetwork32(buf: array<byte>, at: nat, o: Order)
    requires at + 4 <= buf.Length
    modifies buf
    ensures buf[..] == Patch(old(buf[..]), at, Bytes32(Big, Value32(o, old(buf[at..at + 4]))))
  {
    var x := Load32(buf, at, o);
    NetworkBytes(o, x, 0);
    Store32(buf, at, o, Htonl(o, x));
  }

  method HostToNetwork16(buf: array<byte>, at: nat, o: Order)
    requires at + 2 <= buf.Length
    modifies buf
    ensures buf[..] == Patch(old(buf[..]), at, Bytes16(Big, Value16(o, old(buf[at..at + 2]))))
  {
    var x := Load16(buf, at, o);
    NetworkBytes(o, 0, x);
    Store16(buf, at, o, Htons(o, x));
  }

  /** `x = ntohl(x)` on a field of a machine of order `o`. */
  method NetworkToHost32(buf: array<byte>, at: nat, o: Order)
    requires at + 4 <= buf.Length
    modifies buf
    ensures buf[..] == Patch(old(buf[..]), at, Bytes32(o, Value32(Big, old(buf[at..at + 4]))))
  {
    var x := Load32(buf, at, o);
    Bytes32OfValue(o, buf[at..at + 4]);
    Store32(buf, at, o, Ntohl(o, x));
  }

  method NetworkToHost16(buf: array<byte>, at: nat, o: Order)
    requires at + 2 <= buf.Length
    modifies buf
    ensures buf[..] == Patch(old(buf[..]), at, Bytes16(o, Value16(Big, old(buf[at..at + 2]))))
  {
    var x := Load16(buf, at, o);
    Value16Inverts(o, 0, buf[at..at + 2]);
    Store16(buf, at, o, Ntohs(o, x));
  }

  /** The header with its version, timestamp and return code replaced, in the order the code does it. */
  lemma HeaderPatches(s: Memory, v: Word2, t: Word4, r: Word2, c: Word4)
    ensures Patch(s, 8, v)[4..8] == s[4..8]
    ensures Patch(Patch(s, 8, v), 4, t)[10..12] == s[10..12]
    ensures Patch(Patch(Patch(Patch(s, 8, v), 4, t), 10, r), 0, c) == Fields(c, t, v, r, s[12..])
  {
    FieldsOfView(Big, s);
    PatchField(s[0..4], s[4..8], s[8..10], s[10..12], s[12..], t, v);
    PatchField(s[0..4], s[4..8], v, s[10..12], s[12..], t, v);
    PatchField(s[0..4], t, v, s[10..12], s[12..], t, r);
    PatchField(s[0..4], t, v, r, s[12..], c, r);
  }

  /** The version, timestamp and return code in network order. */
  method NetworkOrder(pdu: array<byte>, o: Order, ghost s: Memory)
    requires pdu.Length == SIZE && pdu[..] == s
    modifies pdu
    ensures var p := View(o, s);
            pdu[..] == Patch(Patch(Patch(s, 8, Bytes16(Big, PROTOCOL_VERSION)), 4, Bytes32(Big, p.ts)),
                             10, Bytes16(Big, p.rc))
  {
    ghost var v, t := Bytes16(Big, PROTOCOL_VERSION), Bytes32(Big, View(o, s).ts);
    NetworkBytes(o, 0, PROTOCOL_VERSION);
    HeaderPatches(s, v, t, [0, 0], [0, 0, 0, 0]);
    Store16(pdu, 8, o, Htons(o, PROTOCOL_VERSION));
    assert pdu[4..8] == pdu[..][4..8];
    HostToNetwork32(pdu, 4, o);
    assert pdu[..] == Patch(Patch(s, 8, v), 4, t);
    assert pdu[10..12] == pdu[..][10..12];
    HostToNetwork16(pdu, 10, o);
  }

  /** The header in network order, the CRC still to come. */
  method PduHeader(pdu: array<byte>, o: Order)
    requires pdu.Length == SIZE
    modifies pdu
    ensures pdu[..] == Image(Big, View(o, old(pdu[..])).(version := PROTOCOL_VERSION, crc := 0))
  {
    ghost var s: Memory := pdu[..];
    NetworkOrder(pdu, o, s);
    Bytes32OfValue(o, [0, 0, 0, 0]);
    ZeroBytes(o);
    Store32(pdu, 0, o, 0);
    HeaderImage(o, s);
  }

  lemma ZeroBytes(o: Order)
    ensures Bytes32(o, 0) == [0, 0, 0, 0]
  {
  }

  lemma HeaderImage(o: Order, s: Memory)
    ensures var p := View(o, s);
            Patch(Patch(Patch(Patch(s, 8, Bytes16(Big, PROTOCOL_VERSION)), 4, Bytes32(Big, p.ts)), 10, Bytes16(Big, p.rc)),
                  0, [0, 0, 0, 0])
            == Image(Big, p.(version := PROTOCOL_VERSION, crc := 0))
  {
    var p := View(o, s);
    HeaderPatches(s, Bytes16(Big, PROTOCOL_VERSION), Bytes32(Big, p.ts), Bytes16(Big, p.rc), [0, 0, 0, 0]);
    FieldsOfView(o, s);
    ZeroBytes(Big);
    FieldsOfImage(Big, p.(version := PROTOCOL_VERSION, crc := 0));
  }

  lemma ClearedImage(p: Pdu)
    requires p.Shape()
    ensures Cleared(Image(Big, p)) == Image(Big, p.(crc := 0))
  {
    assert Bytes32(Big, 0) == [0, 0, 0, 0];
    FieldsOfImage(Big, p);
    FieldsOfImage(Big, p.(crc := 0));
  }

  /** `pdu_pack()`: network byte order, version and CRC, in place. */
  method PduPack(table: Table, pdu: array?<byte>, o: Order) returns (status: int)
    requires table.Blank() || table.Filled()
    requires pdu != null ==> pdu.Length == SIZE
    modifies table.entries, pdu
    ensures pdu == null ==> status == -1
    ensures pdu != null ==> status == 0 && table.Filled() && pdu[..] == Frame(View(o, old(pdu[..])))
  {
    if pdu == null { return -1; }
    ghost var p := View(o, pdu[..]);
    ghost var q := p.(version := PROTOCOL_VERSION);
    PduHeader(pdu, o);
    var crc := table.Checksum(pdu, SIZE);
    assert pdu[..SIZE] == pdu[..];
    ClearedImage(q);
    ghost var before := pdu[..];
    Store32(pdu, 0, o, Htonl(o, crc));
    NetworkBytes(o, crc, 0);
    FieldsOfImage(Big, q.(crc := 0));
    FieldsOfImage(Big, Sealed(p));
    PatchField(Bytes32(Big, 0), Bytes32(Big, q.ts), Bytes16(Big, q.version), Bytes16(Big, q.rc),
               q.host + q.service + q.output, Bytes32(Big, crc), [0, 0]);
    return 0;
  }

  /** `now` as `(uint32_t)` against `pdu->ts`, then the distance between the two. */
  method CheckAge(ts: uint32, now: nat) returns (young: bool)
    ensures young <==> Fresh(now, ts)
  {
    var age: int;
    if ts > now % 0x1_0000_0000 {
      age := ts - now;
    } else {
      age := now - ts;
    }
    young := !(age > 900);
  }

  lemma UnpackPatches(s: Memory, c: Word4, v: Word2, r: Word2, t: Word4)
    ensures Patch(s, 0, c)[8..10] == s[8..10]
    ensures Patch(Patch(s, 0, c), 8, v)[10..12] == s[10..12]
    ensures Patch(Patch(Patch(s, 0, c), 8, v), 10, r)[4..8] == s[4..8]
    ensures Patch(Patch(Patch(Patch(s, 0, c), 8, v), 10, r), 4, t) == Fields(c, t, v, r, s[12..])
  {
    FieldsOfView(Big, s);
    PatchField(s[0..4], s[4..8], s[8..10], s[10..12], s[12..], c, v);
    PatchField(c, s[4..8], s[8..10], s[10..12], s[12..], c, v);
    PatchField(c, s[4..8], v, s[10..12], s[12..], c, r);
    PatchField(c, s[4..8], v, r, s[12..], t, r);
  }

  /** The CRC check of `pdu_unpack()`: recomputed with the field cleared, then put back in host order. */
  method CheckCrc(table: Table, pdu: array<byte>, o: Order) returns (same: bool)
    requires table.Blank() || table.Filled()
    requires pdu.Length == SIZE
    modifies table.entries, pdu
    ensures table.Filled()
    ensures same <==> CrcMatches(old(pdu[..]))
    ensures pdu[..] == Patch(old(pdu[..]), 0, Bytes32(o, Value32(Big, old(pdu[0..4]))))
  {
    ghost var s: Memory := pdu[..];
    var theirCrc := Load32(pdu, 0, o);
    theirCrc := Ntohl(o, theirCrc);
    Bytes32OfValue(o, s[0..4]);
    Store32(pdu, 0, o, 0);
    Bytes32OfValue(o, [0, 0, 0, 0]);
    assert pdu[..SIZE] == pdu[..] == Cleared(s);
    var ourCrc := table.Checksum(pdu, SIZE);
    Store32(pdu, 0, o, theirCrc);
    same := ourCrc == theirCrc;
  }

  /** The version, return code and timestamp of `pdu_unpack()` brought into host order. */
  method HostOrder(pdu: array<byte>, o: Order, ghost s: Memory)
    requires pdu.Length == SIZE
    requires pdu[..] == Patch(s, 0, Bytes32(o, Value32(Big, s[0..4])))
    modifies pdu
    ensures pdu[..] == Image(o, View(Big, s))
  {
    ghost var p := View(Big, s);
    UnpackPatches(s, Bytes32(o, p.crc), Bytes16(o, p.version), Bytes16(o, p.rc), Bytes32(o, p.ts));
    FieldsOfView(Big, s);
    FieldsOfImage(o, p);
    assert pdu[8..10] == pdu[..][8..10];
    NetworkToHost16(pdu, 8, o);
    assert pdu[10..12] == pdu[..][10..12];
    NetworkToHost16(pdu, 10, o);
    assert pdu[4..8] == pdu[..][4..8];
    NetworkToHost32(pdu, 4, o);
  }

  /** `pdu_unpack()`: CRC, host byte order, version and age, in place. */
  method PduUnpack(table: Table, pdu: array?<byte>, o: Order, now: nat) returns (status: int)
    requires table.Blank() || table.Filled()
    requires pdu != null ==> pdu.Length == SIZE
    modifies table.entries, pdu
    ensures pdu == null ==> status == -1
    ensures pdu != null ==> table.Filled() && pdu[..] == Unpacked(o, old(pdu[..]))
    ensures pdu != null ==> status == if Accepted(now, old(pdu[..])) then 0 else -1
  {
    if pdu == null { return -1; }
    ghost var s: Memory := pdu[..];
    assert pdu[0..4] == s[0..4];
    var same := CheckCrc(table, pdu, o);
    if !same {
      return -1;
    }
    HostOrder(pdu, o, s);
    ViewOfImage(o, View(Big, s));
    assert pdu[8..10] == pdu[..][8..10] && pdu[4..8] == pdu[..][4..8];
    var version := Load16(pdu, 8, o);
    if version != PROTOCOL_VERSION {
      return -1;
    }
    var ts := Load32(pdu, 4, o);
    var young := CheckAge(ts, now);
    return if young then 0 else -1;
  }

  // ----- what the two do together

  /** A packed frame is accepted exactly when its timestamp is fresh, and carries back what was packed. */
  lemma PackThenUnpack(p: Pdu, now: nat)
    requires p.Shape()
    ensures View(Big, Frame(p)) == Sealed(p)
    ensures CrcMatches(Frame(p))
    ensures Accepted(now, Frame(p)) <==> Fresh(now, p.ts)
  {
    ViewOfImage(Big, Sealed(p));
    ClearedImage(Sealed(p));
    ClearedImage(p.(version := PROTOCOL_VERSION));
  }

  /** Packing what was unpacked gives the original frame, on machines of any byte order. */
  lemma UnpackThenPack(s: Memory, o: Order, now: nat)
    requires Accepted(now, s)
    ensures Frame(View(o, Unpacked(o, s))) == s
  {
    var p := View(Big, s);
    ViewOfImage(o, p);
    ImageOfView(Big, s);
    ClearedImage(p);
    assert Sealed(p) == p;
  }

  /** A frame packed for the first second of 1970 is accepted 2^32 seconds later. */
  lemma StaleFrameAccepted(p: Pdu)
    requires p.Shape() && p.ts == 1
    ensures Accepted(0x1_0000_0000, Frame(p))
  {
    PackThenUnpack(p, 0x1_0000_0000);
  }

  /** The age check measures the distance to the clock, except that a clock beyond 32 bits lets through
      timestamps above its own low 32 bits, however old. */
  lemma AgeIsDistance(p: Pdu, now: nat)
    requires p.Shape()
    ensures (Accepted(now, Frame(p)) <==> -900 <= p.ts - now <= 900)
            <==> (now >= 0x1_0000_0000 && p.ts > now % 0x1_0000_0000 ==> now - p.ts <= 900)
  {
    PackThenUnpack(p, now);
  }
}
