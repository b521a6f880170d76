/** From the records on the standard input of the client to the results submitted by the server. */
module EndToEnd {
  import opened Words
  import opened Text
  import opened CrcTable
  import opened Crc32
  import opened Frames
  import opened WireFormat
  import opened RecordFormat
  import opened ReadPackets
  import opened Reassembly
  import opened ServerState
  import opened ServerInvariant
  import opened EventLoop
  import opened Runs
  import opened Sending

  // ----- what a submitted result says

  /** A result as the strings and the number the receiver of `iris_call_submit_result()` reads. */
  function Reading(p: Pdu): Record {
    Record(CStr(p.host), CStr(p.service), p.rc, CStr(p.output))
  }

  function Cut(s: seq<byte>, n: nat): (t: seq<byte>)
    ensures t <= s && |t| <= n && (|s| <= n ==> t == s)
  {
    if |s| <= n then s else s[..n]
  }

  /** A record with its fields capped. */
  function Capped(r: Record): Record {
    Record(Cut(r.host, 63), Cut(r.service, 127), r.rc, Cut(r.output, 4095))
  }

  function Readings(ps: seq<Pdu>): (rs: seq<Record>)
    ensures |rs| == |ps| && forall i :: 0 <= i < |rs| ==> rs[i] == Reading(ps[i])
  {
    seq(|ps|, i requires 0 <= i < |ps| => Reading(ps[i]))
  }

  function AllCapped(rs: seq<Record>): (cs: seq<Record>)
    ensures |cs| == |rs| && forall i :: 0 <= i < |cs| ==> cs[i] == Capped(rs[i])
  {
    seq(|rs|, i requires 0 <= i < |rs| => Capped(rs[i]))
  }

  predicate NulFree(r: Record) { 0 !in r.host && 0 !in r.service && 0 !in r.output }

  lemma ParsedNulFree(chunk: seq<byte>, delim: set<byte>, r: Record)
    requires Parse(chunk, delim) == Some(r)
    ensures NulFree(r)
  {
    ParsedIsLaidOut(chunk, delim, r);
    var line := Strip(CStr(chunk));
    var d1, d2, d3, d4 :| LaidOut(line, delim, r, d1, d2, d3, d4);
    assert forall x :: x in line ==> x in CStr(chunk);
    assert forall x :: x in r.host ==> x in line;
    assert forall x :: x in r.service ==> x in line;
    assert forall x :: x in r.output ==> x in line;
  }

  lemma {:induction false} AllNulFree(chunks: seq<seq<byte>>, delim: set<byte>)
    ensures forall i :: 0 <= i < |ParseAll(chunks, delim)| ==> NulFree(ParseAll(chunks, delim)[i])
    decreases |chunks|
  {
    if chunks != [] {
      AllNulFree(chunks[1..], delim);
      if Parse(chunks[0], delim).Some? {
        ParsedNulFree(chunks[0], delim, Parse(chunks[0], delim).value);
      }
    }
  }

  /** Through packet, frame and back, a record keeps its fields up to their caps. */
  lemma RecordSurvives(r: Record, now: nat)
    requires NulFree(r)
    ensures Reading(View(Big, StampedFrame(ToPdu(r), now))) == Capped(r)
  {
    var p := ToPdu(r).(ts := now % 0x1_0000_0000);
    PackThenUnpack(p, now);
    PaddedReads(r.host, HOST_LEN);
    PaddedReads(r.service, SERVICE_LEN);
    PaddedReads(r.output, OUTPUT_LEN);
  }

  /** What the client sends for a packet: the clock cut to 32 bits, version 1 and the contents, most significant byte
      first, under the CRC-32 of the frame with zeros in its place. */
  lemma StampedBytes(p: Pdu, now: nat, f: Memory)
    requires p.Shape() && f == StampedFrame(p, now)
    ensures Number4(f[0], f[1], f[2], f[3]) == Crc([0, 0, 0, 0] + f[4..])
    ensures Number4(f[4], f[5], f[6], f[7]) == now % 0x1_0000_0000
    ensures f[8] == 0 && f[9] == 1 && Number2(f[10], f[11]) == p.rc
    ensures f[12..76] == p.host && f[76..204] == p.service && f[204..4300] == p.output
  {
    FrameBytes(p.(ts := now % 0x1_0000_0000), f);
  }

  /** A record whose fields need not be cut. */
  predicate Short(r: Record) { |r.host| <= 63 && |r.service| <= 127 && |r.output| <= 4095 }

  lemma ShortSurvives(r: Record)
    requires NulFree(r) && Short(r)
    ensures Reading(ToPdu(r)) == r
  {
    PaddedReads(r.host, HOST_LEN);
    PaddedReads(r.service, SERVICE_LEN);
    PaddedReads(r.output, OUTPUT_LEN);
  }

  /** Printed records with fields within their caps can always be read into the line buffer, and the packets read
      from the print say the same as the records. */
  lemma PrintThenReadPackets(rs: seq<Record>)
    requires AllPrintable(rs) && forall i :: 0 <= i < |rs| ==> Short(rs[i])
    ensures LinesFit(PrintAll(rs))
    ensures Readings(ToPdus(Records(PrintAll(rs), {TAB}))) == rs
    ensures AllKept(rs) ==> LinesFit(PrintTight(rs)) && Readings(ToPdus(Records(PrintTight(rs), {TAB}))) == rs
  {
    forall i | 0 <= i < |rs| ensures |Line(rs[i])| < MAX_LINE && NulFree(rs[i]) {}
    PrintFits(rs);
    PrintThenRead(rs);
    AllSurvive(rs);
    if AllKept(rs) {
      PrintTightFits(rs);
      PrintTightThenRead(rs);
    }
  }

  lemma AllSurvive(rs: seq<Record>)
    requires forall i :: 0 <= i < |rs| ==> NulFree(rs[i]) && Short(rs[i])
    ensures Readings(ToPdus(rs)) == rs
  {
    forall i | 0 <= i < |rs| ensures Readings(ToPdus(rs))[i] == rs[i] {
      ShortSurvives(rs[i]);
    }
  }

  /** `read_packets()` on the print of some records: their packets, each saying what its record says. */
  method ReadPrinted(rs: seq<Record>, newlines: bool) returns (overran: bool, n: nat, list: seq<Pdu>)
    requires AllPrintable(rs) && (newlines || AllKept(rs)) && forall i :: 0 <= i < |rs| ==> Short(rs[i])
    ensures !overran && n == |rs| && n <= |list| && Readings(list[..n]) == rs
  {
    PrintThenReadPackets(rs);
    PrintThenRead(rs);
    if !newlines { PrintTightThenRead(rs); }
    var io := new Stream(if newlines then PrintAll(rs) else PrintTight(rs));
    assert io.data[0..] == io.data;
    overran, n, list := ReadPackets.ReadPackets(io, {TAB});
    assert rs[..n] == rs;
  }

  // ----- frames on the wire and off it

  lemma {:induction false} FrameInConcat(frames: seq<Memory>, i: nat)
    requires i < |frames|
    ensures Concat(frames)[SIZE * i..SIZE * i + SIZE] == frames[i]
    decreases i
  {
    if i > 0 {
      FrameInConcat(frames[1..], i - 1);
      assert Concat(frames)[SIZE..] == Concat(frames[1..]);
      assert Concat(frames)[SIZE * i..SIZE * i + SIZE]
          == Concat(frames)[SIZE..][SIZE * (i - 1)..SIZE * (i - 1) + SIZE];
    }
  }

  lemma FrameInStream(frames: seq<Memory>, s: seq<byte>, i: nat)
    requires i < |frames| && s <= Concat(frames) && SIZE * i + SIZE <= |s|
    ensures s[SIZE * i..SIZE * i + SIZE] == frames[i]
  {
    FrameInConcat(frames, i);
    SliceOfPrefix(s, Concat(frames), SIZE * i, SIZE * i + SIZE);
  }

  lemma SliceOfPrefix(s: seq<byte>, whole: seq<byte>, a: nat, b: nat)
    requires s <= whole && a <= b <= |s|
    ensures s[a..b] == whole[a..b]
  {
  }

  /** Sender and receiver agree on the time, to 900 seconds, for the frames judged so far. */
  predicate ClocksAgree(sent: seq<nat>, judged: seq<nat>) {
    forall i :: 0 <= i < |judged| && i < |sent| ==>
      sent[i] < 0x1_0000_0000 && judged[i] <= sent[i] + 900 && sent[i] <= judged[i] + 900
  }

  lemma JudgedFresh(p: Pdu, judged: nat)
    requires p.Shape() && Fresh(judged, p.ts)
    ensures Judge(judged, Frame(p)) == [View(Big, Frame(p))]
  {
    PackThenUnpack(p, judged);
  }

  /** One frame of the client, judged in time, is submitted with the fields of its record. */
  lemma OneSubmitted(r: Record, sent: nat, judged: nat)
    requires NulFree(r) && sent < 0x1_0000_0000 && judged <= sent + 900 && sent <= judged + 900
    ensures Readings(Judge(judged, StampedFrame(ToPdu(r), sent))) == [Capped(r)]
  {
    JudgedFresh(ToPdu(r).(ts := sent % 0x1_0000_0000), judged);
    RecordSurvives(r, sent);
  }

  lemma ReadingsAppend(a: seq<Pdu>, b: seq<Pdu>)
    ensures Readings(a + b) == Readings(a) + Readings(b)
  {
  }

  /** The reading of what a frame gives, as an expectation on each frame of a stream. */
  ghost predicate GivesReading(now: nat, f: Memory, c: Record) {
    Readings(Judge(now, f)) == [c]
  }

  lemma ReadingStep(d: seq<Pdu>, j: seq<Pdu>, cs: seq<Record>, n: nat)
    requires n < |cs| && Readings(d) == cs[..n] && Readings(j) == [cs[n]]
    ensures Readings(d + j) == cs[..n + 1]
  {
    ReadingsAppend(d, j);
    assert cs[..n + 1] == cs[..n] + [cs[n]];
  }

  lemma SubmittedStep(cs: seq<Record>, s: seq<byte>, judged: seq<nat>, f: Memory, n: nat)
    requires |judged| == n + 1 <= |cs| && SIZE * |judged| <= |s| && f == s[SIZE * n..SIZE * n + SIZE]
    requires Readings(Decode(s, judged[..n])) == cs[..n] && GivesReading(judged[n], f, cs[n])
    ensures Readings(Decode(s, judged)) == cs[..|judged|]
  {
    assert |judged| - 1 == n;
    DecodeLast(s, judged, f);
    ReadingStep(Decode(s, judged[..n]), Judge(judged[n], f), cs, n);
  }

  /** A stream of frames each of which gives the reading of its record gives all of them, in order. */
  lemma {:induction false} FramesAreSubmitted(cs: seq<Record>, frames: seq<Memory>, s: seq<byte>, judged: seq<nat>)
    requires |cs| == |frames| && |judged| <= |cs| && SIZE * |judged| <= |s| && s <= Concat(frames)
    requires forall i :: 0 <= i < |judged| ==> GivesReading(judged[i], frames[i], cs[i])
    ensures Readings(Decode(s, judged)) == cs[..|judged|]
    decreases |judged|
  {
    if judged != [] {
      var n := |judged| - 1;
      FramesAreSubmitted(cs, frames, s, judged[..n]);
      FrameInStream(frames, s, n);
      assert GivesReading(judged[n], frames[n], cs[n]);
      SubmittedStep(cs, s, judged, frames[n], n);
    }
  }

  /** Whole frames of the client, judged in time, are submitted one and all, in order. */
  lemma SentIsSubmitted(rs: seq<Record>, sent: seq<nat>, s: seq<byte>, judged: seq<nat>)
    requires |rs| == |sent| && (forall i :: 0 <= i < |rs| ==> NulFree(rs[i]))
    requires |judged| <= |rs| && SIZE * |judged| <= |s| && s <= Concat(Stamped(ToPdus(rs), sent))
    requires ClocksAgree(sent, judged)
    ensures Readings(Decode(s, judged)) == AllCapped(rs)[..|judged|]
  {
    var frames := Stamped(ToPdus(rs), sent);
    forall i | 0 <= i < |judged| ensures GivesReading(judged[i], frames[i], AllCapped(rs)[i]) {
      OneSubmitted(rs[i], sent[i], judged[i]);
    }
    FramesAreSubmitted(AllCapped(rs), frames, s, judged);
  }

  // ----- the client

  /** The bytes the client puts on the wire for an input, sending at the given times through the given writes. */
  function ClientWire(input: seq<byte>, sent: seq<nat>, script: seq<WriteOutcome>): seq<byte>
    requires |sent| == |Records(input, {TAB})|
  {
    Wire(Stamped(ToPdus(Records(input, {TAB})), sent), Lengths(|sent|, script))
  }

  /** A packet laid out in fresh memory. */
  method Allocate(ghost expected: Memory, o: Order, p: Pdu) returns (packet: array<byte>)
    requires p.Shape() && expected == Image(o, p)
    ensures fresh(packet) && packet.Length == SIZE && packet[..] == expected
  {
    var image := Image(o, p);
    packet := new byte[SIZE](i requires 0 <= i < SIZE => image[i]);
  }

  lemma ApartSnoc(packets: seq<array<byte>>, packet: array<byte>)
    requires Apart(packets) && packet !in packets && packet.Length == SIZE
    ensures Apart(packets + [packet])
  {
  }

  /** The memory `read_packets()` leaves behind. */
  method AllocateAll(list: seq<Pdu>, o: Order) returns (packets: seq<array<byte>>)
    requires forall i :: 0 <= i < |list| ==> list[i].Shape()
    ensures |packets| == |list| && Apart(packets) && Views(o, packets) == list
    ensures forall k :: 0 <= k < |packets| ==> fresh(packets[k])
  {
    packets := [];
    ghost var images := Images(o, list);
    for i := 0 to |list|
      invariant |packets| == i && Apart(packets) && (forall k :: 0 <= k < i ==> fresh(packets[k]))
      invariant forall k :: 0 <= k < i ==> packets[k][..] == images[k]
    {
      var packet := Allocate(images[i], o, list[i]);
      ApartSnoc(packets, packet);
      packets := packets + [packet];
    }
    HoldsViews(packets, o, list);
  }

  function Images(o: Order, list: seq<Pdu>): (ms: seq<Memory>)
    requires forall i :: 0 <= i < |list| ==> list[i].Shape()
    ensures |ms| == |list| && forall i :: 0 <= i < |list| ==> ms[i] == Image(o, list[i])
  {
    seq(|list|, i requires 0 <= i < |list| => Image(o, list[i]))
  }

  lemma HoldsViews(packets: seq<array<byte>>, o: Order, list: seq<Pdu>)
    requires |packets| == |list| && Apart(packets) && forall i :: 0 <= i < |list| ==> list[i].Shape()
    requires forall k :: 0 <= k < |list| ==> packets[k][..] == Image(o, list[k])
    ensures Views(o, packets) == list
  {
    forall k | 0 <= k < |list| ensures Views(o, packets)[k] == list[k] {
      ViewOfImage(o, list[k]);
    }
  }

  /** `main` of send_iris.c: read the records, stamp, pack and write every packet. */
  method SendIris(io: Stream, sock: Socket, table: Table, o: Order, clock: nat -> nat)
    returns (overran: bool, nsent: nat, status: int)
    requires io.Valid() && !io.eof && io.pos == 0 && (table.Blank() || table.Filled())
    modifies io, sock, table.entries
    ensures overran <==> !LinesFit(io.data)
    ensures !overran ==>
            var n := |Records(io.data, {TAB})|;
            && nsent == CountSent(n, old(sock.script)) && status == (if nsent == n then 0 else 3)
            && sock.wire == old(sock.wire) + ClientWire(io.data, seq(n, i requires 0 <= i < n => clock(i)), old(sock.script))
  {
    assert io.data[0..] == io.data;
    var n, list;
    overran, n, list := ReadPackets.ReadPackets(io, {TAB});
    nsent, status := 0, 3;
    if overran { return; }
    ghost var rs := Records(io.data, {TAB});
    assert rs[..n] == rs;
    nsent, status := SendList(sock, table, list[..n], o, seq(n, i requires 0 <= i < n => clock(i)));
  }

  /** The packets laid out in memory and sent. */
  method SendList(sock: Socket, table: Table, list: seq<Pdu>, o: Order, clock: seq<nat>) returns (nsent: nat, status: int)
    requires table.Blank() || table.Filled()
    requires |clock| == |list| && forall i :: 0 <= i < |list| ==> list[i].Shape()
    modifies sock, table.entries
    ensures nsent == CountSent(|list|, old(sock.script)) && status == if nsent == |list| then 0 else 3
    ensures sock.wire == old(sock.wire) + Wire(Stamped(list, clock), Lengths(|list|, old(sock.script)))
  {
    var packets := AllocateAll(list, o);
    nsent, status := SendAll(sock, table, packets, o, clock);
  }

  // ----- all of it

  /** Every record of the client that reached the server whole is submitted, in order, with its fields
      up to their caps, and nothing else is: whatever the write sizes, the read sizes, a write error or a
      cut connection did to the stream, and whatever else the server did in between. */
  lemma RecordsArrive(input: seq<byte>, sent: seq<nat>, script: seq<WriteOutcome>,
                      ws: seq<World>, steps: seq<Step>, n: nat, sid: nat, taken: seq<byte>, judged: seq<nat>)
    requires |sent| == |Records(input, {TAB})| && !LeavesGap(|sent|, script)
    requires IsRun(ws, steps) && n < |ws| && Consumed(ws[n].s, sid, taken, judged)
    requires taken <= ClientWire(input, sent, script)
    requires ClocksAgree(sent, judged)
    ensures |judged| == |taken| / SIZE <= |sent|
    ensures Readings(Only(ws[n].s.log, sid)) == AllCapped(Records(input, {TAB}))[..|judged|]
    ensures |taken| == SIZE * |sent| ==> Readings(Only(ws[n].s.log, sid)) == AllCapped(Records(input, {TAB}))
  {
    var rs := Records(input, {TAB});
    var frames := Stamped(ToPdus(rs), sent);
    Isolation(ws, steps, n, sid, taken, judged);
    NoGapOnScript(|rs|, script);
    NoGapIsPrefix(frames, Lengths(|rs|, script));
    assert |judged| <= |rs|;
    AllNulFree(Chunks(input), {TAB});
    SentIsSubmitted(rs, sent, taken, judged);
    if |taken| == SIZE * |sent| {
      assert |judged| == |rs|;
      assert AllCapped(rs)[..|rs|] == AllCapped(rs);
    }
  }

  /** A client that succeeds, its writes never taking nothing, has put all its frames on the wire. */
  predicate AllSent(script: seq<WriteOutcome>, n: nat) {
    TakesNone !in script && CountSent(n, script) == n
  }

  lemma NoFailureSendsAll(script: seq<WriteOutcome>, n: nat)
    requires TakesNone !in script && Fails !in script
    ensures AllSent(script, n)
  {
    AllCounted(n, script);
  }

  /** A connection that was read to the last byte of the client's has given all its records. */
  lemma WholeStreamArrives(input: seq<byte>, sent: seq<nat>, script: seq<WriteOutcome>,
                           ws: seq<World>, steps: seq<Step>, n: nat, sid: nat, judged: seq<nat>)
    requires |sent| == |Records(input, {TAB})| && AllSent(script, |sent|)
    requires IsRun(ws, steps) && n < |ws| && Consumed(ws[n].s, sid, ClientWire(input, sent, script), judged)
    requires ClocksAgree(sent, judged)
    ensures Readings(Only(ws[n].s.log, sid)) == AllCapped(Records(input, {TAB}))
  {
    AllOnWire(Stamped(ToPdus(Records(input, {TAB})), sent), script);
    OrdinaryWrites(|sent|, script);
    RecordsArrive(input, sent, script, ws, steps, n, sid, ClientWire(input, sent, script), judged);
  }

  /** Delivery, to a client that is still connected: once all bytes of the client have reached the connection, read
      or not, a server with nothing left to do has submitted all records. That it read them is not assumed. */
  lemma DeliveredIsSubmitted(input: seq<byte>, sent: seq<nat>, script: seq<WriteOutcome>,
                             ws: seq<World>, steps: seq<Step>, n: nat, i: nat)
    requires |sent| == |Records(input, {TAB})| && AllSent(script, |sent|)
    requires IsRun(ws, steps) && n < |ws| && Quiet(ws[n])
    requires i < |ws[n].s.slots| && ws[n].s.slots[i].fd in ws[n].s.conns
    requires var c := ws[n].s.conns[ws[n].s.slots[i].fd]; c.taken + c.queue == ClientWire(input, sent, script)
    requires ClocksAgree(sent, ws[n].s.slots[i].times)
    ensures Readings(Only(ws[n].s.log, ws[n].s.conns[ws[n].s.slots[i].fd].sid)) == AllCapped(Records(input, {TAB}))
  {
    var s := ws[n].s;
    var c := s.conns[s.slots[i].fd];
    RunKeepsInv(ws, steps, n);
    assert ConnOk(s, s.slots[i].fd);
    NothingLost(ws, steps, n, i);
    assert c.taken + [] == c.taken;
    assert Consumed(s, c.sid, c.taken, s.slots[i].times);
    WholeStreamArrives(input, sent, script, ws, steps, n, c.sid, s.slots[i].times);
  }

  /** Delivery, over a connection the client has ended: in every reachable state, whatever has happened since. */
  lemma FinishedIsSubmitted(input: seq<byte>, sent: seq<nat>, script: seq<WriteOutcome>,
                            ws: seq<World>, steps: seq<Step>, n: nat, sid: nat)
    requires |sent| == |Records(input, {TAB})| && AllSent(script, |sent|)
    requires IsRun(ws, steps) && n < |ws| && sid in ws[n].s.past && ws[n].s.past[sid].end == ByPeer
    requires ws[n].s.past[sid].taken + ws[n].s.past[sid].unread == ClientWire(input, sent, script)
    requires ClocksAgree(sent, ws[n].s.past[sid].times)
    ensures Readings(Only(ws[n].s.log, sid)) == AllCapped(Records(input, {TAB}))
  {
    var p := ws[n].s.past[sid];
    FinishedIsReadOut(ws, steps, n, sid);
    assert p.taken + [] == p.taken;
    assert Consumed(ws[n].s, sid, p.taken, p.times);
    WholeStreamArrives(input, sent, script, ws, steps, n, sid, p.times);
  }
}
