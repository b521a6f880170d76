/** `read_packets()` of iris.c over a stdio stream, against the record format of `RecordFormat`. */
module ReadPackets {
  import opened Words
  import opened Text
  import opened Frames
  import opened RecordFormat

  /** A `FILE *` open for reading, with its sticky end-of-file flag. */
  class Stream {
    const data: seq<byte>
    var pos: nat
    var eof: bool

    ghost predicate Valid()
      reads this
    {
      pos <= |data| && (eof ==> pos == |data|)
    }

    constructor (data: seq<byte>)
      ensures Valid() && this.data == data && pos == 0 && !eof
    {
      this.data, pos, eof := data, 0, false;
    }

    /** `getc()`: the next byte, or -1 and the flag. */
    method Getc() returns (c: int)
      requires Valid()
      modifies this
      ensures Valid()
      ensures old(pos) < |data| ==> c == data[old(pos)] && pos == old(pos) + 1 && eof == old(eof)
      ensures old(pos) == |data| ==> c == -1 && pos == old(pos) && eof
    {
      if pos < |data| {
        c := data[pos];
        pos := pos + 1;
      } else {
        c := -1;
        eof := true;
      }
    }

    /** `ungetc()` of the byte just read. */
    method Ungetc(c: byte)
      requires Valid() && pos > 0 && data[pos - 1] == c
      modifies this
      ensures Valid() && pos == old(pos) - 1 && !eof
    {
      pos := pos - 1;
      eof := false;
    }
  }

  /** An `int` from `getc()` in a signed `char`. */
  function AsChar(c: int): int { if c >= 0x80 then c - 0x100 else c }

  /** The loop that fills the line buffer: up to a terminator, the end of the input or the end of the buffer.
      The index it ends with, where the terminator goes, is inside the buffer only in the first two cases. */
  method FillLine(io: Stream, buf: array<byte>) returns (i: nat)
    requires io.Valid() && !io.eof && buf.Length == MAX_LINE
    modifies io, buf
    ensures io.Valid()
    ensures i < buf.Length <==> Span(old(io.data[io.pos..]), {ETB}) < MAX_LINE
    ensures var s := old(io.data[io.pos..]);
            && i == (if Span(s, {ETB}) < MAX_LINE then Span(s, {ETB}) else MAX_LINE) && buf[..i] == s[..i]
            && (i == |s| <==> io.eof)
            && (i < |s| ==> io.data[io.pos..] == s[i + 1..])
  {
    ghost var start := io.pos;
    ghost var s := io.data[start..];
    i := 0;
    var c := io.Getc();
    while !io.eof && AsChar(c) != 0x17 && i < MAX_LINE
      invariant io.Valid() && i <= Span(s, {ETB}) && i <= MAX_LINE
      invariant i < |s| ==> !io.eof && io.pos == start + i + 1 && c == s[i]
      invariant i == |s| ==> io.eof
      invariant buf[..i] == s[..i]
      decreases |s| - i
    {
      buf[i] := c;
      i := i + 1;
      c := io.Getc();
    }
  }

  /** The character behind a terminator is put back unless it is a newline. */
  method PassNewline(io: Stream)
    requires io.Valid()
    modifies io
    ensures io.Valid()
    ensures old(io.eof) ==> io.eof
    ensures !old(io.eof) ==>
      var t := old(io.data[io.pos..]);
      io.data[io.pos..] == AfterTerminator(t) && (io.eof <==> t == [])
  {
    var c := io.Getc();
    if AsChar(c) > 0 && AsChar(c) != NEWLINE {
      io.Ungetc(c);
    }
  }

  /** Reads a chunk, and looks at the character behind it. A chunk longer than the buffer is cut in two: the
      character the buffer has no room for is lost, and what follows it is still in the input. */
  method ReadChunk(io: Stream, buf: array<byte>) returns (i: nat)
    requires io.Valid() && !io.eof && buf.Length == MAX_LINE
    modifies io, buf
    ensures io.Valid()
    ensures i < buf.Length <==> Span(old(io.data[io.pos..]), {ETB}) < MAX_LINE
    ensures var s := old(io.data[io.pos..]);
            && i == (if Span(s, {ETB}) < MAX_LINE then Span(s, {ETB}) else MAX_LINE) && buf[..i] == s[..i]
            && (i == |s| ==> io.eof)
            && (i < |s| ==> io.data[io.pos..] == AfterTerminator(s[i + 1..]) && (io.eof <==> s[i + 1..] == []))
  {
    i := FillLine(io, buf);
    PassNewline(io);
  }

  /** The first loop of `strtok()`, `strspn()`. */
  method SkipDelimiters(buf: array<byte>, from: nat, delim: set<byte>, ghost s: seq<byte>)
    returns (i: nat, ghost u: seq<byte>)
    requires StringAt(buf[..], from, s) && 0 !in delim
    ensures i + |u| == from + |s|
    ensures StringAt(buf[..], i, u) && Token(u, delim) == Token(s, delim) && (u != [] ==> u[0] !in delim)
  {
    i, u := from, s;
    StringHead(buf[..], i, u);
    while buf[i] != 0 && buf[i] in delim
      invariant StringAt(buf[..], i, u) && i + |u| == from + |s| && Token(u, delim) == Token(s, delim)
      invariant buf[i] == if u == [] then 0 else u[0]
      decreases |u|
    {
      StringDrop(buf[..], i, u, 1);
      u := u[1..];
      i := i + 1;
      StringHead(buf[..], i, u);
    }
  }

  lemma TokenStart(u: seq<byte>, delim: set<byte>, n: nat)
    requires u != [] && u[0] !in delim && n == Span(u, delim)
    ensures Token(u, delim) == Some((u[..n], Behind(u, n)))
  {
  }

  /** What is left behind the token at the start of a string. */
  function Behind(u: seq<byte>, n: nat): seq<byte>
    requires n <= |u|
  {
    if n == |u| then [] else u[n + 1..]
  }

  /** The second half of `strtok()`: a token ended in place, and where to go on. */
  method EndToken(buf: array<byte>, i: nat, delim: set<byte>, ghost u: seq<byte>, ghost n: nat) returns (save: nat)
    requires StringAt(buf[..], i, u) && n == Span(u, delim)
    modifies buf
    ensures StringAt(buf[..], i, u[..n]) && StringAt(buf[..], save, Behind(u, n))
  {
    var j, inside := FindInside(buf, i, delim, u);
    if !inside {
      WholeToken(buf[..], i, u);
      save := j;
    } else {
      CutString(buf, i, j, u);
      save := j + 1;
    }
  }

  lemma WholeToken(buf: seq<byte>, i: nat, u: seq<byte>)
    requires StringAt(buf, i, u)
    ensures StringAt(buf, i, u[..|u|]) && StringAt(buf, i + |u|, [])
  {
    assert u[..|u|] == u;
  }

  /** `strtok()`: skips delimiters, ends the token in place, and remembers where to go on. */
  method Strtok(buf: array<byte>, from: nat, delim: set<byte>, ghost s: seq<byte>)
    returns (tok: Option<nat>, save: nat)
    requires StringAt(buf[..], from, s) && 0 !in delim
    modifies buf
    ensures match Token(s, delim)
            case None => tok == None
            case Some((t, rest)) => tok.Some? && StringAt(buf[..], tok.value, t) && StringAt(buf[..], save, rest)
  {
    var i, u := SkipDelimiters(buf, from, delim, s);
    StringHead(buf[..], i, u);
    if buf[i] == 0 {
      return None, i;
    }
    TokenStart(u, delim, Span(u, delim));
    save := EndToken(buf, i, delim, u, Span(u, delim));
    tok := Some(i);
  }

  /** `strncpy()` of a string into a zeroed field, always leaving a terminator. */
  method CopyField(buf: array<byte>, from: nat, n: nat, ghost s: seq<byte>) returns (field: seq<byte>)
    requires n > 0 && StringAt(buf[..], from, s)
    ensures field == Padded(s, n)
  {
    field := Zeroes(n);
    var k := 0;
    while k < n - 1 && buf[from + k] != 0
      invariant k <= |s| && k <= n - 1 && |field| == n
      invariant field == s[..k] + Zeroes(n - k)
    {
      assert buf[from + k] == buf[from..from + |s|][k];
      field := field[k := buf[from + k]];
      k := k + 1;
    }
  }

  lemma TokenOfRest(s: seq<byte>)
    ensures Token(s, {}) == if s == [] then None else Some((s, []))
  {
    if s != [] {
      SpanIs(s, {}, |s|);
      assert s[..|s|] == s;
    }
  }

  /** One `strtok()` and `strncpy()`: the next token, in a field of `n` bytes. */
  method NextField(buf: array<byte>, from: nat, delim: set<byte>, n: nat, ghost s: seq<byte>)
    returns (field: Option<seq<byte>>, save: nat)
    requires StringAt(buf[..], from, s) && 0 !in delim && n > 0
    modifies buf
    ensures match Token(s, delim)
            case None => field == None
            case Some((t, rest)) => field == Some(Padded(t, n)) && StringAt(buf[..], save, rest)
  {
    var str;
    str, save := Strtok(buf, from, delim, s);
    if str == None { return None, save; }
    var f := CopyField(buf, str.value, n, Token(s, delim).value.0);
    field := Some(f);
  }

  /** The third token: a single digit from 0 to 3. */
  method NextDigit(buf: array<byte>, from: nat, delim: set<byte>, ghost s: seq<byte>)
    returns (rc: Option<uint16>, save: nat)
    requires StringAt(buf[..], from, s) && 0 !in delim
    modifies buf
    ensures match Token(s, delim)
            case None => rc == None
            case Some((t, rest)) =>
              if |t| == 1 && '0' as int <= t[0] <= '3' as int then
                rc == Some(t[0] - '0' as int) && StringAt(buf[..], save, rest)
              else rc == None
  {
    var str;
    str, save := Strtok(buf, from, delim, s);
    if str == None { return None, save; }
    FirstTwo(buf[..], str.value, Token(s, delim).value.0);
    if buf[str.value] == 0 || buf[str.value + 1] != 0 { return None, save; }
    if buf[str.value] < '0' as int || buf[str.value] > '3' as int { return None, save; }
    rc := Some(buf[str.value] - '0' as int);
  }

  /** The last two fields of a line. */
  function Status(s: seq<byte>, delim: set<byte>): Option<(uint16, seq<byte>)> {
    match Token(s, delim)
    case None => None
    case Some((rc, output)) =>
      if |rc| == 1 && '0' as int <= rc[0] <= '3' as int && output != [] then Some((rc[0] - '0' as int, output)) else None
  }

  lemma ParseLineStatus(line: seq<byte>, delim: set<byte>)
    ensures ParseLine(line, delim) == match Token(line, delim)
              case None => None
              case Some((host, r1)) => match Token(r1, delim)
                case None => None
                case Some((service, r2)) => match Status(r2, delim)
                  case None => None
                  case Some((rc, output)) => Some(Record(host, service, rc, output))
  {
  }

  method ReadStatus(buf: array<byte>, from: nat, delim: set<byte>, pdu: Pdu, ghost s: seq<byte>)
    returns (ok: bool, filled: Pdu)
    requires StringAt(buf[..], from, s) && 0 !in delim
    modifies buf
    ensures match Status(s, delim)
            case None => !ok
            case Some((rc, output)) => ok && filled == pdu.(rc := rc, output := Padded(output, OUTPUT_LEN))
  {
    ok, filled := false, pdu;
    var rc, save := NextDigit(buf, from, delim, s);
    if rc == None { return; }
    filled := filled.(rc := rc.value);
    ghost var output := Token(s, delim).value.1;
    TokenOfRest(output);
    var field, _ := NextField(buf, save, {}, OUTPUT_LEN, output);
    if field == None { return; }
    filled := filled.(output := field.value);
    ok := true;
  }

  /** The packet read from one stripped line; a rejected line leaves a partly filled one. */
  method ReadPacket(buf: array<byte>, delim: set<byte>, ghost line: seq<byte>) returns (ok: bool, pdu: Pdu)
    requires StringAt(buf[..], 0, line) && 0 !in delim
    modifies buf
    ensures ok <==> ParseLine(line, delim).Some?
    ensures ok ==> pdu == ToPdu(ParseLine(line, delim).value)
  {
    ParseLineStatus(line, delim);
    ok, pdu := false, Pdu(0, 0, 0, 0, Zeroes(HOST_LEN), Zeroes(SERVICE_LEN), Zeroes(OUTPUT_LEN));
    var host, save := NextField(buf, 0, delim, HOST_LEN, line);
    if host == None { return; }
    pdu := pdu.(host := host.value);
    ghost var r1 := Token(line, delim).value.1;

    var service;
    service, save := NextField(buf, save, delim, SERVICE_LEN, r1);
    if service == None { return; }
    pdu := pdu.(service := service.value);
    ok, pdu := ReadStatus(buf, save, delim, pdu, Token(r1, delim).value.1);
  }

  /** The first two characters of a token tell whether it has exactly one. */
  lemma FirstTwo(buf: seq<byte>, from: nat, s: seq<byte>)
    requires StringAt(buf, from, s) && s != []
    ensures from + 1 < |buf| && buf[from] == s[0] && buf[from] != 0
    ensures buf[from + 1] == 0 <==> |s| == 1
  {
    assert buf[from] == buf[from..from + |s|][0];
    if |s| > 1 {
      assert buf[from + 1] == buf[from..from + |s|][1];
    }
  }

  function RecordOf(chunk: seq<byte>, delim: set<byte>): seq<Record> {
    match Parse(chunk, delim) case None => [] case Some(r) => [r]
  }

  /** What is left to read behind the first chunk. */
  function Rest(s: seq<byte>): Option<seq<byte>> {
    var i := Span(s, {ETB});
    if i == |s| then None else Some(AfterTerminator(s[i + 1..]))
  }

  /** The lines fit exactly when the first one does and those behind it do. */
  lemma FirstChunkFits(s: seq<byte>)
    ensures LinesFit(s) <==> Span(s, {ETB}) < MAX_LINE && (Rest(s).Some? ==> LinesFit(Rest(s).value))
  {
    var i := Span(s, {ETB});
    var none: seq<seq<byte>> := [];
    if i < |s| {
      AllShortCons(s[..i], Chunks(Rest(s).value));
    } else {
      assert [s] + none == [s] == Chunks(s);
      AllShortCons(s, none);
    }
  }

  /** The records of an input are those of its first chunk and of the rest. */
  lemma FirstChunkRecords(s: seq<byte>, delim: set<byte>)
    ensures Records(s, delim) == RecordOf(s[..Span(s, {ETB})], delim)
                               + (if Rest(s) == None then [] else Records(Rest(s).value, delim))
  {
    var i := Span(s, {ETB});
    if i == |s| {
      assert s[..i] == s && Chunks(s) == [s] && [s][1..] == [];
      assert ParseAll([s], delim) == RecordOf(s, delim);
    } else {
      assert Chunks(s)[0] == s[..i] && Chunks(s)[1..] == Chunks(Rest(s).value);
    }
  }

  /** The line buffer after reading and stripping a chunk; a terminator that does not fit is an overrun. */
  method ReadLine(io: Stream, buf: array<byte>) returns (fits: bool, ghost line: seq<byte>)
    requires io.Valid() && !io.eof && buf.Length == MAX_LINE
    modifies io, buf
    ensures io.Valid()
    ensures fits <==> Span(old(io.data[io.pos..]), {ETB}) < MAX_LINE
    ensures fits ==> StringAt(buf[..], 0, line)
    ensures fits ==>
      var s := old(io.data[io.pos..]);
      && line == Strip(CStr(s[..Span(s, {ETB})]))
      && (io.eof ==> Rest(s) == None || Rest(s) == Some([]))
      && (!io.eof ==> Rest(s) == Some(io.data[io.pos..]) && io.pos > old(io.pos))
  {
    ghost var s := io.data[io.pos..];
    var i := ReadChunk(io, buf);
    fits := i < buf.Length;
    line := [];
    if !fits { return; }
    buf[i] := 0;
    ghost var chunk := s[..i];
    TerminatedChunk(buf[..], chunk);
    StripInPlace(buf);
    line := CStr(buf[..]);
    assert buf[..] == buf[..][0..];
    StringAtOf(buf[..], 0);
  }

  lemma TerminatedChunk(buf: seq<byte>, chunk: seq<byte>)
    requires |chunk| < |buf| && buf[..|chunk|] == chunk && buf[|chunk|] == 0
    ensures 0 in buf && CStr(buf) == CStr(chunk)
  {
    var n := Span(chunk, {0});
    assert buf[n] == if n < |chunk| then chunk[n] else 0;
    assert forall k :: 0 <= k < n ==> buf[k] == chunk[k];
    SpanIs(buf, {0}, n);
  }

  lemma ToPdusSnoc(rs: seq<Record>, r: Record)
    ensures ToPdus(rs + [r]) == ToPdus(rs) + [ToPdu(r)]
  {
  }

  /** What becomes of one chunk: a write behind the buffer, nothing, a slot left half-filled, or a packet. */
  datatype Outcome = Overrun | Blank | Rejected(slot: Pdu) | Accepted(slot: Pdu)

  /** One turn of the loop of `read_packets()`. */
  method ReadRecord(io: Stream, buf: array<byte>, delim: set<byte>) returns (out: Outcome, ghost read: seq<Record>)
    requires io.Valid() && !io.eof && buf.Length == MAX_LINE && 0 !in delim
    modifies io, buf
    ensures io.Valid() && (!out.Overrun? && !io.eof ==> io.pos > old(io.pos))
    ensures LinesFit(old(io.data[io.pos..])) <==> !out.Overrun? && Fits(io)
    ensures !out.Overrun? ==> Records(old(io.data[io.pos..]), delim) == read + Left(io, delim)
    ensures if out.Accepted? then |read| == 1 && out.slot == ToPdu(read[0]) else read == []
  {
    ghost var s := io.data[io.pos..];
    FirstChunkFits(s);
    FirstChunkRecords(s, delim);
    NoRecords(delim);
    NothingFits();
    var fits, line := ReadLine(io, buf);
    if !fits {
      return Overrun, [];
    }
    read := RecordOf(s[..Span(s, {ETB})], delim);
    StringHead(buf[..], 0, line);
    if buf[0] == 0 {
      return Blank, read;
    }
    var ok, pdu := ReadPacket(buf, delim, line);
    out := if ok then Accepted(pdu) else Rejected(pdu);
  }

  /** What is not read yet fits the line buffer. */
  ghost predicate Fits(io: Stream)
    requires io.Valid()
    reads io
  {
    io.eof || LinesFit(io.data[io.pos..])
  }

  /** The array grown for one more packet, and its slot filled; only a good one is counted. */
  method StorePacket(n: nat, list: seq<Pdu>, out: Outcome, ghost done: seq<Record>, ghost read: seq<Record>)
    returns (n': nat, grown: seq<Pdu>)
    requires n == |done| <= |list| <= n + 1 && list[..n] == ToPdus(done) && !out.Overrun?
    requires if out.Accepted? then |read| == 1 && out.slot == ToPdu(read[0]) else read == []
    ensures n' == |done + read| <= |grown| <= n' + 1 && grown[..n'] == ToPdus(done + read)
  {
    n', grown := n, list;
    if !out.Accepted? { assert done + read == done; }
    if out.Blank? { return; }
    grown := if |list| == n then list + [out.slot] else list[n := out.slot];
    if out.Rejected? {
      assert grown[..n] == list[..n];
      return;
    }
    n' := n + 1;
    ToPdusSnoc(done, read[0]);
    assert done + read == done + [read[0]];
    assert grown[..n + 1] == list[..n] + [out.slot];
  }

  /** The records not read yet. */
  ghost function Left(io: Stream, delim: set<byte>): seq<Record>
    requires io.Valid()
    reads io
  {
    if io.eof then [] else Records(io.data[io.pos..], delim)
  }

  /** `read_packets()`: the packets of all well-formed records, in order, if every line fits the buffer. If one does
      not, the packets before it, and a write behind the buffer, after which nothing can be said. */
  method ReadPackets(io: Stream, delim: set<byte>) returns (overran: bool, n: nat, list: seq<Pdu>)
    requires io.Valid() && !io.eof && 0 !in delim
    modifies io
    ensures overran <==> !LinesFit(old(io.data[io.pos..]))
    ensures var all := Records(old(io.data[io.pos..]), delim);
            && n <= |all| && (!overran ==> n == |all|)
            && n <= |list| <= n + 1 && list[..n] == ToPdus(all[..n])
  {
    ghost var all, done: seq<Record> := Records(io.data[io.pos..], delim), [];
    var buf := new byte[MAX_LINE];
    overran, n, list := false, 0, [];
    while !io.eof
      invariant io.Valid() && (LinesFit(old(io.data[io.pos..])) <==> Fits(io))
      invariant n == |done| <= |list| <= n + 1
      invariant list[..n] == ToPdus(done)
      invariant all == done + Left(io, delim)
      decreases !io.eof, |io.data| - io.pos
    {
      var out, read := ReadRecord(io, buf, delim);
      if out.Overrun? {
        assert all[..n] == done;
        return true, n, list;
      }
      Regrouped(done, read, Left(io, delim));
      n, list := StorePacket(n, list, out, done, read);
      done := done + read;
    }
    assert all == done && all[..n] == done;
  }

  /** A line as long as the buffer does not fit, whatever it holds and whatever follows it. */
  lemma FullBufferOverruns(line: seq<byte>, rest: seq<byte>)
    requires |line| >= MAX_LINE && ETB !in line && (rest == [] || rest[0] == ETB)
    ensures !LinesFit(line + rest)
  {
    SpanIs(line + rest, {ETB}, |line|);
    FirstChunkFits(line + rest);
  }

  /** Such an input: 5120 times the same letter. One letter less fits. */
  lemma OverrunExample()
    ensures !LinesFit(seq(5120, _ => 'x' as int)) && LinesFit(seq(5119, _ => 'x' as int))
  {
    var line: seq<byte> := seq(5120, _ => 'x' as int);
    assert line + [] == line;
    FullBufferOverruns(line, []);
    ChunksUnended(seq(5119, _ => 'x' as int));
  }
}
