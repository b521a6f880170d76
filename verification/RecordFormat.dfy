/** The record format on the standard input of send_iris: what `read_packets()` of iris.c accepts. */
module RecordFormat {
  import opened Words
  import opened Text
  import opened Frames

  const ETB: byte := 0x17
  const TAB: byte := 9
  const MAX_LINE: nat := 5120

  datatype Record = Record(host: seq<byte>, service: seq<byte>, rc: uint16, output: seq<byte>)

  // ----- cutting the input into chunks

  /** `c > 0 && c != '\n'` fails for a signed char: the character after a terminator is not put back. */
  predicate Swallowed(c: byte) { c == NEWLINE || c == 0 || c >= 0x80 }

  function AfterTerminator(s: seq<byte>): (t: seq<byte>) {
    if s != [] && Swallowed(s[0]) then s[1..] else s
  }

  /** The pieces of the input between terminators, the last one possibly unterminated. */
  function Chunks(s: seq<byte>): (cs: seq<seq<byte>>)
    decreases |s|
  {
    var i := Span(s, {ETB});
    if i == |s| then [s] else [s[..i]] + Chunks(AfterTerminator(s[i + 1..]))
  }

  // ----- parsing a chunk

  /** One `strtok()`: the token and what is left behind its delimiter. */
  function Token(s: seq<byte>, delim: set<byte>): (r: Option<(seq<byte>, seq<byte>)>)
    ensures r.Some? ==> r.value.0 != [] && |r.value.1| < |s|
    decreases |s|
  {
    if s == [] then None
    else if s[0] in delim then Token(s[1..], delim)
    else
      var i := Span(s, delim);
      Some((s[..i], if i == |s| then [] else s[i + 1..]))
  }

  function Parse(chunk: seq<byte>, delim: set<byte>): Option<Record> {
    ParseLine(Strip(CStr(chunk)), delim)
  }

  function ParseLine(line: seq<byte>, delim: set<byte>): Option<Record> {
    match Token(line, delim)
    case None => None
    case Some((host, r1)) =>
      match Token(r1, delim)
      case None => None
      case Some((service, r2)) =>
        match Token(r2, delim)
        case None => None
        case Some((rc, output)) =>
          if |rc| == 1 && '0' as int <= rc[0] <= '3' as int && output != [] then
            Some(Record(host, service, rc[0] - '0' as int, output))
          else None
  }

  function ParseAll(chunks: seq<seq<byte>>, delim: set<byte>): seq<Record> {
    if chunks == [] then [] else
      match Parse(chunks[0], delim)
      case None => ParseAll(chunks[1..], delim)
      case Some(r) => [r] + ParseAll(chunks[1..], delim)
  }

  /** The records in an input. */
  function Records(s: seq<byte>, delim: set<byte>): seq<Record> {
    ParseAll(Chunks(s), delim)
  }

  /** The packet made of a record: fields capped, the rest zero. */
  function ToPdu(r: Record): (p: Pdu)
    ensures p.Shape()
  {
    Pdu(0, 0, 0, r.rc, Padded(r.host, HOST_LEN), Padded(r.service, SERVICE_LEN), Padded(r.output, OUTPUT_LEN))
  }

  function ToPdus(rs: seq<Record>): (ps: seq<Pdu>)
    ensures |ps| == |rs| && forall i :: 0 <= i < |ps| ==> ps[i] == ToPdu(rs[i])
  {
    seq(|rs|, i requires 0 <= i < |rs| => ToPdu(rs[i]))
  }

  /** Every record leaves room for its terminator in the line buffer. */
  predicate LinesFit(s: seq<byte>) { AllShort(Chunks(s)) }

  predicate AllShort(cs: seq<seq<byte>>) { forall i :: 0 <= i < |cs| ==> |cs[i]| < MAX_LINE }

  lemma AllShortCons(c: seq<byte>, cs: seq<seq<byte>>)
    ensures AllShort([c] + cs) <==> |c| < MAX_LINE && AllShort(cs)
  {
    if AllShort([c] + cs) {
      assert |([c] + cs)[0]| < MAX_LINE;
      forall i | 0 <= i < |cs| ensures |cs[i]| < MAX_LINE { assert |([c] + cs)[i + 1]| < MAX_LINE; }
    }
  }

  // ----- the format, declaratively

  predicate Delimiters(s: seq<byte>, delim: set<byte>) { forall i :: 0 <= i < |s| ==> s[i] in delim }
  predicate Field(s: seq<byte>, delim: set<byte>) { s != [] && forall i :: 0 <= i < |s| ==> s[i] !in delim }

  /** `line` is a record laid out with runs of delimiters before each of the first three fields,
      and a single one before the output. */
  ghost predicate LaidOut(line: seq<byte>, delim: set<byte>, r: Record,
                          d1: seq<byte>, d2: seq<byte>, d3: seq<byte>, d4: byte) {
    && Delimiters(d1, delim) && Delimiters(d2, delim) && Delimiters(d3, delim) && d4 in delim
    && d2 != [] && d3 != []
    && Field(r.host, delim) && Field(r.service, delim) && r.rc <= 3 && r.rc + '0' as int !in delim && r.output != []
    && line == d1 + r.host + d2 + r.service + d3 + [r.rc + '0' as int] + [d4] + r.output
  }

  ghost predicate IsRecord(chunk: seq<byte>, delim: set<byte>, r: Record) {
    exists d1, d2, d3, d4 :: LaidOut(Strip(CStr(chunk)), delim, r, d1, d2, d3, d4)
  }

  lemma TokenSkips(d: seq<byte>, s: seq<byte>, delim: set<byte>)
    requires Delimiters(d, delim)
    ensures Token(d + s, delim) == Token(s, delim)
  {
    if d == [] {
      assert d + s == s;
    } else {
      assert (d + s)[1..] == d[1..] + s;
      TokenSkips(d[1..], s, delim);
    }
  }

  /** A field ended by a delimiter is the token. */
  lemma TokenOf(d: seq<byte>, f: seq<byte>, e: byte, s: seq<byte>, delim: set<byte>)
    requires Delimiters(d, delim) && Field(f, delim) && e in delim
    ensures Token(d + f + [e] + s, delim) == Some((f, s))
  {
    var t := f + [e] + s;
    assert d + f + [e] + s == d + t;
    TokenSkips(d, t, delim);
    assert t[0] == f[0];
    SpanIs(t, delim, |f|);
    assert t[..|f|] == f && t[|f| + 1..] == s;
  }

  /** What a token was cut from. */
  lemma TokenInverts(s: seq<byte>, delim: set<byte>, f: seq<byte>, rest: seq<byte>)
    returns (d: seq<byte>, e: seq<byte>)
    requires Token(s, delim) == Some((f, rest))
    ensures Delimiters(d, delim) && Delimiters(e, delim) && Field(f, delim)
    ensures s == d + f + e + rest && |e| <= 1 && (rest != [] ==> |e| == 1)
    decreases |s|
  {
    if s[0] in delim {
      d, e := TokenInverts(s[1..], delim, f, rest);
      d := [s[0]] + d;
    } else {
      var i := Span(s, delim);
      d := [];
      e := if i == |s| then [] else [s[i]];
    }
  }

  lemma LaidOutParses(chunk: seq<byte>, delim: set<byte>, r: Record,
                      d1: seq<byte>, d2: seq<byte>, d3: seq<byte>, d4: byte)
    requires LaidOut(Strip(CStr(chunk)), delim, r, d1, d2, d3, d4)
    ensures Parse(chunk, delim) == Some(r)
  {
    var line := Strip(CStr(chunk));
    var digit: byte := r.rc + '0' as int;
    var s3 := d3[1..] + [digit] + [d4] + r.output;
    var s2 := d2[1..] + r.service + [d3[0]] + s3;
    Ungroup(d1, r.host, d2, r.service, d3, [digit], [d4], r.output);
    TokenOf(d1, r.host, d2[0], s2, delim);
    TokenOf(d2[1..], r.service, d3[0], s3, delim);
    TokenOf(d3[1..], [digit], d4, r.output, delim);
    ParseTokens(line, delim, r, s2, s3);
  }

  /** White space behind a record, and whatever stands behind a NUL, does not matter. */
  lemma TrailingIgnored(line: seq<byte>, w: seq<byte>, rest: seq<byte>, delim: set<byte>)
    requires 0 !in line && forall i :: 0 <= i < |w| ==> IsSpace(w[i])
    ensures Parse(line + w, delim) == Parse(line, delim)
    ensures Parse(line + [0] + rest, delim) == Parse(line, delim)
  {
    SpanIs(line, {0}, |line|);
    assert CStr(line) == line;
    SpanIs(line + w, {0}, |line + w|);
    assert CStr(line + w) == line + w;
    StripDrops(line, w);
    SpanIs(line + [0] + rest, {0}, |line|);
    assert CStr(line + [0] + rest) == line;
  }

  lemma {:induction false} StripDrops(line: seq<byte>, w: seq<byte>)
    requires forall i :: 0 <= i < |w| ==> IsSpace(w[i])
    ensures Strip(line + w) == Strip(line)
    decreases |w|
  {
    if w == [] {
      assert line + w == line;
    } else {
      var n := |w| - 1;
      assert (line + w)[..|line + w| - 1] == line + w[..n];
      StripDrops(line, w[..n]);
    }
  }

  /** A chunk of white space is no record. */
  lemma BlankIsNothing(w: seq<byte>, delim: set<byte>)
    requires forall i :: 0 <= i < |w| ==> IsSpace(w[i])
    ensures Parse(w, delim) == None
  {
    var none: seq<byte> := [];
    assert none + w == w;
    TrailingIgnored(none, w, none, delim);
    assert CStr(none) == none && Strip(none) == none && Token(none, delim) == None;
  }

  /** Three tokens and an output make a record. */
  lemma ParseTokens(line: seq<byte>, delim: set<byte>, r: Record, r1: seq<byte>, r2: seq<byte>)
    requires Token(line, delim) == Some((r.host, r1)) && Token(r1, delim) == Some((r.service, r2))
    requires r.rc <= 3 && Token(r2, delim) == Some(([r.rc + '0' as int], r.output)) && r.output != []
    ensures ParseLine(line, delim) == Some(r)
  {
  }

  lemma Ungroup(d1: seq<byte>, host: seq<byte>, d2: seq<byte>, service: seq<byte>, d3: seq<byte>,
                rc: seq<byte>, d4: seq<byte>, output: seq<byte>)
    requires d2 != [] && d3 != []
    ensures d1 + host + d2 + service + d3 + rc + d4 + output
         == d1 + host + [d2[0]] + (d2[1..] + service + [d3[0]] + (d3[1..] + rc + d4 + output))
  {
    assert d2 == [d2[0]] + d2[1..] && d3 == [d3[0]] + d3[1..];
  }

  lemma Regroup(a1: seq<byte>, host: seq<byte>, e1: seq<byte>, a2: seq<byte>, service: seq<byte>, e2: seq<byte>,
                a3: seq<byte>, rc: seq<byte>, e3: seq<byte>, output: seq<byte>)
    ensures a1 + host + e1 + (a2 + service + e2 + (a3 + rc + e3 + output))
         == a1 + host + (e1 + a2) + service + (e2 + a3) + rc + e3 + output
  {
  }

  lemma LaidOutFrom(line: seq<byte>, delim: set<byte>, r: Record, r1: seq<byte>, r2: seq<byte>,
                    a1: seq<byte>, e1: seq<byte>, a2: seq<byte>, e2: seq<byte>, a3: seq<byte>, e3: seq<byte>)
    requires Delimiters(a1, delim) && Delimiters(a2, delim) && Delimiters(a3, delim)
    requires Delimiters(e1, delim) && Delimiters(e2, delim) && Delimiters(e3, delim) && |e1| == |e2| == |e3| == 1
    requires r.rc <= 3 && Field(r.host, delim) && Field(r.service, delim) && Field([r.rc + '0' as int], delim)
    requires r.output != [] && line == a1 + r.host + e1 + r1 && r1 == a2 + r.service + e2 + r2
    requires r2 == a3 + [r.rc + '0' as int] + e3 + r.output
    ensures LaidOut(line, delim, r, a1, e1 + a2, e2 + a3, e3[0])
  {
    var digit: seq<byte> := [r.rc + '0' as int];
    assert digit[0] !in delim;
    Regroup(a1, r.host, e1, a2, r.service, e2, a3, digit, e3, r.output);
    assert e3 == [e3[0]];
  }

  /** The tokens of a line that parses. */
  lemma ParseLineTokens(line: seq<byte>, delim: set<byte>, r: Record) returns (r1: seq<byte>, r2: seq<byte>)
    requires ParseLine(line, delim) == Some(r)
    ensures Token(line, delim) == Some((r.host, r1)) && Token(r1, delim) == Some((r.service, r2))
    ensures r.rc <= 3 && Token(r2, delim) == Some(([r.rc + '0' as int], r.output)) && r.output != []
  {
    r1 := Token(line, delim).value.1;
    r2 := Token(r1, delim).value.1;
    assert Token(r2, delim).value.0 == [r.rc + '0' as int];
  }

  lemma ParsedIsLaidOut(chunk: seq<byte>, delim: set<byte>, r: Record)
    requires Parse(chunk, delim) == Some(r)
    ensures IsRecord(chunk, delim, r)
  {
    var line := Strip(CStr(chunk));
    var r1, r2 := ParseLineTokens(line, delim, r);
    LaidOutTokens(line, delim, r, r1, r2);
  }

  lemma LaidOutTokens(line: seq<byte>, delim: set<byte>, r: Record, r1: seq<byte>, r2: seq<byte>)
    requires Token(line, delim) == Some((r.host, r1)) && Token(r1, delim) == Some((r.service, r2))
    requires r.rc <= 3 && Token(r2, delim) == Some(([r.rc + '0' as int], r.output)) && r.output != []
    ensures exists d1, d2, d3, d4 :: LaidOut(line, delim, r, d1, d2, d3, d4)
  {
    var a1, e1 := TokenInverts(line, delim, r.host, r1);
    var a2, e2 := TokenInverts(r1, delim, r.service, r2);
    var a3, e3 := TokenInverts(r2, delim, [r.rc + '0' as int], r.output);
    LaidOutFrom(line, delim, r, r1, r2, a1, e1, a2, e2, a3, e3);
  }

  /** The accepted records are exactly those of the declared layout. */
  lemma ParseIsLayout(chunk: seq<byte>, delim: set<byte>, r: Record)
    ensures Parse(chunk, delim) == Some(r) <==> IsRecord(chunk, delim, r)
  {
    if Parse(chunk, delim) == Some(r) {
      ParsedIsLaidOut(chunk, delim, r);
    }
    if IsRecord(chunk, delim, r) {
      var d1, d2, d3, d4 :| LaidOut(Strip(CStr(chunk)), delim, r, d1, d2, d3, d4);
      LaidOutParses(chunk, delim, r, d1, d2, d3, d4);
    }
  }

  // ----- printing records

  predicate Clean(s: seq<byte>) { s != [] && ETB !in s && 0 !in s }

  /** What a record must be to survive printing. */
  predicate Printable(r: Record) {
    && Clean(r.host) && Clean(r.service) && Clean(r.output)
    && TAB !in r.host && TAB !in r.service && r.rc <= 3
    && !IsSpace(r.output[|r.output| - 1])
  }

  predicate AllPrintable(rs: seq<Record>) { forall i :: 0 <= i < |rs| ==> Printable(rs[i]) }

  /** A record as a line of input: tab-separated fields, a terminator and a newline. */
  function Print(r: Record): seq<byte>
    requires r.rc <= 3
  {
    Line(r) + [ETB, NEWLINE]
  }

  function Line(r: Record): seq<byte>
    requires r.rc <= 3
  {
    r.host + [9] + r.service + [9] + [r.rc + '0' as int] + [9] + r.output
  }

  function PrintAll(rs: seq<Record>): seq<byte>
    requires AllPrintable(rs)
  {
    if rs == [] then [] else Print(rs[0]) + PrintAll(rs[1..])
  }

  lemma LineClean(r: Record)
    requires Printable(r)
    ensures ETB !in Line(r) && 0 !in Line(r)
  {
    var line := Line(r);
    forall i | 0 <= i < |line| ensures line[i] != 0 && line[i] != ETB {
      assert line[i] in r.host || line[i] in r.service || line[i] in r.output || line[i] == TAB
          || line[i] == r.rc + '0' as int;
    }
  }

  /** A line that ends in something other than white space is a string of its own. */
  lemma StripsToItself(line: seq<byte>)
    requires 0 !in line && line != [] && !IsSpace(line[|line| - 1])
    ensures Strip(CStr(line)) == line
  {
    SpanIs(line, {0}, |line|);
    assert CStr(line) == line;
  }

  lemma LineParses(r: Record)
    requires Printable(r)
    ensures ETB !in Line(r) && Parse(Line(r), {TAB}) == Some(r)
  {
    var none: seq<byte> := [];
    LineClean(r);
    assert Line(r)[|Line(r)| - 1] == r.output[|r.output| - 1];
    StripsToItself(Line(r));
    LineLaidOut(r);
    LaidOutParses(Line(r), {TAB}, r, none, [TAB], [TAB], TAB);
  }

  lemma LineLaidOut(r: Record)
    requires Printable(r)
    ensures LaidOut(Line(r), {TAB}, r, [], [TAB], [TAB], TAB)
  {
    var none: seq<byte> := [];
    assert none + r.host == r.host;
  }

  /** The last piece of an input needs no terminator. */
  lemma ChunksUnended(line: seq<byte>)
    requires ETB !in line
    ensures Chunks(line) == [line]
  {
    SpanIs(line, {ETB}, |line|);
  }

  /** A newline behind a terminator is swallowed, as is a NUL or a byte that is negative as a `char`. */
  lemma ChunksSwallow(line: seq<byte>, c: byte, rest: seq<byte>)
    requires ETB !in line && (c == 10 || c == 0 || c >= 128)
    ensures Chunks(line + [0x17] + ([c] + rest)) == [line] + Chunks(rest)
  {
    var s := line + [ETB] + ([c] + rest);
    SpanIs(s, {ETB}, |line|);
    assert s[..|line|] == line && s[|line| + 1..] == [c] + rest;
    assert ([c] + rest)[1..] == rest;
  }

  /** Anything else behind a terminator is the start of the next piece. */
  lemma ChunksKeep(line: seq<byte>, rest: seq<byte>)
    requires ETB !in line && (rest == [] || (1 <= rest[0] <= 127 && rest[0] != 10))
    ensures Chunks(line + [0x17] + rest) == [line] + Chunks(rest)
  {
    var s := line + [ETB] + rest;
    SpanIs(s, {ETB}, |line|);
    assert s[..|line|] == line && s[|line| + 1..] == rest;
  }

  lemma ChunksOfPrinted(line: seq<byte>, rest: seq<byte>)
    requires ETB !in line
    ensures Chunks(line + [ETB, NEWLINE] + rest) == [line] + Chunks(rest)
  {
    assert line + [ETB, NEWLINE] + rest == line + [ETB] + ([NEWLINE] + rest);
    ChunksSwallow(line, NEWLINE, rest);
  }

  lemma ParseAllCons(c: seq<byte>, cs: seq<seq<byte>>, delim: set<byte>)
    ensures ParseAll([c] + cs, delim)
         == if Parse(c, delim).Some? then [Parse(c, delim).value] + ParseAll(cs, delim) else ParseAll(cs, delim)
  {
    assert ([c] + cs)[1..] == cs;
  }

  /** A chunk that is no record leaves the records behind it as they are. */
  lemma RejectedIsDropped(line: seq<byte>, rest: seq<byte>, delim: set<byte>)
    requires ETB !in line && Parse(line, delim) == None
    ensures Records(line + [ETB, NEWLINE] + rest, delim) == Records(rest, delim)
  {
    ChunksOfPrinted(line, rest);
    ParseAllCons(line, Chunks(rest), delim);
  }

  lemma RecordsCons(line: seq<byte>, rest: seq<byte>, r: Record)
    requires ETB !in line && Parse(line, {TAB}) == Some(r)
    ensures Records(line + [ETB, NEWLINE] + rest, {TAB}) == [r] + Records(rest, {TAB})
  {
    ChunksOfPrinted(line, rest);
    assert ([line] + Chunks(rest))[1..] == Chunks(rest);
  }

  lemma NoRecords(delim: set<byte>)
    ensures Records([], delim) == []
  {
    var s: seq<byte> := [];
    assert Span(s, {ETB}) == 0;
    assert Chunks(s) == [s] && [s][1..] == [];
    assert CStr(s) == [] && Strip(s) == [] && Token(s, delim) == None;
    assert Parse(s, delim) == None;
    assert ParseAll([], delim) == [];
  }

  /** Records printed and read back are the same records. */
  lemma {:induction false} PrintThenRead(rs: seq<Record>)
    requires AllPrintable(rs)
    ensures Records(PrintAll(rs), {TAB}) == rs
  {
    if rs == [] {
      NoRecords({TAB});
      assert PrintAll(rs) == [];
    } else {
      LineParses(rs[0]);
      PrintThenRead(rs[1..]);
      RecordsCons(Line(rs[0]), PrintAll(rs[1..]), rs[0]);
      PrintAllCons(rs);
    }
  }

  lemma PrintAllCons(rs: seq<Record>)
    requires rs != [] && AllPrintable(rs)
    ensures PrintAll(rs) == Line(rs[0]) + [ETB, NEWLINE] + PrintAll(rs[1..])
    ensures rs == [rs[0]] + rs[1..]
  {
  }

  /** The print of records whose lines leave room for a terminator can be read into the line buffer. */
  lemma {:induction false} PrintFits(rs: seq<Record>)
    requires AllPrintable(rs) && forall i :: 0 <= i < |rs| ==> |Line(rs[i])| < MAX_LINE
    ensures LinesFit(PrintAll(rs))
  {
    if rs == [] {
      NothingFits();
    } else {
      var rest := PrintAll(rs[1..]);
      PrintFits(rs[1..]);
      LineParses(rs[0]);
      PrintAllCons(rs);
      ChunksOfPrinted(Line(rs[0]), rest);
      AllShortCons(Line(rs[0]), Chunks(rest));
    }
  }

  lemma NothingFits()
    ensures LinesFit([])
  {
    var s: seq<byte> := [];
    assert Span(s, {ETB}) == 0 && Chunks(s) == [s];
  }

  // ----- printing without newlines

  /** Records ended by 0x17 alone, as programs that write no newline print them. */
  function PrintTight(rs: seq<Record>): seq<byte>
    requires AllPrintable(rs)
  {
    if rs == [] then [] else Line(rs[0]) + [0x17] + PrintTight(rs[1..])
  }

  /** Every record starts with a character that is put back when it stands behind a terminator. */
  predicate AllKept(rs: seq<Record>) {
    forall i :: 0 <= i < |rs| ==> rs[i].host != [] && 1 <= rs[i].host[0] <= 127 && rs[i].host[0] != 10
  }

  lemma ChunksTight(rs: seq<Record>)
    requires rs != [] && AllPrintable(rs) && AllKept(rs)
    ensures Chunks(PrintTight(rs)) == [Line(rs[0])] + Chunks(PrintTight(rs[1..]))
  {
    var rest := PrintTight(rs[1..]);
    LineClean(rs[0]);
    if |rs| > 1 {
      assert rest[0] == Line(rs[1])[0] == rs[1].host[0];
    }
    ChunksKeep(Line(rs[0]), rest);
  }

  /** They are read back as the same records, no character lost. */
  lemma {:induction false} PrintTightThenRead(rs: seq<Record>)
    requires AllPrintable(rs) && AllKept(rs)
    ensures Records(PrintTight(rs), {TAB}) == rs
  {
    if rs == [] {
      NoRecords({TAB});
    } else {
      ChunksTight(rs);
      LineParses(rs[0]);
      PrintTightThenRead(rs[1..]);
      ParseAllCons(Line(rs[0]), Chunks(PrintTight(rs[1..])), {TAB});
      PrintAllCons(rs);
    }
  }

  lemma {:induction false} PrintTightFits(rs: seq<Record>)
    requires AllPrintable(rs) && AllKept(rs) && forall i :: 0 <= i < |rs| ==> |Line(rs[i])| < MAX_LINE
    ensures LinesFit(PrintTight(rs))
  {
    if rs == [] {
      NothingFits();
    } else {
      ChunksTight(rs);
      PrintTightFits(rs[1..]);
      AllShortCons(Line(rs[0]), Chunks(PrintTight(rs[1..])));
    }
  }
}
