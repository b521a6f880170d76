/** `parse_config()` of iris.c and the dump in iriscfg.c: buffers tokenised in place, settings overwritten
    line by line, a print line by line. */
module ConfigParser {
  import opened Words
  import opened Text
  import opened ConfigFormat
  import opened ConfigDump
  import opened ConfigRoundTrip

  const CONFIG_LINE: nat := 8192

  /** A file open for reading. */
  class File {
    const data: seq<byte>
    var at: nat

    ghost predicate Valid() reads this { at <= |data| }

    ghost function Rest(): seq<byte> reads this requires Valid() { data[at..] }

    constructor (data: seq<byte>)
      ensures Valid() && Rest() == data
    {
      this.data := data;
      at := 0;
    }

    /** `fgets(buf, 8191, io)`. */
    method Gets(buf: array<byte>) returns (ok: bool)
      requires Valid() && buf.Length == CONFIG_LINE
      modifies this, buf
      ensures Valid()
      ensures ok == (old(Rest()) != [])
      ensures ok ==> Rest() == old(Rest())[ReadLength(old(Rest()))..]
      ensures ok ==> StringAt(buf[..], 0, CStr(old(Rest())[..ReadLength(old(Rest()))]))
    {
      ghost var s := Rest();
      if at == |data| { return false; }
      var n := 0;
      var more := true;
      while more && n < MAX_READ && at < |data|
        invariant n <= |s| && n <= MAX_READ && at <= |data| && at == old(at) + n
        invariant buf[..n] == s[..n]
        invariant more ==> NEWLINE !in s[..n]
        invariant !more ==> n > 0 && s[n - 1] == NEWLINE && NEWLINE !in s[..n - 1]
        decreases MAX_READ - n
      {
        buf[n] := data[at];
        assert data[at] == s[n];
        more := buf[n] != NEWLINE;
        at, n := at + 1, n + 1;
        assert s[..n] == s[..n - 1] + [s[n - 1]];
      }
      buf[n] := 0;
      ReadLengthIs(s, n, more);
      assert buf[..][..n] == s[..n] && buf[..][n] == 0;
      ReadString(buf[..], s[..n]);
      ok := true;
    }
  }

  /** Where a read stops. */
  lemma ReadLengthIs(s: seq<byte>, n: nat, more: bool)
    requires n <= |s| && n <= MAX_READ
    requires more ==> NEWLINE !in s[..n] && (n == MAX_READ || n == |s|)
    requires !more ==> n > 0 && s[n - 1] == NEWLINE && NEWLINE !in s[..n - 1]
    ensures ReadLength(s) == n
  {
    var m: nat := if more then n else n - 1;
    forall k | 0 <= k < m ensures s[k] != NEWLINE { assert s[k] == s[..m][k]; }
    if !more || n == |s| {
      SpanIs(s, {NEWLINE}, m);
    }
  }

  /** What a read leaves in the buffer is a string up to the first NUL that was read. */
  lemma ReadString(buf: seq<byte>, chunk: seq<byte>)
    requires |chunk| < |buf| && buf[..|chunk|] == chunk && buf[|chunk|] == 0
    ensures StringAt(buf, 0, CStr(chunk))
  {
    var n := Span(chunk, {0});
    assert buf[0..n] == chunk[..n];
    assert n < |chunk| ==> buf[n] == chunk[n];
  }

  // ----- one line, tokenised in place

  /** `for (...; *a && isspace(*a); a++);` */
  method SkipSpace(buf: array<byte>, i: nat, ghost s: seq<byte>) returns (j: nat)
    requires StringAt(buf[..], i, s)
    ensures StringAt(buf[..], j, SkipBlank(s)) && j + |SkipBlank(s)| == i + |s|
  {
    j := i;
    ghost var t := s;
    StringHead(buf[..], j, t);
    while buf[j] != 0 && IsSpace(buf[j])
      invariant StringAt(buf[..], j, t) && j + |t| == i + |s| && SkipBlank(t) == SkipBlank(s)
      invariant buf[j] == if t == [] then 0 else t[0]
      decreases |t|
    {
      StringDrop(buf[..], j, t, 1);
      t := t[1..];
      j := j + 1;
      StringHead(buf[..], j, t);
    }
  }

  /** Strings in front of a write stay as they are. */
  lemma StringKept(buf: seq<byte>, i: nat, s: seq<byte>, at: nat, c: byte)
    requires StringAt(buf, i, s) && i + |s| < at < |buf|
    ensures StringAt(buf[at := c], i, s)
  {
    assert buf[at := c][i..i + |s|] == buf[i..i + |s|];
  }

  /** A terminator over the terminator. */
  lemma StringEnds(buf: seq<byte>, i: nat, s: seq<byte>, n: nat)
    requires StringAt(buf, i, s) && n <= |s|
    ensures StringAt(buf[i + n := 0], i, s[..n])
  {
    if n < |s| {
      SplitString(buf, i, s, n);
    } else {
      assert buf[i + n := 0] == buf && s[..n] == s;
    }
  }

  datatype Tokens = Skip | Bad(code: int) | Pair(directive: nat, value: nat)

  /** The directive and the value of a line, as positions in it. */
  ghost predicate TokensOf(buf: seq<byte>, t: Tokens, name: seq<byte>, line: Line) {
    match t
    case Skip => line == Skipped
    case Bad(code) => line == Malformed(code)
    case Pair(directive, value) =>
      && StringAt(buf, directive, name) && line.Setting? && line.directive == DirectiveOf(name)
      && StringAt(buf, value, line.value)
  }

  method ParseValue(buf: array<byte>, i: nat, ghost rest: seq<byte>, ghost d: nat, ghost name: seq<byte>)
    returns (code: int, value: nat)
    requires StringAt(buf[..], i, rest) && StringAt(buf[..], d, name) && d + |name| < i
    modifies buf
    ensures code == CodeOf(ValueIn(rest))
    ensures ValueIn(rest).Value? ==> StringAt(buf[..], value, ValueIn(rest).text) && StringAt(buf[..], d, name)
  {
    value := 0;
    var found, a := PastEquals(buf, i, rest);
    if !found { return 2, value; }
    value := SkipSpace(buf, a, rest[Span(rest, {EQUALS}) + 1..]);
    code := EndValue(buf, value, SkipBlank(rest[Span(rest, {EQUALS}) + 1..]), d, name);
  }

  method PastEquals(buf: array<byte>, i: nat, ghost rest: seq<byte>) returns (found: bool, a: nat)
    requires StringAt(buf[..], i, rest)
    ensures found <==> Span(rest, {EQUALS}) < |rest|
    ensures found ==> a == i + Span(rest, {EQUALS}) + 1 && StringAt(buf[..], a, rest[Span(rest, {EQUALS}) + 1..])
  {
    a, found := FindInside(buf, i, {EQUALS}, rest);
    if found {
      StringDrop(buf[..], i, rest, Span(rest, {EQUALS}) + 1);
      a := a + 1;
    }
  }

  method EndValue(buf: array<byte>, a: nat, ghost u: seq<byte>, ghost d: nat, ghost name: seq<byte>) returns (code: int)
    requires StringAt(buf[..], a, u) && StringAt(buf[..], d, name) && d + |name| < a
    modifies buf
    ensures code == if FirstWord(u).NoValue? then FirstWord(u).code else 0
    ensures FirstWord(u).Value? ==> StringAt(buf[..], a, FirstWord(u).text) && StringAt(buf[..], d, name)
  {
    var b := FindDelimiter(buf, a, BLANKS, u);
    if a == b { return 3; }
    StringEnds(buf[..], a, u, b - a);
    StringKept(buf[..], d, name, b, 0);
    ghost var before := buf[..];
    buf[b] := 0;
    assert buf[..] == before[b := 0];
    code := 0;
  }

  /** A token ended in place, unless it is empty or runs to the end of the line. */
  method EndDirective(buf: array<byte>, a: nat, stop: set<byte>, ghost l: seq<byte>)
    returns (ok: bool, b: nat, ghost name: seq<byte>, ghost rest: seq<byte>)
    requires StringAt(buf[..], a, l)
    modifies buf
    ensures ok <==> 0 < Span(l, stop) < |l|
    ensures ok ==> name == l[..Span(l, stop)] && rest == l[Span(l, stop) + 1..] && a + |name| < b
    ensures ok ==> StringAt(buf[..], a, name) && StringAt(buf[..], b, rest)
  {
    var inside;
    b, inside := FindInside(buf, a, stop, l);
    ghost var n := Span(l, stop);
    ok, name, rest := a != b && inside, [], [];
    if ok {
      CutString(buf, a, b, l);
      name, rest := l[..n], l[n + 1..];
      b := b + 1;
    }
  }

  /** The directive split off, and the value behind it. */
  method ParseDirective(buf: array<byte>, a: nat, stop: set<byte>, ghost l: seq<byte>)
    returns (code: int, value: nat, ghost name: seq<byte>, ghost rest: seq<byte>)
    requires StringAt(buf[..], a, l)
    modifies buf
    ensures !(0 < Span(l, stop) < |l|) ==> code == 1
    ensures 0 < Span(l, stop) < |l| ==>
      && name == l[..Span(l, stop)] && rest == l[Span(l, stop) + 1..] && code == CodeOf(ValueIn(rest))
      && (ValueIn(rest).Value? ==> StringAt(buf[..], value, ValueIn(rest).text) && StringAt(buf[..], a, name))
  {
    var ok, b;
    ok, b, name, rest := EndDirective(buf, a, stop, l);
    code, value := 1, 0;
    if ok { code, value := ParseValue(buf, b, rest, a, name); }
  }

  function CodeOf(v: Value): int { if v.NoValue? then v.code else 0 }

  /** The tokens of a line, when its directive ends before a character and when it does not. */
  lemma TokensFrom(buf: seq<byte>, a: nat, value: nat, code: int, name: seq<byte>, rest: seq<byte>, l: seq<byte>)
    requires var n := Span(l, BLANKS + {EQUALS});
             if 0 < n < |l| then
               && name == l[..n] && rest == l[n + 1..] && code == CodeOf(ValueIn(rest))
               && (ValueIn(rest).Value? ==> StringAt(buf, value, ValueIn(rest).text) && StringAt(buf, a, name))
             else code == 1
    ensures TokensOf(buf, if code != 0 then Bad(code) else Pair(a, value), name, SettingOf(l))
  {
  }

  method Tokenise(buf: array<byte>, ghost s: seq<byte>) returns (t: Tokens, ghost name: seq<byte>)
    requires StringAt(buf[..], 0, s)
    modifies buf
    ensures TokensOf(buf[..], t, name, ParseLine(s))
  {
    name := [];
    var a := SkipSpace(buf, 0, s);
    StringHead(buf[..], a, SkipBlank(s));
    if buf[a] == HASH { return Skip, name; }
    if buf[a] == 0 { return Skip, name; }
    var code, value;
    ghost var rest;
    code, value, name, rest := ParseDirective(buf, a, BLANKS + {EQUALS}, SkipBlank(s));
    TokensFrom(buf[..], a, value, code, name, rest, SkipBlank(s));
    t := if code != 0 then Bad(code) else Pair(a, value);
  }

  /** `strdup()`. */
  method Strdup(buf: array<byte>, i: nat, ghost s: seq<byte>) returns (t: seq<byte>)
    requires StringAt(buf[..], i, s)
    ensures t == s
  {
    var n := FindDelimiter(buf, i, {}, s);
    SpanIs(s, {}, |s|);
    t := buf[i..n];
  }

  /** `for (a = value; *a; a++) *a = tolower(*a);` */
  method LowerInPlace(buf: array<byte>, i: nat, ghost s: seq<byte>)
    requires StringAt(buf[..], i, s)
    modifies buf
    ensures StringAt(buf[..], i, Lower(s))
  {
    var a := i;
    while buf[a] != 0
      invariant i <= a <= i + |s| < buf.Length
      invariant buf[i + |s|] == 0
      invariant forall p :: i <= p < a ==> buf[p] == LowerChar(s[p - i])
      invariant forall p :: a <= p < i + |s| ==> buf[p] == s[p - i] && buf[p] != 0
      decreases i + |s| - a
    {
      buf[a] := LowerChar(buf[a]);
      a := a + 1;
    }
    assert buf[..][i..i + |s|] == Lower(s);
    forall k | 0 <= k < |s| ensures LowerChar(s[k]) != 0 { assert s[k] in s; }
  }

  // ----- the settings

  /** `struct server` and the global lifetime. */
  class Configuration {
    var port: seq<byte>
    var maxClients: uint32
    var maxLifetime: int
    var ident: seq<byte>
    var facility: seq<byte>
    var globalLifetime: int

    ghost function Current(): Settings reads this {
      Settings(port, maxClients, maxLifetime, ident, facility, globalLifetime)
    }

    /** `server_init()`. */
    constructor (lifetime: int)
      ensures Current() == Defaults(lifetime)
    {
      port := Ascii("5668");
      maxClients := 16 * 1024;
      maxLifetime, globalLifetime := lifetime, lifetime;
      ident := Ascii("iris");
      facility := Ascii("daemon");
    }

    /** One directive. */
    method Set(buf: array<byte>, name: seq<byte>, i: nat, ghost value: seq<byte>) returns (code: int)
      requires StringAt(buf[..], i, value)
      modifies this, buf
      ensures Parsed(code, Current()) == Apply(old(Current()), DirectiveOf(name), value)
    {
      code := 0;
      match DirectiveOf(name)
      case Port => port := Strdup(buf, i, value);
      case MaxClients =>
        var text := Strdup(buf, i, value);
        maxClients := ToUint32(Strtol(text).value);
        if !Strtol(text).ok { code := 4; }
      case MaxLifetime =>
        var text := Strdup(buf, i, value);
        maxLifetime := Strtol(text).value;
        if !Strtol(text).ok { return 5; }
        globalLifetime := maxLifetime;
      case SyslogIdent => ident := Strdup(buf, i, value);
      case SyslogFacility =>
        LowerInPlace(buf, i, value);
        facility := Strdup(buf, i, Lower(value));
      case Unknown =>
    }

    /** The body of the loop, for the line in the buffer. */
    method ReadLine(buf: array<byte>, ghost s: seq<byte>) returns (code: int)
      requires StringAt(buf[..], 0, s)
      modifies this, buf
      ensures Parsed(code, Current()) == ApplyLine(old(Current()), ParseLine(s))
    {
      var t, name := Tokenise(buf, s);
      match t
      case Skip => code := 0;
      case Bad(c) => code := c;
      case Pair(directive, value) =>
        var d := Strdup(buf, directive, name);
        code := Set(buf, d, value, ParseLine(s).value);
    }

    /** `parse_config()`. */
    method Parse(io: File) returns (code: int)
      requires io.Valid()
      modifies this, io
      ensures io.Valid()
      ensures Parsed(code, Current()) == ParseConfig(old(Current()), old(io.Rest()))
    {
      var buf := new byte[CONFIG_LINE];
      ghost var s := io.Rest();
      var ok := io.Gets(buf);
      while ok
        invariant io.Valid() && fresh(buf) && buf.Length == CONFIG_LINE
        invariant ok == (s != [])
        invariant ok ==> io.Rest() == s[ReadLength(s)..] && StringAt(buf[..], 0, CStr(s[..ReadLength(s)]))
        invariant ParseConfig(Current(), s) == ParseConfig(old(Current()), old(io.Rest()))
        decreases |s|
      {
        NextLine(Current(), s);
        code := ReadLine(buf, CStr(s[..ReadLength(s)]));
        if code != 0 { return; }
        s := io.Rest();
        ok := io.Gets(buf);
      }
      code := 0;
    }
  }

  lemma NextLine(c: Settings, s: seq<byte>)
    requires s != []
    ensures var n := ReadLength(s);
            var p := ApplyLine(c, ParseLine(CStr(s[..n])));
            ParseConfig(c, s) == if p.code != 0 then p else ParseConfig(p.settings, s[n..])
  {
    var n := ReadLength(s);
    ParseLinesAppend([CStr(s[..n])], Lines(s[n..]));
    assert ParseLines([CStr(s[..n])]) == [ParseLine(CStr(s[..n]))];
    assert ([ParseLine(CStr(s[..n]))] + ParseLines(Lines(s[n..])))[1..] == ParseLines(Lines(s[n..]));
  }

  // ----- the dump

  lemma {:induction false} DumpSnoc(vs: seq<(seq<byte>, seq<byte>)>, i: nat)
    requires forall k :: 0 <= k < |vs| ==> |vs[k].0| < 16
    requires i < |vs|
    ensures DumpAll(vs[..i + 1]) == DumpAll(vs[..i]) + DumpLine(vs[i].0, vs[i].1) + [NEWLINE]
  {
    if i == 0 {
      assert vs[..1][1..] == [];
    } else {
      DumpSnoc(vs[1..], i - 1);
      assert vs[..i + 1][1..] == vs[1..][..i] && vs[..i][1..] == vs[1..][..i - 1];
    }
  }

  /** One `printf()` of the dump. */
  method PrintLine(out: seq<byte>, name: seq<byte>, value: seq<byte>, ghost vs: seq<(seq<byte>, seq<byte>)>, ghost i: nat)
    returns (more: seq<byte>)
    requires forall k :: 0 <= k < |vs| ==> |vs[k].0| < 16
    requires i < |vs| && vs[i] == (name, value) && out == DumpAll(vs[..i])
    ensures more == DumpAll(vs[..i + 1])
  {
    more := out + DumpLine(name, value) + [NEWLINE];
    DumpSnoc(vs, i);
  }

  method PrintSettings(c: Configuration, timeout: byte) returns (out: seq<byte>)
    ensures out == Dump(c.Current(), timeout)
  {
    ghost var vs := DumpValues(c.Current(), timeout);
    assert DumpAll(vs[..0]) == [] && vs[..6] == vs;
    out := PrintLine([], Ascii("port"), c.port, vs, 0);
    out := PrintLine(out, Ascii("timeout"), Decimal(timeout), vs, 1);
    out := PrintLine(out, Ascii("max_clients"), Decimal(ToInt32(c.maxClients)), vs, 2);
    out := PrintLine(out, Ascii("max_lifetime"), Decimal(ToInt32(c.maxLifetime)), vs, 3);
    out := PrintLine(out, Ascii("syslog_ident"), c.ident, vs, 4);
    out := PrintLine(out, Ascii("syslog_facility"), c.facility, vs, 5);
  }

  /** What the path of a configuration file leads to: nothing, a file that cannot be opened, or some bytes. */
  datatype Found = Missing | Unreadable | Contents(data: seq<byte>)

  /** `parse_config_file()`. */
  method ParseFile(c: Configuration, found: Found) returns (code: int)
    requires !found.Missing?
    modifies c
    ensures found.Unreadable? ==> code == -1 && c.Current() == old(c.Current())
    ensures found.Contents? ==> Parsed(code, c.Current()) == ParseConfig(old(c.Current()), found.data)
  {
    if found.Unreadable? { return -1; }
    var io := new File(found.data);
    code := c.Parse(io);
  }

  /** The main program of iriscfg: reads a file and prints the settings it leaves, or fails. */
  method ShowConfig(found: Found, lifetime: int, timeout: byte) returns (code: int, out: seq<byte>)
    ensures code == match found
      case Missing => 2
      case Unreadable => 4
      case Contents(data) => if ParseConfig(Defaults(lifetime), data).code != 0 then 4 else 0
    ensures out == if code != 0 then [] else Dump(ParseConfig(Defaults(lifetime), found.data).settings, timeout)
  {
    out := [];
    var c := new Configuration(lifetime);
    if found.Missing? { return 2, out; }
    var rc := ParseFile(c, found);
    if rc != 0 { return 4, out; }
    out := PrintSettings(c, timeout);
    code := 0;
  }
}
