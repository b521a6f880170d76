/** The configuration file format of iris.c and the settings dump of iriscfg.c. */
module ConfigFormat {
  import opened Words
  import opened Text

  /** A string literal as bytes. */
  function Ascii(s: string): (b: seq<byte>)
    ensures |b| == |s|
  {
    seq(|s|, i requires 0 <= i < |s| => (s[i] as int) % 0x100)
  }

  const BLANKS: set<byte> := {9, 10, 11, 12, 13, 32}
  const EQUALS: byte := 61
  const HASH: byte := 35
  const MINUS: byte := 45
  const PLUS: byte := 43
  const SPACE: byte := 32
  const LONG_MAX: int := 0x7FFF_FFFF_FFFF_FFFF
  const LONG_MIN: int := -0x8000_0000_0000_0000

  datatype Directive = Port | MaxClients | MaxLifetime | SyslogIdent | SyslogFacility | Unknown

  /** `struct server`, without the timeout nothing ever sets, and the global MAX_LIFETIME. */
  datatype Settings = Settings(port: seq<byte>, maxClients: uint32, maxLifetime: int,
                               ident: seq<byte>, facility: seq<byte>, globalLifetime: int)

  // ----- one line

  function SkipBlank(s: seq<byte>): (t: seq<byte>)
    ensures |t| <= |s| && (t != [] ==> !IsSpace(t[0]))
  {
    if s != [] && IsSpace(s[0]) then SkipBlank(s[1..]) else s
  }

  function DirectiveOf(name: seq<byte>): Directive {
    if name == Ascii("port") then Port
    else if name == Ascii("max_clients") then MaxClients
    else if name == Ascii("max_lifetime") then MaxLifetime
    else if name == Ascii("syslog_ident") then SyslogIdent
    else if name == Ascii("syslog_facility") then SyslogFacility
    else Unknown
  }

  datatype Line = Skipped | Malformed(code: int) | Setting(directive: Directive, value: seq<byte>)

  /** What a line says. */
  function ParseLine(line: seq<byte>): Line {
    var a := SkipBlank(line);
    if a == [] || a[0] == HASH then Skipped else SettingOf(a)
  }

  /** What is behind a directive: a value, or the code of an error. */
  datatype Value = NoValue(code: int) | Value(text: seq<byte>)

  function ValueIn(rest: seq<byte>): Value {
    var e := Span(rest, {EQUALS});
    if e == |rest| then NoValue(2) else FirstWord(SkipBlank(rest[e + 1..]))
  }

  function FirstWord(u: seq<byte>): Value {
    var m := Span(u, BLANKS);
    if m == 0 then NoValue(3) else Value(u[..m])
  }

  /** A line from its first character on. The character that ends the directive is gone before `=` is looked for. */
  function SettingOf(a: seq<byte>): Line {
    var n := Span(a, BLANKS + {EQUALS});
    if n == 0 || n == |a| then Malformed(1) else SettingWith(a[..n], ValueIn(a[n + 1..]))
  }

  function SettingWith(name: seq<byte>, v: Value): Line {
    match v
    case NoValue(code) => Malformed(code)
    case Value(text) => Setting(DirectiveOf(name), text)
  }

  // ----- values

  const ZERO: byte := 48

  predicate IsDigit(c: byte) { ZERO <= c <= ZERO + 9 }

  function DigitOf(c: byte): nat
    requires IsDigit(c)
  {
    c - ZERO
  }

  /** The number the leading digits spell. */
  function DigitsValue(s: seq<byte>, acc: nat): nat
    decreases |s|
  {
    if s != [] && IsDigit(s[0]) then DigitsValue(s[1..], 10 * acc + DigitOf(s[0])) else acc
  }

  datatype Number = Number(value: int, ok: bool)

  /** `strtol(value, &endptr, 10)` on a string without leading blanks: fails without a digit or out of range. */
  function Strtol(s: seq<byte>): Number {
    var negative := s != [] && s[0] == MINUS;
    var t := if s != [] && (s[0] == MINUS || s[0] == PLUS) then s[1..] else s;
    if t == [] || !IsDigit(t[0]) then Number(0, false)
    else
      var n: int := DigitsValue(t, 0);
      if negative && -n < LONG_MIN then Number(LONG_MIN, false)
      else if !negative && n > LONG_MAX then Number(LONG_MAX, false)
      else Number(if negative then -n else n, true)
  }

  /** The cast of a `long` to `uint32_t`. */
  function ToUint32(n: int): uint32 { n % 0x1_0000_0000 }

  function LowerChar(c: byte): byte { if 'A' as int <= c <= 'Z' as int then c + 32 else c }

  /** `tolower()` in the C locale, on every character. */
  function Lower(s: seq<byte>): (t: seq<byte>)
    ensures |t| == |s|
  {
    seq(|s|, i requires 0 <= i < |s| => LowerChar(s[i]))
  }

  datatype Parsed = Parsed(code: int, settings: Settings)

  /** The effect of one directive; a bad number is an error, but has already been stored. */
  function Apply(s: Settings, d: Directive, value: seq<byte>): Parsed {
    match d
    case Port => Parsed(0, s.(port := value))
    case MaxClients =>
      var n := Strtol(value);
      Parsed(if n.ok then 0 else 4, s.(maxClients := ToUint32(n.value)))
    case MaxLifetime =>
      var n := Strtol(value);
      if n.ok then Parsed(0, s.(maxLifetime := n.value, globalLifetime := n.value))
      else Parsed(5, s.(maxLifetime := n.value))
    case SyslogIdent => Parsed(0, s.(ident := value))
    case SyslogFacility => Parsed(0, s.(facility := Lower(value)))
    case Unknown => Parsed(0, s)
  }

  function ApplyLine(s: Settings, line: Line): Parsed {
    match line
    case Skipped => Parsed(0, s)
    case Malformed(code) => Parsed(code, s)
    case Setting(directive, value) => Apply(s, directive, value)
  }

  // ----- the whole file

  /** The lines of a file, in order, up to the first error. */
  function ApplyAll(s: Settings, lines: seq<Line>): Parsed
    decreases |lines|
  {
    if lines == [] then Parsed(0, s)
    else
      var p := ApplyLine(s, lines[0]);
      if p.code != 0 then p else ApplyAll(p.settings, lines[1..])
  }

  const MAX_READ: nat := 8190

  /** One `fgets(buf, 8191, io)`: up to and including a newline, at most 8190 bytes. */
  function ReadLength(s: seq<byte>): (n: nat)
    ensures n <= |s| && n <= MAX_READ && (s != [] ==> n > 0)
    ensures forall k :: 0 <= k < n - 1 ==> s[k] != NEWLINE
    ensures n < |s| && n < MAX_READ ==> s[n - 1] == NEWLINE
  {
    var i := Span(s, {NEWLINE});
    var n := if i < |s| then i + 1 else i;
    if n < MAX_READ then n else MAX_READ
  }

  /** The strings successive reads give: each ends at its first NUL. */
  function Lines(s: seq<byte>): seq<seq<byte>>
    decreases |s|
  {
    if s == [] then [] else [CStr(s[..ReadLength(s)])] + Lines(s[ReadLength(s)..])
  }

  function ParseLines(lines: seq<seq<byte>>): (ls: seq<Line>)
    ensures |ls| == |lines|
  {
    seq(|lines|, i requires 0 <= i < |lines| => ParseLine(lines[i]))
  }

  /** `parse_config()`. */
  function ParseConfig(s: Settings, file: seq<byte>): Parsed {
    ApplyAll(s, ParseLines(Lines(file)))
  }

  // ----- it is a fold

  lemma {:induction false} ApplyAppend(s: Settings, a: seq<Line>, b: seq<Line>)
    ensures var p := ApplyAll(s, a); ApplyAll(s, a + b) == if p.code != 0 then p else ApplyAll(p.settings, b)
    decreases |a|
  {
    if a == [] {
      assert a + b == b;
    } else {
      assert (a + b)[1..] == a[1..] + b;
      var p := ApplyLine(s, a[0]);
      if p.code == 0 { ApplyAppend(p.settings, a[1..], b); }
    }
  }

  /** Comments, blank lines and well-formed lines with a directive nobody knows. */
  predicate Ignorable(line: Line) { line.Skipped? || (line.Setting? && line.directive == Unknown) }

  /** Deleting such a line never changes the outcome. */
  lemma IgnorableLine(s: Settings, a: seq<Line>, line: Line, b: seq<Line>)
    requires Ignorable(line)
    ensures ApplyAll(s, a + [line] + b) == ApplyAll(s, a + b)
  {
    var p := ApplyAll(s, a);
    ApplyAppend(s, a, b);
    ApplyAppend(s, a, [line] + b);
    assert a + [line] + b == a + ([line] + b);
    assert ([line] + b)[1..] == b;
  }

  /** A file can be cut behind any newline. */
  lemma {:induction false} LinesAppend(a: seq<byte>, b: seq<byte>)
    requires a == [] || a[|a| - 1] == NEWLINE
    ensures Lines(a + b) == Lines(a) + Lines(b)
    decreases |a|
  {
    if a == [] {
      assert a + b == b;
    } else {
      var n := ReadLength(a);
      var tail := a[n..];
      SameFirstLine(a, b);
      LinesAppend(tail, b);
      LinesStep(a, n);
      LinesStep(a + b, n);
      Regrouped([CStr(a[..n])], Lines(tail), Lines(b));
    }
  }

  lemma LinesStep(s: seq<byte>, n: nat)
    requires s != [] && n == ReadLength(s)
    ensures Lines(s) == [CStr(s[..n])] + Lines(s[n..])
  {
  }

  lemma SameFirstLine(a: seq<byte>, b: seq<byte>)
    requires a != [] && a[|a| - 1] == NEWLINE
    ensures var n := ReadLength(a);
            ReadLength(a + b) == n && (a + b)[..n] == a[..n] && (a + b)[n..] == a[n..] + b
    ensures var tail := a[ReadLength(a)..]; tail == [] || tail[|tail| - 1] == NEWLINE
  {
    var i := Span(a, {NEWLINE});
    assert i < |a|;
    SpanIs(a + b, {NEWLINE}, i);
  }

  lemma ParseLinesAppend(a: seq<seq<byte>>, b: seq<seq<byte>>)
    ensures ParseLines(a + b) == ParseLines(a) + ParseLines(b)
  {
  }

  lemma OneLine(line: seq<byte>)
    requires NEWLINE !in line && |line| < MAX_READ
    ensures Lines(line + [NEWLINE]) == [CStr(line + [NEWLINE])]
  {
    var s := line + [NEWLINE];
    var none: seq<byte> := [];
    SpanIs(s, {NEWLINE}, |line|);
    assert ReadLength(s) == |s|;
    LinesStep(s, |s|);
    assert s[..|s|] == s && s[|s|..] == none && Lines(none) == [];
  }

  /** The lines of a file, around one of them. */
  lemma LineInFile(a: seq<byte>, line: seq<byte>, b: seq<byte>)
    requires a == [] || a[|a| - 1] == NEWLINE
    requires NEWLINE !in line && |line| < MAX_READ
    ensures Lines(a + (line + [NEWLINE]) + b) == Lines(a) + [CStr(line + [NEWLINE])] + Lines(b)
  {
    var whole := line + [NEWLINE];
    OneLine(line);
    Regrouped(a, whole, b);
    LinesAppend(a, whole + b);
    LinesAppend(whole, b);
    Regrouped(Lines(a), Lines(whole), Lines(b));
  }

  lemma ParseLinesAround(a: seq<seq<byte>>, line: seq<byte>, b: seq<seq<byte>>)
    ensures ParseLines(a + [line] + b) == ParseLines(a) + [ParseLine(line)] + ParseLines(b)
  {
    ParseLinesAppend(a + [line], b);
    ParseLinesAppend(a, [line]);
    assert ParseLines([line]) == [ParseLine(line)];
  }

  /** Deleting such a line from a file never changes what the file does. */
  lemma IgnorableInFile(s: Settings, a: seq<byte>, line: seq<byte>, b: seq<byte>)
    requires a == [] || a[|a| - 1] == NEWLINE
    requires NEWLINE !in line && |line| < MAX_READ && Ignorable(ParseLine(CStr(line + [NEWLINE])))
    ensures ParseConfig(s, a + (line + [NEWLINE]) + b) == ParseConfig(s, a + b)
  {
    LineInFile(a, line, b);
    ParseLinesAround(Lines(a), CStr(line + [NEWLINE]), Lines(b));
    LinesAppend(a, b);
    ParseLinesAppend(Lines(a), Lines(b));
    IgnorableLine(s, ParseLines(Lines(a)), ParseLine(CStr(line + [NEWLINE])), ParseLines(Lines(b)));
  }

  /** The value of the last line with a directive. */
  function Last(lines: seq<Line>, d: Directive): Option<seq<byte>> {
    if lines == [] then None
    else
      var n := |lines| - 1;
      if lines[n].Setting? && lines[n].directive == d then Some(lines[n].value) else Last(lines[..n], d)
  }

  lemma LastSnoc(lines: seq<Line>, line: Line, d: Directive)
    ensures Last(lines + [line], d) == if line.Setting? && line.directive == d then Some(line.value) else Last(lines, d)
  {
    assert (lines + [line])[..|lines|] == lines;
  }

  function TextOr(last: Option<seq<byte>>, otherwise: seq<byte>): seq<byte> {
    match last case None => otherwise case Some(v) => v
  }

  function NumberOr(last: Option<seq<byte>>, otherwise: int): int {
    match last case None => otherwise case Some(v) => Strtol(v).value
  }

  /** `t` is `s` with everything a list of lines sets at its last value. */
  predicate LastValues(s: Settings, lines: seq<Line>, t: Settings) {
    && t.port == TextOr(Last(lines, Port), s.port)
    && t.ident == TextOr(Last(lines, SyslogIdent), s.ident)
    && t.facility == (if Last(lines, SyslogFacility) == None then s.facility else Lower(Last(lines, SyslogFacility).value))
    && t.maxClients == (if Last(lines, MaxClients) == None then s.maxClients
                        else ToUint32(NumberOr(Last(lines, MaxClients), 0)))
    && t.maxLifetime == NumberOr(Last(lines, MaxLifetime), s.maxLifetime)
  }

  lemma LastValuesStep(s: Settings, lines: seq<Line>, t: Settings, line: Line)
    requires LastValues(s, lines, t) && ApplyLine(t, line).code == 0
    ensures LastValues(s, lines + [line], ApplyLine(t, line).settings)
  {
    LastSnoc(lines, line, Port);
    LastSnoc(lines, line, SyslogIdent);
    LastSnoc(lines, line, SyslogFacility);
    LastSnoc(lines, line, MaxClients);
    LastSnoc(lines, line, MaxLifetime);
  }

  /** A file that parses sets everything to the last value given for it, or leaves it alone. */
  lemma {:induction false} LastWins(s: Settings, lines: seq<Line>)
    requires ApplyAll(s, lines).code == 0
    ensures LastValues(s, lines, ApplyAll(s, lines).settings)
    decreases |lines|
  {
    if lines != [] {
      var n := |lines| - 1;
      var t := ApplyAll(s, lines[..n]).settings;
      assert lines == lines[..n] + [lines[n]];
      ApplyAppend(s, lines[..n], [lines[n]]);
      ApplyOne(t, lines[n]);
      LastWins(s, lines[..n]);
      LastValuesStep(s, lines[..n], t, lines[n]);
    }
  }

  lemma ApplyOne(s: Settings, line: Line)
    ensures ApplyAll(s, [line]) == ApplyLine(s, line)
  {
    assert [line][1..] == [];
  }

  /** The global and the field part only over a lifetime that is not a number. */
  lemma {:induction false} LifetimesAgree(s: Settings, lines: seq<Line>)
    requires s.globalLifetime == s.maxLifetime
    ensures var p := ApplyAll(s, lines);
            p.code != 5 ==> p.settings.globalLifetime == p.settings.maxLifetime
    decreases |lines|
  {
    if lines != [] {
      var p := ApplyLine(s, lines[0]);
      if p.code == 0 { LifetimesAgree(p.settings, lines[1..]); }
    }
  }
}
