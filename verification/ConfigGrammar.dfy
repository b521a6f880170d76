/** The configuration format told by the shapes of its lines: every line has one of them, and each shape has its meaning.
    35 is `#`, 61 is `=`, 10 is the newline. */
module ConfigGrammar {
  import opened Words
  import opened Text
  import opened ConfigFormat
  import opened ConfigDump

  // ----- what each shape means

  lemma LeadingBlanks(w: seq<byte>, a: seq<byte>)
    requires Blank(w) && (a == [] || a[0] !in BLANKS)
    ensures ParseLine(w + a) == if a == [] || a[0] == 35 then Skipped else SettingOf(a)
  {
    SkipsBlank(w, a);
  }

  /** A blank line. */
  lemma BlankLine(w: seq<byte>)
    requires Blank(w)
    ensures ParseLine(w) == Skipped
  {
    var none: seq<byte> := [];
    assert w + none == w;
    LeadingBlanks(w, none);
  }

  /** A comment, from the `#` on whatever it says. */
  lemma CommentLine(w: seq<byte>, t: seq<byte>)
    requires Blank(w)
    ensures ParseLine(w + [35] + t) == Skipped
  {
    assert w + [35] + t == w + ([35] + t);
    LeadingBlanks(w, [35] + t);
  }

  /** An `=` where the directive should be, or a directive and nothing behind it. */
  lemma NoDirectiveLine(w: seq<byte>, t: seq<byte>)
    requires Blank(w)
    ensures ParseLine(w + [61] + t) == Malformed(1)
  {
    assert w + [61] + t == w + ([61] + t);
    LeadingBlanks(w, [61] + t);
    SpanIs([61] + t, BLANKS + {EQUALS}, 0);
  }

  lemma LoneDirectiveLine(w: seq<byte>, d: seq<byte>)
    requires Blank(w) && Name(d)
    ensures ParseLine(w + d) == Malformed(1)
  {
    LeadingBlanks(w, d);
    SpanIs(d, BLANKS + {EQUALS}, |d|);
  }

  /** A directive `d` ended by the character `c`, which is not looked at again, and what is behind that. */
  lemma DirectiveLine(w: seq<byte>, d: seq<byte>, c: byte, rest: seq<byte>)
    requires Blank(w) && Name(d) && (c in BLANKS || c == 61)
    ensures ParseLine(w + d + [c] + rest) == SettingWith(d, ValueIn(rest))
  {
    var a := d + [c] + rest;
    assert w + d + [c] + rest == w + a;
    LeadingBlanks(w, a);
    SpanIs(a, BLANKS + {EQUALS}, |d|);
    assert a[..|d|] == d && a[|d| + 1..] == rest;
  }

  /** No `=` behind that. */
  lemma NoEqualsLine(w: seq<byte>, d: seq<byte>, c: byte, rest: seq<byte>)
    requires Blank(w) && Name(d) && (c in BLANKS || c == 61) && 61 !in rest
    ensures ParseLine(w + d + [c] + rest) == Malformed(2)
  {
    DirectiveLine(w, d, c, rest);
    SpanIs(rest, {EQUALS}, |rest|);
  }

  lemma BehindEquals(p: seq<byte>, b: seq<byte>, u: seq<byte>)
    requires 61 !in p && Blank(b) && (u == [] || u[0] !in BLANKS)
    ensures ValueIn(p + [61] + (b + u)) == FirstWord(u)
  {
    var rest := p + [61] + (b + u);
    SpanIs(rest, {EQUALS}, |p|);
    assert rest[|p| + 1..] == b + u;
    SkipsBlank(b, u);
  }

  /** Nothing but blanks behind the first `=`. */
  lemma NoValueLine(w: seq<byte>, d: seq<byte>, c: byte, p: seq<byte>, b: seq<byte>)
    requires Blank(w) && Name(d) && (c in BLANKS || c == 61) && 61 !in p && Blank(b)
    ensures ParseLine(w + d + [c] + (p + [61] + b)) == Malformed(3)
  {
    var none: seq<byte> := [];
    assert b + none == b;
    DirectiveLine(w, d, c, p + [61] + b);
    BehindEquals(p, b, none);
    SpanIs(none, BLANKS, 0);
  }

  /** A value: from the first character that is not blank up to the next one that is. */
  lemma SettingLine(w: seq<byte>, d: seq<byte>, c: byte, p: seq<byte>, b: seq<byte>, v: seq<byte>, t: seq<byte>)
    requires Blank(w) && Name(d) && (c in BLANKS || c == 61) && 61 !in p && Blank(b) && Solid(v)
    requires t == [] || t[0] in BLANKS
    ensures ParseLine(w + d + [c] + (p + [61] + (b + (v + t)))) == Setting(DirectiveOf(d), v)
  {
    DirectiveLine(w, d, c, p + [61] + (b + (v + t)));
    BehindEquals(p, b, v + t);
    SpanIs(v + t, BLANKS, |v|);
    assert (v + t)[..|v|] == v;
  }

  // ----- every line has one of the shapes

  datatype Shape =
    | IsBlank
    | IsComment(t: seq<byte>)
    | LacksDirective(t: seq<byte>)
    | LoneDirective(d: seq<byte>)
    | LacksEquals(d: seq<byte>, c: byte, rest: seq<byte>)
    | LacksValue(d: seq<byte>, c: byte, p: seq<byte>, b: seq<byte>)
    | IsSetting(d: seq<byte>, c: byte, p: seq<byte>, b: seq<byte>, v: seq<byte>, t: seq<byte>)

  /** A line of some shape behind leading blanks. */
  predicate HasShape(line: seq<byte>, w: seq<byte>, s: Shape) {
    Blank(w) &&
    match s
    case IsBlank => line == w
    case IsComment(t) => line == w + [35] + t
    case LacksDirective(t) => line == w + [61] + t
    case LoneDirective(d) => Name(d) && line == w + d
    case LacksEquals(d, c, rest) => Name(d) && (c in BLANKS || c == 61) && 61 !in rest && line == w + d + [c] + rest
    case LacksValue(d, c, p, b) =>
      Name(d) && (c in BLANKS || c == 61) && 61 !in p && Blank(b) && line == w + d + [c] + (p + [61] + b)
    case IsSetting(d, c, p, b, v, t) =>
      Name(d) && (c in BLANKS || c == 61) && 61 !in p && Blank(b) && Solid(v) && (t == [] || t[0] in BLANKS)
      && line == w + d + [c] + (p + [61] + (b + (v + t)))
  }

  function Meaning(s: Shape): Line {
    match s
    case IsBlank => Skipped
    case IsComment(_) => Skipped
    case LacksDirective(_) => Malformed(1)
    case LoneDirective(_) => Malformed(1)
    case LacksEquals(_, _, _) => Malformed(2)
    case LacksValue(_, _, _, _) => Malformed(3)
    case IsSetting(d, _, _, _, v, _) => Setting(DirectiveOf(d), v)
  }

  lemma ShapeIsMeaning(line: seq<byte>, w: seq<byte>, s: Shape)
    requires HasShape(line, w, s)
    ensures ParseLine(line) == Meaning(s)
  {
    match s
    case IsBlank => BlankLine(w);
    case IsComment(t) => CommentLine(w, t);
    case LacksDirective(t) => NoDirectiveLine(w, t);
    case LoneDirective(d) => LoneDirectiveLine(w, d);
    case LacksEquals(d, c, rest) => NoEqualsLine(w, d, c, rest);
    case LacksValue(d, c, p, b) => NoValueLine(w, d, c, p, b);
    case IsSetting(d, c, p, b, v, t) => SettingLine(w, d, c, p, b, v, t);
  }

  /** The leading blanks of a line, and the rest. */
  lemma {:induction false} TakeBlanks(s: seq<byte>) returns (w: seq<byte>, a: seq<byte>)
    ensures s == w + a && Blank(w) && (a == [] || a[0] !in BLANKS)
    decreases |s|
  {
    if s == [] || s[0] !in BLANKS {
      w, a := [], s;
    } else {
      w, a := TakeBlanks(s[1..]);
      w := [s[0]] + w;
    }
  }

  lemma BehindDirective(w: seq<byte>, d: seq<byte>, c: byte, rest: seq<byte>) returns (s: Shape)
    requires Blank(w) && Name(d) && (c in BLANKS || c == 61)
    ensures HasShape(w + d + [c] + rest, w, s)
  {
    var e := Span(rest, {EQUALS});
    if e == |rest| {
      s := LacksEquals(d, c, rest);
    } else {
      var p := rest[..e];
      var b, u := TakeBlanks(rest[e + 1..]);
      assert rest == p + [61] + (b + u);
      if u == [] {
        assert b + u == b;
        s := LacksValue(d, c, p, b);
      } else {
        var m := Span(u, BLANKS);
        assert u == u[..m] + u[m..];
        s := IsSetting(d, c, p, b, u[..m], u[m..]);
      }
    }
  }

  lemma EveryLineHasShape(line: seq<byte>) returns (w: seq<byte>, s: Shape)
    ensures HasShape(line, w, s)
  {
    var a;
    w, a := TakeBlanks(line);
    if a == [] {
      assert w + a == w;
      s := IsBlank;
    } else if a[0] == 35 {
      assert a == [35] + a[1..];
      Regrouped(w, [35], a[1..]);
      s := IsComment(a[1..]);
    } else if a[0] == 61 {
      assert a == [61] + a[1..];
      Regrouped(w, [61], a[1..]);
      s := LacksDirective(a[1..]);
    } else {
      var n := Span(a, BLANKS + {EQUALS});
      if n == |a| {
        s := LoneDirective(a);
      } else {
        assert a == a[..n] + [a[n]] + a[n + 1..];
        Regrouped(w, a[..n], [a[n]]);
        Regrouped(w, a[..n] + [a[n]], a[n + 1..]);
        s := BehindDirective(w, a[..n], a[n], a[n + 1..]);
      }
    }
  }

  /** A line says what one of its shapes means, and nothing else. */
  lemma ParseLineIsGrammar(line: seq<byte>, l: Line)
    ensures ParseLine(line) == l <==> exists w, s :: HasShape(line, w, s) && Meaning(s) == l
  {
    var w, s := EveryLineHasShape(line);
    ShapeIsMeaning(line, w, s);
    forall w', s' | HasShape(line, w', s') ensures ParseLine(line) == Meaning(s') {
      ShapeIsMeaning(line, w', s');
    }
  }

  /** The five names, letter by letter; every other name is unknown. */
  lemma DirectiveExactly(d: seq<byte>)
    ensures DirectiveOf(d) == Port <==> d == [112, 111, 114, 116]
    ensures DirectiveOf(d) == MaxClients <==> d == [109, 97, 120, 95, 99, 108, 105, 101, 110, 116, 115]
    ensures DirectiveOf(d) == MaxLifetime <==> d == [109, 97, 120, 95, 108, 105, 102, 101, 116, 105, 109, 101]
    ensures DirectiveOf(d) == SyslogIdent <==> d == [115, 121, 115, 108, 111, 103, 95, 105, 100, 101, 110, 116]
    ensures DirectiveOf(d) == SyslogFacility
            <==> d == [115, 121, 115, 108, 111, 103, 95, 102, 97, 99, 105, 108, 105, 116, 121]
  {
    AsciiNames();
  }

  lemma AsciiNames()
    ensures Ascii("port") == [112, 111, 114, 116]
    ensures Ascii("max_clients") == [109, 97, 120, 95, 99, 108, 105, 101, 110, 116, 115]
    ensures Ascii("max_lifetime") == [109, 97, 120, 95, 108, 105, 102, 101, 116, 105, 109, 101]
    ensures Ascii("syslog_ident") == [115, 121, 115, 108, 111, 103, 95, 105, 100, 101, 110, 116]
    ensures Ascii("syslog_facility") == [115, 121, 115, 108, 111, 103, 95, 102, 97, 99, 105, 108, 105, 116, 121]
  {
    AsciiPort();
    AsciiClients();
    AsciiLifetime();
    AsciiIdent();
    AsciiFacility();
  }

  lemma AsciiPort()
    ensures Ascii("port") == [112, 111, 114, 116]
  {
  }

  lemma AsciiClients()
    ensures Ascii("max_clients") == [109, 97, 120, 95, 99, 108, 105, 101, 110, 116, 115]
  {
  }

  lemma AsciiLifetime()
    ensures Ascii("max_lifetime") == [109, 97, 120, 95, 108, 105, 102, 101, 116, 105, 109, 101]
  {
  }

  lemma AsciiIdent()
    ensures Ascii("syslog_ident") == [115, 121, 115, 108, 111, 103, 95, 105, 100, 101, 110, 116]
  {
  }

  lemma AsciiFacility()
    ensures Ascii("syslog_facility") == [115, 121, 115, 108, 111, 103, 95, 102, 97, 99, 105, 108, 105, 116, 121]
  {
  }

  // ----- lines that change nothing, in a file

  lemma UpToNul(line: seq<byte>, k: nat)
    requires k <= |line| && 0 !in line[..k]
    ensures exists t :: CStr(line + [10]) == line[..k] + t
  {
    var s := line + [10];
    var n := Span(s, {0});
    forall i | 0 <= i < k ensures s[i] != 0 { assert s[i] == line[..k][i]; }
    assert n >= k;
    assert s[..n] == line[..k] + s[k..n];
  }

  /** A comment can be deleted from a file, wherever it stands. */
  lemma CommentInFile(s: Settings, a: seq<byte>, w: seq<byte>, t: seq<byte>, b: seq<byte>)
    requires a == [] || a[|a| - 1] == 10
    requires Blank(w) && 10 !in w && 10 !in t && |w| + 1 + |t| < 8190
    ensures ParseConfig(s, a + (w + [35] + t + [10]) + b) == ParseConfig(s, a + b)
  {
    var line, k := w + [35] + t, |w| + 1;
    assert line[..k] == w + [35];
    UpToNul(line, k);
    var rest :| CStr(line + [10]) == line[..k] + rest;
    CommentLine(w, rest);
    IgnorableInFile(s, a, line, b);
  }

  /** So can a blank line. */
  lemma BlankInFile(s: Settings, a: seq<byte>, w: seq<byte>, b: seq<byte>)
    requires a == [] || a[|a| - 1] == 10
    requires Blank(w) && 10 !in w && |w| < 8190
    ensures ParseConfig(s, a + (w + [10]) + b) == ParseConfig(s, a + b)
  {
    WholeLine(w);
    BlankLine(w + [10]);
    IgnorableInFile(s, a, w, b);
  }

  lemma WholeLine(line: seq<byte>)
    requires 0 !in line
    ensures CStr(line + [10]) == line + [10]
  {
    var s := line + [10];
    SpanIs(s, {0}, |s|);
    assert s[..|s|] == s;
  }

  /** And a well-formed line with a name that is none of the five. */
  lemma UnknownInFile(s: Settings, a: seq<byte>, line: seq<byte>, b: seq<byte>,
                      w: seq<byte>, d: seq<byte>, c: byte, p: seq<byte>, q: seq<byte>, v: seq<byte>, t: seq<byte>)
    requires a == [] || a[|a| - 1] == 10
    requires 10 !in line && 0 !in line && |line| < 8190
    requires line + [10] == w + d + [c] + (p + [61] + (q + (v + t)))
    requires Blank(w) && Name(d) && (c in BLANKS || c == 61) && 61 !in p && Blank(q) && Solid(v)
    requires t == [] || t[0] in BLANKS
    requires DirectiveOf(d) == Unknown
    ensures ParseConfig(s, a + (line + [10]) + b) == ParseConfig(s, a + b)
  {
    WholeLine(line);
    SettingLine(w, d, c, p, q, v, t);
    IgnorableInFile(s, a, line, b);
  }
}
