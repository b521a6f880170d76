/** The settings dump of iriscfg.c, read back by `parse_config()`. */
module ConfigDump {
  import opened Words
  import opened Text
  import opened ConfigFormat

  predicate Blank(s: seq<byte>) { forall i :: 0 <= i < |s| ==> s[i] in BLANKS }
  predicate Solid(s: seq<byte>) { s != [] && forall i :: 0 <= i < |s| ==> s[i] !in BLANKS }

  /** Something that can be the name of a directive. */
  predicate Name(s: seq<byte>) { Solid(s) && EQUALS !in s && s[0] != HASH }

  lemma {:induction false} SkipsBlank(w: seq<byte>, s: seq<byte>)
    requires Blank(w) && (s == [] || s[0] !in BLANKS)
    ensures SkipBlank(w + s) == s
  {
    if w == [] {
      assert w + s == s;
    } else {
      assert (w + s)[0] in BLANKS && (w + s)[1..] == w[1..] + s;
      SkipsBlank(w[1..], s);
    }
  }

  /** The part of a line behind the character that ended the directive. */
  lemma ValueParses(w1: seq<byte>, w2: seq<byte>, v: seq<byte>, w3: seq<byte>)
    requires Blank(w1) && Blank(w2) && Solid(v) && Blank(w3)
    ensures ValueIn(w1 + [EQUALS] + w2 + v + w3) == Value(v)
  {
    var rest := w1 + [EQUALS] + w2 + v + w3;
    SpanIs(rest, {EQUALS}, |w1|);
    assert rest[|w1| + 1..] == w2 + (v + w3);
    SkipsBlank(w2, v + w3);
    SpanIs(v + w3, BLANKS, |v|);
    assert (v + w3)[..|v|] == v;
  }

  /** The directive at the start of a line. */
  lemma NameParses(d: seq<byte>, tail: seq<byte>)
    requires Name(d) && tail != [] && tail[0] in BLANKS + {EQUALS}
    ensures var line := d + tail;
            && SkipBlank(line) == line && line[0] != HASH && Span(line, BLANKS + {EQUALS}) == |d|
            && line[..|d|] == d && line[|d| + 1..] == tail[1..]
  {
    NothingToSkip(d + tail);
    SpanIs(d + tail, BLANKS + {EQUALS}, |d|);
  }

  /** A directive, blanks, `=`, blanks, a value and blanks: read as written when something blank stands
      in front of the `=`. */
  lemma SettingParses(d: seq<byte>, w1: seq<byte>, w2: seq<byte>, v: seq<byte>, w3: seq<byte>)
    requires Name(d) && Blank(w1) && w1 != [] && Blank(w2) && Solid(v) && Blank(w3)
    ensures ParseLine(d + w1 + [EQUALS] + w2 + v + w3) == Setting(DirectiveOf(d), v)
  {
    var tail := w1 + [EQUALS] + w2 + v + w3;
    SettingGrouped(d, w1, w2, v, w3);
    NameParses(d, tail);
    ValueParses(w1[1..], w2, v, w3);
    Assembled(d + tail, |d|);
  }

  lemma SettingGrouped(d: seq<byte>, w1: seq<byte>, w2: seq<byte>, v: seq<byte>, w3: seq<byte>)
    requires w1 != []
    ensures d + w1 + [EQUALS] + w2 + v + w3 == d + (w1 + [EQUALS] + w2 + v + w3)
    ensures (w1 + [EQUALS] + w2 + v + w3)[1..] == w1[1..] + [EQUALS] + w2 + v + w3
  {
  }

  lemma NothingToSkip(s: seq<byte>)
    requires s != [] && s[0] !in BLANKS
    ensures SkipBlank(s) == s
  {
  }

  /** Without a blank the `=` is overwritten before it is looked for, and the line is malformed. */
  lemma EqualsOverwritten(d: seq<byte>, rest: seq<byte>)
    requires Name(d) && EQUALS !in rest
    ensures ParseLine(d + [EQUALS] + rest) == Malformed(2)
  {
    var line := d + [EQUALS] + rest;
    NothingToSkip(line);
    SpanIs(line, BLANKS + {EQUALS}, |d|);
    assert line[|d| + 1..] == rest;
    SpanIs(rest, {EQUALS}, |rest|);
  }

  /** Unless the value has an `=` of its own: the first one is taken for the missing one, and only what is behind it
      is read. */
  lemma EqualsMistaken(d: seq<byte>, w2: seq<byte>, p: seq<byte>, q: seq<byte>, w3: seq<byte>)
    requires Name(d) && Blank(w2) && EQUALS !in p && (q == [] || Solid(q)) && Blank(w3)
    ensures ParseLine(d + [EQUALS] + (w2 + p + [EQUALS] + (q + w3)))
         == if q == [] then Malformed(3) else Setting(DirectiveOf(d), q)
  {
    var rest := w2 + p + [EQUALS] + (q + w3);
    EndedName(d, rest);
    MistakenRest(w2 + p, q, w3);
    Assembled(d + [EQUALS] + rest, |d|);
  }

  lemma EndedName(d: seq<byte>, rest: seq<byte>)
    requires Name(d)
    ensures var line := d + [EQUALS] + rest;
            && SkipBlank(line) == line && line[0] != HASH && Span(line, BLANKS + {EQUALS}) == |d|
            && line[..|d|] == d && line[|d| + 1..] == rest
  {
    assert d + [EQUALS] + rest == d + ([EQUALS] + rest);
    NameParses(d, [EQUALS] + rest);
    assert ([EQUALS] + rest)[1..] == rest;
  }

  lemma MistakenRest(p: seq<byte>, q: seq<byte>, w3: seq<byte>)
    requires EQUALS !in p && (q == [] || Solid(q)) && Blank(w3)
    ensures ValueIn(p + [EQUALS] + (q + w3)) == if q == [] then NoValue(3) else Value(q)
  {
    var rest := p + [EQUALS] + (q + w3);
    SpanIs(rest, {EQUALS}, |p|);
    assert rest[|p| + 1..] == q + w3;
    if q == [] {
      assert w3 + [] == w3 == q + w3;
      SkipsBlank(w3, []);
    } else {
      NothingToSkip(q + w3);
      SpanIs(q + w3, BLANKS, |q|);
      assert (q + w3)[..|q|] == q;
    }
  }

  /** A line is put together from its directive and what is behind it. */
  lemma Assembled(line: seq<byte>, n: nat)
    requires line != [] && SkipBlank(line) == line && line[0] != HASH
    requires n == Span(line, BLANKS + {EQUALS}) && 0 < n < |line|
    ensures ParseLine(line) == SettingWith(line[..n], ValueIn(line[n + 1..]))
  {
  }

  /** So a directive with its value, whatever it is, is read as written exactly when a blank stands in front of
      the `=`. */
  lemma AcceptedWithBlank(d: seq<byte>, w1: seq<byte>, w2: seq<byte>, v: seq<byte>, w3: seq<byte>)
    requires Name(d) && Blank(w1) && Blank(w2) && Solid(v) && Blank(w3)
    ensures ParseLine(d + w1 + [EQUALS] + w2 + v + w3) == Setting(DirectiveOf(d), v) <==> w1 != []
  {
    if w1 != [] {
      SettingParses(d, w1, w2, v, w3);
    } else {
      var rest := w2 + v + w3;
      assert d + w1 + [EQUALS] + w2 + v + w3 == d + [EQUALS] + rest;
      var k := Span(v, {EQUALS});
      if k == |v| {
        EqualsOverwritten(d, rest);
      } else {
        assert rest == w2 + v[..k] + [EQUALS] + (v[k + 1..] + w3);
        EqualsMistaken(d, w2, v[..k], v[k + 1..], w3);
      }
    }
  }

  /** `port=a=b` sets the port to `b`. */
  lemma MisreadExample()
    ensures ParseLine(Ascii("port") + [EQUALS] + (Ascii("a") + [EQUALS] + Ascii("b"))) == Setting(Port, Ascii("b"))
  {
    var none: seq<byte> := [];
    Names();
    LetteredName("port");
    LetteredName("a");
    LetteredName("b");
    DirectiveNames();
    assert Ascii("a") + [EQUALS] + Ascii("b") == none + Ascii("a") + [EQUALS] + (Ascii("b") + none);
    EqualsMistaken(Ascii("port"), none, Ascii("a"), Ascii("b"), none);
  }

  // ----- numbers

  /** The digits of a number. */
  function Digits(n: nat): (s: seq<byte>)
    ensures s != [] && forall i :: 0 <= i < |s| ==> IsDigit(s[i])
  {
    var d: byte := ZERO + n % 10;
    if n < 10 then [d] else Digits(n / 10) + [d]
  }

  /** `%i`. */
  function Decimal(n: int): (s: seq<byte>) {
    if n < 0 then [MINUS] + Digits(-n) else Digits(n)
  }

  /** The cast to `int`. */
  function ToInt32(n: int): int {
    var m := n % 0x1_0000_0000;
    if m < 0x8000_0000 then m else m - 0x1_0000_0000
  }

  lemma {:induction false} DigitsAppend(s: seq<byte>, c: byte, acc: nat)
    requires (forall i :: 0 <= i < |s| ==> IsDigit(s[i])) && IsDigit(c)
    ensures DigitsValue(s + [c], acc) == 10 * DigitsValue(s, acc) + DigitOf(c)
    decreases |s|
  {
    if s == [] {
      assert s + [c] == [c] && [c][1..] == [];
    } else {
      assert (s + [c])[1..] == s[1..] + [c];
      DigitsAppend(s[1..], c, 10 * acc + DigitOf(s[0]));
    }
  }

  lemma {:induction false} DigitsRead(n: nat)
    ensures DigitsValue(Digits(n), 0) == n
  {
    var d: byte := ZERO + n % 10;
    if n < 10 {
      assert [d][1..] == [];
    } else {
      DigitsRead(n / 10);
      DigitsAppend(Digits(n / 10), d, 0);
    }
  }

  /** A printed number reads back, as long as it is a `long`. */
  lemma DecimalReads(n: int)
    requires LONG_MIN <= n <= LONG_MAX
    ensures Strtol(Decimal(n)) == Number(n, true)
  {
    var s := Decimal(n);
    if n < 0 {
      DigitsRead(-n);
      assert s[1..] == Digits(-n);
    } else {
      DigitsRead(n);
    }
  }

  function Pow10(k: nat): nat { if k == 0 then 1 else 10 * Pow10(k - 1) }

  lemma {:induction false} DigitsLength(n: nat, k: nat)
    requires k > 0 && n < Pow10(k)
    ensures |Digits(n)| <= k
    decreases k
  {
    if n >= 10 { DigitsLength(n / 10, k - 1); }
  }

  lemma DecimalLength(n: int)
    requires -0x8000_0000 <= n <= 0xFFFF_FFFF
    ensures |Decimal(n)| <= 11
  {
    assert Pow10(5) == 100_000;
    assert Pow10(10) == 10_000_000_000;
    DigitsLength(if n < 0 then -n else n, 10);
  }

  // ----- the dump

  function Spaces(n: nat): (s: seq<byte>)
    ensures |s| == n && Blank(s)
  {
    seq(n, _ => SPACE)
  }

  /** `printf("<name, padded to 16> = %s\n", value)` without the newline. */
  function DumpLine(name: seq<byte>, value: seq<byte>): seq<byte>
    requires |name| < 16
  {
    name + Spaces(16 - |name|) + [EQUALS] + [SPACE] + value
  }

  /** The value printed for each of the six lines. */
  function DumpValues(s: Settings, timeout: byte): (vs: seq<(seq<byte>, seq<byte>)>)
    ensures |vs| == 6
  {
    [(Ascii("port"), s.port),
     (Ascii("timeout"), Decimal(timeout)),
     (Ascii("max_clients"), Decimal(ToInt32(s.maxClients))),
     (Ascii("max_lifetime"), Decimal(ToInt32(s.maxLifetime))),
     (Ascii("syslog_ident"), s.ident),
     (Ascii("syslog_facility"), s.facility)]
  }

  function DumpAll(vs: seq<(seq<byte>, seq<byte>)>): seq<byte>
    requires forall i :: 0 <= i < |vs| ==> |vs[i].0| < 16
  {
    if vs == [] then [] else DumpLine(vs[0].0, vs[0].1) + [NEWLINE] + DumpAll(vs[1..])
  }

  /** What iriscfg prints. */
  function Dump(s: Settings, timeout: byte): seq<byte> { DumpAll(DumpValues(s, timeout)) }

  /** The longest value of which nothing is left for a second read. */
  const MAX_VALUE: nat := 8172

  /** A string a line of a configuration file can set. */
  predicate Word(v: seq<byte>) { Solid(v) && 0 !in v && |v| <= MAX_READ }

  /** As much of a value as the first read of its line takes in. */
  function Whole(v: seq<byte>): (w: seq<byte>)
    ensures w <= v && |w| <= MAX_VALUE && (|v| <= MAX_VALUE <==> w == v)
  {
    if |v| <= MAX_VALUE then v else v[..MAX_VALUE]
  }

  /** What a second read takes in, the newline at least, if the first one filled the buffer. */
  function Remainder(v: seq<byte>): seq<seq<byte>> {
    if |v| < MAX_VALUE then [] else [v[MAX_VALUE..] + [NEWLINE]]
  }

  lemma LineReads(body: seq<byte>, rest: seq<byte>)
    requires NEWLINE !in body && 0 !in body && |body| < MAX_READ
    ensures Lines(body + [NEWLINE] + rest) == [body + [NEWLINE]] + Lines(rest)
  {
    var whole := body + [NEWLINE];
    var s := whole + rest;
    SpanIs(s, {NEWLINE}, |body|);
    assert ReadLength(s) == |whole|;
    assert s[..|whole|] == whole && s[|whole|..] == rest;
    SpanIs(whole, {0}, |whole|);
    assert whole[..|whole|] == whole;
    assert CStr(whole) == whole;
    assert s != [];
  }

  predicate Lettered(s: string) { s != "" && forall i :: 0 <= i < |s| ==> 'a' <= s[i] <= 'z' || s[i] == '_' }

  lemma LetteredName(s: string)
    requires Lettered(s)
    ensures Name(Ascii(s)) && 0 !in Ascii(s)
  {
  }

  lemma Names()
    ensures Lettered("port") && Lettered("timeout") && Lettered("max_clients") && Lettered("max_lifetime")
    ensures Lettered("syslog_ident") && Lettered("syslog_facility")
  {
  }

  lemma DirectiveNames()
    ensures DirectiveOf(Ascii("port")) == Port && DirectiveOf(Ascii("timeout")) == Unknown
    ensures DirectiveOf(Ascii("max_clients")) == MaxClients && DirectiveOf(Ascii("max_lifetime")) == MaxLifetime
    ensures DirectiveOf(Ascii("syslog_ident")) == SyslogIdent && DirectiveOf(Ascii("syslog_facility")) == SyslogFacility
  {
    assert Ascii("max_lifetime")[0] != Ascii("syslog_ident")[0];
  }

  lemma DumpLineClean(name: seq<byte>, value: seq<byte>)
    requires Name(name) && 0 !in name && |name| < 16 && Word(value)
    ensures NEWLINE !in DumpLine(name, value) && 0 !in DumpLine(name, value)
    ensures |DumpLine(name, value)| == 18 + |value|
  {
    var body := DumpLine(name, value);
    var blank := Spaces(16 - |name|);
    forall i | 0 <= i < |body| ensures body[i] != NEWLINE && body[i] != 0 {
      assert body[i] in name || body[i] in blank || body[i] == EQUALS || body[i] == SPACE || body[i] in value;
    }
  }

  lemma DumpLineParses(name: seq<byte>, value: seq<byte>, w3: seq<byte>)
    requires Name(name) && |name| < 16 && Solid(value) && Blank(w3)
    ensures ParseLine(DumpLine(name, value) + w3) == Setting(DirectiveOf(name), value)
  {
    SettingParses(name, Spaces(16 - |name|), [SPACE], value, w3);
  }

  /** A line that fills the buffer. */
  lemma FullLineReads(body: seq<byte>, rest: seq<byte>)
    requires NEWLINE !in body && 0 !in body && |body| == MAX_READ
    ensures Lines(body + rest) == [body] + Lines(rest)
  {
    var s := body + rest;
    forall k | 0 <= k < MAX_READ ensures s[k] != NEWLINE { assert s[k] in body; }
    assert Span(s, {NEWLINE}) >= MAX_READ;
    assert ReadLength(s) == MAX_READ;
    assert s[..MAX_READ] == body && s[MAX_READ..] == rest;
    SpanIs(body, {0}, |body|);
    assert CStr(body) == body;
  }

  /** One line of the dump, read back: one line, or two if its value is too long. */
  lemma DumpLineReads(name: seq<byte>, value: seq<byte>, rest: seq<byte>)
    requires Name(name) && 0 !in name && |name| < 16 && Word(value)
    ensures exists first :: ParseLine(first) == Setting(DirectiveOf(name), Whole(value))
                         && Lines(DumpLine(name, value) + [NEWLINE] + rest) == [first] + Remainder(value) + Lines(rest)
  {
    DumpLineClean(name, value);
    if |value| < MAX_VALUE {
      var first := DumpLine(name, value) + [NEWLINE];
      LineReads(DumpLine(name, value), rest);
      DumpLineParses(name, value, [NEWLINE]);
      assert [first] + Remainder(value) == [first];
    } else {
      LongLineReads(name, value, rest);
    }
  }

  lemma LongLineReads(name: seq<byte>, value: seq<byte>, rest: seq<byte>)
    requires Name(name) && 0 !in name && |name| < 16 && Word(value) && |value| >= MAX_VALUE
    ensures ParseLine(DumpLine(name, Whole(value))) == Setting(DirectiveOf(name), Whole(value))
    ensures Lines(DumpLine(name, value) + [NEWLINE] + rest)
         == [DumpLine(name, Whole(value))] + Remainder(value) + Lines(rest)
  {
    var first, tail := DumpLine(name, value[..MAX_VALUE]), value[MAX_VALUE..];
    var none: seq<byte> := [];
    assert value == value[..MAX_VALUE] + tail && Whole(value) == value[..MAX_VALUE];
    DumpLineClean(name, value[..MAX_VALUE]);
    DumpLineParses(name, value[..MAX_VALUE], none);
    assert first + none == first;
    LineInTwo(name, value[..MAX_VALUE], tail, rest);
    FullLineReads(first, tail + [NEWLINE] + rest);
    forall i | 0 <= i < |tail| ensures tail[i] != NEWLINE && tail[i] != 0 { assert tail[i] in value; }
    LineReads(tail, rest);
    Regrouped([first], [tail + [NEWLINE]], Lines(rest));
  }

  lemma LineInTwo(name: seq<byte>, head: seq<byte>, tail: seq<byte>, rest: seq<byte>)
    requires |name| < 16
    ensures DumpLine(name, head + tail) + [NEWLINE] + rest == DumpLine(name, head) + (tail + [NEWLINE] + rest)
  {
    var front := name + Spaces(16 - |name|) + [EQUALS] + [SPACE];
    Regrouped(front, head, tail);
    Regrouped(front + head, tail, [NEWLINE]);
    Regrouped(front + head, tail + [NEWLINE], rest);
  }
}
