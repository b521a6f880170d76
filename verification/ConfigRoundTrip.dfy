/** Printing the settings and reading the print back. */
module ConfigRoundTrip {
  import opened Words
  import opened Text
  import opened ConfigFormat
  import opened ConfigDump

  predicate Readable(e: (seq<byte>, seq<byte>)) {
    Name(e.0) && 0 !in e.0 && |e.0| < 16 && Word(e.1)
  }

  predicate AllReadable(vs: seq<(seq<byte>, seq<byte>)>) {
    forall i :: 0 <= i < |vs| ==> |vs[i].0| < 16 && Readable(vs[i])
  }

  /** What a list of names and values says. */
  function Meant(vs: seq<(seq<byte>, seq<byte>)>): (ls: seq<Line>)
    ensures |ls| == |vs|
  {
    if vs == [] then [] else [Setting(DirectiveOf(vs[0].0), vs[0].1)] + Meant(vs[1..])
  }

  /** What its print says: of each value as much as one read takes in, and what the remainders happen to say. */
  function Said(vs: seq<(seq<byte>, seq<byte>)>): seq<Line> {
    if vs == [] then []
    else [Setting(DirectiveOf(vs[0].0), Whole(vs[0].1))] + ParseLines(Remainder(vs[0].1)) + Said(vs[1..])
  }

  /** Any list of printed lines reads back so. */
  lemma {:induction false} DumpAllReads(vs: seq<(seq<byte>, seq<byte>)>)
    requires AllReadable(vs)
    ensures ParseLines(Lines(DumpAll(vs))) == Said(vs)
    decreases |vs|
  {
    if vs != [] {
      var rest := DumpAll(vs[1..]);
      DumpAllReads(vs[1..]);
      DumpLineReads(vs[0].0, vs[0].1, rest);
      var first :| ParseLine(first) == Setting(DirectiveOf(vs[0].0), Whole(vs[0].1))
                && Lines(DumpLine(vs[0].0, vs[0].1) + [NEWLINE] + rest) == [first] + Remainder(vs[0].1) + Lines(rest);
      ParseLinesAppend([first] + Remainder(vs[0].1), Lines(rest));
      ParseLinesAppend([first], Remainder(vs[0].1));
      assert ParseLines([first]) == [ParseLine(first)];
    }
  }

  // ----- values that fit

  predicate AllWhole(vs: seq<(seq<byte>, seq<byte>)>) { forall i :: 0 <= i < |vs| ==> |vs[i].1| <= MAX_VALUE }

  lemma NewlineIsSkipped()
    ensures ParseLine([NEWLINE]) == Skipped
  {
    var none: seq<byte> := [];
    assert [NEWLINE] + none == [NEWLINE];
    SkipsBlank([NEWLINE], none);
  }

  lemma WholeRemainder(v: seq<byte>, s: Settings, more: seq<Line>)
    requires |v| <= MAX_VALUE
    ensures ApplyAll(s, ParseLines(Remainder(v)) + more) == ApplyAll(s, more)
  {
    if |v| < MAX_VALUE {
      assert ParseLines(Remainder(v)) + more == more;
    } else {
      assert v[MAX_VALUE..] + [NEWLINE] == [NEWLINE];
      NewlineIsSkipped();
      assert ParseLines(Remainder(v)) == [Skipped];
      assert ([Skipped] + more)[1..] == more;
    }
  }

  /** A print of values that fit does what the list says. */
  lemma {:induction false} SaidIsMeant(s: Settings, vs: seq<(seq<byte>, seq<byte>)>)
    requires AllWhole(vs)
    ensures ApplyAll(s, Said(vs)) == ApplyAll(s, Meant(vs))
    decreases |vs|
  {
    if vs != [] {
      var l, more := Setting(DirectiveOf(vs[0].0), vs[0].1), ParseLines(Remainder(vs[0].1)) + Said(vs[1..]);
      assert Said(vs) == [l] + more && ([l] + more)[1..] == more;
      assert Meant(vs)[1..] == Meant(vs[1..]);
      var p := ApplyLine(s, l);
      if p.code == 0 {
        WholeRemainder(vs[0].1, p.settings, Said(vs[1..]));
        SaidIsMeant(p.settings, vs[1..]);
      }
    }
  }

  // ----- values that do not fit

  /** No line sets anything to a value longer than one read of a dumped line takes in. */
  predicate Modest(ls: seq<Line>) {
    forall i :: 0 <= i < |ls| && ls[i].Setting? ==> |ls[i].value| <= MAX_VALUE
  }

  lemma ValueIsShorter(line: seq<byte>)
    requires ParseLine(line).Setting?
    ensures |ParseLine(line).value| < |line|
  {
  }

  lemma {:induction false} SaidIsModest(vs: seq<(seq<byte>, seq<byte>)>)
    requires AllReadable(vs)
    ensures Modest(Said(vs))
    decreases |vs|
  {
    if vs != [] {
      SaidIsModest(vs[1..]);
      var tail := Remainder(vs[0].1);
      forall i | 0 <= i < |tail| && ParseLine(tail[i]).Setting? ensures |ParseLine(tail[i]).value| <= MAX_VALUE {
        ValueIsShorter(tail[i]);
      }
      assert Modest(ParseLines(tail));
    }
  }

  /** Something a list of names and values sets, its print sets too. */
  lemma {:induction false} SaidMentions(vs: seq<(seq<byte>, seq<byte>)>, i: nat)
    requires i < |vs|
    ensures Setting(DirectiveOf(vs[i].0), Whole(vs[i].1)) in Said(vs)
    decreases i
  {
    if i == 0 {
      assert Said(vs)[0] == Setting(DirectiveOf(vs[0].0), Whole(vs[0].1));
    } else {
      SaidMentions(vs[1..], i - 1);
    }
  }

  lemma {:induction false} LastOfModest(ls: seq<Line>, l: Line)
    requires Modest(ls) && l in ls && l.Setting?
    ensures Last(ls, l.directive).Some? && |Last(ls, l.directive).value| <= MAX_VALUE
    decreases |ls|
  {
    var n := |ls| - 1;
    if !(ls[n].Setting? && ls[n].directive == l.directive) {
      assert l in ls[..n];
      LastOfModest(ls[..n], l);
    }
  }

  // ----- the settings

  lemma {:induction false} DigitsAreWord(n: int)
    requires |Decimal(n)| <= MAX_READ
    ensures Word(Decimal(n))
  {
    var s := Decimal(n);
    forall i | 0 <= i < |s| ensures s[i] !in BLANKS && s[i] != 0 {
      assert s[i] == MINUS || IsDigit(s[i]);
    }
  }

  lemma NumberFits(n: int)
    requires -0x8000_0000 <= n < 0x8000_0000
    ensures Word(Decimal(n)) && |Decimal(n)| <= MAX_VALUE && Strtol(Decimal(n)) == Number(n, true)
  {
    DecimalLength(n);
    DigitsAreWord(n);
    DecimalReads(n);
  }

  /** Every string is one a line can set, and the facility is in lower case. */
  predicate Wordy(s: Settings) {
    Word(s.port) && Word(s.ident) && Word(s.facility) && Lower(s.facility) == s.facility
  }

  /** Every string fits a line of the dump. */
  predicate Fitting(s: Settings) {
    |s.port| <= MAX_VALUE && |s.ident| <= MAX_VALUE && |s.facility| <= MAX_VALUE
  }

  /** The six directives of the dump, with their values, one after the other. */
  function DumpedLines(s: Settings, timeout: seq<byte>, clients: seq<byte>, lifetime: seq<byte>): (ls: seq<Line>)
    ensures |ls| == 6
  {
    [Setting(Port, s.port), Setting(Unknown, timeout), Setting(MaxClients, clients), Setting(MaxLifetime, lifetime),
     Setting(SyslogIdent, s.ident), Setting(SyslogFacility, s.facility)]
  }

  lemma MeantSix(vs: seq<(seq<byte>, seq<byte>)>)
    requires |vs| == 6
    ensures forall i :: 0 <= i < 6 ==> Meant(vs)[i] == Setting(DirectiveOf(vs[i].0), vs[i].1)
  {
    forall i | 0 <= i < 6 ensures Meant(vs)[i] == Setting(DirectiveOf(vs[i].0), vs[i].1) { MeantAt(vs, i); }
  }

  lemma {:induction false} MeantAt(vs: seq<(seq<byte>, seq<byte>)>, i: nat)
    requires i < |vs|
    ensures Meant(vs)[i] == Setting(DirectiveOf(vs[i].0), vs[i].1)
    decreases i
  {
    if i > 0 { MeantAt(vs[1..], i - 1); }
  }

  lemma DumpMeans(s: Settings, timeout: byte)
    ensures Meant(DumpValues(s, timeout))
         == DumpedLines(s, Decimal(timeout), Decimal(ToInt32(s.maxClients)), Decimal(ToInt32(s.maxLifetime)))
  {
    MeantSix(DumpValues(s, timeout));
    DirectiveNames();
  }

  lemma DumpIsReadable(s: Settings, timeout: byte)
    requires Wordy(s)
    ensures AllReadable(DumpValues(s, timeout))
    ensures AllWhole(DumpValues(s, timeout)) <==> Fitting(s)
  {
    var vs := DumpValues(s, timeout);
    Names();
    LetteredName("port");
    LetteredName("timeout");
    LetteredName("max_clients");
    LetteredName("max_lifetime");
    LetteredName("syslog_ident");
    LetteredName("syslog_facility");
    NumberFits(timeout);
    NumberFits(ToInt32(s.maxClients));
    NumberFits(ToInt32(s.maxLifetime));
    if AllWhole(vs) {
      assert |vs[0].1| <= MAX_VALUE && |vs[4].1| <= MAX_VALUE && |vs[5].1| <= MAX_VALUE;
    }
  }

  /** What is restored: everything, but the lifetime only as far as an `int` holds it. */
  function Restored(s: Settings): Settings {
    s.(maxLifetime := ToInt32(s.maxLifetime), globalLifetime := ToInt32(s.maxLifetime))
  }

  lemma AppliedInTurn(s0: Settings, ls: seq<Line>)
    requires |ls| == 6 && forall i :: 0 <= i < 6 ==> ls[i].Setting?
    requires ls[0].directive == Port && ls[1].directive == Unknown
    requires ls[2].directive == MaxClients && Strtol(ls[2].value).ok
    requires ls[3].directive == MaxLifetime && Strtol(ls[3].value).ok
    requires ls[4].directive == SyslogIdent && ls[5].directive == SyslogFacility
    ensures ApplyAll(s0, ls)
         == Parsed(0, Settings(ls[0].value, ToUint32(Strtol(ls[2].value).value), Strtol(ls[3].value).value, ls[4].value,
                               Lower(ls[5].value), Strtol(ls[3].value).value))
  {
    var s1 := s0.(port := ls[0].value);
    var s2 := s1.(maxClients := ToUint32(Strtol(ls[2].value).value));
    var s3 := s2.(maxLifetime := Strtol(ls[3].value).value, globalLifetime := Strtol(ls[3].value).value);
    var s4 := s3.(ident := ls[4].value);
    NextApplied(s0, ls, 0, s1);
    NextApplied(s1, ls, 1, s1);
    NextApplied(s1, ls, 2, s2);
    NextApplied(s2, ls, 3, s3);
    NextApplied(s3, ls, 4, s4);
    NextApplied(s4, ls, 5, s4.(facility := Lower(ls[5].value)));
    assert ls[0..] == ls;
  }

  lemma NextApplied(s: Settings, ls: seq<Line>, i: nat, t: Settings)
    requires i < |ls| && ApplyLine(s, ls[i]) == Parsed(0, t)
    ensures ApplyAll(s, ls[i..]) == ApplyAll(t, ls[i + 1..])
  {
    assert ls[i..][1..] == ls[i + 1..];
  }

  lemma WordsReturn(n: uint32)
    ensures ToUint32(ToInt32(n)) == n
  {
  }

  lemma DumpedApplied(s0: Settings, s: Settings, timeout: seq<byte>, clients: seq<byte>, lifetime: seq<byte>)
    requires Lower(s.facility) == s.facility
    requires Strtol(clients).ok && ToUint32(Strtol(clients).value) == s.maxClients
    requires Strtol(lifetime) == Number(ToInt32(s.maxLifetime), true)
    ensures ApplyAll(s0, DumpedLines(s, timeout, clients, lifetime)) == Parsed(0, Restored(s))
  {
    AppliedInTurn(s0, DumpedLines(s, timeout, clients, lifetime));
  }

  /** A dump of strings that fit parses, whatever was set before. */
  lemma FittingDump(s0: Settings, s: Settings, timeout: byte)
    requires Wordy(s) && Fitting(s)
    ensures ParseConfig(s0, Dump(s, timeout)) == Parsed(0, Restored(s))
  {
    var vs := DumpValues(s, timeout);
    DumpIsReadable(s, timeout);
    DumpAllReads(vs);
    SaidIsMeant(s0, vs);
    DumpMeans(s, timeout);
    NumberFits(ToInt32(s.maxClients));
    NumberFits(ToInt32(s.maxLifetime));
    WordsReturn(s.maxClients);
    DumpedApplied(s0, s, Decimal(timeout), Decimal(ToInt32(s.maxClients)), Decimal(ToInt32(s.maxLifetime)));
  }

  /** A dump with a string that does not fit fails, or cuts that string. */
  lemma CutDump(s0: Settings, s: Settings, timeout: byte)
    requires Wordy(s)
    ensures var p := ParseConfig(s0, Dump(s, timeout)); p.code == 0 ==> Fitting(p.settings)
  {
    var vs := DumpValues(s, timeout);
    var ls := Said(vs);
    DumpIsReadable(s, timeout);
    DumpAllReads(vs);
    if ApplyAll(s0, ls).code == 0 {
      SaidIsModest(vs);
      SaidMentions(vs, 0);
      SaidMentions(vs, 4);
      SaidMentions(vs, 5);
      DirectiveNames();
      LastOfModest(ls, Setting(Port, Whole(s.port)));
      LastOfModest(ls, Setting(SyslogIdent, Whole(s.ident)));
      LastOfModest(ls, Setting(SyslogFacility, Whole(s.facility)));
      LastWins(s0, ls);
    }
  }

  /** The dump of any settings a file can make parses and gives them back, the lifetime as far as an `int` holds it,
      exactly when every string fits; whatever was set before. */
  lemma DumpThenParse(s0: Settings, s: Settings, timeout: byte)
    requires Wordy(s)
    ensures ParseConfig(s0, Dump(s, timeout)) == Parsed(0, Restored(s)) <==> Fitting(s)
  {
    CutDump(s0, s, timeout);
    if Fitting(s) { FittingDump(s0, s, timeout); }
  }

  /** The lifetime comes back exactly when it is an `int` and in force. */
  lemma RestoredExactly(s: Settings)
    ensures Restored(s) == s <==> -0x8000_0000 <= s.maxLifetime < 0x8000_0000 && s.globalLifetime == s.maxLifetime
  {
  }

  // ----- what a configuration file sets

  lemma {:induction false} SkipIsSuffix(s: seq<byte>)
    ensures exists k :: 0 <= k <= |s| && SkipBlank(s) == s[k..]
    decreases |s|
  {
    if s != [] && IsSpace(s[0]) {
      SkipIsSuffix(s[1..]);
      var k :| 0 <= k <= |s[1..]| && SkipBlank(s[1..]) == s[1..][k..];
      assert s[1..][k..] == s[k + 1..];
    } else {
      assert SkipBlank(s) == s[0..];
    }
  }

  lemma NoNulInSkip(s: seq<byte>)
    requires 0 !in s
    ensures 0 !in SkipBlank(s)
  {
    SkipIsSuffix(s);
  }

  lemma ValueIsWord(line: seq<byte>)
    requires 0 !in line && |line| <= MAX_READ && ParseLine(line).Setting?
    ensures Word(ParseLine(line).value)
  {
    var a := SkipBlank(line);
    NoNulInSkip(line);
    ValueIsShorter(line);
    var n := Span(a, BLANKS + {EQUALS});
    var rest := a[n + 1..];
    var e := Span(rest, {EQUALS});
    NoNulInSkip(rest[e + 1..]);
  }

  lemma LowerIsWord(v: seq<byte>)
    requires Word(v)
    ensures Word(Lower(v)) && Lower(Lower(v)) == Lower(v)
  {
  }

  predicate Values(ls: seq<Line>) { forall i :: 0 <= i < |ls| && ls[i].Setting? ==> Word(ls[i].value) }

  lemma {:induction false} LinesAreStrings(file: seq<byte>)
    ensures forall i :: 0 <= i < |Lines(file)| ==> 0 !in Lines(file)[i] && |Lines(file)[i]| <= MAX_READ
    decreases |file|
  {
    if file != [] {
      LinesAreStrings(file[ReadLength(file)..]);
    }
  }

  lemma FileValues(file: seq<byte>)
    ensures Values(ParseLines(Lines(file)))
  {
    LinesAreStrings(file);
    var ls := Lines(file);
    forall i | 0 <= i < |ls| && ParseLine(ls[i]).Setting? ensures Word(ParseLine(ls[i]).value) {
      ValueIsWord(ls[i]);
    }
  }

  lemma {:induction false} ApplyKeepsWords(s: Settings, ls: seq<Line>)
    requires Wordy(s) && Values(ls)
    ensures Wordy(ApplyAll(s, ls).settings)
    decreases |ls|
  {
    if ls != [] {
      if ls[0].Setting? { LowerIsWord(ls[0].value); }
      var p := ApplyLine(s, ls[0]);
      if p.code == 0 { ApplyKeepsWords(p.settings, ls[1..]); }
    }
  }

  /** `server_init()`. */
  function Defaults(lifetime: int): Settings {
    Settings(Ascii("5668"), 16 * 1024, lifetime, Ascii("iris"), Ascii("daemon"), lifetime)
  }

  /** A configuration that was read into the defaults and printed is read back unchanged, by a server in any state,
      for every file that parses, exactly when every string fits its line of the dump and the lifetime an `int`. */
  lemma ParseThenDump(lifetime: int, file: seq<byte>, t0: Settings, timeout: byte)
    requires ParseConfig(Defaults(lifetime), file).code == 0
    ensures var s := ParseConfig(Defaults(lifetime), file).settings;
            ParseConfig(t0, Dump(s, timeout)) == Parsed(0, s)
            <==> Fitting(s) && -0x8000_0000 <= s.maxLifetime < 0x8000_0000
  {
    var s0 := Defaults(lifetime);
    var ls := ParseLines(Lines(file));
    var s := ParseConfig(s0, file).settings;
    DefaultsArePrintable(lifetime);
    FileValues(file);
    ApplyKeepsWords(s0, ls);
    LifetimesAgree(s0, ls);
    CutDump(t0, s, timeout);
    if Fitting(s) {
      FittingDump(t0, s, timeout);
      RestoredExactly(s);
    }
  }

  // ----- settings that are not restored

  /** A file of one line. */
  lemma OneLineFile(s: Settings, body: seq<byte>)
    requires NEWLINE !in body && 0 !in body && |body| < MAX_READ
    ensures ParseConfig(s, body + [NEWLINE]) == ApplyLine(s, ParseLine(body + [NEWLINE]))
  {
    var whole := body + [NEWLINE];
    SpanIs(whole, {0}, |whole|);
    assert whole[..|whole|] == whole;
    assert CStr(whole) == whole;
    OneLine(body);
    var l := ParseLine(whole);
    assert ParseLines([whole]) == [l] && [l][1..] == [];
    assert ApplyAll(s, [l]) == ApplyLine(s, l);
  }

  lemma OneSetting(s: Settings, name: seq<byte>, value: seq<byte>)
    requires Name(name) && 0 !in name && |name| < 16 && Word(value) && |value| < MAX_VALUE
    ensures ParseConfig(s, DumpLine(name, value) + [NEWLINE]) == Apply(s, DirectiveOf(name), value)
  {
    DumpLineClean(name, value);
    OneLineFile(s, DumpLine(name, value));
    DumpLineParses(name, value, [NEWLINE]);
  }

  /** `max_lifetime = 3000000000` parses, and is printed as another number. */
  lemma LongLifetimeExample(t0: Settings, timeout: byte)
    ensures var file := DumpLine(Ascii("max_lifetime"), Decimal(3_000_000_000)) + [NEWLINE];
            var p := ParseConfig(Defaults(20), file);
            p.code == 0 && p.settings.maxLifetime == 3_000_000_000
            && ParseConfig(t0, Dump(p.settings, timeout)) != Parsed(0, p.settings)
  {
    var name, value := Ascii("max_lifetime"), Decimal(3_000_000_000);
    Names();
    LetteredName("max_lifetime");
    DirectiveNames();
    DecimalLength(3_000_000_000);
    DigitsAreWord(3_000_000_000);
    DecimalReads(3_000_000_000);
    OneSetting(Defaults(20), name, value);
    ParseThenDump(20, DumpLine(name, value) + [NEWLINE], t0, timeout);
  }

  /** A port of 8173 letters fits a line of the file, but not one of the dump. */
  lemma LongPortExample(t0: Settings, timeout: byte)
    ensures var value: seq<byte> := seq(8173, _ => 'x' as int);
            var file := Ascii("port") + [SPACE] + [EQUALS] + value + [NEWLINE];
            var p := ParseConfig(Defaults(20), file);
            p == Parsed(0, Defaults(20).(port := value))
            && ParseConfig(t0, Dump(p.settings, timeout)) != Parsed(0, p.settings)
  {
    var value: seq<byte> := seq(8173, _ => 'x' as int);
    Names();
    LetteredName("port");
    DirectiveNames();
    TightSetting(Defaults(20), Ascii("port"), value);
    ParseThenDump(20, Ascii("port") + [SPACE] + [EQUALS] + value + [NEWLINE], t0, timeout);
  }

  /** One directive, set with as few characters as possible. */
  lemma TightSetting(s: Settings, name: seq<byte>, value: seq<byte>)
    requires Name(name) && 0 !in name && Word(value) && |name| + |value| < MAX_READ - 2
    ensures ParseConfig(s, name + [SPACE] + [EQUALS] + value + [NEWLINE]) == Apply(s, DirectiveOf(name), value)
  {
    var none: seq<byte> := [];
    TightClean(name, value);
    OneLineFile(s, name + [SPACE] + [EQUALS] + value);
    SettingParses(name, [SPACE], none, value, [NEWLINE]);
    NothingBetween(name + [SPACE] + [EQUALS]);
  }

  lemma NothingBetween(s: seq<byte>)
    ensures s + [] == s
  {
  }

  lemma TightClean(name: seq<byte>, value: seq<byte>)
    requires Name(name) && 0 !in name && Word(value)
    ensures NEWLINE !in name + [SPACE] + [EQUALS] + value && 0 !in name + [SPACE] + [EQUALS] + value
  {
    var body := name + [SPACE] + [EQUALS] + value;
    forall i | 0 <= i < |body| ensures body[i] != NEWLINE && body[i] != 0 {
      assert body[i] in name || body[i] == SPACE || body[i] == EQUALS || body[i] in value;
    }
  }

  predicate Plain(s: string) { s != "" && forall i :: 0 <= i < |s| ==> '0' <= s[i] <= '9' || 'a' <= s[i] <= 'z' }

  lemma PlainIsWord(s: string)
    requires Plain(s) && |s| <= MAX_VALUE
    ensures Word(Ascii(s)) && Lower(Ascii(s)) == Ascii(s)
  {
  }

  lemma DefaultWords()
    ensures Plain("5668") && Plain("iris") && Plain("daemon")
  {
  }

  /** The defaults can be printed, so the round trip starts from them. */
  lemma DefaultsArePrintable(lifetime: int)
    ensures Wordy(Defaults(lifetime)) && Fitting(Defaults(lifetime))
  {
    DefaultWords();
    PlainIsWord("5668");
    PlainIsWord("iris");
    PlainIsWord("daemon");
  }

  /** Printing what a print sets prints the same again. */
  lemma DumpIsStable(s0: Settings, s: Settings, timeout: byte)
    requires Wordy(s) && Fitting(s)
    ensures Dump(ParseConfig(s0, Dump(s, timeout)).settings, timeout) == Dump(s, timeout)
  {
    FittingDump(s0, s, timeout);
    IntsReturn(s.maxLifetime);
  }

  lemma IntsReturn(n: int)
    ensures ToInt32(ToInt32(n)) == ToInt32(n)
  {
  }
}
