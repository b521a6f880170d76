/** Numbers, strings and defaults of the configuration, and the text of its dump, spelt out. */
module ConfigValues {
  import opened Words
  import opened Text
  import opened ConfigFormat
  import opened ConfigDump
  import opened ConfigRoundTrip

  // ----- reading numbers

  predicate AllDigits(s: seq<byte>) { forall i :: 0 <= i < |s| ==> 48 <= s[i] <= 57 }

  /** The number some digits spell, the last one being the units. */
  function Spelt(s: seq<byte>): (n: nat)
    requires AllDigits(s)
  {
    if s == [] then 0 else 10 * Spelt(s[..|s| - 1]) + (s[|s| - 1] - 48)
  }

  lemma {:induction false} DigitsSpell(s: seq<byte>, junk: seq<byte>)
    requires AllDigits(s) && (junk == [] || !(48 <= junk[0] <= 57))
    ensures DigitsValue(s + junk, 0) == Spelt(s)
    decreases |s|
  {
    DigitsStop(s, junk, 0);
    SpeltIs(s);
  }

  lemma {:induction false} DigitsStop(s: seq<byte>, junk: seq<byte>, acc: nat)
    requires AllDigits(s) && (junk == [] || !(48 <= junk[0] <= 57))
    ensures DigitsValue(s + junk, acc) == DigitsValue(s, acc)
    decreases |s|
  {
    if s == [] {
      assert s + junk == junk;
    } else {
      assert (s + junk)[0] == s[0] && (s + junk)[1..] == s[1..] + junk;
      DigitsStop(s[1..], junk, 10 * acc + DigitOf(s[0]));
    }
  }

  lemma {:induction false} SpeltIs(s: seq<byte>)
    requires AllDigits(s)
    ensures DigitsValue(s, 0) == Spelt(s)
    decreases |s|
  {
    if s != [] {
      var n := |s| - 1;
      assert s == s[..n] + [s[n]];
      SpeltIs(s[..n]);
      DigitsAppend(s[..n], s[n], 0);
    }
  }

  /** A sign or none, digits, and anything that is not a digit: the number, unless a `long` cannot hold it. */
  lemma NumberReads(sign: seq<byte>, ds: seq<byte>, junk: seq<byte>)
    requires sign == [] || sign == [43] || sign == [45]
    requires ds != [] && AllDigits(ds) && (junk == [] || !(48 <= junk[0] <= 57))
    ensures var n: int := Spelt(ds);
            Strtol(sign + ds + junk) ==
              if sign == [45] then
                if n > 0x8000_0000_0000_0000 then Number(-0x8000_0000_0000_0000, false) else Number(-n, true)
              else if n > 0x7FFF_FFFF_FFFF_FFFF then Number(0x7FFF_FFFF_FFFF_FFFF, false) else Number(n, true)
  {
    var s, t := sign + ds + junk, ds + junk;
    DigitsSpell(ds, junk);
    assert t[0] == ds[0];
    if sign == [] {
      assert s == t;
    } else {
      assert s[0] == sign[0] && s[1..] == t;
    }
  }

  /** Without a digit where the number should be there is none. */
  lemma NoNumber(sign: seq<byte>, junk: seq<byte>)
    requires sign == [] || sign == [43] || sign == [45]
    requires junk == [] || !(48 <= junk[0] <= 57)
    requires sign == [] && junk != [] ==> junk[0] != 43 && junk[0] != 45
    ensures Strtol(sign + junk) == Number(0, false)
  {
    if sign == [] {
      assert sign + junk == junk;
    } else {
      assert (sign + junk)[1..] == junk;
    }
  }

  /** A bad number is an error, 4 for the clients and 5 for the lifetime, and is stored all the same; but the global
      lifetime is not touched by it. A good one is stored in both places. */
  lemma NumberOutcome(s: Settings, v: seq<byte>)
    ensures var p, n := Apply(s, MaxClients, v), Strtol(v);
            p.code == (if n.ok then 0 else 4) && p.settings == s.(maxClients := p.settings.maxClients)
            && (p.settings.maxClients - n.value) % 0x1_0000_0000 == 0
    ensures var p, n := Apply(s, MaxLifetime, v), Strtol(v);
            p.code == (if n.ok then 0 else 5)
            && p.settings == s.(maxLifetime := n.value, globalLifetime := if n.ok then n.value else s.globalLifetime)
  {
  }

  /** The casts keep a number modulo 2^32, and one that fits as it is. */
  lemma Casts(n: int)
    ensures 0 <= ToUint32(n) < 0x1_0000_0000 && (ToUint32(n) - n) % 0x1_0000_0000 == 0
    ensures -0x8000_0000 <= ToInt32(n) < 0x8000_0000 && (ToInt32(n) - n) % 0x1_0000_0000 == 0
  {
    var q, m := n / 0x1_0000_0000, n % 0x1_0000_0000;
    assert m - n == -q * 0x1_0000_0000;
    assert (-q * 0x1_0000_0000) % 0x1_0000_0000 == 0;
    assert (-(q + 1) * 0x1_0000_0000) % 0x1_0000_0000 == 0;
  }

  // ----- strings

  /** Upper-case letters become the lower-case ones, 32 further on; all else stays. */
  lemma LowerBytes(s: seq<byte>, i: nat)
    requires i < |s|
    ensures Lower(s)[i] == if 65 <= s[i] <= 90 then s[i] + 32 else s[i]
  {
  }

  /** The defaults: port 5668, 16384 clients, ident iris, facility daemon. */
  lemma DefaultsAre(lifetime: int)
    ensures Defaults(lifetime) == Settings([53, 54, 54, 56], 16384, lifetime, [105, 114, 105, 115],
                                           [100, 97, 101, 109, 111, 110], lifetime)
  {
    DefaultTexts();
  }

  lemma DefaultTexts()
    ensures Ascii("5668") == [53, 54, 54, 56] && Ascii("iris") == [105, 114, 105, 115]
    ensures Ascii("daemon") == [100, 97, 101, 109, 111, 110]
  {
  }

  // ----- the text of the dump

  /** A printed number: a minus sign exactly for a negative one, then digits without leading zeros that spell it. */
  lemma DecimalSpells(n: int)
    ensures var s := Decimal(n);
            var ds := if n < 0 then s[1..] else s;
            && s != [] && (s[0] == 45 <==> n < 0)
            && ds != [] && AllDigits(ds) && (ds[0] == 48 ==> n == 0 && ds == [48])
            && Spelt(ds) == if n < 0 then -n else n
  {
    var ds := Digits(if n < 0 then -n else n);
    if n < 0 { assert Decimal(n)[1..] == ds; }
    DigitsRead(if n < 0 then -n else n);
    SpeltIs(ds);
    NoLeadingZero(if n < 0 then -n else n);
  }

  lemma {:induction false} NoLeadingZero(n: nat)
    ensures Digits(n)[0] == 48 ==> n == 0 && Digits(n) == [48]
    decreases n
  {
    if n >= 10 { NoLeadingZero(n / 10); }
  }

  /** A line of the dump: the name in sixteen columns, an equals sign, a blank, the value. */
  lemma DumpLineBytes(name: seq<byte>, value: seq<byte>)
    requires |name| < 16
    ensures var l := DumpLine(name, value);
            && |l| == 18 + |value| && l[..|name|] == name && (forall i :: |name| <= i < 16 ==> l[i] == 32)
            && l[16] == 61 && l[17] == 32 && l[18..] == value
  {
  }

  /** The six lines, each with its setting, in order; the numbers as an `int` holds them. */
  lemma DumpLines(s: Settings, timeout: byte)
    ensures var vs := DumpValues(s, timeout);
            && Dump(s, timeout) == DumpAll(vs) && |vs| == 6
            && vs[0] == (Ascii("port"), s.port) && vs[1] == (Ascii("timeout"), Decimal(timeout))
            && vs[2] == (Ascii("max_clients"), Decimal(ToInt32(s.maxClients)))
            && vs[3] == (Ascii("max_lifetime"), Decimal(ToInt32(s.maxLifetime)))
            && vs[4] == (Ascii("syslog_ident"), s.ident) && vs[5] == (Ascii("syslog_facility"), s.facility)
  {
  }

  /** The printed lines one behind the other, each ended by a newline. */
  lemma {:induction false} DumpAllLine(vs: seq<(seq<byte>, seq<byte>)>, i: nat)
    requires i < |vs| && forall k :: 0 <= k < |vs| ==> |vs[k].0| < 16
    ensures DumpAll(vs) == DumpAll(vs[..i]) + (DumpLine(vs[i].0, vs[i].1) + [10]) + DumpAll(vs[i + 1..])
    decreases i
  {
    if i == 0 {
      assert vs[..0] == [];
    } else {
      var first := DumpLine(vs[0].0, vs[0].1) + [NEWLINE];
      DumpAllLine(vs[1..], i - 1);
      assert vs[..i][1..] == vs[1..][..i - 1] && vs[1..][i..] == vs[i + 1..];
      FourParts(first, DumpAll(vs[1..][..i - 1]), DumpLine(vs[i].0, vs[i].1) + [10], DumpAll(vs[i + 1..]));
    }
  }

  lemma FourParts(a: seq<byte>, b: seq<byte>, c: seq<byte>, d: seq<byte>)
    ensures a + (b + c + d) == (a + b) + c + d
  {
  }
}
