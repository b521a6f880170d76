/** C strings: the few `<string.h>` and `<ctype.h>` functions iris.c works with. */
module Text {
  import opened Words

  const NEWLINE: byte := 10

  datatype Option<+T> = None | Some(value: T)

  /** `isspace()` in the C locale. */
  predicate IsSpace(c: byte) { 9 <= c <= 13 || c == 32 }

  /** The index of the first element of `s` that is in `stop`, or the length. */
  function Span(s: seq<byte>, stop: set<byte>): (i: nat)
    ensures i <= |s| && (forall k :: 0 <= k < i ==> s[k] !in stop) && (i < |s| ==> s[i] in stop)
  {
    if s == [] || s[0] in stop then 0 else 1 + Span(s[1..], stop)
  }

  /** `Span` is the only such index. */
  lemma SpanIs(s: seq<byte>, stop: set<byte>, i: nat)
    requires i <= |s| && (forall k :: 0 <= k < i ==> s[k] !in stop) && (i < |s| ==> s[i] in stop)
    ensures Span(s, stop) == i
  {
  }

  /** The C string at the start of some memory. */
  function CStr(s: seq<byte>): (t: seq<byte>)
    ensures t <= s && 0 !in t
  {
    s[..Span(s, {0})]
  }

  /** Without trailing white space. */
  function Strip(s: seq<byte>): (t: seq<byte>)
    ensures t <= s
    ensures t != [] ==> !IsSpace(t[|t| - 1])
    ensures forall i :: |t| <= i < |s| ==> IsSpace(s[i])
  {
    if s != [] && IsSpace(s[|s| - 1]) then Strip(s[..|s| - 1]) else s
  }

  function Zeroes(n: nat): (z: seq<byte>)
    ensures |z| == n && forall i :: 0 <= i < n ==> z[i] == 0
  {
    seq(n, _ => 0)
  }

  /** A string cut to fit a zeroed field of `n` bytes with a terminator. */
  function Padded(s: seq<byte>, n: nat): (f: seq<byte>)
    requires n > 0
    ensures |f| == n
  {
    if |s| < n then s + Zeroes(n - |s|) else s[..n - 1] + [0]
  }

  /** A padded field byte by byte: the string as far as there is room for a terminator, then nothing but zeros. */
  lemma PaddedBytes(s: seq<byte>, n: nat, i: nat)
    requires i < n
    ensures Padded(s, n)[i] == if i < |s| && i < n - 1 then s[i] else 0
  {
  }

  /** White space is the blank and the five control characters of the C locale. */
  lemma SpaceIs(c: byte)
    ensures IsSpace(c) <==> c in [' ' as int, '\t' as int, '\n' as int, 0x0B, 0x0C, '\r' as int]
  {
  }

  /** A padded field reads back as the string, capped. */
  lemma PaddedReads(s: seq<byte>, n: nat)
    requires n > 0 && 0 !in s
    ensures CStr(Padded(s, n)) == if |s| < n then s else s[..n - 1]
  {
    SpanIs(Padded(s, n), {0}, if |s| < n then |s| else n - 1);
  }

  // ----- the code

  /** A terminator behind a string that has none makes it the C string. */
  lemma CStrIs(s: seq<byte>, n: nat)
    requires n < |s| && 0 !in s[..n] && s[n] == 0
    ensures CStr(s) == s[..n]
  {
    forall k | 0 <= k < n ensures s[k] !in {0} {
      assert s[..n][k] in s[..n];
    }
    SpanIs(s, {0}, n);
  }

  lemma StripStep(t: seq<byte>, p: nat)
    requires p < |t| && IsSpace(t[p])
    ensures Strip(t[..p + 1]) == Strip(t[..p])
  {
    assert t[..p + 1][..p] == t[..p];
  }

  lemma StripStop(t: seq<byte>, p: int)
    requires -1 <= p < |t| && (p >= 0 ==> !IsSpace(t[p]))
    ensures Strip(t[..p + 1]) == t[..p + 1]
  {
  }

  /** `strip()`: overwrites trailing white space with terminators. */
  method StripInPlace(s: array<byte>)
    requires 0 in s[..]
    modifies s
    ensures 0 in s[..] && CStr(s[..]) == Strip(CStr(old(s[..])))
  {
    ghost var t := CStr(s[..]);
    var n := Strlen(s);
    assert t[..n] == t;
    var p := (n as int) - 1;
    while p >= 0 && IsSpace(s[p])
      invariant -1 <= p < n
      invariant s[p + 1] == 0 && s[..p + 1] == t[..p + 1]
      invariant Strip(t[..p + 1]) == Strip(t)
    {
      assert s[p] == s[..p + 1][p];
      StripStep(t, p);
      s[p] := 0;
      assert s[..p] == t[..p];
      p := p - 1;
    }
    if p >= 0 { assert s[p] == s[..p + 1][p]; }
    StripStop(t, p);
    CStrIs(s[..], p + 1);
    assert s[..][..p + 1] == s[..p + 1];
    assert s[..][p + 1] == 0;
  }

  method Strlen(s: array<byte>) returns (n: nat)
    requires 0 in s[..]
    ensures n == |CStr(s[..])| < s.Length && s[n] == 0
  {
    ghost var i :| 0 <= i < s.Length && s[i] == 0;
    n := 0;
    while s[n] != 0
      invariant n <= i && forall k :: 0 <= k < n ==> s[k] != 0
      decreases i - n
    {
      n := n + 1;
    }
    SpanIs(s[..], {0}, n);
  }

  /** The C string in a buffer from an index on, and the index of its terminator. */
  ghost predicate StringAt(buf: seq<byte>, from: nat, s: seq<byte>) {
    from + |s| < |buf| && buf[from..from + |s|] == s && 0 !in s && buf[from + |s|] == 0
  }

  lemma StringAtOf(buf: seq<byte>, from: nat)
    requires from <= |buf| && 0 in buf[from..]
    ensures StringAt(buf, from, CStr(buf[from..]))
  {
  }

  /** A string further on in the buffer. */
  lemma StringDrop(buf: seq<byte>, i: nat, s: seq<byte>, n: nat)
    requires StringAt(buf, i, s) && n <= |s|
    ensures StringAt(buf, i + n, s[n..])
  {
    assert buf[i + n..i + |s|] == buf[i..i + |s|][n..];
  }

  /** The first character of a string, or its terminator. */
  lemma StringHead(buf: seq<byte>, i: nat, s: seq<byte>)
    requires StringAt(buf, i, s)
    ensures buf[i] == if s == [] then 0 else s[0]
    ensures buf[i] == 0 <==> s == []
  {
    if s != [] { assert buf[i] == buf[i..i + |s|][0]; }
  }

  /** A terminator written into a string splits it. */
  lemma SplitString(buf: seq<byte>, i: nat, u: seq<byte>, n: nat)
    requires StringAt(buf, i, u) && n < |u|
    ensures StringAt(buf[i + n := 0], i, u[..n])
    ensures StringAt(buf[i + n := 0], i + n + 1, u[n + 1..])
  {
    var w := buf[i + n := 0];
    assert w[i..i + n] == buf[i..i + |u|][..n];
    assert w[i + n + 1..i + |u|] == buf[i..i + |u|][n + 1..];
  }

  /** `*b = '\0'` inside a string. */
  method CutString(buf: array<byte>, a: nat, b: nat, ghost l: seq<byte>)
    requires StringAt(buf[..], a, l) && a <= b < a + |l|
    modifies buf
    ensures StringAt(buf[..], a, l[..b - a]) && StringAt(buf[..], b + 1, l[b - a + 1..])
  {
    SplitString(buf[..], a, l, b - a);
    ghost var before := buf[..];
    buf[b] := 0;
    assert buf[..] == before[b := 0];
  }

  /** `strcspn()`: the next terminator or character of a set. */
  method FindDelimiter(buf: array<byte>, i: nat, delim: set<byte>, ghost s: seq<byte>) returns (j: nat)
    requires StringAt(buf[..], i, s)
    ensures j == i + Span(s, delim) && (j < i + |s| ==> buf[j] != 0)
  {
    j := i;
    while buf[j] != 0 && buf[j] !in delim
      invariant i <= j <= i + |s|
      invariant forall k :: 0 <= k < j - i ==> s[k] !in delim
      decreases i + |s| - j
    {
      assert buf[j] == buf[i..i + |s|][j - i];
      j := j + 1;
    }
    if j < i + |s| {
      assert buf[j] == buf[i..i + |s|][j - i];
    }
    SpanIs(s, delim, j - i);
  }

  /** The same, and whether a character of the set stands there. */
  method FindInside(buf: array<byte>, i: nat, delim: set<byte>, ghost s: seq<byte>) returns (j: nat, inside: bool)
    requires StringAt(buf[..], i, s)
    ensures j == i + Span(s, delim) && (inside <==> Span(s, delim) < |s|)
  {
    j := FindDelimiter(buf, i, delim, s);
    ghost var n := Span(s, delim);
    StringDrop(buf[..], i, s, n);
    StringHead(buf[..], j, s[n..]);
    assert |s[n..]| == |s| - n;
    inside := buf[j] != 0;
  }
}
