/** The Python text primitives the checking scripts are written with: which
    characters end a line, which are white space, `splitlines`, and the
    decimal spelling of a natural number. */
module PyText {

  /** The characters `str.splitlines` breaks at. */
  predicate IsBreak(c: char) {
    var n := c as int;
    0x0A <= n <= 0x0D || 0x1C <= n <= 0x1E || n == 0x85 || n == 0x2028 || n == 0x2029
  }

  /** The characters `str.isspace` accepts and `str.strip` removes. */
  predicate IsSpace(c: char) {
    var n := c as int;
    || 0x09 <= n <= 0x0D || 0x1C <= n <= 0x20 || n == 0x85 || n == 0xA0 || n == 0x1680
    || 0x2000 <= n <= 0x200A || n == 0x2028 || n == 0x2029 || n == 0x202F || n == 0x205F || n == 0x3000
  }

  predicate NoBreak(s: string) {
    forall i | 0 <= i < |s| :: !IsBreak(s[i])
  }

  /** Every line break of s is a line feed. */
  predicate PlainBreaks(s: string) {
    forall i | 0 <= i < |s| :: IsBreak(s[i]) ==> s[i] == '\n'
  }

  /** The characters of s before its first line break. */
  function LineLen(s: string): (n: nat)
    ensures n <= |s| && NoBreak(s[..n])
    ensures n < |s| ==> IsBreak(s[n])
  {
    if s == [] || IsBreak(s[0]) then 0 else 1 + LineLen(s[1..])
  }

  /** The length of the line break s starts with; "\r\n" is one break. */
  function BreakLen(s: string): (n: nat)
    ensures n <= |s|
    ensures n == 0 <==> s == [] || !IsBreak(s[0])
  {
    if s == [] || !IsBreak(s[0]) then 0
    else if s[0] == '\r' && |s| > 1 && s[1] == '\n' then 2
    else 1
  }

  /** Where the first line of s ends, its break included. */
  function LineEnd(s: string): (e: nat)
    ensures e <= |s|
    ensures s != [] ==> e > 0
  {
    var n := LineLen(s);
    n + BreakLen(s[n..])
  }

  /** `s.splitlines()` */
  function SplitLines(s: string): (lines: seq<string>)
    ensures forall i | 0 <= i < |lines| :: NoBreak(lines[i])
  {
    if s == [] then [] else [s[..LineLen(s)]] + SplitLines(s[LineEnd(s)..])
  }

  /** `s.splitlines(keepends=True)` */
  function KeepLines(s: string): seq<string> {
    if s == [] then [] else [s[..LineEnd(s)]] + KeepLines(s[LineEnd(s)..])
  }

  function Concat(parts: seq<string>): string {
    if parts == [] then "" else parts[0] + Concat(parts[1..])
  }

  lemma {:induction false} ConcatFrom(s: string, e: nat, rest: seq<string>)
    requires e <= |s| && Concat(rest) == s[e..]
    ensures Concat([s[..e]] + rest) == s
  {
    assert ([s[..e]] + rest)[1..] == rest;
    assert s[..e] + s[e..] == s;
  }

  lemma {:induction false} KeepLinesConcat(s: string)
    ensures Concat(KeepLines(s)) == s
  {
    if s != [] {
      KeepLinesConcat(s[LineEnd(s)..]);
      ConcatFrom(s, LineEnd(s), KeepLines(s[LineEnd(s)..]));
    }
  }

  lemma {:induction false} LineLenOfLine(l: string, rest: string)
    requires NoBreak(l)
    ensures LineLen(l + rest) == |l| + LineLen(rest)
  {
    if l == [] {
      assert l + rest == rest;
    } else {
      assert (l + rest)[1..] == l[1..] + rest;
      LineLenOfLine(l[1..], rest);
    }
  }

  /** A line and the break that ends it are split off whole. */
  lemma {:induction false} SplitLinesAt(l: string, c: char, rest: string)
    requires NoBreak(l) && IsBreak(c) && c != '\r'
    ensures SplitLines(l + [c] + rest) == [l] + SplitLines(rest)
    ensures KeepLines(l + [c] + rest) == [l + [c]] + KeepLines(rest)
  {
    var s := l + [c] + rest;
    assert s == l + ([c] + rest);
    LineLenOfLine(l, [c] + rest);
    assert s[|l|..] == [c] + rest;
    assert s[..|l|] == l && s[..|l| + 1] == l + [c] && s[|l| + 1..] == rest;
  }

  lemma {:induction false} SplitLinesLine(l: string, rest: string)
    requires NoBreak(l)
    ensures SplitLines(l + "\n" + rest) == [l] + SplitLines(rest)
    ensures KeepLines(l + "\n" + rest) == [l + "\n"] + KeepLines(rest)
  {
    SplitLinesAt(l, '\n', rest);
  }

  /** `s.strip()` */
  function Strip(s: string): (r: string)
    ensures |r| <= |s|
    ensures r != [] ==> !IsSpace(r[0]) && !IsSpace(r[|r| - 1])
    decreases |s|
  {
    if s == [] then []
    else if IsSpace(s[0]) then Strip(s[1..])
    else if IsSpace(s[|s| - 1]) then Strip(s[..|s| - 1])
    else s
  }

  predicate AllSpace(s: string) {
    forall i | 0 <= i < |s| :: IsSpace(s[i])
  }

  lemma {:induction false} SpaceFirst(c: char, s: string)
    requires IsSpace(c) && AllSpace(s)
    ensures AllSpace([c] + s)
  {
  }

  lemma {:induction false} SpaceLast(s: string, c: char)
    requires IsSpace(c) && AllSpace(s)
    ensures AllSpace(s + [c])
  {
  }

  lemma {:induction false} AroundFirst(c: char, before: string, mid: string, after: string)
    ensures [c] + (before + mid + after) == [c] + before + mid + after
  {
  }

  lemma {:induction false} AroundLast(before: string, mid: string, after: string, c: char)
    ensures before + mid + after + [c] == before + mid + (after + [c])
  {
  }

  lemma {:induction false} Ends(s: string)
    requires s != []
    ensures s == [s[0]] + s[1..] && s == s[..|s| - 1] + [s[|s| - 1]]
  {
  }

  /** Only the white space at both ends is gone. */
  lemma {:induction false} StripIs(s: string) returns (before: string, after: string)
    ensures s == before + Strip(s) + after && AllSpace(before) && AllSpace(after)
    decreases |s|
  {
    before, after := "", "";
    if s != [] {
      Ends(s);
      if IsSpace(s[0]) {
        before, after := StripIs(s[1..]);
        AroundFirst(s[0], before, Strip(s), after);
        SpaceFirst(s[0], before);
        before := [s[0]] + before;
      } else if IsSpace(s[|s| - 1]) {
        before, after := StripIs(s[..|s| - 1]);
        AroundLast(before, Strip(s), after, s[|s| - 1]);
        SpaceLast(after, s[|s| - 1]);
        after := after + [s[|s| - 1]];
      }
    }
  }

  lemma {:induction false} StripSpace(s: string)
    requires AllSpace(s)
    ensures Strip(s) == []
  {
    if s != [] {
      StripSpace(s[1..]);
    }
  }

  lemma {:induction false} StripAfter(s: string, tail: string)
    requires AllSpace(tail)
    ensures Strip(s + tail) == Strip(s)
    decreases |s| + |tail|
  {
    if tail == [] {
      assert s + tail == s;
    } else if s == [] {
      assert s + tail == tail;
      StripSpace(tail);
    } else if IsSpace(s[0]) {
      assert (s + tail)[1..] == s[1..] + tail;
      StripAfter(s[1..], tail);
    } else {
      assert (s + tail)[..|s + tail| - 1] == s + tail[..|tail| - 1];
      StripAfter(s, tail[..|tail| - 1]);
    }
  }

  // ----- Lines written out -----

  /** A line and the break that ends it; a lone carriage return would merge with a line feed after it. */
  datatype Line = Line(text: string, end: string)

  predicate EndsOnce(l: Line) {
    NoBreak(l.text) && (l.end == "\r\n" || (|l.end| == 1 && IsBreak(l.end[0]) && l.end[0] != '\r'))
  }

  function WriteLine(l: Line): string {
    l.text + l.end
  }

  function WriteLines(ls: seq<Line>): string {
    if ls == [] then "" else WriteLine(ls[0]) + WriteLines(ls[1..])
  }

  lemma {:induction false} WriteFirst(l: Line, ls: seq<Line>)
    ensures WriteLines([l] + ls) == WriteLine(l) + WriteLines(ls)
  {
    assert ([l] + ls)[1..] == ls;
  }

  lemma {:induction false} KeepFirst(l: Line, rest: string)
    requires EndsOnce(l)
    ensures KeepLines(WriteLine(l) + rest) == [WriteLine(l)] + KeepLines(rest)
  {
    var s := WriteLine(l) + rest;
    assert s == l.text + (l.end + rest);
    LineLenOfLine(l.text, l.end + rest);
    assert s[|l.text|..] == l.end + rest;
    assert LineEnd(s) == |l.text| + |l.end|;
    assert s[..LineEnd(s)] == WriteLine(l) && s[LineEnd(s)..] == rest;
  }

  predicate StartsWith(s: string, prefix: string) {
    prefix <= s
  }

  function Digit(d: nat): char
    requires d < 10
  {
    '0' + d as char
  }

  /** `str(n)` */
  function Decimal(n: nat): (s: string)
    ensures |s| > 0
    ensures forall i | 0 <= i < |s| :: '0' <= s[i] <= '9'
  {
    if n < 10 then [Digit(n)] else Decimal(n / 10) + [Digit(n % 10)]
  }

  lemma {:induction false} DecimalInjective(m: nat, n: nat)
    requires Decimal(m) == Decimal(n)
    ensures m == n
  {
    if m >= 10 && n >= 10 {
      var a, b := Decimal(m), Decimal(n);
      assert a[..|a| - 1] == Decimal(m / 10) && b[..|b| - 1] == Decimal(n / 10);
      assert a[|a| - 1] == b[|b| - 1];
      DecimalInjective(m / 10, n / 10);
    }
  }
}
