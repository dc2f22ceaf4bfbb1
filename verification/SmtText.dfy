/** The canonical form of an obligation (scripts/buildcheck_range_obligations.py):
    comment lines go, the header line stays, and every `x_...` atom is renamed
    by its first occurrence.

    A text is read as a sequence of tokens: the matches of the regular
    expression `\bx_[A-Za-z0-9_]+\b`, and every other character. A match starts
    and ends at word boundaries, so it is a whole maximal run of word
    characters. Which characters beyond ASCII are word characters is a
    parameter, `beyond`. */
module SmtText {
  import opened PyText
  import opened SeqLaws

  datatype Token = Atom(name: string) | Plain(c: char)

  predicate AsciiWord(c: char) {
    'a' <= c <= 'z' || 'A' <= c <= 'Z' || '0' <= c <= '9' || c == '_'
  }

  predicate WordChar(c: char, beyond: char -> bool) {
    if c as int < 128 then AsciiWord(c) else beyond(c)
  }

  /** The whole of w matches `x_[A-Za-z0-9_]+`. */
  predicate IsAtomName(w: string) {
    |w| >= 3 && w[0] == 'x' && w[1] == '_' && forall i | 2 <= i < |w| :: AsciiWord(w[i])
  }

  function Plains(w: string): (ts: seq<Token>)
    ensures |ts| == |w| && forall i | 0 <= i < |w| :: ts[i] == Plain(w[i])
  {
    seq(|w|, i requires 0 <= i < |w| => Plain(w[i]))
  }

  /** The tokens of one maximal run of word characters. */
  function Run(w: string): seq<Token> {
    if IsAtomName(w) then [Atom(w)] else Plains(w)
  }

  /** The tokens of s, after the word characters `run`. */
  function LexFrom(s: string, run: string, beyond: char -> bool): seq<Token> {
    if s == [] then Run(run)
    else if WordChar(s[0], beyond) then LexFrom(s[1..], run + [s[0]], beyond)
    else Run(run) + [Plain(s[0])] + LexFrom(s[1..], "", beyond)
  }

  function Lex(s: string, beyond: char -> bool): seq<Token> {
    LexFrom(s, "", beyond)
  }

  ghost predicate ProperAtoms(ts: seq<Token>) {
    forall i | 0 <= i < |ts| && ts[i].Atom? :: IsAtomName(ts[i].name)
  }

  lemma {:induction false} LexProper(s: string, run: string, beyond: char -> bool)
    ensures ProperAtoms(LexFrom(s, run, beyond))
  {
    if s != [] {
      if WordChar(s[0], beyond) {
        LexProper(s[1..], run + [s[0]], beyond);
      } else {
        LexProper(s[1..], "", beyond);
      }
    }
  }

  function Text(t: Token): string {
    if t.Atom? then t.name else [t.c]
  }

  function Render(ts: seq<Token>): string {
    if ts == [] then "" else Text(ts[0]) + Render(ts[1..])
  }

  lemma {:induction false} RenderConcat(a: seq<Token>, b: seq<Token>)
    ensures Render(a + b) == Render(a) + Render(b)
  {
    if a == [] {
      assert a + b == b;
    } else {
      assert (a + b)[1..] == a[1..] + b;
      RenderConcat(a[1..], b);
    }
  }

  lemma {:induction false} RenderPlains(w: string)
    ensures Render(Plains(w)) == w
  {
    if w != [] {
      assert Plains(w)[1..] == Plains(w[1..]);
      RenderPlains(w[1..]);
    }
  }

  /** The text of a run, one other character and what follows. */
  lemma {:induction false} RenderRun(w: string, c: char, ts: seq<Token>)
    ensures Render(Run(w)) == w
    ensures Render(Run(w) + [Plain(c)] + ts) == w + [c] + Render(ts)
  {
    RenderPlains(w);
    RenderConcat(Run(w) + [Plain(c)], ts);
    RenderConcat(Run(w), [Plain(c)]);
  }

  /** Reading loses nothing. */
  lemma {:induction false} RenderLex(s: string, run: string, beyond: char -> bool)
    ensures Render(LexFrom(s, run, beyond)) == run + s
  {
    if s == [] {
      RenderRun(run, ' ', []);
      Empty(run);
    } else {
      Shift(run, s);
      if WordChar(s[0], beyond) {
        RenderLex(s[1..], run + [s[0]], beyond);
      } else {
        RenderLex(s[1..], "", beyond);
        Empty(s[1..]);
        RenderRun(run, s[0], LexFrom(s[1..], "", beyond));
      }
    }
  }

  predicate StartsNonWord(s: string, beyond: char -> bool) {
    s == [] || !WordChar(s[0], beyond)
  }

  /** Text before a non-word character is read on its own. */
  lemma {:induction false} LexFromConcat(a: string, b: string, run: string, beyond: char -> bool)
    requires StartsNonWord(b, beyond)
    ensures LexFrom(a + b, run, beyond) == LexFrom(a, run, beyond) + Lex(b, beyond)
  {
    if a == [] {
      assert a + b == b;
    } else {
      assert (a + b)[1..] == a[1..] + b;
      LexFromConcat(a[1..], b, if WordChar(a[0], beyond) then run + [a[0]] else "", beyond);
    }
  }

  lemma {:induction false} LexWord(w: string, rest: string, run: string, beyond: char -> bool)
    requires forall i | 0 <= i < |w| :: WordChar(w[i], beyond)
    ensures LexFrom(w + rest, run, beyond) == LexFrom(rest, run + w, beyond)
  {
    if w == [] {
      assert w + rest == rest && run + w == run;
    } else {
      assert (w + rest)[1..] == w[1..] + rest && run + [w[0]] + w[1..] == run + w;
      LexWord(w[1..], rest, run + [w[0]], beyond);
    }
  }

  lemma {:induction false} LexLine(l: string, rest: string, beyond: char -> bool)
    ensures Lex(l + "\n" + rest, beyond) == Lex(l, beyond) + [Plain('\n')] + Lex(rest, beyond)
  {
    var tail := "\n" + rest;
    assert l + "\n" + rest == l + tail;
    LexFromConcat(l, tail, "", beyond);
    assert tail[1..] == rest;
  }

  // ----- Renaming -----

  function Atoms(ts: seq<Token>): set<string> {
    if ts == [] then {} else (if ts[0].Atom? then {ts[0].name} else {}) + Atoms(ts[1..])
  }

  lemma {:induction false} AtomsAt(ts: seq<Token>, i: nat)
    requires i < |ts| && ts[i].Atom?
    ensures ts[i].name in Atoms(ts)
  {
    if i > 0 {
      AtomsAt(ts[1..], i - 1);
    }
  }

  lemma {:induction false} AtomsWhere(ts: seq<Token>, a: string) returns (i: nat)
    requires a in Atoms(ts)
    ensures i < |ts| && ts[i] == Atom(a)
  {
    if ts[0] == Atom(a) {
      i := 0;
    } else {
      i := AtomsWhere(ts[1..], a);
      i := i + 1;
    }
  }

  /** m renames every atom of ts, to atoms, no two to one. */
  ghost predicate Renaming(m: map<string, string>, ts: seq<Token>) {
    && Atoms(ts) <= m.Keys
    && (forall a | a in m :: IsAtomName(m[a]))
    && forall a, b | a in m && b in m && m[a] == m[b] :: a == b
  }

  function RenameToken(m: map<string, string>, t: Token): Token {
    if t.Atom? && t.name in m then Atom(m[t.name]) else t
  }

  function Rename(m: map<string, string>, ts: seq<Token>): (r: seq<Token>)
    ensures |r| == |ts| && forall i | 0 <= i < |ts| :: r[i] == RenameToken(m, ts[i])
  {
    seq(|ts|, i requires 0 <= i < |ts| => RenameToken(m, ts[i]))
  }

  lemma {:induction false} RenameConcat(m: map<string, string>, a: seq<Token>, b: seq<Token>)
    ensures Rename(m, a + b) == Rename(m, a) + Rename(m, b)
  {
  }

  lemma {:induction false} RenameRun(w: string, m: map<string, string>) returns (w': string)
    requires forall a | a in m :: IsAtomName(m[a])
    ensures Rename(m, Run(w)) == Run(w')
    ensures w' == w || IsAtomName(w')
  {
    w' := if IsAtomName(w) && w in m then m[w] else w;
  }

  /** Renaming atoms to atoms moves no token boundary. */
  lemma {:induction false} LexRenamed(s: string, run: string, m: map<string, string>, beyond: char -> bool)
    requires forall a | a in m :: IsAtomName(m[a])
    requires forall i | 0 <= i < |run| :: WordChar(run[i], beyond)
    ensures var ts := Rename(m, LexFrom(s, run, beyond)); Lex(Render(ts), beyond) == ts
  {
    if s == [] {
      var w := RenameRun(run, m);
      LexRunAlone(w, beyond);
    } else if WordChar(s[0], beyond) {
      LexRenamed(s[1..], run + [s[0]], m, beyond);
    } else {
      var rest := Lex(s[1..], beyond);
      LexRenamed(s[1..], "", m, beyond);
      var w := RenameRun(run, m);
      assert Rename(m, Run(run) + [Plain(s[0])] + rest) == Run(w) + [Plain(s[0])] + Rename(m, rest) by {
        RenameConcat(m, Run(run) + [Plain(s[0])], rest);
        RenameConcat(m, Run(run), [Plain(s[0])]);
      }
      LexRunThen(w, s[0], Rename(m, rest), beyond);
    }
  }

  lemma {:induction false} LexRunAlone(w: string, beyond: char -> bool)
    requires forall i | 0 <= i < |w| :: WordChar(w[i], beyond)
    ensures Lex(Render(Run(w)), beyond) == Run(w)
  {
    RenderRun(w, ' ', []);
    LexWord(w, "", "", beyond);
    assert w + "" == w && "" + w == w;
  }

  lemma {:induction false} LexRunThen(w: string, c: char, ts: seq<Token>, beyond: char -> bool)
    requires forall i | 0 <= i < |w| :: WordChar(w[i], beyond)
    requires !WordChar(c, beyond) && Lex(Render(ts), beyond) == ts
    ensures var all := Run(w) + [Plain(c)] + ts; Lex(Render(all), beyond) == all
  {
    RenderRun(w, c, ts);
    LexWordThen(w, c, Render(ts), beyond);
  }

  lemma {:induction false} LexWordThen(w: string, c: char, rest: string, beyond: char -> bool)
    requires forall i | 0 <= i < |w| :: WordChar(w[i], beyond)
    requires !WordChar(c, beyond)
    ensures Lex(w + [c] + rest, beyond) == Run(w) + [Plain(c)] + Lex(rest, beyond)
  {
    var tail := [c] + rest;
    assert w + [c] + rest == w + tail && "" + w == w && tail[1..] == rest;
    LexWord(w, tail, "", beyond);
  }

  // ----- The canonical form -----

  predicate IsComment(line: string) {
    line != [] && line[0] == ';'
  }

  /** The lines that are not comments, each ended by a line feed. */
  function CodeOf(lines: seq<string>): string {
    if lines == [] then ""
    else (if IsComment(lines[0]) then "" else lines[0] + "\n") + CodeOf(lines[1..])
  }

  /** The tokens of those lines. */
  function CodeTokens(lines: seq<string>, beyond: char -> bool): seq<Token> {
    if lines == [] then []
    else (if IsComment(lines[0]) then [] else Lex(lines[0], beyond) + [Plain('\n')]) + CodeTokens(lines[1..], beyond)
  }

  lemma {:induction false} LexCode(lines: seq<string>, beyond: char -> bool)
    ensures Lex(CodeOf(lines), beyond) == CodeTokens(lines, beyond)
  {
    if lines != [] {
      LexCode(lines[1..], beyond);
      if IsComment(lines[0]) {
        assert CodeOf(lines) == CodeOf(lines[1..]);
      } else {
        LexLine(lines[0], CodeOf(lines[1..]), beyond);
      }
    }
  }

  lemma {:induction false} CodeTokensLast(lines: seq<string>, l: string, beyond: char -> bool)
    ensures CodeTokens(lines + [l], beyond)
         == CodeTokens(lines, beyond) + (if IsComment(l) then [] else Lex(l, beyond) + [Plain('\n')])
  {
    if lines != [] {
      assert (lines + [l])[1..] == lines[1..] + [l];
      CodeTokensLast(lines[1..], l, beyond);
    }
  }

  function Code(body: string): string {
    CodeOf(SplitLines(body))
  }

  /** The header line, which names the obligation's kind. */
  function Kind(body: string): string {
    if body == [] then "" else SplitLines(body)[0]
  }

  function CanonicalName(n: nat): string {
    "x_c" + Decimal(n)
  }

  /** The dictionary of atoms met: a stands for the n-th, named `x_c<n>`. */
  type Names = map<string, nat>

  /** `names.setdefault(a, f"x_c{len(names)}")`, for an atom */
  function Learn(names: Names, t: Token): Names {
    if t.Plain? || t.name in names then names else names[t.name := |names|]
  }

  /** The dictionary after reading ts. */
  function Known(ts: seq<Token>, names: Names): Names {
    if ts == [] then names else Known(ts[1..], Learn(names, ts[0]))
  }

  function NumberToken(names: Names, t: Token): Token {
    if t.Atom? && t.name in names then Atom(CanonicalName(names[t.name])) else t
  }

  /** ts with each atom renamed by the order of first occurrences. */
  function Numbered(ts: seq<Token>, names: Names): (r: seq<Token>)
    ensures |r| == |ts|
  {
    if ts == [] then []
    else
      var names' := Learn(names, ts[0]);
      [NumberToken(names', ts[0])] + Numbered(ts[1..], names')
  }

  function CanonicalTokens(body: string, beyond: char -> bool): seq<Token> {
    Numbered(Lex(Code(body), beyond), map[])
  }

  /** `canonical(body)` */
  function Canonical(body: string, beyond: char -> bool): string {
    Kind(body) + "\n" + Render(CanonicalTokens(body, beyond))
  }

  /** The dictionary's numbers are below its size, each used once. */
  ghost predicate Counted(names: Names) {
    && (forall a | a in names :: names[a] < |names|)
    && forall a, b | a in names && b in names && names[a] == names[b] :: a == b
  }

  lemma {:induction false} CanonicalNameInjective(i: nat, j: nat)
    requires CanonicalName(i) == CanonicalName(j)
    ensures i == j
  {
    assert Decimal(i) == CanonicalName(i)[3..] && Decimal(j) == CanonicalName(j)[3..];
    DecimalInjective(i, j);
  }

  lemma {:induction false} LearnSize(names: Names, t: Token)
    ensures |Learn(names, t)| == |names| + if t.Atom? && t.name !in names then 1 else 0
  {
    if t.Atom? && t.name !in names {
      assert Learn(names, t).Keys == names.Keys + {t.name};
    }
  }

  /** names' holds what names holds. */
  ghost predicate Grown(names: Names, names': Names) {
    forall a | a in names :: a in names' && names'[a] == names[a]
  }

  lemma {:induction false} LearnCounted(names: Names, t: Token)
    requires Counted(names)
    ensures Counted(Learn(names, t))
  {
    LearnSize(names, t);
  }

  lemma {:induction false} KnownCounted(ts: seq<Token>, names: Names)
    requires Counted(names)
    ensures Counted(Known(ts, names))
  {
    if ts != [] {
      LearnCounted(names, ts[0]);
      KnownCounted(ts[1..], Learn(names, ts[0]));
    }
  }

  lemma {:induction false} KnownKeeps(ts: seq<Token>, names: Names)
    ensures Grown(names, Known(ts, names))
    ensures Known(ts, names).Keys == names.Keys + Atoms(ts)
  {
    if ts != [] {
      KnownKeeps(ts[1..], Learn(names, ts[0]));
    }
  }

  lemma {:induction false} NumberedConcat(a: seq<Token>, b: seq<Token>, names: Names)
    ensures Known(a + b, names) == Known(b, Known(a, names))
    ensures Numbered(a + b, names) == Numbered(a, names) + Numbered(b, Known(a, names))
  {
    if a == [] {
      assert a + b == b;
    } else {
      assert (a + b)[1..] == a[1..] + b;
      NumberedConcat(a[1..], b, Learn(names, a[0]));
    }
  }

  /** Each atom is renamed by the final dictionary. */
  lemma {:induction false} NumberedAt(ts: seq<Token>, names: Names)
    ensures forall i | 0 <= i < |ts| :: Numbered(ts, names)[i] == NumberToken(Known(ts, names), ts[i])
  {
    if ts != [] {
      var names' := Learn(names, ts[0]);
      NumberedAt(ts[1..], names');
      KnownKeeps(ts[1..], names');
      assert NumberToken(Known(ts, names), ts[0]) == NumberToken(names', ts[0]);
      forall i | 0 < i < |ts|
        ensures Numbered(ts, names)[i] == NumberToken(Known(ts, names), ts[i])
      {
        assert ts[i] == ts[1..][i - 1] && Numbered(ts, names)[i] == Numbered(ts[1..], names')[i - 1];
      }
    }
  }

  function Spelled(names: Names): map<string, string> {
    map a | a in names :: CanonicalName(names[a])
  }

  lemma {:induction false} SpelledInjective(names: Names)
    requires Counted(names)
    ensures forall a, b | a in names && b in names && Spelled(names)[a] == Spelled(names)[b] :: a == b
    ensures forall a | a in names :: IsAtomName(Spelled(names)[a])
  {
    forall a, b | a in names && b in names && Spelled(names)[a] == Spelled(names)[b]
      ensures a == b
    {
      CanonicalNameInjective(names[a], names[b]);
    }
  }

  /** Numbering is a renaming. */
  lemma {:induction false} NumberingIsRenaming(ts: seq<Token>)
    ensures var m := Spelled(Known(ts, map[]));
            Renaming(m, ts) && Numbered(ts, map[]) == Rename(m, ts)
  {
    KnownKeeps(ts, map[]);
    NumberedAt(ts, map[]);
    KnownCounted(ts, map[]);
    SpelledInjective(Known(ts, map[]));
  }

  // ----- Equal canonical texts are exactly renamed ones -----

  /** Two dictionaries, before and after the renaming m. */
  ghost predicate Matching(m: map<string, string>, names: Names, names': Names) {
    && |names| == |names'|
    && forall a | a in m :: (a in names <==> m[a] in names') && (a in names ==> names[a] == names'[m[a]])
  }

  lemma {:induction false} MatchingLearn(m: map<string, string>, names: Names, names': Names, t: Token)
    requires Matching(m, names, names')
    requires t.Atom? ==> t.name in m
    requires forall a, b | a in m && b in m && m[a] == m[b] :: a == b
    ensures Matching(m, Learn(names, t), Learn(names', RenameToken(m, t)))
  {
    LearnSize(names, t);
    LearnSize(names', RenameToken(m, t));
  }

  lemma {:induction false} NumberedMatching(ts: seq<Token>, m: map<string, string>, names: Names, names': Names)
    requires Renaming(m, ts) && Matching(m, names, names')
    ensures Numbered(Rename(m, ts), names') == Numbered(ts, names)
  {
    if ts != [] {
      var t := ts[0];
      MatchingLearn(m, names, names', t);
      assert Rename(m, ts)[1..] == Rename(m, ts[1..]);
      NumberedMatching(ts[1..], m, Learn(names, t), Learn(names', RenameToken(m, t)));
    }
  }

  /** Renaming the atoms of a text does not change its numbering. */
  lemma {:induction false} NumberedOfRenamed(ts: seq<Token>, m: map<string, string>)
    requires Renaming(m, ts)
    ensures Numbered(Rename(m, ts), map[]) == Numbered(ts, map[])
  {
    NumberedMatching(ts, m, map[], map[]);
  }

  /** The dictionary's atom with number n. */
  ghost function Numbering(names: Names, n: nat): string
    requires exists a :: a in names && names[a] == n
  {
    var a :| a in names && names[a] == n;
    a
  }

  /** From each atom of names to the atom with its number in names'. */
  lemma {:induction false} NumberForNumber(names: Names, names': Names) returns (m: map<string, string>)
    requires Counted(names)
    requires forall a | a in names :: exists b :: b in names' && names'[b] == names[a]
    ensures m.Keys == names.Keys
    ensures forall a | a in names :: m[a] in names' && names'[m[a]] == names[a]
    ensures forall a, b | a in m && b in m && m[a] == m[b] :: a == b
  {
    m := map a | a in names :: Numbering(names', names[a]);
  }

  /** Two token sequences with one numbering differ by a renaming: an atom goes
      to the atom that has its number in the other dictionary. */
  lemma {:induction false} NumberedEqual(ts: seq<Token>, ts': seq<Token>) returns (m: map<string, string>)
    requires Numbered(ts, map[]) == Numbered(ts', map[])
    requires ProperAtoms(ts')
    ensures Renaming(m, ts) && ts' == Rename(m, ts)
  {
    var all, all' := Known(ts, map[]), Known(ts', map[]);
    KnownKeeps(ts, map[]);
    KnownKeeps(ts', map[]);
    KnownCounted(ts, map[]);
    forall a | a in all
      ensures exists b :: b in all' && all'[b] == all[a]
    {
      var i := AtomsWhere(ts, a);
      NumberedEqualAt(ts, ts', i);
    }
    m := NumberForNumber(all, all');
    forall a | a in m
      ensures IsAtomName(m[a])
    {
      var k := AtomsWhere(ts', m[a]);
    }
    KnownCounted(ts', map[]);
    forall i | 0 <= i < |ts|
      ensures ts'[i] == RenameToken(m, ts[i])
    {
      NumberedEqualAt(ts, ts', i);
    }
  }

  lemma {:induction false} NumberedEqualAt(ts: seq<Token>, ts': seq<Token>, i: nat)
    requires Numbered(ts, map[]) == Numbered(ts', map[]) && i < |ts|
    ensures ts[i].Atom? <==> ts'[i].Atom?
    ensures ts[i].Plain? ==> ts'[i] == ts[i]
    ensures ts[i].Atom? ==>
              var all, all' := Known(ts, map[]), Known(ts', map[]);
              ts[i].name in all && ts'[i].name in all' && all[ts[i].name] == all'[ts'[i].name]
  {
    KnownKeeps(ts, map[]);
    KnownKeeps(ts', map[]);
    NumberedAt(ts, map[]);
    NumberedAt(ts', map[]);
    if ts[i].Atom? {
      AtomsAt(ts, i);
    }
    if ts'[i].Atom? {
      AtomsAt(ts', i);
    }
    assert NumberToken(Known(ts, map[]), ts[i]) == NumberToken(Known(ts', map[]), ts'[i]);
    if ts[i].Atom? {
      CanonicalNameInjective(Known(ts, map[])[ts[i].name], Known(ts', map[])[ts'[i].name]);
    }
  }

  lemma {:induction false} HeaderSplit(k: string, a: string, k': string, a': string)
    requires NoBreak(k) && NoBreak(k')
    requires k + "\n" + a == k' + "\n" + a'
    ensures k == k' && a == a'
  {
    var s := k + "\n" + a;
    assert s == k + ("\n" + a) && s == k' + ("\n" + a');
    LineLenOfLine(k, "\n" + a);
    LineLenOfLine(k', "\n" + a');
    assert |k| == LineLen(s) == |k'|;
    assert k == s[..|k|] && k' == s[..|k|];
    assert a == s[|k| + 1..] && a' == s[|k| + 1..];
  }

  lemma {:induction false} CanonicalTokensText(body: string, beyond: char -> bool)
    ensures Lex(Render(CanonicalTokens(body, beyond)), beyond) == CanonicalTokens(body, beyond)
  {
    var ts := Lex(Code(body), beyond);
    NumberingIsRenaming(ts);
    LexRenamed(Code(body), "", Spelled(Known(ts, map[])), beyond);
  }

  ghost predicate SameUpToRenaming(ts: seq<Token>, ts': seq<Token>) {
    exists m :: Renaming(m, ts) && ts' == Rename(m, ts)
  }

  lemma {:induction false} CanonicalEqual(b: string, b': string, beyond: char -> bool)
    requires Canonical(b, beyond) == Canonical(b', beyond)
    ensures Kind(b) == Kind(b')
    ensures SameUpToRenaming(Lex(Code(b), beyond), Lex(Code(b'), beyond))
  {
    var c, c' := CanonicalTokens(b, beyond), CanonicalTokens(b', beyond);
    HeaderSplit(Kind(b), Render(c), Kind(b'), Render(c'));
    assert c == c' by {
      CanonicalTokensText(b, beyond);
      CanonicalTokensText(b', beyond);
    }
    LexProper(Code(b'), "", beyond);
    var m := NumberedEqual(Lex(Code(b), beyond), Lex(Code(b'), beyond));
  }

  /** Two bodies have one canonical text exactly when their header lines are
      equal and their code differs by a one-to-one renaming of atoms. */
  lemma {:induction false} CanonicalEqualIff(b: string, b': string, beyond: char -> bool)
    ensures Canonical(b, beyond) == Canonical(b', beyond)
       <==> Kind(b) == Kind(b') && SameUpToRenaming(Lex(Code(b), beyond), Lex(Code(b'), beyond))
  {
    var ts, ts' := Lex(Code(b), beyond), Lex(Code(b'), beyond);
    if Canonical(b, beyond) == Canonical(b', beyond) {
      CanonicalEqual(b, b', beyond);
    }
    if m :| Renaming(m, ts) && ts' == Rename(m, ts) {
      NumberedOfRenamed(ts, m);
    }
  }

  // ----- Idempotence -----

  /** ts is made of lines that end in a line feed and do not start with ';'. */
  predicate CleanTokens(ts: seq<Token>, atStart: bool) {
    if ts == [] then atStart
    else if ts[0].Atom? then CleanTokens(ts[1..], false)
    else
      && (IsBreak(ts[0].c) ==> ts[0].c == '\n')
      && !(atStart && ts[0].c == ';')
      && CleanTokens(ts[1..], ts[0].c == '\n')
  }

  lemma {:induction false} CleanPlains(w: string, rest: seq<Token>, atStart: bool)
    requires NoBreak(w) && (w == [] ==> CleanTokens(rest, atStart)) && !(atStart && w != [] && w[0] == ';')
    requires CleanTokens(rest, false)
    ensures CleanTokens(Plains(w) + rest, atStart)
  {
    var ts := Plains(w) + rest;
    if w == [] {
      assert ts == rest;
    } else {
      assert ts[1..] == Plains(w[1..]) + rest;
      CleanPlains(w[1..], rest, false);
    }
  }

  lemma {:induction false} CleanRun(w: string, rest: seq<Token>, atStart: bool)
    requires NoBreak(w) && (w == [] ==> CleanTokens(rest, atStart)) && !(atStart && w != [] && w[0] == ';')
    requires CleanTokens(rest, false)
    ensures CleanTokens(Run(w) + rest, atStart)
  {
    if IsAtomName(w) {
      assert (Run(w) + rest)[1..] == rest;
    } else {
      CleanPlains(w, rest, atStart);
    }
  }

  lemma {:induction false} CleanChar(run: string, c: char, tail: seq<Token>, atStart: bool)
    requires NoBreak(run) && !IsBreak(c) && !(atStart && (run + [c])[0] == ';')
    requires CleanTokens(tail, false)
    ensures CleanTokens(Run(run) + [Plain(c)] + tail, atStart)
  {
    var rest := [Plain(c)] + tail;
    assert rest[1..] == tail;
    CleanRun(run, rest, atStart);
    assert Run(run) + [Plain(c)] + tail == Run(run) + rest;
  }

  /** A line that does not start with ';' and its line feed, before clean text. */
  lemma {:induction false} CleanLine(l: string, run: string, end: seq<Token>, atStart: bool, beyond: char -> bool)
    requires NoBreak(l) && NoBreak(run) && !(atStart && IsComment(run + l))
    requires CleanTokens(end, atStart) && CleanTokens(end, false)
    ensures CleanTokens(LexFrom(l, run, beyond) + end, atStart)
    decreases |l|
  {
    if l == [] {
      CleanRun(run, end, atStart);
    } else if WordChar(l[0], beyond) {
      assert (run + [l[0]]) + l[1..] == run + l;
      CleanLine(l[1..], run + [l[0]], end, atStart, beyond);
    } else {
      var tail := Lex(l[1..], beyond);
      CleanLine(l[1..], "", end, false, beyond);
      CleanChar(run, l[0], tail + end, atStart);
      assert Run(run) + [Plain(l[0])] + tail + end == Run(run) + [Plain(l[0])] + (tail + end);
    }
  }

  lemma {:induction false} CodeIsClean(lines: seq<string>, beyond: char -> bool)
    requires forall i | 0 <= i < |lines| :: NoBreak(lines[i])
    ensures CleanTokens(CodeTokens(lines, beyond), true)
  {
    if lines != [] {
      var rest := CodeTokens(lines[1..], beyond);
      CodeIsClean(lines[1..], beyond);
      if IsComment(lines[0]) {
        assert CodeTokens(lines, beyond) == rest;
      } else {
        var end := [Plain('\n')] + rest;
        assert end[1..] == rest;
        CleanLine(lines[0], "", end, true, beyond);
        assert "" + lines[0] == lines[0];
        assert CodeTokens(lines, beyond) == Lex(lines[0], beyond) + end;
      }
    }
  }

  lemma {:induction false} CleanRenamed(ts: seq<Token>, m: map<string, string>, atStart: bool)
    ensures CleanTokens(Rename(m, ts), atStart) == CleanTokens(ts, atStart)
  {
    if ts != [] {
      assert Rename(m, ts)[1..] == Rename(m, ts[1..]);
      CleanRenamed(ts[1..], m, if ts[0].Atom? then false else ts[0].c == '\n');
    }
  }

  lemma {:induction false} CodeFirst(l: string, lines: seq<string>)
    requires !IsComment(l)
    ensures CodeOf([l] + lines) == l + "\n" + CodeOf(lines)
  {
    assert ([l] + lines)[1..] == lines;
  }

  /** Splitting clean text and dropping comment lines changes nothing; `l` is
      the part of the first line already read. */
  lemma {:induction false} CleanCode(l: string, ts: seq<Token>)
    requires NoBreak(l) && !IsComment(l)
    requires CleanTokens(ts, l == [])
    requires ProperAtoms(ts)
    ensures CodeOf(SplitLines(l + Render(ts))) == l + Render(ts)
    decreases |ts|
  {
    if ts == [] {
    } else {
      var rest := Render(ts[1..]);
      var piece := Text(ts[0]);
      Assoc(l, piece, rest);
      if ts[0] == Plain('\n') {
        SplitLinesLine(l, rest);
        CleanCode("", ts[1..]);
        Empty(rest);
        CodeFirst(l, SplitLines(rest));
      } else {
        CleanCode(l + piece, ts[1..]);
      }
    }
  }

  lemma {:induction false} NumberedAgain(ts: seq<Token>)
    ensures Numbered(Numbered(ts, map[]), map[]) == Numbered(ts, map[])
  {
    NumberingIsRenaming(ts);
    NumberedOfRenamed(ts, Spelled(Known(ts, map[])));
  }

  /** `canonical` is idempotent on a body whose first line is a comment. */
  lemma {:induction false} CanonicalIdempotent(body: string, beyond: char -> bool)
    requires IsComment(Kind(body))
    ensures Canonical(Canonical(body, beyond), beyond) == Canonical(body, beyond)
  {
    var ts := Lex(Code(body), beyond);
    var cts := Numbered(ts, map[]);
    var text := Render(cts);
    SplitLinesLine(Kind(body), text);
    assert SplitLines(Canonical(body, beyond))[1..] == SplitLines(text);
    CodeIsClean(SplitLines(body), beyond);
    LexCode(SplitLines(body), beyond);
    NumberingIsRenaming(ts);
    CleanRenamed(ts, Spelled(Known(ts, map[])), true);
    forall i | 0 <= i < |ts| && ts[i].Atom?
      ensures IsAtomName(cts[i].name)
    {
      AtomsAt(ts, i);
    }
    CleanCode("", cts);
    assert "" + text == text;
    CanonicalTokensText(body, beyond);
    NumberedAgain(ts);
  }

  // ----- The loop that computes it -----

  /** One token more: its own text, and the dictionary after it. */
  lemma {:induction false} NumberedStep(ts: seq<Token>, i: nat, names: Names)
    requires i < |ts|
    ensures var cur := Learn(Known(ts[..i], names), ts[i]);
            && Known(ts[..i + 1], names) == cur
            && Render(Numbered(ts[..i + 1], names)) == Render(Numbered(ts[..i], names))
               + (if ts[i].Plain? then [ts[i].c] else CanonicalName(cur[ts[i].name]))
  {
    var before := Known(ts[..i], names);
    var last := Numbered([ts[i]], before);
    assert ts[..i + 1] == ts[..i] + [ts[i]];
    NumberedConcat(ts[..i], [ts[i]], names);
    RenderConcat(Numbered(ts[..i], names), last);
    assert last == [NumberToken(Learn(before, ts[i]), ts[i])];
    assert Render(last) == if ts[i].Plain? then [ts[i].c] else last[0].name;
  }

  /** `ATOM.sub(lambda m: names.setdefault(...), line)`, over the tokens of
      the line. */
  method Substitute(ts: seq<Token>, names: Names) returns (out: string, names': Names)
    ensures out == Render(Numbered(ts, names)) && names' == Known(ts, names)
  {
    out, names' := "", names;
    for i := 0 to |ts|
      invariant names' == Known(ts[..i], names)
      invariant out == Render(Numbered(ts[..i], names))
    {
      NumberedStep(ts, i, names);
      if ts[i].Plain? {
        out := out + [ts[i].c];
      } else {
        if ts[i].name !in names' {
          names' := names'[ts[i].name := |names'|];
        }
        out := out + CanonicalName(names'[ts[i].name]);
      }
    }
    assert ts[..|ts|] == ts;
  }

  /** One code line more: its text after the names known before it. */
  lemma {:induction false} NumberedLine(ts: seq<Token>, line: seq<Token>)
    ensures var names := Known(ts, map[]);
            var all := ts + (line + [Plain('\n')]);
            && Known(all, map[]) == Known(line, names)
            && Render(Numbered(all, map[])) == Render(Numbered(ts, map[])) + (Render(Numbered(line, names)) + "\n")
  {
    var names, nl := Known(ts, map[]), [Plain('\n')];
    var n := Numbered(line + nl, names);
    NumberedConcat(ts, line + nl, map[]);
    NumberedConcat(line, nl, names);
    assert Numbered(nl, Known(line, names)) == nl;
    RenderConcat(Numbered(ts, map[]), n);
    RenderConcat(Numbered(line, names), nl);
    assert Render(nl) == "\n";
  }

  /** The loop over the body's lines, with the dictionary of names it fills. */
  method Canonicalize(body: string, beyond: char -> bool) returns (text: string)
    ensures text == Canonical(body, beyond)
  {
    var lines := SplitLines(body);
    var kind := if body != [] then lines[0] else "";
    var names: Names := map[];
    ghost var ts: seq<Token> := [];
    var out := "";
    for i := 0 to |lines|
      invariant ts == CodeTokens(lines[..i], beyond)
      invariant names == Known(ts, map[])
      invariant out == Render(Numbered(ts, map[]))
    {
      assert lines[..i + 1] == lines[..i] + [lines[i]];
      CodeTokensLast(lines[..i], lines[i], beyond);
      if IsComment(lines[i]) {
        continue;
      }
      var renamed: string;
      renamed, names := Substitute(Lex(lines[i], beyond), names);
      NumberedLine(ts, Lex(lines[i], beyond));
      ts := ts + (Lex(lines[i], beyond) + [Plain('\n')]);
      out := out + (renamed + "\n");
    }
    assert lines[..|lines|] == lines;
    LexCode(lines, beyond);
    text := kind + "\n" + out;
  }
}
