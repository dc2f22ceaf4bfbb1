/** How a forest of forms may be written, and that the reader gives it back:
    any spacing, any comments, any atom bare or quoted, any escapes. */
module DuneText {
  import opened Options
  import opened PyText
  import opened SeqLaws
  import opened DuneForms

  // ----- Writing -----

  datatype Blank = Space(c: char) | Remark(text: string)

  predicate IsBlank(b: Blank) {
    match b
    case Space(c) => IsSpace(c)
    case Remark(t) => forall i | 0 <= i < |t| :: t[i] != '\n'
  }

  function WriteBlank(b: Blank): string {
    match b
    case Space(c) => [c]
    case Remark(t) => [';'] + t + ['\n']
  }

  predicate IsGap(gap: seq<Blank>) {
    gap == [] || (IsBlank(gap[0]) && IsGap(gap[1..]))
  }

  function WriteGap(gap: seq<Blank>): string {
    if gap == [] then [] else WriteBlank(gap[0]) + WriteGap(gap[1..])
  }

  /** A character in quotes; a quote or a backslash is escaped, any other may be. */
  datatype Letter = Letter(escaped: bool, c: char)

  predicate AreLetters(ls: seq<Letter>) {
    ls == [] || ((ls[0].escaped || (ls[0].c != '"' && ls[0].c != '\\')) && AreLetters(ls[1..]))
  }

  function WriteLetters(ls: seq<Letter>): string {
    if ls == [] then [] else (if ls[0].escaped then ['\\', ls[0].c] else [ls[0].c]) + WriteLetters(ls[1..])
  }

  function Chars(ls: seq<Letter>): string {
    if ls == [] then [] else [ls[0].c] + Chars(ls[1..])
  }

  datatype Spelling = Parenthesis(c: char) | Bare(word: string) | InQuotes(letters: seq<Letter>)

  predicate IsSpelling(s: Spelling) {
    match s
    case Parenthesis(c) => c == '(' || c == ')'
    case Bare(w) => w != [] && w[0] != '"' && forall i | 0 <= i < |w| :: !EndsWord(w[i])
    case InQuotes(ls) => AreLetters(ls)
  }

  function Spell(s: Spelling): string {
    match s
    case Parenthesis(c) => [c]
    case Bare(w) => w
    case InQuotes(ls) => ['"'] + WriteLetters(ls) + ['"']
  }

  function TokenOf(s: Spelling): string {
    match s
    case Parenthesis(c) => [c]
    case Bare(w) => w
    case InQuotes(ls) => Chars(ls)
  }

  datatype Piece = Piece(gap: seq<Blank>, spelling: Spelling)

  function TokensOf(ps: seq<Piece>): seq<string> {
    if ps == [] then [] else [TokenOf(ps[0].spelling)] + TokensOf(ps[1..])
  }

  /** How a text ends: blanks, and perhaps a comment without its line feed. */
  datatype Ending = Ending(gap: seq<Blank>, remark: Option<string>)

  predicate IsEnding(end: Ending) {
    IsGap(end.gap) && (end.remark.Some? ==> forall i | 0 <= i < |end.remark.value| :: end.remark.value[i] != '\n')
  }

  function WriteEnding(end: Ending): string {
    WriteGap(end.gap) + if end.remark.Some? then [';'] + end.remark.value else []
  }

  function Write(ps: seq<Piece>, end: Ending): string {
    if ps == [] then WriteEnding(end) else WriteGap(ps[0].gap) + (Spell(ps[0].spelling) + Write(ps[1..], end))
  }

  /** A bare word is followed by a blank, a parenthesis or the end. */
  predicate WellSpaced(ps: seq<Piece>) {
    ps == [] ||
    (&& IsGap(ps[0].gap) && IsSpelling(ps[0].spelling)
     && (ps[0].spelling.Bare? && |ps| > 1 ==> ps[1].gap != [] || ps[1].spelling.Parenthesis?)
     && WellSpaced(ps[1..]))
  }

  // ----- Tokens of a written text -----

  lemma {:induction false} LexRemark(t: string, rest: string)
    requires forall i | 0 <= i < |t| :: t[i] != '\n'
    ensures Lex(t + rest, Comment) == Lex(rest, Comment)
  {
    if t == [] {
      Empty(rest);
    } else {
      Assoc([t[0]], t[1..], rest);
      assert [t[0]] + t[1..] == t;
      LexStep(t[0], t[1..] + rest, Comment);
      LexRemark(t[1..], rest);
      PrefixNothing(Lex(rest, Comment));
    }
  }

  lemma {:induction false} LexBlank(b: Blank, rest: string)
    requires IsBlank(b)
    ensures Lex(WriteBlank(b) + rest, Between) == Lex(rest, Between)
  {
    match b
    case Space(c) =>
      LexStep(c, rest, Between);
      PrefixNothing(Lex(rest, Between));
    case Remark(t) =>
      Assoc4([';'], t, ['\n'], rest);
      LexStep(';', t + (['\n'] + rest), Between);
      LexRemark(t, ['\n'] + rest);
      LexStep('\n', rest, Comment);
      PrefixNothing(Lex(rest, Between));
  }

  lemma {:induction false} LexGap(gap: seq<Blank>, rest: string)
    requires IsGap(gap)
    ensures Lex(WriteGap(gap) + rest, Between) == Lex(rest, Between)
  {
    if gap == [] {
      Empty(rest);
    } else {
      Assoc(WriteBlank(gap[0]), WriteGap(gap[1..]), rest);
      LexBlank(gap[0], WriteGap(gap[1..]) + rest);
      LexGap(gap[1..], rest);
    }
  }

  lemma {:induction false} LexEnding(end: Ending)
    requires IsEnding(end)
    ensures Lex(WriteEnding(end), Between) == Some([])
  {
    if end.remark.None? {
      LexGap(end.gap, []);
    } else {
      var t := end.remark.value;
      LexGap(end.gap, [';'] + t);
      LexStep(';', t, Between);
      Empty(t);
      LexRemark(t, []);
    }
  }

  lemma {:induction false} LexLetter(l: Letter, v: string, rest: string)
    requires l.escaped || (l.c != '"' && l.c != '\\')
    ensures Lex((if l.escaped then ['\\', l.c] else [l.c]) + rest, Quoted(v)) == Lex(rest, Quoted(v + [l.c]))
  {
    PrefixNothing(Lex(rest, Quoted(v + [l.c])));
    if l.escaped {
      Assoc(['\\'], [l.c], rest);
      assert ['\\'] + [l.c] == ['\\', l.c];
      LexStep('\\', [l.c] + rest, Quoted(v));
      LexStep(l.c, rest, Escaped(v));
    } else {
      LexStep(l.c, rest, Quoted(v));
    }
  }

  lemma {:induction false} LexLetters(ls: seq<Letter>, v: string, rest: string)
    requires AreLetters(ls)
    ensures Lex(WriteLetters(ls) + rest, Quoted(v)) == Lex(rest, Quoted(v + Chars(ls)))
  {
    if ls == [] {
      Empty(rest);
      Empty(v);
    } else {
      var head := if ls[0].escaped then ['\\', ls[0].c] else [ls[0].c];
      Assoc(head, WriteLetters(ls[1..]), rest);
      LexLetter(ls[0], v, WriteLetters(ls[1..]) + rest);
      LexLetters(ls[1..], v + [ls[0].c], rest);
      Assoc(v, [ls[0].c], Chars(ls[1..]));
    }
  }

  lemma {:induction false} LexQuotes(ls: seq<Letter>, rest: string)
    requires AreLetters(ls)
    ensures Lex(Spell(InQuotes(ls)) + rest, Between) == Prefix([Chars(ls)], Lex(rest, Between))
  {
    Assoc4(['"'], WriteLetters(ls), ['"'], rest);
    LexStep('"', WriteLetters(ls) + (['"'] + rest), Between);
    LexLetters(ls, [], ['"'] + rest);
    Empty(Chars(ls));
    LexStep('"', rest, Quoted(Chars(ls)));
    PrefixNothing(Prefix([Chars(ls)], Lex(rest, Between)));
  }

  lemma {:induction false} LexWord(w: string, v: string, rest: string)
    requires forall i | 0 <= i < |w| :: !EndsWord(w[i])
    ensures Lex(w + rest, Word(v)) == Lex(rest, Word(v + w))
  {
    if w == [] {
      Empty(rest);
      Empty(v);
    } else {
      Assoc([w[0]], w[1..], rest);
      Assoc(v, [w[0]], w[1..]);
      assert [w[0]] + w[1..] == w;
      LexStep(w[0], w[1..] + rest, Word(v));
      LexWord(w[1..], v + [w[0]], rest);
      PrefixNothing(Lex(rest, Word(v + w)));
    }
  }

  predicate EndsHere(rest: string) {
    rest == [] || EndsWord(rest[0])
  }

  lemma {:induction false} LexBare(w: string, rest: string)
    requires IsSpelling(Bare(w)) && EndsHere(rest)
    ensures Lex(w + rest, Between) == Prefix([w], Lex(rest, Between))
  {
    Assoc([w[0]], w[1..], rest);
    assert [w[0]] + w[1..] == w;
    LexStep(w[0], w[1..] + rest, Between);
    assert !EndsWord(w[0]);
    PrefixNothing(Lex(w[1..] + rest, Word([w[0]])));
    LexWord(w[1..], [w[0]], rest);
    assert rest[0..] == rest;
    WordEnds(rest, 0, w);
  }

  lemma {:induction false} LexSpelling(s: Spelling, rest: string)
    requires IsSpelling(s) && (s.Bare? ==> EndsHere(rest))
    ensures Lex(Spell(s) + rest, Between) == Prefix([TokenOf(s)], Lex(rest, Between))
  {
    match s
    case Parenthesis(c) => LexStep(c, rest, Between);
    case Bare(w) => LexBare(w, rest);
    case InQuotes(ls) => LexQuotes(ls, rest);
  }

  lemma {:induction false} GapEnds(gap: seq<Blank>, rest: string)
    requires IsGap(gap) && gap != []
    ensures EndsHere(WriteGap(gap) + rest)
  {
    assert (WriteGap(gap) + rest)[0] == WriteBlank(gap[0])[0];
  }

  /** A bare word ends where the next piece begins. */
  lemma {:induction false} NextEnds(ps: seq<Piece>, end: Ending)
    requires WellSpaced(ps) && IsEnding(end) && (ps != [] ==> ps[0].gap != [] || ps[0].spelling.Parenthesis?)
    ensures EndsHere(Write(ps, end))
  {
    if ps == [] {
      if end.gap != [] {
        GapEnds(end.gap, if end.remark.Some? then [';'] + end.remark.value else []);
      }
    } else if ps[0].gap != [] {
      GapEnds(ps[0].gap, Spell(ps[0].spelling) + Write(ps[1..], end));
    }
  }

  /** The tokens of a written text are the tokens it was written from. */
  lemma {:induction false} LexWritten(ps: seq<Piece>, end: Ending)
    requires WellSpaced(ps) && IsEnding(end)
    ensures Lex(Write(ps, end), Between) == Some(TokensOf(ps))
  {
    if ps == [] {
      LexEnding(end);
    } else {
      var rest := Write(ps[1..], end);
      LexWritten(ps[1..], end);
      LexGap(ps[0].gap, Spell(ps[0].spelling) + rest);
      if ps[0].spelling.Bare? {
        assert |ps| > 1 ==> ps[1..][0] == ps[1];
        NextEnds(ps[1..], end);
      }
      LexSpelling(ps[0].spelling, rest);
    }
  }

  /** A forest written in any way reads back as itself exactly when no atom of
      it is a parenthesis: the quotes of such an atom are gone by the time the
      forms are read. */
  lemma {:induction false} WrittenReadsBack(fs: seq<Form>, ps: seq<Piece>, end: Ending)
    requires WellSpaced(ps) && IsEnding(end) && TokensOf(ps) == FlatAll(fs, [])
    ensures Reads(Write(ps, end), fs) <==> PlainAll(fs)
  {
    LexWritten(ps, end);
  }

  // ----- Every forest can be written -----

  function Quote(t: string): (ls: seq<Letter>)
    ensures AreLetters(ls) && Chars(ls) == t
  {
    if t == [] then [] else [Letter(true, t[0])] + Quote(t[1..])
  }

  function Pieces(f: Form, rest: seq<Piece>): seq<Piece>
    decreases f, 1
  {
    match f
    case Atom(t) => [Piece([], InQuotes(Quote(t)))] + rest
    case List(items) => [Piece([], Parenthesis('('))] + AllPieces(items, [Piece([], Parenthesis(')'))] + rest)
  }

  function AllPieces(fs: seq<Form>, rest: seq<Piece>): seq<Piece>
    decreases fs, 0
  {
    if fs == [] then rest else Pieces(fs[0], AllPieces(fs[1..], rest))
  }

  lemma {:induction false} OnePiece(p: Piece, rest: seq<Piece>)
    requires WellSpaced(rest) && IsGap(p.gap) && IsSpelling(p.spelling) && !p.spelling.Bare?
    ensures WellSpaced([p] + rest) && TokensOf([p] + rest) == [TokenOf(p.spelling)] + TokensOf(rest)
  {
    assert ([p] + rest)[1..] == rest;
  }

  lemma {:induction false} PiecesWritten(f: Form, rest: seq<Piece>)
    requires WellSpaced(rest)
    ensures WellSpaced(Pieces(f, rest)) && TokensOf(Pieces(f, rest)) == Flat(f, TokensOf(rest))
    decreases f, 1
  {
    match f
    case Atom(t) => OnePiece(Piece([], InQuotes(Quote(t))), rest);
    case List(items) =>
      var close := Piece([], Parenthesis(')'));
      OnePiece(close, rest);
      AllPiecesWritten(items, [close] + rest);
      OnePiece(Piece([], Parenthesis('(')), AllPieces(items, [close] + rest));
  }

  lemma {:induction false} AllPiecesWritten(fs: seq<Form>, rest: seq<Piece>)
    requires WellSpaced(rest)
    ensures WellSpaced(AllPieces(fs, rest)) && TokensOf(AllPieces(fs, rest)) == FlatAll(fs, TokensOf(rest))
    decreases fs, 0
  {
    if fs != [] {
      AllPiecesWritten(fs[1..], rest);
      PiecesWritten(fs[0], AllPieces(fs[1..], rest));
    }
  }

  // ----- Strings and parentheses -----

  /** The parentheses written outside quotes close, d of them already open. */
  predicate TrulyBalanced(ps: seq<Piece>, d: nat) {
    if ps == [] then d == 0
    else if ps[0].spelling == Parenthesis('(') then TrulyBalanced(ps[1..], d + 1)
    else if ps[0].spelling == Parenthesis(')') then d > 0 && TrulyBalanced(ps[1..], d - 1)
    else TrulyBalanced(ps[1..], d)
  }

  /** No quoted string is a parenthesis. */
  predicate NoQuotedParenthesis(ps: seq<Piece>) {
    ps == [] || ((ps[0].spelling.InQuotes? ==> TokenOf(ps[0].spelling) != OPEN && TokenOf(ps[0].spelling) != CLOSE)
                 && NoQuotedParenthesis(ps[1..]))
  }

  /** The reader accepts a text whose strings are terminated exactly when its
      parentheses close, if no quoted string is itself a parenthesis. */
  lemma {:induction false} AcceptsBalanced(ps: seq<Piece>, d: nat)
    requires WellSpaced(ps) && NoQuotedParenthesis(ps)
    ensures Balanced(TokensOf(ps), d) <==> TrulyBalanced(ps, d)
  {
    if ps != [] {
      assert TokensOf(ps)[1..] == TokensOf(ps[1..]);
      var s := ps[0].spelling;
      if s.Bare? {
        assert !EndsWord(s.word[0]);
      }
      if s == Parenthesis('(') {
        AcceptsBalanced(ps[1..], d + 1);
      } else if s == Parenthesis(')') {
        if d > 0 {
          AcceptsBalanced(ps[1..], d - 1);
        }
      } else {
        AcceptsBalanced(ps[1..], d);
      }
    }
  }

  /** Without that condition it is refused for balanced text: a lone quoted parenthesis. */
  lemma {:induction false} QuotedParenthesisRefused()
    ensures exists ps :: WellSpaced(ps) && TrulyBalanced(ps, 0) && !Balanced(TokensOf(ps), 0)
  {
    var ls := [Letter(false, '(')];
    assert AreLetters(ls[1..]);
    assert ls[1..] == [];
    assert Chars(ls) == OPEN;
    var p := Piece([], InQuotes(ls));
    var ps := [p];
    assert ps[1..] == [];
    assert WellSpaced(ps) && TrulyBalanced(ps, 0);
    assert TokensOf(ps) == [OPEN];
    assert [OPEN][1..] == [];
    assert !Balanced([OPEN], 0);
  }

  // ----- Exactly when the reader is right -----

  /** What a piece is: a parenthesis, or a word, quoted or bare. */
  datatype Mark = Opens | Closes | Says(text: string)

  function MarkOf(s: Spelling): Mark {
    match s
    case Parenthesis(c) => if c == '(' then Opens else Closes
    case _ => Says(TokenOf(s))
  }

  function MarksOf(ps: seq<Piece>): seq<Mark> {
    if ps == [] then [] else [MarkOf(ps[0].spelling)] + MarksOf(ps[1..])
  }

  /** The marks of a form, every atom a word. */
  function MarksIn(f: Form, rest: seq<Mark>): seq<Mark>
    decreases f, 1
  {
    match f
    case Atom(t) => [Says(t)] + rest
    case List(items) => [Opens] + MarksInAll(items, [Closes] + rest)
  }

  function MarksInAll(fs: seq<Form>, rest: seq<Mark>): seq<Mark>
    decreases fs, 0
  {
    if fs == [] then rest else MarksIn(fs[0], MarksInAll(fs[1..], rest))
  }

  /** The forest the pieces are written as. */
  ghost predicate Means(ps: seq<Piece>, fs: seq<Form>) {
    MarksInAll(fs, []) == MarksOf(ps)
  }

  /** What the reader takes a token for. */
  function Taken(t: string): Mark {
    if t == OPEN then Opens else if t == CLOSE then Closes else Says(t)
  }

  function TakenAll(ts: seq<string>): seq<Mark> {
    if ts == [] then [] else [Taken(ts[0])] + TakenAll(ts[1..])
  }

  lemma {:induction false} TakenFirst(t: string, rest: seq<string>)
    ensures TakenAll([t] + rest) == [Taken(t)] + TakenAll(rest)
  {
    assert ([t] + rest)[1..] == rest;
  }

  /** Of a forest without such atoms the reader takes every token for what it is. */
  lemma {:induction false} TakenForm(f: Form, rest: seq<string>)
    requires Plain(f)
    ensures TakenAll(Flat(f, rest)) == MarksIn(f, TakenAll(rest))
    decreases f, 1
  {
    match f
    case Atom(t) => TakenFirst(t, rest);
    case List(items) =>
      TakenFirst(CLOSE, rest);
      TakenForms(items, [CLOSE] + rest);
      TakenFirst(OPEN, FlatAll(items, [CLOSE] + rest));
  }

  lemma {:induction false} TakenForms(fs: seq<Form>, rest: seq<string>)
    requires PlainAll(fs)
    ensures TakenAll(FlatAll(fs, rest)) == MarksInAll(fs, TakenAll(rest))
    decreases fs, 0
  {
    if fs != [] {
      TakenForms(fs[1..], rest);
      TakenForm(fs[0], FlatAll(fs[1..], rest));
    }
  }

  lemma {:induction false} TakenSpelling(s: Spelling)
    requires IsSpelling(s)
    ensures Taken(TokenOf(s)) == MarkOf(s) <==> (s.InQuotes? ==> TokenOf(s) != OPEN && TokenOf(s) != CLOSE)
  {
    if s.Bare? {
      assert !EndsWord(s.word[0]);
    }
  }

  /** The reader takes every piece for what it is exactly when no quoted string is a parenthesis. */
  lemma {:induction false} TakenIff(ps: seq<Piece>)
    requires WellSpaced(ps)
    ensures TakenAll(TokensOf(ps)) == MarksOf(ps) <==> NoQuotedParenthesis(ps)
  {
    if ps != [] {
      var a, b := TakenAll(TokensOf(ps[1..])), MarksOf(ps[1..]);
      var x, y := Taken(TokenOf(ps[0].spelling)), MarkOf(ps[0].spelling);
      TakenSpelling(ps[0].spelling);
      TakenIff(ps[1..]);
      TakenFirst(TokenOf(ps[0].spelling), TokensOf(ps[1..]));
      assert [x] + a == [y] + b <==> x == y && a == b by {
        assert ([x] + a)[0] == x && ([y] + b)[0] == y && ([x] + a)[1..] == a && ([y] + b)[1..] == b;
      }
    }
  }

  /** Forests one inside the other, the inner ones not yet closed. */
  function Levels(levels: seq<seq<Form>>): seq<string>
    requires levels != []
  {
    if |levels| == 1 then FlatAll(levels[0], []) else FlatAll(levels[0], [CLOSE] + Levels(levels[1..]))
  }

  ghost predicate AllPlain(levels: seq<seq<Form>>) {
    forall i | 0 <= i < |levels| :: PlainAll(levels[i])
  }

  lemma {:induction false} FormFirst(f: Form, levels: seq<seq<Form>>)
    requires levels != [] && Plain(f) && AllPlain(levels)
    ensures var more := [[f] + levels[0]] + levels[1..];
            AllPlain(more) && Levels(more) == Flat(f, Levels(levels))
  {
    var more := [[f] + levels[0]] + levels[1..];
    assert more[0][1..] == levels[0] && more[1..] == levels[1..];
    assert PlainAll(more[0]);
  }

  /** Tokens whose parentheses close are those of some forest. */
  lemma {:induction false} BalancedHasForest(ts: seq<string>, d: nat) returns (levels: seq<seq<Form>>)
    requires Balanced(ts, d)
    ensures |levels| == d + 1 && AllPlain(levels) && Levels(levels) == ts
  {
    if ts == [] {
      levels := [[]];
    } else {
      assert ts == [ts[0]] + ts[1..];
      if ts[0] == OPEN {
        var inner := BalancedHasForest(ts[1..], d + 1);
        levels := Closed(inner);
      } else if ts[0] == CLOSE {
        var inner := BalancedHasForest(ts[1..], d - 1);
        levels := [[]] + inner;
        assert levels[1..] == inner;
      } else {
        var inner := BalancedHasForest(ts[1..], d);
        FormFirst(Atom(ts[0]), inner);
        levels := [[Atom(ts[0])] + inner[0]] + inner[1..];
      }
    }
  }

  lemma {:induction false} Closed(inner: seq<seq<Form>>) returns (levels: seq<seq<Form>>)
    requires |inner| > 1 && AllPlain(inner)
    ensures |levels| == |inner| - 1 && AllPlain(levels) && Levels(levels) == [OPEN] + Levels(inner)
  {
    var outer := inner[1..];
    FormFirst(List(inner[0]), outer);
    levels := [[List(inner[0])] + outer[0]] + outer[1..];
  }

  lemma {:induction false} BalancedMarks(f: Form, rest: seq<Mark>, d: nat)
    ensures CloseAll(MarksIn(f, rest), d) == CloseAll(rest, d)
    decreases f, 1
  {
    match f
    case Atom(t) =>
      assert ([Says(t)] + rest)[1..] == rest;
    case List(items) =>
      var inner := MarksInAll(items, [Closes] + rest);
      assert ([Opens] + inner)[1..] == inner && ([Closes] + rest)[1..] == rest;
      BalancedMarksAll(items, [Closes] + rest, d + 1);
  }

  lemma {:induction false} BalancedMarksAll(fs: seq<Form>, rest: seq<Mark>, d: nat)
    ensures CloseAll(MarksInAll(fs, rest), d) == CloseAll(rest, d)
    decreases fs, 0
  {
    if fs != [] {
      BalancedMarks(fs[0], MarksInAll(fs[1..], rest), d);
      BalancedMarksAll(fs[1..], rest, d);
    }
  }

  predicate CloseAll(ms: seq<Mark>, d: nat) {
    if ms == [] then d == 0
    else match ms[0]
      case Opens => CloseAll(ms[1..], d + 1)
      case Closes => d > 0 && CloseAll(ms[1..], d - 1)
      case Says(_) => CloseAll(ms[1..], d)
  }

  lemma {:induction false} MarksClose(ps: seq<Piece>, d: nat)
    requires WellSpaced(ps)
    ensures CloseAll(MarksOf(ps), d) == TrulyBalanced(ps, d)
  {
    if ps != [] {
      assert MarksOf(ps)[1..] == MarksOf(ps[1..]);
      match MarkOf(ps[0].spelling)
      case Opens => MarksClose(ps[1..], d + 1);
      case Closes =>
        if d > 0 {
          MarksClose(ps[1..], d - 1);
        }
      case Says(_) => MarksClose(ps[1..], d);
    }
  }

  /** The reader returns the forest that was written, every quoted or bare
      piece an atom of it, exactly when the parentheses outside quotes close
      and no quoted string is a parenthesis. */
  lemma {:induction false} ReadsWrittenIff(ps: seq<Piece>, end: Ending)
    requires WellSpaced(ps) && IsEnding(end)
    ensures (exists fs :: Means(ps, fs) && Reads(Write(ps, end), fs)) <==> TrulyBalanced(ps, 0) && NoQuotedParenthesis(ps)
  {
    LexWritten(ps, end);
    TakenIff(ps);
    if fs :| Means(ps, fs) && Reads(Write(ps, end), fs) {
      TakenForms(fs, []);
      BalancedMarksAll(fs, [], 0);
      MarksClose(ps, 0);
    }
    if TrulyBalanced(ps, 0) && NoQuotedParenthesis(ps) {
      AcceptsBalanced(ps, 0);
      var levels := BalancedHasForest(TokensOf(ps), 0);
      TakenForms(levels[0], []);
      assert Means(ps, levels[0]) && Reads(Write(ps, end), levels[0]);
    }
  }

  lemma {:induction false} FirstPiece(p: Piece, rest: seq<Piece>, d: nat)
    ensures TokensOf([p] + rest) == [TokenOf(p.spelling)] + TokensOf(rest)
    ensures TrulyBalanced([p] + rest, d) ==
            if p.spelling == Parenthesis('(') then TrulyBalanced(rest, d + 1)
            else if p.spelling == Parenthesis(')') then d > 0 && TrulyBalanced(rest, d - 1)
            else TrulyBalanced(rest, d)
  {
    assert ([p] + rest)[1..] == rest;
  }

  lemma {:induction false} FirstToken(t: string, rest: seq<string>, d: nat)
    ensures Balanced([t] + rest, d) ==
            if t == OPEN then Balanced(rest, d + 1)
            else if t == CLOSE then d > 0 && Balanced(rest, d - 1)
            else Balanced(rest, d)
  {
    assert ([t] + rest)[1..] == rest;
  }

  /** ` ")"`, written last. */
  lemma {:induction false} LastQuoted() returns (p: Piece)
    ensures p.gap != [] && p.spelling.InQuotes? && TokenOf(p.spelling) == CLOSE && WellSpaced([p])
  {
    var ls, gap := [Letter(false, ')')], [Space(' ')];
    assert ls[1..] == [] && gap[1..] == [];
    p := Piece(gap, InQuotes(ls));
    assert Chars(ls) == [')'] + Chars([]);
    assert [p][1..] == [];
  }

  /** Otherwise it may accept a text that is not balanced: `(a ")"`. */
  lemma {:induction false} QuotedParenthesisAccepted()
    ensures exists ps :: WellSpaced(ps) && !TrulyBalanced(ps, 0) && Balanced(TokensOf(ps), 0)
  {
    var open, word := Piece([], Parenthesis('(')), Piece([], Bare("a"));
    var quoted := LastQuoted();
    var two := [word] + [quoted];
    var ps := [open] + two;
    assert two[1..] == [quoted] && two[1] == quoted;
    assert WellSpaced(two);
    assert [quoted] + [] == [quoted] && [CLOSE] + [] == [CLOSE];
    FirstPiece(quoted, [], 1);
    FirstPiece(word, [quoted], 1);
    FirstPiece(open, two, 0);
    OnePiece(open, two);
    FirstToken(CLOSE, [], 1);
    FirstToken("a", [CLOSE], 1);
    FirstToken(OPEN, ["a"] + [CLOSE], 0);
    assert TokensOf([quoted]) == [CLOSE];
    assert WellSpaced(ps) && !TrulyBalanced(ps, 0) && Balanced(TokensOf(ps), 0);
  }
}
