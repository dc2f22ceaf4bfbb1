/** What an obligation says: its text read as SMT-LIB commands, their models,
    and why renaming atoms and dropping comment lines keeps unsatisfiability.

    The fragment is the one the compiler writes: `set-logic`, `declare-const`,
    nullary `define-fun`, `assert` and `check-sat`, with no quoted symbols or
    strings. The theory (integers, bit vectors) is a parameter. */
module SmtLogic {
  import opened PyText
  import opened SmtText
  import opened Options

  type Symbol = seq<Token>

  datatype Lexeme = Open | Close | Word(sym: Symbol) | Foreign

  datatype SExp = Sym(name: Symbol) | Node(items: seq<SExp>)

  // ----- Reading -----

  predicate IsEol(t: Token) {
    t == Plain('\n') || t == Plain('\r')
  }

  predicate IsGap(t: Token) {
    IsEol(t) || t == Plain(' ') || t == Plain('\t')
  }

  /** Letters, digits and the punctuation of simple symbols, keywords and
      literals. */
  predicate SymbolChar(c: char) {
    || 'a' <= c <= 'z' || 'A' <= c <= 'Z' || '-' <= c <= ':' || '<' <= c <= '@' || '^' <= c <= '_'
    || c == '!' || '#' <= c <= '&' || '*' <= c <= '+' || c == '~'
  }

  predicate InSymbol(t: Token) {
    t.Atom? || SymbolChar(t.c)
  }

  function Flush(cur: Symbol): seq<Lexeme> {
    if cur == [] then [] else [Word(cur)]
  }

  /** What a token outside symbols and comments stands for. */
  function Mark(t: Token): seq<Lexeme> {
    if t == Plain('(') then [Open]
    else if t == Plain(')') then [Close]
    else if t == Plain(';') || IsGap(t) then []
    else [Foreign]
  }

  /** The lexemes of ts, after `cur` of a symbol, or inside a comment. */
  function Scan(ts: seq<Token>, cur: Symbol, comment: bool): seq<Lexeme> {
    if ts == [] then Flush(cur)
    else
      var t, rest := ts[0], ts[1..];
      if comment then Scan(rest, cur, !IsEol(t))
      else if InSymbol(t) then Scan(rest, cur + [t], false)
      else Flush(cur) + Mark(t) + Scan(rest, [], t == Plain(';'))
  }

  /** One lexeme; the stack holds the lists still open, the innermost last. */
  function Feed(l: Lexeme, stack: seq<seq<SExp>>): (r: Option<seq<seq<SExp>>>)
    requires |stack| > 0
    ensures r.Some? ==> |r.value| > 0
  {
    var n := |stack| - 1;
    match l
    case Open => Some(stack + [[]])
    case Close => if n == 0 then None else Some(stack[..n - 1] + [stack[n - 1] + [Node(stack[n])]])
    case Word(s) => Some(stack[..n] + [stack[n] + [Sym(s)]])
    case Foreign => None
  }

  /** The expressions of ls, read after the stack. */
  function Parse(ls: seq<Lexeme>, stack: seq<seq<SExp>>): Option<seq<SExp>>
    requires |stack| > 0
  {
    if ls == [] then if |stack| == 1 then Some(stack[0]) else None
    else match Feed(ls[0], stack)
      case None => None
      case Some(stack') => Parse(ls[1..], stack')
  }

  function Read(ts: seq<Token>): Option<seq<SExp>> {
    Parse(Scan(ts, [], false), [[]])
  }

  // ----- Meaning -----

  datatype Value = IntV(i: int) | BoolV(b: bool) | BitsV(width: nat, bits: nat) | Undefined

  type Model = Symbol -> Value

  /** `known` are the literals and constants of the theory, `apply` its
      operators, `inSort` its sorts. */
  datatype Theory = Theory(
    known: Symbol -> bool,
    apply: (SExp, seq<Value>) -> Value,
    inSort: (SExp, Value) -> bool)

  predicate AtomFree(s: Symbol) {
    forall i | 0 <= i < |s| :: s[i].Plain?
  }

  predicate AtomFreeExp(e: SExp) {
    match e
    case Sym(s) => AtomFree(s)
    case Node(items) => forall x | x in items :: AtomFreeExp(x)
  }

  /** No theory symbol contains an `x_` word, so no atom captures one. */
  ghost predicate NoCapture(th: Theory) {
    && (forall s | th.known(s) :: AtomFree(s))
    && (forall e, vs | !AtomFreeExp(e) :: th.apply(e, vs) == Undefined)
    && forall e, v | !AtomFreeExp(e) :: !th.inSort(e, v)
  }

  function Eval(e: SExp, th: Theory, m: Model): Value
    decreases e, 1
  {
    match e
    case Sym(s) => if th.known(s) then th.apply(e, []) else m(s)
    case Node(items) =>
      if items == [] then Undefined else th.apply(items[0], EvalAll(items[1..], th, m))
  }

  function EvalAll(es: seq<SExp>, th: Theory, m: Model): seq<Value>
    decreases es, 0
  {
    if es == [] then [] else [Eval(es[0], th, m)] + EvalAll(es[1..], th, m)
  }

  function Keyword(s: string): SExp {
    Sym(Plains(s))
  }

  predicate IsDeclare(c: SExp) {
    c.Node? && |c.items| == 3 && c.items[0] == Keyword("declare-const") && c.items[1].Sym?
  }

  predicate IsDefine(c: SExp) {
    c.Node? && |c.items| == 5 && c.items[0] == Keyword("define-fun") && c.items[1].Sym? && c.items[2] == Node([])
  }

  predicate IsAssert(c: SExp) {
    c.Node? && |c.items| == 2 && c.items[0] == Keyword("assert")
  }

  predicate IsSetLogic(c: SExp) {
    c.Node? && |c.items| == 2 && c.items[0] == Keyword("set-logic")
  }

  predicate IsCheckSat(c: SExp) {
    c == Node([Keyword("check-sat")])
  }

  predicate InFragment(c: SExp) {
    IsDeclare(c) || IsDefine(c) || IsAssert(c) || IsSetLogic(c) || IsCheckSat(c)
  }

  /** What a command demands of a model. */
  predicate Holds(c: SExp, th: Theory, m: Model) {
    && (IsDeclare(c) ==> th.inSort(c.items[2], m(c.items[1].name)))
    && (IsDefine(c) ==> th.inSort(c.items[3], m(c.items[1].name)) && m(c.items[1].name) == Eval(c.items[4], th, m))
    && (IsAssert(c) ==> Eval(c.items[1], th, m) == BoolV(true))
  }

  /** m satisfies every command before the first `check-sat`. */
  predicate Satisfies(cs: seq<SExp>, th: Theory, m: Model) {
    cs == [] || IsCheckSat(cs[0]) || (Holds(cs[0], th, m) && Satisfies(cs[1..], th, m))
  }

  ghost predicate UnsatScript(cs: seq<SExp>, th: Theory) {
    (forall c | c in cs :: InFragment(c)) ==> forall m: Model :: !Satisfies(cs, th, m)
  }

  ghost predicate UnsatTokens(ts: seq<Token>, th: Theory) {
    Read(ts).Some? ==> UnsatScript(Read(ts).value, th)
  }

  /** The obligation is refuted: no model satisfies its commands. A text
      outside the fragment claims nothing. */
  ghost predicate Unsat(text: string, th: Theory, beyond: char -> bool) {
    UnsatTokens(Lex(text, beyond), th)
  }

  // ----- Renaming keeps unsatisfiability -----

  function RenameExp(r: map<string, string>, e: SExp): SExp {
    match e
    case Sym(s) => Sym(Rename(r, s))
    case Node(items) => Node(seq(|items|, i requires 0 <= i < |items| => RenameExp(r, items[i])))
  }

  function RenameAll(r: map<string, string>, es: seq<SExp>): (es': seq<SExp>)
    ensures |es'| == |es| && forall i | 0 <= i < |es| :: es'[i] == RenameExp(r, es[i])
  {
    seq(|es|, i requires 0 <= i < |es| => RenameExp(r, es[i]))
  }

  function RenameLexeme(r: map<string, string>, l: Lexeme): Lexeme {
    if l.Word? then Word(Rename(r, l.sym)) else l
  }

  function RenameLexemes(r: map<string, string>, ls: seq<Lexeme>): (ls': seq<Lexeme>)
    ensures |ls'| == |ls| && forall i | 0 <= i < |ls| :: ls'[i] == RenameLexeme(r, ls[i])
  {
    seq(|ls|, i requires 0 <= i < |ls| => RenameLexeme(r, ls[i]))
  }

  function RenameStack(r: map<string, string>, st: seq<seq<SExp>>): (st': seq<seq<SExp>>)
    ensures |st'| == |st| && forall i | 0 <= i < |st| :: st'[i] == RenameAll(r, st[i])
  {
    seq(|st|, i requires 0 <= i < |st| => RenameAll(r, st[i]))
  }

  lemma {:induction false} RenameFlushed(cur: Symbol, t: Token, ls: seq<Lexeme>, r: map<string, string>)
    requires t.Plain?
    ensures RenameLexemes(r, Flush(cur) + Mark(t) + ls) == Flush(Rename(r, cur)) + Mark(t) + RenameLexemes(r, ls)
  {
    assert RenameLexemes(r, Flush(cur)) == Flush(Rename(r, cur));
    assert RenameLexemes(r, Mark(t)) == Mark(t);
  }

  lemma {:induction false} ScanRest(ts: seq<Token>, cur: Symbol)
    requires ts != [] && !InSymbol(ts[0])
    ensures Scan(ts, cur, false) == Flush(cur) + Mark(ts[0]) + Scan(ts[1..], [], ts[0] == Plain(';'))
  {
  }

  /** A renaming never changes where a symbol starts or ends. */
  lemma {:induction false} ScanRenamed(ts: seq<Token>, cur: Symbol, comment: bool, r: map<string, string>)
    ensures Scan(Rename(r, ts), Rename(r, cur), comment) == RenameLexemes(r, Scan(ts, cur, comment))
  {
    if ts != [] {
      var t, rest := ts[0], ts[1..];
      assert Rename(r, ts)[1..] == Rename(r, rest);
      if comment {
        ScanRenamed(rest, cur, !IsEol(t), r);
      } else if InSymbol(t) {
        ScanRenamed(rest, cur + [t], false, r);
        assert Rename(r, cur + [t]) == Rename(r, cur) + [RenameToken(r, t)];
      } else {
        ScanRenamed(rest, [], t == Plain(';'), r);
        assert Rename(r, []) == [];
        ScanRest(ts, cur);
        ScanRest(Rename(r, ts), Rename(r, cur));
        RenameFlushed(cur, t, Scan(rest, [], t == Plain(';')), r);
      }
    }
  }

  lemma {:induction false} FeedRenamed(l: Lexeme, stack: seq<seq<SExp>>, r: map<string, string>)
    requires |stack| > 0
    ensures var f := Feed(l, stack);
            Feed(RenameLexeme(r, l), RenameStack(r, stack)) == if f.None? then None else Some(RenameStack(r, f.value))
  {
    var n, st := |stack| - 1, RenameStack(r, stack);
    match l
    case Open =>
      assert RenameStack(r, stack + [[]]) == st + [[]];
    case Close =>
      if n > 0 {
        var top := stack[n - 1] + [Node(stack[n])];
        assert RenameAll(r, top) == st[n - 1] + [Node(st[n])];
        assert RenameStack(r, stack[..n - 1] + [top]) == st[..n - 1] + [st[n - 1] + [Node(st[n])]];
      }
    case Word(s) =>
      var top := stack[n] + [Sym(s)];
      assert RenameAll(r, top) == st[n] + [Sym(Rename(r, s))];
      assert RenameStack(r, stack[..n] + [top]) == st[..n] + [st[n] + [Sym(Rename(r, s))]];
    case Foreign =>
  }

  lemma {:induction false} ParseRenamed(ls: seq<Lexeme>, stack: seq<seq<SExp>>, r: map<string, string>)
    requires |stack| > 0
    ensures var p := Parse(ls, stack);
            Parse(RenameLexemes(r, ls), RenameStack(r, stack)) == if p.None? then None else Some(RenameAll(r, p.value))
  {
    if ls != [] {
      assert RenameLexemes(r, ls)[1..] == RenameLexemes(r, ls[1..]);
      FeedRenamed(ls[0], stack, r);
      var f := Feed(ls[0], stack);
      if f.Some? {
        ParseRenamed(ls[1..], f.value, r);
      }
    }
  }

  lemma {:induction false} ReadRenamed(ts: seq<Token>, r: map<string, string>)
    ensures var p := Read(ts);
            Read(Rename(r, ts)) == if p.None? then None else Some(RenameAll(r, p.value))
  {
    ScanRenamed(ts, [], false, r);
    assert Rename(r, []) == [];
    ParseRenamed(Scan(ts, [], false), [[]], r);
    assert RenameStack(r, [[]]) == [[]];
  }

  lemma {:induction false} RenameAtomFree(s: Symbol, r: map<string, string>)
    ensures AtomFree(Rename(r, s)) <==> AtomFree(s)
    ensures AtomFree(s) ==> Rename(r, s) == s
  {
    assert forall i | 0 <= i < |s| :: Rename(r, s)[i].Atom? <==> s[i].Atom?;
  }

  lemma {:induction false} RenameAtomFreeExp(e: SExp, r: map<string, string>)
    ensures AtomFreeExp(RenameExp(r, e)) <==> AtomFreeExp(e)
    ensures AtomFreeExp(e) ==> RenameExp(r, e) == e
  {
    match e
    case Sym(s) => RenameAtomFree(s, r);
    case Node(items) =>
      var items' := RenameExp(r, e).items;
      forall i | 0 <= i < |items|
        ensures AtomFreeExp(items'[i]) <==> AtomFreeExp(items[i])
        ensures AtomFreeExp(items[i]) ==> items'[i] == items[i]
      {
        RenameAtomFreeExp(items[i], r);
      }
      if AtomFreeExp(e) {
        assert forall i | 0 <= i < |items| :: items[i] in items;
        assert items' == items;
      }
      if AtomFreeExp(RenameExp(r, e)) {
        assert forall i | 0 <= i < |items| :: items'[i] in items';
      }
  }

  /** The model of the text before the renaming. */
  function Pull(m: Model, r: map<string, string>): Model {
    s => m(Rename(r, s))
  }

  lemma {:induction false} ApplyRenamed(op: SExp, vs: seq<Value>, th: Theory, r: map<string, string>)
    requires NoCapture(th)
    ensures th.apply(RenameExp(r, op), vs) == th.apply(op, vs)
  {
    RenameAtomFreeExp(op, r);
  }

  lemma {:induction false} EvalRenamed(e: SExp, th: Theory, m: Model, r: map<string, string>)
    requires NoCapture(th)
    ensures Eval(RenameExp(r, e), th, m) == Eval(e, th, Pull(m, r))
    decreases e, 1
  {
    match e
    case Sym(s) =>
      RenameAtomFree(s, r);
      ApplyRenamed(e, [], th, r);
    case Node(items) =>
      if items != [] {
        EvalAllRenamed(items[1..], th, m, r);
        ApplyRenamed(items[0], EvalAll(items[1..], th, Pull(m, r)), th, r);
        assert RenameExp(r, e).items[1..] == RenameAll(r, items[1..]);
      }
  }

  lemma {:induction false} EvalAllRenamed(es: seq<SExp>, th: Theory, m: Model, r: map<string, string>)
    requires NoCapture(th)
    ensures EvalAll(RenameAll(r, es), th, m) == EvalAll(es, th, Pull(m, r))
    decreases es, 0
  {
    if es != [] {
      EvalRenamed(es[0], th, m, r);
      EvalAllRenamed(es[1..], th, m, r);
      assert RenameAll(r, es)[1..] == RenameAll(r, es[1..]);
    }
  }

  /** A renaming turns no expression into a keyword, and keeps keywords. */
  lemma {:induction false} KeywordRenamed(s: string, e: SExp, r: map<string, string>)
    ensures RenameExp(r, e) == Keyword(s) <==> e == Keyword(s)
  {
    RenameAtomFreeExp(e, r);
    assert AtomFree(Plains(s));
  }

  lemma {:induction false} CommandRenamed(c: SExp, r: map<string, string>)
    ensures var c' := RenameExp(r, c);
            && (IsDeclare(c') <==> IsDeclare(c)) && (IsDefine(c') <==> IsDefine(c)) && (IsAssert(c') <==> IsAssert(c))
            && (IsSetLogic(c') <==> IsSetLogic(c)) && (IsCheckSat(c') <==> IsCheckSat(c))
  {
    if c.Node? && c.items != [] {
      KeywordRenamed("declare-const", c.items[0], r);
      KeywordRenamed("define-fun", c.items[0], r);
      KeywordRenamed("assert", c.items[0], r);
      KeywordRenamed("set-logic", c.items[0], r);
      KeywordRenamed("check-sat", c.items[0], r);
      assert IsCheckSat(c) <==> |c.items| == 1 && c.items[0] == Keyword("check-sat") by {
        if |c.items| == 1 { assert c.items == [c.items[0]]; }
      }
      var c' := RenameExp(r, c);
      assert IsCheckSat(c') <==> |c'.items| == 1 && c'.items[0] == Keyword("check-sat") by {
        if |c'.items| == 1 { assert c'.items == [c'.items[0]]; }
      }
    }
  }

  lemma {:induction false} HoldsRenamed(c: SExp, th: Theory, m: Model, r: map<string, string>)
    requires NoCapture(th)
    ensures Holds(RenameExp(r, c), th, m) <==> Holds(c, th, Pull(m, r))
  {
    CommandRenamed(c, r);
    if IsDeclare(c) {
      RenameAtomFreeExp(c.items[2], r);
    } else if IsDefine(c) {
      RenameAtomFreeExp(c.items[3], r);
      EvalRenamed(c.items[4], th, m, r);
    } else if IsAssert(c) {
      EvalRenamed(c.items[1], th, m, r);
    }
  }

  lemma {:induction false} SatisfiesRenamed(cs: seq<SExp>, th: Theory, m: Model, r: map<string, string>)
    requires NoCapture(th)
    ensures Satisfies(RenameAll(r, cs), th, m) <==> Satisfies(cs, th, Pull(m, r))
  {
    if cs != [] {
      CommandRenamed(cs[0], r);
      HoldsRenamed(cs[0], th, m, r);
      SatisfiesRenamed(cs[1..], th, m, r);
      assert RenameAll(r, cs)[1..] == RenameAll(r, cs[1..]);
    }
  }

  /** A refuted text stays refuted when its atoms are renamed. */
  lemma {:induction false} UnsatRenamed(ts: seq<Token>, th: Theory, r: map<string, string>)
    requires NoCapture(th) && UnsatTokens(ts, th)
    ensures UnsatTokens(Rename(r, ts), th)
  {
    ReadRenamed(ts, r);
    if Read(ts).Some? {
      var cs := Read(ts).value;
      var cs' := RenameAll(r, cs);
      if forall c | c in cs' :: InFragment(c) {
        forall c | c in cs
          ensures InFragment(c)
        {
          var i :| 0 <= i < |cs| && cs[i] == c;
          assert cs'[i] in cs';
          CommandRenamed(c, r);
        }
        forall m: Model
          ensures !Satisfies(cs', th, m)
        {
          SatisfiesRenamed(cs, th, m, r);
        }
      }
    }
  }

  // ----- Comment lines -----

  /** No line feed and no carriage return. */
  ghost predicate OneLine(l: string) {
    forall i | 0 <= i < |l| :: l[i] != '\n' && l[i] != '\r'
  }

  lemma {:induction false} LexNoBreak(l: string, run: string, beyond: char -> bool)
    requires OneLine(l) && OneLine(run)
    ensures NoEol(LexFrom(l, run, beyond))
  {
    if l != [] {
      if WordChar(l[0], beyond) {
        LexNoBreak(l[1..], run + [l[0]], beyond);
      } else {
        LexNoBreak(l[1..], "", beyond);
      }
    }
  }

  ghost predicate NoEol(ts: seq<Token>) {
    forall i | 0 <= i < |ts| :: !IsEol(ts[i])
  }

  /** A line feed ends both symbols and comments. */
  lemma {:induction false} ScanLine(a: seq<Token>, b: seq<Token>, cur: Symbol, comment: bool)
    requires comment ==> cur == []
    ensures Scan(a + [Plain('\n')] + b, cur, comment) == Scan(a + [Plain('\n')], cur, comment) + Scan(b, [], false)
  {
    var nl := [Plain('\n')];
    if a == [] {
      assert (a + nl + b)[1..] == b && (a + nl)[1..] == [];
    } else {
      assert (a + nl + b)[1..] == a[1..] + nl + b && (a + nl)[1..] == a[1..] + nl;
      var t := a[0];
      if comment {
        ScanLine(a[1..], b, [], !IsEol(t));
      } else if InSymbol(t) {
        ScanLine(a[1..], b, cur + [t], false);
      } else {
        ScanLine(a[1..], b, [], t == Plain(';'));
      }
    }
  }

  lemma {:induction false} ScanEnd(a: seq<Token>, cur: Symbol, comment: bool)
    requires comment ==> cur == []
    ensures Scan(a + [Plain('\n')], cur, comment) == Scan(a, cur, comment)
  {
    var nl := [Plain('\n')];
    if a == [] {
      assert a + nl == nl && nl[1..] == [];
    } else {
      assert (a + nl)[1..] == a[1..] + nl;
      var t := a[0];
      if comment {
        ScanEnd(a[1..], [], !IsEol(t));
      } else if InSymbol(t) {
        ScanEnd(a[1..], cur + [t], false);
      } else {
        ScanEnd(a[1..], [], t == Plain(';'));
      }
    }
  }

  lemma {:induction false} ScanComment(a: seq<Token>)
    requires NoEol(a)
    ensures Scan(a, [], true) == []
  {
    if a != [] {
      ScanComment(a[1..]);
    }
  }

  lemma {:induction false} ScanCommentLine(l: string, beyond: char -> bool)
    requires OneLine(l) && IsComment(l)
    ensures Scan(Lex(l, beyond), [], false) == []
  {
    LexNoBreak(l, "", beyond);
    var ts := Lex(l, beyond);
    assert ts == Run("") + [Plain(';')] + Lex(l[1..], beyond);
    ScanComment(ts[1..]);
  }

  /** The first line of a text whose breaks are line feeds. */
  lemma {:induction false} FirstLine(s: string) returns (l: string, rest: string, last: bool)
    requires s != [] && PlainBreaks(s)
    ensures NoBreak(l) && PlainBreaks(rest)
    ensures last ==> s == l && SplitLines(s) == [l] && KeepLines(s) == [l]
    ensures !last ==> s == l + "\n" + rest && |rest| < |s|
    ensures !last ==> SplitLines(s) == [l] + SplitLines(rest) && KeepLines(s) == [l + "\n"] + KeepLines(rest)
  {
    var n := LineLen(s);
    l := s[..n];
    if n == |s| {
      last, rest := true, "";
      assert LineEnd(s) == n && s[..n] == s;
    } else {
      last, rest := false, s[n + 1..];
      assert s == l + "\n" + rest;
      SplitLinesLine(l, rest);
    }
  }

  /** Comment lines say nothing: the code lines alone are read the same. */
  lemma {:induction false} ScanCode(body: string, beyond: char -> bool)
    requires PlainBreaks(body)
    ensures Scan(Lex(body, beyond), [], false) == Scan(Lex(Code(body), beyond), [], false)
    decreases |body|
  {
    if body != [] {
      var l, rest, last := FirstLine(body);
      var lines, lts := SplitLines(body), Lex(l, beyond);
      LexCode(lines, beyond);
      if IsComment(l) {
        ScanCommentLine(l, beyond);
      }
      if last {
        assert CodeTokens(lines, beyond) == if IsComment(l) then [] else lts + [Plain('\n')];
        ScanEnd(lts, [], false);
      } else {
        var rts := Lex(Code(rest), beyond);
        assert lines[1..] == SplitLines(rest);
        LexCode(SplitLines(rest), beyond);
        ScanCode(rest, beyond);
        LexLine(l, rest, beyond);
        ScanLine(lts, Lex(rest, beyond), [], false);
        ScanEnd(lts, [], false);
        if IsComment(l) {
          assert CodeTokens(lines, beyond) == rts;
        } else {
          assert CodeTokens(lines, beyond) == lts + [Plain('\n')] + rts;
          ScanLine(lts, rts, [], false);
        }
      }
    }
  }

  lemma {:induction false} UnsatCode(body: string, th: Theory, beyond: char -> bool)
    requires PlainBreaks(body)
    ensures Unsat(body, th, beyond) <==> UnsatTokens(Lex(Code(body), beyond), th)
  {
    ScanCode(body, beyond);
  }

  /** Obligations with one canonical text share one verdict. */
  lemma {:induction false} CanonicalSharesVerdict(b: string, b': string, th: Theory, beyond: char -> bool)
    requires NoCapture(th) && PlainBreaks(b) && PlainBreaks(b')
    requires Canonical(b, beyond) == Canonical(b', beyond)
    ensures Unsat(b, th, beyond) <==> Unsat(b', th, beyond)
  {
    UnsatCode(b, th, beyond);
    UnsatCode(b', th, beyond);
    CanonicalEqual(b, b', beyond);
    CanonicalEqual(b', b, beyond);
    var ts, ts' := Lex(Code(b), beyond), Lex(Code(b'), beyond);
    if UnsatTokens(ts, th) {
      var r :| Renaming(r, ts) && ts' == Rename(r, ts);
      UnsatRenamed(ts, th, r);
    }
    if UnsatTokens(ts', th) {
      var r :| Renaming(r, ts') && ts == Rename(r, ts');
      UnsatRenamed(ts', th, r);
    }
  }
}
