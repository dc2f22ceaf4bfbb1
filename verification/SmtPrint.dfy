/** Commands written one to a line are read back as they were, so a script the
    compiler writes means what it was built from. */
module SmtPrint {
  import opened PyText
  import opened SmtText
  import opened Options
  import opened SmtLogic
  import opened SeqLaws

  // ----- Writing -----

  function Tokens(e: SExp): seq<Token>
    decreases e, 1
  {
    match e
    case Sym(s) => s
    case Node(items) => [Plain('(')] + Inner(items) + [Plain(')')]
  }

  function Inner(items: seq<SExp>): seq<Token>
    decreases items, 1
  {
    Spaced(items) + Gap(items)
  }

  /** A disjunction is written as `or false`, a space, and its cases, so the
      empty one ends in a space. */
  function Gap(items: seq<SExp>): seq<Token> {
    if items == [Keyword("or"), Keyword("false")] then [Plain(' ')] else []
  }

  function Spaced(es: seq<SExp>): seq<Token>
    decreases es, 0
  {
    if es == [] then []
    else if |es| == 1 then Tokens(es[0])
    else Tokens(es[0]) + [Plain(' ')] + Spaced(es[1..])
  }

  /** One command to a line. */
  function Lines(cs: seq<SExp>): seq<Token> {
    if cs == [] then [] else Tokens(cs[0]) + [Plain('\n')] + Lines(cs[1..])
  }

  /** A symbol that reads as itself, written on one line. */
  ghost predicate Proper(s: Symbol, beyond: char -> bool) {
    s != [] && (forall i | 0 <= i < |s| :: InSymbol(s[i])) && Lex(Render(s), beyond) == s && NoBreak(Render(s))
  }

  ghost predicate ProperExp(e: SExp, beyond: char -> bool) {
    match e
    case Sym(s) => Proper(s, beyond)
    case Node(items) => forall x | x in items :: ProperExp(x, beyond)
  }

  ghost predicate ProperAll(es: seq<SExp>, beyond: char -> bool) {
    forall x | x in es :: ProperExp(x, beyond)
  }

  // ----- Reading the characters -----

  lemma {:induction false} LexChar(c: char, s: string, beyond: char -> bool)
    requires !WordChar(c, beyond)
    ensures Lex([c] + s, beyond) == [Plain(c)] + Lex(s, beyond)
  {
    assert ([c] + s)[1..] == s;
    assert Run("") == [];
  }

  lemma {:induction false} LexTokens(e: SExp, rest: string, beyond: char -> bool)
    requires ProperExp(e, beyond) && StartsNonWord(rest, beyond)
    ensures Lex(Render(Tokens(e)) + rest, beyond) == Tokens(e) + Lex(rest, beyond)
    decreases e, 1
  {
    match e
    case Sym(s) =>
      LexFromConcat(Render(s), rest, "", beyond);
    case Node(items) =>
      var inner, tail := Inner(items), ")" + rest;
      LexInner(items, tail, beyond);
      LexChar(')', rest, beyond);
      LexChar('(', Render(inner) + tail, beyond);
      RenderAround(inner);
      Assoc4("(", Render(inner), ")", rest);
      Assoc4([Plain('(')], inner, [Plain(')')], Lex(rest, beyond));
  }

  lemma {:induction false} RenderAround(ts: seq<Token>)
    ensures Render([Plain('(')] + ts + [Plain(')')]) == "(" + Render(ts) + ")"
  {
    RenderConcat([Plain('(')] + ts, [Plain(')')]);
    RenderConcat([Plain('(')], ts);
    assert Render([Plain('(')]) == "(" && Render([Plain(')')]) == ")";
  }

  lemma {:induction false} RenderBetween(a: seq<Token>, c: char, b: seq<Token>)
    ensures Render(a + [Plain(c)] + b) == Render(a) + ([c] + Render(b))
  {
    assert a + [Plain(c)] + b == a + ([Plain(c)] + b);
    RenderConcat(a, [Plain(c)] + b);
    RenderConcat([Plain(c)], b);
    assert Render([Plain(c)]) == [c];
  }

  lemma {:induction false} LexBetween(a: seq<Token>, c: char, b: seq<Token>, rest: string, beyond: char -> bool)
    requires !WordChar(c, beyond)
    requires Lex(Render(a) + ([c] + (Render(b) + rest)), beyond) == a + Lex([c] + (Render(b) + rest), beyond)
    requires Lex(Render(b) + rest, beyond) == b + Lex(rest, beyond)
    ensures Lex(Render(a + [Plain(c)] + b) + rest, beyond) == a + [Plain(c)] + b + Lex(rest, beyond)
  {
    RenderBetween(a, c, b);
    LexChar(c, Render(b) + rest, beyond);
    Assoc(Render(a), [c], Render(b));
    Assoc4(Render(a), [c], Render(b), rest);
    Assoc4(a, [Plain(c)], b, Lex(rest, beyond));
  }

  lemma {:induction false} LexSpaced(es: seq<SExp>, rest: string, beyond: char -> bool)
    requires ProperAll(es, beyond) && StartsNonWord(rest, beyond)
    ensures Lex(Render(Spaced(es)) + rest, beyond) == Spaced(es) + Lex(rest, beyond)
    decreases es, 0
  {
    if es == [] {
      assert Render(Spaced(es)) + rest == rest && Spaced(es) + Lex(rest, beyond) == Lex(rest, beyond);
    } else if |es| == 1 {
      LexTokens(es[0], rest, beyond);
    } else {
      LexSpaced(es[1..], rest, beyond);
      LexTokens(es[0], " " + (Render(Spaced(es[1..])) + rest), beyond);
      LexBetween(Tokens(es[0]), ' ', Spaced(es[1..]), rest, beyond);
    }
  }

  lemma {:induction false} LexInner(items: seq<SExp>, rest: string, beyond: char -> bool)
    requires ProperAll(items, beyond) && StartsNonWord(rest, beyond)
    ensures Lex(Render(Inner(items)) + rest, beyond) == Inner(items) + Lex(rest, beyond)
    decreases items, 1
  {
    if Gap(items) == [] {
      LexSpaced(items, rest, beyond);
      Empty(Spaced(items));
    } else {
      LexSpaced(items, " " + rest, beyond);
      LexChar(' ', rest, beyond);
      RenderGap(Spaced(items));
      Assoc(Render(Spaced(items)), " ", rest);
      Assoc(Spaced(items), [Plain(' ')], Lex(rest, beyond));
    }
  }

  lemma {:induction false} RenderGap(ts: seq<Token>)
    ensures Render(ts + [Plain(' ')]) == Render(ts) + " "
  {
    RenderConcat(ts, [Plain(' ')]);
    assert Render([Plain(' ')]) == " ";
  }

  lemma {:induction false} LexLines(cs: seq<SExp>, beyond: char -> bool)
    requires ProperAll(cs, beyond)
    ensures Lex(Render(Lines(cs)), beyond) == Lines(cs)
  {
    if cs != [] {
      var rest := Lines(cs[1..]);
      LexLines(cs[1..], beyond);
      LexTokens(cs[0], "\n" + (Render(rest) + ""), beyond);
      assert Render(rest) + "" == Render(rest) && Lex("", beyond) == [] && rest + [] == rest;
      LexBetween(Tokens(cs[0]), '\n', rest, "", beyond);
      assert Render(Lines(cs)) + "" == Render(Lines(cs)) && Lines(cs) + [] == Lines(cs);
    }
  }

  // ----- One line each -----

  lemma {:induction false} NoBreakConcat(a: string, b: string)
    requires NoBreak(a) && NoBreak(b)
    ensures NoBreak(a + b)
  {
  }

  lemma {:induction false} TokensNoBreak(e: SExp, beyond: char -> bool)
    requires ProperExp(e, beyond)
    ensures NoBreak(Render(Tokens(e)))
    decreases e, 1
  {
    match e
    case Sym(s) =>
    case Node(items) =>
      SpacedNoBreak(items, beyond);
      RenderConcat(Spaced(items), Gap(items));
      NoBreakConcat(Render(Spaced(items)), Render(Gap(items)));
      RenderAround(Inner(items));
      NoBreakConcat("(", Render(Inner(items)));
      NoBreakConcat("(" + Render(Inner(items)), ")");
  }

  lemma {:induction false} SpacedNoBreak(es: seq<SExp>, beyond: char -> bool)
    requires ProperAll(es, beyond)
    ensures NoBreak(Render(Spaced(es)))
    decreases es, 0
  {
    if es != [] {
      TokensNoBreak(es[0], beyond);
      if |es| > 1 {
        SpacedNoBreak(es[1..], beyond);
        RenderBetween(Tokens(es[0]), ' ', Spaced(es[1..]));
        NoBreakConcat(" ", Render(Spaced(es[1..])));
        NoBreakConcat(Render(Tokens(es[0])), " " + Render(Spaced(es[1..])));
      }
    }
  }

  /** The commands as lines of text. */
  function CommandLines(cs: seq<SExp>): seq<Line> {
    if cs == [] then [] else [Line(Render(Tokens(cs[0])), "\n")] + CommandLines(cs[1..])
  }

  lemma {:induction false} LinesWritten(cs: seq<SExp>)
    ensures WriteLines(CommandLines(cs)) == Render(Lines(cs))
  {
    if cs != [] {
      var rest := CommandLines(cs[1..]);
      LinesWritten(cs[1..]);
      WriteFirst(Line(Render(Tokens(cs[0])), "\n"), rest);
      RenderBetween(Tokens(cs[0]), '\n', Lines(cs[1..]));
      Assoc(Render(Tokens(cs[0])), "\n", Render(Lines(cs[1..])));
    }
  }

  // ----- Reading the commands -----

  function Lexemes(e: SExp): seq<Lexeme>
    decreases e, 1
  {
    match e
    case Sym(s) => [Word(s)]
    case Node(items) => [Open] + LexemesAll(items) + [Close]
  }

  function LexemesAll(es: seq<SExp>): seq<Lexeme>
    decreases es, 0
  {
    if es == [] then [] else Lexemes(es[0]) + LexemesAll(es[1..])
  }

  lemma {:induction false} ScanWord(w: seq<Token>, rest: seq<Token>, cur: Symbol)
    requires forall i | 0 <= i < |w| :: InSymbol(w[i])
    ensures Scan(w + rest, cur, false) == Scan(rest, cur + w, false)
  {
    if w == [] {
      assert w + rest == rest && cur + w == cur;
    } else {
      assert (w + rest)[1..] == w[1..] + rest && cur + [w[0]] + w[1..] == cur + w;
      ScanWord(w[1..], rest, cur + [w[0]]);
    }
  }

  /** After a symbol, a token that is not part of one. */
  predicate Apart(ts: seq<Token>) {
    ts == [] || !InSymbol(ts[0])
  }

  lemma {:induction false} ScanApart(s: Symbol, rest: seq<Token>)
    requires s != [] && Apart(rest)
    ensures Scan(rest, s, false) == [Word(s)] + Scan(rest, [], false)
  {
    if rest != [] {
      assert Flush(s) + Mark(rest[0]) + Scan(rest[1..], [], rest[0] == Plain(';'))
          == [Word(s)] + (Flush([]) + Mark(rest[0]) + Scan(rest[1..], [], rest[0] == Plain(';')));
    }
  }

  lemma {:induction false} ScanMark(t: Token, rest: seq<Token>)
    requires !InSymbol(t) && t != Plain(';')
    ensures Scan([t] + rest, [], false) == Mark(t) + Scan(rest, [], false)
  {
    assert ([t] + rest)[1..] == rest;
  }

  lemma {:induction false} ScanTokens(e: SExp, rest: seq<Token>, beyond: char -> bool)
    requires ProperExp(e, beyond) && Apart(rest)
    ensures Scan(Tokens(e) + rest, [], false) == Lexemes(e) + Scan(rest, [], false)
    decreases e, 1
  {
    match e
    case Sym(s) =>
      ScanWord(s, rest, []);
      Empty(s);
      ScanApart(s, rest);
    case Node(items) =>
      var tail := [Plain(')')] + rest;
      ScanInner(items, tail, beyond);
      ScanMark(Plain(')'), rest);
      ScanMark(Plain('('), Inner(items) + tail);
      Assoc4([Plain('(')], Inner(items), [Plain(')')], rest);
      Assoc4([Open], LexemesAll(items), [Close], Scan(rest, [], false));
  }

  lemma {:induction false} ScanBetween(a: seq<Token>, t: Token, b: seq<Token>, as': seq<Lexeme>, bs: seq<Lexeme>)
    requires IsGap(t) && !InSymbol(t)
    requires Scan(a + ([t] + b), [], false) == as' + Scan([t] + b, [], false)
    requires Scan(b, [], false) == bs
    ensures Scan(a + [t] + b, [], false) == as' + bs
  {
    ScanMark(t, b);
    Assoc(a, [t], b);
    Empty(bs);
  }

  lemma {:induction false} ScanSpaced(es: seq<SExp>, rest: seq<Token>, beyond: char -> bool)
    requires ProperAll(es, beyond) && Apart(rest)
    ensures Scan(Spaced(es) + rest, [], false) == LexemesAll(es) + Scan(rest, [], false)
    decreases es, 0
  {
    if es == [] {
      assert Spaced(es) + rest == rest;
    } else if |es| == 1 {
      ScanTokens(es[0], rest, beyond);
      Empty(Lexemes(es[0]));
    } else {
      var first, others := Tokens(es[0]), Spaced(es[1..]);
      ScanSpaced(es[1..], rest, beyond);
      ScanTokens(es[0], [Plain(' ')] + (others + rest), beyond);
      ScanBetween(first, Plain(' '), others + rest, Lexemes(es[0]), LexemesAll(es[1..]) + Scan(rest, [], false));
      Assoc(first + [Plain(' ')], others, rest);
      Assoc(Lexemes(es[0]), LexemesAll(es[1..]), Scan(rest, [], false));
    }
  }

  lemma {:induction false} ScanInner(items: seq<SExp>, rest: seq<Token>, beyond: char -> bool)
    requires ProperAll(items, beyond) && Apart(rest)
    ensures Scan(Inner(items) + rest, [], false) == LexemesAll(items) + Scan(rest, [], false)
    decreases items, 1
  {
    if Gap(items) == [] {
      ScanSpaced(items, rest, beyond);
      Empty(Spaced(items));
    } else {
      ScanSpaced(items, [Plain(' ')] + rest, beyond);
      ScanMark(Plain(' '), rest);
      Assoc(Spaced(items), [Plain(' ')], rest);
      Empty(Scan(rest, [], false));
    }
  }

  lemma {:induction false} ScanLines(cs: seq<SExp>, beyond: char -> bool)
    requires ProperAll(cs, beyond)
    ensures Scan(Lines(cs), [], false) == LexemesAll(cs)
  {
    if cs != [] {
      var more := Lines(cs[1..]);
      ScanLines(cs[1..], beyond);
      ScanTokens(cs[0], [Plain('\n')] + more, beyond);
      ScanBetween(Tokens(cs[0]), Plain('\n'), more, Lexemes(cs[0]), Scan(more, [], false));
    }
  }

  function Pushed(stack: seq<seq<SExp>>, es: seq<SExp>): seq<seq<SExp>>
    requires |stack| > 0
  {
    var n := |stack| - 1;
    stack[..n] + [stack[n] + es]
  }

  lemma {:induction false} ParseFeed(l: Lexeme, ls: seq<Lexeme>, stack: seq<seq<SExp>>, stack': seq<seq<SExp>>)
    requires |stack| > 0 && Feed(l, stack) == Some(stack')
    ensures Parse([l] + ls, stack) == Parse(ls, stack')
  {
    assert ([l] + ls)[1..] == ls;
  }

  lemma {:induction false} PushedTwice(stack: seq<seq<SExp>>, a: seq<SExp>, b: seq<SExp>)
    requires |stack| > 0
    ensures Pushed(Pushed(stack, a), b) == Pushed(stack, a + b) && Pushed(stack, []) == stack
  {
    var n := |stack| - 1;
    Assoc(stack[n], a, b);
    Empty(stack[n]);
  }

  lemma {:induction false} PushedOpen(stack: seq<seq<SExp>>, items: seq<SExp>)
    requires |stack| > 0
    ensures Feed(Open, stack) == Some(stack + [[]])
    ensures Feed(Close, Pushed(stack + [[]], items)) == Some(Pushed(stack, [Node(items)]))
  {
    Empty(items);
    var full := Pushed(stack + [[]], items);
    var n := |stack|;
    assert full[n] == items && full[n - 1] == stack[n - 1] && full[..n - 1] == stack[..n - 1];
  }

  lemma {:induction false} ParseExp(e: SExp, ls: seq<Lexeme>, stack: seq<seq<SExp>>)
    requires |stack| > 0
    ensures Parse(Lexemes(e) + ls, stack) == Parse(ls, Pushed(stack, [e]))
    decreases e, 1
  {
    match e
    case Sym(s) =>
      ParseFeed(Word(s), ls, stack, Pushed(stack, [e]));
    case Node(items) =>
      var open := stack + [[]];
      PushedOpen(stack, items);
      ParseFeed(Open, LexemesAll(items) + ([Close] + ls), stack, open);
      ParseAll(items, [Close] + ls, open);
      ParseFeed(Close, ls, Pushed(open, items), Pushed(stack, [e]));
      Assoc4([Open], LexemesAll(items), [Close], ls);
  }

  lemma {:induction false} ParseAll(es: seq<SExp>, ls: seq<Lexeme>, stack: seq<seq<SExp>>)
    requires |stack| > 0
    ensures Parse(LexemesAll(es) + ls, stack) == Parse(ls, Pushed(stack, es))
    decreases es, 0
  {
    if es == [] {
      Empty(ls);
      PushedTwice(stack, [], []);
    } else {
      ParseExp(es[0], LexemesAll(es[1..]) + ls, stack);
      ParseAll(es[1..], ls, Pushed(stack, [es[0]]));
      Assoc(Lexemes(es[0]), LexemesAll(es[1..]), ls);
      assert [es[0]] + es[1..] == es;
      PushedTwice(stack, [es[0]], es[1..]);
    }
  }

  lemma {:induction false} ParseScript(cs: seq<SExp>)
    ensures Parse(LexemesAll(cs), [[]]) == Some(cs)
  {
    ParseAll(cs, [], [[]]);
    Empty(LexemesAll(cs));
    Empty(cs);
    assert Pushed([[]], cs) == [cs];
  }

  /** What is written is read back. */
  lemma {:induction false} ReadLines(cs: seq<SExp>, beyond: char -> bool)
    requires ProperAll(cs, beyond)
    ensures Read(Lex(Render(Lines(cs)), beyond)) == Some(cs)
  {
    LexLines(cs, beyond);
    ScanLines(cs, beyond);
    ParseScript(cs);
  }

  lemma {:induction false} ReadOne(e: SExp, beyond: char -> bool)
    requires ProperExp(e, beyond)
    ensures Read(Lex(Render(Tokens(e)), beyond)) == Some([e])
  {
    LexTokens(e, "", beyond);
    Empty(Render(Tokens(e)));
    Empty(Tokens(e));
    ScanTokens(e, [], beyond);
    Empty(Lexemes(e));
    ParseScript([e]);
    assert [e][1..] == [];
  }

  // ----- Proper symbols -----

  lemma {:induction false} PlainsAround(a: string, c: char, b: string)
    ensures Plains(a + [c] + b) == Plains(a) + [Plain(c)] + Plains(b)
  {
  }

  lemma {:induction false} LexPlain(s: string, run: string, beyond: char -> bool)
    requires 'x' !in run && 'x' !in s
    ensures LexFrom(s, run, beyond) == Plains(run + s)
  {
    if s == [] {
      Empty(run);
    } else {
      Shift(run, s);
      if WordChar(s[0], beyond) {
        LexPlain(s[1..], run + [s[0]], beyond);
      } else {
        LexPlain(s[1..], "", beyond);
        Empty(s[1..]);
        PlainsAround(run, s[0], s[1..]);
      }
    }
  }

  ghost predicate PlainWord(w: string) {
    w != [] && 'x' !in w && forall i | 0 <= i < |w| :: InSymbol(Plain(w[i]))
  }

  lemma {:induction false} WordNoBreak(w: string)
    requires forall i | 0 <= i < |w| :: InSymbol(Plain(w[i]))
    ensures NoBreak(w)
  {
    forall i | 0 <= i < |w|
      ensures !IsBreak(w[i])
    {
      assert InSymbol(Plain(w[i]));
    }
  }

  lemma {:induction false} PlainWordProper(w: string, beyond: char -> bool)
    requires PlainWord(w)
    ensures Proper(Plains(w), beyond) && ProperExp(Keyword(w), beyond)
  {
    WordNoBreak(w);
    RenderPlains(w);
    LexPlain(w, "", beyond);
    assert "" + w == w;
  }
}
