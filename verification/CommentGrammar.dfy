/** What a comment is, apart from the scan that blanks it: a source text is a
    list of code characters, literals and remarks, every text is one, and the
    scan blanks exactly the remarks. */
module CommentGrammar {
  import opened SeqLaws
  import opened CommentBlanker

  /** A character of a literal; a backslash escapes the one after it. */
  datatype Letter = Letter(escaped: bool, c: char)

  datatype Part =
    | Plain(c: char)
    | Quoted(quote: char, letters: seq<Letter>)
    | Line(text: string)
    | Block(text: string)

  /** How a text ends: complete, or inside a literal or a remark that does not close. */
  datatype Ending =
    | Complete
    | OpenQuoted(quote: char, letters: seq<Letter>, backslash: bool)
    | OpenBlock(text: string)

  predicate OneLine(t: string) {
    t == [] || (t[0] != '\n' && OneLine(t[1..]))
  }

  predicate NoClose(t: string) {
    t == [] || (!Starts(t, '*', '/') && NoClose(t[1..]))
  }

  predicate Within(ls: seq<Letter>, q: char) {
    ls == [] || ((ls[0].escaped || (ls[0].c != q && ls[0].c != '\\')) && Within(ls[1..], q))
  }

  function WriteLetters(ls: seq<Letter>): string {
    if ls == [] then [] else (if ls[0].escaped then ['\\', ls[0].c] else [ls[0].c]) + WriteLetters(ls[1..])
  }

  function WritePart(p: Part): string {
    match p
    case Plain(c) => [c]
    case Quoted(q, ls) => [q] + WriteLetters(ls) + [q]
    case Line(t) => ['/', '/'] + t
    case Block(t) => ['/', '*'] + t + ['*', '/']
  }

  function WriteEnding(e: Ending): string {
    match e
    case Complete => []
    case OpenQuoted(q, ls, b) => [q] + WriteLetters(ls) + if b then ['\\'] else []
    case OpenBlock(t) => ['/', '*'] + t
  }

  function Write(ps: seq<Part>, e: Ending): string {
    if ps == [] then WriteEnding(e) else WritePart(ps[0]) + Write(ps[1..], e)
  }

  /** A text blanked: line feeds stay. */
  function Blank(t: string): string {
    if t == [] then [] else [if t[0] == '\n' then '\n' else ' '] + Blank(t[1..])
  }

  function ShowPart(p: Part): string {
    if p.Line? || p.Block? then Blank(WritePart(p)) else WritePart(p)
  }

  /** The text with its remarks blanked and nothing else. */
  function Show(ps: seq<Part>, e: Ending): string {
    if ps == [] then (if e.OpenBlock? then Blank(WriteEnding(e)) else WriteEnding(e))
    else ShowPart(ps[0]) + Show(ps[1..], e)
  }

  /** A part that may stand before the rest of the text. */
  predicate IsPart(p: Part, rest: string) {
    match p
    case Plain(c) => c != '"' && c != '\'' && (c == '/' && rest != [] ==> rest[0] != '/' && rest[0] != '*')
    case Quoted(q, ls) => (q == '"' || q == '\'') && Within(ls, q)
    case Line(t) => OneLine(t) && (rest != [] ==> rest[0] == '\n')
    case Block(t) => NoClose(t)
  }

  predicate IsEnding(e: Ending) {
    match e
    case Complete => true
    case OpenQuoted(q, ls, _) => (q == '"' || q == '\'') && Within(ls, q)
    case OpenBlock(t) => NoClose(t)
  }

  predicate IsSource(ps: seq<Part>, e: Ending) {
    if ps == [] then IsEnding(e) else IsPart(ps[0], Write(ps[1..], e)) && IsSource(ps[1..], e)
  }

  // ----- The scan blanks the remarks -----

  lemma {:induction false} BlankConcat(a: string, b: string)
    ensures Blank(a + b) == Blank(a) + Blank(b)
  {
    if a == [] {
      Empty(b);
      Empty(Blank(b));
    } else {
      assert (a + b)[1..] == a[1..] + b;
      BlankConcat(a[1..], b);
    }
  }

  lemma {:induction false} ScanLine(t: string, rest: string)
    requires OneLine(t)
    ensures Blanked(t + rest, LineComment) == Blank(t) + Blanked(rest, LineComment)
  {
    if t == [] {
      Empty(rest);
      Empty(Blanked(rest, LineComment));
    } else {
      assert (t + rest)[1..] == t[1..] + rest;
      ScanLine(t[1..], rest);
      Assoc([' '], Blank(t[1..]), Blanked(rest, LineComment));
    }
  }

  /** Inside an unclosed block remark, or up to what closes it. */
  lemma {:induction false} ScanBlock(t: string, rest: string)
    requires NoClose(t) && (rest == [] || Starts(rest, '*', '/'))
    ensures Blanked(t + rest, BlockComment) == Blank(t) + Blanked(rest, BlockComment)
  {
    if t == [] {
      Empty(rest);
      Empty(Blanked(rest, BlockComment));
    } else {
      assert (t + rest)[1..] == t[1..] + rest;
      ScanBlock(t[1..], rest);
      var c := if t[0] == '\n' then '\n' else ' ';
      Assoc([c], Blank(t[1..]), Blanked(rest, BlockComment));
      assert (t + rest)[0] == t[0];
      assert |t| > 1 ==> (t + rest)[1] == t[1];
      assert |t| == 1 && rest != [] ==> (t + rest)[1] == '*';
    }
  }

  lemma {:induction false} ScanLetter(l: Letter, q: char, rest: string)
    requires l.escaped || (l.c != q && l.c != '\\')
    ensures var w := if l.escaped then ['\\', l.c] else [l.c]; Blanked(w + rest, Literal(q)) == w + Blanked(rest, Literal(q))
  {
    var w := if l.escaped then ['\\', l.c] else [l.c];
    assert (w + rest)[|w|..] == rest && (w + rest)[..|w|] == w;
  }

  lemma {:induction false} ScanLetters(ls: seq<Letter>, q: char, rest: string)
    requires Within(ls, q)
    ensures Blanked(WriteLetters(ls) + rest, Literal(q)) == WriteLetters(ls) + Blanked(rest, Literal(q))
  {
    if ls == [] {
      Empty(rest);
      Empty(Blanked(rest, Literal(q)));
    } else {
      var w := if ls[0].escaped then ['\\', ls[0].c] else [ls[0].c];
      Assoc(w, WriteLetters(ls[1..]), rest);
      ScanLetter(ls[0], q, WriteLetters(ls[1..]) + rest);
      ScanLetters(ls[1..], q, rest);
      Assoc(w, WriteLetters(ls[1..]), Blanked(rest, Literal(q)));
    }
  }

  lemma {:induction false} OpenRemark(c: char, rest: string)
    requires c == '/' || c == '*'
    ensures Blanked(['/', c] + rest, Code) == [' ', ' '] + Blanked(rest, if c == '/' then LineComment else BlockComment)
  {
    assert (['/', c] + rest)[2..] == rest;
  }

  /** A line remark before the end or a line feed leaves the scan in code. */
  lemma {:induction false} LineEnds(rest: string)
    requires rest != [] ==> rest[0] == '\n'
    ensures Blanked(rest, LineComment) == Blanked(rest, Code)
  {
  }

  lemma {:induction false} ShowLine(t: string, rest: string)
    requires IsPart(Line(t), rest)
    ensures Blanked(WritePart(Line(t)) + rest, Code) == ShowPart(Line(t)) + Blanked(rest, Code)
  {
    Assoc(['/', '/'], t, rest);
    OpenRemark('/', t + rest);
    ScanLine(t, rest);
    LineEnds(rest);
    BlankConcat(['/', '/'], t);
    assert Blank(['/', '/']) == [' ', ' '] by {
      BlankConcat(['/'], ['/']);
      assert ['/'] + ['/'] == ['/', '/'];
    }
    Assoc([' ', ' '], Blank(t), Blanked(rest, Code));
  }

  lemma {:induction false} BlankMarks()
    ensures Blank(['/', '*']) == [' ', ' '] && Blank(['*', '/']) == [' ', ' ']
  {
    BlankConcat(['/'], ['*']);
    BlankConcat(['*'], ['/']);
    assert ['/'] + ['*'] == ['/', '*'] && ['*'] + ['/'] == ['*', '/'];
  }

  lemma {:induction false} CloseBlock(rest: string)
    ensures Blanked(['*', '/'] + rest, BlockComment) == [' ', ' '] + Blanked(rest, Code)
  {
    assert (['*', '/'] + rest)[2..] == rest;
  }

  lemma {:induction false} ShowBlock(t: string, rest: string)
    requires NoClose(t)
    ensures Blanked(WritePart(Block(t)) + rest, Code) == ShowPart(Block(t)) + Blanked(rest, Code)
  {
    var close := ['*', '/'];
    Assoc4(['/', '*'], t, close, rest);
    OpenRemark('*', t + (close + rest));
    ScanBlock(t, close + rest);
    CloseBlock(rest);
    BlankMarks();
    BlankConcat(['/', '*'] + t, close);
    BlankConcat(['/', '*'], t);
    Assoc4([' ', ' '], Blank(t), [' ', ' '], Blanked(rest, Code));
  }

  lemma {:induction false} OpenLiteral(q: char, rest: string)
    requires IsQuote(q)
    ensures Blanked([q] + rest, Code) == [q] + Blanked(rest, Literal(q))
  {
    BlankedOne(q, rest, Code);
  }

  lemma {:induction false} ShowQuoted(q: char, ls: seq<Letter>, rest: string)
    requires IsQuote(q) && Within(ls, q)
    ensures Blanked(WritePart(Quoted(q, ls)) + rest, Code) == WritePart(Quoted(q, ls)) + Blanked(rest, Code)
  {
    Assoc4([q], WriteLetters(ls), [q], rest);
    OpenLiteral(q, WriteLetters(ls) + ([q] + rest));
    ScanLetters(ls, q, [q] + rest);
    BlankedOne(q, rest, Literal(q));
    Assoc4([q], WriteLetters(ls), [q], Blanked(rest, Code));
  }

  lemma {:induction false} ShowEnding(e: Ending)
    requires IsEnding(e)
    ensures Blanked(WriteEnding(e), Code) == Show([], e)
  {
    match e
    case Complete =>
    case OpenQuoted(q, ls, b) =>
      var tail := if b then ['\\'] else [];
      Assoc([q], WriteLetters(ls), tail);
      OpenLiteral(q, WriteLetters(ls) + tail);
      ScanLetters(ls, q, tail);
      assert Blanked(tail, Literal(q)) == tail by {
        if b {
          assert tail[1..] == [];
          Empty(tail);
        }
      }
      Assoc([q], WriteLetters(ls), tail);
    case OpenBlock(t) =>
      OpenRemark('*', t);
      Empty(t);
      ScanBlock(t, []);
      Empty(Blank(t));
      BlankConcat(['/', '*'], t);
      BlankMarks();
  }

  /** The scan keeps code and literals and blanks remarks, exactly. */
  lemma {:induction false} BlankedIsShow(ps: seq<Part>, e: Ending)
    requires IsSource(ps, e)
    ensures Blanked(Write(ps, e), Code) == Show(ps, e)
  {
    if ps == [] {
      ShowEnding(e);
    } else {
      var rest := Write(ps[1..], e);
      BlankedIsShow(ps[1..], e);
      match ps[0] {
        case Plain(c) => BlankedOne(c, rest, Code);
        case Quoted(q, ls) => ShowQuoted(q, ls, rest);
        case Line(t) => ShowLine(t, rest);
        case Block(t) => ShowBlock(t, rest);
      }
    }
  }

  // ----- Every text is a source -----

  lemma {:induction false} TakeLine(t: string) returns (line: string, rest: string)
    ensures t == line + rest && OneLine(line) && (rest != [] ==> rest[0] == '\n')
  {
    if t == [] || t[0] == '\n' {
      line, rest := [], t;
    } else {
      line, rest := TakeLine(t[1..]);
      assert t == [t[0]] + t[1..];
      Assoc([t[0]], line, rest);
      line := [t[0]] + line;
    }
  }

  lemma {:induction false} TakeBlock(t: string) returns (body: string, rest: string, closed: bool)
    ensures NoClose(body) && (closed ==> t == body + (['*', '/'] + rest)) && (!closed ==> t == body)
  {
    if t == [] {
      body, rest, closed := [], [], false;
    } else if Starts(t, '*', '/') {
      body, rest, closed := [], t[2..], true;
      assert t == ['*', '/'] + t[2..];
    } else {
      body, rest, closed := TakeBlock(t[1..]);
      assert t == [t[0]] + t[1..];
      Assoc([t[0]], body, ['*', '/'] + rest);
      assert body != [] ==> body[0] == t[1];
      assert ([t[0]] + body)[1..] == body;
      body := [t[0]] + body;
    }
  }

  lemma {:induction false} AddLetter(l: Letter, ls: seq<Letter>, q: char)
    requires Within(ls, q) && (l.escaped || (l.c != q && l.c != '\\'))
    ensures Within([l] + ls, q)
    ensures WriteLetters([l] + ls) == (if l.escaped then ['\\', l.c] else [l.c]) + WriteLetters(ls)
  {
    assert ([l] + ls)[1..] == ls;
  }

  lemma {:induction false} TakeLetters(t: string, q: char) returns (ls: seq<Letter>, rest: string, closed: bool, backslash: bool)
    requires q != '\\'
    ensures Within(ls, q)
    ensures closed ==> t == WriteLetters(ls) + ([q] + rest)
    ensures !closed ==> t == WriteLetters(ls) + if backslash then ['\\'] else []
    decreases |t|
  {
    ls, rest, closed, backslash := [], [], false, false;
    if t == [] {
    } else if t[0] == q {
      rest, closed := t[1..], true;
      assert t == [q] + t[1..];
    } else if t == ['\\'] {
      backslash := true;
    } else {
      var l := if t[0] == '\\' then Letter(true, t[1]) else Letter(false, t[0]);
      var w := if l.escaped then ['\\', l.c] else [l.c];
      assert t == w + t[|w|..];
      ls, rest, closed, backslash := TakeLetters(t[|w|..], q);
      Assoc(w, WriteLetters(ls), if closed then [q] + rest else if backslash then ['\\'] else []);
      AddLetter(l, ls, q);
      ls := [l] + ls;
    }
  }

  lemma {:induction false} AddPart(p: Part, ps: seq<Part>, e: Ending)
    requires IsSource(ps, e) && IsPart(p, Write(ps, e))
    ensures IsSource([p] + ps, e) && Write([p] + ps, e) == WritePart(p) + Write(ps, e)
  {
    assert ([p] + ps)[1..] == ps;
  }

  /** Every text is written by some list of parts. */
  lemma {:induction false} EveryTextIsSource(t: string) returns (ps: seq<Part>, e: Ending)
    ensures IsSource(ps, e) && Write(ps, e) == t
    decreases |t|
  {
    ps, e := [], Complete;
    if t == [] {
    } else if Starts(t, '/', '/') {
      var line, rest := TakeLine(t[2..]);
      ps, e := EveryTextIsSource(rest);
      AddPart(Line(line), ps, e);
      ps := [Line(line)] + ps;
      Assoc(['/', '/'], line, rest);
      assert t == ['/', '/'] + t[2..];
    } else if Starts(t, '/', '*') {
      ps, e := BlockSource(t);
    } else if IsQuote(t[0]) {
      ps, e := QuotedSource(t);
    } else {
      ps, e := EveryTextIsSource(t[1..]);
      assert |t| > 1 ==> t[1..][0] == t[1];
      AddPart(Plain(t[0]), ps, e);
      ps := [Plain(t[0])] + ps;
      assert t == [t[0]] + t[1..];
    }
  }

  lemma {:induction false} BlockSource(t: string) returns (ps: seq<Part>, e: Ending)
    requires Starts(t, '/', '*')
    ensures IsSource(ps, e) && Write(ps, e) == t
    decreases |t|, 0
  {
    var body, rest, closed := TakeBlock(t[2..]);
    assert t == ['/', '*'] + t[2..];
    if closed {
      ps, e := EveryTextIsSource(rest);
      AddPart(Block(body), ps, e);
      ps := [Block(body)] + ps;
      Assoc4(['/', '*'], body, ['*', '/'], rest);
    } else {
      ps, e := [], OpenBlock(body);
    }
  }

  lemma {:induction false} QuotedSource(t: string) returns (ps: seq<Part>, e: Ending)
    requires t != [] && IsQuote(t[0])
    ensures IsSource(ps, e) && Write(ps, e) == t
    decreases |t|, 0
  {
    var q := t[0];
    var ls, rest, closed, b := TakeLetters(t[1..], q);
    assert t == [q] + t[1..];
    if closed {
      ps, e := EveryTextIsSource(rest);
      AddPart(Quoted(q, ls), ps, e);
      ps := [Quoted(q, ls)] + ps;
      Assoc4([q], WriteLetters(ls), [q], rest);
    } else {
      ps, e := [], OpenQuoted(q, ls, b);
      Assoc([q], WriteLetters(ls), if b then ['\\'] else []);
    }
  }
}
