/** The reader for dune-project files (scripts/check_ci_opam_deps.py): a
    tokeniser that advances an index, and a recursive reader of forms. */
module DuneForms {
  import opened Options
  import opened PyText
  import opened SeqLaws

  datatype Error = UnterminatedString | UnexpectedEnd | UnexpectedClose | UnterminatedList

  datatype Result<+T> = Ok(value: T) | Err(error: Error)

  datatype Form = Atom(text: string) | List(items: seq<Form>)

  const OPEN := "("
  const CLOSE := ")"

  // ----- Tokens, one character at a time -----

  datatype Mode = Between | Comment | Quoted(value: string) | Escaped(value: string) | Word(value: string)

  datatype Fed = Fed(out: seq<string>, mode: Mode)

  predicate EndsWord(c: char) {
    IsSpace(c) || c == '(' || c == ')' || c == ';'
  }

  function FeedBetween(c: char): Fed {
    if IsSpace(c) then Fed([], Between)
    else if c == ';' then Fed([], Comment)
    else if c == '(' || c == ')' then Fed([[c]], Between)
    else if c == '"' then Fed([], Quoted([]))
    else Fed([], Word([c]))
  }

  /** What one character adds, and the mode it leaves. */
  function Feed(m: Mode, c: char): Fed {
    match m
    case Between => FeedBetween(c)
    case Comment => Fed([], if c == '\n' then Between else Comment)
    case Quoted(v) => if c == '"' then Fed([v], Between) else if c == '\\' then Fed([], Escaped(v)) else Fed([], Quoted(v + [c]))
    case Escaped(v) => Fed([], Quoted(v + [c]))
    case Word(v) => if EndsWord(c) then Fed([v] + FeedBetween(c).out, FeedBetween(c).mode) else Fed([], Word(v + [c]))
  }

  function Finish(m: Mode): Option<seq<string>> {
    match m
    case Between => Some([])
    case Comment => Some([])
    case Quoted(_) => None
    case Escaped(_) => None
    case Word(v) => Some([v])
  }

  function Prefix(out: seq<string>, r: Option<seq<string>>): Option<seq<string>> {
    if r.None? then None else Some(out + r.value)
  }

  /** The tokens of a text, None for a string that does not end. */
  function Lex(text: string, m: Mode): Option<seq<string>> {
    if text == [] then Finish(m) else Prefix(Feed(m, text[0]).out, Lex(text[1..], Feed(m, text[0]).mode))
  }

  lemma {:induction false} LexStep(c: char, rest: string, m: Mode)
    ensures Lex([c] + rest, m) == Prefix(Feed(m, c).out, Lex(rest, Feed(m, c).mode))
  {
    assert ([c] + rest)[1..] == rest;
  }

  lemma {:induction false} LexFrom(text: string, i: nat, m: Mode)
    requires i < |text|
    ensures Lex(text[i..], m) == Prefix(Feed(m, text[i]).out, Lex(text[i + 1..], Feed(m, text[i]).mode))
  {
    assert text[i..] == [text[i]] + text[i + 1..];
    LexStep(text[i], text[i + 1..], m);
  }

  lemma {:induction false} PrefixTwice(a: seq<string>, b: seq<string>, r: Option<seq<string>>)
    ensures Prefix(a, Prefix(b, r)) == Prefix(a + b, r)
  {
    if r.Some? {
      Assoc(a, b, r.value);
    }
  }

  // ----- The tokeniser -----

  /** Past a comment, its line feed included. */
  method SkipComment(text: string, from: nat) returns (index: nat)
    requires from < |text|
    ensures from < index <= |text| && Lex(text[from..], Comment) == Lex(text[index..], Between)
  {
    index := from;
    while index < |text| && text[index] != '\n'
      invariant from <= index <= |text| && Lex(text[from..], Comment) == Lex(text[index..], Comment)
    {
      LexFrom(text, index, Comment);
      PrefixNothing(Lex(text[index + 1..], Comment));
      index := index + 1;
    }
    if index < |text| {
      LexFrom(text, index, Comment);
      PrefixNothing(Lex(text[index + 1..], Between));
      index := index + 1;
    }
  }

  lemma {:induction false} PrefixNothing(r: Option<seq<string>>)
    ensures Prefix([], r) == r
  {
    if r.Some? {
      Empty(r.value);
    }
  }

  /** Past a quoted string and its closing quote. */
  method ReadQuoted(text: string, from: nat) returns (value: string, index: nat, ended: bool)
    requires from <= |text|
    ensures from <= index <= |text|
    ensures ended ==> from < index && Lex(text[from..], Quoted([])) == Prefix([value], Lex(text[index..], Between))
    ensures !ended ==> Lex(text[from..], Quoted([])) == None
  {
    index, value := from, [];
    while index < |text| && text[index] != '"'
      invariant from <= index <= |text| && Lex(text[from..], Quoted([])) == Lex(text[index..], Quoted(value))
    {
      LexFrom(text, index, Quoted(value));
      if text[index] == '\\' && index + 1 < |text| {
        PrefixNothing(Lex(text[index + 1..], Escaped(value)));
        LexFrom(text, index + 1, Escaped(value));
        index := index + 1;
        PrefixNothing(Lex(text[index + 1..], Quoted(value + [text[index]])));
      } else if text[index] == '\\' {
        assert text[index + 1..] == [];
      } else {
        PrefixNothing(Lex(text[index + 1..], Quoted(value + [text[index]])));
      }
      value := value + [text[index]];
      index := index + 1;
    }
    if index >= |text| {
      assert text[index..] == [];
      return value, index, false;
    }
    LexFrom(text, index, Quoted(value));
    return value, index + 1, true;
  }

  lemma {:induction false} WordEnds(text: string, i: nat, v: string)
    requires i <= |text| && (i == |text| || EndsWord(text[i]))
    ensures Lex(text[i..], Word(v)) == Prefix([v], Lex(text[i..], Between))
  {
    if i == |text| {
      assert text[i..] == [];
      Empty([v]);
    } else {
      LexFrom(text, i, Word(v));
      LexFrom(text, i, Between);
      PrefixTwice([v], FeedBetween(text[i]).out, Lex(text[i + 1..], FeedBetween(text[i]).mode));
    }
  }

  /** Past a bare word. */
  method ReadWord(text: string, from: nat) returns (end: nat)
    requires from < |text| && !EndsWord(text[from])
    ensures from < end <= |text| && Lex(text[from + 1..], Word([text[from]])) == Prefix([text[from..end]], Lex(text[end..], Between))
  {
    end := from + 1;
    assert text[from..end] == [text[from]];
    while end < |text| && !EndsWord(text[end])
      invariant from < end <= |text|
      invariant Lex(text[from + 1..], Word([text[from]])) == Lex(text[end..], Word(text[from..end]))
    {
      LexFrom(text, end, Word(text[from..end]));
      assert text[from..end] + [text[end]] == text[from..end + 1];
      PrefixNothing(Lex(text[end + 1..], Word(text[from..end + 1])));
      end := end + 1;
    }
    WordEnds(text, end, text[from..end]);
  }

  method Tokenize(text: string) returns (tokens: Option<seq<string>>)
    ensures tokens == Lex(text, Between)
  {
    var out: seq<string> := [];
    var index := 0;
    assert text[0..] == text;
    PrefixNothing(Lex(text, Between));
    while index < |text|
      invariant index <= |text| && Lex(text, Between) == Prefix(out, Lex(text[index..], Between))
    {
      var c := text[index];
      LexFrom(text, index, Between);
      if IsSpace(c) {
        PrefixNothing(Lex(text[index + 1..], Between));
        index := index + 1;
      } else if c == ';' {
        PrefixNothing(Lex(text[index + 1..], Comment));
        CommentHead(text, index);
        index := SkipComment(text, index);
      } else if c == '(' || c == ')' {
        PrefixTwice(out, [[c]], Lex(text[index + 1..], Between));
        out, index := out + [[c]], index + 1;
      } else if c == '"' {
        PrefixNothing(Lex(text[index + 1..], Quoted([])));
        var value, next, ended := ReadQuoted(text, index + 1);
        if !ended {
          return None;
        }
        PrefixTwice(out, [value], Lex(text[next..], Between));
        out, index := out + [value], next;
      } else {
        PrefixNothing(Lex(text[index + 1..], Word([c])));
        var end := ReadWord(text, index);
        PrefixTwice(out, [text[index..end]], Lex(text[end..], Between));
        out, index := out + [text[index..end]], end;
      }
    }
    assert text[index..] == [];
    Empty(out);
    tokens := Some(out);
  }

  /** The comment mark itself may be read as the comment's first character. */
  lemma {:induction false} CommentHead(text: string, i: nat)
    requires i < |text| && text[i] == ';'
    ensures Lex(text[i..], Comment) == Lex(text[i + 1..], Comment)
  {
    LexFrom(text, i, Comment);
    PrefixNothing(Lex(text[i + 1..], Comment));
  }

  // ----- Forms -----

  /** The tokens of a form, before the tokens that follow it. */
  function Flat(f: Form, rest: seq<string>): seq<string>
    decreases f, 1
  {
    match f
    case Atom(t) => [t] + rest
    case List(items) => [OPEN] + FlatAll(items, [CLOSE] + rest)
  }

  function FlatAll(fs: seq<Form>, rest: seq<string>): seq<string>
    decreases fs, 0
  {
    if fs == [] then rest else Flat(fs[0], FlatAll(fs[1..], rest))
  }

  /** No atom reads as a parenthesis. */
  predicate Plain(f: Form)
    decreases f, 1
  {
    match f
    case Atom(t) => t != OPEN && t != CLOSE
    case List(items) => PlainAll(items)
  }

  predicate PlainAll(fs: seq<Form>)
    decreases fs, 0
  {
    fs == [] || (Plain(fs[0]) && PlainAll(fs[1..]))
  }

  lemma {:induction false} FlatAllMore(fs: seq<Form>, f: Form, rest: seq<string>)
    requires PlainAll(fs) && Plain(f)
    ensures FlatAll(fs + [f], rest) == FlatAll(fs, Flat(f, rest)) && PlainAll(fs + [f])
  {
    if fs == [] {
      assert fs + [f] == [f] && [f][1..] == [];
    } else {
      FlatAllMore(fs[1..], f, rest);
      assert (fs + [f])[1..] == fs[1..] + [f];
    }
  }

  /** The parentheses of the tokens close, d of them already open. */
  predicate Balanced(ts: seq<string>, d: nat) {
    if ts == [] then d == 0
    else if ts[0] == OPEN then Balanced(ts[1..], d + 1)
    else if ts[0] == CLOSE then d > 0 && Balanced(ts[1..], d - 1)
    else Balanced(ts[1..], d)
  }

  lemma {:induction false} BalancedFlat(f: Form, rest: seq<string>, d: nat)
    requires Plain(f)
    ensures Balanced(Flat(f, rest), d) == Balanced(rest, d)
    decreases f, 1
  {
    match f
    case Atom(t) =>
      assert ([t] + rest)[1..] == rest;
    case List(items) =>
      var inner := FlatAll(items, [CLOSE] + rest);
      assert ([OPEN] + inner)[1..] == inner;
      BalancedFlatAll(items, [CLOSE] + rest, d + 1);
      assert ([CLOSE] + rest)[1..] == rest;
  }

  lemma {:induction false} BalancedFlatAll(fs: seq<Form>, rest: seq<string>, d: nat)
    requires PlainAll(fs)
    ensures Balanced(FlatAll(fs, rest), d) == Balanced(rest, d)
    decreases fs, 0
  {
    if fs != [] {
      BalancedFlat(fs[0], FlatAll(fs[1..], rest), d);
      BalancedFlatAll(fs[1..], rest, d);
    }
  }

  /** What may follow the forms of a list or of a file. */
  predicate Closing(rest: seq<string>) {
    rest == [] || rest[0] == CLOSE
  }

  lemma {:induction false} FlatInjective(f: Form, g: Form, r: seq<string>, q: seq<string>)
    requires Plain(f) && Plain(g) && Flat(f, r) == Flat(g, q)
    ensures f == g && r == q
    decreases f, 1
  {
    assert Flat(f, r)[0] == Flat(g, q)[0];
    match f
    case Atom(t) =>
      assert r == ([t] + r)[1..];
      match g {
        case Atom(u) => assert q == ([u] + q)[1..];
        case List(_) =>
      }
    case List(items) =>
      match g {
        case Atom(u) =>
        case List(others) =>
          assert FlatAll(items, [CLOSE] + r) == Flat(f, r)[1..];
          assert FlatAll(others, [CLOSE] + q) == Flat(g, q)[1..];
          FlatAllInjective(items, others, [CLOSE] + r, [CLOSE] + q);
          assert r == ([CLOSE] + r)[1..] && q == ([CLOSE] + q)[1..];
      }
  }

  /** Two forests with the same tokens are the same forest. */
  lemma {:induction false} FlatAllInjective(fs: seq<Form>, gs: seq<Form>, r: seq<string>, q: seq<string>)
    requires PlainAll(fs) && PlainAll(gs) && Closing(r) && Closing(q) && FlatAll(fs, r) == FlatAll(gs, q)
    ensures fs == gs && r == q
    decreases fs, 0
  {
    if fs == [] && gs != [] {
      NotClosing(gs[0], FlatAll(gs[1..], q));
    } else if fs != [] && gs == [] {
      NotClosing(fs[0], FlatAll(fs[1..], r));
    } else if fs != [] {
      FlatInjective(fs[0], gs[0], FlatAll(fs[1..], r), FlatAll(gs[1..], q));
      FlatAllInjective(fs[1..], gs[1..], r, q);
      assert fs == [fs[0]] + fs[1..] && gs == [gs[0]] + gs[1..];
    }
  }

  lemma {:induction false} NotClosing(f: Form, rest: seq<string>)
    requires Plain(f)
    ensures !Closing(Flat(f, rest))
  {
  }

  /** No number of parentheses already open lets the tokens close. */
  ghost predicate Stuck(ts: seq<string>) {
    forall d: nat :: !Balanced(ts, d)
  }

  lemma {:induction false} StuckList(items: seq<Form>, rest: seq<string>)
    requires PlainAll(items) && (rest == [] || Stuck(rest))
    ensures Stuck([OPEN] + FlatAll(items, rest))
  {
    var inner := FlatAll(items, rest);
    forall d: nat
      ensures !Balanced([OPEN] + inner, d)
    {
      assert ([OPEN] + inner)[1..] == inner;
      BalancedFlatAll(items, rest, d + 1);
    }
  }

  // ----- The reader -----

  method ReadOne(tokens: seq<string>, at: nat) returns (r: Result<(Form, nat)>)
    requires at <= |tokens|
    ensures r.Ok? ==> at < r.value.1 <= |tokens| && Plain(r.value.0) && tokens[at..] == Flat(r.value.0, tokens[r.value.1..])
    ensures at == |tokens| ==> r == Err(UnexpectedEnd)
    ensures at < |tokens| && tokens[at] == CLOSE ==> r == Err(UnexpectedClose)
    ensures at < |tokens| && tokens[at] != CLOSE && r.Err? ==> r == Err(UnterminatedList) && Stuck(tokens[at..])
    decreases |tokens| - at
  {
    if at >= |tokens| {
      return Err(UnexpectedEnd);
    }
    assert tokens[at..] == [tokens[at]] + tokens[at + 1..];
    if tokens[at] != OPEN {
      if tokens[at] == CLOSE {
        return Err(UnexpectedClose);
      }
      return Ok((Atom(tokens[at]), at + 1));
    }
    var items: seq<Form> := [];
    var position := at + 1;
    while position < |tokens| && tokens[position] != CLOSE
      invariant at < position <= |tokens| && PlainAll(items)
      invariant tokens[at..] == [OPEN] + FlatAll(items, tokens[position..])
    {
      var one := ReadOne(tokens, position);
      if one.Err? {
        StuckList(items, tokens[position..]);
        return Err(one.error);
      }
      FlatAllMore(items, one.value.0, tokens[one.value.1..]);
      items, position := items + [one.value.0], one.value.1;
    }
    if position >= |tokens| {
      assert tokens[position..] == [];
      StuckList(items, []);
      return Err(UnterminatedList);
    }
    assert tokens[position..] == [CLOSE] + tokens[position + 1..];
    return Ok((List(items), position + 1));
  }

  /** The forms of a token list. */
  method ReadForms(tokens: seq<string>) returns (r: Result<seq<Form>>)
    ensures r.Ok? <==> Balanced(tokens, 0)
    ensures r.Ok? ==> PlainAll(r.value) && tokens == FlatAll(r.value, [])
    ensures r.Err? ==> r.error == UnexpectedClose || r.error == UnterminatedList
  {
    var forms: seq<Form> := [];
    var position := 0;
    assert tokens[0..] == tokens;
    while position < |tokens|
      invariant position <= |tokens| && PlainAll(forms) && tokens == FlatAll(forms, tokens[position..])
    {
      BalancedFlatAll(forms, tokens[position..], 0);
      var one := ReadOne(tokens, position);
      if one.Err? {
        return Err(one.error);
      }
      FlatAllMore(forms, one.value.0, tokens[one.value.1..]);
      forms, position := forms + [one.value.0], one.value.1;
    }
    assert tokens[position..] == [];
    BalancedFlatAll(forms, [], 0);
    r := Ok(forms);
  }

  /** The text reads as this forest and no other. */
  predicate Reads(text: string, fs: seq<Form>) {
    PlainAll(fs) && Lex(text, Between) == Some(FlatAll(fs, []))
  }

  method ParseSexps(text: string) returns (r: Result<seq<Form>>)
    ensures r.Ok? <==> Lex(text, Between).Some? && Balanced(Lex(text, Between).value, 0)
    ensures r == Err(UnterminatedString) <==> Lex(text, Between) == None
    ensures forall fs :: Reads(text, fs) <==> r == Ok(fs)
  {
    var tokens := Tokenize(text);
    if tokens == None {
      return Err(UnterminatedString);
    }
    r := ReadForms(tokens.value);
    forall fs | Reads(text, fs)
      ensures r == Ok(fs)
    {
      BalancedFlatAll(fs, [], 0);
      FlatAllInjective(fs, r.value, [], []);
    }
  }
}
