/** Blanking the comments of a kernel source (`without_comments` of
    scripts/check_ddb_command_inventory.py): a five-state scan that overwrites
    a copy of the text in place. */
module CommentBlanker {
  import opened Options
  import opened SeqLaws

  datatype State = Code | LineComment | BlockComment | Literal(quote: char)

  predicate Starts(t: string, a: char, b: char) {
    |t| > 1 && t[0] == a && t[1] == b
  }

  predicate IsQuote(c: char) {
    c == '"' || c == '\''
  }

  /** What is written for the next one or two characters, and the state after them. */
  datatype Move = Move(written: string, state: State)

  function MoveCode(t: string): Move
    requires t != []
  {
    if Starts(t, '/', '/') then Move([' ', ' '], LineComment)
    else if Starts(t, '/', '*') then Move([' ', ' '], BlockComment)
    else Move([t[0]], if IsQuote(t[0]) then Literal(t[0]) else Code)
  }

  function MoveComment(t: string, s: State): Move
    requires t != []
  {
    if s == BlockComment && Starts(t, '*', '/') then Move([' ', ' '], Code)
    else if t[0] == '\n' then Move([t[0]], if s == LineComment then Code else s)
    else Move([' '], s)
  }

  function MoveLiteral(t: string, q: char): Move
    requires t != []
  {
    if t[0] == '\\' then Move(if |t| > 1 then t[..2] else t, Literal(q))
    else Move([t[0]], if t[0] == q then Code else Literal(q))
  }

  function Next(t: string, s: State): (m: Move)
    requires t != []
    ensures 1 <= |m.written| <= 2 && |m.written| <= |t|
  {
    match s
    case Code => MoveCode(t)
    case LineComment => MoveComment(t, s)
    case BlockComment => MoveComment(t, s)
    case Literal(q) => MoveLiteral(t, q)
  }

  /** What the scan makes of a text it meets in a state. */
  function Blanked(t: string, s: State): string
    decreases |t|
  {
    if t == [] then [] else Next(t, s).written + Blanked(t[|Next(t, s).written|..], Next(t, s).state)
  }

  // ----- In place -----

  /** The part of the copy already scanned is final, the rest untouched. */
  ghost predicate Scanned(out: seq<char>, text: string, index: nat, s: State)
    requires index <= |text|
  {
    && |out| == |text| && out[index..] == text[index..]
    && Blanked(text, Code) == out[..index] + Blanked(text[index..], s)
  }

  lemma {:induction false} Advance(out: seq<char>, text: string, index: nat, s: State, new': seq<char>)
    requires index < |text| && Scanned(out, text, index, s)
    requires var w := Next(text[index..], s).written; new' == out[..index] + w + out[index + |w|..]
    ensures var m := Next(text[index..], s); Scanned(new', text, index + |m.written|, m.state)
  {
    var m := Next(text[index..], s);
    var n := index + |m.written|;
    var rest := Blanked(text[n..], m.state);
    Assoc(out[..index], m.written, rest);
    assert new'[..n] == out[..index] + m.written;
    assert new'[n..] == out[n..] == out[index..][|m.written|..];
    assert text[index..][|m.written|..] == text[n..];
  }

  /** The characters from index on, as the scan sees them. */
  ghost predicate Ahead(t: string, text: string, index: nat) {
    index < |text| && t == text[index..]
  }

  method ScanCode(text: string, out: array<char>, index: nat, ghost t: string) returns (n: nat, state: State)
    requires out.Length == |text| && Ahead(t, text, index) && out[index..] == t
    modifies out
    ensures index < n <= |text| && Move(out[index..n], state) == MoveCode(t)
    ensures out[..index] == old(out[..index]) && out[n..] == old(out[n..])
  {
    var c := text[index];
    var following := if index + 1 < |text| then Some(text[index + 1]) else None;
    assert t[0] == c && (|t| > 1 <==> following.Some?) && (|t| > 1 ==> t[1] == following.value);
    if c == '/' && following == Some('/') {
      out[index], out[index + 1] := ' ', ' ';
      return index + 2, LineComment;
    }
    if c == '/' && following == Some('*') {
      out[index], out[index + 1] := ' ', ' ';
      return index + 2, BlockComment;
    }
    assert out[index] == c;
    return index + 1, if IsQuote(c) then Literal(c) else Code;
  }

  method ScanComment(text: string, out: array<char>, index: nat, ghost t: string, s: State) returns (n: nat, state: State)
    requires out.Length == |text| && Ahead(t, text, index) && out[index..] == t && (s == LineComment || s == BlockComment)
    modifies out
    ensures index < n <= |text| && Move(out[index..n], state) == MoveComment(t, s)
    ensures out[..index] == old(out[..index]) && out[n..] == old(out[n..])
  {
    var c := text[index];
    var following := if index + 1 < |text| then Some(text[index + 1]) else None;
    assert t[0] == c && (|t| > 1 <==> following.Some?) && (|t| > 1 ==> t[1] == following.value);
    if s == LineComment && c == '\n' {
      assert out[index] == c;
      return index + 1, Code;
    }
    if s == BlockComment && c == '*' && following == Some('/') {
      out[index], out[index + 1] := ' ', ' ';
      return index + 2, Code;
    }
    if c != '\n' {
      out[index] := ' ';
    }
    return index + 1, s;
  }

  method ScanLiteral(text: string, index: nat, ghost t: string, q: char) returns (n: nat, state: State)
    requires Ahead(t, text, index)
    ensures index < n <= |text| && Move(text[index..n], state) == MoveLiteral(t, q)
  {
    var c := text[index];
    assert t[0] == c;
    n, state := index, Literal(q);
    if c == '\\' {
      n := if n + 1 < |text| then n + 1 else n;
    } else if c == q {
      state := Code;
    }
    n := n + 1;
  }

  method Scan(text: string, out: array<char>, index: nat, ghost t: string, s: State) returns (n: nat, state: State)
    requires out.Length == |text| && Ahead(t, text, index) && out[index..] == t
    modifies out
    ensures index < n <= |text| && Move(out[index..n], state) == Next(t, s)
    ensures out[..index] == old(out[..index]) && out[n..] == old(out[n..])
  {
    match s {
      case Code =>
        n, state := ScanCode(text, out, index, t);
      case Literal(q) =>
        n, state := ScanLiteral(text, index, t, q);
        assert out[index..n] == t[..n - index];
      case _ =>
        n, state := ScanComment(text, out, index, t, s);
    }
  }

  lemma {:induction false} Rejoin(a: seq<char>, b: seq<char>, i: nat, n: nat)
    requires i <= n <= |a| == |b| && a[..i] == b[..i] && a[n..] == b[n..]
    ensures a == b[..i] + a[i..n] + b[n..]
  {
    assert a == a[..i] + a[i..n] + a[n..];
  }

  method WithoutComments(text: string) returns (r: string)
    ensures r == Blanked(text, Code)
  {
    var out := new char[|text|](i requires 0 <= i < |text| => text[i]);
    assert out[..] == text;
    var index := 0;
    var state := Code;
    assert text[0..] == text;
    while index < |text|
      invariant index <= |text| && Scanned(out[..], text, index, state)
    {
      ghost var before := out[..];
      assert out[index..] == before[index..];
      var n, next := Scan(text, out, index, text[index..], state);
      assert out[..][..index] == before[..index] && out[..][n..] == before[n..] && out[..][index..n] == out[index..n];
      Rejoin(out[..], before, index, n);
      Advance(before, text, index, state, out[..]);
      index, state := n, next;
    }
    assert text[index..] == [];
    assert out[..index] == out[..];
    r := out[..];
  }

  // ----- What the result keeps -----

  /** The same offsets and line breaks; every other character kept or blank. */
  predicate Masks(r: string, t: string) {
    |r| == |t| && forall i | 0 <= i < |t| :: (r[i] == t[i] || r[i] == ' ') && (r[i] == '\n' <==> t[i] == '\n')
  }

  lemma {:induction false} MasksConcat(a: string, b: string, r: string, q: string)
    requires Masks(a, b) && Masks(r, q)
    ensures Masks(a + r, b + q)
  {
  }

  lemma {:induction false} NextMasks(t: string, s: State)
    requires t != []
    ensures Masks(Next(t, s).written, t[..|Next(t, s).written|])
  {
  }

  lemma {:induction false} BlankedMasks(t: string, s: State)
    ensures Masks(Blanked(t, s), t)
    decreases |t|
  {
    if t != [] {
      var n := |Next(t, s).written|;
      NextMasks(t, s);
      BlankedMasks(t[n..], Next(t, s).state);
      MasksConcat(Next(t, s).written, t[..n], Blanked(t[n..], Next(t, s).state), t[n..]);
      assert t == t[..n] + t[n..];
    }
  }

  lemma {:induction false} BlankedOne(c: char, rest: string, s: State)
    requires Next([c] + rest, s).written == [c]
    ensures Blanked([c] + rest, s) == [c] + Blanked(rest, Next([c] + rest, s).state)
  {
    assert ([c] + rest)[1..] == rest;
  }

  /** Where a second scan stands when the first was in a state. */
  function Again(s: State): State {
    if s.Literal? then s else Code
  }

  lemma {:induction false} BlankAgain(c: char, rest: string)
    requires c == ' ' || c == '\n'
    ensures Blanked([c] + rest, Code) == [c] + Blanked(rest, Code)
  {
    BlankedOne(c, rest, Code);
  }

  lemma {:induction false} SecondComment(t: string, s: State)
    requires t != [] && (s == LineComment || s == BlockComment)
    requires var m := Next(t, s); Blanked(Blanked(t[|m.written|..], m.state), Code) == Blanked(t[|m.written|..], m.state)
    ensures Blanked(Blanked(t, s), Code) == Blanked(t, s)
  {
    var m := Next(t, s);
    var rest := Blanked(t[|m.written|..], m.state);
    if |m.written| == 1 {
      assert m.written == [m.written[0]];
      BlankAgain(m.written[0], rest);
    } else {
      assert m.written == [' ', ' '];
      TwoBlanks(rest);
    }
  }

  lemma {:induction false} TwoBlanks(rest: string)
    ensures Blanked([' ', ' '] + rest, Code) == [' ', ' '] + Blanked(rest, Code)
  {
    assert [' ', ' '] + rest == [' '] + ([' '] + rest);
    BlankAgain(' ', [' '] + rest);
    BlankAgain(' ', rest);
    assert [' '] + ([' '] + Blanked(rest, Code)) == [' ', ' '] + Blanked(rest, Code);
  }

  lemma {:induction false} SecondCode(t: string)
    requires t != []
    requires var m := Next(t, Code); var r := Blanked(t[|m.written|..], m.state); Blanked(r, Again(m.state)) == r
    ensures Blanked(Blanked(t, Code), Code) == Blanked(t, Code)
  {
    var m := Next(t, Code);
    var rest := Blanked(t[|m.written|..], m.state);
    if |m.written| == 2 {
      TwoBlanks(rest);
    } else {
      BlankedMasks(t[1..], m.state);
      assert |t| > 1 ==> t[1..][0] == t[1] && (rest[0] == t[1] || rest[0] == ' ');
      BlankedOne(t[0], rest, Code);
    }
  }

  lemma {:induction false} SecondLiteral(t: string, q: char)
    requires t != []
    requires var m := MoveLiteral(t, q); var r := Blanked(t[|m.written|..], m.state); Blanked(r, Again(m.state)) == r
    ensures Blanked(Blanked(t, Literal(q)), Literal(q)) == Blanked(t, Literal(q))
  {
    var m := MoveLiteral(t, q);
    var rest := Blanked(t[|m.written|..], m.state);
    if |m.written| == 2 {
      assert (t[..2] + rest)[..2] == t[..2] && (t[..2] + rest)[2..] == rest;
    } else if t[0] == '\\' {
      assert t[1..] == [];
      assert t + [] == t;
    } else {
      BlankedOne(t[0], rest, Literal(q));
    }
  }

  /** A second pass changes nothing. */
  lemma {:induction false} BlankedTwice(t: string, s: State)
    ensures Blanked(Blanked(t, s), Again(s)) == Blanked(t, s)
    decreases |t|
  {
    if t != [] {
      var m := Next(t, s);
      BlankedTwice(t[|m.written|..], m.state);
      match s {
        case Code => SecondCode(t);
        case Literal(q) => SecondLiteral(t, q);
        case _ => SecondComment(t, s);
      }
    }
  }
}
