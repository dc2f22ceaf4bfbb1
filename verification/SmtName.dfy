/** One injective encoding for every solver constant name (lib/smt_name.ml). */
module SmtName {
  import opened PyText
  import opened SeqLaws
  import SmtText

  /** OCaml strings are bytes. */
  type Byte = c: char | c as int < 256

  datatype Name =
    | Atom(text: seq<Byte>)
    | Param(id: nat)
    | Var(id: nat)
    | Global(name: seq<Byte>)
    | Enum(name: seq<Byte>, case_: seq<Byte>)

  predicate Alnum(c: char) {
    'a' <= c <= 'z' || 'A' <= c <= 'Z' || '0' <= c <= '9'
  }

  function HexDigit(d: nat): char
    requires d < 16
  {
    if d < 10 then '0' + d as char else 'A' + (d - 10) as char
  }

  predicate IsHex(c: char) {
    '0' <= c <= '9' || 'A' <= c <= 'F'
  }

  /** Alphanumerics stand for themselves, '_' is doubled, any other byte is '_'
      and two upper-case hexadecimal digits. */
  function EscByte(c: Byte): (s: string)
    ensures 1 <= |s| <= 3
  {
    if Alnum(c) then [c]
    else if c == '_' then "__"
    else ['_', HexDigit(c as int / 16), HexDigit(c as int % 16)]
  }

  function Esc(s: seq<Byte>): string {
    if s == [] then "" else EscByte(s[0]) + Esc(s[1..])
  }

  function Spell(n: Name): string {
    match n
    case Atom(a) => "x_" + Esc(a)
    case Param(id) => "x__p" + Decimal(id)
    case Var(id) => "x__v" + Decimal(id)
    case Global(name) => "x__g" + Esc(name)
    case Enum(name, c) => "x__e" + (Esc(name) + ("_S" + Esc(c)))
  }

  /** The code is a prefix code. */
  lemma {:induction false} EscBytePrefix(c: Byte, c': Byte, t: string, t': string)
    requires EscByte(c) + t == EscByte(c') + t'
    ensures c == c' && t == t'
  {
    var s, s' := EscByte(c), EscByte(c');
    assert s[0] == (s + t)[0] && s'[0] == (s' + t')[0];
    if |s| > 1 && |s'| > 1 {
      assert s[1] == (s + t)[1] && s'[1] == (s' + t')[1];
      if |s| == 3 && |s'| == 3 {
        assert s[2] == (s + t)[2] && s'[2] == (s' + t')[2];
        HexInjective(c as int / 16, c' as int / 16);
        HexInjective(c as int % 16, c' as int % 16);
      }
    }
    assert c == c';
    assert t == (s + t)[|s|..] && t' == (s' + t')[|s|..];
  }

  lemma {:induction false} HexInjective(d: nat, d': nat)
    requires d < 16 && d' < 16 && HexDigit(d) == HexDigit(d')
    ensures d == d'
  {
  }

  /** An escaped text never starts with '_' and something other than '_' or a
      hexadecimal digit. */
  lemma {:induction false} EscStart(a: seq<Byte>, t: string)
    requires a != []
    ensures |Esc(a) + t| > 0
    ensures (Esc(a) + t)[0] == '_' ==> |Esc(a) + t| > 1 && ((Esc(a) + t)[1] == '_' || IsHex((Esc(a) + t)[1]))
  {
    var s := EscByte(a[0]);
    assert (Esc(a) + t)[0] == s[0];
    if |s| > 1 {
      assert (Esc(a) + t)[1] == s[1];
    }
  }

  /** What follows an escaped text is told apart from it by its first two
      characters. */
  ghost predicate Outside(t: string) {
    t == [] || (|t| > 1 && t[0] == '_' && t[1] != '_' && !IsHex(t[1]))
  }

  lemma {:induction false} EscInjective(a: seq<Byte>, a': seq<Byte>, t: string, t': string)
    requires Esc(a) + t == Esc(a') + t' && Outside(t) && Outside(t')
    ensures a == a' && t == t'
  {
    if a == [] {
      assert Esc(a) + t == t;
      if a' != [] {
        EscStart(a', t');
      }
    } else if a' == [] {
      assert Esc(a') + t' == t';
      EscStart(a, t);
    } else {
      Assoc(EscByte(a[0]), Esc(a[1..]), t);
      Assoc(EscByte(a'[0]), Esc(a'[1..]), t');
      EscBytePrefix(a[0], a'[0], Esc(a[1..]) + t, Esc(a'[1..]) + t');
      EscInjective(a[1..], a'[1..], t, t');
    }
  }

  /** A name past "x_": what tells the kinds apart. */
  function Tail(n: Name): string {
    Spell(n)[2..]
  }

  function Tag(n: Name): char
    requires !n.Atom?
  {
    match n
    case Param(_) => 'p'
    case Var(_) => 'v'
    case Global(_) => 'g'
    case Enum(_, _) => 'e'
  }

  function Rest(n: Name): string {
    match n
    case Atom(a) => Esc(a)
    case Param(id) => Decimal(id)
    case Var(id) => Decimal(id)
    case Global(name) => Esc(name)
    case Enum(name, c) => Esc(name) + ("_S" + Esc(c))
  }

  lemma {:induction false} TailParts(n: Name)
    ensures Tail(n) == if n.Atom? then Rest(n) else ['_', Tag(n)] + Rest(n)
  {
  }

  lemma {:induction false} AtomIsNoTagged(a: seq<Byte>, n: Name)
    requires !n.Atom?
    ensures Tail(Atom(a)) != Tail(n)
  {
    TailParts(Atom(a));
    TailParts(n);
    if a != [] {
      EscStart(a, "");
      Empty(Esc(a));
    }
  }

  lemma {:induction false} TaggedInjective(n: Name, n': Name)
    requires !n.Atom? && !n'.Atom? && Tail(n) == Tail(n')
    ensures n == n'
  {
    TailParts(n);
    TailParts(n');
    assert Tag(n) == Tail(n)[1] && Tag(n') == Tail(n')[1];
    assert Rest(n) == Tail(n)[2..] && Rest(n') == Tail(n')[2..];
    match n
    case Param(id) => DecimalInjective(id, n'.id);
    case Var(id) => DecimalInjective(id, n'.id);
    case Global(name) =>
      Empty(Esc(name));
      Empty(Esc(n'.name));
      EscInjective(name, n'.name, "", "");
    case Enum(name, c) =>
      EscInjective(name, n'.name, "_S" + Esc(c), "_S" + Esc(n'.case_));
      assert Esc(c) == ("_S" + Esc(c))[2..] && Esc(n'.case_) == ("_S" + Esc(n'.case_))[2..];
      Empty(Esc(c));
      Empty(Esc(n'.case_));
      EscInjective(c, n'.case_, "", "");
  }

  /** Distinct values have distinct names, across kinds too. */
  lemma {:induction false} SpellInjective(n: Name, n': Name)
    requires Spell(n) == Spell(n')
    ensures n == n'
  {
    if n.Atom? && n'.Atom? {
      TailParts(n);
      TailParts(n');
      Empty(Esc(n.text));
      Empty(Esc(n'.text));
      EscInjective(n.text, n'.text, "", "");
    } else if n.Atom? {
      AtomIsNoTagged(n.text, n');
    } else if n'.Atom? {
      AtomIsNoTagged(n'.text, n);
    } else {
      TaggedInjective(n, n');
    }
  }

  lemma {:induction false} EscWord(s: seq<Byte>)
    ensures forall i | 0 <= i < |Esc(s)| :: SmtText.AsciiWord(Esc(s)[i])
    ensures Esc(s) == [] <==> s == []
  {
    if s != [] {
      EscWord(s[1..]);
    }
  }

  /** Every name but that of the empty atom is one whole match of `canonical`'s
      atom pattern, so no name is missed, split or joined there. */
  lemma {:induction false} SpellIsAtomName(n: Name)
    ensures SmtText.IsAtomName(Spell(n)) <==> n != Atom([])
  {
    match n
    case Atom(a) => EscWord(a);
    case Param(id) =>
    case Var(id) =>
    case Global(name) => EscWord(name);
    case Enum(name, c) =>
      EscWord(name);
      EscWord(c);
  }
}
