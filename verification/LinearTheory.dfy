/** Quantifier-free linear integer arithmetic, as far as initialization
    obligations use it: numerals, `false`, `Int` and eleven operators. */
module LinearTheory {
  import opened Options
  import opened PyText
  import opened SmtText
  import opened SmtLogic
  import opened SmtPrint

  datatype Op = Plus | Minus | Times | Le | Lt | Ge | Eq | And | Or | Not | Ite

  function Name(op: Op): string {
    match op
    case Plus => "+"
    case Minus => "-"
    case Times => "*"
    case Le => "<="
    case Lt => "<"
    case Ge => ">="
    case Eq => "="
    case And => "and"
    case Or => "or"
    case Not => "not"
    case Ite => "ite"
  }

  function Operator(op: Op): SExp {
    Keyword(Name(op))
  }

  function FalseExp(): SExp {
    Keyword("false")
  }

  function IntSort(): SExp {
    Keyword("Int")
  }

  predicate IsDigit(t: Token) {
    t.Plain? && '0' <= t.c <= '9'
  }

  predicate IsNumeral(s: Symbol) {
    s != [] && forall i | 0 <= i < |s| :: IsDigit(s[i])
  }

  function NumeralValue(s: Symbol): nat
    requires forall i | 0 <= i < |s| :: IsDigit(s[i])
  {
    if s == [] then 0
    else
      assert IsDigit(s[|s| - 1]);
      10 * NumeralValue(s[..|s| - 1]) + (s[|s| - 1].c as int - '0' as int)
  }

  predicate AllInts(vs: seq<Value>) {
    forall i | 0 <= i < |vs| :: vs[i].IntV?
  }

  predicate AllBools(vs: seq<Value>) {
    forall i | 0 <= i < |vs| :: vs[i].BoolV?
  }

  function Total(vs: seq<Value>): int
    requires AllInts(vs)
  {
    if vs == [] then 0 else vs[0].i + Total(vs[1..])
  }

  function Apply(op: Op, vs: seq<Value>): Value {
    match op
    case Plus => if AllInts(vs) then IntV(Total(vs)) else Undefined
    case Minus => if |vs| == 1 && AllInts(vs) then IntV(-vs[0].i) else Undefined
    case Times => if |vs| == 2 && AllInts(vs) then IntV(vs[0].i * vs[1].i) else Undefined
    case Le => if |vs| == 2 && AllInts(vs) then BoolV(vs[0].i <= vs[1].i) else Undefined
    case Lt => if |vs| == 2 && AllInts(vs) then BoolV(vs[0].i < vs[1].i) else Undefined
    case Ge => if |vs| == 2 && AllInts(vs) then BoolV(vs[0].i >= vs[1].i) else Undefined
    case Eq => if |vs| == 2 && AllInts(vs) then BoolV(vs[0].i == vs[1].i) else Undefined
    case And => if AllBools(vs) then BoolV(forall i | 0 <= i < |vs| :: vs[i].b) else Undefined
    case Or => if AllBools(vs) then BoolV(exists i | 0 <= i < |vs| :: vs[i].b) else Undefined
    case Not => if |vs| == 1 && AllBools(vs) then BoolV(!vs[0].b) else Undefined
    case Ite => if |vs| == 3 && vs[0].BoolV? then (if vs[0].b then vs[1] else vs[2]) else Undefined
  }

  function OpOf(e: SExp): Option<Op> {
    if e == Operator(Plus) then Some(Plus)
    else if e == Operator(Minus) then Some(Minus)
    else if e == Operator(Times) then Some(Times)
    else if e == Operator(Le) then Some(Le)
    else if e == Operator(Lt) then Some(Lt)
    else if e == Operator(Ge) then Some(Ge)
    else if e == Operator(Eq) then Some(Eq)
    else if e == Operator(And) then Some(And)
    else if e == Operator(Or) then Some(Or)
    else if e == Operator(Not) then Some(Not)
    else if e == Operator(Ite) then Some(Ite)
    else None
  }

  function Interpret(e: SExp, vs: seq<Value>): Value {
    if e.Sym? && IsNumeral(e.name) then (if vs == [] then IntV(NumeralValue(e.name)) else Undefined)
    else if e == FalseExp() then BoolV(false)
    else
      var op := OpOf(e);
      if op.Some? then Apply(op.value, vs) else Undefined
  }

  function Linear(): Theory {
    Theory(s => IsNumeral(s) || s == Plains("false"), (e, vs) => Interpret(e, vs), (e: SExp, v: Value) => e == IntSort() && v.IntV?)
  }

  lemma {:induction false} KeywordAtomFree(w: string)
    ensures AtomFreeExp(Keyword(w))
  {
  }

  lemma {:induction false} OpOfFree(e: SExp)
    requires OpOf(e).Some?
    ensures e == Operator(OpOf(e).value)
  {
  }

  lemma {:induction false} LinearNoCapture()
    ensures NoCapture(Linear())
  {
    forall e, vs | !AtomFreeExp(e)
      ensures Interpret(e, vs) == Undefined
    {
      KeywordAtomFree("false");
      if OpOf(e).Some? {
        OpOfFree(e);
        KeywordAtomFree(Name(OpOf(e).value));
      }
    }
    KeywordAtomFree("Int");
  }

  /** Operators are told apart by length and first character. */
  lemma {:induction false} KeywordsDiffer(v: string, w: string)
    requires v != w
    ensures Keyword(v) != Keyword(w)
  {
    if Keyword(v) == Keyword(w) {
      RenderPlains(v);
      RenderPlains(w);
    }
  }

  lemma {:induction false} NamesDiffer(a: Op, b: Op)
    requires a != b
    ensures Operator(a) != Operator(b)
  {
    assert Name(a) != Name(b) by {
      assert |Name(a)| != |Name(b)| || Name(a)[0] != Name(b)[0];
    }
    KeywordsDiffer(Name(a), Name(b));
  }

  lemma {:induction false} OpOfOperator(op: Op)
    ensures OpOf(Operator(op)) == Some(op)
  {
    var r := OpOf(Operator(op));
    assert r.Some?;
    OpOfFree(Operator(op));
    if r.value != op {
      NamesDiffer(r.value, op);
    }
  }

  lemma {:induction false} OperatorIsNoNumeral(op: Op)
    ensures !IsNumeral(Operator(op).name) && Operator(op) != FalseExp()
  {
    assert Operator(op).name[0] == Plain(Name(op)[0]);
    KeywordsDiffer(Name(op), "false");
  }

  /** An application means its operator on the values of its arguments. */
  lemma {:induction false} EvalApp(op: Op, args: seq<SExp>, m: Model)
    ensures Eval(App(op, args), Linear(), m) == Apply(op, EvalAll(args, Linear(), m))
  {
    var items := [Operator(op)] + args;
    assert items[1..] == args;
    OperatorIsNoNumeral(op);
    OpOfOperator(op);
  }

  function App(op: Op, args: seq<SExp>): SExp {
    Node([Operator(op)] + args)
  }

  lemma {:induction false} EvalTwo(a: SExp, b: SExp, m: Model)
    ensures EvalAll([a, b], Linear(), m) == [Eval(a, Linear(), m), Eval(b, Linear(), m)]
  {
    assert [a, b][1..] == [b] && [b][1..] == [];
    assert EvalAll([b], Linear(), m) == [Eval(b, Linear(), m)];
  }

  lemma {:induction false} EvalOne(a: SExp, m: Model)
    ensures EvalAll([a], Linear(), m) == [Eval(a, Linear(), m)]
  {
    assert [a][1..] == [];
  }

  // ----- Integers -----

  function Numeral(n: nat): SExp {
    Keyword(Decimal(n))
  }

  /** `smt_int` */
  function Int(k: int): SExp {
    if k < 0 then App(Minus, [Numeral(-k)]) else Numeral(k)
  }

  lemma {:induction false} NumeralOfDecimal(n: nat)
    ensures IsNumeral(Plains(Decimal(n))) && NumeralValue(Plains(Decimal(n))) == n
  {
    var s := Plains(Decimal(n));
    if n >= 10 {
      NumeralOfDecimal(n / 10);
      assert s[..|s| - 1] == Plains(Decimal(n / 10));
    } else {
      assert s[..0] == [] && NumeralValue([]) == 0;
    }
  }

  lemma {:induction false} EvalInt(k: int, m: Model)
    ensures Eval(Int(k), Linear(), m) == IntV(k)
  {
    NumeralOfDecimal(if k < 0 then -k else k);
    if k < 0 {
      EvalApp(Minus, [Numeral(-k)], m);
      EvalOne(Numeral(-k), m);
    }
  }

  lemma {:induction false} EvalFalse(m: Model)
    ensures Eval(FalseExp(), Linear(), m) == BoolV(false)
  {
    var s := Plains("false");
    assert s[0] == Plain('f');
  }

  // ----- Connectives -----

  lemma {:induction false} EvalAnd(a: SExp, b: SExp, x: bool, y: bool, m: Model)
    requires Eval(a, Linear(), m) == BoolV(x) && Eval(b, Linear(), m) == BoolV(y)
    ensures Eval(App(And, [a, b]), Linear(), m) == BoolV(x && y)
  {
    EvalTwo(a, b, m);
    EvalApp(And, [a, b], m);
    var vs := [BoolV(x), BoolV(y)];
    assert vs[0].b == x && vs[1].b == y;
  }

  lemma {:induction false} EvalNot(a: SExp, x: bool, m: Model)
    requires Eval(a, Linear(), m) == BoolV(x)
    ensures Eval(App(Not, [a]), Linear(), m) == BoolV(!x)
  {
    EvalOne(a, m);
    EvalApp(Not, [a], m);
  }

  lemma {:induction false} EvalIte(c: SExp, a: SExp, b: SExp, x: bool, m: Model)
    requires Eval(c, Linear(), m) == BoolV(x)
    ensures Eval(App(Ite, [c, a, b]), Linear(), m) == if x then Eval(a, Linear(), m) else Eval(b, Linear(), m)
  {
    EvalTwo(a, b, m);
    assert [c, a, b][1..] == [a, b];
    EvalApp(Ite, [c, a, b], m);
  }

  /** `(or false ...)` */
  lemma {:induction false} EvalOrFalse(es: seq<SExp>, vs: seq<Value>, m: Model)
    requires EvalAll(es, Linear(), m) == vs && AllBools(vs)
    ensures Eval(App(Or, [FalseExp()] + es), Linear(), m) == BoolV(exists i | 0 <= i < |vs| :: vs[i].b)
  {
    EvalFalse(m);
    EvalFirst(FalseExp(), es, m);
    EvalApp(Or, [FalseExp()] + es, m);
    OrFalse(vs);
  }

  lemma {:induction false} EvalFirst(e: SExp, es: seq<SExp>, m: Model)
    ensures EvalAll([e] + es, Linear(), m) == [Eval(e, Linear(), m)] + EvalAll(es, Linear(), m)
  {
    assert ([e] + es)[1..] == es;
  }

  lemma {:induction false} OrFalse(vs: seq<Value>)
    requires AllBools(vs)
    ensures Apply(Or, [BoolV(false)] + vs) == BoolV(exists i | 0 <= i < |vs| :: vs[i].b)
  {
    var all := [BoolV(false)] + vs;
    assert forall i | 0 <= i < |vs| :: all[i + 1] == vs[i];
    assert forall i | 0 < i < |all| :: all[i] == vs[i - 1];
  }

  // ----- Writing -----

  lemma {:induction false} OperatorProper(op: Op, beyond: char -> bool)
    ensures ProperExp(Operator(op), beyond)
  {
    PlainWordProper(Name(op), beyond);
  }

  lemma {:induction false} AppProper(op: Op, args: seq<SExp>, beyond: char -> bool)
    requires ProperAll(args, beyond)
    ensures ProperExp(App(op, args), beyond)
  {
    OperatorProper(op, beyond);
  }

  lemma {:induction false} IntProper(k: int, beyond: char -> bool)
    ensures ProperExp(Int(k), beyond)
  {
    var n := if k < 0 then -k else k;
    var w := Decimal(n);
    assert 'x' !in w && forall i | 0 <= i < |w| :: InSymbol(Plain(w[i]));
    PlainWordProper(w, beyond);
    if k < 0 {
      AppProper(Minus, [Numeral(-k)], beyond);
    }
  }
}
