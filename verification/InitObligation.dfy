/** The obligation written for a coverage conclusion (lib/init_pred.ml, `smt`,
    `prelude` and `obligation`): it is unsatisfiable exactly when the goal is
    covered on every path, because distinct atoms have distinct names. */
module InitObligation {
  import opened Options
  import opened PyText
  import opened SeqLaws
  import opened SmtText
  import opened SmtLogic
  import opened SmtPrint
  import opened LinearTheory
  import opened InitPred
  import opened InitCover
  import SmtName

  // ----- Terms -----

  function AtomName(v: Var): string {
    SmtName.Spell(SmtName.Atom(v))
  }

  function AtomSymbol(v: Var): Symbol {
    Run(AtomName(v))
  }

  function AtomExp(v: Var): SExp {
    Sym(AtomSymbol(v))
  }

  function TermExp(t: (Var, int)): SExp {
    if t.1 == 1 then AtomExp(t.0) else App(Times, [Int(t.1), AtomExp(t.0)])
  }

  function TermExps(m: Terms): (es: seq<SExp>)
    ensures |es| == |m|
  {
    if m == [] then [] else [TermExp(m[0])] + TermExps(m[1..])
  }

  /** `smt x` */
  function LinExp(x: Lin): SExp {
    var ts := TermExps(x.m);
    if ts == [] then Int(x.c)
    else if x.c == 0 then (if |ts| == 1 then ts[0] else App(Plus, ts))
    else App(Plus, ts + [Int(x.c)])
  }

  ghost predicate Uses(m: Terms, vars: set<Var>) {
    forall i | 0 <= i < |m| :: m[i].0 in vars
  }

  /** The model gives each declared atom its value in env. */
  ghost predicate Agrees(m: Model, env: Env, vars: set<Var>) {
    forall v | v in vars :: m(AtomSymbol(v)) == IntV(env(v))
  }

  lemma {:induction false} AtomNotKnown(v: Var)
    ensures !Linear().known(AtomSymbol(v)) && AtomSymbol(v) != Plains("k")
  {
    var s := AtomSymbol(v);
    assert AtomName(v)[0] == 'x' && AtomName(v)[1] == '_';
    if IsAtomName(AtomName(v)) {
      assert s[0].Atom?;
    } else {
      assert s[0] == Plain('x');
    }
  }

  lemma {:induction false} EvalAtom(v: Var, m: Model, env: Env, vars: set<Var>)
    requires Agrees(m, env, vars) && v in vars
    ensures Eval(AtomExp(v), Linear(), m) == IntV(env(v))
  {
    AtomNotKnown(v);
  }

  lemma {:induction false} EvalTerm(t: (Var, int), m: Model, env: Env, vars: set<Var>)
    requires Agrees(m, env, vars) && t.0 in vars
    ensures Eval(TermExp(t), Linear(), m) == IntV(t.1 * env(t.0))
  {
    EvalAtom(t.0, m, env, vars);
    if t.1 != 1 {
      EvalInt(t.1, m);
      EvalTwo(Int(t.1), AtomExp(t.0), m);
      EvalApp(Times, [Int(t.1), AtomExp(t.0)], m);
    }
  }

  lemma {:induction false} EvalTerms(x: Terms, m: Model, env: Env, vars: set<Var>)
    requires Agrees(m, env, vars) && Uses(x, vars)
    ensures var vs := EvalAll(TermExps(x), Linear(), m); AllInts(vs) && Total(vs) == Sum(x, env)
  {
    if x != [] {
      EvalTerm(x[0], m, env, vars);
      EvalTerms(x[1..], m, env, vars);
      assert TermExps(x)[1..] == TermExps(x[1..]);
    }
  }

  lemma {:induction false} EvalConcat(a: seq<SExp>, b: seq<SExp>, m: Model)
    ensures EvalAll(a + b, Linear(), m) == EvalAll(a, Linear(), m) + EvalAll(b, Linear(), m)
  {
    if a == [] {
      Empty(b);
      Empty(EvalAll(b, Linear(), m));
    } else {
      assert (a + b)[1..] == a[1..] + b;
      EvalConcat(a[1..], b, m);
    }
  }

  lemma {:induction false} TotalConcat(a: seq<Value>, b: seq<Value>)
    requires AllInts(a) && AllInts(b)
    ensures AllInts(a + b) && Total(a + b) == Total(a) + Total(b)
  {
    if a == [] {
      Empty(b);
    } else {
      assert (a + b)[1..] == a[1..] + b;
      TotalConcat(a[1..], b);
    }
  }

  /** A written term has the term's value. */
  lemma {:induction false} EvalLin(x: Lin, m: Model, env: Env, vars: set<Var>)
    requires Agrees(m, env, vars) && Uses(x.m, vars)
    ensures Eval(LinExp(x), Linear(), m) == IntV(Val(x, env))
  {
    var ts := TermExps(x.m);
    var vs := EvalAll(ts, Linear(), m);
    EvalTerms(x.m, m, env, vars);
    EvalInt(x.c, m);
    if ts == [] {
    } else if x.c == 0 {
      if |ts| == 1 {
        EvalOne(ts[0], m);
        assert ts == [ts[0]] && vs == [vs[0]] && vs[1..] == [];
      } else {
        EvalApp(Plus, ts, m);
      }
    } else {
      EvalApp(Plus, ts + [Int(x.c)], m);
      EvalConcat(ts, [Int(x.c)], m);
      EvalOne(Int(x.c), m);
      TotalConcat(vs, [IntV(x.c)]);
      assert [IntV(x.c)][1..] == [] && Total([IntV(x.c)]) == x.c;
    }
  }

  // ----- Commands -----

  function Assert(e: SExp): SExp {
    Node([Keyword("assert"), e])
  }

  function Declare(s: Symbol): SExp {
    Node([Keyword("declare-const"), Sym(s), IntSort()])
  }

  function KExp(): SExp {
    Keyword("k")
  }

  lemma {:induction false} HoldsAssert(e: SExp, m: Model)
    ensures Holds(Assert(e), Linear(), m) <==> Eval(e, Linear(), m) == BoolV(true)
  {
    KeywordsDiffer("assert", "declare-const");
    KeywordsDiffer("assert", "define-fun");
    assert IsAssert(Assert(e));
  }

  lemma {:induction false} HoldsDeclare(s: Symbol, m: Model)
    ensures Holds(Declare(s), Linear(), m) <==> m(s).IntV?
  {
    KeywordsDiffer("assert", "declare-const");
    KeywordsDiffer("declare-const", "define-fun");
    assert IsDeclare(Declare(s));
  }

  /** (op a b) between two integers. */
  lemma {:induction false} EvalCompare(op: Op, a: SExp, b: SExp, x: int, y: int, m: Model)
    requires op == Le || op == Lt || op == LinearTheory.Ge || op == Eq
    requires Eval(a, Linear(), m) == IntV(x) && Eval(b, Linear(), m) == IntV(y)
    ensures Eval(App(op, [a, b]), Linear(), m)
         == BoolV(if op == Le then x <= y else if op == Lt then x < y else if op == Eq then x == y else x >= y)
  {
    EvalApp(op, [a, b], m);
    EvalTwo(a, b, m);
  }

  /** (and (<= a e) (< e b)) */
  function Between(a: SExp, e: SExp, b: SExp): SExp {
    App(LinearTheory.And, [App(Le, [a, e]), App(Lt, [e, b])])
  }

  lemma {:induction false} EvalBetween(a: SExp, e: SExp, b: SExp, x: int, k: int, y: int, m: Model)
    requires Eval(a, Linear(), m) == IntV(x) && Eval(e, Linear(), m) == IntV(k) && Eval(b, Linear(), m) == IntV(y)
    ensures Eval(Between(a, e, b), Linear(), m) == BoolV(x <= k < y)
  {
    EvalCompare(Le, a, e, x, k, m);
    EvalCompare(Lt, e, b, k, y, m);
    EvalAnd(App(Le, [a, e]), App(Lt, [e, b]), x <= k, k < y, m);
  }

  function RangeCmd(v: Var): SExp {
    Assert(Between(Int(0), AtomExp(v), Int(USIZE)))
  }

  function EqCmd(q: (Var, Lin)): SExp {
    Assert(App(Eq, [AtomExp(q.0), LinExp(q.1)]))
  }

  function GeCmd(t: Lin): SExp {
    Assert(App(LinearTheory.Ge, [LinExp(t), Int(0)]))
  }

  function MinExp(d: Min): SExp {
    App(Ite, [App(Le, [LinExp(d.a), LinExp(d.b)]), LinExp(d.a), LinExp(d.b)])
  }

  function MinCmd(d: Min): SExp {
    Assert(App(Eq, [AtomExp(d.x), MinExp(d)]))
  }

  function GoalCmd(a: Lin, b: Lin): SExp {
    Assert(Between(LinExp(a), KExp(), LinExp(b)))
  }

  function InsideExp(iv: Interval): SExp {
    Between(LinExp(iv.0), KExp(), LinExp(iv.1))
  }

  function InsideExps(ivs: seq<Interval>): (es: seq<SExp>)
    ensures |es| == |ivs|
  {
    if ivs == [] then [] else [InsideExp(ivs[0])] + InsideExps(ivs[1..])
  }

  function OutsideCmd(ivs: seq<Interval>): SExp {
    Assert(App(LinearTheory.Not, [App(LinearTheory.Or, [FalseExp()] + InsideExps(ivs))]))
  }

  lemma {:induction false} HoldsRange(v: Var, m: Model, env: Env, vars: set<Var>)
    requires Agrees(m, env, vars) && v in vars
    ensures Holds(RangeCmd(v), Linear(), m) <==> 0 <= env(v) < USIZE
  {
    EvalInt(0, m);
    EvalInt(USIZE, m);
    EvalAtom(v, m, env, vars);
    EvalBetween(Int(0), AtomExp(v), Int(USIZE), 0, env(v), USIZE, m);
    HoldsAssert(Between(Int(0), AtomExp(v), Int(USIZE)), m);
  }

  lemma {:induction false} HoldsEq(q: (Var, Lin), m: Model, env: Env, vars: set<Var>)
    requires Agrees(m, env, vars) && q.0 in vars && Uses(q.1.m, vars)
    ensures Holds(EqCmd(q), Linear(), m) <==> env(q.0) == Val(q.1, env)
  {
    EvalAtom(q.0, m, env, vars);
    EvalLin(q.1, m, env, vars);
    EvalCompare(Eq, AtomExp(q.0), LinExp(q.1), env(q.0), Val(q.1, env), m);
    HoldsAssert(App(Eq, [AtomExp(q.0), LinExp(q.1)]), m);
  }

  lemma {:induction false} HoldsGe(t: Lin, m: Model, env: Env, vars: set<Var>)
    requires Agrees(m, env, vars) && Uses(t.m, vars)
    ensures Holds(GeCmd(t), Linear(), m) <==> Val(t, env) >= 0
  {
    EvalLin(t, m, env, vars);
    EvalInt(0, m);
    EvalCompare(LinearTheory.Ge, LinExp(t), Int(0), Val(t, env), 0, m);
    HoldsAssert(App(LinearTheory.Ge, [LinExp(t), Int(0)]), m);
  }

  lemma {:induction false} EvalMin(d: Min, m: Model, env: Env, vars: set<Var>)
    requires Agrees(m, env, vars) && Uses(d.a.m, vars) && Uses(d.b.m, vars)
    ensures var a, b := Val(d.a, env), Val(d.b, env); Eval(MinExp(d), Linear(), m) == IntV(if a <= b then a else b)
  {
    EvalLin(d.a, m, env, vars);
    EvalLin(d.b, m, env, vars);
    var c := App(Le, [LinExp(d.a), LinExp(d.b)]);
    EvalCompare(Le, LinExp(d.a), LinExp(d.b), Val(d.a, env), Val(d.b, env), m);
    EvalIte(c, LinExp(d.a), LinExp(d.b), Val(d.a, env) <= Val(d.b, env), m);
  }

  lemma {:induction false} HoldsMin(d: Min, m: Model, env: Env, vars: set<Var>)
    requires Agrees(m, env, vars) && d.x in vars && Uses(d.a.m, vars) && Uses(d.b.m, vars)
    ensures Holds(MinCmd(d), Linear(), m) <==> MinHolds(d, env)
  {
    EvalAtom(d.x, m, env, vars);
    EvalMin(d, m, env, vars);
    var a, b := Val(d.a, env), Val(d.b, env);
    EvalCompare(Eq, AtomExp(d.x), MinExp(d), env(d.x), if a <= b then a else b, m);
    HoldsAssert(App(Eq, [AtomExp(d.x), MinExp(d)]), m);
  }

  /** The model's point. */
  ghost predicate Point(m: Model, k: int) {
    m(Plains("k")) == IntV(k)
  }

  lemma {:induction false} EvalK(m: Model, k: int)
    requires Point(m, k)
    ensures Eval(KExp(), Linear(), m) == IntV(k)
  {
    assert Plains("k")[0] == Plain('k');
    assert |Plains("k")| == 1 && |Plains("false")| == 5;
  }

  lemma {:induction false} EvalInside(iv: Interval, m: Model, env: Env, vars: set<Var>, k: int)
    requires Agrees(m, env, vars) && Uses(iv.0.m, vars) && Uses(iv.1.m, vars) && Point(m, k)
    ensures Eval(InsideExp(iv), Linear(), m) == BoolV(Inside(iv, k, env))
  {
    EvalLin(iv.0, m, env, vars);
    EvalLin(iv.1, m, env, vars);
    EvalK(m, k);
    EvalBetween(LinExp(iv.0), KExp(), LinExp(iv.1), Val(iv.0, env), k, Val(iv.1, env), m);
  }

  lemma {:induction false} HoldsGoal(a: Lin, b: Lin, m: Model, env: Env, vars: set<Var>, k: int)
    requires Agrees(m, env, vars) && Uses(a.m, vars) && Uses(b.m, vars) && Point(m, k)
    ensures Holds(GoalCmd(a, b), Linear(), m) <==> Val(a, env) <= k < Val(b, env)
  {
    EvalInside((a, b), m, env, vars, k);
    HoldsAssert(InsideExp((a, b)), m);
  }

  ghost predicate UsesAll(ivs: seq<Interval>, vars: set<Var>) {
    forall i | 0 <= i < |ivs| :: Uses(ivs[i].0.m, vars) && Uses(ivs[i].1.m, vars)
  }

  lemma {:induction false} EvalInsides(ivs: seq<Interval>, m: Model, env: Env, vars: set<Var>, k: int)
    requires Agrees(m, env, vars) && UsesAll(ivs, vars) && Point(m, k)
    ensures var vs := EvalAll(InsideExps(ivs), Linear(), m);
            |vs| == |ivs| && forall i | 0 <= i < |ivs| :: vs[i] == BoolV(Inside(ivs[i], k, env))
  {
    if ivs != [] {
      EvalInside(ivs[0], m, env, vars, k);
      EvalInsides(ivs[1..], m, env, vars, k);
      assert InsideExps(ivs) == [InsideExp(ivs[0])] + InsideExps(ivs[1..]);
      EvalFirst(InsideExp(ivs[0]), InsideExps(ivs[1..]), m);
    }
  }

  lemma {:induction false} HoldsOutside(ivs: seq<Interval>, m: Model, env: Env, vars: set<Var>, k: int)
    requires Agrees(m, env, vars) && UsesAll(ivs, vars) && Point(m, k)
    ensures Holds(OutsideCmd(ivs), Linear(), m) <==> !Covers(ivs, k, env)
  {
    var or := App(LinearTheory.Or, [FalseExp()] + InsideExps(ivs));
    var vs := EvalAll(InsideExps(ivs), Linear(), m);
    EvalInsides(ivs, m, env, vars, k);
    EvalOrFalse(InsideExps(ivs), vs, m);
    assert (exists i | 0 <= i < |vs| :: vs[i].b) <==> Covers(ivs, k, env);
    EvalNot(or, Covers(ivs, k, env), m);
    HoldsAssert(App(LinearTheory.Not, [or]), m);
  }
}
