/** The whole obligation: its script, its text, and the two judges it brings
    together (lib/init_pred.ml, `prelude` and `obligation`). */
module InitScript {
  import opened Options
  import opened PyText
  import opened SeqLaws
  import opened SmtText
  import opened SmtLogic
  import opened SmtPrint
  import opened LinearTheory
  import opened InitPred
  import opened InitCover
  import opened InitObligation
  import SmtName

  /** A coverage conclusion: the path's equalities and facts, the known
      intervals and the goal. */
  datatype Question = Question(eqs: Eqs, facts: Facts, ivs: seq<Interval>, a: Lin, b: Lin)

  // ----- The atoms a question names -----

  function OfTerm(m: Terms): (vs: seq<Var>)
    ensures |vs| == |m| && forall i | 0 <= i < |m| :: vs[i] == m[i].0
  {
    seq(|m|, i requires 0 <= i < |m| => m[i].0)
  }

  function OfTerms(xs: seq<Lin>): seq<Var> {
    if xs == [] then [] else OfTerm(xs[0].m) + OfTerms(xs[1..])
  }

  function OfEqs(eqs: Eqs): seq<Var> {
    if eqs == [] then [] else [eqs[0].0] + OfTerm(eqs[0].1.m) + OfEqs(eqs[1..])
  }

  function OfMins(ds: seq<Min>): seq<Var> {
    if ds == [] then [] else [ds[0].x] + OfTerm(ds[0].a.m) + OfTerm(ds[0].b.m) + OfMins(ds[1..])
  }

  function Bounds(ivs: seq<Interval>): seq<Lin> {
    if ivs == [] then [] else [ivs[0].0, ivs[0].1] + Bounds(ivs[1..])
  }

  function Insert(v: Var, l: seq<Var>): seq<Var> {
    if l == [] then [v]
    else if v == l[0] then l
    else if Less(v, l[0]) then [v] + l
    else [l[0]] + Insert(v, l[1..])
  }

  /** `List.sort_uniq compare` */
  function SortUniq(vs: seq<Var>): seq<Var> {
    if vs == [] then [] else Insert(vs[0], SortUniq(vs[1..]))
  }

  function Named(q: Question): seq<Var> {
    OfTerms([q.a, q.b] + Bounds(q.ivs)) + OfEqs(q.eqs) + OfTerms(q.facts.ge) + OfMins(q.facts.mins)
  }

  function Declared(q: Question): seq<Var> {
    SortUniq(Named(q))
  }

  function AsSet(vs: seq<Var>): set<Var> {
    set v | v in vs
  }

  lemma {:induction false} InsertMembers(v: Var, l: seq<Var>)
    ensures AsSet(Insert(v, l)) == AsSet(l) + {v}
  {
    if l != [] && v != l[0] && !Less(v, l[0]) {
      InsertMembers(v, l[1..]);
      assert AsSet(l) == {l[0]} + AsSet(l[1..]) && AsSet(Insert(v, l)) == {l[0]} + AsSet(Insert(v, l[1..]));
    }
  }

  lemma {:induction false} SortUniqMembers(vs: seq<Var>)
    ensures AsSet(SortUniq(vs)) == AsSet(vs)
  {
    if vs != [] {
      SortUniqMembers(vs[1..]);
      InsertMembers(vs[0], SortUniq(vs[1..]));
      assert AsSet(vs) == {vs[0]} + AsSet(vs[1..]);
    }
  }

  lemma {:induction false} OfTermsUses(xs: seq<Lin>, i: nat)
    requires i < |xs|
    ensures forall j | 0 <= j < |xs[i].m| :: xs[i].m[j].0 in OfTerms(xs)
  {
    if i == 0 {
      assert forall j | 0 <= j < |xs[0].m| :: OfTerm(xs[0].m)[j] in OfTerms(xs);
    } else {
      OfTermsUses(xs[1..], i - 1);
    }
  }

  lemma {:induction false} OfEqsUses(eqs: Eqs, i: nat)
    requires i < |eqs|
    ensures eqs[i].0 in OfEqs(eqs) && forall j | 0 <= j < |eqs[i].1.m| :: eqs[i].1.m[j].0 in OfEqs(eqs)
  {
    if i == 0 {
      assert forall j | 0 <= j < |eqs[0].1.m| :: OfTerm(eqs[0].1.m)[j] in OfEqs(eqs);
    } else {
      OfEqsUses(eqs[1..], i - 1);
    }
  }

  lemma {:induction false} OfMinsUses(ds: seq<Min>, i: nat)
    requires i < |ds|
    ensures ds[i].x in OfMins(ds)
    ensures forall j | 0 <= j < |ds[i].a.m| :: ds[i].a.m[j].0 in OfMins(ds)
    ensures forall j | 0 <= j < |ds[i].b.m| :: ds[i].b.m[j].0 in OfMins(ds)
  {
    if i == 0 {
      assert forall j | 0 <= j < |ds[0].a.m| :: OfTerm(ds[0].a.m)[j] in OfMins(ds);
      assert forall j | 0 <= j < |ds[0].b.m| :: OfTerm(ds[0].b.m)[j] in OfMins(ds);
    } else {
      OfMinsUses(ds[1..], i - 1);
    }
  }

  lemma {:induction false} BoundsAt(ivs: seq<Interval>, i: nat)
    requires i < |ivs|
    ensures |Bounds(ivs)| == 2 * |ivs| && Bounds(ivs)[2 * i] == ivs[i].0 && Bounds(ivs)[2 * i + 1] == ivs[i].1
  {
    if |ivs| > 1 {
      BoundsAt(ivs[1..], if i == 0 then 0 else i - 1);
    }
  }

  /** Every atom of the question is declared. */
  ghost predicate AllUsed(q: Question, vars: set<Var>) {
    && Uses(q.a.m, vars) && Uses(q.b.m, vars) && UsesAll(q.ivs, vars)
    && (forall i | 0 <= i < |q.eqs| :: q.eqs[i].0 in vars && Uses(q.eqs[i].1.m, vars))
    && (forall i | 0 <= i < |q.facts.ge| :: Uses(q.facts.ge[i].m, vars))
    && forall i | 0 <= i < |q.facts.mins| ::
         q.facts.mins[i].x in vars && Uses(q.facts.mins[i].a.m, vars) && Uses(q.facts.mins[i].b.m, vars)
  }

  lemma {:induction false} GoalUsed(q: Question, vars: set<Var>)
    requires AsSet(Named(q)) <= vars
    ensures Uses(q.a.m, vars) && Uses(q.b.m, vars) && UsesAll(q.ivs, vars)
  {
    var xs := [q.a, q.b] + Bounds(q.ivs);
    assert forall v | v in OfTerms(xs) :: v in Named(q);
    OfTermsUses(xs, 0);
    OfTermsUses(xs, 1);
    forall i | 0 <= i < |q.ivs|
      ensures Uses(q.ivs[i].0.m, vars) && Uses(q.ivs[i].1.m, vars)
    {
      BoundsAt(q.ivs, i);
      assert xs[2 * i + 2] == q.ivs[i].0 && xs[2 * i + 3] == q.ivs[i].1;
      OfTermsUses(xs, 2 * i + 2);
      OfTermsUses(xs, 2 * i + 3);
    }
  }

  lemma {:induction false} PathUsed(q: Question, vars: set<Var>)
    requires AsSet(Named(q)) <= vars
    ensures forall i | 0 <= i < |q.eqs| :: q.eqs[i].0 in vars && Uses(q.eqs[i].1.m, vars)
    ensures forall i | 0 <= i < |q.facts.ge| :: Uses(q.facts.ge[i].m, vars)
    ensures forall i | 0 <= i < |q.facts.mins| ::
              q.facts.mins[i].x in vars && Uses(q.facts.mins[i].a.m, vars) && Uses(q.facts.mins[i].b.m, vars)
  {
    forall i | 0 <= i < |q.eqs|
      ensures q.eqs[i].0 in vars && Uses(q.eqs[i].1.m, vars)
    {
      OfEqsUses(q.eqs, i);
      assert forall v | v in OfEqs(q.eqs) :: v in Named(q);
    }
    forall i | 0 <= i < |q.facts.ge|
      ensures Uses(q.facts.ge[i].m, vars)
    {
      OfTermsUses(q.facts.ge, i);
      assert forall v | v in OfTerms(q.facts.ge) :: v in Named(q);
    }
    forall i | 0 <= i < |q.facts.mins|
      ensures q.facts.mins[i].x in vars && Uses(q.facts.mins[i].a.m, vars) && Uses(q.facts.mins[i].b.m, vars)
    {
      OfMinsUses(q.facts.mins, i);
      assert forall v | v in OfMins(q.facts.mins) :: v in Named(q);
    }
  }

  lemma {:induction false} DeclaredUsed(q: Question)
    ensures AllUsed(q, AsSet(Declared(q)))
  {
    SortUniqMembers(Named(q));
    GoalUsed(q, AsSet(Declared(q)));
    PathUsed(q, AsSet(Declared(q)));
  }

  // ----- The script -----

  function Decls(vs: seq<Var>): seq<SExp> {
    if vs == [] then [] else [Declare(AtomSymbol(vs[0])), RangeCmd(vs[0])] + Decls(vs[1..])
  }

  function EqCmds(eqs: Eqs): (cs: seq<SExp>)
    ensures |cs| == |eqs| && forall i | 0 <= i < |eqs| :: cs[i] == EqCmd(eqs[i])
  {
    seq(|eqs|, i requires 0 <= i < |eqs| => EqCmd(eqs[i]))
  }

  function GeCmds(ts: seq<Lin>): (cs: seq<SExp>)
    ensures |cs| == |ts| && forall i | 0 <= i < |ts| :: cs[i] == GeCmd(ts[i])
  {
    seq(|ts|, i requires 0 <= i < |ts| => GeCmd(ts[i]))
  }

  function MinCmds(ds: seq<Min>): (cs: seq<SExp>)
    ensures |cs| == |ds| && forall i | 0 <= i < |ds| :: cs[i] == MinCmd(ds[i])
  {
    seq(|ds|, i requires 0 <= i < |ds| => MinCmd(ds[i]))
  }

  function SetLogic(): SExp {
    Node([Keyword("set-logic"), Keyword("QF_LIA")])
  }

  function CheckSat(): SExp {
    Node([Keyword("check-sat")])
  }

  function PathCmds(q: Question): seq<SExp> {
    Decls(Declared(q)) + (EqCmds(q.eqs) + (GeCmds(q.facts.ge) + MinCmds(q.facts.mins)))
  }

  function GoalCmds(q: Question): seq<SExp> {
    [Declare(Plains("k")), GoalCmd(q.a, q.b), OutsideCmd(q.ivs)]
  }

  function Demands(q: Question): seq<SExp> {
    PathCmds(q) + GoalCmds(q)
  }

  function Script(q: Question): seq<SExp> {
    [SetLogic()] + (Demands(q) + [CheckSat()])
  }

  ghost predicate AllHold(cs: seq<SExp>, m: Model) {
    forall i | 0 <= i < |cs| :: Holds(cs[i], Linear(), m)
  }

  lemma {:induction false} AllHoldConcat(a: seq<SExp>, b: seq<SExp>, m: Model)
    ensures AllHold(a + b, m) <==> AllHold(a, m) && AllHold(b, m)
  {
    assert forall i | 0 <= i < |a| :: (a + b)[i] == a[i];
    assert forall i | 0 <= i < |b| :: (a + b)[|a| + i] == b[i];
  }

  /** A command that demands something: an assertion or a declaration. */
  ghost predicate Demanding(c: SExp) {
    IsAssert(c) || IsDeclare(c)
  }

  ghost predicate AllDemanding(cs: seq<SExp>) {
    forall i | 0 <= i < |cs| :: Demanding(cs[i])
  }

  lemma {:induction false} SatisfiesDemands(cs: seq<SExp>, m: Model)
    requires AllDemanding(cs)
    ensures Satisfies(cs + [CheckSat()], Linear(), m) <==> AllHold(cs, m)
  {
    var all := cs + [CheckSat()];
    if cs == [] {
      assert all[0] == CheckSat();
    } else {
      assert all[0] == cs[0] && all[1..] == cs[1..] + [CheckSat()];
      assert Demanding(cs[0]) && |cs[0].items| > 1;
      SatisfiesDemands(cs[1..], m);
      AllHoldConcat([cs[0]], cs[1..], m);
      assert [cs[0]] + cs[1..] == cs;
      assert [cs[0]][0] == cs[0];
    }
  }

  lemma {:induction false} SetLogicIsFree(m: Model)
    ensures Holds(SetLogic(), Linear(), m) && InFragment(SetLogic()) && !IsCheckSat(SetLogic())
  {
    KeywordsDiffer("set-logic", "assert");
    assert |SetLogic().items| == 2;
  }

  lemma {:induction false} SatisfiesScript(q: Question, m: Model)
    requires AllDemanding(Demands(q))
    ensures Satisfies(Script(q), Linear(), m) <==> AllHold(Demands(q), m)
  {
    SetLogicIsFree(m);
    var rest := Demands(q) + [CheckSat()];
    assert Script(q)[0] == SetLogic() && Script(q)[1..] == rest;
    SatisfiesDemands(Demands(q), m);
  }

  lemma {:induction false} DemandConcat(a: seq<SExp>, b: seq<SExp>)
    requires AllDemanding(a) && AllDemanding(b)
    ensures AllDemanding(a + b)
  {
  }

  lemma {:induction false} AssertDemands(e: SExp)
    ensures Demanding(Assert(e))
  {
  }

  lemma {:induction false} DeclareDemands(s: Symbol)
    ensures Demanding(Declare(s))
  {
  }

  lemma {:induction false} DeclsDemand(vs: seq<Var>)
    ensures AllDemanding(Decls(vs))
  {
    if vs != [] {
      var a, b := Declare(AtomSymbol(vs[0])), RangeCmd(vs[0]);
      DeclareDemands(AtomSymbol(vs[0]));
      assert Demanding(b) by {
        AssertDemands(Between(Int(0), AtomExp(vs[0]), Int(USIZE)));
      }
      DeclsDemand(vs[1..]);
      DemandConcat([a, b], Decls(vs[1..]));
    }
  }

  lemma {:induction false} FactCmdsDemand(q: Question)
    ensures AllDemanding(EqCmds(q.eqs)) && AllDemanding(GeCmds(q.facts.ge)) && AllDemanding(MinCmds(q.facts.mins))
  {
    forall i | 0 <= i < |q.eqs|
      ensures Demanding(EqCmds(q.eqs)[i])
    {
      AssertDemands(App(Eq, [AtomExp(q.eqs[i].0), LinExp(q.eqs[i].1)]));
    }
    forall i | 0 <= i < |q.facts.ge|
      ensures Demanding(GeCmds(q.facts.ge)[i])
    {
      AssertDemands(App(LinearTheory.Ge, [LinExp(q.facts.ge[i]), Int(0)]));
    }
    forall i | 0 <= i < |q.facts.mins|
      ensures Demanding(MinCmds(q.facts.mins)[i])
    {
      AssertDemands(App(Eq, [AtomExp(q.facts.mins[i].x), MinExp(q.facts.mins[i])]));
    }
  }

  lemma {:induction false} GoalCmdsDemand(q: Question)
    ensures AllDemanding(GoalCmds(q))
  {
    DeclareDemands(Plains("k"));
    AssertDemands(InsideExp((q.a, q.b)));
    AssertDemands(App(LinearTheory.Not, [App(LinearTheory.Or, [FalseExp()] + InsideExps(q.ivs))]));
  }

  lemma {:induction false} ScriptDemands(q: Question)
    ensures AllDemanding(Demands(q))
  {
    var ge, mins := GeCmds(q.facts.ge), MinCmds(q.facts.mins);
    DeclsDemand(Declared(q));
    FactCmdsDemand(q);
    DemandConcat(ge, mins);
    DemandConcat(EqCmds(q.eqs), ge + mins);
    DemandConcat(Decls(Declared(q)), EqCmds(q.eqs) + (ge + mins));
    GoalCmdsDemand(q);
    DemandConcat(PathCmds(q), GoalCmds(q));
  }

  lemma {:induction false} DeclsHold(vs: seq<Var>, m: Model, env: Env, vars: set<Var>)
    requires Agrees(m, env, vars) && AsSet(vs) <= vars
    ensures AllHold(Decls(vs), m) <==> forall v | v in vs :: 0 <= env(v) < USIZE
  {
    DeclsBound(vs, m, env, vars);
    BoundIff(vs, env);
  }

  predicate Bound(vs: seq<Var>, env: Env) {
    vs == [] || (0 <= env(vs[0]) < USIZE && Bound(vs[1..], env))
  }

  lemma {:induction false} BoundIff(vs: seq<Var>, env: Env)
    ensures Bound(vs, env) <==> forall v | v in vs :: 0 <= env(v) < USIZE
  {
    if vs != [] {
      BoundIff(vs[1..], env);
      assert forall w :: w in vs <==> w == vs[0] || w in vs[1..];
    }
  }

  lemma {:induction false} BothHold(a: SExp, b: SExp, m: Model)
    ensures AllHold([a, b], m) <==> Holds(a, Linear(), m) && Holds(b, Linear(), m)
  {
    assert [a, b][0] == a && [a, b][1] == b;
  }

  lemma {:induction false} DeclsBound(vs: seq<Var>, m: Model, env: Env, vars: set<Var>)
    requires Agrees(m, env, vars) && AsSet(vs) <= vars
    ensures AllHold(Decls(vs), m) <==> Bound(vs, env)
  {
    if vs != [] {
      var v := vs[0];
      HoldsDeclare(AtomSymbol(v), m);
      assert v in AsSet(vs);
      HoldsRange(v, m, env, vars);
      assert AsSet(vs[1..]) <= AsSet(vs);
      DeclsBound(vs[1..], m, env, vars);
      BothHold(Declare(AtomSymbol(v)), RangeCmd(v), m);
      AllHoldConcat([Declare(AtomSymbol(v)), RangeCmd(v)], Decls(vs[1..]), m);
    }
  }

  lemma {:induction false} DeclsAreInts(vs: seq<Var>, m: Model, v: Var)
    requires AllHold(Decls(vs), m) && v in vs
    ensures m(AtomSymbol(v)).IntV?
  {
    var two := [Declare(AtomSymbol(vs[0])), RangeCmd(vs[0])];
    AllHoldConcat(two, Decls(vs[1..]), m);
    assert two[0] == Declare(AtomSymbol(vs[0]));
    HoldsDeclare(AtomSymbol(vs[0]), m);
    if v != vs[0] {
      DeclsAreInts(vs[1..], m, v);
    }
  }

  lemma {:induction false} FactsCmdsHold(q: Question, m: Model, env: Env, vars: set<Var>)
    requires Agrees(m, env, vars) && AllUsed(q, vars)
    ensures AllHold(EqCmds(q.eqs), m) <==> EqsHold(q.eqs, env)
    ensures AllHold(GeCmds(q.facts.ge), m) && AllHold(MinCmds(q.facts.mins), m) <==> FactsHold(q.facts, env)
  {
    forall i | 0 <= i < |q.eqs|
      ensures Holds(EqCmds(q.eqs)[i], Linear(), m) <==> env(q.eqs[i].0) == Val(q.eqs[i].1, env)
    {
      HoldsEq(q.eqs[i], m, env, vars);
    }
    forall i | 0 <= i < |q.facts.ge|
      ensures Holds(GeCmds(q.facts.ge)[i], Linear(), m) <==> Val(q.facts.ge[i], env) >= 0
    {
      HoldsGe(q.facts.ge[i], m, env, vars);
    }
    forall i | 0 <= i < |q.facts.mins|
      ensures Holds(MinCmds(q.facts.mins)[i], Linear(), m) <==> MinHolds(q.facts.mins[i], env)
    {
      HoldsMin(q.facts.mins[i], m, env, vars);
    }
  }

  lemma {:induction false} PathHold(q: Question, m: Model, env: Env)
    requires Agrees(m, env, AsSet(Declared(q)))
    ensures AllHold(PathCmds(q), m)
       <==> (forall v | v in Declared(q) :: 0 <= env(v) < USIZE) && EqsHold(q.eqs, env) && FactsHold(q.facts, env)
  {
    var vars := AsSet(Declared(q));
    DeclaredUsed(q);
    var ge, mins := GeCmds(q.facts.ge), MinCmds(q.facts.mins);
    AllHoldConcat(Decls(Declared(q)), EqCmds(q.eqs) + (ge + mins), m);
    AllHoldConcat(EqCmds(q.eqs), ge + mins, m);
    AllHoldConcat(ge, mins, m);
    DeclsHold(Declared(q), m, env, vars);
    FactsCmdsHold(q, m, env, vars);
  }

  lemma {:induction false} AllHoldThree(a: SExp, b: SExp, c: SExp, m: Model)
    ensures AllHold([a, b, c], m) <==> Holds(a, Linear(), m) && Holds(b, Linear(), m) && Holds(c, Linear(), m)
  {
    var cs := [a, b, c];
    assert cs[0] == a && cs[1] == b && cs[2] == c;
  }

  lemma {:induction false} GoalHold(q: Question, m: Model, env: Env, k: int)
    requires Agrees(m, env, AsSet(Declared(q))) && Point(m, k)
    ensures AllHold(GoalCmds(q), m) <==> Val(q.a, env) <= k < Val(q.b, env) && !Covers(q.ivs, k, env)
  {
    var vars := AsSet(Declared(q));
    DeclaredUsed(q);
    HoldsDeclare(Plains("k"), m);
    HoldsGoal(q.a, q.b, m, env, vars, k);
    HoldsOutside(q.ivs, m, env, vars, k);
    AllHoldThree(Declare(Plains("k")), GoalCmd(q.a, q.b), OutsideCmd(q.ivs), m);
  }

  // ----- Exactness -----

  ghost predicate CoveredAlways(q: Question) {
    CoveredOnPaths(q.eqs, q.facts, q.ivs, q.a, q.b)
  }

  /** The values a model gives to the declared atoms. */
  function EnvOf(m: Model, vars: set<Var>): Env {
    v => if v in vars && m(AtomSymbol(v)).IntV? then m(AtomSymbol(v)).i else 0
  }

  /** A covered goal has no counterexample. */
  lemma {:induction false} CoveredIsUnsat(q: Question, m: Model)
    requires CoveredAlways(q)
    ensures !AllHold(Demands(q), m)
  {
    if AllHold(Demands(q), m) {
      var vars := AsSet(Declared(q));
      AllHoldConcat(PathCmds(q), GoalCmds(q), m);
      AllHoldConcat(Decls(Declared(q)), EqCmds(q.eqs) + (GeCmds(q.facts.ge) + MinCmds(q.facts.mins)), m);
      var env := EnvOf(m, vars);
      forall v | v in vars
        ensures m(AtomSymbol(v)) == IntV(env(v))
      {
        DeclsAreInts(Declared(q), m, v);
      }
      assert GoalCmds(q)[0] == Declare(Plains("k"));
      HoldsDeclare(Plains("k"), m);
      PathHold(q, m, env);
      assert Path(q.eqs, q.facts, env);
      assert CoversRange(q.ivs, Val(q.a, env), Val(q.b, env), env);
      GoalHold(q, m, env, m(Plains("k")).i);
    }
  }

  lemma {:induction false} AtomSymbolInjective(v: Var, v': Var)
    requires AtomSymbol(v) == AtomSymbol(v')
    ensures v == v'
  {
    RenderRun(AtomName(v), ' ', []);
    RenderRun(AtomName(v'), ' ', []);
    SmtName.SpellInjective(SmtName.Atom(v), SmtName.Atom(v'));
  }

  /** The model of one path and one point; it needs that no two atoms share a
      name. */
  ghost function ModelOf(env: Env, k: int): Model {
    s => if s == Plains("k") then IntV(k)
         else if HasOwner(s) then IntV(env(Owner(s)))
         else Undefined
  }

  ghost predicate HasOwner(s: Symbol) {
    exists v :: s == AtomSymbol(v)
  }

  ghost function Owner(s: Symbol): (v: Var)
    requires HasOwner(s)
    ensures s == AtomSymbol(v)
  {
    var v :| s == AtomSymbol(v);
    v
  }

  lemma {:induction false} ModelAgrees(env: Env, k: int, vars: set<Var>)
    ensures Agrees(ModelOf(env, k), env, vars) && Point(ModelOf(env, k), k)
  {
    forall v | v in vars
      ensures ModelOf(env, k)(AtomSymbol(v)) == IntV(env(v))
    {
      AtomNotKnown(v);
      assert HasOwner(AtomSymbol(v));
      AtomSymbolInjective(v, Owner(AtomSymbol(v)));
    }
  }

  lemma {:induction false} UnsatIsCovered(q: Question)
    requires forall m: Model :: !AllHold(Demands(q), m)
    ensures CoveredAlways(q)
  {
    forall env: Env | Path(q.eqs, q.facts, env)
      ensures CoversRange(q.ivs, Val(q.a, env), Val(q.b, env), env)
    {
      forall k | Val(q.a, env) <= k < Val(q.b, env)
        ensures Covers(q.ivs, k, env)
      {
        var m := ModelOf(env, k);
        ModelAgrees(env, k, AsSet(Declared(q)));
        PathHold(q, m, env);
        GoalHold(q, m, env, k);
        AllHoldConcat(PathCmds(q), GoalCmds(q), m);
        assert !AllHold(Demands(q), m);
      }
    }
  }

  lemma {:induction false} ScriptInFragment(q: Question)
    ensures forall c | c in Script(q) :: InFragment(c)
  {
    ScriptDemands(q);
    SetLogicIsFree(s => Undefined);
    AllAround(SetLogic(), Demands(q), CheckSat(), InFragment);
  }

  lemma {:induction false} AllAround(a: SExp, cs: seq<SExp>, b: SExp, ok: SExp -> bool)
    requires ok(a) && ok(b) && forall i | 0 <= i < |cs| :: ok(cs[i])
    ensures forall c | c in [a] + (cs + [b]) :: ok(c)
  {
    forall c | c in [a] + (cs + [b])
      ensures ok(c)
    {
      if c != a && c != b {
        assert c in cs;
      }
    }
  }

  lemma {:induction false} CoveredScript(q: Question)
    requires CoveredAlways(q)
    ensures UnsatScript(Script(q), Linear())
  {
    ScriptDemands(q);
    forall m: Model
      ensures !Satisfies(Script(q), Linear(), m)
    {
      SatisfiesScript(q, m);
      CoveredIsUnsat(q, m);
    }
  }

  lemma {:induction false} UnsatDemands(q: Question)
    requires UnsatScript(Script(q), Linear())
    ensures forall m: Model :: !AllHold(Demands(q), m)
  {
    ScriptInFragment(q);
    ScriptDemands(q);
    forall m: Model
      ensures !AllHold(Demands(q), m)
    {
      SatisfiesScript(q, m);
    }
  }

  /** The script is unsatisfiable exactly when the goal is covered. */
  lemma {:induction false} ScriptExact(q: Question)
    ensures UnsatScript(Script(q), Linear()) <==> CoveredAlways(q)
  {
    if CoveredAlways(q) {
      CoveredScript(q);
    }
    if UnsatScript(Script(q), Linear()) {
      UnsatDemands(q);
      UnsatIsCovered(q);
    }
  }
}
