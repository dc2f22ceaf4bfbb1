/** The text of an initialization obligation means its question, so a file the
    judge passes proves coverage on every path, and what the checker concludes
    is never refuted (lib/init_pred.ml and
    scripts/buildcheck_range_obligations.py together). */
module InitJudge {
  import opened Options
  import opened PyText
  import opened SeqLaws
  import opened SmtText
  import opened SmtLogic
  import opened SmtPrint
  import opened LinearTheory
  import opened InitPred
  import opened InitCover
  import opened InitObligation
  import opened InitScript
  import RangeJudge
  import JudgeLoop
  import SmtName

  // ----- What is written reads as itself -----

  lemma {:induction false} NameWords(v: Var, beyond: char -> bool)
    ensures var w := AtomName(v); |w| >= 2 && forall i | 0 <= i < |w| :: AsciiWord(w[i]) && WordChar(w[i], beyond)
  {
    SmtName.EscWord(v);
  }

  lemma {:induction false} AtomProper(v: Var, beyond: char -> bool)
    ensures ProperExp(AtomExp(v), beyond)
  {
    NameWords(v, beyond);
    LexRunAlone(AtomName(v), beyond);
    var s := AtomSymbol(v);
    assert s != [] && forall i | 0 <= i < |s| :: InSymbol(s[i]);
  }

  lemma {:induction false} TermsProper(m: Terms, beyond: char -> bool)
    ensures ProperAll(TermExps(m), beyond)
  {
    if m != [] {
      TermsProper(m[1..], beyond);
      AtomProper(m[0].0, beyond);
      IntProper(m[0].1, beyond);
      AppProper(Times, [Int(m[0].1), AtomExp(m[0].0)], beyond);
    }
  }

  lemma {:induction false} LinProper(x: Lin, beyond: char -> bool)
    ensures ProperExp(LinExp(x), beyond)
  {
    var ts := TermExps(x.m);
    TermsProper(x.m, beyond);
    IntProper(x.c, beyond);
    AppProper(Plus, ts, beyond);
    AppProper(Plus, ts + [Int(x.c)], beyond);
    assert ts != [] ==> ts[0] in ts;
  }

  lemma {:induction false} BetweenProper(a: SExp, e: SExp, b: SExp, beyond: char -> bool)
    requires ProperExp(a, beyond) && ProperExp(e, beyond) && ProperExp(b, beyond)
    ensures ProperExp(Between(a, e, b), beyond)
  {
    AppProper(Le, [a, e], beyond);
    AppProper(Lt, [e, b], beyond);
    AppProper(LinearTheory.And, [App(Le, [a, e]), App(Lt, [e, b])], beyond);
  }

  lemma {:induction false} AssertProper(e: SExp, beyond: char -> bool)
    requires ProperExp(e, beyond)
    ensures ProperExp(Assert(e), beyond)
  {
    PlainWordProper("assert", beyond);
  }

  lemma {:induction false} DeclareWord()
    ensures PlainWord("declare-const")
  {
    var w := "declare-const";
    assert forall i | 0 <= i < |w| :: ('a' <= w[i] <= 'w') || w[i] == '-';
  }

  lemma {:induction false} IntWord()
    ensures PlainWord("Int")
  {
  }

  lemma {:induction false} DeclareProper(s: Symbol, beyond: char -> bool)
    requires Proper(s, beyond)
    ensures ProperExp(Declare(s), beyond)
  {
    DeclareWord();
    PlainWordProper("declare-const", beyond);
    IntWord();
    PlainWordProper("Int", beyond);
  }

  lemma {:induction false} KProper(beyond: char -> bool)
    ensures Proper(Plains("k"), beyond) && ProperExp(KExp(), beyond)
  {
    PlainWordProper("k", beyond);
  }

  lemma {:induction false} ProperConcat(a: seq<SExp>, b: seq<SExp>, beyond: char -> bool)
    requires ProperAll(a, beyond) && ProperAll(b, beyond)
    ensures ProperAll(a + b, beyond)
  {
  }

  lemma {:induction false} RangeProper(v: Var, beyond: char -> bool)
    ensures ProperExp(RangeCmd(v), beyond)
  {
    AtomProper(v, beyond);
    IntProper(0, beyond);
    IntProper(USIZE, beyond);
    BetweenProper(Int(0), AtomExp(v), Int(USIZE), beyond);
    AssertProper(Between(Int(0), AtomExp(v), Int(USIZE)), beyond);
  }

  lemma {:induction false} DeclProper(v: Var, beyond: char -> bool)
    ensures ProperAll([Declare(AtomSymbol(v)), RangeCmd(v)], beyond)
  {
    AtomProper(v, beyond);
    DeclareProper(AtomSymbol(v), beyond);
    RangeProper(v, beyond);
  }

  lemma {:induction false} DeclsProper(vs: seq<Var>, beyond: char -> bool)
    ensures ProperAll(Decls(vs), beyond)
  {
    if vs != [] {
      DeclsProper(vs[1..], beyond);
      DeclProper(vs[0], beyond);
      ProperConcat([Declare(AtomSymbol(vs[0])), RangeCmd(vs[0])], Decls(vs[1..]), beyond);
    }
  }

  lemma {:induction false} EqProper(q: (Var, Lin), beyond: char -> bool)
    ensures ProperExp(EqCmd(q), beyond)
  {
    AtomProper(q.0, beyond);
    LinProper(q.1, beyond);
    AppProper(Eq, [AtomExp(q.0), LinExp(q.1)], beyond);
    AssertProper(App(Eq, [AtomExp(q.0), LinExp(q.1)]), beyond);
  }

  lemma {:induction false} GeProper(t: Lin, beyond: char -> bool)
    ensures ProperExp(GeCmd(t), beyond)
  {
    LinProper(t, beyond);
    IntProper(0, beyond);
    AppProper(LinearTheory.Ge, [LinExp(t), Int(0)], beyond);
    AssertProper(App(LinearTheory.Ge, [LinExp(t), Int(0)]), beyond);
  }

  lemma {:induction false} MinProper(d: Min, beyond: char -> bool)
    ensures ProperExp(MinCmd(d), beyond)
  {
    AtomProper(d.x, beyond);
    LinProper(d.a, beyond);
    LinProper(d.b, beyond);
    var c := App(Le, [LinExp(d.a), LinExp(d.b)]);
    AppProper(Le, [LinExp(d.a), LinExp(d.b)], beyond);
    AppProper(Ite, [c, LinExp(d.a), LinExp(d.b)], beyond);
    AppProper(Eq, [AtomExp(d.x), MinExp(d)], beyond);
    AssertProper(App(Eq, [AtomExp(d.x), MinExp(d)]), beyond);
  }

  lemma {:induction false} PathProper(q: Question, beyond: char -> bool)
    ensures ProperAll(PathCmds(q), beyond)
  {
    forall i | 0 <= i < |q.eqs| ensures ProperExp(EqCmds(q.eqs)[i], beyond) { EqProper(q.eqs[i], beyond); }
    forall i | 0 <= i < |q.facts.ge| ensures ProperExp(GeCmds(q.facts.ge)[i], beyond) { GeProper(q.facts.ge[i], beyond); }
    forall i | 0 <= i < |q.facts.mins| ensures ProperExp(MinCmds(q.facts.mins)[i], beyond) { MinProper(q.facts.mins[i], beyond); }
    var ge, mins := GeCmds(q.facts.ge), MinCmds(q.facts.mins);
    ProperConcat(ge, mins, beyond);
    ProperConcat(EqCmds(q.eqs), ge + mins, beyond);
    DeclsProper(Declared(q), beyond);
    ProperConcat(Decls(Declared(q)), EqCmds(q.eqs) + (ge + mins), beyond);
  }

  lemma {:induction false} InsidesProper(ivs: seq<Interval>, beyond: char -> bool)
    ensures ProperAll(InsideExps(ivs), beyond)
  {
    if ivs != [] {
      InsidesProper(ivs[1..], beyond);
      InsideProper(ivs[0], beyond);
    }
  }

  lemma {:induction false} InsideProper(iv: Interval, beyond: char -> bool)
    ensures ProperExp(InsideExp(iv), beyond)
  {
    LinProper(iv.0, beyond);
    LinProper(iv.1, beyond);
    KProper(beyond);
    BetweenProper(LinExp(iv.0), KExp(), LinExp(iv.1), beyond);
  }

  lemma {:induction false} OutsideProper(ivs: seq<Interval>, beyond: char -> bool)
    ensures ProperExp(OutsideCmd(ivs), beyond)
  {
    InsidesProper(ivs, beyond);
    PlainWordProper("false", beyond);
    ProperConcat([FalseExp()], InsideExps(ivs), beyond);
    var or := App(LinearTheory.Or, [FalseExp()] + InsideExps(ivs));
    AppProper(LinearTheory.Or, [FalseExp()] + InsideExps(ivs), beyond);
    AppProper(LinearTheory.Not, [or], beyond);
    AssertProper(App(LinearTheory.Not, [or]), beyond);
  }

  lemma {:induction false} GoalProper(q: Question, beyond: char -> bool)
    ensures ProperAll(GoalCmds(q), beyond)
  {
    KProper(beyond);
    DeclareProper(Plains("k"), beyond);
    InsideProper((q.a, q.b), beyond);
    AssertProper(InsideExp((q.a, q.b)), beyond);
    OutsideProper(q.ivs, beyond);
  }

  lemma {:induction false} SetLogicProper(beyond: char -> bool)
    ensures ProperExp(SetLogic(), beyond)
  {
    SetLogicWord(beyond);
    PlainWordProper("QF_LIA", beyond);
  }

  lemma {:induction false} SetLogicWord(beyond: char -> bool)
    ensures ProperExp(Keyword("set-logic"), beyond)
  {
    PlainWordProper("set-logic", beyond);
  }

  lemma {:induction false} CheckSatProper(beyond: char -> bool)
    ensures ProperExp(CheckSat(), beyond)
  {
    PlainWordProper("check-sat", beyond);
  }

  lemma {:induction false} ScriptProper(q: Question, beyond: char -> bool)
    ensures ProperAll(Script(q), beyond)
  {
    SetLogicProper(beyond);
    CheckSatProper(beyond);
    PathProper(q, beyond);
    GoalProper(q, beyond);
    ProperConcat(PathCmds(q), GoalCmds(q), beyond);
    ProperConcat(Demands(q), [CheckSat()], beyond);
    ProperConcat([SetLogic()], Demands(q) + [CheckSat()], beyond);
  }

  // ----- The text -----

  const RULE := "; rule: init"
  const CLAIM := "; claim: "

  /** `obligation ~claim` */
  function Text(q: Question, claim: string): string {
    RangeJudge.INIT_HEADER + "\n" + (RULE + "\n" + (CLAIM + claim + "\n" + Render(Lines(Script(q)))))
  }

  lemma {:induction false} SkipComment(h: string, rest: string, beyond: char -> bool)
    requires OneLine(h) && IsComment(h)
    ensures Scan(Lex(h + "\n" + rest, beyond), [], false) == Scan(Lex(rest, beyond), [], false)
  {
    LexLine(h, rest, beyond);
    ScanLine(Lex(h, beyond), Lex(rest, beyond), [], false);
    ScanEnd(Lex(h, beyond), [], false);
    ScanCommentLine(h, beyond);
    Empty(Scan(Lex(rest, beyond), [], false));
  }

  lemma {:induction false} SkipThree(h1: string, h2: string, h3: string, rest: string, beyond: char -> bool)
    requires OneLine(h1) && IsComment(h1) && OneLine(h2) && IsComment(h2) && OneLine(h3) && IsComment(h3)
    ensures Scan(Lex(h1 + "\n" + (h2 + "\n" + (h3 + "\n" + rest)), beyond), [], false) == Scan(Lex(rest, beyond), [], false)
  {
    SkipComment(h1, h2 + "\n" + (h3 + "\n" + rest), beyond);
    SkipComment(h2, h3 + "\n" + rest, beyond);
    SkipComment(h3, rest, beyond);
  }

  lemma {:induction false} HeaderComments(claim: string)
    requires NoBreak(claim)
    ensures OneLine(RangeJudge.INIT_HEADER) && IsComment(RangeJudge.INIT_HEADER)
    ensures OneLine(RULE) && IsComment(RULE)
    ensures OneLine(CLAIM + claim) && IsComment(CLAIM + claim)
  {
  }

  lemma {:induction false} TextReads(q: Question, claim: string, beyond: char -> bool)
    requires NoBreak(claim)
    ensures Read(Lex(Text(q, claim), beyond)) == Some(Script(q))
  {
    HeaderComments(claim);
    SkipThree(RangeJudge.INIT_HEADER, RULE, CLAIM + claim, Render(Lines(Script(q))), beyond);
    ScriptProper(q, beyond);
    ReadLines(Script(q), beyond);
  }

  /** The obligation is unsatisfiable exactly when every index of the goal is
      in a known interval, on every path. */
  lemma {:induction false} ObligationExact(q: Question, claim: string, beyond: char -> bool)
    requires NoBreak(claim)
    ensures Unsat(Text(q, claim), Linear(), beyond) <==> CoveredAlways(q)
  {
    TextReads(q, claim, beyond);
    ScriptExact(q);
  }

  /** What the compiler's own decision accepts, a right solver never refutes. */
  lemma {:induction false} CheckerAgrees(q: Question, claim: string, beyond: char -> bool)
    requires NoBreak(claim) && Uncovered(q.eqs, q.facts, q.ivs, q.a, q.b) == None
    ensures Unsat(Text(q, claim), Linear(), beyond)
  {
    UncoveredSound(q.eqs, q.facts, q.ivs, q.a, q.b);
    ObligationExact(q, claim, beyond);
  }

  /** A file that holds the obligation, site lines added, in a directory all of
      whose files are refuted: its goal is covered on every path. */
  lemma {:induction false} JudgedIsCovered(files: seq<JudgeLoop.File>, i: nat, q: Question, claim: string, beyond: char -> bool)
    requires i < |files| && RangeJudge.PlainFiles(files) && RangeJudge.AllUnsat(files, Linear(), beyond)
    requires NoBreak(claim) && RangeJudge.Body(files[i].text) == Text(q, claim)
    ensures CoveredAlways(q)
  {
    RangeJudge.UnsatBody(files[i].text, Linear(), beyond);
    ObligationExact(q, claim, beyond);
  }

  /** Any history of runs over one cache, with a solver right about linear
      arithmetic: in a run that reports nothing, every file that holds an
      obligation has its goal covered on every path. */
  method JudgeCoverage(runs: seq<RangeJudge.Run>, md5: string -> string, beyond: char -> bool, caching: bool)
    returns (reports: seq<seq<JudgeLoop.Failure>>)
    requires RangeJudge.Injective(md5)
    requires forall r | r in runs :: RangeJudge.SoundSolver(r.solver, Linear(), beyond) && RangeJudge.PlainFiles(r.files)
    ensures |reports| == |runs|
    ensures forall n, i, q, claim | 0 <= n < |runs| && reports[n] == [] && HoldsObligation(runs[n].files, i, q, claim) :: CoveredAlways(q)
  {
    LinearNoCapture();
    ghost var caches, traces;
    reports, caches, traces := RangeJudge.JudgeHistory(runs, md5, beyond, caching, Linear());
    forall n, i, q, claim | 0 <= n < |runs| && reports[n] == [] && HoldsObligation(runs[n].files, i, q, claim)
      ensures CoveredAlways(q)
    {
      JudgedIsCovered(runs[n].files, i, q, claim, beyond);
    }
  }

  /** File i is the obligation of q, site lines added. */
  ghost predicate HoldsObligation(files: seq<JudgeLoop.File>, i: int, q: Question, claim: string) {
    0 <= i < |files| && NoBreak(claim) && RangeJudge.Body(files[i].text) == Text(q, claim)
  }

  // ----- The files that hold an obligation -----

  /** The lines of an obligation. */
  function TextLines(q: Question, claim: string): seq<Line> {
    [Line("; takibi-init-obligation v1", "\n"), Line("; rule: init", "\n"), Line("; claim: " + claim, "\n")] + CommandLines(Script(q))
  }

  lemma {:induction false} ThreeLines(a: Line, b: Line, c: Line, ls: seq<Line>)
    ensures WriteLines([a, b, c] + ls) == WriteLine(a) + (WriteLine(b) + (WriteLine(c) + WriteLines(ls)))
  {
    assert [a, b, c] + ls == [a] + ([b] + ([c] + ls));
    WriteFirst(a, [b] + ([c] + ls));
    WriteFirst(b, [c] + ls);
    WriteFirst(c, ls);
  }

  lemma {:induction false} TextWritten(q: Question, claim: string)
    ensures WriteLines(TextLines(q, claim)) == Text(q, claim)
  {
    ThreeLines(Line(RangeJudge.INIT_HEADER, "\n"), Line(RULE, "\n"), Line(CLAIM + claim, "\n"), CommandLines(Script(q)));
    LinesWritten(Script(q));
  }

  /** A command is no site line. */
  lemma {:induction false} CommandLinesAt(cs: seq<SExp>, i: nat)
    requires i < |cs|
    ensures |CommandLines(cs)| == |cs| && CommandLines(cs)[i] == Line(Render(Tokens(cs[i])), "\n")
  {
    if |cs| > 1 {
      CommandLinesAt(cs[1..], if i == 0 then 0 else i - 1);
    }
  }

  /** A file of the obligation's own lines, in order, with site lines anywhere among them. */
  ghost predicate IsFileOf(es: seq<RangeJudge.Entry>, q: Question, claim: string) {
    RangeJudge.AreEntries(es) && RangeJudge.OwnLines(es) == TextLines(q, claim)
  }

  /** The obligation's lines can be in a file: none of them is a site line. */
  lemma {:induction false} OwnEntries(q: Question, claim: string, beyond: char -> bool) returns (es: seq<RangeJudge.Entry>)
    requires NoBreak(claim)
    ensures IsFileOf(es, q, claim)
  {
    var ls := TextLines(q, claim);
    forall i | 0 <= i < |ls|
      ensures RangeJudge.IsEntry(RangeJudge.Own(ls[i]))
    {
      OwnEntry(q, claim, i, beyond);
    }
    es := AllOwn(ls);
  }

  lemma {:induction false} AllOwn(ls: seq<Line>) returns (es: seq<RangeJudge.Entry>)
    requires forall i | 0 <= i < |ls| :: RangeJudge.IsEntry(RangeJudge.Own(ls[i]))
    ensures RangeJudge.AreEntries(es) && RangeJudge.OwnLines(es) == ls
  {
    if ls == [] {
      es := [];
    } else {
      var rest := AllOwn(ls[1..]);
      es := [RangeJudge.Own(ls[0])] + rest;
      assert es[1..] == rest;
    }
  }

  lemma {:induction false} OwnEntry(q: Question, claim: string, i: nat, beyond: char -> bool)
    requires NoBreak(claim) && i < |TextLines(q, claim)|
    ensures RangeJudge.IsEntry(RangeJudge.Own(TextLines(q, claim)[i]))
  {
    var l := TextLines(q, claim)[i];
    if i < 3 {
      HeaderEntry(claim, i, l);
    } else {
      var cs := Script(q);
      CommandLinesAt(cs, if i - 3 < |cs| then i - 3 else 0);
      CommandEntry(cs, i - 3, beyond, q);
    }
  }

  lemma {:induction false} HeaderEntry(claim: string, i: nat, l: Line)
    requires NoBreak(claim) && i < 3
    requires l == [Line("; takibi-init-obligation v1", "\n"), Line("; rule: init", "\n"), Line("; claim: " + claim, "\n")][i]
    ensures RangeJudge.IsEntry(RangeJudge.Own(l))
  {
    match i
    case 0 => FirstHeader();
    case 1 => RuleHeader();
    case _ => ClaimHeader(claim);
  }

  lemma {:induction false} FirstHeader()
    ensures RangeJudge.IsEntry(RangeJudge.Own(Line("; takibi-init-obligation v1", "\n")))
  {
    HeaderLine("; takibi-init-obligation v1");
  }

  lemma {:induction false} RuleHeader()
    ensures RangeJudge.IsEntry(RangeJudge.Own(Line("; rule: init", "\n")))
  {
    HeaderLine("; rule: init");
  }

  lemma {:induction false} ClaimHeader(claim: string)
    requires NoBreak(claim)
    ensures RangeJudge.IsEntry(RangeJudge.Own(Line("; claim: " + claim, "\n")))
  {
    var h := "; claim: ";
    assert NoBreak(h) && h[2] != 's';
    NoBreakConcat(h, claim);
    assert (h + claim)[2] == h[2];
    HeaderLine(h + claim);
  }

  lemma {:induction false} HeaderLine(w: string)
    requires NoBreak(w) && |w| > 2 && w[2] != 's'
    ensures RangeJudge.IsEntry(RangeJudge.Own(Line(w, "\n")))
  {
    var l := w + "\n";
    assert l[2] == w[2];
    NotSite(l, 2);
  }

  lemma {:induction false} NotSite(l: string, i: nat)
    requires i < |l| && i < 8 && l[i] != "; site: "[i]
    ensures !StartsWith(l, "; site: ")
  {
  }

  lemma {:induction false} CommandEntry(cs: seq<SExp>, i: nat, beyond: char -> bool, q: Question)
    requires cs == Script(q) && i < |cs|
    ensures RangeJudge.IsEntry(RangeJudge.Own(Line(Render(Tokens(cs[i])), "\n")))
  {
    ScriptProper(q, beyond);
    assert cs[i] in cs;
    TokensNoBreak(cs[i], beyond);
    ScriptInFragment(q);
    assert cs[i].Node?;
    RenderAround(Inner(cs[i].items));
    var w := Render(Tokens(cs[i])) + "\n";
    assert w[0] == '(';
    NotSite(w, 0);
  }

  /** A file with those lines holds the obligation. */
  lemma {:induction false} FileHolds(files: seq<JudgeLoop.File>, i: nat, es: seq<RangeJudge.Entry>, q: Question, claim: string)
    requires i < |files| && NoBreak(claim) && IsFileOf(es, q, claim) && files[i].text == RangeJudge.WriteEntries(es)
    ensures HoldsObligation(files, i, q, claim)
  {
    RangeJudge.SplitEntries(es);
    TextWritten(q, claim);
  }

  /** If its first line is the header and its name the digest of the
      obligation, the judge accepts it, as an initialization obligation. */
  lemma {:induction false} FileAccepted(f: JudgeLoop.File, es: seq<RangeJudge.Entry>, q: Question, claim: string,
                                        md5: string -> string, beyond: char -> bool)
    requires NoBreak(claim) && IsFileOf(es, q, claim) && es[0].Own?
    requires f == JudgeLoop.File(md5(Text(q, claim)), RangeJudge.WriteEntries(es))
    ensures JudgeLoop.Accepted(f, RangeJudge.Standard(md5, beyond))
    ensures RangeJudge.Standard(md5, beyond).init(RangeJudge.Body(f.text))
  {
    RangeJudge.SplitEntries(es);
    TextWritten(q, claim);
    HeaderFirst(es, q, claim);
  }

  lemma {:induction false} HeaderFirst(es: seq<RangeJudge.Entry>, q: Question, claim: string)
    requires IsFileOf(es, q, claim) && es != [] && es[0].Own?
    ensures StartsWith(RangeJudge.WriteEntries(es), RangeJudge.INIT_HEADER) && StartsWith(Text(q, claim), RangeJudge.INIT_HEADER)
  {
    assert es[0].line == TextLines(q, claim)[0];
    HeaderOfLine(es[0].line, RangeJudge.INIT_HEADER, RangeJudge.WriteEntries(es[1..]));
    var rest := RULE + "\n" + (CLAIM + claim + "\n" + Render(Lines(Script(q))));
    HeaderOfLine(es[0].line, RangeJudge.INIT_HEADER, rest);
  }

  lemma {:induction false} HeaderOfLine(l: Line, h: string, rest: string)
    requires l.text == h
    ensures StartsWith(WriteLine(l) + rest, h) && StartsWith(h + "\n" + rest, h)
  {
    assert (WriteLine(l) + rest)[..|h|] == h && (h + "\n" + rest)[..|h|] == h;
  }
}
