/** The judge of range and initialization obligations
    (scripts/buildcheck_range_obligations.py): JudgeLoop with the obligation's
    own identity, `split`, and the key of its canonical form. Whatever runs
    came before, a run with no report proves every obligation it was given. */
module RangeJudge {
  import opened PyText
  import opened SmtText
  import opened SmtLogic
  import opened SolverBatch
  import opened JudgeLoop

  const HEADER := "; takibi-range-obligation v2"
  const INIT_HEADER := "; takibi-init-obligation v1"
  const SITE := "; site: "

  // ----- split -----

  function BodyOf(lines: seq<string>): string {
    if lines == [] then ""
    else (if StartsWith(lines[0], SITE) then "" else lines[0]) + BodyOf(lines[1..])
  }

  /** The text whose digest is the obligation's identity. */
  function Body(text: string): string {
    BodyOf(KeepLines(text))
  }

  lemma {:induction false} BodyOfLast(lines: seq<string>, l: string)
    ensures BodyOf(lines + [l]) == BodyOf(lines) + (if StartsWith(l, SITE) then "" else l)
  {
    if lines != [] {
      assert (lines + [l])[1..] == lines[1..] + [l];
      BodyOfLast(lines[1..], l);
    }
  }

  /** What the site lines say. */
  function SitesOf(lines: seq<string>): seq<string> {
    if lines == [] then []
    else (if StartsWith(lines[0], SITE) then [Strip(lines[0][|SITE|..])] else []) + SitesOf(lines[1..])
  }

  lemma {:induction false} SitesOfLast(lines: seq<string>, l: string)
    ensures SitesOf(lines + [l]) == SitesOf(lines) + (if StartsWith(l, SITE) then [Strip(l[|SITE|..])] else [])
  {
    if lines != [] {
      assert (lines + [l])[1..] == lines[1..] + [l];
      SitesOfLast(lines[1..], l);
    }
  }

  /** A line of an obligation file: one of the obligation's own, or a site line. */
  datatype Entry = Own(line: Line) | Site(what: string, end: string)

  function LineOf(e: Entry): Line {
    match e
    case Own(l) => l
    case Site(what, end) => Line("; site: " + what, end)
  }

  predicate IsEntry(e: Entry) {
    EndsOnce(LineOf(e)) && (e.Own? ==> !StartsWith(e.line.text + e.line.end, "; site: "))
  }

  predicate AreEntries(es: seq<Entry>) {
    forall i | 0 <= i < |es| :: IsEntry(es[i])
  }

  function WriteEntries(es: seq<Entry>): string {
    if es == [] then "" else WriteLine(LineOf(es[0])) + WriteEntries(es[1..])
  }

  /** The obligation's own lines. */
  function OwnLines(es: seq<Entry>): seq<Line> {
    if es == [] then [] else if es[0].Own? then [es[0].line] + OwnLines(es[1..]) else OwnLines(es[1..])
  }

  /** What the site lines say. */
  function SiteTexts(es: seq<Entry>): seq<string> {
    if es == [] then [] else if es[0].Site? then [Strip(es[0].what)] + SiteTexts(es[1..]) else SiteTexts(es[1..])
  }

  lemma {:induction false} SiteText(what: string, end: string)
    requires EndsOnce(Line("; site: " + what, end))
    ensures var l := "; site: " + what + end; StartsWith(l, SITE) && Strip(l[|SITE|..]) == Strip(what)
  {
    var l := "; site: " + what + end;
    assert l[|SITE|..] == what + end;
    StripAfter(what, end);
  }

  lemma {:induction false} SplitFirst(l: string, rest: string, site: bool)
    requires KeepLines(l + rest) == [l] + KeepLines(rest) && StartsWith(l, SITE) == site
    ensures Body(l + rest) == if site then Body(rest) else l + Body(rest)
    ensures SitesOf(KeepLines(l + rest)) == (if site then [Strip(l[|SITE|..])] else []) + SitesOf(KeepLines(rest))
  {
    assert KeepLines(l + rest)[0] == l && KeepLines(l + rest)[1..] == KeepLines(rest);
    assert "" + Body(rest) == Body(rest);
  }

  lemma {:induction false} OwnStep(e: Entry, rest: string)
    requires IsEntry(e) && e.Own?
    ensures var l := WriteLine(LineOf(e));
            Body(l + rest) == WriteLine(e.line) + Body(rest) && SitesOf(KeepLines(l + rest)) == SitesOf(KeepLines(rest))
  {
    KeepFirst(LineOf(e), rest);
    SplitFirst(WriteLine(LineOf(e)), rest, false);
  }

  lemma {:induction false} SiteStep(e: Entry, rest: string)
    requires IsEntry(e) && e.Site?
    ensures var l := WriteLine(LineOf(e));
            Body(l + rest) == Body(rest) && SitesOf(KeepLines(l + rest)) == [Strip(e.what)] + SitesOf(KeepLines(rest))
  {
    KeepFirst(LineOf(e), rest);
    SiteText(e.what, e.end);
    SplitFirst(WriteLine(LineOf(e)), rest, true);
  }

  /** Whatever lines a file has and wherever site lines stand among them, the
      body is the other lines and the sites are what the site lines say. */
  lemma {:induction false} SplitEntries(es: seq<Entry>)
    requires AreEntries(es)
    ensures Body(WriteEntries(es)) == WriteLines(OwnLines(es))
    ensures SitesOf(KeepLines(WriteEntries(es))) == SiteTexts(es)
  {
    if es != [] {
      var rest := WriteEntries(es[1..]);
      SplitEntries(es[1..]);
      assert IsEntry(es[0]);
      if es[0].Own? {
        OwnStep(es[0], rest);
        WriteFirst(es[0].line, OwnLines(es[1..]));
      } else {
        SiteStep(es[0], rest);
      }
    }
  }

  method Split(text: string) returns (sites: seq<string>, body: string)
    ensures sites == SitesOf(KeepLines(text)) && body == Body(text)
  {
    sites, body := [], "";
    var lines := KeepLines(text);
    for i := 0 to |lines|
      invariant sites == SitesOf(lines[..i]) && body == BodyOf(lines[..i])
    {
      assert lines[..i + 1] == lines[..i] + [lines[i]];
      BodyOfLast(lines[..i], lines[i]);
      SitesOfLast(lines[..i], lines[i]);
      if StartsWith(lines[i], SITE) {
        sites := sites + [Strip(lines[i][|SITE|..])];
      } else {
        body := body + lines[i];
      }
    }
    assert lines[..|lines|] == lines;
  }

  /** The body has the code of the whole text. */
  lemma {:induction false} BodyCode(text: string)
    requires PlainBreaks(text)
    ensures PlainBreaks(Body(text)) && Code(Body(text)) == Code(text)
    decreases |text|
  {
    if text != [] {
      var l, rest, last := FirstLine(text);
      if last {
        BodyOfOne(l);
      } else {
        BodyCode(rest);
        BodyOfMore(l, rest);
      }
    }
  }

  lemma {:induction false} SiteIsComment(l: string)
    requires StartsWith(l, SITE)
    ensures |l| > 1 && l[0] == ';' && l[1] == ' '
  {
    assert SITE == l[..|SITE|];
    assert SITE[0] == l[0] && SITE[1] == l[1];
  }

  lemma {:induction false} BodyOfOne(l: string)
    requires NoBreak(l) && l != [] && KeepLines(l) == [l] && SplitLines(l) == [l]
    ensures PlainBreaks(Body(l)) && Code(Body(l)) == Code(l)
  {
    if StartsWith(l, SITE) {
      SiteIsComment(l);
      assert Body(l) == "" + BodyOf([]);
    } else {
      assert Body(l) == l + BodyOf([]);
      assert Body(l) == l;
    }
  }

  lemma {:induction false} BodyOfMore(l: string, rest: string)
    requires NoBreak(l) && PlainBreaks(Body(rest)) && Code(Body(rest)) == Code(rest)
    ensures var text := l + "\n" + rest; PlainBreaks(Body(text)) && Code(Body(text)) == Code(text)
  {
    var text := l + "\n" + rest;
    SplitLinesLine(l, rest);
    CodeOfFirst(l, SplitLines(rest));
    var first := l + "\n";
    assert KeepLines(text)[0] == first && KeepLines(text)[1..] == KeepLines(rest);
    if StartsWith(first, SITE) {
      SiteIsComment(first);
      assert Body(text) == "" + Body(rest);
      assert Body(text) == Body(rest);
    } else {
      assert Body(text) == l + "\n" + Body(rest);
      SplitLinesLine(l, Body(rest));
      CodeOfFirst(l, SplitLines(Body(rest)));
    }
  }

  lemma {:induction false} CodeOfFirst(l: string, lines: seq<string>)
    ensures CodeOf([l] + lines) == (if IsComment(l) then "" else l + "\n") + CodeOf(lines)
  {
    assert ([l] + lines)[1..] == lines;
  }

  /** The solver is given the body; what it refutes is the file. */
  lemma {:induction false} UnsatBody(text: string, th: Theory, beyond: char -> bool)
    requires PlainBreaks(text)
    ensures PlainBreaks(Body(text))
    ensures Unsat(Body(text), th, beyond) <==> Unsat(text, th, beyond)
  {
    BodyCode(text);
    UnsatCode(text, th, beyond);
    UnsatCode(Body(text), th, beyond);
  }

  // ----- The judge -----

  ghost predicate Injective(md5: string -> string) {
    forall a, b | md5(a) == md5(b) :: a == b
  }

  function Key(body: string, md5: string -> string, beyond: char -> bool): string {
    md5("canonical-v1\n" + Canonical(body, beyond))
  }

  lemma {:induction false} SameDigest(md5: string -> string, p: string, a: string, b: string)
    requires Injective(md5) && md5(p + a) == md5(p + b)
    ensures a == b
  {
    assert a == (p + a)[|p|..] && b == (p + b)[|p|..];
  }

  /** One key, one verdict: the digest is one-to-one, and equal canonical texts
      are refuted together. */
  lemma {:induction false} KeyShares(b: string, b': string, md5: string -> string, th: Theory, beyond: char -> bool)
    requires Injective(md5) && NoCapture(th) && PlainBreaks(b) && PlainBreaks(b')
    requires Key(b, md5, beyond) == Key(b', md5, beyond)
    ensures Unsat(b, th, beyond) <==> Unsat(b', th, beyond)
  {
    assert Canonical(b, beyond) == Canonical(b', beyond) by {
      SameDigest(md5, "canonical-v1\n", Canonical(b, beyond), Canonical(b', beyond));
    }
    CanonicalSharesVerdict(b, b', th, beyond);
  }

  function Standard(md5: string -> string, beyond: char -> bool): Rules {
    Rules(
      text => Body(text),
      text => StartsWith(text, HEADER) || StartsWith(text, INIT_HEADER),
      md5,
      body => Key(body, md5, beyond),
      body => StartsWith(body, INIT_HEADER))
  }

  ghost function PlainClaim(): Claim {
    body => PlainBreaks(body)
  }

  ghost function UnsatClaim(th: Theory, beyond: char -> bool): Claim {
    body => Unsat(body, th, beyond)
  }

  lemma {:induction false} KeysShareVerdicts(md5: string -> string, beyond: char -> bool, th: Theory)
    requires Injective(md5) && NoCapture(th)
    ensures Sharing(Standard(md5, beyond).key, PlainClaim(), UnsatClaim(th, beyond))
  {
    var key, plain, claim := Standard(md5, beyond).key, PlainClaim(), UnsatClaim(th, beyond);
    forall b, b' | plain(b) && plain(b') && key(b) == key(b') && claim(b)
      ensures claim(b')
    {
      KeyShares(b, b', md5, th, beyond);
    }
  }

  /** A solver whose processes answer query by query and whose `unsat` is
      right: an answer of that line alone in a batch, the first line of a solo
      run. */
  ghost predicate SoundSolver(solver: Solver, th: Theory, beyond: char -> bool) {
    && (forall n, bodies :: HonestSession(bodies, solver.batch(n, bodies), th, beyond))
    && forall n, body | SoloVerdict(solver.solo(n, body)) == UNSAT :: Unsat(body, th, beyond)
  }

  lemma {:induction false} SoundIsHonest(solver: Solver, th: Theory, beyond: char -> bool)
    requires SoundSolver(solver, th, beyond)
    ensures Honest(solver, UnsatClaim(th, beyond))
  {
    forall n, bodies, i | 0 <= i < |bodies| && Verdicts(solver.batch(n, bodies), |bodies|)[i] == UNSAT
      ensures Unsat(bodies[i], th, beyond)
    {
      VerdictsAt(solver.batch(n, bodies), |bodies|, i);
      UnsatVerdictIsRefutation(bodies, solver.batch(n, bodies), i, th, beyond);
    }
  }

  /** One run of the check: its directory, its solver, its machine. */
  datatype Run = Run(files: seq<File>, solver: Solver, cpus: nat)

  ghost predicate PlainFiles(files: seq<File>) {
    forall i | 0 <= i < |files| :: PlainBreaks(files[i].text)
  }

  ghost predicate AllUnsat(files: seq<File>, th: Theory, beyond: char -> bool) {
    forall i | 0 <= i < |files| :: Unsat(files[i].text, th, beyond)
  }

  lemma {:induction false} PlainBodies(files: seq<File>, judge: Judge, md5: string -> string, beyond: char -> bool)
    requires PlainFiles(files) && judge.rules == Standard(md5, beyond) && judge.plain == PlainClaim()
    ensures AllPlain(files, judge.rules, judge.plain)
  {
    forall i | 0 <= i < |files|
      ensures PlainBreaks(Body(files[i].text))
    {
      BodyCode(files[i].text);
    }
  }

  lemma {:induction false} BodiesToFiles(files: seq<File>, th: Theory, beyond: char -> bool)
    requires PlainFiles(files)
    requires forall i | 0 <= i < |files| :: Unsat(Body(files[i].text), th, beyond)
    ensures AllUnsat(files, th, beyond)
  {
    forall i | 0 <= i < |files|
      ensures Unsat(files[i].text, th, beyond)
    {
      UnsatBody(files[i].text, th, beyond);
    }
  }

  /** One run of a history: what it reported, given what was cached, and what is cached after it. */
  ghost predicate Recorded(r: Run, rules: Rules, caching: bool, before: set<string>, after: set<string>, t: Trace, report: seq<Failure>) {
    if r.files == [] then report == [EmptyDirectory] && after == before
    else
      && IsRun(r.files, if caching then before else {}, JudgementOf(r.solver), rules, t, report)
      && after == before + if caching then Verdicted(t.asked, JudgementOf(r.solver), true) else {}
  }

  /** The runs in order over one cache that starts empty. */
  ghost predicate Chronicle(runs: seq<Run>, n: nat, rules: Rules, caching: bool, caches: seq<set<string>>, traces: seq<Trace>,
                            reports: seq<seq<Failure>>)
  {
    && n <= |runs| && |caches| == n + 1 && |traces| == n && |reports| == n && caches[0] == {}
    && forall i | 0 <= i < n :: Recorded(runs[i], rules, caching, caches[i], caches[i + 1], traces[i], reports[i])
  }

  lemma {:induction false} ChronicleNext(runs: seq<Run>, n: nat, rules: Rules, caching: bool, caches: seq<set<string>>,
                                         traces: seq<Trace>, reports: seq<seq<Failure>>, after: set<string>, t: Trace,
                                         report: seq<Failure>)
    requires Chronicle(runs, n, rules, caching, caches, traces, reports) && n < |runs|
    requires Recorded(runs[n], rules, caching, caches[n], after, t, report)
    ensures Chronicle(runs, n + 1, rules, caching, caches + [after], traces + [t], reports + [report])
  {
  }

  method JudgeOnce(judge: Judge, r: Run, md5: string -> string, beyond: char -> bool, ghost th: Theory)
    returns (report: seq<Failure>, ghost trace: Trace)
    requires judge.Valid() && judge.rules == Standard(md5, beyond)
    requires judge.plain == PlainClaim() && judge.claim == UnsatClaim(th, beyond)
    requires SoundSolver(r.solver, th, beyond) && PlainFiles(r.files)
    modifies judge`cache
    ensures judge.Valid() && Recorded(r, Standard(md5, beyond), judge.caching, old(judge.cache), judge.cache, trace, report)
    ensures report == [] ==> r.files != [] && AllUnsat(r.files, th, beyond)
  {
    SoundIsHonest(r.solver, th, beyond);
    PlainBodies(r.files, judge, md5, beyond);
    report, trace := judge.CheckDir(r.files, r.solver, r.cpus);
    if report == [] {
      BodiesToFiles(r.files, th, beyond);
    }
  }

  /** Any history of runs over one cache, starting empty: each run reports
      exactly what it must, and one that reports nothing had obligations, all
      of them refuted. */
  method JudgeHistory(runs: seq<Run>, md5: string -> string, beyond: char -> bool, caching: bool, ghost th: Theory)
    returns (reports: seq<seq<Failure>>, ghost caches: seq<set<string>>, ghost traces: seq<Trace>)
    requires Injective(md5) && NoCapture(th)
    requires forall r | r in runs :: SoundSolver(r.solver, th, beyond) && PlainFiles(r.files)
    ensures |reports| == |runs|
    ensures Chronicle(runs, |runs|, Standard(md5, beyond), caching, caches, traces, reports)
    ensures forall i | 0 <= i < |runs| && reports[i] == [] :: runs[i].files != [] && AllUnsat(runs[i].files, th, beyond)
  {
    KeysShareVerdicts(md5, beyond, th);
    var judge := new Judge(Standard(md5, beyond), caching, PlainClaim(), UnsatClaim(th, beyond));
    reports, caches, traces := [], [{}], [];
    for i := 0 to |runs|
      invariant fresh(judge) && judge.Valid() && judge.rules == Standard(md5, beyond) && judge.caching == caching
      invariant judge.plain == PlainClaim() && judge.claim == UnsatClaim(th, beyond)
      invariant Chronicle(runs, i, Standard(md5, beyond), caching, caches, traces, reports) && caches[i] == judge.cache
      invariant forall j | 0 <= j < i && reports[j] == [] :: runs[j].files != [] && AllUnsat(runs[j].files, th, beyond)
    {
      ghost var trace;
      var report;
      assert runs[i] in runs;
      report, trace := JudgeOnce(judge, runs[i], md5, beyond, th);
      ChronicleNext(runs, i, Standard(md5, beyond), caching, caches, traces, reports, judge.cache, trace, report);
      reports, caches, traces := reports + [report], caches + [judge.cache], traces + [trace];
    }
  }
}
