/** Several obligations in one solver process
    (scripts/buildcheck_range_obligations.py, `batch_solve`): each query is
    followed by an end marker, and a verdict is the one line between two
    markers. */
module SolverBatch {
  import opened PyText
  import opened SmtText
  import opened SmtLogic

  const NO_OUTPUT := "no output"
  const UNSAT := "unsat"

  /** One process: whether it started, the lines it printed before its output
      ended, and the first query whose write failed. */
  datatype Session = Session(started: bool, lines: seq<string>, broken: nat)

  function Marker(i: nat): string {
    "takibi-obligation-end-" + Decimal(i)
  }

  /** The first line at or after `from` that is the marker; the length of the
      output when none is. */
  function MarkAt(lines: seq<string>, from: nat, marker: string): (k: nat)
    ensures k <= |lines|
    ensures k < |lines| ==> from <= k && Strip(lines[k]) == marker
    ensures forall j | from <= j < k :: Strip(lines[j]) != marker
    decreases |lines| - from
  {
    if from >= |lines| then |lines|
    else if Strip(lines[from]) == marker then from
    else MarkAt(lines, from + 1, marker)
  }

  /** Where the output of query i starts: after the marker of query i - 1. */
  function Start(lines: seq<string>, i: nat): nat
    decreases i, 0
  {
    if i == 0 then 0 else End(lines, i - 1) + 1
  }

  /** Where the marker of query i stands. */
  function End(lines: seq<string>, i: nat): (k: nat)
    ensures k <= |lines|
    decreases i, 1
  {
    MarkAt(lines, Start(lines, i), Marker(i))
  }

  /** The verdict of query i: the one line between the markers. */
  function Verdict(s: Session, i: nat): string {
    var a, b := Start(s.lines, i), End(s.lines, i);
    if s.started && i < s.broken && b < |s.lines| && b == a + 1 then Strip(s.lines[a]) else NO_OUTPUT
  }

  lemma {:induction false} EndStays(lines: seq<string>, i: nat, j: nat)
    requires i <= j && End(lines, i) == |lines|
    ensures End(lines, j) == |lines|
    decreases j - i
  {
    if i < j {
      EndStays(lines, i + 1, j);
    }
  }

  /** The stripped lines up to the marker, and where it stands. */
  method ReadAnswer(lines: seq<string>, from: nat, marker: string) returns (answer: seq<string>, at: nat)
    requires from <= |lines|
    ensures at == MarkAt(lines, from, marker) && from <= at
    ensures |answer| == at - from && forall k | 0 <= k < |answer| :: answer[k] == Strip(lines[from + k])
  {
    answer, at := [], from;
    while at < |lines| && Strip(lines[at]) != marker
      invariant from <= at <= |lines|
      invariant |answer| == at - from && forall k | 0 <= k < |answer| :: answer[k] == Strip(lines[from + k])
      invariant MarkAt(lines, from, marker) == MarkAt(lines, at, marker)
    {
      answer := answer + [Strip(lines[at])];
      at := at + 1;
    }
  }

  /** The verdicts of the first n queries. */
  function Verdicts(s: Session, n: nat): (vs: seq<string>)
    ensures |vs| == n
  {
    FirstOf((i: nat) => Verdict(s, i), n)
  }

  function FirstOf(verdict: nat -> string, n: nat): (vs: seq<string>)
    ensures |vs| == n
  {
    if n == 0 then [] else FirstOf(verdict, n - 1) + [verdict(n - 1)]
  }

  lemma {:induction false} FirstOfAt(verdict: nat -> string, n: nat, i: nat)
    requires i < n
    ensures FirstOf(verdict, n)[i] == verdict(i)
  {
    if i < n - 1 {
      FirstOfAt(verdict, n - 1, i);
    }
  }

  lemma {:induction false} VerdictsAt(s: Session, n: nat, i: nat)
    requires i < n
    ensures Verdicts(s, n)[i] == Verdict(s, i)
  {
    FirstOfAt((i: nat) => Verdict(s, i), n, i);
  }

  /** From query n on, nothing is answered. */
  ghost predicate Silent(s: Session, n: nat) {
    forall i | n <= i :: Verdict(s, i) == NO_OUTPUT
  }

  lemma {:induction false} VerdictsSilent(s: Session, n: nat, m: nat)
    requires n <= m && Silent(s, n)
    ensures Verdicts(s, m) == Verdicts(s, n) + seq(m - n, _ => NO_OUTPUT)
  {
    if n < m {
      VerdictsSilent(s, n, m - 1);
      assert seq(m - n, _ => NO_OUTPUT) == seq(m - 1 - n, _ => NO_OUTPUT) + [NO_OUTPUT];
    }
  }

  lemma {:induction false} SilentAfterEnd(s: Session, i: nat)
    requires End(s.lines, i) == |s.lines|
    ensures Silent(s, i + 1)
  {
    forall j | i <= j
      ensures Verdict(s, j) == NO_OUTPUT
    {
      EndStays(s.lines, i, j);
    }
  }

  lemma {:induction false} SilentAfterBreak(s: Session, i: nat)
    requires !s.started || s.broken <= i
    ensures Silent(s, i)
  {
  }

  /** The lines read for query i give its verdict. */
  lemma {:induction false} VerdictRead(s: Session, i: nat, next: nat, answer: seq<string>, at: nat)
    requires s.started && i < s.broken
    requires next == Start(s.lines, i) && at == MarkAt(s.lines, next, Marker(i)) && next <= at
    requires |answer| == at - next && forall k | 0 <= k < |answer| :: answer[k] == Strip(s.lines[next + k])
    ensures Verdicts(s, i + 1) == Verdicts(s, i) + [if |answer| == 1 && at != |s.lines| then answer[0] else NO_OUTPUT]
    ensures at == End(s.lines, i) && at + 1 == Start(s.lines, i + 1)
  {
    assert at == End(s.lines, i);
    if |answer| == 1 {
      assert answer[0] == Strip(s.lines[next + 0]);
    }
  }

  /** The read loop: verdicts until the output ends, a write fails or every
      query is answered. */
  method ReadVerdicts(count: nat, s: Session) returns (results: seq<string>)
    requires s.started
    ensures |results| <= count && results == Verdicts(s, |results|)
    ensures |results| == count || Silent(s, |results|)
  {
    results := [];
    var index, next := 0, 0;
    while index < count && index < s.broken
      invariant index <= count && |results| == index
      invariant results == Verdicts(s, index)
      invariant next == Start(s.lines, index)
      invariant next <= |s.lines|
    {
      var answer, at := ReadAnswer(s.lines, next, Marker(index));
      VerdictRead(s, index, next, answer, at);
      results := results + [if |answer| == 1 && at != |s.lines| then answer[0] else NO_OUTPUT];
      if at == |s.lines| {
        SilentAfterEnd(s, index);
        return;
      }
      index, next := index + 1, at + 1;
    }
    if index < count {
      SilentAfterBreak(s, index);
    }
  }

  /** Over any output of the process: one verdict per query, in order. */
  method BatchSolve(bodies: seq<string>, s: Session) returns (results: seq<string>)
    ensures results == Verdicts(s, |bodies|)
  {
    results := [];
    if s.started {
      results := ReadVerdicts(|bodies|, s);
    } else {
      SilentAfterBreak(s, 0);
    }
    if |results| < |bodies| {
      VerdictsSilent(s, |results|, |bodies|);
      results := results + seq(|bodies| - |results|, _ => NO_OUTPUT);
    }
  }

  // ----- A process that answers query by query -----

  /** What a process prints: the answer to each query from its start state,
      to which `(reset)` returns it, then the echoed marker. */
  function Wire(answers: seq<seq<string>>): seq<string> {
    if answers == [] then []
    else
      var n := |answers| - 1;
      Wire(answers[..n]) + answers[n] + [Marker(n)]
  }

  /** No answer prints the marker that ends it. */
  ghost predicate Unmarked(answers: seq<seq<string>>) {
    forall i, k | 0 <= i < |answers| && 0 <= k < |answers[i]| :: Strip(answers[i][k]) != Marker(i)
  }

  lemma {:induction false} WireGrows(answers: seq<seq<string>>, i: nat)
    requires i <= |answers|
    ensures Wire(answers[..i]) <= Wire(answers)
  {
    var n := |answers| - 1;
    if i == |answers| {
      assert answers[..i] == answers;
    } else {
      WireGrows(answers[..n], i);
      assert answers[..n][..i] == answers[..i];
    }
  }

  lemma {:induction false} WireAt(answers: seq<seq<string>>, i: nat)
    requires i < |answers|
    ensures Wire(answers[..i]) + answers[i] + [Marker(i)] <= Wire(answers)
  {
    WireGrows(answers, i + 1);
    assert answers[..i + 1][..i] == answers[..i];
  }

  lemma {:induction false} StripMarker(i: nat)
    ensures Strip(Marker(i)) == Marker(i)
  {
    var m := Marker(i);
    assert m[0] == 't' && '0' <= m[|m| - 1] <= '9';
  }

  lemma {:induction false} MarkFound(lines: seq<string>, from: nat, k: nat, marker: string)
    requires from <= k <= |lines|
    requires forall j | from <= j < k :: Strip(lines[j]) != marker
    requires k < |lines| ==> Strip(lines[k]) == marker
    ensures MarkAt(lines, from, marker) == k
    decreases k - from
  {
    if from < k {
      MarkFound(lines, from + 1, k, marker);
    }
  }

  lemma {:induction false} EndOfAnswer(lines: seq<string>, a: nat, answer: seq<string>, i: nat)
    requires a <= |lines| && Start(lines, i) == a
    requires lines[a..] <= answer + [Marker(i)] || answer + [Marker(i)] <= lines[a..]
    requires forall k | 0 <= k < |answer| :: Strip(answer[k]) != Marker(i)
    ensures End(lines, i) == if a + |answer| < |lines| then a + |answer| else |lines|
  {
    var k := if a + |answer| < |lines| then a + |answer| else |lines|;
    var all := answer + [Marker(i)];
    forall j | a <= j < |lines| && j - a < |all|
      ensures lines[j] == all[j - a]
    {
      assert lines[j] == lines[a..][j - a];
    }
    StripMarker(i);
    MarkFound(lines, a, k, Marker(i));
  }

  lemma {:induction false} PrefixPart(lines: seq<string>, before: seq<string>, part: seq<string>, wire: seq<string>)
    requires lines <= wire && before + part <= wire && |before| <= |lines|
    ensures lines[|before|..] <= part || part <= lines[|before|..]
  {
    var n := |before|;
    assert before + part == wire[..n + |part|];
    assert part == wire[n..n + |part|] && lines[n..] == wire[n..|lines|];
  }

  /** Every marker that arrived is found where the process printed it, however
      long the earlier answers were; one that did not arrive is not found. */
  lemma {:induction false} EndOnWire(answers: seq<seq<string>>, lines: seq<string>, i: nat)
    requires Unmarked(answers) && lines <= Wire(answers) && i < |answers|
    ensures var a := |Wire(answers[..i])|;
            if a + |answers[i]| < |lines| then Start(lines, i) == a && End(lines, i) == a + |answers[i]|
            else End(lines, i) == |lines|
  {
    var before := Wire(answers[..i]);
    if i > 0 {
      EndOnWire(answers, lines, i - 1);
      assert answers[..i][..i - 1] == answers[..i - 1];
      assert |before| == |Wire(answers[..i - 1])| + |answers[i - 1]| + 1;
    }
    if |before| <= |lines| {
      var part := answers[i] + [Marker(i)];
      WireAt(answers, i);
      assert before + part == before + answers[i] + [Marker(i)];
      PrefixPart(lines, before, part, Wire(answers));
      EndOfAnswer(lines, |before|, answers[i], i);
    } else {
      EndStays(lines, i - 1, i);
    }
  }

  /** However the process ends, each verdict is that query's own answer or
      none: no line of one query is taken for another's. */
  lemma {:induction false} VerdictIsOwnAnswer(answers: seq<seq<string>>, s: Session, i: nat)
    requires Unmarked(answers) && s.lines <= Wire(answers) && i < |answers|
    ensures var arrived := s.started && i < s.broken && |Wire(answers[..i])| + |answers[i]| < |s.lines|;
            Verdict(s, i) == if arrived && |answers[i]| == 1 then Strip(answers[i][0]) else NO_OUTPUT
  {
    EndOnWire(answers, s.lines, i);
    WireAt(answers, i);
  }

  /** A solver that answers `unsat` alone only to a refuted query, and dies
      wherever it likes. */
  ghost predicate HonestSession(bodies: seq<string>, s: Session, th: Theory, beyond: char -> bool) {
    exists answers ::
      && |answers| == |bodies| && Unmarked(answers) && s.lines <= Wire(answers)
      && forall i | 0 <= i < |bodies| && |answers[i]| == 1 && Strip(answers[i][0]) == UNSAT :: Unsat(bodies[i], th, beyond)
  }

  lemma {:induction false} UnsatVerdictIsRefutation(bodies: seq<string>, s: Session, i: nat, th: Theory, beyond: char -> bool)
    requires HonestSession(bodies, s, th, beyond) && i < |bodies|
    requires Verdict(s, i) == UNSAT
    ensures Unsat(bodies[i], th, beyond)
  {
    var answers :|
      && |answers| == |bodies| && Unmarked(answers) && s.lines <= Wire(answers)
      && forall i | 0 <= i < |bodies| && |answers[i]| == 1 && Strip(answers[i][0]) == UNSAT :: Unsat(bodies[i], th, beyond);
    VerdictIsOwnAnswer(answers, s, i);
  }
}
