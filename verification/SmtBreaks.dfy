/** Why obligations must keep to plain line feeds: SMT-LIB ends a comment at
    the line feed, `splitlines` already at a vertical tab and other characters,
    so `canonical` takes the rest of such a comment for code. */
module SmtBreaks {
  import opened PyText
  import opened SmtText
  import opened Options
  import opened SmtLogic
  import opened SmtPrint
  import opened SeqLaws
  import opened LinearTheory
  import RangeJudge

  /** A line break of `splitlines` that does not end an SMT-LIB comment. */
  predicate OddBreak(c: char) {
    IsBreak(c) && c != '\n' && c != '\r'
  }

  /** A comment line that hides code after a character. */
  function Hiding(c: char, code: string): string {
    ";" + [c] + code
  }

  lemma {:induction false} LastLine(l: string)
    requires NoBreak(l)
    ensures SplitLines(l + "\n") == [l]
  {
    Empty(l + "\n");
    SplitLinesLine(l, "");
  }

  lemma {:induction false} HiddenSplit(c: char, code: string)
    requires OddBreak(c) && NoBreak(code)
    ensures SplitLines(Hiding(c, code) + "\n") == [";"] + [code]
  {
    Assoc(";" + [c], code, "\n");
    SplitLinesAt(";", c, code + "\n");
    LastLine(code);
  }

  lemma {:induction false} CodeAfterComment(h: string, lines: seq<string>)
    requires IsComment(h)
    ensures CodeOf([h] + lines) == CodeOf(lines)
  {
    assert ([h] + lines)[1..] == lines;
    Empty(CodeOf(lines));
  }

  /** Both texts have the header and the code line as their code. */
  lemma {:induction false} SameCanonical(h: string, c: char, code: string, beyond: char -> bool)
    requires NoBreak(h) && IsComment(h) && OddBreak(c) && NoBreak(code)
    ensures Canonical(h + "\n" + (Hiding(c, code) + "\n"), beyond) == Canonical(h + "\n" + (code + "\n"), beyond)
  {
    SplitLinesLine(h, Hiding(c, code) + "\n");
    SplitLinesLine(h, code + "\n");
    HiddenSplit(c, code);
    LastLine(code);
    CodeAfterComment(h, [";"] + [code]);
    CodeAfterComment(";", [code]);
    CodeAfterComment(h, [code]);
  }

  /** A comment line and one more line mean what the second line means. */
  lemma {:induction false} ScanAfterComment(h: string, l: string, beyond: char -> bool)
    requires OneLine(h) && IsComment(h)
    ensures Scan(Lex(h + "\n" + (l + "\n"), beyond), [], false) == Scan(Lex(l, beyond), [], false)
  {
    var hs, ls, nl := Lex(h, beyond), Lex(l, beyond), [Plain('\n')];
    assert Lex(l + "\n", beyond) == ls + nl by {
      Empty(l + "\n");
      LexLine(l, "", beyond);
      Empty(ls + nl);
    }
    LexLine(h, l + "\n", beyond);
    ScanLine(hs, ls + nl, [], false);
    ScanEnd(hs, [], false);
    ScanEnd(ls, [], false);
    ScanCommentLine(h, beyond);
  }

  /** `(assert false)` */
  function AssertFalse(): SExp {
    Node([Keyword("assert"), FalseExp()])
  }

  function Written(): string {
    Render(Tokens(AssertFalse()))
  }

  lemma {:induction false} WrittenIsOneLine(beyond: char -> bool)
    ensures NoBreak(Written())
  {
    AssertFalseProper(beyond);
    TokensNoBreak(AssertFalse(), beyond);
  }

  lemma {:induction false} AssertFalseProper(beyond: char -> bool)
    ensures ProperExp(AssertFalse(), beyond)
  {
    PlainWordProper("assert", beyond);
    PlainWordProper("false", beyond);
  }

  lemma {:induction false} AssertFalseIsUnsat()
    ensures UnsatScript([AssertFalse()], Linear())
  {
    var c := AssertFalse();
    assert IsAssert(c) && [c][0] == c;
    forall m: Model
      ensures !Satisfies([c], Linear(), m)
    {
      EvalFalse(m);
    }
  }

  lemma {:induction false} NothingIsSat(th: Theory)
    ensures !UnsatScript([], th)
  {
    var m: Model := s => Undefined;
    assert Satisfies([], th, m);
  }

  lemma {:induction false} HiddenIsSat(h: string, c: char, code: string, th: Theory, beyond: char -> bool)
    requires OneLine(h) && IsComment(h) && OddBreak(c) && NoBreak(code)
    ensures !Unsat(h + "\n" + (Hiding(c, code) + "\n"), th, beyond)
  {
    ScanAfterComment(h, Hiding(c, code), beyond);
    ScanCommentLine(Hiding(c, code), beyond);
    NothingIsSat(th);
  }

  lemma {:induction false} WrittenIsUnsat(h: string, beyond: char -> bool)
    requires OneLine(h) && IsComment(h)
    ensures Unsat(h + "\n" + (Written() + "\n"), Linear(), beyond)
  {
    AssertFalseProper(beyond);
    ReadOne(AssertFalse(), beyond);
    AssertFalseIsUnsat();
    ScanAfterComment(h, Written(), beyond);
  }

  /** The line breaks of a text are all allowed. */
  predicate BreaksIn(text: string, ok: char -> bool) {
    forall i | 0 <= i < |text| && IsBreak(text[i]) :: ok(text[i])
  }

  lemma {:induction false} JoinedBreaks(h: string, c: char, code: string, ok: char -> bool)
    requires NoBreak(h) && NoBreak(code) && (IsBreak(c) ==> ok(c)) && ok('\n')
    ensures BreaksIn(h + "\n" + (Hiding(c, code) + "\n"), ok) && BreaksIn(h + "\n" + (code + "\n"), ok)
  {
  }

  /** An obligation that the judge takes, with allowed line breaks. */
  predicate Taken(text: string, ok: char -> bool) {
    BreaksIn(text, ok) && (StartsWith(text, RangeJudge.HEADER) || StartsWith(text, RangeJudge.INIT_HEADER))
  }

  lemma {:induction false} HeaderTaken(h: string, rest: string)
    ensures StartsWith(h + "\n" + rest, h)
  {
    assert (h + "\n" + rest)[..|h|] == h;
  }

  lemma {:induction false} HiddenDiffers(h: string, c: char, ok: char -> bool, beyond: char -> bool) returns (b: string, b': string)
    requires NoBreak(h) && IsComment(h) && OddBreak(c) && ok(c) && ok('\n')
    ensures StartsWith(b, h) && StartsWith(b', h) && BreaksIn(b, ok) && BreaksIn(b', ok)
    ensures Canonical(b, beyond) == Canonical(b', beyond)
    ensures Unsat(b', Linear(), beyond) && !Unsat(b, Linear(), beyond)
  {
    var code := Written();
    WrittenIsOneLine(beyond);
    b, b' := h + "\n" + (Hiding(c, code) + "\n"), h + "\n" + (code + "\n");
    HeaderTaken(h, Hiding(c, code) + "\n");
    HeaderTaken(h, code + "\n");
    JoinedBreaks(h, c, code, ok);
    SameCanonical(h, c, code, beyond);
    HiddenIsSat(h, c, code, Linear(), beyond);
    WrittenIsUnsat(h, beyond);
  }

  lemma {:induction false} InitHeaderLine()
    ensures NoBreak(RangeJudge.INIT_HEADER) && IsComment(RangeJudge.INIT_HEADER)
  {
  }

  /** With such a break in a comment, two initialization obligations have one
      canonical text; one is refuted in linear arithmetic and the other is not. */
  lemma {:induction false} VerdictsDifferBeyondPlainBreaks(c: char, ok: char -> bool, beyond: char -> bool)
    returns (b: string, b': string)
    requires OddBreak(c) && ok(c) && ok('\n')
    ensures Taken(b, ok) && Taken(b', ok) && Canonical(b, beyond) == Canonical(b', beyond)
    ensures Unsat(b', Linear(), beyond) && !Unsat(b, Linear(), beyond)
  {
    InitHeaderLine();
    b, b' := HiddenDiffers(RangeJudge.INIT_HEADER, c, ok, beyond);
  }

  /** Texts with allowed line breaks and equal canonical text share their verdict, in every theory. */
  ghost predicate Shares(ok: char -> bool, beyond: char -> bool) {
    forall th, b, b' | NoCapture(th) && BreaksIn(b, ok) && BreaksIn(b', ok) && Canonical(b, beyond) == Canonical(b', beyond) ::
      Unsat(b, th, beyond) <==> Unsat(b', th, beyond)
  }

  /** Obligations with one cache key share their verdict in linear arithmetic. */
  ghost predicate KeysShare(ok: char -> bool, md5: string -> string, beyond: char -> bool) {
    forall b, b' | Taken(b, ok) && Taken(b', ok) && RangeJudge.Key(b, md5, beyond) == RangeJudge.Key(b', md5, beyond) ::
      Unsat(b, Linear(), beyond) <==> Unsat(b', Linear(), beyond)
  }

  lemma {:induction false} PlainShares(ok: char -> bool, beyond: char -> bool)
    requires forall c | IsBreak(c) && ok(c) :: c == '\n'
    ensures Shares(ok, beyond)
  {
    forall th, b, b' | NoCapture(th) && BreaksIn(b, ok) && BreaksIn(b', ok) && Canonical(b, beyond) == Canonical(b', beyond)
      ensures Unsat(b, th, beyond) <==> Unsat(b', th, beyond)
    {
      CanonicalSharesVerdict(b, b', th, beyond);
    }
  }

  lemma {:induction false} SharesKeys(ok: char -> bool, md5: string -> string, beyond: char -> bool)
    requires RangeJudge.Injective(md5) && Shares(ok, beyond)
    ensures KeysShare(ok, md5, beyond)
  {
    LinearNoCapture();
    forall b, b' | Taken(b, ok) && Taken(b', ok) && RangeJudge.Key(b, md5, beyond) == RangeJudge.Key(b', md5, beyond)
      ensures Unsat(b, Linear(), beyond) <==> Unsat(b', Linear(), beyond)
    {
      RangeJudge.SameDigest(md5, "canonical-v1\n", Canonical(b, beyond), Canonical(b', beyond));
    }
  }

  /** Of the breaks other than a carriage return, which reading a file never
      gives, verdicts are shared exactly when only the line feed is allowed:
      by all texts in every theory, or by the judge's obligations in linear
      arithmetic. */
  lemma {:induction false} SharesIff(ok: char -> bool, md5: string -> string, beyond: char -> bool)
    requires RangeJudge.Injective(md5) && ok('\n') && !ok('\r')
    ensures Shares(ok, beyond) <==> forall c | IsBreak(c) && ok(c) :: c == '\n'
    ensures KeysShare(ok, md5, beyond) <==> forall c | IsBreak(c) && ok(c) :: c == '\n'
  {
    if forall c | IsBreak(c) && ok(c) :: c == '\n' {
      PlainShares(ok, beyond);
      SharesKeys(ok, md5, beyond);
    } else {
      var c :| IsBreak(c) && ok(c) && c != '\n';
      var b, b' := VerdictsDifferBeyondPlainBreaks(c, ok, beyond);
      assert !KeysShare(ok, md5, beyond);
      if Shares(ok, beyond) {
        SharesKeys(ok, md5, beyond);
      }
    }
  }
}
