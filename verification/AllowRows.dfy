/** The rows of the allow-list of unprotected globals, as text
    (`parse_allowlist` of scripts/buildcheck_global_protection.py). */
module AllowRows {
  import opened Options
  import opened PyText
  import opened SeqLaws

  /** A file and a name in it. */
  datatype Key = Key(file: string, name: string)

  /** A line: a comment or blank, a row, or malformed. */
  datatype Kind = Skip | Row(key: Key, reader: string) | Malformed

  type Rows = map<Key, string>

  // ----- One line -----

  /** `s.split("\t")` */
  function Cells(s: string): (r: seq<string>)
    ensures |r| > 0
  {
    if s == [] then [[]]
    else
      var r, c := Cells(s[..|s| - 1]), s[|s| - 1];
      if c == '\t' then r + [[]] else r[..|r| - 1] + [r[|r| - 1] + [c]]
  }

  predicate Blank(s: string) {
    Strip(s) == []
  }

  predicate IsNote(s: string) {
    s != [] && s[0] == '#'
  }

  function Classify(line: string): Kind {
    if Blank(line) || IsNote(line) then Skip
    else
      var cells := Cells(line);
      if |cells| != 3 || Blank(cells[2]) then Malformed else Row(Key(cells[0], cells[1]), cells[2])
  }

  predicate NoTab(s: string) {
    forall i | 0 <= i < |s| :: s[i] != '\t'
  }

  ghost function Tabbed(cells: seq<string>): string
    requires cells != []
  {
    if |cells| == 1 then cells[0] else Tabbed(cells[..|cells| - 1]) + "\t" + cells[|cells| - 1]
  }

  lemma {:induction false} TabbedNext(front: seq<string>, last: string)
    requires front != []
    ensures Tabbed(front + [last]) == Tabbed(front) + "\t" + last
  {
    assert (front + [last])[..|front|] == front;
  }

  lemma {:induction false} TabbedMore(front: seq<string>, last: string, c: char)
    ensures Tabbed(front + [last + [c]]) == Tabbed(front + [last]) + [c]
  {
    if front != [] {
      TabbedNext(front, last);
      TabbedNext(front, last + [c]);
      Assoc(Tabbed(front) + "\t", last, [c]);
    }
  }

  lemma {:induction false} CellsLast(front: string, c: char)
    ensures var r := Cells(front);
            Cells(front + [c]) == if c == '\t' then r + [[]] else r[..|r| - 1] + [r[|r| - 1] + [c]]
  {
    assert (front + [c])[..|front|] == front;
  }

  lemma {:induction false} CellsTabbedMore(front: string, c: char)
    requires Tabbed(Cells(front)) == front
    ensures Tabbed(Cells(front + [c])) == front + [c]
  {
    var r := Cells(front);
    CellsLast(front, c);
    if c == '\t' {
      TabbedNext(r, []);
      Empty(front + "\t");
    } else {
      assert r == r[..|r| - 1] + [r[|r| - 1]];
      TabbedMore(r[..|r| - 1], r[|r| - 1], c);
    }
  }

  /** The cells are what stands between tabs. */
  lemma {:induction false} CellsTabbed(s: string)
    ensures Tabbed(Cells(s)) == s
  {
    if s != [] {
      var front, c := s[..|s| - 1], s[|s| - 1];
      CellsTabbed(front);
      assert s == front + [c];
      CellsTabbedMore(front, c);
    }
  }

  lemma {:induction false} CellsNoTab(s: string)
    ensures forall i | 0 <= i < |Cells(s)| :: NoTab(Cells(s)[i])
  {
    if s != [] {
      var front, c := s[..|s| - 1], s[|s| - 1];
      CellsNoTab(front);
      assert s == front + [c];
      CellsLast(front, c);
      var r := Cells(front);
      assert NoTab(r[|r| - 1]);
    }
  }

  lemma {:induction false} CellsExtend(s: string, t: string)
    requires NoTab(t)
    ensures var r, n := Cells(s), |Cells(s)| - 1; Cells(s + t) == r[..n] + [r[n] + t]
  {
    var r, n := Cells(s), |Cells(s)| - 1;
    if t == [] {
      assert s + t == s && r[n] + t == r[n];
    } else {
      var u, c := t[..|t| - 1], t[|t| - 1];
      CellsExtend(s, u);
      assert t == u + [c] && s + t == (s + u) + [c];
      assert (s + t)[..|s + u|] == s + u;
      assert (r[n] + u) + [c] == r[n] + t;
    }
  }

  lemma {:induction false} CellsNext(s: string, t: string)
    requires NoTab(t)
    ensures Cells(s + "\t" + t) == Cells(s) + [t]
  {
    assert (s + "\t")[..|s|] == s;
    CellsExtend(s + "\t", t);
    assert [] + t == t;
  }

  lemma {:induction false} CellsOfRow(file: string, name: string, reader: string)
    requires NoTab(file) && NoTab(name) && NoTab(reader)
    ensures Cells(file + "\t" + name + "\t" + reader) == [file, name, reader]
  {
    CellsExtend([], file);
    assert [] + file == file;
    CellsNext(file, name);
    CellsNext(file + "\t" + name, reader);
  }

  lemma {:induction false} TabbedThree(cells: seq<string>)
    requires |cells| == 3
    ensures Tabbed(cells) == cells[0] + "\t" + cells[1] + "\t" + cells[2]
  {
    assert cells[..2][..1] == [cells[0]];
    assert Tabbed(cells[..2]) == cells[0] + "\t" + cells[1];
  }

  ghost predicate AllSpaces(s: string) {
    forall i | 0 <= i < |s| :: IsSpace(s[i])
  }

  /** A line is skipped exactly when it is blank or a note, and is a row exactly
      when it is a file, a name and a reader between tabs. */
  lemma {:induction false} ClassifyIff(line: string, key: Key, reader: string)
    ensures Classify(line) == Skip <==> AllSpaces(line) || (line != [] && line[0] == '#')
    ensures Classify(line) == Row(key, reader) <==>
              && line == key.file + "\t" + key.name + "\t" + reader
              && NoTab(key.file) && NoTab(key.name) && NoTab(reader)
              && !AllSpaces(reader) && line[0] != '#'
  {
    BlankIff(line);
    BlankIff(reader);
    if Classify(line) == Row(key, reader) {
      CellsTabbed(line);
      CellsNoTab(line);
      TabbedThree(Cells(line));
    }
    if line == key.file + "\t" + key.name + "\t" + reader && NoTab(key.file) && NoTab(key.name) && NoTab(reader) && !AllSpaces(reader) {
      CellsOfRow(key.file, key.name, reader);
      ReaderShows(key.file + "\t" + key.name + "\t", reader);
    }
  }

  lemma {:induction false} ReaderShows(s: string, reader: string)
    requires !AllSpaces(reader)
    ensures !AllSpaces(s + reader)
  {
    var i :| 0 <= i < |reader| && !IsSpace(reader[i]);
    assert (s + reader)[|s| + i] == reader[i];
  }

  // ----- The whole list -----

  /** The rows of the lines; a later row of a key replaces an earlier one. */
  function RowsOf(lines: seq<string>): Rows {
    if lines == [] then map[]
    else
      var rows := RowsOf(lines[..|lines| - 1]);
      var k := Classify(lines[|lines| - 1]);
      if k.Row? then rows[k.key := k.reader] else rows
  }

  /** No malformed line, and no key twice. */
  predicate WellFormed(lines: seq<string>) {
    lines == [] ||
    var k := Classify(lines[|lines| - 1]);
    WellFormed(lines[..|lines| - 1]) && !k.Malformed? && (k.Row? ==> k.key !in RowsOf(lines[..|lines| - 1]))
  }

  function AddRow(rows: Rows, k: Kind): Rows {
    if k.Row? then rows[k.key := k.reader] else rows
  }

  lemma {:induction false} RowsMore(lines: seq<string>, l: string)
    ensures RowsOf(lines + [l]) == AddRow(RowsOf(lines), Classify(l))
    ensures WellFormed(lines + [l])
            <==> WellFormed(lines) && !Classify(l).Malformed? && (Classify(l).Row? ==> Classify(l).key !in RowsOf(lines))
  {
    assert (lines + [l])[..|lines|] == lines;
  }

  lemma {:induction false} RowsNext(lines: seq<string>, i: nat)
    requires i < |lines|
    ensures RowsOf(lines[..i + 1]) == AddRow(RowsOf(lines[..i]), Classify(lines[i]))
    ensures WellFormed(lines[..i + 1])
            <==> WellFormed(lines[..i]) && !Classify(lines[i]).Malformed?
                 && (Classify(lines[i]).Row? ==> Classify(lines[i]).key !in RowsOf(lines[..i]))
  {
    assert lines[..i + 1] == lines[..i] + [lines[i]];
    RowsMore(lines[..i], lines[i]);
  }

  method ParseAllowlist(text: string) returns (rows: Rows, errors: nat)
    ensures rows == RowsOf(SplitLines(text))
    ensures errors == 0 <==> WellFormed(SplitLines(text))
  {
    rows, errors := map[], 0;
    var lines := SplitLines(text);
    for i := 0 to |lines|
      invariant rows == RowsOf(lines[..i]) && (errors == 0 <==> WellFormed(lines[..i]))
    {
      RowsNext(lines, i);
      if Blank(lines[i]) || IsNote(lines[i]) {
        continue;
      }
      var cells := Cells(lines[i]);
      if |cells| != 3 || Blank(cells[2]) {
        errors := errors + 1;
        continue;
      }
      var key := Key(cells[0], cells[1]);
      if key in rows {
        errors := errors + 1;
      }
      rows := rows[key := cells[2]];
    }
    assert lines[..|lines|] == lines;
  }

  // ----- Lines with their breaks -----

  predicate Ended(k: string) {
    k != [] && IsBreak(k[|k| - 1]) && k[|k| - 1] != '\r' && NoBreak(k[..|k| - 1])
  }

  predicate IsLine(k: string) {
    Ended(k) || (k != [] && NoBreak(k))
  }

  /** The lines of a text, each with its break; only the last may have none. */
  predicate LineSeq(ks: seq<string>) {
    forall i | 0 <= i < |ks| :: IsLine(ks[i]) && (i < |ks| - 1 ==> Ended(ks[i]))
  }

  function Content(k: string): string {
    if Ended(k) then k[..|k| - 1] else k
  }

  function Contents(ks: seq<string>): (r: seq<string>)
    ensures |r| == |ks| && forall i | 0 <= i < |ks| :: r[i] == Content(ks[i])
  {
    seq(|ks|, i requires 0 <= i < |ks| => Content(ks[i]))
  }

  predicate NoReturn(s: string) {
    forall i | 0 <= i < |s| :: s[i] != '\r'
  }

  lemma {:induction false} SplitWhole(l: string)
    requires l != [] && NoBreak(l)
    ensures SplitLines(l) == [l] && KeepLines(l) == [l]
  {
    LineLenOfLine(l, []);
    Empty(l);
    assert l[|l|..] == [] && l[..|l|] == l;
  }

  lemma {:induction false} ContentsFirst(k: string, ks: seq<string>)
    ensures Contents([k] + ks) == [Content(k)] + Contents(ks)
  {
  }

  /** Joined lines are split where they were joined. */
  lemma {:induction false} SplitConcat(ks: seq<string>)
    requires LineSeq(ks)
    ensures SplitLines(Concat(ks)) == Contents(ks) && KeepLines(Concat(ks)) == ks
  {
    if ks == [] {
    } else {
      var k, rest := ks[0], Concat(ks[1..]);
      SplitConcat(ks[1..]);
      assert ks == [k] + ks[1..];
      ContentsFirst(k, ks[1..]);
      assert IsLine(k);
      if Ended(k) {
        var n := |k| - 1;
        assert k == k[..n] + [k[n]];
        SplitLinesAt(k[..n], k[n], rest);
      } else {
        assert ks[1..] == [];
        Empty(k);
        SplitWhole(k);
      }
    }
  }

  lemma {:induction false} KeepLineSeq(s: string)
    requires NoReturn(s)
    ensures LineSeq(KeepLines(s))
  {
    if s != [] {
      var e := LineEnd(s);
      KeepLineSeq(s[e..]);
      assert KeepLines(s)[1..] == KeepLines(s[e..]);
      FirstLineEnds(s);
    }
  }

  lemma {:induction false} FirstLineEnds(s: string)
    requires s != [] && NoReturn(s)
    ensures var e := LineEnd(s); Ended(s[..e]) || (e == |s| && NoBreak(s[..e]))
  {
    var n := LineLen(s);
    if n < |s| {
      assert s[n..][0] == s[n] != '\r';
      assert s[..n + 1][..n] == s[..n];
    }
  }

  /** `read_text` has no carriage return, so both ways of splitting agree. */
  lemma {:induction false} LinesAgree(s: string)
    requires NoReturn(s)
    ensures SplitLines(s) == Contents(KeepLines(s)) && LineSeq(KeepLines(s))
  {
    KeepLineSeq(s);
    SplitConcat(KeepLines(s));
    KeepLinesConcat(s);
  }

  // ----- A line read with its break -----

  /** `k.rstrip("\n")` */
  function StripFeeds(k: string): string {
    if k != [] && k[|k| - 1] == '\n' then StripFeeds(k[..|k| - 1]) else k
  }

  function KeyIn(cells: seq<string>): Option<Key> {
    if |cells| == 3 then Some(Key(cells[0], cells[1])) else None
  }

  /** The key of a line read with its break, if it looks like a row. */
  function KeyOf(k: string): Option<Key> {
    if !Blank(k) && !IsNote(k) then KeyIn(Cells(StripFeeds(k))) else None
  }

  lemma {:induction false} BlankIff(s: string)
    ensures Blank(s) <==> forall i | 0 <= i < |s| :: IsSpace(s[i])
    decreases |s|
  {
    if s == [] {
    } else if IsSpace(s[0]) {
      BlankIff(s[1..]);
      assert forall i | 1 <= i < |s| :: s[i] == s[1..][i - 1];
    } else if IsSpace(s[|s| - 1]) {
      BlankIff(s[..|s| - 1]);
      assert s[..|s| - 1][0] == s[0];
    }
  }

  lemma {:induction false} BlankMore(s: string, c: char)
    requires IsSpace(c)
    ensures Blank(s + [c]) <==> Blank(s)
  {
    BlankIff(s);
    BlankIff(s + [c]);
    assert forall i | 0 <= i < |s| :: (s + [c])[i] == s[i];
  }

  lemma {:induction false} CellsMore(s: string, c: char)
    requires c != '\t'
    ensures var r, n := Cells(s), |Cells(s)| - 1; Cells(s + [c]) == r[..n] + [r[n] + [c]]
  {
    assert (s + [c])[..|s|] == s;
  }

  lemma {:induction false} StripFeedsLine(l: string, c: char)
    requires NoBreak(l)
    ensures StripFeeds(l) == l
    ensures StripFeeds(l + [c]) == if c == '\n' then l else l + [c]
  {
    assert l != [] ==> l[|l| - 1] != '\n';
    assert (l + [c])[..|l|] == l;
  }

  /** The break is in the last cell, so it changes no key. */
  lemma {:induction false} KeyInBreak(l: string, c: char)
    requires NoBreak(l) && c != '\t'
    ensures KeyIn(Cells(StripFeeds(l + [c]))) == KeyIn(Cells(l))
  {
    StripFeedsLine(l, c);
    CellsMore(l, c);
  }

  lemma {:induction false} KeyOfBreak(l: string, c: char)
    requires NoBreak(l) && IsBreak(c)
    ensures KeyOf(l + [c]) == KeyOf(l)
  {
    KeyInBreak(l, c);
    StripFeedsLine(l, c);
    BlankMore(l, c);
    assert l == [] ==> Blank(l);
    assert l != [] ==> (l + [c])[0] == l[0];
  }

  lemma {:induction false} KeyOfLine(l: string)
    requires NoBreak(l) && !Classify(l).Malformed?
    ensures KeyOf(l) == if Classify(l).Row? then Some(Classify(l).key) else None
  {
    StripFeedsLine(l, '\n');
  }

  /** A line that is a row, or is skipped, has the same key with its break as without. */
  lemma {:induction false} KeyOfContent(k: string)
    requires IsLine(k) && !Classify(Content(k)).Malformed?
    ensures KeyOf(k) == if Classify(Content(k)).Row? then Some(Classify(Content(k)).key) else None
  {
    if Ended(k) {
      assert k == k[..|k| - 1] + [k[|k| - 1]];
      KeyOfBreak(k[..|k| - 1], k[|k| - 1]);
    }
    KeyOfLine(Content(k));
  }
}
