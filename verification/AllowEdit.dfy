/** Editing the allow-list of unprotected globals (`check`, `drop_keys`,
    `rewrite_allowlist` and `edit` of
    scripts/buildcheck_global_protection.py). */
module AllowEdit {
  import opened Options
  import opened PyText
  import opened SeqLaws
  import opened AllowRows

  /** A production global, as the compiler's table has it. */
  datatype Global = Global(protection: string, qualifier: string)

  type Found = map<Key, Global>

  predicate Unprotected(g: Global) {
    g.protection == "none" || g.qualifier == "scratch"
  }

  function Open(found: Found): set<Key> {
    set k | k in found && Unprotected(found[k])
  }

  function Stale(found: Found, rows: Rows): set<Key> {
    rows.Keys - Open(found)
  }

  /** The check itself: the rows are the unprotected globals. */
  method Check(found: Found, rows: Rows) returns (errors: nat)
    ensures errors == 0 <==> rows.Keys == Open(found)
    ensures errors == 0 <==>
              forall k :: k in rows <==> k in found && (found[k].protection == "none" || found[k].qualifier == "scratch")
  {
    var missing, stale := Open(found) - rows.Keys, rows.Keys - Open(found);
    errors := |missing| + |stale|;
    if missing == {} && stale == {} {
      assert rows.Keys == Open(found);
    }
  }

  // ----- Taking rows out of the text -----

  /** The lines of the text without those of the keys removed. */
  function Kept(ks: seq<string>, removed: set<Key>): seq<string> {
    if ks == [] then []
    else
      var k := ks[|ks| - 1];
      Kept(ks[..|ks| - 1], removed) + if KeyOf(k).Some? && KeyOf(k).value in removed then [] else [k]
  }

  lemma {:induction false} KeptEnded(ks: seq<string>, removed: set<Key>)
    requires forall i | 0 <= i < |ks| :: Ended(ks[i])
    ensures forall i | 0 <= i < |Kept(ks, removed)| :: Ended(Kept(ks, removed)[i])
  {
    if ks != [] {
      KeptEnded(ks[..|ks| - 1], removed);
    }
  }

  lemma {:induction false} KeptLineSeq(ks: seq<string>, removed: set<Key>)
    requires LineSeq(ks)
    ensures LineSeq(Kept(ks, removed))
  {
    if ks != [] {
      KeptEnded(ks[..|ks| - 1], removed);
    }
  }

  lemma {:induction false} AddKept(rows: Rows, k: Kind, removed: set<Key>)
    requires k.Row? ==> k.key !in removed
    ensures AddRow(rows, k) - removed == AddRow(rows - removed, k)
  {
  }

  lemma {:induction false} AddRemoved(rows: Rows, k: Kind, removed: set<Key>)
    requires k.Row? && k.key in removed
    ensures AddRow(rows, k) - removed == rows - removed
  {
  }

  lemma {:induction false} ContentsMore(ks: seq<string>, k: string)
    ensures Contents(ks + [k]) == Contents(ks) + [Content(k)]
  {
  }

  lemma {:induction false} KeptRowsNext(front: seq<string>, k: string, removed: set<Key>)
    requires IsLine(k) && WellFormed(Contents(front + [k]))
    requires RowsOf(Contents(Kept(front, removed))) == RowsOf(Contents(front)) - removed
    requires WellFormed(Contents(Kept(front, removed)))
    ensures var next := Kept(front + [k], removed);
            RowsOf(Contents(next)) == RowsOf(Contents(front + [k])) - removed && WellFormed(Contents(next))
  {
    assert (front + [k])[..|front|] == front;
    ContentsMore(front, k);
    RowsMore(Contents(front), Content(k));
    KeyOfContent(k);
    var rest, rows, kind := Kept(front, removed), RowsOf(Contents(front)), Classify(Content(k));
    if kind.Row? && kind.key in removed {
      Empty(rest);
      AddRemoved(rows, kind, removed);
    } else {
      ContentsMore(rest, k);
      RowsMore(Contents(rest), Content(k));
      AddKept(rows, kind, removed);
    }
  }

  lemma {:induction false} KeptRows(ks: seq<string>, removed: set<Key>)
    requires (forall i | 0 <= i < |ks| :: IsLine(ks[i])) && WellFormed(Contents(ks))
    ensures RowsOf(Contents(Kept(ks, removed))) == RowsOf(Contents(ks)) - removed
    ensures WellFormed(Contents(Kept(ks, removed)))
  {
    if ks != [] {
      var front, k := ks[..|ks| - 1], ks[|ks| - 1];
      assert ks == front + [k];
      ContentsMore(front, k);
      RowsMore(Contents(front), Content(k));
      KeptRows(front, removed);
      KeptRowsNext(front, k, removed);
    }
  }

  /** When the rows can be taken out: the list is well formed, it has them, and
      every unprotected global keeps its row. */
  predicate CanRemove(text: string, found: Found, removed: set<Key>) {
    var rows := RowsOf(SplitLines(text));
    WellFormed(SplitLines(text)) && removed <= rows.Keys && Open(found) <= rows.Keys - removed
  }

  function Rewritten(text: string, removed: set<Key>): string {
    Concat(Kept(KeepLines(text), removed))
  }

  /** The rewritten text keeps every other row, in well-formed lines. */
  lemma {:induction false} RewrittenRows(text: string, removed: set<Key>)
    requires NoReturn(text) && WellFormed(SplitLines(text))
    ensures RowsOf(SplitLines(Rewritten(text, removed))) == RowsOf(SplitLines(text)) - removed
    ensures WellFormed(SplitLines(Rewritten(text, removed)))
    ensures KeepLines(Rewritten(text, removed)) == Kept(KeepLines(text), removed)
  {
    LinesAgree(text);
    var ks := KeepLines(text);
    KeptLineSeq(ks, removed);
    SplitConcat(Kept(ks, removed));
    KeptRows(ks, removed);
  }

  method TakeOut(lines: seq<string>, removed: set<Key>) returns (kept: seq<string>)
    ensures kept == Kept(lines, removed)
  {
    kept := [];
    for i := 0 to |lines|
      invariant kept == Kept(lines[..i], removed)
    {
      assert lines[..i + 1][..i] == lines[..i];
      var cells := Cells(StripFeeds(lines[i]));
      if !Blank(lines[i]) && !IsNote(lines[i]) && |cells| == 3 && Key(cells[0], cells[1]) in removed {
        Empty(kept);
        continue;
      }
      kept := kept + [lines[i]];
    }
    assert lines[..|lines|] == lines;
  }

  /** What the rewrite insists on before it writes. */
  predicate Accepts(before: Rows, after: Rows, found: Found, removed: set<Key>) {
    && Open(found) - after.Keys == {}
    && before.Keys - after.Keys == removed && after.Keys - before.Keys == {}
    && forall k | k in after :: k in before && after[k] == before[k]
  }

  lemma {:induction false} AcceptsIff(before: Rows, found: Found, removed: set<Key>)
    ensures Accepts(before, before - removed, found, removed) <==> removed <= before.Keys && Open(found) <= before.Keys - removed
  {
    var after := before - removed;
    assert after.Keys == before.Keys - removed;
    assert before.Keys - after.Keys == before.Keys * removed;
    if removed <= before.Keys && Open(found) <= after.Keys {
      assert before.Keys * removed == removed;
      assert Open(found) - after.Keys == {};
    }
    if Accepts(before, after, found, removed) {
      assert forall k | k in Open(found) :: k !in Open(found) - after.Keys;
    }
  }

  method RewriteAllowlist(text: string, found: Found, removed: set<Key>) returns (r: Option<string>)
    requires NoReturn(text)
    ensures r == if CanRemove(text, found, removed) then Some(Rewritten(text, removed)) else None
  {
    var kept := TakeOut(KeepLines(text), removed);
    var result := Concat(kept);
    var before, beforeErrors := ParseAllowlist(text);
    var after, afterErrors := ParseAllowlist(result);
    if beforeErrors == 0 {
      RewrittenRows(text, removed);
      AcceptsIff(before, found, removed);
    }
    if beforeErrors > 0 || afterErrors > 0 || !Accepts(before, after, found, removed) {
      return None;
    }
    r := Some(result);
  }

  // ----- The names given to drop -----

  /** Where the last colon stands. */
  function LastColon(s: string): (r: Option<nat>)
    ensures r.Some? ==> r.value < |s| && s[r.value] == ':'
  {
    if s == [] then None else if s[|s| - 1] == ':' then Some(|s| - 1) else LastColon(s[..|s| - 1])
  }

  /** A name selects a key: by file and name, or by name alone. */
  predicate Selects(name: string, k: Key) {
    var at := LastColon(name);
    if at.Some? then k == Key(name[..at.value], name[at.value + 1..]) else k.name == name
  }

  predicate NoColon(s: string) {
    forall i | 0 <= i < |s| :: s[i] != ':'
  }

  lemma {:induction false} LastColonIs(s: string)
    ensures LastColon(s).None? <==> NoColon(s)
    ensures LastColon(s).Some? ==> forall i | LastColon(s).value < i < |s| :: s[i] != ':'
  {
    if s != [] && s[|s| - 1] != ':' {
      var u := s[..|s| - 1];
      LastColonIs(u);
      assert forall i | 0 <= i < |u| :: u[i] == s[i];
    }
  }

  /** A file and a name, joined by a colon, select that key alone; a bare name
      selects its keys in every file. */
  lemma {:induction false} SelectsIff(file: string, name: string, k: Key)
    requires NoColon(name)
    ensures Selects(file + ":" + name, k) <==> k == Key(file, name)
    ensures Selects(name, k) <==> k.name == name
  {
    var s := file + ":" + name;
    LastColonIs(s);
    LastColonIs(name);
    assert s[|file|] == ':' && forall i | |file| < i < |s| :: s[i] == name[i - |file| - 1];
    assert LastColon(s).value == |file|;
    assert s[..|file|] == file && s[|file| + 1..] == name;
  }

  function Matches(rows: Rows, name: string): set<Key> {
    set k | k in rows && Selects(name, k)
  }

  /** A name that can be dropped: it selects rows, and only stale ones. */
  predicate Droppable(found: Found, rows: Rows, name: string) {
    Matches(rows, name) != {} && Matches(rows, name) <= Stale(found, rows)
  }

  function Selected(rows: Rows, names: seq<string>): set<Key> {
    if names == [] then {} else Selected(rows, names[..|names| - 1]) + Matches(rows, names[|names| - 1])
  }

  lemma {:induction false} SelectedStale(found: Found, rows: Rows, names: seq<string>)
    requires forall i | 0 <= i < |names| :: Droppable(found, rows, names[i])
    ensures Selected(rows, names) <= Stale(found, rows)
  {
    if names != [] {
      SelectedStale(found, rows, names[..|names| - 1]);
      assert Droppable(found, rows, names[|names| - 1]);
    }
  }

  lemma {:induction false} SelectedNext(rows: Rows, names: seq<string>, n: nat)
    requires n < |names|
    ensures Selected(rows, names[..n + 1]) == Selected(rows, names[..n]) + Matches(rows, names[n])
  {
    assert names[..n + 1][..n] == names[..n];
  }

  lemma {:induction false} StaleParts(matches: set<Key>, stale: set<Key>)
    ensures |matches - stale| == 0 <==> matches <= stale
    ensures matches <= stale ==> matches * stale == matches
  {
    if |matches - stale| == 0 {
      assert matches - stale == {};
      assert forall k | k in matches :: k in stale || k in matches - stale;
    }
  }

  /** One name: the stale rows it selects, and what is wrong with it. */
  method DropOne(found: Found, rows: Rows, name: string) returns (keys: set<Key>, errors: nat)
    ensures errors == 0 <==> Droppable(found, rows, name)
    ensures errors == 0 ==> keys == Matches(rows, name)
  {
    var matches, stale := Matches(rows, name), Stale(found, rows);
    StaleParts(matches, stale);
    errors := (if matches == {} then 1 else 0) + |matches - stale|;
    keys := matches * stale;
  }

  method DropKeys(found: Found, rows: Rows, names: seq<string>) returns (keys: set<Key>, errors: nat)
    ensures errors == 0 <==> forall i | 0 <= i < |names| :: Droppable(found, rows, names[i])
    ensures errors == 0 ==> keys == Selected(rows, names)
  {
    keys, errors := {}, 0;
    for n := 0 to |names|
      invariant errors == 0 <==> forall i | 0 <= i < n :: Droppable(found, rows, names[i])
      invariant errors == 0 ==> keys == Selected(rows, names[..n])
    {
      SelectedNext(rows, names, n);
      var more, wrong := DropOne(found, rows, names[n]);
      errors, keys := errors + wrong, keys + more;
    }
    assert names[..|names|] == names;
  }

  // ----- An edit -----

  function Removed(found: Found, rows: Rows, names: seq<string>, prune: bool): set<Key> {
    Selected(rows, names) + if prune then Stale(found, rows) else {}
  }

  /** When an edit is written: the list is well formed, the names are
      droppable, and no unprotected global is without a row already. */
  predicate Editable(text: string, found: Found, names: seq<string>) {
    var rows := RowsOf(SplitLines(text));
    && WellFormed(SplitLines(text)) && Open(found) <= rows.Keys
    && forall i | 0 <= i < |names| :: Droppable(found, rows, names[i])
  }

  function Edited(text: string, found: Found, names: seq<string>, prune: bool): Option<string> {
    if Editable(text, found, names) then Some(Rewritten(text, Removed(found, RowsOf(SplitLines(text)), names, prune))) else None
  }

  lemma {:induction false} RemovedStale(found: Found, rows: Rows, names: seq<string>, prune: bool)
    requires forall i | 0 <= i < |names| :: Droppable(found, rows, names[i])
    ensures Removed(found, rows, names, prune) <= Stale(found, rows)
  {
    SelectedStale(found, rows, names);
  }

  /** The new text of the list, or None when nothing is written. */
  method Edit(text: string, found: Found, names: seq<string>, prune: bool) returns (r: Option<string>)
    requires NoReturn(text)
    ensures r == Edited(text, found, names, prune)
  {
    var rows, errors := ParseAllowlist(text);
    if errors > 0 {
      return None;
    }
    var removed, refused := DropKeys(found, rows, names);
    if prune {
      removed := removed + Stale(found, rows);
    }
    if refused > 0 {
      return None;
    }
    RemovedStale(found, rows, names, prune);
    assert removed == Removed(found, rows, names, prune);
    StaleOnly(found, rows, removed);
    r := RewriteAllowlist(text, found, removed);
  }

  lemma {:induction false} StaleOnly(found: Found, rows: Rows, removed: set<Key>)
    requires removed <= Stale(found, rows)
    ensures Open(found) <= rows.Keys - removed <==> Open(found) <= rows.Keys
  {
  }

  // ----- What an edit leaves -----

  /** An edit takes out exactly the selected rows and keeps the rest as they
      were; every unprotected global still has its row. */
  lemma {:induction false} EditedRows(text: string, found: Found, names: seq<string>, prune: bool)
    requires NoReturn(text) && Edited(text, found, names, prune).Some?
    ensures var rows, out := RowsOf(SplitLines(text)), Edited(text, found, names, prune).value;
            && WellFormed(SplitLines(out))
            && RowsOf(SplitLines(out)) == rows - Removed(found, rows, names, prune)
            && Open(found) <= RowsOf(SplitLines(out)).Keys
            && KeepLines(out) == Kept(KeepLines(text), Removed(found, rows, names, prune))
  {
    var rows := RowsOf(SplitLines(text));
    RemovedStale(found, rows, names, prune);
    RewrittenRows(text, Removed(found, rows, names, prune));
  }

  /** After a prune the rows are exactly the unprotected globals. */
  lemma {:induction false} PrunedExact(text: string, found: Found, names: seq<string>)
    requires NoReturn(text) && Edited(text, found, names, true).Some?
    ensures RowsOf(SplitLines(Edited(text, found, names, true).value)).Keys == Open(found)
  {
    var rows := RowsOf(SplitLines(text));
    EditedRows(text, found, names, true);
    RemovedStale(found, rows, names, true);
  }

  lemma {:induction false} KeptNothing(ks: seq<string>)
    ensures Kept(ks, {}) == ks
  {
    if ks != [] {
      KeptNothing(ks[..|ks| - 1]);
      assert ks == ks[..|ks| - 1] + [ks[|ks| - 1]];
    }
  }

  /** A second prune changes nothing. */
  lemma {:induction false} PruneTwice(text: string, found: Found, names: seq<string>)
    requires NoReturn(text) && Edited(text, found, names, true).Some?
    ensures var out := Edited(text, found, names, true).value; Edited(out, found, [], true) == Some(out)
  {
    var out := Edited(text, found, names, true).value;
    var rows := RowsOf(SplitLines(out));
    EditedRows(text, found, names, true);
    PrunedExact(text, found, names);
    assert Removed(found, rows, [], true) == {};
    KeptNothing(KeepLines(out));
    KeepLinesConcat(out);
  }
}
