/** Every write a release or a create makes goes through the undo log
    (scripts/buildcheck_ext2_release_log.py): a worklist walk of one file's
    calls, cut at the functions allowed to write. */
module ReleaseLog {
  import opened CallGraph

  /** The names the check is about. */
  datatype Setup = Setup(
    file: string, blockLayer: string, fencedWrite: string, rawWrite: string, begin: string,
    roots: seq<string>, writers: seq<string>)

  const KERNEL := Setup(
    "kernel/fs/ext2/ext2.tkb", "kernel/drivers/block/memory.tkb", "ext2_block_write", "block_write", "ext2_undo_begin",
    ["ext2_truncate_regular_file_with", "ext2_unlink_name_with", "ext2_rename_over", "ext2_rmdir_release",
     "ext2_create_file_in_with", "ext2_create_empty_file_in_with", "ext2_make_directory_in_with", "ext2_rename_new"],
    ["ext2_undo_write", "ext2_undo_put_back", "ext2_release_commit", "ext2_walk_visit", "ext2_claimed_write",
     "ext2_create_commit"])

  type Rows = map<string, Row>

  function FileRows(table: seq<Row>, s: Setup): Rows {
    Table(table, InFile(s.file))
  }

  /** A call of a block write, fenced or raw. */
  predicate IsWrite(c: Call, s: Setup) {
    (c.name == s.fencedWrite && c.file == s.file) || (c.name == s.rawWrite && c.file == s.blockLayer)
  }

  predicate Writes(row: Row, s: Setup) {
    exists j | 0 <= j < |row.callees| :: IsWrite(row.callees[j], s)
  }

  predicate OpensLog(row: Row, s: Setup) {
    exists j | 0 <= j < |row.callees| :: row.callees[j].name == s.begin
  }

  /** The names of the first j calls that stay in the file, in order. */
  function Inside(calls: seq<Call>, j: nat, s: Setup): seq<string>
    requires j <= |calls|
  {
    if j == 0 then []
    else Inside(calls, j - 1, s) + if calls[j - 1].file == s.file then [calls[j - 1].name] else []
  }

  function CalledIn(row: Row, s: Setup): set<string> {
    Elements(Inside(row.callees, |row.callees|, s))
  }

  /** The calls of the file. */
  function AllEdges(rows: Rows, s: Setup): Edges {
    n => if n in rows then CalledIn(rows[n], s) else {}
  }

  /** The calls the walk follows: none from a function allowed to write. */
  function CutEdges(rows: Rows, s: Setup): Edges {
    n => if n in rows && n !in s.writers then CalledIn(rows[n], s) else {}
  }

  ghost predicate Reached(n: string, roots: seq<string>, e: Edges) {
    exists r :: r in roots && Leads(r, n, e)
  }

  /** A function the walk may reach without a report. */
  predicate Logged(n: string, rows: Rows, s: Setup) {
    n in s.writers || (n in rows && !Writes(rows[n], s) && (n in s.roots || !OpensLog(rows[n], s)))
  }

  predicate AllDefined(rows: Rows, q: seq<string>) {
    forall i | 0 <= i < |q| :: q[i] in rows
  }

  ghost predicate Clean(rows: Rows, s: Setup) {
    && AllDefined(rows, s.roots + s.writers)
    && (forall n | Reached(n, s.roots, CutEdges(rows, s)) :: Logged(n, rows, s))
    && (forall i | 0 <= i < |s.writers| :: Reached(s.writers[i], s.roots, CutEdges(rows, s)))
  }

  // ----- The walk -----

  datatype Problem =
    | Undefined(name: string)
    | DirectWrite(name: string)
    | OwnLog(name: string)
    | NeverReached(name: string)

  /** A missing row stops the script; otherwise its problems and how many functions it reached. */
  datatype Outcome = Missing(name: string) | Done(problems: seq<Problem>, reached: nat)

  /** A problem that is there. */
  ghost predicate IsTrue(p: Problem, rows: Rows, s: Setup) {
    match p
    case Undefined(n) => n in s.roots + s.writers && n !in rows
    case DirectWrite(n) => Reached(n, s.roots, CutEdges(rows, s)) && n !in s.writers && n in rows && Writes(rows[n], s)
    case OwnLog(n) =>
      Reached(n, s.roots, CutEdges(rows, s)) && n !in s.writers && n in rows && n !in s.roots && OpensLog(rows[n], s)
    case NeverReached(n) => n in s.writers && !Reached(n, s.roots, CutEdges(rows, s))
  }

  ghost predicate AllTrue(problems: seq<Problem>, rows: Rows, s: Setup) {
    forall k {:trigger problems[k]} | 0 <= k < |problems| :: IsTrue(problems[k], rows, s)
  }

  lemma {:induction false} MoreTrue(p: seq<Problem>, q: seq<Problem>, rows: Rows, s: Setup)
    requires AllTrue(p, rows, s) && AllTrue(q, rows, s)
    ensures AllTrue(p + q, rows, s)
  {
  }

  lemma {:induction false} AddTrue(p: seq<Problem>, q: Problem, rows: Rows, s: Setup)
    requires AllTrue(p, rows, s) && IsTrue(q, rows, s)
    ensures AllTrue(p + [q], rows, s)
  {
  }

  method FindUndefined(rows: Rows, s: Setup) returns (problems: seq<Problem>)
    ensures problems == [] <==> AllDefined(rows, s.roots + s.writers)
    ensures AllTrue(problems, rows, s)
    ensures forall p: Problem :: p in problems <==> p.Undefined? && p.name in s.roots + s.writers && p.name !in rows
  {
    problems := [];
    var q := s.roots + s.writers;
    for i := 0 to |q|
      invariant problems == [] <==> forall j | 0 <= j < i :: q[j] in rows
      invariant AllTrue(problems, rows, s)
      invariant forall p: Problem | p in problems :: p.Undefined? && p.name in q && p.name !in rows
      invariant forall j | 0 <= j < i && q[j] !in rows :: Undefined(q[j]) in problems
    {
      if q[i] !in rows {
        AddTrue(problems, Undefined(q[i]), rows, s);
        problems := problems + [Undefined(q[i])];
      }
    }
  }

  lemma {:induction false} RootReached(r: string, roots: seq<string>, e: Edges)
    requires r in roots
    ensures Reached(r, roots, e)
  {
    assert PathBetween([r], r, r, e);
  }

  lemma {:induction false} StepReached(n: string, c: string, roots: seq<string>, e: Edges)
    requires Reached(n, roots, e) && c in e(n)
    ensures Reached(c, roots, e)
  {
    var r :| r in roots && Leads(r, n, e);
    var p :| PathBetween(p, r, n, e);
    PathExtend(p, c, e);
    assert PathBetween(p + [c], r, c, e);
  }

  /** A set that holds the roots and is closed under the calls holds everything reached. */
  lemma {:induction false} ClosedHoldsReached(seen: set<string>, roots: seq<string>, e: Edges, n: string)
    requires (forall r | r in roots :: r in seen) && forall m | m in seen :: e(m) <= seen
    requires Reached(n, roots, e)
    ensures n in seen
  {
    var r :| r in roots && Leads(r, n, e);
    var p :| PathBetween(p, r, n, e);
    ClosedHoldsPath(seen, p, |p| - 1, e);
  }

  ghost predicate AllReached(q: set<string>, roots: seq<string>, e: Edges) {
    forall n | n in q :: Reached(n, roots, e)
  }

  lemma {:induction false} MoreReached(n: string, q: set<string>, roots: seq<string>, e: Edges)
    requires Reached(n, roots, e) && q <= e(n)
    ensures AllReached(q, roots, e)
  {
    forall c | c in q
      ensures Reached(c, roots, e)
    {
      StepReached(n, c, roots, e);
    }
  }

  /** The calls of what has been reached lead to what has been reached or waits. */
  ghost predicate Follows(seen: set<string>, todo: set<string>, e: Edges) {
    forall n | n in seen :: e(n) <= seen + todo
  }

  /** The state of the walk: nothing reached or waiting is spurious, nothing is lost. */
  ghost predicate Walking(seen: set<string>, todo: set<string>, roots: seq<string>, e: Edges, all: set<string>) {
    && AllReached(seen, roots, e) && AllReached(todo, roots, e)
    && Follows(seen, todo, e) && Elements(roots) <= seen + todo && seen + todo <= all
  }

  lemma {:induction false} WalkStarts(roots: seq<string>, e: Edges, all: set<string>)
    requires Elements(roots) <= all
    ensures Walking({}, Elements(roots), roots, e, all)
  {
    forall r | r in Elements(roots)
      ensures Reached(r, roots, e)
    {
      ElementsAre(roots, r);
      RootReached(r, roots, e);
    }
  }

  lemma {:induction false} WalkSkips(seen: set<string>, todo: set<string>, n: string, roots: seq<string>, e: Edges, all: set<string>)
    requires Walking(seen, todo + {n}, roots, e, all) && n in seen
    ensures Walking(seen, todo, roots, e, all)
  {
    assert seen + (todo + {n}) == seen + todo;
  }

  lemma {:induction false} WalkSteps(seen: set<string>, todo: set<string>, n: string, more: set<string>,
                                     roots: seq<string>, e: Edges, all: set<string>)
    requires Walking(seen, todo + {n}, roots, e, all) && more == e(n) <= all
    ensures Walking(seen + {n}, todo + more, roots, e, all)
  {
    MoreReached(n, more, roots, e);
    assert seen + (todo + {n}) <= (seen + {n}) + (todo + more);
  }

  lemma {:induction false} WalkEnds(seen: set<string>, roots: seq<string>, e: Edges, all: set<string>, n: string)
    requires Walking(seen, {}, roots, e, all)
    ensures n in seen <==> Reached(n, roots, e)
  {
    if Reached(n, roots, e) {
      forall r | r in roots
        ensures r in seen
      {
        ElementsAre(roots, r);
      }
      ClosedHoldsReached(seen, roots, e, n);
    }
  }

  lemma {:induction false} LogNext(seen: set<string>, n: string, rows: Rows, s: Setup)
    ensures AllLogged(seen + {n}, rows, s) <==> AllLogged(seen, rows, s) && Logged(n, rows, s)
  {
  }

  ghost predicate Reported(p: Problem, n: string, row: Row, s: Setup) {
    || (p == DirectWrite(n) && Writes(row, s))
    || (p == OwnLog(n) && n !in s.roots && OpensLog(row, s))
  }

  /** Everything reached that writes, or opens a log of its own, has been reported. */
  ghost predicate AllReported(reached: set<string>, problems: seq<Problem>, rows: Rows, s: Setup) {
    forall p: Problem, n | n in reached && n !in s.writers && n in rows && Reported(p, n, rows[n], s) :: p in problems
  }

  lemma {:induction false} ReportMore(reached: set<string>, problems: seq<Problem>, n: string, rows: Rows, s: Setup)
    requires AllReported(reached, problems, rows, s) && n in rows
    ensures AllReported(reached + {n}, problems + Report(n, rows[n], s), rows, s)
  {
  }

  /** What one reached function is reported for. */
  function Report(n: string, row: Row, s: Setup): (problems: seq<Problem>)
    ensures problems == [] <==> !Writes(row, s) && (n in s.roots || !OpensLog(row, s))
    ensures forall p: Problem :: p in problems <==> Reported(p, n, row, s)
  {
    (if Writes(row, s) then [DirectWrite(n)] else []) + if n !in s.roots && OpensLog(row, s) then [OwnLog(n)] else []
  }

  lemma {:induction false} ReportTrue(n: string, rows: Rows, s: Setup)
    requires n in rows && n !in s.writers && Reached(n, s.roots, CutEdges(rows, s))
    ensures AllTrue(Report(n, rows[n], s), rows, s)
  {
  }

  ghost function Universe(rows: Rows, s: Setup): set<string> {
    Elements(s.roots) + set n, c | n in rows && c in CalledIn(rows[n], s) :: c
  }

  ghost predicate AllLogged(q: set<string>, rows: Rows, s: Setup) {
    forall n | n in q :: Logged(n, rows, s)
  }

  lemma {:induction false} CutInUniverse(rows: Rows, s: Setup, n: string)
    ensures CutEdges(rows, s)(n) <= Universe(rows, s)
  {
  }

  /** The walk: the functions reached, or the first that has no row. */
  method Walk(rows: Rows, s: Setup) returns (reached: set<string>, problems: seq<Problem>, missing: bool, name: string)
    ensures !missing ==> IsReachedSet(reached, s.roots, CutEdges(rows, s))
    ensures !missing ==> (problems == [] <==> AllLogged(reached, rows, s)) && AllTrue(problems, rows, s)
    ensures !missing ==> AllReported(reached, problems, rows, s)
    ensures !missing ==> forall n | n in reached :: n in s.writers || n in rows
    ensures missing ==> Reached(name, s.roots, CutEdges(rows, s)) && name !in s.writers && name !in rows
  {
    ghost var e, all := CutEdges(rows, s), Universe(rows, s);
    reached, problems, missing, name := {}, [], false, "";
    var todo := s.roots;
    WalkStarts(s.roots, e, all);
    while todo != []
      invariant Walking(reached, Elements(todo), s.roots, e, all)
      invariant (problems == [] <==> AllLogged(reached, rows, s)) && AllTrue(problems, rows, s)
      invariant AllReported(reached, problems, rows, s)
      invariant forall n | n in reached :: n in s.writers || n in rows
      decreases all - reached, |todo|
    {
      name := todo[|todo| - 1];
      todo := todo[..|todo| - 1];
      if name in reached {
        WalkSkips(reached, Elements(todo), name, s.roots, e, all);
        continue;
      }
      LogNext(reached, name, rows, s);
      if name in rows {
        ReportMore(reached, problems, name, rows, s);
      }
      CutInUniverse(rows, s, name);
      WalkSteps(reached, Elements(todo), name, e(name), s.roots, e, all);
      reached := reached + {name};
      if name in s.writers {
        continue;
      }
      if name !in rows {
        missing := true;
        return;
      }
      ReportTrue(name, rows, s);
      MoreTrue(problems, Report(name, rows[name], s), rows, s);
      problems := problems + Report(name, rows[name], s);
      var inside := Inside(rows[name].callees, |rows[name].callees|, s);
      ElementsConcat(todo, inside);
      todo := todo + inside;
    }
    forall n
      ensures n in reached <==> Reached(n, s.roots, e)
    {
      WalkEnds(reached, s.roots, e, all, n);
    }
  }

  method FindNeverReached(reached: set<string>, ghost rows: Rows, s: Setup) returns (problems: seq<Problem>)
    requires IsReachedSet(reached, s.roots, CutEdges(rows, s))
    ensures problems == [] <==> forall i | 0 <= i < |s.writers| :: s.writers[i] in reached
    ensures AllTrue(problems, rows, s) && forall n | n in s.writers && n !in reached :: NeverReached(n) in problems
  {
    problems := [];
    for i := 0 to |s.writers|
      invariant forall j | 0 <= j < i && s.writers[j] !in reached :: NeverReached(s.writers[j]) in problems
      invariant problems == [] <==> forall j | 0 <= j < i :: s.writers[j] in reached
      invariant AllTrue(problems, rows, s)
    {
      if s.writers[i] !in reached {
        AddTrue(problems, NeverReached(s.writers[i]), rows, s);
        problems := problems + [NeverReached(s.writers[i])];
      }
    }
  }

  ghost predicate IsReachedSet(q: set<string>, roots: seq<string>, e: Edges) {
    forall n :: n in q <==> Reached(n, roots, e)
  }

  /** A function the walk reaches and cannot look up. */
  ghost predicate Stops(n: string, rows: Rows, s: Setup) {
    Reached(n, s.roots, CutEdges(rows, s)) && n !in s.writers && n !in rows
  }

  // ----- The problems, said of the table -----

  /** By name, the calls inside the file of the last row with each name, but
      none from a function allowed to write. */
  ghost function FollowedCalls(table: seq<Row>, s: Setup): Edges {
    n => set k, c | 0 <= k < |table| && n !in s.writers && LastOf(table, k, n, s.file) && c in table[k].callees && c.file == s.file :: c.name
  }

  ghost predicate RunsInto(n: string, table: seq<Row>, s: Setup) {
    exists r :: r in s.roots && Leads(r, n, FollowedCalls(table, s))
  }

  ghost predicate HasRow(n: string, table: seq<Row>, s: Setup) {
    exists row | row in table :: row.name == n && row.file == s.file
  }

  ghost predicate CallsWrite(row: Row, s: Setup) {
    || (exists c | c in row.callees :: c.name == s.fencedWrite && c.file == s.file)
    || (exists c | c in row.callees :: c.name == s.rawWrite && c.file == s.blockLayer)
  }

  ghost predicate CallsBegin(row: Row, s: Setup) {
    exists c | c in row.callees :: c.name == s.begin
  }

  /** A problem that is there, by the rows and the names of the check. */
  ghost predicate Fault(p: Problem, table: seq<Row>, s: Setup) {
    match p
    case Undefined(n) => (n in s.roots || n in s.writers) && !HasRow(n, table, s)
    case DirectWrite(n) =>
      && RunsInto(n, table, s) && n !in s.writers
      && exists k: nat :: LastOf(table, k, n, s.file) && CallsWrite(table[k], s)
    case OwnLog(n) =>
      && RunsInto(n, table, s) && n !in s.writers && n !in s.roots
      && exists k: nat :: LastOf(table, k, n, s.file) && CallsBegin(table[k], s)
    case NeverReached(n) => n in s.writers && !RunsInto(n, table, s)
  }

  lemma {:induction false} InsideAre(calls: seq<Call>, j: nat, s: Setup, n: string)
    requires j <= |calls|
    ensures n in Elements(Inside(calls, j, s)) <==> exists i | 0 <= i < j :: calls[i].file == s.file && calls[i].name == n
  {
    if j > 0 {
      InsideAre(calls, j - 1, s, n);
      InsideNext(calls, j, s, n);
    }
  }

  lemma {:induction false} InsideNext(calls: seq<Call>, j: nat, s: Setup, n: string)
    requires 0 < j <= |calls|
    ensures n in Elements(Inside(calls, j, s))
            <==> n in Elements(Inside(calls, j - 1, s)) || (calls[j - 1].file == s.file && calls[j - 1].name == n)
  {
    var more := if calls[j - 1].file == s.file then [calls[j - 1].name] else [];
    ElementsConcat(Inside(calls, j - 1, s), more);
    ElementsAre(more, n);
  }

  lemma {:induction false} FollowedCallIs(table: seq<Row>, s: Setup, n: string, d: string)
    ensures d in CutEdges(FileRows(table, s), s)(n) <==> d in FollowedCalls(table, s)(n)
  {
    LastRow(table, n, s.file);
    var rows := FileRows(table, s);
    if n in rows {
      var calls := rows[n].callees;
      InsideAre(calls, |calls|, s, d);
      if i :| 0 <= i < |calls| && calls[i].file == s.file && calls[i].name == d {
        assert calls[i] in calls;
      }
    }
  }

  lemma {:induction false} ReachedIff(n: string, table: seq<Row>, s: Setup)
    ensures Reached(n, s.roots, CutEdges(FileRows(table, s), s)) <==> RunsInto(n, table, s)
  {
    var e, f := CutEdges(FileRows(table, s), s), FollowedCalls(table, s);
    forall m
      ensures e(m) == f(m)
    {
      forall d
        ensures d in e(m) <==> d in f(m)
      {
        FollowedCallIs(table, s, m, d);
      }
    }
    forall r
      ensures Leads(r, n, e) <==> Leads(r, n, f)
    {
      SameEdges(r, n, e, f);
    }
  }

  lemma {:induction false} HasRowIff(n: string, table: seq<Row>, s: Setup)
    ensures n in FileRows(table, s) <==> HasRow(n, table, s)
  {
    if row :| row in table && row.name == n && row.file == s.file {
      var i: nat :| i < |table| && table[i] == row;
      TableHas(table, InFile(s.file), i);
    }
  }

  lemma {:induction false} TrueIff(p: Problem, table: seq<Row>, s: Setup)
    ensures IsTrue(p, FileRows(table, s), s) <==> Fault(p, table, s)
  {
    ReachedIff(p.name, table, s);
    HasRowIff(p.name, table, s);
    LastRow(table, p.name, s.file);
    assert p.name in s.roots + s.writers <==> p.name in s.roots || p.name in s.writers;
  }

  /** Every problem that is there is reported, and no other; a function named
      by the check that has no row hides the rest. */
  method ProblemsIn(table: seq<Row>, s: Setup) returns (outcome: Outcome)
    ensures outcome.Done? && outcome.problems == [] <==> Clean(FileRows(table, s), s)
    ensures outcome.Done? ==>
              forall p: Problem :: p in outcome.problems <==>
                Fault(p, table, s) && (p.Undefined? || AllDefined(FileRows(table, s), s.roots + s.writers))
    ensures outcome.Missing? ==> Stops(outcome.name, FileRows(table, s), s)
    ensures outcome.Done? && AllDefined(FileRows(table, s), s.roots + s.writers)
            ==> (forall n :: !Stops(n, FileRows(table, s), s))
                && exists q :: IsReachedSet(q, s.roots, CutEdges(FileRows(table, s), s)) && outcome.reached == |q|
  {
    var rows := FileRows(table, s);
    var undefined := FindUndefined(rows, s);
    if undefined != [] {
      forall p: Problem
        ensures p in undefined <==> Fault(p, table, s) && p.Undefined?
      {
        TrueIff(p, table, s);
      }
      return Done(undefined, 0);
    }
    var reached, problems, missing, name := Walk(rows, s);
    if missing {
      assert !Logged(name, rows, s);
      return Missing(name);
    }
    var never := FindNeverReached(reached, rows, s);
    MoreTrue(problems, never, rows, s);
    forall p: Problem
      ensures p in problems + never <==> Fault(p, table, s)
    {
      TrueIff(p, table, s);
      AllListed(p, reached, problems, never, rows, s);
    }
    outcome := Done(problems + never, |reached|);
  }

  lemma {:induction false} AllListed(p: Problem, reached: set<string>, problems: seq<Problem>, never: seq<Problem>, rows: Rows, s: Setup)
    requires IsReachedSet(reached, s.roots, CutEdges(rows, s)) && AllDefined(rows, s.roots + s.writers)
    requires AllTrue(problems, rows, s) && AllTrue(never, rows, s) && AllReported(reached, problems, rows, s)
    requires forall n | n in s.writers && n !in reached :: NeverReached(n) in never
    ensures p in problems + never <==> IsTrue(p, rows, s)
  {
    if IsTrue(p, rows, s) && (p.DirectWrite? || p.OwnLog?) {
      assert Reported(p, p.name, rows[p.name], s);
    }
  }

  // ----- What a clean verdict means -----

  /** After a clean verdict every chain of the file's calls from a release or a
      create to a function that writes blocks itself, or opens an undo log of
      its own, goes through a function allowed to write. */
  lemma {:induction false} CleanMeansLogged(rows: Rows, s: Setup, p: seq<string>)
    requires Clean(rows, s) && IsPath(p, AllEdges(rows, s)) && p[0] in s.roots
    requires p[|p| - 1] in rows
    requires Writes(rows[p[|p| - 1]], s) || (p[|p| - 1] !in s.roots && OpensLog(rows[p[|p| - 1]], s))
    ensures exists i :: 0 <= i < |p| && p[i] in s.writers
  {
    if forall i | 0 <= i < |p| :: p[i] !in s.writers {
      UncutReached(rows, s, p);
    }
  }

  /** A path without writers is followed to its end. */
  lemma {:induction false} UncutReached(rows: Rows, s: Setup, p: seq<string>)
    requires IsPath(p, AllEdges(rows, s)) && p[0] in s.roots && forall i | 0 <= i < |p| :: p[i] !in s.writers
    ensures Reached(p[|p| - 1], s.roots, CutEdges(rows, s))
  {
    var e := CutEdges(rows, s);
    assert IsPath(p, e);
    assert PathBetween(p, p[0], p[|p| - 1], e);
  }
}
