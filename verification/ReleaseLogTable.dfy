/** What a clean verdict of the undo log check says about the call graph table
    itself, and exactly for which tables it is right. */
module ReleaseLogTable {
  import opened CallGraph
  import opened TableGraph
  import opened ReleaseLog

  /** The calls of the file. */
  ghost function Links(table: seq<Row>, s: Setup): Call -> set<Call> {
    Down(table, CallInto(s.file))
  }

  /** A function that writes blocks itself, or opens an undo log of its own. */
  predicate Breaks(row: Row, s: Setup) {
    Writes(row, s) || (row.name !in s.roots && OpensLog(row, s))
  }

  /** A chain of the file's calls from a release or a create to such a
      function that passes no function allowed to write. */
  ghost predicate Escapes(table: seq<Row>, s: Setup, p: seq<Call>) {
    && IsPath(p, Links(table, s)) && p[0].file == s.file && p[0].name in s.roots
    && (exists k :: 0 <= k < |table| && Id(table[k]) == p[|p| - 1] && Breaks(table[k], s))
    && forall i | 0 <= i < |p| :: p[i].name !in s.writers
  }

  ghost predicate AllLoggedIn(table: seq<Row>, s: Setup) {
    forall p :: !Escapes(table, s, p)
  }

  /** Names that rows of the file may share. */
  predicate MayRepeat(n: string, s: Setup) {
    n in s.writers || n == s.fencedWrite
  }

  /** No two rows of the file share a name, but for those allowed to write and
      the block write itself. */
  ghost predicate NamesTell(ids: seq<Call>, s: Setup) {
    forall i: nat, j: nat :: !Repeats(ids, s, i, j)
  }

  /** Two rows of the file share another name. */
  ghost predicate Repeats(ids: seq<Call>, s: Setup, i: nat, j: nat) {
    i < j < |ids| && ids[i].file == s.file == ids[j].file && ids[i].name == ids[j].name && !MayRepeat(ids[i].name, s)
  }

  lemma {:induction false} OnlyRow(table: seq<Row>, s: Setup, k: nat)
    requires NamesTell(IdsOf(table), s) && k < |table| && table[k].file == s.file && !MayRepeat(table[k].name, s)
    ensures table[k].name in FileRows(table, s) && FileRows(table, s)[table[k].name] == table[k]
  {
    var ids := IdsOf(table);
    forall i | k < i < |table| && InFile(s.file)(table[i])
      ensures table[i].name != table[k].name
    {
      assert ids[i] == Id(table[i]) && ids[k] == Id(table[k]) && !Repeats(ids, s, k, i);
    }
    LastWins(table, InFile(s.file), k);
  }

  lemma {:induction false} InsideHas(calls: seq<Call>, j: nat, i: nat, s: Setup)
    requires i < j <= |calls| && calls[i].file == s.file
    ensures calls[i].name in Elements(Inside(calls, j, s))
  {
    var more := if calls[j - 1].file == s.file then [calls[j - 1].name] else [];
    ElementsConcat(Inside(calls, j - 1, s), more);
    if i < j - 1 {
      InsideHas(calls, j - 1, i, s);
    } else {
      assert Elements([calls[i].name]) == {calls[i].name};
    }
  }

  lemma {:induction false} InsideIs(calls: seq<Call>, j: nat, s: Setup, n: string) returns (i: nat)
    requires j <= |calls| && n in Elements(Inside(calls, j, s))
    ensures i < j && calls[i].file == s.file && calls[i].name == n
  {
    var more := if calls[j - 1].file == s.file then [calls[j - 1].name] else [];
    ElementsConcat(Inside(calls, j - 1, s), more);
    if n in Elements(Inside(calls, j - 1, s)) {
      i := InsideIs(calls, j - 1, s, n);
    } else {
      i := j - 1;
    }
  }

  /** A call from a row that its name stands for is a call by name. */
  lemma {:induction false} StepByName(table: seq<Row>, s: Setup, c: Call, d: Call)
    requires NamesTell(IdsOf(table), s) && c.file == s.file && !MayRepeat(c.name, s) && d in Links(table, s)(c)
    ensures c.name in FileRows(table, s) && d.file == s.file
    ensures d.name in CutEdges(FileRows(table, s), s)(c.name)
    ensures d.name == s.fencedWrite ==> Writes(FileRows(table, s)[c.name], s)
  {
    var k := DownRow(table, CallInto(s.file), c, d);
    OnlyRow(table, s, k);
    var i :| 0 <= i < |table[k].callees| && table[k].callees[i] == d;
    InsideHas(table[k].callees, |table[k].callees|, i, s);
    if d.name == s.fencedWrite {
      assert IsWrite(table[k].callees[i], s);
    }
  }

  /** Along a chain without writers every function is reached by name, and none is the block write. */
  lemma {:induction false} ChainReached(table: seq<Row>, s: Setup, p: seq<Call>, n: nat)
    requires Apart(s) && NamesTell(IdsOf(table), s) && Clean(FileRows(table, s), s)
    requires IsPath(p, Links(table, s)) && p[0].file == s.file && p[0].name in s.roots && n < |p|
    requires forall i | 0 <= i < |p| :: p[i].name !in s.writers
    ensures p[n].file == s.file && p[n].name != s.fencedWrite
    ensures Reached(p[n].name, s.roots, CutEdges(FileRows(table, s), s))
  {
    var rows, e := FileRows(table, s), CutEdges(FileRows(table, s), s);
    if n == 0 {
      RootReached(p[0].name, s.roots, e);
    } else {
      ChainReached(table, s, p, n - 1);
      assert p[n - 1 + 1] in Links(table, s)(p[n - 1]);
      StepByName(table, s, p[n - 1], p[n]);
      StepReached(p[n - 1].name, p[n].name, s.roots, e);
      assert Logged(p[n - 1].name, rows, s);
    }
  }

  /** Where names tell the rows apart, a clean verdict is about the table:
      every chain of the file's calls from a release or a create to a function
      that writes blocks itself, or opens a log of its own, passes a function
      allowed to write. */
  lemma {:induction false} CleanMeansLoggedIn(table: seq<Row>, s: Setup)
    requires Apart(s) && NamesTell(IdsOf(table), s) && Clean(FileRows(table, s), s)
    ensures AllLoggedIn(table, s)
  {
    forall p: seq<Call> | Escapes(table, s, p)
      ensures false
    {
      var n := |p| - 1;
      ChainReached(table, s, p, n);
      var k :| 0 <= k < |table| && Id(table[k]) == p[n] && Breaks(table[k], s);
      OnlyRow(table, s, k);
    }
  }

  // ----- And only there -----

  /** The names of the check are kept apart. */
  ghost predicate Apart(s: Setup) {
    && s.roots != [] && s.blockLayer != s.file
    && s.fencedWrite !in s.roots && s.fencedWrite !in s.writers
    && forall n | n in s.roots :: n !in s.writers
  }

  ghost predicate DefinedIn(ids: seq<Call>, n: string, file: string) {
    exists k :: 0 <= k < |ids| && ids[k].name == n && ids[k].file == file
  }

  /** Every function the check names has a row in the file. */
  ghost predicate Defined(ids: seq<Call>, s: Setup) {
    && (forall n | n in s.roots :: DefinedIn(ids, n, s.file))
    && (forall n | n in s.writers :: DefinedIn(ids, n, s.file))
    && DefinedIn(ids, s.fencedWrite, s.file)
  }

  /** Where the planted calls stand: a root that calls every writer and the
      row `bad`, and `bad`, which calls the block write. The row `later` has
      the name of `bad`. */
  datatype Planting = Planting(root: nat, writers: seq<nat>, bad: nat, later: nat, block: nat)

  function PlanOf(g: Planting): Plan {
    (k: nat) => if k == g.bad then [g.block] else if k == g.root then g.writers + [g.bad] else []
  }

  ghost predicate WritersAt(ids: seq<Call>, s: Setup, q: seq<nat>, n: nat)
    requires n <= |s.writers|
  {
    |q| == n && forall i | 0 <= i < n :: q[i] < |ids| && ids[q[i]].name == s.writers[i] && ids[q[i]].file == s.file
  }

  ghost predicate LastIn(ids: seq<Call>, k: nat, n: string, file: string) {
    && k < |ids| && ids[k].name == n && ids[k].file == file
    && forall i | k < i < |ids| && ids[i].file == file :: ids[i].name != n
  }

  ghost predicate Placed(ids: seq<Call>, s: Setup, g: Planting) {
    && s.roots != [] && LastIn(ids, g.root, s.roots[0], s.file) && WritersAt(ids, s, g.writers, |s.writers|)
    && Repeats(ids, s, g.bad, g.later)
    && g.block < |ids| && ids[g.block].name == s.fencedWrite && ids[g.block].file == s.file
  }

  lemma {:induction false} FindWriters(ids: seq<Call>, s: Setup, n: nat) returns (q: seq<nat>)
    requires Defined(ids, s) && n <= |s.writers|
    ensures WritersAt(ids, s, q, n)
  {
    if n == 0 {
      q := [];
    } else {
      var front := FindWriters(ids, s, n - 1);
      assert DefinedIn(ids, s.writers[n - 1], s.file);
      var k: nat :| k < |ids| && ids[k].name == s.writers[n - 1] && ids[k].file == s.file;
      q := front + [k];
    }
  }

  lemma {:induction false} FindLast(ids: seq<Call>, k: nat) returns (m: nat)
    requires k < |ids|
    ensures LastIn(ids, m, ids[k].name, ids[k].file)
    decreases |ids| - k
  {
    if i: nat :| k < i < |ids| && ids[i].file == ids[k].file && ids[i].name == ids[k].name {
      m := FindLast(ids, i);
    } else {
      m := k;
    }
  }

  lemma {:induction false} FindPlanting(ids: seq<Call>, s: Setup, i: nat, j: nat) returns (g: Planting)
    requires Apart(s) && Defined(ids, s) && Repeats(ids, s, i, j)
    ensures Placed(ids, s, g) && g.bad == i
  {
    var writers := FindWriters(ids, s, |s.writers|);
    assert s.roots[0] in s.roots;
    var k: nat :| k < |ids| && ids[k].name == s.roots[0] && ids[k].file == s.file;
    var root := FindLast(ids, k);
    var block: nat :| block < |ids| && ids[block].name == s.fencedWrite && ids[block].file == s.file;
    g := Planting(root, writers, i, j, block);
  }

  lemma {:induction false} PlanFits(ids: seq<Call>, s: Setup, g: Planting)
    requires Placed(ids, s, g)
    ensures Fits(ids, PlanOf(g)) && g.root != g.bad
  {
    assert LastIn(ids, g.root, s.roots[0], s.file);
    forall k: nat
      ensures AllBelow(PlanOf(g)(k), |ids|)
    {
    }
  }

  ghost predicate CallsName(calls: seq<Call>, n: string) {
    exists j :: 0 <= j < |calls| && calls[j].name == n
  }

  /** By name the root calls as planted and nothing else calls anything. */
  ghost predicate ByName(rows: Rows, s: Setup, calls: seq<Call>, x: string) {
    && s.roots != [] && AllDefined(rows, s.roots + s.writers) && x in rows
    && (forall n | n in rows :: rows[n].callees == if n == s.roots[0] then calls else [])
    && (forall j | 0 <= j < |calls| :: calls[j].file == s.file && (calls[j].name in s.writers || calls[j].name == x))
    && (forall i | 0 <= i < |s.writers| :: CallsName(calls, s.writers[i]))
  }

  lemma {:induction false} RowByName(ids: seq<Call>, s: Setup, g: Planting, n: string)
    requires Placed(ids, s, g) && Fits(ids, PlanOf(g)) && n in FileRows(Build(ids, PlanOf(g)), s)
    ensures FileRows(Build(ids, PlanOf(g)), s)[n].callees
            == if n == s.roots[0] then Calls(ids, PlanOf(g)(g.root)) else []
  {
    var table := Build(ids, PlanOf(g));
    var k := NameHasLast(table, InFile(s.file), n);
    assert Id(table[k]) == ids[k] && Id(table[g.later]) == ids[g.later] && Id(table[g.root]) == ids[g.root];
    assert k != g.bad;
    assert n == s.roots[0] <==> k == g.root;
  }

  lemma {:induction false} NameHasRow(ids: seq<Call>, s: Setup, plan: Plan, n: string)
    requires Fits(ids, plan) && DefinedIn(ids, n, s.file)
    ensures n in FileRows(Build(ids, plan), s)
  {
    var table := Build(ids, plan);
    var k :| 0 <= k < |ids| && ids[k].name == n && ids[k].file == s.file;
    assert Id(table[k]) == ids[k];
    TableHas(table, InFile(s.file), k);
  }

  lemma {:induction false} RootCalls(ids: seq<Call>, s: Setup, g: Planting) returns (calls: seq<Call>)
    requires Placed(ids, s, g) && Fits(ids, PlanOf(g)) && g.root != g.bad
    ensures calls == Calls(ids, PlanOf(g)(g.root))
    ensures forall j | 0 <= j < |calls| :: calls[j].file == s.file && (calls[j].name in s.writers || calls[j].name == ids[g.bad].name)
    ensures forall i | 0 <= i < |s.writers| :: CallsName(calls, s.writers[i])
  {
    var q := g.writers + [g.bad];
    calls := Calls(ids, q);
    assert PlanOf(g)(g.root) == q;
    forall j | 0 <= j < |calls|
      ensures calls[j].file == s.file && (calls[j].name in s.writers || calls[j].name == ids[g.bad].name)
    {
      assert calls[j] == ids[q[j]] && q[j] == if j < |g.writers| then g.writers[j] else g.bad;
    }
    forall i | 0 <= i < |s.writers|
      ensures CallsName(calls, s.writers[i])
    {
      assert calls[i] == ids[q[i]] && q[i] == g.writers[i];
      assert calls[i].name == s.writers[i];
    }
  }

  lemma {:induction false} PlantedByName(ids: seq<Call>, s: Setup, g: Planting) returns (calls: seq<Call>)
    requires Apart(s) && Defined(ids, s) && Placed(ids, s, g) && Fits(ids, PlanOf(g)) && g.root != g.bad
    ensures ByName(FileRows(Build(ids, PlanOf(g)), s), s, calls, ids[g.bad].name)
  {
    var rows := FileRows(Build(ids, PlanOf(g)), s);
    calls := RootCalls(ids, s, g);
    var named := s.roots + s.writers;
    forall i | 0 <= i < |named|
      ensures named[i] in rows
    {
      assert named[i] in s.roots || named[i] in s.writers;
      NameHasRow(ids, s, PlanOf(g), named[i]);
    }
    assert DefinedIn(ids, ids[g.bad].name, s.file);
    NameHasRow(ids, s, PlanOf(g), ids[g.bad].name);
    forall n | n in rows
      ensures rows[n].callees == if n == s.roots[0] then calls else []
    {
      RowByName(ids, s, g, n);
    }
  }

  lemma {:induction false} ByNameEdges(rows: Rows, s: Setup, calls: seq<Call>, x: string, n: string, d: string)
    requires ByName(rows, s, calls, x) && d in CutEdges(rows, s)(n)
    ensures d in s.writers || d == x
  {
    var i := InsideIs(rows[n].callees, |rows[n].callees|, s, d);
  }

  lemma {:induction false} ByNameLogged(rows: Rows, s: Setup, calls: seq<Call>, x: string, n: string)
    requires Apart(s) && ByName(rows, s, calls, x) && x != s.fencedWrite && (n in s.roots + s.writers || n == x)
    ensures Logged(n, rows, s)
  {
    if n !in s.writers {
      assert n in rows;
      assert forall j | 0 <= j < |calls| :: !IsWrite(calls[j], s);
      assert s.roots[0] in s.roots;
    }
  }

  lemma {:induction false} ByNameReached(rows: Rows, s: Setup, calls: seq<Call>, x: string, i: nat)
    requires Apart(s) && ByName(rows, s, calls, x) && i < |s.writers|
    ensures Reached(s.writers[i], s.roots, CutEdges(rows, s))
  {
    var r := s.roots[0];
    assert r in s.roots && (s.roots + s.writers)[0] == r;
    var j :| 0 <= j < |calls| && calls[j].name == s.writers[i];
    InsideHas(calls, |calls|, j, s);
    RootReached(r, s.roots, CutEdges(rows, s));
    StepReached(r, s.writers[i], s.roots, CutEdges(rows, s));
  }

  lemma {:induction false} ByNameSeen(rows: Rows, s: Setup, calls: seq<Call>, x: string, n: string)
    requires ByName(rows, s, calls, x) && Reached(n, s.roots, CutEdges(rows, s))
    ensures n in s.roots + s.writers || n == x
  {
    var named, e := s.roots + s.writers, CutEdges(rows, s);
    var seen := Elements(named) + {x};
    forall m | m in s.roots
      ensures m in seen
    {
      assert m in named;
      ElementsAre(named, m);
    }
    forall m, d | m in seen && d in e(m)
      ensures d in seen
    {
      ByNameEdges(rows, s, calls, x, m, d);
      ElementsAre(named, d);
    }
    ClosedHoldsReached(seen, s.roots, e, n);
    ElementsAre(named, n);
  }

  lemma {:induction false} ByNameClean(rows: Rows, s: Setup, calls: seq<Call>, x: string)
    requires Apart(s) && ByName(rows, s, calls, x) && x != s.fencedWrite
    ensures Clean(rows, s)
  {
    forall n | Reached(n, s.roots, CutEdges(rows, s))
      ensures Logged(n, rows, s)
    {
      ByNameSeen(rows, s, calls, x, n);
      ByNameLogged(rows, s, calls, x, n);
    }
    forall i | 0 <= i < |s.writers|
      ensures Reached(s.writers[i], s.roots, CutEdges(rows, s))
    {
      ByNameReached(rows, s, calls, x, i);
    }
  }

  lemma {:induction false} BadBreaks(ids: seq<Call>, s: Setup, g: Planting)
    requires Placed(ids, s, g) && Fits(ids, PlanOf(g))
    ensures Breaks(Build(ids, PlanOf(g))[g.bad], s)
  {
    var row := Build(ids, PlanOf(g))[g.bad];
    assert row.callees[0] == ids[g.block];
    assert IsWrite(row.callees[0], s);
  }

  /** The root calls the earlier row, and that row writes. */
  lemma {:induction false} PlantedEscapes(ids: seq<Call>, s: Setup, g: Planting)
    requires Apart(s) && Placed(ids, s, g) && Fits(ids, PlanOf(g)) && g.root != g.bad
    ensures Escapes(Build(ids, PlanOf(g)), s, [ids[g.root], ids[g.bad]])
  {
    var table := Build(ids, PlanOf(g));
    assert PlanOf(g)(g.root)[|g.writers|] == g.bad;
    BuildDown(ids, PlanOf(g), CallInto(s.file), g.root, g.bad);
    Path2(ids[g.root], ids[g.bad], Links(table, s));
    BadBreaks(ids, s, g);
    assert Id(table[g.bad]) == ids[g.bad];
    assert s.roots[0] in s.roots;
  }

  /** Two rows of the file share a name: a table of these rows is clean, and a
      release reaches a block write past every writer. */
  lemma {:induction false} OverloadEscapes(ids: seq<Call>, s: Setup, i: nat, j: nat) returns (table: seq<Row>)
    requires Apart(s) && Defined(ids, s) && Repeats(ids, s, i, j)
    ensures IdsOf(table) == ids && WellFormed(table) && Clean(FileRows(table, s), s) && !AllLoggedIn(table, s)
  {
    var g := FindPlanting(ids, s, i, j);
    PlanFits(ids, s, g);
    table := Build(ids, PlanOf(g));
    BuildIds(ids, PlanOf(g));
    BuildWellFormed(ids, PlanOf(g));
    var calls := PlantedByName(ids, s, g);
    ByNameClean(FileRows(table, s), s, calls, ids[i].name);
    PlantedEscapes(ids, s, g);
  }

  /** A clean verdict is right about every table with these rows. */
  ghost predicate RightAbout(ids: seq<Call>, s: Setup) {
    forall table | IdsOf(table) == ids && WellFormed(table) && Clean(FileRows(table, s), s) :: AllLoggedIn(table, s)
  }

  /** For given rows the verdict is right, whatever they call, exactly when
      names tell the rows of the file apart. */
  lemma {:induction false} RightIff(ids: seq<Call>, s: Setup)
    requires Apart(s) && Defined(ids, s)
    ensures RightAbout(ids, s) <==> NamesTell(ids, s)
  {
    if NamesTell(ids, s) {
      forall table | IdsOf(table) == ids && WellFormed(table) && Clean(FileRows(table, s), s)
        ensures AllLoggedIn(table, s)
      {
        CleanMeansLoggedIn(table, s);
      }
    } else {
      var i: nat, j: nat :| Repeats(ids, s, i, j);
      var table := OverloadEscapes(ids, s, i, j);
    }
  }

  /** An input: the rows the check names and two rows of one more name. */
  lemma {:induction false} OverloadInput(s: Setup, x: string) returns (table: seq<Row>)
    requires Apart(s) && !MayRepeat(x, s)
    ensures IdsOf(table) == Listing(s.roots + s.writers + [s.fencedWrite, x, x], s.file)
    ensures WellFormed(table) && Clean(FileRows(table, s), s) && !AllLoggedIn(table, s)
  {
    var named := s.roots + s.writers;
    var names := named + [s.fencedWrite, x, x];
    var ids, n := Listing(names, s.file), |named|;
    assert names[n] == s.fencedWrite && names[n + 1] == x == names[n + 2];
    forall m | m in named
      ensures DefinedIn(ids, m, s.file)
    {
      var i :| 0 <= i < |named| && named[i] == m;
      assert ids[i] == Call(names[i], s.file, i) && names[i] == m;
    }
    assert ids[n] == Call(names[n], s.file, n);
    table := OverloadEscapes(ids, s, n + 1, n + 2);
  }

  /** The length of a name, and its first letter after `ext2_`. */
  function Mark(n: string): (nat, char) {
    (|n|, if |n| > 5 then n[5] else ' ')
  }

  lemma {:induction false} KernelRoots(n: string)
    requires n in KERNEL.roots
    ensures Mark(n) in [(31, 't'), (21, 'u'), (16, 'r'), (18, 'r'), (24, 'c'), (30, 'c'), (27, 'm'), (15, 'r')]
  {
  }

  lemma {:induction false} KernelWriters(n: string)
    requires n in KERNEL.writers
    ensures Mark(n) in [(15, 'u'), (18, 'u'), (19, 'r'), (15, 'w'), (18, 'c')]
  {
  }

  /** The kernel's own names are kept apart. */
  lemma {:induction false} KernelApart()
    ensures Apart(KERNEL)
  {
    assert |KERNEL.blockLayer| != |KERNEL.file| && Mark(KERNEL.fencedWrite) == (16, 'b');
    forall n | n in KERNEL.roots
      ensures n !in KERNEL.writers && n != KERNEL.fencedWrite
    {
      KernelRoots(n);
      if n in KERNEL.writers {
        KernelWriters(n);
      }
    }
    if KERNEL.fencedWrite in KERNEL.writers {
      KernelWriters(KERNEL.fencedWrite);
    }
  }
}
