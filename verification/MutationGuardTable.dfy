/** What a clean verdict of the mutation guard check says about the call graph
    table itself, and exactly for which tables it is right. */
module MutationGuardTable {
  import opened CallGraph
  import opened TableGraph
  import opened MutationGuard

  /** The calls of the file that defines the mutators. */
  ghost function Links(table: seq<Row>, s: Setup): Call -> set<Call> {
    Down(table, CallInto(s.mutatorFile))
  }

  /** A chain of those calls from a call to the block write. */
  ghost predicate ChainToWrite(table: seq<Row>, s: Setup, c: Call, p: seq<Call>) {
    IsPath(p, Links(table, s)) && p[0] == c && p[|p| - 1].name == s.blockWrite
  }

  ghost predicate WritesBlocks(table: seq<Row>, s: Setup, c: Call) {
    exists p :: ChainToWrite(table, s, c, p)
  }

  /** A function outside calls into the file, reaches a block write there, and
      neither takes the guard nor is in a file allowed not to. */
  ghost predicate Unexcluded(table: seq<Row>, s: Setup, i: nat, c: Call) {
    && i < |table| && Outside(table[i], s) && c in table[i].callees && Inside(c, s) && WritesBlocks(table, s, c)
    && !TakesGuard(table[i], s) && table[i].file !in s.allowed
  }

  ghost predicate AllExcluded(table: seq<Row>, s: Setup) {
    forall i: nat, c :: !Unexcluded(table, s, i, c)
  }

  // ----- When names tell the rows apart -----

  /** Two rows of the file share a name other than the block write's. */
  ghost predicate Repeats(ids: seq<Call>, s: Setup, i: nat, j: nat) {
    && i < j < |ids| && ids[i].file == s.mutatorFile == ids[j].file && ids[i].name == ids[j].name
    && ids[i].name != s.blockWrite
  }

  ghost predicate NoRepeats(ids: seq<Call>, s: Setup) {
    forall i: nat, j: nat :: !Repeats(ids, s, i, j)
  }

  /** A function outside that must take the guard to mutate. */
  ghost predicate IsBound(c: Call, s: Setup) {
    c.file != s.mutatorFile && c.file != s.lockFile && c.file !in s.allowed
  }

  /** A function of the file that the list leaves out. */
  ghost predicate IsUnlisted(c: Call, s: Setup) {
    c.file == s.mutatorFile && c.name !in s.mutators && c.name != s.blockWrite
  }

  /** No two rows of the file share a name; or they cannot matter, because
      every function of the file is listed or every function outside is free. */
  ghost predicate NamesTell(ids: seq<Call>, s: Setup) {
    || NoRepeats(ids, s)
    || (forall k | 0 <= k < |ids| :: !IsBound(ids[k], s))
    || (forall k | 0 <= k < |ids| :: !IsUnlisted(ids[k], s))
  }

  lemma {:induction false} OnlyRow(table: seq<Row>, s: Setup, k: nat)
    requires NoRepeats(IdsOf(table), s) && k < |table| && table[k].file == s.mutatorFile && table[k].name != s.blockWrite
    ensures var t := Table(table, InFile(s.mutatorFile)); table[k].name in t && t[table[k].name] == table[k]
  {
    var ids := IdsOf(table);
    forall i | k < i < |table| && InFile(s.mutatorFile)(table[i])
      ensures table[i].name != table[k].name
    {
      assert ids[i] == Id(table[i]) && ids[k] == Id(table[k]) && !Repeats(ids, s, k, i);
    }
    LastWins(table, InFile(s.mutatorFile), k);
  }

  lemma {:induction false} InsideHas(calls: seq<Call>, j: nat, i: nat, s: Setup)
    requires i < j <= |calls| && Inside(calls[i], s)
    ensures calls[i].name in InsideNames(calls, j, s)
  {
    if i < j - 1 {
      InsideHas(calls, j - 1, i, s);
    }
  }

  lemma {:induction false} InsideIs(calls: seq<Call>, j: nat, s: Setup, n: string) returns (i: nat)
    requires j <= |calls| && n in InsideNames(calls, j, s)
    ensures i < j && Inside(calls[i], s) && calls[i].name == n
  {
    if n in InsideNames(calls, j - 1, s) {
      i := InsideIs(calls, j - 1, s, n);
    } else {
      i := j - 1;
    }
  }

  /** A chain in the table is a chain by name. */
  lemma {:induction false} ChainByName(table: seq<Row>, s: Setup, c: Call, p: seq<Call>)
    requires NoRepeats(IdsOf(table), s) && Inside(c, s) && ChainToWrite(table, s, c, p)
    ensures Leads(c.name, s.blockWrite, EdgesOf(CalleesOf(table, s)))
    decreases |p|
  {
    var e := EdgesOf(CalleesOf(table, s));
    if c.name == s.blockWrite {
      LeadsItself(c.name, e);
    } else {
      PathTail(p, Links(table, s));
      var k := DownRow(table, CallInto(s.mutatorFile), c, p[1]);
      OnlyRow(table, s, k);
      var i :| 0 <= i < |table[k].callees| && table[k].callees[i] == p[1];
      InsideHas(table[k].callees, |table[k].callees|, i, s);
      ChainByName(table, s, p[1], p[1..]);
      LeadsPrepend(c.name, p[1].name, s.blockWrite, e);
    }
  }

  lemma {:induction false} LinkOf(table: seq<Row>, s: Setup, k: nat, i: nat)
    requires k < |table| && i < |table[k].callees| && Inside(table[k].callees[i], s)
    ensures table[k].callees[i] in Links(table, s)(Id(table[k]))
  {
    DownHas(table, CallInto(s.mutatorFile), k, i);
  }

  lemma {:induction false} CalleeRow(table: seq<Row>, k: nat, i: nat) returns (m: nat)
    requires WellFormed(table) && k < |table| && i < |table[k].callees| && table[k].callees[i].file != "-"
    ensures m < |table| && Id(table[m]) == table[k].callees[i]
  {
    assert Resolved(table, table[k].callees) && HasRow(table, table[k].callees[i]);
    m :| m < |table| && Id(table[m]) == table[k].callees[i];
  }

  /** A call by name is a call of the row the name stands for. */
  lemma {:induction false} CallOfName(table: seq<Row>, s: Setup, k: nat, n: string) returns (m: nat)
    requires NoRepeats(IdsOf(table), s) && WellFormed(table) && s.mutatorFile != "-"
    requires k < |table| && table[k].file == s.mutatorFile && table[k].name != s.blockWrite
    requires n in EdgesOf(CalleesOf(table, s))(table[k].name)
    ensures m < |table| && table[m].file == s.mutatorFile && table[m].name == n
    ensures Id(table[m]) in Links(table, s)(Id(table[k]))
  {
    OnlyRow(table, s, k);
    var i := InsideIs(table[k].callees, |table[k].callees|, s, n);
    m := CalleeRow(table, k, i);
    LinkOf(table, s, k, i);
  }

  /** And back, where every call names a row. */
  lemma {:induction false} ChainOfNames(table: seq<Row>, s: Setup, k: nat, q: seq<string>)
    requires NoRepeats(IdsOf(table), s) && WellFormed(table) && s.mutatorFile != "-"
    requires k < |table| && table[k].file == s.mutatorFile
    requires PathBetween(q, table[k].name, s.blockWrite, EdgesOf(CalleesOf(table, s)))
    ensures WritesBlocks(table, s, Id(table[k]))
    decreases |q|
  {
    var c := Id(table[k]);
    if c.name == s.blockWrite {
      assert ChainToWrite(table, s, c, [c]);
    } else {
      PathTail(q, EdgesOf(CalleesOf(table, s)));
      var m := CallOfName(table, s, k, q[1]);
      ChainOfNames(table, s, m, q[1..]);
      LongerChain(table, s, c, Id(table[m]));
    }
  }

  lemma {:induction false} LongerChain(table: seq<Row>, s: Setup, c: Call, d: Call)
    requires WritesBlocks(table, s, d) && d in Links(table, s)(c)
    ensures WritesBlocks(table, s, c)
  {
    var p :| ChainToWrite(table, s, d, p);
    PathCons(c, p, Links(table, s));
    assert ChainToWrite(table, s, c, [c] + p);
  }

  /** What the least set is about the table: the functions of the file from
      which its calls lead to the block write. */
  lemma {:induction false} WritersReachIn(table: seq<Row>, s: Setup, w: set<string>, k: nat)
    requires NoRepeats(IdsOf(table), s) && WellFormed(table) && s.mutatorFile != "-"
    requires Closed(w, s.blockWrite, CalleesOf(table, s)) && Below(w, s.blockWrite, CalleesOf(table, s))
    requires k < |table| && table[k].file == s.mutatorFile
    ensures table[k].name in w <==> WritesBlocks(table, s, Id(table[k]))
  {
    WritersReach(w, s.blockWrite, CalleesOf(table, s), table[k].name);
    if q :| PathBetween(q, table[k].name, s.blockWrite, EdgesOf(CalleesOf(table, s))) {
      ChainOfNames(table, s, k, q);
    }
    if p :| ChainToWrite(table, s, Id(table[k]), p) {
      ChainByName(table, s, Id(table[k]), p);
    }
  }

  /** A call of a listed mutator is guarded. */
  lemma {:induction false} ListedIsGuarded(table: seq<Row>, s: Setup, i: nat, c: Call)
    requires Clean(table, s) && i < |table| && Outside(table[i], s) && c in table[i].callees && Inside(c, s) && c.name in s.mutators
    ensures TakesGuard(table[i], s) || table[i].file in s.allowed
  {
    var j :| 0 <= j < |table[i].callees| && table[i].callees[j] == c;
    assert Mutates(table[i], s) && Guarded(table[i], s);
  }

  lemma {:induction false} LeadingIsListed(table: seq<Row>, s: Setup, i: nat, c: Call)
    requires Clean(table, s) && i < |table| && Outside(table[i], s) && c in table[i].callees && Inside(c, s)
    requires Leads(c.name, s.blockWrite, EdgesOf(CalleesOf(table, s)))
    ensures c.name in s.mutators
  {
    var j :| 0 <= j < |table[i].callees| && table[i].callees[j] == c;
    assert Listed(table[i], EdgesOf(CalleesOf(table, s)), s);
  }

  /** Every function of the file is listed: a chain starts at a listed name or at the block write. */
  lemma {:induction false} AllListed(table: seq<Row>, s: Setup, i: nat, c: Call)
    requires Clean(table, s) && Unexcluded(table, s, i, c)
    requires forall k | 0 <= k < |table| :: !IsUnlisted(IdsOf(table)[k], s)
    ensures c.name in s.mutators
  {
    var e := EdgesOf(CalleesOf(table, s));
    if c.name == s.blockWrite {
      assert PathBetween([c.name], c.name, s.blockWrite, e);
      LeadingIsListed(table, s, i, c);
    } else {
      var p :| ChainToWrite(table, s, c, p);
      PathTail(p, Links(table, s));
      var k := DownRow(table, CallInto(s.mutatorFile), c, p[1]);
      assert !IsUnlisted(IdsOf(table)[k], s);
    }
  }

  /** Where names tell the rows apart, a clean verdict is about the table: a
      function outside whose call into the file reaches a block write there
      takes the guard or is in a file allowed not to. */
  lemma {:induction false} CleanMeansExcluded(table: seq<Row>, s: Setup)
    requires Clean(table, s) && NamesTell(IdsOf(table), s)
    ensures AllExcluded(table, s)
  {
    forall i: nat, c | Unexcluded(table, s, i, c)
      ensures false
    {
      if NoRepeats(IdsOf(table), s) {
        var p :| ChainToWrite(table, s, c, p);
        ChainByName(table, s, c, p);
        LeadingIsListed(table, s, i, c);
      } else if exists k :: 0 <= k < |table| && IsUnlisted(IdsOf(table)[k], s) {
        assert IsBound(IdsOf(table)[i], s);
      } else {
        AllListed(table, s, i, c);
      }
      ListedIsGuarded(table, s, i, c);
    }
  }

  // ----- And only there -----

  /** The files of the check are kept apart, and there is a mutator. */
  ghost predicate Apart(s: Setup) {
    s.mutatorFile != s.lockFile && s.mutatorFile !in s.allowed && s.lockFile !in s.allowed && s.mutators != []
  }

  ghost predicate DefinedIn(ids: seq<Call>, n: string, file: string) {
    exists k :: 0 <= k < |ids| && ids[k].name == n && ids[k].file == file
  }

  /** Every function the check names has a row where it must be, and every file allowed has one. */
  ghost predicate Defined(ids: seq<Call>, s: Setup) {
    && (forall n | n in s.mutators :: DefinedIn(ids, n, s.mutatorFile))
    && DefinedIn(ids, s.take, s.lockFile) && DefinedIn(ids, s.blockWrite, s.mutatorFile)
    && forall f | f in s.allowed :: exists k :: 0 <= k < |ids| && ids[k].file == f
  }

  /** Where the planted calls stand: an unguarded function outside calls `via`,
      which is `bad` or calls it, and `bad` calls the block write; the row
      `later` has the name of `bad`. Files allowed to mutate do. */
  datatype Planting = Planting(outside: nat, via: nat, bad: nat, later: nat, block: nat, mutator: nat)

  ghost function PlanOf(ids: seq<Call>, s: Setup, g: Planting): Plan {
    (k: nat) =>
      if k == g.bad then [g.block]
      else if k == g.via then [g.bad]
      else if k == g.outside then [g.via]
      else if k < |ids| && ids[k].file in s.allowed then [g.mutator]
      else []
  }

  ghost predicate Placed(ids: seq<Call>, s: Setup, g: Planting) {
    && g.outside < |ids| && IsBound(ids[g.outside], s)
    && g.via < |ids| && IsUnlisted(ids[g.via], s)
    && Repeats(ids, s, g.bad, g.later)
    && (g.via == g.bad || ids[g.bad].name in s.mutators)
    && g.block < |ids| && ids[g.block].name == s.blockWrite && ids[g.block].file == s.mutatorFile
    && g.mutator < |ids| && ids[g.mutator].name in s.mutators && ids[g.mutator].file == s.mutatorFile
  }

  lemma {:induction false} FindPlanting(ids: seq<Call>, s: Setup) returns (g: Planting)
    requires Apart(s) && Defined(ids, s) && !NamesTell(ids, s)
    ensures Placed(ids, s, g)
  {
    var i: nat, j: nat :| Repeats(ids, s, i, j);
    var r: nat :| r < |ids| && IsBound(ids[r], s);
    var y: nat :| y < |ids| && IsUnlisted(ids[y], s);
    assert s.mutators[0] in s.mutators;
    var u: nat :| u < |ids| && ids[u].name == s.mutators[0] && ids[u].file == s.mutatorFile;
    var b: nat :| b < |ids| && ids[b].name == s.blockWrite && ids[b].file == s.mutatorFile;
    g := Planting(r, if ids[i].name in s.mutators then y else i, i, j, b, u);
  }

  lemma {:induction false} PlanFits(ids: seq<Call>, s: Setup, g: Planting)
    requires Placed(ids, s, g)
    ensures Fits(ids, PlanOf(ids, s, g))
  {
    forall k: nat
      ensures AllBelow(PlanOf(ids, s, g)(k), |ids|)
    {
    }
  }

  /** A table that calls as planted. */
  ghost predicate IsPlanted(table: seq<Row>, ids: seq<Call>, s: Setup, g: Planting) {
    Placed(ids, s, g) && TableFollows(table, ids, PlanOf(ids, s, g))
  }

  /** What each row outside calls. */
  ghost predicate RowAsPlanted(row: Row, s: Setup, via: Call) {
    && (Outside(row, s) && row.file in s.allowed ==> Mutates(row, s) && forall c | c in row.callees :: c.name in s.mutators)
    && (Outside(row, s) && row.file !in s.allowed ==> forall c | c in row.callees :: c == via)
  }

  lemma {:induction false} PlantedRow(table: seq<Row>, ids: seq<Call>, s: Setup, g: Planting, k: nat)
    requires Apart(s) && IsPlanted(table, ids, s, g) && k < |ids|
    ensures RowAsPlanted(table[k], s, ids[g.via]) && Id(table[k]) == ids[k]
  {
    var row, q := table[k], PlanOf(ids, s, g)(k);
    assert RowFollows(row, ids, ids[k], q);
    if Outside(row, s) {
      assert q == if k == g.outside then [g.via] else if ids[k].file in s.allowed then [g.mutator] else [];
      if row.file in s.allowed {
        assert row.callees[0] == ids[g.mutator] && Inside(row.callees[0], s);
      }
    }
  }

  /** The row of a name is not `bad`, whose name a later row has. */
  lemma {:induction false} NotBad(table: seq<Row>, ids: seq<Call>, s: Setup, g: Planting, k: nat)
    requires IsPlanted(table, ids, s, g) && IsLast(table, InFile(s.mutatorFile), k)
    ensures k != g.bad && ids[k] == Id(table[k])
  {
    assert RowFollows(table[k], ids, ids[k], PlanOf(ids, s, g)(k));
    assert RowFollows(table[g.later], ids, ids[g.later], PlanOf(ids, s, g)(g.later));
    assert InFile(s.mutatorFile)(table[g.later]);
  }

  lemma {:induction false} RowOfFile(table: seq<Row>, ids: seq<Call>, s: Setup, g: Planting, k: nat, i: nat)
    requires Apart(s) && IsPlanted(table, ids, s, g) && k < |ids| && ids[k].file == s.mutatorFile && k != g.bad
    requires i < |table[k].callees|
    ensures table[k].callees[i] == ids[g.bad]
  {
    assert RowFollows(table[k], ids, ids[k], PlanOf(ids, s, g)(k));
  }

  /** By name such a row calls at most the name of `bad`. */
  lemma {:induction false} PlantedNames(table: seq<Row>, ids: seq<Call>, s: Setup, g: Planting, n: string, d: string)
    requires Apart(s) && IsPlanted(table, ids, s, g) && d in EdgesOf(CalleesOf(table, s))(n)
    ensures d == ids[g.bad].name
  {
    var k := NameHasLast(table, InFile(s.mutatorFile), n);
    NotBad(table, ids, s, g, k);
    var i := InsideIs(table[k].callees, |table[k].callees|, s, d);
    RowOfFile(table, ids, s, g, k, i);
  }

  lemma {:induction false} PlantedSilent(table: seq<Row>, ids: seq<Call>, s: Setup, g: Planting)
    requires Apart(s) && IsPlanted(table, ids, s, g)
    ensures !Leads(ids[g.via].name, s.blockWrite, EdgesOf(CalleesOf(table, s)))
  {
    var e, n := EdgesOf(CalleesOf(table, s)), ids[g.via].name;
    if p :| PathBetween(p, n, s.blockWrite, e) {
      assert |p| > 1;
      assert p[|p| - 2 + 1] in e(p[|p| - 2]);
      PlantedNames(table, ids, s, g, p[|p| - 2], p[|p| - 1]);
    }
  }

  lemma {:induction false} RowListed(row: Row, s: Setup, via: Call, e: Edges)
    requires RowAsPlanted(row, s, via) && IsUnlisted(via, s) && !Leads(via.name, s.blockWrite, e)
    ensures Listed(row, e, s) && Guarded(row, s)
  {
    if Outside(row, s) {
      forall j | 0 <= j < |row.callees|
        ensures row.callees[j].name in s.mutators || !Leads(row.callees[j].name, s.blockWrite, e)
        ensures row.file !in s.allowed ==> row.callees[j].name !in s.mutators
      {
        assert row.callees[j] in row.callees;
      }
    }
  }

  lemma {:induction false} PlantedDefines(table: seq<Row>, ids: seq<Call>, s: Setup, g: Planting, n: string, file: string)
    requires Apart(s) && IsPlanted(table, ids, s, g) && DefinedIn(ids, n, file)
    ensures Defines(table, n, file)
  {
    var k: nat :| k < |ids| && ids[k].name == n && ids[k].file == file;
    PlantedRow(table, ids, s, g, k);
  }

  lemma {:induction false} RowIn(ids: seq<Call>, s: Setup, f: string) returns (k: nat)
    requires Defined(ids, s) && f in s.allowed
    ensures k < |ids| && ids[k].file == f
  {
    k :| k < |ids| && ids[k].file == f;
  }

  lemma {:induction false} PlantedMutates(table: seq<Row>, ids: seq<Call>, s: Setup, g: Planting, k: nat)
    requires Apart(s) && IsPlanted(table, ids, s, g) && k < |ids| && ids[k].file in s.allowed
    ensures MutatesIn(table, ids[k].file, s)
  {
    PlantedRow(table, ids, s, g, k);
    assert table[k].file == ids[k].file && Outside(table[k], s);
  }

  lemma {:induction false} PlantedClean(table: seq<Row>, ids: seq<Call>, s: Setup, g: Planting)
    requires Apart(s) && Defined(ids, s) && IsPlanted(table, ids, s, g)
    ensures Clean(table, s)
  {
    var e := EdgesOf(CalleesOf(table, s));
    PlantedSilent(table, ids, s, g);
    forall i | 0 <= i < |table|
      ensures Listed(table[i], e, s) && Guarded(table[i], s)
    {
      PlantedRow(table, ids, s, g, i);
      RowListed(table[i], s, ids[g.via], e);
    }
    forall i | 0 <= i < |s.mutators|
      ensures Defines(table, s.mutators[i], s.mutatorFile)
    {
      PlantedDefines(table, ids, s, g, s.mutators[i], s.mutatorFile);
    }
    PlantedDefines(table, ids, s, g, s.take, s.lockFile);
    forall i | 0 <= i < |s.allowed|
      ensures MutatesIn(table, s.allowed[i], s)
    {
      var k := RowIn(ids, s, s.allowed[i]);
      PlantedMutates(table, ids, s, g, k);
    }
  }

  lemma {:induction false} PlantedLink(table: seq<Row>, ids: seq<Call>, s: Setup, g: Planting, k: nat, x: nat)
    requires IsPlanted(table, ids, s, g) && k < |ids| && x < |ids| && ids[x].file == s.mutatorFile
    requires PlanOf(ids, s, g)(k) == [x] && WritesBlocks(table, s, ids[x])
    ensures WritesBlocks(table, s, ids[k])
  {
    FollowsDown(table, ids, PlanOf(ids, s, g), CallInto(s.mutatorFile), k, 0);
    LongerChain(table, s, ids[k], ids[x]);
  }

  lemma {:induction false} PlantedChain(table: seq<Row>, ids: seq<Call>, s: Setup, g: Planting)
    requires IsPlanted(table, ids, s, g)
    ensures WritesBlocks(table, s, ids[g.via])
  {
    assert ChainToWrite(table, s, ids[g.block], [ids[g.block]]);
    PlantedLink(table, ids, s, g, g.bad, g.block);
    if g.via != g.bad {
      PlantedLink(table, ids, s, g, g.via, g.bad);
    }
  }

  lemma {:induction false} OutsideRow(row: Row, ids: seq<Call>, s: Setup, g: Planting, q: seq<nat>)
    requires s.mutatorFile != s.lockFile && Placed(ids, s, g) && RowFollows(row, ids, ids[g.outside], q) && q == [g.via]
    ensures Outside(row, s) && ids[g.via] in row.callees && Inside(ids[g.via], s)
    ensures !TakesGuard(row, s) && row.file !in s.allowed
  {
    assert row.callees[0] == ids[g.via];
  }

  lemma {:induction false} PlantedOutside(table: seq<Row>, ids: seq<Call>, s: Setup, g: Planting)
    requires s.mutatorFile != s.lockFile && IsPlanted(table, ids, s, g)
    ensures Unexcluded(table, s, g.outside, ids[g.via])
  {
    PlantedChain(table, ids, s, g);
    OutsideRow(table[g.outside], ids, s, g, PlanOf(ids, s, g)(g.outside));
  }

  /** Otherwise a table of these rows is clean, and an unguarded function
      outside reaches a block write. */
  lemma {:induction false} OverloadSlips(ids: seq<Call>, s: Setup) returns (table: seq<Row>)
    requires Apart(s) && Defined(ids, s) && !NamesTell(ids, s)
    ensures IdsOf(table) == ids && WellFormed(table) && Clean(table, s) && !AllExcluded(table, s)
  {
    var g := FindPlanting(ids, s);
    var plan := PlanOf(ids, s, g);
    PlanFits(ids, s, g);
    table := Build(ids, plan);
    BuildIds(ids, plan);
    BuildWellFormed(ids, plan);
    BuildFollows(ids, plan);
    PlantedClean(table, ids, s, g);
    PlantedOutside(table, ids, s, g);
  }

  /** A clean verdict is right about every table with these rows. */
  ghost predicate RightAbout(ids: seq<Call>, s: Setup) {
    forall table | IdsOf(table) == ids && WellFormed(table) && Clean(table, s) :: AllExcluded(table, s)
  }

  /** For given rows the verdict is right, whatever they call, exactly when
      names tell the rows of the file apart, or cannot matter. */
  lemma {:induction false} RightIff(ids: seq<Call>, s: Setup)
    requires Apart(s) && Defined(ids, s)
    ensures RightAbout(ids, s) <==> NamesTell(ids, s)
  {
    if NamesTell(ids, s) {
      forall table | IdsOf(table) == ids && WellFormed(table) && Clean(table, s)
        ensures AllExcluded(table, s)
      {
        CleanMeansExcluded(table, s);
      }
    } else {
      var table := OverloadSlips(ids, s);
    }
  }

  /** An input: the rows the check names, a function outside in a file of its
      own, and two rows of the mutator file with one more name. */
  lemma {:induction false} OverloadInput(s: Setup, x: string, outside: Call) returns (table: seq<Row>)
    requires Apart(s) && IsBound(outside, s) && x !in s.mutators && x != s.blockWrite
    ensures IdsOf(table) == Listing(s.mutators + [s.blockWrite, x, x], s.mutatorFile)
                            + [Call(s.take, s.lockFile, 0), outside] + seq(|s.allowed|, i requires 0 <= i < |s.allowed| => Call(x, s.allowed[i], 0))
    ensures WellFormed(table) && Clean(table, s) && !AllExcluded(table, s)
  {
    var names := s.mutators + [s.blockWrite, x, x];
    var more := seq(|s.allowed|, i requires 0 <= i < |s.allowed| => Call(x, s.allowed[i], 0));
    var ids, n := Listing(names, s.mutatorFile) + [Call(s.take, s.lockFile, 0), outside] + more, |s.mutators|;
    assert forall i | 0 <= i < |names| :: ids[i] == Listing(names, s.mutatorFile)[i];
    assert names[n] == s.blockWrite && names[n + 1] == x == names[n + 2];
    forall m | m in s.mutators
      ensures DefinedIn(ids, m, s.mutatorFile)
    {
      var i :| 0 <= i < n && s.mutators[i] == m;
      assert names[i] == m && ids[i].name == m;
    }
    assert ids[n].name == s.blockWrite && ids[n + 3] == Call(s.take, s.lockFile, 0) && ids[n + 4] == outside;
    forall f | f in s.allowed
      ensures exists k :: 0 <= k < |ids| && ids[k].file == f
    {
      var i :| 0 <= i < |s.allowed| && s.allowed[i] == f;
      assert ids[n + 5 + i] == more[i];
    }
    assert Repeats(ids, s, n + 1, n + 2) && IsUnlisted(ids[n + 1], s) && IsBound(ids[n + 4], s);
    table := OverloadSlips(ids, s);
  }

  /** The kernel's own files are kept apart. */
  lemma {:induction false} KernelApart()
    ensures Apart(KERNEL)
  {
    assert |KERNEL.mutatorFile| == 23 && |KERNEL.lockFile| == 32 && |KERNEL.allowed[0]| == 28;
  }
}
