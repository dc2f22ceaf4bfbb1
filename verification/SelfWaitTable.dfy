/** What a clean verdict of the reader check says about the call graph table
    itself, and exactly for which tables it is right. */
module SelfWaitTable {
  import opened CallGraph
  import opened TableGraph
  import opened SelfWait

  ghost function Links(table: seq<Row>): Call -> set<Call> {
    Down(table, AnyCall())
  }

  function RowsOf(table: seq<Row>): Rows {
    Table(table, AnyRow())
  }

  /** The dispatch, or a function that releases the registration. */
  ghost predicate Starts(c: Call, s: Setup) {
    c.file == s.syscallFile && (c.name == s.registrar || c.name in s.releasers)
  }

  predicate IsTake(c: Call, s: Setup) {
    c.name == s.take && c.file == s.lockFile
  }

  /** The dispatch calls one of its mutating arms. */
  predicate Enters(c: Call, d: Call, s: Setup) {
    c.name == s.registrar && d.name in s.arms
  }

  /** A chain of calls to the mutation guard. */
  ghost predicate ChainToGuard(table: seq<Row>, s: Setup, p: seq<Call>) {
    IsPath(p, Links(table)) && IsTake(p[|p| - 1], s)
  }

  /** A chain from the registered window to the guard that enters no mutating arm. */
  ghost predicate WaitsForItself(table: seq<Row>, s: Setup, p: seq<Call>) {
    ChainToGuard(table, s, p) && Starts(p[0], s) && EntersNone(p, s)
  }

  ghost predicate EntersNone(p: seq<Call>, s: Setup) {
    forall i | 0 <= i < |p| - 1 :: !Enters(p[i], p[i + 1], s)
  }

  ghost predicate NoSelfWait(table: seq<Row>, s: Setup) {
    forall p :: !WaitsForItself(table, s, p)
  }

  // ----- When names tell the rows apart -----

  /** The names of the check are kept apart. */
  ghost predicate Apart(s: Setup) {
    && s.lockFile != s.syscallFile && NoDuplicates(s.releasers)
    && s.take != "*" && s.mark != "*" && s.release != "*" && s.registrar != "*"
    && s.take != s.mark && s.take != s.release && s.take != s.registrar
    && s.mark != s.release && s.mark != s.registrar && s.release != s.registrar
    && (forall n | n in s.releasers :: n != "*" && n != s.take && n != s.mark && n != s.release && n != s.registrar && n !in s.arms)
    && (forall n | n in s.arms :: n != "*" && n != s.mark && n != s.release && n != s.registrar)
  }

  /** A row whose name may be repeated: a mutating arm, or the take where it belongs. */
  predicate MayRepeat(c: Call, s: Setup) {
    if c.name == s.take then c.file == s.lockFile else c.name in s.arms
  }

  ghost predicate Repeats(ids: seq<Call>, s: Setup, i: nat, j: nat) {
    i < j < |ids| && ids[i].name == ids[j].name && !MayRepeat(ids[i], s)
  }

  /** No two rows share a name, but for those; and none has the name of an indirect call. */
  ghost predicate NamesTell(ids: seq<Call>, s: Setup) {
    (forall i: nat, j: nat :: !Repeats(ids, s, i, j)) && forall k | 0 <= k < |ids| :: ids[k].name != "*"
  }

  lemma {:induction false} OnlyRow(table: seq<Row>, s: Setup, k: nat)
    requires NamesTell(IdsOf(table), s) && k < |table| && !MayRepeat(Id(table[k]), s)
    ensures table[k].name in RowsOf(table) && RowsOf(table)[table[k].name] == table[k]
  {
    var ids := IdsOf(table);
    forall i | k < i < |table|
      ensures table[i].name != table[k].name
    {
      assert ids[i] == Id(table[i]) && ids[k] == Id(table[k]) && !Repeats(ids, s, k, i);
    }
    LastWins(table, AnyRow(), k);
  }

  /** A row named as the take is where it belongs. */
  lemma {:induction false} TakeRow(table: seq<Row>, s: Setup, k: nat)
    requires NamesTell(IdsOf(table), s) && AllDefined(RowsOf(table), s) && k < |table| && table[k].name == s.take
    ensures table[k].file == s.lockFile
  {
    DefinedNames(RowsOf(table), s);
    if table[k].file != s.lockFile {
      OnlyRow(table, s, k);
    }
  }

  ghost predicate AllLive(rows: Rows, s: Setup) {
    AllDefined(rows, s) && (DefinedNames(rows, s); forall i | 0 <= i < |s.arms| :: ArmLive(rows, s.arms[i], s))
  }

  lemma {:induction false} StepByName(table: seq<Row>, s: Setup, k: nat, d: Call)
    requires NamesTell(IdsOf(table), s) && k < |table| && !MayRepeat(Id(table[k]), s) && d in table[k].callees && Counts(d, s)
    ensures d.name in EdgesOf(RowsOf(table), s)(table[k].name)
  {
    OnlyRow(table, s, k);
    var i :| 0 <= i < |table[k].callees| && table[k].callees[i] == d;
    CalledHas(table[k].callees, i, |table[k].callees|, s);
  }

  /** A call on a chain counts: if it names the take, it is the take. */
  lemma {:induction false} ChainCounts(table: seq<Row>, s: Setup, p: seq<Call>)
    requires NamesTell(IdsOf(table), s) && AllDefined(RowsOf(table), s) && ChainToGuard(table, s, p)
    ensures Counts(p[0], s)
  {
    if p[0].name == s.take && |p| > 1 {
      PathTail(p, Links(table));
      var k := DownRow(table, AnyCall(), p[0], p[1]);
      TakeRow(table, s, k);
    }
  }

  lemma {:induction false} ArmLeads(rows: Rows, s: Setup, n: string)
    requires AllLive(rows, s) && n in s.arms
    ensures Leads(n, s.take, EdgesOf(rows, s))
  {
    DefinedNames(rows, s);
    var i :| 0 <= i < |s.arms| && s.arms[i] == n;
    assert ArmLive(rows, s.arms[i], s);
  }

  /** The first call of a chain, by name. */
  lemma {:induction false} FirstByName(table: seq<Row>, s: Setup, p: seq<Call>)
    requires NamesTell(IdsOf(table), s) && AllDefined(RowsOf(table), s) && ChainToGuard(table, s, p) && |p| > 1
    requires !MayRepeat(p[0], s)
    ensures ChainToGuard(table, s, p[1..]) && p[1] == p[1..][0]
    ensures p[1].name in EdgesOf(RowsOf(table), s)(p[0].name)
  {
    PathTail(p, Links(table));
    var k := DownRow(table, AnyCall(), p[0], p[1]);
    ChainCounts(table, s, p[1..]);
    StepByName(table, s, k, p[1]);
  }

  /** A chain in the table gives one by name. */
  lemma {:induction false} ChainByName(table: seq<Row>, s: Setup, p: seq<Call>)
    requires NamesTell(IdsOf(table), s) && AllLive(RowsOf(table), s) && ChainToGuard(table, s, p)
    ensures Leads(p[0].name, s.take, EdgesOf(RowsOf(table), s))
    decreases |p|
  {
    if p[0].name == s.take {
      LeadsItself(s.take, EdgesOf(RowsOf(table), s));
    } else if p[0].name in s.arms {
      ArmLeads(RowsOf(table), s, p[0].name);
    } else {
      FirstByName(table, s, p);
      ChainByName(table, s, p[1..]);
      LeadsPrepend(p[0].name, p[1].name, s.take, EdgesOf(RowsOf(table), s));
    }
  }

  lemma {:induction false} CleanIsLive(rows: Rows, s: Setup)
    requires Clean(rows, s)
    ensures AllLive(rows, s)
  {
    DefinedNames(rows, s);
  }

  /** What the verdict says of one call of the window. */
  lemma {:induction false} WindowCall(table: seq<Row>, s: Setup, k: nat, d: Call)
    requires Apart(s) && NamesTell(IdsOf(table), s) && Clean(RowsOf(table), s)
    requires k < |table| && Starts(Id(table[k]), s) && d in table[k].callees
    ensures MayRun(RowsOf(table), table[k].name, d.name, s)
  {
    OnlyRow(table, s, k);
    OwnerSafe(RowsOf(table), s, table[k].name);
    var i :| 0 <= i < |table[k].callees| && table[k].callees[i] == d;
    NameSetHas(table[k].callees, i);
  }

  /** A row named as the dispatch is the dispatch. */
  lemma {:induction false} DispatchRow(table: seq<Row>, s: Setup, k: nat)
    requires Apart(s) && NamesTell(IdsOf(table), s) && AllDefined(RowsOf(table), s)
    requires k < |table| && table[k].name == s.registrar
    ensures Starts(Id(table[k]), s)
  {
    DefinedNames(RowsOf(table), s);
    OnlyRow(table, s, k);
  }

  lemma {:induction false} TailEntersNone(p: seq<Call>, s: Setup)
    requires |p| > 1 && EntersNone(p, s)
    ensures EntersNone(p[1..], s) && !Enters(p[0], p[1], s)
  {
    var q := p[1..];
    assert !Enters(p[0], p[0 + 1], s);
    forall i | 0 <= i < |q| - 1
      ensures !Enters(q[i], q[i + 1], s)
    {
      assert !Enters(p[i + 1], p[(i + 1) + 1], s);
    }
  }

  /** No chain goes on from an indirect call. */
  lemma {:induction false} NoStarChain(table: seq<Row>, s: Setup, p: seq<Call>)
    requires Apart(s) && NamesTell(IdsOf(table), s) && ChainToGuard(table, s, p)
    ensures p[0].name != "*"
  {
    if |p| > 1 {
      PathTail(p, Links(table));
      var m := DownRow(table, AnyCall(), p[0], p[1]);
      assert IdsOf(table)[m] == p[0];
    }
  }

  /** A chain from the window goes on from the dispatch. */
  lemma {:induction false} NextIsDispatch(table: seq<Row>, s: Setup, p: seq<Call>)
    requires Apart(s) && NamesTell(IdsOf(table), s) && Clean(RowsOf(table), s) && WaitsForItself(table, s, p)
    ensures |p| > 1 && ChainToGuard(table, s, p[1..]) && p[1..][0].name == s.registrar
  {
    PathTail(p, Links(table));
    var k := DownRow(table, AnyCall(), p[0], p[1]);
    CleanIsLive(RowsOf(table), s);
    ChainByName(table, s, p[1..]);
    WindowCall(table, s, k, p[1]);
    TailEntersNone(p, s);
    if p[1].name == "*" {
      NoStarChain(table, s, p[1..]);
    }
  }

  lemma {:induction false} DispatchStarts(table: seq<Row>, s: Setup, p: seq<Call>)
    requires Apart(s) && NamesTell(IdsOf(table), s) && AllDefined(RowsOf(table), s)
    requires ChainToGuard(table, s, p) && p[0].name == s.registrar
    ensures Starts(p[0], s)
  {
    PathTail(p, Links(table));
    var m := DownRow(table, AnyCall(), p[0], p[1]);
    DispatchRow(table, s, m);
  }

  lemma {:induction false} ChainWaits(table: seq<Row>, s: Setup, p: seq<Call>)
    requires Apart(s) && NamesTell(IdsOf(table), s) && Clean(RowsOf(table), s)
    ensures !WaitsForItself(table, s, p)
    decreases |p|
  {
    if WaitsForItself(table, s, p) {
      NextIsDispatch(table, s, p);
      DispatchStarts(table, s, p[1..]);
      TailEntersNone(p, s);
      ChainWaits(table, s, p[1..]);
    }
  }

  /** Where names tell the rows apart, a clean verdict is about the table: every
      chain of calls from the registered window to the mutation guard enters a
      mutating arm of the dispatch. */
  lemma {:induction false} CleanMeansNoWait(table: seq<Row>, s: Setup)
    requires Apart(s) && NamesTell(IdsOf(table), s) && Clean(RowsOf(table), s)
    ensures NoSelfWait(table, s)
  {
    forall p
      ensures !WaitsForItself(table, s, p)
    {
      ChainWaits(table, s, p);
    }
  }

  // ----- And only there -----

  /** The last row of a name. */
  ghost predicate LastIn(ids: seq<Call>, k: nat, n: string) {
    k < |ids| && ids[k].name == n && forall i | k < i < |ids| :: ids[i].name != n
  }

  ghost predicate HasLast(ids: seq<Call>, n: string) {
    exists k: nat :: LastIn(ids, k, n)
  }

  /** The last row of a name stands in a file. */
  ghost predicate DefinedIn(ids: seq<Call>, n: string, file: string) {
    exists k: nat :: LastIn(ids, k, n) && ids[k].file == file
  }

  /** What the verdict asks of the rows before it asks of their calls: each
      function it names is defined where it must be, each arm has a row, and no
      two rows are spelled alike. */
  ghost predicate Defined(ids: seq<Call>, s: Setup) {
    && DefinedIn(ids, s.take, s.lockFile) && DefinedIn(ids, s.mark, s.syscallFile)
    && DefinedIn(ids, s.release, s.syscallFile) && DefinedIn(ids, s.registrar, s.syscallFile)
    && (forall n | n in s.releasers :: DefinedIn(ids, n, s.syscallFile))
    && (forall n | n in s.arms :: HasLast(ids, n))
    && Spelled(ids)
  }

  ghost predicate Spelled(ids: seq<Call>) {
    forall i, j | 0 <= i < j < |ids| :: ids[i] != ids[j]
  }

  /** Where the planted calls stand: the rows of the check's own names, of its
      releasers and arms in order, and a row that its name does not tell. */
  datatype Places = Places(take: nat, mark: nat, release: nat, registrar: nat, releasers: seq<nat>, arms: seq<nat>, bad: nat)

  ghost predicate NamesAt(ids: seq<Call>, q: seq<nat>, names: seq<string>) {
    |q| == |names| && forall i | 0 <= i < |q| :: LastIn(ids, q[i], names[i])
  }

  ghost predicate Placed(ids: seq<Call>, s: Setup, g: Places) {
    && LastIn(ids, g.take, s.take) && ids[g.take].file == s.lockFile
    && LastIn(ids, g.mark, s.mark) && LastIn(ids, g.release, s.release) && LastIn(ids, g.registrar, s.registrar)
    && ids[g.registrar].file == s.syscallFile
    && NamesAt(ids, g.releasers, s.releasers) && NamesAt(ids, g.arms, s.arms)
    && g.bad < |ids| && !MayRepeat(ids[g.bad], s)
    && (ids[g.bad].name == "*" || exists j :: g.bad < j < |ids| && ids[j].name == ids[g.bad].name)
  }

  /** The three chains planted: the dispatch calls `bad`, which takes the guard;
      an overload of the dispatch calls `mark`, which does; or `mark` calls a
      namesake of the take that does. */
  datatype Shape = Shape(ofBad: seq<nat>, ofRegistrar: seq<nat>, ofMark: seq<nat>)

  function ShapeOf(ids: seq<Call>, s: Setup, g: Places): Shape
    requires g.bad < |ids|
  {
    if ids[g.bad].name == s.registrar then Shape([g.mark], [g.bad], [g.take])
    else if ids[g.bad].name == s.take then Shape([g.take], [g.mark], [g.bad])
    else Shape([g.take], [g.mark, g.bad], [])
  }

  function PlanOf(g: Places, h: Shape): Plan {
    (k: nat) =>
      if k == g.bad then h.ofBad
      else if k == g.registrar then h.ofRegistrar + g.arms
      else if k == g.mark then h.ofMark
      else if k in g.releasers then [g.release]
      else if k in g.arms && k != g.take then [g.take]
      else []
  }

  /** A table that calls as planted. */
  ghost predicate IsPlanted(table: seq<Row>, ids: seq<Call>, s: Setup, g: Places) {
    && Apart(s) && Spelled(ids) && Placed(ids, s, g) && WellFormed(table)
    && TableFollows(table, ids, PlanOf(g, ShapeOf(ids, s, g)))
  }

  ghost function PlanAt(ids: seq<Call>, s: Setup, g: Places, k: nat): seq<nat>
    requires g.bad < |ids|
  {
    PlanOf(g, ShapeOf(ids, s, g))(k)
  }

  /** Rows of different names are different rows. */
  lemma {:induction false} NotIn(ids: seq<Call>, q: seq<nat>, names: seq<string>, k: nat)
    requires NamesAt(ids, q, names) && k < |ids| && k in q
    ensures ids[k].name in names
  {
  }

  /** The row `bad` is none of those a name stands for. */
  lemma {:induction false} BadApart(ids: seq<Call>, s: Setup, g: Places, k: nat)
    requires Apart(s) && Placed(ids, s, g) && k < |ids| && LastIn(ids, k, ids[k].name) && ids[k].name != "*"
    ensures k != g.bad
  {
  }

  /** The calls of the row a name stands for. */
  lemma {:induction false} PlanByName(ids: seq<Call>, s: Setup, g: Places, k: nat)
    requires Apart(s) && Placed(ids, s, g) && k < |ids| && LastIn(ids, k, ids[k].name) && ids[k].name != "*"
    ensures var n, h := ids[k].name, ShapeOf(ids, s, g);
            PlanAt(ids, s, g, k) ==
              if n == s.registrar then h.ofRegistrar + g.arms
              else if n == s.mark then h.ofMark
              else if n in s.releasers then [g.release]
              else if n in s.arms && n != s.take then [g.take]
              else []
  {
    var n := ids[k].name;
    BadApart(ids, s, g, k);
    assert n == s.registrar <==> k == g.registrar;
    assert n == s.mark <==> k == g.mark;
    assert n == s.take <==> k == g.take;
    NamedIn(ids, g.releasers, s.releasers, k);
    NamedIn(ids, g.arms, s.arms, k);
  }

  lemma {:induction false} NamedIn(ids: seq<Call>, q: seq<nat>, names: seq<string>, k: nat)
    requires NamesAt(ids, q, names) && k < |ids| && LastIn(ids, k, ids[k].name)
    ensures k in q <==> ids[k].name in names
  {
    if ids[k].name in names {
      var i :| 0 <= i < |names| && names[i] == ids[k].name;
      assert q[i] == k;
    }
  }

  lemma {:induction false} RowByName(table: seq<Row>, ids: seq<Call>, s: Setup, g: Places, n: string) returns (k: nat)
    requires IsPlanted(table, ids, s, g) && n in RowsOf(table)
    ensures k < |ids| && LastIn(ids, k, n) && RowsOf(table)[n] == table[k]
    ensures RowFollows(table[k], ids, ids[k], PlanAt(ids, s, g, k))
  {
    k := NameHasLast(table, AnyRow(), n);
    assert RowFollows(table[k], ids, ids[k], PlanAt(ids, s, g, k));
    forall i | k < i < |ids|
      ensures ids[i].name != n
    {
      assert RowFollows(table[i], ids, ids[i], PlanAt(ids, s, g, i));
    }
  }

  lemma {:induction false} LastByName(table: seq<Row>, ids: seq<Call>, s: Setup, g: Places, k: nat)
    requires IsPlanted(table, ids, s, g) && k < |ids| && LastIn(ids, k, ids[k].name)
    ensures ids[k].name in RowsOf(table) && RowsOf(table)[ids[k].name] == table[k]
    ensures RowFollows(table[k], ids, ids[k], PlanAt(ids, s, g, k))
  {
    assert RowFollows(table[k], ids, ids[k], PlanAt(ids, s, g, k));
    forall i | k < i < |ids|
      ensures table[i].name != table[k].name
    {
      assert RowFollows(table[i], ids, ids[i], PlanAt(ids, s, g, i));
    }
    LastWins(table, AnyRow(), k);
  }

  // ----- By name the planted chain is not seen -----

  /** Names from which the planted calls lead nowhere. */
  ghost predicate Quiet(n: string, s: Setup, x: string) {
    || n == s.release
    || (n == s.mark && x != s.registrar)
    || (n == x && x != s.registrar && x != s.take && x != "*")
  }

  lemma {:induction false} CalledIs(calls: seq<Call>, j: nat, n: string, s: Setup) returns (i: nat)
    requires j <= |calls| && n in Called(calls, j, s)
    ensures i < j && calls[i].name == n && Counts(calls[i], s)
  {
    if n in Called(calls, j - 1, s) {
      i := CalledIs(calls, j - 1, n, s);
    } else {
      i := j - 1;
    }
  }

  lemma {:induction false} QuietPlan(ids: seq<Call>, s: Setup, g: Places, k: nat)
    requires Apart(s) && Placed(ids, s, g) && k < |ids| && LastIn(ids, k, ids[k].name)
    requires Quiet(ids[k].name, s, ids[g.bad].name)
    ensures var q := PlanAt(ids, s, g, k); q == [] || q == [g.release] || (q == [g.bad] && ids[g.bad].name == s.take)
  {
    PlanByName(ids, s, g, k);
    assert !MayRepeat(ids[g.bad], s);
  }

  lemma {:induction false} QuietRow(row: Row, ids: seq<Call>, s: Setup, g: Places, q: seq<nat>, d: string)
    requires Placed(ids, s, g) && RowFollows(row, ids, Id(row), q) && d in Called(row.callees, |row.callees|, s)
    requires q == [] || q == [g.release] || (q == [g.bad] && ids[g.bad].name == s.take)
    ensures d == s.release
  {
    var i := CalledIs(row.callees, |row.callees|, d, s);
    assert row.callees[i] == ids[q[i]] && !MayRepeat(ids[g.bad], s);
  }

  lemma {:induction false} QuietStep(table: seq<Row>, ids: seq<Call>, s: Setup, g: Places, n: string, d: string)
    requires IsPlanted(table, ids, s, g) && Quiet(n, s, ids[g.bad].name) && d in EdgesOf(RowsOf(table), s)(n)
    ensures d == s.release
  {
    var k := RowByName(table, ids, s, g, n);
    QuietPlan(ids, s, g, k);
    QuietRow(table[k], ids, s, g, PlanAt(ids, s, g, k), d);
  }

  /** Calls that lead only to `stop`, from there too, lead nowhere else. */
  lemma {:induction false} NoWayOut(n: string, stop: string, b: string, e: Edges)
    requires n != b && stop != b && (forall d | d in e(n) :: d == stop) && forall d | d in e(stop) :: d == stop
    ensures !Leads(n, b, e)
  {
    var seen := {n, stop};
    if p :| PathBetween(p, n, b, e) {
      ClosedHoldsPath(seen, p, |p| - 1, e);
    }
  }

  lemma {:induction false} QuietSilent(table: seq<Row>, ids: seq<Call>, s: Setup, g: Places, n: string)
    requires IsPlanted(table, ids, s, g) && Quiet(n, s, ids[g.bad].name)
    ensures !Leads(n, s.take, EdgesOf(RowsOf(table), s))
  {
    var e := EdgesOf(RowsOf(table), s);
    forall d | d in e(n)
      ensures d == s.release
    {
      QuietStep(table, ids, s, g, n, d);
    }
    forall d | d in e(s.release)
      ensures d == s.release
    {
      QuietStep(table, ids, s, g, s.release, d);
    }
    NoWayOut(n, s.release, s.take, e);
  }

  lemma {:induction false} NameSetIs(calls: seq<Call>, n: string) returns (i: nat)
    requires n in NameSet(calls)
    ensures i < |calls| && calls[i].name == n
  {
    ElementsAre(Names(calls), n);
    i :| i < |calls| && Names(calls)[i] == n;
  }

  lemma {:induction false} DispatchCall(ids: seq<Call>, s: Setup, g: Places, i: nat)
    requires Apart(s) && Placed(ids, s, g)
    requires i < |ShapeOf(ids, s, g).ofRegistrar + g.arms|
    ensures var x := (ShapeOf(ids, s, g).ofRegistrar + g.arms)[i];
            x < |ids| && (ids[x].name in s.arms || Quiet(ids[x].name, s, ids[g.bad].name) || !Followed(ids[x].name, s))
  {
    var h := ShapeOf(ids, s, g);
    if i >= |h.ofRegistrar| {
      var j := i - |h.ofRegistrar|;
      assert (h.ofRegistrar + g.arms)[i] == g.arms[j];
      assert LastIn(ids, g.arms[j], s.arms[j]);
    } else {
      assert (h.ofRegistrar + g.arms)[i] == h.ofRegistrar[i];
    }
  }

  lemma {:induction false} DispatchSafe(table: seq<Row>, ids: seq<Call>, s: Setup, g: Places)
    requires IsPlanted(table, ids, s, g)
    ensures s.registrar in RowsOf(table) && WindowSafe(RowsOf(table), s.registrar, s)
  {
    LastByName(table, ids, s, g, g.registrar);
    PlanByName(ids, s, g, g.registrar);
    var calls := table[g.registrar].callees;
    forall c | c in NameSet(calls)
      ensures MayRun(RowsOf(table), s.registrar, c, s)
    {
      var i := NameSetIs(calls, c);
      DispatchCall(ids, s, g, i);
      if Quiet(c, s, ids[g.bad].name) {
        QuietSilent(table, ids, s, g, c);
      }
    }
  }

  lemma {:induction false} ReleaserSafe(table: seq<Row>, ids: seq<Call>, s: Setup, g: Places, j: nat)
    requires IsPlanted(table, ids, s, g) && j < |s.releasers|
    ensures s.releasers[j] in RowsOf(table) && WindowSafe(RowsOf(table), s.releasers[j], s)
  {
    var k := g.releasers[j];
    assert LastIn(ids, k, s.releasers[j]) && s.releasers[j] in s.releasers;
    LastByName(table, ids, s, g, k);
    PlanByName(ids, s, g, k);
    forall c | c in NameSet(table[k].callees)
      ensures MayRun(RowsOf(table), s.releasers[j], c, s)
    {
      var i := NameSetIs(table[k].callees, c);
      assert table[k].callees[i] == ids[g.release];
      QuietSilent(table, ids, s, g, c);
    }
  }

  lemma {:induction false} AllSafeFrom(rows: Rows, s: Setup, n: nat)
    requires s.registrar in rows && WindowSafe(rows, s.registrar, s) && n <= |s.releasers|
    requires forall j | 0 <= j < |s.releasers| :: s.releasers[j] in rows && WindowSafe(rows, s.releasers[j], s)
    ensures AllSafe(rows, s, n)
  {
    if n > 0 {
      AllSafeFrom(rows, s, n - 1);
    }
  }

  lemma {:induction false} ArmCalled(ids: seq<Call>, s: Setup, g: Places, i: nat)
    requires Apart(s) && Placed(ids, s, g) && i < |s.arms|
    ensures var q := ShapeOf(ids, s, g).ofRegistrar + g.arms; exists j :: 0 <= j < |q| && q[j] == g.arms[i]
  {
    var h := ShapeOf(ids, s, g);
    assert (h.ofRegistrar + g.arms)[|h.ofRegistrar| + i] == g.arms[i];
  }

  lemma {:induction false} ArmReaches(table: seq<Row>, ids: seq<Call>, s: Setup, g: Places, i: nat)
    requires IsPlanted(table, ids, s, g) && i < |s.arms|
    ensures Leads(s.arms[i], s.take, EdgesOf(RowsOf(table), s))
  {
    var k, e := g.arms[i], EdgesOf(RowsOf(table), s);
    assert LastIn(ids, k, s.arms[i]) && s.arms[i] in s.arms;
    LeadsItself(s.take, e);
    if s.arms[i] != s.take {
      LastByName(table, ids, s, g, k);
      PlanByName(ids, s, g, k);
      assert s.arms[i] !in s.releasers;
      var calls := table[k].callees;
      assert calls[0] == ids[g.take];
      CalledHas(calls, 0, |calls|, s);
      LeadsPrepend(s.arms[i], s.take, s.take, e);
    }
  }

  lemma {:induction false} ArmIsLive(table: seq<Row>, ids: seq<Call>, s: Setup, g: Places, i: nat)
    requires IsPlanted(table, ids, s, g) && i < |s.arms| && s.registrar in RowsOf(table)
    ensures ArmLive(RowsOf(table), s.arms[i], s)
  {
    LastByName(table, ids, s, g, g.registrar);
    PlanByName(ids, s, g, g.registrar);
    ArmCalled(ids, s, g, i);
    var q := ShapeOf(ids, s, g).ofRegistrar + g.arms;
    var j :| 0 <= j < |q| && q[j] == g.arms[i];
    assert table[g.registrar].callees[j] == ids[q[j]];
    assert LastIn(ids, g.arms[i], s.arms[i]);
    NameSetHas(table[g.registrar].callees, j);
    ArmReaches(table, ids, s, g, i);
  }

  // ----- And the callers are as they should be -----

  lemma {:induction false} CallerPlan(table: seq<Row>, ids: seq<Call>, s: Setup, g: Places, x: nat, c: Call) returns (k: nat, i: nat)
    requires IsPlanted(table, ids, s, g) && x < |ids| && c in table[x].callers
    ensures k < |ids| && ids[k] == c && i < |PlanAt(ids, s, g, k)| && PlanAt(ids, s, g, k)[i] == x
  {
    assert RowFollows(table[x], ids, ids[x], PlanAt(ids, s, g, x));
    assert CalledBy(table, Id(table[x]), c);
    k :| k < |table| && Id(table[k]) == c && ids[x] in table[k].callees;
    assert RowFollows(table[k], ids, ids[k], PlanAt(ids, s, g, k));
    i :| i < |table[k].callees| && table[k].callees[i] == ids[x];
    SameSpelling(ids, PlanAt(ids, s, g, k)[i], x);
  }

  lemma {:induction false} SameSpelling(ids: seq<Call>, x: nat, y: nat)
    requires Spelled(ids) && x < |ids| && y < |ids| && ids[x] == ids[y]
    ensures x == y
  {
  }

  lemma {:induction false} IsCaller(table: seq<Row>, ids: seq<Call>, s: Setup, g: Places, k: nat, i: nat, x: nat)
    requires IsPlanted(table, ids, s, g) && k < |ids| && x < |ids| && i < |PlanAt(ids, s, g, k)| && PlanAt(ids, s, g, k)[i] == x
    ensures ids[k] in table[x].callers && ids[k].name in NameSet(table[x].callers)
  {
    assert RowFollows(table[k], ids, ids[k], PlanAt(ids, s, g, k));
    assert RowFollows(table[x], ids, ids[x], PlanAt(ids, s, g, x));
    assert table[k].callees[i] == ids[x] && ids[x] in table[k].callees;
    assert CalledBy(table, Id(table[x]), ids[k]);
    var j :| 0 <= j < |table[x].callers| && table[x].callers[j] == ids[k];
    NameSetHas(table[x].callers, j);
  }

  /** Only rows named as the dispatch call `mark`. */
  lemma {:induction false} MarkCaller(ids: seq<Call>, s: Setup, g: Places, k: nat, i: nat)
    requires Apart(s) && Placed(ids, s, g) && k < |ids| && i < |PlanAt(ids, s, g, k)| && PlanAt(ids, s, g, k)[i] == g.mark
    ensures ids[k].name == s.registrar
  {
    BadApart(ids, s, g, g.mark);
  }

  /** Only the releasers call `release`. */
  lemma {:induction false} ReleaseCaller(ids: seq<Call>, s: Setup, g: Places, k: nat, i: nat)
    requires Apart(s) && Placed(ids, s, g) && k < |ids| && i < |PlanAt(ids, s, g, k)| && PlanAt(ids, s, g, k)[i] == g.release
    ensures ids[k].name in s.releasers
  {
    BadApart(ids, s, g, g.release);
    if k == g.registrar && k != g.bad {
      DispatchCallee(ids, s, g, i);
    } else if k in g.releasers {
      NotIn(ids, g.releasers, s.releasers, k);
    }
  }

  lemma {:induction false} DispatchCallee(ids: seq<Call>, s: Setup, g: Places, i: nat)
    requires Apart(s) && Placed(ids, s, g) && i < |ShapeOf(ids, s, g).ofRegistrar + g.arms|
    ensures (ShapeOf(ids, s, g).ofRegistrar + g.arms)[i] != g.release
  {
    var h := ShapeOf(ids, s, g);
    BadApart(ids, s, g, g.release);
    if i >= |h.ofRegistrar| {
      var j := i - |h.ofRegistrar|;
      assert (h.ofRegistrar + g.arms)[i] == g.arms[j];
      assert LastIn(ids, g.arms[j], s.arms[j]) && s.arms[j] in s.arms;
    } else {
      assert (h.ofRegistrar + g.arms)[i] == h.ofRegistrar[i];
    }
  }

  /** The row that calls `mark`. */
  lemma {:induction false} MarkCalled(ids: seq<Call>, s: Setup, g: Places) returns (k: nat)
    requires Apart(s) && Placed(ids, s, g)
    ensures k < |ids| && |PlanAt(ids, s, g, k)| > 0 && PlanAt(ids, s, g, k)[0] == g.mark
  {
    BadApart(ids, s, g, g.registrar);
    k := if ids[g.bad].name == s.registrar then g.bad else g.registrar;
  }

  lemma {:induction false} MarkCallerName(table: seq<Row>, ids: seq<Call>, s: Setup, g: Places, n: string)
    requires IsPlanted(table, ids, s, g) && n in NameSet(table[g.mark].callers)
    ensures n == s.registrar
  {
    var j := NameSetIs(table[g.mark].callers, n);
    var k, i := CallerPlan(table, ids, s, g, g.mark, table[g.mark].callers[j]);
    MarkCaller(ids, s, g, k, i);
  }

  lemma {:induction false} MarkCallers(table: seq<Row>, ids: seq<Call>, s: Setup, g: Places)
    requires IsPlanted(table, ids, s, g)
    ensures CalledByExactly(table[g.mark], [s.registrar])
  {
    forall n | n in NameSet(table[g.mark].callers)
      ensures n == s.registrar
    {
      MarkCallerName(table, ids, s, g, n);
    }
    var k := MarkCalled(ids, s, g);
    IsCaller(table, ids, s, g, k, 0, g.mark);
    MarkCaller(ids, s, g, k, 0);
    assert Elements([s.registrar]) == {s.registrar};
  }

  lemma {:induction false} ReleaseCallers(table: seq<Row>, ids: seq<Call>, s: Setup, g: Places)
    requires IsPlanted(table, ids, s, g)
    ensures CalledByExactly(table[g.release], s.releasers)
  {
    var calls := table[g.release].callers;
    forall n
      ensures n in NameSet(calls) <==> n in Elements(s.releasers)
    {
      ElementsAre(s.releasers, n);
      if n in NameSet(calls) {
        var j := NameSetIs(calls, n);
        var k, i := CallerPlan(table, ids, s, g, g.release, calls[j]);
        ReleaseCaller(ids, s, g, k, i);
      }
      if n in s.releasers {
        var j :| 0 <= j < |s.releasers| && s.releasers[j] == n;
        var k := g.releasers[j];
        assert LastIn(ids, k, n);
        PlanByName(ids, s, g, k);
        IsCaller(table, ids, s, g, k, 0, g.release);
      }
    }
  }

  lemma {:induction false} RowDefined(table: seq<Row>, ids: seq<Call>, s: Setup, g: Places, n: string, file: string)
    requires IsPlanted(table, ids, s, g) && DefinedIn(ids, n, file)
    ensures SelfWait.DefinedIn(RowsOf(table), (n, file))
  {
    var k: nat :| LastIn(ids, k, n) && ids[k].file == file;
    LastByName(table, ids, s, g, k);
  }

  lemma {:induction false} AllRowsDefined(table: seq<Row>, ids: seq<Call>, s: Setup, g: Places)
    requires IsPlanted(table, ids, s, g) && Defined(ids, s)
    ensures AllDefined(RowsOf(table), s)
  {
    var e := Expected(s);
    forall i | 0 <= i < |e|
      ensures SelfWait.DefinedIn(RowsOf(table), e[i])
    {
      ExpectedDefined(ids, s, i);
      RowDefined(table, ids, s, g, e[i].0, e[i].1);
    }
  }

  lemma {:induction false} ExpectedDefined(ids: seq<Call>, s: Setup, i: nat)
    requires Defined(ids, s) && i < |Expected(s)|
    ensures DefinedIn(ids, Expected(s)[i].0, Expected(s)[i].1)
  {
    if i >= 4 {
      assert Expected(s)[i] == (s.releasers[i - 4], s.syscallFile) && s.releasers[i - 4] in s.releasers;
    }
  }

  lemma {:induction false} PlantedClean(table: seq<Row>, ids: seq<Call>, s: Setup, g: Places)
    requires IsPlanted(table, ids, s, g) && Defined(ids, s)
    ensures Clean(RowsOf(table), s)
  {
    var rows := RowsOf(table);
    AllRowsDefined(table, ids, s, g);
    DefinedNames(rows, s);
    LastByName(table, ids, s, g, g.mark);
    LastByName(table, ids, s, g, g.release);
    MarkCallers(table, ids, s, g);
    ReleaseCallers(table, ids, s, g);
    DispatchSafe(table, ids, s, g);
    forall j | 0 <= j < |s.releasers|
      ensures s.releasers[j] in rows && WindowSafe(rows, s.releasers[j], s)
    {
      ReleaserSafe(table, ids, s, g, j);
    }
    AllSafeFrom(rows, s, |s.releasers|);
    forall i | 0 <= i < |s.arms|
      ensures ArmLive(rows, s.arms[i], s)
    {
      ArmIsLive(table, ids, s, g, i);
    }
  }

  // ----- The chain -----

  lemma {:induction false} PlantedLink(table: seq<Row>, ids: seq<Call>, s: Setup, g: Places, k: nat, i: nat, x: nat)
    requires IsPlanted(table, ids, s, g) && k < |ids| && x < |ids| && i < |PlanAt(ids, s, g, k)| && PlanAt(ids, s, g, k)[i] == x
    ensures ids[x] in Links(table)(ids[k])
  {
    FollowsDown(table, ids, PlanOf(g, ShapeOf(ids, s, g)), AnyCall(), k, i);
  }

  /** A chain goes on after a call that enters no arm. */
  lemma {:induction false} LongerWait(table: seq<Row>, s: Setup, c: Call, p: seq<Call>)
    requires ChainToGuard(table, s, p) && EntersNone(p, s) && p[0] in Links(table)(c) && !Enters(c, p[0], s)
    ensures ChainToGuard(table, s, [c] + p) && EntersNone([c] + p, s)
  {
    var q := [c] + p;
    PathCons(c, p, Links(table));
    forall i | 0 <= i < |q| - 1
      ensures !Enters(q[i], q[i + 1], s)
    {
      if i > 0 {
        assert !Enters(p[i - 1], p[(i - 1) + 1], s);
      }
    }
  }

  /** One call further from the guard. */
  lemma {:induction false} Further(table: seq<Row>, ids: seq<Call>, s: Setup, g: Places, k: nat, i: nat, x: nat, p: seq<Call>)
    returns (q: seq<Call>)
    requires IsPlanted(table, ids, s, g) && k < |ids| && x < |ids| && i < |PlanAt(ids, s, g, k)| && PlanAt(ids, s, g, k)[i] == x
    requires ChainToGuard(table, s, p) && EntersNone(p, s) && p[0] == ids[x] && !Enters(ids[k], ids[x], s)
    ensures ChainToGuard(table, s, q) && EntersNone(q, s) && q[0] == ids[k]
  {
    PlantedLink(table, ids, s, g, k, i, x);
    LongerWait(table, s, ids[k], p);
    q := [ids[k]] + p;
  }

  /** A chain to the guard that enters no arm. */
  ghost predicate Slips(table: seq<Row>, s: Setup, p: seq<Call>, c: Call) {
    ChainToGuard(table, s, p) && EntersNone(p, s) && p[0] == c
  }

  lemma {:induction false} DispatchSlips(table: seq<Row>, ids: seq<Call>, s: Setup, g: Places, p: seq<Call>) returns (q: seq<Call>)
    requires IsPlanted(table, ids, s, g) && ids[g.bad].name == s.registrar && Slips(table, s, p, ids[g.take])
    ensures Slips(table, s, q, ids[g.registrar])
  {
    BadApart(ids, s, g, g.registrar);
    BadApart(ids, s, g, g.mark);
    q := Further(table, ids, s, g, g.mark, 0, g.take, p);
    q := Further(table, ids, s, g, g.bad, 0, g.mark, q);
    q := Further(table, ids, s, g, g.registrar, 0, g.bad, q);
  }

  lemma {:induction false} TakeSlips(table: seq<Row>, ids: seq<Call>, s: Setup, g: Places, p: seq<Call>) returns (q: seq<Call>)
    requires IsPlanted(table, ids, s, g) && ids[g.bad].name == s.take && Slips(table, s, p, ids[g.take])
    ensures Slips(table, s, q, ids[g.registrar])
  {
    BadApart(ids, s, g, g.registrar);
    BadApart(ids, s, g, g.mark);
    q := Further(table, ids, s, g, g.bad, 0, g.take, p);
    q := Further(table, ids, s, g, g.mark, 0, g.bad, q);
    q := Further(table, ids, s, g, g.registrar, 0, g.mark, q);
  }

  lemma {:induction false} OtherSlips(table: seq<Row>, ids: seq<Call>, s: Setup, g: Places, p: seq<Call>) returns (q: seq<Call>)
    requires IsPlanted(table, ids, s, g) && ids[g.bad].name != s.take && ids[g.bad].name != s.registrar
    requires Slips(table, s, p, ids[g.take])
    ensures Slips(table, s, q, ids[g.registrar])
  {
    BadApart(ids, s, g, g.registrar);
    q := Further(table, ids, s, g, g.bad, 0, g.take, p);
    q := Further(table, ids, s, g, g.registrar, 1, g.bad, q);
  }

  lemma {:induction false} PlantedWaits(table: seq<Row>, ids: seq<Call>, s: Setup, g: Places) returns (p: seq<Call>)
    requires IsPlanted(table, ids, s, g)
    ensures WaitsForItself(table, s, p)
  {
    p := [ids[g.take]];
    if ids[g.bad].name == s.registrar {
      p := DispatchSlips(table, ids, s, g, p);
    } else if ids[g.bad].name == s.take {
      p := TakeSlips(table, ids, s, g, p);
    } else {
      p := OtherSlips(table, ids, s, g, p);
    }
  }

  // ----- The places -----

  lemma {:induction false} FindNames(ids: seq<Call>, names: seq<string>) returns (q: seq<nat>)
    requires forall i | 0 <= i < |names| :: HasLast(ids, names[i])
    ensures NamesAt(ids, q, names)
  {
    if names == [] {
      q := [];
    } else {
      var rest := FindNames(ids, names[1..]);
      var k: nat :| LastIn(ids, k, names[0]);
      q := [k] + rest;
    }
  }

  lemma {:induction false} FindBad(ids: seq<Call>, s: Setup) returns (bad: nat)
    requires Apart(s) && !NamesTell(ids, s)
    ensures bad < |ids| && !MayRepeat(ids[bad], s)
    ensures ids[bad].name == "*" || exists j :: bad < j < |ids| && ids[j].name == ids[bad].name
  {
    if i: nat, j: nat :| Repeats(ids, s, i, j) {
      bad := i;
    } else {
      bad :| bad < |ids| && ids[bad].name == "*";
    }
  }

  lemma {:induction false} FindPlaces(ids: seq<Call>, s: Setup) returns (g: Places)
    requires Apart(s) && Defined(ids, s) && !NamesTell(ids, s)
    ensures Placed(ids, s, g)
  {
    var t: nat :| LastIn(ids, t, s.take) && ids[t].file == s.lockFile;
    var m: nat :| LastIn(ids, m, s.mark) && ids[m].file == s.syscallFile;
    var l: nat :| LastIn(ids, l, s.release) && ids[l].file == s.syscallFile;
    var r: nat :| LastIn(ids, r, s.registrar) && ids[r].file == s.syscallFile;
    forall i | 0 <= i < |s.releasers|
      ensures HasLast(ids, s.releasers[i])
    {
      assert DefinedIn(ids, s.releasers[i], s.syscallFile);
    }
    var releasers := FindNames(ids, s.releasers);
    assert forall i | 0 <= i < |s.arms| :: s.arms[i] in s.arms;
    var arms := FindNames(ids, s.arms);
    var bad := FindBad(ids, s);
    g := Places(t, m, l, r, releasers, arms, bad);
  }

  lemma {:induction false} PlanFits(ids: seq<Call>, s: Setup, g: Places)
    requires Placed(ids, s, g)
    ensures Fits(ids, PlanOf(g, ShapeOf(ids, s, g)))
  {
    var h := ShapeOf(ids, s, g);
    ConcatBelow(h.ofRegistrar, g.arms, |ids|);
    forall k: nat
      ensures AllBelow(PlanOf(g, h)(k), |ids|)
    {
    }
  }

  lemma {:induction false} ConcatBelow(a: seq<nat>, b: seq<nat>, n: nat)
    requires AllBelow(a, n) && AllBelow(b, n)
    ensures AllBelow(a + b, n)
  {
  }

  /** Otherwise a table of these rows is clean, and a counted reader waits for itself. */
  lemma {:induction false} OverloadWaits(ids: seq<Call>, s: Setup) returns (table: seq<Row>)
    requires Apart(s) && Defined(ids, s) && !NamesTell(ids, s)
    ensures IdsOf(table) == ids && WellFormed(table) && Clean(RowsOf(table), s) && !NoSelfWait(table, s)
  {
    var g := FindPlaces(ids, s);
    var plan := PlanOf(g, ShapeOf(ids, s, g));
    PlanFits(ids, s, g);
    table := Build(ids, plan);
    BuildIds(ids, plan);
    BuildWellFormed(ids, plan);
    BuildFollows(ids, plan);
    PlantedClean(table, ids, s, g);
    var p := PlantedWaits(table, ids, s, g);
  }

  /** A clean verdict is right about every table with these rows. */
  ghost predicate RightAbout(ids: seq<Call>, s: Setup) {
    forall table | IdsOf(table) == ids && WellFormed(table) && Clean(RowsOf(table), s) :: NoSelfWait(table, s)
  }

  /** For given rows the verdict is right, whatever they call, exactly when
      names tell the rows apart. */
  lemma {:induction false} RightIff(ids: seq<Call>, s: Setup)
    requires Apart(s) && Defined(ids, s)
    ensures RightAbout(ids, s) <==> NamesTell(ids, s)
  {
    if NamesTell(ids, s) {
      forall table | IdsOf(table) == ids && WellFormed(table) && Clean(RowsOf(table), s)
        ensures NoSelfWait(table, s)
      {
        CleanMeansNoWait(table, s);
      }
    } else {
      var table := OverloadWaits(ids, s);
    }
  }

  /** An input: the arms and the take in one file, the other names in the other. */
  ghost predicate IsInput(ids: seq<Call>, s: Setup, names: seq<string>) {
    && |ids| == |s.arms| + 1 + |names|
    && (forall k | 0 <= k <= |s.arms| :: ids[k] == Call(if k < |s.arms| then s.arms[k] else s.take, s.lockFile, k))
    && forall k | |s.arms| < k < |ids| :: ids[k] == Call(names[k - |s.arms| - 1], s.syscallFile, k)
  }

  function InputOf(s: Setup, names: seq<string>): seq<Call> {
    seq(|s.arms| + 1 + |names|, k requires 0 <= k < |s.arms| + 1 + |names| =>
      if k < |s.arms| then Call(s.arms[k], s.lockFile, k)
      else if k == |s.arms| then Call(s.take, s.lockFile, k)
      else Call(names[k - |s.arms| - 1], s.syscallFile, k))
  }

  /** The names of the check in that file, and two rows of one more name. */
  function InputNamesOf(s: Setup, x: string): seq<string> {
    [s.mark, s.release, s.registrar] + s.releasers + [x, x]
  }

  lemma {:induction false} OverloadInput(s: Setup, x: string) returns (table: seq<Row>)
    requires Apart(s) && x !in [s.take, s.mark, s.release, s.registrar] + s.releasers + s.arms
    ensures IsInput(IdsOf(table), s, InputNamesOf(s, x))
    ensures WellFormed(table) && Clean(RowsOf(table), s) && !NoSelfWait(table, s)
  {
    var names := InputNamesOf(s, x);
    var ids := InputOf(s, names);
    InputDefined(s, x, names, ids);
    InputRepeats(s, x, names, ids);
    table := OverloadWaits(ids, s);
  }

  lemma {:induction false} InputRepeats(s: Setup, x: string, names: seq<string>, ids: seq<Call>)
    requires x !in [s.take, s.mark, s.release, s.registrar] + s.releasers + s.arms
    requires names == InputNamesOf(s, x) && IsInput(ids, s, names)
    ensures !NamesTell(ids, s)
  {
    var q := [s.take, s.mark, s.release, s.registrar] + s.releasers + s.arms;
    assert q[0] == s.take;
    var m := |ids| - 2;
    assert ids[m].name == x == ids[m + 1].name;
    assert Repeats(ids, s, m, m + 1);
  }

  lemma {:induction false} InputSpelled(ids: seq<Call>, s: Setup, names: seq<string>)
    requires IsInput(ids, s, names)
    ensures Spelled(ids)
  {
    assert forall k | 0 <= k < |ids| :: ids[k].line == k;
  }

  lemma {:induction false} InputTake(ids: seq<Call>, s: Setup, names: seq<string>)
    requires IsInput(ids, s, names) && s.take !in names
    ensures DefinedIn(ids, s.take, s.lockFile)
  {
    assert forall k | |s.arms| < k < |ids| :: ids[k].name in names;
    assert LastIn(ids, |s.arms|, s.take);
  }

  lemma {:induction false} InputName(ids: seq<Call>, s: Setup, names: seq<string>, i: nat)
    requires IsInput(ids, s, names) && i < |names| && forall j | i < j < |names| :: names[i] != names[j]
    ensures DefinedIn(ids, names[i], s.syscallFile)
  {
    var k := |s.arms| + 1 + i;
    assert ids[k] == Call(names[i], s.syscallFile, k);
    assert forall m | k < m < |ids| :: ids[m].name == names[m - |s.arms| - 1];
    assert LastIn(ids, k, names[i]);
  }

  lemma {:induction false} InputDefined(s: Setup, x: string, names: seq<string>, ids: seq<Call>)
    requires Apart(s) && x !in [s.take, s.mark, s.release, s.registrar] + s.releasers + s.arms
    requires names == InputNamesOf(s, x) && IsInput(ids, s, names)
    ensures Defined(ids, s)
  {
    InputNames(s, x, names);
    InputSpelled(ids, s, names);
    InputTake(ids, s, names);
    InputName(ids, s, names, 0);
    InputName(ids, s, names, 1);
    InputName(ids, s, names, 2);
    forall n | n in s.releasers
      ensures DefinedIn(ids, n, s.syscallFile)
    {
      var i :| 0 <= i < |s.releasers| && s.releasers[i] == n;
      assert names[3 + i] == n;
      InputName(ids, s, names, 3 + i);
    }
    forall n | n in s.arms
      ensures HasLast(ids, n)
    {
      var i: nat :| i < |s.arms| && s.arms[i] == n;
      assert ids[i].name == n;
      var k := FindLast(ids, i);
    }
  }

  lemma {:induction false} InputNames(s: Setup, x: string, names: seq<string>)
    requires Apart(s) && x !in [s.take, s.mark, s.release, s.registrar] + s.releasers + s.arms
    requires names == InputNamesOf(s, x)
    ensures forall i, j | 0 <= i < j < |names| && i < |names| - 2 :: names[i] != names[j]
    ensures s.take !in names
  {
    var q := [s.take, s.mark, s.release, s.registrar] + s.releasers + s.arms;
    assert q[0] == s.take && q[1] == s.mark && q[2] == s.release && q[3] == s.registrar;
    forall i | 0 <= i < |s.releasers|
      ensures s.releasers[i] in s.releasers && s.releasers[i] != x
    {
      assert q[4 + i] == s.releasers[i];
    }
    assert forall i | 3 <= i < 3 + |s.releasers| :: names[i] == s.releasers[i - 3];
  }

  lemma {:induction false} FindLast(ids: seq<Call>, k: nat) returns (m: nat)
    requires k < |ids|
    ensures LastIn(ids, m, ids[k].name)
    decreases |ids| - k
  {
    if i: nat :| k < i < |ids| && ids[i].name == ids[k].name {
      m := FindLast(ids, i);
    } else {
      m := k;
    }
  }

  /** The kernel's own names are kept apart. */
  lemma {:induction false} KernelApart()
    ensures Apart(KERNEL)
  {
    var s := KERNEL;
    KernelFilesDiffer();
    assert s.mark[20] != s.release[20];
    assert |s.take| == 18 && |s.mark| == 24 && |s.release| == 24 && |s.registrar| == 30;
    assert |s.releasers[0]| == 23 && |s.releasers[1]| == 32 && |s.arms[1]| == 21 && |s.arms[2]| == 22;
  }
}
