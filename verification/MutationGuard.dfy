/** Every ext2 mutation outside the filesystem's own files holds the mutation
    guard (scripts/buildcheck_ext2_mutation_guard.py): a least fixpoint over
    the calls of one file, and the verdict built on it. */
module MutationGuard {
  import opened CallGraph

  /** The names the check is about. */
  datatype Setup = Setup(
    mutators: seq<string>, blockWrite: string, mutatorFile: string,
    take: string, lockFile: string, held: string, allowed: seq<string>)

  const KERNEL := Setup(
    ["ext2_resize_small_file", "ext2_create_root_file", "ext2_unlink_root_file", "ext2_create_file_in",
     "ext2_create_empty_file_in", "ext2_truncate_regular_file", "ext2_unlink_file_in", "ext2_make_directory_in",
     "ext2_claim_directory", "ext2_unlink_name", "ext2_rename_in", "ext2_remove_directory_in",
     "ext2_write_regular_file_range", "ext2_replace_regular_file", "ext2_bitmap_fill", "ext2_bitmap_roundtrip_check",
     "ext2_owner_roundtrip_check", "ext2_write_allocations_roundtrip_check"],
    "ext2_block_write", "kernel/fs/ext2/ext2.tkb",
    "ext2_mutation_take", "kernel/fs/ext2/mutation_lock.tkb", "guard: borrow Ext2MutationGuard[ext2_mutation]",
    ["kernel/init/ext2_fixture.tkb"])

  /** A call into the file that defines the mutators. */
  predicate Inside(c: Call, s: Setup) {
    c.file == s.mutatorFile
  }

  function InsideNames(calls: seq<Call>, j: nat, s: Setup): set<string>
    requires j <= |calls|
  {
    if j == 0 then {}
    else InsideNames(calls, j - 1, s) + if Inside(calls[j - 1], s) then {calls[j - 1].name} else {}
  }

  type Callees = map<string, set<string>>

  /** What each function of that file calls in it. */
  function CalleesOf(rows: seq<Row>, s: Setup): Callees {
    var t := Table(rows, InFile(s.mutatorFile));
    map n | n in t :: InsideNames(t[n].callees, |t[n].callees|, s)
  }

  // ----- The functions that reach a block write -----

  predicate CallsOne(n: string, w: set<string>, callees: Callees)
    requires n in callees
  {
    callees[n] * w != {}
  }

  ghost predicate Closed(w: set<string>, root: string, callees: Callees) {
    root in w && forall n | n in callees && CallsOne(n, w, callees) :: n in w
  }

  ghost predicate Below(w: set<string>, root: string, callees: Callees) {
    forall v | Closed(v, root, callees) :: w <= v
  }

  lemma {:induction false} AddBelow(w: set<string>, n: string, root: string, callees: Callees)
    requires Below(w, root, callees) && n in callees && CallsOne(n, w, callees)
    ensures Below(w + {n}, root, callees)
  {
    forall v | Closed(v, root, callees)
      ensures w + {n} <= v
    {
      var c :| c in callees[n] * w;
      assert c in callees[n] * v;
    }
  }

  /** One pass over the table, in any order. */
  method Pass(writers: set<string>, callees: Callees, ghost root: string) returns (w: set<string>, grew: bool)
    requires Below(writers, root, callees) && writers <= {root} + callees.Keys
    ensures writers <= w <= {root} + callees.Keys && Below(w, root, callees)
    ensures grew ==> writers < w
    ensures !grew ==> w == writers && forall n | n in callees && CallsOne(n, w, callees) :: n in w
  {
    w, grew := writers, false;
    var todo := callees.Keys;
    while todo != {}
      invariant todo <= callees.Keys && writers <= w <= {root} + callees.Keys && Below(w, root, callees)
      invariant grew ==> writers < w
      invariant !grew ==> w == writers && forall n | n in callees.Keys - todo && CallsOne(n, w, callees) :: n in w
      decreases todo
    {
      var name :| name in todo;
      todo := todo - {name};
      if name !in w && CallsOne(name, w, callees) {
        AddBelow(w, name, root, callees);
        w, grew := w + {name}, true;
      }
    }
  }

  /** The least set of functions that holds the block write and every caller of a member. */
  method BlockWriters(callees: Callees, root: string) returns (writers: set<string>)
    ensures Closed(writers, root, callees) && Below(writers, root, callees)
  {
    writers := {root};
    var grew := true;
    while grew
      invariant root in writers && writers <= {root} + callees.Keys && Below(writers, root, callees)
      invariant !grew ==> Closed(writers, root, callees)
      decreases {root} + callees.Keys - writers, grew
    {
      writers, grew := Pass(writers, callees, root);
    }
  }

  function EdgesOf(callees: Callees): Edges {
    n => if n in callees then callees[n] else {}
  }

  lemma {:induction false} PathIn(w: set<string>, p: seq<string>, root: string, callees: Callees)
    requires Closed(w, root, callees) && IsPath(p, EdgesOf(callees)) && p[|p| - 1] == root
    ensures p[0] in w
    decreases |p|
  {
    if |p| > 1 {
      var tail := p[1..];
      assert forall i | 0 <= i < |tail| :: tail[i] == p[i + 1];
      PathIn(w, tail, root, callees);
      assert p[1] in callees[p[0]] * w;
    }
  }

  /** What the least set is: the functions from which calls in the file lead to the block write. */
  lemma {:induction false} WritersReach(w: set<string>, root: string, callees: Callees, n: string)
    requires Closed(w, root, callees) && Below(w, root, callees)
    ensures n in w <==> Leads(n, root, EdgesOf(callees))
  {
    var e := EdgesOf(callees);
    if p :| PathBetween(p, n, root, e) {
      PathIn(w, p, root, callees);
    }
    var v := set m | m in w && Leads(m, root, e);
    ReachersClosed(w, v, root, callees);
  }

  lemma {:induction false} ReachersClosed(w: set<string>, v: set<string>, root: string, callees: Callees)
    requires Closed(w, root, callees) && v == set m | m in w && Leads(m, root, EdgesOf(callees))
    ensures Closed(v, root, callees)
  {
    var e := EdgesOf(callees);
    assert PathBetween([root], root, root, e);
    forall n | n in callees && CallsOne(n, v, callees)
      ensures n in v
    {
      var c :| c in callees[n] * v;
      assert c in callees[n] * w;
      var p :| PathBetween(p, c, root, e);
      PathPrepend(n, p, e);
      assert PathBetween([n] + p, n, root, e);
    }
  }

  // ----- The verdict -----

  predicate Outside(row: Row, s: Setup) {
    row.file != s.mutatorFile && row.file != s.lockFile
  }

  /** `mutators_called` is not empty. */
  predicate Mutates(row: Row, s: Setup) {
    exists j | 0 <= j < |row.callees| :: Inside(row.callees[j], s) && row.callees[j].name in s.mutators
  }

  predicate TakesGuard(row: Row, s: Setup) {
    (exists j | 0 <= j < |row.callees| :: row.callees[j].name == s.take && row.callees[j].file == s.lockFile) || s.held in row.params
  }

  /** A call that rewrites blocks and is not one of the mutators. */
  predicate Unlisted(c: Call, writers: set<string>, s: Setup) {
    Inside(c, s) && c.name in writers && c.name !in s.mutators
  }

  /** The calls from outside that lead to a block write are all listed. */
  ghost predicate Listed(row: Row, e: Edges, s: Setup) {
    Outside(row, s) ==>
      forall j | 0 <= j < |row.callees| ::
        Inside(row.callees[j], s) && Leads(row.callees[j].name, s.blockWrite, e) ==> row.callees[j].name in s.mutators
  }

  predicate Guarded(row: Row, s: Setup) {
    Outside(row, s) && Mutates(row, s) ==> TakesGuard(row, s) || row.file in s.allowed
  }

  predicate Defines(rows: seq<Row>, name: string, file: string) {
    exists i | 0 <= i < |rows| :: rows[i].name == name && rows[i].file == file
  }

  predicate MutatesIn(rows: seq<Row>, file: string, s: Setup) {
    exists i | 0 <= i < |rows| :: rows[i].file == file && Mutates(rows[i], s)
  }

  ghost predicate Clean(rows: seq<Row>, s: Setup) {
    && (forall i | 0 <= i < |rows| :: Listed(rows[i], EdgesOf(CalleesOf(rows, s)), s))
    && (forall i | 0 <= i < |s.mutators| :: Defines(rows, s.mutators[i], s.mutatorFile))
    && Defines(rows, s.take, s.lockFile)
    && (forall i | 0 <= i < |rows| :: Guarded(rows[i], s))
    && (forall i | 0 <= i < |s.allowed| :: MutatesIn(rows, s.allowed[i], s))
  }

  datatype Problem =
    | UnlistedMutator(name: string)
    | UndefinedMutator(name: string)
    | UndefinedTake
    | Unguarded(row: Row)
    | StaleAllowance(file: string)

  /** A row outside calls the function of that name in the mutator file. */
  ghost predicate CallsFromOutside(row: Row, n: string, s: Setup) {
    Outside(row, s) && exists j :: 0 <= j < |row.callees| && Inside(row.callees[j], s) && row.callees[j].name == n
  }

  /** A problem that is there. */
  ghost predicate IsTrue(p: Problem, rows: seq<Row>, s: Setup) {
    match p
    case UnlistedMutator(n) =>
      && Leads(n, s.blockWrite, EdgesOf(CalleesOf(rows, s))) && n !in s.mutators
      && exists i :: 0 <= i < |rows| && CallsFromOutside(rows[i], n, s)
    case UndefinedMutator(n) => n in s.mutators && !Defines(rows, n, s.mutatorFile)
    case UndefinedTake => !Defines(rows, s.take, s.lockFile)
    case Unguarded(row) => row in rows && !Guarded(row, s)
    case StaleAllowance(f) => f in s.allowed && !MutatesIn(rows, f, s)
  }

  ghost predicate CallsMutator(row: Row, s: Setup) {
    exists c | c in row.callees :: c.file == s.mutatorFile && c.name in s.mutators
  }

  /** The same, said of the rows and the names of the check. */
  ghost predicate Fault(p: Problem, rows: seq<Row>, s: Setup) {
    match p
    case UnlistedMutator(n) =>
      && n !in s.mutators && Leads(n, s.blockWrite, FileCalls(rows, s))
      && exists row, c :: row in rows && c in row.callees && row.file != s.mutatorFile && row.file != s.lockFile
                          && c.file == s.mutatorFile && c.name == n
    case UndefinedMutator(n) => n in s.mutators && forall row | row in rows && row.name == n :: row.file != s.mutatorFile
    case UndefinedTake => forall row | row in rows && row.name == s.take :: row.file != s.lockFile
    case Unguarded(row) =>
      && row in rows && row.file != s.mutatorFile && row.file != s.lockFile && row.file !in s.allowed
      && CallsMutator(row, s) && s.held !in row.params
      && forall c | c in row.callees && c.name == s.take :: c.file != s.lockFile
    case StaleAllowance(f) => f in s.allowed && forall row | row in rows && row.file == f :: !CallsMutator(row, s)
  }

  /** By name, the calls inside the file of the last row with each name. */
  ghost function FileCalls(rows: seq<Row>, s: Setup): Edges {
    n => set k, c | 0 <= k < |rows| && LastOf(rows, k, n, s.mutatorFile) && c in rows[k].callees && c.file == s.mutatorFile :: c.name
  }

  lemma {:induction false} InsideNamesAre(calls: seq<Call>, j: nat, s: Setup, n: string)
    requires j <= |calls|
    ensures n in InsideNames(calls, j, s) <==> exists i | 0 <= i < j :: calls[i].file == s.mutatorFile && calls[i].name == n
  {
    if j > 0 {
      InsideNamesAre(calls, j - 1, s, n);
    }
  }

  lemma {:induction false} FileCallsAre(rows: seq<Row>, s: Setup)
    ensures forall n :: EdgesOf(CalleesOf(rows, s))(n) == FileCalls(rows, s)(n)
  {
    forall n
      ensures EdgesOf(CalleesOf(rows, s))(n) == FileCalls(rows, s)(n)
    {
      LastRow(rows, n, s.mutatorFile);
      forall d
        ensures d in EdgesOf(CalleesOf(rows, s))(n) <==> d in FileCalls(rows, s)(n)
      {
        FileCallIs(rows, s, n, d);
      }
    }
  }

  lemma {:induction false} FileCallIs(rows: seq<Row>, s: Setup, n: string, d: string)
    ensures d in EdgesOf(CalleesOf(rows, s))(n) <==> d in FileCalls(rows, s)(n)
  {
    LastRow(rows, n, s.mutatorFile);
    var t := Table(rows, InFile(s.mutatorFile));
    if n in t {
      var calls := t[n].callees;
      InsideNamesAre(calls, |calls|, s, d);
      if d in EdgesOf(CalleesOf(rows, s))(n) {
        var i :| 0 <= i < |calls| && calls[i].file == s.mutatorFile && calls[i].name == d;
        assert calls[i] in calls;
      }
    }
  }

  /** A problem that is there is one that the rows show. */
  lemma {:induction false} TrueIff(p: Problem, rows: seq<Row>, s: Setup)
    ensures IsTrue(p, rows, s) <==> Fault(p, rows, s)
  {
    match p
    case UnlistedMutator(n) =>
      FileCallsAre(rows, s);
      SameEdges(n, s.blockWrite, EdgesOf(CalleesOf(rows, s)), FileCalls(rows, s));
      if Fault(p, rows, s) {
        var row, c :| row in rows && c in row.callees && row.file != s.mutatorFile && row.file != s.lockFile
                      && c.file == s.mutatorFile && c.name == n;
        var i :| 0 <= i < |rows| && rows[i] == row;
        assert CallsFromOutside(rows[i], n, s);
      }
    case _ =>
  }

  ghost predicate AllTrue(problems: seq<Problem>, rows: seq<Row>, s: Setup) {
    forall k {:trigger problems[k]} | 0 <= k < |problems| :: IsTrue(problems[k], rows, s)
  }

  lemma {:induction false} MoreTrue(p: seq<Problem>, q: seq<Problem>, rows: seq<Row>, s: Setup)
    requires AllTrue(p, rows, s) && AllTrue(q, rows, s)
    ensures AllTrue(p + q, rows, s)
  {
  }

  lemma {:induction false} AddTrue(p: seq<Problem>, q: Problem, rows: seq<Row>, s: Setup)
    requires AllTrue(p, rows, s) && IsTrue(q, rows, s)
    ensures AllTrue(p + [q], rows, s)
  {
  }

  method UnlistedIn(row: Row, writers: set<string>, s: Setup) returns (found: set<string>)
    ensures found == {} <==> Outside(row, s) ==> forall j | 0 <= j < |row.callees| :: !Unlisted(row.callees[j], writers, s)
    ensures forall n :: n in found <==> n in writers && n !in s.mutators && CallsFromOutside(row, n, s)
  {
    found := {};
    if Outside(row, s) {
      for j := 0 to |row.callees|
        invariant found == {} <==> forall i | 0 <= i < j :: !Unlisted(row.callees[i], writers, s)
        invariant forall n | n in found :: n in writers && n !in s.mutators && CallsFromOutside(row, n, s)
        invariant forall i | 0 <= i < j && Unlisted(row.callees[i], writers, s) :: row.callees[i].name in found
      {
        if Unlisted(row.callees[j], writers, s) {
          found := found + {row.callees[j].name};
        }
      }
    }
  }

  lemma {:induction false} ListedIff(row: Row, writers: set<string>, callees: Callees, s: Setup)
    requires Closed(writers, s.blockWrite, callees) && Below(writers, s.blockWrite, callees)
    ensures Listed(row, EdgesOf(callees), s)
            <==> (Outside(row, s) ==> forall j | 0 <= j < |row.callees| :: !Unlisted(row.callees[j], writers, s))
  {
    forall j | 0 <= j < |row.callees|
      ensures row.callees[j].name in writers <==> Leads(row.callees[j].name, s.blockWrite, EdgesOf(callees))
    {
      WritersReach(writers, s.blockWrite, callees, row.callees[j].name);
    }
  }

  method UnlistedMutators(rows: seq<Row>, s: Setup) returns (found: set<string>)
    ensures found == {} <==> forall i | 0 <= i < |rows| :: Listed(rows[i], EdgesOf(CalleesOf(rows, s)), s)
    ensures forall n :: n in found <==> IsTrue(UnlistedMutator(n), rows, s)
  {
    var callees := CalleesOf(rows, s);
    var writers := BlockWriters(callees, s.blockWrite);
    found := {};
    for i := 0 to |rows|
      invariant found == {} <==> forall k | 0 <= k < i :: Listed(rows[k], EdgesOf(callees), s)
      invariant forall n | n in found :: n in writers && n !in s.mutators && exists k :: 0 <= k < i && CallsFromOutside(rows[k], n, s)
      invariant forall n, k | 0 <= k < i && CallsFromOutside(rows[k], n, s) && n in writers && n !in s.mutators :: n in found
    {
      var more := UnlistedIn(rows[i], writers, s);
      ListedIff(rows[i], writers, callees, s);
      found := found + more;
    }
    forall n
      ensures n in found <==> IsTrue(UnlistedMutator(n), rows, s)
    {
      WritersReach(writers, s.blockWrite, callees, n);
    }
  }

  method UndefinedMutators(rows: seq<Row>, s: Setup) returns (problems: seq<Problem>)
    ensures problems == [] <==> forall i | 0 <= i < |s.mutators| :: Defines(rows, s.mutators[i], s.mutatorFile)
    ensures AllTrue(problems, rows, s) && forall p: Problem | p.UndefinedMutator? && IsTrue(p, rows, s) :: p in problems
  {
    problems := [];
    for i := 0 to |s.mutators|
      invariant problems == [] <==> forall k | 0 <= k < i :: Defines(rows, s.mutators[k], s.mutatorFile)
      invariant forall k | 0 <= k < i && !Defines(rows, s.mutators[k], s.mutatorFile) :: UndefinedMutator(s.mutators[k]) in problems
      invariant AllTrue(problems, rows, s)
    {
      if !Defines(rows, s.mutators[i], s.mutatorFile) {
        AddTrue(problems, UndefinedMutator(s.mutators[i]), rows, s);
        problems := problems + [UndefinedMutator(s.mutators[i])];
      }
    }
  }

  /** The rows seen to mutate under the guard. */
  function GuardedCount(rows: seq<Row>, i: nat, s: Setup): nat
    requires i <= |rows|
  {
    if i == 0 then 0
    else GuardedCount(rows, i - 1, s)
         + if Outside(rows[i - 1], s) && Mutates(rows[i - 1], s) && TakesGuard(rows[i - 1], s) then 1 else 0
  }

  /** A row counted: outside, it calls a mutator, and takes or holds the guard. */
  ghost predicate Holds(row: Row, s: Setup) {
    && row.file != s.mutatorFile && row.file != s.lockFile && CallsMutator(row, s)
    && (s.held in row.params || exists c | c in row.callees :: c.name == s.take && c.file == s.lockFile)
  }

  ghost function HoldersIn(rows: seq<Row>, i: nat, s: Setup): set<nat>
    requires i <= |rows|
  {
    set k: nat | k < i && Holds(rows[k], s)
  }

  lemma {:induction false} HoldsIff(row: Row, s: Setup)
    ensures Holds(row, s) <==> Outside(row, s) && Mutates(row, s) && TakesGuard(row, s)
  {
  }

  /** The count is of the rows that call a mutator and take or hold the guard. */
  lemma {:induction false} GuardedCountIs(rows: seq<Row>, i: nat, s: Setup)
    requires i <= |rows|
    ensures GuardedCount(rows, i, s) == |HoldersIn(rows, i, s)|
  {
    if i > 0 {
      GuardedCountIs(rows, i - 1, s);
      HoldsIff(rows[i - 1], s);
      HoldersNext(rows, i, s);
    }
  }

  lemma {:induction false} HoldersNext(rows: seq<Row>, i: nat, s: Setup)
    requires 0 < i <= |rows|
    ensures |HoldersIn(rows, i, s)| == |HoldersIn(rows, i - 1, s)| + if Holds(rows[i - 1], s) then 1 else 0
  {
    assert HoldersIn(rows, i, s) == HoldersIn(rows, i - 1, s) + if Holds(rows[i - 1], s) then {i - 1} else {};
  }

  method UnguardedRows(rows: seq<Row>, s: Setup) returns (problems: seq<Problem>, guarded: nat)
    ensures problems == [] <==> forall i | 0 <= i < |rows| :: Guarded(rows[i], s)
    ensures AllTrue(problems, rows, s) && forall p: Problem | p.Unguarded? && IsTrue(p, rows, s) :: p in problems
    ensures guarded == GuardedCount(rows, |rows|, s)
  {
    problems, guarded := [], 0;
    for i := 0 to |rows|
      invariant problems == [] <==> forall k | 0 <= k < i :: Guarded(rows[k], s)
      invariant forall k | 0 <= k < i && !Guarded(rows[k], s) :: Unguarded(rows[k]) in problems
      invariant AllTrue(problems, rows, s)
      invariant guarded == GuardedCount(rows, i, s)
    {
      if Outside(rows[i], s) && Mutates(rows[i], s) {
        if TakesGuard(rows[i], s) {
          guarded := guarded + 1;
        } else if rows[i].file !in s.allowed {
          AddTrue(problems, Unguarded(rows[i]), rows, s);
          problems := problems + [Unguarded(rows[i])];
        }
      }
    }
  }

  method StaleAllowances(rows: seq<Row>, s: Setup) returns (problems: seq<Problem>)
    ensures problems == [] <==> forall i | 0 <= i < |s.allowed| :: MutatesIn(rows, s.allowed[i], s)
    ensures AllTrue(problems, rows, s) && forall p: Problem | p.StaleAllowance? && IsTrue(p, rows, s) :: p in problems
  {
    problems := [];
    for i := 0 to |s.allowed|
      invariant problems == [] <==> forall k | 0 <= k < i :: MutatesIn(rows, s.allowed[k], s)
      invariant forall k | 0 <= k < i && !MutatesIn(rows, s.allowed[k], s) :: StaleAllowance(s.allowed[k]) in problems
      invariant AllTrue(problems, rows, s)
    {
      if !MutatesIn(rows, s.allowed[i], s) {
        AddTrue(problems, StaleAllowance(s.allowed[i]), rows, s);
        problems := problems + [StaleAllowance(s.allowed[i])];
      }
    }
  }

  /** Every problem that is there is reported, and no other. */
  method GuardProblems(rows: seq<Row>, s: Setup) returns (problems: seq<Problem>, guarded: nat)
    ensures problems == [] <==> Clean(rows, s)
    ensures forall p :: p in problems <==> Fault(p, rows, s)
    ensures guarded == GuardedCount(rows, |rows|, s)
  {
    var found := UnlistedMutators(rows, s);
    var unlisted := ListUnlisted(found, rows, s);
    var undefined := UndefinedMutators(rows, s);
    var take := if Defines(rows, s.take, s.lockFile) then [] else [UndefinedTake];
    var unguarded, n := UnguardedRows(rows, s);
    var stale := StaleAllowances(rows, s);
    MoreTrue(unlisted, undefined, rows, s);
    MoreTrue(unlisted + undefined, take, rows, s);
    MoreTrue(unlisted + undefined + take, unguarded, rows, s);
    MoreTrue(unlisted + undefined + take + unguarded, stale, rows, s);
    problems, guarded := unlisted + undefined + take + unguarded + stale, n;
    forall p
      ensures p in problems <==> Fault(p, rows, s)
    {
      TrueIff(p, rows, s);
      if IsTrue(p, rows, s) {
        InOne(p, unlisted, undefined, take, unguarded, stale);
      }
    }
  }

  lemma {:induction false} InOne<T>(p: T, a: seq<T>, b: seq<T>, c: seq<T>, d: seq<T>, e: seq<T>)
    ensures p in a + b + c + d + e <==> p in a || p in b || p in c || p in d || p in e
  {
  }

  method ListUnlisted(found: set<string>, ghost rows: seq<Row>, ghost s: Setup) returns (problems: seq<Problem>)
    requires forall n | n in found :: IsTrue(UnlistedMutator(n), rows, s)
    ensures problems == [] <==> found == {}
    ensures AllTrue(problems, rows, s) && forall n | n in found :: UnlistedMutator(n) in problems
  {
    problems := [];
    var left := found;
    while left != {}
      invariant left <= found && (problems == [] <==> left == found) && AllTrue(problems, rows, s)
      invariant forall n | n in found && n !in left :: UnlistedMutator(n) in problems
      decreases left
    {
      var n :| n in left;
      AddTrue(problems, UnlistedMutator(n), rows, s);
      left := left - {n};
      problems := problems + [UnlistedMutator(n)];
    }
  }

  // ----- What a clean verdict means -----

  /** After a clean verdict a function outside the filesystem's own files that
      calls into it, by a call from which a block write can be reached there,
      takes the guard or is in a file allowed not to. */
  lemma {:induction false} CleanMeansGuarded(rows: seq<Row>, s: Setup, i: nat, j: nat)
    requires Clean(rows, s) && i < |rows| && Outside(rows[i], s) && j < |rows[i].callees|
    requires Inside(rows[i].callees[j], s) && Leads(rows[i].callees[j].name, s.blockWrite, EdgesOf(CalleesOf(rows, s)))
    ensures TakesGuard(rows[i], s) || rows[i].file in s.allowed
  {
    assert Listed(rows[i], EdgesOf(CalleesOf(rows, s)), s) && Guarded(rows[i], s);
    assert Mutates(rows[i], s);
  }
}
