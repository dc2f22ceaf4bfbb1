/** The compiler's call graph table (scripts/call_graph_table.py), its rows
    already parsed, and paths of calls in it. */
module CallGraph {

  /** `name@file:line`, which names a row; an indirect call is `*`, and a
      callee without a definition has a name only: both with file "-". */
  datatype Call = Call(name: string, file: string, line: nat)

  datatype Row = Row(name: string, file: string, line: nat, callees: seq<Call>, callers: seq<Call>, params: seq<string>)

  function AnyRow(): Row -> bool {
    (r: Row) => true
  }

  function InFile(file: string): Row -> bool {
    (r: Row) => r.file == file
  }

  /** `{row["name"]: row for row in rows if keep(row)}`: a later row wins. */
  function Table(rows: seq<Row>, keep: Row -> bool): (t: map<string, Row>)
    ensures forall n | n in t :: t[n] in rows && t[n].name == n && keep(t[n])
  {
    if rows == [] then map[]
    else
      var last := rows[|rows| - 1];
      var t := Table(rows[..|rows| - 1], keep);
      if keep(last) then t[last.name := last] else t
  }

  lemma {:induction false} TableHas(rows: seq<Row>, keep: Row -> bool, i: nat)
    requires i < |rows| && keep(rows[i])
    ensures rows[i].name in Table(rows, keep)
  {
    if i < |rows| - 1 {
      TableHas(rows[..|rows| - 1], keep, i);
    }
  }

  // ----- The row a name stands for -----

  /** No later row of those kept has the name. */
  ghost predicate IsLast(table: seq<Row>, keep: Row -> bool, k: nat) {
    k < |table| && keep(table[k]) && forall i | k < i < |table| && keep(table[i]) :: table[i].name != table[k].name
  }

  lemma {:induction false} LastWins(table: seq<Row>, keep: Row -> bool, k: nat)
    requires IsLast(table, keep, k)
    ensures table[k].name in Table(table, keep) && Table(table, keep)[table[k].name] == table[k]
  {
    if k < |table| - 1 {
      LastWins(table[..|table| - 1], keep, k);
    }
  }

  /** Some row is the last of its name. */
  lemma {:induction false} SomeLast(table: seq<Row>, keep: Row -> bool, i: nat) returns (k: nat)
    requires i < |table| && keep(table[i])
    ensures IsLast(table, keep, k) && table[k].name == table[i].name && i <= k
    decreases |table| - i
  {
    if j: nat :| i < j < |table| && keep(table[j]) && table[j].name == table[i].name {
      k := SomeLast(table, keep, j);
    } else {
      k := i;
    }
  }

  lemma {:induction false} NameHasLast(table: seq<Row>, keep: Row -> bool, n: string) returns (k: nat)
    requires n in Table(table, keep)
    ensures IsLast(table, keep, k) && table[k].name == n && Table(table, keep)[n] == table[k]
  {
    var i: nat :| i < |table| && table[i] == Table(table, keep)[n];
    k := SomeLast(table, keep, i);
    LastWins(table, keep, k);
  }

  /** Row k is the last of its name in the file. */
  ghost predicate LastOf(rows: seq<Row>, k: nat, n: string, file: string) {
    && k < |rows| && rows[k].name == n && rows[k].file == file
    && forall i | k < i < |rows| && rows[i].name == n :: rows[i].file != file
  }

  /** A name in a file stands for its last row there. */
  lemma {:induction false} LastRow(rows: seq<Row>, n: string, file: string)
    ensures n in Table(rows, InFile(file)) <==> exists k :: 0 <= k < |rows| && LastOf(rows, k, n, file)
    ensures forall k: nat | LastOf(rows, k, n, file) :: n in Table(rows, InFile(file)) && Table(rows, InFile(file))[n] == rows[k]
  {
    var keep := InFile(file);
    forall k: nat | LastOf(rows, k, n, file)
      ensures n in Table(rows, keep) && Table(rows, keep)[n] == rows[k]
    {
      assert IsLast(rows, keep, k);
      LastWins(rows, keep, k);
    }
    if n in Table(rows, keep) {
      var k := NameHasLast(rows, keep, n);
      assert LastOf(rows, k, n, file);
    }
  }

  /** Row k is the last of its name. */
  ghost predicate LastNamed(rows: seq<Row>, k: nat, n: string) {
    k < |rows| && rows[k].name == n && forall i | k < i < |rows| :: rows[i].name != n
  }

  lemma {:induction false} LastNamedRow(rows: seq<Row>, n: string)
    ensures n in Table(rows, AnyRow()) <==> exists k :: 0 <= k < |rows| && LastNamed(rows, k, n)
    ensures forall k: nat | LastNamed(rows, k, n) :: n in Table(rows, AnyRow()) && Table(rows, AnyRow())[n] == rows[k]
  {
    var keep := AnyRow();
    forall k: nat | LastNamed(rows, k, n)
      ensures n in Table(rows, keep) && Table(rows, keep)[n] == rows[k]
    {
      assert IsLast(rows, keep, k);
      LastWins(rows, keep, k);
    }
    if n in Table(rows, keep) {
      var k := NameHasLast(rows, keep, n);
      assert LastNamed(rows, k, n);
    }
  }

  lemma {:induction false} SameEdges(a: string, b: string, e: Edges, f: Edges)
    requires forall n :: e(n) == f(n)
    ensures Leads(a, b, e) <==> Leads(a, b, f)
  {
    if p :| PathBetween(p, a, b, e) {
      assert PathBetween(p, a, b, f);
    }
    if p :| PathBetween(p, a, b, f) {
      assert PathBetween(p, a, b, e);
    }
  }

  function Names(calls: seq<Call>): (ns: seq<string>)
    ensures |ns| == |calls| && forall i | 0 <= i < |calls| :: ns[i] == calls[i].name
  {
    seq(|calls|, i requires 0 <= i < |calls| => calls[i].name)
  }

  function Elements(q: seq<string>): set<string> {
    if q == [] then {} else Elements(q[..|q| - 1]) + {q[|q| - 1]}
  }

  lemma {:induction false} ElementsAre(q: seq<string>, n: string)
    ensures n in q <==> n in Elements(q)
  {
    if q != [] {
      ElementsAre(q[..|q| - 1], n);
      assert q == q[..|q| - 1] + [q[|q| - 1]];
    }
  }

  lemma {:induction false} ElementsConcat(q: seq<string>, r: seq<string>)
    ensures Elements(q + r) == Elements(q) + Elements(r)
  {
    if r == [] {
      assert q + r == q;
    } else {
      var front := r[..|r| - 1];
      ElementsConcat(q, front);
      assert (q + r)[..|q + r| - 1] == q + front;
    }
  }

  function NameSet(calls: seq<Call>): set<string> {
    Elements(Names(calls))
  }

  lemma {:induction false} NameSetHas(calls: seq<Call>, i: nat)
    requires i < |calls|
    ensures calls[i].name in NameSet(calls)
  {
    assert Names(calls)[i] == calls[i].name;
    ElementsAre(Names(calls), calls[i].name);
  }

  lemma {:induction false} NameSetIs(calls: seq<Call>, n: string)
    ensures n in NameSet(calls) <==> exists c | c in calls :: c.name == n
  {
    ElementsAre(Names(calls), n);
    if n in Names(calls) {
      var i :| 0 <= i < |calls| && Names(calls)[i] == n;
      assert calls[i] in calls;
    }
    if c :| c in calls && c.name == n {
      var i :| 0 <= i < |calls| && calls[i] == c;
      assert Names(calls)[i] == n;
    }
  }

  // ----- Paths -----

  /** The functions a function's calls lead to. */
  type Edges = string -> set<string>

  ghost predicate IsPath<T>(p: seq<T>, e: T -> set<T>) {
    |p| > 0 && forall i | 0 <= i < |p| - 1 :: p[i + 1] in e(p[i])
  }

  ghost predicate PathBetween(p: seq<string>, a: string, b: string, e: Edges) {
    IsPath(p, e) && p[0] == a && p[|p| - 1] == b
  }

  ghost predicate Leads(a: string, b: string, e: Edges) {
    exists p :: PathBetween(p, a, b, e)
  }

  lemma {:induction false} PathExtend(p: seq<string>, b: string, e: Edges)
    requires IsPath(p, e) && b in e(p[|p| - 1])
    ensures IsPath(p + [b], e)
  {
    var q := p + [b];
    assert forall i | 0 <= i < |p| :: q[i] == p[i];
  }

  lemma {:induction false} PathPrepend(a: string, p: seq<string>, e: Edges)
    requires IsPath(p, e) && p[0] in e(a)
    ensures IsPath([a] + p, e)
  {
    var q := [a] + p;
    assert forall i | 0 <= i < |p| :: q[i + 1] == p[i];
  }

  lemma {:induction false} LeadsItself(a: string, e: Edges)
    ensures Leads(a, a, e)
  {
    assert PathBetween([a], a, a, e);
  }

  lemma {:induction false} LeadsPrepend(a: string, b: string, c: string, e: Edges)
    requires b in e(a) && Leads(b, c, e)
    ensures Leads(a, c, e)
  {
    var p :| PathBetween(p, b, c, e);
    PathPrepend(a, p, e);
    assert PathBetween([a] + p, a, c, e);
  }

  /** A set closed under the calls of its members holds every path from it. */
  lemma {:induction false} ClosedHoldsPath(s: set<string>, p: seq<string>, i: nat, e: Edges)
    requires IsPath(p, e) && i < |p| && p[0] in s
    requires forall n | n in s :: e(n) <= s
    ensures p[i] in s
  {
    if i > 0 {
      ClosedHoldsPath(s, p, i - 1, e);
    }
  }
}
