/** The call graph table's own graph, in which a call leads to the row it names
    (docs/CALL_GRAPH.md), beside the graph by name alone that the checks walk.
    Overloads share a name, so the two differ; here is what both sides of that
    need. */
module TableGraph {
  import opened CallGraph

  /** How a call names the row. */
  function Id(r: Row): Call {
    Call(r.name, r.file, r.line)
  }

  /** The calls of the rows a call names, those that `follow` keeps. */
  ghost function Down(table: seq<Row>, follow: Call -> bool): Call -> set<Call> {
    c => set i, d | 0 <= i < |table| && Id(table[i]) == c && d in table[i].callees && follow(d) :: d
  }

  function AnyCall(): Call -> bool {
    (c: Call) => true
  }

  function CallInto(file: string): Call -> bool {
    (c: Call) => c.file == file
  }

  lemma {:induction false} DownRow(table: seq<Row>, follow: Call -> bool, c: Call, d: Call) returns (i: nat)
    requires d in Down(table, follow)(c)
    ensures i < |table| && Id(table[i]) == c && d in table[i].callees && follow(d)
  {
    i :| 0 <= i < |table| && Id(table[i]) == c && d in table[i].callees && follow(d);
  }

  lemma {:induction false} DownHas(table: seq<Row>, follow: Call -> bool, i: nat, j: nat)
    requires i < |table| && j < |table[i].callees| && follow(table[i].callees[j])
    ensures table[i].callees[j] in Down(table, follow)(Id(table[i]))
  {
    assert table[i].callees[j] in table[i].callees;
  }

  lemma {:induction false} PathTail<T>(p: seq<T>, e: T -> set<T>)
    requires IsPath(p, e) && |p| > 1
    ensures IsPath(p[1..], e) && p[1] in e(p[0]) && p[1..][0] == p[1] && p[1..][|p| - 2] == p[|p| - 1]
  {
    var q := p[1..];
    assert forall i | 0 <= i < |q| :: q[i] == p[i + 1];
  }

  // ----- Tables with given rows -----

  /** The rows of a table, apart from their contents. */
  function IdsOf(table: seq<Row>): (ids: seq<Call>)
    ensures |ids| == |table| && forall i | 0 <= i < |table| :: ids[i] == Id(table[i])
  {
    seq(|table|, i requires 0 <= i < |table| => Id(table[i]))
  }

  /** What the compiler promises of a table: a callee that is defined has a
      row, and the callers of a row are the rows that call it. */
  ghost predicate WellFormed(table: seq<Row>) {
    && (forall i | 0 <= i < |table| :: Resolved(table, table[i].callees))
    && forall i | 0 <= i < |table| :: forall c :: c in table[i].callers <==> CalledBy(table, Id(table[i]), c)
  }

  ghost predicate Resolved(table: seq<Row>, calls: seq<Call>) {
    forall c | c in calls && c.file != "-" :: HasRow(table, c)
  }

  ghost predicate HasRow(table: seq<Row>, c: Call) {
    exists i :: 0 <= i < |table| && Id(table[i]) == c
  }

  ghost predicate CalledBy(table: seq<Row>, d: Call, c: Call) {
    exists i :: 0 <= i < |table| && Id(table[i]) == c && d in table[i].callees
  }

  /** Rows of one file with given names. */
  function Listing(names: seq<string>, file: string): (ids: seq<Call>)
    ensures |ids| == |names| && forall i | 0 <= i < |names| :: ids[i] == Call(names[i], file, i)
  {
    seq(|names|, i requires 0 <= i < |names| => Call(names[i], file, i))
  }

  // ----- A table with given rows and calls -----

  /** For each row the rows it calls. */
  type Plan = nat -> seq<nat>

  ghost predicate AllBelow(q: seq<nat>, n: nat) {
    forall j | 0 <= j < |q| :: q[j] < n
  }

  ghost predicate Fits(ids: seq<Call>, plan: Plan) {
    forall k: nat | k < |ids| :: AllBelow(plan(k), |ids|)
  }

  ghost function Calls(ids: seq<Call>, q: seq<nat>): (calls: seq<Call>)
    requires AllBelow(q, |ids|)
    ensures |calls| == |q| && forall i | 0 <= i < |q| :: calls[i] == ids[q[i]]
  {
    seq(|q|, i requires 0 <= i < |q| => ids[q[i]])
  }

  ghost function CallersIn(ids: seq<Call>, plan: Plan, d: Call, n: nat): (calls: seq<Call>)
    requires Fits(ids, plan) && n <= |ids|
    ensures forall c :: c in calls <==> exists i :: 0 <= i < n && ids[i] == c && d in Calls(ids, plan(i))
  {
    if n == 0 then []
    else CallersIn(ids, plan, d, n - 1) + if d in Calls(ids, plan(n - 1)) then [ids[n - 1]] else []
  }

  ghost function Build(ids: seq<Call>, plan: Plan): (table: seq<Row>)
    requires Fits(ids, plan)
    ensures |table| == |ids|
    ensures forall k | 0 <= k < |ids| :: Id(table[k]) == ids[k] && table[k].callees == Calls(ids, plan(k))
    ensures forall k | 0 <= k < |ids| :: table[k].callers == CallersIn(ids, plan, ids[k], |ids|) && table[k].params == []
  {
    seq(|ids|, k requires 0 <= k < |ids| =>
      Row(ids[k].name, ids[k].file, ids[k].line, Calls(ids, plan(k)), CallersIn(ids, plan, ids[k], |ids|), []))
  }

  /** A row with the calls of a plan. */
  ghost predicate RowFollows(row: Row, ids: seq<Call>, c: Call, q: seq<nat>) {
    && Id(row) == c && row.params == [] && |row.callees| == |q|
    && forall i | 0 <= i < |q| :: q[i] < |ids| && row.callees[i] == ids[q[i]]
  }

  ghost predicate TableFollows(table: seq<Row>, ids: seq<Call>, plan: Plan) {
    |table| == |ids| && forall k: nat | k < |ids| :: RowFollows(table[k], ids, ids[k], plan(k))
  }

  lemma {:induction false} BuildFollows(ids: seq<Call>, plan: Plan)
    requires Fits(ids, plan)
    ensures TableFollows(Build(ids, plan), ids, plan)
  {
    forall k: nat | k < |ids|
      ensures RowFollows(Build(ids, plan)[k], ids, ids[k], plan(k))
    {
      assert AllBelow(plan(k), |ids|);
    }
  }

  lemma {:induction false} FollowsDown(table: seq<Row>, ids: seq<Call>, plan: Plan, follow: Call -> bool, k: nat, i: nat)
    requires TableFollows(table, ids, plan) && k < |ids| && i < |plan(k)| && plan(k)[i] < |ids| && follow(ids[plan(k)[i]])
    ensures ids[plan(k)[i]] in Down(table, follow)(ids[k])
  {
    assert RowFollows(table[k], ids, ids[k], plan(k));
    DownHas(table, follow, k, i);
  }

  lemma {:induction false} BuildIds(ids: seq<Call>, plan: Plan)
    requires Fits(ids, plan)
    ensures IdsOf(Build(ids, plan)) == ids
  {
  }

  lemma {:induction false} BuildWellFormed(ids: seq<Call>, plan: Plan)
    requires Fits(ids, plan)
    ensures WellFormed(Build(ids, plan))
  {
    var table := Build(ids, plan);
    forall i | 0 <= i < |table|
      ensures Resolved(table, table[i].callees)
    {
      forall c | c in table[i].callees
        ensures HasRow(table, c)
      {
        var j :| 0 <= j < |plan(i)| && Calls(ids, plan(i))[j] == c;
        assert AllBelow(plan(i), |ids|);
        assert Id(table[plan(i)[j]]) == c;
      }
    }
    forall i, c | 0 <= i < |table|
      ensures c in table[i].callers <==> CalledBy(table, Id(table[i]), c)
    {
      CallersBuilt(ids, plan, i, c);
    }
  }

  lemma {:induction false} CallersBuilt(ids: seq<Call>, plan: Plan, i: nat, c: Call)
    requires Fits(ids, plan) && i < |ids|
    ensures c in Build(ids, plan)[i].callers <==> CalledBy(Build(ids, plan), ids[i], c)
  {
    var table := Build(ids, plan);
    if c in table[i].callers {
      var k :| 0 <= k < |ids| && ids[k] == c && ids[i] in Calls(ids, plan(k));
      assert Id(table[k]) == c && ids[i] in table[k].callees;
    }
    if CalledBy(table, ids[i], c) {
      var k :| 0 <= k < |table| && Id(table[k]) == c && ids[i] in table[k].callees;
      assert ids[k] == c && ids[i] in Calls(ids, plan(k));
    }
  }

  lemma {:induction false} BuildDown(ids: seq<Call>, plan: Plan, follow: Call -> bool, k: nat, x: nat)
    requires Fits(ids, plan) && k < |ids| && x in plan(k) && follow(ids[x])
    ensures ids[x] in Down(Build(ids, plan), follow)(ids[k])
  {
    var table := Build(ids, plan);
    var j :| 0 <= j < |plan(k)| && plan(k)[j] == x;
    assert Calls(ids, plan(k))[j] == ids[x];
    assert Id(table[k]) == ids[k] && ids[x] in table[k].callees;
  }

  lemma {:induction false} Path2<T>(a: T, b: T, e: T -> set<T>)
    requires b in e(a)
    ensures IsPath([a, b], e)
  {
  }

  lemma {:induction false} PathCons<T>(a: T, p: seq<T>, e: T -> set<T>)
    requires IsPath(p, e) && p[0] in e(a)
    ensures IsPath([a] + p, e)
  {
    var q := [a] + p;
    assert forall i | 0 <= i < |p| :: q[i + 1] == p[i];
  }
}
