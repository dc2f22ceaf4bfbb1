/** No registered ext2 reader reaches the mutation guard
    (scripts/buildcheck_ext2_reader_self_wait.py): a layered breadth-first
    search with parent pointers, and the verdict built on it. */
module SelfWait {
  import opened Options
  import opened CallGraph

  /** The names the check is about. */
  datatype Setup = Setup(
    take: string, lockFile: string,
    mark: string, release: string, registrar: string, syscallFile: string,
    releasers: seq<string>, arms: seq<string>)

  const KERNEL := Setup(
    "ext2_mutation_take", "kernel/fs/ext2/mutation_lock.tkb",
    "syscall_ext2_reader_mark", "syscall_ext2_reader_take", "kernel_syscall_dispatch_action", "kernel/kernel/syscall.tkb",
    ["kernel_syscall_dispatch", "kernel_syscall_child_exec_return"],
    ["ext2_mutation_take", "syscall_write_segment", "syscall_writev_current"])

  type Rows = map<string, Row>

  /** A call that counts: a call of the take must resolve to the lock file. */
  predicate Counts(c: Call, s: Setup) {
    c.name == s.take ==> c.file == s.lockFile
  }

  function Callee(c: Call, s: Setup): set<string> {
    if Counts(c, s) then {c.name} else {}
  }

  /** The names the first j calls lead to. */
  function Called(calls: seq<Call>, j: nat, s: Setup): set<string>
    requires j <= |calls|
  {
    if j == 0 then {} else Called(calls, j - 1, s) + Callee(calls[j - 1], s)
  }

  function EdgesOf(rows: Rows, s: Setup): Edges {
    n => if n in rows then Called(rows[n].callees, |rows[n].callees|, s) else {}
  }

  lemma {:induction false} CalledHas(calls: seq<Call>, i: nat, j: nat, s: Setup)
    requires i < j <= |calls|
    ensures Callee(calls[i], s) <= Called(calls, j, s)
  {
    if i < j - 1 {
      CalledHas(calls, i, j - 1, s);
    }
  }

  lemma {:induction false} CalledNext(calls: seq<Call>, j: nat, s: Setup, k: set<string>, k1: set<string>, k2: set<string>)
    requires j < |calls| && k1 == k + Called(calls, j, s) && k2 == k1 + Callee(calls[j], s)
    ensures k2 == k + Called(calls, j + 1, s)
  {
  }

  // ----- Layers -----

  function Successors(layer: set<string>, e: Edges): set<string> {
    set m, n | m in layer && n in e(m) :: n
  }

  /** Everything at most d calls from start. */
  function Layer(start: string, d: nat, e: Edges): set<string> {
    if d == 0 then {start} else Layer(start, d - 1, e) + Successors(Layer(start, d - 1, e), e)
  }

  lemma {:induction false} PathInLayer(p: seq<string>, i: nat, e: Edges)
    requires IsPath(p, e) && i < |p|
    ensures p[i] in Layer(p[0], i, e)
  {
    if i > 0 {
      PathInLayer(p, i - 1, e);
    }
  }

  lemma {:induction false} LayerGrows(start: string, d: nat, k: nat, e: Edges)
    requires d <= k
    ensures Layer(start, d, e) <= Layer(start, k, e)
  {
    if d < k {
      LayerGrows(start, d, k - 1, e);
    }
  }

  lemma {:induction false} LayerStops(start: string, d: nat, k: nat, e: Edges)
    requires Successors(Layer(start, d, e), e) <= Layer(start, d, e)
    ensures Layer(start, k, e) <= Layer(start, d, e)
  {
    if k <= d {
      LayerGrows(start, k, d, e);
    } else {
      LayerStops(start, d, k - 1, e);
    }
  }

  /** Nothing beyond a layer that no call leaves. */
  lemma {:induction false} NoPathBeyond(start: string, b: string, d: nat, e: Edges)
    requires Successors(Layer(start, d, e), e) <= Layer(start, d, e) && b !in Layer(start, d, e)
    ensures !Leads(start, b, e)
  {
    if p :| PathBetween(p, start, b, e) {
      PathInLayer(p, |p| - 1, e);
      LayerStops(start, d, |p| - 1, e);
    }
  }

  /** A path to something outside layer d has more than d calls. */
  lemma {:induction false} PathIsLonger(start: string, b: string, d: nat, p: seq<string>, e: Edges)
    requires PathBetween(p, start, b, e) && b !in Layer(start, d, e)
    ensures |p| >= d + 2
  {
    PathInLayer(p, |p| - 1, e);
    if |p| - 1 <= d {
      LayerGrows(start, |p| - 1, d, e);
    }
  }

  lemma {:induction false} Shortest(start: string, b: string, d: nat, c: seq<string>, e: Edges)
    requires b !in Layer(start, d, e) && |c| == d + 2
    ensures forall p | PathBetween(p, start, b, e) :: |c| <= |p|
  {
    forall p | PathBetween(p, start, b, e)
      ensures |c| <= |p|
    {
      PathIsLonger(start, b, d, p, e);
    }
  }

  // ----- The search -----

  type Parents = map<string, Option<string>>

  /** A node's parent calls it and is one call nearer; the start has none. */
  ghost predicate Linked(n: string, parent: Parents, dist: map<string, nat>, start: string, e: Edges)
    requires n in parent && parent.Keys == dist.Keys
  {
    match parent[n]
    case None => n == start && dist[n] == 0
    case Some(m) => n != start && m in parent && n in e(m) && dist[n] == dist[m] + 1
  }

  ghost predicate Pointers(parent: Parents, dist: map<string, nat>, start: string, e: Edges) {
    && parent.Keys == dist.Keys && start in parent
    && forall n {:trigger Linked(n, parent, dist, start, e)} | n in parent :: Linked(n, parent, dist, start, e)
  }

  /** The pointers read back from a node to the start. */
  method ReadBack(parent: Parents, ghost dist: map<string, nat>, start: string, b: string, ghost e: Edges)
    returns (chain: seq<string>)
    requires Pointers(parent, dist, start, e) && b in parent
    ensures PathBetween(chain, start, b, e) && |chain| == dist[b] + 1
  {
    chain := [b];
    assert Linked(b, parent, dist, start, e);
    while parent[chain[0]].Some?
      invariant IsPath(chain, e) && chain[0] in parent && Linked(chain[0], parent, dist, start, e) && chain[|chain| - 1] == b
      invariant |chain| + dist[chain[0]] == dist[b] + 1
      decreases dist[chain[0]]
    {
      PathPrepend(parent[chain[0]].value, chain, e);
      chain := [parent[chain[0]].value] + chain;
      assert Linked(chain[0], parent, dist, start, e);
    }
  }

  /** Every name a call leads to, over the whole table. */
  ghost function Universe(rows: Rows, s: Setup): set<string> {
    set n, c | n in rows && c in EdgesOf(rows, s)(n) :: c
  }

  lemma {:induction false} LayerInUniverse(rows: Rows, s: Setup, start: string, d: nat)
    ensures Layer(start, d, EdgesOf(rows, s)) <= {start} + Universe(rows, s)
  {
    if d > 0 {
      LayerInUniverse(rows, s, start, d - 1);
    }
  }

  lemma {:induction false} AddPointer(parent: Parents, dist: map<string, nat>, start: string, e: Edges,
                                      name: string, callee: string)
    requires Pointers(parent, dist, start, e) && name in parent && callee !in parent && callee in e(name)
    ensures Pointers(parent[callee := Some(name)], dist[callee := dist[name] + 1], start, e)
  {
    var p', d' := parent[callee := Some(name)], dist[callee := dist[name] + 1];
    assert Linked(start, parent, dist, start, e);
    forall n | n in p'
      ensures Linked(n, p', d', start, e)
    {
      assert n == callee || Linked(n, parent, dist, start, e);
    }
  }

  ghost predicate Extends(dist: map<string, nat>, dist': map<string, nat>) {
    forall n | n in dist :: n in dist' && dist'[n] == dist[n]
  }

  ghost predicate AllAt(q: set<string>, d: nat, dist: map<string, nat>) {
    forall n | n in q :: n in dist && dist[n] == d
  }

  /** The pointers have grown by the functions in q, each d + 1 calls from the start, not by the take. */
  ghost predicate Grown(p: Parents, dist: map<string, nat>, p': Parents, dist': map<string, nat>, q: seq<string>, d: nat,
                        start: string, take: string, e: Edges)
  {
    && Pointers(p', dist', start, e) && Extends(dist, dist') && take !in p'
    && Elements(q) == p'.Keys - p.Keys && AllAt(p'.Keys - p.Keys, d + 1, dist') && p.Keys <= p'.Keys
  }

  lemma {:induction false} GrowMore(p: Parents, dist: map<string, nat>, p1: Parents, dist1: map<string, nat>, q1: seq<string>,
                                    p2: Parents, dist2: map<string, nat>, q2: seq<string>,
                                    d: nat, start: string, take: string, e: Edges)
    requires Grown(p, dist, p1, dist1, q1, d, start, take, e) && Grown(p1, dist1, p2, dist2, q2, d, start, take, e)
    ensures Grown(p, dist, p2, dist2, q1 + q2, d, start, take, e)
  {
    ElementsConcat(q1, q2);
  }

  lemma {:induction false} GrowNot(p: Parents, dist: map<string, nat>, d: nat, start: string, take: string, e: Edges)
    requires Pointers(p, dist, start, e) && take !in p
    ensures Grown(p, dist, p, dist, [], d, start, take, e)
  {
    assert p.Keys - p.Keys == {};
  }

  /** One call: a function not seen before, or the take, or nothing. */
  method Visit(call: Call, name: string, s: Setup, parent: Parents,
               ghost dist: map<string, nat>, ghost start: string, ghost e: Edges)
    returns (parent': Parents, ghost dist': map<string, nat>, new': seq<string>, found: bool)
    requires Pointers(parent, dist, start, e) && name in parent && s.take !in parent
    requires Callee(call, s) <= e(name)
    ensures !found ==> Grown(parent, dist, parent', dist', new', dist[name], start, s.take, e)
    ensures !found ==> parent'.Keys == parent.Keys + Callee(call, s)
    ensures found ==> Pointers(parent', dist', start, e) && s.take in parent' && dist'[s.take] == dist[name] + 1
  {
    parent', dist', new', found := parent, dist, [], false;
    if call.name !in parent && Counts(call, s) {
      AddPointer(parent, dist, start, e, name, call.name);
      parent', dist' := parent[call.name := Some(name)], dist[call.name := dist[name] + 1];
      new', found := [call.name], call.name == s.take;
    }
  }

  /** One function's calls: those not seen before, or the take. */
  method Expand(callees: seq<Call>, name: string, s: Setup, parent: Parents,
                ghost dist: map<string, nat>, ghost start: string, ghost e: Edges)
    returns (parent': Parents, ghost dist': map<string, nat>, new': seq<string>, found: bool)
    requires Pointers(parent, dist, start, e) && name in parent && s.take !in parent
    requires Called(callees, |callees|, s) == e(name)
    ensures !found ==> Grown(parent, dist, parent', dist', new', dist[name], start, s.take, e)
    ensures !found ==> parent'.Keys == parent.Keys + e(name)
    ensures found ==> Pointers(parent', dist', start, e) && s.take in parent' && dist'[s.take] == dist[name] + 1
  {
    parent', dist', new', found := parent, dist, [], false;
    GrowNot(parent, dist, dist[name], start, s.take, e);
    for j := 0 to |callees|
      invariant Grown(parent, dist, parent', dist', new', dist[name], start, s.take, e)
      invariant parent'.Keys == parent.Keys + Called(callees, j, s)
    {
      CalledHas(callees, j, |callees|, s);
      ghost var p1, dist1 := parent', dist';
      var more;
      parent', dist', more, found := Visit(callees[j], name, s, parent', dist', start, e);
      if found {
        return;
      }
      GrowMore(parent, dist, p1, dist1, new', parent', dist', more, dist[name], start, s.take, e);
      CalledNext(callees, j, s, parent.Keys, p1.Keys, parent'.Keys);
      new' := new' + more;
    }
  }

  ghost predicate Covered(q: seq<string>, k: nat, s: set<string>, e: Edges)
    requires k <= |q|
  {
    forall i | 0 <= i < k :: e(q[i]) <= s
  }

  lemma {:induction false} CoverOne(q: seq<string>, k: nat, s: set<string>, s': set<string>, e: Edges)
    requires k < |q| && Covered(q, k, s, e) && s <= s' && e(q[k]) <= s'
    ensures Covered(q, k + 1, s', e)
  {
  }

  ghost predicate From(s: set<string>, layer: set<string>, e: Edges) {
    s <= layer + Successors(layer, e)
  }

  lemma {:induction false} NextLayer(start: string, d: nat, e: Edges, layer: set<string>, frontier: seq<string>, keys: set<string>)
    requires layer == Layer(start, d, e) && layer <= keys && Covered(frontier, |frontier|, keys, e) && From(keys, layer, e)
    requires forall n | n in layer && n !in Elements(frontier) :: e(n) <= layer
    ensures keys == Layer(start, d + 1, e)
    ensures forall n | n in layer :: e(n) <= keys
  {
    forall n | n in layer
      ensures e(n) <= keys
    {
      if n in Elements(frontier) {
        ElementsAre(frontier, n);
        var i :| 0 <= i < |frontier| && frontier[i] == n;
      }
    }
  }

  /** The search after d layers: everything at most d calls away is known, the
      frontier is what is exactly d calls away, and the take is not among it. */
  ghost predicate Searching(parent: Parents, dist: map<string, nat>, frontier: seq<string>, d: nat,
                            start: string, take: string, e: Edges)
  {
    && Pointers(parent, dist, start, e) && take !in parent
    && parent.Keys == Layer(start, d, e) && AllAt(Elements(frontier), d, dist)
    && forall n | n in parent && n !in Elements(frontier) :: e(n) <= parent.Keys
  }

  lemma {:induction false} SearchStarts(start: string, take: string, e: Edges)
    requires start != take
    ensures Searching(map[start := None], map[start := 0], [start], 0, start, take, e)
  {
    var parent: Parents, dist: map<string, nat> := map[start := None], map[start := 0];
    assert Linked(start, parent, dist, start, e);
    assert Elements([start]) == {start};
  }

  lemma {:induction false} SearchGoesOn(parent: Parents, dist: map<string, nat>, frontier: seq<string>, d: nat,
                                        parent': Parents, dist': map<string, nat>, following: seq<string>,
                                        start: string, take: string, e: Edges)
    requires Searching(parent, dist, frontier, d, start, take, e)
    requires Grown(parent, dist, parent', dist', following, d, start, take, e)
    requires Covered(frontier, |frontier|, parent'.Keys, e) && From(parent'.Keys, parent.Keys, e)
    ensures Searching(parent', dist', following, d + 1, start, take, e)
  {
    NextLayer(start, d, e, parent.Keys, frontier, parent'.Keys);
  }

  /** One layer: from the functions d calls from the start to those d + 1 calls from it. */
  method Advance(rows: Rows, frontier: seq<string>, s: Setup, parent: Parents,
                 ghost dist: map<string, nat>, ghost d: nat, ghost start: string)
    returns (parent': Parents, ghost dist': map<string, nat>, following: seq<string>, found: bool)
    requires Searching(parent, dist, frontier, d, start, s.take, EdgesOf(rows, s))
    ensures !found ==> Searching(parent', dist', following, d + 1, start, s.take, EdgesOf(rows, s))
    ensures !found ==> parent.Keys <= parent'.Keys && Elements(following) == parent'.Keys - parent.Keys
    ensures found ==> Pointers(parent', dist', start, EdgesOf(rows, s)) && s.take in parent' && dist'[s.take] == d + 1
  {
    ghost var e := EdgesOf(rows, s);
    parent', dist', following, found := parent, dist, [], false;
    for i := 0 to |frontier|
      invariant Grown(parent, dist, parent', dist', following, d, start, s.take, e)
      invariant Covered(frontier, i, parent'.Keys, e) && From(parent'.Keys, parent.Keys, e)
    {
      ghost var keys := parent'.Keys;
      ElementsAre(frontier, frontier[i]);
      if frontier[i] in rows {
        ghost var p1, dist1 := parent', dist';
        var more;
        parent', dist', more, found := Expand(rows[frontier[i]].callees, frontier[i], s, parent', dist', start, e);
        if found {
          return;
        }
        GrowMore(parent, dist, p1, dist1, following, parent', dist', more, d, start, s.take, e);
        following := following + more;
      }
      CoverOne(frontier, i, keys, parent'.Keys, e);
    }
    SearchGoesOn(parent, dist, frontier, d, parent', dist', following, start, s.take, e);
  }

  lemma {:induction false} Shrinks(rows: Rows, s: Setup, start: string, d: nat, k: set<string>, k': set<string>, q: seq<string>)
    requires k <= k' == Layer(start, d, EdgesOf(rows, s)) && Elements(q) == k' - k
    ensures q == [] ==> k' == k
    ensures q != [] ==> {start} + Universe(rows, s) - k' < {start} + Universe(rows, s) - k
  {
    LayerInUniverse(rows, s, start, d);
    assert k' == k + (k' - k);
    if q != [] {
      assert q[|q| - 1] in k' - k;
    }
  }

  lemma {:induction false} SearchEnds(parent: Parents, dist: map<string, nat>, d: nat, start: string, take: string, e: Edges)
    requires Searching(parent, dist, [], d, start, take, e)
    ensures !Leads(start, take, e)
  {
    NoPathBeyond(start, take, d, e);
  }

  lemma {:induction false} Found(c: seq<string>, d: nat, start: string, take: string, e: Edges)
    requires PathBetween(c, start, take, e) && |c| == d + 2 && take !in Layer(start, d, e)
    ensures IsShortest(c, start, take, e)
  {
    Shortest(start, take, d, c, e);
  }

  ghost predicate IsShortest(c: seq<string>, start: string, take: string, e: Edges) {
    PathBetween(c, start, take, e) && forall p | PathBetween(p, start, take, e) :: |c| <= |p|
  }

  /** A shortest call chain from start to the take, or None. */
  method ChainToTake(rows: Rows, start: string, s: Setup) returns (chain: Option<seq<string>>)
    ensures chain == None <==> !Leads(start, s.take, EdgesOf(rows, s))
    ensures chain.Some? ==> IsShortest(chain.value, start, s.take, EdgesOf(rows, s))
  {
    ghost var e := EdgesOf(rows, s);
    if start == s.take {
      assert PathBetween([s.take], start, s.take, e);
      return Some([s.take]);
    }
    var parent: Parents := map[start := None];
    ghost var dist: map<string, nat> := map[start := 0];
    SearchStarts(start, s.take, e);
    var frontier := [start];
    ghost var d := 0;
    while frontier != []
      invariant Searching(parent, dist, frontier, d, start, s.take, e)
      decreases {start} + Universe(rows, s) - parent.Keys, |frontier|
    {
      ghost var keys := parent.Keys;
      var following, found;
      parent, dist, following, found := Advance(rows, frontier, s, parent, dist, d, start);
      if found {
        var c := ReadBack(parent, dist, start, s.take, e);
        Found(c, d, start, s.take, e);
        return Some(c);
      }
      Shrinks(rows, s, start, d + 1, keys, parent.Keys, following);
      frontier, d := following, d + 1;
    }
    SearchEnds(parent, dist, d, start, s.take, e);
    return None;
  }

  // ----- The verdict -----

  datatype Problem =
    | Undefined(name: string, file: string)
    | OtherCallers(name: string)
    | Waits(owner: string, chain: seq<string>)
    | StaleArm(arm: string)

  /** The functions the check reasons about, and where each must be defined. */
  function Expected(s: Setup): seq<(string, string)> {
    [(s.take, s.lockFile), (s.mark, s.syscallFile), (s.release, s.syscallFile), (s.registrar, s.syscallFile)]
    + seq(|s.releasers|, i requires 0 <= i < |s.releasers| => (s.releasers[i], s.syscallFile))
  }

  predicate DefinedIn(rows: Rows, e: (string, string)) {
    e.0 in rows && rows[e.0].file == e.1
  }

  predicate AllDefined(rows: Rows, s: Setup) {
    forall i | 0 <= i < |Expected(s)| :: DefinedIn(rows, Expected(s)[i])
  }

  lemma {:induction false} DefinedNames(rows: Rows, s: Setup)
    requires AllDefined(rows, s)
    ensures s.take in rows && s.mark in rows && s.release in rows && s.registrar in rows
    ensures rows[s.take].file == s.lockFile && rows[s.registrar].file == s.syscallFile
    ensures forall i | 0 <= i < |s.releasers| :: s.releasers[i] in rows
  {
    var e := Expected(s);
    assert DefinedIn(rows, e[0]) && DefinedIn(rows, e[1]) && DefinedIn(rows, e[2]) && DefinedIn(rows, e[3]);
    forall i | 0 <= i < |s.releasers|
      ensures s.releasers[i] in rows
    {
      assert DefinedIn(rows, e[4 + i]);
    }
  }

  predicate NoDuplicates(q: seq<string>) {
    forall i, j | 0 <= i < j < |q| :: q[i] != q[j]
  }

  /** `sorted(set(...)) == sorted(q)`. */
  predicate CalledByExactly(row: Row, q: seq<string>) {
    NoDuplicates(q) && NameSet(row.callers) == Elements(q)
  }

  /** A callee the window check follows; the others it passes over. */
  predicate Followed(c: string, s: Setup) {
    c != s.registrar && c != "*"
  }

  /** A callee of owner may run while the syscall is counted as a reader. */
  ghost predicate MayRun(rows: Rows, owner: string, c: string, s: Setup) {
    Followed(c, s) && Leads(c, s.take, EdgesOf(rows, s)) ==> owner == s.registrar && c in s.arms
  }

  function FollowedIn(q: set<string>, s: Setup): set<string> {
    set c | c in q && Followed(c, s)
  }

  /** The callees of an owner that are followed. */
  ghost function Window(rows: Rows, owner: string, s: Setup): set<string>
    requires owner in rows
  {
    FollowedIn(NameSet(rows[owner].callees), s)
  }

  ghost function WindowSize(rows: Rows, s: Setup, i: nat): nat
    requires s.registrar in rows && i <= |s.releasers| && forall j | 0 <= j < i :: s.releasers[j] in rows
  {
    if i == 0 then |Window(rows, s.registrar, s)| else WindowSize(rows, s, i - 1) + |Window(rows, s.releasers[i - 1], s)|
  }

  /** A reported chain starts at a followed callee of its owner, leads to the
      take, and is as short as any. */
  ghost predicate IsWait(rows: Rows, owner: string, p: Problem, s: Setup)
    requires owner in rows
  {
    && p.Waits? && p.owner == owner && p.chain != [] && p.chain[0] in Window(rows, owner, s)
    && !MayRun(rows, owner, p.chain[0], s)
    && IsShortest(p.chain, p.chain[0], s.take, EdgesOf(rows, s))
  }

  ghost predicate AllWaits(rows: Rows, owner: string, problems: seq<Problem>, s: Setup)
    requires owner in rows
  {
    forall k {:trigger problems[k]} | 0 <= k < |problems| :: IsWait(rows, owner, problems[k], s)
  }

  lemma {:induction false} MoreWaits(rows: Rows, owner: string, p: seq<Problem>, q: seq<Problem>, s: Setup)
    requires owner in rows && AllWaits(rows, owner, p, s) && AllWaits(rows, owner, q, s)
    ensures AllWaits(rows, owner, p + q, s)
  {
  }

  ghost predicate WindowSafe(rows: Rows, owner: string, s: Setup)
    requires owner in rows
  {
    forall c | c in NameSet(rows[owner].callees) :: MayRun(rows, owner, c, s)
  }

  ghost predicate ArmLive(rows: Rows, arm: string, s: Setup)
    requires s.registrar in rows
  {
    arm in NameSet(rows[s.registrar].callees) && Leads(arm, s.take, EdgesOf(rows, s))
  }

  ghost predicate AllSafe(rows: Rows, s: Setup, i: nat)
    requires s.registrar in rows && i <= |s.releasers| && forall j | 0 <= j < i :: s.releasers[j] in rows
  {
    if i == 0 then WindowSafe(rows, s.registrar, s)
    else AllSafe(rows, s, i - 1) && WindowSafe(rows, s.releasers[i - 1], s)
  }

  ghost predicate Clean(rows: Rows, s: Setup) {
    && AllDefined(rows, s)
    && (DefinedNames(rows, s);
        && CalledByExactly(rows[s.mark], [s.registrar])
        && CalledByExactly(rows[s.release], s.releasers)
        && AllSafe(rows, s, |s.releasers|)
        && forall i | 0 <= i < |s.arms| :: ArmLive(rows, s.arms[i], s))
  }

  /** A function whose callees the window check follows. */
  predicate IsOwner(owner: string, s: Setup) {
    owner == s.registrar || owner in s.releasers
  }

  /** A problem that is there. */
  ghost predicate IsTrue(p: Problem, rows: Rows, s: Setup) {
    match p
    case Undefined(n, f) => (n, f) in Expected(s) && !DefinedIn(rows, (n, f))
    case OtherCallers(n) =>
      || (n == s.mark && n in rows && !CalledByExactly(rows[n], [s.registrar]))
      || (n == s.release && n in rows && !CalledByExactly(rows[n], s.releasers))
    case Waits(o, _) => o in rows && IsOwner(o, s) && IsWait(rows, o, p, s)
    case StaleArm(a) => a in s.arms && s.registrar in rows && !ArmLive(rows, a, s)
  }

  ghost predicate AllTrue(problems: seq<Problem>, rows: Rows, s: Setup) {
    forall k {:trigger problems[k]} | 0 <= k < |problems| :: IsTrue(problems[k], rows, s)
  }

  lemma {:induction false} MoreTrue(p: seq<Problem>, q: seq<Problem>, rows: Rows, s: Setup)
    requires AllTrue(p, rows, s) && AllTrue(q, rows, s)
    ensures AllTrue(p + q, rows, s)
  {
  }

  lemma {:induction false} OneTrue(p: Problem, rows: Rows, s: Setup)
    requires IsTrue(p, rows, s)
    ensures AllTrue([p], rows, s)
  {
  }

  lemma {:induction false} WaitsTrue(rows: Rows, owner: string, problems: seq<Problem>, s: Setup)
    requires owner in rows && IsOwner(owner, s) && AllWaits(rows, owner, problems, s)
    ensures TrueWaits(problems, rows, s)
  {
    forall k | 0 <= k < |problems|
      ensures IsTrue(problems[k], rows, s)
    {
      assert IsWait(rows, owner, problems[k], s);
    }
  }

  // ----- The problems, said of the table -----

  /** By name, the calls of the last row with each name that count. */
  ghost function CountedCalls(table: seq<Row>, s: Setup): Edges {
    n => set k, c | 0 <= k < |table| && LastNamed(table, k, n) && c in table[k].callees
                    && (c.name != s.take || c.file == s.lockFile) :: c.name
  }

  /** The functions named by the check and their files. */
  ghost predicate MustBeIn(n: string, file: string, s: Setup) {
    || (n == s.take && file == s.lockFile)
    || ((n == s.mark || n == s.release || n == s.registrar || n in s.releasers) && file == s.syscallFile)
  }

  ghost predicate IsCallerOf(n: string, row: Row) {
    exists c | c in row.callers :: c.name == n
  }

  ghost predicate IsCalleeOf(n: string, row: Row) {
    exists c | c in row.callees :: c.name == n
  }

  ghost predicate OtherCallersThan(row: Row, q: seq<string>) {
    (exists i, j | 0 <= i < j < |q| :: q[i] == q[j]) || exists n :: IsCallerOf(n, row) != (n in q)
  }

  /** A problem that is there, by the rows and the names of the check. */
  ghost predicate Fault(p: Problem, table: seq<Row>, s: Setup) {
    match p
    case Undefined(n, f) => MustBeIn(n, f, s) && forall k: nat | LastNamed(table, k, n) :: table[k].file != f
    case OtherCallers(n) =>
      exists k: nat :: LastNamed(table, k, n) &&
        ((n == s.mark && OtherCallersThan(table[k], [s.registrar])) || (n == s.release && OtherCallersThan(table[k], s.releasers)))
    case Waits(o, chain) =>
      && (o == s.registrar || o in s.releasers)
      && chain != [] && chain[0] != s.registrar && chain[0] != "*" && !(o == s.registrar && chain[0] in s.arms)
      && (exists k: nat :: LastNamed(table, k, o) && IsCalleeOf(chain[0], table[k]))
      && PathBetween(chain, chain[0], s.take, CountedCalls(table, s))
      && forall q | PathBetween(q, chain[0], s.take, CountedCalls(table, s)) :: |chain| <= |q|
    case StaleArm(a) =>
      && a in s.arms
      && exists k: nat :: LastNamed(table, k, s.registrar) &&
           !(IsCalleeOf(a, table[k]) && Leads(a, s.take, CountedCalls(table, s)))
  }

  lemma {:induction false} CalledAre(calls: seq<Call>, j: nat, s: Setup, n: string)
    requires j <= |calls|
    ensures n in Called(calls, j, s)
            <==> exists i | 0 <= i < j :: calls[i].name == n && (n != s.take || calls[i].file == s.lockFile)
  {
    if j > 0 {
      CalledAre(calls, j - 1, s, n);
    }
  }

  lemma {:induction false} CountedCallIs(table: seq<Row>, s: Setup, n: string, d: string)
    ensures d in EdgesOf(Table(table, AnyRow()), s)(n) <==> d in CountedCalls(table, s)(n)
  {
    LastNamedRow(table, n);
    var rows := Table(table, AnyRow());
    if n in rows {
      var calls := rows[n].callees;
      CalledAre(calls, |calls|, s, d);
      if i :| 0 <= i < |calls| && calls[i].name == d && (d != s.take || calls[i].file == s.lockFile) {
        assert calls[i] in calls;
      }
    }
  }

  lemma {:induction false} CountedCallsAre(table: seq<Row>, s: Setup)
    ensures forall n :: EdgesOf(Table(table, AnyRow()), s)(n) == CountedCalls(table, s)(n)
  {
    forall n
      ensures EdgesOf(Table(table, AnyRow()), s)(n) == CountedCalls(table, s)(n)
    {
      forall d
        ensures d in EdgesOf(Table(table, AnyRow()), s)(n) <==> d in CountedCalls(table, s)(n)
      {
        CountedCallIs(table, s, n, d);
      }
    }
  }

  lemma {:induction false} ExpectedIff(n: string, f: string, s: Setup)
    ensures (n, f) in Expected(s) <==> MustBeIn(n, f, s)
  {
    var e := Expected(s);
    assert e[0] == (s.take, s.lockFile) && e[1] == (s.mark, s.syscallFile);
    assert e[2] == (s.release, s.syscallFile) && e[3] == (s.registrar, s.syscallFile);
    assert forall i | 4 <= i < |e| :: e[i] == (s.releasers[i - 4], s.syscallFile);
    if n in s.releasers {
      var i :| 0 <= i < |s.releasers| && s.releasers[i] == n;
      assert e[4 + i] == (n, s.syscallFile);
    }
  }

  lemma {:induction false} CallersIff(row: Row, q: seq<string>)
    ensures !CalledByExactly(row, q) <==> OtherCallersThan(row, q)
  {
    forall n
      ensures (n in NameSet(row.callers) <==> IsCallerOf(n, row)) && (n in Elements(q) <==> n in q)
    {
      NameSetIs(row.callers, n);
      ElementsAre(q, n);
    }
    if NameSet(row.callers) == Elements(q) {
      assert forall n :: n in NameSet(row.callers) <==> n in Elements(q);
    }
  }

  lemma {:induction false} ShortestIff(chain: seq<string>, c: string, take: string, e: Edges, f: Edges)
    requires forall n :: e(n) == f(n)
    ensures IsShortest(chain, c, take, e)
            <==> PathBetween(chain, c, take, f) && forall q | PathBetween(q, c, take, f) :: |chain| <= |q|
  {
    forall q
      ensures PathBetween(q, c, take, e) <==> PathBetween(q, c, take, f)
    {
    }
  }

  lemma {:induction false} WaitsIff(p: Problem, table: seq<Row>, s: Setup)
    requires p.Waits?
    ensures IsTrue(p, Table(table, AnyRow()), s) <==> Fault(p, table, s)
  {
    var rows, e := Table(table, AnyRow()), EdgesOf(Table(table, AnyRow()), s);
    LastNamedRow(table, p.owner);
    CountedCallsAre(table, s);
    if p.chain != [] {
      ShortestIff(p.chain, p.chain[0], s.take, e, CountedCalls(table, s));
      if p.owner in rows {
        NameSetIs(rows[p.owner].callees, p.chain[0]);
      }
    }
  }

  /** A problem that is there is one that the table shows. */
  lemma {:induction false} TrueIff(p: Problem, table: seq<Row>, s: Setup)
    ensures IsTrue(p, Table(table, AnyRow()), s) <==> Fault(p, table, s)
  {
    var rows := Table(table, AnyRow());
    match p
    case Undefined(n, f) =>
      ExpectedIff(n, f, s);
      LastNamedRow(table, n);
    case OtherCallers(n) =>
      LastNamedRow(table, n);
      if n in rows {
        CallersIff(rows[n], [s.registrar]);
        CallersIff(rows[n], s.releasers);
      }
    case Waits(_, _) =>
      WaitsIff(p, table, s);
    case StaleArm(a) =>
      LastNamedRow(table, s.registrar);
      CountedCallsAre(table, s);
      SameEdges(a, s.take, EdgesOf(rows, s), CountedCalls(table, s));
      if s.registrar in rows {
        NameSetIs(rows[s.registrar].callees, a);
      }
  }

  // ----- The checks -----

  method FindUndefined(rows: Rows, s: Setup) returns (problems: seq<Problem>)
    ensures problems == [] <==> AllDefined(rows, s)
    ensures AllTrue(problems, rows, s) && forall p: Problem | p in problems :: p.Undefined?
    ensures forall p: Problem | p.Undefined? && IsTrue(p, rows, s) :: p in problems
  {
    problems := [];
    var expected := Expected(s);
    for i := 0 to |expected|
      invariant forall p: Problem | p in problems :: p.Undefined?
      invariant forall j | 0 <= j < i && !DefinedIn(rows, expected[j]) :: Undefined(expected[j].0, expected[j].1) in problems
      invariant problems == [] <==> forall j | 0 <= j < i :: DefinedIn(rows, expected[j])
      invariant AllTrue(problems, rows, s)
    {
      if !DefinedIn(rows, expected[i]) {
        assert expected[i] in Expected(s);
        OneTrue(Undefined(expected[i].0, expected[i].1), rows, s);
        MoreTrue(problems, [Undefined(expected[i].0, expected[i].1)], rows, s);
        problems := problems + [Undefined(expected[i].0, expected[i].1)];
      }
    }
  }

  lemma {:induction false} FollowedMore(q: set<string>, c: string, s: Setup)
    requires c !in q
    ensures FollowedIn(q + {c}, s) == FollowedIn(q, s) + if Followed(c, s) then {c} else {}
    ensures |FollowedIn(q + {c}, s)| == |FollowedIn(q, s)| + if Followed(c, s) then 1 else 0
  {
    assert FollowedIn(q + {c}, s) == FollowedIn(q, s) + if Followed(c, s) then {c} else {};
  }

  /** A chain of this owner from this callee is reported. */
  ghost predicate HasWait(problems: seq<Problem>, owner: string, c: string) {
    exists p | p in problems :: p.Waits? && p.owner == owner && p.chain != [] && p.chain[0] == c
  }

  /** Every callee of these that may not run is reported. */
  ghost predicate AllWaited(rows: Rows, owner: string, q: set<string>, problems: seq<Problem>, s: Setup) {
    forall c | c in q && !MayRun(rows, owner, c, s) :: HasWait(problems, owner, c)
  }

  lemma {:induction false} WaitStays(problems: seq<Problem>, more: seq<Problem>, owner: string, c: string)
    requires HasWait(problems, owner, c) || HasWait(more, owner, c)
    ensures HasWait(problems + more, owner, c)
  {
  }

  lemma {:induction false} WaitedMore(rows: Rows, owner: string, q: set<string>, r: set<string>, problems: seq<Problem>,
                                      more: seq<Problem>, s: Setup)
    requires AllWaited(rows, owner, q, problems, s) && AllWaited(rows, owner, r, more, s)
    ensures AllWaited(rows, owner, q + r, problems + more, s)
  {
    forall c | c in q + r && !MayRun(rows, owner, c, s)
      ensures HasWait(problems + more, owner, c)
    {
      WaitStays(problems, more, owner, c);
    }
  }

  method CheckCallee(rows: Rows, owner: string, callee: string, s: Setup) returns (problems: seq<Problem>)
    requires owner in rows && callee in NameSet(rows[owner].callees)
    ensures problems == [] <==> MayRun(rows, owner, callee, s)
    ensures AllWaits(rows, owner, problems, s) && AllWaited(rows, owner, {callee}, problems, s)
  {
    problems := [];
    if Followed(callee, s) {
      var chain := ChainToTake(rows, callee, s);
      if chain.Some? && !(owner == s.registrar && callee in s.arms) {
        problems := [Waits(owner, chain.value)];
        assert problems[0].chain[0] == callee;
      }
    }
  }

  /** `sorted(set(...))`, in the order the names first appear. */
  method Distinct(names: seq<string>) returns (q: seq<string>)
    ensures NoDuplicates(q) && Elements(q) == Elements(names)
  {
    q := [];
    for i := 0 to |names|
      invariant NoDuplicates(q) && Elements(q) == Elements(names[..i])
    {
      assert names[..i + 1][..i] == names[..i];
      ElementsAre(q, names[i]);
      if names[i] !in q {
        assert (q + [names[i]])[..|q|] == q;
        q := q + [names[i]];
      }
    }
    assert names[..|names|] == names;
  }

  lemma {:induction false} NotYet(q: seq<string>, i: nat)
    requires NoDuplicates(q) && i < |q|
    ensures q[i] !in Elements(q[..i]) && Elements(q[..i + 1]) == Elements(q[..i]) + {q[i]}
  {
    assert q[..i + 1][..i] == q[..i];
    ElementsAre(q[..i], q[i]);
  }

  /** One owner's part of the window; a callee named twice is checked once. */
  method CheckWindow(rows: Rows, owner: string, s: Setup) returns (problems: seq<Problem>, checked: nat)
    requires owner in rows
    ensures problems == [] <==> WindowSafe(rows, owner, s)
    ensures AllWaits(rows, owner, problems, s)
    ensures AllWaited(rows, owner, NameSet(rows[owner].callees), problems, s)
    ensures checked == |Window(rows, owner, s)|
  {
    problems, checked := [], 0;
    var callees := Distinct(Names(rows[owner].callees));
    ghost var seen: set<string> := {};
    for i := 0 to |callees|
      invariant seen == Elements(callees[..i])
      invariant problems == [] <==> forall c | c in seen :: MayRun(rows, owner, c, s)
      invariant AllWaits(rows, owner, problems, s) && AllWaited(rows, owner, seen, problems, s)
      invariant checked == |FollowedIn(seen, s)|
    {
      ElementsAre(callees, callees[i]);
      var found := CheckCallee(rows, owner, callees[i], s);
      MoreWaits(rows, owner, problems, found, s);
      WaitedMore(rows, owner, seen, {callees[i]}, problems, found, s);
      problems := problems + found;
      if Followed(callees[i], s) {
        checked := checked + 1;
      }
      NotYet(callees, i);
      FollowedMore(seen, callees[i], s);
      seen := seen + {callees[i]};
    }
    assert callees[..|callees|] == callees;
  }

  ghost predicate OwnerWaited(rows: Rows, owner: string, problems: seq<Problem>, s: Setup) {
    owner in rows && AllWaited(rows, owner, NameSet(rows[owner].callees), problems, s)
  }

  lemma {:induction false} OwnerStays(rows: Rows, owner: string, problems: seq<Problem>, more: seq<Problem>, s: Setup)
    requires OwnerWaited(rows, owner, problems, s) || OwnerWaited(rows, owner, more, s)
    ensures OwnerWaited(rows, owner, problems + more, s)
  {
    forall c | c in NameSet(rows[owner].callees) && !MayRun(rows, owner, c, s)
      ensures HasWait(problems + more, owner, c)
    {
      WaitStays(problems, more, owner, c);
    }
  }

  /** The dispatch and the first i releasers have been checked. */
  ghost predicate OwnersWaited(rows: Rows, problems: seq<Problem>, s: Setup, i: nat)
    requires i <= |s.releasers|
  {
    if i == 0 then OwnerWaited(rows, s.registrar, problems, s)
    else OwnersWaited(rows, problems, s, i - 1) && OwnerWaited(rows, s.releasers[i - 1], problems, s)
  }

  lemma {:induction false} OwnersWaitedAt(rows: Rows, problems: seq<Problem>, s: Setup, i: nat, owner: string)
    requires i <= |s.releasers| && OwnersWaited(rows, problems, s, i)
    requires owner == s.registrar || exists j | 0 <= j < i :: s.releasers[j] == owner
    ensures OwnerWaited(rows, owner, problems, s)
  {
    if i > 0 && !(owner == s.releasers[i - 1]) {
      OwnersWaitedAt(rows, problems, s, i - 1, owner);
    }
  }

  lemma {:induction false} OwnersStay(rows: Rows, problems: seq<Problem>, more: seq<Problem>, s: Setup, i: nat)
    requires i <= |s.releasers| && OwnersWaited(rows, problems, s, i)
    ensures OwnersWaited(rows, problems + more, s, i)
  {
    if i == 0 {
      OwnerStays(rows, s.registrar, problems, more, s);
    } else {
      OwnersStay(rows, problems, more, s, i - 1);
      OwnerStays(rows, s.releasers[i - 1], problems, more, s);
    }
  }

  lemma {:induction false} OwnersMore(rows: Rows, problems: seq<Problem>, more: seq<Problem>, s: Setup, i: nat)
    requires i < |s.releasers| && OwnersWaited(rows, problems, s, i) && OwnerWaited(rows, s.releasers[i], more, s)
    ensures OwnersWaited(rows, problems + more, s, i + 1)
  {
    OwnersStay(rows, problems, more, s, i);
    OwnerStays(rows, s.releasers[i], problems, more, s);
  }

  method CheckOwner(rows: Rows, owner: string, s: Setup) returns (problems: seq<Problem>, checked: nat)
    requires owner in rows && IsOwner(owner, s)
    ensures OwnerChecked(rows, owner, problems, checked, s)
  {
    problems, checked := CheckWindow(rows, owner, s);
    WaitsTrue(rows, owner, problems, s);
  }

  /** What has been reported of one owner. */
  ghost predicate OwnerChecked(rows: Rows, owner: string, problems: seq<Problem>, checked: nat, s: Setup) {
    && owner in rows && checked == |Window(rows, owner, s)|
    && TrueWaits(problems, rows, s) && OwnerWaited(rows, owner, problems, s)
  }

  ghost predicate TrueWaits(problems: seq<Problem>, rows: Rows, s: Setup) {
    forall k {:trigger problems[k]} | 0 <= k < |problems| :: problems[k].Waits? && IsTrue(problems[k], rows, s)
  }

  lemma {:induction false} MoreTrueWaits(p: seq<Problem>, q: seq<Problem>, rows: Rows, s: Setup)
    requires TrueWaits(p, rows, s) && TrueWaits(q, rows, s)
    ensures TrueWaits(p + q, rows, s)
  {
  }

  /** What has been reported of the dispatch and the first i releasers. */
  ghost predicate OwnersChecked(rows: Rows, problems: seq<Problem>, checked: nat, s: Setup, i: nat)
    requires s.registrar in rows && i <= |s.releasers| && forall j | 0 <= j < i :: s.releasers[j] in rows
  {
    checked == WindowSize(rows, s, i) && TrueWaits(problems, rows, s) && OwnersWaited(rows, problems, s, i)
  }

  lemma {:induction false} OwnersNext(rows: Rows, problems: seq<Problem>, checked: nat, found: seq<Problem>, n: nat, s: Setup, i: nat)
    requires s.registrar in rows && i < |s.releasers| && forall j | 0 <= j <= i :: s.releasers[j] in rows
    requires OwnersChecked(rows, problems, checked, s, i) && OwnerChecked(rows, s.releasers[i], found, n, s)
    ensures OwnersChecked(rows, problems + found, checked + n, s, i + 1)
  {
    MoreTrueWaits(problems, found, rows, s);
    OwnersMore(rows, problems, found, s, i);
    SafeNext(rows, s, i);
  }

  method CheckOwners(rows: Rows, s: Setup) returns (problems: seq<Problem>, checked: nat)
    requires s.registrar in rows && forall j | 0 <= j < |s.releasers| :: s.releasers[j] in rows
    ensures OwnersChecked(rows, problems, checked, s, |s.releasers|)
  {
    problems, checked := CheckOwner(rows, s.registrar, s);
    for i := 0 to |s.releasers|
      invariant OwnersChecked(rows, problems, checked, s, i)
    {
      var found, n := CheckOwner(rows, s.releasers[i], s);
      OwnersNext(rows, problems, checked, found, n, s, i);
      problems, checked := problems + found, checked + n;
    }
  }

  lemma {:induction false} NoWaitSafe(rows: Rows, owner: string, s: Setup)
    requires OwnerWaited(rows, owner, [], s)
    ensures WindowSafe(rows, owner, s)
  {
    forall c | c in NameSet(rows[owner].callees)
      ensures MayRun(rows, owner, c, s)
    {
      assert !HasWait([], owner, c);
    }
  }

  lemma {:induction false} NoWaitsSafe(rows: Rows, s: Setup, i: nat)
    requires s.registrar in rows && i <= |s.releasers| && forall j | 0 <= j < i :: s.releasers[j] in rows
    requires OwnersWaited(rows, [], s, i)
    ensures AllSafe(rows, s, i)
  {
    if i == 0 {
      NoWaitSafe(rows, s.registrar, s);
    } else {
      NoWaitsSafe(rows, s, i - 1);
      NoWaitSafe(rows, s.releasers[i - 1], s);
    }
  }

  /** A chain is reported exactly when some part of the window is not safe. */
  lemma {:induction false} OwnersSafeIff(rows: Rows, problems: seq<Problem>, checked: nat, s: Setup)
    requires s.registrar in rows && forall j | 0 <= j < |s.releasers| :: s.releasers[j] in rows
    requires OwnersChecked(rows, problems, checked, s, |s.releasers|)
    ensures problems == [] <==> AllSafe(rows, s, |s.releasers|)
    ensures AllTrue(problems, rows, s)
  {
    if problems == [] {
      NoWaitsSafe(rows, s, |s.releasers|);
    } else if AllSafe(rows, s, |s.releasers|) {
      var o := problems[0].owner;
      var j: nat := if o == s.registrar then 0 else var j :| 0 <= j < |s.releasers| && s.releasers[j] == o; j;
      AllSafeAt(rows, s, |s.releasers|, j);
    }
  }

  lemma {:induction false} SafeNext(rows: Rows, s: Setup, i: nat)
    requires s.registrar in rows && i < |s.releasers| && forall j | 0 <= j <= i :: s.releasers[j] in rows
    ensures AllSafe(rows, s, i + 1) <==> AllSafe(rows, s, i) && WindowSafe(rows, s.releasers[i], s)
    ensures WindowSize(rows, s, i + 1) == WindowSize(rows, s, i) + |Window(rows, s.releasers[i], s)|
  {
  }

  method CheckArms(rows: Rows, s: Setup) returns (problems: seq<Problem>)
    requires s.registrar in rows
    ensures problems == [] <==> forall i | 0 <= i < |s.arms| :: ArmLive(rows, s.arms[i], s)
    ensures AllTrue(problems, rows, s) && forall a | a in s.arms && !ArmLive(rows, a, s) :: StaleArm(a) in problems
  {
    problems := [];
    for i := 0 to |s.arms|
      invariant forall j | 0 <= j < i && !ArmLive(rows, s.arms[j], s) :: StaleArm(s.arms[j]) in problems
      invariant problems == [] <==> forall j | 0 <= j < i :: ArmLive(rows, s.arms[j], s)
      invariant AllTrue(problems, rows, s)
    {
      var chain := ChainToTake(rows, s.arms[i], s);
      if s.arms[i] !in NameSet(rows[s.registrar].callees) || chain.None? {
        OneTrue(StaleArm(s.arms[i]), rows, s);
        MoreTrue(problems, [StaleArm(s.arms[i])], rows, s);
        problems := problems + [StaleArm(s.arms[i])];
      }
    }
  }

  method CheckCallers(rows: Rows, s: Setup) returns (problems: seq<Problem>)
    requires s.mark in rows && s.release in rows
    ensures problems == []
            <==> CalledByExactly(rows[s.mark], [s.registrar]) && CalledByExactly(rows[s.release], s.releasers)
    ensures AllTrue(problems, rows, s)
    ensures forall p: Problem | p.OtherCallers? && IsTrue(p, rows, s) :: p in problems
  {
    problems := [];
    if !CalledByExactly(rows[s.mark], [s.registrar]) {
      problems := problems + [OtherCallers(s.mark)];
    }
    if !CalledByExactly(rows[s.release], s.releasers) {
      problems := problems + [OtherCallers(s.release)];
    }
  }

  /** What is true is reported: a chain, by one from the same callee. */
  ghost predicate Told(p: Problem, problems: seq<Problem>) {
    if p.Waits? then p.chain != [] && HasWait(problems, p.owner, p.chain[0]) else p in problems
  }

  lemma {:induction false} AllTold(p: Problem, rows: Rows, s: Setup, callers: seq<Problem>, waits: seq<Problem>, stale: seq<Problem>)
    requires AllDefined(rows, s) && IsTrue(p, rows, s) && OwnersWaited(rows, waits, s, |s.releasers|)
    requires forall p: Problem | p.OtherCallers? && IsTrue(p, rows, s) :: p in callers
    requires s.registrar in rows ==> forall a | a in s.arms && !ArmLive(rows, a, s) :: StaleArm(a) in stale
    ensures Told(p, callers + waits + stale)
  {
    match p
    case Waits(o, chain) =>
      OwnersWaitedAt(rows, waits, s, |s.releasers|, o);
      assert HasWait(waits, o, chain[0]);
      WaitStays(callers, waits, o, chain[0]);
      WaitStays(callers + waits, stale, o, chain[0]);
    case _ =>
  }

  /** Every problem that is there is reported, and no other; a function named
      by the check that is not where it should be hides the rest. */
  method SelfWaitProblems(table: seq<Row>, s: Setup) returns (problems: seq<Problem>, checked: nat)
    ensures problems == [] <==> Clean(Table(table, AnyRow()), s)
    ensures forall p: Problem | p in problems :: Fault(p, table, s)
    ensures forall p: Problem | Fault(p, table, s) && (p.Undefined? || AllDefined(Table(table, AnyRow()), s)) :: Told(p, problems)
    ensures problems == [] ==> (DefinedNames(Table(table, AnyRow()), s);
                                checked == WindowSize(Table(table, AnyRow()), s, |s.releasers|))
  {
    var rows := Table(table, AnyRow());
    problems := FindUndefined(rows, s);
    checked := 0;
    forall p: Problem
      ensures IsTrue(p, rows, s) <==> Fault(p, table, s)
    {
      TrueIff(p, table, s);
    }
    if problems != [] {
      return;
    }
    DefinedNames(rows, s);
    var callers := CheckCallers(rows, s);
    var waits, n := CheckOwners(rows, s);
    OwnersSafeIff(rows, waits, n, s);
    var stale := CheckArms(rows, s);
    MoreTrue(callers, waits, rows, s);
    MoreTrue(callers + waits, stale, rows, s);
    problems, checked := callers + waits + stale, n;
    forall p: Problem | IsTrue(p, rows, s)
      ensures Told(p, problems)
    {
      AllTold(p, rows, s, callers, waits, stale);
    }
  }

  // ----- What a clean verdict means -----

  /** A call of the dispatch into one of its mutating arms. */
  ghost predicate EntersArm(p: seq<string>, i: nat, s: Setup) {
    i + 1 < |p| && p[i] == s.registrar && p[i + 1] in s.arms
  }

  /** After a clean verdict every chain of calls from the registered window to
      the mutation guard enters a mutating arm of the dispatch; only a function
      named `*`, the table's mark of an indirect call, could make it otherwise. */
  lemma {:induction false} CleanMeansNoSelfWait(rows: Rows, s: Setup, p: seq<string>)
    requires Clean(rows, s) && s.lockFile != s.syscallFile
    requires IsPath(p, EdgesOf(rows, s)) && p[|p| - 1] == s.take
    requires p[0] == s.registrar || p[0] in s.releasers
    ensures (exists i: nat :: EntersArm(p, i, s)) || "*" in rows
    decreases |p|
  {
    var e := EdgesOf(rows, s);
    DefinedNames(rows, s);
    OwnersAreNotTake(rows, s, p[0]);
    assert p[1] in e(p[0]);
    CalledIsCallee(rows[p[0]].callees, |rows[p[0]].callees|, p[1], s);
    var tail := p[1..];
    assert forall i | 0 <= i < |tail| :: tail[i] == p[i + 1];
    if p[1] == s.registrar {
      CleanMeansNoSelfWait(rows, s, tail);
      if i: nat :| EntersArm(tail, i, s) {
        assert EntersArm(p, i + 1, s);
      }
    } else if p[1] == "*" {
      HasRow(rows, s, tail);
    } else {
      assert PathBetween(tail, p[1], s.take, e);
      OwnerSafe(rows, s, p[0]);
      assert MayRun(rows, p[0], p[1], s);
      assert EntersArm(p, 0, s);
    }
  }

  /** The kernel's own names are as the theorem asks. */
  lemma {:induction false} KernelFilesDiffer()
    ensures KERNEL.lockFile != KERNEL.syscallFile
  {
    assert KERNEL.lockFile[7] != KERNEL.syscallFile[7];
  }

  lemma {:induction false} HasRow(rows: Rows, s: Setup, p: seq<string>)
    requires AllDefined(rows, s) && IsPath(p, EdgesOf(rows, s)) && p[|p| - 1] == s.take
    ensures p[0] in rows
  {
    DefinedNames(rows, s);
    if |p| > 1 {
      assert p[1] in EdgesOf(rows, s)(p[0]);
    }
  }

  lemma {:induction false} AllSafeAt(rows: Rows, s: Setup, i: nat, j: nat)
    requires s.registrar in rows && i <= |s.releasers| && (forall k | 0 <= k < i :: s.releasers[k] in rows) && AllSafe(rows, s, i)
    ensures WindowSafe(rows, s.registrar, s) && (j < i ==> WindowSafe(rows, s.releasers[j], s))
  {
    if i > 0 {
      AllSafeAt(rows, s, i - 1, j);
    }
  }

  lemma {:induction false} OwnerSafe(rows: Rows, s: Setup, owner: string)
    requires Clean(rows, s) && (owner == s.registrar || owner in s.releasers) && owner in rows
    ensures WindowSafe(rows, owner, s)
  {
    DefinedNames(rows, s);
    if owner == s.registrar {
      AllSafeAt(rows, s, |s.releasers|, 0);
    } else {
      var j :| 0 <= j < |s.releasers| && s.releasers[j] == owner;
      AllSafeAt(rows, s, |s.releasers|, j);
    }
  }

  lemma {:induction false} OwnersAreNotTake(rows: Rows, s: Setup, owner: string)
    requires AllDefined(rows, s) && s.lockFile != s.syscallFile
    requires owner == s.registrar || owner in s.releasers
    ensures owner != s.take && owner in rows
  {
    DefinedNames(rows, s);
    if owner != s.registrar {
      var i :| 0 <= i < |s.releasers| && s.releasers[i] == owner;
      assert DefinedIn(rows, Expected(s)[4 + i]);
    }
  }

  lemma {:induction false} CalledIsCallee(calls: seq<Call>, j: nat, n: string, s: Setup)
    requires j <= |calls| && n in Called(calls, j, s)
    ensures n in NameSet(calls)
  {
    NameSetHas(calls, j - 1);
    if n != calls[j - 1].name {
      CalledIsCallee(calls, j - 1, n, s);
    }
  }
}
