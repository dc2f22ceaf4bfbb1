/** The compiler's bounded order contracts (lib/runtime_bounds.ml): a search of
    the < and <= facts known at a point, and that it finds exactly the
    relations the facts imply. */
module RuntimeBounds {
  import opened Options

  datatype Facet = Value | Length | Count

  /** A stable local value or extent, or a normalized static. */
  datatype Node = Local(id: int, name: string, facet: Facet) | Static(key: seq<(seq<(int, int)>, int)>)

  datatype Edge = Edge(src: Node, strict: bool, dst: Node)

  datatype Cmp = Lt | Le

  type Facts = seq<Edge>

  /** A node reached from the start, and whether a strict step led to it. */
  datatype State = State(node: Node, strict: bool)

  function Add(a: Node, cmp: Cmp, b: Node, facts: Facts): Facts {
    [Edge(a, cmp == Lt, b)] + facts
  }

  function Equate(a: Node, b: Node, facts: Facts): Facts {
    [Edge(a, false, b), Edge(b, false, a)] + facts
  }

  // ----- The search -----

  /** The states one fact on from a state, in the order of the facts. */
  function Next(facts: Facts, s: State): seq<State> {
    if facts == [] then []
    else (if facts[0].src == s.node then [State(facts[0].dst, s.strict || facts[0].strict)] else []) + Next(facts[1..], s)
  }

  predicate Accepts(s: State, cmp: Cmp, b: Node) {
    s.node == b && (cmp == Le || s.strict)
  }

  /** The states the search can meet. */
  ghost function Universe(facts: Facts, a: Node): set<State> {
    set n, x | n in {a} + Ends(facts) && x in {true, false} :: State(n, x)
  }

  ghost function Ends(facts: Facts): set<Node> {
    set i | 0 <= i < |facts| :: facts[i].dst
  }

  lemma {:induction false} NextIs(facts: Facts, s: State, t: State)
    ensures t in Next(facts, s)
            <==> exists i :: 0 <= i < |facts| && facts[i].src == s.node && t == State(facts[i].dst, s.strict || facts[i].strict)
  {
    if facts != [] {
      NextIs(facts[1..], s, t);
      if i :| 0 <= i < |facts| && facts[i].src == s.node && t == State(facts[i].dst, s.strict || facts[i].strict) {
        assert i > 0 ==> facts[1..][i - 1] == facts[i];
      }
      if t in Next(facts[1..], s) {
        var i :| 0 <= i < |facts[1..]| && facts[1..][i].src == s.node && t == State(facts[1..][i].dst, s.strict || facts[1..][i].strict);
        assert facts[i + 1] == facts[1..][i];
      }
    }
  }

  ghost predicate Known(work: seq<State>, facts: Facts, a: Node) {
    forall i | 0 <= i < |work| :: work[i] in Universe(facts, a)
  }

  lemma {:induction false} NextKnown(facts: Facts, a: Node, s: State, rest: seq<State>)
    requires Known(rest, facts, a)
    ensures Known(Next(facts, s) + rest, facts, a)
  {
    var work := Next(facts, s) + rest;
    forall i | 0 <= i < |work|
      ensures work[i] in Universe(facts, a)
    {
      if i < |Next(facts, s)| {
        NextIs(facts, s, work[i]);
        var k :| 0 <= k < |facts| && facts[k].src == s.node && work[i] == State(facts[k].dst, s.strict || facts[k].strict);
        assert facts[k].dst in Ends(facts);
      }
    }
  }

  function Visit(facts: Facts, cmp: Cmp, b: Node, seen: set<State>, work: seq<State>, ghost a: Node): bool
    requires Known(work, facts, a)
    decreases Universe(facts, a) - seen, |work|
  {
    if work == [] then false
    else
      var s, rest := work[0], work[1..];
      if Accepts(s, cmp, b) then true
      else if s in seen then Visit(facts, cmp, b, seen, rest, a)
      else
        NextKnown(facts, a, s, rest);
        Visit(facts, cmp, b, seen + {s}, Next(facts, s) + rest, a)
  }

  lemma {:induction false} StartKnown(facts: Facts, a: Node)
    ensures Known([State(a, false)], facts, a)
  {
  }

  function Proves(facts: Facts, a: Node, cmp: Cmp, b: Node): bool {
    StartKnown(facts, a);
    Visit(facts, cmp, b, {}, [State(a, false)], a)
  }

  // ----- What the facts say -----

  type Valuation = Node -> int

  predicate Compares(x: int, cmp: Cmp, y: int) {
    if cmp == Lt then x < y else x <= y
  }

  predicate Holds(v: Valuation, e: Edge) {
    Compares(v(e.src), if e.strict then Lt else Le, v(e.dst))
  }

  predicate AllHold(v: Valuation, facts: Facts) {
    forall i | 0 <= i < |facts| :: Holds(v, facts[i])
  }

  /** A state is right about a valuation: the start is below its node. */
  predicate RightState(v: Valuation, a: Node, s: State) {
    Compares(v(a), if s.strict then Lt else Le, v(s.node))
  }

  predicate Right(v: Valuation, a: Node, work: seq<State>) {
    forall i | 0 <= i < |work| :: RightState(v, a, work[i])
  }

  /** A property of states that the facts keep. */
  ghost predicate Kept(facts: Facts, ok: State -> bool) {
    forall s, t | ok(s) && t in Next(facts, s) :: ok(t)
  }

  lemma {:induction false} NextOk(facts: Facts, s: State, rest: seq<State>, ok: State -> bool)
    requires Kept(facts, ok) && ok(s) && forall i | 0 <= i < |rest| :: ok(rest[i])
    ensures forall i | 0 <= i < |Next(facts, s) + rest| :: ok((Next(facts, s) + rest)[i])
  {
    var next := Next(facts, s);
    assert forall i | 0 <= i < |next| :: next[i] in next;
  }

  /** A search that succeeds has come to an accepted state that the facts lead to. */
  lemma {:induction false} VisitAccepts(facts: Facts, cmp: Cmp, b: Node, seen: set<State>, work: seq<State>, a: Node, ok: State -> bool)
    returns (s: State)
    requires Known(work, facts, a) && Kept(facts, ok) && (forall i | 0 <= i < |work| :: ok(work[i]))
    requires Visit(facts, cmp, b, seen, work, a)
    ensures ok(s) && Accepts(s, cmp, b)
    decreases Universe(facts, a) - seen, |work|
  {
    var rest := work[1..];
    s := work[0];
    if !Accepts(s, cmp, b) {
      if s in seen {
        s := VisitAccepts(facts, cmp, b, seen, rest, a, ok);
      } else {
        NextKnown(facts, a, s, rest);
        NextOk(facts, s, rest, ok);
        s := VisitAccepts(facts, cmp, b, seen + {s}, Next(facts, s) + rest, a, ok);
      }
    }
  }

  lemma {:induction false} RightKept(facts: Facts, v: Valuation, a: Node)
    requires AllHold(v, facts)
    ensures Kept(facts, (s: State) => RightState(v, a, s))
  {
    forall s, t | RightState(v, a, s) && t in Next(facts, s)
      ensures RightState(v, a, t)
    {
      NextIs(facts, s, t);
      var k :| 0 <= k < |facts| && facts[k].src == s.node && t == State(facts[k].dst, s.strict || facts[k].strict);
      assert Holds(v, facts[k]);
    }
  }

  lemma {:induction false} VisitSound(facts: Facts, cmp: Cmp, b: Node, seen: set<State>, work: seq<State>, a: Node, v: Valuation)
    requires Known(work, facts, a) && AllHold(v, facts) && Right(v, a, work) && Visit(facts, cmp, b, seen, work, a)
    ensures Compares(v(a), cmp, v(b))
  {
    RightKept(facts, v, a);
    var s := VisitAccepts(facts, cmp, b, seen, work, a, (s: State) => RightState(v, a, s));
  }

  // ----- Nothing is missed -----

  /** What has been seen leads only to what has been seen or waits, and is not accepted. */
  ghost predicate Explored(facts: Facts, cmp: Cmp, b: Node, seen: set<State>, work: seq<State>) {
    && (forall s | s in seen :: !Accepts(s, cmp, b))
    && forall s, t | s in seen && t in Next(facts, s) :: t in seen || t in work
  }

  /** A search that fails leaves a set of states that the facts do not lead out
      of and that has no accepted state. What all states have that the facts
      lead to, these have. */
  lemma {:induction false} VisitComplete(facts: Facts, cmp: Cmp, b: Node, seen: set<State>, work: seq<State>, a: Node, ok: State -> bool)
    returns (all: set<State>)
    requires Known(work, facts, a) && Kept(facts, ok) && (forall i | 0 <= i < |work| :: ok(work[i])) && (forall s | s in seen :: ok(s))
    requires Explored(facts, cmp, b, seen, work) && !Visit(facts, cmp, b, seen, work, a)
    ensures Explored(facts, cmp, b, all, []) && (forall s | s in all :: ok(s))
    ensures seen <= all && forall i | 0 <= i < |work| :: work[i] in all
    decreases Universe(facts, a) - seen, |work|
  {
    if work == [] {
      all := seen;
    } else {
      var s, rest := work[0], work[1..];
      assert work == [s] + rest;
      if s in seen {
        ExploredSkip(facts, cmp, b, seen, s, rest);
        all := VisitComplete(facts, cmp, b, seen, rest, a, ok);
      } else {
        NextKnown(facts, a, s, rest);
        NextOk(facts, s, rest, ok);
        ExploredNext(facts, cmp, b, seen, s, rest);
        var more := Next(facts, s);
        all := VisitComplete(facts, cmp, b, seen + {s}, more + rest, a, ok);
        assert forall i | 0 <= i < |rest| :: rest[i] == (more + rest)[|more| + i];
      }
    }
  }

  lemma {:induction false} ExploredSkip(facts: Facts, cmp: Cmp, b: Node, seen: set<State>, s: State, rest: seq<State>)
    requires Explored(facts, cmp, b, seen, [s] + rest) && s in seen
    ensures Explored(facts, cmp, b, seen, rest)
  {
  }

  lemma {:induction false} ExploredNext(facts: Facts, cmp: Cmp, b: Node, seen: set<State>, s: State, rest: seq<State>)
    requires Explored(facts, cmp, b, seen, [s] + rest) && !Accepts(s, cmp, b)
    ensures Explored(facts, cmp, b, seen + {s}, Next(facts, s) + rest)
  {
  }

  // ----- The valuation that refutes what is not proved -----

  function Abs(x: int): nat {
    if x < 0 then -x else x
  }

  /** A bound on the values of the nodes of the facts. */
  function Size(v: Valuation, facts: Facts): nat {
    if facts == [] then 0 else Abs(v(facts[0].src)) + Abs(v(facts[0].dst)) + Size(v, facts[1..])
  }

  lemma {:induction false} SizeBounds(v: Valuation, facts: Facts, i: nat)
    requires i < |facts|
    ensures Abs(v(facts[i].src)) <= Size(v, facts) && Abs(v(facts[i].dst)) <= Size(v, facts)
  {
    if i > 0 {
      SizeBounds(v, facts[1..], i - 1);
    }
  }

  /** The old value outside the set; a level above all of those where only
      non-strict steps led; the old value, lifted over that level, beyond. */
  function Lifted(v: Valuation, all: set<State>, top: nat): Valuation {
    n => if State(n, true) in all then v(n) + 2 * top + 2
         else if State(n, false) in all then top + 1
         else v(n)
  }

  lemma {:induction false} LiftedHolds(v: Valuation, facts: Facts, all: set<State>, top: nat, cmp: Cmp, b: Node, i: nat)
    requires AllHold(v, facts) && Explored(facts, cmp, b, all, []) && i < |facts|
    requires Abs(v(facts[i].src)) <= top && Abs(v(facts[i].dst)) <= top
    ensures Holds(Lifted(v, all, top), facts[i])
  {
    var e := facts[i];
    assert Holds(v, e);
    forall x | State(e.src, x) in all
      ensures State(e.dst, x || e.strict) in all
    {
      NextIs(facts, State(e.src, x), State(e.dst, x || e.strict));
    }
  }

  /** What the search does not prove fails in some valuation of the same facts. */
  lemma {:induction false} Refuted(facts: Facts, a: Node, cmp: Cmp, b: Node, v: Valuation) returns (w: Valuation)
    requires AllHold(v, facts) && !Proves(facts, a, cmp, b)
    ensures AllHold(w, facts) && !Compares(w(a), cmp, w(b))
  {
    StartKnown(facts, a);
    RightKept(facts, v, a);
    var all := VisitComplete(facts, cmp, b, {}, [State(a, false)], a, (s: State) => RightState(v, a, s));
    var top := Size(v, facts) + Abs(v(a)) + Abs(v(b));
    w := Lifted(v, all, top);
    forall i | 0 <= i < |facts|
      ensures Holds(w, facts[i])
    {
      SizeBounds(v, facts, i);
      LiftedHolds(v, facts, all, top, cmp, b, i);
    }
    assert [State(a, false)][0] in all;
    assert State(a, true) !in all;
  }

  /** Of facts that can hold together, the search proves a relation exactly
      when it holds in every valuation of them. */
  lemma {:induction false} ProvesIff(facts: Facts, a: Node, cmp: Cmp, b: Node, v: Valuation)
    requires AllHold(v, facts)
    ensures Proves(facts, a, cmp, b) <==> forall w: Valuation | AllHold(w, facts) :: Compares(w(a), cmp, w(b))
  {
    StartKnown(facts, a);
    if Proves(facts, a, cmp, b) {
      forall w: Valuation | AllHold(w, facts)
        ensures Compares(w(a), cmp, w(b))
      {
        VisitSound(facts, cmp, b, {}, [State(a, false)], a, w);
      }
    } else {
      var w := Refuted(facts, a, cmp, b, v);
    }
  }

  // ----- Chains of facts -----

  /** A chain of facts from a to b. */
  ghost predicate IsChain(facts: Facts, a: Node, q: seq<Edge>, b: Node) {
    if q == [] then a == b
    else var e := q[|q| - 1]; e in facts && e.dst == b && IsChain(facts, a, q[..|q| - 1], e.src)
  }

  predicate HasStrict(q: seq<Edge>) {
    q != [] && (q[|q| - 1].strict || HasStrict(q[..|q| - 1]))
  }

  /** A chain that says the relation. */
  ghost predicate Derives(facts: Facts, a: Node, q: seq<Edge>, cmp: Cmp, b: Node) {
    IsChain(facts, a, q, b) && (cmp == Lt ==> HasStrict(q))
  }

  ghost predicate Led(facts: Facts, a: Node, s: State) {
    exists q :: IsChain(facts, a, q, s.node) && HasStrict(q) == s.strict
  }

  lemma {:induction false} LedOn(facts: Facts, a: Node, s: State, e: Edge)
    requires Led(facts, a, s) && e in facts && e.src == s.node
    ensures Led(facts, a, State(e.dst, s.strict || e.strict))
  {
    var q :| IsChain(facts, a, q, s.node) && HasStrict(q) == s.strict;
    var r := q + [e];
    assert r[..|r| - 1] == q;
    assert IsChain(facts, a, r, e.dst) && HasStrict(r) == (s.strict || e.strict);
  }

  lemma {:induction false} LedKept(facts: Facts, a: Node)
    ensures Kept(facts, (s: State) => Led(facts, a, s))
  {
    forall s, t | Led(facts, a, s) && t in Next(facts, s)
      ensures Led(facts, a, t)
    {
      NextIs(facts, s, t);
      var k :| 0 <= k < |facts| && facts[k].src == s.node && t == State(facts[k].dst, s.strict || facts[k].strict);
      LedOn(facts, a, s, facts[k]);
    }
  }

  /** What the facts do not lead out of holds the end of every chain. */
  lemma {:induction false} ChainWithin(facts: Facts, cmp: Cmp, b: Node, all: set<State>, a: Node, q: seq<Edge>, c: Node)
    requires Explored(facts, cmp, b, all, []) && State(a, false) in all && IsChain(facts, a, q, c)
    ensures State(c, HasStrict(q)) in all
  {
    if q != [] {
      var e, front := q[|q| - 1], q[..|q| - 1];
      ChainWithin(facts, cmp, b, all, a, front, e.src);
      var k :| 0 <= k < |facts| && facts[k] == e;
      NextIs(facts, State(e.src, HasStrict(front)), State(c, HasStrict(q)));
    }
  }

  /** Of all facts, contradictory ones too: a relation is proved exactly when a
      chain of facts leads from a to b, one of them strict if the relation is. */
  lemma {:induction false} ProvesChain(facts: Facts, a: Node, cmp: Cmp, b: Node)
    ensures Proves(facts, a, cmp, b) <==> exists q :: Derives(facts, a, q, cmp, b)
  {
    StartKnown(facts, a);
    if Proves(facts, a, cmp, b) {
      LedKept(facts, a);
      assert IsChain(facts, a, [], a) && !HasStrict([]);
      var s := VisitAccepts(facts, cmp, b, {}, [State(a, false)], a, (s: State) => Led(facts, a, s));
      assert Led(facts, a, s);
      var q :| IsChain(facts, a, q, s.node) && HasStrict(q) == s.strict;
      assert Derives(facts, a, q, cmp, b);
    } else {
      var all := VisitComplete(facts, cmp, b, {}, [State(a, false)], a, (s: State) => true);
      assert [State(a, false)][0] in all;
      forall q | IsChain(facts, a, q, b)
        ensures !Derives(facts, a, q, cmp, b)
      {
        ChainWithin(facts, cmp, b, all, a, q, b);
        assert !Accepts(State(b, HasStrict(q)), cmp, b);
      }
    }
  }

  // ----- Facts from conditions, facts after assignments -----

  datatype Operator = Less | AtMost | Greater | AtLeast | Equal

  /** A condition: a conjunction, a relation of two operands (each a node, if
      it is one the graph knows), or anything else. */
  datatype Cond = And(left: Cond, right: Cond) | Relation(op: Operator, a: Option<Node>, b: Option<Node>) | Unknown(id: nat)

  function Related(op: Operator, a: Node, b: Node, facts: Facts): Facts {
    match op
    case Less => Add(a, Lt, b, facts)
    case AtMost => Add(a, Le, b, facts)
    case Greater => Add(b, Lt, a, facts)
    case AtLeast => Add(b, Le, a, facts)
    case Equal => Equate(a, b, facts)
  }

  /** The facts known where a condition holds. */
  function Condition(facts: Facts, c: Cond): Facts
    decreases c
  {
    match c
    case And(l, r) => Condition(Condition(facts, l), r)
    case Relation(op, a, b) => if a.Some? && b.Some? then Related(op, a.value, b.value, facts) else facts
    case Unknown(_) => facts
  }

  predicate IsTrue(op: Operator, x: int, y: int) {
    match op
    case Less => x < y
    case AtMost => x <= y
    case Greater => x > y
    case AtLeast => x >= y
    case Equal => x == y
  }

  /** A condition in a run: `free` is what its unknown parts come to. */
  predicate Eval(c: Cond, v: Valuation, free: Cond -> bool) {
    match c
    case And(l, r) => Eval(l, v, free) && Eval(r, v, free)
    case Relation(op, a, b) => if a.Some? && b.Some? then IsTrue(op, v(a.value), v(b.value)) else free(c)
    case Unknown(_) => free(c)
  }

  predicate FullyKnown(c: Cond) {
    match c
    case And(l, r) => FullyKnown(l) && FullyKnown(r)
    case Relation(_, a, b) => a.Some? && b.Some?
    case Unknown(_) => false
  }

  lemma {:induction false} FirstHolds(e: Edge, facts: Facts, v: Valuation)
    ensures AllHold(v, [e] + facts) <==> Holds(v, e) && AllHold(v, facts)
  {
    assert ([e] + facts)[0] == e;
    assert forall i | 0 <= i < |facts| :: ([e] + facts)[i + 1] == facts[i];
  }

  lemma {:induction false} RelatedHolds(op: Operator, a: Node, b: Node, facts: Facts, v: Valuation)
    ensures AllHold(v, Related(op, a, b, facts)) <==> AllHold(v, facts) && IsTrue(op, v(a), v(b))
  {
    match op
    case Less => FirstHolds(Edge(a, true, b), facts, v);
    case AtMost => FirstHolds(Edge(a, false, b), facts, v);
    case Greater => FirstHolds(Edge(b, true, a), facts, v);
    case AtLeast => FirstHolds(Edge(b, false, a), facts, v);
    case Equal =>
      FirstHolds(Edge(b, false, a), facts, v);
      FirstHolds(Edge(a, false, b), [Edge(b, false, a)] + facts, v);
      assert Equate(a, b, facts) == [Edge(a, false, b)] + ([Edge(b, false, a)] + facts);
  }

  /** Where a condition is true its facts hold, and they say no more than it
      does; a condition of known operands is said in full. */
  lemma {:induction false} ConditionHolds(facts: Facts, c: Cond, v: Valuation, free: Cond -> bool)
    ensures AllHold(v, facts) && Eval(c, v, free) ==> AllHold(v, Condition(facts, c))
    ensures AllHold(v, Condition(facts, c)) ==> AllHold(v, facts) && (FullyKnown(c) ==> Eval(c, v, free))
    decreases c
  {
    match c
    case And(l, r) =>
      ConditionHolds(facts, l, v, free);
      ConditionHolds(Condition(facts, l), r, v, free);
    case Relation(op, a, b) =>
      if a.Some? && b.Some? {
        RelatedHolds(op, a.value, b.value, facts, v);
      }
    case Unknown(_) =>
  }

  /** A relation proved from a guard holds wherever the guard does. */
  lemma {:induction false} GuardProves(c: Cond, a: Node, cmp: Cmp, b: Node, v: Valuation, free: Cond -> bool)
    requires Eval(c, v, free) && Proves(Condition([], c), a, cmp, b)
    ensures Compares(v(a), cmp, v(b))
  {
    ConditionHolds([], c, v, free);
    ProvesIff(Condition([], c), a, cmp, b, v);
  }

  predicate Alive(n: Node, names: set<string>) {
    n.Local? ==> n.name !in names
  }

  /** The facts left once these names are bound anew. */
  function Without(names: set<string>, facts: Facts): Facts {
    if facts == [] then []
    else (if Alive(facts[0].src, names) && Alive(facts[0].dst, names) then [facts[0]] else []) + Without(names, facts[1..])
  }

  /** A local of one of the names. */
  ghost predicate Rebound(n: Node, names: set<string>) {
    n.Local? && n.name in names
  }

  /** A fact is left exactly when neither end is a local of a bound name, as
      often as it was there. */
  lemma {:induction false} WithoutIs(names: set<string>, facts: Facts, e: Edge)
    ensures e in Without(names, facts) <==> e in facts && !Rebound(e.src, names) && !Rebound(e.dst, names)
    ensures multiset(Without(names, facts))[e] ==
            if Rebound(e.src, names) || Rebound(e.dst, names) then 0 else multiset(facts)[e]
  {
    if facts != [] {
      WithoutIs(names, facts[1..], e);
      assert facts == [facts[0]] + facts[1..];
    }
  }

  /** Whatever the new values are, the facts left still hold. */
  lemma {:induction false} WithoutHolds(names: set<string>, facts: Facts, v: Valuation, w: Valuation)
    requires AllHold(v, facts) && forall n | Alive(n, names) :: w(n) == v(n)
    ensures AllHold(w, Without(names, facts))
  {
    if facts != [] {
      assert Holds(v, facts[0]);
      assert forall i | 0 <= i < |facts[1..]| :: facts[1..][i] == facts[i + 1];
      WithoutHolds(names, facts[1..], v, w);
      FirstHolds(facts[0], Without(names, facts[1..]), w);
    }
  }
}
