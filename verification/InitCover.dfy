/** Coverage of a goal interval by known intervals (lib/init_pred.ml,
    `uncovered`): the chain walk is sound for every path, and exact when every
    bound is a constant. */
module InitCover {
  import opened Options
  import opened CheckedInt
  import opened InitPred

  type Interval = (Lin, Lin)

  /** x >= y, or the difference overflows. */
  function Ge(f: Facts, x: Lin, y: Lin): Answer {
    match Sub(x, y)
    case None => Overflow
    case Some(d) => if Entails(f, d) then Yes else No
  }

  /** hi - cur - 1 >= 0 */
  function Advances(f: Facts, cur: Lin, hi: Lin): Answer {
    match Sub(hi, cur)
    case None => Overflow
    case Some(d) => Ge(f, d, Const(1))
  }

  /** What the walk asks about two positions. */
  datatype Order = Order(ge: (Lin, Lin) -> Answer, ahead: (Lin, Lin) -> Answer)

  function OrderBy(f: Facts): Order {
    Order((x, y) => Ge(f, x, y), (cur, hi) => Advances(f, cur, hi))
  }

  /** `a && b` */
  function And(a: Answer, b: Answer): Answer {
    if a == Yes then b else a
  }

  /** Some interval starts at or before cur and reaches b. */
  function Reaches(o: Order, cur: Lin, b: Lin, ivs: seq<Interval>): Answer {
    if ivs == [] then No
    else
      var r := And(o.ge(cur, ivs[0].0), o.ge(ivs[0].1, b));
      if r == No then Reaches(o, cur, b, ivs[1..]) else r
  }

  datatype Step = Found(hi: Lin) | NoStep | StepOverflow

  /** The first interval of the pool with lo <= cur <= hi that ends elsewhere. */
  function FindStep(o: Order, cur: Lin, pool: seq<Interval>): Step {
    if pool == [] then NoStep
    else
      var (lo, hi) := pool[0];
      match And(o.ge(cur, lo), o.ge(hi, cur))
      case Overflow => StepOverflow
      case Yes => if hi != cur then Found(hi) else FindStep(o, cur, pool[1..])
      case No => FindStep(o, cur, pool[1..])
  }

  function Without(pool: seq<Interval>, hi: Lin): seq<Interval> {
    if pool == [] then []
    else (if pool[0].1 == hi then [] else [pool[0]]) + Without(pool[1..], hi)
  }

  datatype Outcome = Covered | Stuck(at: Lin) | Overflowed

  /** From cur toward b; each interval is stepped through once. `report` is the
      position after the last step that provably advanced. */
  function Walk(o: Order, ivs: seq<Interval>, b: Lin, cur: Lin, report: Lin, fuel: nat, pool: seq<Interval>): Outcome
    decreases fuel
  {
    match o.ge(cur, b)
    case Overflow => Overflowed
    case Yes => Covered
    case No =>
      if fuel == 0 then Stuck(report)
      else match Reaches(o, cur, b, ivs)
        case Overflow => Overflowed
        case Yes => Covered
        case No =>
          match FindStep(o, cur, pool)
          case StepOverflow => Overflowed
          case NoStep => Stuck(report)
          case Found(hi) =>
            match o.ahead(cur, hi)
            case Overflow => Overflowed
            case adv => Walk(o, ivs, b, hi, if adv == Yes then hi else report, fuel - 1, Without(pool, hi))
  }

  function NormalizeIntervals(eqs: Eqs, ivs: seq<Interval>): Option<seq<Interval>> {
    if ivs == [] then Some([])
    else
      var lo, hi, rest := Normalize(eqs, ivs[0].0), Normalize(eqs, ivs[0].1), NormalizeIntervals(eqs, ivs[1..]);
      if lo.None? || hi.None? || rest.None? then None else Some([(lo.value, hi.value)] + rest.value)
  }

  /** None: covered. Some: the first point the walk could not cover. */
  function Uncovered(eqs: Eqs, facts: Facts, ivs: seq<Interval>, a: Lin, b: Lin): Option<Lin> {
    var f, ivs', a', b' := NormalizeFacts(eqs, facts), NormalizeIntervals(eqs, ivs), Normalize(eqs, a), Normalize(eqs, b);
    if f.None? || ivs'.None? || a'.None? || b'.None? then Some(a)
    else match Walk(OrderBy(f.value), ivs'.value, b'.value, a'.value, a'.value, |ivs| + 1, ivs'.value)
      case Covered => None
      case Stuck(at) => Some(at)
      case Overflowed => Some(a)
  }

  // ----- Soundness -----

  ghost predicate Inside(iv: Interval, k: int, env: Env) {
    Val(iv.0, env) <= k < Val(iv.1, env)
  }

  ghost predicate Covers(ivs: seq<Interval>, k: int, env: Env) {
    exists i :: 0 <= i < |ivs| && Inside(ivs[i], k, env)
  }

  ghost predicate CoversRange(ivs: seq<Interval>, lo: int, hi: int, env: Env) {
    forall k | lo <= k < hi :: Covers(ivs, k, env)
  }

  lemma {:induction false} GeYes(f: Facts, x: Lin, y: Lin) returns (d: Lin)
    requires Ge(f, x, y) == Yes
    ensures Sub(x, y) == Some(d) && Entails(f, d)
  {
    d := Sub(x, y).value;
  }

  lemma {:induction false} GeSound(f: Facts, x: Lin, y: Lin, env: Env)
    requires Nonnegative(env) && FactsHold(f, env) && Ge(f, x, y) == Yes
    ensures Val(x, env) >= Val(y, env)
  {
    var d := GeYes(f, x, y);
    SubValue(x, y, env);
    EntailsSound(f, d, env);
  }

  /** An answer Yes is right in env. */
  ghost predicate SoundOrder(o: Order, env: Env) {
    forall x, y | o.ge(x, y) == Yes :: Val(x, env) >= Val(y, env)
  }

  lemma {:induction false} OrderBySound(f: Facts, env: Env)
    requires Nonnegative(env) && FactsHold(f, env)
    ensures SoundOrder(OrderBy(f), env)
  {
    forall x, y | Ge(f, x, y) == Yes
      ensures Val(x, env) >= Val(y, env)
    {
      GeSound(f, x, y, env);
    }
  }

  lemma {:induction false} ReachesSound(o: Order, cur: Lin, b: Lin, ivs: seq<Interval>, env: Env) returns (i: nat)
    requires SoundOrder(o, env) && Reaches(o, cur, b, ivs) == Yes
    ensures i < |ivs| && Val(ivs[i].0, env) <= Val(cur, env) && Val(b, env) <= Val(ivs[i].1, env)
  {
    if And(o.ge(cur, ivs[0].0), o.ge(ivs[0].1, b)) == Yes {
        i := 0;
    } else {
      i := ReachesSound(o, cur, b, ivs[1..], env);
      i := i + 1;
    }
  }

  lemma {:induction false} FindStepSound(o: Order, cur: Lin, pool: seq<Interval>, env: Env) returns (i: nat)
    requires SoundOrder(o, env) && FindStep(o, cur, pool).Found?
    ensures i < |pool| && FindStep(o, cur, pool).hi == pool[i].1 && Val(pool[i].0, env) <= Val(cur, env)
  {
    if And(o.ge(cur, pool[0].0), o.ge(pool[0].1, cur)) == Yes && pool[0].1 != cur {
      i := 0;
    } else {
      i := FindStepSound(o, cur, pool[1..], env);
      i := i + 1;
    }
  }

  ghost predicate Among(pool: seq<Interval>, ivs: seq<Interval>) {
    forall i | 0 <= i < |pool| :: pool[i] in ivs
  }

  lemma {:induction false} WithoutAmong(pool: seq<Interval>, hi: Lin, ivs: seq<Interval>)
    requires Among(pool, ivs)
    ensures Among(Without(pool, hi), ivs) && |Without(pool, hi)| <= |pool|
  {
    if pool != [] {
      WithoutAmong(pool[1..], hi, ivs);
    }
  }

  lemma {:induction false} Extend(ivs: seq<Interval>, iv: Interval, lo: int, cur: int, env: Env)
    requires CoversRange(ivs, lo, cur, env) && iv in ivs && Val(iv.0, env) <= cur
    ensures CoversRange(ivs, lo, Val(iv.1, env), env)
  {
    forall k | lo <= k < Val(iv.1, env)
      ensures Covers(ivs, k, env)
    {
      if k >= cur {
        var i :| 0 <= i < |ivs| && ivs[i] == iv;
        assert Inside(ivs[i], k, env);
      }
    }
  }

  /** A walk that ends covered has covered everything up to b. */
  lemma {:induction false} WalkSound(o: Order, ivs: seq<Interval>, b: Lin, cur: Lin, report: Lin, fuel: nat,
                                     pool: seq<Interval>, lo: int, env: Env)
    requires SoundOrder(o, env) && Among(pool, ivs)
    requires CoversRange(ivs, lo, Val(cur, env), env)
    requires Walk(o, ivs, b, cur, report, fuel, pool) == Covered
    ensures CoversRange(ivs, lo, Val(b, env), env)
    decreases fuel
  {
    if o.ge(cur, b) == Yes {
    } else if Reaches(o, cur, b, ivs) == Yes {
      var i := ReachesSound(o, cur, b, ivs, env);
      Extend(ivs, ivs[i], lo, Val(cur, env), env);
    } else {
      var hi := FindStep(o, cur, pool).hi;
      var i := FindStepSound(o, cur, pool, env);
      Extend(ivs, pool[i], lo, Val(cur, env), env);
      WithoutAmong(pool, hi, ivs);
      WalkSound(o, ivs, b, hi, if o.ahead(cur, hi) == Yes then hi else report, fuel - 1, Without(pool, hi), lo, env);
    }
  }

  /** Wherever the walk stops, it has covered everything up to the point it reports. */
  lemma {:induction false} WalkReports(o: Order, ivs: seq<Interval>, b: Lin, cur: Lin, report: Lin, fuel: nat,
                                       pool: seq<Interval>, lo: int, env: Env)
    requires SoundOrder(o, env) && Among(pool, ivs)
    requires CoversRange(ivs, lo, Val(cur, env), env) && CoversRange(ivs, lo, Val(report, env), env)
    requires Walk(o, ivs, b, cur, report, fuel, pool).Stuck?
    ensures CoversRange(ivs, lo, Val(Walk(o, ivs, b, cur, report, fuel, pool).at, env), env)
    decreases fuel
  {
    if fuel > 0 && FindStep(o, cur, pool).Found? {
      var hi := FindStep(o, cur, pool).hi;
      var i := FindStepSound(o, cur, pool, env);
      Extend(ivs, pool[i], lo, Val(cur, env), env);
      WithoutAmong(pool, hi, ivs);
      WalkReports(o, ivs, b, hi, if o.ahead(cur, hi) == Yes then hi else report, fuel - 1, Without(pool, hi), lo, env);
    }
  }

  lemma {:induction false} NormalizeIntervalsValue(eqs: Eqs, ivs: seq<Interval>, env: Env)
    requires EqsHold(eqs, env) && NormalizeIntervals(eqs, ivs).Some?
    ensures var ivs' := NormalizeIntervals(eqs, ivs).value;
            |ivs'| == |ivs| && forall i, k | 0 <= i < |ivs| :: Inside(ivs'[i], k, env) <==> Inside(ivs[i], k, env)
  {
    if ivs != [] {
      NormalizeValue(eqs, ivs[0].0, env);
      NormalizeValue(eqs, ivs[0].1, env);
      NormalizeIntervalsValue(eqs, ivs[1..], env);
    }
  }

  /** A path: usize atoms, its equalities and its facts. */
  ghost predicate Path(eqs: Eqs, facts: Facts, env: Env) {
    Usize(env) && EqsHold(eqs, env) && FactsHold(facts, env)
  }

  /** On every path, every index of the goal lies in a known interval. */
  ghost predicate CoveredOnPaths(eqs: Eqs, facts: Facts, ivs: seq<Interval>, a: Lin, b: Lin) {
    forall env: Env | Path(eqs, facts, env) :: CoversRange(ivs, Val(a, env), Val(b, env), env)
  }

  lemma {:induction false} NormalizedCovers(eqs: Eqs, ivs: seq<Interval>, lo: int, hi: int, env: Env)
    requires EqsHold(eqs, env) && NormalizeIntervals(eqs, ivs).Some?
    requires CoversRange(NormalizeIntervals(eqs, ivs).value, lo, hi, env)
    ensures CoversRange(ivs, lo, hi, env)
  {
    var ivs' := NormalizeIntervals(eqs, ivs).value;
    NormalizeIntervalsValue(eqs, ivs, env);
    forall k | lo <= k < hi
      ensures Covers(ivs, k, env)
    {
      assert Covers(ivs', k, env);
      var i :| 0 <= i < |ivs'| && Inside(ivs'[i], k, env);
      assert Inside(ivs[i], k, env);
    }
  }

  /** What the checker concludes holds on every path. */
  lemma {:induction false} UncoveredSound(eqs: Eqs, facts: Facts, ivs: seq<Interval>, a: Lin, b: Lin)
    requires Uncovered(eqs, facts, ivs, a, b) == None
    ensures CoveredOnPaths(eqs, facts, ivs, a, b)
  {
    forall env: Env | Path(eqs, facts, env)
      ensures CoversRange(ivs, Val(a, env), Val(b, env), env)
    {
      var f, ivs' := NormalizeFacts(eqs, facts).value, NormalizeIntervals(eqs, ivs).value;
      var a', b' := Normalize(eqs, a).value, Normalize(eqs, b).value;
      NormalizeFactsHold(eqs, facts, env);
      NormalizeValue(eqs, a, env);
      NormalizeValue(eqs, b, env);
      OrderBySound(f, env);
      WalkSound(OrderBy(f), ivs', b', a', a', |ivs| + 1, ivs', Val(a, env), env);
      NormalizedCovers(eqs, ivs, Val(a, env), Val(b, env), env);
    }
  }

  /** On every path, everything of the goal before the point reported is covered. */
  lemma {:induction false} UncoveredReports(eqs: Eqs, facts: Facts, ivs: seq<Interval>, a: Lin, b: Lin)
    requires Uncovered(eqs, facts, ivs, a, b).Some?
    ensures CoveredOnPaths(eqs, facts, ivs, a, Uncovered(eqs, facts, ivs, a, b).value)
  {
    var p := Uncovered(eqs, facts, ivs, a, b).value;
    if p != a {
      forall env: Env | Path(eqs, facts, env)
        ensures CoversRange(ivs, Val(a, env), Val(p, env), env)
      {
        var f, ivs' := NormalizeFacts(eqs, facts).value, NormalizeIntervals(eqs, ivs).value;
        var a', b' := Normalize(eqs, a).value, Normalize(eqs, b).value;
        NormalizeFactsHold(eqs, facts, env);
        NormalizeValue(eqs, a, env);
        OrderBySound(f, env);
        WalkReports(OrderBy(f), ivs', b', a', a', |ivs| + 1, ivs', Val(a, env), env);
        NormalizedCovers(eqs, ivs, Val(a, env), Val(p, env), env);
      }
    }
  }

  // ----- Exactness on constants -----

  /** A constant no larger than a leaf of a term may be. */
  predicate Leaf(x: Lin) {
    x.m == [] && -LIMIT <= x.c <= LIMIT
  }

  ghost predicate Leaves(ivs: seq<Interval>) {
    forall i | 0 <= i < |ivs| :: Leaf(ivs[i].0) && Leaf(ivs[i].1)
  }

  ghost predicate Within(iv: Interval, k: int) {
    iv.0.c <= k < iv.1.c
  }

  ghost predicate CoversPoint(ivs: seq<Interval>, k: int) {
    exists i :: 0 <= i < |ivs| && Within(ivs[i], k)
  }

  const NO_FACTS := Facts([], [])

  lemma {:induction false} GeExact(x: Lin, y: Lin)
    requires x.m == [] && y.m == [] && -EDGE <= y.c <= EDGE && -EDGE <= x.c - y.c <= EDGE
    ensures Sub(x, y) == Some(Const(x.c - y.c))
    ensures Ge(NO_FACTS, x, y) == if x.c >= y.c then Yes else No
  {
    var d := Const(x.c - y.c);
    assert Scale(-1, y) == Some(Const(-y.c));
    assert Search(Checked(), DEPTH, NO_FACTS, d) == if d.c >= 0 then Yes else No by {
      if d.c < 0 {
        assert SearchFacts(Checked(), DEPTH, NO_FACTS, d, 0) == No && SearchMins(Checked(), DEPTH, NO_FACTS, d, 0) == No;
      }
    }
  }

  /** Leaves are compared as their constants. */
  ghost predicate ExactOrder(o: Order) {
    && (forall x, y | Leaf(x) && Leaf(y) :: o.ge(x, y) == if x.c >= y.c then Yes else No)
    && forall x, y | Leaf(x) && Leaf(y) :: o.ahead(x, y) == if y.c > x.c then Yes else No
  }

  lemma {:induction false} NoFactsExact()
    ensures ExactOrder(OrderBy(NO_FACTS))
  {
    forall x, y | Leaf(x) && Leaf(y)
      ensures Ge(NO_FACTS, x, y) == if x.c >= y.c then Yes else No
      ensures Advances(NO_FACTS, x, y) == if y.c > x.c then Yes else No
    {
      GeExact(x, y);
      GeExact(y, x);
      GeExact(Const(y.c - x.c), Const(1));
    }
  }

  lemma {:induction false} ReachesDecides(o: Order, cur: Lin, b: Lin, ivs: seq<Interval>)
    requires ExactOrder(o) && Leaf(cur) && Leaf(b) && Leaves(ivs)
    ensures Reaches(o, cur, b, ivs) != Overflow
  {
    if ivs != [] {
      ReachesDecides(o, cur, b, ivs[1..]);
    }
  }

  /** An interval past cur that contains it is found, and progress is made. */
  lemma {:induction false} FindStepFinds(o: Order, cur: Lin, pool: seq<Interval>, i: nat)
    requires ExactOrder(o) && Leaf(cur) && Leaves(pool) && i < |pool| && Within(pool[i], cur.c)
    ensures var s := FindStep(o, cur, pool);
            s.Found? && Leaf(s.hi) && s.hi.c > cur.c && |Without(pool, s.hi)| < |pool|
  {
    var s := FindStep(o, cur, pool);
    if pool[0].0.c <= cur.c < pool[0].1.c {
      WithoutAmong(pool[1..], s.hi, pool[1..]);
    } else {
      FindStepFinds(o, cur, pool[1..], i - 1);
    }
  }

  /** The pool still holds every interval that ends past cur. */
  ghost predicate Keeps(pool: seq<Interval>, ivs: seq<Interval>, cur: int) {
    forall i | 0 <= i < |ivs| && ivs[i].1.c > cur :: ivs[i] in pool
  }

  lemma {:induction false} WithoutKeeps(pool: seq<Interval>, hi: Lin, iv: Interval)
    requires iv in pool && iv.1 != hi
    ensures iv in Without(pool, hi)
  {
    if pool[0] != iv {
      WithoutKeeps(pool[1..], hi, iv);
    }
  }

  lemma {:induction false} WithoutLeaves(pool: seq<Interval>, hi: Lin)
    requires Leaves(pool)
    ensures Leaves(Without(pool, hi))
  {
    if pool != [] {
      WithoutLeaves(pool[1..], hi);
    }
  }

  /** The interval stepped through covers what is passed, cur first. */
  lemma {:induction false} StepCovers(o: Order, ivs: seq<Interval>, cur: Lin, pool: seq<Interval>)
    requires ExactOrder(o) && Leaf(cur) && Leaves(pool) && Among(pool, ivs) && FindStep(o, cur, pool).Found?
    ensures var hi := FindStep(o, cur, pool).hi; hi.c > cur.c && forall k | cur.c <= k < hi.c :: CoversPoint(ivs, k)
  {
    var (lo, hi) := pool[0];
    if And(o.ge(cur, lo), o.ge(hi, cur)) == Yes && hi != cur {
      var i :| 0 <= i < |ivs| && ivs[i] == pool[0];
      assert forall k | cur.c <= k < hi.c :: Within(ivs[i], k);
    } else {
      StepCovers(o, ivs, cur, pool[1..]);
    }
  }

  /** A covered point short of b: the walk steps past it. */
  lemma {:induction false} StepPast(o: Order, ivs: seq<Interval>, cur: Lin, pool: seq<Interval>) returns (hi: Lin)
    requires ExactOrder(o) && Leaf(cur) && Leaves(ivs) && Leaves(pool) && Among(pool, ivs) && Keeps(pool, ivs, cur.c)
    requires CoversPoint(ivs, cur.c)
    ensures FindStep(o, cur, pool) == Found(hi) && Leaf(hi) && hi.c > cur.c
    ensures o.ahead(cur, hi) == Yes
    ensures forall k | cur.c <= k < hi.c :: CoversPoint(ivs, k)
    ensures Leaves(Without(pool, hi)) && Keeps(Without(pool, hi), ivs, hi.c) && |Without(pool, hi)| < |pool|
  {
    var i :| 0 <= i < |ivs| && Within(ivs[i], cur.c);
    var j :| 0 <= j < |pool| && pool[j] == ivs[i];
    FindStepFinds(o, cur, pool, j);
    hi := FindStep(o, cur, pool).hi;
    StepCovers(o, ivs, cur, pool);
    WithoutLeaves(pool, hi);
    forall n | 0 <= n < |ivs| && ivs[n].1.c > hi.c
      ensures ivs[n] in Without(pool, hi)
    {
      WithoutKeeps(pool, hi, ivs[n]);
    }
  }

  /** p is the least point from `from` on that no interval covers, and lies before b. */
  ghost predicate LeastUncovered(ivs: seq<Interval>, from: int, b: int, p: Lin) {
    from <= p.c < b && !CoversPoint(ivs, p.c) && forall k | from <= k < p.c :: CoversPoint(ivs, k)
  }

  /** Nothing at cur: there is no step, and the walk stops there. */
  lemma {:induction false} StopsAt(o: Order, ivs: seq<Interval>, b: Lin, cur: Lin, pool: seq<Interval>)
    requires ExactOrder(o) && Leaf(b) && Leaf(cur) && cur.c < b.c && Leaves(ivs) && Leaves(pool) && Among(pool, ivs)
    requires !CoversPoint(ivs, cur.c)
    ensures Reaches(o, cur, b, ivs) == No && FindStep(o, cur, pool) == NoStep
  {
    ReachesDecides(o, cur, b, ivs);
    if Reaches(o, cur, b, ivs) == Yes {
      ReachesWithin(o, cur, b, ivs);
    }
    FindStepDecides(o, cur, pool);
    if FindStep(o, cur, pool).Found? {
      StepCovers(o, ivs, cur, pool);
    }
  }

  lemma {:induction false} ReachesWithin(o: Order, cur: Lin, b: Lin, ivs: seq<Interval>)
    requires ExactOrder(o) && Leaf(b) && Leaf(cur) && cur.c < b.c && Leaves(ivs) && Reaches(o, cur, b, ivs) == Yes
    ensures CoversPoint(ivs, cur.c)
  {
    if And(o.ge(cur, ivs[0].0), o.ge(ivs[0].1, b)) == Yes {
      assert Within(ivs[0], cur.c);
    } else {
      ReachesWithin(o, cur, b, ivs[1..]);
      var i :| 0 <= i < |ivs| - 1 && Within(ivs[1..][i], cur.c);
      assert Within(ivs[i + 1], cur.c);
    }
  }

  lemma {:induction false} FindStepDecides(o: Order, cur: Lin, pool: seq<Interval>)
    requires ExactOrder(o) && Leaf(cur) && Leaves(pool)
    ensures !FindStep(o, cur, pool).StepOverflow?
  {
    if pool != [] {
      FindStepDecides(o, cur, pool[1..]);
    }
  }

  /** What the walk over constants gives from a point on. */
  ghost predicate ExactFrom(r: Outcome, ivs: seq<Interval>, from: int, b: int) {
    || (r == Covered && forall k | from <= k < b :: CoversPoint(ivs, k))
    || (r.Stuck? && LeastUncovered(ivs, from, b, r.at))
  }

  lemma {:induction false} ExactBefore(r: Outcome, ivs: seq<Interval>, from: int, hi: int, b: int)
    requires ExactFrom(r, ivs, hi, b) && from <= hi && forall k | from <= k < hi :: CoversPoint(ivs, k)
    ensures ExactFrom(r, ivs, from, b)
  {
  }

  lemma {:induction false} WalkStep(o: Order, ivs: seq<Interval>, b: Lin, cur: Lin, fuel: nat, pool: seq<Interval>, hi: Lin)
    requires fuel > 0 && o.ge(cur, b) == No && Reaches(o, cur, b, ivs) == No
    requires FindStep(o, cur, pool) == Found(hi) && o.ahead(cur, hi) == Yes
    ensures Walk(o, ivs, b, cur, cur, fuel, pool) == Walk(o, ivs, b, hi, hi, fuel - 1, Without(pool, hi))
  {
  }

  /** The walk over constants finds the least uncovered point, or that there is none. */
  lemma {:induction false} WalkExact(o: Order, ivs: seq<Interval>, b: Lin, cur: Lin, fuel: nat, pool: seq<Interval>)
    requires ExactOrder(o) && Leaf(b) && Leaf(cur) && Leaves(ivs) && Leaves(pool)
    requires Among(pool, ivs) && Keeps(pool, ivs, cur.c) && fuel > |pool|
    ensures ExactFrom(Walk(o, ivs, b, cur, cur, fuel, pool), ivs, cur.c, b.c)
    decreases fuel
  {
    if cur.c < b.c {
      ReachesDecides(o, cur, b, ivs);
      if !CoversPoint(ivs, cur.c) {
        StopsAt(o, ivs, b, cur, pool);
      } else if Reaches(o, cur, b, ivs) == Yes {
        ReachesAll(o, cur, b, ivs);
      } else {
        var hi := StepPast(o, ivs, cur, pool);
        WithoutAmong(pool, hi, ivs);
        WalkExact(o, ivs, b, hi, fuel - 1, Without(pool, hi));
        WalkStep(o, ivs, b, cur, fuel, pool, hi);
        ExactBefore(Walk(o, ivs, b, hi, hi, fuel - 1, Without(pool, hi)), ivs, cur.c, hi.c, b.c);
      }
    }
  }

  lemma {:induction false} ReachesAll(o: Order, cur: Lin, b: Lin, ivs: seq<Interval>)
    requires ExactOrder(o) && Leaf(b) && Leaf(cur) && cur.c < b.c && Leaves(ivs) && Reaches(o, cur, b, ivs) == Yes
    ensures forall k | cur.c <= k < b.c :: CoversPoint(ivs, k)
  {
    if And(o.ge(cur, ivs[0].0), o.ge(ivs[0].1, b)) == Yes {
      assert forall k | cur.c <= k < b.c :: Within(ivs[0], k);
    } else {
      ReachesAll(o, cur, b, ivs[1..]);
      forall k | cur.c <= k < b.c
        ensures CoversPoint(ivs, k)
      {
        assert CoversPoint(ivs[1..], k);
        var i :| 0 <= i < |ivs| - 1 && Within(ivs[1..][i], k);
        assert Within(ivs[i + 1], k);
      }
    }
  }

  lemma {:induction false} NormalizeNothing(ivs: seq<Interval>)
    ensures NormalizeIntervals([], ivs) == Some(ivs)
  {
    if ivs != [] {
      NormalizeNothing(ivs[1..]);
      assert [ivs[0]] + ivs[1..] == ivs;
    }
  }

  /** With constant bounds the decision is exact, and the point reported is
      the least of the goal that no interval covers. */
  lemma {:induction false} ConstantsExact(ivs: seq<Interval>, a: Lin, b: Lin)
    requires Leaf(a) && Leaf(b) && Leaves(ivs)
    ensures Uncovered([], NO_FACTS, ivs, a, b) == None <==> forall k | a.c <= k < b.c :: CoversPoint(ivs, k)
    ensures Uncovered([], NO_FACTS, ivs, a, b).Some? ==>
              LeastUncovered(ivs, a.c, b.c, Uncovered([], NO_FACTS, ivs, a, b).value)
  {
    NormalizeNothing(ivs);
    assert NormalizeFacts([], NO_FACTS) == Some(NO_FACTS);
    NoFactsExact();
    WalkExact(OrderBy(NO_FACTS), ivs, b, a, |ivs| + 1, ivs);
  }

  // ----- What is covered at once -----

  /** Each term is the other list's, with the equalities used. */
  ghost predicate NormalizedAll(eqs: Eqs, xs: seq<Lin>, ys: seq<Lin>) {
    |xs| == |ys| && forall i | 0 <= i < |xs| :: Normalize(eqs, xs[i]) == Some(ys[i])
  }

  ghost predicate NormalizedFacts(eqs: Eqs, f: Facts, g: Facts) {
    && NormalizedAll(eqs, f.ge, g.ge)
    && |f.mins| == |g.mins|
    && forall i | 0 <= i < |f.mins| ::
         && f.mins[i].x == g.mins[i].x
         && Normalize(eqs, f.mins[i].a) == Some(g.mins[i].a) && Normalize(eqs, f.mins[i].b) == Some(g.mins[i].b)
  }

  ghost predicate NormalizedIntervals(eqs: Eqs, ivs: seq<Interval>, jvs: seq<Interval>) {
    |ivs| == |jvs| && forall i | 0 <= i < |ivs| ::
      Normalize(eqs, ivs[i].0) == Some(jvs[i].0) && Normalize(eqs, ivs[i].1) == Some(jvs[i].1)
  }

  lemma {:induction false} NormalizeAllIs(eqs: Eqs, xs: seq<Lin>, ys: seq<Lin>)
    requires NormalizedAll(eqs, xs, ys)
    ensures NormalizeAll(eqs, xs) == Some(ys)
  {
    if xs != [] {
      NormalizeAllIs(eqs, xs[1..], ys[1..]);
      assert [ys[0]] + ys[1..] == ys;
    }
  }

  lemma {:induction false} NormalizeMinsIs(eqs: Eqs, ds: seq<Min>, es: seq<Min>)
    requires NormalizedFacts(eqs, Facts([], ds), Facts([], es))
    ensures NormalizeMins(eqs, ds) == Some(es)
  {
    if ds != [] {
      NormalizeMinsIs(eqs, ds[1..], es[1..]);
      assert [es[0]] + es[1..] == es;
    }
  }

  lemma {:induction false} NormalizeIntervalsIs(eqs: Eqs, ivs: seq<Interval>, jvs: seq<Interval>)
    requires NormalizedIntervals(eqs, ivs, jvs)
    ensures NormalizeIntervals(eqs, ivs) == Some(jvs)
  {
    if ivs != [] {
      NormalizeIntervalsIs(eqs, ivs[1..], jvs[1..]);
      assert [jvs[0]] + jvs[1..] == jvs;
    }
  }

  /** The questions asked of an interval when an end is looked for. */
  ghost predicate Answered(f: Facts, cur: Lin, b: Lin, iv: Interval) {
    Ge(f, cur, iv.0) != Overflow && (Ge(f, cur, iv.0) == Yes ==> Ge(f, iv.1, b) != Overflow)
  }

  lemma {:induction false} ReachesFinds(o: Order, cur: Lin, b: Lin, ivs: seq<Interval>, i: nat)
    requires i < |ivs| && o.ge(cur, ivs[i].0) == Yes && o.ge(ivs[i].1, b) == Yes
    requires forall j | 0 <= j < i :: And(o.ge(cur, ivs[j].0), o.ge(ivs[j].1, b)) != Overflow
    ensures Reaches(o, cur, b, ivs) == Yes
  {
    if i > 0 {
      ReachesFinds(o, cur, b, ivs[1..], i - 1);
    }
  }

  /** With the equalities used in every fact, bound and interval: a goal shown
      to be empty is covered, and so is one that an interval is shown to hold. */
  lemma {:induction false} OneCovers(eqs: Eqs, facts: Facts, ivs: seq<Interval>, a: Lin, b: Lin,
                                     f: Facts, jvs: seq<Interval>, p: Lin, q: Lin)
    requires NormalizedFacts(eqs, facts, f) && NormalizedIntervals(eqs, ivs, jvs)
    requires Normalize(eqs, a) == Some(p) && Normalize(eqs, b) == Some(q)
    requires Ge(f, p, q) != Overflow
    requires Ge(f, p, q) == Yes || exists i :: 0 <= i < |jvs| && Ge(f, p, jvs[i].0) == Yes && Ge(f, jvs[i].1, q) == Yes
                                               && forall j | 0 <= j < i :: Answered(f, p, q, jvs[j])
    ensures Uncovered(eqs, facts, ivs, a, b) == None
  {
    NormalizeAllIs(eqs, facts.ge, f.ge);
    NormalizeMinsIs(eqs, facts.mins, f.mins);
    NormalizeIntervalsIs(eqs, ivs, jvs);
    if Ge(f, p, q) != Yes {
      var i :| 0 <= i < |jvs| && Ge(f, p, jvs[i].0) == Yes && Ge(f, jvs[i].1, q) == Yes
               && forall j | 0 <= j < i :: Answered(f, p, q, jvs[j]);
      assert forall j | 0 <= j < i :: Answered(f, p, q, jvs[j]);
      ReachesFinds(OrderBy(f), p, q, jvs, i);
    }
  }
}
