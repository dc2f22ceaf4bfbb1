/** The initialization predicate's decision procedure (lib/init_pred.ml):
    linear terms over atoms, a bounded entailment search, and the chain walk
    that decides whether known intervals cover a goal. */
module InitPred {
  import opened Options
  import opened SmtName
  import opened CheckedInt

  /** An atom: a binding, a length, a result; its value is a usize. */
  type Var = seq<Byte>

  type Env = Var -> int

  const USIZE := 0x1_0000_0000_0000_0000

  ghost predicate Usize(env: Env) {
    forall v :: 0 <= env(v) < USIZE
  }

  type Terms = seq<(Var, NativeInt)>

  /** c + the sum of coefficient * atom, in the order of the atoms; native
      integers all. */
  datatype Lin = Lin(c: NativeInt, m: Terms)

  function Const(c: NativeInt): Lin {
    Lin(c, [])
  }

  function Sum(m: Terms, env: Env): int {
    if m == [] then 0 else m[0].1 * env(m[0].0) + Sum(m[1..], env)
  }

  function Val(x: Lin, env: Env): int {
    x.c + Sum(x.m, env)
  }

  // ----- Arithmetic on terms; None is the exception Overflow -----

  /** `chk_add` and `chk_mul`, which are exact although they wrap. */
  function Plus(a: NativeInt, b: NativeInt): (r: Option<NativeInt>)
    ensures r == Chk(a + b)
  {
    ChkAddExact(a, b);
    ChkAdd(a, b)
  }

  function Times(a: NativeInt, b: NativeInt): (r: Option<NativeInt>)
    ensures r == Chk(a * b)
  {
    ChkMulExact(a, b);
    ChkMul(a, b)
  }

  predicate Less(a: Var, b: Var) {
    if b == [] then false
    else if a == [] then true
    else a[0] < b[0] || (a[0] == b[0] && Less(a[1..], b[1..]))
  }

  /** `SMap.union` with checked sums; a zero coefficient is dropped. */
  function Merge(x: Terms, y: Terms): Option<Terms>
    decreases |x| + |y|
  {
    if x == [] then Some(y)
    else if y == [] then Some(x)
    else if x[0].0 == y[0].0 then
      var s, rest := Plus(x[0].1, y[0].1), Merge(x[1..], y[1..]);
      if s.None? || rest.None? then None
      else if s.value == 0 then rest
      else Some([(x[0].0, s.value)] + rest.value)
    else if Less(x[0].0, y[0].0) then
      var rest := Merge(x[1..], y);
      if rest.None? then None else Some([x[0]] + rest.value)
    else
      var rest := Merge(x, y[1..]);
      if rest.None? then None else Some([y[0]] + rest.value)
  }

  function Add(x: Lin, y: Lin): Option<Lin> {
    var c, m := Plus(x.c, y.c), Merge(x.m, y.m);
    if c.None? || m.None? then None else Some(Lin(c.value, m.value))
  }

  function ScaleAll(k: NativeInt, m: Terms): Option<Terms> {
    if m == [] then Some([])
    else
      var s, rest := Times(k, m[0].1), ScaleAll(k, m[1..]);
      if s.None? || rest.None? then None else Some([(m[0].0, s.value)] + rest.value)
  }

  function Scale(k: NativeInt, x: Lin): Option<Lin> {
    if k == 0 then Some(Const(0))
    else
      var c, m := Times(k, x.c), ScaleAll(k, x.m);
      if c.None? || m.None? then None else Some(Lin(c.value, m.value))
  }

  function Sub(x: Lin, y: Lin): Option<Lin> {
    var n := Scale(-1, y);
    if n.None? then None else Add(x, n.value)
  }

  predicate Has(m: Terms, a: Var) {
    m != [] && (m[0].0 == a || Has(m[1..], a))
  }

  function Coeff(m: Terms, a: Var): NativeInt {
    if m == [] then 0 else if m[0].0 == a then m[0].1 else Coeff(m[1..], a)
  }

  function Remove(m: Terms, a: Var): Terms {
    if m == [] then [] else if m[0].0 == a then m[1..] else [m[0]] + Remove(m[1..], a)
  }

  /** k * t + rest */
  function AddScaled(rest: Lin, k: NativeInt, t: Lin): Option<Lin> {
    var s := Scale(k, t);
    if s.None? then None else Add(rest, s.value)
  }

  /** Substitute a term for an atom. */
  function Subst(a: Var, t: Lin, x: Lin): Option<Lin> {
    if !Has(x.m, a) then Some(x) else AddScaled(Lin(x.c, Remove(x.m, a)), Coeff(x.m, a), t)
  }

  // ----- They compute what they say -----

  lemma {:induction false} MergedHead(p: int, q: int, v: int)
    ensures (p + q) * v == p * v + q * v
  {
  }

  lemma {:induction false} MergeSum(x: Terms, y: Terms, env: Env)
    requires Merge(x, y).Some?
    ensures Sum(Merge(x, y).value, env) == Sum(x, env) + Sum(y, env)
    decreases |x| + |y|
  {
    if x != [] && y != [] {
      if x[0].0 == y[0].0 {
        MergeSum(x[1..], y[1..], env);
        MergedHead(x[0].1, y[0].1, env(x[0].0));
      } else if Less(x[0].0, y[0].0) {
        MergeSum(x[1..], y, env);
      } else {
        MergeSum(x, y[1..], env);
      }
    }
  }

  lemma {:induction false} AddValue(x: Lin, y: Lin, env: Env)
    requires Add(x, y).Some?
    ensures Val(Add(x, y).value, env) == Val(x, env) + Val(y, env)
  {
    MergeSum(x.m, y.m, env);
  }

  lemma {:induction false} ScaledHead(k: int, p: int, v: int, rest: int)
    ensures (k * p) * v + k * rest == k * (p * v + rest)
  {
  }

  lemma {:induction false} ScaleSum(k: NativeInt, m: Terms, env: Env)
    requires ScaleAll(k, m).Some?
    ensures Sum(ScaleAll(k, m).value, env) == k * Sum(m, env)
  {
    if m != [] {
      ScaleSum(k, m[1..], env);
      ScaledHead(k, m[0].1, env(m[0].0), Sum(m[1..], env));
    }
  }

  lemma {:induction false} ScaleValue(k: NativeInt, x: Lin, env: Env)
    requires Scale(k, x).Some?
    ensures Val(Scale(k, x).value, env) == k * Val(x, env)
  {
    if k != 0 {
      ScaleSum(k, x.m, env);
      ScaledHead(k, x.c, 1, Sum(x.m, env));
    }
  }

  lemma {:induction false} SubValue(x: Lin, y: Lin, env: Env)
    requires Sub(x, y).Some?
    ensures Val(Sub(x, y).value, env) == Val(x, env) - Val(y, env)
  {
    ScaleValue(-1, y, env);
    AddValue(x, Scale(-1, y).value, env);
  }

  lemma {:induction false} AddScaledValue(rest: Lin, k: NativeInt, t: Lin, env: Env)
    requires AddScaled(rest, k, t).Some?
    ensures Val(AddScaled(rest, k, t).value, env) == k * Val(t, env) + Val(rest, env)
  {
    ScaleValue(k, t, env);
    AddValue(rest, Scale(k, t).value, env);
  }

  lemma {:induction false} RemoveSum(m: Terms, a: Var, env: Env)
    ensures Sum(m, env) == Coeff(m, a) * env(a) + Sum(Remove(m, a), env)
  {
    if m != [] && m[0].0 != a {
      RemoveSum(m[1..], a, env);
      assert Remove(m, a)[1..] == Remove(m[1..], a);
    }
  }

  lemma {:induction false} SubstValue(a: Var, t: Lin, x: Lin, env: Env)
    requires Subst(a, t, x).Some? && env(a) == Val(t, env)
    ensures Val(Subst(a, t, x).value, env) == Val(x, env)
  {
    if Has(x.m, a) {
      RemoveSum(x.m, a, env);
      AddScaledValue(Lin(x.c, Remove(x.m, a)), Coeff(x.m, a), t, env);
    }
  }

  // ----- Equalities and facts known on the path -----

  type Eqs = seq<(Var, Lin)>

  ghost predicate EqsHold(eqs: Eqs, env: Env) {
    forall i | 0 <= i < |eqs| :: env(eqs[i].0) == Val(eqs[i].1, env)
  }

  function Normalize(eqs: Eqs, x: Lin): Option<Lin> {
    if eqs == [] then Some(x)
    else
      var y := Subst(eqs[0].0, eqs[0].1, x);
      if y.None? then None else Normalize(eqs[1..], y.value)
  }

  lemma {:induction false} NormalizeValue(eqs: Eqs, x: Lin, env: Env)
    requires EqsHold(eqs, env) && Normalize(eqs, x).Some?
    ensures Val(Normalize(eqs, x).value, env) == Val(x, env)
  {
    if eqs != [] {
      SubstValue(eqs[0].0, eqs[0].1, x, env);
      NormalizeValue(eqs[1..], Subst(eqs[0].0, eqs[0].1, x).value, env);
    }
  }

  /** atom = min(a, b) */
  datatype Min = Min(x: Var, a: Lin, b: Lin)

  /** Terms that are not negative, and definitions of minima. */
  datatype Facts = Facts(ge: seq<Lin>, mins: seq<Min>)

  ghost predicate MinHolds(d: Min, env: Env) {
    env(d.x) == if Val(d.a, env) <= Val(d.b, env) then Val(d.a, env) else Val(d.b, env)
  }

  ghost predicate FactsHold(f: Facts, env: Env) {
    && (forall i | 0 <= i < |f.ge| :: Val(f.ge[i], env) >= 0)
    && forall i | 0 <= i < |f.mins| :: MinHolds(f.mins[i], env)
  }

  function NormalizeAll(eqs: Eqs, xs: seq<Lin>): Option<seq<Lin>> {
    if xs == [] then Some([])
    else
      var x, rest := Normalize(eqs, xs[0]), NormalizeAll(eqs, xs[1..]);
      if x.None? || rest.None? then None else Some([x.value] + rest.value)
  }

  function NormalizeMins(eqs: Eqs, ds: seq<Min>): Option<seq<Min>> {
    if ds == [] then Some([])
    else
      var a, b, rest := Normalize(eqs, ds[0].a), Normalize(eqs, ds[0].b), NormalizeMins(eqs, ds[1..]);
      if a.None? || b.None? || rest.None? then None else Some([Min(ds[0].x, a.value, b.value)] + rest.value)
  }

  function NormalizeFacts(eqs: Eqs, f: Facts): Option<Facts> {
    var ge, mins := NormalizeAll(eqs, f.ge), NormalizeMins(eqs, f.mins);
    if ge.None? || mins.None? then None else Some(Facts(ge.value, mins.value))
  }

  lemma {:induction false} NormalizeAllValue(eqs: Eqs, xs: seq<Lin>, env: Env)
    requires EqsHold(eqs, env) && NormalizeAll(eqs, xs).Some?
    ensures var ys := NormalizeAll(eqs, xs).value;
            |ys| == |xs| && forall i | 0 <= i < |xs| :: Val(ys[i], env) == Val(xs[i], env)
  {
    if xs != [] {
      NormalizeValue(eqs, xs[0], env);
      NormalizeAllValue(eqs, xs[1..], env);
    }
  }

  lemma {:induction false} NormalizeMinsHold(eqs: Eqs, ds: seq<Min>, env: Env)
    requires EqsHold(eqs, env) && NormalizeMins(eqs, ds).Some?
    requires forall i | 0 <= i < |ds| :: MinHolds(ds[i], env)
    ensures var es := NormalizeMins(eqs, ds).value;
            |es| == |ds| && forall i | 0 <= i < |ds| :: MinHolds(es[i], env)
  {
    if ds != [] {
      NormalizeValue(eqs, ds[0].a, env);
      NormalizeValue(eqs, ds[0].b, env);
      NormalizeMinsHold(eqs, ds[1..], env);
    }
  }

  lemma {:induction false} NormalizeFactsHold(eqs: Eqs, f: Facts, env: Env)
    requires EqsHold(eqs, env) && FactsHold(f, env) && NormalizeFacts(eqs, f).Some?
    ensures FactsHold(NormalizeFacts(eqs, f).value, env)
  {
    NormalizeAllValue(eqs, f.ge, env);
    NormalizeMinsHold(eqs, f.mins, env);
  }

  // ----- The entailment search -----

  datatype Answer = Yes | No | Overflow

  /** What the search computes with: the difference of two terms, and k * t + rest. */
  datatype Ops = Ops(sub: (Lin, Lin) -> Option<Lin>, addScaled: (Lin, NativeInt, Lin) -> Option<Lin>)

  function Checked(): Ops {
    Ops((x: Lin, y: Lin) => Sub(x, y), (rest: Lin, k: NativeInt, t: Lin) => AddScaled(rest, k, t))
  }

  /** A result without overflow is right in env. */
  ghost predicate SoundOps(ops: Ops, env: Env) {
    && (forall x, y | ops.sub(x, y).Some? :: Val(ops.sub(x, y).value, env) == Val(x, env) - Val(y, env))
    && forall rest, k: NativeInt, t | ops.addScaled(rest, k, t).Some? ::
         Val(ops.addScaled(rest, k, t).value, env) == k * Val(t, env) + Val(rest, env)
  }

  lemma {:induction false} CheckedSound(env: Env)
    ensures SoundOps(Checked(), env)
  {
    forall x, y | Sub(x, y).Some? ensures Val(Sub(x, y).value, env) == Val(x, env) - Val(y, env) {
      SubValue(x, y, env);
    }
    forall rest, k: NativeInt, t | AddScaled(rest, k, t).Some?
      ensures Val(AddScaled(rest, k, t).value, env) == k * Val(t, env) + Val(rest, env)
    {
      AddScaledValue(rest, k, t, env);
    }
  }

  /** Every atom is a usize, so such a term is not negative. */
  predicate Obvious(t: Lin) {
    t.c >= 0 && forall i | 0 <= i < |t.m| :: t.m[i].1 >= 0
  }

  /** g has an atom of t with the same sign. */
  predicate Shares(t: Lin, g: Lin) {
    exists i | 0 <= i < |t.m| :: var j := Coeff(g.m, t.m[i].0); j != 0 && (j > 0) == (t.m[i].1 > 0)
  }

  /** Does t >= 0 follow from the facts, in at most `depth` steps? */
  function Search(ops: Ops, depth: nat, f: Facts, t: Lin): Answer
    decreases depth, 2
  {
    if Obvious(t) then Yes
    else if depth == 0 then No
    else match SearchFacts(ops, depth, f, t, 0)
      case Yes => Yes
      case Overflow => Overflow
      case No => SearchMins(ops, depth, f, t, 0)
  }

  /** Subtract a fact: t = g + (t - g). */
  function SearchFacts(ops: Ops, depth: nat, f: Facts, t: Lin, i: nat): Answer
    requires depth > 0 && i <= |f.ge|
    decreases depth, 1, |f.ge| - i
  {
    if i == |f.ge| then No
    else if !Shares(t, f.ge[i]) then SearchFacts(ops, depth, f, t, i + 1)
    else match ops.sub(t, f.ge[i])
      case None => Overflow
      case Some(d) =>
        match Search(ops, depth - 1, f, d)
        case Yes => Yes
        case Overflow => Overflow
        case No => SearchFacts(ops, depth, f, t, i + 1)
  }

  /** Expand an atom that is a minimum: both sides when its coefficient is
      positive, either when it is negative. */
  function SearchMins(ops: Ops, depth: nat, f: Facts, t: Lin, i: nat): Answer
    requires depth > 0 && i <= |f.mins|
    decreases depth, 1, |f.mins| - i
  {
    if i == |f.mins| then No
    else
      var d := f.mins[i];
      var k := Coeff(t.m, d.x);
      if k == 0 then SearchMins(ops, depth, f, t, i + 1)
      else
        var rest := Lin(t.c, Remove(t.m, d.x));
        var ta, tb := ops.addScaled(rest, k, d.a), ops.addScaled(rest, k, d.b);
        if ta.None? || tb.None? then Overflow
        else
          var first := Search(ops, depth - 1, f, ta.value);
          var both := if first == (if k > 0 then Yes else No) then Search(ops, depth - 1, f, tb.value) else first;
          if both == No then SearchMins(ops, depth, f, t, i + 1) else both
  }

  const DEPTH: nat := 4

  predicate Entails(f: Facts, t: Lin) {
    Search(Checked(), DEPTH, f, t) == Yes
  }

  ghost predicate Nonnegative(env: Env) {
    forall v :: env(v) >= 0
  }

  lemma {:induction false} ObviousSum(m: Terms, env: Env)
    requires Nonnegative(env) && forall i | 0 <= i < |m| :: m[i].1 >= 0
    ensures Sum(m, env) >= 0
  {
    if m != [] {
      ObviousSum(m[1..], env);
      Product(m[0].1, env(m[0].0));
    }
  }

  lemma {:induction false} Product(p: int, v: int)
    requires p >= 0 && v >= 0
    ensures p * v >= 0
  {
  }

  /** Arithmetic is sound, atoms are not negative, and the facts hold. */
  ghost predicate Sound(ops: Ops, f: Facts, env: Env) {
    SoundOps(ops, env) && Nonnegative(env) && FactsHold(f, env)
  }

  /** The search is sound. */
  lemma {:induction false} SearchSound(ops: Ops, depth: nat, f: Facts, t: Lin, env: Env)
    requires Sound(ops, f, env) && Search(ops, depth, f, t) == Yes
    ensures Val(t, env) >= 0
    decreases depth, 2
  {
    if Obvious(t) {
      ObviousSum(t.m, env);
    } else if SearchFacts(ops, depth, f, t, 0) == Yes {
      SearchFactsSound(ops, depth, f, t, 0, env);
    } else {
      SearchMinsSound(ops, depth, f, t, 0, env);
    }
  }

  lemma {:induction false} SearchFactsSound(ops: Ops, depth: nat, f: Facts, t: Lin, i: nat, env: Env)
    requires depth > 0 && i <= |f.ge|
    requires Sound(ops, f, env) && SearchFacts(ops, depth, f, t, i) == Yes
    ensures Val(t, env) >= 0
    decreases depth, 1, |f.ge| - i
  {
    if Shares(t, f.ge[i]) && Search(ops, depth - 1, f, ops.sub(t, f.ge[i]).value) == Yes {
      SearchSound(ops, depth - 1, f, ops.sub(t, f.ge[i]).value, env);
    } else {
      SearchFactsSound(ops, depth, f, t, i + 1, env);
    }
  }

  /** A term in which one atom is a minimum, against the two expansions. */
  lemma {:induction false} MinExpansion(k: int, x: int, a: int, b: int, rest: int)
    requires x == if a <= b then a else b
    ensures k > 0 && k * a + rest >= 0 && k * b + rest >= 0 ==> k * x + rest >= 0
    ensures k < 0 && (k * a + rest >= 0 || k * b + rest >= 0) ==> k * x + rest >= 0
  {
    if k < 0 {
      assert k * (x - a) >= 0 && k * (x - b) >= 0;
      assert k * (x - a) == k * x - k * a && k * (x - b) == k * x - k * b;
    }
  }

  /** Two soundly answered expansions of the minimum d. */
  lemma {:induction false} MinStep(ops: Ops, t: Lin, d: Min, env: Env)
    requires SoundOps(ops, env) && MinHolds(d, env)
    requires var k, rest := Coeff(t.m, d.x), Lin(t.c, Remove(t.m, d.x));
             var ta, tb := ops.addScaled(rest, k, d.a), ops.addScaled(rest, k, d.b);
             && k != 0 && ta.Some? && tb.Some?
             && (k > 0 ==> Val(ta.value, env) >= 0 && Val(tb.value, env) >= 0)
             && (k < 0 ==> Val(ta.value, env) >= 0 || Val(tb.value, env) >= 0)
    ensures Val(t, env) >= 0
  {
    var k, rest := Coeff(t.m, d.x), Lin(t.c, Remove(t.m, d.x));
    RemoveSum(t.m, d.x, env);
    MinExpansion(k, env(d.x), Val(d.a, env), Val(d.b, env), Val(rest, env));
  }

  lemma {:induction false} SearchMinsSound(ops: Ops, depth: nat, f: Facts, t: Lin, i: nat, env: Env)
    requires depth > 0 && i <= |f.mins|
    requires Sound(ops, f, env) && SearchMins(ops, depth, f, t, i) == Yes
    ensures Val(t, env) >= 0
    decreases depth, 1, |f.mins| - i
  {
    if SearchMins(ops, depth, f, t, i + 1) == Yes {
      SearchMinsSound(ops, depth, f, t, i + 1, env);
    } else {
      HereSound(ops, depth, f, t, i, env);
    }
  }

  lemma {:induction false} HereSound(ops: Ops, depth: nat, f: Facts, t: Lin, i: nat, env: Env)
    requires depth > 0 && i < |f.mins| && SearchMins(ops, depth, f, t, i) == Yes && SearchMins(ops, depth, f, t, i + 1) != Yes
    requires Sound(ops, f, env)
    ensures Val(t, env) >= 0
    decreases depth, 1, 0
  {
    SearchHere(ops, depth, f, t, i);
    Expanded(ops, depth, f, t, i, env);
    MinStep(ops, t, f.mins[i], env);
  }

  /** What was answered of the expansions is so. */
  lemma {:induction false} Expanded(ops: Ops, depth: nat, f: Facts, t: Lin, i: nat, env: Env)
    requires depth > 0 && i < |f.mins| && Sound(ops, f, env)
    ensures var d := f.mins[i];
            var k, rest := Coeff(t.m, d.x), Lin(t.c, Remove(t.m, d.x));
            var ta, tb := ops.addScaled(rest, k, d.a), ops.addScaled(rest, k, d.b);
            && (ta.Some? && Search(ops, depth - 1, f, ta.value) == Yes ==> Val(ta.value, env) >= 0)
            && (tb.Some? && Search(ops, depth - 1, f, tb.value) == Yes ==> Val(tb.value, env) >= 0)
    decreases depth, 0
  {
    var d := f.mins[i];
    var k, rest := Coeff(t.m, d.x), Lin(t.c, Remove(t.m, d.x));
    var ta, tb := ops.addScaled(rest, k, d.a), ops.addScaled(rest, k, d.b);
    if ta.Some? && Search(ops, depth - 1, f, ta.value) == Yes {
      SearchSound(ops, depth - 1, f, ta.value, env);
    }
    if tb.Some? && Search(ops, depth - 1, f, tb.value) == Yes {
      SearchSound(ops, depth - 1, f, tb.value, env);
    }
  }

  /** The answer comes from this minimum: its expansions were answered. */
  lemma {:induction false} SearchHere(ops: Ops, depth: nat, f: Facts, t: Lin, i: nat)
    requires depth > 0 && i < |f.mins| && SearchMins(ops, depth, f, t, i) == Yes && SearchMins(ops, depth, f, t, i + 1) != Yes
    ensures var d := f.mins[i];
            var k, rest := Coeff(t.m, d.x), Lin(t.c, Remove(t.m, d.x));
            var ta, tb := ops.addScaled(rest, k, d.a), ops.addScaled(rest, k, d.b);
            && k != 0 && ta.Some? && tb.Some?
            && (k > 0 ==> Search(ops, depth - 1, f, ta.value) == Yes && Search(ops, depth - 1, f, tb.value) == Yes)
            && (k < 0 ==> Search(ops, depth - 1, f, ta.value) == Yes || Search(ops, depth - 1, f, tb.value) == Yes)
  {
  }

  lemma {:induction false} EntailsSound(f: Facts, t: Lin, env: Env)
    requires Nonnegative(env) && FactsHold(f, env) && Entails(f, t)
    ensures Val(t, env) >= 0
  {
    CheckedSound(env);
    SearchSound(Checked(), DEPTH, f, t, env);
  }
}
