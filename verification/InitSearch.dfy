/** What the bounded entailment search of lib/init_pred.ml (`entails`) finds:
    exactly the derivations of at most four steps, a relation that is defined
    on coefficients alone. */
module InitSearch {
  import opened Options
  import opened SmtName
  import opened CheckedInt
  import opened InitPred
  import opened InitCover

  // ----- Terms as the map holds them -----

  predicate Fits(v: int) {
    -EDGE <= v <= EDGE
  }

  ghost predicate Above(a: Var, m: Terms) {
    forall i | 0 <= i < |m| :: Less(a, m[i].0)
  }

  /** Atoms in order, each once, and no zero coefficient. */
  ghost predicate Ordered(m: Terms) {
    m == [] || (m[0].1 != 0 && Fits(m[0].1) && Above(m[0].0, m[1..]) && Ordered(m[1..]))
  }

  ghost predicate Proper(x: Lin) {
    Fits(x.c) && Ordered(x.m)
  }

  lemma {:induction false} LessOrder(a: Var, b: Var, c: Var)
    ensures !Less(a, a)
    ensures Less(a, b) && Less(b, c) ==> Less(a, c)
    ensures a == b || Less(a, b) || Less(b, a)
  {
    if a != [] {
      LessOrder(a[1..], if b == [] then [] else b[1..], if c == [] then [] else c[1..]);
      if b != [] && a[0] == b[0] && a[1..] == b[1..] {
        assert a == [a[0]] + a[1..] && b == [b[0]] + b[1..];
      }
    }
  }

  lemma {:induction false} AboveNone(a: Var, m: Terms, b: Var)
    requires Above(a, m) && (b == a || Less(b, a))
    ensures Coeff(m, b) == 0
  {
    if m != [] {
      LessOrder(b, a, m[0].0);
      assert forall i | 0 <= i < |m[1..]| :: m[1..][i] == m[i + 1];
      AboveNone(a, m[1..], b);
    }
  }

  /** A coefficient is read where it stands, and is zero elsewhere. */
  lemma {:induction false} CoeffAt(m: Terms, i: nat)
    requires Ordered(m) && i < |m|
    ensures Coeff(m, m[i].0) == m[i].1 && m[i].1 != 0 && Fits(m[i].1)
  {
    if i > 0 {
      assert m[1..][i - 1] == m[i];
      LessOrder(m[0].0, m[i].0, []);
      CoeffAt(m[1..], i - 1);
    }
  }

  lemma {:induction false} CoeffPlace(m: Terms, a: Var) returns (i: nat)
    requires Ordered(m) && Coeff(m, a) != 0
    ensures i < |m| && m[i].0 == a
  {
    if m[0].0 == a {
      i := 0;
    } else {
      i := CoeffPlace(m[1..], a);
      i := i + 1;
    }
  }

  lemma {:induction false} CoeffFits(m: Terms, a: Var)
    requires Ordered(m)
    ensures Fits(Coeff(m, a))
  {
    if Coeff(m, a) != 0 {
      var i := CoeffPlace(m, a);
      CoeffAt(m, i);
    }
  }

  ghost predicate SameCoeffs(x: Terms, y: Terms) {
    forall a :: Coeff(x, a) == Coeff(y, a)
  }

  /** Terms with the same coefficients are the same. */
  lemma {:induction false} Extensional(x: Terms, y: Terms)
    requires Ordered(x) && Ordered(y) && SameCoeffs(x, y)
    ensures x == y
  {
    assert x != [] ==> Coeff(x, x[0].0) == Coeff(y, x[0].0);
    assert y != [] ==> Coeff(x, y[0].0) == Coeff(y, y[0].0);
    if x != [] {
      SameHead(x, y);
      forall a
        ensures Coeff(x[1..], a) == Coeff(y[1..], a)
      {
        assert Coeff(x, a) == Coeff(y, a);
        if a == x[0].0 {
          AboveNone(a, x[1..], a);
          AboveNone(a, y[1..], a);
        }
      }
      Extensional(x[1..], y[1..]);
      assert x == [x[0]] + x[1..] && y == [y[0]] + y[1..];
    }
  }

  lemma {:induction false} SameHead(x: Terms, y: Terms)
    requires x != [] && y != [] && Ordered(x) && Ordered(y) && SameCoeffs(x, y)
    ensures x[0] == y[0]
  {
    var a, b := x[0].0, y[0].0;
    assert Coeff(x, a) == Coeff(y, a) && Coeff(x, b) == Coeff(y, b);
    LessOrder(a, b, a);
    if Less(a, b) {
      AboveNone(b, y[1..], a);
      LessOrder(a, a, a);
    } else if Less(b, a) {
      AboveNone(a, x[1..], b);
      LessOrder(b, b, b);
    }
  }

  // ----- Arithmetic, coefficient by coefficient -----

  lemma {:induction false} MergeAbove(a: Var, x: Terms, y: Terms)
    requires Above(a, x) && Above(a, y) && Merge(x, y).Some?
    ensures Above(a, Merge(x, y).value)
    decreases |x| + |y|
  {
    if x != [] && y != [] {
      assert Less(a, x[0].0) && Less(a, y[0].0);
      assert forall i | 0 <= i < |x[1..]| :: x[1..][i] == x[i + 1];
      assert forall i | 0 <= i < |y[1..]| :: y[1..][i] == y[i + 1];
      if x[0].0 == y[0].0 {
        MergeAbove(a, x[1..], y[1..]);
      } else if Less(x[0].0, y[0].0) {
        MergeAbove(a, x[1..], y);
      } else {
        MergeAbove(a, x, y[1..]);
      }
    }
  }

  /** The first atom of two lists, when it is the first of x alone. */
  lemma {:induction false} FirstAbove(x: Terms, y: Terms)
    requires x != [] && y != [] && Ordered(x) && Ordered(y) && Less(x[0].0, y[0].0)
    ensures Above(x[0].0, y)
  {
    forall i | 0 <= i < |y|
      ensures Less(x[0].0, y[i].0)
    {
      if i > 0 {
        assert y[1..][i - 1] == y[i];
        LessOrder(x[0].0, y[0].0, y[i].0);
      }
    }
  }

  lemma {:induction false} Consed(h: (Var, NativeInt), m: Terms)
    requires h.1 != 0 && Fits(h.1) && Above(h.0, m) && Ordered(m)
    ensures Ordered([h] + m)
  {
    assert ([h] + m)[1..] == m;
  }

  lemma {:induction false} MergeOrdered(x: Terms, y: Terms)
    requires Ordered(x) && Ordered(y) && Merge(x, y).Some?
    ensures Ordered(Merge(x, y).value)
    decreases |x| + |y|
  {
    if x != [] && y != [] {
      LessOrder(x[0].0, y[0].0, []);
      if x[0].0 == y[0].0 {
        MergeOrdered(x[1..], y[1..]);
        MergeAbove(x[0].0, x[1..], y[1..]);
        if Plus(x[0].1, y[0].1).value != 0 {
          Consed((x[0].0, Plus(x[0].1, y[0].1).value), Merge(x[1..], y[1..]).value);
        }
      } else if Less(x[0].0, y[0].0) {
        MergeOrdered(x[1..], y);
        FirstAbove(x, y);
        MergeAbove(x[0].0, x[1..], y);
        Consed(x[0], Merge(x[1..], y).value);
      } else {
        MergeOrdered(x, y[1..]);
        FirstAbove(y, x);
        MergeAbove(y[0].0, x, y[1..]);
        Consed(y[0], Merge(x, y[1..]).value);
      }
    }
  }

  lemma {:induction false} CoeffCons(h: (Var, NativeInt), m: Terms, a: Var)
    ensures Coeff([h] + m, a) == if h.0 == a then h.1 else Coeff(m, a)
  {
    assert ([h] + m)[1..] == m;
  }

  lemma {:induction false} MergeCoeff(x: Terms, y: Terms, a: Var)
    requires Ordered(x) && Ordered(y) && Merge(x, y).Some?
    ensures Coeff(Merge(x, y).value, a) == Coeff(x, a) + Coeff(y, a)
    decreases |x| + |y|
  {
    if x != [] && y != [] {
      LessOrder(x[0].0, y[0].0, []);
      if x[0].0 == y[0].0 {
        MergeCoeff(x[1..], y[1..], a);
        if a == x[0].0 {
          AboveNone(a, x[1..], a);
          AboveNone(a, y[1..], a);
        }
        CoeffCons((x[0].0, Plus(x[0].1, y[0].1).value), Merge(x[1..], y[1..]).value, a);
      } else if Less(x[0].0, y[0].0) {
        MergeCoeff(x[1..], y, a);
        FirstAbove(x, y);
        if a == x[0].0 {
          AboveNone(a, y, a);
        }
        CoeffCons(x[0], Merge(x[1..], y).value, a);
      } else {
        MergeCoeff(x, y[1..], a);
        FirstAbove(y, x);
        if a == y[0].0 {
          AboveNone(a, x, a);
        }
        CoeffCons(y[0], Merge(x, y[1..]).value, a);
      }
    }
  }

  /** A sum that overflows has a coefficient that does not fit. */
  lemma {:induction false} MergeOverflow(x: Terms, y: Terms) returns (a: Var)
    requires Ordered(x) && Ordered(y) && Merge(x, y).None?
    ensures !Fits(Coeff(x, a) + Coeff(y, a))
    decreases |x| + |y|
  {
    LessOrder(x[0].0, y[0].0, []);
    if x[0].0 == y[0].0 {
      if Plus(x[0].1, y[0].1).None? {
        a := x[0].0;
      } else {
        a := MergeOverflow(x[1..], y[1..]);
        if a == x[0].0 {
          AboveNone(a, x[1..], a);
          AboveNone(a, y[1..], a);
        }
      }
    } else if Less(x[0].0, y[0].0) {
      a := MergeOverflow(x[1..], y);
      FirstAbove(x, y);
      if a == x[0].0 {
        AboveNone(a, x[1..], a);
        AboveNone(a, y, a);
      }
    } else {
      a := MergeOverflow(x, y[1..]);
      FirstAbove(y, x);
      if a == y[0].0 {
        AboveNone(a, x, a);
        AboveNone(a, y[1..], a);
      }
    }
  }

  /** s is x + y. */
  ghost predicate IsSum(s: Lin, x: Lin, y: Lin) {
    Proper(s) && s.c == x.c + y.c && forall a :: Coeff(s.m, a) == Coeff(x.m, a) + Coeff(y.m, a)
  }

  /** The sum of two terms is computed exactly when it fits. */
  lemma {:induction false} AddIff(x: Lin, y: Lin, s: Lin)
    requires Proper(x) && Proper(y)
    ensures Add(x, y) == Some(s) <==> IsSum(s, x, y)
  {
    if Merge(x.m, y.m).Some? {
      var m := Merge(x.m, y.m).value;
      MergeOrdered(x.m, y.m);
      forall a
        ensures Coeff(m, a) == Coeff(x.m, a) + Coeff(y.m, a)
      {
        MergeCoeff(x.m, y.m, a);
      }
      if IsSum(s, x, y) {
        Extensional(s.m, m);
      }
    } else {
      var a := MergeOverflow(x.m, y.m);
      if IsSum(s, x, y) {
        CoeffFits(s.m, a);
      }
    }
  }

  /** Every coefficient and the constant, k times, fits. */
  ghost predicate ScaleFits(k: int, x: Lin) {
    Fits(k * x.c) && forall a :: Fits(k * Coeff(x.m, a))
  }

  lemma {:induction false} NonzeroProduct(k: int, p: int)
    requires k != 0 && p != 0
    ensures k * p != 0
  {
  }

  lemma {:induction false} ScaleAbove(a: Var, k: NativeInt, m: Terms)
    requires Above(a, m) && ScaleAll(k, m).Some?
    ensures Above(a, ScaleAll(k, m).value)
  {
    if m != [] {
      assert Less(a, m[0].0);
      assert forall i | 0 <= i < |m[1..]| :: m[1..][i] == m[i + 1];
      ScaleAbove(a, k, m[1..]);
    }
  }

  lemma {:induction false} ScaleOrdered(k: NativeInt, m: Terms)
    requires k != 0 && Ordered(m) && ScaleAll(k, m).Some?
    ensures Ordered(ScaleAll(k, m).value)
  {
    if m != [] {
      ScaleOrdered(k, m[1..]);
      ScaleAbove(m[0].0, k, m[1..]);
      NonzeroProduct(k, m[0].1);
      Consed((m[0].0, Times(k, m[0].1).value), ScaleAll(k, m[1..]).value);
    }
  }

  lemma {:induction false} ScaleCoeff(k: NativeInt, m: Terms, a: Var)
    requires ScaleAll(k, m).Some?
    ensures Coeff(ScaleAll(k, m).value, a) == k * Coeff(m, a)
  {
    if m != [] {
      ScaleCoeff(k, m[1..], a);
      CoeffCons((m[0].0, Times(k, m[0].1).value), ScaleAll(k, m[1..]).value, a);
    }
  }

  lemma {:induction false} ScaleOverflow(k: NativeInt, m: Terms) returns (a: Var)
    requires Ordered(m) && ScaleAll(k, m).None?
    ensures !Fits(k * Coeff(m, a))
  {
    if Times(k, m[0].1).None? {
      a := m[0].0;
    } else {
      a := ScaleOverflow(k, m[1..]);
      if a == m[0].0 {
        AboveNone(a, m[1..], a);
      }
    }
  }

  ghost predicate IsScaled(s: Lin, k: int, x: Lin) {
    Proper(s) && s.c == k * x.c && forall a :: Coeff(s.m, a) == k * Coeff(x.m, a)
  }

  lemma {:induction false} ScaleIff(k: NativeInt, x: Lin)
    requires k != 0 && Proper(x)
    ensures Scale(k, x).Some? <==> ScaleFits(k, x)
    ensures Scale(k, x).Some? ==> IsScaled(Scale(k, x).value, k, x)
  {
    if ScaleAll(k, x.m).Some? {
      var m := ScaleAll(k, x.m).value;
      ScaleOrdered(k, x.m);
      forall a
        ensures Coeff(m, a) == k * Coeff(x.m, a) && Fits(k * Coeff(x.m, a))
      {
        ScaleCoeff(k, x.m, a);
        CoeffFits(m, a);
      }
    } else {
      var a := ScaleOverflow(k, x.m);
    }
  }

  /** d is x - y. */
  ghost predicate Difference(d: Lin, x: Lin, y: Lin) {
    Proper(d) && d.c == x.c - y.c && forall a :: Coeff(d.m, a) == Coeff(x.m, a) - Coeff(y.m, a)
  }

  /** The difference of two terms is computed exactly when it fits. */
  lemma {:induction false} SubIff(x: Lin, y: Lin, d: Lin)
    requires Proper(x) && Proper(y)
    ensures Sub(x, y) == Some(d) <==> Difference(d, x, y)
  {
    forall a
      ensures Fits(-1 * Coeff(y.m, a))
    {
      CoeffFits(y.m, a);
    }
    assert ScaleFits(-1, y);
    ScaleIff(-1, y);
    var n := Scale(-1, y).value;
    AddIff(x, n, d);
    assert IsSum(d, x, n) <==> Difference(d, x, y) by {
      forall a
        ensures Coeff(n.m, a) == -Coeff(y.m, a)
      {
        assert Coeff(n.m, a) == -1 * Coeff(y.m, a);
      }
    }
  }

  lemma {:induction false} RemoveCoeff(m: Terms, x: Var, a: Var)
    requires Ordered(m)
    ensures Coeff(Remove(m, x), a) == if a == x then 0 else Coeff(m, a)
  {
    if m != [] {
      if m[0].0 == x {
        AboveNone(x, m[1..], x);
      } else {
        RemoveCoeff(m[1..], x, a);
        CoeffCons(m[0], Remove(m[1..], x), a);
      }
    }
  }

  lemma {:induction false} RemoveAbove(b: Var, m: Terms, x: Var)
    requires Above(b, m)
    ensures Above(b, Remove(m, x))
  {
    if m != [] {
      assert Less(b, m[0].0);
      assert forall i | 0 <= i < |m[1..]| :: m[1..][i] == m[i + 1];
      RemoveAbove(b, m[1..], x);
    }
  }

  lemma {:induction false} RemoveOrdered(m: Terms, x: Var)
    requires Ordered(m)
    ensures Ordered(Remove(m, x))
  {
    if m != [] && m[0].0 != x {
      RemoveOrdered(m[1..], x);
      RemoveAbove(m[0].0, m[1..], x);
      Consed(m[0], Remove(m[1..], x));
    }
  }

  /** r is t with k * a in the place of the atom x. */
  ghost predicate Expansion(r: Lin, t: Lin, x: Var, k: int, a: Lin) {
    && Proper(r) && ScaleFits(k, a) && r.c == t.c + k * a.c
    && forall v :: Coeff(r.m, v) == (if v == x then 0 else Coeff(t.m, v)) + k * Coeff(a.m, v)
  }

  /** An atom is replaced exactly when the product and the sum fit. */
  lemma {:induction false} AddScaledIff(t: Lin, x: Var, k: NativeInt, a: Lin, r: Lin)
    requires Proper(t) && Proper(a) && k != 0
    ensures AddScaled(Lin(t.c, Remove(t.m, x)), k, a) == Some(r) <==> Expansion(r, t, x, k, a)
  {
    var rest := Lin(t.c, Remove(t.m, x));
    RemoveOrdered(t.m, x);
    ScaleIff(k, a);
    if ScaleFits(k, a) {
      var s := Scale(k, a).value;
      AddIff(rest, s, r);
      forall v
        ensures Coeff(rest.m, v) + Coeff(s.m, v) == (if v == x then 0 else Coeff(t.m, v)) + k * Coeff(a.m, v)
      {
        RemoveCoeff(t.m, x, v);
      }
      SumIsExpansion(r, t, x, k, a, rest, s);
    }
  }

  lemma {:induction false} SumIsExpansion(r: Lin, t: Lin, x: Var, k: int, a: Lin, rest: Lin, s: Lin)
    requires ScaleFits(k, a) && rest.c + s.c == t.c + k * a.c
    requires forall v :: Coeff(rest.m, v) + Coeff(s.m, v) == (if v == x then 0 else Coeff(t.m, v)) + k * Coeff(a.m, v)
    ensures IsSum(r, rest, s) <==> Expansion(r, t, x, k, a)
  {
  }

  // ----- Derivations -----

  /** No negative part. */
  ghost predicate Plain(t: Lin) {
    t.c >= 0 && forall a :: Coeff(t.m, a) >= 0
  }

  /** An atom that occurs in both with the same sign. */
  ghost predicate Alike(t: Lin, g: Lin) {
    exists a :: (Coeff(t.m, a) > 0 && Coeff(g.m, a) > 0) || (Coeff(t.m, a) < 0 && Coeff(g.m, a) < 0)
  }

  /** t >= 0 by subtracting a fact. */
  ghost predicate BySubtracting(n: nat, f: Facts, t: Lin, g: Lin)
    decreases n, 1
  {
    Alike(t, g) && exists d :: Difference(d, t, g) && Derives(n, f, d)
  }

  /** t >= 0 by expanding a minimum of two terms: by both when its coefficient
      is positive, by one of them when it is negative. */
  ghost predicate ByExpanding(n: nat, f: Facts, t: Lin, d: Min)
    decreases n, 1
  {
    var k := Coeff(t.m, d.x);
    && k != 0
    && exists ta, tb :: Expansion(ta, t, d.x, k, d.a) && Expansion(tb, t, d.x, k, d.b)
                        && if k > 0 then Derives(n, f, ta) && Derives(n, f, tb) else Derives(n, f, ta) || Derives(n, f, tb)
  }

  /** t >= 0 has a derivation of at most n steps. */
  ghost predicate Derives(n: nat, f: Facts, t: Lin)
    decreases n, 0
  {
    || Plain(t)
    || (n > 0 && exists i | 0 <= i < |f.ge| :: BySubtracting(n - 1, f, t, f.ge[i]))
    || (n > 0 && exists i | 0 <= i < |f.mins| :: ByExpanding(n - 1, f, t, f.mins[i]))
  }

  /** No step of at most n leaves the native range. */
  ghost predicate Clear(n: nat, f: Facts, t: Lin)
    decreases n, 0
  {
    || Plain(t) || n == 0
    || ((forall i | 0 <= i < |f.ge| :: ClearSubtracting(n - 1, f, t, f.ge[i]))
        && forall i | 0 <= i < |f.mins| :: ClearExpanding(n - 1, f, t, f.mins[i]))
  }

  ghost predicate ClearSubtracting(n: nat, f: Facts, t: Lin, g: Lin)
    decreases n, 1
  {
    Alike(t, g) ==> exists d :: Difference(d, t, g) && Clear(n, f, d)
  }

  ghost predicate ClearExpanding(n: nat, f: Facts, t: Lin, d: Min)
    decreases n, 1
  {
    var k := Coeff(t.m, d.x);
    k != 0 ==>
      && (exists ta :: Expansion(ta, t, d.x, k, d.a) && Clear(n, f, ta))
      && exists tb :: Expansion(tb, t, d.x, k, d.b) && Clear(n, f, tb)
  }

  ghost predicate ProperFacts(f: Facts) {
    && (forall i | 0 <= i < |f.ge| :: Proper(f.ge[i]))
    && forall i | 0 <= i < |f.mins| :: Proper(f.mins[i].a) && Proper(f.mins[i].b)
  }

  /** Arithmetic gives what it should wherever it fits. */
  ghost predicate ExactOps(ops: Ops) {
    && (forall x, y, d | Proper(x) && Proper(y) :: ops.sub(x, y) == Some(d) <==> Difference(d, x, y))
    && forall t, x, k: NativeInt, a, r | Proper(t) && Proper(a) && k != 0 ::
         ops.addScaled(Lin(t.c, Remove(t.m, x)), k, a) == Some(r) <==> Expansion(r, t, x, k, a)
  }

  lemma {:induction false} CheckedExact()
    ensures ExactOps(Checked())
  {
    forall x, y, d | Proper(x) && Proper(y)
      ensures Checked().sub(x, y) == Some(d) <==> Difference(d, x, y)
    {
      SubIff(x, y, d);
    }
    forall t, x, k: NativeInt, a, r | Proper(t) && Proper(a) && k != 0
      ensures Checked().addScaled(Lin(t.c, Remove(t.m, x)), k, a) == Some(r) <==> Expansion(r, t, x, k, a)
    {
      AddScaledIff(t, x, k, a, r);
    }
  }

  lemma {:induction false} ObviousIff(t: Lin)
    requires Proper(t)
    ensures Obvious(t) <==> Plain(t)
  {
    forall i: nat | i < |t.m|
      ensures Coeff(t.m, t.m[i].0) == t.m[i].1
    {
      CoeffAt(t.m, i);
    }
    forall a
      ensures Obvious(t) ==> Coeff(t.m, a) >= 0
    {
      if Coeff(t.m, a) != 0 {
        var i := CoeffPlace(t.m, a);
      }
    }
  }

  lemma {:induction false} SharesIff(t: Lin, g: Lin)
    requires Proper(t) && Proper(g)
    ensures Shares(t, g) <==> Alike(t, g)
  {
    if Shares(t, g) {
      var i :| 0 <= i < |t.m| && Coeff(g.m, t.m[i].0) != 0 && (Coeff(g.m, t.m[i].0) > 0) == (t.m[i].1 > 0);
      CoeffAt(t.m, i);
    }
    if Alike(t, g) {
      var a :| (Coeff(t.m, a) > 0 && Coeff(g.m, a) > 0) || (Coeff(t.m, a) < 0 && Coeff(g.m, a) < 0);
      var i := CoeffPlace(t.m, a);
      CoeffAt(t.m, i);
    }
  }

  // ----- The tries, in order -----

  /** What subtracting the fact g gives; n steps are left after it. */
  ghost function FactTry(ops: Ops, n: nat, f: Facts, t: Lin, g: Lin): Answer {
    if !Alike(t, g) then No
    else match ops.sub(t, g)
      case None => Overflow
      case Some(d) => Search(ops, n, f, d)
  }

  /** What expanding the minimum d gives. */
  ghost function MinTry(ops: Ops, n: nat, f: Facts, t: Lin, d: Min): Answer {
    var k, rest := Coeff(t.m, d.x), Lin(t.c, Remove(t.m, d.x));
    if k == 0 then No
    else match (ops.addScaled(rest, k, d.a), ops.addScaled(rest, k, d.b))
      case (Some(ta), Some(tb)) => Either(k, Search(ops, n, f, ta), Search(ops, n, f, tb))
      case _ => Overflow
  }

  /** Both when the coefficient is positive, either when it is negative. */
  ghost function Either(k: int, p: Answer, q: Answer): Answer {
    if p == Overflow then Overflow
    else if k > 0 then (if p == No then No else q)
    else if p == Yes then Yes else q
  }

  /** The first try that is not No decides. */
  ghost function First(tries: seq<Answer>): Answer {
    if tries == [] then No else if tries[0] != No then tries[0] else First(tries[1..])
  }

  lemma {:induction false} FirstIs(tries: seq<Answer>)
    ensures First(tries) == No <==> forall i | 0 <= i < |tries| :: tries[i] == No
    ensures First(tries) != No ==>
              exists i | 0 <= i < |tries| :: tries[i] == First(tries) && forall j | 0 <= j < i :: tries[j] == No
  {
    if tries != [] && tries[0] == No {
      FirstIs(tries[1..]);
      assert forall i | 0 < i < |tries| :: tries[i] == tries[1..][i - 1];
      if First(tries) != No {
        var i :| 0 <= i < |tries| - 1 && tries[1..][i] == First(tries) && forall j | 0 <= j < i :: tries[1..][j] == No;
        assert tries[i + 1] == First(tries) && forall j | 0 <= j < i + 1 :: tries[j] == No;
      }
    }
  }

  lemma {:induction false} FirstConcat(p: seq<Answer>, q: seq<Answer>)
    ensures First(p + q) == if First(p) != No then First(p) else First(q)
  {
    if p == [] {
      assert p + q == q;
    } else {
      assert (p + q)[1..] == p[1..] + q;
      FirstConcat(p[1..], q);
    }
  }

  ghost function FactTries(ops: Ops, n: nat, f: Facts, t: Lin, i: nat): (r: seq<Answer>)
    requires i <= |f.ge|
    ensures |r| == |f.ge| - i && forall j | 0 <= j < |r| :: r[j] == FactTry(ops, n, f, t, f.ge[i + j])
    decreases |f.ge| - i
  {
    if i == |f.ge| then [] else [FactTry(ops, n, f, t, f.ge[i])] + FactTries(ops, n, f, t, i + 1)
  }

  ghost function MinTries(ops: Ops, n: nat, f: Facts, t: Lin, i: nat): (r: seq<Answer>)
    requires i <= |f.mins|
    ensures |r| == |f.mins| - i && forall j | 0 <= j < |r| :: r[j] == MinTry(ops, n, f, t, f.mins[i + j])
    decreases |f.mins| - i
  {
    if i == |f.mins| then [] else [MinTry(ops, n, f, t, f.mins[i])] + MinTries(ops, n, f, t, i + 1)
  }

  lemma {:induction false} FactsFirst(ops: Ops, n: nat, f: Facts, t: Lin, i: nat)
    requires ProperFacts(f) && Proper(t) && i <= |f.ge|
    ensures SearchFacts(ops, n + 1, f, t, i) == First(FactTries(ops, n, f, t, i))
    decreases |f.ge| - i
  {
    if i < |f.ge| {
      SharesIff(t, f.ge[i]);
      FactsFirst(ops, n, f, t, i + 1);
      assert FactTries(ops, n, f, t, i)[1..] == FactTries(ops, n, f, t, i + 1);
    }
  }

  lemma {:induction false} MinsFirst(ops: Ops, n: nat, f: Facts, t: Lin, i: nat)
    requires i <= |f.mins|
    ensures SearchMins(ops, n + 1, f, t, i) == First(MinTries(ops, n, f, t, i))
    decreases |f.mins| - i
  {
    if i < |f.mins| {
      MinsFirst(ops, n, f, t, i + 1);
      assert MinTries(ops, n, f, t, i)[1..] == MinTries(ops, n, f, t, i + 1);
    }
  }

  /** One step of the search: the facts in order, then the minima. */
  lemma {:induction false} SearchStep(ops: Ops, n: nat, f: Facts, t: Lin)
    requires ProperFacts(f) && Proper(t) && !Plain(t)
    ensures Search(ops, 0, f, t) == No
    ensures Search(ops, n + 1, f, t) == First(FactTries(ops, n, f, t, 0) + MinTries(ops, n, f, t, 0))
  {
    ObviousIff(t);
    FactsFirst(ops, n, f, t, 0);
    MinsFirst(ops, n, f, t, 0);
    FirstConcat(FactTries(ops, n, f, t, 0), MinTries(ops, n, f, t, 0));
  }

  // ----- The search finds the derivations -----

  /** Yes has a derivation, No has none, and Overflow is a step that does not fit. */
  ghost predicate Found(r: Answer, n: nat, f: Facts, t: Lin) {
    && (r == Yes ==> Derives(n, f, t))
    && (r == No ==> !Derives(n, f, t))
    && (Clear(n, f, t) ==> r != Overflow)
  }

  ghost predicate FoundFact(ops: Ops, n: nat, f: Facts, t: Lin, g: Lin) {
    && (FactTry(ops, n, f, t, g) == Yes ==> BySubtracting(n, f, t, g))
    && (FactTry(ops, n, f, t, g) == No ==> !BySubtracting(n, f, t, g))
    && (ClearSubtracting(n, f, t, g) ==> FactTry(ops, n, f, t, g) != Overflow)
  }

  ghost predicate FoundMin(ops: Ops, n: nat, f: Facts, t: Lin, d: Min) {
    && (MinTry(ops, n, f, t, d) == Yes ==> ByExpanding(n, f, t, d))
    && (MinTry(ops, n, f, t, d) == No ==> !ByExpanding(n, f, t, d))
    && (ClearExpanding(n, f, t, d) ==> MinTry(ops, n, f, t, d) != Overflow)
  }

  lemma {:induction false} FactTryIs(ops: Ops, n: nat, f: Facts, t: Lin, g: Lin)
    requires ExactOps(ops) && ProperFacts(f) && Proper(t) && Proper(g)
    ensures FoundFact(ops, n, f, t, g)
    decreases n, 1
  {
    if Alike(t, g) {
      if ops.sub(t, g).Some? {
        var d := ops.sub(t, g).value;
        assert Difference(d, t, g);
        assert forall e | Difference(e, t, g) :: Some(e) == ops.sub(t, g);
        SearchFinds(ops, n, f, d);
      } else {
        assert forall e :: !Difference(e, t, g);
      }
    }
  }

  lemma {:induction false} MinTryIs(ops: Ops, n: nat, f: Facts, t: Lin, d: Min)
    requires ExactOps(ops) && ProperFacts(f) && Proper(t) && Proper(d.a) && Proper(d.b)
    ensures FoundMin(ops, n, f, t, d)
    decreases n, 1
  {
    var k, rest := Coeff(t.m, d.x), Lin(t.c, Remove(t.m, d.x));
    if k != 0 {
      var p, q := ops.addScaled(rest, k, d.a), ops.addScaled(rest, k, d.b);
      assert forall e :: p == Some(e) <==> Expansion(e, t, d.x, k, d.a);
      assert forall e :: q == Some(e) <==> Expansion(e, t, d.x, k, d.b);
      if p.Some? {
        SearchFinds(ops, n, f, p.value);
      }
      if q.Some? {
        SearchFinds(ops, n, f, q.value);
      }
    }
  }

  /** The tries from fact i on. */
  ghost predicate FactsRight(r: Answer, n: nat, f: Facts, t: Lin, i: nat) {
    && (r == Yes ==> exists j | i <= j < |f.ge| :: BySubtracting(n, f, t, f.ge[j]))
    && (r == No ==> forall j | i <= j < |f.ge| :: !BySubtracting(n, f, t, f.ge[j]))
    && (r == Overflow ==> exists j | i <= j < |f.ge| :: !ClearSubtracting(n, f, t, f.ge[j]))
  }

  /** The tries from minimum i on. */
  ghost predicate MinsRight(r: Answer, n: nat, f: Facts, t: Lin, i: nat) {
    && (r == Yes ==> exists j | i <= j < |f.mins| :: ByExpanding(n, f, t, f.mins[j]))
    && (r == No ==> forall j | i <= j < |f.mins| :: !ByExpanding(n, f, t, f.mins[j]))
    && (r == Overflow ==> exists j | i <= j < |f.mins| :: !ClearExpanding(n, f, t, f.mins[j]))
  }

  lemma {:induction false} FactsFound(ops: Ops, n: nat, f: Facts, t: Lin, i: nat)
    requires ExactOps(ops) && ProperFacts(f) && Proper(t) && i <= |f.ge|
    ensures FactsRight(First(FactTries(ops, n, f, t, i)), n, f, t, i)
    decreases n, 2, |f.ge| - i
  {
    if i < |f.ge| {
      FactTryIs(ops, n, f, t, f.ge[i]);
      FactsFound(ops, n, f, t, i + 1);
      FactsOne(ops, n, f, t, i);
    }
  }

  lemma {:induction false} FactsOne(ops: Ops, n: nat, f: Facts, t: Lin, i: nat)
    requires i < |f.ge| && FoundFact(ops, n, f, t, f.ge[i]) && FactsRight(First(FactTries(ops, n, f, t, i + 1)), n, f, t, i + 1)
    ensures FactsRight(First(FactTries(ops, n, f, t, i)), n, f, t, i)
  {
    assert FactTries(ops, n, f, t, i)[1..] == FactTries(ops, n, f, t, i + 1);
    FactsJoin(FactTry(ops, n, f, t, f.ge[i]), First(FactTries(ops, n, f, t, i + 1)), n, f, t, i);
  }

  lemma {:induction false} FactsJoin(p: Answer, q: Answer, n: nat, f: Facts, t: Lin, i: nat)
    requires i < |f.ge| && FactsRight(q, n, f, t, i + 1)
    requires p == Yes ==> BySubtracting(n, f, t, f.ge[i])
    requires p == No ==> !BySubtracting(n, f, t, f.ge[i])
    requires ClearSubtracting(n, f, t, f.ge[i]) ==> p != Overflow
    ensures FactsRight(if p != No then p else q, n, f, t, i)
  {
  }

  lemma {:induction false} MinsFound(ops: Ops, n: nat, f: Facts, t: Lin, i: nat)
    requires ExactOps(ops) && ProperFacts(f) && Proper(t) && i <= |f.mins|
    ensures MinsRight(First(MinTries(ops, n, f, t, i)), n, f, t, i)
    decreases n, 2, |f.mins| - i
  {
    if i < |f.mins| {
      MinTryIs(ops, n, f, t, f.mins[i]);
      MinsFound(ops, n, f, t, i + 1);
      MinsOne(ops, n, f, t, i);
    }
  }

  lemma {:induction false} MinsOne(ops: Ops, n: nat, f: Facts, t: Lin, i: nat)
    requires i < |f.mins| && FoundMin(ops, n, f, t, f.mins[i]) && MinsRight(First(MinTries(ops, n, f, t, i + 1)), n, f, t, i + 1)
    ensures MinsRight(First(MinTries(ops, n, f, t, i)), n, f, t, i)
  {
    assert MinTries(ops, n, f, t, i)[1..] == MinTries(ops, n, f, t, i + 1);
    MinsJoin(MinTry(ops, n, f, t, f.mins[i]), First(MinTries(ops, n, f, t, i + 1)), n, f, t, i);
  }

  lemma {:induction false} MinsJoin(p: Answer, q: Answer, n: nat, f: Facts, t: Lin, i: nat)
    requires i < |f.mins| && MinsRight(q, n, f, t, i + 1)
    requires p == Yes ==> ByExpanding(n, f, t, f.mins[i])
    requires p == No ==> !ByExpanding(n, f, t, f.mins[i])
    requires ClearExpanding(n, f, t, f.mins[i]) ==> p != Overflow
    ensures MinsRight(if p != No then p else q, n, f, t, i)
  {
  }

  lemma {:induction false} NoSteps(ops: Ops, n: nat, f: Facts, t: Lin)
    requires Proper(t) && (Plain(t) || n == 0)
    ensures Found(Search(ops, n, f, t), n, f, t)
  {
    ObviousIff(t);
  }

  lemma {:induction false} OneStep(p: Answer, q: Answer, n: nat, f: Facts, t: Lin)
    requires !Plain(t) && FactsRight(p, n, f, t, 0) && MinsRight(q, n, f, t, 0)
    ensures Found(if p != No then p else q, n + 1, f, t)
  {
  }

  lemma {:induction false} SearchFinds(ops: Ops, n: nat, f: Facts, t: Lin)
    requires ExactOps(ops) && ProperFacts(f) && Proper(t)
    ensures Found(Search(ops, n, f, t), n, f, t)
    decreases n, 0
  {
    if Plain(t) || n == 0 {
      NoSteps(ops, n, f, t);
    } else {
      SearchFurther(ops, n, f, t);
    }
  }

  lemma {:induction false} SearchFurther(ops: Ops, n: nat, f: Facts, t: Lin)
    requires ExactOps(ops) && ProperFacts(f) && Proper(t) && !Plain(t) && n > 0
    ensures Found(Search(ops, n, f, t), n, f, t)
    decreases n - 1, 3
  {
    var m := n - 1;
    FactsFound(ops, m, f, t, 0);
    MinsFound(ops, m, f, t, 0);
    SearchStep(ops, m, f, t);
    FirstConcat(FactTries(ops, m, f, t, 0), MinTries(ops, m, f, t, 0));
    OneStep(First(FactTries(ops, m, f, t, 0)), First(MinTries(ops, m, f, t, 0)), m, f, t);
  }

  /** What is concluded has a derivation of at most four steps. */
  lemma {:induction false} EntailsDerives(f: Facts, t: Lin)
    requires ProperFacts(f) && Proper(t) && Entails(f, t)
    ensures Derives(4, f, t)
  {
    CheckedExact();
    SearchFinds(Checked(), 4, f, t);
  }

  /** Where no step overflows, everything with such a derivation is concluded. */
  lemma {:induction false} EntailsIff(f: Facts, t: Lin)
    requires ProperFacts(f) && Proper(t) && Clear(4, f, t)
    ensures Entails(f, t) <==> Derives(4, f, t)
  {
    CheckedExact();
    SearchFinds(Checked(), 4, f, t);
  }

  /** x >= y is concluded exactly when x - y fits and has a derivation. */
  lemma {:induction false} GeIff(f: Facts, x: Lin, y: Lin)
    requires ProperFacts(f) && Proper(x) && Proper(y)
    requires forall d | Difference(d, x, y) :: Clear(4, f, d)
    ensures Ge(f, x, y) == Yes <==> exists d :: Difference(d, x, y) && Derives(4, f, d)
    ensures Ge(f, x, y) == Overflow <==> !exists d :: Difference(d, x, y)
  {
    forall d
      ensures Sub(x, y) == Some(d) <==> Difference(d, x, y)
    {
      SubIff(x, y, d);
    }
    if Sub(x, y).Some? {
      EntailsIff(f, Sub(x, y).value);
    }
  }

  lemma {:induction false} SelfDifference(t: Lin)
    requires Proper(t)
    ensures Sub(t, t) == Some(Const(0))
  {
    SubIff(t, t, Const(0));
  }

  /** A fact that names an atom is concluded from itself; one that names none,
      only when it holds. */
  lemma {:induction false} FactHolds(t: Lin)
    requires Proper(t)
    ensures Entails(Facts([t], []), t) <==> t.m != [] || t.c >= 0
  {
    var f := Facts([t], []);
    SelfDifference(t);
    CheckedExact();
    SearchFinds(Checked(), 4, f, t);
    ObviousIff(t);
    if !Plain(t) {
      SearchStep(Checked(), 3, f, t);
      var p, q := FactTries(Checked(), 3, f, t, 0), MinTries(Checked(), 3, f, t, 0);
      assert Search(Checked(), 3, f, Const(0)) == Yes;
      assert p + q == [FactTry(Checked(), 3, f, t, t)];
      if t.m != [] {
        CoeffAt(t.m, 0);
      }
    }
  }

  // ----- Equalities are used up -----

  ghost predicate ProperEqs(eqs: Eqs) {
    forall i | 0 <= i < |eqs| :: Proper(eqs[i].1)
  }

  lemma {:induction false} HasIff(m: Terms, a: Var)
    requires Ordered(m)
    ensures Has(m, a) <==> Coeff(m, a) != 0
  {
    if m != [] {
      HasIff(m[1..], a);
    }
  }

  /** Substituting puts the term in the atom's place. */
  lemma {:induction false} SubstIs(a: Var, t: Lin, x: Lin, v: Var)
    requires Proper(t) && Proper(x) && Subst(a, t, x).Some?
    ensures Proper(Subst(a, t, x).value)
    ensures Coeff(Subst(a, t, x).value.m, v) == (if v == a then 0 else Coeff(x.m, v)) + Coeff(x.m, a) * Coeff(t.m, v)
  {
    HasIff(x.m, a);
    if Has(x.m, a) {
      AddScaledIff(x, a, Coeff(x.m, a), t, Subst(a, t, x).value);
    }
  }

  /** y is x with the term t in the place of the atom a. */
  ghost predicate Substituted(y: Lin, a: Var, t: Lin, x: Lin) {
    Proper(y) && forall v :: Coeff(y.m, v) == (if v == a then 0 else Coeff(x.m, v)) + Coeff(x.m, a) * Coeff(t.m, v)
  }

  /** One substitution after the other leads from x to r. */
  ghost predicate Normalizes(eqs: Eqs, x: Lin, r: Lin) {
    if eqs == [] then r == x else exists y :: Substituted(y, eqs[0].0, eqs[0].1, x) && Normalizes(eqs[1..], y, r)
  }

  lemma {:induction false} NormalizesIs(eqs: Eqs, x: Lin, r: Lin)
    requires ProperEqs(eqs) && Proper(x) && Normalize(eqs, x) == Some(r)
    ensures Normalizes(eqs, x, r) && Proper(r)
  {
    if eqs != [] {
      var y := Subst(eqs[0].0, eqs[0].1, x).value;
      forall v
        ensures Proper(y) && Coeff(y.m, v) == (if v == eqs[0].0 then 0 else Coeff(x.m, v)) + Coeff(x.m, eqs[0].0) * Coeff(eqs[0].1.m, v)
      {
        SubstIs(eqs[0].0, eqs[0].1, x, v);
      }
      assert Substituted(y, eqs[0].0, eqs[0].1, x);
      NormalizesIs(eqs[1..], y, r);
    }
  }

  /** No term of an equality has the atom. */
  ghost predicate Free(eqs: Eqs, a: Var) {
    forall j | 0 <= j < |eqs| :: Coeff(eqs[j].1.m, a) == 0
  }

  lemma {:induction false} StaysOut(eqs: Eqs, x: Lin, r: Lin, a: Var)
    requires Normalizes(eqs, x, r) && Coeff(x.m, a) == 0 && Free(eqs, a)
    ensures Coeff(r.m, a) == 0
  {
    if eqs != [] {
      var y :| Substituted(y, eqs[0].0, eqs[0].1, x) && Normalizes(eqs[1..], y, r);
      assert Coeff(y.m, a) == Coeff(x.m, eqs[0].0) * Coeff(eqs[0].1.m, a);
      StaysOut(eqs[1..], y, r, a);
    }
  }

  lemma {:induction false} UsedUp(eqs: Eqs, x: Lin, r: Lin, i: nat)
    requires Normalizes(eqs, x, r) && i < |eqs| && Free(eqs[i..], eqs[i].0)
    ensures Coeff(r.m, eqs[i].0) == 0
  {
    var y :| Substituted(y, eqs[0].0, eqs[0].1, x) && Normalizes(eqs[1..], y, r);
    if i == 0 {
      assert eqs[0..][0] == eqs[0];
      assert Coeff(y.m, eqs[0].0) == Coeff(x.m, eqs[0].0) * Coeff(eqs[0].1.m, eqs[0].0);
      assert forall j | 0 <= j < |eqs[1..]| :: eqs[1..][j] == eqs[0..][j + 1];
      StaysOut(eqs[1..], y, r, eqs[0].0);
    } else {
      assert eqs[1..][i - 1..] == eqs[i..];
      UsedUp(eqs[1..], y, r, i - 1);
    }
  }

  /** An atom with an equality does not occur in the result, if neither its own
      term nor a later one brings it back. */
  lemma {:induction false} NormalizeUses(eqs: Eqs, x: Lin, r: Lin, i: nat)
    requires ProperEqs(eqs) && Proper(x) && Normalize(eqs, x) == Some(r) && i < |eqs|
    requires forall j | i <= j < |eqs| :: Coeff(eqs[j].1.m, eqs[i].0) == 0
    ensures Proper(r) && forall k | 0 <= k < |r.m| :: r.m[k].0 != eqs[i].0
  {
    NormalizesIs(eqs, x, r);
    assert forall j | 0 <= j < |eqs[i..]| :: eqs[i..][j] == eqs[i + j];
    UsedUp(eqs, x, r, i);
    forall k | 0 <= k < |r.m|
      ensures r.m[k].0 != eqs[i].0
    {
      CoeffAt(r.m, k);
    }
  }

  lemma {:induction false} KeptThrough(eqs: Eqs, x: Lin, r: Lin, v: Var)
    requires Normalizes(eqs, x, r) && Free(eqs, v) && forall j | 0 <= j < |eqs| :: eqs[j].0 != v
    ensures Coeff(r.m, v) == Coeff(x.m, v)
  {
    if eqs != [] {
      var y :| Substituted(y, eqs[0].0, eqs[0].1, x) && Normalizes(eqs[1..], y, r);
      assert Coeff(y.m, v) == Coeff(x.m, v) + Coeff(x.m, eqs[0].0) * Coeff(eqs[0].1.m, v);
      KeptThrough(eqs[1..], y, r, v);
    }
  }

  /** An atom without an equality keeps its coefficient, if no term has it. */
  lemma {:induction false} NormalizeKeeps(eqs: Eqs, x: Lin, r: Lin, v: Var)
    requires ProperEqs(eqs) && Proper(x) && Normalize(eqs, x) == Some(r)
    requires forall j | 0 <= j < |eqs| :: eqs[j].0 != v && Coeff(eqs[j].1.m, v) == 0
    ensures Coeff(r.m, v) == Coeff(x.m, v)
  {
    NormalizesIs(eqs, x, r);
    KeptThrough(eqs, x, r, v);
  }
}
