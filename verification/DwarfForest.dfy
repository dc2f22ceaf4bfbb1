/** A forest printed in preorder, one indentation for each depth, is recovered
    from the parents the dump reader finds. */
module DwarfForest {
  import opened Options
  import opened DwarfTree

  /** A forest: its first tree, and the trees after it. */
  datatype Forest = Nothing | Tree(tag: string, children: Forest, siblings: Forest)

  function Size(f: Forest): nat {
    match f
    case Nothing => 0
    case Tree(_, c, s) => 1 + Size(c) + Size(s)
  }

  /** The indentations, in preorder. */
  function Indents(f: Forest, d: nat, ind: nat -> nat): (r: seq<nat>)
    ensures |r| == Size(f)
  {
    match f
    case Nothing => []
    case Tree(_, c, s) => [ind(d)] + Indents(c, d + 1, ind) + Indents(s, d, ind)
  }

  function Tags(f: Forest): (r: seq<string>)
    ensures |r| == Size(f)
  {
    match f
    case Nothing => []
    case Tree(tag, c, s) => [tag] + Tags(c) + Tags(s)
  }

  /** The true parents, the first tree standing at `at`. */
  function Parents(f: Forest, at: nat, p: Option<nat>): (r: seq<Option<nat>>)
    ensures |r| == Size(f)
  {
    match f
    case Nothing => []
    case Tree(_, c, s) => [p] + Parents(c, at + 1, Some(at)) + Parents(s, at + 1 + Size(c), p)
  }

  ghost predicate Grows(ind: nat -> nat) {
    forall d: nat, e: nat | d < e :: ind(d) < ind(e)
  }

  /** A part of the whole list of indentations. */
  ghost predicate PartOf(whole: seq<nat>, at: nat, part: seq<nat>) {
    at + |part| <= |whole| && forall k | 0 <= k < |part| :: whole[at + k] == part[k]
  }

  lemma {:induction false} SplitPart(whole: seq<nat>, at: nat, a: nat, b: seq<nat>, c: seq<nat>)
    requires PartOf(whole, at, [a] + b + c)
    ensures at < |whole| && whole[at] == a && PartOf(whole, at + 1, b) && PartOf(whole, at + 1 + |b|, c)
  {
    var part := [a] + b + c;
    assert part[0] == a;
    forall k | 0 <= k < |b|
      ensures whole[at + 1 + k] == b[k]
    {
      assert whole[at + (1 + k)] == part[1 + k];
    }
    forall k | 0 <= k < |c|
      ensures whole[at + 1 + |b| + k] == c[k]
    {
      assert whole[at + (1 + |b| + k)] == part[1 + |b| + k];
    }
  }

  lemma {:induction false} IndentsDeep(f: Forest, d: nat, ind: nat -> nat, k: nat)
    requires Grows(ind) && k < Size(f)
    ensures Indents(f, d, ind)[k] >= ind(d)
  {
    var n := Size(f.children);
    if 1 <= k <= n {
      IndentsDeep(f.children, d + 1, ind, k - 1);
      assert ind(d) < ind(d + 1);
    } else if k > n {
      IndentsDeep(f.siblings, d, ind, k - 1 - n);
    }
  }

  /** Between a parent and a tree under it everything is as deep as the tree. */
  ghost predicate Under(whole: seq<nat>, p: Option<nat>, at: nat, indent: nat) {
    && at <= |whole|
    && (p.Some? ==> p.value < at && whole[p.value] < indent)
    && forall k | (if p.Some? then p.value + 1 else 0) <= k < at :: whole[k] >= indent
  }

  lemma {:induction false} UnderNext(whole: seq<nat>, p: Option<nat>, at: nat, part: seq<nat>, indent: nat)
    requires Under(whole, p, at, indent) && PartOf(whole, at, part) && forall k | 0 <= k < |part| :: part[k] >= indent
    ensures Under(whole, p, at + |part|, indent)
  {
    forall k | at <= k < at + |part|
      ensures whole[k] >= indent
    {
      assert whole[at + (k - at)] == part[k - at];
    }
  }

  /** Each of a list of parents is good for the entry it stands for. */
  ghost predicate AllGood(good: (nat, Option<nat>) -> bool, at: nat, ps: seq<Option<nat>>) {
    forall k | 0 <= k < |ps| :: good(at + k, ps[k])
  }

  lemma {:induction false} AllGoodConcat(good: (nat, Option<nat>) -> bool, at: nat, p: Option<nat>,
                                         a: seq<Option<nat>>, b: seq<Option<nat>>)
    requires good(at, p) && AllGood(good, at + 1, a) && AllGood(good, at + 1 + |a|, b)
    ensures AllGood(good, at, [p] + a + b)
  {
    var ps := [p] + a + b;
    forall k | 0 <= k < |ps|
      ensures good(at + k, ps[k])
    {
      if 1 <= k <= |a| {
        assert good(at + 1 + (k - 1), a[k - 1]);
      } else if k > |a| {
        assert good(at + 1 + |a| + (k - 1 - |a|), b[k - 1 - |a|]);
      }
    }
  }

  lemma {:induction false} UnderChildren(c: Forest, d: nat, ind: nat -> nat, whole: seq<nat>, at: nat, p: Option<nat>)
    requires Grows(ind) && PartOf(whole, at + 1, Indents(c, d + 1, ind)) && at < |whole| && whole[at] == ind(d)
    requires Under(whole, p, at, ind(d))
    ensures Under(whole, Some(at), at + 1, ind(d + 1)) && Under(whole, p, at + 1 + Size(c), ind(d))
  {
    assert ind(d) < ind(d + 1);
    var inner := Indents(c, d + 1, ind);
    forall k | 0 <= k < |inner|
      ensures inner[k] >= ind(d)
    {
      IndentsDeep(c, d + 1, ind, k);
    }
    UnderNext(whole, p, at + 1, inner, ind(d));
  }

  ghost predicate GoodIn(whole: seq<nat>, good: (nat, Option<nat>) -> bool) {
    forall i: nat, p | i < |whole| && IsParent(whole, i, p) :: good(i, p)
  }

  /** Where the first tree stands, its children and its siblings. */
  lemma {:induction false} FirstTree(f: Forest, d: nat, ind: nat -> nat, whole: seq<nat>, at: nat, p: Option<nat>,
                                     good: (nat, Option<nat>) -> bool)
    requires f.Tree? && Grows(ind) && PartOf(whole, at, Indents(f, d, ind)) && Under(whole, p, at, ind(d)) && GoodIn(whole, good)
    ensures good(at, p)
    ensures PartOf(whole, at + 1, Indents(f.children, d + 1, ind)) && Under(whole, Some(at), at + 1, ind(d + 1))
    ensures PartOf(whole, at + 1 + Size(f.children), Indents(f.siblings, d, ind))
    ensures Under(whole, p, at + 1 + Size(f.children), ind(d))
  {
    SplitPart(whole, at, ind(d), Indents(f.children, d + 1, ind), Indents(f.siblings, d, ind));
    assert IsParent(whole, at, p);
    UnderChildren(f.children, d, ind, whole, at, p);
  }

  type Placing = (Forest, nat, nat, Option<nat>) -> bool

  /** If a forest is well placed its first tree's parent is good and its
      children and siblings are well placed. */
  ghost predicate Step(f: Forest, d: nat, at: nat, p: Option<nat>, placed: Placing, good: (nat, Option<nat>) -> bool) {
    f.Tree? && placed(f, d, at, p) ==>
      good(at, p) && placed(f.children, d + 1, at + 1, Some(at)) && placed(f.siblings, d, at + 1 + Size(f.children), p)
  }

  ghost predicate Steps(placed: Placing, good: (nat, Option<nat>) -> bool) {
    forall f, d, at, p {:trigger Step(f, d, at, p, placed, good)} :: Step(f, d, at, p, placed, good)
  }

  lemma {:induction false} PreorderParents(f: Forest, d: nat, at: nat, p: Option<nat>,
                                           placed: Placing, good: (nat, Option<nat>) -> bool)
    requires placed(f, d, at, p) && Steps(placed, good)
    ensures AllGood(good, at, Parents(f, at, p))
    decreases f
  {
    if f.Tree? {
      assert Step(f, d, at, p, placed, good);
      PreorderParents(f.children, d + 1, at + 1, Some(at), placed, good);
      PreorderParents(f.siblings, d, at + 1 + Size(f.children), p, placed, good);
      AllGoodConcat(good, at, p, Parents(f.children, at + 1, Some(at)), Parents(f.siblings, at + 1 + Size(f.children), p));
    }
  }

  ghost predicate Placed(f: Forest, d: nat, ind: nat -> nat, whole: seq<nat>, at: nat, p: Option<nat>) {
    PartOf(whole, at, Indents(f, d, ind)) && Under(whole, p, at, ind(d))
  }

  ghost function PlacedIn(ind: nat -> nat, whole: seq<nat>): Placing {
    (f, d: nat, at: nat, p) => Placed(f, d, ind, whole, at, p)
  }

  lemma {:induction false} PlacedSteps(ind: nat -> nat, whole: seq<nat>, good: (nat, Option<nat>) -> bool)
    requires Grows(ind) && GoodIn(whole, good)
    ensures Steps(PlacedIn(ind, whole), good)
  {
    var placed := PlacedIn(ind, whole);
    forall f, d, at, p
      ensures Step(f, d, at, p, placed, good)
    {
      if f.Tree? && placed(f, d, at, p) {
        FirstTree(f, d, ind, whole, at, p, good);
      }
    }
  }

  /** The parents found by indentation are the true parents. */
  lemma {:induction false} ForestParents(f: Forest, ind: nat -> nat, found: seq<Option<nat>>)
    requires Grows(ind) && AreParents(Indents(f, 0, ind), found)
    ensures found == Parents(f, 0, None)
  {
    var whole, ps := Indents(f, 0, ind), Parents(f, 0, None);
    var good := (i: nat, p) => i < |whole| && IsParent(whole, i, p);
    PlacedSteps(ind, whole, good);
    PreorderParents(f, 0, 0, None, PlacedIn(ind, whole), good);
    assert forall k | 0 <= k < |whole| :: good(0 + k, ps[k]);
    ParentsUnique(whole, found, ps);
  }

  // ----- Parents and tags determine the forest -----

  ghost predicate Before(p: Option<nat>, at: nat) {
    p.Some? ==> p.value < at
  }

  /** No parent inside a forest comes before the forest's own. */
  lemma {:induction false} InnerParents(f: Forest, at: nat, q: nat, k: nat)
    requires q < at && k < Size(f)
    ensures Parents(f, at, Some(q))[k].Some? && Parents(f, at, Some(q))[k].value >= q
  {
    var n := Size(f.children);
    if 1 <= k <= n {
      InnerParents(f.children, at + 1, at, k - 1);
    } else if k > n {
      InnerParents(f.siblings, at + 1 + n, q, k - 1 - n);
    }
  }

  lemma {:induction false} NotOwn(f: Forest, at: nat, p: Option<nat>, k: nat)
    requires f.Tree? && Before(p, at) && 0 < k <= Size(f.children)
    ensures Parents(f, at, p)[k] != p
  {
    InnerParents(f.children, at + 1, at, k - 1);
  }

  /** The first tree ends where its parent comes up again. */
  lemma {:induction false} FirstEnds(f: Forest, g: Forest, at: nat, p: Option<nat>)
    requires f.Tree? && g.Tree? && Before(p, at) && Parents(f, at, p) == Parents(g, at, p)
    ensures Size(f.children) <= Size(g.children)
  {
    var n := Size(g.children);
    if Size(f.children) > n {
      assert Size(f) == Size(g);
      assert Parents(g, at, p)[n + 1] == p;
      NotOwn(f, at, p, n + 1);
    }
  }

  lemma {:induction false} Cut<T>(x: T, a: seq<T>, b: seq<T>, y: T, c: seq<T>, d: seq<T>)
    requires [x] + a + b == [y] + c + d && |a| == |c|
    ensures x == y && a == c && b == d
  {
    var l, r := [x] + a + b, [y] + c + d;
    assert l[0] == r[0];
    assert l[1..1 + |a|] == a && r[1..1 + |a|] == c;
    assert l[1 + |a|..] == b && r[1 + |a|..] == d;
  }

  lemma {:induction false} SameSize(f: Forest, g: Forest)
    requires Tags(f) == Tags(g)
    ensures Size(f) == Size(g) && (f.Tree? <==> g.Tree?)
  {
    assert |Tags(f)| == |Tags(g)|;
  }

  /** Two forests with the same tags and parents are the same forest. */
  lemma {:induction false} ForestDetermined(f: Forest, g: Forest, at: nat, p: Option<nat>)
    requires Before(p, at) && Tags(f) == Tags(g) && Parents(f, at, p) == Parents(g, at, p)
    ensures f == g
  {
    SameSize(f, g);
    if f.Tree? {
      FirstDetermined(f, g, at, p);
      ForestDetermined(f.children, g.children, at + 1, Some(at));
      ForestDetermined(f.siblings, g.siblings, at + 1 + Size(f.children), p);
    }
  }

  lemma {:induction false} FirstDetermined(f: Forest, g: Forest, at: nat, p: Option<nat>)
    requires f.Tree? && g.Tree? && Before(p, at) && Tags(f) == Tags(g) && Parents(f, at, p) == Parents(g, at, p)
    ensures f.tag == g.tag && Tags(f.children) == Tags(g.children) && Tags(f.siblings) == Tags(g.siblings)
    ensures Parents(f.children, at + 1, Some(at)) == Parents(g.children, at + 1, Some(at))
    ensures var n := at + 1 + Size(f.children); Parents(f.siblings, n, p) == Parents(g.siblings, n, p)
  {
    FirstEnds(f, g, at, p);
    FirstEnds(g, f, at, p);
    var n := Size(f.children);
    Cut(f.tag, Tags(f.children), Tags(f.siblings), g.tag, Tags(g.children), Tags(g.siblings));
    Cut(p, Parents(f.children, at + 1, Some(at)), Parents(f.siblings, at + 1 + n, p),
        p, Parents(g.children, at + 1, Some(at)), Parents(g.siblings, at + 1 + n, p));
  }

  /** A forest printed in preorder is the only one with the tags and the
      parents that the dump reader gives for it. */
  lemma {:induction false} ForestRecovered(f: Forest, g: Forest, ind: nat -> nat, entries: seq<Entry>)
    requires Grows(ind) && ParentsSet(entries) && IndentsOf(entries) == Indents(f, 0, ind)
    requires forall i | 0 <= i < |entries| :: entries[i].tag == Tags(f)[i]
    requires Size(g) == |entries| && forall i | 0 <= i < |entries| :: entries[i].tag == Tags(g)[i]
    requires forall i | 0 <= i < |entries| :: entries[i].parent == Parents(g, 0, None)[i]
    ensures g == f
  {
    var found := seq(|entries|, i requires 0 <= i < |entries| => entries[i].parent);
    ForestParents(f, ind, found);
    assert found == Parents(g, 0, None);
    assert Tags(f) == Tags(g);
    ForestDetermined(g, f, 0, None);
  }
}
