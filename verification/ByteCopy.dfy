/** Runs of consecutive byte stores (`longest_runs` and `refused` of
    scripts/buildcheck_kernel_byte_copy.py). */
module ByteCopy {

  /** A byte store: the function it is in, its base register and its offset. */
  datatype Store = Store(fn: string, base: string, off: int)

  /** A function and a base register. */
  datatype Place = Place(fn: string, base: string)

  datatype Run = Run(base: string, start: int, length: nat)

  type Offsets = map<Place, set<int>>

  const RUN := 16

  /** The offsets stored at a place, from the first n stores. */
  function Seen(stores: seq<Store>, n: nat, p: Place): set<int>
    requires n <= |stores|
  {
    if n == 0 then {}
    else Seen(stores, n - 1, p) + if Place(stores[n - 1].fn, stores[n - 1].base) == p then {stores[n - 1].off} else {}
  }

  /** Consecutive offsets, all stored. */
  ghost predicate IsRun(seen: set<int>, start: int, length: nat) {
    forall o | start <= o < start + length :: o in seen
  }

  // ----- Collecting -----

  ghost predicate Collected(offsets: Offsets, stores: seq<Store>, n: nat)
    requires n <= |stores|
  {
    forall p :: (p in offsets <==> Seen(stores, n, p) != {}) && (p in offsets ==> offsets[p] == Seen(stores, n, p))
  }

  method Collect(stores: seq<Store>) returns (offsets: Offsets)
    ensures Collected(offsets, stores, |stores|)
  {
    offsets := map[];
    for n := 0 to |stores|
      invariant Collected(offsets, stores, n)
    {
      var p := Place(stores[n].fn, stores[n].base);
      offsets := offsets[p := (if p in offsets then offsets[p] else {}) + {stores[n].off}];
    }
  }

  // ----- One base register -----

  ghost predicate IsLongest(seen: set<int>, length: nat) {
    forall s, n: nat | IsRun(seen, s, n) :: n <= length
  }

  /** How far a run goes from an offset. */
  method Extent(seen: set<int>, start: int) returns (length: nat)
    requires start in seen
    ensures length > 0 && IsRun(seen, start, length) && start + length !in seen
  {
    length := 1;
    ghost var left := seen - {start};
    while start + length in seen
      invariant length > 0 && IsRun(seen, start, length)
      invariant left == set o | o in seen && !(start <= o < start + length)
      decreases left
    {
      left := left - {start + length};
      length := length + 1;
    }
  }

  /** A run ends before the first missing offset at or after its start. */
  lemma {:induction false} RunStops(seen: set<int>, start: int, length: nat, s: int, n: nat)
    requires IsRun(seen, s, n) && start + length !in seen && start <= s <= start + length
    ensures s + n <= start + length
  {
  }

  /** Where a run of stored offsets really begins. */
  lemma {:induction false} LeftEnd(seen: set<int>, s: int) returns (t: int)
    requires s in seen
    ensures t <= s && t - 1 !in seen && forall o | t <= o <= s :: o in seen
    decreases seen
  {
    if s - 1 !in seen {
      t := s;
    } else {
      t := LeftEnd(seen - {s}, s - 1);
    }
  }

  /** The starts looked at so far, and the best run among them. */
  ghost predicate BestOf(seen: set<int>, done: set<int>, length: nat) {
    forall t, n: nat | t in done && t - 1 !in seen && IsRun(seen, t, n) :: n <= length
  }

  lemma {:induction false} BestIsLongest(seen: set<int>, length: nat)
    requires BestOf(seen, seen, length)
    ensures IsLongest(seen, length)
  {
    forall s, n: nat | IsRun(seen, s, n)
      ensures n <= length
    {
      if n > 0 {
        var t := LeftEnd(seen, s);
        var m := n + (s - t);
        assert IsRun(seen, t, m);
      }
    }
  }

  lemma {:induction false} BestNext(seen: set<int>, done: set<int>, start: int, length: nat, found: nat, best: nat)
    requires BestOf(seen, done, best) && length >= best
    requires start - 1 !in seen ==> IsRun(seen, start, found) && start + found !in seen && length >= found
    ensures BestOf(seen, done + {start}, length)
  {
    forall t, n: nat | t in done + {start} && t - 1 !in seen && IsRun(seen, t, n)
      ensures n <= length
    {
      if t !in done {
        RunStops(seen, start, found, t, n);
      }
    }
  }

  lemma {:induction false} HasOne(q: set<int>)
    requires q != {}
    ensures exists o :: o in q
  {
    assert (forall o :: o !in q) ==> q == {};
  }

  /** The longest run at one place, the starts taken in any order. */
  method LongestAt(base: string, seen: set<int>) returns (run: Run)
    requires seen != {}
    ensures run.base == base && run.length > 0 && IsRun(seen, run.start, run.length) && IsLongest(seen, run.length)
  {
    run := Run(base, 0, 0);
    var todo := seen;
    ghost var done := {};
    while todo != {}
      invariant run.base == base && IsRun(seen, run.start, run.length)
      invariant done + todo == seen && BestOf(seen, done, run.length)
      decreases todo
    {
      HasOne(todo);
      var start :| start in todo;
      todo := todo - {start};
      ghost var best, found := run.length, 0;
      if start - 1 !in seen {
        var length := Extent(seen, start);
        found := length;
        if length > run.length {
          run := Run(base, start, length);
        }
      }
      BestNext(seen, done, start, run.length, found, best);
      done := done + {start};
      assert done + todo == seen;
    }
    assert done == seen;
    BestIsLongest(seen, run.length);
    HasOne(seen);
    var s :| s in seen;
    assert IsRun(seen, s, 1);
  }

  // ----- Every function -----

  /** The best run of each function among the places looked at. */
  ghost predicate BestRuns(best: map<string, Run>, offsets: Offsets, done: set<Place>) {
    && (forall p | p in done && p in offsets :: p.fn in best && IsLongest(offsets[p], best[p.fn].length))
    && (forall fn | fn in best :: HasRun(best[fn], fn, offsets) && Place(fn, best[fn].base) in done)
  }

  ghost predicate HasRun(run: Run, fn: string, offsets: Offsets) {
    Place(fn, run.base) in offsets && run.length > 0 && IsRun(offsets[Place(fn, run.base)], run.start, run.length)
  }

  method LongestRuns(stores: seq<Store>) returns (best: map<string, Run>)
    ensures forall fn :: fn in best <==> exists i :: 0 <= i < |stores| && stores[i].fn == fn
    ensures forall fn | fn in best :: IsRun(Seen(stores, |stores|, Place(fn, best[fn].base)), best[fn].start, best[fn].length)
    ensures forall fn, base | fn in best :: IsLongest(Seen(stores, |stores|, Place(fn, base)), best[fn].length)
  {
    var offsets := Collect(stores);
    best := map[];
    var todo := offsets.Keys;
    ghost var done: set<Place> := {};
    while todo != {}
      invariant done + todo == offsets.Keys && BestRuns(best, offsets, done)
      decreases todo
    {
      var p :| p in todo;
      todo := todo - {p};
      assert Seen(stores, |stores|, p) != {};
      var run := LongestAt(p.base, offsets[p]);
      ghost var before := best;
      if p.fn !in best || run.length > best[p.fn].length {
        best := best[p.fn := run];
      }
      RunsNext(before, best, run, p, offsets, done);
      done := done + {p};
      assert done + todo == offsets.Keys;
    }
    assert done == offsets.Keys;
    RunsOfStores(best, offsets, stores);
  }

  lemma {:induction false} Longer(seen: set<int>, n: nat, m: nat)
    requires IsLongest(seen, n) && n <= m
    ensures IsLongest(seen, m)
  {
  }

  lemma {:induction false} RunsNext(before: map<string, Run>, best: map<string, Run>, run: Run, p: Place, offsets: Offsets,
                                    done: set<Place>)
    requires BestRuns(before, offsets, done) && p in offsets && run.base == p.base && HasRun(run, p.fn, offsets)
    requires IsLongest(offsets[p], run.length)
    requires best == if p.fn !in before || run.length > before[p.fn].length then before[p.fn := run] else before
    ensures BestRuns(best, offsets, done + {p})
  {
    assert Place(p.fn, p.base) == p;
    forall q | q in done + {p} && q in offsets
      ensures q.fn in best && IsLongest(offsets[q], best[q.fn].length)
    {
      if q in done {
        Longer(offsets[q], before[q.fn].length, best[q.fn].length);
      } else {
        Longer(offsets[q], run.length, best[q.fn].length);
      }
    }
  }

  lemma {:induction false} SeenHas(stores: seq<Store>, n: nat, i: nat)
    requires i < n <= |stores|
    ensures stores[i].off in Seen(stores, n, Place(stores[i].fn, stores[i].base))
  {
    if i < n - 1 {
      SeenHas(stores, n - 1, i);
    }
  }

  lemma {:induction false} SeenFrom(stores: seq<Store>, n: nat, p: Place) returns (i: nat)
    requires n <= |stores| && Seen(stores, n, p) != {}
    ensures i < n && stores[i].fn == p.fn
  {
    if Place(stores[n - 1].fn, stores[n - 1].base) == p {
      i := n - 1;
    } else {
      i := SeenFrom(stores, n - 1, p);
    }
  }

  lemma {:induction false} RunsOfStores(best: map<string, Run>, offsets: Offsets, stores: seq<Store>)
    requires Collected(offsets, stores, |stores|) && BestRuns(best, offsets, offsets.Keys)
    ensures forall fn :: fn in best <==> exists i :: 0 <= i < |stores| && stores[i].fn == fn
    ensures forall fn | fn in best :: IsRun(Seen(stores, |stores|, Place(fn, best[fn].base)), best[fn].start, best[fn].length)
    ensures forall fn, base | fn in best :: IsLongest(Seen(stores, |stores|, Place(fn, base)), best[fn].length)
  {
    forall fn
      ensures fn in best <==> exists i :: 0 <= i < |stores| && stores[i].fn == fn
    {
      if fn in best {
        var i := SeenFrom(stores, |stores|, Place(fn, best[fn].base));
      }
      if i :| 0 <= i < |stores| && stores[i].fn == fn {
        SeenHas(stores, |stores|, i);
        assert Place(fn, stores[i].base) in offsets;
      }
    }
    forall fn, base | fn in best
      ensures IsLongest(Seen(stores, |stores|, Place(fn, base)), best[fn].length)
    {
      var p := Place(fn, base);
      if p !in offsets {
        assert Seen(stores, |stores|, p) == {};
        NoRun(Seen(stores, |stores|, p), best[fn].length);
      }
    }
  }

  lemma {:induction false} NoRun(seen: set<int>, length: nat)
    requires seen == {}
    ensures IsLongest(seen, length)
  {
    forall s, n: nat | IsRun(seen, s, n)
      ensures n <= length
    {
      assert n > 0 ==> s in seen;
    }
  }

  // ----- The verdict -----

  /** The functions with a long run. */
  function LongIn(best: map<string, Run>): set<string> {
    set fn | fn in best && best[fn].length >= RUN
  }

  /** The functions to report: those with a long run, if there are more of them than the ceiling. */
  method Refused(stores: seq<Store>, ceiling: nat) returns (found: map<string, Run>)
    ensures found != map[] <==> |LongFunctions(stores)| > ceiling
    ensures found != map[] ==> found.Keys == LongFunctions(stores)
    ensures forall fn | fn in found ::
              && IsRun(Seen(stores, |stores|, Place(fn, found[fn].base)), found[fn].start, found[fn].length)
              && forall base :: IsLongest(Seen(stores, |stores|, Place(fn, base)), found[fn].length)
  {
    var best := LongestRuns(stores);
    var long := LongIn(best);
    LongAre(best, stores);
    if |long| <= ceiling {
      return map[];
    }
    found := map fn | fn in long :: best[fn];
    assert found.Keys == long;
  }

  /** A function stores RUN consecutive bytes from one base register. */
  ghost predicate IsLong(stores: seq<Store>, fn: string) {
    exists base, s :: IsRun(Seen(stores, |stores|, Place(fn, base)), s, RUN)
  }

  ghost function LongFunctions(stores: seq<Store>): set<string> {
    set i | 0 <= i < |stores| && IsLong(stores, stores[i].fn) :: stores[i].fn
  }

  lemma {:induction false} Shorter(seen: set<int>, s: int, n: nat, m: nat)
    requires IsRun(seen, s, n) && m <= n
    ensures IsRun(seen, s, m)
  {
  }

  lemma {:induction false} LongAre(best: map<string, Run>, stores: seq<Store>)
    requires forall fn :: fn in best <==> exists i :: 0 <= i < |stores| && stores[i].fn == fn
    requires forall fn | fn in best :: IsRun(Seen(stores, |stores|, Place(fn, best[fn].base)), best[fn].start, best[fn].length)
    requires forall fn, base | fn in best :: IsLongest(Seen(stores, |stores|, Place(fn, base)), best[fn].length)
    ensures LongIn(best) == LongFunctions(stores)
  {
    forall fn | fn in best
      ensures best[fn].length >= RUN <==> IsLong(stores, fn)
    {
      if best[fn].length >= RUN {
        Shorter(Seen(stores, |stores|, Place(fn, best[fn].base)), best[fn].start, best[fn].length, RUN);
      }
    }
  }
}
