/** The call around an offset (`call_extent` of scripts/check_dune_root.py): a
    bracket scan backwards to the call's parenthesis, then forwards to its end. */
module CallExtent {

  function Weight(c: char): int {
    if c == '(' || c == '[' then 1 else if c == ')' || c == ']' then -1 else 0
  }

  /** Brackets opened less brackets closed between two offsets. */
  function Depth(text: string, i: nat, j: nat): int
    requires i <= j <= |text|
  {
    if i == j then 0 else Depth(text, i, j - 1) + Weight(text[j - 1])
  }

  lemma {:induction false} DepthFrom(text: string, i: nat, j: nat)
    requires i < j <= |text|
    ensures Depth(text, i, j) == Weight(text[i]) + Depth(text, i + 1, j)
  {
    if i + 1 < j {
      DepthFrom(text, i, j - 1);
    }
  }

  /** A parenthesis still open at every offset from it up to `at`. */
  ghost predicate Encloses(text: string, s: nat, at: nat)
    requires at <= |text|
  {
    s < at && text[s] == '(' && forall j | s < j <= at :: Depth(text, s, j) > 0
  }

  ghost predicate Innermost(text: string, s: nat, at: nat)
    requires at <= |text|
  {
    Encloses(text, s, at) && forall p | s < p < at :: !Encloses(text, p, at)
  }

  /** The least number that, added to every count from start on, leaves none negative. */
  ghost predicate Owed(text: string, start: nat, at: nat, depth: int)
    requires start <= at <= |text|
  {
    && (forall j | start <= j <= at :: Depth(text, start, j) + depth >= 0)
    && exists j :: start <= j <= at && Depth(text, start, j) + depth == 0
  }

  lemma {:induction false} OweOneMore(text: string, start: nat, at: nat, depth: int)
    requires start < at <= |text| && Owed(text, start + 1, at, depth) && depth >= 0
    ensures Weight(text[start]) == -1 ==> Owed(text, start, at, depth + 1)
    ensures Weight(text[start]) == 0 ==> Owed(text, start, at, depth)
    ensures Weight(text[start]) == 1 ==> Owed(text, start, at, if depth > 0 then depth - 1 else 0)
  {
    assert forall j | start < j <= at :: Depth(text, start, j) == Weight(text[start]) + Depth(text, start + 1, j) by {
      forall j | start < j <= at
        ensures Depth(text, start, j) == Weight(text[start]) + Depth(text, start + 1, j)
      {
        DepthFrom(text, start, j);
      }
    }
    var k :| start + 1 <= k <= at && Depth(text, start + 1, k) + depth == 0;
    assert Depth(text, start, start) == 0;
    assert Depth(text, start, k) + depth == Weight(text[start]);
  }

  /** An open parenthesis encloses the offset exactly when nothing is owed after it. */
  lemma {:induction false} EnclosesIff(text: string, start: nat, at: nat, depth: int)
    requires start < at <= |text| && Owed(text, start + 1, at, depth) && depth >= 0 && text[start] == '('
    ensures Encloses(text, start, at) <==> depth == 0
  {
    forall j | start < j <= at
      ensures Depth(text, start, j) == 1 + Depth(text, start + 1, j)
    {
      DepthFrom(text, start, j);
    }
    var k :| start + 1 <= k <= at && Depth(text, start + 1, k) + depth == 0;
    assert Depth(text, start, k) == 1 - depth;
  }

  /** The backward scan: the innermost enclosing parenthesis, or offset 0. */
  method FindOpen(text: string, at: nat) returns (start: nat, found: bool)
    requires at <= |text|
    ensures found ==> Innermost(text, start, at)
    ensures !found ==> start == 0 && forall p | 0 <= p < at :: !Encloses(text, p, at)
  {
    var depth := 0;
    start := at;
    assert Depth(text, at, at) == 0;
    while start > 0
      invariant start <= at && depth >= 0 && Owed(text, start, at, depth)
      invariant forall p | start <= p < at :: !Encloses(text, p, at)
    {
      start := start - 1;
      OweOneMore(text, start, at, depth);
      var c := text[start];
      if c == '(' {
        EnclosesIff(text, start, at, depth);
      }
      if c == ')' || c == ']' {
        depth := depth + 1;
      } else if c == '(' || c == '[' {
        if depth == 0 {
          if c == '(' {
            return start, true;
          }
        } else {
          depth := depth - 1;
        }
      }
    }
    found := false;
  }

  /** Where the count from start first falls back to zero at a closing bracket. */
  predicate Closes(text: string, start: nat, e: nat)
    requires start < e <= |text|
  {
    Weight(text[e - 1]) == -1 && Depth(text, start, e) == 0
  }

  ghost predicate ExtentEnd(text: string, start: nat, e: nat) {
    && start <= e <= |text|
    && (forall k | start < k < e :: !Closes(text, start, k))
    && (e == |text| || (start < e && Closes(text, start, e)))
  }

  /** Where the extent starts: the innermost enclosing parenthesis, or the start of the text. */
  ghost predicate ExtentStart(text: string, at: nat, start: nat)
    requires at <= |text|
  {
    Innermost(text, start, at) || (start == 0 && forall s :: !Innermost(text, s, at))
  }

  ghost predicate IsExtent(text: string, at: nat, extent: string, start: nat, end: nat)
    requires at <= |text|
  {
    ExtentStart(text, at, start) && ExtentEnd(text, start, end) && extent == text[start..end]
  }

  method CallExtent(text: string, at: nat) returns (extent: string)
    requires at <= |text|
    ensures exists start: nat, end: nat :: IsExtent(text, at, extent, start, end)
  {
    var start, found := FindOpen(text, at);
    if !found {
      assert forall s :: !Innermost(text, s, at);
    }
    var depth := 0;
    var end := start;
    while end < |text|
      invariant start <= end <= |text| && depth == Depth(text, start, end)
      invariant forall k | start < k <= end :: !Closes(text, start, k)
    {
      var c := text[end];
      if c == '(' || c == '[' {
        depth := depth + 1;
      } else if c == ')' || c == ']' {
        depth := depth - 1;
        if depth == 0 {
          assert IsExtent(text, at, text[start..end + 1], start, end + 1);
          return text[start..end + 1];
        }
      }
      end := end + 1;
    }
    assert IsExtent(text, at, text[start..], start, |text|);
    return text[start..];
  }

  /** There is one extent. */
  lemma {:induction false} ExtentUnique(text: string, at: nat, extent: string, start: nat, end: nat,
                                        extent': string, start': nat, end': nat)
    requires at <= |text| && IsExtent(text, at, extent, start, end) && IsExtent(text, at, extent', start', end')
    ensures start == start' && end == end' && extent == extent'
  {
    assert start == start';
  }

  /** With an enclosing parenthesis the extent is its call: it holds the offset,
      and ends where the count first returns to zero. */
  lemma {:induction false} ExtentEncloses(text: string, at: nat, start: nat, end: nat)
    requires at <= |text| && Innermost(text, start, at) && ExtentEnd(text, start, end)
    ensures text[start] == '(' && start < at && (at < end || end == |text|)
    ensures forall k | start < k < end :: Depth(text, start, k) > 0
    ensures end < |text| ==> Depth(text, start, end) == 0
  {
    forall k | start < k < end
      ensures Depth(text, start, k) > 0
    {
      StaysOpen(text, start, end, k);
    }
  }

  lemma {:induction false} StaysOpen(text: string, start: nat, end: nat, k: nat)
    requires start < k < end && ExtentEnd(text, start, end) && text[start] == '('
    ensures Depth(text, start, k) > 0
  {
    if k == start + 1 {
      assert Depth(text, start, start) == 0;
    } else {
      StaysOpen(text, start, end, k - 1);
      assert !Closes(text, start, k);
    }
  }

  /** Among the parentheses that enclose an offset one is innermost. */
  lemma {:induction false} SomeInnermost(text: string, p: nat, at: nat) returns (s: nat)
    requires at <= |text| && Encloses(text, p, at)
    ensures Innermost(text, s, at)
    decreases at - p
  {
    if q: nat :| p < q < at && Encloses(text, q, at) {
      s := SomeInnermost(text, q, at);
    } else {
      s := p;
    }
  }

  /** The extent holds the offset exactly when a parenthesis encloses it, or no
      count from the start of the text closes by then. */
  lemma {:induction false} ExtentHolds(text: string, at: nat, extent: string, start: nat, end: nat)
    requires at < |text| && IsExtent(text, at, extent, start, end)
    ensures start <= at < end
            <==> (exists p: nat :: Encloses(text, p, at)) || forall k | 0 < k <= at :: !Closes(text, 0, k)
  {
    if Innermost(text, start, at) {
      ExtentEncloses(text, at, start, end);
    } else if p: nat :| Encloses(text, p, at) {
      var s := SomeInnermost(text, p, at);
    }
  }

  lemma {:induction false} ExtentMayMissOffset()
    ensures ExtentEnd("()x", 0, 2) && forall s :: !Innermost("()x", s, 2)
  {
    var t := "()x";
    assert Depth(t, 0, 0) == 0;
    assert Depth(t, 0, 1) == 1;
    assert Depth(t, 0, 2) == 0;
    assert Closes(t, 0, 2);
  }
}
