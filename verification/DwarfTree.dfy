/** The entries of a DWARF dump (`_read_dwarf` of
    scripts/buildcheck_gdb_helper_names.py): a stack of open entries gives each
    new one its parent by indentation, and takes the attributes that follow. */
module DwarfTree {
  import opened Options

  type Attributes = map<string, string>

  /** A line of the dump: it opens an entry, gives an attribute, or neither. */
  datatype Line = Tag(indent: nat, tag: string) | Attribute(key: string, value: string) | Other

  datatype Entry = Entry(indent: nat, tag: string, attributes: Attributes, parent: Option<nat>)

  // ----- Parents -----

  /** The nearest earlier entry with a smaller indentation. */
  ghost predicate IsParent(indents: seq<nat>, i: nat, p: Option<nat>)
    requires i < |indents|
  {
    match p
    case None => forall k | 0 <= k < i :: indents[k] >= indents[i]
    case Some(j) => j < i && indents[j] < indents[i] && forall k | j < k < i :: indents[k] >= indents[i]
  }

  ghost predicate AreParents(indents: seq<nat>, parents: seq<Option<nat>>) {
    |parents| == |indents| && forall i | 0 <= i < |indents| :: IsParent(indents, i, parents[i])
  }

  lemma {:induction false} ParentUnique(indents: seq<nat>, i: nat, p: Option<nat>, q: Option<nat>)
    requires i < |indents| && IsParent(indents, i, p) && IsParent(indents, i, q)
    ensures p == q
  {
  }

  lemma {:induction false} ParentsUnique(indents: seq<nat>, p: seq<Option<nat>>, q: seq<Option<nat>>)
    requires AreParents(indents, p) && AreParents(indents, q)
    ensures p == q
  {
    forall i | 0 <= i < |indents|
      ensures p[i] == q[i]
    {
      ParentUnique(indents, i, p[i], q[i]);
    }
  }

  // ----- The stack -----

  ghost predicate OnStack(stack: seq<nat>, indents: seq<nat>, k: nat)
    requires k < |stack|
  {
    stack[k] < |indents| && IsParent(indents, stack[k], if k == 0 then None else Some(stack[k - 1]))
  }

  /** The open entries, outermost first: each is the parent of the next. */
  ghost predicate IsStack(stack: seq<nat>, indents: seq<nat>) {
    forall k | 0 <= k < |stack| :: OnStack(stack, indents, k)
  }

  /** Entries from lo up to the new one are no shallower than it. */
  ghost predicate Deeper(indents: seq<nat>, lo: nat, indent: nat) {
    forall k | lo <= k < |indents| :: indents[k] >= indent
  }

  ghost function After(stack: seq<nat>): nat {
    if stack == [] then 0 else stack[|stack| - 1] + 1
  }

  lemma {:induction false} PopStep(stack: seq<nat>, indents: seq<nat>, indent: nat)
    requires IsStack(stack, indents) && stack != []
    requires Deeper(indents, After(stack), indent) && stack[|stack| - 1] < |indents| && indents[stack[|stack| - 1]] >= indent
    ensures IsStack(stack[..|stack| - 1], indents) && Deeper(indents, After(stack[..|stack| - 1]), indent)
  {
    var rest := stack[..|stack| - 1];
    assert OnStack(stack, indents, |stack| - 1);
    forall k | 0 <= k < |rest|
      ensures OnStack(rest, indents, k)
    {
      assert OnStack(stack, indents, k);
    }
  }

  /** Pop the entries not shallower than the new one: what is left on top is its parent. */
  method PopTo(stack: seq<nat>, indents: seq<nat>, indent: nat) returns (rest: seq<nat>, ghost pops: nat)
    requires IsStack(stack, indents) && After(stack) == |indents|
    ensures IsStack(rest, indents) && pops + |rest| == |stack|
    ensures IsParent(indents + [indent], |indents|, if rest == [] then None else Some(rest[|rest| - 1]))
  {
    rest, pops := stack, 0;
    while rest != [] && indents[rest[|rest| - 1]] >= indent
      invariant IsStack(rest, indents) && pops + |rest| == |stack|
      invariant rest != [] ==> OnStack(rest, indents, |rest| - 1)
      invariant Deeper(indents, After(rest), indent)
    {
      PopStep(rest, indents, indent);
      rest, pops := rest[..|rest| - 1], pops + 1;
    }
  }

  // ----- The reader -----

  function IndentsOf(es: seq<Entry>): (r: seq<nat>)
    ensures |r| == |es| && forall i | 0 <= i < |es| :: r[i] == es[i].indent
  {
    seq(|es|, i requires 0 <= i < |es| => es[i].indent)
  }

  function SetDefault(m: Attributes, key: string, value: string): Attributes {
    if key in m then m else m[key := value]
  }

  /** The attributes given from a line on, up to the next entry; the first of a key counts. */
  function Given(lines: seq<Line>, i: nat, m: Attributes): Attributes
    requires i <= |lines|
    decreases |lines| - i
  {
    if i == |lines| || lines[i].Tag? then m
    else Given(lines, i + 1, if lines[i].Attribute? then SetDefault(m, lines[i].key, lines[i].value) else m)
  }

  /** Where the entries of the dump stand in it. */
  function TagLines(lines: seq<Line>, i: nat): seq<nat>
    requires i <= |lines|
  {
    if i == 0 then [] else TagLines(lines, i - 1) + if lines[i - 1].Tag? then [i - 1] else []
  }

  /** An entry is its line, with the attributes given before the next. */
  predicate IsEntry(lines: seq<Line>, at: nat, e: Entry) {
    at < |lines| && lines[at] == Tag(e.indent, e.tag) && e.attributes == Given(lines, at + 1, map[])
  }

  /** As far as line i: every entry but the last is complete. */
  ghost predicate Read(lines: seq<Line>, i: nat, entries: seq<Entry>)
    requires i <= |lines|
  {
    var at := TagLines(lines, i);
    && |entries| == |at|
    && (forall k | 0 <= k < |at| - 1 :: IsEntry(lines, at[k], entries[k]))
    && (at != [] ==> var e := entries[|at| - 1];
          && at[|at| - 1] < i && lines[at[|at| - 1]] == Tag(e.indent, e.tag)
          && Given(lines, i, e.attributes) == Given(lines, at[|at| - 1] + 1, map[]))
  }

  lemma {:induction false} ReadTag(lines: seq<Line>, i: nat, entries: seq<Entry>, parent: Option<nat>)
    requires i < |lines| && lines[i].Tag? && Read(lines, i, entries)
    ensures Read(lines, i + 1, entries + [Entry(lines[i].indent, lines[i].tag, map[], parent)])
  {
    var at := TagLines(lines, i);
    assert TagLines(lines, i + 1) == at + [i];
  }

  lemma {:induction false} ReadOther(lines: seq<Line>, i: nat, entries: seq<Entry>)
    requires i < |lines| && !lines[i].Tag? && (lines[i].Attribute? ==> entries == []) && Read(lines, i, entries)
    ensures Read(lines, i + 1, entries)
  {
    assert TagLines(lines, i + 1) == TagLines(lines, i);
  }

  function Give(e: Entry, l: Line): Entry
    requires l.Attribute?
  {
    e.(attributes := SetDefault(e.attributes, l.key, l.value))
  }

  lemma {:induction false} ReadAttribute(lines: seq<Line>, i: nat, entries: seq<Entry>)
    requires i < |lines| && lines[i].Attribute? && entries != [] && Read(lines, i, entries)
    ensures var n := |entries| - 1; Read(lines, i + 1, entries[n := Give(entries[n], lines[i])])
  {
    assert TagLines(lines, i + 1) == TagLines(lines, i);
  }

  ghost predicate ParentsSet(entries: seq<Entry>) {
    forall i | 0 <= i < |entries| :: IsParent(IndentsOf(entries), i, entries[i].parent)
  }

  lemma {:induction false} ParentKept(indents: seq<nat>, indent: nat, i: nat, p: Option<nat>)
    requires i < |indents| && IsParent(indents, i, p)
    ensures IsParent(indents + [indent], i, p)
  {
  }

  lemma {:induction false} Push(entries: seq<Entry>, e: Entry, stack: seq<nat>)
    requires ParentsSet(entries) && IsStack(stack, IndentsOf(entries))
    requires e.parent == (if stack == [] then None else Some(stack[|stack| - 1]))
    requires IsParent(IndentsOf(entries) + [e.indent], |entries|, e.parent)
    ensures ParentsSet(entries + [e]) && IsStack(stack + [|entries|], IndentsOf(entries + [e]))
  {
    var old', new', s' := IndentsOf(entries), IndentsOf(entries + [e]), stack + [|entries|];
    assert new' == old' + [e.indent];
    forall i | 0 <= i < |entries|
      ensures IsParent(new', i, entries[i].parent)
    {
      ParentKept(old', e.indent, i, entries[i].parent);
    }
    forall k | 0 <= k < |s'|
      ensures OnStack(s', new', k)
    {
      if k < |stack| {
        assert OnStack(stack, old', k);
        ParentKept(old', e.indent, stack[k], if k == 0 then None else Some(stack[k - 1]));
      }
    }
  }

  /** The state of the reader before line i. */
  ghost predicate Reading(lines: seq<Line>, i: nat, entries: seq<Entry>, stack: seq<nat>)
    requires i <= |lines|
  {
    Read(lines, i, entries) && ParentsSet(entries) && IsStack(stack, IndentsOf(entries)) && After(stack) == |entries|
  }

  lemma {:induction false} OpenEntry(lines: seq<Line>, i: nat, entries: seq<Entry>, stack: seq<nat>, e: Entry)
    requires i < |lines| && lines[i].Tag? && Read(lines, i, entries) && ParentsSet(entries) && IsStack(stack, IndentsOf(entries))
    requires e == Entry(lines[i].indent, lines[i].tag, map[], if stack == [] then None else Some(stack[|stack| - 1]))
    requires IsParent(IndentsOf(entries) + [e.indent], |entries|, e.parent)
    ensures Reading(lines, i + 1, entries + [e], stack + [|entries|])
  {
    ReadTag(lines, i, entries, e.parent);
    Push(entries, e, stack);
  }

  lemma {:induction false} GiveTop(lines: seq<Line>, i: nat, entries: seq<Entry>, stack: seq<nat>)
    requires i < |lines| && lines[i].Attribute? && stack != [] && Reading(lines, i, entries, stack)
    ensures var n := |entries| - 1;
            stack[|stack| - 1] == n && Reading(lines, i + 1, entries[n := Give(entries[n], lines[i])], stack)
  {
    var n := |entries| - 1;
    ReadAttribute(lines, i, entries);
    SameShape(entries, n, Give(entries[n], lines[i]));
  }

  /** New attributes change no parent. */
  lemma {:induction false} SameShape(entries: seq<Entry>, n: nat, e: Entry)
    requires n < |entries| && ParentsSet(entries) && e.indent == entries[n].indent && e.parent == entries[n].parent
    ensures IndentsOf(entries[n := e]) == IndentsOf(entries) && ParentsSet(entries[n := e])
  {
    assert IndentsOf(entries[n := e]) == IndentsOf(entries);
    var changed := entries[n := e];
    forall i | 0 <= i < |changed|
      ensures IsParent(IndentsOf(entries), i, changed[i].parent)
    {
      assert changed[i].parent == entries[i].parent;
    }
  }

  lemma {:induction false} SkipLine(lines: seq<Line>, i: nat, entries: seq<Entry>, stack: seq<nat>)
    requires i < |lines| && !lines[i].Tag? && (lines[i].Attribute? ==> stack == []) && Reading(lines, i, entries, stack)
    ensures Reading(lines, i + 1, entries, stack)
  {
    ReadOther(lines, i, entries);
  }

  lemma {:induction false} ReadingStarts(lines: seq<Line>)
    ensures Reading(lines, 0, [], [])
  {
  }

  /** One line of the dump. */
  method ReadLine(lines: seq<Line>, i: nat, entries: seq<Entry>, stack: seq<nat>)
    returns (entries': seq<Entry>, stack': seq<nat>, ghost pops: nat)
    requires i < |lines| && Reading(lines, i, entries, stack)
    ensures Reading(lines, i + 1, entries', stack')
    ensures pops + |stack'| - |stack| == |entries'| - |entries|
  {
    entries', stack', pops := entries, stack, 0;
    match lines[i] {
      case Tag(indent, tag) =>
        stack', pops := PopTo(stack, IndentsOf(entries), indent);
        var e := Entry(indent, tag, map[], if stack' == [] then None else Some(stack'[|stack'| - 1]));
        OpenEntry(lines, i, entries, stack', e);
        entries', stack' := entries + [e], stack' + [|entries|];
      case Attribute(_, _) =>
        if stack != [] {
          GiveTop(lines, i, entries, stack);
          var top := stack[|stack| - 1];
          entries' := entries[top := Give(entries[top], lines[i])];
        } else {
          SkipLine(lines, i, entries, stack);
        }
      case Other =>
        SkipLine(lines, i, entries, stack);
    }
  }

  method ReadDwarf(lines: seq<Line>) returns (entries: seq<Entry>, ghost pops: nat)
    ensures |entries| == |TagLines(lines, |lines|)|
    ensures forall k | 0 <= k < |entries| :: IsEntry(lines, TagLines(lines, |lines|)[k], entries[k])
    ensures ParentsSet(entries) && pops <= |entries|
  {
    var stack: seq<nat> := [];
    entries, pops := [], 0;
    ReadingStarts(lines);
    for i := 0 to |lines|
      invariant Reading(lines, i, entries, stack) && pops + |stack| == |entries|
    {
      ghost var n;
      entries, stack, n := ReadLine(lines, i, entries, stack);
      pops := pops + n;
    }
    Finished(lines, entries);
  }

  lemma {:induction false} Finished(lines: seq<Line>, entries: seq<Entry>)
    requires Read(lines, |lines|, entries)
    ensures |entries| == |TagLines(lines, |lines|)|
    ensures forall k | 0 <= k < |entries| :: IsEntry(lines, TagLines(lines, |lines|)[k], entries[k])
  {
  }
}
