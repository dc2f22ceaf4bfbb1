/** What the strings listed by `values` are worth: every string an expression
    can be when the helper runs, under Python's own resolution of names,
    against the list. */
module StringMeaning {
  import opened Options
  import opened SeqLaws
  import opened StringValues

  // ----- What a name means when the helper runs -----

  /** Where a string comes from: an element of a literal tuple, a constant that
      is one string, an item of a constant tuple, or one character of a string. */
  datatype Origin = Element(place: nat) | Whole(id: string) | Item(id: string) | CharOf(of: Origin)

  /** What a name is: a string, a constant tuple, bound too late to be read, or unknown. */
  datatype Meaning = Holds(origin: Origin) | IsTuple(id: string) | Raises | Unknown

  /** The meaning of a loop variable over something of meaning `m`: a string yields its characters. */
  function Elements(m: Meaning): Meaning {
    match m
    case Holds(o) => Holds(CharOf(o))
    case IsTuple(id) => Holds(Item(id))
    case Raises => Raises
    case Unknown => Unknown
  }

  /** Whether a clause binds a name, alone or with others. */
  predicate BindsAny(c: Clause, id: string) {
    Binds(c, id) || (c.target.Several? && id in c.target.ids)
  }

  /** The last of the first n clauses that binds a name. */
  function LastBinder(cs: seq<Clause>, n: nat, id: string): (k: Option<nat>)
    requires n <= |cs|
    ensures k.Some? ==> k.value < n
  {
    if n == 0 then None else if BindsAny(cs[n - 1], id) then Some(n - 1) else LastBinder(cs, n - 1, id)
  }

  /** The meaning of a name a clause binds, given that of the name it runs over. */
  function ElementOf(c: Clause, named: Meaning): Meaning {
    if c.target.Several? then Unknown
    else match c.over
      case Literals(i) => Holds(Element(i))
      case Named(_) => Elements(named)
      case Computed => Unknown
  }

  /** A name at module level. */
  function Global(id: string, constants: Constants): Meaning {
    if id !in constants || !constants[id].kept then Unknown
    else if constants[id].tuple then IsTuple(id)
    else Holds(Whole(id))
  }

  /** A name read where `around` encloses it, by Python's rules: the innermost
      scope that binds it, through functions, with a loop's own iterable read
      outside the loop. */
  function Resolve(id: string, around: seq<Enclosing>, constants: Constants): Meaning
    decreases |around|, 0, 0
  {
    if around == [] then Global(id, constants)
    else
      var rest := around[1..];
      match around[0]
      case Loop(c, rebinds, inIterable) =>
        if inIterable then Resolve(id, rest, constants)
        else if id in rebinds then Unknown
        else if BindsAny(c, id) then
          ElementOf(c, if c.over.Named? then Resolve(c.over.id, rest, constants) else Unknown)
        else Resolve(id, rest, constants)
      case Comprehension(cs, seen) => InClauses(id, cs, if seen <= |cs| then seen else |cs|, rest, constants)
      case Function(binds) => if id in binds then Unknown else Resolve(id, rest, constants)
      case Elsewhere => Resolve(id, rest, constants)
  }

  /** A name read where the first n clauses of a comprehension are bound. The
      first iterable is read outside; after it, a name that only a later clause
      binds is not bound yet. */
  function InClauses(id: string, cs: seq<Clause>, n: nat, rest: seq<Enclosing>, constants: Constants): Meaning
    requires n <= |cs|
    decreases |rest|, 1, n
  {
    var k := LastBinder(cs, n, id);
    if k.Some? then
      var c := cs[k.value];
      ElementOf(c, if c.over.Named? then InClauses(c.over.id, cs, k.value, rest, constants) else Unknown)
    else if n > 0 && LastBinder(cs, |cs|, id).Some? then Raises
    else Resolve(id, rest, constants)
  }

  function MeaningOf(v: Variable, constants: Constants): Meaning {
    Resolve(v.id, v.around, constants)
  }

  ghost predicate CanBe(o: Origin, s: string, contents: Contents) {
    match o
    case Element(i) => s in contents.literals(i)
    case Whole(id) => s == contents.text(id)
    case Item(id) => s in contents.items(id)
    case CharOf(p) => |s| == 1 && exists t :: CanBe(p, t, contents) && s[0] in t
  }

  /** Whether a name can hold a string; a tuple is none. */
  ghost predicate CanHold(v: Variable, s: string, constants: Constants, contents: Contents) {
    match MeaningOf(v, constants)
    case Holds(o) => CanBe(o, s, contents)
    case Unknown => true
    case _ => false
  }

  // ----- What an expression is when the helper runs -----

  /** One run: what each variable holds, which conditional takes its first
      branch, what other expressions and placeholders come to. */
  datatype Run = Run(holds: Variable -> string, taken: nat -> bool, computes: Expr -> string, fills: seq<Part> -> string)

  function Spaces(n: nat): (s: string)
    ensures |s| == n && forall i | 0 <= i < n :: s[i] == ' '
  {
    seq(n, (i: nat) => ' ')
  }

  /** Minimum-width formatting of a string: spaces on the right. */
  function Padded(s: string, n: nat): string {
    if |s| < n then s + Spaces(n - |s|) else s
  }

  function Escaped(s: string, quote: char, ls: Letters): (r: string)
    ensures |r| >= |s|
  {
    if s == [] then ""
    else if s[0] == quote || s[0] == '\\' then "\\" + [s[0]] + Escaped(s[1..], quote, ls)
    else if ls.printable(s[0]) then [s[0]] + Escaped(s[1..], quote, ls)
    else "\\" + ls.escape(s[0]) + Escaped(s[1..], quote, ls)
  }

  /** `repr` of a string: in double quotes only if it has a single quote and no double one. */
  function Repr(s: string, ls: Letters): (r: string)
    ensures |r| >= |s| + 2
  {
    var quote := if '\'' in s && '\"' !in s then '\"' else '\'';
    [quote] + Escaped(s, quote, ls) + [quote]
  }

  function Formatted(s: string, f: Format, ls: Letters): string {
    match f
    case NoFormat => s
    case Quoted => Repr(s, ls)
    case Width(n) => Padded(s, n)
  }

  /** What the first of some parts comes to. */
  function EvalFirst(parts: seq<Part>, run: Run, ls: Letters): string
    requires parts != []
  {
    match parts[0]
    case Text(t) => t
    case Hole(v, change, format) => Formatted(Changed(run.holds(v), change, ls), format, ls)
    case OtherHole => run.fills(parts)
  }

  function EvalParts(parts: seq<Part>, run: Run, ls: Letters): string {
    if parts == [] then "" else EvalFirst(parts, run, ls) + EvalParts(parts[1..], run, ls)
  }

  function Eval(e: Expr, run: Run, ls: Letters): string {
    match e
    case Str(t) => t
    case Var(v) => run.holds(v)
    case Joined(parts) => EvalParts(parts, run, ls)
    case Add(l, r) => Eval(l, run, ls) + Eval(r, run, ls)
    case IfExp(n, t, f) => if run.taken(n) then Eval(t, run, ls) else Eval(f, run, ls)
    case Other => run.computes(e)
  }

  // ----- A list that misses nothing -----

  /** The strings `values` lists for a name hold every string the name can. */
  ghost predicate Covers(v: Variable, constants: Constants, contents: Contents) {
    var p := VariablePlace(v, constants);
    p.Some? ==> forall s | CanHold(v, s, constants, contents) :: s in StringsAt(p.value, constants, contents)
  }

  /** The strings `placeholder` lists hold everything the placeholder can come to. */
  ghost predicate HoleCovers(v: Variable, change: Case, format: Format, constants: Constants, contents: Contents, ls: Letters) {
    var found := HoleStrings(v, change, constants, contents, ls);
    found.Some? ==>
      forall s | CanHold(v, s, constants, contents) :: Formatted(Changed(s, change, ls), format, ls) in found.value
  }

  /** A placeholder that no loop binds is covered only by the metadata search, which gives up there. */
  ghost predicate PartCovered(p: Part, constants: Constants, contents: Contents, ls: Letters, metadata: bool) {
    match p
    case Text(_) => true
    case Hole(v, change, format) =>
      HoleCovers(v, change, format, constants, contents, ls)
      && (metadata || HoleStrings(v, change, constants, contents, ls).Some?)
    case OtherHole => metadata
  }

  ghost predicate Covered(e: Expr, constants: Constants, contents: Contents, ls: Letters, metadata: bool) {
    match e
    case Var(v) => Covers(v, constants, contents)
    case Joined(parts) => forall p | p in parts :: PartCovered(p, constants, contents, ls, metadata)
    case Add(l, r) => Covered(l, constants, contents, ls, metadata) && Covered(r, constants, contents, ls, metadata)
    case IfExp(_, t, f) => Covered(t, constants, contents, ls, metadata) && Covered(f, constants, contents, ls, metadata)
    case _ => true
  }

  ghost predicate PossibleParts(parts: seq<Part>, run: Run, constants: Constants, contents: Contents) {
    forall p | p in parts && p.Hole? :: CanHold(p.v, run.holds(p.v), constants, contents)
  }

  /** Every variable of the expression holds a string it can hold. */
  ghost predicate Possible(e: Expr, run: Run, constants: Constants, contents: Contents) {
    match e
    case Var(v) => CanHold(v, run.holds(v), constants, contents)
    case Joined(parts) => PossibleParts(parts, run, constants, contents)
    case Add(l, r) => Possible(l, run, constants, contents) && Possible(r, run, constants, contents)
    case IfExp(n, t, f) => if run.taken(n) then Possible(t, run, constants, contents) else Possible(f, run, constants, contents)
    case _ => true
  }

  lemma {:induction false} AppendHas(results: seq<string>, more: seq<string>, a: string, b: string)
    requires a in results && b in more
    ensures a + b in Append(results, more)
  {
    if a == results[0] {
      var i :| 0 <= i < |more| && more[i] == b;
      assert Prepend(a, more)[i] == a + b;
    } else {
      AppendHas(results[1..], more, a, b);
    }
  }

  lemma FirstListed(parts: seq<Part>, run: Run, constants: Constants, contents: Contents, ls: Letters, metadata: bool)
    returns (first: string)
    requires parts != [] && PartCovered(parts[0], constants, contents, ls, metadata)
    requires PossibleParts(parts, run, constants, contents)
    requires PartStrings(parts[0], constants, contents, ls, metadata).Some?
    ensures first == EvalFirst(parts, run, ls)
    ensures first in PartStrings(parts[0], constants, contents, ls, metadata).value
  {
    first := EvalFirst(parts, run, ls);
  }

  lemma {:induction false} JoinedListed(results: seq<string>, a: string, parts: seq<Part>, run: Run, constants: Constants,
                                        contents: Contents, ls: Letters, metadata: bool)
    requires a in results
    requires forall p | p in parts :: PartCovered(p, constants, contents, ls, metadata)
    requires PossibleParts(parts, run, constants, contents)
    requires JoinedStrings(results, parts, constants, contents, ls, metadata).Some?
    ensures a + EvalParts(parts, run, ls) in JoinedStrings(results, parts, constants, contents, ls, metadata).value
    decreases parts
  {
    if parts == [] {
      Empty(a);
    } else {
      var one := PartStrings(parts[0], constants, contents, ls, metadata).value;
      var first := FirstListed(parts, run, constants, contents, ls, metadata);
      AppendHas(results, one, a, first);
      JoinedListed(Append(results, one), a + first, parts[1..], run, constants, contents, ls, metadata);
      Assoc(a, first, EvalParts(parts[1..], run, ls));
    }
  }

  /** Every string an expression can be is listed. */
  lemma {:induction false} EvalListed(e: Expr, run: Run, constants: Constants, contents: Contents, ls: Letters, metadata: bool)
    requires Covered(e, constants, contents, ls, metadata)
    requires Possible(e, run, constants, contents)
    requires Values(e, constants, contents, ls, metadata).Some?
    ensures Eval(e, run, ls) in Values(e, constants, contents, ls, metadata).value
  {
    match e
    case Joined(parts) =>
      JoinedListed([""], "", parts, run, constants, contents, ls, metadata);
      assert "" + EvalParts(parts, run, ls) == EvalParts(parts, run, ls);
    case Add(l, r) =>
      EvalListed(l, run, constants, contents, ls, metadata);
      EvalListed(r, run, constants, contents, ls, metadata);
      AppendHas(Values(l, constants, contents, ls, metadata).value, Values(r, constants, contents, ls, metadata).value,
                Eval(l, run, ls), Eval(r, run, ls));
    case IfExp(n, t, f) =>
      if run.taken(n) {
        EvalListed(t, run, constants, contents, ls, metadata);
      } else {
        EvalListed(f, run, constants, contents, ls, metadata);
      }
    case _ =>
  }

  /** For a metadata name an f-string is listed exactly when every placeholder is a loop variable. */
  lemma {:induction false} MetadataBound(results: seq<string>, parts: seq<Part>, constants: Constants, contents: Contents,
                                         ls: Letters)
    ensures JoinedStrings(results, parts, constants, contents, ls, true).Some?
            <==> forall p | p in parts :: p.Text? || (p.Hole? && LoopPlace(p.v.id, p.v.around, constants).Some?)
    decreases parts
  {
    if parts != [] {
      var one := PartStrings(parts[0], constants, contents, ls, true);
      if one.Some? {
        MetadataBound(Append(results, one.value), parts[1..], constants, contents, ls);
      }
      assert parts == [parts[0]] + parts[1..];
    }
  }

  // ----- When a list misses nothing, whatever the strings are -----

  /** Strings of a place, as Python would hold them. */
  function OriginAt(p: Place, constants: Constants): Origin {
    match p
    case Literal(i) => Element(i)
    case OfConstant(id) => if id in constants && !constants[id].tuple then Whole(id) else Item(id)
  }

  lemma OriginAtCanBe(p: Place, s: string, constants: Constants, contents: Contents)
    ensures CanBe(OriginAt(p, constants), s, contents) <==> s in StringsAt(p, constants, contents)
  {}

  /** The name is no string at all. */
  predicate NoString(v: Variable, constants: Constants) {
    MeaningOf(v, constants).Raises? || MeaningOf(v, constants).IsTuple?
  }

  /** Python finds the name's strings at the very place the search takes them from. */
  predicate FoundAt(v: Variable, p: Place, constants: Constants) {
    MeaningOf(v, constants) == Holds(OriginAt(p, constants))
  }

  /** Contents that tell one origin from every other: "11" there, "22" elsewhere. */
  function Telling(o: Origin): Contents {
    Contents((i: nat) => if o == Element(i) then ["11"] else ["22"],
             (id: string) => if o == Whole(id) then "11" else "22",
             (id: string) => if o == Item(id) then ["11"] else ["22"])
  }

  predicate Telltale(s: string) {
    s == "22" || s == "1" || s == "2"
  }

  lemma {:induction false} TellsApart(o: Origin, other: Origin) returns (s: string)
    ensures CanBe(other, s, Telling(o)) && if other == o && !o.CharOf? then s == "11" else Telltale(s)
    decreases other
  {
    match other
    case CharOf(p) =>
      var t := TellsApart(o, p);
      s := [t[0]];
      assert s[0] in t;
      assert CanBe(p, t, Telling(o));
    case Element(i) =>
      s := Telling(o).literals(i)[0];
    case Whole(id) =>
      s := Telling(o).text(id);
    case Item(id) =>
      s := Telling(o).items(id)[0];
  }

  lemma TelltaleFormatted(s: string, f: Format, ls: Letters)
    requires Telltale(s)
    ensures Formatted(s, f, ls) != "11"
  {
    match f
    case Width(n) =>
      if |s| < n {
        assert Padded(s, n)[..|s|] == s;
        assert Padded(s, n)[|s|] == Spaces(n - |s|)[0];
      }
    case _ =>
  }

  /** Over contents that tell the place apart, a name found elsewhere holds a string that is not listed. */
  lemma ElsewhereHolds(v: Variable, p: Place, constants: Constants) returns (s: string)
    requires !NoString(v, constants) && !FoundAt(v, p, constants)
    ensures CanHold(v, s, constants, Telling(OriginAt(p, constants))) && Telltale(s)
    ensures StringsAt(p, constants, Telling(OriginAt(p, constants))) == ["11"]
  {
    if MeaningOf(v, constants).Unknown? {
      s := "22";
    } else {
      s := TellsApart(OriginAt(p, constants), MeaningOf(v, constants).origin);
    }
  }

  /** The strings listed for a name hold all it can, whatever strings the file has. */
  ghost predicate AlwaysCovers(v: Variable, constants: Constants) {
    forall contents :: Covers(v, constants, contents)
  }

  /** The strings listed for a name are all it can hold, whatever strings the
      file has, exactly when nothing is listed, the name is no string, or
      Python finds its strings where the search does. */
  lemma CoveredIff(v: Variable, constants: Constants)
    ensures AlwaysCovers(v, constants)
            <==> (VariablePlace(v, constants).Some? ==>
                    NoString(v, constants) || FoundAt(v, VariablePlace(v, constants).value, constants))
  {
    if VariablePlace(v, constants).Some? {
      var p := VariablePlace(v, constants).value;
      if FoundAt(v, p, constants) {
        forall contents, s ensures CanHold(v, s, constants, contents) ==> s in StringsAt(p, constants, contents) {
          OriginAtCanBe(p, s, constants, contents);
        }
      } else if !NoString(v, constants) {
        var s := ElsewhereHolds(v, p, constants);
        assert s !in StringsAt(p, constants, Telling(OriginAt(p, constants)));
        assert !Covers(v, constants, Telling(OriginAt(p, constants)));
      }
    }
  }

  /** A format that changes no string. */
  predicate Keeps(f: Format) {
    f == NoFormat || f == Width(0)
  }

  /** Strings that are all empty. */
  function Blank(): Contents {
    Contents((i: nat) => [""], (id: string) => "", (id: string) => [""])
  }

  /** Case conversion leaves digits alone, and the empty string. */
  ghost predicate KeepsDigits(ls: Letters) {
    forall s: string | Digits(s) :: ls.upper(s) == s == ls.lower(s)
  }

  predicate Digits(s: string) {
    forall i | 0 <= i < |s| :: '0' <= s[i] <= '9'
  }

  lemma {:induction false} DigitsKept(s: string, change: Case, ls: Letters)
    requires (change != Same ==> KeepsDigits(ls)) && Digits(s)
    ensures Changed(s, change, ls) == s
  {
    assert change != Same ==> ls.upper(s) == s == ls.lower(s);
  }

  /** The same for a placeholder, changed in case or not, whose format must also
      leave every string as it is. */
  lemma HoleCoveredIff(v: Variable, change: Case, format: Format, constants: Constants, ls: Letters)
    requires change != Same ==> KeepsDigits(ls)
    ensures (forall contents :: HoleCovers(v, change, format, constants, contents, ls))
            <==> (LoopPlace(v.id, v.around, constants).Some? ==>
                    NoString(v, constants)
                    || (FoundAt(v, LoopPlace(v.id, v.around, constants).value, constants) && Keeps(format)))
  {
    if LoopPlace(v.id, v.around, constants).Some? && !NoString(v, constants) {
      var p := LoopPlace(v.id, v.around, constants).value;
      if !FoundAt(v, p, constants) {
        var s := ElsewhereHolds(v, p, constants);
        DigitsKept(s, change, ls);
        DigitsKept("11", change, ls);
        HoleMissing(v, p, s, change, format, constants, Telling(OriginAt(p, constants)), ls, "11");
      } else if Keeps(format) {
        forall contents ensures HoleCovers(v, change, format, constants, contents, ls) {
          KeptCovers(v, p, change, format, constants, contents, ls);
        }
      } else {
        OriginAtCanBe(p, "", constants, Blank());
        DigitsKept("", change, ls);
        HoleMissing(v, p, "", change, format, constants, Blank(), ls, "");
      }
    }
  }

  lemma KeptCovers(v: Variable, p: Place, change: Case, format: Format, constants: Constants, contents: Contents, ls: Letters)
    requires LoopPlace(v.id, v.around, constants) == Some(p) && FoundAt(v, p, constants) && Keeps(format)
    ensures HoleCovers(v, change, format, constants, contents, ls)
  {
    var found := HoleStrings(v, change, constants, contents, ls).value;
    forall s | CanHold(v, s, constants, contents) ensures Formatted(Changed(s, change, ls), format, ls) in found {
      OriginAtCanBe(p, s, constants, contents);
      var i :| 0 <= i < |found| && StringsAt(p, constants, contents)[i] == s;
      assert found[i] == Changed(s, change, ls);
    }
  }

  lemma HoleMissing(v: Variable, p: Place, s: string, change: Case, format: Format, constants: Constants, contents: Contents,
                    ls: Letters, only: string)
    requires Changed(s, change, ls) == s && Changed(only, change, ls) == only
    requires LoopPlace(v.id, v.around, constants) == Some(p) && StringsAt(p, constants, contents) == [only]
    requires CanHold(v, s, constants, contents)
    requires (Telltale(s) && only == "11") || (s == "" == only && !Keeps(format))
    ensures !HoleCovers(v, change, format, constants, contents, ls)
  {
    if Telltale(s) {
      TelltaleFormatted(s, format, ls);
    }
    assert HoleStrings(v, change, constants, contents, ls).value == [only];
    assert Formatted(Changed(s, change, ls), format, ls) != only;
  }

  lemma {:induction false} Longest(q: seq<string>) returns (i: nat)
    requires q != []
    ensures i < |q| && forall s | s in q :: |s| <= |q[i]|
  {
    if |q| == 1 {
      i := 0;
    } else {
      var j := Longest(q[1..]);
      i := if |q[0]| >= |q[1..][j]| then 0 else j + 1;
      assert q == [q[0]] + q[1..];
    }
  }

  /** With `!r` the list is right only if it is empty: the longest string listed, in quotes, is not in it. */
  lemma QuotedCoversIff(v: Variable, p: Place, change: Case, constants: Constants, contents: Contents, ls: Letters)
    requires LoopPlace(v.id, v.around, constants) == Some(p) && FoundAt(v, p, constants)
    ensures HoleCovers(v, change, Quoted, constants, contents, ls) <==> StringsAt(p, constants, contents) == []
  {
    var q := StringsAt(p, constants, contents);
    var found := HoleStrings(v, change, constants, contents, ls).value;
    if q == [] {
      forall s ensures !CanHold(v, s, constants, contents) {
        OriginAtCanBe(p, s, constants, contents);
      }
    } else {
      var i := Longest(found);
      OriginAtCanBe(p, q[i], constants, contents);
      assert |Formatted(Changed(q[i], change, ls), Quoted, ls)| > |found[i]|;
    }
  }

  /** With a width the list is right exactly when each string too short has its padding listed as well. */
  lemma WidthCoversIff(v: Variable, p: Place, n: nat, constants: Constants, contents: Contents, ls: Letters)
    requires LoopPlace(v.id, v.around, constants) == Some(p) && FoundAt(v, p, constants)
    ensures HoleCovers(v, Same, Width(n), constants, contents, ls)
            <==> forall s | s in StringsAt(p, constants, contents) && |s| < n ::
                   s + Spaces(n - |s|) in StringsAt(p, constants, contents)
  {
    var q := StringsAt(p, constants, contents);
    assert HoleStrings(v, Same, constants, contents, ls).value == q;
    forall s ensures CanHold(v, s, constants, contents) <==> s in q {
      OriginAtCanBe(p, s, constants, contents);
    }
    forall s | s in q ensures Formatted(Changed(s, Same, ls), Width(n), ls) == Padded(s, n) {}
  }

  // ----- What an uncovered name does to a run -----

  function Holding(v: Variable, s: string): Run {
    Run((w: Variable) => if w == v then s else "", (n: nat) => true, (e: Expr) => "", (q: seq<Part>) => "")
  }

  /** A name that is not covered holds, in some run, a string that is not listed. */
  lemma UncoveredMisses(v: Variable, constants: Constants, contents: Contents, ls: Letters, metadata: bool) returns (run: Run)
    requires !Covers(v, constants, contents)
    ensures Possible(Var(v), run, constants, contents)
    ensures Values(Var(v), constants, contents, ls, metadata).Some?
    ensures Eval(Var(v), run, ls) !in Values(Var(v), constants, contents, ls, metadata).value
  {
    var p := VariablePlace(v, constants).value;
    var s :| CanHold(v, s, constants, contents) && s !in StringsAt(p, constants, contents);
    run := Holding(v, s);
  }

  /** What is listed for a placeholder, "0" too where nothing else is, holds all it can come to. */
  ghost predicate AloneCovers(v: Variable, change: Case, format: Format, constants: Constants, contents: Contents, ls: Letters,
                              metadata: bool)
  {
    var listed := PartStrings(Hole(v, change, format), constants, contents, ls, metadata);
    listed.Some? ==>
      forall s | CanHold(v, s, constants, contents) :: Formatted(Changed(s, change, ls), format, ls) in listed.value
  }

  /** An f-string of one placeholder is listed in every run exactly when that
      is so, with strings for the placeholder, none, or no loop that binds it. */
  lemma AloneListedIff(v: Variable, change: Case, format: Format, constants: Constants, contents: Contents, ls: Letters,
                       metadata: bool)
    ensures var e := Joined([Hole(v, change, format)]);
            (Values(e, constants, contents, ls, metadata).Some? ==>
               forall run | Possible(e, run, constants, contents) :: Eval(e, run, ls) in Values(e, constants, contents, ls, metadata).value)
            <==> AloneCovers(v, change, format, constants, contents, ls, metadata)
  {
    var parts := [Hole(v, change, format)];
    if PartStrings(parts[0], constants, contents, ls, metadata).Some? {
      AloneStrings(parts, constants, contents, ls, metadata);
      forall run ensures Eval(Joined(parts), run, ls) == Formatted(Changed(run.holds(v), change, ls), format, ls) {
        AloneEval(parts, run, ls);
      }
      if !AloneCovers(v, change, format, constants, contents, ls, metadata) {
        var run := UncoveredHoleMisses(v, change, format, constants, contents, ls, metadata);
      }
    }
  }

  lemma AloneEval(parts: seq<Part>, run: Run, ls: Letters)
    requires |parts| == 1
    ensures EvalParts(parts, run, ls) == EvalFirst(parts, run, ls)
  {
    assert EvalParts(parts[1..], run, ls) == "";
    Empty(EvalFirst(parts, run, ls));
  }

  lemma UncoveredHoleMisses(v: Variable, change: Case, format: Format, constants: Constants, contents: Contents, ls: Letters,
                            metadata: bool) returns (run: Run)
    requires !AloneCovers(v, change, format, constants, contents, ls, metadata)
    ensures Possible(Joined([Hole(v, change, format)]), run, constants, contents)
    ensures Values(Joined([Hole(v, change, format)]), constants, contents, ls, metadata).Some?
    ensures Eval(Joined([Hole(v, change, format)]), run, ls)
            !in Values(Joined([Hole(v, change, format)]), constants, contents, ls, metadata).value
  {
    var parts := [Hole(v, change, format)];
    var listed := PartStrings(parts[0], constants, contents, ls, metadata).value;
    var s :| CanHold(v, s, constants, contents) && Formatted(Changed(s, change, ls), format, ls) !in listed;
    run := Holding(v, s);
    AloneEval(parts, run, ls);
    AloneStrings(parts, constants, contents, ls, metadata);
  }

  lemma AloneStrings(parts: seq<Part>, constants: Constants, contents: Contents, ls: Letters, metadata: bool)
    requires |parts| == 1 && PartStrings(parts[0], constants, contents, ls, metadata).Some?
    ensures JoinedStrings([""], parts, constants, contents, ls, metadata)
            == PartStrings(parts[0], constants, contents, ls, metadata)
  {
    var one := PartStrings(parts[0], constants, contents, ls, metadata).value;
    assert parts[1..] == [];
    assert [""][1..] == [];
    assert Append([""], one) == Prepend("", one) + Append([""][1..], one);
    forall i | 0 <= i < |one| ensures Prepend("", one)[i] == one[i] {
      assert "" + one[i] == one[i];
    }
    assert Append([""], one) == one;
    assert JoinedStrings(one, parts[1..], constants, contents, ls, metadata) == Some(one);
  }

  // ----- Names that are not where the search finds them -----

  function Over(id: string, over: Source): Enclosing {
    Loop(Clause(One(id), over), {}, false)
  }

  /** A loop over a constant whose name an outer loop binds. */
  lemma ReboundIterableMisses(id: string, over: string, constants: Constants)
    requires id != over && over in constants
    ensures !AlwaysCovers(Variable(id, [Over(id, Named(over)), Over(over, Computed)]), constants)
  {
    var v := Variable(id, [Over(id, Named(over)), Over(over, Computed)]);
    assert v.around[1..] == [Over(over, Computed)];
    assert Resolve(over, [Over(over, Computed)], constants) == Unknown;
    CoveredIff(v, constants);
  }

  /** A constant's name, read in a function inside a loop that binds it. */
  lemma ClosureMisses(id: string, constants: Constants)
    requires id in constants
    ensures !AlwaysCovers(Variable(id, [Function({}), Over(id, Computed)]), constants)
  {
    var v := Variable(id, [Function({}), Over(id, Computed)]);
    assert v.around[1..] == [Over(id, Computed)];
    assert Resolve(id, [Over(id, Computed)], constants) == Unknown;
    CoveredIff(v, constants);
  }

  /** A constant's name bound by a loop that cannot be listed, by a pattern, or by the function itself. */
  lemma HiddenConstantMisses(id: string, binds: set<string>, constants: Constants)
    requires id in constants && id in binds
    ensures !AlwaysCovers(Variable(id, [Over(id, Computed)]), constants)
    ensures !AlwaysCovers(Variable(id, [Loop(Clause(Several(binds), Computed), {}, false)]), constants)
    ensures !AlwaysCovers(Variable(id, [Function(binds)]), constants)
  {
    CoveredIff(Variable(id, [Over(id, Computed)]), constants);
    CoveredIff(Variable(id, [Loop(Clause(Several(binds), Computed), {}, false)]), constants);
    CoveredIff(Variable(id, [Function(binds)]), constants);
  }

  /** A loop variable bound again in the loop's body, or read in the loop's own iterable. */
  lemma NotTheLoopsMisses(id: string, i: nat, constants: Constants)
    ensures !AlwaysCovers(Variable(id, [Loop(Clause(One(id), Literals(i)), {id}, false)]), constants)
    ensures Global(id, constants).IsTuple?
            || !AlwaysCovers(Variable(id, [Loop(Clause(One(id), Literals(i)), {}, true)]), constants)
  {
    CoveredIff(Variable(id, [Loop(Clause(One(id), Literals(i)), {id}, false)]), constants);
    var v := Variable(id, [Loop(Clause(One(id), Literals(i)), {}, true)]);
    assert Resolve(id, v.around[1..], constants) == Global(id, constants);
    CoveredIff(v, constants);
  }

  /** A loop over a constant that is one string runs over its characters. */
  lemma CharactersMiss(id: string, over: string, constants: Constants)
    requires over in constants && !constants[over].tuple
    ensures !AlwaysCovers(Variable(id, [Over(id, Named(over))]), constants)
  {
    var v := Variable(id, [Over(id, Named(over))]);
    assert Resolve(over, v.around[1..], constants) == Global(over, constants);
    CoveredIff(v, constants);
  }

  /** A comprehension that binds a name twice: the search takes the first clause, Python the last. */
  lemma BoundTwiceMisses(id: string, i: nat, j: nat, constants: Constants)
    requires i != j
    ensures !AlwaysCovers(Variable(id, [Comprehension([Clause(One(id), Literals(i)), Clause(One(id), Literals(j))], 2)]),
                          constants)
  {
    var cs := [Clause(One(id), Literals(i)), Clause(One(id), Literals(j))];
    var v := Variable(id, [Comprehension(cs, 2)]);
    assert LastBinder(cs, 2, id) == Some(1);
    assert InClauses(id, cs, 2, v.around[1..], constants) == Holds(Element(j));
    assert FirstBinder(cs, id) == Some(cs[0]);
    CoveredIff(v, constants);
  }

  // ----- Nothing else is listed -----

  /** Whether an expression can be listed, leaf by leaf. */
  predicate Listable(e: Expr, constants: Constants, metadata: bool) {
    match e
    case Str(_) => true
    case Var(v) => LoopPlace(v.id, v.around, constants).Some? || v.id in constants
    case Joined(parts) =>
      !metadata || forall p | p in parts :: p.Text? || (p.Hole? && LoopPlace(p.v.id, p.v.around, constants).Some?)
    case Add(l, r) => Listable(l, constants, metadata) && Listable(r, constants, metadata)
    case IfExp(_, t, f) => Listable(t, constants, metadata) && Listable(f, constants, metadata)
    case Other => false
  }

  lemma {:induction false} JoinedAlways(results: seq<string>, parts: seq<Part>, constants: Constants, contents: Contents, ls: Letters)
    ensures JoinedStrings(results, parts, constants, contents, ls, false).Some?
    decreases parts
  {
    if parts != [] {
      var one := PartStrings(parts[0], constants, contents, ls, false);
      JoinedAlways(Append(results, one.value), parts[1..], constants, contents, ls);
    }
  }

  /** An expression is listed exactly when each of its leaves can be. */
  lemma {:induction false} ListedIff(e: Expr, constants: Constants, contents: Contents, ls: Letters, metadata: bool)
    ensures Values(e, constants, contents, ls, metadata).Some? <==> Listable(e, constants, metadata)
  {
    match e
    case Joined(parts) =>
      if metadata {
        MetadataBound([""], parts, constants, contents, ls);
      } else {
        JoinedAlways([""], parts, constants, contents, ls);
      }
    case Add(l, r) =>
      ListedIff(l, constants, contents, ls, metadata);
      ListedIff(r, constants, contents, ls, metadata);
    case IfExp(_, t, f) =>
      ListedIff(t, constants, contents, ls, metadata);
      ListedIff(f, constants, contents, ls, metadata);
    case _ =>
  }

  ghost function PartVars(parts: seq<Part>): set<Variable> {
    set p | p in parts && p.Hole? :: p.v
  }

  ghost function Vars(e: Expr): set<Variable> {
    match e
    case Var(v) => {v}
    case Joined(parts) => PartVars(parts)
    case Add(l, r) => Vars(l) + Vars(r)
    case IfExp(_, t, f) => Vars(t) + Vars(f)
    case _ => {}
  }

  ghost function Places(e: Expr): set<nat> {
    match e
    case Add(l, r) => Places(l) + Places(r)
    case IfExp(n, t, f) => {n} + Places(t) + Places(f)
    case _ => {}
  }

  ghost predicate PartsOnce(parts: seq<Part>) {
    parts == [] || ((parts[0].Hole? ==> parts[0].v !in PartVars(parts[1..])) && PartsOnce(parts[1..]))
  }

  /** No variable is used twice, and conditionals stand in different places. */
  ghost predicate Once(e: Expr) {
    match e
    case Joined(parts) => PartsOnce(parts)
    case Add(l, r) => Vars(l) !! Vars(r) && Places(l) !! Places(r) && Once(l) && Once(r)
    case IfExp(n, t, f) => n !in Places(t) && n !in Places(f) && Once(t) && Once(f)
    case _ => true
  }

  ghost predicate PartFound(p: Part, constants: Constants, contents: Contents) {
    match p
    case Text(_) => true
    case Hole(v, _, format) =>
      var place := LoopPlace(v.id, v.around, constants);
      format == NoFormat && place.Some? && FoundAt(v, place.value, constants) && StringsAt(place.value, constants, contents) != []
    case OtherHole => false
  }

  /** Every name is found where the search finds it, and every placeholder is
      one of the strings of its loop, as it is. */
  ghost predicate AllFound(e: Expr, constants: Constants, contents: Contents) {
    match e
    case Var(v) =>
      VariablePlace(v, constants).Some? && FoundAt(v, VariablePlace(v, constants).value, constants)
    case Joined(parts) => forall p | p in parts :: PartFound(p, constants, contents)
    case Add(l, r) => AllFound(l, constants, contents) && AllFound(r, constants, contents)
    case IfExp(_, t, f) => AllFound(t, constants, contents) && AllFound(f, constants, contents)
    case Str(_) => true
    case Other => false
  }

  /** The runs agree on some variables and places. */
  ghost predicate Agree(a: Run, b: Run, vs: set<Variable>, ns: set<nat>) {
    (forall v | v in vs :: a.holds(v) == b.holds(v)) && forall n | n in ns :: a.taken(n) == b.taken(n)
  }

  /** One run on some variables and places, another on the rest. */
  ghost function Split(a: Run, b: Run, vs: set<Variable>, ns: set<nat>): Run {
    Run((v: Variable) => if v in vs then a.holds(v) else b.holds(v), (n: nat) => if n in ns then a.taken(n) else b.taken(n),
        a.computes, a.fills)
  }

  lemma {:induction false} SplitAgrees(a: Run, b: Run, vs: set<Variable>, ns: set<nat>, ws: set<Variable>, ms: set<nat>)
    requires vs !! ws && ns !! ms
    ensures Agree(Split(a, b, vs, ns), a, vs, ns) && Agree(Split(a, b, vs, ns), b, ws, ms)
  {
  }

  lemma {:induction false} PartsAgree(parts: seq<Part>, a: Run, b: Run, constants: Constants, contents: Contents, ls: Letters)
    requires Agree(a, b, PartVars(parts), {}) && forall p | p in parts :: !p.OtherHole?
    ensures EvalParts(parts, a, ls) == EvalParts(parts, b, ls)
    ensures PossibleParts(parts, a, constants, contents) == PossibleParts(parts, b, constants, contents)
  {
    forall p | p in parts && p.Hole?
      ensures a.holds(p.v) == b.holds(p.v)
    {
      assert p.v in PartVars(parts);
    }
    if parts != [] {
      assert forall p | p in parts[1..] :: p in parts;
      assert PartVars(parts[1..]) <= PartVars(parts);
      PartsAgree(parts[1..], a, b, constants, contents, ls);
      assert parts[0] in parts;
    }
  }

  /** Runs that agree on an expression's variables and places give it one value. */
  lemma {:induction false} EvalAgrees(e: Expr, a: Run, b: Run, constants: Constants, contents: Contents, ls: Letters)
    requires Agree(a, b, Vars(e), Places(e)) && AllFound(e, constants, contents)
    ensures Eval(e, a, ls) == Eval(e, b, ls) && Possible(e, a, constants, contents) == Possible(e, b, constants, contents)
  {
    match e
    case Joined(parts) =>
      forall p | p in parts
        ensures !p.OtherHole?
      {
        assert PartFound(p, constants, contents);
      }
      PartsAgree(parts, a, b, constants, contents, ls);
    case Add(l, r) =>
      EvalAgrees(l, a, b, constants, contents, ls);
      EvalAgrees(r, a, b, constants, contents, ls);
    case IfExp(n, t, f) =>
      assert n in Places(e);
      EvalAgrees(t, a, b, constants, contents, ls);
      EvalAgrees(f, a, b, constants, contents, ls);
    case _ =>
  }

  lemma {:induction false} AppendIs(results: seq<string>, more: seq<string>, s: string) returns (a: string, b: string)
    requires s in Append(results, more)
    ensures a in results && b in more && s == a + b
  {
    if s in Prepend(results[0], more) {
      var i :| 0 <= i < |more| && Prepend(results[0], more)[i] == s;
      a, b := results[0], more[i];
    } else {
      a, b := AppendIs(results[1..], more, s);
    }
  }

  /** What is listed for a part is what it comes to in some run. */
  lemma {:induction false} PartRun(p: Part, b: string, constants: Constants, contents: Contents, ls: Letters, metadata: bool) returns (run: Run)
    requires PartFound(p, constants, contents) && PartStrings(p, constants, contents, ls, metadata).Some?
    requires b in PartStrings(p, constants, contents, ls, metadata).value
    ensures EvalFirst([p], run, ls) == b && PossibleParts([p], run, constants, contents)
  {
    run := Holding(Variable("", []), "");
    if p.Hole? {
      var place := LoopPlace(p.v.id, p.v.around, constants).value;
      var q := StringsAt(place, constants, contents);
      var i :| 0 <= i < |q| && ChangedAll(q, p.change, ls)[i] == b;
      OriginAtCanBe(place, q[i], constants, contents);
      run := Holding(p.v, q[i]);
    }
  }

  lemma {:induction false} JoinedRun(results: seq<string>, parts: seq<Part>, s: string, constants: Constants, contents: Contents,
                                     ls: Letters, metadata: bool) returns (a: string, run: Run)
    requires PartsOnce(parts) && forall p | p in parts :: PartFound(p, constants, contents)
    requires JoinedStrings(results, parts, constants, contents, ls, metadata).Some?
    requires s in JoinedStrings(results, parts, constants, contents, ls, metadata).value
    ensures a in results && s == a + EvalParts(parts, run, ls) && PossibleParts(parts, run, constants, contents)
    decreases parts
  {
    if parts == [] {
      a, run := s, Holding(Variable("", []), "");
      Empty(s);
    } else {
      var p, rest := parts[0], parts[1..];
      var one := PartStrings(p, constants, contents, ls, metadata).value;
      assert p in parts && forall x | x in rest :: x in parts;
      var ab, tail := JoinedRun(Append(results, one), rest, s, constants, contents, ls, metadata);
      var b;
      a, b := AppendIs(results, one, ab);
      var head := PartRun(p, b, constants, contents, ls, metadata);
      run := JoinRuns(parts, head, tail, constants, contents, ls);
      Assoc(a, b, EvalParts(rest, run, ls));
    }
  }

  lemma {:induction false} JoinRuns(parts: seq<Part>, head: Run, tail: Run, constants: Constants, contents: Contents, ls: Letters)
    returns (run: Run)
    requires parts != [] && PartsOnce(parts) && forall p | p in parts :: PartFound(p, constants, contents)
    requires PossibleParts([parts[0]], head, constants, contents) && PossibleParts(parts[1..], tail, constants, contents)
    ensures EvalFirst(parts, run, ls) == EvalFirst([parts[0]], head, ls) && EvalParts(parts[1..], run, ls) == EvalParts(parts[1..], tail, ls)
    ensures PossibleParts(parts, run, constants, contents)
  {
    var p, rest := parts[0], parts[1..];
    var vs := PartVars(rest);
    run := Split(tail, head, vs, {});
    forall x | x in rest
      ensures !x.OtherHole?
    {
      assert x in parts && PartFound(x, constants, contents);
    }
    PartsAgree(rest, run, tail, constants, contents, ls);
    assert p in parts && PartFound(p, constants, contents);
    if p.Hole? {
      assert p in [p] && run.holds(p.v) == head.holds(p.v);
    }
    forall x | x in parts && x.Hole?
      ensures CanHold(x.v, run.holds(x.v), constants, contents)
    {
      assert x == p || x in rest;
    }
  }

  lemma {:induction false} VariableRun(v: Variable, s: string, constants: Constants, contents: Contents) returns (run: Run)
    requires VariablePlace(v, constants).Some? && FoundAt(v, VariablePlace(v, constants).value, constants)
    requires s in StringsAt(VariablePlace(v, constants).value, constants, contents)
    ensures run.holds(v) == s && CanHold(v, s, constants, contents)
  {
    OriginAtCanBe(VariablePlace(v, constants).value, s, constants, contents);
    run := Holding(v, s);
  }

  /** Every string listed is what the expression is in some run, if every name
      is found and none is used twice. */
  lemma {:induction false} ListedIsEval(e: Expr, s: string, constants: Constants, contents: Contents, ls: Letters, metadata: bool)
    returns (run: Run)
    requires AllFound(e, constants, contents) && Once(e)
    requires Values(e, constants, contents, ls, metadata).Some? && s in Values(e, constants, contents, ls, metadata).value
    ensures Possible(e, run, constants, contents) && Eval(e, run, ls) == s
    decreases e, 1
  {
    match e
    case Str(t) =>
      run := Holding(Variable("", []), "");
    case Var(v) =>
      run := VariableRun(v, s, constants, contents);
    case Joined(parts) =>
      var a;
      a, run := JoinedRun([""], parts, s, constants, contents, ls, metadata);
      assert "" + EvalParts(parts, run, ls) == EvalParts(parts, run, ls);
    case Add(l, r) =>
      var a, b := AppendIs(Values(l, constants, contents, ls, metadata).value, Values(r, constants, contents, ls, metadata).value, s);
      var x := ListedIsEval(l, a, constants, contents, ls, metadata);
      var y := ListedIsEval(r, b, constants, contents, ls, metadata);
      run := Split(x, y, Vars(l), Places(l));
      SplitAgrees(x, y, Vars(l), Places(l), Vars(r), Places(r));
      EvalAgrees(l, run, x, constants, contents, ls);
      EvalAgrees(r, run, y, constants, contents, ls);
    case IfExp(n, t, f) =>
      run := ConditionalRun(n, t, f, s, constants, contents, ls, metadata);
  }

  lemma {:induction false} ConditionalRun(n: nat, t: Expr, f: Expr, s: string, constants: Constants, contents: Contents, ls: Letters,
                                          metadata: bool) returns (run: Run)
    requires AllFound(t, constants, contents) && AllFound(f, constants, contents)
    requires n !in Places(t) && n !in Places(f) && Once(t) && Once(f)
    requires Values(t, constants, contents, ls, metadata).Some? && Values(f, constants, contents, ls, metadata).Some?
    requires s in Values(t, constants, contents, ls, metadata).value || s in Values(f, constants, contents, ls, metadata).value
    ensures Possible(IfExp(n, t, f), run, constants, contents) && Eval(IfExp(n, t, f), run, ls) == s
    decreases IfExp(n, t, f), 0
  {
    var first := s in Values(t, constants, contents, ls, metadata).value;
    var e := if first then t else f;
    var x := ListedIsEval(e, s, constants, contents, ls, metadata);
    var y := Run(x.holds, (m: nat) => first, x.computes, x.fills);
    run := Split(y, x, {}, {n});
    EvalAgrees(e, run, x, constants, contents, ls);
  }

  lemma {:induction false} SameAll(names: seq<string>, ls: Letters)
    ensures ChangedAll(names, Same, ls) == names
  {
    if names != [] {
      SameAll(names[1..], ls);
    }
  }

  /** A variable used twice is listed as if its uses were apart: of `f"{x}{x}"`
      over two strings, "12" is listed and never is. */
  lemma {:induction false} UsedTwiceListed(v: Variable, p: Place, constants: Constants, contents: Contents, ls: Letters, metadata: bool)
    requires LoopPlace(v.id, v.around, constants) == Some(p) && StringsAt(p, constants, contents) == ["1", "2"]
    ensures var e := Joined([Hole(v, Same, NoFormat), Hole(v, Same, NoFormat)]);
            && Values(e, constants, contents, ls, metadata).Some? && "12" in Values(e, constants, contents, ls, metadata).value
            && forall run :: Eval(e, run, ls) != "12"
  {
    var h := Hole(v, Same, NoFormat);
    var parts := [h, h];
    var one := PartStrings(h, constants, contents, ls, metadata);
    SameAll(["1", "2"], ls);
    assert parts[1..] == [h] && [h][1..] == [];
    var first := Append([""], ["1", "2"]);
    AppendHas([""], ["1", "2"], "", "1");
    assert "" + "1" == "1";
    AppendHas(first, ["1", "2"], "1", "2");
    assert "1" + "2" == "12";
    assert JoinedStrings(Append(first, ["1", "2"]), [], constants, contents, ls, metadata) == Some(Append(first, ["1", "2"]));
    assert JoinedStrings(first, [h], constants, contents, ls, metadata) == Some(Append(first, ["1", "2"]));
    forall run
      ensures EvalParts(parts, run, ls) != "12"
    {
      var s := run.holds(v);
      AloneEval([h], run, ls);
      assert EvalParts(parts, run, ls) == s + s;
      if |s| == 1 {
        assert (s + s)[1] == (s + s)[0];
      }
    }
  }

  // ----- Where a loop variable is looked for -----

  /** None of the first n clauses has the name as its target. */
  ghost predicate NoTarget(cs: seq<Clause>, n: nat, id: string)
    requires n <= |cs|
  {
    forall j | 0 <= j < n :: cs[j].target != One(id)
  }

  /** The plain target of a loop, or the first such target of a comprehension. */
  ghost predicate Target(e: Enclosing, id: string, c: Clause) {
    match e
    case Loop(clause, _, _) => clause == c && c.target == One(id)
    case Comprehension(cs, _) => exists j | 0 <= j < |cs| :: cs[j] == c && c.target == One(id) && NoTarget(cs, j, id)
    case _ => false
  }

  /** Nothing that binds the name alone, nor a function. */
  ghost predicate Transparent(e: Enclosing, id: string) {
    match e
    case Loop(clause, _, _) => clause.target != One(id)
    case Comprehension(cs, _) => NoTarget(cs, |cs|, id)
    case Function(_) => false
    case Elsewhere => true
  }

  ghost predicate RunsOver(c: Clause, p: Place, constants: Constants) {
    || (c.over.Literals? && p == Literal(c.over.place))
    || (c.over.Named? && c.over.id in constants && p == OfConstant(c.over.id))
  }

  /** A loop's strings are those of the innermost target with that name, and
      are not looked for past a function. */
  ghost predicate FromLoop(id: string, around: seq<Enclosing>, constants: Constants, p: Place) {
    exists n: nat, c :: n < |around| && Target(around[n], id, c) && RunsOver(c, p, constants)
                        && forall m | 0 <= m < n :: Transparent(around[m], id)
  }

  lemma {:induction false} FirstBinderIs(cs: seq<Clause>, id: string)
    ensures FirstBinder(cs, id).None? <==> NoTarget(cs, |cs|, id)
    ensures FirstBinder(cs, id).Some? ==>
              exists j | 0 <= j < |cs| :: cs[j] == FirstBinder(cs, id).value && cs[j].target == One(id) && NoTarget(cs, j, id)
  {
    assert forall j | 0 < j < |cs| :: cs[j] == cs[1..][j - 1];
    if cs != [] && cs[0].target == One(id) {
      assert NoTarget(cs, 0, id);
    } else if cs != [] {
      FirstBinderIs(cs[1..], id);
      if FirstBinder(cs, id).Some? {
        var j :| 0 <= j < |cs| - 1 && cs[1..][j] == FirstBinder(cs, id).value && cs[1..][j].target == One(id)
                 && NoTarget(cs[1..], j, id);
        assert cs[j + 1].target == One(id) && NoTarget(cs, j + 1, id);
      } else {
        assert NoTarget(cs[1..], |cs| - 1, id);
      }
    }
  }

  /** One enclosing node: what is taken from it. */
  lemma {:induction false} BinderIs(e: Enclosing, id: string)
    ensures BinderIn(e, id).Some? ==> Target(e, id, BinderIn(e, id).value)
    ensures BinderIn(e, id).None? && !e.Function? <==> Transparent(e, id)
    ensures forall c | Target(e, id, c) :: BinderIn(e, id) == Some(c)
  {
    match e
    case Comprehension(cs, _) =>
      FirstBinderIs(cs, id);
      forall c | Target(e, id, c)
        ensures FirstBinder(cs, id) == Some(c)
      {
        var j :| 0 <= j < |cs| && cs[j] == c && c.target == One(id) && NoTarget(cs, j, id);
        FirstBinderAt(cs, id, j);
      }
    case _ =>
  }

  lemma {:induction false} FirstBinderAt(cs: seq<Clause>, id: string, j: nat)
    requires j < |cs| && cs[j].target == One(id) && NoTarget(cs, j, id)
    ensures FirstBinder(cs, id) == Some(cs[j])
  {
    if j > 0 {
      FirstBinderAt(cs[1..], id, j - 1);
    }
  }

  lemma {:induction false} LoopPlaceIff(id: string, around: seq<Enclosing>, constants: Constants, p: Place)
    ensures LoopPlace(id, around, constants) == Some(p) <==> FromLoop(id, around, constants, p)
  {
    if around != [] {
      BinderIs(around[0], id);
      if Transparent(around[0], id) {
        LoopPlaceIff(id, around[1..], constants, p);
        FromLater(id, around, constants, p);
      } else {
        FromHere(id, around, constants, p);
      }
    }
  }

  lemma {:induction false} FromHere(id: string, around: seq<Enclosing>, constants: Constants, p: Place)
    requires around != [] && !Transparent(around[0], id)
    ensures FromLoop(id, around, constants, p) <==> exists c :: Target(around[0], id, c) && RunsOver(c, p, constants)
  {
  }

  lemma {:induction false} FromLater(id: string, around: seq<Enclosing>, constants: Constants, p: Place)
    requires around != [] && Transparent(around[0], id)
    ensures FromLoop(id, around, constants, p) <==> FromLoop(id, around[1..], constants, p)
  {
    var rest := around[1..];
    assert forall n | 0 <= n < |rest| :: rest[n] == around[n + 1];
    if FromLoop(id, rest, constants, p) {
      var n: nat, c :| n < |rest| && Target(rest[n], id, c) && RunsOver(c, p, constants)
                       && forall m | 0 <= m < n :: Transparent(rest[m], id);
      forall m | 0 <= m < n + 1
        ensures Transparent(around[m], id)
      {
        assert m > 0 ==> Transparent(rest[m - 1], id);
      }
      assert Target(around[n + 1], id, c);
    }
    if FromLoop(id, around, constants, p) {
      var n: nat, c :| n < |around| && Target(around[n], id, c) && RunsOver(c, p, constants)
                       && forall m | 0 <= m < n :: Transparent(around[m], id);
      BinderIs(around[0], id);
      assert n > 0;
      assert Target(rest[n - 1], id, c) && forall m | 0 <= m < n - 1 :: Transparent(rest[m], id);
    }
  }
}
