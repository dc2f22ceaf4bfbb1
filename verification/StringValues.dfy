/** The strings an expression of a GDB helper can be (`values`, `placeholder`,
    `_loop_values` and `_literal_strings` of
    scripts/buildcheck_gdb_helper_names.py). */
module StringValues {
  import opened Options

  // ----- The program text -----

  /** What a loop runs over: the literal strings of a tuple or list, a name, or
      anything else. A literal is known by its place in the file. */
  datatype Source = Literals(place: nat) | Named(id: string) | Computed

  /** A plain name, or a pattern that binds several. */
  datatype Target = One(id: string) | Several(ids: set<string>)

  /** `target in iter` */
  datatype Clause = Clause(target: Target, over: Source)

  /** What encloses a name, from the inside out. A loop's body may bind names
      again (`rebinds`), and the name may stand in the loop's iterable. In a
      comprehension the first `seen` clauses are bound where the name stands:
      all of them in its element, j of them in the iterable of clause j. A
      function binds its parameters and the names it assigns. */
  datatype Enclosing =
    | Loop(clause: Clause, rebinds: set<string>, inIterable: bool)
    | Comprehension(clauses: seq<Clause>, seen: nat)
    | Function(binds: set<string>)
    | Elsewhere

  datatype Variable = Variable(id: string, around: seq<Enclosing>)

  datatype Case = Same | Upper | Lower

  /** The conversion `!r`, a minimum width, or neither. */
  datatype Format = NoFormat | Quoted | Width(n: nat)

  /** A part of an f-string: text, a variable perhaps changed in case and
      formatted, or another expression. */
  datatype Part = Text(text: string) | Hole(v: Variable, change: Case, format: Format) | OtherHole

  datatype Expr =
    | Str(text: string)
    | Var(v: Variable)
    | Joined(parts: seq<Part>)
    | Add(left: Expr, right: Expr)
    | IfExp(place: nat, body: Expr, orelse: Expr)
    | Other

  /** A module constant: a tuple of strings or one string; `kept` unless the
      module binds the name again. */
  datatype Constant = Constant(tuple: bool, kept: bool)

  type Constants = map<string, Constant>

  /** The strings written at each place and in each constant. */
  datatype Contents = Contents(literals: nat -> seq<string>, text: string -> string, items: string -> seq<string>)

  /** `str.upper`, `str.lower`, which characters `repr` writes as they are, and
      what it writes after a backslash for the others. */
  datatype Letters = Letters(upper: string -> string, lower: string -> string, printable: char -> bool,
                             escape: char -> string)

  function Changed(s: string, change: Case, ls: Letters): string {
    match change
    case Same => s
    case Upper => ls.upper(s)
    case Lower => ls.lower(s)
  }

  // ----- The search for a loop variable -----

  /** Where the search takes strings from. */
  datatype Place = Literal(place: nat) | OfConstant(id: string)

  /** `_literal_strings` */
  function Taken(over: Source, constants: Constants): Option<Place> {
    match over
    case Literals(i) => Some(Literal(i))
    case Named(id) => if id in constants then Some(OfConstant(id)) else None
    case Computed => None
  }

  /** What the search takes for a binding: a plain name only. */
  predicate Binds(c: Clause, id: string) {
    c.target == One(id)
  }

  /** The clause of one enclosing node that the search takes for a name: the first that binds it. */
  function FirstBinder(cs: seq<Clause>, id: string): Option<Clause> {
    if cs == [] then None else if Binds(cs[0], id) then Some(cs[0]) else FirstBinder(cs[1..], id)
  }

  function BinderIn(e: Enclosing, id: string): Option<Clause> {
    match e
    case Loop(c, _, _) => if Binds(c, id) then Some(c) else None
    case Comprehension(cs, _) => FirstBinder(cs, id)
    case _ => None
  }

  /** `_loop_values`, as a place. */
  function LoopPlace(id: string, around: seq<Enclosing>, constants: Constants): Option<Place> {
    if around == [] then None
    else if BinderIn(around[0], id).Some? then Taken(BinderIn(around[0], id).value.over, constants)
    else if around[0].Function? then None
    else LoopPlace(id, around[1..], constants)
  }

  method FindBinder(cs: seq<Clause>, id: string) returns (c: Option<Clause>)
    ensures c == FirstBinder(cs, id)
  {
    for i := 0 to |cs|
      invariant FirstBinder(cs, id) == FirstBinder(cs[i..], id)
    {
      if Binds(cs[i], id) {
        return Some(cs[i]);
      }
    }
    c := None;
  }

  /** The walk outwards from a name. */
  method FindLoopPlace(v: Variable, constants: Constants) returns (r: Option<Place>)
    ensures r == LoopPlace(v.id, v.around, constants)
  {
    var i := 0;
    assert v.around[0..] == v.around;
    while i < |v.around|
      invariant i <= |v.around| && LoopPlace(v.id, v.around, constants) == LoopPlace(v.id, v.around[i..], constants)
    {
      assert v.around[i..][1..] == v.around[i + 1..];
      var c := None;
      match v.around[i] {
        case Loop(clause, _, _) =>
          c := if Binds(clause, v.id) then Some(clause) else None;
        case Comprehension(clauses, _) =>
          c := FindBinder(clauses, v.id);
        case _ =>
      }
      if c.Some? {
        return Taken(c.value.over, constants);
      }
      if v.around[i].Function? {
        return None;
      }
      i := i + 1;
    }
    r := None;
  }

  /** The strings of a place; a constant that is one string has that one. */
  function StringsAt(p: Place, constants: Constants, contents: Contents): seq<string> {
    match p
    case Literal(i) => contents.literals(i)
    case OfConstant(id) =>
      if id in constants && !constants[id].tuple then [contents.text(id)] else contents.items(id)
  }

  function PlaceStrings(p: Option<Place>, constants: Constants, contents: Contents): Option<seq<string>> {
    if p.None? then None else Some(StringsAt(p.value, constants, contents))
  }

  /** Where `values` takes a name's strings from: a loop, or else a constant. */
  function VariablePlace(v: Variable, constants: Constants): Option<Place> {
    var p := LoopPlace(v.id, v.around, constants);
    if p.Some? then p else if v.id in constants then Some(OfConstant(v.id)) else None
  }

  // ----- The enumeration -----

  function Append(results: seq<string>, more: seq<string>): seq<string> {
    if results == [] then [] else Prepend(results[0], more) + Append(results[1..], more)
  }

  function Prepend(s: string, more: seq<string>): (r: seq<string>)
    ensures |r| == |more| && forall i | 0 <= i < |more| :: r[i] == s + more[i]
  {
    seq(|more|, i requires 0 <= i < |more| => s + more[i])
  }

  function ChangedAll(q: seq<string>, change: Case, ls: Letters): (r: seq<string>)
    ensures |r| == |q| && forall i | 0 <= i < |q| :: r[i] == Changed(q[i], change, ls)
  {
    seq(|q|, i requires 0 <= i < |q| => Changed(q[i], change, ls))
  }

  /** `placeholder` */
  function HoleStrings(v: Variable, change: Case, constants: Constants, contents: Contents, ls: Letters): Option<seq<string>> {
    var p := LoopPlace(v.id, v.around, constants);
    if p.None? then None else Some(ChangedAll(StringsAt(p.value, constants, contents), change, ls))
  }

  /** What one part of an f-string is listed as; None stops the enumeration. */
  function PartStrings(p: Part, constants: Constants, contents: Contents, ls: Letters, metadata: bool): Option<seq<string>> {
    match p
    case Text(t) => Some([t])
    case Hole(v, change, _) =>
      var bound := HoleStrings(v, change, constants, contents, ls);
      if bound == None && metadata then None
      else if bound == None || bound.value == [] then Some(["0"])
      else bound
    case OtherHole => if metadata then None else Some(["0"])
  }

  function JoinedStrings(results: seq<string>, parts: seq<Part>, constants: Constants, contents: Contents, ls: Letters,
                         metadata: bool): Option<seq<string>>
    decreases parts
  {
    if parts == [] then Some(results)
    else
      var one := PartStrings(parts[0], constants, contents, ls, metadata);
      if one == None then None else JoinedStrings(Append(results, one.value), parts[1..], constants, contents, ls, metadata)
  }

  function Values(e: Expr, constants: Constants, contents: Contents, ls: Letters, metadata: bool): Option<seq<string>> {
    match e
    case Str(t) => Some([t])
    case Var(v) => PlaceStrings(VariablePlace(v, constants), constants, contents)
    case Joined(parts) => JoinedStrings([""], parts, constants, contents, ls, metadata)
    case Add(l, r) =>
      var a, b := Values(l, constants, contents, ls, metadata), Values(r, constants, contents, ls, metadata);
      if a == None || b == None then None else Some(Append(a.value, b.value))
    case IfExp(_, t, f) =>
      var a, b := Values(t, constants, contents, ls, metadata), Values(f, constants, contents, ls, metadata);
      if a == None || b == None then None else Some(a.value + b.value)
    case Other => None
  }

  method ComputePlaceholder(p: Part, constants: Constants, contents: Contents, ls: Letters) returns (bound: Option<seq<string>>)
    requires !p.Text?
    ensures bound == if p.Hole? then HoleStrings(p.v, p.change, constants, contents, ls) else None
  {
    if p.OtherHole? {
      return None;
    }
    var place := FindLoopPlace(p.v, constants);
    bound := PlaceStrings(place, constants, contents);
    if bound.Some? {
      bound := Some(ChangedAll(bound.value, p.change, ls));
    }
  }

  method Extend(results: seq<string>, more: seq<string>) returns (r: seq<string>)
    ensures r == Append(results, more)
  {
    r := [];
    for i := 0 to |results|
      invariant Append(results, more) == r + Append(results[i..], more)
    {
      assert results[i..][1..] == results[i + 1..];
      r := r + Prepend(results[i], more);
    }
    assert results[|results|..] == [];
  }

  method ComputeJoined(parts: seq<Part>, constants: Constants, contents: Contents, ls: Letters, metadata: bool)
    returns (r: Option<seq<string>>)
    ensures r == JoinedStrings([""], parts, constants, contents, ls, metadata)
  {
    var results := [""];
    assert parts[0..] == parts;
    for i := 0 to |parts|
      invariant JoinedStrings([""], parts, constants, contents, ls, metadata)
                == JoinedStrings(results, parts[i..], constants, contents, ls, metadata)
    {
      assert parts[i..][1..] == parts[i + 1..];
      if parts[i].Text? {
        results := Extend(results, [parts[i].text]);
        continue;
      }
      var bound := ComputePlaceholder(parts[i], constants, contents, ls);
      if bound == None && metadata {
        return None;
      }
      results := Extend(results, if bound == None || bound.value == [] then ["0"] else bound.value);
    }
    assert parts[|parts|..] == [];
    r := Some(results);
  }

  method ComputeValues(e: Expr, constants: Constants, contents: Contents, ls: Letters, metadata: bool)
    returns (r: Option<seq<string>>)
    ensures r == Values(e, constants, contents, ls, metadata)
  {
    match e
    case Str(t) =>
      r := Some([t]);
    case Var(v) =>
      var p := FindLoopPlace(v, constants);
      if p == None && v.id in constants {
        p := Some(OfConstant(v.id));
      }
      r := PlaceStrings(p, constants, contents);
    case Joined(parts) =>
      r := ComputeJoined(parts, constants, contents, ls, metadata);
    case Add(left, right) =>
      var a := ComputeValues(left, constants, contents, ls, metadata);
      var b := ComputeValues(right, constants, contents, ls, metadata);
      if a == None || b == None {
        return None;
      }
      var both := Extend(a.value, b.value);
      r := Some(both);
    case IfExp(_, body, orelse) =>
      var a := ComputeValues(body, constants, contents, ls, metadata);
      var b := ComputeValues(orelse, constants, contents, ls, metadata);
      r := if a == None || b == None then None else Some(a.value + b.value);
    case Other =>
      r := None;
  }
}
