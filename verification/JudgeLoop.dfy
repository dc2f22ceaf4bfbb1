/** The judge of a directory of obligations
    (scripts/buildcheck_range_obligations.py, `check_dir`): obligations grouped
    by key, a verdict cache kept between runs, batches in several solver
    processes, and a solo run for whatever the batches did not prove.

    How a file gives its body and a body its key is a parameter here
    (RangeJudge fixes it), so this module is about what the judge does with
    them. */
module JudgeLoop {
  import opened PyText
  import opened SeqLaws
  import opened SolverBatch

  /** A file of the directory: its name without the suffix, and its text. */
  datatype File = File(stem: string, text: string)

  /** An obligation that is judged. */
  datatype Item = Item(stem: string, body: string)

  datatype Failure =
    | EmptyDirectory
    | NotAnObligation(stem: string)
    | WrongDigest(stem: string, digest: string)
    | NotProved(stem: string, verdict: string)

  /** The solver as the outside world: what the n-th process prints for a
      batch of queries, and what the n-th solo run prints for one query. */
  datatype Solver = Solver(batch: (nat, seq<string>) -> Session, solo: (nat, string) -> string)

  /** The body of a text, whether its header is known, the digest of a body,
      its cache key, and whether it is an initialization obligation. */
  datatype Rules = Rules(
    body: string -> string,
    known: string -> bool,
    digest: string -> string,
    key: string -> string,
    init: string -> bool)

  function SoloVerdict(out: string): string {
    if Strip(out) == [] then NO_OUTPUT else SplitLines(Strip(out))[0]
  }

  /** Where a query was put: the process, its queries, and which of them it is. */
  datatype Asked = Asked(process: nat, bodies: seq<string>, at: nat)

  predicate Puts(a: Asked, body: string) {
    a.at < |a.bodies| && a.bodies[a.at] == body
  }

  /** A solver's verdicts: on a query of a batch, and of the n-th solo run. */
  datatype Judgement = Judgement(batch: Asked -> string, solo: (nat, string) -> string)

  function JudgementOf(solver: Solver): Judgement {
    Judgement(
      (a: Asked) => if a.at < |a.bodies| then Verdicts(solver.batch(a.process, a.bodies), |a.bodies|)[a.at] else NO_OUTPUT,
      (n: nat, body: string) => SoloVerdict(solver.solo(n, body)))
  }

  type Claim = string -> bool

  /** `unsat` is said only of a query that the claim holds of. */
  ghost predicate Fair(o: Judgement, claim: Claim) {
    && (forall a, body | Puts(a, body) && o.batch(a) == UNSAT :: claim(body))
    && forall n, body | o.solo(n, body) == UNSAT :: claim(body)
  }

  lemma {:induction false} HonestIsFair(solver: Solver, claim: Claim)
    requires Honest(solver, claim)
    ensures Fair(JudgementOf(solver), claim)
  {
  }

  /** The solver answers `unsat`, alone in a batch or as the first line of a
      solo run, only to a query that claim holds of. */
  ghost predicate Honest(solver: Solver, claim: Claim) {
    && (forall n, bodies, i | 0 <= i < |bodies| && Verdicts(solver.batch(n, bodies), |bodies|)[i] == UNSAT :: claim(bodies[i]))
    && forall n, body | SoloVerdict(solver.solo(n, body)) == UNSAT :: claim(body)
  }

  /** Plain bodies with one key share the claim. */
  ghost predicate Sharing(key: string -> string, plain: Claim, claim: Claim) {
    forall b, b' | plain(b) && plain(b') && key(b) == key(b') && claim(b) :: claim(b')
  }

  // ----- Strided chunks -----

  /** `s[i::step]` */
  function Stride<T>(s: seq<T>, i: nat, step: nat): seq<T>
    requires step > 0
    decreases |s| - i
  {
    if i >= |s| then [] else [s[i]] + Stride(s, i + step, step)
  }

  /** The chunks i, i + 1, ..., n of them, in a row. */
  function Joined<T>(chunk: nat -> seq<T>, i: nat, n: nat): seq<T> {
    if n == 0 then [] else Joined(chunk, i, n - 1) + chunk(i + n - 1)
  }

  lemma {:induction false} JoinedFirst<T>(chunk: nat -> seq<T>, i: nat, n: nat)
    requires n > 0
    ensures Joined(chunk, i, n) == chunk(i) + Joined(chunk, i + 1, n - 1)
  {
    if n == 1 {
      Empty(chunk(i));
    } else {
      JoinedFirst(chunk, i, n - 1);
      Assoc(chunk(i), Joined(chunk, i + 1, n - 2), chunk(i + n - 1));
    }
  }

  function Strides<T>(s: seq<T>, step: nat): nat -> seq<T>
    requires step > 0
  {
    (i: nat) => Stride(s, i, step)
  }

  /** `s[i::step]`, `s[i+1::step]`, ..., n of them, in a row. */
  function Gather<T>(s: seq<T>, i: nat, n: nat, step: nat): seq<T>
    requires step > 0
  {
    Joined(Strides(s, step), i, n)
  }

  /** The chunks together hold every element exactly as often as s does. */
  lemma {:induction false} GatherAll<T>(s: seq<T>, i: nat, step: nat)
    requires step > 0 && i <= |s|
    ensures multiset(Gather(s, i, step, step)) == multiset(s[i..])
    decreases |s| - i
  {
    if i == |s| {
      GatherNothing(s, i, step, step);
    } else {
      GatherAll(s, i + 1, step);
      var mid, rest := GatherParts(s, i, step);
      assert s[i..] == [s[i]] + s[i + 1..];
      MovedAcross([s[i]], rest, mid, s[i + 1..]);
    }
  }

  /** The chunks from i and the chunks from i + 1 differ by one element moved. */
  lemma {:induction false} GatherParts<T>(s: seq<T>, i: nat, step: nat) returns (mid: seq<T>, rest: seq<T>)
    requires step > 0 && i < |s|
    ensures Gather(s, i, step, step) == [s[i]] + rest + mid
    ensures Gather(s, i + 1, step, step) == mid + rest
  {
    var chunk := Strides(s, step);
    mid, rest := Joined(chunk, i + 1, step - 1), chunk(i + step);
    JoinedFirst(chunk, i, step);
    assert chunk(i) == [s[i]] + rest;
  }

  lemma {:induction false} MovedAcross<T>(a: seq<T>, b: seq<T>, c: seq<T>, tail: seq<T>)
    requires multiset(c + b) == multiset(tail)
    ensures multiset(a + b + c) == multiset(a + tail)
  {
    assert multiset(a + b + c) == multiset(a) + multiset(c + b);
  }

  lemma {:induction false} GatherNothing<T>(s: seq<T>, i: nat, n: nat, step: nat)
    requires step > 0 && i >= |s|
    ensures Gather(s, i, n, step) == []
  {
    if n > 0 {
      GatherNothing(s, i, n - 1, step);
    }
  }

  // ----- Grouping -----

  predicate Accepted(f: File, rules: Rules) {
    rules.known(f.text) && rules.digest(rules.body(f.text)) == f.stem
  }

  function ItemOf(f: File, rules: Rules): Item {
    Item(f.stem, rules.body(f.text))
  }

  type Groups = map<string, seq<Item>>

  ghost predicate FromFile(it: Item, files: seq<File>, rules: Rules) {
    exists f :: f in files && Accepted(f, rules) && it == ItemOf(f, rules)
  }

  /** `groups.setdefault(key, []).append(item)` */
  function Append(groups: Groups, k: string, it: Item): Groups {
    groups[k := (if k in groups then groups[k] else []) + [it]]
  }

  /** What the report x says of the file f is so. */
  ghost predicate AtFault(f: File, x: Failure, o: Judgement, rules: Rules) {
    match x
    case EmptyDirectory => false
    case NotAnObligation(stem) => f.stem == stem && !rules.known(f.text)
    case WrongDigest(stem, digest) => f.stem == stem && digest == rules.digest(rules.body(f.text)) && digest != stem
    case NotProved(stem, verdict) =>
      f.stem == stem && verdict != UNSAT && exists n :: verdict == o.solo(n, rules.body(f.text))
  }

  /** Every report names a file that is at fault. */
  ghost predicate Genuine(xs: seq<Failure>, files: seq<File>, o: Judgement, rules: Rules) {
    forall x | x in xs :: exists f :: f in files && AtFault(f, x, o, rules)
  }

  lemma {:induction false} GenuineMore(xs: seq<Failure>, x: Failure, f: File, files: seq<File>, o: Judgement, rules: Rules)
    requires Genuine(xs, files, o, rules) && f in files && AtFault(f, x, o, rules)
    ensures Genuine(xs + [x], files, o, rules)
  {
  }

  /** What the first loop says of one file. */
  function Refusal(f: File, rules: Rules): seq<Failure> {
    if !rules.known(f.text) then [NotAnObligation(f.stem)]
    else if rules.digest(rules.body(f.text)) != f.stem then [WrongDigest(f.stem, rules.digest(rules.body(f.text)))]
    else []
  }

  function Refusals(files: seq<File>, rules: Rules): seq<Failure> {
    if files == [] then [] else Refusals(files[..|files| - 1], rules) + Refusal(files[|files| - 1], rules)
  }

  lemma {:induction false} RefusalsNext(files: seq<File>, i: nat, rules: Rules)
    requires i < |files|
    ensures Refusals(files[..i + 1], rules) == Refusals(files[..i], rules) + Refusal(files[i], rules)
  {
    assert files[..i + 1][..i] == files[..i];
  }

  /** Nothing is refused exactly when every file is accepted. */
  lemma {:induction false} NoRefusalIff(files: seq<File>, rules: Rules)
    ensures Refusals(files, rules) == [] <==> forall i | 0 <= i < |files| :: Accepted(files[i], rules)
  {
    if files != [] {
      NoRefusalIff(files[..|files| - 1], rules);
      assert Refusal(files[|files| - 1], rules) == [] <==> Accepted(files[|files| - 1], rules);
    }
  }

  lemma {:induction false} RefusalsGenuine(files: seq<File>, i: nat, o: Judgement, rules: Rules)
    requires i <= |files|
    ensures Genuine(Refusals(files[..i], rules), files, o, rules)
  {
    if i > 0 {
      RefusalsGenuine(files, i - 1, o, rules);
      RefusalsNext(files, i - 1, rules);
      var f := files[i - 1];
      if Refusal(f, rules) != [] {
        GenuineMore(Refusals(files[..i - 1], rules), Refusal(f, rules)[0], f, files, o, rules);
      }
    }
  }

  predicate HasKey(f: File, k: string, rules: Rules) {
    Accepted(f, rules) && rules.key(rules.body(f.text)) == k
  }

  /** The items of the accepted files whose key is among these, in order. */
  function ItemsOf(files: seq<File>, ks: set<string>, rules: Rules): seq<Item> {
    if files == [] then []
    else
      var f := files[|files| - 1];
      ItemsOf(files[..|files| - 1], ks, rules)
      + if Accepted(f, rules) && rules.key(rules.body(f.text)) in ks then [ItemOf(f, rules)] else []
  }

  lemma {:induction false} ItemsNext(files: seq<File>, i: nat, ks: set<string>, rules: Rules)
    requires i < |files|
    ensures ItemsOf(files[..i + 1], ks, rules)
         == ItemsOf(files[..i], ks, rules)
            + if Accepted(files[i], rules) && rules.key(rules.body(files[i].text)) in ks then [ItemOf(files[i], rules)] else []
  {
    assert files[..i + 1][..i] == files[..i];
  }

  lemma {:induction false} ItemsAre(files: seq<File>, ks: set<string>, rules: Rules, it: Item)
    ensures it in ItemsOf(files, ks, rules)
            <==> exists i :: 0 <= i < |files| && Accepted(files[i], rules) && rules.key(rules.body(files[i].text)) in ks
                             && it == ItemOf(files[i], rules)
  {
    if files != [] {
      var n := |files| - 1;
      ItemsAre(files[..n], ks, rules, it);
      assert forall i | 0 <= i < n :: files[..n][i] == files[i];
    }
  }

  /** The items of two sets of keys together. */
  lemma {:induction false} ItemsMore(files: seq<File>, ks: set<string>, k: string, rules: Rules)
    requires k !in ks
    ensures multiset(ItemsOf(files, ks + {k}, rules)) == multiset(ItemsOf(files, ks, rules)) + multiset(ItemsOf(files, {k}, rules))
  {
    if files != [] {
      ItemsMore(files[..|files| - 1], ks, k, rules);
    }
  }

  /** The keys of the accepted files. */
  ghost function KeysOf(files: seq<File>, rules: Rules): set<string> {
    set i | 0 <= i < |files| && Accepted(files[i], rules) :: rules.key(rules.body(files[i].text))
  }

  /** Every group is all the items of its key. */
  ghost predicate GroupsExact(groups: Groups, files: seq<File>, rules: Rules) {
    groups.Keys == KeysOf(files, rules) && forall k | k in groups :: groups[k] == ItemsOf(files, {k}, rules)
  }

  lemma {:induction false} GroupNext(groups: Groups, files: seq<File>, i: nat, rules: Rules)
    requires i < |files| && Accepted(files[i], rules) && GroupsExact(groups, files[..i], rules)
    ensures GroupsExact(Append(groups, rules.key(rules.body(files[i].text)), ItemOf(files[i], rules)), files[..i + 1], rules)
  {
    var key := rules.key(rules.body(files[i].text));
    var groups' := Append(groups, key, ItemOf(files[i], rules));
    assert forall j | 0 <= j < i :: files[..i][j] == files[j] == files[..i + 1][j];
    forall k | k in groups'
      ensures groups'[k] == ItemsOf(files[..i + 1], {k}, rules)
    {
      ItemsNext(files, i, {k}, rules);
      if k !in groups {
        NoItems(files[..i], k, rules);
      }
    }
    assert KeysOf(files[..i + 1], rules) == KeysOf(files[..i], rules) + {key} by {
      assert files[..i + 1][i] == files[i];
    }
  }

  lemma {:induction false} NoItems(files: seq<File>, k: string, rules: Rules)
    requires k !in KeysOf(files, rules)
    ensures ItemsOf(files, {k}, rules) == []
  {
    if files != [] {
      var n := |files| - 1;
      assert forall i | 0 <= i < n :: files[..n][i] == files[i];
      NoItems(files[..n], k, rules);
    }
  }

  lemma {:induction false} GroupSkip(groups: Groups, files: seq<File>, i: nat, rules: Rules)
    requires i < |files| && !Accepted(files[i], rules) && GroupsExact(groups, files[..i], rules)
    ensures GroupsExact(groups, files[..i + 1], rules)
  {
    assert forall j | 0 <= j < i :: files[..i][j] == files[j] == files[..i + 1][j];
    forall k | k in groups
      ensures groups[k] == ItemsOf(files[..i + 1], {k}, rules)
    {
      ItemsNext(files, i, {k}, rules);
    }
    assert KeysOf(files[..i + 1], rules) == KeysOf(files[..i], rules);
  }

  predicate NoDuplicates(keys: seq<string>) {
    forall i, j | 0 <= i < j < |keys| :: keys[i] != keys[j]
  }

  /** The first loop: refuse what is no obligation, group the rest by key. */
  method Group(files: seq<File>, rules: Rules) returns (failures: seq<Failure>, keys: seq<string>, groups: Groups)
    ensures failures == Refusals(files, rules)
    ensures GroupsExact(groups, files, rules)
    ensures NoDuplicates(keys) && groups.Keys == set k | k in keys
  {
    failures, keys, groups := [], [], map[];
    for i := 0 to |files|
      invariant failures == Refusals(files[..i], rules)
      invariant GroupsExact(groups, files[..i], rules)
      invariant NoDuplicates(keys) && groups.Keys == set k | k in keys
    {
      RefusalsNext(files, i, rules);
      var f := files[i];
      var body := rules.body(f.text);
      var digest := rules.digest(body);
      if !rules.known(f.text) {
        GroupSkip(groups, files, i, rules);
        failures := failures + [NotAnObligation(f.stem)];
        continue;
      }
      if digest != f.stem {
        GroupSkip(groups, files, i, rules);
        failures := failures + [WrongDigest(f.stem, digest)];
        continue;
      }
      GroupNext(groups, files, i, rules);
      var key := rules.key(body);
      if key !in groups {
        keys := keys + [key];
      }
      groups := Append(groups, key, Item(f.stem, body));
    }
    assert files[..|files|] == files;
  }

  // ----- Batches -----

  /** A group to solve: its key and its first member's body. */
  datatype Todo = Todo(key: string, body: string)

  function Bodies(todo: seq<Todo>): (bs: seq<string>)
    ensures |bs| == |todo| && forall i | 0 <= i < |todo| :: bs[i] == todo[i].body
  {
    seq(|todo|, i requires 0 <= i < |todo| => todo[i].body)
  }

  /** `zip(chunk, verdicts)` */
  function Zip(todo: seq<Todo>, verdicts: seq<string>): (r: seq<(Todo, string)>)
    requires |todo| == |verdicts|
    ensures |r| == |todo| && forall i | 0 <= i < |r| :: r[i] == (todo[i], verdicts[i])
  {
    seq(|todo|, i requires 0 <= i < |todo| => (todo[i], verdicts[i]))
  }

  function Firsts(solved: seq<(Todo, string)>): (r: seq<Todo>)
    ensures |r| == |solved| && forall i | 0 <= i < |r| :: r[i] == solved[i].0
  {
    seq(|solved|, i requires 0 <= i < |solved| => solved[i].0)
  }

  /** Every task was put to a process and has its verdict; initialization
      obligations, and only they, to the first. */
  ghost predicate Answered(solved: seq<(Todo, string)>, asks: seq<Asked>, o: Judgement, init: string -> bool) {
    && |asks| == |solved|
    && forall i | 0 <= i < |solved| ::
         && Puts(asks[i], solved[i].0.body) && solved[i].1 == o.batch(asks[i])
         && (asks[i].process == 0 <==> init(solved[i].0.body))
  }

  /** `run_chunk`, in the n-th process. */
  method RunChunk(n: nat, chunk: seq<Todo>, solver: Solver, ghost init: string -> bool)
    returns (solved: seq<(Todo, string)>, ghost asks: seq<Asked>)
    requires forall t | t in chunk :: n == 0 <==> init(t.body)
    ensures Firsts(solved) == chunk && Answered(solved, asks, JudgementOf(solver), init)
  {
    var bodies := Bodies(chunk);
    var verdicts := BatchSolve(bodies, solver.batch(n, bodies));
    solved := Zip(chunk, verdicts);
    asks := seq(|chunk|, i requires 0 <= i < |chunk| => Asked(n, bodies, i));
    assert forall i | 0 <= i < |chunk| :: chunk[i] in chunk;
  }

  function Select(todo: seq<Todo>, init: string -> bool, want: bool): seq<Todo> {
    if todo == [] then []
    else (if init(todo[0].body) == want then [todo[0]] else []) + Select(todo[1..], init, want)
  }

  lemma {:induction false} SelectAll(todo: seq<Todo>, init: string -> bool)
    ensures multiset(Select(todo, init, true)) + multiset(Select(todo, init, false)) == multiset(todo)
  {
    if todo != [] {
      SelectAll(todo[1..], init);
      assert todo == [todo[0]] + todo[1..];
    }
  }

  function Workers(cpus: nat, tasks: nat): (w: nat)
    ensures 1 <= w <= 8
  {
    var few := if cpus == 0 then 1 else if cpus < 8 then cpus else 8;
    if tasks == 0 then 1 else if tasks < few then tasks else few
  }

  lemma {:induction false} SelectOnly(todo: seq<Todo>, init: string -> bool, want: bool)
    ensures forall t | t in Select(todo, init, want) :: init(t.body) == want
  {
    if todo != [] {
      SelectOnly(todo[1..], init, want);
    }
  }

  lemma {:induction false} StrideOnly<T>(s: seq<T>, i: nat, step: nat)
    requires step > 0
    ensures forall x | x in Stride(s, i, step) :: x in s
    decreases |s| - i
  {
    if i < |s| {
      StrideOnly(s, i + step, step);
    }
  }

  lemma {:induction false} Together(a: seq<(Todo, string)>, x: seq<Asked>, b: seq<(Todo, string)>, y: seq<Asked>, o: Judgement,
                                    init: string -> bool)
    requires Answered(a, x, o, init) && Answered(b, y, o, init)
    ensures Answered(a + b, x + y, o, init) && Firsts(a + b) == Firsts(a) + Firsts(b)
  {
  }

  lemma {:induction false} GatherNext<T>(s: seq<T>, i: nat, step: nat)
    requires step > 0
    ensures Gather(s, 0, i + 1, step) == Gather(s, 0, i, step) + Stride(s, i, step)
  {
  }

  /** The strided chunks, one process each. */
  method SolveChunks(todo: seq<Todo>, workers: nat, solver: Solver, ghost init: string -> bool)
    returns (solved: seq<(Todo, string)>, ghost asks: seq<Asked>)
    requires workers > 0 && forall t | t in todo :: !init(t.body)
    ensures Firsts(solved) == Gather(todo, 0, workers, workers) && Answered(solved, asks, JudgementOf(solver), init)
  {
    solved, asks := [], [];
    for i := 0 to workers
      invariant Firsts(solved) == Gather(todo, 0, i, workers)
      invariant Answered(solved, asks, JudgementOf(solver), init)
    {
      var chunk := Stride(todo, i, workers);
      GatherNext(todo, i, workers);
      if chunk == [] {
        Empty(Gather(todo, 0, i, workers));
      } else {
        StrideOnly(todo, i, workers);
        ghost var more;
        var pairs;
        pairs, more := RunChunk(1 + i, chunk, solver, init);
        Together(solved, asks, pairs, more, JudgementOf(solver), init);
        solved, asks := solved + pairs, asks + more;
      }
    }
  }

  /** Initialization obligations in one process, the rest in strided chunks:
      every group is solved once, none is lost. */
  method SolveAll(todo: seq<Todo>, rules: Rules, solver: Solver, cpus: nat)
    returns (solved: seq<(Todo, string)>, ghost asks: seq<Asked>)
    ensures multiset(Firsts(solved)) == multiset(todo) && Answered(solved, asks, JudgementOf(solver), rules.init)
  {
    var initTodo, rangeTodo := Select(todo, rules.init, true), Select(todo, rules.init, false);
    SelectOnly(todo, rules.init, true);
    SelectOnly(todo, rules.init, false);
    solved, asks := [], [];
    if initTodo != [] {
      solved, asks := RunChunk(0, initTodo, solver, rules.init);
    }
    assert Firsts(solved) == initTodo;
    var workers := Workers(cpus, |rangeTodo|);
    ghost var more;
    var pairs;
    pairs, more := SolveChunks(rangeTodo, workers, solver, rules.init);
    Together(solved, asks, pairs, more, JudgementOf(solver), rules.init);
    solved, asks := solved + pairs, asks + more;
    GatherAll(rangeTodo, 0, workers);
    assert rangeTodo[0..] == rangeTodo;
    SelectAll(todo, rules.init);
  }

  // ----- The solo runs -----

  /** What the solo runs of the first n items report. */
  function SoloReports(items: seq<Item>, o: Judgement, n: nat): seq<Failure>
    requires n <= |items|
  {
    if n == 0 then []
    else
      var it := items[n - 1];
      var verdict := o.solo(n - 1, it.body);
      SoloReports(items, o, n - 1) + if verdict == UNSAT then [] else [NotProved(it.stem, verdict)]
  }

  /** The last loop: each item alone; what is not `unsat` is reported. */
  method Retry(items: seq<Item>, solver: Solver) returns (failures: seq<Failure>)
    ensures failures == SoloReports(items, JudgementOf(solver), |items|)
  {
    failures := [];
    for i := 0 to |items|
      invariant failures == SoloReports(items, JudgementOf(solver), i)
    {
      var verdict := SoloVerdict(solver.solo(i, items[i].body));
      if verdict == UNSAT {
        continue;
      }
      failures := failures + [NotProved(items[i].stem, verdict)];
    }
  }

  lemma {:induction false} NoSoloReportIff(items: seq<Item>, o: Judgement, n: nat)
    requires n <= |items|
    ensures SoloReports(items, o, n) == []
            <==> forall i | 0 <= i < n :: o.solo(i, items[i].body) == UNSAT
  {
    if n > 0 {
      NoSoloReportIff(items, o, n - 1);
    }
  }

  lemma {:induction false} SoloReportsGenuine(items: seq<Item>, n: nat, files: seq<File>, o: Judgement, rules: Rules)
    requires n <= |items| && forall it | it in items :: FromFile(it, files, rules)
    ensures Genuine(SoloReports(items, o, n), files, o, rules)
  {
    if n > 0 {
      SoloReportsGenuine(items, n - 1, files, o, rules);
      var verdict := o.solo(n - 1, items[n - 1].body);
      if verdict != UNSAT {
        assert FromFile(items[n - 1], files, rules);
        var f :| f in files && Accepted(f, rules) && items[n - 1] == ItemOf(f, rules);
        GenuineMore(SoloReports(items, o, n - 1), NotProved(items[n - 1].stem, verdict), f, files, o, rules);
      }
    }
  }

  // ----- The judge and its cache -----

  /** A key of a plain body that the claim holds of. */
  ghost predicate Backed(k: string, rules: Rules, plain: Claim, claim: Claim) {
    exists b :: plain(b) && claim(b) && rules.key(b) == k
  }

  /** A key that is backed decides every plain body that has it. */
  lemma {:induction false} BackedDecides(b: string, rules: Rules, plain: Claim, claim: Claim)
    requires Sharing(rules.key, plain, claim) && Backed(rules.key(b), rules, plain, claim) && plain(b)
    ensures claim(b)
  {
  }

  /** A file of the directory has key k. */
  ghost predicate FileKey(k: string, files: seq<File>, rules: Rules) {
    exists f :: f in files && rules.key(rules.body(f.text)) == k
  }

  ghost predicate AllPlain(files: seq<File>, rules: Rules, plain: Claim) {
    forall i | 0 <= i < |files| :: plain(rules.body(files[i].text))
  }

  function Task(k: string, groups: Groups): Todo
    requires k in groups && groups[k] != []
  {
    Todo(k, groups[k][0].body)
  }

  /** A task is that of its own key. */
  predicate IsTask(t: Todo, groups: Groups) {
    t.key in groups && groups[t.key] != [] && t == Task(t.key, groups)
  }

  /** One task for each key, and no others. */
  ghost predicate TasksOf(todo: seq<Todo>, groups: Groups, ks: set<string>) {
    && (forall i | 0 <= i < |todo| :: IsTask(todo[i], groups) && todo[i].key in ks)
    && (forall i, j | 0 <= i < j < |todo| :: todo[i].key != todo[j].key)
    && forall k | k in ks :: exists i :: 0 <= i < |todo| && todo[i].key == k
  }

  lemma {:induction false} TaskNext(todo: seq<Todo>, groups: Groups, ks: set<string>, k: string)
    requires TasksOf(todo, groups, ks) && k !in ks && k in groups && groups[k] != []
    ensures TasksOf(todo + [Task(k, groups)], groups, ks + {k})
  {
    var longer := todo + [Task(k, groups)];
    assert longer[|todo|].key == k;
    forall m | m in ks
      ensures exists i :: 0 <= i < |longer| && longer[i].key == m
    {
      var i :| 0 <= i < |todo| && todo[i].key == m;
      assert longer[i].key == m;
    }
  }

  /** The groups whose key is not cached. */
  method Pending(keys: seq<string>, groups: Groups, cached: set<string>) returns (todo: seq<Todo>)
    requires (forall k | k in groups :: groups[k] != []) && NoDuplicates(keys) && groups.Keys == set k | k in keys
    ensures TasksOf(todo, groups, groups.Keys - cached)
  {
    todo := [];
    ghost var seen: set<string> := {};
    for i := 0 to |keys|
      invariant seen == set j | 0 <= j < i :: keys[j]
      invariant TasksOf(todo, groups, seen - cached)
    {
      assert keys[i] in groups && keys[i] !in seen;
      if keys[i] in cached {
        assert seen + {keys[i]} - cached == seen - cached;
      } else {
        TaskNext(todo, groups, seen - cached, keys[i]);
        assert seen + {keys[i]} - cached == (seen - cached) + {keys[i]};
        todo := todo + [Task(keys[i], groups)];
      }
      seen := seen + {keys[i]};
    }
    assert seen == groups.Keys;
  }

  /** Tasks solved in any order are still one for each key. */
  lemma {:induction false} SolvedTasks(solved: seq<(Todo, string)>, todo: seq<Todo>, groups: Groups, ks: set<string>)
    requires multiset(Firsts(solved)) == multiset(todo) && TasksOf(todo, groups, ks)
    ensures TasksOf(Firsts(solved), groups, ks)
  {
    var q := Firsts(solved);
    forall i | 0 <= i < |q|
      ensures q[i] in todo
    {
      assert q[i] in multiset(q);
    }
    forall i, j | 0 <= i < j < |q|
      ensures q[i].key != q[j].key
    {
      if q[i].key == q[j].key {
        TwiceCounted(q, i, j);
        OnceCounted(todo, q[i]);
      }
    }
    forall k | k in ks
      ensures exists i :: 0 <= i < |q| && q[i].key == k
    {
      var a :| 0 <= a < |todo| && todo[a].key == k;
      assert todo[a] in multiset(todo);
      assert todo[a] in q;
    }
  }

  lemma {:induction false} TwiceCounted(q: seq<Todo>, i: nat, j: nat)
    requires i < j < |q| && q[i] == q[j]
    ensures multiset(q)[q[i]] >= 2
  {
    assert q == q[..j] + q[j..];
    assert q[i] == q[..j][i] && q[j] == q[j..][0];
    assert q[i] in multiset(q[..j]) && q[i] in multiset(q[j..]);
  }

  lemma {:induction false} OnceCounted(todo: seq<Todo>, t: Todo)
    requires forall i, j | 0 <= i < j < |todo| :: todo[i].key != todo[j].key
    ensures multiset(todo)[t] <= 1
  {
    if todo != [] {
      var n := |todo| - 1;
      OnceCounted(todo[..n], t);
      assert todo == todo[..n] + [todo[n]];
      if t == todo[n] {
        assert t !in todo[..n];
      }
    }
  }

  /** The keys of the first n tasks with a verdict `unsat`, or with another. */
  ghost function Settled(solved: seq<(Todo, string)>, n: nat, unsat: bool): set<string>
    requires n <= |solved|
  {
    if n == 0 then {}
    else Settled(solved, n - 1, unsat) + if (solved[n - 1].1 == UNSAT) == unsat then {solved[n - 1].0.key} else {}
  }

  lemma {:induction false} SettledIs(solved: seq<(Todo, string)>, n: nat, unsat: bool, k: string)
    requires n <= |solved|
    ensures k in Settled(solved, n, unsat) <==> exists i :: 0 <= i < n && (solved[i].1 == UNSAT) == unsat && solved[i].0.key == k
  {
    if n > 0 {
      SettledIs(solved, n - 1, unsat, k);
    }
  }

  /** The members of the groups without `unsat`, in order. */
  function Unsettled(solved: seq<(Todo, string)>, groups: Groups, n: nat): seq<Item>
    requires n <= |solved| && forall i | 0 <= i < |solved| :: solved[i].0.key in groups
  {
    if n == 0 then []
    else Unsettled(solved, groups, n - 1) + if solved[n - 1].1 == UNSAT then [] else groups[solved[n - 1].0.key]
  }

  lemma {:induction false} SolvedInGroups(solved: seq<(Todo, string)>, groups: Groups, ks: set<string>)
    requires TasksOf(Firsts(solved), groups, ks)
    ensures forall i | 0 <= i < |solved| :: solved[i].0.key in groups
  {
    forall i | 0 <= i < |solved|
      ensures solved[i].0.key in groups
    {
      assert IsTask(Firsts(solved)[i], groups);
    }
  }

  lemma {:induction false} NotSettledBefore(solved: seq<(Todo, string)>, groups: Groups, ks: set<string>, n: nat)
    requires TasksOf(Firsts(solved), groups, ks) && n < |solved|
    ensures solved[n].0.key !in Settled(solved, n, false)
  {
    var q := Firsts(solved);
    SettledIs(solved, n, false, q[n].key);
    assert forall i | 0 <= i < n :: q[i].key != q[n].key && solved[i].0 == q[i];
  }

  /** One more group of items. */
  lemma {:induction false} ItemsJoin(items: seq<Item>, more: seq<Item>, files: seq<File>, ks: set<string>, k: string, rules: Rules)
    requires multiset(items) == multiset(ItemsOf(files, ks, rules)) && more == ItemsOf(files, {k}, rules) && k !in ks
    ensures multiset(items + more) == multiset(ItemsOf(files, ks + {k}, rules))
  {
    ItemsMore(files, ks, k, rules);
  }

  lemma {:induction false} UnsettledStep(solved: seq<(Todo, string)>, groups: Groups, n: nat, files: seq<File>, rules: Rules)
    requires 0 < n <= |solved| && forall i | 0 <= i < |solved| :: solved[i].0.key in groups
    requires multiset(Unsettled(solved, groups, n - 1)) == multiset(ItemsOf(files, Settled(solved, n - 1, false), rules))
    requires solved[n - 1].0.key !in Settled(solved, n - 1, false)
    requires groups[solved[n - 1].0.key] == ItemsOf(files, {solved[n - 1].0.key}, rules)
    ensures multiset(Unsettled(solved, groups, n)) == multiset(ItemsOf(files, Settled(solved, n, false), rules))
  {
    var k, before, items := solved[n - 1].0.key, Settled(solved, n - 1, false), Unsettled(solved, groups, n - 1);
    if solved[n - 1].1 == UNSAT {
      assert Settled(solved, n, false) == before;
      Empty(items);
    } else {
      ItemsJoin(items, groups[k], files, before, k, rules);
      assert Settled(solved, n, false) == before + {k};
      assert Unsettled(solved, groups, n) == items + groups[k];
    }
  }

  /** They are the items of the files with those keys. */
  lemma {:induction false} UnsettledItems(solved: seq<(Todo, string)>, groups: Groups, ks: set<string>, n: nat, files: seq<File>,
                                          rules: Rules)
    requires n <= |solved| && GroupsExact(groups, files, rules) && TasksOf(Firsts(solved), groups, ks)
    requires forall i | 0 <= i < |solved| :: solved[i].0.key in groups
    ensures multiset(Unsettled(solved, groups, n)) == multiset(ItemsOf(files, Settled(solved, n, false), rules))
  {
    if n == 0 {
      NothingKeyed(files, rules);
    } else {
      UnsettledItems(solved, groups, ks, n - 1, files, rules);
      NotSettledBefore(solved, groups, ks, n - 1);
      UnsettledStep(solved, groups, n, files, rules);
    }
  }

  lemma {:induction false} NothingKeyed(files: seq<File>, rules: Rules)
    ensures ItemsOf(files, {}, rules) == []
  {
    if files != [] {
      NothingKeyed(files[..|files| - 1], rules);
    }
  }

  /** The first accepted file with the key. */
  ghost predicate IsFirst(files: seq<File>, i: nat, k: string, rules: Rules) {
    i < |files| && HasKey(files[i], k, rules) && forall j | 0 <= j < i :: !HasKey(files[j], k, rules)
  }

  lemma {:induction false} FirstItem(files: seq<File>, k: string, rules: Rules) returns (i: nat)
    requires k in KeysOf(files, rules)
    ensures IsFirst(files, i, k, rules)
    ensures ItemsOf(files, {k}, rules) != [] && ItemsOf(files, {k}, rules)[0] == ItemOf(files[i], rules)
  {
    var n := |files| - 1;
    assert forall j | 0 <= j < n :: files[..n][j] == files[j];
    if k in KeysOf(files[..n], rules) {
      i := FirstItem(files[..n], k, rules);
    } else {
      NoItems(files[..n], k, rules);
      i := n;
    }
  }

  // ----- One run over the directory -----

  /** What a run did with the files: which keys it asked about and where, what
      it tried again alone, and what it reported. */
  datatype Trace = Trace(asked: map<string, Asked>, retried: seq<Item>)

  /** A key was put to one process as the body of its first file. */
  ghost predicate AskedRight(files: seq<File>, k: string, a: Asked, rules: Rules) {
    exists i: nat :: IsFirst(files, i, k, rules) && Puts(a, rules.body(files[i].text)) && (a.process == 0 <==> rules.init(rules.body(files[i].text)))
  }

  /** The keys whose batch verdict is `unsat`, or is another. */
  ghost function Verdicted(asked: map<string, Asked>, o: Judgement, unsat: bool): set<string>
  {
    set k | k in asked && (o.batch(asked[k]) == UNSAT) == unsat
  }

  /** The keys asked about are those of the accepted files that were not
      cached; every file without a batch verdict `unsat` is tried alone; the
      report is what was refused and what was not proved alone. */
  ghost predicate IsRun(files: seq<File>, cached: set<string>, o: Judgement, rules: Rules, t: Trace, failures: seq<Failure>) {
    && t.asked.Keys == KeysOf(files, rules) - cached
    && (forall k | k in t.asked :: AskedRight(files, k, t.asked[k], rules))
    && multiset(t.retried) == multiset(ItemsOf(files, Verdicted(t.asked, o, false), rules))
    && failures == Refusals(files, rules) + SoloReports(t.retried, o, |t.retried|)
  }

  /** A file that a run does not report. */
  ghost predicate Passes(f: File, cached: set<string>, o: Judgement, rules: Rules, t: Trace) {
    var k := rules.key(rules.body(f.text));
    && Accepted(f, rules)
    && (|| k in cached
        || (k in t.asked && o.batch(t.asked[k]) == UNSAT)
        || forall n | 0 <= n < |t.retried| && t.retried[n] == ItemOf(f, rules) ::
             o.solo(n, rules.body(f.text)) == UNSAT)
  }

  /** A run reports nothing exactly when every file is accepted and has its key
      cached, or a batch verdict `unsat`, or a solo verdict `unsat`. */
  lemma {:induction false} NoReportIff(files: seq<File>, cached: set<string>, o: Judgement, rules: Rules, t: Trace,
                                       failures: seq<Failure>)
    requires IsRun(files, cached, o, rules, t, failures)
    ensures failures == [] <==> forall i | 0 <= i < |files| :: Passes(files[i], cached, o, rules, t)
  {
    NoRefusalIff(files, rules);
    NoSoloReportIff(t.retried, o, |t.retried|);
    if failures == [] {
      forall i | 0 <= i < |files|
        ensures Passes(files[i], cached, o, rules, t)
      {
        assert Accepted(files[i], rules);
      }
    }
    if forall i | 0 <= i < |files| :: Passes(files[i], cached, o, rules, t) {
      forall n | 0 <= n < |t.retried|
        ensures o.solo(n, t.retried[n].body) == UNSAT
      {
        var i := RetriedFile(files, cached, o, rules, t, failures, n);
        assert Passes(files[i], cached, o, rules, t);
      }
    }
  }

  /** What is tried alone is a file without cached key and without batch verdict `unsat`. */
  lemma {:induction false} RetriedFile(files: seq<File>, cached: set<string>, o: Judgement, rules: Rules, t: Trace,
                                       failures: seq<Failure>, n: nat) returns (i: nat)
    requires IsRun(files, cached, o, rules, t, failures) && n < |t.retried|
    ensures i < |files| && Accepted(files[i], rules) && t.retried[n] == ItemOf(files[i], rules)
    ensures rules.key(rules.body(files[i].text)) in Verdicted(t.asked, o, false)
  {
    var ks := Verdicted(t.asked, o, false);
    assert t.retried[n] in multiset(t.retried);
    assert t.retried[n] in ItemsOf(files, ks, rules);
    ItemsAre(files, ks, rules, t.retried[n]);
    i :| 0 <= i < |files| && Accepted(files[i], rules) && rules.key(rules.body(files[i].text)) in ks
         && t.retried[n] == ItemOf(files[i], rules);
  }

  lemma {:induction false} RunGenuine(files: seq<File>, cached: set<string>, o: Judgement, rules: Rules, t: Trace,
                                      failures: seq<Failure>)
    requires IsRun(files, cached, o, rules, t, failures)
    ensures Genuine(failures, files, o, rules)
  {
    assert files[..|files|] == files;
    RefusalsGenuine(files, |files|, o, rules);
    forall it | it in t.retried
      ensures FromFile(it, files, rules)
    {
      var n :| 0 <= n < |t.retried| && t.retried[n] == it;
      var i := RetriedFile(files, cached, o, rules, t, failures, n);
    }
    SoloReportsGenuine(t.retried, |t.retried|, files, o, rules);
  }

  /** A batch verdict `unsat` backs its key. */
  lemma {:induction false} AskedBacks(files: seq<File>, cached: set<string>, o: Judgement, rules: Rules, t: Trace,
                                      failures: seq<Failure>, k: string, plain: Claim, claim: Claim)
    requires IsRun(files, cached, o, rules, t, failures) && Fair(o, claim) && AllPlain(files, rules, plain)
    requires k in t.asked && o.batch(t.asked[k]) == UNSAT
    ensures Backed(k, rules, plain, claim) && FileKey(k, files, rules)
  {
    var a := t.asked[k];
    assert AskedRight(files, k, a, rules);
    var i: nat :| IsFirst(files, i, k, rules) && Puts(a, rules.body(files[i].text));
    assert claim(a.bodies[a.at]);
  }

  /** Without a report the claim holds of every file. */
  lemma {:induction false} PassedHolds(files: seq<File>, cached: set<string>, o: Judgement, rules: Rules, t: Trace,
                                       failures: seq<Failure>, i: nat, plain: Claim, claim: Claim)
    requires IsRun(files, cached, o, rules, t, failures) && Fair(o, claim) && AllPlain(files, rules, plain)
    requires Sharing(rules.key, plain, claim) && (forall k | k in cached :: Backed(k, rules, plain, claim))
    requires failures == [] && i < |files|
    ensures claim(rules.body(files[i].text))
  {
    var body := rules.body(files[i].text);
    var k := rules.key(body);
    NoReportIff(files, cached, o, rules, t, failures);
    assert Passes(files[i], cached, o, rules, t);
    assert plain(body);
    assert k in KeysOf(files, rules);
    if k in cached {
      BackedDecides(body, rules, plain, claim);
    } else if o.batch(t.asked[k]) == UNSAT {
      AskedBacks(files, cached, o, rules, t, failures, k, plain, claim);
      BackedDecides(body, rules, plain, claim);
    } else {
      SoloHolds(files, cached, o, rules, t, failures, i, claim);
    }
  }

  lemma {:induction false} SoloHolds(files: seq<File>, cached: set<string>, o: Judgement, rules: Rules, t: Trace,
                                     failures: seq<Failure>, i: nat, claim: Claim)
    requires IsRun(files, cached, o, rules, t, failures) && Fair(o, claim)
    requires i < |files| && Passes(files[i], cached, o, rules, t)
    requires rules.key(rules.body(files[i].text)) !in cached
    requires rules.key(rules.body(files[i].text)) in Verdicted(t.asked, o, false)
    ensures claim(rules.body(files[i].text))
  {
    var it, ks := ItemOf(files[i], rules), Verdicted(t.asked, o, false);
    ItemsAre(files, ks, rules, it);
    assert it in multiset(ItemsOf(files, ks, rules));
    assert it in t.retried;
    var n :| 0 <= n < |t.retried| && t.retried[n] == it;
    assert o.solo(n, it.body) == UNSAT;
  }

  /** Every key asked about is the key of a task. */
  ghost predicate AskedFor(asked: map<string, Asked>, solved: seq<(Todo, string)>, asks: seq<Asked>, ks: set<string>)
    requires |asks| == |solved|
  {
    && asked.Keys == ks
    && (forall k | k in ks :: exists i :: 0 <= i < |solved| && solved[i].0.key == k && asked[k] == asks[i])
    && forall i | 0 <= i < |solved| :: solved[i].0.key in asked && asked[solved[i].0.key] == asks[i]
  }

  lemma {:induction false} KeyAskedRight(files: seq<File>, rules: Rules, groups: Groups, t: Todo, a: Asked)
    requires GroupsExact(groups, files, rules) && IsTask(t, groups)
    requires Puts(a, t.body) && (a.process == 0 <==> rules.init(t.body))
    ensures AskedRight(files, t.key, a, rules)
  {
    var j := FirstItem(files, t.key, rules);
  }

  lemma {:induction false} AllAskedRight(files: seq<File>, o: Judgement, rules: Rules, groups: Groups, ks: set<string>,
                                         solved: seq<(Todo, string)>, asks: seq<Asked>, asked: map<string, Asked>)
    requires GroupsExact(groups, files, rules) && Answered(solved, asks, o, rules.init)
    requires TasksOf(Firsts(solved), groups, ks) && AskedFor(asked, solved, asks, ks)
    ensures forall k | k in asked :: AskedRight(files, k, asked[k], rules)
  {
    forall k | k in asked
      ensures AskedRight(files, k, asked[k], rules)
    {
      var i :| 0 <= i < |solved| && solved[i].0.key == k && asked[k] == asks[i];
      assert IsTask(Firsts(solved)[i], groups);
      KeyAskedRight(files, rules, groups, solved[i].0, asks[i]);
    }
  }

  lemma {:induction false} VerdictedSettled(o: Judgement, init: string -> bool, ks: set<string>, solved: seq<(Todo, string)>,
                                            asks: seq<Asked>, asked: map<string, Asked>, unsat: bool)
    requires Answered(solved, asks, o, init) && AskedFor(asked, solved, asks, ks)
    ensures Verdicted(asked, o, unsat) == Settled(solved, |solved|, unsat)
  {
    forall k
      ensures k in Verdicted(asked, o, unsat) <==> k in Settled(solved, |solved|, unsat)
    {
      SettledIs(solved, |solved|, unsat, k);
      if k in Verdicted(asked, o, unsat) {
        var i :| 0 <= i < |solved| && solved[i].0.key == k && asked[k] == asks[i];
        assert solved[i].1 == o.batch(asks[i]);
      }
      if k in Settled(solved, |solved|, unsat) {
        var i :| 0 <= i < |solved| && (solved[i].1 == UNSAT) == unsat && solved[i].0.key == k;
        assert solved[i].1 == o.batch(asks[i]);
      }
    }
  }

  /** The trace of a run, from what it solved. */
  lemma {:induction false} TraceOf(files: seq<File>, cached: set<string>, o: Judgement, rules: Rules, groups: Groups,
                                   solved: seq<(Todo, string)>, asks: seq<Asked>, retry: seq<Item>, failures: seq<Failure>)
    returns (t: Trace)
    requires GroupsExact(groups, files, rules) && Answered(solved, asks, o, rules.init)
    requires TasksOf(Firsts(solved), groups, groups.Keys - cached)
    requires (forall i | 0 <= i < |solved| :: solved[i].0.key in groups) && retry == Unsettled(solved, groups, |solved|)
    requires failures == Refusals(files, rules) + SoloReports(retry, o, |retry|)
    ensures IsRun(files, cached, o, rules, t, failures)
    ensures Verdicted(t.asked, o, true) == Settled(solved, |solved|, true)
  {
    var ks := groups.Keys - cached;
    var asked := AskedMap(solved, asks, |solved|);
    AskedAre(solved, asks, groups, ks, o, rules.init);
    AllAskedRight(files, o, rules, groups, ks, solved, asks, asked);
    VerdictedSettled(o, rules.init, ks, solved, asks, asked, true);
    VerdictedSettled(o, rules.init, ks, solved, asks, asked, false);
    UnsettledItems(solved, groups, ks, |solved|, files, rules);
    t := Trace(asked, retry);
  }

  /** What follows from a run by a fair solver over a cache of backed keys. */
  lemma {:induction false} Concludes(files: seq<File>, cached: set<string>, solver: Solver, rules: Rules, t: Trace,
                                     failures: seq<Failure>, plain: Claim, claim: Claim)
    requires IsRun(files, cached, JudgementOf(solver), rules, t, failures) && Honest(solver, claim) && AllPlain(files, rules, plain)
    requires Sharing(rules.key, plain, claim) && (forall k | k in cached :: Backed(k, rules, plain, claim))
    ensures Genuine(failures, files, JudgementOf(solver), rules)
    ensures forall k | k in Verdicted(t.asked, JudgementOf(solver), true) :: Backed(k, rules, plain, claim) && FileKey(k, files, rules)
    ensures failures == [] ==> forall i | 0 <= i < |files| :: claim(rules.body(files[i].text))
  {
    var o := JudgementOf(solver);
    HonestIsFair(solver, claim);
    RunGenuine(files, cached, o, rules, t, failures);
    forall k | k in Verdicted(t.asked, o, true)
      ensures Backed(k, rules, plain, claim) && FileKey(k, files, rules)
    {
      AskedBacks(files, cached, o, rules, t, failures, k, plain, claim);
    }
    if failures == [] {
      forall i | 0 <= i < |files|
        ensures claim(rules.body(files[i].text))
      {
        PassedHolds(files, cached, o, rules, t, failures, i, plain, claim);
      }
    }
  }

  ghost function AskedMap(solved: seq<(Todo, string)>, asks: seq<Asked>, n: nat): map<string, Asked>
    requires n <= |solved| == |asks|
  {
    if n == 0 then map[] else AskedMap(solved, asks, n - 1)[solved[n - 1].0.key := asks[n - 1]]
  }

  lemma {:induction false} AskedMapIs(solved: seq<(Todo, string)>, asks: seq<Asked>, n: nat)
    requires n <= |solved| == |asks| && forall i, j | 0 <= i < j < |solved| :: solved[i].0.key != solved[j].0.key
    ensures forall k :: k in AskedMap(solved, asks, n) <==> exists i :: 0 <= i < n && solved[i].0.key == k
    ensures forall i | 0 <= i < n :: solved[i].0.key in AskedMap(solved, asks, n) && AskedMap(solved, asks, n)[solved[i].0.key] == asks[i]
  {
    if n > 0 {
      AskedMapIs(solved, asks, n - 1);
    }
  }

  lemma {:induction false} AskedAre(solved: seq<(Todo, string)>, asks: seq<Asked>, groups: Groups, ks: set<string>, o: Judgement,
                                    init: string -> bool)
    requires Answered(solved, asks, o, init) && TasksOf(Firsts(solved), groups, ks)
    ensures AskedFor(AskedMap(solved, asks, |solved|), solved, asks, ks)
  {
    var q := Firsts(solved);
    assert forall i, j | 0 <= i < j < |solved| :: q[i].key != q[j].key;
    AskedMapIs(solved, asks, |solved|);
    forall k | k in ks
      ensures exists i :: 0 <= i < |solved| && solved[i].0.key == k && AskedMap(solved, asks, |solved|)[k] == asks[i]
    {
      var i :| 0 <= i < |q| && q[i].key == k;
      assert solved[i].0.key == k;
    }
    forall k | k in AskedMap(solved, asks, |solved|)
      ensures k in ks
    {
      var i :| 0 <= i < |solved| && solved[i].0.key == k;
      assert q[i].key in ks;
    }
  }

  /** The groups of the files, and a batch verdict for each that is not cached. */
  method SolvePending(files: seq<File>, rules: Rules, cached: set<string>, solver: Solver, cpus: nat)
    returns (failures: seq<Failure>, groups: Groups, solved: seq<(Todo, string)>, ghost asks: seq<Asked>)
    ensures failures == Refusals(files, rules) && GroupsExact(groups, files, rules)
    ensures Answered(solved, asks, JudgementOf(solver), rules.init)
    ensures TasksOf(Firsts(solved), groups, groups.Keys - cached)
    ensures forall i | 0 <= i < |solved| :: solved[i].0.key in groups
  {
    var keys;
    failures, keys, groups := Group(files, rules);
    GroupsFilled(groups, files, rules);
    var todo := Pending(keys, groups, cached);
    solved, asks := SolveAll(todo, rules, solver, cpus);
    SolvedTasks(solved, todo, groups, groups.Keys - cached);
    SolvedInGroups(solved, groups, groups.Keys - cached);
  }

  class Judge {
    const rules: Rules
    /** False when the solver is overridden: nothing is read or kept. */
    const caching: bool
    ghost const plain: Claim
    ghost const claim: Claim
    /** The names of the files in the cache directory. */
    var cache: set<string>

    /** Every cached key is the key of a plain body that the claim holds of. */
    ghost predicate Valid()
      reads this
    {
      Sharing(rules.key, plain, claim) && forall k | k in cache :: Backed(k, rules, plain, claim)
    }

    constructor (rules: Rules, caching: bool, ghost plain: Claim, ghost claim: Claim)
      requires Sharing(rules.key, plain, claim)
      ensures Valid() && cache == {} && this.rules == rules && this.caching == caching
      ensures this.plain == plain && this.claim == claim
    {
      this.rules, this.caching, this.plain, this.claim := rules, caching, plain, claim;
      cache := {};
    }

    /** The verdicts: `unsat` is cached, any other group is to be retried. */
    method Settle(solved: seq<(Todo, string)>, groups: Groups) returns (retry: seq<Item>)
      requires forall i | 0 <= i < |solved| :: solved[i].0.key in groups
      modifies this`cache
      ensures cache == old(cache) + if caching then Settled(solved, |solved|, true) else {}
      ensures retry == Unsettled(solved, groups, |solved|)
    {
      retry := [];
      for i := 0 to |solved|
        invariant cache == old(cache) + if caching then Settled(solved, i, true) else {}
        invariant retry == Unsettled(solved, groups, i)
      {
        var t, verdict := solved[i].0, solved[i].1;
        if verdict == UNSAT {
          if caching {
            cache := cache + {t.key};
          }
          continue;
        }
        retry := retry + groups[t.key];
      }
    }

    /** Check every obligation. The report is exactly that of a run over the
        files with what was cached, and the keys it proved are kept. No report
        means that the claim holds of every file, whatever earlier runs left
        in the cache; and every report is true of a file. */
    method CheckDir(files: seq<File>, solver: Solver, cpus: nat) returns (failures: seq<Failure>, ghost trace: Trace)
      requires Valid() && Honest(solver, claim) && AllPlain(files, rules, plain)
      modifies this`cache
      ensures Valid() && old(cache) <= cache && (!caching ==> cache == old(cache))
      ensures forall k | k in cache - old(cache) :: FileKey(k, files, rules)
      ensures files == [] ==> failures == [EmptyDirectory] && cache == old(cache)
      ensures files != [] ==> IsRun(files, if caching then old(cache) else {}, JudgementOf(solver), rules, trace, failures)
      ensures files != [] ==> cache == old(cache) + if caching then Verdicted(trace.asked, JudgementOf(solver), true) else {}
      ensures failures == [] ==> files != [] && forall i | 0 <= i < |files| :: claim(rules.body(files[i].text))
      ensures files != [] ==> Genuine(failures, files, JudgementOf(solver), rules)
    {
      trace := Trace(map[], []);
      if files == [] {
        return [EmptyDirectory], trace;
      }
      ghost var cached, o := if caching then cache else {}, JudgementOf(solver);
      var groups, solved;
      ghost var asks;
      failures, groups, solved, asks := SolvePending(files, rules, if caching then cache else {}, solver, cpus);
      var retry := Settle(solved, groups);
      var more := Retry(retry, solver);
      failures := failures + more;
      trace := TraceOf(files, cached, o, rules, groups, solved, asks, retry, failures);
      Concludes(files, cached, solver, rules, trace, failures, plain, claim);
    }
  }

  lemma {:induction false} GroupsFilled(groups: Groups, files: seq<File>, rules: Rules)
    requires GroupsExact(groups, files, rules)
    ensures forall k | k in groups :: groups[k] != []
  {
    forall k | k in groups
      ensures groups[k] != []
    {
      var i := FirstItem(files, k, rules);
    }
  }
}
