# Takibi build checks, verified

A Dafny model of the checks that guard the Takibi build: the judge of the
compiler's proof obligations and the part of the compiler that writes them, the
call graph checks of the ext2 file system, and the readers, scanners and
editors that the other build checks rest on. Every member is a model of a
Python script under `scripts/` or an OCaml module under `lib/`; the theorems say
what a passing check means.

**The obligation judge.** The compiler writes each range and initialization
obligation as an SMT-LIB script; `buildcheck_range_obligations.py` decides a
directory of them. `SmtText` is its canonical form, `SmtLogic` the meaning of a
script (a fragment: constants, assertions, `check-sat`; the theory's operators
are a parameter), `SolverBatch` the protocol with the solver process,
`JudgeLoop` the cache, grouping, batching and retry loop, and `RangeJudge` puts
them together: over any history of runs that share a cache, with any solver
whose `unsat` is right (alone in a batch, the first line of a solo run) and
that may print anything else or die at any point, a run without a report proves
every obligation it was given.
`SmtName`, `CheckedInt`, `InitPred`, `InitCover` and `InitSearch` are the
compiler's own decision about initialized intervals, sound and exactly as
complete as its bounded search; `LinearTheory`, `InitObligation`,
`InitScript`, `InitJudge` and `SmtPrint` carry an initialization obligation from
the compiler's data to the text of the file and back through the judge: the
text is unsatisfiable exactly when the intervals cover the goal on every path.
`RuntimeBounds` is the compiler's search over < and <= facts.

**Call graphs.** `SelfWait`, `MutationGuard` and `ReleaseLog` are three checks
over the compiler's call graph table: a breadth-first search with parent
pointers, a least fixpoint, and a worklist walk cut at named functions. Each
verdict is characterised by paths of calls by name. `TableGraph` is the table's
own graph, in which a call leads to the row it names by name, file and line;
`SelfWaitTable`, `MutationGuardTable` and `ReleaseLogTable` say what a clean
verdict means there, and exactly for which rows it is right whatever they call.

**Readers, scanners, editors.** `DuneForms` and `DuneText` (S-expressions),
`CommentBlanker` and `CommentGrammar` (comments and literals), `CallExtent`
(brackets), `DwarfTree` and `DwarfForest` (a tree by indentation),
`StringValues` (the strings an expression can be) and `StringMeaning` (those it
is, as Python resolves names), `AllowRows` and `AllowEdit` (an allow-list edited
as text), `Sctlr` (a register value against the machine),
`ByteCopy` (runs of stores), `AwaitLog` (a wait loop over any clock and log).

Loops of the scripts are methods with loops, a list overwritten in place is an
array, the verdict cache is a class; expression-like code is functions. Names
fixed in a script (function names, file names) are fields of a `Setup`, so the
theorems hold for every choice of them.

Where the code does less than it says, the model keeps the code and a lemma
names an input:

- `splitlines` ends a line at characters that do not end an SMT-LIB comment, so
  two initialization obligations can share a canonical text, hence a cache key,
  and not a verdict (`SmtBreaks.VerdictsDifferBeyondPlainBreaks`). Where every line break is
  a line feed, equal canonical text does give equal verdicts
  (`SmtLogic.CanonicalSharesVerdict`), and no other break can be allowed
  (`SmtBreaks.SharesIff`).
- The call graph checks look rows up by name, and overloads share a name, so the
  calls of all but the last are lost: a table is clean while a counted reader
  waits for itself (`SelfWaitTable.OverloadWaits`), an unguarded caller reaches a
  block write (`MutationGuardTable.OverloadSlips`), or a release writes past its
  log (`ReleaseLogTable.OverloadEscapes`); `OverloadInput` in each module is such
  a table for every choice of names. The three `RightIff` lemmas are the exact
  conditions on the rows.
- A quoted parenthesis loses its quotes before forms are read, so a balanced
  dune file can be refused (`DuneText.QuotedParenthesisRefused`) and one that is
  not balanced accepted (`DuneText.QuotedParenthesisAccepted`). The reader
  returns what was written exactly when the parentheses outside quotes close and
  no quoted string is a parenthesis (`DuneText.ReadsWrittenIff`).
- `call_extent` without an enclosing call returns a prefix of the text that may
  end before the offset (`CallExtent.ExtentMayMissOffset`;
  `CallExtent.ExtentHolds` says exactly when it does not).
- `values` looks a name up in its own way, so it misses strings where Python
  finds the name elsewhere: a loop over a name that an outer loop binds
  (`StringMeaning.ReboundIterableMisses`), a name read in a function inside the
  loop that binds it (`StringMeaning.ClosureMisses`), a loop that cannot be
  listed, a pattern or a parameter that hides a constant
  (`StringMeaning.HiddenConstantMisses`), a loop variable bound again or read in
  the loop's own iterable (`StringMeaning.NotTheLoopsMisses`), a loop over the
  characters of a constant (`StringMeaning.CharactersMiss`), and a name bound
  twice in a comprehension (`StringMeaning.BoundTwiceMisses`).
  `StringMeaning.CoveredIff` is the exact condition. A placeholder is listed
  without its conversion or width, and as "0" where it has no strings;
  `StringMeaning.HoleCoveredIff`, `StringMeaning.AloneListedIff`,
  `StringMeaning.QuotedCoversIff` and `StringMeaning.WidthCoversIff` say exactly
  when that is right. A variable used twice is listed as if its uses were apart
  (`StringMeaning.UsedTwiceListed`); otherwise nothing is listed that cannot be
  (`StringMeaning.ListedIsEval`).
- `register_constants` takes a register's last constant before the write for
  its value at the mask: another instruction may change it
  (`Sctlr.ChangedMaskSlips`), it may be set only afterwards
  (`Sctlr.LateMaskSlips`), or a movk may build it over an unknown value
  (`Sctlr.UnsetMaskSlips`). `Sctlr.WrittenClearIff` says exactly which accepted
  bodies are right: one run with every unknown all ones decides. A narrow mov or
  movk is taken for a wide one (`Sctlr.NarrowAgrees` says when that is right).
- `wait` says "still printing" of a log that never printed
  (`AwaitLog.SilenceStillPrinting`); `AwaitLog.CapMeansPrintingIff` says exactly
  when it does mean a recent change.

## Model

| member | source | states |
|---|---|---|
| SmtText.RenderLex | scripts/buildcheck_range_obligations.py:124-144 | reading a text as `x_` atoms and other characters and writing it out again gives the text |
| SmtText.LexRenamed | scripts/buildcheck_range_obligations.py:124-144 | a renamed text reads as the renamed tokens: a renaming never makes or breaks an atom |
| SmtText.NumberingIsRenaming | scripts/buildcheck_range_obligations.py:124-144 | numbering atoms in order of appearance is an injective renaming of them |
| SmtText.CanonicalEqualIff | scripts/buildcheck_range_obligations.py:124-144 | two bodies of one kind have equal canonical text exactly when their code differs by a bijective renaming of `x_` atoms |
| SmtText.CanonicalIdempotent | scripts/buildcheck_range_obligations.py:124-144 | `canonical` is idempotent on a body whose first line is a comment |
| SmtText.Substitute | scripts/buildcheck_range_obligations.py:124-144 | the substitution of one line gives the numbered line and the dictionary after it |
| SmtText.Canonicalize | scripts/buildcheck_range_obligations.py:124-144 | the loop over the lines, dictionary carried along, computes the canonical text |
| SmtLogic.ReadRenamed | scripts/buildcheck_range_obligations.py:124-144 | the expressions of renamed tokens are the renamed expressions |
| SmtLogic.EvalRenamed | scripts/buildcheck_range_obligations.py:124-144 | a renamed expression has the value of the expression in the model read through the renaming: no fixed name is captured |
| SmtLogic.UnsatRenamed | scripts/buildcheck_range_obligations.py:124-144 | an injective renaming of atoms keeps unsatisfiability |
| SmtLogic.UnsatCode | scripts/buildcheck_range_obligations.py:124-144 | dropping comment lines keeps the verdict of a text with plain line breaks |
| SmtLogic.CanonicalSharesVerdict | scripts/buildcheck_range_obligations.py:124-144 | bodies with plain line breaks and equal canonical text are both unsatisfiable or neither is |
| SmtBreaks.SameCanonical | scripts/buildcheck_range_obligations.py:124-144 | code after such a break in a comment line has the canonical text of the same code on a line of its own |
| SmtBreaks.VerdictsDifferBeyondPlainBreaks | scripts/buildcheck_range_obligations.py:124-144 | for every line break of `splitlines` that does not end a comment, two initialization obligations with one canonical text, one unsatisfiable in linear arithmetic and one not |
| SmtBreaks.SharesIff | scripts/buildcheck_range_obligations.py:124-144 | exactly when the line feed is the only line break allowed, equal canonical text means equal verdicts in every theory, and equal keys of two obligations the judge takes mean equal verdicts in linear arithmetic |
| SolverBatch.MarkAt | scripts/buildcheck_range_obligations.py:147-204 | the first line at or after a position that strips to the end marker |
| SolverBatch.ReadAnswer | scripts/buildcheck_range_obligations.py:147-204 | the lines before the next marker, stripped, and where it stands |
| SolverBatch.ReadVerdicts | scripts/buildcheck_range_obligations.py:147-204 | for any output, the verdicts are those of the marker positions, and none after the output ends or a write fails |
| SolverBatch.BatchSolve | scripts/buildcheck_range_obligations.py:147-204 | exactly one verdict per query, in order, whatever the process prints |
| SolverBatch.EndOnWire | scripts/buildcheck_range_obligations.py:147-204 | every marker that arrived is found where the process printed it; one that did not arrive is not found |
| SolverBatch.VerdictIsOwnAnswer | scripts/buildcheck_range_obligations.py:147-204 | a verdict is the query's own one-line answer or none: an answer of any length never shifts a later verdict |
| SolverBatch.UnsatVerdictIsRefutation | scripts/buildcheck_range_obligations.py:147-204 | with a solver that is right about lone `unsat` answers, an `unsat` verdict is a refuted query |
| JudgeLoop.GatherAll | scripts/buildcheck_range_obligations.py:258-262 | the strided chunks together hold every group exactly as often as the list does |
| JudgeLoop.Group | scripts/buildcheck_range_obligations.py:213-233 | the refusals, in order, are those of the files with the wrong header or digest; each group holds exactly the accepted files of its key, in order; no key is listed twice |
| JudgeLoop.RunChunk | scripts/buildcheck_range_obligations.py:254-255 | a chunk's groups in order, each with the verdict the solver gave for its own place in the batch |
| JudgeLoop.SolveChunks | scripts/buildcheck_range_obligations.py:258-262 | the chunks solved are the strided chunks, each group with the verdict of its own place |
| JudgeLoop.SolveAll | scripts/buildcheck_range_obligations.py:249-262 | every group is solved exactly once, initialization obligations in a batch apart, each with the verdict of its own place |
| JudgeLoop.Retry | scripts/buildcheck_range_obligations.py:278-306 | a report for exactly those retried whose own solo verdict is not `unsat`, in order, with that verdict |
| JudgeLoop.Judge.constructor | scripts/buildcheck_range_obligations.py:84-94 | an empty cache is sound |
| JudgeLoop.BackedDecides | scripts/buildcheck_range_obligations.py:235-247 | a cached key proves every obligation that has it |
| JudgeLoop.Pending | scripts/buildcheck_range_obligations.py:234-247 | exactly the groups whose key is not cached become tasks, each once, with its first member |
| JudgeLoop.Judge.Settle | scripts/buildcheck_range_obligations.py:264-276 | while caching, the keys with an `unsat` verdict and no other enter the cache; exactly the members of the other groups are retried |
| JudgeLoop.Judge.CheckDir | scripts/buildcheck_range_obligations.py:207-307 | exactly the keys not cached are asked, each by an accepted file of it; while caching the cache grows by exactly the keys with a batch verdict `unsat`; the reports are the refusals and the retried files whose solo verdict is not `unsat`; the cache stays sound, and no report means every obligation of a non-empty directory proved |
| JudgeLoop.NoReportIff | scripts/buildcheck_range_obligations.py:207-307 | a run has no report exactly when every file is accepted and has its key in the cache, or a batch verdict `unsat`, or its own solo verdict `unsat` |
| RangeJudge.Split | scripts/buildcheck_range_obligations.py:97-105 | the loop gives the site texts and the body that `RangeJudge.SplitEntries` is about |
| RangeJudge.SplitEntries | scripts/buildcheck_range_obligations.py:97-105 | of any lines with breaks, site lines anywhere among them: exactly the other lines joined, and the site texts stripped, in order |
| RangeJudge.BodyCode | scripts/buildcheck_range_obligations.py:97-105 | without its site lines a text has the same code |
| RangeJudge.UnsatBody | scripts/buildcheck_range_obligations.py:97-105 | without its site lines a text has the same verdict |
| RangeJudge.KeysShareVerdicts | scripts/buildcheck_range_obligations.py:231-233 | obligations with one cache key share their verdict |
| RangeJudge.SoundIsHonest | scripts/buildcheck_range_obligations.py:147-204 | a sound solver, dying anywhere, gives only `unsat` verdicts that are refutations, batch or solo |
| RangeJudge.JudgeHistory | scripts/buildcheck_range_obligations.py:207-307 | over any runs that share one cache: each run starts from the cache the last one left and does what `CheckDir` does; a run with no report was given a non-empty directory of unsatisfiable obligations |
| SmtName.EscInjective | lib/smt_name.ml:16-23 | escaping is a prefix code: it can be undone, also before text that no escape starts with |
| SmtName.SpellInjective | lib/smt_name.ml:16-30 | distinct names, of one kind or of two, have distinct spellings |
| SmtName.SpellIsAtomName | lib/smt_name.ml:16-30 | every spelling but that of the empty atom is an `x_` atom, so the judge's renaming sees it whole |
| CheckedInt.ChkAddExact | lib/init_pred.ml:38-48 | over wrapping native integers, the checked sum is the true sum, or an overflow exactly when that is out of range |
| CheckedInt.ChkMulExact | lib/init_pred.ml:50-56 | the same of the checked product |
| InitPred.AddValue | lib/init_pred.ml:58-61 | where the checked native sums do not overflow, the sum of linear terms has the sum of their values |
| InitPred.ScaleValue | lib/init_pred.ml:63-65 | where the checked native products do not overflow, a scaled term has the scaled value |
| InitPred.SubstValue | lib/init_pred.ml:82-85 | substituting an equal term for an atom keeps the value |
| InitPred.NormalizeValue | lib/init_pred.ml:103-107 | normalizing by the equalities of a path keeps the value on that path |
| InitPred.NormalizeFactsHold | lib/init_pred.ml:117-119 | normalized facts hold where the facts and the equalities do |
| InitPred.SearchSound | lib/init_pred.ml:123-144 | over any arithmetic that is right where it does not overflow, what the bounded search finds nonnegative is nonnegative wherever the facts hold |
| InitPred.EntailsSound | lib/init_pred.ml:123-144 | so is what it finds with the checked native arithmetic |
| InitSearch.SubIff | lib/init_pred.ml:58-67 | the difference of two terms is computed exactly when every coefficient of it fits, and is it, coefficient by coefficient |
| InitSearch.AddScaledIff | lib/init_pred.ml:58-85 | k times a term is put in the place of an atom exactly when product and sum fit, coefficient by coefficient |
| InitSearch.SearchStep | lib/init_pred.ml:129-144 | one step of the search: obvious terms first, else the facts in order, then the minima; the first try that does not fail decides, an overflow included |
| InitSearch.EntailsDerives | lib/init_pred.ml:123-144 | what is concluded has a derivation of at most four steps, a relation on coefficients: no negative part, or a fact with an atom of the same sign subtracted, or a minimum expanded, both ways or either by its sign |
| InitSearch.EntailsIff | lib/init_pred.ml:123-144 | where no step leaves the native range, exactly what has such a derivation is concluded |
| InitSearch.FactHolds | lib/init_pred.ml:123-144 | a fact that names an atom is concluded from itself; one that names none, exactly when it holds |
| InitSearch.GeIff | lib/init_pred.ml:147-151 | x >= y is concluded exactly when x - y fits and has a derivation |
| InitSearch.SubstIs | lib/init_pred.ml:82-85 | every coefficient after a substitution |
| InitSearch.NormalizeUses | lib/init_pred.ml:103-107 | an atom with an equality does not occur in a normalized term, if neither its own term nor a later one brings it back |
| InitSearch.NormalizeKeeps | lib/init_pred.ml:103-107 | an atom in no equality keeps its coefficient |
| InitCover.UncoveredSound | lib/init_pred.ml:146-182 | when nothing is reported uncovered, every element of the goal is in some interval, on every path that satisfies the equalities and facts |
| InitCover.ConstantsExact | lib/init_pred.ml:146-182 | over constants the walk reports nothing exactly when the goal is covered, and otherwise the least point of the goal that no interval covers |
| InitCover.UncoveredReports | lib/init_pred.ml:146-182 | on every path, everything of the goal before the point reported is covered |
| InitCover.OneCovers | lib/init_pred.ml:146-182 | with the equalities used in every fact and bound: a goal shown empty, or held by one interval, is reported covered, unless an earlier question overflows |
| LinearTheory.LinearNoCapture | lib/init_pred.ml:214-248 | the operators and sorts of the scripts contain no `x_` atom |
| InitObligation.EvalLin | lib/init_pred.ml:199-209 | the SMT text of a linear term has its value |
| InitObligation.HoldsRange | lib/init_pred.ml:226-229 | the range command says that the atom is a usize |
| InitObligation.HoldsMin | lib/init_pred.ml:233-235 | the `ite` command says that the atom is the minimum of two terms |
| InitObligation.HoldsOutside | lib/init_pred.ml:244-246 | the last command says that the element is in no interval |
| InitScript.CoveredIsUnsat | lib/init_pred.ml:211-248 | a covered goal leaves no model of the commands |
| InitScript.UnsatIsCovered | lib/init_pred.ml:211-248 | commands without a model mean a covered goal |
| InitScript.ScriptExact | lib/init_pred.ml:211-248 | the script is unsatisfiable exactly when the intervals cover the goal on every path |
| SmtPrint.ReadLines | lib/init_pred.ml:214-248 | a script written one command to a line reads back as itself |
| InitJudge.TextReads | lib/init_pred.ml:214-248 | the obligation's text reads back as its script |
| InitJudge.ObligationExact | lib/init_pred.ml:238-248 | the obligation's text is unsatisfiable exactly when the goal is covered |
| InitJudge.OwnEntries | lib/init_pred.ml:214-248 | the obligation's lines can stand in such a file: none of them is a site line |
| InitJudge.FileHolds | lib/init_pred.ml:214-248 | the obligation's lines with any site lines among them, before or after, are a file that holds the obligation |
| InitJudge.FileAccepted | scripts/buildcheck_range_obligations.py:213-233 | such a file, its header first and named by the digest of the obligation, is accepted and judged as an initialization obligation |
| InitJudge.JudgeCoverage | scripts/buildcheck_range_obligations.py:207-307 | over any runs that share one cache, in a run with no report every file that holds an initialization obligation has its goal covered on every path |
| InitJudge.CheckerAgrees | lib/init_pred.ml:146-248 | what the compiler accepts, the obligation confirms: its text is unsatisfiable |
| InitJudge.JudgedIsCovered | scripts/buildcheck_range_obligations.py:207-307 | in a directory the judge passes, a file that holds an obligation proves its goal covered on every path |
| RuntimeBounds.VisitSound | lib/runtime_bounds.ml:18-28 | what the search accepts holds in every valuation of the facts |
| RuntimeBounds.Refuted | lib/runtime_bounds.ml:18-28 | of facts that can hold, what the search rejects fails in some valuation of them |
| RuntimeBounds.ProvesIff | lib/runtime_bounds.ml:18-28 | of facts that can hold, `proves` accepts exactly the relations that hold in every valuation |
| RuntimeBounds.ProvesChain | lib/runtime_bounds.ml:18-28 | of all facts, `proves` accepts a relation exactly when a chain of facts leads from one side to the other, with a strict one for < |
| RuntimeBounds.ConditionHolds | lib/runtime_bounds.ml:45-63 | the facts of a condition hold where it is true, and say no more; a condition of known operands is said in full |
| RuntimeBounds.GuardProves | lib/runtime_bounds.ml:18-63 | a relation proved from a guard holds wherever the guard does |
| RuntimeBounds.WithoutHolds | lib/runtime_bounds.ml:65-67 | after any rebinding of the names the facts left still hold |
| RuntimeBounds.WithoutIs | lib/runtime_bounds.ml:65-67 | a fact is left, as often as it was there, exactly when neither end is a local of a bound name |
| SelfWait.ReadBack | scripts/buildcheck_ext2_reader_self_wait.py:91-94 | the parent pointers read back are a path of calls as long as the distance |
| SelfWait.Advance | scripts/buildcheck_ext2_reader_self_wait.py:77-96 | one round of the search takes the layer d calls away to the layer d + 1 calls away, or finds the take |
| SelfWait.ChainToTake | scripts/buildcheck_ext2_reader_self_wait.py:71-97 | None exactly when no path of calls leads to the take; otherwise a path, as short as any |
| SelfWait.CheckWindow | scripts/buildcheck_ext2_reader_self_wait.py:127-146 | every followed callee that may wait is reported, by a shortest chain from it, and nothing else is; the callees are counted once each |
| SelfWait.CheckArms | scripts/buildcheck_ext2_reader_self_wait.py:147-151 | exactly the mutating arms that are no callee of the dispatch or do not reach the take are reported |
| SelfWait.SelfWaitProblems | scripts/buildcheck_ext2_reader_self_wait.py:100-152 | no problem exactly when every condition of the check holds; every problem of the table is reported, a chain by one from the same callee, and no other, unless a function named is not where it should be; how many callees were checked |
| SelfWait.TrueIff | scripts/buildcheck_ext2_reader_self_wait.py:100-152 | each kind of problem, said of the table's rows and the names alone: callers, callees, files and paths |
| SelfWait.CleanMeansNoSelfWait | scripts/buildcheck_ext2_reader_self_wait.py:100-152 | after a clean verdict every path of calls by name from the registered window to the take enters a mutating arm of the dispatch, unless a function is named `*` |
| SelfWaitTable.CleanMeansNoWait | scripts/buildcheck_ext2_reader_self_wait.py:100-152 | where names tell the rows apart, after a clean verdict every chain of the table's own calls from the registered window to the take enters a mutating arm |
| SelfWaitTable.OverloadWaits | scripts/buildcheck_ext2_reader_self_wait.py:63-64 | otherwise a well-formed table of the same rows is clean and has a chain to the take that enters no arm |
| SelfWaitTable.OverloadInput | scripts/buildcheck_ext2_reader_self_wait.py:63-64 | such a table, of the rows the check names and two rows of any other name |
| SelfWaitTable.RightIff | scripts/buildcheck_ext2_reader_self_wait.py:63-152 | for given rows the verdict is right about every well-formed table exactly when no two rows share a name, arms and the take in its own file apart, and none is named `*` |
| SelfWaitTable.KernelApart | scripts/buildcheck_ext2_reader_self_wait.py:42-60 | the kernel's own names are kept apart, as these lemmas ask |
| MutationGuard.Pass | scripts/buildcheck_ext2_mutation_guard.py:110-114 | one pass over the table in any order stays below every closed set, and changes nothing only when closed |
| MutationGuard.BlockWriters | scripts/buildcheck_ext2_mutation_guard.py:101-115 | the least set with the block write that is closed under calling a member, whatever the order of iteration |
| MutationGuard.WritersReach | scripts/buildcheck_ext2_mutation_guard.py:101-115 | that set is the functions from which calls by name in the file lead to the block write |
| MutationGuardTable.WritersReachIn | scripts/buildcheck_ext2_mutation_guard.py:101-115 | where no two rows of the file share a name, it is the functions from which the table's own calls in the file lead to the block write |
| MutationGuard.UnlistedMutators | scripts/buildcheck_ext2_mutation_guard.py:118-129 | exactly the functions not listed that an outside row calls and from which calls lead to a block write |
| MutationGuard.UnguardedRows | scripts/buildcheck_ext2_mutation_guard.py:147-165 | exactly the outside mutating rows that neither take the guard nor are allowed are reported; how many take it |
| MutationGuard.GuardProblems | scripts/buildcheck_ext2_mutation_guard.py:132-173 | no problem exactly when every condition of the check holds; every problem of the rows is reported and no other; how many rows take the guard |
| MutationGuard.TrueIff | scripts/buildcheck_ext2_mutation_guard.py:132-173 | each kind of problem, said of the rows and the names alone |
| MutationGuard.GuardedCountIs | scripts/buildcheck_ext2_mutation_guard.py:147-156 | the count is of the outside rows that call a mutator and take or hold the guard |
| MutationGuard.CleanMeansGuarded | scripts/buildcheck_ext2_mutation_guard.py:132-173 | after a clean verdict every outside function with a call that leads by name to a block write takes the guard or is in an allowed file |
| MutationGuardTable.CleanMeansExcluded | scripts/buildcheck_ext2_mutation_guard.py:132-173 | where names tell the rows apart, the same of calls that lead to a block write in the table's own graph |
| MutationGuardTable.OverloadSlips | scripts/buildcheck_ext2_mutation_guard.py:103-106 | otherwise a well-formed table of the same rows is clean, and a function outside reaches a block write without the guard |
| MutationGuardTable.OverloadInput | scripts/buildcheck_ext2_mutation_guard.py:103-106 | such a table, of the rows the check names, a function outside and two rows of any other name |
| MutationGuardTable.RightIff | scripts/buildcheck_ext2_mutation_guard.py:101-173 | for given rows the verdict is right about every well-formed table exactly when no two rows of the file share a name other than the block write's, or all of the file's functions are listed, or no function outside is bound |
| MutationGuardTable.KernelApart | scripts/buildcheck_ext2_mutation_guard.py:44-87 | the kernel's own files are kept apart, as these lemmas ask |
| ReleaseLog.Walk | scripts/buildcheck_ext2_release_log.py:92-123 | ends on every table; reaches exactly what calls lead to from the roots, cut at writers, or meets a function without a row |
| ReleaseLog.ProblemsIn | scripts/buildcheck_ext2_release_log.py:82-128 | no problem exactly when every condition of the check holds; every problem of the table is reported and no other, unless a function named has no row; stops exactly at a reached function without a row; how many functions were reached |
| ReleaseLog.TrueIff | scripts/buildcheck_ext2_release_log.py:82-128 | each kind of problem, said of the table's rows and the names alone |
| ReleaseLog.CleanMeansLogged | scripts/buildcheck_ext2_release_log.py:82-128 | after a clean verdict every path of calls by name from a root to a function that writes blocks, or opens a log of its own, goes through a named writer |
| ReleaseLogTable.CleanMeansLoggedIn | scripts/buildcheck_ext2_release_log.py:82-128 | where names tell the rows of the file apart, the same of every chain of the table's own calls |
| ReleaseLogTable.OverloadEscapes | scripts/buildcheck_ext2_release_log.py:84 | otherwise a well-formed table of the same rows is clean and has a chain from a root to a block write past every writer |
| ReleaseLogTable.OverloadInput | scripts/buildcheck_ext2_release_log.py:84 | such a table, of the rows the check names and two rows of any other name |
| ReleaseLogTable.RightIff | scripts/buildcheck_ext2_release_log.py:82-128 | for given rows the verdict is right about every well-formed table exactly when no two rows of the file share a name, writers and the block write apart |
| ReleaseLogTable.KernelApart | scripts/buildcheck_ext2_release_log.py:39-69 | the kernel's own names are kept apart, as these lemmas ask |
| DuneForms.Tokenize | scripts/check_ci_opam_deps.py:44-79 | the index-advancing loop gives the tokens of the character-by-character reading, or fails exactly on a string that does not end |
| DuneForms.ReadOne | scripts/check_ci_opam_deps.py:81-95 | the tokens consumed are those of the form; a failure means that no number of open parentheses lets the rest close |
| DuneForms.ReadForms | scripts/check_ci_opam_deps.py:81-102 | succeeds exactly when the parentheses of the tokens balance, and the tokens are those of the forms |
| DuneForms.FlatAllInjective | scripts/check_ci_opam_deps.py:81-102 | two forests with the same tokens are the same |
| DuneForms.ParseSexps | scripts/check_ci_opam_deps.py:44-102 | succeeds exactly when strings end and token parentheses balance; returns a forest exactly when the text reads as that forest |
| DuneText.LexWritten | scripts/check_ci_opam_deps.py:44-79 | a text written with any spacing, comments, quoting and escapes has the tokens it was written from |
| DuneText.WrittenReadsBack | scripts/check_ci_opam_deps.py:44-102 | a forest written in any way reads back as itself exactly when no atom is a parenthesis |
| DuneText.AllPiecesWritten | scripts/check_ci_opam_deps.py:44-102 | every forest can be written |
| DuneText.AcceptsBalanced | scripts/check_ci_opam_deps.py:81-102 | with no quoted parenthesis, the tokens balance exactly when the parentheses written do |
| DuneText.QuotedParenthesisRefused | scripts/check_ci_opam_deps.py:61-95 | a balanced text with a quoted parenthesis that is refused |
| DuneText.ReadsWrittenIff | scripts/check_ci_opam_deps.py:44-102 | the reader returns the forest that was written, every quoted or bare piece an atom, exactly when the parentheses outside quotes close and no quoted string is a parenthesis |
| DuneText.QuotedParenthesisAccepted | scripts/check_ci_opam_deps.py:61-95 | a text that is not balanced and is accepted |
| CommentBlanker.Scan | scripts/check_ddb_command_inventory.py:31-64 | one turn overwrites one or two characters as the state says, and leaves the others |
| CommentBlanker.WithoutComments | scripts/check_ddb_command_inventory.py:26-65 | the copy overwritten in place ends as the five-state reading of the text |
| CommentBlanker.BlankedMasks | scripts/check_ddb_command_inventory.py:26-65 | length and line feeds stay; every other character stays or becomes a blank |
| CommentBlanker.BlankedTwice | scripts/check_ddb_command_inventory.py:26-65 | a second pass changes nothing |
| CommentGrammar.BlankedIsShow | scripts/check_ddb_command_inventory.py:26-65 | of a text given as code, literals and remarks, exactly the remarks are blanked |
| CommentGrammar.EveryTextIsSource | scripts/check_ddb_command_inventory.py:26-65 | every text is given so |
| CallExtent.FindOpen | scripts/check_dune_root.py:48-60 | the backward scan stops at the innermost parenthesis open at every offset up to `at`, or at 0 when there is none |
| CallExtent.CallExtent | scripts/check_dune_root.py:46-70 | the text from the innermost enclosing parenthesis, or from the start, to where the count first falls back to zero at a closing bracket, or to the end |
| CallExtent.ExtentUnique | scripts/check_dune_root.py:46-70 | there is one such extent |
| CallExtent.ExtentEncloses | scripts/check_dune_root.py:46-70 | with an enclosing parenthesis, the extent starts at it, holds the offset, keeps positive depth inside and ends where the depth is zero, or at the end of the text |
| CallExtent.ExtentHolds | scripts/check_dune_root.py:46-70 | the extent holds the offset exactly when a parenthesis encloses it, or no count from the start of the text closes by then |
| CallExtent.ExtentMayMissOffset | scripts/check_dune_root.py:46-70 | a text whose extent does not hold the offset |
| DwarfTree.PopTo | scripts/buildcheck_gdb_helper_names.py:175-178 | after popping, the top of the stack is the nearest earlier entry with smaller indentation |
| DwarfTree.ReadDwarf | scripts/buildcheck_gdb_helper_names.py:164-184 | an entry per tag line with the attributes given before the next, the first of a key; its parent the nearest earlier entry with smaller indentation; no more pops than entries |
| DwarfForest.ForestParents | scripts/buildcheck_gdb_helper_names.py:164-184 | of a forest printed in preorder with indentation growing by depth, the parents found are the true parents |
| DwarfForest.ForestDetermined | scripts/buildcheck_gdb_helper_names.py:164-184 | tags and parents determine the forest |
| DwarfForest.ForestRecovered | scripts/buildcheck_gdb_helper_names.py:164-184 | the forest is the only one with the tags and parents the reader gives |
| StringValues.FindLoopPlace | scripts/buildcheck_gdb_helper_names.py:833-861 | the walk outwards takes the first clause that binds the name, and stops at a function |
| StringValues.ComputePlaceholder | scripts/buildcheck_gdb_helper_names.py:555-568 | the strings of a placeholder's loop variable, changed in case |
| StringValues.ComputeJoined | scripts/buildcheck_gdb_helper_names.py:520-533 | the loop over the parts of an f-string builds every combination, or gives up at an unbound placeholder of a metadata name |
| StringValues.ComputeValues | scripts/buildcheck_gdb_helper_names.py:510-546 | the loops compute the list that `StringMeaning.ListedIff`, `StringMeaning.EvalListed` and `StringMeaning.ListedIsEval` are about |
| StringMeaning.EvalListed | scripts/buildcheck_gdb_helper_names.py:510-568 | every string the expression is in any run is listed, if its names and placeholders are covered |
| StringMeaning.ListedIff | scripts/buildcheck_gdb_helper_names.py:510-546 | an expression is listed exactly when each of its leaves can be |
| StringMeaning.ListedIsEval | scripts/buildcheck_gdb_helper_names.py:510-568 | every string listed is what the expression is in some run, if every name is found, every placeholder is unformatted and has strings, and no variable is used twice |
| StringMeaning.UsedTwiceListed | scripts/buildcheck_gdb_helper_names.py:520-533 | of an f-string that uses a variable twice, a string is listed that it never is |
| StringMeaning.LoopPlaceIff | scripts/buildcheck_gdb_helper_names.py:833-861 | a loop variable's strings are those of the innermost target that is its name alone, the first in a comprehension, and are not looked for past a function |
| StringMeaning.MetadataBound | scripts/buildcheck_gdb_helper_names.py:520-533 | for a metadata name an f-string is listed exactly when every placeholder is a loop variable |
| StringMeaning.CoveredIff | scripts/buildcheck_gdb_helper_names.py:515-519 | whatever strings the file has, a name's list holds all it can be exactly when nothing is listed, the name is no string, or Python finds its strings at the literal or constant the search takes |
| StringMeaning.HoleCoveredIff | scripts/buildcheck_gdb_helper_names.py:555-568 | the same of a placeholder, changed in case or not, whose format must also change no string |
| StringMeaning.QuotedCoversIff | scripts/buildcheck_gdb_helper_names.py:555-568 | with `!r` a placeholder's list is right exactly when it is empty |
| StringMeaning.WidthCoversIff | scripts/buildcheck_gdb_helper_names.py:555-568 | with a width it is right exactly when every string too short has its padding listed |
| StringMeaning.UncoveredMisses | scripts/buildcheck_gdb_helper_names.py:515-519 | a name that is not covered holds, in some run, a string that is not listed |
| StringMeaning.AloneListedIff | scripts/buildcheck_gdb_helper_names.py:520-533 | an f-string of one placeholder is listed in every run exactly when the strings listed for the placeholder, or "0" where it has none or no loop, hold all it can come to |
| StringMeaning.UncoveredHoleMisses | scripts/buildcheck_gdb_helper_names.py:520-533 | otherwise it is, in some run, a string that is not listed |
| StringMeaning.ReboundIterableMisses | scripts/buildcheck_gdb_helper_names.py:833-861 | a loop over a constant's name that an outer loop binds is not covered |
| StringMeaning.ClosureMisses | scripts/buildcheck_gdb_helper_names.py:843-861 | a constant's name read in a function inside a loop that binds it is not covered |
| StringMeaning.HiddenConstantMisses | scripts/buildcheck_gdb_helper_names.py:515-519 | a constant's name bound by a loop that cannot be listed, a pattern or a function is not covered |
| StringMeaning.NotTheLoopsMisses | scripts/buildcheck_gdb_helper_names.py:843-861 | a loop variable bound again in the body, or read in the iterable, is not covered |
| StringMeaning.CharactersMiss | scripts/buildcheck_gdb_helper_names.py:833-840 | a loop over a constant that is one string is not covered |
| StringMeaning.BoundTwiceMisses | scripts/buildcheck_gdb_helper_names.py:852-857 | a comprehension that binds a name twice is not covered |
| AllowRows.ParseAllowlist | scripts/buildcheck_global_protection.py:128-141 | the rows, a later one replacing an earlier, and no error exactly when no line is malformed and no key is there twice |
| AllowRows.ClassifyIff | scripts/buildcheck_global_protection.py:128-141 | a line is skipped exactly when blank or a note, and a row exactly when it is a file, a name and a reader that is not blank, between tabs |
| AllowRows.SplitConcat | scripts/buildcheck_global_protection.py:212-221 | lines joined are split where they were joined |
| AllowEdit.Check | scripts/buildcheck_global_protection.py:144-157 | no error exactly when the rows are the unprotected globals |
| AllowEdit.SelectsIff | scripts/buildcheck_global_protection.py:193-209 | a file and a name joined by a colon select that key alone, a bare name its keys in every file |
| AllowEdit.DropKeys | scripts/buildcheck_global_protection.py:193-209 | no error exactly when every name selects rows and only stale ones; then their union |
| AllowEdit.RewrittenRows | scripts/buildcheck_global_protection.py:212-221 | the rewritten text has every other line as it was, in order, and every other row with its reader |
| AllowEdit.RewriteAllowlist | scripts/buildcheck_global_protection.py:212-237 | writes exactly when the list is well formed, has the rows removed and keeps a row for every unprotected global |
| AllowEdit.Edit | scripts/buildcheck_global_protection.py:246-269 | writes exactly when the list is well formed, the names can be dropped and no unprotected global lacks a row |
| AllowEdit.EditedRows | scripts/buildcheck_global_protection.py:246-269 | an edit removes exactly the selected rows, keeps the other lines, and drops no unprotected global |
| AllowEdit.PrunedExact | scripts/buildcheck_global_protection.py:246-269 | after a prune the rows are exactly the unprotected globals |
| AllowEdit.PruneTwice | scripts/buildcheck_global_protection.py:246-269 | a second prune changes nothing |
| Sctlr.RegisterConstants | scripts/buildcheck_kernel_asm_invariants.py:328-343 | the constant of each register as the movs and movks that name it build it; half by half, `Sctlr.MovIs` and `Sctlr.MovkIs` |
| Sctlr.MovIs | scripts/buildcheck_kernel_asm_invariants.py:328-343 | a mov sets the half of its shift and clears the others |
| Sctlr.MovkIs | scripts/buildcheck_kernel_asm_invariants.py:328-343 | a movk sets the half of its shift and keeps the others |
| Sctlr.NarrowIs | scripts/buildcheck_kernel_asm_invariants.py:328-343 | a narrow register keeps the two lower halves |
| Sctlr.SameHalves | scripts/buildcheck_kernel_asm_invariants.py:328-343 | a register is its four halves |
| Sctlr.ConstantsAreValues | scripts/buildcheck_kernel_asm_invariants.py:328-343 | the constant of a register built by wide mov and movk, a mov first, is the machine's value for every initial register file |
| Sctlr.NarrowAgrees | scripts/buildcheck_kernel_asm_invariants.py:328-343 | after a narrow mov, or a narrow movk over a right constant, the constant is the machine's value exactly when it has no upper half |
| Sctlr.FindProducer | scripts/buildcheck_kernel_asm_invariants.py:391-401 | the last instruction before the write that defines the register |
| Sctlr.Clears | scripts/buildcheck_kernel_asm_invariants.py:370-415 | passes exactly when there is one write and its value came through a mask without the bit |
| Sctlr.AlwaysClearIff | scripts/buildcheck_kernel_asm_invariants.py:346-415 | a bit is clear in every run, from every register file, exactly when it is clear in the run of all ones |
| Sctlr.WrittenClearIff | scripts/buildcheck_kernel_asm_invariants.py:346-415 | an accepted body writes the bit clear in every run exactly when it masks with an immediate, or its two registers share no such bit in the run of all ones |
| Sctlr.WrittenClear | scripts/buildcheck_kernel_asm_invariants.py:346-415 | an accepted body whose mask register is built wide and left alone writes the bit clear in every run |
| Sctlr.ActivationClears | scripts/buildcheck_kernel_asm_invariants.py:346-511 | when both checks pass they are about one write, and A and SPAN are clear in every run exactly when they are in the run of all ones |
| Sctlr.ChangedMaskSlips | scripts/buildcheck_kernel_asm_invariants.py:346-367 | a body whose mask register another instruction changes passes, and some run writes the bit |
| Sctlr.LateMaskSlips | scripts/buildcheck_kernel_asm_invariants.py:346-367 | so does one whose mask register is cleared only after its use |
| Sctlr.UnsetMaskSlips | scripts/buildcheck_kernel_asm_invariants.py:346-367 | and one whose mask register a movk builds over what it held, for a bit above its half |
| ByteCopy.Collect | scripts/buildcheck_kernel_byte_copy.py:36-41 | the offsets stored at each function and base |
| ByteCopy.LongestAt | scripts/buildcheck_kernel_byte_copy.py:44-51 | the longest run of consecutive offsets, the starts taken in any order |
| ByteCopy.LongestRuns | scripts/buildcheck_kernel_byte_copy.py:33-52 | every function with a store has a run, and none over any base is longer |
| ByteCopy.Refused | scripts/buildcheck_kernel_byte_copy.py:55-60 | functions are refused exactly when more of them than the ceiling have sixteen consecutive byte stores, and then all of these, each with a longest run |
| AwaitLog.ContainsIff | scripts/await_log_line.py:20-43 | the line is in the log exactly when the log is text, the line, and more text |
| AwaitLog.LastChange | scripts/await_log_line.py:36-38 | the last turn at which the length changed |
| AwaitLog.Wait | scripts/await_log_line.py:20-43 | ends at the first turn that does not go on, no later than the cap allows one step over, with that turn's reason |
| AwaitLog.ArrivedIff | scripts/await_log_line.py:20-43 | the line arrived exactly when some read made before giving up held it |
| AwaitLog.NoOutputMeansQuiet | scripts/await_log_line.py:20-43 | "no output" is said only before the cap, after reads of one length over the quiet budget |
| AwaitLog.GrowingIsNotQuiet | scripts/await_log_line.py:20-43 | and never while the log changed length less than that ago |
| AwaitLog.CapMeansPrintingIff | scripts/await_log_line.py:20-43 | over a given clock, "still printing" means for every log a change less than the quiet budget before the last turn under the cap exactly when the first read's quiet deadline comes by then |
| AwaitLog.SilenceStillPrinting | scripts/await_log_line.py:20-43 | with `--quiet 200 --cap 180` it is said of a log that never prints |

## Left out

- The language of the obligations: `SmtLogic.Read` knows constants, assertions and `check-sat`; a script with other commands (`define-fun` with arguments, push and pop) is not a claim of the model. Inside a command every list is an operator and its arguments: `let` and quantifiers, which the compiler does not write, are read so, not as binders.
- Range obligations as the compiler writes them (`lib/range_obligation.ml`), and the nowrap, index and leaf obligations of `lib/init_pred.ml`: the judge is proved for every text, the end-to-end theorem is about initialization obligations.
- The flow analysis that builds the intervals, equalities and facts (`lib/init_flow.ml`), the rest of the compiler and the kernel.
- z3 itself, processes, threads, timeouts and the kill watchdog: the solver is any output for each batch and each solo query, of which only the meaning of `unsat` is assumed, alone in a batch's answer or as the first line of a solo run; threads only change the order of work that is independent.
- MD5 is any injective function of the text.
- Which characters beyond ASCII Python calls word characters is a parameter of the tokens (`beyond`).
- Counts, times and budgets of initialization obligations, and the wording of reports, including the model printed for a failing obligation.
- SmtLogic.CanonicalSharesVerdict: for bodies whose line breaks are all line feeds, because other breaks make it false.
- RangeJudge.JudgeHistory: for files whose line breaks are all line feeds, for the same reason.
- InitPred.SearchSound: one way only; the search is bounded by its depth and is meant to be incomplete. What it does find is `InitSearch.EntailsIff`.
- InitSearch.EntailsIff: where a step can overflow, one way only (`InitSearch.EntailsDerives`): the first step that does not fit ends the search, whatever comes after it.
- InitCover.UncoveredSound: one way only for general terms, as the search it rests on; `InitCover.ConstantsExact` is both ways over constants.
- RangeJudge.SplitEntries: for lines that all end at a break, other than a carriage return alone.
- StringMeaning.ListedIsEval: for expressions that use no variable twice, because a second use makes it false.
- RuntimeBounds.ProvesIff: for facts that can hold together; contradictory facts imply everything and the search does not say so, but what it does say of them is `RuntimeBounds.ProvesChain`.
- InitJudge.ObligationExact: for a claim on one line, as the compiler's callers build it from names and terms.
- SelfWait.CleanMeansNoSelfWait: about calls by name, the last row of a name standing for it; `SelfWaitTable.CleanMeansNoWait` is about the table. In both an indirect call is an entry `*` that leads nowhere.
- MutationGuard.CleanMeansGuarded: about calls by name; `MutationGuardTable.CleanMeansExcluded` is about the table.
- ReleaseLog.CleanMeansLogged: about calls by name; `ReleaseLogTable.CleanMeansLoggedIn` is about the table.
- SelfWaitTable.RightIff: for rows of which no two have one name, file and line, since such a row could not be named.
- The columns and cells of the call graph table (`scripts/call_graph_table.py`): the model starts from parsed rows.
- The order in which names are reported (`sorted`), here the order they are met in.
- The regular expressions that sort DWARF lines, instructions and stores: the model starts from sorted lines and instructions.
- Python's syntax tree and the regular expression that collects constants: `StringValues` starts from the enclosing nodes of each name, what each binds, and the constants, each one string or a tuple of strings. Adjacent literals, class bodies, `async`, `global` and `nonlocal` are not modelled, and a function is taken to be called while the loops around it run.
- StringMeaning.HoleCoveredIff: under a change of case, for conversions that leave digits alone, as Python's do. Formats other than `!r` and a minimum width are not modelled.
- AllowEdit.Edit: for text without carriage returns, which is what `read_text` gives; reader cells are kept but not checked against the uses table.
- Sctlr.WrittenClearIff: for straight-line code with one destination to an instruction. A store-exclusive counts as having no destination, as in the check's pattern. The check of WXN is not modelled: it collects bits of every `orr`, whether or not they reach the write.
- ByteCopy.LongestRuns: which of several longest runs is kept is left open, as it depends on the order of a set.
- The controls planted in each check, and the checks that are one comparison (document counts, inventories, budgets, naming).
