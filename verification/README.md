# codecalc: a verified model of its hardest parts

codecalc is a calculator and code-analysis server. This project models, in Dafny 4.11, five of its
components and proves what they promise:

- **Branch reachability** (`codecalc/branch_reachability.py`): a symbolic executor for a small Python
  subset that labels each branch arm `reachable` (with a witness input), `dead` or `unknown`.
- **Output capture and the capability-probe cache** (`codecalc/executor.py`).
- **Exact arithmetic** (`codecalc/exact.py`): radix conversion, exact roots and powers, size
  ceilings, fixed-width shifts and rotations.
- **The audit log** (`codecalc/audit.py`): append with rotation, under failures of any file step.
- **The loop counter** (`codecalc/complexity.py`): an indentation stack.

`dafny verify dfyconfig.toml` checks the whole project.

## How the branch analysis is modelled

`PySubset` is the accepted syntax. `Interp` is Python's own meaning of it: a concrete interpreter that
records the arms it enters. `Terms` is the solver's language with its evaluation. `Walk` is the
symbolic walk as a pure function whose result includes a log of what it reported, in order: visited
arms with their path conditions, arms passed over unsolved, and the begin and end of unrolled loops.
`Verdicts` replays that log through a solver oracle, the aggregation frames and the entry cap.
`Context` is the walk as it is actually carried out, one object updated in place with raised and
lowered depths and a one-shot signal; every one of its methods is proved to do what the pure walk
says. The remaining modules relate walk and interpreter:

| module | result |
|---|---|
| `Scope`, `Placement` | what the text bounds: lines and variables of runs and of walks |
| `Agreement`, `Joins` | terms and joined environments evaluate to the concrete state |
| `Reach`, `LongLoops` | an input that satisfies a reported condition enters the arm; loops above the cap |
| `ExactTrace` | with every loop unrolled, selected arms and entered arms are the same sequence |
| `AnyStore`, `Coverage` | what approximated loops may claim after any number of iterations |
| `Careful`, `Tracking`, `Following` | when passing over guards and may-return loops leaves `dead` right |
| `Tame` | a condition on the program's text that implies it |
| `Necessity` | each of those conditions is exact over all continuations |
| `Dead` | for walks that pass nothing over: every arm entered has a report its input satisfies |
| `Depths`, `Outline` | the depths reported with an arm, and the log itself, as the text determines them |
| `Typing`, `Clear` | a type system and a reading of the text that decide what is `supported` |
| `Isolation` | no tainted symbol reaches the solver |
| `Aggregation` | ranks, frames, nesting and the cap: the report entry by entry |
| `Answers` | which solver answers make a line `reachable`, `dead` or `unknown` |
| `Analysis` | what a finished report may say: no false `reachable`, no false `dead` |
| `Completeness` | what a finished report must say: no missed `reachable`, no missed `dead` |
| `Counterexamples`, `Limits` | where the code claims too much, and which inputs it loses |

A run-time value is an `int`, with `True` as 1 and `False` as 0. A `while` is run with a bound on its
iterations and every theorem holds for every bound; a run that outlasts it is `Stuck` at that line, as
is one that an exception aborts. The solver is any function from a call number and a term to an
answer, so it may give up at any call; `Sound` says that its models satisfy and its refutations hold,
and `Decisive` that it never gives up.

## Where the code and its documentation disagree

The model follows the code in each case.

- **False `dead` after a loop that may return** (`codecalc/branch_reachability.py:1303-1312`): the code
  after the loop keeps the first iteration's condition, which includes entering it, so inputs that skip
  the loop are lost. The documentation at 764-774 says an unsatisfiable condition stays a proof.
  `Counterexamples.FalseDeadAfterMayReturnLoop` is a program; `Limits.EntryDecidesContinuation` says
  that exactly the inputs that skip the loop are lost.
- **False `dead` after a guard that was passed over** (962-987, 1408-1412): the environment is kept
  although the skipped arms may assign. `Counterexamples.FalseDeadAfterPassedOver` is a program.
- **False `dead` in an unrolled loop**: an arm nested under a guard that is passed over in some
  iterations is judged by the others alone. `Counterexamples.FalseDeadInSkippedIteration` is a program.

  For all three, `Analysis.DeadIsDead` says when `dead` is right: nothing on the line is inside a
  statement that is passed over and, before the line, no such statement binds a variable whose value
  is still exact and every loop that may return is entered by every input that reaches it.
  `Analysis.DeadIsDeadByText` replaces this by a condition on the text. The conditions are exact over
  continuations: whatever careful code follows, `dead` is right of all of it if and only if the loop
  is always entered (`Necessity.RightIffAlwaysEntered`), if and only if no run through the statement
  changes an exact variable (`Necessity.RightIffLeavesExact`), and, for a line that is also inside the
  statement, if and only if no run enters it there (`Necessity.RightIffNotInside`).
  `Necessity.FalseDeadAfterAnyLoop` makes a false `dead` out of any loop that may return and that some
  input skips.
- **False `reachable` in a `for` above the unroll cap** (1269-1278): the index is any number between
  the bounds, whatever the stride, and is paired with the state before the loop. The comment there
  calls it sound. `LongLoops.FalseReachableByStride`, `LongLoops.FalseReachableAfterReturn` and
  `LongLoops.FalseReachableAfterRebinding` are families of programs. `Analysis.ReachableIsReal` says
  when `reachable` is right: the stride is 1 or -1, no iteration returns, and none binds a variable
  bound before the loop; `LongLoops.RealIffUnitStride` says that the stride is needed whenever the
  other two hold.
- **Radix results are cut without notice** (`codecalc/exact.py:1068-1075`): a terminating fraction that
  needs more than 100 digits is printed short with `non_terminating` false. `Radix.RadixConvert` says
  that the value is right exactly when 100 digits suffice; `Radix.UnannouncedCut` converts a family of
  binary fractions that are cut.
- **The probe cache has an import-time window** (`codecalc/executor.py:1693-1694`): see
  `ProbeCache.LinearizableIffImportAgrees`.
- **A left shift of zero is flagged as overflow** (`codecalc/exact.py:1278-1280`) when the count
  reaches the width, though no bit is dropped. `FixedWidth.LeftShiftMultiplies` has the exact condition.

## Model

| member | source | states |
|---|---|---|
| `Analysis.ReachableIsReal` | codecalc/branch_reachability.py:755-791 | No false `reachable`, for every program, with `while` loops, above-cap loops, tainted and untranslatable guards: the witness is a legal input and its run enters the arm, or never gets past a `while` or expression statement that the walk had passed before reporting it, or stops in an earlier iteration of an above-cap loop around it. Left out are only lines inside above-cap loops whose stride is not one, that may return, or that bind a variable bound before. |
| `Analysis.WithinCapReachableIsReal` | codecalc/branch_reachability.py:755-791 | With every `for` within the cap no line is left out, and only what was passed before the arm can stop the run. |
| `LongLoops.RealIffUnitStride` | codecalc/branch_reachability.py:1260-1278 | Over an above-cap range, every claim about every body that neither returns nor binds a caller's variable is met by the witness's run, if and only if the stride is 1 or -1. |
| `LongLoops.FalseReachableByStride` | codecalc/branch_reachability.py:1269-1278 | For every above-cap range with another stride, an arm whose condition is satisfiable and that no run enters. |
| `LongLoops.FalseReachableAfterReturn` | codecalc/branch_reachability.py:1269-1278 | The same with stride one, where the first iteration returns. |
| `LongLoops.FalseReachableAfterRebinding` | codecalc/branch_reachability.py:1269-1278 | The same with stride one, where the first iteration changes a variable. |
| `Analysis.DeadIsDead` | codecalc/branch_reachability.py:755-791 | No false `dead` on a line that the walk is careful about: nothing on it is inside a statement passed over and, before it, no such statement binds a variable whose value is still exact and every loop that may return is entered by every input that reaches it. Then a line whose every entry is `dead` is entered by no run on any input. |
| `Analysis.DeadIsDeadByText` | codecalc/branch_reachability.py:755-791 | The same when the result is `supported` and the text is tame: what approximated loops bind is loose, and so is what is computed from it; a guard that reads a loose variable has nothing on the line inside and, before the line, binds only new variables; loops before the line that may return are `while True`. |
| `Analysis.DeadWhenResolved` | codecalc/branch_reachability.py:755-791 | The same when nothing was passed over and the line was reported with no unresolved closure before it. |
| `Necessity.RightIffAlwaysEntered` | codecalc/branch_reachability.py:1303-1312 | At any point of a walk, for a loop that may return and whose guard value is kept in a variable the body does not bind: `dead` is right of every careful continuation if and only if every input that reaches the loop enters it. |
| `Necessity.RightIffLeavesExact` | codecalc/branch_reachability.py:962-987 | For a statement passed over, tainted or untranslatable, whose exact variables have copies: `dead` is right of every careful continuation if and only if no run through it changes an exact variable. |
| `Necessity.RightIffNotInside` | codecalc/branch_reachability.py:962-987 | For a line that is inside the passed-over statement as well and reported dead elsewhere: `dead` is right if and only if no run through the statement enters it. |
| `Necessity.FalseDeadAfterAnyLoop` | codecalc/branch_reachability.py:1303-1312 | Whole programs: any loop that may return, after its guard is copied and before the copy is asked, has its last line reported dead and entered by any input that skips the loop. |
| `Following.BlockFollows` | codecalc/branch_reachability.py:1343-1452 | In a careful walk, a run that enters an arm on the line has a report there that its input satisfies or that does not conclude `dead`; while the line is still to come, condition and environment describe every run that falls through. |
| `Following.SkipFollows` | codecalc/branch_reachability.py:1404-1412 | Passing over a statement keeps environment and store in agreement, and flags the line if it is the statement's own. |
| `Tracking.BlockTracked` | codecalc/branch_reachability.py:1343-1452 | From any store, an arm entered on the line is in the log, and a variable that keeps its binding and is not tainted keeps its value. |
| `Tame.BlockTamed` | codecalc/branch_reachability.py:686-735 | The walk of a tame text in which every guard translates is careful, and only loose variables are ever tainted. |
| `Analysis.SupportedIsResolved` | codecalc/branch_reachability.py:1404-1412 | With every loop unrolled, the result is `supported` if and only if nothing was passed over. |
| `Analysis.ExactVerdicts` | codecalc/branch_reachability.py:1066-1162 | With every loop unrolled and the result `supported`, the arms whose path conditions hold of an input are, in order and iteration by iteration, the arms its run enters, up to the point where an expression statement aborts it. |
| `Analysis.EnteredIffSatisfiable` | codecalc/branch_reachability.py:863-894 | In that fragment an arm entered on some input has a satisfiable path condition; if no run is aborted, the converse holds as well. |
| `Analysis.ConditionsAreOverParameters` | codecalc/branch_reachability.py:955-1022 | Within the cap every path condition is over the parameters only, so the witness carries all of the model that matters. |
| `Analysis.WitnessServes` | codecalc/branch_reachability.py:528-552 | A witness read off a partial model, with defaults, satisfies every condition over the parameters that the model satisfies. |
| `Analysis.TaintIsNeverSolved` | codecalc/branch_reachability.py:686-735 | Unless a parameter bears the very name of a minted symbol, no condition handed to the solver mentions any tainted name, minted before or after it, through assignments, joins and nested loops, above-cap loops included. |
| `Analysis.MintedNamesAreMarked` | codecalc/branch_reachability.py:511-526 | Every minted name begins with the prefix that marks them. |
| `Analysis.UntaintedSurvivesWhile` | codecalc/branch_reachability.py:1290-1294 | With nothing passed over in the body, a variable left untainted has its pre-loop value at every exit, after any number of iterations. |
| `Analysis.ClosedBodyExits` | codecalc/branch_reachability.py:1296-1302 | When the body walk never falls through, the loop is left exactly from the stores whose guard is false at once, and left unchanged. |
| `Analysis.ClosedCopyEndsLoop` | codecalc/branch_reachability.py:1141-1162 | Once the k-th copy closes, whatever was unresolved before, the unrolled loop never falls through on any store and nothing that later copies report is satisfiable. |
| `Completeness.ReportIsExact` | codecalc/branch_reachability.py:755-791 | Every loop unrolled, the program well typed, no run aborted, a sound solver that never gives up and nothing dropped: the analysis accepts, a line has a `reachable` entry if and only if some input enters it, and nothing but `dead` if and only if none does. |
| `Completeness.EnteredIsReachable` | codecalc/branch_reachability.py:755-791 | No missed `reachable`, `while` loops and above-cap loops included: with nothing passed over and no approximated loop that may return, a line that some run enters has a `reachable` entry, unless it lies in a loop of which the run reaches an iteration the walk does not describe. |
| `Completeness.FirstIterationsAreReachable` | codecalc/branch_reachability.py:1177-1317 | With every `for` within the cap, whatever is entered when each `while` makes at most one iteration has a `reachable` entry, the bodies of the loops included. |
| `Completeness.ReachableByText` | codecalc/branch_reachability.py:1177-1317 | The same under conditions on the text alone: well typed, no guard reads a variable that a loop may bind or what is computed from it, no approximated loop returns. |
| `Completeness.InfeasibleIsDead` | codecalc/branch_reachability.py:755-791 | With nothing passed over, a line outside the approximated loops has nothing but `dead` if and only if no arm on it has a condition with a model. |
| `Completeness.DecisiveReport` | codecalc/branch_reachability.py:755-791 | For a sound solver that never gives up, a line has a `reachable` entry if and only if an arm on it that no unresolved closure precedes has a condition with a model. |
| `Completeness.SupportedByText` | codecalc/branch_reachability.py:1404-1440 | If no guard reads a loose variable, the program is accepted and `supported` if and only if it is well typed, and then nothing is passed over. |
| `Answers.ReachableIff` | codecalc/branch_reachability.py:755-791 | A complete report claims a line reachable if and only if the solver, asked in turn, gave a model for an arm on it that no unresolved closure precedes, whatever loops surround it. |
| `Answers.AllDeadIff` | codecalc/branch_reachability.py:755-791 | It gives a line nothing but `dead` if and only if every arm reported there was visited outside approximated loops and refuted. |
| `Answers.ListedIff` | codecalc/branch_reachability.py:863-912 | It lists a line if and only if something on it was reported. |
| `Answers.EntryExplained` | codecalc/branch_reachability.py:755-791 | Each entry belongs to an item of the log, and its verdict, witness and reason are those of that item's answer and depths. |
| `Typing.TranslatesIffTyped` | codecalc/branch_reachability.py:555-655 | An expression translates if and only if it is well typed with every name bound, and the term's sort is its type. |
| `Typing.SupportedIffTyped` | codecalc/branch_reachability.py:1343-1452 | A program in which no guard is passed over for taint is accepted and `supported` if and only if it is well typed: names bound on every path, bool guards, joins that agree on types, loops included. |
| `Typing.UnrolledSupportedIffTyped` | codecalc/branch_reachability.py:1066-1162 | With every loop unrolled that holds without the proviso, and a well-typed program passes nothing over. |
| `Typing.RefusedForAssignment` | codecalc/branch_reachability.py:1404-1452 | Only an assignment outside every `if` and loop can have a program refused. |
| `Clear.BlockIsClean` | codecalc/branch_reachability.py:686-735 | If no guard reads a loose variable, no guard is passed over for taint and taint stays among the loose variables. |
| `Outline.BlockOutlined` | codecalc/branch_reachability.py:1343-1452 | When nothing is passed over, the log is the text's outline: every arm up to a closing return, in order, the body of an unrolled loop once for each iteration between one opening and one closing of a frame; and the walk closes if and only if every path of the text returns. |
| `Depths.BlockFlat` | codecalc/branch_reachability.py:1279-1317 | An arm is reported inside an approximated loop only if its line is in one, and after an unresolved closure only if something was passed over or an approximated loop may return. |
| `Scope.ReturnIsFound` | codecalc/branch_reachability.py:1165-1174 | The scan finds a `return` if and only if one occurs at some depth. |
| `Interp.ElseRunsItsBlock` | codecalc/branch_reachability.py:955-1022 | An `elif` is an `else` whose block is that one `if`: naming the arm so changes nothing that it does. |
| `Ranges.RangeIsProgression` | codecalc/branch_reachability.py:1055-1061 | The values of a range: start plus multiples of the stride, as many as fall short of the bound. |
| `Ranges.EveryIndexInside` | codecalc/branch_reachability.py:1260-1278 | The representative iteration of an above-cap loop admits every index that the loop takes. |
| `Agreement.TranslateIsSound` | codecalc/branch_reachability.py:555-655 | A translated, untainted expression evaluates to Python's value of it, short-circuit operators, floor division and `abs`/`min`/`max` included. |
| `Joins.BlockExact` | codecalc/branch_reachability.py:1343-1452 | Join correctness: the continuation condition holds of an input that reached the block exactly when its run falls through, up to a stuck run, and the returned environment then evaluates to the concrete store. |
| `Joins.MergeAgrees` | codecalc/branch_reachability.py:915-952 | The joined environment, with its if-terms and dropped one-arm variables, describes the store that the arm taken has left. |
| `Joins.CopiesExact` | codecalc/branch_reachability.py:1109-1162 | Chaining the copies through each copy's continuation equals running the loop, the final loop variable included. |
| `Joins.WhileExact` | codecalc/branch_reachability.py:1177-1317 | The same for an approximated `while` whose closure is resolved. |
| `Reach.BlockReached` | codecalc/branch_reachability.py:1343-1452 | Every arm reported with no unresolved closure whose condition an input satisfies, outside the above-cap loops left out, is entered by that input's run, or the run is stuck earlier. |
| `Reach.IterationReached` | codecalc/branch_reachability.py:1269-1278 | In an above-cap loop with stride one that neither returns nor binds a variable bound before, the iteration at the model's index starts from a store that the walk's environment describes and enters every arm the model claims, or the run is stuck in an earlier iteration. |
| `Dead.BlockJustified` | codecalc/branch_reachability.py:1177-1317 | When nothing in the block was passed over, every arm a run enters has a report that its input satisfies, or one made after an unresolved closure, or one inside a loop of which the run reaches an iteration after the first of a `while`, or any of an above-cap `for`. |
| `Dead.IterationJustified` | codecalc/branch_reachability.py:1260-1278 | In an above-cap loop, an iteration on any index of the range, from a store that the environment describes, enters only arms whose reports the model with that index satisfies. |
| `Coverage.BlockCovered` | codecalc/branch_reachability.py:1343-1452 | When nothing in the block was passed over: from any store that binds the environment's variables, every arm that a run enters is in the log, and bindings that survive the walk are variables that no run changes. |
| `AnyStore.ClosedNeverFalls` | codecalc/branch_reachability.py:1343-1452 | A block whose walk reports that it does not fall through falls through from no store. |
| `ExactTrace.BlockMatches` | codecalc/branch_reachability.py:955-1022 | Selected arms and entered arms are the same sequence, a prefix of it if the run is aborted. |
| `ExactTrace.CopiesMatch` | codecalc/branch_reachability.py:1109-1162 | Unrolling preserves meaning: the chained copies select exactly what the iterations enter. |
| `Isolation.BlockKnown` | codecalc/branch_reachability.py:511-526 | Each bound term is tainted or built from known symbols only, and each reported condition is built from known symbols. |
| `Aggregation.LoopAggregates` | codecalc/branch_reachability.py:475-509 | An unrolled loop, however nested inside, adds one entry per line, lines in the order of their first decision: the first of the line's decisions that none of them outranks, appended up to the cap with `truncated` set iff one was dropped. |
| `Aggregation.Summary` | codecalc/branch_reachability.py:475-499 | Inserting decisions one by one keeps exactly those: one per line, in the order of first decision, each the first of highest rank. |
| `Aggregation.ReplayMerges` | codecalc/branch_reachability.py:501-509 | Frames within frames: at any moment the open frames, merged, are what one frame would hold of all the decisions made. |
| `Analysis.ReportInFull` | codecalc/branch_reachability.py:475-509 | A report with nothing dropped is, entry by entry: one for each decision outside unrolled loops and, for each outermost unrolled loop, those that sum up the decisions inside it. |
| `Aggregation.CapIsPrefix` | codecalc/branch_reachability.py:863-912 | A report capped at k is the first k entries of any report with more room, and `truncated` iff that one has more. |
| `Aggregation.EntriesAreDecisions` | codecalc/branch_reachability.py:475-509 | Every entry of an untruncated report is a decision made for an item of the walk, witness included. |
| `Aggregation.DecisionsAreDominated` | codecalc/branch_reachability.py:475-509 | Every decision is matched or outranked by an entry for its line. |
| `Aggregation.FrameIsolated` | codecalc/branch_reachability.py:501-509 | Work inside a frame changes neither the report nor the frames below, and frames keep one entry per line. |
| `Counterexamples.FalseDeadAfterMayReturnLoop` | codecalc/branch_reachability.py:1303-1312 | A program with an arm reported `dead` that an input enters by skipping the loop. |
| `Counterexamples.FalseDeadAfterPassedOver` | codecalc/branch_reachability.py:962-987 | A program with an arm reported `dead` that every input enters. |
| `Counterexamples.FalseDeadInSkippedIteration` | codecalc/branch_reachability.py:1109-1162 | A program whose line is `dead` in every report made of it, with no unresolved closure before, and is entered in an iteration that was passed over. |
| `Counterexamples.MintedNameIsSolved` | codecalc/branch_reachability.py:511-526 | A program with a parameter that bears a minted name: a condition handed to the solver mentions a tainted name. |
| `Limits.EntryDecidesContinuation` | codecalc/branch_reachability.py:1303-1312 | After a `while` that may return and whose body is resolved or walked carefully, an input that gets past it satisfies the continuation if and only if it enters the loop. |
| `Context.MentionsTainted` | codecalc/branch_reachability.py:686-735 | The worklist finds a tainted symbol if and only if one occurs anywhere in the term. |
| `Context.Ctx.CommitBranch` | codecalc/branch_reachability.py:475-499 | One entry into the top frame or the capped report, as the specification says. |
| `Context.Ctx.FlushUnrollFrame` | codecalc/branch_reachability.py:501-509 | Popping a frame and recommitting its entries one by one is the specified flush. |
| `Context.Ctx.Record` | codecalc/branch_reachability.py:863-894 | Solves and commits one arm at the current depths, or flags truncation without solving; what the entry is follows from `Answers.EntryExplained`. |
| `Context.Ctx.RecordUnsolved` | codecalc/branch_reachability.py:897-912 | Records `unknown` for an arm that was passed over; a failed translation clears `supported`. |
| `Context.Ctx.WalkBlock` | codecalc/branch_reachability.py:1343-1452 | The in-place block walk reports, returns and signals exactly what the pure walk does, and restores both depths. |
| `Context.Ctx.TryCompound` | codecalc/branch_reachability.py:1404-1440 | A translation error becomes an opaque pass-through that is signalled as unresolved. |
| `Context.Ctx.WalkIf` | codecalc/branch_reachability.py:955-1022 | The same for if/elif/else; sibling arms never see each other's leftover signal. |
| `Context.Ctx.WalkCopies` | codecalc/branch_reachability.py:1109-1162 | The same for the chain of copies, with the depth raised once and restored. |
| `Context.Ctx.WalkWhile` | codecalc/branch_reachability.py:1177-1317 | The same for an approximated `while`. |
| `Context.Ctx.WalkForAboveCap` | codecalc/branch_reachability.py:1260-1317 | The same for a `for` above the cap. |
| `Context.Ctx.LeaveLoop` | codecalc/branch_reachability.py:1286-1317 | Taints what the body rebound and passes on what of the loop's closure may be trusted. |
| `Context.RunAnalysis` | codecalc/branch_reachability.py:1541-1546 | The report left behind is the specified one, and `supported` is down iff a guard failed to translate. |
| `OutputCapture.BoundedDrain.Drain` | codecalc/executor.py:611-627 | Whatever the chunking, keeps the first cap + 1 bytes, counts all of them and records an error. |
| `OutputCapture.CutUtf8` | codecalc/executor.py:787-797 | The loop computes the specified cut. |
| `OutputCapture.SplitOutputBudget` | codecalc/executor.py:800-833 | The in-place computation is the specified split. |
| `OutputCapture.SharesAreFair` | codecalc/executor.py:817-825 | When over budget the shares sum to exactly the cap, each is at least min(length, cap // 2), and one falls short only if the other used its guarantee. |
| `OutputCapture.TruncatedIffOver` | codecalc/executor.py:800-833 | The flag is up iff the total exceeds the cap; otherwise both streams are whole, and if so each is whole or cut within three bytes of its share. |
| `OutputCapture.BoundedCaptureRefines` | codecalc/executor.py:811-815 | Splitting two buffers of cap + 1 bytes gives the outputs and flag of splitting the full streams. |
| `OutputCapture.Capture` | codecalc/executor.py:585-649 | For every chunking of both streams and every cap, drain then split equals splitting what was received, and `seen` is the true length, or absent after an error. |
| `OutputCapture.ValidIsEncoded` | codecalc/executor.py:787-797 | Validity as the cut promises it, with the byte ranges of section 4 of RFC 3629: a byte string is valid if and only if it encodes a sequence of code points. |
| `OutputCapture.CutIsLastBoundary` | codecalc/executor.py:787-797 | On valid UTF-8 the cut is the last character boundary within the budget, at most three bytes below it. |
| `OutputCapture.CutStreamIsValid` | codecalc/executor.py:828-831 | A cut stream that was valid UTF-8 is still valid before the marker. |
| `ProbeCache.LinearizableIffImportAgrees` | codecalc/executor.py:1687-1741 | Over every interleaving of callers and replacements, each call returns the answer of a version installed between its start and its return, if and only if the import-time probe and stat saw versions that answer alike. |
| `ProbeCache.RunKeepsInv` | codecalc/executor.py:1728-1741 | Every run keeps the invariant: the cached pair belongs together, calls in flight are traceable, finished ones linearizable. |
| `ProbeCache.StaleImport` | codecalc/executor.py:1692-1694 | If the two import-time steps saw versions that answer differently, the first call is served a stale answer. |
| `ProbeCache.PublishedIdentityHits` | codecalc/executor.py:1731-1741 | Two calls that saw the same changed identity cost one probe: over any interleaving after the first has published, short of another identity being published, the second cannot probe and returns the published answer. |
| `Radix.RadixConvert` | codecalc/exact.py:982-1084 | Fails exactly on bad bases or digits; digits are below the base; the printed magnitude is at most the input's and less than one unit in the last place below it, equal iff 100 fraction digits suffice, and flagged iff no number of digits does. An exact result has no trailing zero, a cut terminating one has 100 digits, and a flagged one has 64 or stops at the first remainder that came before. |
| `Radix.Terminates` | codecalc/exact.py:1049-1056 | The gcd-stripping loop answers yes iff the reduced denominator divides some power of the base. |
| `Radix.IntegerDigits` | codecalc/exact.py:1027-1035 | The digits denote the integer, are below the base and carry no leading zero. |
| `Radix.RepeatingDigits` | codecalc/exact.py:1058-1067 | Long division with a nonzero remainder: at most 64 digits; no remainder came before among the proper prefixes, and with fewer than 64 the last one did. |
| `Radix.TerminatingDigits` | codecalc/exact.py:1068-1075 | Long division that stops as soon as nothing remains: no proper prefix of the digits suffices, exactly 100 digits if something remains, complete iff the denominator divides the base to the 100th. |
| `Radix.DigitsInOrder` | codecalc/exact.py:982-1012 | Digits are read and printed by their place in the one table. |
| `Radix.EllipsisEnds` | codecalc/exact.py:1076-1084 | A flagged result is printed as an unflagged one is, with an ellipsis after the last digit. |
| `Radix.ReadPart` | codecalc/exact.py:995-1012 | Accumulates a digit string to its positional value and scale, or finds the invalid digit. |
| `Radix.ReadBack` | codecalc/exact.py:1076-1084 | Round trip: a result printed without an ellipsis reads back as the number converted. |
| `Radix.UnannouncedCut` | codecalc/exact.py:1068-1075 | The base-2 text 0.0...01 with 100 or more zeros after the point, converted to base 10, is printed below its value with nothing flagged. |
| `Radix.PowerEndsIn` | codecalc/exact.py:1049-1056 | A negative power of two ends in base 10 after as many digits as its exponent and no fewer. |
| `ExactPower.SqrtIsComplete` | codecalc/exact.py:192-200 | For every rational in lowest terms a root is returned iff some rational squares to it, and it is in lowest terms and squares to it. |
| `ExactPower.PowerIsRepeated` | codecalc/exact.py:143-166 | An exact power is in lowest terms and is repeated multiplication, or for a negative exponent the inverse of it. |
| `ExactPower.IntegralPower` | codecalc/exact.py:143-166 | The same of the power as a whole, for an integral exponent. |
| `ExactPower.PowerLaws` | codecalc/exact.py:143-166 | The power at 0 is 1, at 1 the base, and at k + 1 the power at k times the base, for every integer k where both are exact. |
| `ExactPower.PowerFails` | codecalc/exact.py:143-166 | Division by zero exactly for base 0 and a negative exponent within the limit; refused only beyond the limits. |
| `ExactPower.HalfPowerSquares` | codecalc/exact.py:167-176 | A half-integer power taken on the exact path is in lowest terms, not negative, and its square is the base multiplied by itself, or the inverse of that. |
| `ExactPower.ZeroToNegative` | codecalc/exact.py:143-176 | A power divides by zero exactly for base 0 and a negative exponent within the limit, integral or a half. |
| `ExactPower.FloatPathIff` | codecalc/exact.py:167-176 | The exact path is left exactly for denominators above 2, and for 2 when no rational squares to the base. |
| `ExactPower.PowerFits` | codecalc/exact.py:143-166 | A power that passes the prediction has numerator and denominator within the bit limit, or is 1 for exponent 0. |
| `ExactPower.ShiftPredictionIsExact` | codecalc/exact.py:94-113 | The predicted length of a left shift is exactly the result's, so it is refused iff the result would exceed the limit. |
| `ExactPower.ShiftsRoundTrip` | codecalc/exact.py:94-113 | A right shift undoes a left shift, for negative numbers as well. |
| `ExactPower.RightShiftFloors` | codecalc/exact.py:94-113 | A right shift is the floor of the quotient by the power of two, for negative numbers as well. |
| `FixedWidth.RotateRightUndoesLeft` | codecalc/exact.py:1296-1303 | For every count a right rotation undoes a left one, and bit i moves to bit i + count modulo the width. |
| `FixedWidth.LeftShiftMultiplies` | codecalc/exact.py:1277-1285 | For every count the result is the product modulo the width; flagged iff bits are dropped, or zero is shifted by the width or more. |
| `FixedWidth.RightShiftDivides` | codecalc/exact.py:1286-1291 | For every count a logical right shift is division. |
| `FixedWidth.ArithmeticShiftFloors` | codecalc/exact.py:1292-1295 | For every count, past the width too, an arithmetic right shift is floor division of the signed reading. |
| `FixedWidth.ReadingsAgree` | codecalc/exact.py:1221-1304 | For every operation and count, both readings are in range and differ by nothing or by the width's power of two; the errors are exactly a width other than 8, 16, 32, 64 and a negative count; only a left shift can flag overflow. |
| `AuditTrail.HistoryIsContiguous` | codecalc/audit.py:196-238 | After any sequence of emits, with any threshold at each and any failures, the generations from oldest to live concatenate to a suffix of the events successfully written. |
| `AuditTrail.EmitKeepsSuffix` | codecalc/audit.py:196-238 | One emit keeps that, whichever step of it fails. |
| `AuditTrail.RotationLosesOldest` | codecalc/audit.py:175-194 | A rotation, complete or broken off, loses exactly the oldest generation or nothing. |
| `AuditTrail.ShiftKeepsHistory` | codecalc/audit.py:190-193 | The renames go into empty slots only; whichever of them fails, nothing is lost or reordered. |
| `AuditTrail.WrittenBelowThreshold` | codecalc/audit.py:214-235 | Unless the stat failed, an event that is written starts a file or joins one that was below the threshold. |
| `AuditTrail.FaultFreeEmit` | codecalc/audit.py:196-238 | With no fault the event is always written: appended to the live file below the threshold, and otherwise alone in a new one over rotated generations. |
| `AuditTrail.RotationMovesUp` | codecalc/audit.py:175-194 | With no fault each generation moves up by one and the oldest goes. |
| `AuditTrail.AuditLog.Rotate` | codecalc/audit.py:175-194 | The in-place rotation is the specified one and no rename ever overwrites a file. |
| `AuditTrail.AuditLog.EmitEvent` | codecalc/audit.py:196-238 | Never fails outward; leaves the files as specified, keeps the history invariant and warns iff the event was dropped. |
| `LoopNesting.CountLoops` | codecalc/complexity.py:41-57 | Counts the loop lines, and the depth is the length of the longest chain of enclosing loops. |
| `LoopNesting.Consider` | codecalc/complexity.py:47-56 | After each line the stack is strictly increasing and is the indents of the loops whose indent is below that of every later considered line. |

## Left out

- String parameters and `len`, boundary inputs, suggested inputs and condition texts of the branch analysis; programs that rebind `abs`, `min`, `max`, `len` or `range`.
- The scan for unsupported constructs that runs first: divisors of `//` and `%` are positive literals, ranges are literal, and the statements are those modelled.
- z3 itself and the wall clock: the solver is an oracle that may decline any call.
- The value of a `return` is not evaluated; n-ary `and`, `or`, `min`, `max` are nested binary ones.
- Tainted names are numbered from 1 as in the source, but once per loop rather than once per variable; they stay distinct, since the variable is part of the name.
- Analysis.TaintIsNeverSolved: not where a parameter bears the name of a minted symbol, which the source does not exclude and where it is false, by `Counterexamples.MintedNameIsSolved`.
- Analysis.DeadIsDead: one direction for a single program, where a skipped assignment may store the value already there; the `Necessity` results are the other half, over all careful continuations.
- Analysis.DeadIsDeadByText: assumes that no parameter's name begins with the prefix of minted names.
- Completeness.EnteredIsReachable: not where something was passed over or an approximated loop may return, where the code answers `unknown`, or wrongly `dead` by the counterexamples above; nor for lines that only a later iteration of a `while` enters, since the code walks one.
- Completeness.ReportIsExact: where an expression statement aborts a run, `Analysis.ExactVerdicts` speaks of the arms before it.
- Analysis.ReachableIsReal: not for lines inside above-cap loops that have another stride, may return, or bind a variable bound before, where it is false in general.
- Ordering comparisons of two bools are translated like those of two ints; the source builds them on solver terms of bool sort, which may define none.
- AuditTrail.WrittenBelowThreshold: says nothing when the stat fails, since the size is then unknown to the code.
- The spawning, killing and reaping of processes, resource limits, and the threads that run the two drains.
- A binary that is absent, a failing stat and recurring identities in the probe cache.
- Trimming and lower-casing of radix input.
- The binary64 path of powers, `&`, `|`, `^` and the logical operations of `bitop`, SymPy, statistics and float formatting.
- A line of the audit log that is written in part, redaction, timestamps, and a log with no path.
- The patterns that recognise loops and comments: each line's classification is an input of the loop counter.
- Everything else in the repository: capability gates, packs, sessions, confirmation, schemas, views and build scripts.
