/**
  What a finished report must say. The converses of "no false `reachable`" and "no false `dead`": a
  line that a run enters is claimed reachable, and a line that no run enters is reported dead.
 */
module Completeness {
  import opened PySubset
  import opened Interp
  import opened Terms
  import opened Walk
  import opened AnyStore
  import opened Scope
  import opened Tracking
  import opened Reach
  import opened Depths
  import D = Dead
  import opened Typing
  import opened Isolation
  import opened Clear
  import opened Verdicts
  import opened Answers
  import opened Analysis

  // The solver never gives up.
  ghost predicate Decisive(solver: Solver) {
    forall k, t :: !solver(k, t).NoAnswer?
  }

  // Some arm on the line has a condition with a model, and no unresolved closure precedes it.
  ghost predicate Feasible(log: seq<Item>, line: int) {
    exists i: nat, m :: Tried(log, i, line) && Holds(log[i].cond, m)
  }

  predicate Tried(log: seq<Item>, i: nat, line: int) {
    ReportsOn(log, i, line) && log[i].Visit? && log[i].unres == 0
  }

  // What a sound solver that never gives up makes of a line.
  lemma DecisiveReport(params: Params, body: Block, max: nat, solver: Solver, line: int)
    requires Sound(solver) && Decisive(solver)
    requires Analyze(params, body, max, solver).Some? && !Analyze(params, body, max, solver).value.truncated
    ensures ClaimsReachable(Analyze(params, body, max, solver).value, line)
       <==> Feasible(WalkProgram(params, body).log, line)
  {
    var rep, log := Analyze(params, body, max, solver).value, WalkProgram(params, body).log;
    WholeReport(params, body, max, solver);
    ReachableIff(rep, log, max, solver, params, line);
    if i: nat, m :| Tried(log, i, line) && Holds(log[i].cond, m) {
      var answer := solver(Calls(log[..i]), log[i].cond);
      assert answer.Sat?;
      assert Answered(log, i, solver, Sat(answer.model));
      assert ReportsOn(log, i, line) && Witnessed(log, i, solver);
    }
    if i: nat :| ReportsOn(log, i, line) && Witnessed(log, i, solver) {
      var m :| Answered(log, i, solver, Sat(m));
      assert Tried(log, i, line) && Holds(log[i].cond, m);
    }
  }

  // No missed `reachable`. When nothing was passed over and no approximated loop may return, a line
  // that some run enters is claimed reachable, unless it lies in an approximated loop of which the
  // run reaches an iteration that the walk does not describe.
  lemma EnteredIsReachable(params: Params, body: Block, max: nat, solver: Solver, line: int, far: set<int>,
                           input: Store, fuel: nat)
    requires Sound(solver) && Decisive(solver) && IsInput(params, input)
    requires Analyze(params, body, max, solver).Some? && !Analyze(params, body, max, solver).value.truncated
    requires Resolved(WalkProgram(params, body).log) && LoopsGoOn(body)
    requires Recurs(body, far, fuel) && line !in far
    requires Names(ExecBlock(body, input, fuel).trace, line)
    ensures ClaimsReachable(Analyze(params, body, max, solver).value, line)
  {
    var log := WalkProgram(params, body).log;
    var m := AsModel(params, input);
    var at := D.Place(0, 0, far);
    InputAgrees(params, input);
    D.BlockJustified(body, ParamEnv(params), InitialState(), BoolVal(true), at, input, fuel, m);
    NothingUnresolved(params, body);
    var l :| l in ExecBlock(body, input, fuel).trace && l.line == line;
    assert D.Justified(l, log, at, m);
    var it :| it in log && D.Possible(it, l, at, m);
    var i: nat :| i < |log| && log[i] == it;
    assert Tried(log, i, line) && Holds(log[i].cond, m);
    DecisiveReport(params, body, max, solver, line);
  }

  lemma NothingUnresolved(params: Params, body: Block)
    requires Resolved(WalkProgram(params, body).log) && LoopsGoOn(body)
    ensures forall it :: it in WalkProgram(params, body).log && it.Visit? ==> it.unres == 0
  {
    var at := Depth(0, 0, Lines(body), true);
    AllLinesRecur(body, Lines(body), 2);
    BlockFlat(body, ParamEnv(params), InitialState(), BoolVal(true), false, at);
    assert forall it :: it in WalkProgram(params, body).log ==> At(it, at);
  }

  // In particular, with every `for` within the cap: all that is entered when each `while` makes at
  // most one iteration, the bodies of the loops included.
  lemma FirstIterationsAreReachable(params: Params, body: Block, max: nat, solver: Solver, line: int, input: Store)
    requires Sound(solver) && Decisive(solver) && IsInput(params, input)
    requires Analyze(params, body, max, solver).Some? && !Analyze(params, body, max, solver).value.truncated
    requires Resolved(WalkProgram(params, body).log) && LoopsGoOn(body) && WithinCap(body)
    requires Names(ExecBlock(body, input, 1).trace, line)
    ensures ClaimsReachable(Analyze(params, body, max, solver).value, line)
  {
    WithinCapRecurs(body, {});
    EnteredIsReachable(params, body, max, solver, line, {}, input, 1);
  }

  // Whether a program is accepted, `supported` and walked without passing anything over can be read
  // off its text: if no guard reads a loose variable, it is if and only if it is well typed.
  lemma SupportedByText(params: Params, body: Block, loose: set<string>)
    requires BlockClear(body, loose) && forall x :: x in params ==> !TaintMark(x)
    ensures !WalkProgram(params, body).out.Fails? && Translated(WalkProgram(params, body).log)
       <==> TypeBlock(body, params).Some?
    ensures TypeBlock(body, params).Some? ==> Resolved(WalkProgram(params, body).log)
  {
    ParamsAreContained(params, loose);
    BlockIsClean(body, ParamEnv(params), InitialState(), BoolVal(true), 0, 0, false, loose);
    SupportedIffTyped(params, body);
  }

  // A text of that kind whose loops do not return: `while` bodies hide nothing that their first
  // iterations enter, and the report is complete.
  lemma ReachableByText(params: Params, body: Block, max: nat, solver: Solver, line: int, loose: set<string>,
                        input: Store)
    requires Sound(solver) && Decisive(solver) && IsInput(params, input)
    requires BlockClear(body, loose) && forall x :: x in params ==> !TaintMark(x)
    requires TypeBlock(body, params).Some? && LoopsGoOn(body) && WithinCap(body)
    requires Analyze(params, body, max, solver).Some? ==> !Analyze(params, body, max, solver).value.truncated
    requires Names(ExecBlock(body, input, 1).trace, line)
    ensures Analyze(params, body, max, solver).Some?
    ensures ClaimsReachable(Analyze(params, body, max, solver).value, line)
  {
    SupportedByText(params, body, loose);
    FirstIterationsAreReachable(params, body, max, solver, line, input);
  }

  lemma {:induction false} WithinCapRecurs(b: Block, far: set<int>)
    requires WithinCap(b)
    ensures Recurs(b, far, 1)
    decreases b, 0
  {
    if b.Cons? {
      WithinCapRecurs(b.tail, far);
      match b.head
      case If(_, _, body, orelse) => WithinCapRecurs(body, far); WithinCapRecurs(orelse, far);
      case While(_, _, body) => WithinCapRecurs(body, far);
      case For(_, _, _, _, _, body) => WithinCapRecurs(body, far);
      case _ =>
    }
  }

  // A line outside the approximated loops is given nothing but `dead` exactly if nothing on it is
  // feasible.
  lemma InfeasibleIsDead(params: Params, body: Block, max: nat, solver: Solver, line: int, far: set<int>)
    requires Sound(solver) && Decisive(solver)
    requires Analyze(params, body, max, solver).Some? && !Analyze(params, body, max, solver).value.truncated
    requires Resolved(WalkProgram(params, body).log) && LoopsGoOn(body)
    requires Recurs(body, far, 2) && line !in far
    ensures AllDead(Analyze(params, body, max, solver).value, line)
       <==> !Feasible(WalkProgram(params, body).log, line)
  {
    var rep, log := Analyze(params, body, max, solver).value, WalkProgram(params, body).log;
    var at := Depth(0, 0, far, true);
    WholeReport(params, body, max, solver);
    AllDeadIff(rep, log, max, solver, params, line);
    BlockFlat(body, ParamEnv(params), InitialState(), BoolVal(true), false, at);
    forall i: nat | ReportsOn(log, i, line) ensures Tried(log, i, line) && log[i].cons == 0 {
      assert At(log[i], at);
    }
    if AllDead(rep, line) {
      forall i: nat, m | Tried(log, i, line) ensures !Holds(log[i].cond, m) {
        assert Refuted(log, i, solver);
      }
    } else {
      var i: nat :| ReportsOn(log, i, line) && !Refuted(log, i, solver);
      var answer := solver(Calls(log[..i]), log[i].cond);
      assert Tried(log, i, line) && answer.Sat? && Holds(log[i].cond, answer.model);
    }
  }

  ghost predicate SomeInputEnters(params: Params, body: Block, line: int, fuel: nat) {
    exists input :: IsInput(params, input) && Names(ExecBlock(body, input, fuel).trace, line)
  }

  // Every loop unrolled, the program well typed and no run aborted: the report is exact. A line is
  // claimed reachable if some input enters it, and given nothing but `dead` if none does.
  lemma ReportIsExact(params: Params, body: Block, max: nat, solver: Solver, line: int, fuel: nat)
    requires Sound(solver) && Decisive(solver)
    requires WhileFree(body) && WithinCap(body) && TypeBlock(body, params).Some?
    requires forall input :: IsInput(params, input) ==> !ExecBlock(body, input, fuel).status.Stuck?
    requires Analyze(params, body, max, solver).Some? ==> !Analyze(params, body, max, solver).value.truncated
    ensures Analyze(params, body, max, solver).Some?
    ensures ClaimsReachable(Analyze(params, body, max, solver).value, line)
       <==> SomeInputEnters(params, body, line, fuel)
    ensures AllDead(Analyze(params, body, max, solver).value, line) <==> !SomeInputEnters(params, body, line, fuel)
  {
    var log := WalkProgram(params, body).log;
    UnrolledSupportedIffTyped(params, body);
    UnrolledOnly(body);
    DecisiveReport(params, body, max, solver, line);
    InfeasibleIsDead(params, body, max, solver, line, {});
    if input :| IsInput(params, input) && Names(ExecBlock(body, input, fuel).trace, line) {
      EnteredIsReachable(params, body, max, solver, line, {}, input, fuel);
    }
    if i: nat, m :| Tried(log, i, line) && Holds(log[i].cond, m) {
      SatisfiableIsEntered(params, body, log[i], m, fuel);
      var input :| IsInput(params, input) && log[i].arm in ExecBlock(body, input, fuel).trace;
      assert Names(ExecBlock(body, input, fuel).trace, line);
    }
  }
}
