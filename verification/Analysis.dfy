/** What a finished report means: the verdicts against every concrete run of the program. */
module Analysis {
  import opened Wrappers
  import opened PySubset
  import opened Interp
  import opened Terms
  import opened Walk
  import opened WalkBasics
  import opened Agreement
  import opened AnyStore
  import opened Coverage
  import opened Joins
  import opened Reach
  import D = Dead
  import opened Depths
  import opened ExactTrace
  import opened Scope
  import opened Careful
  import opened Tracking
  import opened Following
  import opened Tame
  import opened Isolation
  import opened Verdicts
  import opened Aggregation
  import opened Answers

  // One value per parameter; a bool parameter is 0 or 1.
  predicate IsInput(params: Params, input: Store) {
    && input.Keys == params.Keys
    && forall x :: x in params && params[x].BoolSort? ==> input[x] == 0 || input[x] == 1
  }

  function ParamSyms(params: Params): set<Sym> {
    set x | x in params :: Sym(x, params[x])
  }

  function AsModel(params: Params, input: Store): Model
    requires input.Keys == params.Keys
  {
    map s | s in ParamSyms(params) :: input[s.name]
  }

  lemma InputAgrees(params: Params, input: Store)
    requires IsInput(params, input)
    ensures Agrees(ParamEnv(params), {}, input, AsModel(params, input)) && Fresh(ParamEnv(params), InitialState())
  {
    var m := AsModel(params, input);
    forall x | x in params ensures input[x] == Eval(ParamEnv(params)[x].term, m) {
      assert Sym(x, params[x]) in m && m[Sym(x, params[x])] == input[x];
    }
  }

  // A witness is an input, and a condition over the parameters cannot tell it from the model.
  lemma WitnessServes(params: Params, m: Model, t: Term)
    requires forall s :: s in Syms(t) ==> s in ParamSyms(params)
    ensures IsInput(params, Witness(params, m))
    ensures Holds(t, AsModel(params, Witness(params, m))) == Holds(t, m)
  {
    var m' := AsModel(params, Witness(params, m));
    forall s | s in Syms(t) ensures Lookup(m, s) == Lookup(m', s) {
      assert s in m' && m'[s] == Lookup(m, s);
    }
    EvalDependsOnSyms(t, m, m');
  }

  // ---------------------------------------------------------------- reachable

  // The witness of a model agrees with the model on every parameter.
  lemma WitnessAgrees(params: Params, m: Model)
    ensures IsInput(params, Witness(params, m))
    ensures Agrees(ParamEnv(params), {}, Witness(params, m), m) && Fresh(ParamEnv(params), InitialState())
  {
  }

  // For every program, with `while` loops, `for` loops above the cap, tainted guards and
  // untranslatable guards: the witness of a `reachable` entry drives the run into the arm, or the
  // run never gets past something the walk had passed before it reported the arm, or stops in an
  // earlier iteration of an above-cap loop around it. Only the lines inside above-cap loops that
  // are not uniform are left out.
  lemma ReachableIsReal(params: Params, body: Block, max: nat, solver: Solver, b: Branch, fuel: nat) returns (i: nat)
    requires Sound(solver) && fuel > 0
    requires Analyze(params, body, max, solver).Some?
    requires b in Analyze(params, body, max, solver).value.branches && b.verdict == Reachable
    requires b.arm.line !in Doubtful(body, params.Keys)
    ensures b.input.Some? && IsInput(params, b.input.value)
    ensures var log := WalkProgram(params, body).log;
      && i < |log| && log[i].Visit? && log[i].arm == b.arm
      && Enters(log, i, ExecBlock(body, b.input.value, fuel), Shared(body))
  {
    var log := WalkProgram(params, body).log;
    ReplayOrigins(EmptyReport(), log, max, solver, params);
    assert In(b, Replay(EmptyReport(), log, max, solver, params)) && !In(b, EmptyReport());
    var it, k: nat :| it in log && Reported(it) && b == BranchOf(it, k, solver, params);
    i :| 0 <= i < |log| && log[i] == it;
    var m := solver(k, it.cond).model;
    WitnessAgrees(params, m);
    assert Claimed(log[i], m);
    ClaimIsReal(params, body, i, m, fuel);
  }

  // The same for any model of a reported condition.
  lemma ClaimIsReal(params: Params, body: Block, i: nat, m: Model, fuel: nat)
    requires fuel > 0 && i < |WalkProgram(params, body).log| && Claimed(WalkProgram(params, body).log[i], m)
    requires WalkProgram(params, body).log[i].arm.line !in Doubtful(body, params.Keys)
    ensures Enters(WalkProgram(params, body).log, i, ExecBlock(body, Witness(params, m), fuel), Shared(body))
  {
    WitnessAgrees(params, m);
    BlockReached(body, ParamEnv(params), InitialState(), BoolVal(true), 0, Witness(params, m), fuel, m,
                 params.Keys, Doubtful(body, params.Keys), Shared(body));
  }

  // With every `for` within the cap nothing is left out, and only what was passed before the arm
  // can stop the run.
  lemma WithinCapReachableIsReal(params: Params, body: Block, max: nat, solver: Solver, b: Branch, fuel: nat)
    returns (i: nat)
    requires WithinCap(body) && Sound(solver) && fuel > 0
    requires Analyze(params, body, max, solver).Some?
    requires b in Analyze(params, body, max, solver).value.branches && b.verdict == Reachable
    ensures b.input.Some? && IsInput(params, b.input.value)
    ensures var log := WalkProgram(params, body).log;
      var run := ExecBlock(body, b.input.value, fuel);
      && i < |log| && log[i].Visit? && log[i].arm == b.arm
      && (b.arm in run.trace || StuckAt(run, log[..i]))
  {
    WithinCapIsCertain(body, params.Keys);
    i := ReachableIsReal(params, body, max, solver, b, fuel);
  }

  lemma ConditionsAreOverParameters(params: Params, body: Block, it: Item)
    requires WithinCap(body) && it in WalkProgram(params, body).log && it.Visit?
    ensures forall s :: s in Syms(it.cond) ==> s in ParamSyms(params)
  {
    var known := iset s | s in ParamSyms(params);
    assert Syms(BoolVal(true)) == {};
    forall x | x in params ensures Syms(ParamEnv(params)[x].term) == {Sym(x, params[x])} {
    }
    BlockKnown(body, ParamEnv(params), InitialState(), BoolVal(true), 0, 0, false, known);
  }

  // Taint isolation over the whole walk, above-cap loops included: unless a parameter bears the very
  // name of a symbol minted for a loop, no reported path condition mentions any of the tainted
  // names, not even those minted after it was reported.
  lemma TaintIsNeverSolved(params: Params, body: Block, it: Item)
    requires params.Keys !! WalkProgram(params, body).st.tainted
    requires it in WalkProgram(params, body).log && it.Visit?
    ensures !Mentions(it.cond, WalkProgram(params, body).st.tainted)
  {
    var tainted := WalkProgram(params, body).st.tainted;
    var known := iset s: Sym | s.name !in tainted;
    assert Syms(BoolVal(true)) == {};
    forall x | x in params ensures Syms(ParamEnv(params)[x].term) == {Sym(x, params[x])} {
    }
    MintedNamesAreMarked(params, body);
    forall line: int, x: string ensures LoopName(line, x) !in tainted {
      assert LoopName(line, x)[2] == 'l' && "__tainted_"[2] == 't';
    }
    BlockKnown(body, ParamEnv(params), InitialState(), BoolVal(true), 0, 0, false, known);
  }

  // A parameter bears such a name only if it begins with the prefix that marks them.
  lemma MintedNamesAreMarked(params: Params, body: Block)
    ensures forall n :: n in WalkProgram(params, body).st.tainted ==> TaintMark(n)
  {
    var every := iset s: Sym | s.sort.IntSort? || s.sort.BoolSort?;
    assert Syms(BoolVal(true)) == {};
    BlockKnown(body, ParamEnv(params), InitialState(), BoolVal(true), 0, 0, false, every);
  }

  // ---------------------------------------------------------------- dead

  // An untruncated report is complete: its frames are closed and nothing was dropped.
  lemma WholeReport(params: Params, body: Block, max: nat, solver: Solver)
    requires Analyze(params, body, max, solver).Some? && !Analyze(params, body, max, solver).value.truncated
    ensures Finished(Analyze(params, body, max, solver).value, WalkProgram(params, body).log, max, solver, params)
  {
    FinalStack(params, body, max, solver);
  }

  // The report, entry by entry.
  lemma ReportInFull(params: Params, body: Block, max: nat, solver: Solver)
    requires Analyze(params, body, max, solver).Some? && !Analyze(params, body, max, solver).value.truncated
    ensures Analyze(params, body, max, solver).value.branches
         == Entries(0, WalkProgram(params, body).log, 0, [], solver, params)
  {
    var log := WalkProgram(params, body).log;
    BlockBalanced(body, ParamEnv(params), InitialState(), BoolVal(true), 0, 0, false);
    assert Level(log, 0) == Some(0);
    ReportIsEntries(EmptyReport(), log, 0, [], max, solver, params);
  }

  // A line that the report gives nothing but `dead`: every arm on it was refuted.
  lemma DeadArms(params: Params, body: Block, max: nat, solver: Solver, line: int, m: Model)
    requires Sound(solver)
    requires Analyze(params, body, max, solver).Some? && !Analyze(params, body, max, solver).value.truncated
    requires AllDead(Analyze(params, body, max, solver).value, line)
    ensures forall it :: it in WalkProgram(params, body).log && Reported(it) && it.arm.line == line ==>
                           it.Visit? && it.cons == 0 && !Holds(it.cond, m)
  {
    var log := WalkProgram(params, body).log;
    WholeReport(params, body, max, solver);
    AllDeadIff(Analyze(params, body, max, solver).value, log, max, solver, params, line);
    forall it | it in log && Reported(it) && it.arm.line == line
      ensures it.Visit? && it.cons == 0 && !Holds(it.cond, m)
    {
      var i: nat :| i < |log| && log[i] == it;
      assert ReportsOn(log, i, line) && Refuted(log, i, solver);
    }
  }

  // No false `dead`. Suppose that the walk is careful about the line: nothing on it is inside a
  // statement that is passed over and, before it, no such statement binds a variable whose value is
  // still exact and every loop that may return is entered by every input that reaches it. Then a
  // line whose every entry is `dead` is entered by no run on any input.
  lemma DeadIsDead(params: Params, body: Block, max: nat, solver: Solver, line: int, input: Store, fuel: nat)
    requires Sound(solver) && IsInput(params, input)
    requires Analyze(params, body, max, solver).Some? && !Analyze(params, body, max, solver).value.truncated
    requires BlockCareful(body, ParamEnv(params), InitialState(), BoolVal(true), 0, 0, false, line, false)
    requires AllDead(Analyze(params, body, max, solver).value, line)
    ensures forall l :: l in ExecBlock(body, input, fuel).trace ==> l.line != line
  {
    var log := WalkProgram(params, body).log;
    var m := AsModel(params, input);
    InputAgrees(params, input);
    BlockFollows(body, ParamEnv(params), InitialState(), BoolVal(true), 0, 0, false, line, false, input, fuel, m);
    DeadArms(params, body, max, solver, line, m);
    assert !Flagged(line, log, m);
    forall l | l in ExecBlock(body, input, fuel).trace ensures l.line != line {
      assert l.line == line ==> Names(ExecBlock(body, input, fuel).trace, line);
    }
  }

  // The same under conditions that the text of the program and the report show: the text is tame,
  // and every guard translated.
  lemma DeadIsDeadByText(params: Params, body: Block, max: nat, solver: Solver, line: int, loose: set<string>,
                         input: Store, fuel: nat)
    requires Sound(solver) && IsInput(params, input) && forall x :: x in params ==> !TaintMark(x)
    requires Analyze(params, body, max, solver).Some? && !Analyze(params, body, max, solver).value.truncated
    requires Translated(WalkProgram(params, body).log)
    requires BlockTame(body, loose, params.Keys, line, false)
    requires AllDead(Analyze(params, body, max, solver).value, line)
    ensures forall l :: l in ExecBlock(body, input, fuel).trace ==> l.line != line
  {
    ParamsAreContained(params, loose);
    BlockTamed(body, ParamEnv(params), InitialState(), BoolVal(true), 0, 0, false, loose, params.Keys, line, false);
    DeadIsDead(params, body, max, solver, line, input, fuel);
  }

  lemma ParamsAreContained(params: Params, loose: set<string>)
    ensures Contained(ParamEnv(params), {}, loose) <==> forall x :: x in params ==> !TaintMark(x)
  {
    var env := ParamEnv(params);
    forall x | x in params ensures Syms(env[x].term) == {Sym(x, params[x])} {
    }
    forall x | x in params ensures Settled(env[x].term, {}) <==> !TaintMark(x) {
      assert Sym(x, params[x]) in Syms(env[x].term);
    }
  }

  // When nothing was passed over, a line whose every entry is `dead`, reported with no unresolved
  // closure before it, is entered by no run on any input, `while` loops included.
  lemma DeadWhenResolved(params: Params, body: Block, max: nat, solver: Solver, line: int, input: Store, fuel: nat)
    requires Sound(solver) && IsInput(params, input)
    requires Analyze(params, body, max, solver).Some? && !Analyze(params, body, max, solver).value.truncated
    requires Resolved(WalkProgram(params, body).log)
    requires forall it :: it in WalkProgram(params, body).log && it.Visit? && it.arm.line == line ==> it.unres == 0
    requires AllDead(Analyze(params, body, max, solver).value, line)
    ensures forall l :: l in ExecBlock(body, input, fuel).trace ==> l.line != line
  {
    var log := WalkProgram(params, body).log;
    var m := AsModel(params, input);
    InputAgrees(params, input);
    var at := D.Place(0, 0, Lines(body));
    AllLinesRecur(body, Lines(body), fuel);
    D.BlockJustified(body, ParamEnv(params), InitialState(), BoolVal(true), at, input, fuel, m);
    forall it | it in log && it.Visit? && it.arm.line == line ensures it.cons == 0 && !Holds(it.cond, m) {
      DeadArms(params, body, max, solver, line, m);
    }
    forall l | l in ExecBlock(body, input, fuel).trace ensures l.line != line {
      assert D.Justified(l, log, at, m);
    }
  }

  // Every frame is closed by the end.
  lemma FinalStack(params: Params, body: Block, max: nat, solver: Solver)
    ensures Replay(EmptyReport(), WalkProgram(params, body).log, max, solver, params).stack == []
  {
    var log := WalkProgram(params, body).log;
    BlockBalanced(body, ParamEnv(params), InitialState(), BoolVal(true), 0, 0, false);
    assert Level(log, 0) == Some(0);
    StackFollowsLevel(EmptyReport(), log, max, solver, params);
  }

  // ---------------------------------------------------------------- exact verdicts

  // Every loop unrolled: a `supported` result passed nothing over.
  lemma SupportedIsResolved(params: Params, body: Block)
    requires WhileFree(body) && WithinCap(body) && !WalkProgram(params, body).out.Fails?
    ensures Translated(WalkProgram(params, body).log) <==> Resolved(WalkProgram(params, body).log)
  {
    if Translated(WalkProgram(params, body).log) {
      NothingTainted(body, ParamEnv(params), InitialState(), BoolVal(true), 0, 0, false);
    }
  }

  // Every loop unrolled and the result `supported`: on every input the arms whose conditions hold
  // are the arms entered, in order, iteration by iteration. A run that an expression statement
  // aborts enters a prefix of them.
  lemma ExactVerdicts(params: Params, body: Block, input: Store, fuel: nat)
    requires IsInput(params, input) && WhileFree(body) && WithinCap(body)
    requires !WalkProgram(params, body).out.Fails? && Translated(WalkProgram(params, body).log)
    ensures Matches(WalkProgram(params, body).log, ExecBlock(body, input, fuel), AsModel(params, input))
  {
    SupportedIsResolved(params, body);
    InputAgrees(params, input);
    BlockMatches(body, ParamEnv(params), InitialState(), BoolVal(true), 0, 0, input, fuel, AsModel(params, input));
  }

  ghost predicate Enterable(params: Params, body: Block, l: Label, fuel: nat) {
    exists input :: IsInput(params, input) && l in ExecBlock(body, input, fuel).trace
  }

  ghost predicate Satisfiable(log: seq<Item>, l: Label) {
    exists it, m :: it in log && it.Visit? && it.arm == l && Holds(it.cond, m)
  }

  // In that fragment an arm that is entered on some input has a satisfiable path condition, so that
  // unsatisfiable means dead. If no run is aborted, the converse holds as well: a model means
  // reachable.
  lemma EnteredIffSatisfiable(params: Params, body: Block, l: Label, fuel: nat)
    requires WhileFree(body) && WithinCap(body)
    requires !WalkProgram(params, body).out.Fails? && Translated(WalkProgram(params, body).log)
    ensures Enterable(params, body, l, fuel) ==> Satisfiable(WalkProgram(params, body).log, l)
    ensures (forall input :: IsInput(params, input) ==> !ExecBlock(body, input, fuel).status.Stuck?) ==>
              (Enterable(params, body, l, fuel) <==> Satisfiable(WalkProgram(params, body).log, l))
  {
    var log := WalkProgram(params, body).log;
    if Enterable(params, body, l, fuel) {
      var input :| IsInput(params, input) && l in ExecBlock(body, input, fuel).trace;
      ExactVerdicts(params, body, input, fuel);
      var it := SelectedOne(log, AsModel(params, input), l);
    }
    if Satisfiable(log, l) && forall input :: IsInput(params, input) ==> !ExecBlock(body, input, fuel).status.Stuck? {
      var it, m :| it in log && it.Visit? && it.arm == l && Holds(it.cond, m);
      SatisfiableIsEntered(params, body, it, m, fuel);
    }
  }

  lemma SatisfiableIsEntered(params: Params, body: Block, it: Item, m: Model, fuel: nat)
    requires WhileFree(body) && WithinCap(body)
    requires !WalkProgram(params, body).out.Fails? && Translated(WalkProgram(params, body).log)
    requires it in WalkProgram(params, body).log && it.Visit? && Holds(it.cond, m)
    requires forall input :: IsInput(params, input) ==> !ExecBlock(body, input, fuel).status.Stuck?
    ensures Enterable(params, body, it.arm, fuel)
  {
    var input := Witness(params, m);
    ConditionsAreOverParameters(params, body, it);
    WitnessServes(params, m, it.cond);
    ExactVerdicts(params, body, input, fuel);
    SelectedHas(WalkProgram(params, body).log, AsModel(params, input), it);
    assert it.arm in ExecBlock(body, input, fuel).trace;
  }

  lemma {:induction false} SelectedOne(log: seq<Item>, m: Model, l: Label) returns (it: Item)
    requires l in Selected(log, m)
    ensures it in log && it.Visit? && it.arm == l && Holds(it.cond, m)
  {
    if log[0].Visit? && Holds(log[0].cond, m) && log[0].arm == l {
      it := log[0];
    } else {
      it := SelectedOne(log[1..], m, l);
    }
  }

  lemma {:induction false} SelectedHas(log: seq<Item>, m: Model, it: Item)
    requires it in log && it.Visit? && Holds(it.cond, m)
    ensures it.arm in Selected(log, m)
  {
    if log[0] != it { SelectedHas(log[1..], m, it); }
  }

  // ---------------------------------------------------------------- loops

  // When nothing in the body was passed over, a variable that the loop leaves untainted has its
  // pre-loop value at every exit, after any number of iterations, from any store.
  lemma UntaintedSurvivesWhile(h: Stmt, env: Env, st: WState, cond: Term, cons: nat, unres: nat, s: Store, fuel: nat,
                               x: string)
    requires h.While? && Fresh(env, st) && env.Keys <= s.Keys
    requires var r := WalkWhile(h, env, st, cond, cons, unres); r.out.Falls? && Resolved(r.log)
    requires ExecWhile(h, s, fuel).status.Fell?
    requires x in env && WalkWhile(h, env, st, cond, cons, unres).out.env[x].id == env[x].id
    ensures x in ExecWhile(h, s, fuel).status.store && ExecWhile(h, s, fuel).status.store[x] == s[x]
  {
    WhileCovered(h, env, st, cond, cons, unres, s, fuel);
  }

  // When the body walk never falls through, the loop is left exactly from the stores on which its
  // guard is false at once.
  lemma ClosedBodyExits(h: Stmt, env: Env, st: WState, cond: Term, cons: nat, unres: nat, u: bool, s: Store, fuel: nat)
    requires h.While? && WalkBlock(h.body, env, st, cond, cons, unres, u).out.Closes?
    ensures ExecWhile(h, s, fuel).status.Fell? <==> EvalExpr(h.test, s) == Some(0)
    ensures ExecWhile(h, s, fuel).status.Fell? ==> ExecWhile(h, s, fuel).status.store == s
  {
    ClosedNeverFalls(h.body, env, st, cond, cons, unres, u, s, fuel);
  }

  // The copies of an unrolled body, cut after the first k.
  lemma {:induction false} CopiesSplit(body: Block, x: string, vals: seq<int>, k: nat, env: Env, st: WState, cond: Term,
                                       cons: nat, unres: nat, u: bool)
    requires k <= |vals| && WalkCopies(body, x, vals[..k], env, st, cond, cons, unres, u, false).out.Falls?
    ensures var first := WalkCopies(body, x, vals[..k], env, st, cond, cons, unres, u, false);
      WalkCopies(body, x, vals, env, st, cond, cons, unres, u, false)
      == Prepend(first.log, WalkCopies(body, x, vals[k..], first.out.env, first.st, first.out.cont, cons, unres,
                                       first.out.taint, false))
    decreases k
  {
    if k == 0 {
      NoCopiesYet(body, x, vals, env, st, cond, cons, unres, u);
    } else {
      var env1, st1 := env[x := Entry(IntVal(vals[0]), st.nextId)], st.(nextId := st.nextId + 1);
      var r := WalkBlock(body, env1, st1, cond, cons, Bump(unres, u), false);
      var some := vals[1..][..k - 1];
      assert vals[..k][0] == vals[0] && vals[..k][1..] == some && vals[1..][k - 1..] == vals[k..];
      CopyFirst(body, x, vals, env, st, cond, cons, unres, u, false);
      CopyFirst(body, x, vals[..k], env, st, cond, cons, unres, u, false);
      if r.out.Closes? {
        CopiesBasics(body, x, some, r.out.env, r.st, BoolVal(false), cons, unres, u || r.out.taint, true, map[]);
      } else {
        CopiesSplit(body, x, vals[1..], k - 1, r.out.env, r.st, r.out.cont, cons, unres, u || r.out.taint);
        hide WalkCopies, WalkBlock;
        var first' := WalkCopies(body, x, some, r.out.env, r.st, r.out.cont, cons, unres, u || r.out.taint, false);
        PrependTwice(r.log, first'.log, WalkCopies(body, x, vals[k..], first'.out.env, first'.st, first'.out.cont,
                                                   cons, unres, first'.out.taint, false));
      }
    }
  }

  lemma NoCopiesYet(body: Block, x: string, vals: seq<int>, env: Env, st: WState, cond: Term, cons: nat, unres: nat,
                    u: bool)
    ensures WalkCopies(body, x, vals[..0], env, st, cond, cons, unres, u, false) == Res(Falls(cond, env, u), st, [])
    ensures var all := WalkCopies(body, x, vals, env, st, cond, cons, unres, u, false); all == Prepend([], all)
    ensures vals[0..] == vals
  {
    assert vals[..0] == [];
  }

  lemma PrependTwice(a: seq<Item>, b: seq<Item>, r: Res)
    ensures Prepend(a, Prepend(b, r)) == Prepend(a + b, r)
  {
    assert a + (b + r.log) == (a + b) + r.log;
  }

  // Once a copy of an unrolled body closes, be it the k-th and whatever was left unresolved before
  // it, the loop never falls through from any store and no input satisfies anything that the later
  // copies report.
  lemma ClosedCopyEndsLoop(body: Block, x: string, vals: seq<int>, k: nat, env: Env, st: WState, cond: Term, cons: nat,
                           unres: nat, u: bool, s: Store, fuel: nat, m: Model)
    requires k < |vals| && WalkCopies(body, x, vals[..k], env, st, cond, cons, unres, u, false).out.Falls?
    requires var first := WalkCopies(body, x, vals[..k], env, st, cond, cons, unres, u, false);
      CopyAt(body, x, vals[k], first, cons, unres).out.Closes?
    ensures var first := WalkCopies(body, x, vals[..k], env, st, cond, cons, unres, u, false);
      var before := first.log + CopyAt(body, x, vals[k], first, cons, unres).log;
      var all := WalkCopies(body, x, vals, env, st, cond, cons, unres, u, false);
      && !all.out.Falls? && before <= all.log
      && (forall it :: it in all.log[|before|..] && it.Visit? ==> !Holds(it.cond, m))
    ensures !ExecCopies(body, x, vals, s, fuel).status.Fell?
  {
    var first := WalkCopies(body, x, vals[..k], env, st, cond, cons, unres, u, false);
    var copy := CopyAt(body, x, vals[k], first, cons, unres);
    CopiesSplit(body, x, vals, k, env, st, cond, cons, unres, u);
    assert vals[k..][0] == vals[k] && vals[k..][1..] == vals[k + 1..];
    var u' := first.out.taint || copy.out.taint;
    var rest := WalkCopies(body, x, vals[k + 1..], copy.out.env, copy.st, BoolVal(false), cons, unres, u', true);
    var all := WalkCopies(body, x, vals, env, st, cond, cons, unres, u, false);
    assert all == Prepend(first.log, Prepend(copy.log, rest));
    NothingAfterClosed(body, x, vals[k + 1..], copy.out.env, copy.st, cons, unres, u', m);
    KthCopyStops(body, x, vals, k, env, st, cond, cons, unres, u, s, fuel);
    hide WalkCopies, WalkBlock, Holds, ExecCopies;
    assert all.log == first.log + (copy.log + rest.log) == (first.log + copy.log) + rest.log;
    assert all.log[|first.log + copy.log|..] == rest.log;
  }

  lemma NothingAfterClosed(body: Block, x: string, vals: seq<int>, env: Env, st: WState, cons: nat, unres: nat, u: bool,
                           m: Model)
    ensures var rest := WalkCopies(body, x, vals, env, st, BoolVal(false), cons, unres, u, true);
      !rest.out.Falls? && forall it :: it in rest.log && it.Visit? ==> !Holds(it.cond, m)
  {
    var rest := WalkCopies(body, x, vals, env, st, BoolVal(false), cons, unres, u, true);
    CopiesBasics(body, x, vals, env, st, BoolVal(false), cons, unres, u, true, m);
    forall it | it in rest.log && it.Visit? ensures !Holds(it.cond, m) {
      assert ItemUnder(it, BoolVal(false), cons, Bump(unres, u), m);
      assert Eval(BoolVal(false), m) == 0;
    }
  }

  // The walk of one more copy after those of `first`.
  function CopyAt(body: Block, x: string, v: int, first: Res, cons: nat, unres: nat): Res
    requires first.out.Falls?
  {
    WalkBlock(body, first.out.env[x := Entry(IntVal(v), first.st.nextId)], first.st.(nextId := first.st.nextId + 1),
              first.out.cont, cons, Bump(unres, first.out.taint), false)
  }

  // The first k + 1 copies alone stop every run.
  lemma KthCopyStops(body: Block, x: string, vals: seq<int>, k: nat, env: Env, st: WState, cond: Term, cons: nat,
                     unres: nat, u: bool, s: Store, fuel: nat)
    requires k < |vals| && WalkCopies(body, x, vals[..k], env, st, cond, cons, unres, u, false).out.Falls?
    requires var first := WalkCopies(body, x, vals[..k], env, st, cond, cons, unres, u, false);
      CopyAt(body, x, vals[k], first, cons, unres).out.Closes?
    ensures !ExecCopies(body, x, vals, s, fuel).status.Fell?
  {
    var some := vals[..k + 1];
    var first := WalkCopies(body, x, vals[..k], env, st, cond, cons, unres, u, false);
    var copy := CopyAt(body, x, vals[k], first, cons, unres);
    assert some[..k] == vals[..k] && some[k..] == [vals[k]] && [vals[k]][1..] == [];
    CopiesSplit(body, x, some, k, env, st, cond, cons, unres, u);
    var last := WalkCopies(body, x, [], copy.out.env, copy.st, BoolVal(false), cons, unres, first.out.taint
                           || copy.out.taint, true);
    assert WalkCopies(body, x, some, env, st, cond, cons, unres, u, false).out == last.out;
    ClosedCopies(body, x, some, env, st, cond, cons, unres, u, s, fuel);
    if ExecCopies(body, x, vals, s, fuel).status.Fell? { FewerIterations(body, x, vals, k + 1, s, fuel); }
  }

  // A run through all the iterations runs through the first k.
  lemma {:induction false} FewerIterations(body: Block, x: string, vals: seq<int>, k: nat, s: Store, fuel: nat)
    requires k <= |vals| && ExecCopies(body, x, vals, s, fuel).status.Fell?
    ensures ExecCopies(body, x, vals[..k], s, fuel).status.Fell?
    decreases k
  {
    if k > 0 {
      assert vals[..k][0] == vals[0] && vals[..k][1..] == vals[1..][..k - 1];
      FewerIterations(body, x, vals[1..], k - 1, ExecBlock(body, s[x := vals[0]], fuel).status.store, fuel);
    }
  }
}
