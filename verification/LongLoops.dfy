/**
  `reachable` inside a `for` above the unroll cap: the stride that it needs, and programs that show
  why an iteration that returns or changes a variable spoils it.
 */
module LongLoops {
  import opened Wrappers
  import opened PySubset
  import opened Interp
  import opened Terms
  import opened Walk
  import opened Verdicts
  import opened Scope
  import opened Ranges
  import opened Reach
  import opened Analysis

  // if <x> == <n>: <body>
  function IfIs(line: int, x: string, n: int, body: Block): Stmt {
    If(line, Compare(Eq, Name(x), Num(n)), body, Nil)
  }

  // Some model satisfies what is reported of the arm, and it is trusted.
  ghost predicate ReportedReachable(log: seq<Item>, l: Label) {
    exists it, m :: it in log && Claimed(it, m) && it.arm == l
  }

  // ---------------------------------------------------------------- walking

  // An above-cap loop reports what its body reports.
  lemma LoopReports(h: Stmt, env: Env, st: WState, cond: Term, it: Item)
    requires h.For? && h.step != 0 && AboveCap(h)
    requires var inside := SomeIteration(h, AndT(cond, BoolVal(Entered(h))));
      it in WalkBlock(h.body, env[h.target := Entry(LoopIndex(h), st.nextId)], st.(nextId := st.nextId + 1), inside, 1,
                      0, false).log
    ensures it in WalkBlock(One(h), env, st, cond, 0, 0, false).log
  {
    var r := WalkForAboveCap(h, env, st, cond, 0, 0);
    assert r == WalkFor(h, env, st, cond, 0, 0) == WalkCompound(h, env, st, cond, 0, 0);
    assert it in r.log;
  }

  lemma IfReports(h: Stmt, t: Block, g: Term, env: Env, st: WState, cond: Term)
    requires h.If? && Guard(h.test, env) == Some(g) && st.tainted == {}
    ensures var log := WalkBlock(Cons(h, t), env, st, cond, 1, 0, false).log;
      && Visit(Label(h.line, KIf), AndT(cond, g), 1, 0) in log
      && forall it :: it in WalkBlock(h.body, env, st, AndT(cond, g), 1, 0, false).log ==> it in log
  {
    var r := WalkIf(h, env, st, cond, 1, 0, KIf);
    assert Visit(Label(h.line, KIf), AndT(cond, g), 1, 0) in r.log;
    assert forall it :: it in WalkBlock(h.body, env, st, AndT(cond, g), 1, 0, false).log ==> it in r.log;
    assert r == WalkCompound(h, env, st, cond, 1, 0);
  }

  lemma IndexGuard(h: Stmt, env: Env, n: int)
    requires h.For? && h.target in env && env[h.target].term == LoopIndex(h)
    ensures Guard(Compare(Eq, Name(h.target), Num(n)), env) == Some(CmpT(Eq, LoopIndex(h), IntVal(n)))
  {
    var e := Compare(Eq, Name(h.target), Num(n));
    assert Translate(e.l, env) == Some(LoopIndex(h)) && Translate(e.r, env) == Some(IntVal(n));
  }

  // The model that makes the index n.
  function IndexModel(h: Stmt, n: int): Model
    requires h.For?
  {
    map[LoopIndex(h).sym := n]
  }

  lemma IndexFits(h: Stmt, n: int)
    requires h.For? && h.step != 0 && if h.step > 0 then h.start <= n < h.stop else h.stop < n <= h.start
    ensures Holds(AndT(SomeIteration(h, AndT(BoolVal(true), BoolVal(Entered(h)))), CmpT(Eq, LoopIndex(h), IntVal(n))),
                  IndexModel(h, n))
  {
    var m := IndexModel(h, n);
    var enter := AndT(BoolVal(true), BoolVal(Entered(h)));
    assert Lookup(m, LoopIndex(h).sym) == n;
    IterationBounds(h, m);
    var inside, weaker := SomeIteration(h, enter), SomeIteration(h, BoolVal(true));
    assert Eval(BoolVal(true), m) == 1 && Eval(BoolVal(Entered(h)), m) == 1;
    assert Holds(enter, m);
    assert Holds(weaker.l, m) && Holds(weaker.r, m) && Holds(weaker.l.r, m);
    assert inside.l == AndT(enter, weaker.l.r) && inside.r == weaker.r;
    assert Holds(inside.l, m) && Holds(inside, m);
    assert Eval(LoopIndex(h), m) == n && Eval(IntVal(n), m) == n;
    assert Holds(CmpT(Eq, LoopIndex(h), IntVal(n)), m);
  }

  // ---------------------------------------------------------------- the stride

  // for i in range(start, stop, step):    1
  //     if i == n: pass                   2
  function IndexIs(start: int, stop: int, step: int, n: int): Stmt {
    For(1, "i", start, stop, step, One(IfIs(2, "i", n, One(Pass(3)))))
  }

  // Whatever the stride, every index between the bounds is reported.
  lemma AnyIndexIsReported(params: Params, start: int, stop: int, step: int, n: int)
    requires step != 0 && |RangeValues(start, stop, step)| > MAX_UNROLL_ITERATIONS
    requires if step > 0 then start <= n < stop else stop < n <= start
    ensures ReportedReachable(WalkProgram(params, One(IndexIs(start, stop, step, n))).log, Label(2, KIf))
  {
    var h := IndexIs(start, stop, step, n);
    var env, st := ParamEnv(params), InitialState();
    var inside := SomeIteration(h, AndT(BoolVal(true), BoolVal(Entered(h))));
    var env1, st1 := env["i" := Entry(LoopIndex(h), st.nextId)], st.(nextId := st.nextId + 1);
    IndexGuard(h, env1, n);
    var g := CmpT(Eq, LoopIndex(h), IntVal(n));
    IfReports(h.body.head, Nil, g, env1, st1, inside);
    var visit := Visit(Label(2, KIf), AndT(inside, g), 1, 0);
    LoopReports(h, env, st, BoolVal(true), visit);
    IndexFits(h, n);
    assert Claimed(visit, IndexModel(h, n));
  }

  lemma {:induction false} MissedIndex(start: int, stop: int, step: int, n: int, vals: seq<int>, s: Store, fuel: nat)
    requires n !in vals
    ensures var run := ExecCopies(IndexIs(start, stop, step, n).body, "i", vals, s, fuel);
      run.trace == [] && run.status.Fell?
    decreases |vals|
  {
    if vals != [] {
      var body := IndexIs(start, stop, step, n).body;
      var s1 := s["i" := vals[0]];
      NotThisIndex(2, n, One(Pass(3)), s1, fuel);
      assert vals[0] in vals && forall v :: v in vals[1..] ==> v in vals;
      assert ExecBlock(body, s1, fuel) == Run([], Fell(s1));
      MissedIndex(start, stop, step, n, vals[1..], s1, fuel);
    }
  }

  lemma NotThisIndex(line: int, n: int, body: Block, s: Store, fuel: nat)
    requires "i" in s && s["i"] != n
    ensures ExecStmt(IfIs(line, "i", n, body), s, fuel) == Run([], Fell(s))
  {
    var h := IfIs(line, "i", n, body);
    assert EvalExpr(h.test.l, s) == Some(s["i"]) && EvalExpr(h.test.r, s) == Some(n);
    assert EvalExpr(h.test, s) == Some(0);
    assert ExecIf(h, s, fuel, KIf) == ExecElse(Nil, s, fuel) == Run([], Fell(s));
  }

  lemma ThisIndex(line: int, n: int, body: Block, s: Store, fuel: nat)
    requires "i" in s && s["i"] == n
    ensures ExecStmt(IfIs(line, "i", n, body), s, fuel) == After([Label(line, KIf)], ExecBlock(body, s, fuel))
  {
    var h := IfIs(line, "i", n, body);
    assert EvalExpr(h.test.l, s) == Some(s["i"]) && EvalExpr(h.test.r, s) == Some(n);
    assert EvalExpr(h.test, s) == Some(1);
    assert ExecIf(h, s, fuel, KIf) == After([Label(line, KIf)], ExecBlock(body, s, fuel));
  }

  lemma LoopRun(h: Stmt, s: Store, fuel: nat)
    requires h.For? && h.step != 0 && RangeValues(h.start, h.stop, h.step) != []
    ensures var copies := ExecCopies(h.body, h.target, RangeValues(h.start, h.stop, h.step), s, fuel);
      && ExecBlock(One(h), s, fuel).trace == [Label(h.line, KFor)] + copies.trace
      && (ExecBlock(One(h), s, fuel).status == copies.status)
  {
    var copies := ExecCopies(h.body, h.target, RangeValues(h.start, h.stop, h.step), s, fuel);
    assert ExecStmt(h, s, fuel) == After([Label(h.line, KFor)], copies);
    if copies.status.Fell? {
      assert ExecBlock(Nil, copies.status.store, fuel) == Run([], copies.status);
      assert [Label(h.line, KFor)] + copies.trace + [] == [Label(h.line, KFor)] + copies.trace;
    }
  }

  // With any other stride than one, some index is reported as reachable that no run ever takes.
  lemma FalseReachableByStride(params: Params, start: int, stop: int, step: int) returns (n: int)
    requires step != 0 && step != 1 && step != -1 && |RangeValues(start, stop, step)| > MAX_UNROLL_ITERATIONS
    ensures ReportedReachable(WalkProgram(params, One(IndexIs(start, stop, step, n))).log, Label(2, KIf))
    ensures forall s, fuel: nat :: var run := ExecBlock(One(IndexIs(start, stop, step, n)), s, fuel);
                                   run.trace == [Label(1, KFor)] && run.status.Fell?
  {
    n := if step > 0 then start + 1 else start - 1;
    LongRangeGoesOn(start, stop, step);
    AnyIndexIsReported(params, start, stop, step, n);
    RangeIsBeyond(start + step, stop, step, n);
    assert RangeValues(start, stop, step) == [start] + RangeValues(start + step, stop, step);
    hide RangeValues, ReportedReachable;
    forall s, fuel: nat
      ensures var run := ExecBlock(One(IndexIs(start, stop, step, n)), s, fuel);
        run.trace == [Label(1, KFor)] && run.status.Fell?
    {
      NeverTaken(start, stop, step, n, s, fuel);
    }
  }

  lemma NeverTaken(start: int, stop: int, step: int, n: int, s: Store, fuel: nat)
    requires step != 0 && RangeValues(start, stop, step) != [] && n !in RangeValues(start, stop, step)
    ensures var run := ExecBlock(One(IndexIs(start, stop, step, n)), s, fuel);
      run.trace == [Label(1, KFor)] && run.status.Fell?
  {
    MissedIndex(start, stop, step, n, RangeValues(start, stop, step), s, fuel);
    LoopRun(IndexIs(start, stop, step, n), s, fuel);
  }

  // No return, no variable of the caller's bound, no further loop above the cap.
  predicate Quiet(params: Params, body: Block) {
    !HasReturn(body) && WithinCap(body) && Binds(body) !! params.Keys
  }

  function Over(start: int, stop: int, step: int, body: Block): Stmt {
    For(1, "i", start, stop, step, body)
  }

  // Every claim made of the program is met by the run on the witness.
  ghost predicate AllReal(params: Params, program: Block) {
    forall i: nat, m, fuel: nat ::
      i < |WalkProgram(params, program).log| && fuel > 0 && Claimed(WalkProgram(params, program).log[i], m) ==>
        Enters(WalkProgram(params, program).log, i, ExecBlock(program, Witness(params, m), fuel), Shared(program))
  }

  // Over an above-cap range, `reachable` is right of every quiet body exactly when the stride is one.
  lemma RealIffUnitStride(params: Params, start: int, stop: int, step: int)
    requires step != 0 && |RangeValues(start, stop, step)| > MAX_UNROLL_ITERATIONS
    ensures (forall body :: Quiet(params, body) ==> AllReal(params, One(Over(start, stop, step, body))))
       <==> step == 1 || step == -1
  {
    if step == 1 || step == -1 {
      forall body | Quiet(params, body) ensures AllReal(params, One(Over(start, stop, step, body))) {
        UnitStrideIsReal(params, start, stop, step, body);
      }
    } else {
      StrideIsNecessary(params, start, stop, step);
    }
  }

  lemma UnitStrideIsReal(params: Params, start: int, stop: int, step: int, body: Block)
    requires (step == 1 || step == -1) && |RangeValues(start, stop, step)| > MAX_UNROLL_ITERATIONS
    requires Quiet(params, body)
    ensures AllReal(params, One(Over(start, stop, step, body)))
  {
    var h := Over(start, stop, step, body);
    WithinCapIsCertain(body, params.Keys + {"i"});
    assert Uniform(h, params.Keys) && StmtDoubtful(h, params.Keys) == {};
    assert Doubtful(One(h), params.Keys) == StmtDoubtful(h, params.Keys) + Doubtful(Nil, params.Keys + StmtBinds(h));
    var log := WalkProgram(params, One(h)).log;
    forall i: nat, m, fuel: nat | i < |log| && fuel > 0 && Claimed(log[i], m)
      ensures Enters(log, i, ExecBlock(One(h), Witness(params, m), fuel), Shared(One(h)))
    {
      ClaimIsReal(params, One(h), i, m, fuel);
    }
  }

  lemma StrideIsNecessary(params: Params, start: int, stop: int, step: int)
    requires step != 0 && step != 1 && step != -1 && |RangeValues(start, stop, step)| > MAX_UNROLL_ITERATIONS
    ensures exists body :: Quiet(params, body) && !AllReal(params, One(Over(start, stop, step, body)))
  {
    var n := FalseReachableByStride(params, start, stop, step);
    var h := IndexIs(start, stop, step, n);
    var log := WalkProgram(params, One(h)).log;
    var it, m :| it in log && Claimed(it, m) && it.arm == Label(2, KIf);
    var i: nat :| i < |log| && log[i] == it;
    var ask := h.body.head;
    assert !StmtHasReturn(ask) && StmtWithinCap(ask) && StmtBinds(ask) == {} by {
      assert !HasReturn(One(Pass(3))) && WithinCap(One(Pass(3))) && Binds(One(Pass(3))) == {};
    }
    assert Quiet(params, h.body) && h == Over(start, stop, step, h.body);
    var run := ExecBlock(One(h), Witness(params, m), 1);
    assert run.trace == [Label(1, KFor)] && run.status.Fell?;
    assert !Enters(log, i, run, Shared(One(h)));
  }

  // ---------------------------------------------------------------- the iteration's own state

  lemma {:induction false} UnitRange(a: int, b: int)
    requires a <= b
    ensures |RangeValues(a, b, 1)| == b - a
    decreases b - a
  {
    if a < b { UnitRange(a + 1, b); }
  }

  // for i in range(n):           1
  //     if i == 0: return        2, 3
  //     if i == 1: pass          4
  function EarlyReturn(n: int): Stmt {
    For(1, "i", 0, n, 1, Two(IfIs(2, "i", 0, One(Return(3))), IfIs(4, "i", 1, One(Pass(5)))))
  }

  // An earlier iteration returns: line 4 is reachable in the report, and no run enters it.
  lemma FalseReachableAfterReturn(params: Params, n: nat, s: Store, fuel: nat)
    requires n > MAX_UNROLL_ITERATIONS
    ensures ReportedReachable(WalkProgram(params, One(EarlyReturn(n))).log, Label(4, KIf))
    ensures Label(4, KIf) !in ExecBlock(One(EarlyReturn(n)), s, fuel).trace
    ensures ExecBlock(One(EarlyReturn(n)), s, fuel).status.Returned?
  {
    UnitRange(0, n);
    EarlyReturnWalk(params, n);
    var h := EarlyReturn(n);
    var vals := RangeValues(0, n, 1);
    assert vals[0] == 0;
    var s1 := s["i" := 0];
    ThisIndex(2, 0, One(Return(3)), s1, fuel);
    assert ExecBlock(One(Return(3)), s1, fuel) == Run([], Returned);
    assert ExecBlock(h.body, s1, fuel) == Run([Label(2, KIf)], Returned);
    assert ExecCopies(h.body, "i", vals, s, fuel) == Run([Label(2, KIf)], Returned);
    LoopRun(h, s, fuel);
  }

  lemma EarlyReturnWalk(params: Params, n: nat)
    requires n > MAX_UNROLL_ITERATIONS && |RangeValues(0, n, 1)| == n
    ensures ReportedReachable(WalkProgram(params, One(EarlyReturn(n))).log, Label(4, KIf))
  {
    var h := EarlyReturn(n);
    var env, st := ParamEnv(params), InitialState();
    var inside := SomeIteration(h, AndT(BoolVal(true), BoolVal(Entered(h))));
    EarlyReturnBody(n, env["i" := Entry(LoopIndex(h), st.nextId)], st.(nextId := st.nextId + 1), inside);
    var rest := AndT(inside, NotT(CmpT(Eq, LoopIndex(h), IntVal(0))));
    var visit := Visit(Label(4, KIf), AndT(rest, CmpT(Eq, LoopIndex(h), IntVal(1))), 1, 0);
    LoopReports(h, env, st, BoolVal(true), visit);
    IndexFits(h, 1);
    NarrowedFits(h, inside, IndexModel(h, 1));
    hide WalkBlock, Holds, SomeIteration;
    assert Claimed(visit, IndexModel(h, 1));
  }

  lemma EarlyReturnBody(n: nat, env: Env, st: WState, inside: Term)
    requires "i" in env && env["i"].term == LoopIndex(EarlyReturn(n)) && st.tainted == {}
    ensures var i := LoopIndex(EarlyReturn(n));
      Visit(Label(4, KIf), AndT(AndT(inside, NotT(CmpT(Eq, i, IntVal(0)))), CmpT(Eq, i, IntVal(1))), 1, 0)
      in WalkBlock(EarlyReturn(n).body, env, st, inside, 1, 0, false).log
  {
    var h := EarlyReturn(n);
    var zero, one := CmpT(Eq, LoopIndex(h), IntVal(0)), CmpT(Eq, LoopIndex(h), IntVal(1));
    IndexGuard(h, env, 0);
    IndexGuard(h, env, 1);
    ReturnNarrows(h.body.head, h.body.tail, zero, env, st, inside);
    IfReports(h.body.tail.head, Nil, one, env, st, AndT(inside, NotT(zero)));
  }

  lemma NarrowedFits(h: Stmt, inside: Term, m: Model)
    requires h.For? && Lookup(m, LoopIndex(h).sym) == 1 && Holds(AndT(inside, CmpT(Eq, LoopIndex(h), IntVal(1))), m)
    ensures var zero, one := CmpT(Eq, LoopIndex(h), IntVal(0)), CmpT(Eq, LoopIndex(h), IntVal(1));
      Holds(AndT(AndT(inside, NotT(zero)), one), m)
  {
    var zero, one := CmpT(Eq, LoopIndex(h), IntVal(0)), CmpT(Eq, LoopIndex(h), IntVal(1));
    assert Holds(inside, m) && Holds(one, m);
    assert Eval(LoopIndex(h), m) == 1 && Eval(IntVal(0), m) == 0;
    assert Eval(zero, m) == 0 && Eval(NotT(zero), m) == 1;
    assert Holds(AndT(inside, NotT(zero)), m);
  }

  // if <g>: return
  lemma ReturnNarrows(h: Stmt, t: Block, g: Term, env: Env, st: WState, cond: Term)
    requires h.If? && h.body.Cons? && h.body.head.Return? && h.orelse.Nil? && Guard(h.test, env) == Some(g)
    requires st.tainted == {}
    ensures forall it :: it in WalkBlock(t, env, st, AndT(cond, NotT(g)), 1, 0, false).log
                         ==> it in WalkBlock(Cons(h, t), env, st, cond, 1, 0, false).log
  {
    var r := WalkIf(h, env, st, cond, 1, 0, KIf);
    assert WalkBlock(h.body, env, st, AndT(cond, g), 1, 0, false) == Res(Closes(env, false), st, []);
    assert !Mentions(g, st.tainted);
    assert WalkElse(h.orelse, env, st, AndT(cond, NotT(g)), 1, 0)
      == Res(Falls(AndT(cond, NotT(g)), env, false), st, []);
    assert r.out == Falls(AndT(cond, NotT(g)), env, false) && r.st == st;
    assert r == WalkCompound(h, env, st, cond, 1, 0);
  }

  // x = True                     0
  // for i in range(n):           1
  //     if i == 1:               2
  //         if x: pass           3
  //     x = False                5
  function AskX(): Stmt { If(3, Name("x"), One(Pass(4)), Nil) }

  function Rebinding(n: int): Stmt {
    For(1, "i", 0, n, 1, Two(IfIs(2, "i", 1, One(AskX())), Assign(5, "x", Boolean(false))))
  }

  function RebindingProgram(n: int): Block { Two(Assign(0, "x", Boolean(true)), Rebinding(n)) }

  // An earlier iteration changes a variable: line 3 is reachable in the report, and no run enters it.
  lemma FalseReachableAfterRebinding(params: Params, n: nat, s: Store, fuel: nat)
    requires n > MAX_UNROLL_ITERATIONS
    ensures ReportedReachable(WalkProgram(params, RebindingProgram(n)).log, Label(3, KIf))
    ensures Label(3, KIf) !in ExecBlock(RebindingProgram(n), s, fuel).trace
    ensures ExecBlock(RebindingProgram(n), s, fuel).status.Fell?
  {
    UnitRange(0, n);
    RebindingWalk(params, n);
    var h := Rebinding(n);
    var vals := RangeValues(0, n, 1);
    assert vals == [0] + RangeValues(1, n, 1);
    var s0 := s["x" := 1];
    RebindingIteration(n, s0["i" := 0], fuel);
    var e := ExecBlock(h.body, s0["i" := 0], fuel);
    RebindingRun(n, vals[1..], e.status.store, fuel);
    assert Label(3, KIf) !in ExecCopies(h.body, "i", vals, s0, fuel).trace;
    LoopRun(h, s0, fuel);
    assert EvalExpr(Boolean(true), s) == Some(1);
    assert ExecStmt(Assign(0, "x", Boolean(true)), s, fuel) == Run([], Fell(s0));
    assert ExecBlock(RebindingProgram(n), s, fuel) == After([], ExecBlock(One(h), s0, fuel));
  }

  lemma RebindingIteration(n: nat, s: Store, fuel: nat)
    requires "x" in s && "i" in s && (s["i"] == 1 ==> s["x"] == 0)
    ensures var e := ExecBlock(Rebinding(n).body, s, fuel);
      e.status == Fell(s["x" := 0]) && Label(3, KIf) !in e.trace
  {
    var h := Rebinding(n).body.head;
    if s["i"] == 1 {
      ThisIndex(2, 1, One(AskX()), s, fuel);
      assert EvalExpr(AskX().test, s) == Some(0);
      assert ExecIf(AskX(), s, fuel, KIf) == ExecElse(Nil, s, fuel) == Run([], Fell(s));
      assert ExecStmt(AskX(), s, fuel) == Run([], Fell(s));
      assert ExecBlock(One(AskX()), s, fuel) == Run([], Fell(s));
      assert ExecStmt(h, s, fuel) == Run([Label(2, KIf)], Fell(s));
    } else {
      NotThisIndex(2, 1, One(AskX()), s, fuel);
    }
    assert EvalExpr(Boolean(false), s) == Some(0);
    assert ExecStmt(Assign(5, "x", Boolean(false)), s, fuel) == Run([], Fell(s["x" := 0]));
    assert ExecBlock(One(Assign(5, "x", Boolean(false))), s, fuel) == Run([], Fell(s["x" := 0]));
  }

  lemma {:induction false} RebindingRun(n: nat, vals: seq<int>, s: Store, fuel: nat)
    requires "x" in s && s["x"] == 0
    ensures var run := ExecCopies(Rebinding(n).body, "i", vals, s, fuel);
      run.status.Fell? && Label(3, KIf) !in run.trace
    decreases |vals|
  {
    if vals != [] {
      var s1 := s["i" := vals[0]];
      RebindingIteration(n, s1, fuel);
      RebindingRun(n, vals[1..], s1["x" := 0], fuel);
    }
  }

  lemma RebindingWalk(params: Params, n: nat)
    requires n > MAX_UNROLL_ITERATIONS && |RangeValues(0, n, 1)| == n
    ensures ReportedReachable(WalkProgram(params, RebindingProgram(n)).log, Label(3, KIf))
  {
    var env0 := ParamEnv(params);
    assert Translate(Boolean(true), env0) == Some(BoolVal(true));
    var env, st := env0["x" := Entry(BoolVal(true), 1)], InitialState().(nextId := 2);
    assert WalkProgram(params, RebindingProgram(n))
      == WalkBlock(One(Rebinding(n)), env, st, BoolVal(true), 0, 0, false);
    RebindingLoopWalk(n, env, st);
  }

  lemma RebindingLoopWalk(n: nat, env: Env, st: WState)
    requires n > MAX_UNROLL_ITERATIONS && |RangeValues(0, n, 1)| == n
    requires "x" in env && env["x"].term == BoolVal(true) && st.tainted == {}
    ensures ReportedReachable(WalkBlock(One(Rebinding(n)), env, st, BoolVal(true), 0, 0, false).log, Label(3, KIf))
  {
    var h := Rebinding(n);
    var inside := SomeIteration(h, AndT(BoolVal(true), BoolVal(Entered(h))));
    var one := CmpT(Eq, LoopIndex(h), IntVal(1));
    RebindingBody(n, env["i" := Entry(LoopIndex(h), st.nextId)], st.(nextId := st.nextId + 1), inside);
    var visit := Visit(Label(3, KIf), AndT(AndT(inside, one), BoolVal(true)), 1, 0);
    LoopReports(h, env, st, BoolVal(true), visit);
    IndexFits(h, 1);
    AlsoTrue(AndT(inside, one), IndexModel(h, 1));
    hide WalkBlock, Holds, SomeIteration;
    assert Claimed(visit, IndexModel(h, 1));
  }

  lemma AlsoTrue(t: Term, m: Model)
    requires Holds(t, m)
    ensures Holds(AndT(t, BoolVal(true)), m)
  {
    assert Eval(BoolVal(true), m) == 1;
  }

  lemma RebindingBody(n: nat, env: Env, st: WState, inside: Term)
    requires "i" in env && env["i"].term == LoopIndex(Rebinding(n)) && "x" in env && env["x"].term == BoolVal(true)
    requires st.tainted == {}
    ensures Visit(Label(3, KIf), AndT(AndT(inside, CmpT(Eq, LoopIndex(Rebinding(n)), IntVal(1))), BoolVal(true)), 1, 0)
         in WalkBlock(Rebinding(n).body, env, st, inside, 1, 0, false).log
  {
    var h := Rebinding(n);
    var one := CmpT(Eq, LoopIndex(h), IntVal(1));
    IndexGuard(h, env, 1);
    IfReports(h.body.head, h.body.tail, one, env, st, inside);
    assert Guard(AskX().test, env) == Some(BoolVal(true));
    IfReports(AskX(), Nil, BoolVal(true), env, st, AndT(inside, one));
  }
}
