/**
  Programs on which the analysis says more than it may: why each result about the verdicts
  carries the condition it does.
 */
module Counterexamples {
  import opened Wrappers
  import opened PySubset
  import opened Interp
  import opened Terms
  import opened Walk

  // An arm that any solver able to answer makes `dead`.
  ghost predicate ReportedDead(log: seq<Item>, l: Label) {
    exists it :: it in log && it.Visit? && it.arm == l && it.cons == 0 && forall m :: !Holds(it.cond, m)
  }

  // if <x>: pass
  function Ask(line: int, x: string): Stmt { If(line, Name(x), One(Pass(line + 1)), Nil) }

  // An `if` on an untainted bool variable is reported under the condition that reaches it.
  lemma AskIsVisited(line: int, x: string, t: Block, env: Env, st: WState, cond: Term, unres: nat, u: bool)
    requires x in env && IsBool(env[x].term) && !Mentions(env[x].term, st.tainted)
    ensures Visit(Label(line, KIf), AndT(cond, env[x].term), 0, Bump(unres, u))
         in WalkBlock(Cons(Ask(line, x), t), env, st, cond, 0, unres, u).log
  {
    var h := Ask(line, x);
    var r := WalkIf(h, env, st, cond, 0, Bump(unres, u), KIf);
    assert Guard(h.test, env) == Some(env[x].term);
    assert Visit(Label(line, KIf), AndT(cond, env[x].term), 0, Bump(unres, u)) in r.log;
    assert r == WalkCompound(h, env, st, cond, 0, Bump(unres, u));
  }

  lemma AskIsEntered(line: int, x: string, s: Store, fuel: nat)
    requires x in s && s[x] != 0
    ensures Label(line, KIf) in ExecBlock(One(Ask(line, x)), s, fuel).trace
  {
    var h := Ask(line, x);
    assert Label(line, KIf) in ExecIf(h, s, fuel, KIf).trace;
    assert ExecStmt(h, s, fuel) == ExecIf(h, s, fuel, KIf);
  }

  lemma InTail(h: Stmt, t: Block, env: Env, st: WState, cond: Term, u: bool, it: Item)
    requires Compound(h) && WalkCompound(h, env, st, cond, 0, Bump(0, u)).out.Falls?
    requires var r := WalkCompound(h, env, st, cond, 0, Bump(0, u));
      it in WalkBlock(t, r.out.env, r.st, r.out.cont, 0, 0, u || r.out.taint).log
    ensures it in WalkBlock(Cons(h, t), env, st, cond, 0, 0, u).log
  {
  }

  lemma EnteredLater(h: Stmt, t: Block, s: Store, fuel: nat, l: Label)
    requires ExecStmt(h, s, fuel).status.Fell?
    requires l in ExecBlock(t, ExecStmt(h, s, fuel).status.store, fuel).trace
    ensures l in ExecBlock(Cons(h, t), s, fuel).trace
  {
  }

  // ---------------------------------------------------------------- a loop that may return

  // while c:             1
  //     if d: return     2
  // if d: pass           4
  function MayReturnLoop(): Stmt { While(1, Name("c"), One(If(2, Name("d"), One(Return(3)), Nil))) }

  function MayReturn(): Block { Two(MayReturnLoop(), Ask(4, "d")) }

  function TwoBools(): Params { map["c" := BoolSort, "d" := BoolSort] }

  lemma MayReturnLoopWalk()
    ensures var env := ParamEnv(TwoBools());
      var r := WalkWhile(MayReturnLoop(), env, InitialState(), BoolVal(true), 0, 0);
      r.out == Falls(AndT(AndT(BoolVal(true), env["c"].term), NotT(env["d"].term)), env, true) && r.st.tainted == {}
  {
    var env, st := ParamEnv(TwoBools()), InitialState();
    var enter := AndT(BoolVal(true), env["c"].term);
    var h := MayReturnLoop().body.head;
    var ri := WalkIf(h, env, st, enter, 1, 0, KIf);
    assert Guard(h.test, env) == Some(env["d"].term);
    assert WalkBlock(One(Return(3)), env, st, AndT(enter, env["d"].term), 1, 0, false).out.Closes?;
    assert ri.out == Falls(AndT(enter, NotT(env["d"].term)), env, false) && ri.st == st;
    assert ri == WalkCompound(h, env, st, enter, 1, 0);
    var rb := WalkBlock(One(h), env, st, enter, 1, 0, false);
    assert rb.out == ri.out && rb.st == st;
    assert Guard(MayReturnLoop().test, env) == Some(env["c"].term);
    assert Rebound(env, env) == {};
    assert TaintEnv(env, env, st) == env;
  }

  // What follows a loop that may return inherits the condition of its first iteration, and so
  // forgets the runs that never enter it: line 4 is dead in the report, and c = False, d = True
  // enters it.
  lemma FalseDeadAfterMayReturnLoop(fuel: nat)
    ensures ReportedDead(WalkProgram(TwoBools(), MayReturn()).log, Label(4, KIf))
    ensures Label(4, KIf) in ExecBlock(MayReturn(), map["c" := 0, "d" := 1], fuel).trace
  {
    var env, st := ParamEnv(TwoBools()), InitialState();
    MayReturnLoopWalk();
    DeadAfterMayReturn(MayReturnLoop(), env, st);
    var s := map["c" := 0, "d" := 1];
    assert ExecWhile(MayReturnLoop(), s, fuel) == Run([], Fell(s));
    AskIsEntered(4, "d", s, fuel);
    EnteredLater(MayReturnLoop(), One(Ask(4, "d")), s, fuel, Label(4, KIf));
  }

  lemma DeadAfterMayReturn(h: Stmt, env: Env, st: WState)
    requires h.While? && "c" in env && "d" in env && IsBool(env["d"].term)
    requires var r := WalkWhile(h, env, st, BoolVal(true), 0, 0);
      r.out == Falls(AndT(AndT(BoolVal(true), env["c"].term), NotT(env["d"].term)), env, true) && r.st.tainted == {}
    ensures ReportedDead(WalkBlock(Two(h, Ask(4, "d")), env, st, BoolVal(true), 0, 0, false).log, Label(4, KIf))
  {
    var d := env["d"].term;
    var r := WalkCompound(h, env, st, BoolVal(true), 0, 0);
    assert r == WalkWhile(h, env, st, BoolVal(true), 0, 0);
    AskIsVisited(4, "d", Nil, env, r.st, r.out.cont, 0, true);
    var visit := Visit(Label(4, KIf), AndT(r.out.cont, d), 0, 1);
    InTail(h, One(Ask(4, "d")), env, st, BoolVal(true), false, visit);
    forall m ensures !Holds(visit.cond, m) {
      assert Holds(visit.cond, m) ==> Holds(r.out.cont, m) && Holds(d, m);
      assert Holds(r.out.cont, m) ==> Holds(NotT(d), m);
    }
  }

  // ---------------------------------------------------------------- an arm passed over

  // while c:  c = False   1, 2
  // if c: pass
  // else: d = True        3, 5
  // if d: pass            6
  function PassedOverLoop(): Stmt { While(1, Name("c"), One(Assign(2, "c", Boolean(false)))) }

  function PassedOverIf(): Stmt { If(3, Name("c"), One(Pass(4)), One(Assign(5, "d", Boolean(true)))) }

  function PassedOver(): Block {
    Cons(Assign(0, "d", Boolean(false)), Cons(PassedOverLoop(), Two(PassedOverIf(), Ask(6, "d"))))
  }

  function OneBool(): Params { map["c" := BoolSort] }

  lemma PassedOverLoopWalk(env: Env, st: WState)
    requires "c" in env && env["c"].term == Const(Sym("c", BoolSort)) && env["c"].id < st.nextId && st.tainted == {}
    requires "d" in env && env["d"].term == BoolVal(false)
    ensures var r := WalkWhile(PassedOverLoop(), env, st, BoolVal(true), 0, 0);
      && r.out.Falls? && !r.out.taint && r.st.tainted == {TaintName(st.taints, "c")}
      && "c" in r.out.env && "d" in r.out.env && r.out.env["d"] == env["d"]
      && r.out.env["c"].term == Const(Sym(TaintName(st.taints, "c"), BoolSort))
  {
    var enter := AndT(BoolVal(true), env["c"].term);
    assert Guard(PassedOverLoop().test, env) == Some(env["c"].term);
    var after := env["c" := Entry(BoolVal(false), st.nextId)];
    var rb := WalkBlock(PassedOverLoop().body, env, st, enter, 1, 0, false);
    assert rb == WalkBlock(Nil, after, st.(nextId := st.nextId + 1), enter, 1, 0, false);
    assert rb.out == Falls(enter, after, false);
    assert Rebound(env, after) == {"c"};
  }

  // An arm that is passed over may assign: line 6 is dead in the report, and every run enters it.
  lemma FalseDeadAfterPassedOver(fuel: nat, c: int)
    requires fuel > 0
    ensures ReportedDead(WalkProgram(OneBool(), PassedOver()).log, Label(6, KIf))
    ensures Label(6, KIf) in ExecBlock(PassedOver(), map["c" := c], fuel).trace
  {
    var env0 := ParamEnv(OneBool());
    var env := env0["d" := Entry(BoolVal(false), 1)];
    var st := InitialState().(nextId := 2);
    DeadAfterPassedOver(env, st);
    var rest := Cons(PassedOverLoop(), Two(PassedOverIf(), Ask(6, "d")));
    assert Translate(Boolean(false), env0) == Some(BoolVal(false));
    AssignFirst(0, "d", Boolean(false), rest, env0, InitialState());
    PassedOverRun(fuel, c);
  }

  lemma AssignFirst(line: int, x: string, e: Expr, t: Block, env: Env, st: WState)
    requires Translate(e, env).Some?
    ensures WalkBlock(Cons(Assign(line, x, e), t), env, st, BoolVal(true), 0, 0, false)
         == WalkBlock(t, env[x := Entry(Translate(e, env).value, st.nextId)], st.(nextId := st.nextId + 1),
                      BoolVal(true), 0, 0, false)
  {
  }

  lemma DeadAfterPassedOver(env: Env, st: WState)
    requires "c" in env && env["c"].term == Const(Sym("c", BoolSort)) && env["c"].id < st.nextId && st.tainted == {}
    requires "d" in env && env["d"].term == BoolVal(false)
    ensures ReportedDead(WalkBlock(Cons(PassedOverLoop(), Two(PassedOverIf(), Ask(6, "d"))), env, st, BoolVal(true), 0,
                                   0, false).log,
                         Label(6, KIf))
  {
    PassedOverLoopWalk(env, st);
    DeadAfterTaint(PassedOverLoop(), PassedOverIf(), env, st);
  }

  lemma DeadAfterTaint(loop: Stmt, h: Stmt, env: Env, st: WState)
    requires loop.While? && h.If? && h.test == Name("c")
    requires var r := WalkWhile(loop, env, st, BoolVal(true), 0, 0);
      && r.out.Falls? && !r.out.taint && "c" in r.out.env && "d" in r.out.env
      && IsBool(r.out.env["c"].term) && Mentions(r.out.env["c"].term, r.st.tainted)
        && r.out.env["d"].term == BoolVal(false)
    ensures ReportedDead(WalkBlock(Cons(loop, Two(h, Ask(6, "d"))), env, st, BoolVal(true), 0, 0, false).log,
                         Label(6, KIf))
  {
    var r := WalkCompound(loop, env, st, BoolVal(true), 0, 0);
    assert r == WalkWhile(loop, env, st, BoolVal(true), 0, 0);
    var ri := WalkCompound(h, r.out.env, r.st, r.out.cont, 0, 0);
    assert ri == WalkIf(h, r.out.env, r.st, r.out.cont, 0, 0, KIf);
    assert ri.out == Falls(r.out.cont, r.out.env, true) && ri.st == r.st;
    var d := r.out.env["d"].term;
    assert Syms(d) == {};
    AskIsVisited(6, "d", Nil, r.out.env, r.st, r.out.cont, 0, true);
    var visit := Visit(Label(6, KIf), AndT(r.out.cont, d), 0, 1);
    InTail(h, One(Ask(6, "d")), r.out.env, r.st, r.out.cont, false, visit);
    InTail(loop, Two(h, Ask(6, "d")), env, st, BoolVal(true), false, visit);
    forall m ensures !Holds(visit.cond, m) {
      assert Eval(d, m) == 0;
    }
  }

  lemma PassedOverRun(fuel: nat, c: int)
    requires fuel > 0
    ensures Label(6, KIf) in ExecBlock(PassedOver(), map["c" := c], fuel).trace
  {
    var s := map["c" := c]["d" := 0];
    var s0 := s["c" := 0];
    assert ExecWhile(PassedOverLoop(), s0, fuel - 1) == Run([], Fell(s0));
    assert ExecBlock(PassedOverLoop().body, s, fuel) == Run([], Fell(s0));
    assert s == s0 || c != 0;
    var e := ExecWhile(PassedOverLoop(), s, fuel);
    assert e.status == Fell(s0);
    assert e == ExecStmt(PassedOverLoop(), s, fuel);
    var s1 := s0["d" := 1];
    var orelse := PassedOverIf().orelse;
    assert ExecBlock(orelse, s0, fuel) == Run([], Fell(s1));
    assert ExecElse(orelse, s0, fuel).status == Fell(s1);
    assert ExecIf(PassedOverIf(), s0, fuel, KIf).status == Fell(s1);
    AskIsEntered(6, "d", s1, fuel);
    EnteredLater(PassedOverIf(), One(Ask(6, "d")), s0, fuel, Label(6, KIf));
    EnteredLater(PassedOverLoop(), Two(PassedOverIf(), Ask(6, "d")), s, fuel, Label(6, KIf));
  }

  // ---------------------------------------------------------------- an iteration passed over

  // for i in range(2):           1
  //     if c:                    2
  //         if i == 1: pass      3
  //     while d: c = d           4, 5
  function SkipInner(): Stmt { If(3, Compare(Eq, Name("i"), Num(1)), One(Pass(30)), Nil) }

  function SkipOuter(): Stmt { If(2, Name("c"), One(SkipInner()), Nil) }

  function SkipLoop(): Stmt { While(4, Name("d"), One(Assign(5, "c", Name("d")))) }

  function SkipBody(): Block { Two(SkipOuter(), SkipLoop()) }

  function SkipFor(): Stmt { For(1, "i", 0, 2, 1, SkipBody()) }

  // Line 3 is only ever reported with a condition that no input satisfies.
  ghost predicate LineThreeDead(log: seq<Item>) {
    forall it :: it in log ==> DeadIfThree(it)
  }

  ghost predicate DeadIfThree(it: Item) {
    it.Visit? && it.arm.line == 3 ==> it.cons == 0 && it.unres == 0 && forall m :: !Holds(it.cond, m)
  }

  // The loop on line 4 taints `c`, so the second iteration of line 2 is passed over and never
  // counts: line 3 is dead in the report, with no unresolved closure before it, and c = True,
  // d = False enters it in that iteration.
  lemma FalseDeadInSkippedIteration(fuel: nat)
    ensures LineThreeDead(WalkProgram(TwoBools(), One(SkipFor())).log)
    ensures exists it :: it in WalkProgram(TwoBools(), One(SkipFor())).log && it.Visit? && it.arm == Label(3, KIf)
    ensures Label(3, KIf) in ExecBlock(One(SkipFor()), map["c" := 1, "d" := 0], fuel).trace
  {
    var env, st := ParamEnv(TwoBools()), InitialState();
    SkipForWalk(env, st);
    OneCompound(SkipFor(), env, st);
    SkipRun(fuel);
  }

  lemma OneCompound(h: Stmt, env: Env, st: WState)
    requires Compound(h) && !WalkCompound(h, env, st, BoolVal(true), 0, 0).out.Fails?
    ensures WalkBlock(One(h), env, st, BoolVal(true), 0, 0, false).log
      == WalkCompound(h, env, st, BoolVal(true), 0, 0).log
  {
  }

  lemma {:induction false} SkipRange(a: int, b: int)
    requires a + 2 == b
    ensures RangeValues(a, b, 1) == [a, a + 1]
  {
    assert RangeValues(a + 2, b, 1) == [];
    assert RangeValues(a + 1, b, 1) == [a + 1];
  }

  predicate SkipEnv(env: Env, st: WState) {
    && "c" in env && "d" in env && IsBool(env["c"].term) && env["d"].term == Const(Sym("d", BoolSort))
    && env["c"].id < st.nextId && st.tainted !! {"d"}
  }

  lemma SkipForWalk(env: Env, st: WState)
    requires SkipEnv(env, st) && st.tainted == {}
    ensures var r := WalkCompound(SkipFor(), env, st, BoolVal(true), 0, 0);
      && !r.out.Fails? && LineThreeDead(r.log)
      && exists it :: it in r.log && it.Visit? && it.arm == Label(3, KIf)
  {
    var h := SkipFor();
    SkipRange(0, 2);
    var r := WalkUnrolled(h, [0, 1], env, st, BoolVal(true), 0, 0);
    assert r == WalkFor(h, env, st, BoolVal(true), 0, 0) == WalkCompound(h, env, st, BoolVal(true), 0, 0);
    SkipCopies(env, st);
    hide Holds, WalkCopies, WalkFor, WalkCompound, SkipBody;
    var rc := WalkCopies(SkipBody(), "i", [0, 1], env, st, BoolVal(true), 0, 0, false, false);
    var visit := Visit(Label(1, KFor), AndT(BoolVal(true), BoolVal(true)), 0, 0);
    assert r.log == [visit, Push] + rc.log + [Pop];
    var it :| it in rc.log && it.Visit? && it.arm == Label(3, KIf);
    assert it in r.log;
  }

  lemma SkipCopies(env: Env, st: WState)
    requires SkipEnv(env, st) && st.tainted == {}
    ensures var r := WalkCopies(SkipBody(), "i", [0, 1], env, st, BoolVal(true), 0, 0, false, false);
      && !r.out.Fails? && LineThreeDead(r.log)
      && exists it :: it in r.log && it.Visit? && it.arm == Label(3, KIf)
  {
    var env1, st1 := env["i" := Entry(IntVal(0), st.nextId)], st.(nextId := st.nextId + 1);
    FirstCopy(env1, st1, BoolVal(true));
    var r1 := WalkBlock(SkipBody(), env1, st1, BoolVal(true), 0, 0, false);
    var env2, st2 := r1.out.env["i" := Entry(IntVal(1), r1.st.nextId)], r1.st.(nextId := r1.st.nextId + 1);
    SecondCopy(env2, st2, r1.out.cont);
    var r2 := WalkBlock(SkipBody(), env2, st2, r1.out.cont, 0, 0, false);
    TwoCopies(SkipBody(), 0, 1, env, st, r1, r2);
    hide Holds, WalkCopies, WalkBlock, SkipBody;
  }

  lemma TwoCopies(body: Block, v: int, w: int, env: Env, st: WState, r1: Res, r2: Res)
    requires r1 == WalkBlock(body, env["i" := Entry(IntVal(v), st.nextId)], st.(nextId := st.nextId + 1),
                             BoolVal(true), 0, 0, false)
    requires r1.out.Falls? && !r1.out.taint
    requires r2 == WalkBlock(body, r1.out.env["i" := Entry(IntVal(w), r1.st.nextId)],
                             r1.st.(nextId := r1.st.nextId + 1),
                             r1.out.cont, 0, 0, false)
    requires r2.out.Falls?
    ensures var r := WalkCopies(body, "i", [v, w], env, st, BoolVal(true), 0, 0, false, false);
      r.out.Falls? && r.log == r1.log + r2.log
  {
    assert [v, w][1..] == [w] && [w][1..] == [];
    var rest := WalkCopies(body, "i", [w], r1.out.env, r1.st, r1.out.cont, 0, 0, false, false);
    var end := WalkCopies(body, "i", [], r2.out.env, r2.st, r2.out.cont, 0, 0, r2.out.taint, false);
    assert rest == Prepend(r2.log, end) && rest.log == r2.log;
  }

  lemma JoinSelf(g: Term, env: Env, id: nat)
    ensures MergeEnvs(g, env, env, id) == env && Joinable(env, env)
  {
  }

  // An `if` whose body leaves the environment alone and that has no `else`.
  lemma PlainIf(h: Stmt, env: Env, st: WState, cond: Term, g: Term, rb: Res)
    requires h.If? && h.orelse.Nil? && Guard(h.test, env) == Some(g) && !Mentions(g, st.tainted)
    requires rb == WalkBlock(h.body, env, st, AndT(cond, g), 0, 0, false)
    requires rb.out.Falls? && rb.out.env == env && !rb.out.taint && rb.st.tainted == st.tainted
    requires rb.st.taints == st.taints
    ensures var r := WalkCompound(h, env, st, cond, 0, 0);
      && r.out.Falls? && r.out.env == env && !r.out.taint
      && r.st == rb.st.(nextId := rb.st.nextId + 1)
      && r.log == [Visit(Label(h.line, KIf), AndT(cond, g), 0, 0)] + rb.log
  {
    var re := WalkElse(h.orelse, env, rb.st, AndT(cond, NotT(g)), 0, 0);
    JoinSelf(g, env, re.st.nextId);
    assert h.If? ==> WalkCompound(h, env, st, cond, 0, 0) == WalkIf(h, env, st, cond, 0, 0, KIf);
    assert re.log == [];
    var log := [Visit(Label(h.line, KIf), AndT(cond, g), 0, 0)] + rb.log;
    assert log + re.log == log;
  }

  lemma OuterFirst(env: Env, st: WState, cond: Term)
    requires SkipEnv(env, st) && st.tainted == {} && "i" in env && env["i"].term == IntVal(0)
    ensures var r := WalkCompound(SkipOuter(), env, st, cond, 0, 0);
      && r.out.Falls? && r.out.env == env && !r.out.taint && SkipEnv(env, r.st) && r.st.tainted == {}
      && LineThreeDead(r.log) && exists it :: it in r.log && it.Visit? && it.arm == Label(3, KIf)
  {
    var c := env["c"].term;
    var yes := AndT(cond, c);
    var inner := SkipInner();
    var g := CmpT(Eq, IntVal(0), IntVal(1));
    assert Translate(inner.test.l, env) == Some(IntVal(0)) && Translate(inner.test.r, env) == Some(IntVal(1));
    assert Guard(inner.test, env) == Some(g);
    var leaf := WalkBlock(inner.body, env, st, AndT(yes, g), 0, 0, false);
    assert leaf.out == Falls(AndT(yes, g), env, false) && leaf.st == st && leaf.log == [];
    PlainIf(inner, env, st, yes, g, leaf);
    var ri := WalkCompound(inner, env, st, yes, 0, 0);
    var visit := Visit(Label(3, KIf), AndT(yes, g), 0, 0);
    assert ri.log == [visit];
    JustOne(inner, env, st, yes);
    var rb := WalkBlock(SkipOuter().body, env, st, yes, 0, 0, false);
    assert Guard(SkipOuter().test, env) == Some(c);
    PlainIf(SkipOuter(), env, st, cond, c, rb);
    assert visit in WalkCompound(SkipOuter(), env, st, cond, 0, 0).log;
    forall m ensures !Holds(visit.cond, m) {
      assert Eval(IntVal(0), m) == 0 && Eval(IntVal(1), m) == 1;
      assert Eval(g, m) == 0;
    }
  }

  lemma JustOne(h: Stmt, env: Env, st: WState, cond: Term)
    requires Compound(h) && WalkCompound(h, env, st, cond, 0, 0).out.Falls?
    ensures WalkBlock(One(h), env, st, cond, 0, 0, false) == WalkCompound(h, env, st, cond, 0, 0)
  {
    var r := WalkCompound(h, env, st, cond, 0, 0);
    assert r.log + [] == r.log;
  }

  // The loop on line 4 reports only itself and taints `c`.
  lemma SkipLoopWalk(env: Env, st: WState, cond: Term, unres: nat)
    requires SkipEnv(env, st)
    ensures var r := WalkCompound(SkipLoop(), env, st, cond, 0, unres);
      && r.out.Falls? && !r.out.taint && LineThreeDead(r.log)
      && "c" in r.out.env && IsBool(r.out.env["c"].term) && Mentions(r.out.env["c"].term, r.st.tainted)
      && SkipEnv(r.out.env, r.st)
  {
    var h := SkipLoop();
    var d := env["d"].term;
    var enter := AndT(cond, d);
    assert Guard(h.test, env) == Some(d) && !Mentions(d, st.tainted) by { assert Syms(d) == {d.sym}; }
    var after := env["c" := Entry(d, st.nextId)];
    var rb := WalkBlock(h.body, env, st, enter, 1, unres, false);
    assert rb == WalkBlock(Nil, after, st.(nextId := st.nextId + 1), enter, 1, unres, false);
    assert rb.out == Falls(enter, after, false) && rb.log == [];
    assert Rebound(env, after) == {"c"};
    var r := WalkWhile(h, env, st, cond, 0, unres);
    assert r == WalkCompound(h, env, st, cond, 0, unres);
    assert !HasReturn(h.body);
    var name := TaintName(st.taints, "c");
    assert |name| > 1 && name != "d";
    assert r.out.env["c"].term == Const(Sym(name, BoolSort)) && name in r.st.tainted;
    assert Sym(name, BoolSort) in Syms(r.out.env["c"].term);
    assert r.log == [Visit(Label(4, KWhile), enter, 0, unres)] + rb.log + [Passed(4)];
  }

  lemma FirstCopy(env: Env, st: WState, cond: Term)
    requires SkipEnv(env, st) && st.tainted == {} && "i" in env && env["i"].term == IntVal(0)
    ensures var r := WalkBlock(SkipBody(), env, st, cond, 0, 0, false);
      && r.out.Falls? && !r.out.taint && LineThreeDead(r.log)
      && (exists it :: it in r.log && it.Visit? && it.arm == Label(3, KIf))
      && SkipEnv(r.out.env, r.st) && Mentions(r.out.env["c"].term, r.st.tainted)
  {
    OuterFirst(env, st, cond);
    var ro := WalkCompound(SkipOuter(), env, st, cond, 0, 0);
    SkipLoopWalk(env, ro.st, ro.out.cont, 0);
    JustOne(SkipLoop(), env, ro.st, ro.out.cont);
    InSequence(SkipOuter(), SkipLoop(), env, st, cond);
    var it :| it in ro.log && it.Visit? && it.arm == Label(3, KIf);
    assert it in WalkBlock(SkipBody(), env, st, cond, 0, 0, false).log;
  }

  lemma InSequence(a: Stmt, b: Stmt, env: Env, st: WState, cond: Term)
    requires Compound(a) && Compound(b) && WalkCompound(a, env, st, cond, 0, 0).out.Falls?
    ensures var r := WalkCompound(a, env, st, cond, 0, 0);
      WalkBlock(Two(a, b), env, st, cond, 0, 0, false)
      == Prepend(r.log, WalkBlock(One(b), r.out.env, r.st, r.out.cont, 0, 0, r.out.taint))
  {
  }

  lemma SecondCopy(env: Env, st: WState, cond: Term)
    requires SkipEnv(env, st) && Mentions(env["c"].term, st.tainted)
    ensures var r := WalkBlock(SkipBody(), env, st, cond, 0, 0, false);
      r.out.Falls? && LineThreeDead(r.log)
  {
    var ro := WalkCompound(SkipOuter(), env, st, cond, 0, 0);
    assert Guard(SkipOuter().test, env) == Some(env["c"].term);
    assert ro == WalkIf(SkipOuter(), env, st, cond, 0, 0, KIf);
    assert ro == Res(Falls(cond, env, true), st, [Unsolved(Label(2, KIf), true)]);
    SkipLoopWalk(env, st, cond, 1);
    InSequence(SkipOuter(), SkipLoop(), env, st, cond);
    var rl := WalkCompound(SkipLoop(), env, st, cond, 0, 1);
    LastAfterUnresolved(SkipLoop(), env, st, cond);
  }

  lemma LastAfterUnresolved(h: Stmt, env: Env, st: WState, cond: Term)
    requires Compound(h) && WalkCompound(h, env, st, cond, 0, 1).out.Falls?
    ensures var r := WalkBlock(One(h), env, st, cond, 0, 0, true);
      r.out.Falls? && r.log == WalkCompound(h, env, st, cond, 0, 1).log
  {
    var r := WalkCompound(h, env, st, cond, 0, 1);
    assert r.log + [] == r.log;
  }

  lemma SkipRun(fuel: nat)
    ensures Label(3, KIf) in ExecBlock(One(SkipFor()), map["c" := 1, "d" := 0], fuel).trace
  {
    var s := map["c" := 1, "d" := 0];
    SkipRange(0, 2);
    var s0, s1 := s["i" := 0], s["i" := 1];
    SkipIteration(s0, fuel);
    SkipIteration(s1, fuel);
    var e0, e1 := ExecBlock(SkipBody(), s0, fuel), ExecBlock(SkipBody(), s1, fuel);
    assert s0["i" := 1] == s1;
    TwoIterations(SkipBody(), s, 0, 1, fuel, Label(3, KIf));
    var run := ExecCopies(SkipBody(), "i", [0, 1], s, fuel);
    assert ExecStmt(SkipFor(), s, fuel) == After([Label(1, KFor)], run);
    assert Label(3, KIf) in ExecStmt(SkipFor(), s, fuel).trace;
    InOnly(SkipFor(), s, fuel, Label(3, KIf));
  }

  lemma InOnly(h: Stmt, s: Store, fuel: nat, l: Label)
    requires l in ExecStmt(h, s, fuel).trace
    ensures l in ExecBlock(One(h), s, fuel).trace
  {
  }

  lemma TwoIterations(body: Block, s: Store, v: int, w: int, fuel: nat, l: Label)
    requires ExecBlock(body, s["i" := v], fuel).status == Fell(s["i" := v])
    requires l in ExecBlock(body, s["i" := w], fuel).trace
    ensures l in ExecCopies(body, "i", [v, w], s, fuel).trace
  {
    assert [v, w][1..] == [w];
    assert s["i" := v]["i" := w] == s["i" := w];
    assert l in ExecCopies(body, "i", [w], s["i" := v], fuel).trace;
  }

  lemma SkipIteration(s: Store, fuel: nat)
    requires "c" in s && s["c"] == 1 && "d" in s && s["d"] == 0 && "i" in s
    ensures var e := ExecBlock(SkipBody(), s, fuel);
      e.status == Fell(s) && (s["i"] == 1 ==> Label(3, KIf) in e.trace)
  {
    var inner := SkipInner();
    assert EvalExpr(inner.test.l, s) == Some(s["i"]) && EvalExpr(inner.test.r, s) == Some(1);
    assert ExecElse(Nil, s, fuel) == Run([], Fell(s));
    assert ExecBlock(inner.body, s, fuel) == Run([], Fell(s));
    var ei := ExecIf(inner, s, fuel, KIf);
    assert ei == ExecStmt(inner, s, fuel) && ei.status == Fell(s);
    var outer := SkipOuter();
    assert ExecBlock(outer.body, s, fuel).status == Fell(s);
    InOnlyIf(inner, s, fuel);
    var eo := ExecIf(outer, s, fuel, KIf);
    assert eo == ExecStmt(outer, s, fuel) && eo.status == Fell(s);
    assert ExecWhile(SkipLoop(), s, fuel) == Run([], Fell(s)) == ExecStmt(SkipLoop(), s, fuel);
    assert ExecBlock(One(SkipLoop()), s, fuel).status == Fell(s);
  }

  lemma InOnlyIf(h: Stmt, s: Store, fuel: nat)
    requires h.If?
    ensures forall l :: l in ExecIf(h, s, fuel, KIf).trace ==> l in ExecBlock(One(h), s, fuel).trace
  {
    assert ExecStmt(h, s, fuel) == ExecIf(h, s, fuel, KIf);
  }

  // ---------------------------------------------------------------- a parameter with a minted name

  // if __tainted_1_x:              1
  //     while x: x = False         2, 3
  const MINTED := "__tainted_1_x"

  function MintedLoop(): Stmt { While(2, Name("x"), One(Assign(3, "x", Boolean(false)))) }

  function MintedIf(): Stmt { If(1, Name(MINTED), One(MintedLoop()), Nil) }

  function MintedParams(): Params { map[MINTED := BoolSort, "x" := BoolSort] }

  // The loop mints the very name that the guard's parameter bears: the condition on line 1 is
  // solved, and mentions a tainted name.
  lemma MintedNameIsSolved()
    ensures var r := WalkProgram(MintedParams(), One(MintedIf()));
      exists it :: it in r.log && it.Visit? && it.arm == Label(1, KIf) && Mentions(it.cond, r.st.tainted)
  {
    MintedAt(ParamEnv(MintedParams()), InitialState());
  }

  lemma MintedAt(env: Env, st: WState)
    requires MINTED in env && env[MINTED].term == Const(Sym(MINTED, BoolSort)) && st.tainted == {} && st.taints == 1
    requires "x" in env && env["x"].term == Const(Sym("x", BoolSort)) && env["x"].id < st.nextId
    ensures var r := WalkBlock(One(MintedIf()), env, st, BoolVal(true), 0, 0, false);
      exists it :: it in r.log && it.Visit? && it.arm == Label(1, KIf) && Mentions(it.cond, r.st.tainted)
  {
    var p := Const(Sym(MINTED, BoolSort));
    assert Guard(Name(MINTED), env) == Some(p);
    var yes := AndT(BoolVal(true), p);
    MintedLoopWalk(env, st, yes);
    MintedIfWalk(env, st, p);
    MintedName();
    var visit := Visit(Label(1, KIf), yes, 0, 0);
    assert Sym(MINTED, BoolSort) in Syms(yes) by { assert Syms(p) == {p.sym}; }
    hide WalkBlock, TaintName, Guard;
    assert Mentions(visit.cond, WalkBlock(One(MintedIf()), env, st, BoolVal(true), 0, 0, false).st.tainted);
  }

  lemma MintedName()
    ensures TaintName(1, "x") == MINTED
  {
    assert Decimal(1) == "1";
  }

  lemma MintedLoopWalk(env: Env, st: WState, cond: Term)
    requires "x" in env && env["x"].term == Const(Sym("x", BoolSort)) && env["x"].id < st.nextId && st.tainted == {}
    ensures var r := WalkBlock(One(MintedLoop()), env, st, cond, 0, 0, false);
      r.out.Falls? && TaintName(st.taints, "x") in r.st.tainted
  {
    var h := MintedLoop();
    var enter := AndT(cond, env["x"].term);
    assert Guard(h.test, env) == Some(env["x"].term);
    var after := env["x" := Entry(BoolVal(false), st.nextId)];
    var rb := WalkBlock(h.body, env, st, enter, 1, 0, false);
    assert rb == WalkBlock(Nil, after, st.(nextId := st.nextId + 1), enter, 1, 0, false);
    assert rb.out == Falls(enter, after, false) && "x" in Rebound(env, after);
    var r := WalkWhile(h, env, st, cond, 0, 0);
    assert r == WalkCompound(h, env, st, cond, 0, 0);
    JustOne(h, env, st, cond);
  }

  lemma MintedIfWalk(env: Env, st: WState, p: Term)
    requires Guard(Name(MINTED), env) == Some(p) && st.tainted == {}
    requires WalkBlock(One(MintedLoop()), env, st, AndT(BoolVal(true), p), 0, 0, false).out.Falls?
    ensures var r := WalkBlock(One(MintedIf()), env, st, BoolVal(true), 0, 0, false);
      && Visit(Label(1, KIf), AndT(BoolVal(true), p), 0, 0) in r.log
      && WalkBlock(One(MintedLoop()), env, st, AndT(BoolVal(true), p), 0, 0, false).st.tainted <= r.st.tainted
  {
    var h := MintedIf();
    var r := WalkIf(h, env, st, BoolVal(true), 0, 0, KIf);
    var rb := WalkBlock(h.body, env, st, AndT(BoolVal(true), p), 0, 0, false);
    assert WalkElse(Nil, env, rb.st, AndT(BoolVal(true), NotT(p)), 0, 0).st == rb.st;
    assert r.st.tainted == rb.st.tainted && Visit(Label(1, KIf), AndT(BoolVal(true), p), 0, 0) in r.log;
    assert r == WalkCompound(h, env, st, BoolVal(true), 0, 0);
  }
}
