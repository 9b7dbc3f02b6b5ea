/**
  What `dead` needs. Over all careful continuations of a loop that may return, or of a statement that
  is passed over, `dead` is right exactly when the walk's assumption about it holds.
 */
module Necessity {
  import opened Wrappers
  import opened PySubset
  import opened Interp
  import opened Terms
  import opened Walk
  import opened WalkBasics
  import opened Agreement
  import opened Joins
  import opened Scope
  import opened Placement
  import opened Careful
  import opened Tracking
  import opened Following
  import opened Verdicts
  import opened Analysis

  ghost predicate Never(t: Term) {
    forall m :: !Holds(t, m)
  }

  // Whatever is reported on the line, a solver that answers makes `dead`.
  ghost predicate DeadLine(log: seq<Item>, line: int) {
    forall it :: it in log && OnLine(it, line) ==> it.Visit? && it.cons == 0 && Never(it.cond)
  }

  // If the line is reported dead, no run on an input that reaches the block enters it.
  ghost predicate DeadRight(b: Block, env: Env, st: WState, cond: Term, line: int) {
    DeadLine(WalkBlock(b, env, st, cond, 0, 0, false).log, line) ==>
      forall s, fuel: nat, m :: Agrees(env, st.tainted, s, m) && Holds(cond, m)
        ==> !Names(ExecBlock(b, s, fuel).trace, line)
  }

  // The line is reported dead, it is reported, and the run enters it.
  ghost predicate FalseDead(b: Block, env: Env, st: WState, cond: Term, line: int, s: Store, fuel: nat) {
    var log := WalkBlock(b, env, st, cond, 0, 0, false).log;
    DeadLine(log, line) && Noted(line, log) && Names(ExecBlock(b, s, fuel).trace, line)
  }

  lemma DeadIsNotFlagged(log: seq<Item>, line: int, m: Model)
    requires DeadLine(log, line)
    ensures !Flagged(line, log, m)
  {
  }

  // Some store that the environment describes.
  function StoreOf(env: Env, m: Model): Store {
    map x | x in env :: Eval(env[x].term, m)
  }

  lemma StoreAgrees(env: Env, tainted: set<string>, m: Model)
    ensures Agrees(env, tainted, StoreOf(env, m), m)
  {
  }

  // if <test>: pass
  function Ask(line: int, test: Expr): Block { One(If(line, test, One(Pass(line)), Nil)) }

  // An `if` that nothing satisfies, after text that does not mention its line.
  lemma AskIsDead(log: seq<Item>, lines: set<int>, line: int, test: Expr, g: Term, env: Env, st: WState, cond: Term,
                  u: bool)
    requires Guard(test, env) == Some(g) && !Mentions(g, st.tainted) && Never(AndT(cond, g))
    requires line !in lines && forall it :: it in log ==> ItemOn(it, lines)
    ensures var all := log + WalkBlock(Ask(line, test), env, st, cond, 0, 0, u).log;
      DeadLine(all, line) && Noted(line, all)
    ensures !WalkBlock(Ask(line, test), env, st, cond, 0, 0, u).out.Fails?
    ensures BlockCareful(Ask(line, test), env, st, cond, 0, 0, u, line, false)
  {
    var h := Ask(line, test).head;
    var unres := Bump(0, u);
    var visit := Visit(Label(line, KIf), AndT(cond, g), 0, unres);
    var r := WalkIf(h, env, st, cond, 0, unres, KIf);
    AskWalk(line, test, g, env, st, cond, unres);
    assert WalkCompound(h, env, st, cond, 0, unres) == r;
    var rest := WalkBlock(Ask(line, test), env, st, cond, 0, 0, u);
    assert WalkBlock(Nil, r.out.env, r.st, r.out.cont, 0, 0, u || r.out.taint).log == [] && r.log + [] == r.log;
    assert rest.log == [visit];
    var all := log + rest.log;
    assert visit in all && OnLine(visit, line);
    forall it | it in all && OnLine(it, line) ensures it == visit {
      assert it in log ==> ItemOn(it, lines);
    }
  }

  lemma AskWalk(line: int, test: Expr, g: Term, env: Env, st: WState, cond: Term, unres: nat)
    requires Guard(test, env) == Some(g) && !Mentions(g, st.tainted)
    ensures var r := WalkIf(Ask(line, test).head, env, st, cond, 0, unres, KIf);
      r.out.Falls? && r.log == [Visit(Label(line, KIf), AndT(cond, g), 0, unres)]
    ensures IfCareful(Ask(line, test).head, env, st, cond, 0, unres, line, false)
  {
    var h := Ask(line, test).head;
    var yes, no := AndT(cond, g), AndT(cond, NotT(g));
    var rb := WalkBlock(h.body, env, st, yes, 0, unres, false);
    assert h.body == Cons(Pass(line), Nil)
      && WalkBlock(Nil, env, st, yes, 0, unres, false) == Res(Falls(yes, env, false), st, []);
    assert rb == Res(Falls(yes, env, false), st, []);
    var re := WalkElse(Nil, env, st, no, 0, unres);
    assert re == Res(Falls(no, env, false), st, []);
    assert Joinable(env, env);
  }

  lemma AskIsEntered(line: int, test: Expr, s: Store, fuel: nat)
    requires EvalExpr(test, s).Some? && EvalExpr(test, s).value != 0
    ensures Names(ExecBlock(Ask(line, test), s, fuel).trace, line)
  {
    var h := Ask(line, test).head;
    assert ExecStmt(h, s, fuel) == ExecIf(h, s, fuel, KIf);
    assert Label(line, KIf) in ExecBlock(Ask(line, test), s, fuel).trace;
  }

  lemma EnteredAfter(h: Stmt, t: Block, s: Store, fuel: nat, line: int)
    requires ExecStmt(h, s, fuel).status.Fell?
    requires Names(ExecBlock(t, ExecStmt(h, s, fuel).status.store, fuel).trace, line)
    ensures Names(ExecBlock(Cons(h, t), s, fuel).trace, line)
  {
    var e := ExecStmt(h, s, fuel);
    NamesSplit(e.trace, ExecBlock(t, e.status.store, fuel).trace, line);
  }

  // ---------------------------------------------------------------- loops that may return

  // A loop that may return, with a variable `c` that holds the value its guard has on entry. The
  // body is walked carefully, and its line numbers leave `line` free.
  ghost predicate MayReturnLoop(h: Stmt, env: Env, st: WState, cond: Term, c: string, line: int) {
    && h.While? && HasReturn(h.body) && Fresh(env, st)
    && Guard(h.test, env).Some? && !Mentions(Guard(h.test, env).value, WalkWhile(h, env, st, cond, 0, 0).st.tainted)
    && c in env && env[c].term == Guard(h.test, env).value && c !in Binds(h.body)
    && line !in StmtLines(h)
    && WalkBlock(h.body, env, st, AndT(cond, Guard(h.test, env).value), 1, 0, false).out.Falls?
    && BlockCareful(h.body, env, st, AndT(cond, Guard(h.test, env).value), 1, 0, false, line, true)
  }

  // Code that may follow the loop: careful about the line, the loop's own assumption aside.
  ghost predicate FollowsLoop(h: Stmt, t: Block, env: Env, st: WState, cond: Term, line: int)
    requires h.While? && Guard(h.test, env).Some?
  {
    var r := WalkWhile(h, env, st, cond, 0, 0);
    && r.out.Falls? && !WalkBlock(Cons(h, t), env, st, cond, 0, 0, false).out.Fails?
    && BlockCareful(h.body, env, st, AndT(cond, Guard(h.test, env).value), 1, 0, false, line, line in Lines(t))
    && BlockCareful(t, r.out.env, r.st, r.out.cont, 0, 0, r.out.taint, line, false)
  }

  // How the walk leaves such a loop.
  lemma LoopIsLeft(h: Stmt, env: Env, st: WState, cond: Term, c: string, line: int)
    requires MayReturnLoop(h, env, st, cond, c, line)
    ensures var g := Guard(h.test, env).value;
      var r := WalkWhile(h, env, st, cond, 0, 0);
      && !Mentions(g, st.tainted) && r.out.Falls? && r.out.taint && c in r.out.env && r.out.env[c].term == g
      && r.out.cont == WalkBlock(h.body, env, st, AndT(cond, g), 1, 0, false).out.cont
      && (forall m :: Holds(r.out.cont, m) ==> Holds(g, m))
      && (forall it :: it in r.log ==> ItemOn(it, StmtLines(h)))
  {
    var g := Guard(h.test, env).value;
    var enter := AndT(cond, g);
    WhileBasics(h, env, st, cond, 0, 0, map[]);
    assert !Mentions(g, st.tainted);
    var rb := WalkBlock(h.body, env, st, enter, 1, 0, false);
    BlockPlaced(h.body, env, st, enter, 1, 0, false);
    WhilePlaced(h, env, st, cond, 0, 0);
    assert c !in Rebound(env, rb.out.env);
    forall m | Holds(rb.out.cont, m) ensures Holds(g, m) {
      BlockBasics(h.body, env, st, enter, 1, 0, false, m);
    }
  }

  // while <g>: ... return ...
  // if not c: pass
  // The last line is reported dead, and every run that skips the loop enters it.
  lemma SkipperIsLost(h: Stmt, env: Env, st: WState, cond: Term, c: string, line: int, s: Store, fuel: nat, m: Model)
    requires MayReturnLoop(h, env, st, cond, c, line)
    requires Agrees(env, st.tainted, s, m) && Holds(cond, m) && !Holds(Guard(h.test, env).value, m)
    ensures FollowsLoop(h, Ask(line, Not(Name(c))), env, st, cond, line)
    ensures FalseDead(Cons(h, Ask(line, Not(Name(c)))), env, st, cond, line, s, fuel)
  {
    var t := Ask(line, Not(Name(c)));
    LoopIsLeft(h, env, st, cond, c, line);
    AskAfterLoop(h, env, st, cond, c, line);
    LoopIsSkipped(h, env, st, c, s, fuel, m);
    AskIsEntered(line, Not(Name(c)), s, fuel);
    EnteredAfter(h, t, s, fuel, line);
  }

  lemma LoopIsSkipped(h: Stmt, env: Env, st: WState, c: string, s: Store, fuel: nat, m: Model)
    requires h.While? && Guard(h.test, env).Some? && !Mentions(Guard(h.test, env).value, st.tainted)
    requires Agrees(env, st.tainted, s, m) && !Holds(Guard(h.test, env).value, m)
    requires c in env && env[c].term == Guard(h.test, env).value
    ensures ExecStmt(h, s, fuel) == Run([], Fell(s)) && EvalExpr(Not(Name(c)), s) == Some(1)
  {
    TranslateIsSound(h.test, env, st.tainted, s, m);
    assert ExecWhile(h, s, fuel) == Run([], Fell(s));
    assert EvalExpr(Name(c), s) == Some(0);
  }

  lemma AskAfterLoop(h: Stmt, env: Env, st: WState, cond: Term, c: string, line: int)
    requires MayReturnLoop(h, env, st, cond, c, line)
    ensures var t := Ask(line, Not(Name(c)));
      var log := WalkBlock(Cons(h, t), env, st, cond, 0, 0, false).log;
      FollowsLoop(h, t, env, st, cond, line) && DeadLine(log, line) && Noted(line, log)
  {
    var t := Ask(line, Not(Name(c)));
    var g := Guard(h.test, env).value;
    var r := WalkWhile(h, env, st, cond, 0, 0);
    LoopIsLeft(h, env, st, cond, c, line);
    assert Translate(Name(c), r.out.env) == Some(g);
    assert Guard(Not(Name(c)), r.out.env) == Some(NotT(g));
    assert Syms(NotT(g)) == Syms(g);
    assert Never(AndT(r.out.cont, NotT(g))) by { NeverBoth(r.out.cont, g); }
    AskIsDead(r.log, StmtLines(h), line, Not(Name(c)), NotT(g), r.out.env, r.st, r.out.cont, true);
    assert WalkCompound(h, env, st, cond, 0, 0) == r;
    assert WalkBlock(Cons(h, t), env, st, cond, 0, 0, false)
      == Prepend(r.log, WalkBlock(t, r.out.env, r.st, r.out.cont, 0, 0, true));
    assert line in Lines(t);
  }

  lemma NeverBoth(t: Term, g: Term)
    requires forall m :: Holds(t, m) ==> Holds(g, m)
    ensures Never(AndT(t, NotT(g)))
  {
    forall m ensures !Holds(AndT(t, NotT(g)), m) {
      assert Holds(NotT(g), m) == !Holds(g, m);
    }
  }

  // `dead` is right of every careful continuation of a loop that may return exactly when every input
  // that reaches the loop enters it.
  lemma RightIffAlwaysEntered(h: Stmt, env: Env, st: WState, cond: Term, c: string, line: int)
    requires MayReturnLoop(h, env, st, cond, c, line)
    ensures (forall t, l :: FollowsLoop(h, t, env, st, cond, l) ==> DeadRight(Cons(h, t), env, st, cond, l))
       <==> AlwaysEntered(cond, Guard(h.test, env).value)
  {
    var g := Guard(h.test, env).value;
    if AlwaysEntered(cond, g) {
      forall t, l | FollowsLoop(h, t, env, st, cond, l) ensures DeadRight(Cons(h, t), env, st, cond, l) {
        LoopIsLeft(h, env, st, cond, c, line);
        EnteredIsRight(h, t, env, st, cond, l);
      }
    } else {
      var m :| Holds(cond, m) && !Holds(g, m);
      var s := StoreOf(env, m);
      StoreAgrees(env, st.tainted, m);
      SkipperIsLost(h, env, st, cond, c, line, s, 1, m);
      assert !DeadRight(Cons(h, Ask(line, Not(Name(c)))), env, st, cond, line);
    }
  }

  lemma EnteredIsRight(h: Stmt, t: Block, env: Env, st: WState, cond: Term, line: int)
    requires h.While? && Guard(h.test, env).Some? && !Mentions(Guard(h.test, env).value, st.tainted) && Fresh(env, st)
    requires AlwaysEntered(cond, Guard(h.test, env).value) && FollowsLoop(h, t, env, st, cond, line)
    ensures DeadRight(Cons(h, t), env, st, cond, line)
  {
    var b := Cons(h, t);
    var r := WalkWhile(h, env, st, cond, 0, 0);
    assert WalkCompound(h, env, st, cond, 0, 0) == r;
    assert WhileCareful(h, env, st, cond, 0, 0, line, line in Lines(t));
    assert BlockCareful(b, env, st, cond, 0, 0, false, line, false);
    CarefulIsRight(b, env, st, cond, line);
  }

  lemma CarefulIsRight(b: Block, env: Env, st: WState, cond: Term, line: int)
    requires Fresh(env, st) && !WalkBlock(b, env, st, cond, 0, 0, false).out.Fails?
    requires BlockCareful(b, env, st, cond, 0, 0, false, line, false)
    ensures DeadRight(b, env, st, cond, line)
  {
    var log := WalkBlock(b, env, st, cond, 0, 0, false).log;
    if DeadLine(log, line) {
      forall s, fuel: nat, m | Agrees(env, st.tainted, s, m) && Holds(cond, m)
        ensures !Names(ExecBlock(b, s, fuel).trace, line)
      {
        BlockFollows(b, env, st, cond, 0, 0, false, line, false, s, fuel, m);
        DeadIsNotFlagged(log, line, m);
      }
    }
  }

  // c = <g>
  // while <g>: ... return ...
  // if not c: pass
  // As a whole program: whatever the guard and the body, if some input makes the guard false, the
  // last line is reported dead and that input enters it.
  lemma FalseDeadAfterAnyLoop(params: Params, h: Stmt, c: string, first: int, line: int, m: Model, fuel: nat)
    requires h.While? && Guard(h.test, ParamEnv(params)).Some? && line !in StmtLines(h)
    requires var g := Guard(h.test, ParamEnv(params)).value;
      && !Holds(g, m)
      && MayReturnLoop(h, ParamEnv(params)[c := Entry(g, 1)], InitialState().(nextId := 2), BoolVal(true), c, line)
    ensures var program := Cons(Assign(first, c, h.test), Cons(h, Ask(line, Not(Name(c)))));
      var log := WalkProgram(params, program).log;
      && IsInput(params, Witness(params, m)) && DeadLine(log, line) && Noted(line, log)
      && Names(ExecBlock(program, Witness(params, m), fuel).trace, line)
  {
    var env, st := ParamEnv(params), InitialState();
    var s := Witness(params, m);
    WitnessAgrees(params, m);
    var t := Cons(h, Ask(line, Not(Name(c))));
    AssignStep(Assign(first, c, h.test), t, env, st, BoolVal(true), 0, 0, s, fuel, m);
    assert Eval(BoolVal(true), m) == 1;
    var env1, st1 := env[c := Entry(Guard(h.test, env).value, 1)], st.(nextId := 2);
    SkipperIsLost(h, env1, st1, BoolVal(true), c, line, s[c := EvalExpr(h.test, s).value], fuel, m);
  }

  // ---------------------------------------------------------------- statements passed over

  // The walk passes the statement over: its guard is tainted, or something in it does not translate.
  predicate PassesOver(h: Stmt, env: Env, st: WState, cond: Term) {
    Compound(h) &&
    var r := WalkCompound(h, env, st, cond, 0, 0);
    r.out.Fails? || r == Res(Falls(cond, env, true), st, [Unsolved(Label(h.line, KindOf(h)), true)])
  }

  // What is reported up to and including the statement.
  function SkipLog(h: Stmt, env: Env, st: WState, cond: Term): seq<Item>
    requires Compound(h)
  {
    var r := WalkCompound(h, env, st, cond, 0, 0);
    if r.out.Fails? then r.log + [Unsolved(Label(h.line, KindOf(h)), false)] else r.log
  }

  function SkipState(h: Stmt, env: Env, st: WState, cond: Term): WState
    requires Compound(h)
  {
    WalkCompound(h, env, st, cond, 0, 0).st
  }

  lemma SkipWalk(h: Stmt, t: Block, env: Env, st: WState, cond: Term)
    requires PassesOver(h, env, st, cond)
    ensures var st' := SkipState(h, env, st, cond);
      && WalkBlock(Cons(h, t), env, st, cond, 0, 0, false)
         == Prepend(SkipLog(h, env, st, cond), WalkBlock(t, env, st', cond, 0, 0, true))
      && st.tainted <= st'.tainted && (Fresh(env, st) ==> Fresh(env, st'))
    ensures (forall it :: it in SkipLog(h, env, st, cond) ==> ItemOn(it, StmtLines(h)))
    ensures exists it :: it in SkipLog(h, env, st, cond) && it.Unsolved? && it.arm.line == h.line
  {
    CompoundBasics(h, env, st, cond, 0, 0, map[]);
    CompoundPlaced(h, env, st, cond, 0, 0);
    SkipStep(h, t, env, st, cond);
    hide WalkCompound, WalkBlock;
    var r := WalkCompound(h, env, st, cond, 0, 0);
    var bad := Unsolved(Label(h.line, KindOf(h)), !r.out.Fails?);
    assert bad in SkipLog(h, env, st, cond);
  }

  lemma SkipStep(h: Stmt, t: Block, env: Env, st: WState, cond: Term)
    requires PassesOver(h, env, st, cond)
    ensures WalkBlock(Cons(h, t), env, st, cond, 0, 0, false)
         == Prepend(SkipLog(h, env, st, cond), WalkBlock(t, env, SkipState(h, env, st, cond), cond, 0, 0, true))
  {
  }

  // No run through the statement changes a variable whose value is exact.
  ghost predicate LeavesExact(h: Stmt, env: Env, st: WState, cond: Term)
    requires Compound(h)
  {
    forall s, fuel: nat, m, x ::
      Agrees(env, st.tainted, s, m) && Holds(cond, m) && ExecStmt(h, s, fuel).status.Fell?
        && ExactIn(x, h, env, st, cond) ==>
        x in ExecStmt(h, s, fuel).status.store && x in s && ExecStmt(h, s, fuel).status.store[x] == s[x]
  }

  predicate ExactIn(x: string, h: Stmt, env: Env, st: WState, cond: Term)
    requires Compound(h)
  {
    x in env && !Mentions(env[x].term, SkipState(h, env, st, cond).tainted)
  }

  // Each exact variable that the statement may bind has a copy that it does not.
  predicate Copied(h: Stmt, env: Env, st: WState, cond: Term)
    requires Compound(h)
  {
    forall x :: x in StmtBinds(h) && ExactIn(x, h, env, st, cond) ==>
      exists y :: y in env && y !in StmtBinds(h) && env[y].term == env[x].term
  }

  // Code that may follow the statement: careful about the line, which is not inside the statement.
  ghost predicate FollowsSkip(h: Stmt, t: Block, env: Env, st: WState, cond: Term, line: int)
    requires Compound(h)
  {
    && line !in Inner(h) && !WalkBlock(Cons(h, t), env, st, cond, 0, 0, false).out.Fails?
    && BlockCareful(t, env, SkipState(h, env, st, cond), cond, 0, 0, true, line, false)
  }

  // `dead` is right of every careful continuation of a statement that is passed over exactly when no
  // run through the statement changes a variable whose value is exact.
  lemma RightIffLeavesExact(h: Stmt, env: Env, st: WState, cond: Term, line: int)
    requires PassesOver(h, env, st, cond) && Fresh(env, st) && Copied(h, env, st, cond) && line !in StmtLines(h)
    ensures (forall t, l :: FollowsSkip(h, t, env, st, cond, l) ==> DeadRight(Cons(h, t), env, st, cond, l))
       <==> LeavesExact(h, env, st, cond)
  {
    if LeavesExact(h, env, st, cond) {
      forall t, l | FollowsSkip(h, t, env, st, cond, l) ensures DeadRight(Cons(h, t), env, st, cond, l) {
        UnchangedIsRight(h, t, env, st, cond, l);
      }
    } else {
      var s, fuel: nat, m, x :| Agrees(env, st.tainted, s, m) && Holds(cond, m) && ExecStmt(h, s, fuel).status.Fell?
        && ExactIn(x, h, env, st, cond)
        && !(x in ExecStmt(h, s, fuel).status.store && x in s && ExecStmt(h, s, fuel).status.store[x] == s[x]);
      var t := ChangeIsLost(h, env, st, cond, line, s, fuel, m, x);
      assert !DeadRight(Cons(h, t), env, st, cond, line);
    }
  }

  lemma UnchangedIsRight(h: Stmt, t: Block, env: Env, st: WState, cond: Term, line: int)
    requires PassesOver(h, env, st, cond) && Fresh(env, st) && LeavesExact(h, env, st, cond)
    requires FollowsSkip(h, t, env, st, cond, line)
    ensures DeadRight(Cons(h, t), env, st, cond, line)
  {
    var log := WalkBlock(Cons(h, t), env, st, cond, 0, 0, false).log;
    if DeadLine(log, line) {
      forall s, fuel: nat, m | Agrees(env, st.tainted, s, m) && Holds(cond, m)
        ensures !Names(ExecBlock(Cons(h, t), s, fuel).trace, line)
      {
        SkippedRun(h, t, env, st, cond, line, s, fuel, m);
      }
    }
  }

  lemma SkippedRun(h: Stmt, t: Block, env: Env, st: WState, cond: Term, line: int, s: Store, fuel: nat, m: Model)
    requires PassesOver(h, env, st, cond) && Fresh(env, st) && LeavesExact(h, env, st, cond)
    requires FollowsSkip(h, t, env, st, cond, line) && Agrees(env, st.tainted, s, m) && Holds(cond, m)
    requires DeadLine(WalkBlock(Cons(h, t), env, st, cond, 0, 0, false).log, line)
    ensures !Names(ExecBlock(Cons(h, t), s, fuel).trace, line)
  {
    var e := ExecStmt(h, s, fuel);
    SkipWalk(h, t, env, st, cond);
    StmtStays(h, s, fuel, StmtLines(h));
    var bad :| bad in SkipLog(h, env, st, cond) && bad.Unsolved? && bad.arm.line == h.line;
    assert bad in WalkBlock(Cons(h, t), env, st, cond, 0, 0, false).log;
    assert h.line == line ==> OnLine(bad, line);
    NotNamed(e, StmtLines(h), line);
    NamedInside(h, t, env, st, cond, line, s, fuel, m);
  }

  // If the line is reported dead, a run enters it inside the statement or not at all.
  lemma NamedInside(h: Stmt, t: Block, env: Env, st: WState, cond: Term, line: int, s: Store, fuel: nat, m: Model)
    requires PassesOver(h, env, st, cond) && Fresh(env, st) && LeavesExact(h, env, st, cond)
    requires !WalkBlock(Cons(h, t), env, st, cond, 0, 0, false).out.Fails?
    requires BlockCareful(t, env, SkipState(h, env, st, cond), cond, 0, 0, true, line, false)
    requires Agrees(env, st.tainted, s, m) && Holds(cond, m)
    requires DeadLine(WalkBlock(Cons(h, t), env, st, cond, 0, 0, false).log, line)
    ensures Names(ExecBlock(Cons(h, t), s, fuel).trace, line) <==> Names(ExecStmt(h, s, fuel).trace, line)
  {
    var st' := SkipState(h, env, st, cond);
    var rest := WalkBlock(t, env, st', cond, 0, 0, true);
    var all := SkipLog(h, env, st, cond) + rest.log;
    var e := ExecStmt(h, s, fuel);
    SkipWalk(h, t, env, st, cond);
    if e.status.Fell? {
      StillAgrees(h, env, st, cond, s, fuel, m);
      BlockFollows(t, env, st', cond, 0, 0, true, line, false, e.status.store, fuel, m);
      if Flagged(line, rest.log, m) { FlaggedIn(line, rest.log, all, m); }
      DeadIsNotFlagged(all, line, m);
      NamesSplit(e.trace, ExecBlock(t, e.status.store, fuel).trace, line);
    }
  }

  // Where the line is inside the statement as well, `dead` is right exactly when no run through the
  // statement enters it there.
  lemma RightIffNotInside(h: Stmt, t: Block, env: Env, st: WState, cond: Term, line: int)
    requires PassesOver(h, env, st, cond) && Fresh(env, st) && LeavesExact(h, env, st, cond)
    requires !WalkBlock(Cons(h, t), env, st, cond, 0, 0, false).out.Fails?
    requires BlockCareful(t, env, SkipState(h, env, st, cond), cond, 0, 0, true, line, false)
    requires DeadLine(WalkBlock(Cons(h, t), env, st, cond, 0, 0, false).log, line)
    ensures DeadRight(Cons(h, t), env, st, cond, line)
       <==> NeverInside(h, env, st, cond, line)
  {
    if DeadRight(Cons(h, t), env, st, cond, line) {
      forall s, fuel: nat, m | Agrees(env, st.tainted, s, m) && Holds(cond, m)
        ensures !Names(ExecStmt(h, s, fuel).trace, line)
      {
        NamedInside(h, t, env, st, cond, line, s, fuel, m);
        assert !Names(ExecBlock(Cons(h, t), s, fuel).trace, line);
      }
    }
    if NeverInside(h, env, st, cond, line) {
      forall s, fuel: nat, m | Agrees(env, st.tainted, s, m) && Holds(cond, m)
        ensures !Names(ExecBlock(Cons(h, t), s, fuel).trace, line)
      {
        NamedInside(h, t, env, st, cond, line, s, fuel, m);
        assert !Names(ExecStmt(h, s, fuel).trace, line);
      }
    }
  }

  // No run on an input that reaches the statement enters the line inside it.
  ghost predicate NeverInside(h: Stmt, env: Env, st: WState, cond: Term, line: int) {
    forall s, fuel: nat, m :: Agrees(env, st.tainted, s, m) && Holds(cond, m)
      ==> !Names(ExecStmt(h, s, fuel).trace, line)
  }

  lemma StillAgrees(h: Stmt, env: Env, st: WState, cond: Term, s: Store, fuel: nat, m: Model)
    requires PassesOver(h, env, st, cond) && LeavesExact(h, env, st, cond)
    requires Agrees(env, st.tainted, s, m) && Holds(cond, m) && ExecStmt(h, s, fuel).status.Fell?
    ensures Agrees(env, SkipState(h, env, st, cond).tainted, ExecStmt(h, s, fuel).status.store, m)
  {
    var tainted := SkipState(h, env, st, cond).tainted;
    var s' := ExecStmt(h, s, fuel).status.store;
    CompoundBasics(h, env, st, cond, 0, 0, map[]);
    StmtUntouched(h, s, fuel, StmtBinds(h));
    forall x | x in env ensures x in s' && (Mentions(env[x].term, tainted) || s'[x] == Eval(env[x].term, m)) {
      if !Mentions(env[x].term, tainted) {
        assert ExactIn(x, h, env, st, cond) && !Mentions(env[x].term, st.tainted);
      }
    }
  }

  // <h>
  // if x != y: pass
  // where y is a copy of x that h does not bind. The last line is reported dead, and the run that
  // changes x enters it.
  lemma ChangeIsLost(h: Stmt, env: Env, st: WState, cond: Term, line: int, s: Store, fuel: nat, m: Model, x: string)
    returns (t: Block)
    requires PassesOver(h, env, st, cond) && Copied(h, env, st, cond) && line !in StmtLines(h)
    requires Agrees(env, st.tainted, s, m) && Holds(cond, m) && ExecStmt(h, s, fuel).status.Fell?
    requires ExactIn(x, h, env, st, cond)
    requires var s' := ExecStmt(h, s, fuel).status.store; !(x in s' && x in s && s'[x] == s[x])
    ensures FollowsSkip(h, t, env, st, cond, line) && FalseDead(Cons(h, t), env, st, cond, line, s, fuel)
  {
    StmtUntouched(h, s, fuel, StmtBinds(h));
    CompoundBasics(h, env, st, cond, 0, 0, map[]);
    assert x in StmtBinds(h);
    var y :| y in env && y !in StmtBinds(h) && env[y].term == env[x].term;
    var test := Compare(Ne, Name(x), Name(y));
    t := Ask(line, test);
    AskAfterSkip(h, env, st, cond, line, x, y);
    var s' := ExecStmt(h, s, fuel).status.store;
    assert !Mentions(env[x].term, st.tainted) && s[x] == s[y] == s'[y] && s'[x] != s[x];
    assert EvalExpr(Name(x), s') == Some(s'[x]) && EvalExpr(Name(y), s') == Some(s'[y]);
    AskIsEntered(line, test, s', fuel);
    EnteredAfter(h, t, s, fuel, line);
  }

  lemma AskAfterSkip(h: Stmt, env: Env, st: WState, cond: Term, line: int, x: string, y: string)
    requires PassesOver(h, env, st, cond) && line !in StmtLines(h)
    requires ExactIn(x, h, env, st, cond) && y in env && env[y].term == env[x].term
    ensures var t := Ask(line, Compare(Ne, Name(x), Name(y)));
      var log := WalkBlock(Cons(h, t), env, st, cond, 0, 0, false).log;
      FollowsSkip(h, t, env, st, cond, line) && DeadLine(log, line) && Noted(line, log)
  {
    var test := Compare(Ne, Name(x), Name(y));
    var v := env[x].term;
    assert Translate(Name(x), env) == Some(v) && Translate(Name(y), env) == Some(v);
    var g := CmpT(Ne, v, v);
    assert Guard(test, env) == Some(g) && Syms(g) == Syms(v);
    assert Never(AndT(cond, g)) by { NeverDiffers(cond, v); }
    SkipWalk(h, Ask(line, test), env, st, cond);
    AskIsDead(SkipLog(h, env, st, cond), StmtLines(h), line, test, g, env, SkipState(h, env, st, cond), cond, true);
  }

  lemma NeverDiffers(cond: Term, v: Term)
    ensures Never(AndT(cond, CmpT(Ne, v, v)))
  {
    forall m ensures !Holds(AndT(cond, CmpT(Ne, v, v)), m) {
      assert Eval(CmpT(Ne, v, v), m) == 0;
    }
  }
}
