/**
  Coverage: when nothing was passed over, the log names every arm that any run can enter, from
  any store that binds the environment's variables, and a variable whose binding survives the
  walk is one that no run changes.
 */
module Coverage {
  import opened PySubset
  import opened Interp
  import opened Terms
  import opened Walk
  import opened WalkBasics
  import opened Agreement
  import opened AnyStore

  predicate Visited(l: Label, log: seq<Item>) {
    exists it :: it in log && it.Visit? && it.arm == l
  }

  // Every arm entered is in the log, and a run that stops short stops at something the walk passed.
  predicate Covers(log: seq<Item>, run: Run) {
    && (forall l :: l in run.trace ==> Visited(l, log))
    && (run.status.Stuck? ==> Passed(run.status.line) in log)
  }

  // The variables of `env'` are bound, and those whose binding is still that of `env` are unchanged.
  predicate Keeps(env: Env, env': Env, s: Store, s': Store) {
    && env'.Keys <= s'.Keys
    && (forall x :: x in env && x in s && x in env' && env'[x].id == env[x].id ==> x in s' && s'[x] == s[x])
  }

  predicate CoversAll(env: Env, s: Store, r: Res, run: Run) {
    && Covers(r.log, run)
    && (run.status.Fell? ==> r.out.Falls? && Keeps(env, r.out.env, s, run.status.store))
  }

  lemma CoversWider(log: seq<Item>, log': seq<Item>, run: Run)
    requires Covers(log, run) && forall it :: it in log ==> it in log'
    ensures Covers(log', run)
  {
    forall l | l in run.trace ensures Visited(l, log') {
      assert Visited(l, log);
    }
  }

  lemma CoversThen(trace: seq<Label>, log: seq<Item>, run: Run)
    requires forall l :: l in trace ==> Visited(l, log)
    requires Covers(log, run)
    ensures Covers(log, After(trace, run))
  {
  }

  // One statement (or iteration), then the rest.
  lemma CoversSeq(env: Env, st: WState, s: Store, r1: Res, run1: Run, r2: Res, run2: Run)
    requires Fresh(env, st) && env.Keys <= s.Keys
    requires !r1.out.Fails? && Grown(env, st, r1) && CoversAll(env, s, r1, run1)
    requires run1.status.Fell? ==> Grown(r1.out.env, r1.st, r2) && CoversAll(r1.out.env, run1.status.store, r2, run2)
    ensures CoversAll(env, s, Prepend(r1.log, r2), if run1.status.Fell? then After(run1.trace, run2) else run1)
  {
    var log := r1.log + r2.log;
    CoversWider(r1.log, log, run1);
    if run1.status.Fell? {
      CoversWider(r2.log, log, run2);
      CoversThen(run1.trace, log, run2);
    }
  }

  lemma {:induction false} BlockCovered(b: Block, env: Env, st: WState, cond: Term, cons: nat, unres: nat, u: bool,
                                        s: Store, fuel: nat)
    requires var r := WalkBlock(b, env, st, cond, cons, unres, u); !r.out.Fails? && Resolved(r.log)
    requires Fresh(env, st) && env.Keys <= s.Keys
    ensures CoversAll(env, s, WalkBlock(b, env, st, cond, cons, unres, u), ExecBlock(b, s, fuel))
    decreases fuel, b, 0
  {
    match b
    case Nil =>
    case Cons(h, t) =>
      if Compound(h) {
        CompoundThenCovered(h, t, env, st, cond, cons, unres, u, s, fuel);
      } else if h.Assign? {
        AssignCovered(h, t, env, st, cond, cons, unres, u, s, fuel);
      } else if !h.Return? {
        BlockCovered(t, env, st, cond, cons, unres, u, s, fuel);
        StepOverCovered(h, t, env, st, cond, cons, unres, u, s, fuel);
      } else {
        assert ExecStmt(h, s, fuel) == Run([], Returned);
        assert ExecBlock(b, s, fuel) == Run([], Returned);
      }
  }

  // `pass` and expression statements.
  lemma StepOverCovered(h: Stmt, t: Block, env: Env, st: WState, cond: Term, cons: nat, unres: nat, u: bool, s: Store,
                        fuel: nat)
    requires h.Pass? || h.ExprStmt?
    requires CoversAll(env, s, WalkBlock(t, env, st, cond, cons, unres, u), ExecBlock(t, s, fuel))
    ensures CoversAll(env, s, WalkBlock(Cons(h, t), env, st, cond, cons, unres, u), ExecBlock(Cons(h, t), s, fuel))
  {
    var r, run := WalkBlock(t, env, st, cond, cons, unres, u), ExecBlock(t, s, fuel);
    assert After([], run) == run;
    if h.Pass? {
      assert WalkBlock(Cons(h, t), env, st, cond, cons, unres, u) == r && ExecBlock(Cons(h, t), s, fuel) == run;
    } else {
      var log := [Passed(h.line)] + r.log;
      assert WalkBlock(Cons(h, t), env, st, cond, cons, unres, u) == Res(r.out, r.st, log) && Passed(h.line) in log;
      CoversWider(r.log, log, run);
      var e := ExecStmt(h, s, fuel);
      assert ExecBlock(Cons(h, t), s, fuel) == if e.status.Fell? then run else Run([], Stuck(h.line));
    }
  }

  lemma {:induction false} AssignCovered(h: Stmt, t: Block, env: Env, st: WState, cond: Term, cons: nat, unres: nat,
                                         u: bool, s: Store, fuel: nat)
    requires h.Assign?
    requires var r := WalkBlock(Cons(h, t), env, st, cond, cons, unres, u); !r.out.Fails? && Resolved(r.log)
    requires Fresh(env, st) && env.Keys <= s.Keys
    ensures CoversAll(env, s, WalkBlock(Cons(h, t), env, st, cond, cons, unres, u), ExecBlock(Cons(h, t), s, fuel))
    decreases fuel, t, 4
  {
    TranslatedIsBound(h.e, env, s);
    var env1 := env[h.x := Entry(Translate(h.e, env).value, st.nextId)];
    var st1 := st.(nextId := st.nextId + 1);
    var s1 := s[h.x := EvalExpr(h.e, s).value];
    BlockCovered(t, env1, st1, cond, cons, unres, u, s1, fuel);
    BlockBasics(t, env1, st1, cond, cons, unres, u, map[]);
    var r1 := Res(Falls(cond, env1, u), st1, []);
    var r2 := WalkBlock(t, env1, st1, cond, cons, unres, u);
    CoversSeq(env, st, s, r1, Run([], Fell(s1)), r2, ExecBlock(t, s1, fuel));
    assert Prepend([], r2) == r2;
  }

  lemma {:induction false} CompoundThenCovered(h: Stmt, t: Block, env: Env, st: WState, cond: Term, cons: nat,
                                               unres: nat, u: bool, s: Store, fuel: nat)
    requires Compound(h)
    requires var r := WalkBlock(Cons(h, t), env, st, cond, cons, unres, u); !r.out.Fails? && Resolved(r.log)
    requires Fresh(env, st) && env.Keys <= s.Keys
    ensures CoversAll(env, s, WalkBlock(Cons(h, t), env, st, cond, cons, unres, u), ExecBlock(Cons(h, t), s, fuel))
    decreases fuel, Cons(h, t), 0, 0
  {
    var r := WalkCompound(h, env, st, cond, cons, Bump(unres, u));
    var bad := Unsolved(Label(h.line, KindOf(h)), false);
    assert r.out.Fails? ==> bad in WalkBlock(Cons(h, t), env, st, cond, cons, unres, u).log;
    if !r.out.Fails? {
      CompoundCovered(h, env, st, cond, cons, Bump(unres, u), s, fuel);
      CompoundBasics(h, env, st, cond, cons, Bump(unres, u), map[]);
      var e := ExecStmt(h, s, fuel);
      if r.out.Falls? && e.status.Fell? {
        BlockCovered(t, r.out.env, r.st, r.out.cont, cons, unres, u || r.out.taint, e.status.store, fuel);
        BlockBasics(t, r.out.env, r.st, r.out.cont, cons, unres, u || r.out.taint, map[]);
        CoversSeq(env, st, s, r, e, WalkBlock(t, r.out.env, r.st, r.out.cont, cons, unres, u || r.out.taint),
                  ExecBlock(t, e.status.store, fuel));
      } else if r.out.Falls? {
        CoversWider(r.log, WalkBlock(Cons(h, t), env, st, cond, cons, unres, u).log, e);
      }
    }
  }

  lemma {:induction false} CompoundCovered(h: Stmt, env: Env, st: WState, cond: Term, cons: nat, unres: nat, s: Store,
                                           fuel: nat)
    requires Compound(h)
    requires var r := WalkCompound(h, env, st, cond, cons, unres); !r.out.Fails? && Resolved(r.log)
    requires Fresh(env, st) && env.Keys <= s.Keys
    ensures CoversAll(env, s, WalkCompound(h, env, st, cond, cons, unres), ExecStmt(h, s, fuel))
    decreases fuel, h, 3
  {
    match h
    case If(_, _, _, _) => IfCovered(h, env, st, cond, cons, unres, KIf, s, fuel);
    case While(_, _, _) => WhileCovered(h, env, st, cond, cons, unres, s, fuel);
    case For(_, _, _, _, _, _) => ForCovered(h, env, st, cond, cons, unres, s, fuel);
  }

  // What either arm gives the join.
  lemma JoinKeeps(g: Term, env: Env, st: WState, rb: Res, re: Res, log: seq<Item>, s: Store, s': Store, first: bool)
    requires Fresh(env, st) && env.Keys <= s.Keys
    requires !rb.out.Fails? && Grown(env, st, rb) && !re.out.Fails? && Grown(env, rb.st, re)
    requires !Join(g, env, rb, re, log).out.Fails?
    requires first ==> rb.out.Falls? && Keeps(env, rb.out.env, s, s')
    requires !first ==> re.out.Falls? && Keeps(env, re.out.env, s, s')
    ensures var r := Join(g, env, rb, re, log); r.out.Falls? && Keeps(env, r.out.env, s, s')
  {
  }

  lemma {:induction false} IfCovered(h: Stmt, env: Env, st: WState, cond: Term, cons: nat, unres: nat, kind: Kind,
                                     s: Store, fuel: nat)
    requires h.If?
    requires var r := WalkIf(h, env, st, cond, cons, unres, kind); !r.out.Fails? && Resolved(r.log)
    requires Fresh(env, st) && env.Keys <= s.Keys
    ensures CoversAll(env, s, WalkIf(h, env, st, cond, cons, unres, kind), ExecIf(h, s, fuel, kind))
    decreases fuel, h, 2
  {
    var r := WalkIf(h, env, st, cond, cons, unres, kind);
    var g := Guard(h.test, env).value;
    assert Mentions(g, st.tainted) ==> Unsolved(Label(h.line, kind), true) in r.log;
    if !Mentions(g, st.tainted) {
      TranslatedIsBound(h.test, env, s);
      var yes, no := AndT(cond, g), AndT(cond, NotT(g));
      var rb := WalkBlock(h.body, env, st, yes, cons, unres, false);
      var re := WalkElse(h.orelse, env, rb.st, no, cons, unres);
      var visit := Visit(Label(h.line, kind), yes, cons, unres);
      assert r.log == [visit] + rb.log + re.log;
      BlockBasics(h.body, env, st, yes, cons, unres, false, map[]);
      ElseBasics(h.orelse, env, rb.st, no, cons, unres, map[]);
      if EvalExpr(h.test, s).value != 0 {
        BlockCovered(h.body, env, st, yes, cons, unres, false, s, fuel);
        var e := ExecBlock(h.body, s, fuel);
        CoversWider(rb.log, r.log, e);
        assert Visited(Label(h.line, kind), r.log) by { assert visit in r.log; }
        CoversThen([Label(h.line, kind)], r.log, e);
        if e.status.Fell? { JoinKeeps(g, env, st, rb, re, r.log, s, e.status.store, true); }
      } else {
        ElseCovered(h.orelse, env, rb.st, no, cons, unres, s, fuel);
        var e := ExecElse(h.orelse, s, fuel);
        CoversWider(re.log, r.log, e);
        if e.status.Fell? { JoinKeeps(g, env, st, rb, re, r.log, s, e.status.store, false); }
      }
    }
  }

  lemma {:induction false} ElseCovered(orelse: Block, env: Env, st: WState, cond: Term, cons: nat, unres: nat, s: Store,
                                       fuel: nat)
    requires var r := WalkElse(orelse, env, st, cond, cons, unres); !r.out.Fails? && Resolved(r.log)
    requires Fresh(env, st) && env.Keys <= s.Keys
    ensures CoversAll(env, s, WalkElse(orelse, env, st, cond, cons, unres), ExecElse(orelse, s, fuel))
    decreases fuel, orelse, 4
  {
    if IsElif(orelse) {
      IfCovered(orelse.head, env, st, cond, cons, unres, KElif, s, fuel);
    } else if orelse.Cons? {
      var visit := Visit(Label(orelse.head.line, KElse), cond, cons, unres);
      var rb := WalkBlock(orelse, env, st, cond, cons, unres, false);
      BlockCovered(orelse, env, st, cond, cons, unres, false, s, fuel);
      var e := ExecBlock(orelse, s, fuel);
      CoversWider(rb.log, [visit] + rb.log, e);
      assert Visited(visit.arm, [visit] + rb.log) by { assert visit in [visit] + rb.log; }
      CoversThen([visit.arm], [visit] + rb.log, e);
    }
  }

  lemma {:induction false} ForCovered(h: Stmt, env: Env, st: WState, cond: Term, cons: nat, unres: nat, s: Store,
                                      fuel: nat)
    requires h.For?
    requires var r := WalkFor(h, env, st, cond, cons, unres); !r.out.Fails? && Resolved(r.log)
    requires Fresh(env, st) && env.Keys <= s.Keys
    ensures CoversAll(env, s, WalkFor(h, env, st, cond, cons, unres), ExecStmt(h, s, fuel))
    decreases fuel, h, 2
  {
    var r := WalkFor(h, env, st, cond, cons, unres);
    var vals := RangeValues(h.start, h.stop, h.step);
    if |vals| > MAX_UNROLL_ITERATIONS {
      AboveCapCovered(h, vals, env, st, cond, cons, unres, s, fuel);
    } else if vals != [] {
      var rc := WalkCopies(h.body, h.target, vals, env, st, cond, cons, unres, false, false);
      var visit := Visit(Label(h.line, KFor), AndT(cond, BoolVal(vals != [])), cons, unres);
      assert r == WalkUnrolled(h, vals, env, st, cond, cons, unres);
      assert r.log == [visit, Push] + rc.log + [Pop];
      CopiesCovered(h.body, h.target, vals, env, st, cond, cons, unres, false, s, fuel);
      var e := ExecCopies(h.body, h.target, vals, s, fuel);
      CoversWider(rc.log, r.log, e);
      assert Visited(visit.arm, r.log) by { assert visit in r.log; }
      CoversThen([visit.arm], r.log, e);
    } else {
      assert r == WalkUnrolled(h, vals, env, st, cond, cons, unres);
    }
  }

  lemma {:induction false} CopiesCovered(body: Block, x: string, vals: seq<int>, env: Env, st: WState, cond: Term,
                                         cons: nat, unres: nat, u: bool, s: Store, fuel: nat)
    requires var r := WalkCopies(body, x, vals, env, st, cond, cons, unres, u, false); !r.out.Fails? && Resolved(r.log)
    requires Fresh(env, st) && env.Keys <= s.Keys
    ensures CoversAll(env, s, WalkCopies(body, x, vals, env, st, cond, cons, unres, u, false),
                      ExecCopies(body, x, vals, s, fuel))
    decreases fuel, body, 1, |vals|
  {
    if vals != [] {
      var env1, st1 := env[x := Entry(IntVal(vals[0]), st.nextId)], st.(nextId := st.nextId + 1);
      var s1 := s[x := vals[0]];
      var r := WalkBlock(body, env1, st1, cond, cons, Bump(unres, u), false);
      BlockCovered(body, env1, st1, cond, cons, Bump(unres, u), false, s1, fuel);
      BlockBasics(body, env1, st1, cond, cons, Bump(unres, u), false, map[]);
      var e := ExecBlock(body, s1, fuel);
      assert CoversAll(env, s, r, e);
      if e.status.Fell? {
        CopiesCovered(body, x, vals[1..], r.out.env, r.st, r.out.cont, cons, unres,
                      u || r.out.taint, e.status.store, fuel);
        CopiesBasics(body, x, vals[1..], r.out.env, r.st, r.out.cont, cons, unres, u || r.out.taint, false, map[]);
        CoversSeq(env, st, s, r, e,
                  WalkCopies(body, x, vals[1..], r.out.env, r.st, r.out.cont, cons, unres, u || r.out.taint, false),
                  ExecCopies(body, x, vals[1..], e.status.store, fuel));
      } else {
        CoversWider(r.log, WalkCopies(body, x, vals, env, st, cond, cons, unres, u, false).log, e);
      }
    }
  }

  // Untouched by the body: bound before the loop and still the same tuple after its walk.
  predicate Steady(env: Env, after: Env, s: Store, s': Store) {
    && env.Keys <= s'.Keys
    && (forall x :: x in env && x in s && x !in Rebound(env, after) ==> x in s' && s'[x] == s[x])
  }

  lemma SteadyIsKept(env: Env, st: WState, after: Env, st': WState, s: Store, s': Store)
    requires Fresh(env, st) && env.Keys <= s.Keys && EnvGrown(env, st, after, st') && st.nextId <= st'.nextId
    requires Steady(env, after, s, s')
    ensures Keeps(env, TaintEnv(env, after, st'), s, s')
  {
  }

  lemma {:induction false} WhileCovered(h: Stmt, env: Env, st: WState, cond: Term, cons: nat, unres: nat, s: Store,
                                        fuel: nat)
    requires h.While?
    requires var r := WalkWhile(h, env, st, cond, cons, unres); !r.out.Fails? && Resolved(r.log)
    requires Fresh(env, st) && env.Keys <= s.Keys
    ensures CoversAll(env, s, WalkWhile(h, env, st, cond, cons, unres), ExecStmt(h, s, fuel))
    decreases fuel, h, 2
  {
    var r := WalkWhile(h, env, st, cond, cons, unres);
    var g := Guard(h.test, env).value;
    assert Mentions(g, st.tainted) ==> Unsolved(Label(h.line, KWhile), true) in r.log;
    if !Mentions(g, st.tainted) {
      var rb := WalkBlock(h.body, env, st, AndT(cond, g), cons + 1, unres, false);
      assert r.log == [Visit(Label(h.line, KWhile), AndT(cond, g), cons, unres)] + rb.log + [Passed(h.line)];
      BlockBasics(h.body, env, st, AndT(cond, g), cons + 1, unres, false, map[]);
      IterationsCovered(h, env, st, cond, cons, unres, s, fuel);
      var e := ExecWhile(h, s, fuel);
      if e.status.Fell? { SteadyIsKept(env, st, rb.out.env, rb.st, s, e.status.store); }
    }
  }

  // However many iterations run, from any store.
  lemma {:induction false} IterationsCovered(h: Stmt, env: Env, st: WState, cond: Term, cons: nat, unres: nat, s: Store,
                                             fuel: nat)
    requires h.While? && Guard(h.test, env).Some?
    requires var rb := WalkBlock(h.body, env, st, AndT(cond, Guard(h.test, env).value), cons + 1, unres, false);
      !rb.out.Fails? && Resolved(rb.log)
    requires Fresh(env, st) && env.Keys <= s.Keys
    ensures var enter := AndT(cond, Guard(h.test, env).value);
      var rb := WalkBlock(h.body, env, st, enter, cons + 1, unres, false);
      var run := ExecWhile(h, s, fuel);
      && Covers([Visit(Label(h.line, KWhile), enter, cons, unres)] + rb.log + [Passed(h.line)], run)
      && (run.status.Fell? ==> Steady(env, rb.out.env, s, run.status.store))
    decreases fuel, h, 1
  {
    TranslatedIsBound(h.test, env, s);
    var enter := AndT(cond, Guard(h.test, env).value);
    var rb := WalkBlock(h.body, env, st, enter, cons + 1, unres, false);
    var visit := Visit(Label(h.line, KWhile), enter, cons, unres);
    var log := [visit] + rb.log + [Passed(h.line)];
    assert visit in log && Passed(h.line) in log;
    if EvalExpr(h.test, s).value != 0 && fuel > 0 {
      BlockCovered(h.body, env, st, enter, cons + 1, unres, false, s, fuel);
      BlockBasics(h.body, env, st, enter, cons + 1, unres, false, map[]);
      var e := ExecBlock(h.body, s, fuel);
      CoversWider(rb.log, log, e);
      assert Visited(visit.arm, log);
      CoversThen([visit.arm], log, e);
      if e.status.Fell? {
        IterationsCovered(h, env, st, cond, cons, unres, e.status.store, fuel - 1);
        CoversThen([visit.arm] + e.trace, log, ExecWhile(h, e.status.store, fuel - 1));
      }
    }
  }

  lemma {:induction false} AboveCapCovered(h: Stmt, vals: seq<int>, env: Env, st: WState, cond: Term, cons: nat,
                                           unres: nat, s: Store, fuel: nat)
    requires h.For? && h.step != 0 && vals == RangeValues(h.start, h.stop, h.step) && vals != []
    requires var r := WalkForAboveCap(h, env, st, cond, cons, unres); !r.out.Fails? && Resolved(r.log)
    requires Fresh(env, st) && env.Keys <= s.Keys
    ensures CoversAll(env, s, WalkForAboveCap(h, env, st, cond, cons, unres), ExecStmt(h, s, fuel))
    decreases fuel, h, 1
  {
    var enter := AndT(cond, BoolVal(Entered(h)));
    var env1, st1 := env[h.target := Entry(LoopIndex(h), st.nextId)], st.(nextId := st.nextId + 1);
    var rb := WalkBlock(h.body, env1, st1, SomeIteration(h, enter), cons + 1, unres, false);
    var visit := Visit(Label(h.line, KFor), enter, cons, unres);
    var log := [visit] + rb.log;
    assert WalkForAboveCap(h, env, st, cond, cons, unres).log == log;
    BlockBasics(h.body, env1, st1, SomeIteration(h, enter), cons + 1, unres, false, map[]);
    RepeatsCovered(h, vals, env, st, SomeIteration(h, enter), cons, unres, s, fuel);
    var e := ExecCopies(h.body, h.target, vals, s, fuel);
    CoversWider(rb.log, log, e);
    assert Visited(visit.arm, log) by { assert visit in log; }
    CoversThen([visit.arm], log, e);
    if e.status.Fell? { SteadyIsKept(env, st, rb.out.env, rb.st, s, e.status.store); }
  }

  lemma {:induction false} RepeatsCovered(h: Stmt, vals: seq<int>, env: Env, st: WState, inside: Term, cons: nat,
                                          unres: nat, s: Store, fuel: nat)
    requires h.For?
    requires var rb := WalkBlock(h.body, env[h.target := Entry(LoopIndex(h), st.nextId)], st.(nextId := st.nextId + 1),
                                 inside, cons + 1, unres, false);
      !rb.out.Fails? && Resolved(rb.log)
    requires Fresh(env, st) && env.Keys <= s.Keys
    ensures var rb := WalkBlock(h.body, env[h.target := Entry(LoopIndex(h), st.nextId)], st.(nextId := st.nextId + 1),
                                inside, cons + 1, unres, false);
      var run := ExecCopies(h.body, h.target, vals, s, fuel);
      && Covers(rb.log, run)
      && (run.status.Fell? ==> (rb.out.Falls? || vals == []) && Steady(env, rb.out.env, s, run.status.store))
    decreases fuel, h.body, 1, |vals|
  {
    if vals != [] {
      var env1, st1 := env[h.target := Entry(LoopIndex(h), st.nextId)], st.(nextId := st.nextId + 1);
      var rb := WalkBlock(h.body, env1, st1, inside, cons + 1, unres, false);
      var s1 := s[h.target := vals[0]];
      BlockCovered(h.body, env1, st1, inside, cons + 1, unres, false, s1, fuel);
      BlockBasics(h.body, env1, st1, inside, cons + 1, unres, false, map[]);
      var e := ExecBlock(h.body, s1, fuel);
      if e.status.Fell? {
        assert Steady(env, rb.out.env, s, e.status.store);
        RepeatsCovered(h, vals[1..], env, st, inside, cons, unres, e.status.store, fuel);
        CoversThen(e.trace, rb.log, ExecCopies(h.body, h.target, vals[1..], e.status.store, fuel));
      }
    }
  }
}
