/**
  Join correctness. For an input that reaches a block whose walk resolves every closure, the
  continuation condition holds exactly when the run falls through, and the returned environment
  then describes the run's store: if-joins, dropped variables, unrolled and approximated loops.
 */
module Joins {
  import opened PySubset
  import opened Interp
  import opened Terms
  import opened Walk
  import opened WalkBasics
  import opened Agreement
  import opened AnyStore
  import opened Coverage

  predicate StuckAt(run: Run, log: seq<Item>) {
    run.status.Stuck? && Passed(run.status.line) in log
  }

  predicate Exact(r: Res, run: Run, m: Model) {
    !r.out.Fails? && !r.out.taint ==>
      && (run.status.Fell? ==>
            && r.out.Falls?
            && Holds(r.out.cont, m)
            && Agrees(r.out.env, r.st.tainted, run.status.store, m))
      && (r.out.Falls? && Holds(r.out.cont, m) ==> run.status.Fell? || StuckAt(run, r.log))
  }

  lemma {:induction false} BlockExact(b: Block, env: Env, st: WState, cond: Term, cons: nat, unres: nat, s: Store,
                                      fuel: nat, m: Model)
    requires Fresh(env, st) && Agrees(env, st.tainted, s, m) && Holds(cond, m)
    ensures Exact(WalkBlock(b, env, st, cond, cons, unres, false), ExecBlock(b, s, fuel), m)
    decreases b, 0
  {
    match b
    case Nil =>
    case Cons(h, t) =>
      if Compound(h) {
        CompoundThenExact(h, t, env, st, cond, cons, unres, s, fuel, m);
      } else if h.Assign? {
        if Translate(h.e, env).Some? {
          AssignStep(h, t, env, st, cond, cons, unres, s, fuel, m);
          var env1, st1 := env[h.x := Entry(Translate(h.e, env).value, st.nextId)], st.(nextId := st.nextId + 1);
          BlockExact(t, env1, st1, cond, cons, unres, s[h.x := EvalExpr(h.e, s).value], fuel, m);
        }
      } else if h.Return? {
        assert ExecStmt(h, s, fuel).status.Returned?;
      } else {
        BlockExact(t, env, st, cond, cons, unres, s, fuel, m);
        StepOverExact(h, t, env, st, cond, cons, unres, s, fuel, m);
      }
  }

  // An assignment keeps environment and store in agreement.
  lemma AssignStep(h: Stmt, t: Block, env: Env, st: WState, cond: Term, cons: nat, unres: nat, s: Store, fuel: nat,
                   m: Model)
    requires h.Assign? && Translate(h.e, env).Some?
    requires Fresh(env, st) && Agrees(env, st.tainted, s, m)
    ensures EvalExpr(h.e, s).Some?
    ensures var env1, st1 := env[h.x := Entry(Translate(h.e, env).value, st.nextId)], st.(nextId := st.nextId + 1);
      var s1 := s[h.x := EvalExpr(h.e, s).value];
      && Fresh(env1, st1) && Agrees(env1, st1.tainted, s1, m)
      && WalkBlock(Cons(h, t), env, st, cond, cons, unres, false) == WalkBlock(t, env1, st1, cond, cons, unres, false)
      && ExecBlock(Cons(h, t), s, fuel) == ExecBlock(t, s1, fuel)
  {
    TranslatedIsBound(h.e, env, s);
    var v := Translate(h.e, env).value;
    if !Mentions(v, st.tainted) { TranslateIsSound(h.e, env, st.tainted, s, m); }
    var run := ExecBlock(t, s[h.x := EvalExpr(h.e, s).value], fuel);
    assert After([], run) == run;
  }

  // `pass` and expression statements.
  lemma StepOverExact(h: Stmt, t: Block, env: Env, st: WState, cond: Term, cons: nat, unres: nat, s: Store, fuel: nat,
                      m: Model)
    requires h.Pass? || h.ExprStmt?
    requires Exact(WalkBlock(t, env, st, cond, cons, unres, false), ExecBlock(t, s, fuel), m)
    ensures Exact(WalkBlock(Cons(h, t), env, st, cond, cons, unres, false), ExecBlock(Cons(h, t), s, fuel), m)
  {
    var r := WalkBlock(Cons(h, t), env, st, cond, cons, unres, false);
    var r' := WalkBlock(t, env, st, cond, cons, unres, false);
    assert r.out == r'.out && r.st == r'.st && forall it :: it in r'.log ==> it in r.log;
    if h.ExprStmt? && ExecStmt(h, s, fuel).status.Stuck? {
      assert Passed(h.line) in r.log;
    } else {
      assert ExecBlock(Cons(h, t), s, fuel).status == ExecBlock(t, s, fuel).status;
    }
  }

  lemma {:induction false} CompoundThenExact(h: Stmt, t: Block, env: Env, st: WState, cond: Term, cons: nat, unres: nat,
                                             s: Store, fuel: nat, m: Model)
    requires Compound(h)
    requires Fresh(env, st) && Agrees(env, st.tainted, s, m) && Holds(cond, m)
    ensures Exact(WalkBlock(Cons(h, t), env, st, cond, cons, unres, false), ExecBlock(Cons(h, t), s, fuel), m)
    decreases Cons(h, t), 0, 0
  {
    var r := WalkCompound(h, env, st, cond, cons, unres);
    var e := ExecStmt(h, s, fuel);
    CompoundExact(h, env, st, cond, cons, unres, s, fuel, m);
    CompoundBasics(h, env, st, cond, cons, unres, m);
    match r.out
    case Fails => BlockBasics(t, env, r.st, cond, cons, unres, true, m);
    case Closes(_, _) => ClosedCompound(h, env, st, cond, cons, unres, s, fuel);
    case Falls(cont, env', taint) =>
      if !taint && e.status.Fell? {
        BlockExact(t, env', r.st, cont, cons, unres, e.status.store, fuel, m);
      }
      FallsThenExact(h, t, env, st, cond, cons, unres, s, fuel, m);
  }

  lemma FallsThenExact(h: Stmt, t: Block, env: Env, st: WState, cond: Term, cons: nat, unres: nat, s: Store, fuel: nat,
                       m: Model)
    requires Compound(h)
    requires var r := WalkCompound(h, env, st, cond, cons, unres);
      var e := ExecStmt(h, s, fuel);
      && r.out.Falls? && Exact(r, e, m)
      && (!r.out.taint && e.status.Fell? ==>
            Exact(WalkBlock(t, r.out.env, r.st, r.out.cont, cons, unres, false), ExecBlock(t, e.status.store, fuel), m))
    ensures Exact(WalkBlock(Cons(h, t), env, st, cond, cons, unres, false), ExecBlock(Cons(h, t), s, fuel), m)
  {
    var r := WalkCompound(h, env, st, cond, cons, unres);
    BlockBasics(t, r.out.env, r.st, r.out.cont, cons, unres, r.out.taint, m);
  }

  lemma {:induction false} CompoundExact(h: Stmt, env: Env, st: WState, cond: Term, cons: nat, unres: nat, s: Store,
                                         fuel: nat, m: Model)
    requires Compound(h)
    requires Fresh(env, st) && Agrees(env, st.tainted, s, m) && Holds(cond, m)
    ensures Exact(WalkCompound(h, env, st, cond, cons, unres), ExecStmt(h, s, fuel), m)
    decreases h, 2
  {
    match h
    case If(_, _, _, _) => IfExact(h, env, st, cond, cons, unres, KIf, s, fuel, m);
    case While(_, _, _) => WhileExact(h, env, st, cond, cons, unres, s, fuel, m);
    case For(_, _, _, _, _, _) => ForExact(h, env, st, cond, cons, unres, s, fuel, m);
  }

  // The joined environment describes the store that the arm taken has left.
  lemma MergeAgrees(g: Term, env: Env, st: WState, rb: Res, re: Res, s: Store, m: Model)
    requires Fresh(env, st) && Grown(env, st, rb) && Grown(env, rb.st, re)
    requires rb.out.Falls? && re.out.Falls?
    requires Holds(g, m) ==> Agrees(rb.out.env, re.st.tainted, s, m)
    requires !Holds(g, m) ==> Agrees(re.out.env, re.st.tainted, s, m)
    ensures Agrees(MergeEnvs(g, rb.out.env, re.out.env, re.st.nextId), re.st.tainted, s, m)
  {
    var merged := MergeEnvs(g, rb.out.env, re.out.env, re.st.nextId);
    var tainted := re.st.tainted;
    forall x | x in merged
      ensures x in s && (Mentions(merged[x].term, tainted) || s[x] == Eval(merged[x].term, m))
    {
      var a, b := rb.out.env[x], re.out.env[x];
      if a.id == b.id {
        assert a == b;
      } else if !Mentions(merged[x].term, tainted) {
        assert merged[x].term == Ite(g, a.term, b.term);
        MentionsSub(a.term, merged[x].term, tainted);
        MentionsSub(b.term, merged[x].term, tainted);
      }
    }
  }

  lemma {:induction false} IfExact(h: Stmt, env: Env, st: WState, cond: Term, cons: nat, unres: nat, kind: Kind,
                                   s: Store, fuel: nat, m: Model)
    requires h.If?
    requires Fresh(env, st) && Agrees(env, st.tainted, s, m) && Holds(cond, m)
    ensures Exact(WalkIf(h, env, st, cond, cons, unres, kind), ExecIf(h, s, fuel, kind), m)
    decreases h, 1
  {
    var g := Guard(h.test, env);
    if g.Some? && !Mentions(g.value, st.tainted) {
      TranslateIsSound(h.test, env, st.tainted, s, m);
      var yes, no := AndT(cond, g.value), AndT(cond, NotT(g.value));
      assert Holds(yes, m) == Holds(g.value, m);
      assert Holds(no, m) == !Holds(g.value, m) by { assert Holds(NotT(g.value), m) == !Holds(g.value, m); }
      var rb := WalkBlock(h.body, env, st, yes, cons, unres, false);
      if !rb.out.Fails? {
        var re := WalkElse(h.orelse, env, rb.st, no, cons, unres);
        if Holds(g.value, m) {
          BlockExact(h.body, env, st, yes, cons, unres, s, fuel, m);
        } else {
          AgreesGrow(env, st.tainted, rb.st.tainted, s, m)
            by { BlockBasics(h.body, env, st, yes, cons, unres, false, m); }
          BlockBasics(h.body, env, st, yes, cons, unres, false, m);
          ElseExact(h.orelse, env, rb.st, no, cons, unres, s, fuel, m);
        }
        ArmsExact(h, env, st, cond, cons, unres, kind, s, fuel, m);
      }
    }
  }

  // From the exactness of the arm taken, `run`, to the exactness of the join.
  lemma JoinExact(g: Term, env: Env, st: WState, rb: Res, re: Res, log: seq<Item>, run: Run, m: Model)
    requires Fresh(env, st) && Grown(env, st, rb) && Grown(env, rb.st, re) && !rb.out.Fails?
    requires rb.out.Falls? && Holds(rb.out.cont, m) ==> Holds(g, m)
    requires re.out.Falls? && Holds(re.out.cont, m) ==> !Holds(g, m)
    requires Holds(g, m) ==> Exact(rb, run, m) && (rb.out.Closes? ==> !run.status.Fell?)
    requires !Holds(g, m) ==> Exact(re, run, m) && (re.out.Closes? ==> !run.status.Fell?)
    requires forall it :: it in rb.log || it in re.log ==> it in log
    ensures Exact(Join(g, env, rb, re, log), run, m)
  {
    var r := Join(g, env, rb, re, log);
    if !r.out.Fails? && !r.out.taint && run.status.Fell? {
      var s' := run.status.store;
      if Holds(g, m) { AgreesGrow(rb.out.env, rb.st.tainted, re.st.tainted, s', m); }
      if rb.out.Falls? && re.out.Falls? { MergeAgrees(g, env, st, rb, re, s', m); }
    }
  }

  lemma {:induction false} ArmsExact(h: Stmt, env: Env, st: WState, cond: Term, cons: nat, unres: nat, kind: Kind,
                                     s: Store, fuel: nat, m: Model)
    requires h.If? && Guard(h.test, env).Some?
    requires Fresh(env, st) && Agrees(env, st.tainted, s, m) && Holds(cond, m)
    requires var g := Guard(h.test, env).value;
      var rb := WalkBlock(h.body, env, st, AndT(cond, g), cons, unres, false);
      && !Mentions(g, st.tainted) && !rb.out.Fails?
      && (Holds(g, m) ==> Exact(rb, ExecBlock(h.body, s, fuel), m))
      && (!Holds(g, m) ==>
            Exact(WalkElse(h.orelse, env, rb.st, AndT(cond, NotT(g)), cons, unres), ExecElse(h.orelse, s, fuel), m))
    ensures Exact(WalkIf(h, env, st, cond, cons, unres, kind), ExecIf(h, s, fuel, kind), m)
  {
    var g := Guard(h.test, env).value;
    TranslateIsSound(h.test, env, st.tainted, s, m);
    var yes, no := AndT(cond, g), AndT(cond, NotT(g));
    assert Holds(no, m) == !Holds(g, m) by { assert Holds(NotT(g), m) == !Holds(g, m); }
    var rb := WalkBlock(h.body, env, st, yes, cons, unres, false);
    var re := WalkElse(h.orelse, env, rb.st, no, cons, unres);
    BlockBasics(h.body, env, st, yes, cons, unres, false, m);
    ElseBasics(h.orelse, env, rb.st, no, cons, unres, m);
    if rb.out.Closes? { ClosedNeverFalls(h.body, env, st, yes, cons, unres, false, s, fuel); }
    if re.out.Closes? { ClosedElse(h.orelse, env, rb.st, no, cons, unres, s, fuel); }
    var run := if Holds(g, m) then ExecBlock(h.body, s, fuel) else ExecElse(h.orelse, s, fuel);
    var log := [Visit(Label(h.line, kind), yes, cons, unres)] + rb.log + re.log;
    assert WalkIf(h, env, st, cond, cons, unres, kind) == Join(g, env, rb, re, log);
    assert ExecIf(h, s, fuel, kind).status == run.status;
    hide Exact, WalkIf, ExecIf, WalkBlock, WalkElse, ExecBlock, ExecElse;
    JoinExact(g, env, st, rb, re, log, run, m);
    SameStatusExact(Join(g, env, rb, re, log), run, ExecIf(h, s, fuel, kind), m);
  }

  lemma SameStatusExact(r: Res, run: Run, run': Run, m: Model)
    requires Exact(r, run, m) && run.status == run'.status
    ensures Exact(r, run', m)
  {
  }

  lemma ClosedElse(orelse: Block, env: Env, st: WState, cond: Term, cons: nat, unres: nat, s: Store, fuel: nat)
    requires WalkElse(orelse, env, st, cond, cons, unres).out.Closes?
    ensures !ExecElse(orelse, s, fuel).status.Fell?
  {
    if IsElif(orelse) {
      ClosedIf(orelse.head, env, st, cond, cons, unres, KElif, s, fuel);
    } else {
      ClosedNeverFalls(orelse, env, st, cond, cons, unres, false, s, fuel);
    }
  }

  lemma {:induction false} ElseExact(orelse: Block, env: Env, st: WState, cond: Term, cons: nat, unres: nat, s: Store,
                                     fuel: nat, m: Model)
    requires Fresh(env, st) && Agrees(env, st.tainted, s, m) && Holds(cond, m)
    ensures Exact(WalkElse(orelse, env, st, cond, cons, unres), ExecElse(orelse, s, fuel), m)
    decreases orelse, 3
  {
    if IsElif(orelse) {
      IfExact(orelse.head, env, st, cond, cons, unres, KElif, s, fuel, m);
    } else if orelse.Cons? {
      BlockExact(orelse, env, st, cond, cons, unres, s, fuel, m);
    }
  }

  // ---------------------------------------------------------------- loops

  lemma {:induction false} ForExact(h: Stmt, env: Env, st: WState, cond: Term, cons: nat, unres: nat, s: Store,
                                    fuel: nat, m: Model)
    requires h.For?
    requires Fresh(env, st) && Agrees(env, st.tainted, s, m) && Holds(cond, m)
    ensures Exact(WalkFor(h, env, st, cond, cons, unres), ExecStmt(h, s, fuel), m)
    decreases h, 1
  {
    var vals := RangeValues(h.start, h.stop, h.step);
    if h.step != 0 {
      if |vals| > MAX_UNROLL_ITERATIONS {
        AboveCapExact(h, vals, env, st, cond, cons, unres, s, fuel, m);
      } else {
        assert WalkFor(h, env, st, cond, cons, unres) == WalkUnrolled(h, vals, env, st, cond, cons, unres);
        if vals != [] {
          CopiesExact(h.body, h.target, vals, env, st, cond, cons, unres, s, fuel, m);
          var rc := WalkCopies(h.body, h.target, vals, env, st, cond, cons, unres, false, false);
          var e := ExecCopies(h.body, h.target, vals, s, fuel);
          assert forall it :: it in rc.log ==> it in WalkUnrolled(h, vals, env, st, cond, cons, unres).log;
        }
      }
    }
  }

  lemma {:induction false} CopiesExact(body: Block, x: string, vals: seq<int>, env: Env, st: WState, cond: Term,
                                       cons: nat, unres: nat, s: Store, fuel: nat, m: Model)
    requires Fresh(env, st) && Agrees(env, st.tainted, s, m) && Holds(cond, m)
    ensures Exact(WalkCopies(body, x, vals, env, st, cond, cons, unres, false, false),
                  ExecCopies(body, x, vals, s, fuel), m)
    decreases body, 1, |vals|
  {
    var whole := WalkCopies(body, x, vals, env, st, cond, cons, unres, false, false);
    if whole.out.Closes? {
      ClosedCopies(body, x, vals, env, st, cond, cons, unres, false, s, fuel);
    } else if vals != [] {
      var env1, st1 := env[x := Entry(IntVal(vals[0]), st.nextId)], st.(nextId := st.nextId + 1);
      var s1 := s[x := vals[0]];
      var r := WalkBlock(body, env1, st1, cond, cons, unres, false);
      var e := ExecBlock(body, s1, fuel);
      BlockExact(body, env1, st1, cond, cons, unres, s1, fuel, m);
      BlockBasics(body, env1, st1, cond, cons, unres, false, m);
      if r.out.Falls? && e.status.Fell? && !r.out.taint {
        CopiesExact(body, x, vals[1..], r.out.env, r.st, r.out.cont, cons, unres, e.status.store, fuel, m);
      }
      CopyThenExact(body, x, vals, env, st, cond, cons, unres, s, fuel, m);
    }
  }

  lemma CopyThenExact(body: Block, x: string, vals: seq<int>, env: Env, st: WState, cond: Term, cons: nat, unres: nat,
                      s: Store, fuel: nat, m: Model)
    requires vals != [] && !WalkCopies(body, x, vals, env, st, cond, cons, unres, false, false).out.Closes?
    requires var r := WalkBlock(body, env[x := Entry(IntVal(vals[0]), st.nextId)], st.(nextId := st.nextId + 1),
                                cond, cons, unres, false);
      var e := ExecBlock(body, s[x := vals[0]], fuel);
      && Exact(r, e, m)
      && (r.out.Falls? && e.status.Fell? && !r.out.taint ==>
            Exact(WalkCopies(body, x, vals[1..], r.out.env, r.st, r.out.cont, cons, unres, false, false),
                  ExecCopies(body, x, vals[1..], e.status.store, fuel), m))
    ensures Exact(WalkCopies(body, x, vals, env, st, cond, cons, unres, false, false),
                  ExecCopies(body, x, vals, s, fuel), m)
  {
    var r := WalkBlock(body, env[x := Entry(IntVal(vals[0]), st.nextId)], st.(nextId := st.nextId + 1),
                       cond, cons, unres, false);
    CopyFirst(body, x, vals, env, st, cond, cons, unres, false, false);
    hide WalkCopies, WalkBlock, ExecBlock;
    if !r.out.Fails? {
      var cont := if r.out.Falls? then r.out.cont else BoolVal(false);
      CopiesBasics(body, x, vals[1..], r.out.env, r.st, cont, cons, unres, r.out.taint, r.out.Closes?, m);
    }
  }

  // After an approximated loop, a variable is either a tainted symbol or what it was before.
  lemma TaintAgrees(env: Env, st: WState, after: Env, st': WState, s: Store, s': Store, m: Model)
    requires Agrees(env, st.tainted, s, m) && st.tainted <= st'.tainted
    requires Steady(env, after, s, s')
    ensures Agrees(TaintEnv(env, after, st'), TaintState(env, after, st').tainted, s', m)
  {
    var env', tainted' := TaintEnv(env, after, st'), TaintState(env, after, st').tainted;
    AgreesGrow(env, st.tainted, tainted', s, m);
    forall x | x in env'
      ensures x in s' && (Mentions(env'[x].term, tainted') || s'[x] == Eval(env'[x].term, m))
    {
      if x in Rebound(env, after) {
        var sym := Sym(TaintName(st'.taints, x), SortOf(after[x].term));
        assert sym in Syms(env'[x].term) && sym.name in tainted';
      }
    }
  }

  lemma {:induction false} WhileExact(h: Stmt, env: Env, st: WState, cond: Term, cons: nat, unres: nat, s: Store,
                                      fuel: nat, m: Model)
    requires h.While?
    requires Fresh(env, st) && Agrees(env, st.tainted, s, m) && Holds(cond, m)
    ensures Exact(WalkWhile(h, env, st, cond, cons, unres), ExecWhile(h, s, fuel), m)
  {
    var g := Guard(h.test, env);
    var r := WalkWhile(h, env, st, cond, cons, unres);
    var run := ExecWhile(h, s, fuel);
    if g.Some? && !Mentions(g.value, st.tainted) && !r.out.Fails? && !r.out.taint {
      TranslateIsSound(h.test, env, st.tainted, s, m);
      var enter := AndT(cond, g.value);
      assert Holds(NotT(g.value), m) == !Holds(g.value, m);
      BlockBasics(h.body, env, st, enter, cons + 1, unres, false, m);
      var rb := WalkBlock(h.body, env, st, enter, cons + 1, unres, false);
      assert r.log == [Visit(Label(h.line, KWhile), enter, cons, unres)] + rb.log + [Passed(h.line)];
      if rb.out.Closes? {
        ClosedNeverFalls(h.body, env, st, enter, cons + 1, unres, false, s, fuel);
      } else {
        NoReturnResolved(h.body, env, st, enter, cons + 1, unres, false);
        IterationsCovered(h, env, st, cond, cons, unres, s, fuel);
        StmtNeverReturns(h, s, fuel);
      }
      if run.status.Fell? { TaintAgrees(env, st, rb.out.env, rb.st, s, run.status.store, m); }
    }
  }

  lemma {:induction false} AboveCapExact(h: Stmt, vals: seq<int>, env: Env, st: WState, cond: Term, cons: nat,
                                         unres: nat, s: Store, fuel: nat, m: Model)
    requires h.For? && h.step != 0 && vals == RangeValues(h.start, h.stop, h.step) && vals != []
    requires Fresh(env, st) && Agrees(env, st.tainted, s, m) && Holds(cond, m)
    ensures Exact(WalkForAboveCap(h, env, st, cond, cons, unres), ExecStmt(h, s, fuel), m)
  {
    var r := WalkForAboveCap(h, env, st, cond, cons, unres);
    if !r.out.Fails? && !r.out.taint {
      var enter := AndT(cond, BoolVal(Entered(h)));
      var env1, st1 := env[h.target := Entry(LoopIndex(h), st.nextId)], st.(nextId := st.nextId + 1);
      var inside := SomeIteration(h, enter);
      BlockBasics(h.body, env1, st1, inside, cons + 1, unres, false, m);
      var rb := WalkBlock(h.body, env1, st1, inside, cons + 1, unres, false);
      var log := [Visit(Label(h.line, KFor), enter, cons, unres)] + rb.log;
      assert r == LeaveLoop(h.body, env, cond, BoolVal(Entered(h)), rb, log);
      var run := ExecCopies(h.body, h.target, vals, s, fuel);
      assert ExecStmt(h, s, fuel) == After([Label(h.line, KFor)], run);
      if rb.out.Closes? {
        ClosedNeverFalls(h.body, env1, st1, inside, cons + 1, unres, false, s[h.target := vals[0]], fuel);
        assert Entered(h) && Eval(BoolVal(Entered(h)), m) == 1;
        assert !Holds(NotT(BoolVal(Entered(h))), m);
      } else {
        NoReturnResolved(h.body, env1, st1, inside, cons + 1, unres, false);
        RepeatsCovered(h, vals, env, st, inside, cons, unres, s, fuel);
        CopiesNeverReturn(h.body, h.target, vals, s, fuel);
        RepeatsExact(h, env, st, cond, rb, log, s, run, m);
      }
    }
  }

  // A body without a return, repeated: the run falls through or is stuck at something passed.
  lemma RepeatsExact(h: Stmt, env: Env, st: WState, cond: Term, rb: Res, log: seq<Item>, s: Store, run: Run, m: Model)
    requires h.For? && rb.out.Falls? && !HasReturn(h.body) && Agrees(env, st.tainted, s, m) && Holds(cond, m)
    requires st.tainted <= rb.st.tainted && !run.status.Returned? && Covers(rb.log, run)
    requires forall it :: it in rb.log ==> it in log
    requires run.status.Fell? ==> Steady(env, rb.out.env, s, run.status.store)
    ensures Exact(LeaveLoop(h.body, env, cond, BoolVal(Entered(h)), rb, log), After([Label(h.line, KFor)], run), m)
  {
    if run.status.Fell? { TaintAgrees(env, st, rb.out.env, rb.st, s, run.status.store, m); }
  }
}
