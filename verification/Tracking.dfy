/**
  Runs from ANY store against a careful walk: an arm on the line is reported, one way or another,
  and a variable that keeps its binding, and is not tainted, keeps its value.
 */
module Tracking {
  import opened PySubset
  import opened Interp
  import opened Terms
  import opened Walk
  import opened WalkBasics
  import opened AnyStore
  import opened Scope
  import opened Reach
  import opened Careful

  // The run enters an arm on the line.
  predicate Names(trace: seq<Label>, line: int) {
    exists l :: l in trace && l.line == line
  }

  predicate OnLine(it: Item, line: int) {
    (it.Visit? || it.Unsolved?) && it.arm.line == line
  }

  predicate Noted(line: int, log: seq<Item>) {
    exists it :: it in log && OnLine(it, line)
  }

  // Exact variables with the same binding before and after have the same value.
  predicate KeepsExact(env: Env, env': Env, tainted: set<string>, s: Store, s': Store) {
    forall x :: x in env && x in s && x in env' && env'[x].id == env[x].id && !Mentions(env[x].term, tainted) ==>
                  x in s' && s'[x] == s[x]
  }

  predicate Tracks(line: int, later: bool, env: Env, s: Store, r: Res, run: Run) {
    && (Names(run.trace, line) ==> Noted(line, r.log))
    && (run.status.Fell? ==> r.out.Falls?)
    && (later && run.status.Fell? ==> KeepsExact(env, r.out.env, r.st.tainted, s, run.status.store))
  }

  lemma NotedIn(line: int, log: seq<Item>, log': seq<Item>)
    requires Noted(line, log) && forall it :: it in log ==> it in log'
    ensures Noted(line, log')
  {
    var it :| it in log && OnLine(it, line);
    assert it in log';
  }

  lemma NamesSplit(a: seq<Label>, b: seq<Label>, line: int)
    ensures Names(a + b, line) <==> Names(a, line) || Names(b, line)
  {
    if Names(a, line) {
      var l :| l in a && l.line == line;
      assert l in a + b;
    }
    if Names(b, line) {
      var l :| l in b && l.line == line;
      assert l in a + b;
    }
  }

  // Nothing on the line is entered outside its text.
  lemma NotNamed(run: Run, lines: set<int>, line: int)
    requires Stays(run, lines) && line !in lines
    ensures !Names(run.trace, line)
  {
  }

  // One statement (or iteration), then the rest.
  lemma TracksSeq(line: int, later: bool, later': bool, env: Env, st: WState, s: Store, r1: Res, run1: Run, r2: Res,
                  run2: Run)
    requires Fresh(env, st) && !r1.out.Fails? && Grown(env, st, r1) && Tracks(line, later', env, s, r1, run1)
    requires (later ==> later')
    requires run1.status.Fell? ==>
      Grown(r1.out.env, r1.st, r2) && Tracks(line, later, r1.out.env, run1.status.store, r2, run2)
    ensures Tracks(line, later, env, s, Prepend(r1.log, r2),
                   if run1.status.Fell? then After(run1.trace, run2) else run1)
  {
    var log := r1.log + r2.log;
    if Noted(line, r1.log) { NotedIn(line, r1.log, log); }
    if Noted(line, r2.log) { NotedIn(line, r2.log, log); }
    if run1.status.Fell? {
      NamesSplit(run1.trace, run2.trace, line);
      if later && run2.status.Fell? {
        KeepsThrough(env, st, r1, r2, s, run1.status.store, run2.status.store);
      }
    }
  }

  lemma KeepsThrough(env: Env, st: WState, r1: Res, r2: Res, s: Store, s1: Store, s2: Store)
    requires Fresh(env, st) && r1.out.Falls? && r2.out.Falls? && Grown(env, st, r1) && Grown(r1.out.env, r1.st, r2)
    requires KeepsExact(env, r1.out.env, r1.st.tainted, s, s1)
    requires KeepsExact(r1.out.env, r2.out.env, r2.st.tainted, s1, s2)
    ensures KeepsExact(env, r2.out.env, r2.st.tainted, s, s2)
  {
    forall x | x in env && x in s && x in r2.out.env && r2.out.env[x].id == env[x].id
      && !Mentions(env[x].term, r2.st.tainted)
      ensures x in s2 && s2[x] == s[x]
    {
      assert r1.out.env[x] == env[x];
      assert !Mentions(env[x].term, r1.st.tainted);
    }
  }

  lemma {:induction false} BlockTracked(b: Block, env: Env, st: WState, cond: Term, cons: nat, unres: nat, u: bool,
                                        line: int, later: bool, s: Store, fuel: nat)
    requires !WalkBlock(b, env, st, cond, cons, unres, u).out.Fails? && Fresh(env, st)
    requires BlockCareful(b, env, st, cond, cons, unres, u, line, later)
    ensures Tracks(line, later, env, s, WalkBlock(b, env, st, cond, cons, unres, u), ExecBlock(b, s, fuel))
    decreases fuel, b, 0
  {
    match b
    case Nil =>
    case Cons(h, t) =>
      if Compound(h) {
        CompoundThenTracked(h, t, env, st, cond, cons, unres, u, line, later, s, fuel);
      } else if h.Assign? {
        AssignTracked(h, t, env, st, cond, cons, unres, u, line, later, s, fuel);
      } else if h.Return? {
        assert ExecBlock(b, s, fuel) == Run([], Returned);
      } else {
        BlockTracked(t, env, st, cond, cons, unres, u, line, later, s, fuel);
        StepOverTracked(h, t, env, st, cond, cons, unres, u, line, later, s, fuel);
      }
  }

  lemma StepOverTracked(h: Stmt, t: Block, env: Env, st: WState, cond: Term, cons: nat, unres: nat, u: bool, line: int,
                        later: bool, s: Store, fuel: nat)
    requires h.Pass? || h.ExprStmt?
    requires Tracks(line, later, env, s, WalkBlock(t, env, st, cond, cons, unres, u), ExecBlock(t, s, fuel))
    ensures Tracks(line, later, env, s, WalkBlock(Cons(h, t), env, st, cond, cons, unres, u),
                   ExecBlock(Cons(h, t), s, fuel))
  {
    var r, run := WalkBlock(t, env, st, cond, cons, unres, u), ExecBlock(t, s, fuel);
    assert After([], run) == run;
    if h.Pass? {
      assert WalkBlock(Cons(h, t), env, st, cond, cons, unres, u) == r && ExecBlock(Cons(h, t), s, fuel) == run;
    } else {
      var log := [Passed(h.line)] + r.log;
      assert WalkBlock(Cons(h, t), env, st, cond, cons, unres, u) == Res(r.out, r.st, log);
      if Noted(line, r.log) { NotedIn(line, r.log, log); }
      var e := ExecStmt(h, s, fuel);
      assert ExecBlock(Cons(h, t), s, fuel) == if e.status.Fell? then run else Run([], Stuck(h.line));
    }
  }

  lemma {:induction false} AssignTracked(h: Stmt, t: Block, env: Env, st: WState, cond: Term, cons: nat, unres: nat,
                                         u: bool, line: int, later: bool, s: Store, fuel: nat)
    requires h.Assign? && !WalkBlock(Cons(h, t), env, st, cond, cons, unres, u).out.Fails? && Fresh(env, st)
    requires BlockCareful(Cons(h, t), env, st, cond, cons, unres, u, line, later)
    ensures Tracks(line, later, env, s, WalkBlock(Cons(h, t), env, st, cond, cons, unres, u),
                   ExecBlock(Cons(h, t), s, fuel))
    decreases fuel, t, 4
  {
    var env1, st1 := env[h.x := Entry(Translate(h.e, env).value, st.nextId)], st.(nextId := st.nextId + 1);
    var r2 := WalkBlock(t, env1, st1, cond, cons, unres, u);
    var e := ExecStmt(h, s, fuel);
    if e.status.Fell? {
      BlockTracked(t, env1, st1, cond, cons, unres, u, line, later, e.status.store, fuel);
      BlockBasics(t, env1, st1, cond, cons, unres, u, map[]);
      TracksSeq(line, later, later, env, st, s, Res(Falls(cond, env1, u), st1, []), e, r2,
                ExecBlock(t, e.status.store, fuel));
      assert Prepend([], r2) == r2;
    } else {
      assert ExecBlock(Cons(h, t), s, fuel) == e && !Names(e.trace, line);
    }
  }

  // A statement that is passed over, from any store.
  lemma SkipTracked(h: Stmt, env: Env, tainted: set<string>, line: int, later: bool, s: Store, run: Run)
    requires Compound(h) && Skippable(h, env, tainted, line, later)
    requires Stays(run, StmtLines(h)) && Untouched(StmtBinds(h), s, run)
    ensures Names(run.trace, line) ==> h.line == line
    ensures later && run.status.Fell? ==> KeepsExact(env, env, tainted, s, run.status.store)
  {
  }

  lemma {:induction false} CompoundThenTracked(h: Stmt, t: Block, env: Env, st: WState, cond: Term, cons: nat,
                                               unres: nat, u: bool, line: int, later: bool, s: Store, fuel: nat)
    requires Compound(h) && !WalkBlock(Cons(h, t), env, st, cond, cons, unres, u).out.Fails? && Fresh(env, st)
    requires BlockCareful(Cons(h, t), env, st, cond, cons, unres, u, line, later)
    ensures Tracks(line, later, env, s, WalkBlock(Cons(h, t), env, st, cond, cons, unres, u),
                   ExecBlock(Cons(h, t), s, fuel))
    decreases fuel, Cons(h, t), 0, 0
  {
    var r := WalkCompound(h, env, st, cond, cons, Bump(unres, u));
    var e := ExecStmt(h, s, fuel);
    CompoundBasics(h, env, st, cond, cons, Bump(unres, u), map[]);
    match r.out
    case Fails =>
      if e.status.Fell? {
        BlockTracked(t, env, r.st, cond, cons, unres, true, line, later, e.status.store, fuel);
      }
      SkippedThenTracked(h, t, env, st, cond, cons, unres, u, line, later, s, fuel);
    case Closes(_, _) =>
      CompoundTracked(h, env, st, cond, cons, Bump(unres, u), line, later || line in Lines(t), s, fuel);
      ClosedCompound(h, env, st, cond, cons, Bump(unres, u), s, fuel);
    case Falls(cont, env', taint) =>
      CompoundTracked(h, env, st, cond, cons, Bump(unres, u), line, later || line in Lines(t), s, fuel);
      if e.status.Fell? {
        BlockTracked(t, env', r.st, cont, cons, unres, u || taint, line, later, e.status.store, fuel);
      }
      FallsThenTracked(h, t, env, st, cond, cons, unres, u, line, later, s, fuel);
  }

  lemma FallsThenTracked(h: Stmt, t: Block, env: Env, st: WState, cond: Term, cons: nat, unres: nat, u: bool, line: int,
                         later: bool, s: Store, fuel: nat)
    requires Compound(h) && Fresh(env, st)
    requires var r := WalkCompound(h, env, st, cond, cons, Bump(unres, u));
      var e := ExecStmt(h, s, fuel);
      && r.out.Falls? && Tracks(line, later || line in Lines(t), env, s, r, e)
      && (e.status.Fell? ==>
            Tracks(line, later, r.out.env, e.status.store,
                   WalkBlock(t, r.out.env, r.st, r.out.cont, cons, unres, u || r.out.taint),
                   ExecBlock(t, e.status.store, fuel)))
    ensures Tracks(line, later, env, s, WalkBlock(Cons(h, t), env, st, cond, cons, unres, u),
                   ExecBlock(Cons(h, t), s, fuel))
  {
    var r, e := WalkCompound(h, env, st, cond, cons, Bump(unres, u)), ExecStmt(h, s, fuel);
    var rest := WalkBlock(t, r.out.env, r.st, r.out.cont, cons, unres, u || r.out.taint);
    CompoundBasics(h, env, st, cond, cons, Bump(unres, u), map[]);
    BlockBasics(t, r.out.env, r.st, r.out.cont, cons, unres, u || r.out.taint, map[]);
    var run2 := if e.status.Fell? then ExecBlock(t, e.status.store, fuel) else e;
    assert WalkBlock(Cons(h, t), env, st, cond, cons, unres, u) == Prepend(r.log, rest);
    assert ExecBlock(Cons(h, t), s, fuel) == if e.status.Fell? then After(e.trace, run2) else e;
    TracksSeq(line, later, later || line in Lines(t), env, st, s, r, e, rest, run2);
  }

  lemma SkippedThenTracked(h: Stmt, t: Block, env: Env, st: WState, cond: Term, cons: nat, unres: nat, u: bool,
                           line: int, later: bool, s: Store, fuel: nat)
    requires Compound(h) && Fresh(env, st)
    requires var r := WalkCompound(h, env, st, cond, cons, Bump(unres, u));
      var e := ExecStmt(h, s, fuel);
      && r.out.Fails? && Skippable(h, env, r.st.tainted, line, later || line in Lines(t))
      && (e.status.Fell? ==>
            Tracks(line, later, env, e.status.store, WalkBlock(t, env, r.st, cond, cons, unres, true),
                   ExecBlock(t, e.status.store, fuel)))
    ensures Tracks(line, later, env, s, WalkBlock(Cons(h, t), env, st, cond, cons, unres, u),
                   ExecBlock(Cons(h, t), s, fuel))
  {
    var r, e := WalkCompound(h, env, st, cond, cons, Bump(unres, u)), ExecStmt(h, s, fuel);
    var bad := Unsolved(Label(h.line, KindOf(h)), false);
    var log := r.log + [bad];
    var rest := WalkBlock(t, env, r.st, cond, cons, unres, true);
    var skipped := Res(Falls(cond, env, true), r.st, log);
    StmtStays(h, s, fuel, StmtLines(h));
    StmtUntouched(h, s, fuel, StmtBinds(h));
    SkipTracked(h, env, r.st.tainted, line, later || line in Lines(t), s, e);
    assert bad in log && (h.line == line ==> OnLine(bad, line));
    assert Tracks(line, later || line in Lines(t), env, s, skipped, e);
    CompoundBasics(h, env, st, cond, cons, Bump(unres, u), map[]);
    BlockBasics(t, env, r.st, cond, cons, unres, true, map[]);
    var run2 := if e.status.Fell? then ExecBlock(t, e.status.store, fuel) else e;
    TracksSeq(line, later, later || line in Lines(t), env, st, s, skipped, e, rest, run2);
    assert WalkBlock(Cons(h, t), env, st, cond, cons, unres, u) == Prepend(log, rest);
  }

  lemma {:induction false} CompoundTracked(h: Stmt, env: Env, st: WState, cond: Term, cons: nat, unres: nat, line: int,
                                           later: bool, s: Store, fuel: nat)
    requires Compound(h) && !WalkCompound(h, env, st, cond, cons, unres).out.Fails? && Fresh(env, st)
    requires StmtCareful(h, env, st, cond, cons, unres, line, later)
    ensures Tracks(line, later, env, s, WalkCompound(h, env, st, cond, cons, unres), ExecStmt(h, s, fuel))
    decreases fuel, h, 3
  {
    match h
    case If(_, _, _, _) => IfTracked(h, env, st, cond, cons, unres, KIf, line, later, s, fuel);
    case While(_, _, _) => WhileTracked(h, env, st, cond, cons, unres, line, later, s, fuel);
    case For(_, _, _, _, _, _) => ForTracked(h, env, st, cond, cons, unres, line, later, s, fuel);
  }

  // What either arm gives the join.
  lemma JoinTracks(g: Term, env: Env, st: WState, rb: Res, re: Res, log: seq<Item>, s: Store, s': Store, first: bool)
    requires Fresh(env, st) && !rb.out.Fails? && Grown(env, st, rb) && !re.out.Fails? && Grown(env, rb.st, re)
    requires !Join(g, env, rb, re, log).out.Fails?
    requires first ==> rb.out.Falls? && KeepsExact(env, rb.out.env, rb.st.tainted, s, s')
    requires !first ==> re.out.Falls? && KeepsExact(env, re.out.env, re.st.tainted, s, s')
    ensures var r := Join(g, env, rb, re, log); r.out.Falls? && KeepsExact(env, r.out.env, r.st.tainted, s, s')
  {
    var r := Join(g, env, rb, re, log);
    forall x | x in env && x in s && x in r.out.env && r.out.env[x].id == env[x].id
      && !Mentions(env[x].term, r.st.tainted)
      ensures x in s' && s'[x] == s[x]
    {
      assert !Mentions(env[x].term, rb.st.tainted);
      assert first ==> rb.out.env[x].id == env[x].id;
      assert !first ==> re.out.env[x].id == env[x].id;
    }
  }

  lemma {:induction false} IfTracked(h: Stmt, env: Env, st: WState, cond: Term, cons: nat, unres: nat, kind: Kind,
                                     line: int, later: bool, s: Store, fuel: nat)
    requires h.If? && !WalkIf(h, env, st, cond, cons, unres, kind).out.Fails? && Fresh(env, st)
    requires IfCareful(h, env, st, cond, cons, unres, line, later)
    ensures Tracks(line, later, env, s, WalkIf(h, env, st, cond, cons, unres, kind), ExecIf(h, s, fuel, kind))
    decreases fuel, h, 2
  {
    var g := Guard(h.test, env).value;
    var run := ExecIf(h, s, fuel, kind);
    if Mentions(g, st.tainted) {
      IfStays(h, s, fuel, kind, StmtLines(h));
      IfUntouched(h, s, fuel, kind, StmtBinds(h));
      SkipTracked(h, env, st.tainted, line, later, s, run);
      var bad := Unsolved(Label(h.line, kind), true);
      assert bad in WalkIf(h, env, st, cond, cons, unres, kind).log && (h.line == line ==> OnLine(bad, line));
    } else if EvalExpr(h.test, s).Some? {
      var yes, no := AndT(cond, g), AndT(cond, NotT(g));
      var rb := WalkBlock(h.body, env, st, yes, cons, unres, false);
      BlockBasics(h.body, env, st, yes, cons, unres, false, map[]);
      if EvalExpr(h.test, s).value != 0 {
        BlockTracked(h.body, env, st, yes, cons, unres, false, line, later, s, fuel);
      } else {
        ElseTracked(h.orelse, env, rb.st, no, cons, unres, line, later, s, fuel);
      }
      ArmsTracked(h, env, st, cond, cons, unres, kind, line, later, s, fuel);
    } else {
      assert run == Run([], Stuck(h.line)) && !Names(run.trace, line);
    }
  }

  lemma ArmsTracked(h: Stmt, env: Env, st: WState, cond: Term, cons: nat, unres: nat, kind: Kind, line: int,
                    later: bool, s: Store, fuel: nat)
    requires h.If? && !WalkIf(h, env, st, cond, cons, unres, kind).out.Fails? && Fresh(env, st)
    requires !Mentions(Guard(h.test, env).value, st.tainted) && EvalExpr(h.test, s).Some?
    requires var g := Guard(h.test, env).value;
      var rb := WalkBlock(h.body, env, st, AndT(cond, g), cons, unres, false);
      if EvalExpr(h.test, s).value != 0 then Tracks(line, later, env, s, rb, ExecBlock(h.body, s, fuel))
      else Tracks(line, later, env, s, WalkElse(h.orelse, env, rb.st, AndT(cond, NotT(g)), cons, unres),
                  ExecElse(h.orelse, s, fuel))
    ensures Tracks(line, later, env, s, WalkIf(h, env, st, cond, cons, unres, kind), ExecIf(h, s, fuel, kind))
  {
    var r := WalkIf(h, env, st, cond, cons, unres, kind);
    var g := Guard(h.test, env).value;
    var yes, no := AndT(cond, g), AndT(cond, NotT(g));
    var rb := WalkBlock(h.body, env, st, yes, cons, unres, false);
    var re := WalkElse(h.orelse, env, rb.st, no, cons, unres);
    var visit := Visit(Label(h.line, kind), yes, cons, unres);
    assert r.log == [visit] + rb.log + re.log && visit in r.log;
    BlockBasics(h.body, env, st, yes, cons, unres, false, map[]);
    ElseBasics(h.orelse, env, rb.st, no, cons, unres, map[]);
    var first := EvalExpr(h.test, s).value != 0;
    var e := if first then ExecBlock(h.body, s, fuel) else ExecElse(h.orelse, s, fuel);
    if Noted(line, rb.log) { NotedIn(line, rb.log, r.log); }
    if Noted(line, re.log) { NotedIn(line, re.log, r.log); }
    if first {
      NamesSplit([visit.arm], e.trace, line);
      assert h.line == line ==> OnLine(visit, line);
    }
    if e.status.Fell? {
      if later { JoinTracks(g, env, st, rb, re, r.log, s, e.status.store, first); }
      assert r == Join(g, env, rb, re, r.log);
    }
  }

  lemma {:induction false} ElseTracked(orelse: Block, env: Env, st: WState, cond: Term, cons: nat, unres: nat,
                                       line: int, later: bool, s: Store, fuel: nat)
    requires !WalkElse(orelse, env, st, cond, cons, unres).out.Fails? && Fresh(env, st)
    requires ElseCareful(orelse, env, st, cond, cons, unres, line, later)
    ensures Tracks(line, later, env, s, WalkElse(orelse, env, st, cond, cons, unres), ExecElse(orelse, s, fuel))
    decreases fuel, orelse, 4
  {
    if IsElif(orelse) {
      IfTracked(orelse.head, env, st, cond, cons, unres, KElif, line, later, s, fuel);
    } else if orelse.Cons? {
      var visit := Visit(Label(orelse.head.line, KElse), cond, cons, unres);
      var rb := WalkBlock(orelse, env, st, cond, cons, unres, false);
      BlockTracked(orelse, env, st, cond, cons, unres, false, line, later, s, fuel);
      var log := [visit] + rb.log;
      assert visit in log && (visit.arm.line == line ==> OnLine(visit, line));
      if Noted(line, rb.log) { NotedIn(line, rb.log, log); }
      NamesSplit([visit.arm], ExecBlock(orelse, s, fuel).trace, line);
    }
  }

  // ---------------------------------------------------------------- loops

  // Exact variables that the body of an approximated loop does not rebind.
  predicate SteadyExact(env: Env, after: Env, tainted: set<string>, s: Store, s': Store) {
    forall x :: x in env && x in s && x !in Rebound(env, after) && !Mentions(env[x].term, tainted) ==>
                  x in s' && s'[x] == s[x]
  }

  lemma SteadyIsExact(env: Env, st: WState, after: Env, st': WState, s: Store, s': Store)
    requires Fresh(env, st) && st.nextId <= st'.nextId && SteadyExact(env, after, st'.tainted, s, s')
    ensures KeepsExact(env, TaintEnv(env, after, st'), TaintState(env, after, st').tainted, s, s')
  {
    var env', tainted' := TaintEnv(env, after, st'), TaintState(env, after, st').tainted;
    forall x | x in env && x in s && x in env' && env'[x].id == env[x].id && !Mentions(env[x].term, tainted')
      ensures x in s' && s'[x] == s[x]
    {
      assert !Mentions(env[x].term, st'.tainted);
    }
  }

  lemma SteadyOnce(env: Env, after: Env, tainted: set<string>, s: Store, s1: Store, s': Store)
    requires env.Keys <= after.Keys && KeepsExact(env, after, tainted, s, s1)
    requires SteadyExact(env, after, tainted, s1, s')
    ensures SteadyExact(env, after, tainted, s, s')
  {
  }

  lemma {:induction false} WhileTracked(h: Stmt, env: Env, st: WState, cond: Term, cons: nat, unres: nat, line: int,
                                        later: bool, s: Store, fuel: nat)
    requires h.While? && !WalkWhile(h, env, st, cond, cons, unres).out.Fails? && Fresh(env, st)
    requires WhileCareful(h, env, st, cond, cons, unres, line, later)
    ensures Tracks(line, later, env, s, WalkWhile(h, env, st, cond, cons, unres), ExecWhile(h, s, fuel))
    decreases fuel, h, 2
  {
    var r := WalkWhile(h, env, st, cond, cons, unres);
    var g := Guard(h.test, env).value;
    var run := ExecWhile(h, s, fuel);
    if Mentions(g, st.tainted) {
      StmtStays(h, s, fuel, StmtLines(h));
      StmtUntouched(h, s, fuel, StmtBinds(h));
      SkipTracked(h, env, st.tainted, line, later, s, run);
      var bad := Unsolved(Label(h.line, KWhile), true);
      assert bad in r.log && (h.line == line ==> OnLine(bad, line));
    } else {
      IterationsTracked(h, env, st, cond, cons, unres, line, later, s, fuel);
      var rb := WalkBlock(h.body, env, st, AndT(cond, g), cons + 1, unres, false);
      var visit := Visit(Label(h.line, KWhile), AndT(cond, g), cons, unres);
      BlockBasics(h.body, env, st, AndT(cond, g), cons + 1, unres, false, map[]);
      LoopTracked(h, visit, env, st, cond, g, rb, [visit] + rb.log + [Passed(h.line)], line, later, s, run);
    }
  }

  // From the iterations to the loop.
  lemma LoopTracked(h: Stmt, visit: Item, env: Env, st: WState, cond: Term, g: Term, rb: Res, log: seq<Item>, line: int,
                    later: bool, s: Store, run: Run)
    requires (h.While? || h.For?) && !rb.out.Fails? && Fresh(env, st) && st.nextId <= rb.st.nextId
    requires visit.Visit? && visit.arm.line == h.line && visit in log && forall it :: it in rb.log ==> it in log
    requires Names(run.trace, line) ==> h.line == line || Noted(line, rb.log)
    requires later && run.status.Fell? ==> SteadyExact(env, rb.out.env, rb.st.tainted, s, run.status.store)
    ensures Tracks(line, later, env, s, LeaveLoop(h.body, env, cond, g, rb, log), run)
  {
    assert h.line == line ==> OnLine(visit, line);
    if Noted(line, rb.log) { NotedIn(line, rb.log, log); }
    if later && run.status.Fell? { SteadyIsExact(env, st, rb.out.env, rb.st, s, run.status.store); }
  }

  // However many iterations run, from any store.
  lemma {:induction false} IterationsTracked(h: Stmt, env: Env, st: WState, cond: Term, cons: nat, unres: nat,
                                             line: int, later: bool, s: Store, fuel: nat)
    requires h.While? && Guard(h.test, env).Some? && Fresh(env, st)
    requires var enter := AndT(cond, Guard(h.test, env).value);
      && !WalkBlock(h.body, env, st, enter, cons + 1, unres, false).out.Fails?
      && BlockCareful(h.body, env, st, enter, cons + 1, unres, false, line, later)
    ensures var rb := WalkBlock(h.body, env, st, AndT(cond, Guard(h.test, env).value), cons + 1, unres, false);
      var run := ExecWhile(h, s, fuel);
      && (Names(run.trace, line) ==> h.line == line || Noted(line, rb.log))
      && (later && run.status.Fell? ==> SteadyExact(env, rb.out.env, rb.st.tainted, s, run.status.store))
    decreases fuel, h, 1
  {
    var enter := AndT(cond, Guard(h.test, env).value);
    var rb := WalkBlock(h.body, env, st, enter, cons + 1, unres, false);
    if EvalExpr(h.test, s).Some? && EvalExpr(h.test, s).value != 0 && fuel > 0 {
      BlockTracked(h.body, env, st, enter, cons + 1, unres, false, line, later, s, fuel);
      BlockBasics(h.body, env, st, enter, cons + 1, unres, false, map[]);
      var e := ExecBlock(h.body, s, fuel);
      var first := [Label(h.line, KWhile)];
      NamesSplit(first, e.trace, line);
      assert Names(first, line) ==> h.line == line;
      if e.status.Fell? {
        IterationsTracked(h, env, st, cond, cons, unres, line, later, e.status.store, fuel - 1);
        var rest := ExecWhile(h, e.status.store, fuel - 1);
        NamesSplit(first + e.trace, rest.trace, line);
        if later && rest.status.Fell? { SteadyOnce(env, rb.out.env, rb.st.tainted, s, e.status.store,
                                                   rest.status.store); }
      }
    }
  }

  lemma {:induction false} ForTracked(h: Stmt, env: Env, st: WState, cond: Term, cons: nat, unres: nat, line: int,
                                      later: bool, s: Store, fuel: nat)
    requires h.For? && !WalkFor(h, env, st, cond, cons, unres).out.Fails? && Fresh(env, st)
    requires ForCareful(h, env, st, cond, cons, unres, line, later)
    ensures Tracks(line, later, env, s, WalkFor(h, env, st, cond, cons, unres), ExecStmt(h, s, fuel))
    decreases fuel, h, 2
  {
    var vals := RangeValues(h.start, h.stop, h.step);
    if AboveCap(h) {
      AboveCapTracked(h, env, st, cond, cons, unres, line, later, s, fuel);
    } else {
      assert WalkFor(h, env, st, cond, cons, unres) == WalkUnrolled(h, vals, env, st, cond, cons, unres);
      if vals != [] {
        CopiesTracked(h.body, h.target, vals, env, st, cond, cons, unres, false, line, later || line in Lines(h.body),
                      s, fuel);
        UnrolledTracked(h, env, st, cond, cons, unres, line, later, s, fuel);
      }
    }
  }

  lemma UnrolledTracked(h: Stmt, env: Env, st: WState, cond: Term, cons: nat, unres: nat, line: int, later: bool,
                        s: Store, fuel: nat)
    requires h.For? && h.step != 0 && RangeValues(h.start, h.stop, h.step) != []
    requires var vals := RangeValues(h.start, h.stop, h.step);
      Tracks(line, later || line in Lines(h.body), env, s,
             WalkCopies(h.body, h.target, vals, env, st, cond, cons, unres, false, false),
             ExecCopies(h.body, h.target, vals, s, fuel))
    ensures Tracks(line, later, env, s,
                   WalkUnrolled(h, RangeValues(h.start, h.stop, h.step), env, st, cond, cons, unres),
                   ExecStmt(h, s, fuel))
  {
    var vals := RangeValues(h.start, h.stop, h.step);
    var r := WalkUnrolled(h, vals, env, st, cond, cons, unres);
    var rc := WalkCopies(h.body, h.target, vals, env, st, cond, cons, unres, false, false);
    var visit := Visit(Label(h.line, KFor), AndT(cond, BoolVal(vals != [])), cons, unres);
    assert r.log == [visit, Push] + rc.log + [Pop] && visit in r.log;
    assert h.line == line ==> OnLine(visit, line);
    if Noted(line, rc.log) { NotedIn(line, rc.log, r.log); }
    NamesSplit([visit.arm], ExecCopies(h.body, h.target, vals, s, fuel).trace, line);
  }

  lemma {:induction false} CopiesTracked(body: Block, x: string, vals: seq<int>, env: Env, st: WState, cond: Term,
                                         cons: nat, unres: nat, u: bool, line: int, later: bool, s: Store, fuel: nat)
    requires !WalkCopies(body, x, vals, env, st, cond, cons, unres, u, false).out.Fails? && Fresh(env, st)
    requires CopiesCareful(body, x, vals, env, st, cond, cons, unres, u, line, later)
    ensures Tracks(line, later, env, s, WalkCopies(body, x, vals, env, st, cond, cons, unres, u, false),
                   ExecCopies(body, x, vals, s, fuel))
    decreases fuel, body, 1, |vals|
  {
    if vals != [] {
      var env1, st1 := env[x := Entry(IntVal(vals[0]), st.nextId)], st.(nextId := st.nextId + 1);
      var s1 := s[x := vals[0]];
      var r := WalkBlock(body, env1, st1, cond, cons, Bump(unres, u), false);
      var e := ExecBlock(body, s1, fuel);
      BlockTracked(body, env1, st1, cond, cons, Bump(unres, u), false, line, later, s1, fuel);
      BlockBasics(body, env1, st1, cond, cons, Bump(unres, u), false, map[]);
      assert Tracks(line, later, env, s, r, e);
      if r.out.Falls? && e.status.Fell? {
        CopiesTracked(body, x, vals[1..], r.out.env, r.st, r.out.cont, cons, unres, u || r.out.taint, line, later,
                      e.status.store, fuel);
      }
      CopyThenTracked(body, x, vals, env, st, cond, cons, unres, u, line, later, s, fuel);
    }
  }

  lemma CopyThenTracked(body: Block, x: string, vals: seq<int>, env: Env, st: WState, cond: Term, cons: nat, unres: nat,
                        u: bool, line: int, later: bool, s: Store, fuel: nat)
    requires vals != [] && Fresh(env, st)
    requires var r := WalkBlock(body, env[x := Entry(IntVal(vals[0]), st.nextId)], st.(nextId := st.nextId + 1), cond,
                                cons,
                                Bump(unres, u), false);
      var e := ExecBlock(body, s[x := vals[0]], fuel);
      && !r.out.Fails? && Grown(env, st, r) && Tracks(line, later, env, s, r, e)
      && (e.status.Fell? ==>
            Tracks(line, later, r.out.env, e.status.store,
                   WalkCopies(body, x, vals[1..], r.out.env, r.st, r.out.cont, cons, unres, u || r.out.taint, false),
                   ExecCopies(body, x, vals[1..], e.status.store, fuel)))
    ensures Tracks(line, later, env, s, WalkCopies(body, x, vals, env, st, cond, cons, unres, u, false),
                   ExecCopies(body, x, vals, s, fuel))
  {
    var r := WalkBlock(body, env[x := Entry(IntVal(vals[0]), st.nextId)], st.(nextId := st.nextId + 1), cond, cons,
                       Bump(unres, u), false);
    var e := ExecBlock(body, s[x := vals[0]], fuel);
    var all := WalkCopies(body, x, vals, env, st, cond, cons, unres, u, false);
    if e.status.Fell? {
      var rest := WalkCopies(body, x, vals[1..], r.out.env, r.st, r.out.cont, cons, unres, u || r.out.taint, false);
      CopiesBasics(body, x, vals[1..], r.out.env, r.st, r.out.cont, cons, unres, u || r.out.taint, false, map[]);
      assert all == Prepend(r.log, rest);
      TracksSeq(line, later, later, env, st, s, r, e, rest, ExecCopies(body, x, vals[1..], e.status.store, fuel));
    } else {
      assert forall it :: it in r.log ==> it in all.log;
      if Noted(line, r.log) { NotedIn(line, r.log, all.log); }
      assert ExecCopies(body, x, vals, s, fuel) == e;
    }
  }

  lemma {:induction false} AboveCapTracked(h: Stmt, env: Env, st: WState, cond: Term, cons: nat, unres: nat, line: int,
                                           later: bool, s: Store, fuel: nat)
    requires h.For? && h.step != 0 && AboveCap(h) && !WalkFor(h, env, st, cond, cons, unres).out.Fails?
    requires Fresh(env, st)
    requires ForCareful(h, env, st, cond, cons, unres, line, later)
    ensures Tracks(line, later, env, s, WalkFor(h, env, st, cond, cons, unres), ExecStmt(h, s, fuel))
    decreases fuel, h, 1
  {
    var vals := RangeValues(h.start, h.stop, h.step);
    var enter := AndT(cond, BoolVal(Entered(h)));
    var inside := SomeIteration(h, enter);
    var env1, st1 := env[h.target := Entry(LoopIndex(h), st.nextId)], st.(nextId := st.nextId + 1);
    var rb := WalkBlock(h.body, env1, st1, inside, cons + 1, unres, false);
    var visit := Visit(Label(h.line, KFor), enter, cons, unres);
    assert WalkFor(h, env, st, cond, cons, unres) == WalkForAboveCap(h, env, st, cond, cons, unres)
        == LeaveLoop(h.body, env, cond, BoolVal(Entered(h)), rb, [visit] + rb.log);
    BlockBasics(h.body, env1, st1, inside, cons + 1, unres, false, map[]);
    RepeatsTracked(h, vals, env, st, inside, cons, unres, line, later, s, fuel);
    var copies := ExecCopies(h.body, h.target, vals, s, fuel);
    NamesSplit([visit.arm], copies.trace, line);
    assert Names([visit.arm], line) ==> h.line == line;
    LoopTracked(h, visit, env, st, cond, BoolVal(Entered(h)), rb, [visit] + rb.log, line, later, s,
                ExecStmt(h, s, fuel));
  }

  lemma {:induction false} RepeatsTracked(h: Stmt, vals: seq<int>, env: Env, st: WState, inside: Term, cons: nat,
                                          unres: nat, line: int, later: bool, s: Store, fuel: nat)
    requires h.For? && Fresh(env, st)
    requires var env1, st1 := env[h.target := Entry(LoopIndex(h), st.nextId)], st.(nextId := st.nextId + 1);
      && !WalkBlock(h.body, env1, st1, inside, cons + 1, unres, false).out.Fails?
      && BlockCareful(h.body, env1, st1, inside, cons + 1, unres, false, line, later)
    ensures var rb := WalkBlock(h.body, env[h.target := Entry(LoopIndex(h), st.nextId)], st.(nextId := st.nextId + 1),
                                inside, cons + 1, unres, false);
      var run := ExecCopies(h.body, h.target, vals, s, fuel);
      && (Names(run.trace, line) ==> Noted(line, rb.log))
      && (later && run.status.Fell? ==> SteadyExact(env, rb.out.env, rb.st.tainted, s, run.status.store))
    decreases fuel, h.body, 1, |vals|
  {
    if vals != [] {
      var env1, st1 := env[h.target := Entry(LoopIndex(h), st.nextId)], st.(nextId := st.nextId + 1);
      var rb := WalkBlock(h.body, env1, st1, inside, cons + 1, unres, false);
      var s1 := s[h.target := vals[0]];
      BlockTracked(h.body, env1, st1, inside, cons + 1, unres, false, line, later, s1, fuel);
      BlockBasics(h.body, env1, st1, inside, cons + 1, unres, false, map[]);
      var e := ExecBlock(h.body, s1, fuel);
      if e.status.Fell? {
        RepeatsTracked(h, vals[1..], env, st, inside, cons, unres, line, later, e.status.store, fuel);
        var rest := ExecCopies(h.body, h.target, vals[1..], e.status.store, fuel);
        NamesSplit(e.trace, rest.trace, line);
        if later && rest.status.Fell? {
          TargetIsRebound(h.target, env, st, rb.out.env, rb.st);
          SteadyOnce(env, rb.out.env, rb.st.tainted, s, e.status.store, rest.status.store);
        }
      }
    }
  }

  // The loop's target, if bound before, is bound anew.
  lemma TargetIsRebound(x: string, env: Env, st: WState, after: Env, st': WState)
    requires Fresh(env, st) && x in after && st.nextId <= after[x].id
    ensures x in env ==> after[x].id != env[x].id
  {
  }
}
