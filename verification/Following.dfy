/**
  No false `dead`. A run on an input that reaches a carefully walked block is followed by the walk:
  if it enters an arm on the line, then the line has a report that the input satisfies, or one that
  does not conclude `dead`; and while the line is still to come, condition and environment describe
  every run that falls through.
 */
module Following {
  import opened PySubset
  import opened Interp
  import opened Terms
  import opened Walk
  import opened WalkBasics
  import opened Agreement
  import opened AnyStore
  import opened Joins
  import opened Scope
  import opened Reach
  import opened Careful
  import opened Tracking

  // A report that speaks against `dead` for the input.
  predicate Suspect(it: Item, line: int, m: Model) {
    OnLine(it, line) && (it.Unsolved? || Holds(it.cond, m) || it.cons > 0)
  }

  predicate Flagged(line: int, log: seq<Item>, m: Model) {
    exists it :: it in log && Suspect(it, line, m)
  }

  // The walk over-approximates the run: it goes on wherever the run does, and describes its store.
  predicate Overs(r: Res, run: Run, m: Model) {
    run.status.Fell? ==> r.out.Falls? && Holds(r.out.cont, m) && Agrees(r.out.env, r.st.tainted, run.status.store, m)
  }

  predicate Follows(line: int, later: bool, r: Res, run: Run, m: Model) {
    && (Names(run.trace, line) ==> Flagged(line, r.log, m))
    && (later ==> Overs(r, run, m))
  }

  lemma FlaggedIn(line: int, log: seq<Item>, log': seq<Item>, m: Model)
    requires Flagged(line, log, m) && forall it :: it in log ==> it in log'
    ensures Flagged(line, log', m)
  {
    var it :| it in log && Suspect(it, line, m);
    assert it in log';
  }

  lemma FlaggedBy(it: Item, line: int, log: seq<Item>, m: Model)
    requires it in log && Suspect(it, line, m)
    ensures Flagged(line, log, m)
  {
  }

  // Inside an approximated loop every report speaks against `dead`.
  lemma DeepIsFlagged(line: int, log: seq<Item>, cond: Term, cons: nat, unres: nat, m: Model)
    requires LogUnder(log, cond, cons, unres, m) && cons > 0 && Noted(line, log)
    ensures Flagged(line, log, m)
  {
    var it :| it in log && OnLine(it, line);
    assert ItemUnder(it, cond, cons, unres, m);
    FlaggedBy(it, line, log, m);
  }

  lemma FollowsSeq(line: int, later: bool, log1: seq<Item>, run1: Run, r2: Res, run2: Run, m: Model)
    requires Names(run1.trace, line) ==> Flagged(line, log1, m)
    requires run1.status.Fell? && Follows(line, later, r2, run2, m)
    ensures Follows(line, later, Prepend(log1, r2), After(run1.trace, run2), m)
  {
    NamesSplit(run1.trace, run2.trace, line);
    if Flagged(line, log1, m) { FlaggedIn(line, log1, log1 + r2.log, m); }
    if Flagged(line, r2.log, m) { FlaggedIn(line, r2.log, log1 + r2.log, m); }
  }

  lemma {:induction false} BlockFollows(b: Block, env: Env, st: WState, cond: Term, cons: nat, unres: nat, u: bool,
                                        line: int, later: bool, s: Store, fuel: nat, m: Model)
    requires !WalkBlock(b, env, st, cond, cons, unres, u).out.Fails? && Fresh(env, st)
    requires BlockCareful(b, env, st, cond, cons, unres, u, line, later) && Agrees(env, st.tainted, s, m)
    requires Holds(cond, m)
    ensures Follows(line, later, WalkBlock(b, env, st, cond, cons, unres, u), ExecBlock(b, s, fuel), m)
    decreases b, 0
  {
    match b
    case Nil =>
    case Cons(h, t) =>
      if Compound(h) {
        CompoundThenFollows(h, t, env, st, cond, cons, unres, u, line, later, s, fuel, m);
      } else if h.Assign? {
        AssignAny(h, t, env, st, cond, cons, unres, u, s, fuel, m);
        var env1, st1 := env[h.x := Entry(Translate(h.e, env).value, st.nextId)], st.(nextId := st.nextId + 1);
        BlockFollows(t, env1, st1, cond, cons, unres, u, line, later, s[h.x := EvalExpr(h.e, s).value], fuel, m);
      } else if h.Return? {
        assert ExecBlock(b, s, fuel) == Run([], Returned);
      } else {
        BlockFollows(t, env, st, cond, cons, unres, u, line, later, s, fuel, m);
        StepOverFollows(h, t, env, st, cond, cons, unres, u, line, later, s, fuel, m);
      }
  }

  // An assignment keeps environment and store in agreement, whatever was left unresolved before it.
  lemma AssignAny(h: Stmt, t: Block, env: Env, st: WState, cond: Term, cons: nat, unres: nat, u: bool, s: Store,
                  fuel: nat, m: Model)
    requires h.Assign? && Translate(h.e, env).Some? && Fresh(env, st) && Agrees(env, st.tainted, s, m)
    ensures EvalExpr(h.e, s).Some?
    ensures var env1, st1 := env[h.x := Entry(Translate(h.e, env).value, st.nextId)], st.(nextId := st.nextId + 1);
      var s1 := s[h.x := EvalExpr(h.e, s).value];
      && Fresh(env1, st1) && Agrees(env1, st1.tainted, s1, m)
      && WalkBlock(Cons(h, t), env, st, cond, cons, unres, u) == WalkBlock(t, env1, st1, cond, cons, unres, u)
      && ExecBlock(Cons(h, t), s, fuel) == ExecBlock(t, s1, fuel)
  {
    AssignStep(h, t, env, st, cond, cons, unres, s, fuel, m);
  }

  lemma StepOverFollows(h: Stmt, t: Block, env: Env, st: WState, cond: Term, cons: nat, unres: nat, u: bool, line: int,
                        later: bool, s: Store, fuel: nat, m: Model)
    requires h.Pass? || h.ExprStmt?
    requires Follows(line, later, WalkBlock(t, env, st, cond, cons, unres, u), ExecBlock(t, s, fuel), m)
    ensures Follows(line, later, WalkBlock(Cons(h, t), env, st, cond, cons, unres, u),
                    ExecBlock(Cons(h, t), s, fuel), m)
  {
    var r, run := WalkBlock(t, env, st, cond, cons, unres, u), ExecBlock(t, s, fuel);
    assert After([], run) == run;
    if h.Pass? {
      assert WalkBlock(Cons(h, t), env, st, cond, cons, unres, u) == r && ExecBlock(Cons(h, t), s, fuel) == run;
    } else {
      var log := [Passed(h.line)] + r.log;
      assert WalkBlock(Cons(h, t), env, st, cond, cons, unres, u) == Res(r.out, r.st, log);
      if Flagged(line, r.log, m) { FlaggedIn(line, r.log, log, m); }
      var e := ExecStmt(h, s, fuel);
      assert ExecBlock(Cons(h, t), s, fuel) == if e.status.Fell? then run else Run([], Stuck(h.line));
    }
  }

  // A statement that is passed over leaves the environment as it was. That is right of every run
  // through it, while the line is still to come.
  lemma SkipFollows(h: Stmt, env: Env, tainted: set<string>, line: int, later: bool, s: Store, run: Run, bad: Item,
                    log: seq<Item>, m: Model)
    requires Compound(h) && Skippable(h, env, tainted, line, later) && Agrees(env, tainted, s, m)
    requires Stays(run, StmtLines(h)) && Untouched(StmtBinds(h), s, run)
    requires bad.Unsolved? && bad.arm.line == h.line && bad in log
    ensures Names(run.trace, line) ==> Flagged(line, log, m)
    ensures later && run.status.Fell? ==> Agrees(env, tainted, run.status.store, m)
  {
    if Names(run.trace, line) { FlaggedBy(bad, line, log, m); }
  }

  lemma {:induction false} CompoundThenFollows(h: Stmt, t: Block, env: Env, st: WState, cond: Term, cons: nat,
                                               unres: nat, u: bool, line: int, later: bool, s: Store, fuel: nat,
                                               m: Model)
    requires Compound(h) && !WalkBlock(Cons(h, t), env, st, cond, cons, unres, u).out.Fails? && Fresh(env, st)
    requires BlockCareful(Cons(h, t), env, st, cond, cons, unres, u, line, later) && Agrees(env, st.tainted, s, m)
    requires Holds(cond, m)
    ensures Follows(line, later, WalkBlock(Cons(h, t), env, st, cond, cons, unres, u),
                    ExecBlock(Cons(h, t), s, fuel), m)
    decreases Cons(h, t), 0, 0
  {
    if WalkCompound(h, env, st, cond, cons, Bump(unres, u)).out.Fails? {
      SkippedFollows(h, t, env, st, cond, cons, unres, u, line, later, s, fuel, m);
    } else {
      WalkedFollows(h, t, env, st, cond, cons, unres, u, line, later, s, fuel, m);
    }
  }

  lemma {:induction false} SkippedFollows(h: Stmt, t: Block, env: Env, st: WState, cond: Term, cons: nat, unres: nat,
                                          u: bool, line: int, later: bool, s: Store, fuel: nat, m: Model)
    requires Compound(h) && WalkCompound(h, env, st, cond, cons, Bump(unres, u)).out.Fails? && Fresh(env, st)
    requires !WalkBlock(Cons(h, t), env, st, cond, cons, unres, u).out.Fails?
    requires BlockCareful(Cons(h, t), env, st, cond, cons, unres, u, line, later) && Agrees(env, st.tainted, s, m)
    requires Holds(cond, m)
    ensures Follows(line, later, WalkBlock(Cons(h, t), env, st, cond, cons, unres, u),
                    ExecBlock(Cons(h, t), s, fuel), m)
    decreases Cons(h, t), 0, 0, 0
  {
    var r := WalkCompound(h, env, st, cond, cons, Bump(unres, u));
    var e := ExecStmt(h, s, fuel);
    var later' := later || line in Lines(t);
    CompoundBasics(h, env, st, cond, cons, Bump(unres, u), m);
    AgreesGrow(env, st.tainted, r.st.tainted, s, m);
    var bad := Unsolved(Label(h.line, KindOf(h)), false);
    StmtStays(h, s, fuel, StmtLines(h));
    StmtUntouched(h, s, fuel, StmtBinds(h));
    SkipFollows(h, env, r.st.tainted, line, later', s, e, bad, r.log + [bad], m);
    if later' && e.status.Fell? {
      BlockFollows(t, env, r.st, cond, cons, unres, true, line, later, e.status.store, fuel, m);
    }
    SkippedThenFollows(h, t, env, st, cond, cons, unres, u, line, later, s, fuel, m);
  }

  lemma {:induction false} WalkedFollows(h: Stmt, t: Block, env: Env, st: WState, cond: Term, cons: nat, unres: nat,
                                         u: bool, line: int, later: bool, s: Store, fuel: nat, m: Model)
    requires Compound(h) && !WalkCompound(h, env, st, cond, cons, Bump(unres, u)).out.Fails? && Fresh(env, st)
    requires !WalkBlock(Cons(h, t), env, st, cond, cons, unres, u).out.Fails?
    requires BlockCareful(Cons(h, t), env, st, cond, cons, unres, u, line, later) && Agrees(env, st.tainted, s, m)
    requires Holds(cond, m)
    ensures Follows(line, later, WalkBlock(Cons(h, t), env, st, cond, cons, unres, u),
                    ExecBlock(Cons(h, t), s, fuel), m)
    decreases Cons(h, t), 0, 0, 0
  {
    var r := WalkCompound(h, env, st, cond, cons, Bump(unres, u));
    var e := ExecStmt(h, s, fuel);
    var later' := later || line in Lines(t);
    CompoundBasics(h, env, st, cond, cons, Bump(unres, u), m);
    CompoundFollows(h, env, st, cond, cons, Bump(unres, u), line, later', s, fuel, m);
    if r.out.Falls? {
      if later' && e.status.Fell? {
        BlockFollows(t, r.out.env, r.st, r.out.cont, cons, unres, u || r.out.taint, line,
                     later, e.status.store, fuel, m);
      }
      FallsThenFollows(h, t, env, st, cond, cons, unres, u, line, later, s, fuel, m);
    } else {
      ClosedCompound(h, env, st, cond, cons, Bump(unres, u), s, fuel);
    }
  }

  // After `log`, the rest of the block matters only to a run that gets there, and only if the line does.
  lemma ThenFollows(log: seq<Item>, t: Block, rest: Res, s: Store, e: Run, fuel: nat, line: int, later: bool, m: Model)
    requires Names(e.trace, line) ==> Flagged(line, log, m)
    requires (later || line in Lines(t)) && e.status.Fell?
      ==> Follows(line, later, rest, ExecBlock(t, e.status.store, fuel), m)
    ensures Follows(line, later, Prepend(log, rest),
                    if e.status.Fell? then After(e.trace, ExecBlock(t, e.status.store, fuel)) else e, m)
  {
    var all := log + rest.log;
    if e.status.Fell? {
      var e' := ExecBlock(t, e.status.store, fuel);
      if later || line in Lines(t) {
        FollowsSeq(line, later, log, e, rest, e', m);
      } else {
        BlockStays(t, e.status.store, fuel, Lines(t));
        NotNamed(e', Lines(t), line);
        NamesSplit(e.trace, e'.trace, line);
        if Flagged(line, log, m) { FlaggedIn(line, log, all, m); }
      }
    } else if Flagged(line, log, m) {
      FlaggedIn(line, log, all, m);
    }
  }

  lemma SkippedThenFollows(h: Stmt, t: Block, env: Env, st: WState, cond: Term, cons: nat, unres: nat, u: bool,
                           line: int, later: bool, s: Store, fuel: nat, m: Model)
    requires Compound(h) && WalkCompound(h, env, st, cond, cons, Bump(unres, u)).out.Fails?
    requires var r := WalkCompound(h, env, st, cond, cons, Bump(unres, u));
      var e := ExecStmt(h, s, fuel);
      && (Names(e.trace, line) ==> Flagged(line, r.log + [Unsolved(Label(h.line, KindOf(h)), false)], m))
      && ((later || line in Lines(t)) && e.status.Fell? ==>
            Follows(line, later, WalkBlock(t, env, r.st, cond, cons, unres, true),
                    ExecBlock(t, e.status.store, fuel), m))
    ensures Follows(line, later, WalkBlock(Cons(h, t), env, st, cond, cons, unres, u),
                    ExecBlock(Cons(h, t), s, fuel), m)
  {
    var r := WalkCompound(h, env, st, cond, cons, Bump(unres, u));
    var log := r.log + [Unsolved(Label(h.line, KindOf(h)), false)];
    ThenFollows(log, t, WalkBlock(t, env, r.st, cond, cons, unres, true), s,
                ExecStmt(h, s, fuel), fuel, line, later, m);
  }

  lemma FallsThenFollows(h: Stmt, t: Block, env: Env, st: WState, cond: Term, cons: nat, unres: nat, u: bool, line: int,
                         later: bool, s: Store, fuel: nat, m: Model)
    requires Compound(h) && WalkCompound(h, env, st, cond, cons, Bump(unres, u)).out.Falls?
    requires var r := WalkCompound(h, env, st, cond, cons, Bump(unres, u));
      var e := ExecStmt(h, s, fuel);
      && (Names(e.trace, line) ==> Flagged(line, r.log, m))
      && ((later || line in Lines(t)) && e.status.Fell? ==>
            Follows(line, later, WalkBlock(t, r.out.env, r.st, r.out.cont, cons, unres, u || r.out.taint),
                    ExecBlock(t, e.status.store, fuel), m))
    ensures Follows(line, later, WalkBlock(Cons(h, t), env, st, cond, cons, unres, u),
                    ExecBlock(Cons(h, t), s, fuel), m)
  {
    var r := WalkCompound(h, env, st, cond, cons, Bump(unres, u));
    var rest := WalkBlock(t, r.out.env, r.st, r.out.cont, cons, unres, u || r.out.taint);
    var e := ExecStmt(h, s, fuel);
    assert WalkBlock(Cons(h, t), env, st, cond, cons, unres, u) == Prepend(r.log, rest);
    assert ExecBlock(Cons(h, t), s, fuel)
        == if e.status.Fell? then After(e.trace, ExecBlock(t, e.status.store, fuel)) else e;
    ThenFollows(r.log, t, rest, s, e, fuel, line, later, m);
  }

  lemma {:induction false} CompoundFollows(h: Stmt, env: Env, st: WState, cond: Term, cons: nat, unres: nat, line: int,
                                           later: bool, s: Store, fuel: nat, m: Model)
    requires Compound(h) && !WalkCompound(h, env, st, cond, cons, unres).out.Fails? && Fresh(env, st)
    requires StmtCareful(h, env, st, cond, cons, unres, line, later) && Agrees(env, st.tainted, s, m) && Holds(cond, m)
    ensures Follows(line, later, WalkCompound(h, env, st, cond, cons, unres), ExecStmt(h, s, fuel), m)
    decreases h, 2
  {
    match h
    case If(_, _, _, _) => IfFollows(h, env, st, cond, cons, unres, KIf, line, later, s, fuel, m);
    case While(_, _, _) => WhileFollows(h, env, st, cond, cons, unres, line, later, s, fuel, m);
    case For(_, _, _, _, _, _) => ForFollows(h, env, st, cond, cons, unres, line, later, s, fuel, m);
  }

  // ---------------------------------------------------------------- if

  lemma {:induction false} IfFollows(h: Stmt, env: Env, st: WState, cond: Term, cons: nat, unres: nat, kind: Kind,
                                     line: int, later: bool, s: Store, fuel: nat, m: Model)
    requires h.If? && !WalkIf(h, env, st, cond, cons, unres, kind).out.Fails? && Fresh(env, st)
    requires IfCareful(h, env, st, cond, cons, unres, line, later) && Agrees(env, st.tainted, s, m) && Holds(cond, m)
    ensures Follows(line, later, WalkIf(h, env, st, cond, cons, unres, kind), ExecIf(h, s, fuel, kind), m)
    decreases h, 1
  {
    var g := Guard(h.test, env).value;
    var run := ExecIf(h, s, fuel, kind);
    if Mentions(g, st.tainted) {
      IfStays(h, s, fuel, kind, StmtLines(h));
      IfUntouched(h, s, fuel, kind, StmtBinds(h));
      var bad := Unsolved(Label(h.line, kind), true);
      SkipFollows(h, env, st.tainted, line, later, s, run, bad, [bad], m);
    } else {
      var yes, no := AndT(cond, g), AndT(cond, NotT(g));
      assert Holds(no, m) == !Holds(g, m) by { assert Holds(NotT(g), m) == !Holds(g, m); }
      var rb := WalkBlock(h.body, env, st, yes, cons, unres, false);
      BlockBasics(h.body, env, st, yes, cons, unres, false, m);
      if Holds(g, m) {
        BlockFollows(h.body, env, st, yes, cons, unres, false, line, later, s, fuel, m);
      } else {
        AgreesGrow(env, st.tainted, rb.st.tainted, s, m);
        ElseFollows(h.orelse, env, rb.st, no, cons, unres, line, later, s, fuel, m);
      }
      ArmsFollow(h, env, st, cond, cons, unres, kind, line, later, s, fuel, m);
    }
  }

  lemma ArmsFollow(h: Stmt, env: Env, st: WState, cond: Term, cons: nat, unres: nat, kind: Kind, line: int, later: bool,
                   s: Store, fuel: nat, m: Model)
    requires h.If? && !WalkIf(h, env, st, cond, cons, unres, kind).out.Fails? && Fresh(env, st)
    requires !Mentions(Guard(h.test, env).value, st.tainted) && Agrees(env, st.tainted, s, m) && Holds(cond, m)
    requires var g := Guard(h.test, env).value;
      var rb := WalkBlock(h.body, env, st, AndT(cond, g), cons, unres, false);
      if Holds(g, m) then Follows(line, later, rb, ExecBlock(h.body, s, fuel), m)
      else Follows(line, later, WalkElse(h.orelse, env, rb.st, AndT(cond, NotT(g)), cons, unres),
                   ExecElse(h.orelse, s, fuel), m)
    ensures Follows(line, later, WalkIf(h, env, st, cond, cons, unres, kind), ExecIf(h, s, fuel, kind), m)
  {
    var r := WalkIf(h, env, st, cond, cons, unres, kind);
    var g := Guard(h.test, env).value;
    TranslateIsSound(h.test, env, st.tainted, s, m);
    var yes, no := AndT(cond, g), AndT(cond, NotT(g));
    var rb := WalkBlock(h.body, env, st, yes, cons, unres, false);
    var re := WalkElse(h.orelse, env, rb.st, no, cons, unres);
    var visit := Visit(Label(h.line, kind), yes, cons, unres);
    assert r == Join(g, env, rb, re, [visit] + rb.log + re.log) && r.log == [visit] + rb.log + re.log && visit in r.log;
    var e := if Holds(g, m) then ExecBlock(h.body, s, fuel) else ExecElse(h.orelse, s, fuel);
    if Flagged(line, rb.log, m) { FlaggedIn(line, rb.log, r.log, m); }
    if Flagged(line, re.log, m) { FlaggedIn(line, re.log, r.log, m); }
    if Holds(g, m) {
      NamesSplit([visit.arm], e.trace, line);
      if h.line == line { FlaggedBy(visit, line, r.log, m); }
      assert ExecIf(h, s, fuel, kind) == After([visit.arm], e);
    } else {
      assert ExecIf(h, s, fuel, kind) == e;
    }
    if later {
      BlockBasics(h.body, env, st, yes, cons, unres, false, m);
      ElseBasics(h.orelse, env, rb.st, no, cons, unres, m);
      JoinOvers(g, env, st, rb, re, r.log, e, m);
    }
  }

  lemma JoinOvers(g: Term, env: Env, st: WState, rb: Res, re: Res, log: seq<Item>, run: Run, m: Model)
    requires Fresh(env, st) && !rb.out.Fails? && Grown(env, st, rb) && Grown(env, rb.st, re)
    requires !Join(g, env, rb, re, log).out.Fails?
    requires if Holds(g, m) then Overs(rb, run, m) else Overs(re, run, m)
    ensures Overs(Join(g, env, rb, re, log), run, m)
  {
    if run.status.Fell? {
      var s' := run.status.store;
      if Holds(g, m) { AgreesGrow(rb.out.env, rb.st.tainted, re.st.tainted, s', m); }
      if rb.out.Falls? && re.out.Falls? { MergeAgrees(g, env, st, rb, re, s', m); }
    }
  }

  lemma {:induction false} ElseFollows(orelse: Block, env: Env, st: WState, cond: Term, cons: nat, unres: nat,
                                       line: int, later: bool, s: Store, fuel: nat, m: Model)
    requires !WalkElse(orelse, env, st, cond, cons, unres).out.Fails? && Fresh(env, st)
    requires ElseCareful(orelse, env, st, cond, cons, unres, line, later) && Agrees(env, st.tainted, s, m)
    requires Holds(cond, m)
    ensures Follows(line, later, WalkElse(orelse, env, st, cond, cons, unres), ExecElse(orelse, s, fuel), m)
    decreases orelse, 3
  {
    if IsElif(orelse) {
      IfFollows(orelse.head, env, st, cond, cons, unres, KElif, line, later, s, fuel, m);
    } else if orelse.Cons? {
      var visit := Visit(Label(orelse.head.line, KElse), cond, cons, unres);
      var rb := WalkBlock(orelse, env, st, cond, cons, unres, false);
      BlockFollows(orelse, env, st, cond, cons, unres, false, line, later, s, fuel, m);
      var log := [visit] + rb.log;
      if visit.arm.line == line { FlaggedBy(visit, line, log, m); }
      if Flagged(line, rb.log, m) { FlaggedIn(line, rb.log, log, m); }
      NamesSplit([visit.arm], ExecBlock(orelse, s, fuel).trace, line);
    }
  }

  // ---------------------------------------------------------------- loops

  // After an approximated loop, a variable is either tainted or exactly what it was before.
  lemma TaintAgreesExact(env: Env, st: WState, after: Env, st': WState, s: Store, s': Store, m: Model)
    requires Agrees(env, st.tainted, s, m) && st.tainted <= st'.tainted && SteadyExact(env, after, st'.tainted, s, s')
    requires forall x :: x in s ==> x in s'
    ensures Agrees(TaintEnv(env, after, st'), TaintState(env, after, st').tainted, s', m)
  {
    var env', tainted' := TaintEnv(env, after, st'), TaintState(env, after, st').tainted;
    forall x | x in env'
      ensures x in s' && (Mentions(env'[x].term, tainted') || s'[x] == Eval(env'[x].term, m))
    {
      if x in Rebound(env, after) {
        var sym := Sym(TaintName(st'.taints, x), SortOf(after[x].term));
        assert sym in Syms(env'[x].term) && sym.name in tainted';
      } else {
        assert env'[x] == env[x] && x in s;
        if Mentions(env[x].term, st'.tainted) {
          MentionsGrow(env[x].term, st'.tainted, tainted');
        } else {
          assert !Mentions(env[x].term, st.tainted);
        }
      }
    }
  }

  // Arms in the body of an approximated loop, and the loop's own.
  lemma LoopFlags(h: Stmt, visit: Item, body: seq<Item>, log: seq<Item>, cond: Term, cons: nat, unres: nat, line: int,
                  m: Model)
    requires visit.Visit? && visit.arm.line == h.line && Holds(visit.cond, m) && visit in log
    requires LogUnder(body, cond, cons, unres, m) && cons > 0 && forall it :: it in body ==> it in log
    requires h.line == line || Noted(line, body)
    ensures Flagged(line, log, m)
  {
    if h.line == line {
      FlaggedBy(visit, line, log, m);
    } else {
      DeepIsFlagged(line, body, cond, cons, unres, m);
      FlaggedIn(line, body, log, m);
    }
  }

  lemma {:induction false} WhileFollows(h: Stmt, env: Env, st: WState, cond: Term, cons: nat, unres: nat, line: int,
                                        later: bool, s: Store, fuel: nat, m: Model)
    requires h.While? && !WalkWhile(h, env, st, cond, cons, unres).out.Fails? && Fresh(env, st)
    requires WhileCareful(h, env, st, cond, cons, unres, line, later) && Agrees(env, st.tainted, s, m) && Holds(cond, m)
    ensures Follows(line, later, WalkWhile(h, env, st, cond, cons, unres), ExecWhile(h, s, fuel), m)
    decreases h, 1
  {
    var g := Guard(h.test, env).value;
    var run := ExecWhile(h, s, fuel);
    StmtUntouched(h, s, fuel, StmtBinds(h));
    if Mentions(g, st.tainted) {
      StmtStays(h, s, fuel, StmtLines(h));
      var bad := Unsolved(Label(h.line, KWhile), true);
      SkipFollows(h, env, st.tainted, line, later, s, run, bad, [bad], m);
    } else {
      var enter := AndT(cond, g);
      TranslateIsSound(h.test, env, st.tainted, s, m);
      if later && Holds(g, m) { BlockFollows(h.body, env, st, enter, cons + 1, unres, false, line, later, s, fuel, m); }
      WhileFlags(h, env, st, cond, cons, unres, line, later, s, fuel, m);
      if later && run.status.Fell? { WhileOvers(h, env, st, cond, cons, unres, line, s, fuel, m); }
    }
  }

  lemma WhileFlags(h: Stmt, env: Env, st: WState, cond: Term, cons: nat, unres: nat, line: int, later: bool, s: Store,
                   fuel: nat, m: Model)
    requires h.While? && !WalkWhile(h, env, st, cond, cons, unres).out.Fails? && Fresh(env, st)
    requires WhileCareful(h, env, st, cond, cons, unres, line, later) && Agrees(env, st.tainted, s, m) && Holds(cond, m)
    requires !Mentions(Guard(h.test, env).value, st.tainted)
    ensures Names(ExecWhile(h, s, fuel).trace, line) ==> Flagged(line, WalkWhile(h, env, st, cond, cons, unres).log, m)
  {
    var g := Guard(h.test, env).value;
    var enter := AndT(cond, g);
    TranslateIsSound(h.test, env, st.tainted, s, m);
    if Names(ExecWhile(h, s, fuel).trace, line) {
      assert Holds(g, m);
      IterationsTracked(h, env, st, cond, cons, unres, line, later, s, fuel);
      var rb := WalkBlock(h.body, env, st, enter, cons + 1, unres, false);
      BlockBasics(h.body, env, st, enter, cons + 1, unres, false, m);
      var visit := Visit(Label(h.line, KWhile), enter, cons, unres);
      var log := [visit] + rb.log + [Passed(h.line)];
      assert WalkWhile(h, env, st, cond, cons, unres).log == log;
      LoopFlags(h, visit, rb.log, log, enter, cons + 1, unres, line, m);
    }
  }

  // A run that leaves the loop: its guard was false at once, or its first iteration fell through.
  lemma WhileOvers(h: Stmt, env: Env, st: WState, cond: Term, cons: nat, unres: nat, line: int, s: Store, fuel: nat,
                   m: Model)
    requires h.While? && !WalkWhile(h, env, st, cond, cons, unres).out.Fails? && Fresh(env, st)
    requires WhileCareful(h, env, st, cond, cons, unres, line, true) && Agrees(env, st.tainted, s, m) && Holds(cond, m)
    requires !Mentions(Guard(h.test, env).value, st.tainted) && ExecWhile(h, s, fuel).status.Fell?
    requires var g := Guard(h.test, env).value;
      Holds(g, m) ==> Overs(WalkBlock(h.body, env, st, AndT(cond, g), cons + 1, unres, false),
                            ExecBlock(h.body, s, fuel), m)
    requires Untouched(StmtBinds(h), s, ExecWhile(h, s, fuel))
    ensures Overs(WalkWhile(h, env, st, cond, cons, unres), ExecWhile(h, s, fuel), m)
  {
    var g := Guard(h.test, env).value;
    var enter := AndT(cond, g);
    var rb := WalkBlock(h.body, env, st, enter, cons + 1, unres, false);
    var s' := ExecWhile(h, s, fuel).status.store;
    TranslateIsSound(h.test, env, st.tainted, s, m);
    IterationsTracked(h, env, st, cond, cons, unres, line, true, s, fuel);
    BlockBasics(h.body, env, st, enter, cons + 1, unres, false, m);
    TaintAgreesExact(env, st, rb.out.env, rb.st, s, s', m);
    assert Holds(NotT(g), m) == !Holds(g, m);
    if rb.out.Closes? { ClosedNeverFalls(h.body, env, st, enter, cons + 1, unres, false, s, fuel); }
  }

  lemma {:induction false} ForFollows(h: Stmt, env: Env, st: WState, cond: Term, cons: nat, unres: nat, line: int,
                                      later: bool, s: Store, fuel: nat, m: Model)
    requires h.For? && !WalkFor(h, env, st, cond, cons, unres).out.Fails? && Fresh(env, st)
    requires ForCareful(h, env, st, cond, cons, unres, line, later) && Agrees(env, st.tainted, s, m) && Holds(cond, m)
    ensures Follows(line, later, WalkFor(h, env, st, cond, cons, unres), ExecStmt(h, s, fuel), m)
    decreases h, 1
  {
    var vals := RangeValues(h.start, h.stop, h.step);
    if AboveCap(h) {
      AboveCapFollows(h, env, st, cond, cons, unres, line, later, s, fuel, m);
    } else {
      assert WalkFor(h, env, st, cond, cons, unres) == WalkUnrolled(h, vals, env, st, cond, cons, unres);
      if vals != [] {
        CopiesFollow(h.body, h.target, vals, env, st, cond, cons, unres, false, line, later || line in Lines(h.body),
                     s, fuel, m);
        UnrolledFollows(h, env, st, cond, cons, unres, line, later, s, fuel, m);
      }
    }
  }

  lemma UnrolledFollows(h: Stmt, env: Env, st: WState, cond: Term, cons: nat, unres: nat, line: int, later: bool,
                        s: Store, fuel: nat, m: Model)
    requires h.For? && h.step != 0 && RangeValues(h.start, h.stop, h.step) != [] && Holds(cond, m)
    requires var vals := RangeValues(h.start, h.stop, h.step);
      Follows(line, later || line in Lines(h.body),
              WalkCopies(h.body, h.target, vals, env, st, cond, cons, unres, false, false),
              ExecCopies(h.body, h.target, vals, s, fuel), m)
    ensures Follows(line, later, WalkUnrolled(h, RangeValues(h.start, h.stop, h.step), env, st, cond, cons, unres),
                    ExecStmt(h, s, fuel), m)
  {
    var vals := RangeValues(h.start, h.stop, h.step);
    var r := WalkUnrolled(h, vals, env, st, cond, cons, unres);
    var rc := WalkCopies(h.body, h.target, vals, env, st, cond, cons, unres, false, false);
    var visit := Visit(Label(h.line, KFor), AndT(cond, BoolVal(vals != [])), cons, unres);
    assert r.log == [visit, Push] + rc.log + [Pop] && visit in r.log;
    assert Eval(BoolVal(vals != []), m) == 1;
    if h.line == line { FlaggedBy(visit, line, r.log, m); }
    if Flagged(line, rc.log, m) { FlaggedIn(line, rc.log, r.log, m); }
    NamesSplit([visit.arm], ExecCopies(h.body, h.target, vals, s, fuel).trace, line);
  }

  lemma {:induction false} CopiesFollow(body: Block, x: string, vals: seq<int>, env: Env, st: WState, cond: Term,
                                        cons: nat, unres: nat, u: bool, line: int, later: bool, s: Store, fuel: nat,
                                        m: Model)
    requires !WalkCopies(body, x, vals, env, st, cond, cons, unres, u, false).out.Fails? && Fresh(env, st)
    requires CopiesCareful(body, x, vals, env, st, cond, cons, unres, u, line, later) && (line in Lines(body) ==> later)
    requires Agrees(env, st.tainted, s, m) && Holds(cond, m)
    ensures Follows(line, later, WalkCopies(body, x, vals, env, st, cond, cons, unres, u, false),
                    ExecCopies(body, x, vals, s, fuel), m)
    decreases body, 1, |vals|
  {
    if !later {
      CopiesStay(body, x, vals, s, fuel, Lines(body));
      NotNamed(ExecCopies(body, x, vals, s, fuel), Lines(body), line);
    } else if vals != [] {
      var env1, st1 := env[x := Entry(IntVal(vals[0]), st.nextId)], st.(nextId := st.nextId + 1);
      var s1 := s[x := vals[0]];
      var r := WalkBlock(body, env1, st1, cond, cons, Bump(unres, u), false);
      var e := ExecBlock(body, s1, fuel);
      BlockFollows(body, env1, st1, cond, cons, Bump(unres, u), false, line, true, s1, fuel, m);
      BlockBasics(body, env1, st1, cond, cons, Bump(unres, u), false, m);
      if e.status.Fell? {
        CopiesFollow(body, x, vals[1..], r.out.env, r.st, r.out.cont, cons, unres, u || r.out.taint, line, true,
                     e.status.store, fuel, m);
      }
      CopyThenFollows(body, x, vals, env, st, cond, cons, unres, u, line, s, fuel, m);
    }
  }

  lemma CopyThenFollows(body: Block, x: string, vals: seq<int>, env: Env, st: WState, cond: Term, cons: nat, unres: nat,
                        u: bool, line: int, s: Store, fuel: nat, m: Model)
    requires vals != []
    requires var r := WalkBlock(body, env[x := Entry(IntVal(vals[0]), st.nextId)], st.(nextId := st.nextId + 1), cond,
                                cons,
                                Bump(unres, u), false);
      var e := ExecBlock(body, s[x := vals[0]], fuel);
      && !r.out.Fails? && Follows(line, true, r, e, m)
      && (e.status.Fell? ==>
            Follows(line, true, WalkCopies(body, x, vals[1..], r.out.env, r.st, r.out.cont, cons, unres, u
                                           || r.out.taint, false),
                    ExecCopies(body, x, vals[1..], e.status.store, fuel), m))
    ensures Follows(line, true, WalkCopies(body, x, vals, env, st, cond, cons, unres, u, false),
                    ExecCopies(body, x, vals, s, fuel), m)
  {
    var r := WalkBlock(body, env[x := Entry(IntVal(vals[0]), st.nextId)], st.(nextId := st.nextId + 1), cond, cons,
                       Bump(unres, u), false);
    var e := ExecBlock(body, s[x := vals[0]], fuel);
    var all := WalkCopies(body, x, vals, env, st, cond, cons, unres, u, false);
    if e.status.Fell? {
      var rest := WalkCopies(body, x, vals[1..], r.out.env, r.st, r.out.cont, cons, unres, u || r.out.taint, false);
      assert all == Prepend(r.log, rest);
      FollowsSeq(line, true, r.log, e, rest, ExecCopies(body, x, vals[1..], e.status.store, fuel), m);
    } else {
      assert forall it :: it in r.log ==> it in all.log;
      if Flagged(line, r.log, m) { FlaggedIn(line, r.log, all.log, m); }
      assert ExecCopies(body, x, vals, s, fuel) == e;
    }
  }

  lemma {:induction false} AboveCapFollows(h: Stmt, env: Env, st: WState, cond: Term, cons: nat, unres: nat, line: int,
                                           later: bool, s: Store, fuel: nat, m: Model)
    requires h.For? && h.step != 0 && AboveCap(h) && !WalkFor(h, env, st, cond, cons, unres).out.Fails?
    requires Fresh(env, st)
    requires ForCareful(h, env, st, cond, cons, unres, line, later) && Agrees(env, st.tainted, s, m) && Holds(cond, m)
    ensures Follows(line, later, WalkFor(h, env, st, cond, cons, unres), ExecStmt(h, s, fuel), m)
  {
    var vals := RangeValues(h.start, h.stop, h.step);
    var enter := AndT(cond, BoolVal(Entered(h)));
    var inside := SomeIteration(h, enter);
    var env1, st1 := env[h.target := Entry(LoopIndex(h), st.nextId)], st.(nextId := st.nextId + 1);
    var rb := WalkBlock(h.body, env1, st1, inside, cons + 1, unres, false);
    var visit := Visit(Label(h.line, KFor), enter, cons, unres);
    var r := WalkForAboveCap(h, env, st, cond, cons, unres);
    assert WalkFor(h, env, st, cond, cons, unres) == r
      == LeaveLoop(h.body, env, cond, BoolVal(Entered(h)), rb, [visit] + rb.log);
    assert Entered(h) && Eval(BoolVal(Entered(h)), m) == 1;
    BlockBasics(h.body, env1, st1, inside, cons + 1, unres, false, m);
    RepeatsTracked(h, vals, env, st, inside, cons, unres, line, later, s, fuel);
    var copies := ExecCopies(h.body, h.target, vals, s, fuel);
    NamesSplit([visit.arm], copies.trace, line);
    if Names(ExecStmt(h, s, fuel).trace, line) {
      LoopFlags(h, visit, rb.log, [visit] + rb.log, inside, cons + 1, unres, line, m);
    }
    if later && copies.status.Fell? {
      StmtUntouched(h, s, fuel, StmtBinds(h));
      TaintAgreesExact(env, st, rb.out.env, rb.st, s, copies.status.store, m);
      if rb.out.Closes? {
        ClosedNeverFalls(h.body, env1, st1, inside, cons + 1, unres, false, s[h.target := vals[0]], fuel);
      }
    }
  }
}
