/**
  Exact verdicts. When every loop is unrolled and nothing was passed over, the reports whose path
  conditions an input satisfies are, in order and iteration by iteration, the arms that the
  concrete run on that input enters.
 */
module ExactTrace {
  import opened PySubset
  import opened Interp
  import opened Terms
  import opened Walk
  import opened WalkBasics
  import opened Agreement
  import opened AnyStore
  import opened Joins
  import opened Scope
  import opened Verdicts
  import opened Reach
  import opened Depths

  // The arms whose path conditions hold, in the order of the log.
  function Selected(log: seq<Item>, m: Model): seq<Label> {
    if log == [] then []
    else Chosen(log[0], m) + Selected(log[1..], m)
  }

  function Chosen(it: Item, m: Model): seq<Label> {
    if it.Visit? && Holds(it.cond, m) then [it.arm] else []
  }

  lemma {:induction false} SelectedCat(log: seq<Item>, log': seq<Item>, m: Model)
    ensures Selected(log + log', m) == Selected(log, m) + Selected(log', m)
  {
    hide Chosen;
    if log == [] {
      assert log + log' == log' && Selected(log, m) == [];
    } else {
      SelectedCat(log[1..], log', m);
      assert (log + log')[0] == log[0] && (log + log')[1..] == log[1..] + log';
      var a, b, c := Chosen(log[0], m), Selected(log[1..], m), Selected(log', m);
      assert a + (b + c) == (a + b) + c;
    }
  }

  lemma {:induction false} SelectedUnder(log: seq<Item>, cond: Term, cons: nat, unres: nat, m: Model)
    requires LogUnder(log, cond, cons, unres, m) && !Holds(cond, m)
    ensures Selected(log, m) == []
  {
    if log != [] {
      assert ItemUnder(log[0], cond, cons, unres, m);
      SelectedUnder(log[1..], cond, cons, unres, m);
    }
  }

  predicate Matches(log: seq<Item>, run: Run, m: Model) {
    run.trace <= Selected(log, m) && (!run.status.Stuck? ==> run.trace == Selected(log, m))
  }

  lemma MatchesSeq(log: seq<Item>, log': seq<Item>, run: Run, run': Run, m: Model)
    requires Matches(log, run, m)
    requires run.status.Fell? ==> Matches(log', run', m)
    requires run.status.Returned? ==> Selected(log', m) == []
    ensures Matches(log + log', if run.status.Fell? then After(run.trace, run') else run, m)
  {
    SelectedCat(log, log', m);
  }

  lemma MatchesEnter(visit: Item, log: seq<Item>, run: Run, m: Model)
    requires visit.Visit? && Holds(visit.cond, m) && Matches(log, run, m)
    ensures Matches([visit] + log, After([visit.arm], run), m)
  {
    assert ([visit] + log)[1..] == log;
  }

  // Reports that the input does not select change nothing.
  lemma MatchesAround(pre: seq<Item>, log: seq<Item>, post: seq<Item>, run: Run, m: Model)
    requires Matches(log, run, m) && Selected(pre, m) == [] && Selected(post, m) == []
    ensures Matches(pre + log + post, run, m)
  {
    SelectedCat(pre + log, post, m);
    SelectedCat(pre, log, m);
  }

  lemma SelectedNone(it: Item, m: Model)
    requires it.Visit? ==> !Holds(it.cond, m)
    ensures Selected([it], m) == []
  {
    assert [it][1..] == [];
  }

  lemma {:induction false} BlockMatches(b: Block, env: Env, st: WState, cond: Term, cons: nat, unres: nat, s: Store,
                                        fuel: nat, m: Model)
    requires var r := WalkBlock(b, env, st, cond, cons, unres, false); !r.out.Fails? && Resolved(r.log)
    requires WhileFree(b) && WithinCap(b)
    requires Fresh(env, st) && Agrees(env, st.tainted, s, m) && Holds(cond, m)
    ensures Matches(WalkBlock(b, env, st, cond, cons, unres, false).log, ExecBlock(b, s, fuel), m)
    ensures !WalkBlock(b, env, st, cond, cons, unres, false).out.taint
    decreases b, 0
  {
    match b
    case Nil =>
    case Cons(h, t) =>
      if Compound(h) {
        CompoundThenMatches(h, t, env, st, cond, cons, unres, s, fuel, m);
      } else if h.Assign? {
        AssignThenMatches(h, t, env, st, cond, cons, unres, s, fuel, m);
      } else if !h.Return? {
        PassedThenMatches(h, t, env, st, cond, cons, unres, s, fuel, m);
      }
  }

  lemma {:induction false} AssignThenMatches(h: Stmt, t: Block, env: Env, st: WState, cond: Term, cons: nat, unres: nat,
                                             s: Store, fuel: nat, m: Model)
    requires h.Assign? && WhileFree(t) && WithinCap(t)
    requires var r := WalkBlock(Cons(h, t), env, st, cond, cons, unres, false); !r.out.Fails? && Resolved(r.log)
    requires Fresh(env, st) && Agrees(env, st.tainted, s, m) && Holds(cond, m)
    ensures Matches(WalkBlock(Cons(h, t), env, st, cond, cons, unres, false).log, ExecBlock(Cons(h, t), s, fuel), m)
    ensures !WalkBlock(Cons(h, t), env, st, cond, cons, unres, false).out.taint
    decreases Cons(h, t), 0, 0
  {
    AssignStep(h, t, env, st, cond, cons, unres, s, fuel, m);
    var env1, st1 := env[h.x := Entry(Translate(h.e, env).value, st.nextId)], st.(nextId := st.nextId + 1);
    BlockMatches(t, env1, st1, cond, cons, unres, s[h.x := EvalExpr(h.e, s).value], fuel, m);
  }

  lemma {:induction false} PassedThenMatches(h: Stmt, t: Block, env: Env, st: WState, cond: Term, cons: nat, unres: nat,
                                             s: Store, fuel: nat, m: Model)
    requires (h.Pass? || h.ExprStmt?) && WhileFree(t) && WithinCap(t)
    requires var r := WalkBlock(Cons(h, t), env, st, cond, cons, unres, false); !r.out.Fails? && Resolved(r.log)
    requires Fresh(env, st) && Agrees(env, st.tainted, s, m) && Holds(cond, m)
    ensures Matches(WalkBlock(Cons(h, t), env, st, cond, cons, unres, false).log, ExecBlock(Cons(h, t), s, fuel), m)
    ensures !WalkBlock(Cons(h, t), env, st, cond, cons, unres, false).out.taint
    decreases Cons(h, t), 0, 0
  {
    BlockMatches(t, env, st, cond, cons, unres, s, fuel, m);
    if h.ExprStmt? {
      StepOverMatches(h, WalkBlock(t, env, st, cond, cons, unres, false).log, s, fuel, ExecBlock(t, s, fuel), m);
    } else {
      assert After([], ExecBlock(t, s, fuel)) == ExecBlock(t, s, fuel);
    }
  }

  lemma StepOverMatches(h: Stmt, log: seq<Item>, s: Store, fuel: nat, run: Run, m: Model)
    requires h.ExprStmt? && Matches(log, run, m)
    ensures Matches([Passed(h.line)] + log,
                    if ExecStmt(h, s, fuel).status.Fell? then After(ExecStmt(h, s, fuel).trace, run)
                      else ExecStmt(h, s, fuel), m)
  {
    SelectedNone(Passed(h.line), m);
    MatchesSeq([Passed(h.line)], log, ExecStmt(h, s, fuel), run, m);
  }

  lemma {:induction false} CompoundThenMatches(h: Stmt, t: Block, env: Env, st: WState, cond: Term, cons: nat,
                                               unres: nat, s: Store, fuel: nat, m: Model)
    requires Compound(h) && StmtWhileFree(h) && StmtWithinCap(h) && WhileFree(t) && WithinCap(t)
    requires var r := WalkBlock(Cons(h, t), env, st, cond, cons, unres, false); !r.out.Fails? && Resolved(r.log)
    requires Fresh(env, st) && Agrees(env, st.tainted, s, m) && Holds(cond, m)
    ensures Matches(WalkBlock(Cons(h, t), env, st, cond, cons, unres, false).log, ExecBlock(Cons(h, t), s, fuel), m)
    ensures !WalkBlock(Cons(h, t), env, st, cond, cons, unres, false).out.taint
    decreases Cons(h, t), 0, 0
  {
    var whole := WalkBlock(Cons(h, t), env, st, cond, cons, unres, false);
    var r := WalkCompound(h, env, st, cond, cons, unres);
    var bad := Unsolved(Label(h.line, KindOf(h)), false);
    assert r.out.Fails? ==> bad in whole.log;
    var e := ExecStmt(h, s, fuel);
    if !r.out.Fails? {
      CompoundMatches(h, env, st, cond, cons, unres, s, fuel, m);
      CompoundExact(h, env, st, cond, cons, unres, s, fuel, m);
      CompoundBasics(h, env, st, cond, cons, unres, m);
      if r.out.Closes? {
        ClosedCompound(h, env, st, cond, cons, unres, s, fuel);
      } else {
        var rest := WalkBlock(t, r.out.env, r.st, r.out.cont, cons, unres, false);
        BlockBasics(t, r.out.env, r.st, r.out.cont, cons, unres, false, m);
        NoTaint(t, r.out.env, r.st, r.out.cont, cons, unres);
        if e.status.Fell? {
          BlockMatches(t, r.out.env, r.st, r.out.cont, cons, unres, e.status.store, fuel, m);
        } else if e.status.Returned? {
          SelectedUnder(rest.log, r.out.cont, cons, unres, m);
        }
        MatchesSeq(r.log, rest.log, e, if e.status.Fell? then ExecBlock(t, e.status.store, fuel) else e, m);
      }
    }
  }

  lemma {:induction false} CompoundMatches(h: Stmt, env: Env, st: WState, cond: Term, cons: nat, unres: nat, s: Store,
                                           fuel: nat, m: Model)
    requires Compound(h) && StmtWhileFree(h) && StmtWithinCap(h)
    requires var r := WalkCompound(h, env, st, cond, cons, unres); !r.out.Fails? && Resolved(r.log)
    requires Fresh(env, st) && Agrees(env, st.tainted, s, m) && Holds(cond, m)
    ensures Matches(WalkCompound(h, env, st, cond, cons, unres).log, ExecStmt(h, s, fuel), m)
    ensures !WalkCompound(h, env, st, cond, cons, unres).out.taint
    decreases h, 2
  {
    NoTaintCompound(h, env, st, cond, cons, unres);
    match h
    case If(_, _, _, _) => IfMatches(h, env, st, cond, cons, unres, KIf, s, fuel, m);
    case For(_, _, _, _, _, _) => ForMatches(h, env, st, cond, cons, unres, s, fuel, m);
  }

  lemma {:induction false} IfMatches(h: Stmt, env: Env, st: WState, cond: Term, cons: nat, unres: nat, kind: Kind,
                                     s: Store, fuel: nat, m: Model)
    requires h.If? && StmtWhileFree(h) && StmtWithinCap(h)
    requires var r := WalkIf(h, env, st, cond, cons, unres, kind); !r.out.Fails? && Resolved(r.log)
    requires Fresh(env, st) && Agrees(env, st.tainted, s, m) && Holds(cond, m)
    ensures Matches(WalkIf(h, env, st, cond, cons, unres, kind).log, ExecIf(h, s, fuel, kind), m)
    decreases h, 1
  {
    var r := WalkIf(h, env, st, cond, cons, unres, kind);
    var g := Guard(h.test, env).value;
    assert Mentions(g, st.tainted) ==> Unsolved(Label(h.line, kind), true) in r.log;
    if !Mentions(g, st.tainted) {
      TranslateIsSound(h.test, env, st.tainted, s, m);
      var yes, no := AndT(cond, g), AndT(cond, NotT(g));
      assert Holds(no, m) == !Holds(g, m) by { assert Holds(NotT(g), m) == !Holds(g, m); }
      var rb := WalkBlock(h.body, env, st, yes, cons, unres, false);
      var re := WalkElse(h.orelse, env, rb.st, no, cons, unres);
      var visit := Visit(Label(h.line, kind), yes, cons, unres);
      assert r.log == [visit] + rb.log + re.log;
      BlockBasics(h.body, env, st, yes, cons, unres, false, m);
      ElseBasics(h.orelse, env, rb.st, no, cons, unres, m);
      if Holds(g, m) {
        BlockMatches(h.body, env, st, yes, cons, unres, s, fuel, m);
        SelectedUnder(re.log, no, cons, unres, m);
        JoinMatches(visit, rb.log, re.log, ExecBlock(h.body, s, fuel), m);
      } else {
        SelectedUnder(rb.log, yes, cons, unres, m);
        AgreesGrow(env, st.tainted, rb.st.tainted, s, m);
        ElseMatches(h.orelse, env, rb.st, no, cons, unres, s, fuel, m);
        JoinMatches(visit, rb.log, re.log, ExecElse(h.orelse, s, fuel), m);
      }
    }
  }

  // `arm` is the run of the arm taken.
  lemma JoinMatches(visit: Item, body: seq<Item>, orelse: seq<Item>, arm: Run, m: Model)
    requires visit.Visit?
    requires if Holds(visit.cond, m) then Matches(body, arm, m) && Selected(orelse, m) == []
             else Selected(body, m) == [] && Matches(orelse, arm, m)
    ensures Matches([visit] + body + orelse, if Holds(visit.cond, m) then After([visit.arm], arm) else arm, m)
  {
    if Holds(visit.cond, m) {
      BodyTaken(visit, body, orelse, arm, m);
    } else {
      ElseTaken(visit, body, orelse, arm, m);
    }
  }

  lemma BodyTaken(visit: Item, body: seq<Item>, orelse: seq<Item>, arm: Run, m: Model)
    requires visit.Visit? && Holds(visit.cond, m) && Matches(body, arm, m) && Selected(orelse, m) == []
    ensures Matches([visit] + body + orelse, After([visit.arm], arm), m)
  {
    SelectedCat(body, orelse, m);
    assert Selected(body, m) + [] == Selected(body, m);
    MatchesEnter(visit, body + orelse, arm, m);
    assert [visit] + body + orelse == [visit] + (body + orelse);
  }

  lemma ElseTaken(visit: Item, body: seq<Item>, orelse: seq<Item>, arm: Run, m: Model)
    requires visit.Visit? && !Holds(visit.cond, m) && Selected(body, m) == [] && Matches(orelse, arm, m)
    ensures Matches([visit] + body + orelse, arm, m)
  {
    SelectedNone(visit, m);
    SelectedCat([visit], body, m);
    SelectedCat([visit] + body, orelse, m);
    assert [] + Selected(orelse, m) == Selected(orelse, m);
  }

  lemma {:induction false} ElseMatches(orelse: Block, env: Env, st: WState, cond: Term, cons: nat, unres: nat, s: Store,
                                       fuel: nat, m: Model)
    requires WhileFree(orelse) && WithinCap(orelse)
    requires var r := WalkElse(orelse, env, st, cond, cons, unres); !r.out.Fails? && Resolved(r.log)
    requires Fresh(env, st) && Agrees(env, st.tainted, s, m) && Holds(cond, m)
    ensures Matches(WalkElse(orelse, env, st, cond, cons, unres).log, ExecElse(orelse, s, fuel), m)
    decreases orelse, 3
  {
    if IsElif(orelse) {
      IfMatches(orelse.head, env, st, cond, cons, unres, KElif, s, fuel, m);
    } else if orelse.Cons? {
      var visit := Visit(Label(orelse.head.line, KElse), cond, cons, unres);
      BlockMatches(orelse, env, st, cond, cons, unres, s, fuel, m);
      MatchesEnter(visit, WalkBlock(orelse, env, st, cond, cons, unres, false).log, ExecBlock(orelse, s, fuel), m);
    }
  }

  lemma {:induction false} ForMatches(h: Stmt, env: Env, st: WState, cond: Term, cons: nat, unres: nat, s: Store,
                                      fuel: nat, m: Model)
    requires h.For? && StmtWhileFree(h) && StmtWithinCap(h)
    requires var r := WalkFor(h, env, st, cond, cons, unres); !r.out.Fails? && Resolved(r.log)
    requires Fresh(env, st) && Agrees(env, st.tainted, s, m) && Holds(cond, m)
    ensures Matches(WalkFor(h, env, st, cond, cons, unres).log, ExecStmt(h, s, fuel), m)
    decreases h, 1
  {
    var vals := RangeValues(h.start, h.stop, h.step);
    var r := WalkUnrolled(h, vals, env, st, cond, cons, unres);
    assert r == WalkFor(h, env, st, cond, cons, unres);
    if vals != [] {
      var rc := WalkCopies(h.body, h.target, vals, env, st, cond, cons, unres, false, false);
      assert forall it :: it in rc.log ==> it in r.log;
      CopiesMatch(h.body, h.target, vals, env, st, cond, cons, unres, s, fuel, m);
    }
    FrameMatches(h, env, st, cond, cons, unres, s, fuel, m);
  }

  // The loop's own report and the frame around its copies.
  lemma FrameMatches(h: Stmt, env: Env, st: WState, cond: Term, cons: nat, unres: nat, s: Store, fuel: nat, m: Model)
    requires h.For? && h.step != 0 && Holds(cond, m)
    requires var vals := RangeValues(h.start, h.stop, h.step);
      vals != [] ==> Matches(WalkCopies(h.body, h.target, vals, env, st, cond, cons, unres, false, false).log,
                             ExecCopies(h.body, h.target, vals, s, fuel), m)
    ensures Matches(WalkUnrolled(h, RangeValues(h.start, h.stop, h.step), env, st, cond, cons, unres).log,
                    ExecStmt(h, s, fuel), m)
  {
    var vals := RangeValues(h.start, h.stop, h.step);
    var visit := Visit(Label(h.line, KFor), AndT(cond, BoolVal(vals != [])), cons, unres);
    assert Eval(BoolVal(vals != []), m) == AsInt(vals != []);
    if vals == [] {
      SelectedNone(visit, m);
    } else {
      var log := WalkCopies(h.body, h.target, vals, env, st, cond, cons, unres, false, false).log;
      var run := ExecCopies(h.body, h.target, vals, s, fuel);
      SelectedNone(Push, m);
      SelectedNone(Pop, m);
      MatchesAround([Push], log, [Pop], run, m);
      MatchesEnter(visit, [Push] + log + [Pop], run, m);
      assert [visit, Push] + log + [Pop] == [visit] + ([Push] + log + [Pop]);
      assert ExecStmt(h, s, fuel) == After([visit.arm], run);
    }
  }

  // Unrolling preserves meaning: the chained copies report exactly what the iterations enter.
  lemma {:induction false} CopiesMatch(body: Block, x: string, vals: seq<int>, env: Env, st: WState, cond: Term,
                                       cons: nat, unres: nat, s: Store, fuel: nat, m: Model)
    requires WhileFree(body) && WithinCap(body)
    requires var r := WalkCopies(body, x, vals, env, st, cond, cons, unres, false, false);
      !r.out.Fails? && Resolved(r.log)
    requires Fresh(env, st) && Agrees(env, st.tainted, s, m) && Holds(cond, m)
    ensures Matches(WalkCopies(body, x, vals, env, st, cond, cons, unres, false, false).log,
                    ExecCopies(body, x, vals, s, fuel), m)
    decreases body, 1, |vals|
  {
    if vals != [] {
      var env1, st1 := env[x := Entry(IntVal(vals[0]), st.nextId)], st.(nextId := st.nextId + 1);
      var s1 := s[x := vals[0]];
      var r := WalkBlock(body, env1, st1, cond, cons, unres, false);
      var e := ExecBlock(body, s1, fuel);
      BlockMatches(body, env1, st1, cond, cons, unres, s1, fuel, m);
      BlockExact(body, env1, st1, cond, cons, unres, s1, fuel, m);
      BlockBasics(body, env1, st1, cond, cons, unres, false, m);
      var cont := if r.out.Falls? then r.out.cont else BoolVal(false);
      var rest := WalkCopies(body, x, vals[1..], r.out.env, r.st, cont, cons, unres, false, r.out.Closes?);
      CopiesBasics(body, x, vals[1..], r.out.env, r.st, cont, cons, unres, false, r.out.Closes?, m);
      if e.status.Fell? {
        CopiesMatch(body, x, vals[1..], r.out.env, r.st, cont, cons, unres, e.status.store, fuel, m);
      } else if e.status.Returned? {
        SelectedUnder(rest.log, cont, cons, unres, m);
      }
      MatchesSeq(r.log, rest.log, e,
                 if e.status.Fell? then ExecCopies(body, x, vals[1..], e.status.store, fuel) else e, m);
    }
  }

  // ---------------------------------------------------------------- the closure flag stays down

  lemma NoTaint(b: Block, env: Env, st: WState, cond: Term, cons: nat, unres: nat)
    requires WhileFree(b) && WithinCap(b)
    requires var r := WalkBlock(b, env, st, cond, cons, unres, false); !r.out.Fails? && Resolved(r.log)
    ensures !WalkBlock(b, env, st, cond, cons, unres, false).out.taint
  {
    UnrolledOnly(b);
    BlockFlat(b, env, st, cond, false, Depth(cons, unres, {}, true));
  }

  lemma NoTaintCompound(h: Stmt, env: Env, st: WState, cond: Term, cons: nat, unres: nat)
    requires Compound(h) && StmtWhileFree(h) && StmtWithinCap(h)
    requires var r := WalkCompound(h, env, st, cond, cons, unres); !r.out.Fails? && Resolved(r.log)
    ensures !WalkCompound(h, env, st, cond, cons, unres).out.taint
  {
    StmtUnrolledOnly(h);
    CompoundFlat(h, env, st, cond, Depth(cons, unres, {}, true));
  }

  // ---------------------------------------------------------------- nothing is ever tainted

  // Without approximated loops a guard is passed over only if it fails to translate.
  predicate Untainted(r: Res) {
    r.st.tainted == {} && NothingTaintedOver(r.log)
  }

  lemma {:induction false} NothingTainted(b: Block, env: Env, st: WState, cond: Term, cons: nat, unres: nat, u: bool)
    requires WhileFree(b) && WithinCap(b) && st.tainted == {}
    ensures Untainted(WalkBlock(b, env, st, cond, cons, unres, u))
    decreases b, 0
  {
    match b
    case Nil =>
    case Cons(h, t) =>
      if Compound(h) {
        var r := WalkCompound(h, env, st, cond, cons, Bump(unres, u));
        CompoundUntainted(h, env, st, cond, cons, Bump(unres, u));
        if r.out.Fails? {
          NothingTainted(t, env, r.st, cond, cons, unres, true);
          UntaintedThen(r.log + [Unsolved(Label(h.line, KindOf(h)), false)],
                        WalkBlock(t, env, r.st, cond, cons, unres, true));
        } else if r.out.Falls? {
          NothingTainted(t, r.out.env, r.st, r.out.cont, cons, unres, u || r.out.taint);
          UntaintedThen(r.log, WalkBlock(t, r.out.env, r.st, r.out.cont, cons, unres, u || r.out.taint));
        }
      } else if h.Assign? {
        if Translate(h.e, env).Some? {
          var env1 := env[h.x := Entry(Translate(h.e, env).value, st.nextId)];
          NothingTainted(t, env1, st.(nextId := st.nextId + 1), cond, cons, unres, u);
        }
      } else if !h.Return? {
        NothingTainted(t, env, st, cond, cons, unres, u);
        UntaintedThen([Passed(h.line)], WalkBlock(t, env, st, cond, cons, unres, u));
      }
  }

  lemma UntaintedThen(log: seq<Item>, r: Res)
    requires Untainted(r) && NothingTaintedOver(log)
    ensures Untainted(Prepend(log, r))
  {
    var all := log + r.log;
    assert forall it :: it in log || it in r.log ==> it in all;
  }

  lemma {:induction false} CompoundUntainted(h: Stmt, env: Env, st: WState, cond: Term, cons: nat, unres: nat)
    requires Compound(h) && StmtWhileFree(h) && StmtWithinCap(h) && st.tainted == {}
    ensures Untainted(WalkCompound(h, env, st, cond, cons, unres))
    decreases h, 2
  {
    match h
    case If(_, _, _, _) => IfUntainted(h, env, st, cond, cons, unres, KIf);
    case For(_, x, start, stop, step, body) =>
      var vals := RangeValues(start, stop, step);
      if step != 0 {
        var r := WalkUnrolled(h, vals, env, st, cond, cons, unres);
        assert WalkFor(h, env, st, cond, cons, unres) == r;
        if vals != [] {
          var rc := WalkCopies(body, x, vals, env, st, cond, cons, unres, false, false);
          CopiesUntainted(body, x, vals, env, st, cond, cons, unres, false, false);
          assert forall it :: it in rc.log ==> it in r.log;
        }
      }
  }

  lemma {:induction false} IfUntainted(h: Stmt, env: Env, st: WState, cond: Term, cons: nat, unres: nat, kind: Kind)
    requires h.If? && StmtWhileFree(h) && StmtWithinCap(h) && st.tainted == {}
    ensures Untainted(WalkIf(h, env, st, cond, cons, unres, kind))
    decreases h, 1
  {
    var g := Guard(h.test, env);
    if g.Some? {
      var yes, no := AndT(cond, g.value), AndT(cond, NotT(g.value));
      var rb := WalkBlock(h.body, env, st, yes, cons, unres, false);
      var pre := [Visit(Label(h.line, kind), yes, cons, unres)];
      NothingTainted(h.body, env, st, yes, cons, unres, false);
      UntaintedThen(pre, rb);
      if !rb.out.Fails? {
        if IsElif(h.orelse) {
          IfUntainted(h.orelse.head, env, rb.st, no, cons, unres, KElif);
        } else {
          NothingTainted(h.orelse, env, rb.st, no, cons, unres, false);
        }
        UntaintedThen(pre + rb.log, WalkElse(h.orelse, env, rb.st, no, cons, unres));
      }
    }
  }

  lemma {:induction false} CopiesUntainted(body: Block, x: string, vals: seq<int>, env: Env, st: WState, cond: Term,
                                           cons: nat, unres: nat, u: bool, closed: bool)
    requires WhileFree(body) && WithinCap(body) && st.tainted == {}
    ensures Untainted(WalkCopies(body, x, vals, env, st, cond, cons, unres, u, closed))
    decreases body, 1, |vals|
  {
    if vals != [] {
      var env1, st1 := env[x := Entry(IntVal(vals[0]), st.nextId)], st.(nextId := st.nextId + 1);
      var r := WalkBlock(body, env1, st1, cond, cons, Bump(unres, u), false);
      NothingTainted(body, env1, st1, cond, cons, Bump(unres, u), false);
      if !r.out.Fails? {
        var cont := if r.out.Falls? then r.out.cont else BoolVal(false);
        var u', closed' := u || r.out.taint, closed || r.out.Closes?;
        CopiesUntainted(body, x, vals[1..], r.out.env, r.st, cont, cons, unres, u', closed');
        UntaintedThen(r.log, WalkCopies(body, x, vals[1..], r.out.env, r.st, cont, cons, unres, u', closed'));
      }
    }
  }
}
