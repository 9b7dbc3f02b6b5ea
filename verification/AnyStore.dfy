/**
  What a walk says about runs from ANY store, not only the stores that its environment describes:
  the later iterations of a loop that was walked once start from such stores.
 */
module AnyStore {
  import opened PySubset
  import opened Interp
  import opened Terms
  import opened Walk

  // ---------------------------------------------------------------- closing

  // A block whose walk never falls through is never left by falling through.
  lemma {:induction false} ClosedNeverFalls(b: Block, env: Env, st: WState, cond: Term, cons: nat, unres: nat, u: bool,
                                            s: Store, fuel: nat)
    requires WalkBlock(b, env, st, cond, cons, unres, u).out.Closes?
    ensures !ExecBlock(b, s, fuel).status.Fell?
    decreases b, 0
  {
    match b
    case Nil =>
    case Cons(h, t) =>
      var e := ExecStmt(h, s, fuel);
      if Compound(h) {
        var r := WalkCompound(h, env, st, cond, cons, Bump(unres, u));
        if r.out.Closes? {
          ClosedCompound(h, env, st, cond, cons, Bump(unres, u), s, fuel);
        } else if e.status.Fell? {
          if r.out.Fails? {
            ClosedNeverFalls(t, env, r.st, cond, cons, unres, true, e.status.store, fuel);
          } else {
            ClosedNeverFalls(t, r.out.env, r.st, r.out.cont, cons, unres, u || r.out.taint, e.status.store, fuel);
          }
        }
      } else if h.Assign? {
        if e.status.Fell? {
          var env1 := env[h.x := Entry(Translate(h.e, env).value, st.nextId)];
          ClosedNeverFalls(t, env1, st.(nextId := st.nextId + 1), cond, cons, unres, u, e.status.store, fuel);
        }
      } else if !h.Return? && e.status.Fell? {
        ClosedNeverFalls(t, env, st, cond, cons, unres, u, e.status.store, fuel);
      }
  }

  lemma {:induction false} ClosedCompound(h: Stmt, env: Env, st: WState, cond: Term, cons: nat, unres: nat, s: Store,
                                          fuel: nat)
    requires Compound(h) && WalkCompound(h, env, st, cond, cons, unres).out.Closes?
    ensures !ExecStmt(h, s, fuel).status.Fell?
    decreases h, 2
  {
    match h
    case If(_, _, _, _) => ClosedIf(h, env, st, cond, cons, unres, KIf, s, fuel);
    case While(_, _, _) =>
    case For(_, _, _, _, _, _) => ClosedFor(h, env, st, cond, cons, unres, s, fuel);
  }

  lemma {:induction false} ClosedFor(h: Stmt, env: Env, st: WState, cond: Term, cons: nat, unres: nat, s: Store,
                                     fuel: nat)
    requires h.For? && WalkFor(h, env, st, cond, cons, unres).out.Closes?
    ensures !ExecStmt(h, s, fuel).status.Fell?
    decreases h, 1
  {
    var vals := RangeValues(h.start, h.stop, h.step);
    assert !WalkForAboveCap(h, env, st, cond, cons, unres).out.Closes?;
    assert WalkUnrolled(h, vals, env, st, cond, cons, unres).out.Closes? && vals != [];
    ClosedCopies(h.body, h.target, vals, env, st, cond, cons, unres, false, s, fuel);
    assert ExecStmt(h, s, fuel).status == ExecCopies(h.body, h.target, vals, s, fuel).status;
  }

  lemma {:induction false} ClosedIf(h: Stmt, env: Env, st: WState, cond: Term, cons: nat, unres: nat, kind: Kind,
                                    s: Store, fuel: nat)
    requires h.If? && WalkIf(h, env, st, cond, cons, unres, kind).out.Closes?
    ensures !ExecIf(h, s, fuel, kind).status.Fell?
    decreases h, 1
  {
    var g := Guard(h.test, env).value;
    ClosedNeverFalls(h.body, env, st, AndT(cond, g), cons, unres, false, s, fuel);
    var st1 := WalkBlock(h.body, env, st, AndT(cond, g), cons, unres, false).st;
    if IsElif(h.orelse) {
      ClosedIf(h.orelse.head, env, st1, AndT(cond, NotT(g)), cons, unres, KElif, s, fuel);
    } else {
      ClosedNeverFalls(h.orelse, env, st1, AndT(cond, NotT(g)), cons, unres, false, s, fuel);
    }
  }

  lemma {:induction false} ClosedCopies(body: Block, x: string, vals: seq<int>, env: Env, st: WState, cond: Term,
                                        cons: nat, unres: nat, u: bool, s: Store, fuel: nat)
    requires WalkCopies(body, x, vals, env, st, cond, cons, unres, u, false).out.Closes?
    ensures !ExecCopies(body, x, vals, s, fuel).status.Fell?
    decreases body, 1, |vals|
  {
    if vals != [] {
      var env1, st1 := env[x := Entry(IntVal(vals[0]), st.nextId)], st.(nextId := st.nextId + 1);
      var r := WalkBlock(body, env1, st1, cond, cons, Bump(unres, u), false);
      var s1 := s[x := vals[0]];
      if r.out.Closes? {
        ClosedNeverFalls(body, env1, st1, cond, cons, Bump(unres, u), false, s1, fuel);
      } else if ExecBlock(body, s1, fuel).status.Fell? {
        ClosedCopies(body, x, vals[1..], r.out.env, r.st, r.out.cont, cons, unres, u || r.out.taint,
                     ExecBlock(body, s1, fuel).status.store, fuel);
      }
    }
  }

  // ---------------------------------------------------------------- blocks without a return

  lemma {:induction false} NoReturnNeverReturns(b: Block, s: Store, fuel: nat)
    requires !HasReturn(b)
    ensures !ExecBlock(b, s, fuel).status.Returned?
    decreases fuel, b, 0
  {
    if b.Cons? {
      StmtNeverReturns(b.head, s, fuel);
      var e := ExecStmt(b.head, s, fuel);
      if e.status.Fell? { NoReturnNeverReturns(b.tail, e.status.store, fuel); }
    }
  }

  lemma {:induction false} StmtNeverReturns(h: Stmt, s: Store, fuel: nat)
    requires !StmtHasReturn(h)
    ensures !ExecStmt(h, s, fuel).status.Returned?
    ensures h.If? ==> !ExecIf(h, s, fuel, KElif).status.Returned?
    ensures h.While? ==> !ExecWhile(h, s, fuel).status.Returned?
    decreases fuel, h, 2
  {
    match h
    case If(_, _, body, orelse) =>
      NoReturnNeverReturns(body, s, fuel);
      assert ExecElse(orelse, s, fuel).status.Returned? ==> orelse.Cons?;
      if IsElif(orelse) { StmtNeverReturns(orelse.head, s, fuel); } else { NoReturnNeverReturns(orelse, s, fuel); }
    case While(_, _, body) =>
      if fuel > 0 {
        NoReturnNeverReturns(body, s, fuel);
        var e := ExecBlock(body, s, fuel);
        if e.status.Fell? { StmtNeverReturns(h, e.status.store, fuel - 1); }
      }
    case For(_, x, start, stop, step, body) =>
      CopiesNeverReturn(body, x, RangeValues(start, stop, step), s, fuel);
    case _ =>
  }

  lemma {:induction false} CopiesNeverReturn(body: Block, x: string, vals: seq<int>, s: Store, fuel: nat)
    requires !HasReturn(body)
    ensures !ExecCopies(body, x, vals, s, fuel).status.Returned?
    decreases fuel, body, 1, |vals|
  {
    if vals != [] {
      var s1 := s[x := vals[0]];
      NoReturnNeverReturns(body, s1, fuel);
      var e := ExecBlock(body, s1, fuel);
      if e.status.Fell? { CopiesNeverReturn(body, x, vals[1..], e.status.store, fuel); }
    }
  }

  // Nothing was passed over.
  predicate Resolved(log: seq<Item>) {
    forall it :: it in log ==> !it.Unsolved?
  }

  // Without a `return`, the closure flag is down only if nothing was passed over.
  lemma {:induction false} NoReturnResolved(b: Block, env: Env, st: WState, cond: Term, cons: nat, unres: nat, u: bool)
    requires !HasReturn(b)
    ensures var r := WalkBlock(b, env, st, cond, cons, unres, u);
      !r.out.Closes? && (r.out.Falls? && !r.out.taint ==> !u && Resolved(r.log))
    decreases b, 0
  {
    match b
    case Nil =>
    case Cons(h, t) =>
      if Compound(h) {
        var r := WalkCompound(h, env, st, cond, cons, Bump(unres, u));
        NoReturnCompound(h, env, st, cond, cons, Bump(unres, u));
        if r.out.Fails? {
          NoReturnResolved(t, env, r.st, cond, cons, unres, true);
        } else {
          NoReturnResolved(t, r.out.env, r.st, r.out.cont, cons, unres, u || r.out.taint);
        }
      } else if h.Assign? {
        if Translate(h.e, env).Some? {
          var env1 := env[h.x := Entry(Translate(h.e, env).value, st.nextId)];
          NoReturnResolved(t, env1, st.(nextId := st.nextId + 1), cond, cons, unres, u);
        }
      } else {
        NoReturnResolved(t, env, st, cond, cons, unres, u);
      }
  }

  lemma {:induction false} NoReturnCompound(h: Stmt, env: Env, st: WState, cond: Term, cons: nat, unres: nat)
    requires Compound(h) && !StmtHasReturn(h)
    ensures var r := WalkCompound(h, env, st, cond, cons, unres);
      !r.out.Closes? && (r.out.Falls? && !r.out.taint ==> Resolved(r.log))
    decreases h, 2
  {
    match h
    case If(_, _, _, _) => NoReturnIf(h, env, st, cond, cons, unres, KIf);
    case While(_, test, body) =>
      var g := Guard(test, env);
      if g.Some? {
        NoReturnResolved(body, env, st, AndT(cond, g.value), cons + 1, unres, false);
      }
    case For(_, x, start, stop, step, body) =>
      var vals := RangeValues(start, stop, step);
      NoReturnCopies(body, x, vals, env, st, cond, cons, unres, false);
      var r := WalkFor(h, env, st, cond, cons, unres);
      assert step != 0 ==>
        r == if |vals| <= MAX_UNROLL_ITERATIONS then WalkUnrolled(h, vals, env, st, cond, cons, unres)
             else WalkForAboveCap(h, env, st, cond, cons, unres);
      NoReturnResolved(body, env[x := Entry(LoopIndex(h), st.nextId)], st.(nextId := st.nextId + 1),
                       SomeIteration(h, AndT(cond, BoolVal(Entered(h)))), cons + 1, unres, false);
  }

  lemma {:induction false} NoReturnIf(h: Stmt, env: Env, st: WState, cond: Term, cons: nat, unres: nat, kind: Kind)
    requires h.If? && !StmtHasReturn(h)
    ensures var r := WalkIf(h, env, st, cond, cons, unres, kind);
      !r.out.Closes? && (r.out.Falls? && !r.out.taint ==> Resolved(r.log))
    decreases h, 1
  {
    var g := Guard(h.test, env);
    if g.Some? && !Mentions(g.value, st.tainted) {
      NoReturnResolved(h.body, env, st, AndT(cond, g.value), cons, unres, false);
      var rb := WalkBlock(h.body, env, st, AndT(cond, g.value), cons, unres, false);
      if IsElif(h.orelse) {
        NoReturnIf(h.orelse.head, env, rb.st, AndT(cond, NotT(g.value)), cons, unres, KElif);
      } else {
        NoReturnResolved(h.orelse, env, rb.st, AndT(cond, NotT(g.value)), cons, unres, false);
      }
    }
  }

  lemma {:induction false} NoReturnCopies(body: Block, x: string, vals: seq<int>, env: Env, st: WState, cond: Term,
                                          cons: nat, unres: nat, u: bool)
    requires !HasReturn(body)
    ensures var r := WalkCopies(body, x, vals, env, st, cond, cons, unres, u, false);
      !r.out.Closes? && (r.out.Falls? && !r.out.taint ==> !u && Resolved(r.log))
    decreases body, 1, |vals|
  {
    if vals != [] {
      var env1, st1 := env[x := Entry(IntVal(vals[0]), st.nextId)], st.(nextId := st.nextId + 1);
      NoReturnResolved(body, env1, st1, cond, cons, Bump(unres, u), false);
      var r := WalkBlock(body, env1, st1, cond, cons, Bump(unres, u), false);
      if r.out.Falls? {
        NoReturnCopies(body, x, vals[1..], r.out.env, r.st, r.out.cont, cons, unres, u || r.out.taint);
      }
    }
  }
}
