/** What the text of a program bounds of its walk: the lines reported and the variables bound. */
module Placement {
  import opened PySubset
  import opened Interp
  import opened Terms
  import opened Walk
  import opened Scope

  predicate ItemOn(it: Item, lines: set<int>) {
    it.Visit? || it.Unsolved? ==> it.arm.line in lines
  }

  // Variables outside `binds` keep their bindings.
  predicate Spared(env: Env, env': Env, binds: set<string>) {
    forall x :: x in env && x !in binds ==> x in env' && env'[x] == env[x]
  }

  predicate Placed(env: Env, r: Res, lines: set<int>, binds: set<string>) {
    && (forall it :: it in r.log ==> ItemOn(it, lines))
    && (!r.out.Fails? ==> r.out.env.Keys <= env.Keys + binds && Spared(env, r.out.env, binds))
  }

  lemma {:induction false} BlockPlaced(b: Block, env: Env, st: WState, cond: Term, cons: nat, unres: nat, u: bool)
    ensures Placed(env, WalkBlock(b, env, st, cond, cons, unres, u), Lines(b), Binds(b))
    decreases b, 0
  {
    match b
    case Nil =>
    case Cons(h, t) =>
      if Compound(h) {
        CompoundThenPlaced(h, t, env, st, cond, cons, unres, u);
      } else if h.Assign? {
        if Translate(h.e, env).Some? {
          var env1 := env[h.x := Entry(Translate(h.e, env).value, st.nextId)];
          BlockPlaced(t, env1, st.(nextId := st.nextId + 1), cond, cons, unres, u);
        }
      } else if !h.Return? {
        BlockPlaced(t, env, st, cond, cons, unres, u);
      }
  }

  lemma {:induction false} CompoundThenPlaced(h: Stmt, t: Block, env: Env, st: WState, cond: Term, cons: nat,
                                              unres: nat, u: bool)
    requires Compound(h)
    ensures Placed(env, WalkBlock(Cons(h, t), env, st, cond, cons, unres, u), Lines(Cons(h, t)), Binds(Cons(h, t)))
    decreases Cons(h, t), 0, 0
  {
    var r := WalkCompound(h, env, st, cond, cons, Bump(unres, u));
    CompoundPlaced(h, env, st, cond, cons, Bump(unres, u));
    if r.out.Fails? {
      BlockPlaced(t, env, r.st, cond, cons, unres, true);
      var bad := Unsolved(Label(h.line, KindOf(h)), false);
      PlacedThen(env, r.log + [bad], env, WalkBlock(t, env, r.st, cond, cons, unres, true), h, t);
    } else if r.out.Falls? {
      BlockPlaced(t, r.out.env, r.st, r.out.cont, cons, unres, u || r.out.taint);
      PlacedThen(env, r.log, r.out.env, WalkBlock(t, r.out.env, r.st, r.out.cont, cons, unres, u || r.out.taint), h, t);
    }
  }

  lemma PlacedThen(env: Env, log: seq<Item>, env': Env, r: Res, h: Stmt, t: Block)
    requires (forall it :: it in log ==> ItemOn(it, StmtLines(h))) && env'.Keys <= env.Keys + StmtBinds(h)
    requires Spared(env, env', StmtBinds(h))
    requires Placed(env', r, Lines(t), Binds(t))
    ensures Placed(env, Prepend(log, r), Lines(Cons(h, t)), Binds(Cons(h, t)))
  {
  }

  lemma {:induction false} CompoundPlaced(h: Stmt, env: Env, st: WState, cond: Term, cons: nat, unres: nat)
    requires Compound(h)
    ensures Placed(env, WalkCompound(h, env, st, cond, cons, unres), StmtLines(h), StmtBinds(h))
    decreases h, 2
  {
    match h
    case If(_, _, _, _) => IfPlaced(h, env, st, cond, cons, unres, KIf);
    case While(_, _, _) => WhilePlaced(h, env, st, cond, cons, unres);
    case For(_, _, _, _, _, _) => ForPlaced(h, env, st, cond, cons, unres);
  }

  lemma {:induction false} WhilePlaced(h: Stmt, env: Env, st: WState, cond: Term, cons: nat, unres: nat)
    requires h.While?
    ensures Placed(env, WalkWhile(h, env, st, cond, cons, unres), StmtLines(h), StmtBinds(h))
    decreases h, 1
  {
    var g := Guard(h.test, env);
    if g.Some? { BlockPlaced(h.body, env, st, AndT(cond, g.value), cons + 1, unres, false); }
  }

  lemma {:induction false} ForPlaced(h: Stmt, env: Env, st: WState, cond: Term, cons: nat, unres: nat)
    requires h.For?
    ensures Placed(env, WalkFor(h, env, st, cond, cons, unres), StmtLines(h), StmtBinds(h))
    decreases h, 1
  {
    var vals := RangeValues(h.start, h.stop, h.step);
    if h.step != 0 {
      if |vals| > MAX_UNROLL_ITERATIONS {
        AboveCapPlaced(h, env, st, cond, cons, unres);
      } else {
        assert WalkFor(h, env, st, cond, cons, unres) == WalkUnrolled(h, vals, env, st, cond, cons, unres);
        if vals != [] { CopiesPlaced(h.body, h.target, vals, env, st, cond, cons, unres, false, false); }
      }
    }
  }

  lemma {:induction false} AboveCapPlaced(h: Stmt, env: Env, st: WState, cond: Term, cons: nat, unres: nat)
    requires h.For?
    ensures Placed(env, WalkForAboveCap(h, env, st, cond, cons, unres), StmtLines(h), StmtBinds(h))
    decreases h, 0
  {
    BlockPlaced(h.body, env[h.target := Entry(LoopIndex(h), st.nextId)], st.(nextId := st.nextId + 1),
                SomeIteration(h, AndT(cond, BoolVal(Entered(h)))), cons + 1, unres, false);
  }

  lemma {:induction false} IfPlaced(h: Stmt, env: Env, st: WState, cond: Term, cons: nat, unres: nat, kind: Kind)
    requires h.If?
    ensures Placed(env, WalkIf(h, env, st, cond, cons, unres, kind), StmtLines(h), StmtBinds(h))
    decreases h, 1
  {
    var g := Guard(h.test, env);
    if g.Some? && !Mentions(g.value, st.tainted) {
      var rb := WalkBlock(h.body, env, st, AndT(cond, g.value), cons, unres, false);
      BlockPlaced(h.body, env, st, AndT(cond, g.value), cons, unres, false);
      if !rb.out.Fails? { ElsePlaced(h.orelse, env, rb.st, AndT(cond, NotT(g.value)), cons, unres); }
    }
  }

  lemma {:induction false} ElsePlaced(orelse: Block, env: Env, st: WState, cond: Term, cons: nat, unres: nat)
    ensures Placed(env, WalkElse(orelse, env, st, cond, cons, unres), Lines(orelse), Binds(orelse))
    decreases orelse, 3
  {
    if IsElif(orelse) {
      IfPlaced(orelse.head, env, st, cond, cons, unres, KElif);
    } else if orelse.Cons? {
      BlockPlaced(orelse, env, st, cond, cons, unres, false);
    }
  }

  lemma {:induction false} CopiesPlaced(body: Block, x: string, vals: seq<int>, env: Env, st: WState, cond: Term,
                                        cons: nat, unres: nat, u: bool, closed: bool)
    ensures Placed(env, WalkCopies(body, x, vals, env, st, cond, cons, unres, u, closed), Lines(body),
                   {x} + Binds(body))
    decreases body, 1, |vals|
  {
    if vals != [] {
      var env1, st1 := env[x := Entry(IntVal(vals[0]), st.nextId)], st.(nextId := st.nextId + 1);
      var r := WalkBlock(body, env1, st1, cond, cons, Bump(unres, u), false);
      BlockPlaced(body, env1, st1, cond, cons, Bump(unres, u), false);
      if !r.out.Fails? {
        var cont := if r.out.Falls? then r.out.cont else BoolVal(false);
        CopiesPlaced(body, x, vals[1..], r.out.env, r.st, cont, cons, unres, u || r.out.taint, closed || r.out.Closes?);
      }
    }
  }
}
