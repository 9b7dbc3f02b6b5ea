/**
  Taint isolation. However deeply assignments, joins and nested loops bury a tainted symbol, no
  path condition that the walk reports mentions one.
 */
module Isolation {
  import opened PySubset
  import opened Interp
  import opened Terms
  import opened Walk
  import opened WalkBasics
  import opened Agreement
  import opened Reach

  predicate TermKnown(t: Term, known: iset<Sym>) {
    forall s :: s in Syms(t) ==> s in known
  }

  ghost predicate LoopsKnown(known: iset<Sym>) {
    forall line: int, x: string :: Sym(LoopName(line, x), IntSort) in known
  }

  predicate LogKnown(log: seq<Item>, known: iset<Sym>) {
    forall it :: it in log && it.Visit? ==> TermKnown(it.cond, known)
  }

  // The prefix of every symbol that stands for a value some loop computed.
  predicate TaintMark(name: string) {
    "__tainted_" <= name
  }

  predicate ResKnown(r: Res, st: WState, known: iset<Sym>) {
    && LogKnown(r.log, known)
    && (r.out.Falls? ==> TermKnown(r.out.cont, known))
    && (!r.out.Fails? ==> EnvKnown(r.out.env, r.st.tainted, known))
    && (forall n :: n in r.st.tainted ==> n in st.tainted || TaintMark(n))
  }

  lemma EnvKnownGrow(env: Env, tainted: set<string>, tainted': set<string>, known: iset<Sym>)
    requires tainted <= tainted' && EnvKnown(env, tainted, known)
    ensures EnvKnown(env, tainted', known)
  {
    forall x | x in env
      ensures Mentions(env[x].term, tainted') || forall s :: s in Syms(env[x].term) ==> s in known
    {
      if Mentions(env[x].term, tainted) { MentionsGrow(env[x].term, tainted, tainted'); }
    }
  }

  lemma TranslatedKnown(e: Expr, env: Env, tainted: set<string>, known: iset<Sym>)
    requires EnvKnown(env, tainted, known) && Translate(e, env).Some?
    ensures Mentions(Translate(e, env).value, tainted) || TermKnown(Translate(e, env).value, known)
  {
    forall s | s in Syms(Translate(e, env).value)
      ensures s in known || Mentions(Translate(e, env).value, tainted)
    {
      TranslateKnown(e, env, tainted, known, s);
    }
  }

  lemma {:induction false} BlockKnown(b: Block, env: Env, st: WState, cond: Term, cons: nat, unres: nat, u: bool,
                                      known: iset<Sym>)
    requires EnvKnown(env, st.tainted, known) && TermKnown(cond, known) && (WithinCap(b) || LoopsKnown(known))
    ensures ResKnown(WalkBlock(b, env, st, cond, cons, unres, u), st, known)
    decreases b, 0
  {
    match b
    case Nil =>
    case Cons(h, t) =>
      if Compound(h) {
        var r := WalkCompound(h, env, st, cond, cons, Bump(unres, u));
        CompoundKnown(h, env, st, cond, cons, Bump(unres, u), known);
        if r.out.Fails? {
          CompoundBasics(h, env, st, cond, cons, Bump(unres, u), map[]);
          EnvKnownGrow(env, st.tainted, r.st.tainted, known);
          BlockKnown(t, env, r.st, cond, cons, unres, true, known);
        } else if r.out.Falls? {
          BlockKnown(t, r.out.env, r.st, r.out.cont, cons, unres, u || r.out.taint, known);
        }
      } else if h.Assign? {
        if Translate(h.e, env).Some? {
          TranslatedKnown(h.e, env, st.tainted, known);
          var env1 := env[h.x := Entry(Translate(h.e, env).value, st.nextId)];
          BlockKnown(t, env1, st.(nextId := st.nextId + 1), cond, cons, unres, u, known);
        }
      } else if !h.Return? {
        BlockKnown(t, env, st, cond, cons, unres, u, known);
      }
  }

  lemma {:induction false} CompoundKnown(h: Stmt, env: Env, st: WState, cond: Term, cons: nat, unres: nat,
                                         known: iset<Sym>)
    requires Compound(h)
    requires EnvKnown(env, st.tainted, known) && TermKnown(cond, known) && (StmtWithinCap(h) || LoopsKnown(known))
    ensures ResKnown(WalkCompound(h, env, st, cond, cons, unres), st, known)
    decreases h, 2
  {
    match h
    case If(_, _, _, _) => IfKnown(h, env, st, cond, cons, unres, KIf, known);
    case While(_, _, _) => WhileKnown(h, env, st, cond, cons, unres, known);
    case For(_, x, start, stop, step, body) =>
      var vals := RangeValues(start, stop, step);
      if step != 0 {
        if |vals| > MAX_UNROLL_ITERATIONS {
          AboveCapKnown(h, env, st, cond, cons, unres, known);
          assert WalkFor(h, env, st, cond, cons, unres) == WalkForAboveCap(h, env, st, cond, cons, unres);
        } else {
          assert WalkFor(h, env, st, cond, cons, unres) == WalkUnrolled(h, vals, env, st, cond, cons, unres);
          assert Syms(BoolVal(vals != [])) == {};
          if vals != [] { CopiesKnown(body, x, vals, env, st, cond, cons, unres, false, false, known); }
        }
      }
  }

  lemma MergeKnown(g: Term, bt: Env, bf: Env, id: nat, tainted: set<string>, known: iset<Sym>)
    requires TermKnown(g, known) && EnvKnown(bt, tainted, known) && EnvKnown(bf, tainted, known)
    ensures EnvKnown(MergeEnvs(g, bt, bf, id), tainted, known)
  {
    var merged := MergeEnvs(g, bt, bf, id);
    forall x | x in merged
      ensures Mentions(merged[x].term, tainted) || forall s :: s in Syms(merged[x].term) ==> s in known
    {
      if bt[x].id != bf[x].id && !Mentions(merged[x].term, tainted) {
        assert merged[x].term == Ite(g, bt[x].term, bf[x].term);
        MentionsSub(bt[x].term, merged[x].term, tainted);
        MentionsSub(bf[x].term, merged[x].term, tainted);
      }
    }
  }

  lemma {:induction false} IfKnown(h: Stmt, env: Env, st: WState, cond: Term, cons: nat, unres: nat, kind: Kind,
                                   known: iset<Sym>)
    requires h.If?
    requires EnvKnown(env, st.tainted, known) && TermKnown(cond, known) && (StmtWithinCap(h) || LoopsKnown(known))
    ensures ResKnown(WalkIf(h, env, st, cond, cons, unres, kind), st, known)
    decreases h, 1
  {
    var g := Guard(h.test, env);
    if g.Some? && !Mentions(g.value, st.tainted) {
      TranslatedKnown(h.test, env, st.tainted, known);
      var yes, no := AndT(cond, g.value), AndT(cond, NotT(g.value));
      assert TermKnown(yes, known) && TermKnown(no, known) by { assert Syms(NotT(g.value)) == Syms(g.value); }
      var rb := WalkBlock(h.body, env, st, yes, cons, unres, false);
      BlockKnown(h.body, env, st, yes, cons, unres, false, known);
      BlockBasics(h.body, env, st, yes, cons, unres, false, map[]);
      if !rb.out.Fails? {
        EnvKnownGrow(env, st.tainted, rb.st.tainted, known);
        var re := WalkElse(h.orelse, env, rb.st, no, cons, unres);
        ElseKnown(h.orelse, env, rb.st, no, cons, unres, known);
        ElseBasics(h.orelse, env, rb.st, no, cons, unres, map[]);
        JoinKnown(g.value, env, st, rb, re, [Visit(Label(h.line, kind), yes, cons, unres)] + rb.log + re.log, known);
      }
    }
  }

  lemma JoinKnown(g: Term, env: Env, st: WState, rb: Res, re: Res, log: seq<Item>, known: iset<Sym>)
    requires TermKnown(g, known) && LogKnown(log, known) && !rb.out.Fails?
    requires EnvKnown(env, rb.st.tainted, known) && ResKnown(rb, st, known) && ResKnown(re, rb.st, known)
    requires rb.st.tainted <= re.st.tainted
    ensures ResKnown(Join(g, env, rb, re, log), st, known)
  {
    EnvKnownGrow(env, rb.st.tainted, re.st.tainted, known);
    EnvKnownGrow(rb.out.env, rb.st.tainted, re.st.tainted, known);
    if rb.out.Falls? && re.out.Falls? {
      MergeKnown(g, rb.out.env, re.out.env, re.st.nextId, re.st.tainted, known);
    }
  }

  lemma {:induction false} ElseKnown(orelse: Block, env: Env, st: WState, cond: Term, cons: nat, unres: nat,
                                     known: iset<Sym>)
    requires EnvKnown(env, st.tainted, known) && TermKnown(cond, known) && (WithinCap(orelse) || LoopsKnown(known))
    ensures ResKnown(WalkElse(orelse, env, st, cond, cons, unres), st, known)
    decreases orelse, 3
  {
    if IsElif(orelse) {
      IfKnown(orelse.head, env, st, cond, cons, unres, KElif, known);
    } else if orelse.Cons? {
      BlockKnown(orelse, env, st, cond, cons, unres, false, known);
    }
  }

  lemma {:induction false} CopiesKnown(body: Block, x: string, vals: seq<int>, env: Env, st: WState, cond: Term,
                                       cons: nat, unres: nat, u: bool, closed: bool, known: iset<Sym>)
    requires EnvKnown(env, st.tainted, known) && TermKnown(cond, known) && (WithinCap(body) || LoopsKnown(known))
    ensures ResKnown(WalkCopies(body, x, vals, env, st, cond, cons, unres, u, closed), st, known)
    decreases body, 1, |vals|
  {
    if vals != [] {
      var env1, st1 := env[x := Entry(IntVal(vals[0]), st.nextId)], st.(nextId := st.nextId + 1);
      assert Syms(IntVal(vals[0])) == {};
      var r := WalkBlock(body, env1, st1, cond, cons, Bump(unres, u), false);
      BlockKnown(body, env1, st1, cond, cons, Bump(unres, u), false, known);
      if !r.out.Fails? {
        var cont := if r.out.Falls? then r.out.cont else BoolVal(false);
        CopiesKnown(body, x, vals[1..], r.out.env, r.st, cont, cons, unres,
                    u || r.out.taint, closed || r.out.Closes?, known);
      }
    }
  }

  lemma LeaveLoopKnown(body: Block, env: Env, st: WState, cond: Term, guard: Term, rb: Res, log: seq<Item>,
                       known: iset<Sym>)
    requires EnvKnown(env, st.tainted, known) && TermKnown(cond, known) && TermKnown(guard, known)
    requires ResKnown(rb, st, known) && st.tainted <= rb.st.tainted && LogKnown(log, known)
    ensures ResKnown(LeaveLoop(body, env, cond, guard, rb, log), st, known)
  {
    if !rb.out.Fails? {
      assert TermKnown(AndT(cond, NotT(guard)), known) by { assert Syms(NotT(guard)) == Syms(guard); }
      TaintKnown(env, st, rb.out.env, rb.st, known);
      forall n | n in TaintState(env, rb.out.env, rb.st).tainted ensures n in st.tainted || TaintMark(n) {
        if n !in rb.st.tainted {
          var x :| x in Rebound(env, rb.out.env) && n == TaintName(rb.st.taints, x);
          TaintNamesAreMarked(rb.st.taints, x);
        }
      }
      hide TaintEnv, TaintState, Syms, Mentions;
    }
  }

  lemma TaintNamesAreMarked(k: nat, x: string)
    ensures TaintMark(TaintName(k, x))
  {
    var mark := "__tainted_";
    assert TaintName(k, x) == mark + (Decimal(k) + "_" + x);
  }

  lemma TaintKnown(env: Env, st: WState, after: Env, st': WState, known: iset<Sym>)
    requires EnvKnown(env, st.tainted, known) && st.tainted <= st'.tainted
    ensures EnvKnown(TaintEnv(env, after, st'), TaintState(env, after, st').tainted, known)
  {
    var env', tainted' := TaintEnv(env, after, st'), TaintState(env, after, st').tainted;
    EnvKnownGrow(env, st.tainted, tainted', known);
    forall x | x in env'
      ensures Mentions(env'[x].term, tainted') || forall s :: s in Syms(env'[x].term) ==> s in known
    {
      if x in Rebound(env, after) {
        var sym := Sym(TaintName(st'.taints, x), SortOf(after[x].term));
        assert sym in Syms(env'[x].term) && sym.name in tainted';
      }
    }
  }

  lemma {:induction false} WhileKnown(h: Stmt, env: Env, st: WState, cond: Term, cons: nat, unres: nat,
                                      known: iset<Sym>)
    requires h.While?
    requires EnvKnown(env, st.tainted, known) && TermKnown(cond, known) && (StmtWithinCap(h) || LoopsKnown(known))
    ensures ResKnown(WalkWhile(h, env, st, cond, cons, unres), st, known)
    decreases h, 1
  {
    var g := Guard(h.test, env);
    if g.Some? && !Mentions(g.value, st.tainted) {
      TranslatedKnown(h.test, env, st.tainted, known);
      var enter := AndT(cond, g.value);
      var rb := WalkBlock(h.body, env, st, enter, cons + 1, unres, false);
      BlockKnown(h.body, env, st, enter, cons + 1, unres, false, known);
      BlockBasics(h.body, env, st, enter, cons + 1, unres, false, map[]);
      LeaveLoopKnown(h.body, env, st, cond, g.value, rb,
                     [Visit(Label(h.line, KWhile), enter, cons, unres)] + rb.log + [Passed(h.line)], known);
    }
  }

  lemma SymsOfBound(op: CmpOp, i: Term, n: int)
    ensures Syms(CmpT(op, i, IntVal(n))) == Syms(i)
  {
    assert Syms(IntVal(n)) == {};
  }

  lemma {:induction false} AboveCapKnown(h: Stmt, env: Env, st: WState, cond: Term, cons: nat, unres: nat,
                                         known: iset<Sym>)
    requires h.For?
    requires EnvKnown(env, st.tainted, known) && TermKnown(cond, known) && LoopsKnown(known)
    ensures ResKnown(WalkForAboveCap(h, env, st, cond, cons, unres), st, known)
    decreases h, 0
  {
    var enter := AndT(cond, BoolVal(Entered(h)));
    var i := LoopIndex(h);
    var inside := SomeIteration(h, enter);
    assert i.sym in known && Syms(i) == {i.sym};
    SymsOfBound(Ge, i, inside.l.r.r.n);
    SymsOfBound(Le, i, inside.r.r.n);
    assert Syms(BoolVal(Entered(h))) == {} && TermKnown(enter, known);
    assert Syms(inside.l) == Syms(enter) + Syms(inside.l.r) && TermKnown(inside.l, known);
    assert Syms(inside) == Syms(inside.l) + Syms(inside.r) && TermKnown(inside, known);
    var env1, st1 := env[h.target := Entry(i, st.nextId)], st.(nextId := st.nextId + 1);
    var rb := WalkBlock(h.body, env1, st1, inside, cons + 1, unres, false);
    BlockKnown(h.body, env1, st1, inside, cons + 1, unres, false, known);
    BlockBasics(h.body, env1, st1, inside, cons + 1, unres, false, map[]);
    LeaveLoopKnown(h.body, env, st, cond, BoolVal(Entered(h)), rb,
                   [Visit(Label(h.line, KFor), enter, cons, unres)] + rb.log, known);
  }
}
