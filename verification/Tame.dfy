/**
  A reading of the program's text under which the walk is careful. `loose` is a set of variables
  that covers everything an approximated loop may bind and whatever is computed from it; a guard
  that reads none of them is never passed over for taint.
 */
module Tame {
  import opened PySubset
  import opened Interp
  import opened Terms
  import opened Walk
  import opened WalkBasics
  import opened Scope
  import opened Placement
  import opened Reach
  import opened Isolation
  import opened Verdicts
  import opened Careful

  function Reads(e: Expr): set<string> {
    match e
    case Num(_) => {}
    case Boolean(_) => {}
    case Name(x) => {x}
    case UAdd(a) => Reads(a)
    case USub(a) => Reads(a)
    case Not(a) => Reads(a)
    case Arith(_, a, b) => Reads(a) + Reads(b)
    case FloorDiv(a, _) => Reads(a)
    case Mod(a, _) => Reads(a)
    case And(a, b) => Reads(a) + Reads(b)
    case Or(a, b) => Reads(a) + Reads(b)
    case Compare(_, a, b) => Reads(a) + Reads(b)
    case Abs(a) => Reads(a)
    case Min(a, b) => Reads(a) + Reads(b)
    case Max(a, b) => Reads(a) + Reads(b)
  }

  // A guard that may be passed over: nothing on the line is inside the statement and, if the line is
  // still to come, the statement binds only variables that are new.
  predicate SkipTame(h: Stmt, test: Expr, loose: set<string>, known: set<string>, line: int, later: bool) {
    Reads(test) !! loose || (line !in Inner(h) && (later ==> StmtBinds(h) !! known))
  }

  predicate BlockTame(b: Block, loose: set<string>, known: set<string>, line: int, later: bool)
    decreases b, 0
  {
    b.Cons? ==>
      && StmtTame(b.head, loose, known, line, later || line in Lines(b.tail))
      && BlockTame(b.tail, loose, known + StmtBinds(b.head), line, later)
  }

  predicate StmtTame(h: Stmt, loose: set<string>, known: set<string>, line: int, later: bool)
    decreases h, 1
  {
    match h
    case Assign(_, x, e) => Reads(e) !! loose || x in loose
    case If(_, test, body, orelse) =>
      && SkipTame(h, test, loose, known, line, later)
      && BlockTame(body, loose, known, line, later) && BlockTame(orelse, loose, known, line, later)
    case While(_, test, body) =>
      && StmtBinds(h) <= loose && SkipTame(h, test, loose, known, line, later)
      && BlockTame(body, loose, known, line, later)
      // A loop that may return before the line must be one that is always entered.
      && (later && HasReturn(body) ==> test == Boolean(true))
    case For(_, x, _, _, _, body) =>
      if AboveCap(h) then
        StmtBinds(h) <= loose && BlockTame(body, loose, known + {x}, line, later) && (later ==> !HasReturn(body))
      else
        BlockTame(body, loose, known + {x} + Binds(body), line, later || line in Lines(body))
    case _ => true
  }

  // ---------------------------------------------------------------- taint stays among the loose

  // Names that look tainted are, and only loose variables mention them.
  predicate Contained(env: Env, tainted: set<string>, loose: set<string>) {
    && (forall n :: n in tainted ==> TaintMark(n))
    && (forall x :: x in env ==> Settled(env[x].term, tainted) && (Mentions(env[x].term, tainted) ==> x in loose))
  }

  predicate Settled(t: Term, tainted: set<string>) {
    forall s :: s in Syms(t) && TaintMark(s.name) ==> s.name in tainted
  }

  lemma ContainedGrows(env: Env, tainted: set<string>, tainted': set<string>, loose: set<string>)
    requires Contained(env, tainted, loose) && tainted <= tainted' && forall n :: n in tainted' ==> TaintMark(n)
    ensures Contained(env, tainted', loose)
  {
    forall x | x in env && Mentions(env[x].term, tainted') ensures x in loose {
      var s :| s in Syms(env[x].term) && s.name in tainted';
      assert Settled(env[x].term, tainted);
      assert Mentions(env[x].term, tainted);
    }
  }

  // Every symbol of a translated expression comes from a variable that it reads.
  lemma {:induction false} SymbolIsRead(e: Expr, env: Env, s: Sym) returns (x: string)
    requires Translate(e, env).Some? && s in Syms(Translate(e, env).value)
    ensures x in Reads(e) && x in env && s in Syms(env[x].term)
    decreases e, 1
  {
    var t := Translate(e, env).value;
    match e
    case Num(_) => assert false;
    case Boolean(_) => assert false;
    case Name(y) => x := y;
    case UAdd(a) => x := SymbolIsRead(a, env, s);
    case USub(a) => x := SymbolIsRead(a, env, s);
    case Not(a) => x := SymbolIsRead(a, env, s);
    case FloorDiv(a, _) => x := SymbolIsRead(a, env, s);
    case Mod(a, _) => x := SymbolIsRead(a, env, s);
    case Abs(a) =>
      assert Syms(t.c) == Syms(t.t) + Syms(IntVal(0)) && Syms(t.e) == Syms(t.t);
      x := SymbolIsRead(a, env, s);
    case _ => x := BinarySymbolIsRead(e, env, s);
  }

  lemma {:induction false} BinarySymbolIsRead(e: Expr, env: Env, s: Sym) returns (x: string)
    requires e.Arith? || e.And? || e.Or? || e.Compare? || e.Min? || e.Max?
    requires Translate(e, env).Some? && s in Syms(Translate(e, env).value)
    ensures x in Reads(e) && x in env && s in Syms(env[x].term)
    decreases e, 0
  {
    var l, r := Translate(e.l, env).value, Translate(e.r, env).value;
    assert Syms(Translate(e, env).value) == Syms(l) + Syms(r);
    if s in Syms(l) {
      x := SymbolIsRead(e.l, env, s);
    } else {
      x := SymbolIsRead(e.r, env, s);
    }
  }

  lemma TranslationIsContained(e: Expr, env: Env, tainted: set<string>, loose: set<string>)
    requires Translate(e, env).Some? && Contained(env, tainted, loose)
    ensures Settled(Translate(e, env).value, tainted)
    ensures Mentions(Translate(e, env).value, tainted) ==> !(Reads(e) !! loose)
  {
    var t := Translate(e, env).value;
    forall s | s in Syms(t) && TaintMark(s.name) ensures s.name in tainted {
      var x := SymbolIsRead(e, env, s);
      assert Settled(env[x].term, tainted);
    }
    if Mentions(t, tainted) {
      var s :| s in Syms(t) && s.name in tainted;
      var x := SymbolIsRead(e, env, s);
      assert Mentions(env[x].term, tainted);
      assert x in Reads(e) && x in loose;
    }
  }

  // A join on an untainted guard brings no taint of its own.
  lemma MergeIsContained(g: Term, bt: Env, bf: Env, id: nat, tainted: set<string>, loose: set<string>)
    requires Settled(g, tainted) && !Mentions(g, tainted) && Contained(bt, tainted, loose)
    requires Contained(bf, tainted, loose)
    ensures Contained(MergeEnvs(g, bt, bf, id), tainted, loose)
  {
    var merged := MergeEnvs(g, bt, bf, id);
    forall x | x in merged
      ensures Settled(merged[x].term, tainted) && (Mentions(merged[x].term, tainted) ==> x in loose)
    {
      var a, b := bt[x].term, bf[x].term;
      assert Settled(a, tainted) && Settled(b, tainted);
      if bt[x].id != bf[x].id {
        assert Syms(merged[x].term) == Syms(g) + Syms(a) + Syms(b);
        if Mentions(merged[x].term, tainted) {
          var s :| s in Syms(merged[x].term) && s.name in tainted;
          assert s in Syms(a) || s in Syms(b);
          assert Mentions(a, tainted) || Mentions(b, tainted);
        }
      }
    }
  }

  lemma TaintIsContained(env: Env, st: WState, after: Env, st': WState, loose: set<string>)
    requires Contained(env, st.tainted, loose) && st.tainted <= st'.tainted
    requires (forall n :: n in st'.tainted ==> TaintMark(n))
    requires Rebound(env, after) <= loose
    ensures Contained(TaintEnv(env, after, st'), TaintState(env, after, st').tainted, loose)
  {
    var env', tainted' := TaintEnv(env, after, st'), TaintState(env, after, st').tainted;
    forall n | n in tainted' ensures TaintMark(n) {
      if n !in st'.tainted {
        var x :| x in Rebound(env, after) && n == TaintName(st'.taints, x);
        TaintNamesAreMarked(st'.taints, x);
      }
    }
    ContainedGrows(env, st.tainted, tainted', loose);
    forall x | x in env' ensures Settled(env'[x].term, tainted') && (Mentions(env'[x].term, tainted') ==> x in loose) {
      if x in Rebound(env, after) {
        var sym := Sym(TaintName(st'.taints, x), SortOf(after[x].term));
        assert Syms(env'[x].term) == {sym} && sym.name in tainted';
      } else {
        assert env'[x] == env[x];
      }
    }
  }

  // ---------------------------------------------------------------- a tame text is walked carefully

  predicate Tamed(r: Res, loose: set<string>) {
    !r.out.Fails? ==> Contained(r.out.env, r.st.tainted, loose)
  }

  lemma {:induction false} BlockTamed(b: Block, env: Env, st: WState, cond: Term, cons: nat, unres: nat, u: bool,
                                      loose: set<string>, known: set<string>, line: int, later: bool)
    requires BlockTame(b, loose, known, line, later) && env.Keys <= known && Contained(env, st.tainted, loose)
    requires var r := WalkBlock(b, env, st, cond, cons, unres, u); !r.out.Fails? && Translated(r.log)
    ensures Tamed(WalkBlock(b, env, st, cond, cons, unres, u), loose)
    ensures BlockCareful(b, env, st, cond, cons, unres, u, line, later)
    decreases b, 0
  {
    match b
    case Nil =>
    case Cons(h, t) =>
      if Compound(h) {
        CompoundThenTamed(h, t, env, st, cond, cons, unres, u, loose, known, line, later);
      } else if h.Assign? {
        AssignThenTamed(h, t, env, st, cond, cons, unres, u, loose, known, line, later);
      } else if !h.Return? {
        StepOverTamed(h, t, env, st, cond, cons, unres, u, loose, known, line, later);
      }
  }

  lemma {:induction false} AssignThenTamed(h: Stmt, t: Block, env: Env, st: WState, cond: Term, cons: nat, unres: nat,
                                           u: bool, loose: set<string>, known: set<string>, line: int, later: bool)
    requires h.Assign? && BlockTame(Cons(h, t), loose, known, line, later) && env.Keys <= known
    requires Contained(env, st.tainted, loose)
    requires var r := WalkBlock(Cons(h, t), env, st, cond, cons, unres, u); !r.out.Fails? && Translated(r.log)
    ensures Tamed(WalkBlock(Cons(h, t), env, st, cond, cons, unres, u), loose)
    ensures BlockCareful(Cons(h, t), env, st, cond, cons, unres, u, line, later)
    decreases Cons(h, t), 0, 0
  {
    TranslationIsContained(h.e, env, st.tainted, loose);
    var env1, st1 := env[h.x := Entry(Translate(h.e, env).value, st.nextId)], st.(nextId := st.nextId + 1);
    BlockTamed(t, env1, st1, cond, cons, unres, u, loose, known + StmtBinds(h), line, later);
  }

  // `pass` and expression statements.
  lemma {:induction false} StepOverTamed(h: Stmt, t: Block, env: Env, st: WState, cond: Term, cons: nat, unres: nat,
                                         u: bool, loose: set<string>, known: set<string>, line: int, later: bool)
    requires (h.Pass? || h.ExprStmt?) && BlockTame(Cons(h, t), loose, known, line, later) && env.Keys <= known
    requires Contained(env, st.tainted, loose)
    requires var r := WalkBlock(Cons(h, t), env, st, cond, cons, unres, u); !r.out.Fails? && Translated(r.log)
    ensures Tamed(WalkBlock(Cons(h, t), env, st, cond, cons, unres, u), loose)
    ensures BlockCareful(Cons(h, t), env, st, cond, cons, unres, u, line, later)
    decreases Cons(h, t), 0, 0
  {
    StepOverTranslated(h, t, env, st, cond, cons, unres, u);
    hide Contained, Translated;
    BlockTamed(t, env, st, cond, cons, unres, u, loose, known + StmtBinds(h), line, later);
  }

  lemma StepOverTranslated(h: Stmt, t: Block, env: Env, st: WState, cond: Term, cons: nat, unres: nat, u: bool)
    requires h.Pass? || h.ExprStmt?
    ensures var whole := WalkBlock(Cons(h, t), env, st, cond, cons, unres, u);
      var rest := WalkBlock(t, env, st, cond, cons, unres, u);
      whole.out == rest.out && whole.st == rest.st && (Translated(whole.log) ==> Translated(rest.log))
  {
    var rest := WalkBlock(t, env, st, cond, cons, unres, u);
    if h.ExprStmt? {
      assert WalkBlock(Cons(h, t), env, st, cond, cons, unres, u) == Prepend([Passed(h.line)], rest);
      assert forall it :: it in rest.log ==> it in [Passed(h.line)] + rest.log;
    }
  }

  lemma {:induction false} CompoundThenTamed(h: Stmt, t: Block, env: Env, st: WState, cond: Term, cons: nat, unres: nat,
                                             u: bool, loose: set<string>, known: set<string>, line: int, later: bool)
    requires Compound(h) && env.Keys <= known && Contained(env, st.tainted, loose)
    requires StmtTame(h, loose, known, line, later || line in Lines(t))
    requires BlockTame(t, loose, known + StmtBinds(h), line, later)
    requires var r := WalkBlock(Cons(h, t), env, st, cond, cons, unres, u); !r.out.Fails? && Translated(r.log)
    ensures Tamed(WalkBlock(Cons(h, t), env, st, cond, cons, unres, u), loose)
    ensures BlockCareful(Cons(h, t), env, st, cond, cons, unres, u, line, later)
    decreases Cons(h, t), 0, 0
  {
    hide BlockCareful, Tamed;
    var r := WalkCompound(h, env, st, cond, cons, Bump(unres, u));
    PartsTranslated(h, t, env, st, cond, cons, unres, u);
    CompoundTamed(h, env, st, cond, cons, Bump(unres, u), loose, known, line, later || line in Lines(t));
    if r.out.Falls? {
      CompoundPlaced(h, env, st, cond, cons, Bump(unres, u));
      BlockTamed(t, r.out.env, r.st, r.out.cont, cons, unres, u || r.out.taint, loose,
                 known + StmtBinds(h), line, later);
    }
    ThenTamed(h, t, env, st, cond, cons, unres, u, loose, line, later);
  }

  lemma ThenTamed(h: Stmt, t: Block, env: Env, st: WState, cond: Term, cons: nat, unres: nat, u: bool,
                  loose: set<string>, line: int, later: bool)
    requires Compound(h)
    requires var r := WalkCompound(h, env, st, cond, cons, Bump(unres, u));
      && !r.out.Fails? && Tamed(r, loose)
        && StmtCareful(h, env, st, cond, cons, Bump(unres, u), line, later || line in Lines(t))
      && (r.out.Falls? ==>
            && Tamed(WalkBlock(t, r.out.env, r.st, r.out.cont, cons, unres, u || r.out.taint), loose)
            && BlockCareful(t, r.out.env, r.st, r.out.cont, cons, unres, u || r.out.taint, line, later))
    ensures Tamed(WalkBlock(Cons(h, t), env, st, cond, cons, unres, u), loose)
    ensures BlockCareful(Cons(h, t), env, st, cond, cons, unres, u, line, later)
  {
  }

  // Nothing in the block failed to translate.
  lemma PartsTranslated(h: Stmt, t: Block, env: Env, st: WState, cond: Term, cons: nat, unres: nat, u: bool)
    requires Compound(h) && Translated(WalkBlock(Cons(h, t), env, st, cond, cons, unres, u).log)
    ensures var r := WalkCompound(h, env, st, cond, cons, Bump(unres, u));
      && !r.out.Fails? && Translated(r.log)
      && (r.out.Falls? ==> Translated(WalkBlock(t, r.out.env, r.st, r.out.cont, cons, unres, u || r.out.taint).log))
  {
    var r := WalkCompound(h, env, st, cond, cons, Bump(unres, u));
    var whole := WalkBlock(Cons(h, t), env, st, cond, cons, unres, u);
    var bad := Unsolved(Label(h.line, KindOf(h)), false);
    assert r.out.Fails? ==> bad in whole.log;
    assert r.out.Closes? ==> r.log == whole.log;
    if r.out.Falls? {
      var rest := WalkBlock(t, r.out.env, r.st, r.out.cont, cons, unres, u || r.out.taint).log;
      assert whole.log == r.log + rest;
      forall it | it in r.log || it in rest ensures it in whole.log { }
    }
  }

  lemma {:induction false} CompoundTamed(h: Stmt, env: Env, st: WState, cond: Term, cons: nat, unres: nat,
                                         loose: set<string>, known: set<string>, line: int, later: bool)
    requires Compound(h) && StmtTame(h, loose, known, line, later) && env.Keys <= known
    requires Contained(env, st.tainted, loose)
    requires var r := WalkCompound(h, env, st, cond, cons, unres); !r.out.Fails? && Translated(r.log)
    ensures Tamed(WalkCompound(h, env, st, cond, cons, unres), loose)
    ensures StmtCareful(h, env, st, cond, cons, unres, line, later)
    decreases h, 2
  {
    match h
    case If(_, _, _, _) => IfTamed(h, env, st, cond, cons, unres, KIf, loose, known, line, later);
    case While(_, _, _) => WhileTamed(h, env, st, cond, cons, unres, loose, known, line, later);
    case For(_, _, _, _, _, _) => ForTamed(h, env, st, cond, cons, unres, loose, known, line, later);
  }

  lemma {:induction false} IfTamed(h: Stmt, env: Env, st: WState, cond: Term, cons: nat, unres: nat, kind: Kind,
                                   loose: set<string>, known: set<string>, line: int, later: bool)
    requires h.If? && StmtTame(h, loose, known, line, later) && env.Keys <= known && Contained(env, st.tainted, loose)
    requires var r := WalkIf(h, env, st, cond, cons, unres, kind); !r.out.Fails? && Translated(r.log)
    ensures Tamed(WalkIf(h, env, st, cond, cons, unres, kind), loose)
    ensures IfCareful(h, env, st, cond, cons, unres, line, later)
    decreases h, 1
  {
    var r := WalkIf(h, env, st, cond, cons, unres, kind);
    var g := Guard(h.test, env).value;
    TranslationIsContained(h.test, env, st.tainted, loose);
    if !Mentions(g, st.tainted) {
      var yes, no := AndT(cond, g), AndT(cond, NotT(g));
      var rb := WalkBlock(h.body, env, st, yes, cons, unres, false);
      var re := WalkElse(h.orelse, env, rb.st, no, cons, unres);
      assert r.log == [Visit(Label(h.line, kind), yes, cons, unres)] + rb.log + re.log;
      BlockTamed(h.body, env, st, yes, cons, unres, false, loose, known, line, later);
      BlockBasics(h.body, env, st, yes, cons, unres, false, map[]);
      ContainedGrows(env, st.tainted, rb.st.tainted, loose);
      ElseTamed(h.orelse, env, rb.st, no, cons, unres, loose, known, line, later);
      ElseBasics(h.orelse, env, rb.st, no, cons, unres, map[]);
      JoinTamed(g, env, st, rb, re, r.log, loose);
    }
  }

  lemma JoinTamed(g: Term, env: Env, st: WState, rb: Res, re: Res, log: seq<Item>, loose: set<string>)
    requires Settled(g, st.tainted) && !Mentions(g, st.tainted) && !rb.out.Fails? && !re.out.Fails?
    requires st.tainted <= rb.st.tainted <= re.st.tainted && Contained(env, rb.st.tainted, loose)
    requires Contained(rb.out.env, rb.st.tainted, loose) && Contained(re.out.env, re.st.tainted, loose)
    ensures !Join(g, env, rb, re, log).out.Fails? ==> Contained(Join(g, env, rb, re, log).out.env, re.st.tainted, loose)
  {
    ContainedGrows(rb.out.env, rb.st.tainted, re.st.tainted, loose);
    ContainedGrows(env, rb.st.tainted, re.st.tainted, loose);
    if rb.out.Falls? && re.out.Falls? {
      assert !Mentions(g, re.st.tainted) by {
        forall s | s in Syms(g) ensures s.name !in re.st.tainted {
          assert s.name in re.st.tainted ==> TaintMark(s.name);
        }
      }
      MergeIsContained(g, rb.out.env, re.out.env, re.st.nextId, re.st.tainted, loose);
    }
  }

  lemma {:induction false} ElseTamed(orelse: Block, env: Env, st: WState, cond: Term, cons: nat, unres: nat,
                                     loose: set<string>, known: set<string>, line: int, later: bool)
    requires BlockTame(orelse, loose, known, line, later) && env.Keys <= known && Contained(env, st.tainted, loose)
    requires var r := WalkElse(orelse, env, st, cond, cons, unres); !r.out.Fails? && Translated(r.log)
    ensures Tamed(WalkElse(orelse, env, st, cond, cons, unres), loose)
    ensures ElseCareful(orelse, env, st, cond, cons, unres, line, later)
    decreases orelse, 3
  {
    if IsElif(orelse) {
      assert (later || line in Lines(orelse.tail)) == later;
      IfTamed(orelse.head, env, st, cond, cons, unres, KElif, loose, known, line, later);
    } else if orelse.Cons? {
      BlockTamed(orelse, env, st, cond, cons, unres, false, loose, known, line, later);
    }
  }

  lemma {:induction false} WhileTamed(h: Stmt, env: Env, st: WState, cond: Term, cons: nat, unres: nat,
                                      loose: set<string>, known: set<string>, line: int, later: bool)
    requires h.While? && StmtTame(h, loose, known, line, later) && env.Keys <= known
    requires Contained(env, st.tainted, loose)
    requires var r := WalkWhile(h, env, st, cond, cons, unres); !r.out.Fails? && Translated(r.log)
    ensures Tamed(WalkWhile(h, env, st, cond, cons, unres), loose)
    ensures WhileCareful(h, env, st, cond, cons, unres, line, later)
    decreases h, 1
  {
    var r := WalkWhile(h, env, st, cond, cons, unres);
    var g := Guard(h.test, env).value;
    TranslationIsContained(h.test, env, st.tainted, loose);
    if !Mentions(g, st.tainted) {
      var enter := AndT(cond, g);
      var rb := WalkBlock(h.body, env, st, enter, cons + 1, unres, false);
      assert r.log == [Visit(Label(h.line, KWhile), enter, cons, unres)] + rb.log + [Passed(h.line)];
      BlockTamed(h.body, env, st, enter, cons + 1, unres, false, loose, known, line, later);
      BlockBasics(h.body, env, st, enter, cons + 1, unres, false, map[]);
      BlockPlaced(h.body, env, st, enter, cons + 1, unres, false);
      TaintIsContained(env, st, rb.out.env, rb.st, loose);
      if h.test == Boolean(true) { assert g == BoolVal(true) && forall m :: Eval(BoolVal(true), m) == 1; }
    }
  }

  lemma {:induction false} ForTamed(h: Stmt, env: Env, st: WState, cond: Term, cons: nat, unres: nat,
                                    loose: set<string>, known: set<string>, line: int, later: bool)
    requires h.For? && StmtTame(h, loose, known, line, later) && env.Keys <= known && Contained(env, st.tainted, loose)
    requires var r := WalkFor(h, env, st, cond, cons, unres); !r.out.Fails? && Translated(r.log)
    ensures Tamed(WalkFor(h, env, st, cond, cons, unres), loose)
    ensures ForCareful(h, env, st, cond, cons, unres, line, later)
    decreases h, 1
  {
    var vals := RangeValues(h.start, h.stop, h.step);
    if AboveCap(h) {
      AboveCapTamed(h, env, st, cond, cons, unres, loose, known, line, later);
    } else {
      var r := WalkUnrolled(h, vals, env, st, cond, cons, unres);
      assert r == WalkFor(h, env, st, cond, cons, unres);
      if vals != [] {
        var rc := WalkCopies(h.body, h.target, vals, env, st, cond, cons, unres, false, false);
        assert forall it :: it in rc.log ==> it in r.log;
        CopiesTamed(h.body, h.target, vals, env, st, cond, cons, unres, false, false, loose,
                    known + {h.target} + Binds(h.body), line, later || line in Lines(h.body));
      }
    }
  }

  lemma {:induction false} AboveCapTamed(h: Stmt, env: Env, st: WState, cond: Term, cons: nat, unres: nat,
                                         loose: set<string>, known: set<string>, line: int, later: bool)
    requires h.For? && h.step != 0 && AboveCap(h)
    requires StmtTame(h, loose, known, line, later) && env.Keys <= known && Contained(env, st.tainted, loose)
    requires var r := WalkFor(h, env, st, cond, cons, unres); !r.out.Fails? && Translated(r.log)
    ensures Tamed(WalkFor(h, env, st, cond, cons, unres), loose)
    ensures ForCareful(h, env, st, cond, cons, unres, line, later)
    decreases h, 0
  {
    var r := WalkForAboveCap(h, env, st, cond, cons, unres);
    assert r == WalkFor(h, env, st, cond, cons, unres);
    var enter := AndT(cond, BoolVal(Entered(h)));
    var env1, st1 := env[h.target := Entry(LoopIndex(h), st.nextId)], st.(nextId := st.nextId + 1);
    var rb := WalkBlock(h.body, env1, st1, SomeIteration(h, enter), cons + 1, unres, false);
    assert r.log == [Visit(Label(h.line, KFor), enter, cons, unres)] + rb.log;
    IndexIsContained(h, env, st, loose);
    BlockTamed(h.body, env1, st1, SomeIteration(h, enter), cons + 1, unres, false,
               loose, known + {h.target}, line, later);
    BlockBasics(h.body, env1, st1, SomeIteration(h, enter), cons + 1, unres, false, map[]);
    BlockPlaced(h.body, env1, st1, SomeIteration(h, enter), cons + 1, unres, false);
    TaintIsContained(env, st, rb.out.env, rb.st, loose);
  }

  lemma IndexIsContained(h: Stmt, env: Env, st: WState, loose: set<string>)
    requires h.For? && Contained(env, st.tainted, loose)
    ensures Contained(env[h.target := Entry(LoopIndex(h), st.nextId)], st.tainted, loose)
  {
    var name := LoopName(h.line, h.target);
    assert name[2] == 'l' && "__tainted_"[2] == 't' && !TaintMark(name);
    assert Syms(LoopIndex(h)) == {LoopIndex(h).sym};
  }

  lemma {:induction false} CopiesTamed(body: Block, x: string, vals: seq<int>, env: Env, st: WState, cond: Term,
                                       cons: nat, unres: nat, u: bool, closed: bool, loose: set<string>,
                                       known: set<string>, line: int, later: bool)
    requires BlockTame(body, loose, known, line, later) && env.Keys <= known && x in known && Binds(body) <= known
    requires Contained(env, st.tainted, loose)
    requires var r := WalkCopies(body, x, vals, env, st, cond, cons, unres, u, closed);
      !r.out.Fails? && Translated(r.log)
    ensures Tamed(WalkCopies(body, x, vals, env, st, cond, cons, unres, u, closed), loose)
    ensures CopiesCareful(body, x, vals, env, st, cond, cons, unres, u, line, later)
    decreases body, 1, |vals|
  {
    if vals != [] {
      var env1, st1 := env[x := Entry(IntVal(vals[0]), st.nextId)], st.(nextId := st.nextId + 1);
      assert Syms(IntVal(vals[0])) == {};
      var r := WalkBlock(body, env1, st1, cond, cons, Bump(unres, u), false);
      var cont := if r.out.Falls? then r.out.cont else BoolVal(false);
      var u', closed' := u || r.out.taint, closed || r.out.Closes?;
      CopiesTranslated(body, x, vals, env, st, cond, cons, unres, u, closed);
      BlockTamed(body, env1, st1, cond, cons, Bump(unres, u), false, loose, known, line, later);
      BlockPlaced(body, env1, st1, cond, cons, Bump(unres, u), false);
      CopiesTamed(body, x, vals[1..], r.out.env, r.st, cont, cons, unres, u', closed', loose, known, line, later);
      CopyThenTamed(body, x, vals, env, st, cond, cons, unres, u, closed, loose, line, later);
    }
  }

  lemma CopyThenTamed(body: Block, x: string, vals: seq<int>, env: Env, st: WState, cond: Term, cons: nat, unres: nat,
                      u: bool, closed: bool, loose: set<string>, line: int, later: bool)
    requires vals != []
    requires var env1, st1 := env[x := Entry(IntVal(vals[0]), st.nextId)], st.(nextId := st.nextId + 1);
      var r := WalkBlock(body, env1, st1, cond, cons, Bump(unres, u), false);
      && !r.out.Fails? && BlockCareful(body, env1, st1, cond, cons, Bump(unres, u), false, line, later)
      && var cont := if r.out.Falls? then r.out.cont else BoolVal(false);
         var u', closed' := u || r.out.taint, closed || r.out.Closes?;
         && Tamed(WalkCopies(body, x, vals[1..], r.out.env, r.st, cont, cons, unres, u', closed'), loose)
         && CopiesCareful(body, x, vals[1..], r.out.env, r.st, cont, cons, unres, u', line, later)
    ensures Tamed(WalkCopies(body, x, vals, env, st, cond, cons, unres, u, closed), loose)
    ensures CopiesCareful(body, x, vals, env, st, cond, cons, unres, u, line, later)
  {
    CopyFirst(body, x, vals, env, st, cond, cons, unres, u, closed);
    hide WalkCopies, WalkBlock, Contained;
  }

  lemma CopiesTranslated(body: Block, x: string, vals: seq<int>, env: Env, st: WState, cond: Term, cons: nat,
                         unres: nat, u: bool, closed: bool)
    requires vals != []
    requires var all := WalkCopies(body, x, vals, env, st, cond, cons, unres, u, closed);
      !all.out.Fails? && Translated(all.log)
    ensures var r := WalkBlock(body, env[x := Entry(IntVal(vals[0]), st.nextId)], st.(nextId := st.nextId + 1), cond,
                               cons,
                               Bump(unres, u), false);
      && !r.out.Fails? && Translated(r.log)
      && var rest := WalkCopies(body, x, vals[1..], r.out.env, r.st,
                                if r.out.Falls? then r.out.cont else BoolVal(false), cons, unres,
                                u || r.out.taint, closed || r.out.Closes?);
         !rest.out.Fails? && Translated(rest.log)
  {
    var r := WalkBlock(body, env[x := Entry(IntVal(vals[0]), st.nextId)], st.(nextId := st.nextId + 1), cond, cons,
                       Bump(unres, u), false);
    if !r.out.Fails? {
      var rest := WalkCopies(body, x, vals[1..], r.out.env, r.st, if r.out.Falls? then r.out.cont else BoolVal(false),
                             cons, unres,
                             u || r.out.taint, closed || r.out.Closes?);
      var all := WalkCopies(body, x, vals, env, st, cond, cons, unres, u, closed);
      assert all == Prepend(r.log, rest);
      forall it | it in r.log || it in rest.log ensures it in all.log { }
    }
  }
}
