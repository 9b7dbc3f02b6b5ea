/**
  When no guard is passed over for taint: a reading of the text in which no guard reads a loose
  variable, one that an approximated loop may bind or that is computed from such a variable.
 */
module Clear {
  import opened PySubset
  import opened Interp
  import opened Terms
  import opened Walk
  import opened WalkBasics
  import opened Scope
  import opened Placement
  import opened Reach
  import opened Isolation
  import opened Tame
  import opened Verdicts

  predicate BlockClear(b: Block, loose: set<string>)
    decreases b, 0
  {
    b.Cons? ==> StmtClear(b.head, loose) && BlockClear(b.tail, loose)
  }

  predicate StmtClear(h: Stmt, loose: set<string>)
    decreases h, 1
  {
    match h
    case Assign(_, x, e) => Reads(e) !! loose || x in loose
    case If(_, test, body, orelse) => Reads(test) !! loose && BlockClear(body, loose) && BlockClear(orelse, loose)
    case While(_, test, body) => StmtBinds(h) <= loose && Reads(test) !! loose && BlockClear(body, loose)
    case For(_, _, _, _, _, body) => (AboveCap(h) ==> StmtBinds(h) <= loose) && BlockClear(body, loose)
    case _ => true
  }

  // Nothing passed over for taint, and taint stays among the loose variables.
  predicate Clean(r: Res, loose: set<string>) {
    && NothingTaintedOver(r.log)
    && (forall n :: n in r.st.tainted ==> TaintMark(n))
    && (!r.out.Fails? ==> Contained(r.out.env, r.st.tainted, loose))
  }

  lemma CleanThen(log: seq<Item>, r: Res, loose: set<string>)
    requires NothingTaintedOver(log) && Clean(r, loose)
    ensures Clean(Prepend(log, r), loose)
  {
  }

  // A guard that is clear to read mentions nothing tainted.
  lemma GuardIsClear(test: Expr, env: Env, tainted: set<string>, loose: set<string>)
    requires Contained(env, tainted, loose) && Reads(test) !! loose && Guard(test, env).Some?
    ensures !Mentions(Guard(test, env).value, tainted) && Settled(Guard(test, env).value, tainted)
  {
    TranslationIsContained(test, env, tainted, loose);
  }

  lemma {:induction false} BlockIsClean(b: Block, env: Env, st: WState, cond: Term, cons: nat, unres: nat, u: bool,
                                        loose: set<string>)
    requires BlockClear(b, loose) && Contained(env, st.tainted, loose)
    ensures Clean(WalkBlock(b, env, st, cond, cons, unres, u), loose)
    decreases b, 0
  {
    match b
    case Nil =>
    case Cons(h, t) =>
      if Compound(h) {
        CompoundThenClean(h, t, env, st, cond, cons, unres, u, loose);
      } else if h.Assign? {
        if Translate(h.e, env).Some? {
          var env1 := env[h.x := Entry(Translate(h.e, env).value, st.nextId)];
          TranslationIsContained(h.e, env, st.tainted, loose);
          BlockIsClean(t, env1, st.(nextId := st.nextId + 1), cond, cons, unres, u, loose);
        }
      } else if !h.Return? {
        var r := WalkBlock(t, env, st, cond, cons, unres, u);
        assert WalkBlock(b, env, st, cond, cons, unres, u) == if h.Pass? then r else Prepend([Passed(h.line)], r);
        BlockIsClean(t, env, st, cond, cons, unres, u, loose);
      }
  }

  lemma {:induction false} CompoundThenClean(h: Stmt, t: Block, env: Env, st: WState, cond: Term, cons: nat, unres: nat,
                                             u: bool, loose: set<string>)
    requires Compound(h) && StmtClear(h, loose) && BlockClear(t, loose) && Contained(env, st.tainted, loose)
    ensures Clean(WalkBlock(Cons(h, t), env, st, cond, cons, unres, u), loose)
    decreases Cons(h, t), 0, 0
  {
    var r := WalkCompound(h, env, st, cond, cons, Bump(unres, u));
    CompoundClean(h, env, st, cond, cons, Bump(unres, u), loose);
    CompoundBasics(h, env, st, cond, cons, Bump(unres, u), map[]);
    if r.out.Fails? {
      ContainedGrows(env, st.tainted, r.st.tainted, loose);
      BlockIsClean(t, env, r.st, cond, cons, unres, true, loose);
      CleanThen(r.log + [Unsolved(Label(h.line, KindOf(h)), false)], WalkBlock(t, env, r.st, cond, cons, unres, true),
                loose);
    } else if r.out.Falls? {
      BlockIsClean(t, r.out.env, r.st, r.out.cont, cons, unres, u || r.out.taint, loose);
      CleanThen(r.log, WalkBlock(t, r.out.env, r.st, r.out.cont, cons, unres, u || r.out.taint), loose);
    }
  }

  lemma {:induction false} CompoundClean(h: Stmt, env: Env, st: WState, cond: Term, cons: nat, unres: nat,
                                         loose: set<string>)
    requires Compound(h) && StmtClear(h, loose) && Contained(env, st.tainted, loose)
    ensures Clean(WalkCompound(h, env, st, cond, cons, unres), loose)
    decreases h, 2
  {
    match h
    case If(_, _, _, _) => IfClean(h, env, st, cond, cons, unres, KIf, loose);
    case While(_, _, _) => WhileClean(h, env, st, cond, cons, unres, loose);
    case For(_, x, start, stop, step, body) =>
      var vals := RangeValues(start, stop, step);
      if step != 0 {
        if |vals| > MAX_UNROLL_ITERATIONS {
          assert WalkFor(h, env, st, cond, cons, unres) == WalkForAboveCap(h, env, st, cond, cons, unres);
          AboveCapClean(h, env, st, cond, cons, unres, loose);
        } else {
          var r := WalkUnrolled(h, vals, env, st, cond, cons, unres);
          assert WalkFor(h, env, st, cond, cons, unres) == r;
          if vals != [] { CopiesClean(body, x, vals, env, st, cond, cons, unres, false, false, loose); }
        }
      }
  }

  lemma {:induction false} IfClean(h: Stmt, env: Env, st: WState, cond: Term, cons: nat, unres: nat, kind: Kind,
                                   loose: set<string>)
    requires h.If? && StmtClear(h, loose) && Contained(env, st.tainted, loose)
    ensures Clean(WalkIf(h, env, st, cond, cons, unres, kind), loose)
    decreases h, 1
  {
    if Guard(h.test, env).Some? {
      var g := Guard(h.test, env).value;
      GuardIsClear(h.test, env, st.tainted, loose);
      var yes, no := AndT(cond, g), AndT(cond, NotT(g));
      var rb := WalkBlock(h.body, env, st, yes, cons, unres, false);
      BlockIsClean(h.body, env, st, yes, cons, unres, false, loose);
      BlockBasics(h.body, env, st, yes, cons, unres, false, map[]);
      if !rb.out.Fails? {
        ContainedGrows(env, st.tainted, rb.st.tainted, loose);
        ElseClean(h.orelse, env, rb.st, no, cons, unres, loose);
        ElseBasics(h.orelse, env, rb.st, no, cons, unres, map[]);
        var re := WalkElse(h.orelse, env, rb.st, no, cons, unres);
        var log := [Visit(Label(h.line, kind), yes, cons, unres)] + rb.log + re.log;
        assert WalkIf(h, env, st, cond, cons, unres, kind) == Join(g, env, rb, re, log);
        JoinClean(g, env, st, rb, re, log, loose);
      }
    }
  }

  lemma JoinClean(g: Term, env: Env, st: WState, rb: Res, re: Res, log: seq<Item>, loose: set<string>)
    requires Contained(env, st.tainted, loose) && Settled(g, st.tainted) && !Mentions(g, st.tainted)
    requires !rb.out.Fails? && Clean(rb, loose) && Clean(re, loose) && NothingTaintedOver(log)
    requires st.tainted <= rb.st.tainted <= re.st.tainted
    ensures Clean(Join(g, env, rb, re, log), loose)
  {
    ContainedGrows(env, st.tainted, re.st.tainted, loose);
    ContainedGrows(rb.out.env, rb.st.tainted, re.st.tainted, loose);
    if rb.out.Falls? && re.out.Falls? {
      assert Settled(g, re.st.tainted);
      assert !Mentions(g, re.st.tainted) by {
        forall s | s in Syms(g) ensures s.name !in re.st.tainted {
          assert TaintMark(s.name) ==> s.name in st.tainted;
        }
      }
      MergeIsContained(g, rb.out.env, re.out.env, re.st.nextId, re.st.tainted, loose);
    }
  }

  lemma {:induction false} ElseClean(orelse: Block, env: Env, st: WState, cond: Term, cons: nat, unres: nat,
                                     loose: set<string>)
    requires BlockClear(orelse, loose) && Contained(env, st.tainted, loose)
    ensures Clean(WalkElse(orelse, env, st, cond, cons, unres), loose)
    decreases orelse, 3
  {
    if IsElif(orelse) {
      IfClean(orelse.head, env, st, cond, cons, unres, KElif, loose);
    } else if orelse.Cons? {
      BlockIsClean(orelse, env, st, cond, cons, unres, false, loose);
      CleanThen([Visit(Label(orelse.head.line, KElse), cond, cons, unres)],
                WalkBlock(orelse, env, st, cond, cons, unres, false), loose);
    }
  }

  // After an approximated loop that binds loose variables only.
  lemma LeaveClean(body: Block, env: Env, st: WState, cond: Term, g: Term, rb: Res, log: seq<Item>,
                   binds: set<string>, loose: set<string>)
    requires Contained(env, st.tainted, loose) && st.tainted <= rb.st.tainted
    requires Clean(rb, loose) && NothingTaintedOver(log)
    requires binds <= loose && (!rb.out.Fails? ==> Spared(env, rb.out.env, binds))
    ensures Clean(LeaveLoop(body, env, cond, g, rb, log), loose)
  {
    if !rb.out.Fails? { TaintIsContained(env, st, rb.out.env, rb.st, loose); }
  }

  lemma {:induction false} WhileClean(h: Stmt, env: Env, st: WState, cond: Term, cons: nat, unres: nat,
                                      loose: set<string>)
    requires h.While? && StmtClear(h, loose) && Contained(env, st.tainted, loose)
    ensures Clean(WalkWhile(h, env, st, cond, cons, unres), loose)
    decreases h, 1
  {
    if Guard(h.test, env).Some? {
      var g := Guard(h.test, env).value;
      GuardIsClear(h.test, env, st.tainted, loose);
      var enter := AndT(cond, g);
      var rb := WalkBlock(h.body, env, st, enter, cons + 1, unres, false);
      var log := [Visit(Label(h.line, KWhile), enter, cons, unres)] + rb.log + [Passed(h.line)];
      assert WalkWhile(h, env, st, cond, cons, unres) == LeaveLoop(h.body, env, cond, g, rb, log);
      BlockIsClean(h.body, env, st, enter, cons + 1, unres, false, loose);
      BlockBasics(h.body, env, st, enter, cons + 1, unres, false, map[]);
      BlockPlaced(h.body, env, st, enter, cons + 1, unres, false);
      LeaveClean(h.body, env, st, cond, g, rb, log, Binds(h.body), loose);
    }
  }

  lemma {:induction false} AboveCapClean(h: Stmt, env: Env, st: WState, cond: Term, cons: nat, unres: nat,
                                         loose: set<string>)
    requires h.For? && StmtBinds(h) <= loose && BlockClear(h.body, loose) && Contained(env, st.tainted, loose)
    ensures Clean(WalkForAboveCap(h, env, st, cond, cons, unres), loose)
    decreases h, 0
  {
    var enter := AndT(cond, BoolVal(Entered(h)));
    var inside := SomeIteration(h, enter);
    var env1, st1 := env[h.target := Entry(LoopIndex(h), st.nextId)], st.(nextId := st.nextId + 1);
    var rb := WalkBlock(h.body, env1, st1, inside, cons + 1, unres, false);
    var log := [Visit(Label(h.line, KFor), enter, cons, unres)] + rb.log;
    assert WalkForAboveCap(h, env, st, cond, cons, unres)
        == LeaveLoop(h.body, env, cond, BoolVal(Entered(h)), rb, log);
    assert Contained(env1, st1.tainted, loose) by { IndexIsSettled(h, st.tainted); }
    BlockIsClean(h.body, env1, st1, inside, cons + 1, unres, false, loose);
    BlockBasics(h.body, env1, st1, inside, cons + 1, unres, false, map[]);
    BlockPlaced(h.body, env1, st1, inside, cons + 1, unres, false);
    LeaveClean(h.body, env, st, cond, BoolVal(Entered(h)), rb, log, StmtBinds(h), loose);
  }

  // The symbol of a loop's index does not look tainted.
  lemma IndexIsSettled(h: Stmt, tainted: set<string>)
    requires h.For?
    ensures Settled(LoopIndex(h), tainted)
  {
    assert Syms(LoopIndex(h)) == {LoopIndex(h).sym};
    assert LoopName(h.line, h.target)[2] == 'l' && "__tainted_"[2] == 't';
  }

  lemma {:induction false} CopiesClean(body: Block, x: string, vals: seq<int>, env: Env, st: WState, cond: Term,
                                       cons: nat, unres: nat, u: bool, closed: bool, loose: set<string>)
    requires BlockClear(body, loose) && Contained(env, st.tainted, loose)
    ensures Clean(WalkCopies(body, x, vals, env, st, cond, cons, unres, u, closed), loose)
    decreases body, 1, |vals|
  {
    if vals != [] {
      var env1, st1 := env[x := Entry(IntVal(vals[0]), st.nextId)], st.(nextId := st.nextId + 1);
      var r := WalkBlock(body, env1, st1, cond, cons, Bump(unres, u), false);
      CopyFirst(body, x, vals, env, st, cond, cons, unres, u, closed);
      assert Syms(IntVal(vals[0])) == {};
      assert Contained(env1, st1.tainted, loose);
      BlockIsClean(body, env1, st1, cond, cons, Bump(unres, u), false, loose);
      if !r.out.Fails? {
        var cont := if r.out.Falls? then r.out.cont else BoolVal(false);
        var u', closed' := u || r.out.taint, closed || r.out.Closes?;
        CopiesClean(body, x, vals[1..], r.out.env, r.st, cont, cons, unres, u', closed', loose);
        CleanThen(r.log, WalkCopies(body, x, vals[1..], r.out.env, r.st, cont, cons, unres, u', closed'), loose);
      }
    }
  }
}
