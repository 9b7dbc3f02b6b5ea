/**
  No false `dead`, when nothing was passed over: every arm that a run enters has a report whose
  path condition the input satisfies, or one made after a closure that was left unresolved, or one
  made inside an approximated loop of which the run reaches a later iteration.
 */
module Dead {
  import opened PySubset
  import opened Interp
  import opened Terms
  import opened Walk
  import opened WalkBasics
  import opened Agreement
  import opened AnyStore
  import opened Coverage
  import opened Joins
  import opened Scope
  import opened Placement
  import opened Depths
  import opened Ranges

  // `cons` and `unres` are the depths at which the walk started.
  datatype Place = Place(cons: nat, unres: nat, far: set<int>)

  predicate Possible(it: Item, l: Label, at: Place, m: Model) {
    && it.Visit? && it.arm == l
    && (Holds(it.cond, m) || it.unres > at.unres || (it.cons > at.cons && l.line in at.far))
  }

  predicate Justified(l: Label, log: seq<Item>, at: Place, m: Model) {
    exists it :: it in log && Possible(it, l, at, m)
  }

  predicate Justifies(log: seq<Item>, trace: seq<Label>, at: Place, m: Model) {
    forall l :: l in trace ==> Justified(l, log, at, m)
  }

  lemma JustifiesSeq(log: seq<Item>, log': seq<Item>, trace: seq<Label>, trace': seq<Label>, at: Place, m: Model)
    requires Justifies(log, trace, at, m) && Justifies(log', trace', at, m)
    ensures Justifies(log + log', trace + trace', at, m)
  {
    forall l | l in trace + trace' ensures Justified(l, log + log', at, m) {
      if l in trace {
        var it :| it in log && Possible(it, l, at, m);
        assert it in log + log';
      } else {
        assert l in trace';
        var it :| it in log' && Possible(it, l, at, m);
        assert it in log + log';
      }
    }
  }

  // One arm entered, and then the run in it; `after` reports on arms that were not entered.
  lemma JustifiesEnter(visit: Item, log: seq<Item>, after: seq<Item>, trace: seq<Label>, at: Place, m: Model)
    requires visit.Visit? && Holds(visit.cond, m) && Justifies(log, trace, at, m)
    ensures Justifies([visit] + log + after, [visit.arm] + trace, at, m)
  {
    assert Justifies([visit], [visit.arm], at, m) by {
      assert visit in [visit] && Possible(visit, visit.arm, at, m);
    }
    JustifiesSeq([visit], log, [visit.arm], trace, at, m);
    JustifiesSeq([visit] + log, after, [visit.arm] + trace, [], at, m);
    assert [visit.arm] + trace + [] == [visit.arm] + trace;
  }

  // After an unresolved closure, being visited is all it takes.
  lemma UnresolvedIsJustified(log: seq<Item>, trace: seq<Label>, cond: Term, cons: nat, unres: nat, at: Place, m: Model)
    requires LogUnder(log, cond, cons, unres, m) && unres > at.unres
    requires forall l :: l in trace ==> Visited(l, log)
    ensures Justifies(log, trace, at, m)
  {
    forall l | l in trace ensures Justified(l, log, at, m) {
      var it :| it in log && it.Visit? && it.arm == l;
      assert ItemUnder(it, cond, cons, unres, m) && Possible(it, l, at, m);
    }
  }

  lemma {:induction false} BlockJustified(b: Block, env: Env, st: WState, cond: Term, at: Place, s: Store, fuel: nat,
                                          m: Model)
    requires var r := WalkBlock(b, env, st, cond, at.cons, at.unres, false); !r.out.Fails? && Resolved(r.log)
    requires Fresh(env, st) && Agrees(env, st.tainted, s, m) && Holds(cond, m) && Recurs(b, at.far, fuel)
    ensures Justifies(WalkBlock(b, env, st, cond, at.cons, at.unres, false).log, ExecBlock(b, s, fuel).trace, at, m)
    decreases b, 0
  {
    match b
    case Nil =>
    case Cons(h, t) =>
      if Compound(h) {
        CompoundThenJustified(h, t, env, st, cond, at, s, fuel, m);
      } else if h.Assign? {
        var v := Translate(h.e, env);
        var env1, st1 := env[h.x := Entry(v.value, st.nextId)], st.(nextId := st.nextId + 1);
        TranslatedIsBound(h.e, env, s);
        if !Mentions(v.value, st.tainted) { TranslateIsSound(h.e, env, st.tainted, s, m); }
        BlockJustified(t, env1, st1, cond, at, s[h.x := EvalExpr(h.e, s).value], fuel, m);
      } else if !h.Return? {
        BlockJustified(t, env, st, cond, at, s, fuel, m);
        var r := WalkBlock(t, env, st, cond, at.cons, at.unres, false);
        if h.ExprStmt? {
          JustifiesSeq([Passed(h.line)], r.log, [], ExecBlock(t, s, fuel).trace, at, m);
        }
        assert [] + ExecBlock(t, s, fuel).trace == ExecBlock(t, s, fuel).trace;
      }
  }

  lemma {:induction false} CompoundThenJustified(h: Stmt, t: Block, env: Env, st: WState, cond: Term, at: Place,
                                                 s: Store, fuel: nat, m: Model)
    requires Compound(h) && StmtRecurs(h, at.far, fuel) && Recurs(t, at.far, fuel)
    requires var r := WalkBlock(Cons(h, t), env, st, cond, at.cons, at.unres, false);
      !r.out.Fails? && Resolved(r.log)
    requires Fresh(env, st) && Agrees(env, st.tainted, s, m) && Holds(cond, m)
    ensures Justifies(WalkBlock(Cons(h, t), env, st, cond, at.cons, at.unres, false).log,
                      ExecBlock(Cons(h, t), s, fuel).trace, at, m)
    decreases Cons(h, t), 0, 0
  {
    var whole := WalkBlock(Cons(h, t), env, st, cond, at.cons, at.unres, false);
    var r := WalkCompound(h, env, st, cond, at.cons, at.unres);
    var bad := Unsolved(Label(h.line, KindOf(h)), false);
    assert r.out.Fails? ==> bad in whole.log;
    var e := ExecStmt(h, s, fuel);
    if !r.out.Fails? {
      CompoundJustified(h, env, st, cond, at, s, fuel, m);
      CompoundExact(h, env, st, cond, at.cons, at.unres, s, fuel, m);
      CompoundCovered(h, env, st, cond, at.cons, at.unres, s, fuel);
      CompoundBasics(h, env, st, cond, at.cons, at.unres, m);
      if r.out.Falls? {
        var rest := WalkBlock(t, r.out.env, r.st, r.out.cont, at.cons, at.unres, r.out.taint);
        assert whole.log == r.log + rest.log;
        if !e.status.Fell? {
          JustifiesSeq(r.log, rest.log, e.trace, [], at, m);
          assert e.trace + [] == e.trace;
        } else {
          var e' := ExecBlock(t, e.status.store, fuel);
          if r.out.taint {
            BlockCovered(t, r.out.env, r.st, r.out.cont, at.cons, at.unres, true, e.status.store, fuel);
            BlockBasics(t, r.out.env, r.st, r.out.cont, at.cons, at.unres, true, m);
            UnresolvedIsJustified(rest.log, e'.trace, r.out.cont, at.cons, at.unres + 1, at, m);
          } else {
            BlockJustified(t, r.out.env, r.st, r.out.cont, at, e.status.store, fuel, m);
          }
          JustifiesSeq(r.log, rest.log, e.trace, e'.trace, at, m);
        }
      }
    }
  }

  lemma {:induction false} CompoundJustified(h: Stmt, env: Env, st: WState, cond: Term, at: Place, s: Store, fuel: nat,
                                             m: Model)
    requires Compound(h) && StmtRecurs(h, at.far, fuel)
    requires var r := WalkCompound(h, env, st, cond, at.cons, at.unres); !r.out.Fails? && Resolved(r.log)
    requires Fresh(env, st) && Agrees(env, st.tainted, s, m) && Holds(cond, m)
    ensures Justifies(WalkCompound(h, env, st, cond, at.cons, at.unres).log, ExecStmt(h, s, fuel).trace, at, m)
    decreases h, 2
  {
    match h
    case If(_, _, _, _) => IfJustified(h, env, st, cond, at, KIf, s, fuel, m);
    case While(_, _, _) => WhileJustified(h, env, st, cond, at, s, fuel, m);
    case For(_, _, _, _, _, _) => ForJustified(h, env, st, cond, at, s, fuel, m);
  }

  lemma {:induction false} IfJustified(h: Stmt, env: Env, st: WState, cond: Term, at: Place, kind: Kind, s: Store,
                                       fuel: nat, m: Model)
    requires h.If? && StmtRecurs(h, at.far, fuel)
    requires var r := WalkIf(h, env, st, cond, at.cons, at.unres, kind); !r.out.Fails? && Resolved(r.log)
    requires Fresh(env, st) && Agrees(env, st.tainted, s, m) && Holds(cond, m)
    ensures Justifies(WalkIf(h, env, st, cond, at.cons, at.unres, kind).log, ExecIf(h, s, fuel, kind).trace, at, m)
    decreases h, 1
  {
    var r := WalkIf(h, env, st, cond, at.cons, at.unres, kind);
    var g := Guard(h.test, env).value;
    assert Mentions(g, st.tainted) ==> Unsolved(Label(h.line, kind), true) in r.log;
    if !Mentions(g, st.tainted) {
      TranslateIsSound(h.test, env, st.tainted, s, m);
      var yes, no := AndT(cond, g), AndT(cond, NotT(g));
      assert Holds(no, m) == !Holds(g, m) by { assert Holds(NotT(g), m) == !Holds(g, m); }
      var rb := WalkBlock(h.body, env, st, yes, at.cons, at.unres, false);
      var re := WalkElse(h.orelse, env, rb.st, no, at.cons, at.unres);
      var visit := Visit(Label(h.line, kind), yes, at.cons, at.unres);
      assert r.log == [visit] + rb.log + re.log;
      BlockBasics(h.body, env, st, yes, at.cons, at.unres, false, m);
      if Holds(g, m) {
        BlockJustified(h.body, env, st, yes, at, s, fuel, m);
        JustifiesEnter(visit, rb.log, re.log, ExecBlock(h.body, s, fuel).trace, at, m);
      } else {
        AgreesGrow(env, st.tainted, rb.st.tainted, s, m);
        ElseJustified(h.orelse, env, rb.st, no, at, s, fuel, m);
        var e := ExecElse(h.orelse, s, fuel);
        JustifiesSeq([visit] + rb.log, re.log, [], e.trace, at, m);
        assert [] + e.trace == e.trace;
      }
    }
  }

  lemma {:induction false} ElseJustified(orelse: Block, env: Env, st: WState, cond: Term, at: Place, s: Store,
                                         fuel: nat, m: Model)
    requires var r := WalkElse(orelse, env, st, cond, at.cons, at.unres); !r.out.Fails? && Resolved(r.log)
    requires Fresh(env, st) && Agrees(env, st.tainted, s, m) && Holds(cond, m) && Recurs(orelse, at.far, fuel)
    ensures Justifies(WalkElse(orelse, env, st, cond, at.cons, at.unres).log, ExecElse(orelse, s, fuel).trace, at, m)
    decreases orelse, 3
  {
    if IsElif(orelse) {
      IfJustified(orelse.head, env, st, cond, at, KElif, s, fuel, m);
    } else if orelse.Cons? {
      var visit := Visit(Label(orelse.head.line, KElse), cond, at.cons, at.unres);
      var r := WalkBlock(orelse, env, st, cond, at.cons, at.unres, false);
      BlockJustified(orelse, env, st, cond, at, s, fuel, m);
      JustifiesEnter(visit, r.log, [], ExecBlock(orelse, s, fuel).trace, at, m);
      assert [visit] + r.log + [] == [visit] + r.log;
    }
  }

  lemma {:induction false} WhileJustified(h: Stmt, env: Env, st: WState, cond: Term, at: Place, s: Store, fuel: nat,
                                          m: Model)
    requires h.While? && StmtRecurs(h, at.far, fuel)
    requires var r := WalkWhile(h, env, st, cond, at.cons, at.unres); !r.out.Fails? && Resolved(r.log)
    requires Fresh(env, st) && Agrees(env, st.tainted, s, m) && Holds(cond, m)
    ensures Justifies(WalkWhile(h, env, st, cond, at.cons, at.unres).log, ExecWhile(h, s, fuel).trace, at, m)
    decreases h, 1
  {
    var r := WalkWhile(h, env, st, cond, at.cons, at.unres);
    var g := Guard(h.test, env).value;
    assert Mentions(g, st.tainted) ==> Unsolved(Label(h.line, KWhile), true) in r.log;
    if !Mentions(g, st.tainted) {
      TranslateIsSound(h.test, env, st.tainted, s, m);
      if Holds(g, m) {
        var enter := AndT(cond, g);
        var rb := WalkBlock(h.body, env, st, enter, at.cons + 1, at.unres, false);
        var visit := Visit(Label(h.line, KWhile), enter, at.cons, at.unres);
        assert r.log == [visit] + rb.log + [Passed(h.line)];
        if fuel <= 1 {
          if fuel == 1 {
            BlockJustified(h.body, env, st, enter, at.(cons := at.cons + 1), s, fuel, m);
            OneIteration(h, s);
            JustifiesDeeper(rb.log, ExecBlock(h.body, s, fuel).trace, at, m);
            JustifiesEnter(visit, rb.log, [Passed(h.line)], ExecBlock(h.body, s, fuel).trace, at, m);
          }
        } else {
          BlockBasics(h.body, env, st, enter, at.cons + 1, at.unres, false, m);
          BlockPlaced(h.body, env, st, enter, at.cons + 1, at.unres, false);
          IterationsCovered(h, env, st, cond, at.cons, at.unres, s, fuel);
          LoopJustified(visit, rb.log, r.log, enter, ExecWhile(h, s, fuel).trace, at, m);
        }
      }
    }
  }

  // With fuel for one iteration, a loop that is entered makes just that one.
  lemma OneIteration(h: Stmt, s: Store)
    requires h.While? && EvalExpr(h.test, s).Some? && EvalExpr(h.test, s).value != 0
    ensures ExecWhile(h, s, 1).trace == [Label(h.line, KWhile)] + ExecBlock(h.body, s, 1).trace
  {
    var e := ExecBlock(h.body, s, 1);
    if e.status.Fell? { assert ExecWhile(h, e.status.store, 0).trace == []; }
  }

  lemma JustifiesDeeper(log: seq<Item>, trace: seq<Label>, at: Place, m: Model)
    requires Justifies(log, trace, at.(cons := at.cons + 1), m)
    ensures Justifies(log, trace, at, m)
  {
    forall l | l in trace ensures Justified(l, log, at, m) {
      var it :| it in log && Possible(it, l, at.(cons := at.cons + 1), m);
      assert Possible(it, l, at, m);
    }
  }

  // Arms inside the body, in whatever iteration, are reported inside an approximated loop.
  lemma LoopJustified(visit: Item, body: seq<Item>, log: seq<Item>, cond: Term, trace: seq<Label>, at: Place, m: Model)
    requires visit.Visit? && Holds(visit.cond, m) && visit in log
    requires LogUnder(body, cond, at.cons + 1, at.unres, m) && (forall it :: it in body ==> it in log)
    requires forall it :: it in body ==> ItemOn(it, at.far)
    requires forall it :: it in log && it.Visit? ==> it == visit || it in body
    requires forall l :: l in trace ==> Visited(l, log)
    ensures Justifies(log, trace, at, m)
  {
    forall l | l in trace ensures Justified(l, log, at, m) {
      var it :| it in log && it.Visit? && it.arm == l;
      assert it == visit || ItemUnder(it, cond, at.cons + 1, at.unres, m);
      assert Possible(it, l, at, m);
    }
  }

  lemma {:induction false} ForJustified(h: Stmt, env: Env, st: WState, cond: Term, at: Place, s: Store, fuel: nat,
                                        m: Model)
    requires h.For? && StmtRecurs(h, at.far, fuel)
    requires var r := WalkFor(h, env, st, cond, at.cons, at.unres); !r.out.Fails? && Resolved(r.log)
    requires Fresh(env, st) && Agrees(env, st.tainted, s, m) && Holds(cond, m)
    ensures Justifies(WalkFor(h, env, st, cond, at.cons, at.unres).log, ExecStmt(h, s, fuel).trace, at, m)
    decreases h, 1
  {
    var vals := RangeValues(h.start, h.stop, h.step);
    if |vals| > MAX_UNROLL_ITERATIONS {
      assert WalkFor(h, env, st, cond, at.cons, at.unres) == WalkForAboveCap(h, env, st, cond, at.cons, at.unres);
      AboveCapJustified(h, vals, env, st, cond, at, s, fuel, m);
    } else if vals != [] {
      var r := WalkUnrolled(h, vals, env, st, cond, at.cons, at.unres);
      assert r == WalkFor(h, env, st, cond, at.cons, at.unres);
      var rc := WalkCopies(h.body, h.target, vals, env, st, cond, at.cons, at.unres, false, false);
      var visit := Visit(Label(h.line, KFor), AndT(cond, BoolVal(vals != [])), at.cons, at.unres);
      assert r.log == [visit, Push] + rc.log + [Pop];
      CopiesJustified(h.body, h.target, vals, env, st, cond, at, s, fuel, m);
      assert Eval(BoolVal(vals != []), m) == 1;
      FrameJustified(visit, rc.log, ExecCopies(h.body, h.target, vals, s, fuel).trace, at, m);
    }
  }

  lemma FrameJustified(visit: Item, log: seq<Item>, trace: seq<Label>, at: Place, m: Model)
    requires visit.Visit? && Holds(visit.cond, m) && Justifies(log, trace, at, m)
    ensures Justifies([visit, Push] + log + [Pop], [visit.arm] + trace, at, m)
  {
    JustifiesSeq([Push], log, [], trace, at, m);
    assert [] + trace == trace;
    JustifiesEnter(visit, [Push] + log, [Pop], trace, at, m);
    assert [visit] + ([Push] + log) + [Pop] == [visit, Push] + log + [Pop];
  }

  lemma {:induction false} CopiesJustified(body: Block, x: string, vals: seq<int>, env: Env, st: WState, cond: Term,
                                           at: Place, s: Store, fuel: nat, m: Model)
    requires var r := WalkCopies(body, x, vals, env, st, cond, at.cons, at.unres, false, false);
      !r.out.Fails? && Resolved(r.log)
    requires Fresh(env, st) && Agrees(env, st.tainted, s, m) && Holds(cond, m) && Recurs(body, at.far, fuel)
    ensures Justifies(WalkCopies(body, x, vals, env, st, cond, at.cons, at.unres, false, false).log,
                      ExecCopies(body, x, vals, s, fuel).trace, at, m)
    decreases body, 1, |vals|
  {
    if vals != [] {
      var env1, st1 := env[x := Entry(IntVal(vals[0]), st.nextId)], st.(nextId := st.nextId + 1);
      var s1 := s[x := vals[0]];
      var r := WalkBlock(body, env1, st1, cond, at.cons, at.unres, false);
      var e := ExecBlock(body, s1, fuel);
      var cont := if r.out.Falls? then r.out.cont else BoolVal(false);
      var rest := WalkCopies(body, x, vals[1..], r.out.env, r.st, cont, at.cons, at.unres, r.out.taint, r.out.Closes?);
      assert WalkCopies(body, x, vals, env, st, cond, at.cons, at.unres, false, false).log == r.log + rest.log;
      BlockJustified(body, env1, st1, cond, at, s1, fuel, m);
      BlockExact(body, env1, st1, cond, at.cons, at.unres, s1, fuel, m);
      BlockCovered(body, env1, st1, cond, at.cons, at.unres, false, s1, fuel);
      BlockBasics(body, env1, st1, cond, at.cons, at.unres, false, m);
      if !e.status.Fell? {
        JustifiesSeq(r.log, rest.log, e.trace, [], at, m);
        assert e.trace + [] == e.trace;
      } else {
        var e' := ExecCopies(body, x, vals[1..], e.status.store, fuel);
        if r.out.taint {
          CopiesCovered(body, x, vals[1..], r.out.env, r.st, cont, at.cons, at.unres, true, e.status.store, fuel);
          CopiesBasics(body, x, vals[1..], r.out.env, r.st, cont, at.cons, at.unres, true, false, m);
          UnresolvedIsJustified(rest.log, e'.trace, cont, at.cons, at.unres + 1, at, m);
        } else {
          CopiesJustified(body, x, vals[1..], r.out.env, r.st, cont, at, e.status.store, fuel, m);
        }
        JustifiesSeq(r.log, rest.log, e.trace, e'.trace, at, m);
      }
    }
  }

  lemma {:induction false} AboveCapJustified(h: Stmt, vals: seq<int>, env: Env, st: WState, cond: Term, at: Place,
                                             s: Store, fuel: nat, m: Model)
    requires h.For? && h.step != 0 && vals == RangeValues(h.start, h.stop, h.step) && vals != []
    requires Lines(h.body) <= at.far
    requires var r := WalkForAboveCap(h, env, st, cond, at.cons, at.unres); !r.out.Fails? && Resolved(r.log)
    requires Fresh(env, st) && Agrees(env, st.tainted, s, m) && Holds(cond, m)
    ensures Justifies(WalkForAboveCap(h, env, st, cond, at.cons, at.unres).log, ExecStmt(h, s, fuel).trace, at, m)
  {
    var r := WalkForAboveCap(h, env, st, cond, at.cons, at.unres);
    var enter := AndT(cond, BoolVal(Entered(h)));
    var inside := SomeIteration(h, enter);
    var env1, st1 := env[h.target := Entry(LoopIndex(h), st.nextId)], st.(nextId := st.nextId + 1);
    var rb := WalkBlock(h.body, env1, st1, inside, at.cons + 1, at.unres, false);
    var visit := Visit(Label(h.line, KFor), enter, at.cons, at.unres);
    assert r.log == [visit] + rb.log;
    BlockBasics(h.body, env1, st1, inside, at.cons + 1, at.unres, false, m);
    BlockPlaced(h.body, env1, st1, inside, at.cons + 1, at.unres, false);
    AboveCapCovered(h, vals, env, st, cond, at.cons, at.unres, s, fuel);
    assert Eval(BoolVal(Entered(h)), m) == 1;
    LoopJustified(visit, rb.log, r.log, inside, ExecStmt(h, s, fuel).trace, at, m);
  }

  // Of a loop above the cap: an iteration on any of its indices, from a store that the environment
  // describes, enters only arms whose reports the model with that index satisfies.
  lemma {:induction false} IterationJustified(h: Stmt, env: Env, st: WState, cond: Term, at: Place, s: Store,
                                              fuel: nat, m: Model)
    requires h.For? && h.step != 0 && Lookup(m, LoopIndex(h).sym) in RangeValues(h.start, h.stop, h.step)
    requires var r := WalkForAboveCap(h, env, st, cond, at.cons, at.unres); !r.out.Fails? && Resolved(r.log)
    requires Fresh(env, st) && Agrees(env, st.tainted, s, m) && Holds(cond, m) && Recurs(h.body, at.far, fuel)
    ensures Justifies(WalkForAboveCap(h, env, st, cond, at.cons, at.unres).log,
                      [Label(h.line, KFor)]
                      + ExecBlock(h.body, s[h.target := Lookup(m, LoopIndex(h).sym)], fuel).trace, at, m)
  {
    var v := Lookup(m, LoopIndex(h).sym);
    var enter := AndT(cond, BoolVal(Entered(h)));
    var inside := SomeIteration(h, enter);
    var env1, st1 := env[h.target := Entry(LoopIndex(h), st.nextId)], st.(nextId := st.nextId + 1);
    var rb := WalkBlock(h.body, env1, st1, inside, at.cons + 1, at.unres, false);
    var visit := Visit(Label(h.line, KFor), enter, at.cons, at.unres);
    assert WalkForAboveCap(h, env, st, cond, at.cons, at.unres)
        == LeaveLoop(h.body, env, cond, BoolVal(Entered(h)), rb, [visit] + rb.log);
    assert WalkForAboveCap(h, env, st, cond, at.cons, at.unres).log == [visit] + rb.log;
    RangeIsBounded(h, v);
    assert Eval(BoolVal(Entered(h)), m) == 1;
    EveryIndexInside(h, enter, m);
    assert Eval(LoopIndex(h), m) == v;
    BlockJustified(h.body, env1, st1, inside, at.(cons := at.cons + 1), s[h.target := v], fuel, m);
    JustifiesDeeper(rb.log, ExecBlock(h.body, s[h.target := v], fuel).trace, at, m);
    JustifiesEnter(visit, rb.log, [], ExecBlock(h.body, s[h.target := v], fuel).trace, at, m);
    assert [visit] + rb.log + [] == [visit] + rb.log;
  }
}
