/**
  No false `reachable`. An input that satisfies the path condition of an arm, reported with no
  unresolved closure before it, drives the concrete run into that arm, unless the run never gets
  past a `while` or an expression statement that the walk had already passed.
 */
module Reach {
  import opened PySubset
  import opened Interp
  import opened Terms
  import opened Walk
  import opened WalkBasics
  import opened Agreement
  import opened AnyStore
  import opened Joins
  import opened Scope
  import opened Placement
  import opened Ranges

  // Every `for` is short enough to be unrolled.
  predicate WithinCap(b: Block)
    decreases b, 0
  {
    b.Cons? ==> StmtWithinCap(b.head) && WithinCap(b.tail)
  }

  predicate StmtWithinCap(s: Stmt)
    decreases s, 1
  {
    match s
    case If(_, _, body, orelse) => WithinCap(body) && WithinCap(orelse)
    case While(_, _, body) => WithinCap(body)
    case For(_, _, start, stop, step, body) =>
      |RangeValues(start, stop, step)| <= MAX_UNROLL_ITERATIONS && WithinCap(body)
    case _ => true
  }

  // ---------------------------------------------------------------- loops above the cap

  predicate AboveCap(h: Stmt)
    requires h.For?
  {
    |RangeValues(h.start, h.stop, h.step)| > MAX_UNROLL_ITERATIONS
  }

  // An above-cap loop whose representative iteration speaks for all: it takes every index between
  // its bounds, no iteration returns, and none changes a variable bound before the loop.
  predicate Uniform(h: Stmt, known: set<string>)
    requires h.For?
  {
    && (h.step == 1 || h.step == -1) && !HasReturn(h.body)
    && forall x :: x in Binds(h.body) && x in known ==> x == h.target
  }

  // The lines inside above-cap loops that are not uniform; `known` are the variables bound before.
  function Doubtful(b: Block, known: set<string>): set<int>
    decreases b, 0
  {
    if b.Nil? then {} else StmtDoubtful(b.head, known) + Doubtful(b.tail, known + StmtBinds(b.head))
  }

  function StmtDoubtful(h: Stmt, known: set<string>): set<int>
    decreases h, 1
  {
    match h
    case If(_, _, body, orelse) => Doubtful(body, known) + Doubtful(orelse, known)
    case While(_, _, body) => Doubtful(body, known)
    case For(_, x, _, _, _, body) =>
      if !AboveCap(h) then Doubtful(body, known + {x} + Binds(body))
      else if Uniform(h, known) then Doubtful(body, known + {x})
      else Lines(body)
    case _ => {}
  }

  // Pairs of lines inside one above-cap loop: an earlier iteration may stop at the second before a
  // later one gets to the first.
  function Shared(b: Block): set<(int, int)>
    decreases b, 0
  {
    if b.Nil? then {} else StmtShared(b.head) + Shared(b.tail)
  }

  function StmtShared(h: Stmt): set<(int, int)>
    decreases h, 1
  {
    match h
    case If(_, _, body, orelse) => Shared(body) + Shared(orelse)
    case While(_, _, body) => Shared(body)
    case For(_, _, _, _, _, body) =>
      Shared(body) + if AboveCap(h) then set l, k | l in Lines(body) && k in Lines(body) :: (l, k) else {}
    case _ => {}
  }

  // Without loops above the cap there is neither.
  lemma {:induction false} WithinCapIsCertain(b: Block, known: set<string>)
    requires WithinCap(b)
    ensures Doubtful(b, known) == {} && Shared(b) == {}
    decreases b, 0
  {
    if b.Cons? {
      StmtWithinCapIsCertain(b.head, known);
      WithinCapIsCertain(b.tail, known + StmtBinds(b.head));
    }
  }

  lemma {:induction false} StmtWithinCapIsCertain(h: Stmt, known: set<string>)
    requires StmtWithinCap(h)
    ensures StmtDoubtful(h, known) == {} && StmtShared(h) == {}
    decreases h, 1
  {
    match h
    case If(_, _, body, orelse) =>
      WithinCapIsCertain(body, known);
      WithinCapIsCertain(orelse, known);
    case While(_, _, body) => WithinCapIsCertain(body, known);
    case For(_, x, _, _, _, body) => WithinCapIsCertain(body, known + {x} + Binds(body));
    case _ =>
  }

  // ---------------------------------------------------------------- what a run owes the log

  // The solver would be asked about this arm and its model trusted.
  predicate Claimed(it: Item, m: Model) {
    it.Visit? && it.unres == 0 && Holds(it.cond, m)
  }

  // The run enters the arm, or never gets past something that the walk had passed before the arm,
  // or stops in an earlier iteration of an above-cap loop around it.
  predicate Enters(log: seq<Item>, i: int, run: Run, shared: set<(int, int)>)
    requires 0 <= i < |log| && log[i].Visit?
  {
    || log[i].arm in run.trace
    || StuckAt(run, log[..i])
    || (run.status.Stuck? && (log[i].arm.line, run.status.line) in shared)
  }

  predicate Reached(log: seq<Item>, run: Run, m: Model, doubtful: set<int>, shared: set<(int, int)>) {
    forall i :: 0 <= i < |log| && Claimed(log[i], m) && log[i].arm.line !in doubtful ==> Enters(log, i, run, shared)
  }

  predicate Unclaimed(log: seq<Item>, m: Model, doubtful: set<int>) {
    forall it :: it in log && Claimed(it, m) ==> it.arm.line in doubtful
  }

  lemma UnderIsUnclaimed(log: seq<Item>, cond: Term, cons: nat, unres: nat, m: Model, doubtful: set<int>)
    requires LogUnder(log, cond, cons, unres, m) && (unres > 0 || !Holds(cond, m))
    ensures Unclaimed(log, m, doubtful)
  {
    forall it | it in log ensures !Claimed(it, m) {
      assert ItemUnder(it, cond, cons, unres, m);
    }
  }

  // `run'` extends `run`, and the log around `log` claims nothing that `run'` does not do.
  lemma ReachedAround(pre: seq<Item>, log: seq<Item>, post: seq<Item>, run: Run, run': Run, m: Model,
                      doubtful: set<int>, shared: set<(int, int)>)
    requires Reached(log, run, m, doubtful, shared)
    requires (forall l :: l in run.trace ==> l in run'.trace) && (run.status.Stuck? ==> run'.status == run.status)
    requires forall it :: it in pre && Claimed(it, m) ==> it.arm in run'.trace
    requires Unclaimed(post, m, doubtful) || StuckAt(run', log)
    ensures Reached(pre + log + post, run', m, doubtful, shared)
  {
    var all := pre + log + post;
    forall i | 0 <= i < |all| && Claimed(all[i], m) && all[i].arm.line !in doubtful
      ensures Enters(all, i, run', shared)
    {
      if i < |pre| {
        assert all[i] in pre;
      } else if i < |pre| + |log| {
        assert Enters(log, i - |pre|, run, shared);
        assert all[..i] == pre + log[..i - |pre|];
      } else {
        assert all[i] in post;
        assert all[..i] == pre + log + post[..i - |pre| - |log|];
      }
    }
  }

  lemma ReachedSeq(log: seq<Item>, log': seq<Item>, run: Run, run': Run, m: Model, doubtful: set<int>,
                   shared: set<(int, int)>)
    requires Reached(log, run, m, doubtful, shared) && Reached(log', run', m, doubtful, shared) && run.status.Fell?
    ensures Reached(log + log', After(run.trace, run'), m, doubtful, shared)
  {
    var all := log + log';
    var whole := After(run.trace, run');
    forall i | 0 <= i < |all| && Claimed(all[i], m) && all[i].arm.line !in doubtful
      ensures Enters(all, i, whole, shared)
    {
      if i < |log| {
        assert Enters(log, i, run, shared);
      } else {
        assert Enters(log', i - |log|, run', shared);
        assert all[..i] == log + log'[..i - |log|];
      }
    }
  }

  lemma {:induction false} BlockReached(b: Block, env: Env, st: WState, cond: Term, cons: nat, s: Store, fuel: nat,
                                        m: Model, known: set<string>, doubtful: set<int>, shared: set<(int, int)>)
    requires fuel > 0 && env.Keys <= known && Doubtful(b, known) <= doubtful && Shared(b) <= shared
    requires Fresh(env, st) && Agrees(env, st.tainted, s, m) && Holds(cond, m)
    ensures Reached(WalkBlock(b, env, st, cond, cons, 0, false).log, ExecBlock(b, s, fuel), m, doubtful, shared)
    decreases b, 0
  {
    match b
    case Nil =>
    case Cons(h, t) =>
      if Compound(h) {
        CompoundThenReached(h, t, env, st, cond, cons, s, fuel, m, known, doubtful, shared);
      } else if h.Assign? {
        var v := Translate(h.e, env);
        if v.Some? {
          AssignStep(h, t, env, st, cond, cons, 0, s, fuel, m);
          var env1, st1 := env[h.x := Entry(v.value, st.nextId)], st.(nextId := st.nextId + 1);
          BlockReached(t, env1, st1, cond, cons, s[h.x := EvalExpr(h.e, s).value], fuel, m, known + StmtBinds(h),
                       doubtful, shared);
        }
      } else if !h.Return? {
        BlockReached(t, env, st, cond, cons, s, fuel, m, known + StmtBinds(h), doubtful, shared);
        StepOverReached(h, t, env, st, cond, cons, s, fuel, m, doubtful, shared);
      }
  }

  // `pass` and expression statements.
  lemma StepOverReached(h: Stmt, t: Block, env: Env, st: WState, cond: Term, cons: nat, s: Store, fuel: nat, m: Model,
                        doubtful: set<int>, shared: set<(int, int)>)
    requires h.Pass? || h.ExprStmt?
    requires Reached(WalkBlock(t, env, st, cond, cons, 0, false).log, ExecBlock(t, s, fuel), m, doubtful, shared)
    ensures Reached(WalkBlock(Cons(h, t), env, st, cond, cons, 0, false).log, ExecBlock(Cons(h, t), s, fuel), m,
                    doubtful, shared)
  {
    var rest, run := WalkBlock(t, env, st, cond, cons, 0, false).log, ExecBlock(t, s, fuel);
    assert After([], run) == run;
    if h.ExprStmt? {
      var log, e := [Passed(h.line)], ExecStmt(h, s, fuel);
      assert [] + log + rest == log + rest + [] == WalkBlock(Cons(h, t), env, st, cond, cons, 0, false).log;
      if e.status.Stuck? {
        ReachedAround([], log, rest, Run([], Returned), e, m, doubtful, shared);
        assert ExecBlock(Cons(h, t), s, fuel) == e;
      } else {
        ReachedAround(log, rest, [], run, run, m, doubtful, shared);
        assert ExecBlock(Cons(h, t), s, fuel) == run;
      }
    }
  }

  lemma {:induction false} CompoundThenReached(h: Stmt, t: Block, env: Env, st: WState, cond: Term, cons: nat, s: Store,
                                               fuel: nat, m: Model, known: set<string>, doubtful: set<int>,
                                               shared: set<(int, int)>)
    requires Compound(h) && fuel > 0 && env.Keys <= known && StmtDoubtful(h, known) <= doubtful
    requires StmtShared(h) <= shared
    requires Doubtful(t, known + StmtBinds(h)) <= doubtful && Shared(t) <= shared
    requires Fresh(env, st) && Agrees(env, st.tainted, s, m) && Holds(cond, m)
    ensures Reached(WalkBlock(Cons(h, t), env, st, cond, cons, 0, false).log, ExecBlock(Cons(h, t), s, fuel), m,
                    doubtful, shared)
    decreases Cons(h, t), 0, 0
  {
    var r := WalkCompound(h, env, st, cond, cons, 0);
    var e := ExecStmt(h, s, fuel);
    CompoundReached(h, env, st, cond, cons, s, fuel, m, known, doubtful, shared);
    CompoundExact(h, env, st, cond, cons, 0, s, fuel, m);
    CompoundBasics(h, env, st, cond, cons, 0, m);
    CompoundPlaced(h, env, st, cond, cons, 0);
    hide Reached, ExecStmt, WalkCompound, ExecBlock, WalkBlock, Doubtful, Shared;
    match r.out
    case Fails => FailsThenReached(h, t, env, st, cond, cons, s, fuel, m, doubtful, shared);
    case Closes(_, _) => ClosesThenReached(h, t, env, st, cond, cons, s, fuel, m, doubtful, shared);
    case Falls(cont, env', taint) =>
      if !taint && e.status.Fell? {
        BlockReached(t, env', r.st, cont, cons, e.status.store, fuel, m, known + StmtBinds(h), doubtful, shared);
        GoesOnReached(h, t, env, st, cond, cons, s, fuel, m, doubtful, shared);
      } else {
        StopsThenReached(h, t, env, st, cond, cons, s, fuel, m, doubtful, shared);
      }
  }

  lemma GoesOnReached(h: Stmt, t: Block, env: Env, st: WState, cond: Term, cons: nat, s: Store, fuel: nat, m: Model,
                      doubtful: set<int>, shared: set<(int, int)>)
    requires Compound(h)
    requires var r := WalkCompound(h, env, st, cond, cons, 0);
      var e := ExecStmt(h, s, fuel);
      && r.out.Falls? && !r.out.taint && e.status.Fell? && Reached(r.log, e, m, doubtful, shared)
      && Reached(WalkBlock(t, r.out.env, r.st, r.out.cont, cons, 0, false).log, ExecBlock(t, e.status.store, fuel), m,
                 doubtful, shared)
    ensures Reached(WalkBlock(Cons(h, t), env, st, cond, cons, 0, false).log, ExecBlock(Cons(h, t), s, fuel), m,
                    doubtful, shared)
  {
    var r, e := WalkCompound(h, env, st, cond, cons, 0), ExecStmt(h, s, fuel);
    var rest := WalkBlock(t, r.out.env, r.st, r.out.cont, cons, 0, false);
    ReachedSeq(r.log, rest.log, e, ExecBlock(t, e.status.store, fuel), m, doubtful, shared);
  }

  lemma ClosesThenReached(h: Stmt, t: Block, env: Env, st: WState, cond: Term, cons: nat, s: Store, fuel: nat, m: Model,
                          doubtful: set<int>, shared: set<(int, int)>)
    requires Compound(h) && WalkCompound(h, env, st, cond, cons, 0).out.Closes?
    requires Reached(WalkCompound(h, env, st, cond, cons, 0).log, ExecStmt(h, s, fuel), m, doubtful, shared)
    ensures Reached(WalkBlock(Cons(h, t), env, st, cond, cons, 0, false).log, ExecBlock(Cons(h, t), s, fuel), m,
                    doubtful, shared)
  {
    ClosedCompound(h, env, st, cond, cons, 0, s, fuel);
  }

  // The statement is passed over: nothing after it in the block is claimed.
  lemma FailsThenReached(h: Stmt, t: Block, env: Env, st: WState, cond: Term, cons: nat, s: Store, fuel: nat, m: Model,
                         doubtful: set<int>, shared: set<(int, int)>)
    requires Compound(h) && WalkCompound(h, env, st, cond, cons, 0).out.Fails?
    requires Reached(WalkCompound(h, env, st, cond, cons, 0).log, ExecStmt(h, s, fuel), m, doubtful, shared)
    ensures Reached(WalkBlock(Cons(h, t), env, st, cond, cons, 0, false).log, ExecBlock(Cons(h, t), s, fuel), m,
                    doubtful, shared)
  {
    var r := WalkCompound(h, env, st, cond, cons, 0);
    var rest := WalkBlock(t, env, r.st, cond, cons, 0, true);
    BlockBasics(t, env, r.st, cond, cons, 0, true, m);
    UnderIsUnclaimed(rest.log, cond, cons, 1, m, doubtful);
    var post := [Unsolved(Label(h.line, KindOf(h)), false)] + rest.log;
    ReachedAround([], r.log, post, ExecStmt(h, s, fuel), ExecBlock(Cons(h, t), s, fuel), m, doubtful, shared);
    assert WalkBlock(Cons(h, t), env, st, cond, cons, 0, false).log == [] + r.log + post;
  }

  // The run does not get past the statement, or nothing after it is claimed.
  lemma StopsThenReached(h: Stmt, t: Block, env: Env, st: WState, cond: Term, cons: nat, s: Store, fuel: nat, m: Model,
                         doubtful: set<int>, shared: set<(int, int)>)
    requires Compound(h) && WalkCompound(h, env, st, cond, cons, 0).out.Falls?
    requires var r := WalkCompound(h, env, st, cond, cons, 0);
      var e := ExecStmt(h, s, fuel);
      Reached(r.log, e, m, doubtful, shared) && Exact(r, e, m) && (r.out.taint || !e.status.Fell?)
    ensures Reached(WalkBlock(Cons(h, t), env, st, cond, cons, 0, false).log, ExecBlock(Cons(h, t), s, fuel), m,
                    doubtful, shared)
  {
    var r := WalkCompound(h, env, st, cond, cons, 0);
    var rest := WalkBlock(t, r.out.env, r.st, r.out.cont, cons, 0, r.out.taint);
    BlockBasics(t, r.out.env, r.st, r.out.cont, cons, 0, r.out.taint, m);
    if r.out.taint || !Holds(r.out.cont, m) {
      UnderIsUnclaimed(rest.log, r.out.cont, cons, Bump(0, r.out.taint), m, doubtful);
    }
    assert WalkBlock(Cons(h, t), env, st, cond, cons, 0, false).log == r.log + rest.log == [] + r.log + rest.log;
    var e, run := ExecStmt(h, s, fuel), ExecBlock(Cons(h, t), s, fuel);
    assert (forall l :: l in e.trace ==> l in run.trace) && (!e.status.Fell? ==> run == e);
    ReachedAround([], r.log, rest.log, e, run, m, doubtful, shared);
  }

  lemma {:induction false} CompoundReached(h: Stmt, env: Env, st: WState, cond: Term, cons: nat, s: Store, fuel: nat,
                                           m: Model, known: set<string>, doubtful: set<int>, shared: set<(int, int)>)
    requires Compound(h) && fuel > 0 && env.Keys <= known && StmtDoubtful(h, known) <= doubtful
    requires StmtShared(h) <= shared
    requires Fresh(env, st) && Agrees(env, st.tainted, s, m) && Holds(cond, m)
    ensures Reached(WalkCompound(h, env, st, cond, cons, 0).log, ExecStmt(h, s, fuel), m, doubtful, shared)
    decreases h, 2
  {
    match h
    case If(_, _, _, _) => IfReached(h, env, st, cond, cons, KIf, s, fuel, m, known, doubtful, shared);
    case While(_, _, _) => WhileReached(h, env, st, cond, cons, s, fuel, m, known, doubtful, shared);
    case For(_, _, _, _, _, _) => ForReached(h, env, st, cond, cons, s, fuel, m, known, doubtful, shared);
  }

  lemma {:induction false} IfReached(h: Stmt, env: Env, st: WState, cond: Term, cons: nat, kind: Kind, s: Store,
                                     fuel: nat, m: Model, known: set<string>, doubtful: set<int>,
                                     shared: set<(int, int)>)
    requires h.If? && fuel > 0 && env.Keys <= known && StmtDoubtful(h, known) <= doubtful && StmtShared(h) <= shared
    requires Fresh(env, st) && Agrees(env, st.tainted, s, m) && Holds(cond, m)
    ensures Reached(WalkIf(h, env, st, cond, cons, 0, kind).log, ExecIf(h, s, fuel, kind), m, doubtful, shared)
    decreases h, 1
  {
    var g := Guard(h.test, env);
    if g.Some? && !Mentions(g.value, st.tainted) {
      var yes, no := AndT(cond, g.value), AndT(cond, NotT(g.value));
      assert Holds(no, m) == !Holds(g.value, m) by { assert Holds(NotT(g.value), m) == !Holds(g.value, m); }
      if Holds(g.value, m) {
        BlockReached(h.body, env, st, yes, cons, s, fuel, m, known, doubtful, shared);
        BodyTaken(h, env, st, cond, cons, kind, s, fuel, m, doubtful, shared);
      } else {
        var rb := WalkBlock(h.body, env, st, yes, cons, 0, false);
        BlockBasics(h.body, env, st, yes, cons, 0, false, m);
        AgreesGrow(env, st.tainted, rb.st.tainted, s, m);
        ElseReached(h.orelse, env, rb.st, no, cons, s, fuel, m, known, doubtful, shared);
        ElseTaken(h, env, st, cond, cons, kind, s, fuel, m, doubtful, shared);
      }
    }
  }

  lemma BodyTaken(h: Stmt, env: Env, st: WState, cond: Term, cons: nat, kind: Kind, s: Store, fuel: nat, m: Model,
                  doubtful: set<int>, shared: set<(int, int)>)
    requires h.If? && Guard(h.test, env).Some? && !Mentions(Guard(h.test, env).value, st.tainted)
    requires Agrees(env, st.tainted, s, m) && Holds(Guard(h.test, env).value, m)
    requires Reached(WalkBlock(h.body, env, st, AndT(cond, Guard(h.test, env).value), cons, 0, false).log,
                     ExecBlock(h.body, s, fuel), m, doubtful, shared)
    ensures Reached(WalkIf(h, env, st, cond, cons, 0, kind).log, ExecIf(h, s, fuel, kind), m, doubtful, shared)
  {
    var g := Guard(h.test, env).value;
    TranslateIsSound(h.test, env, st.tainted, s, m);
    var yes, no := AndT(cond, g), AndT(cond, NotT(g));
    assert Holds(NotT(g), m) == !Holds(g, m);
    var rb := WalkBlock(h.body, env, st, yes, cons, 0, false);
    var re := WalkElse(h.orelse, env, rb.st, no, cons, 0);
    var post := if rb.out.Fails? then [] else re.log;
    ElseBasics(h.orelse, env, rb.st, no, cons, 0, m);
    UnderIsUnclaimed(re.log, no, cons, 0, m, doubtful);
    var visit := Visit(Label(h.line, kind), yes, cons, 0);
    assert WalkIf(h, env, st, cond, cons, 0, kind).log == [visit] + rb.log + post;
    ReachedAround([visit], rb.log, post, ExecBlock(h.body, s, fuel), ExecIf(h, s, fuel, kind), m, doubtful, shared);
  }

  lemma ElseTaken(h: Stmt, env: Env, st: WState, cond: Term, cons: nat, kind: Kind, s: Store, fuel: nat, m: Model,
                  doubtful: set<int>, shared: set<(int, int)>)
    requires h.If? && Guard(h.test, env).Some? && !Mentions(Guard(h.test, env).value, st.tainted)
    requires Agrees(env, st.tainted, s, m) && !Holds(Guard(h.test, env).value, m)
    requires var g := Guard(h.test, env).value;
      var rb := WalkBlock(h.body, env, st, AndT(cond, g), cons, 0, false);
      Reached(WalkElse(h.orelse, env, rb.st, AndT(cond, NotT(g)), cons, 0).log, ExecElse(h.orelse, s, fuel), m,
              doubtful, shared)
    ensures Reached(WalkIf(h, env, st, cond, cons, 0, kind).log, ExecIf(h, s, fuel, kind), m, doubtful, shared)
  {
    var g := Guard(h.test, env).value;
    TranslateIsSound(h.test, env, st.tainted, s, m);
    var yes, no := AndT(cond, g), AndT(cond, NotT(g));
    var rb := WalkBlock(h.body, env, st, yes, cons, 0, false);
    var re := WalkElse(h.orelse, env, rb.st, no, cons, 0);
    BlockBasics(h.body, env, st, yes, cons, 0, false, m);
    UnderIsUnclaimed(rb.log, yes, cons, 0, m, {});
    var visit := Visit(Label(h.line, kind), yes, cons, 0);
    var pre := [visit] + rb.log;
    var run := ExecIf(h, s, fuel, kind);
    assert run == ExecElse(h.orelse, s, fuel);
    if rb.out.Fails? {
      assert WalkIf(h, env, st, cond, cons, 0, kind).log == pre;
      UnclaimedIsReached(pre, run, m, doubtful, shared);
    } else {
      assert WalkIf(h, env, st, cond, cons, 0, kind).log == pre + re.log == pre + re.log + [];
      ReachedAround(pre, re.log, [], run, run, m, doubtful, shared);
    }
  }

  lemma {:induction false} ElseReached(orelse: Block, env: Env, st: WState, cond: Term, cons: nat, s: Store, fuel: nat,
                                       m: Model, known: set<string>, doubtful: set<int>, shared: set<(int, int)>)
    requires fuel > 0 && env.Keys <= known && Doubtful(orelse, known) <= doubtful && Shared(orelse) <= shared
    requires Fresh(env, st) && Agrees(env, st.tainted, s, m) && Holds(cond, m)
    ensures Reached(WalkElse(orelse, env, st, cond, cons, 0).log, ExecElse(orelse, s, fuel), m, doubtful, shared)
    decreases orelse, 3
  {
    if IsElif(orelse) {
      IfReached(orelse.head, env, st, cond, cons, KElif, s, fuel, m, known, doubtful, shared);
    } else if orelse.Cons? {
      var visit := Visit(Label(orelse.head.line, KElse), cond, cons, 0);
      var rb := WalkBlock(orelse, env, st, cond, cons, 0, false);
      BlockReached(orelse, env, st, cond, cons, s, fuel, m, known, doubtful, shared);
      ReachedAround([visit], rb.log, [], ExecBlock(orelse, s, fuel), ExecElse(orelse, s, fuel), m, doubtful, shared);
      assert WalkElse(orelse, env, st, cond, cons, 0).log == [visit] + rb.log + [];
    }
  }

  // The body walk speaks of the first iteration, which every run that enters the loop makes.
  lemma {:induction false} WhileReached(h: Stmt, env: Env, st: WState, cond: Term, cons: nat, s: Store, fuel: nat,
                                        m: Model, known: set<string>, doubtful: set<int>, shared: set<(int, int)>)
    requires h.While? && fuel > 0 && env.Keys <= known && StmtDoubtful(h, known) <= doubtful && StmtShared(h) <= shared
    requires Fresh(env, st) && Agrees(env, st.tainted, s, m) && Holds(cond, m)
    ensures Reached(WalkWhile(h, env, st, cond, cons, 0).log, ExecWhile(h, s, fuel), m, doubtful, shared)
    decreases h, 1
  {
    var g := Guard(h.test, env);
    if g.Some? && !Mentions(g.value, st.tainted) {
      TranslateIsSound(h.test, env, st.tainted, s, m);
      var enter := AndT(cond, g.value);
      BlockBasics(h.body, env, st, enter, cons + 1, 0, false, m);
      var rb := WalkBlock(h.body, env, st, enter, cons + 1, 0, false);
      var visit := Visit(Label(h.line, KWhile), enter, cons, 0);
      assert WalkWhile(h, env, st, cond, cons, 0).log == [visit] + rb.log + [Passed(h.line)];
      if Holds(g.value, m) {
        BlockReached(h.body, env, st, enter, cons + 1, s, fuel, m, known, doubtful, shared);
        ReachedAround([visit], rb.log, [Passed(h.line)], ExecBlock(h.body, s, fuel), ExecWhile(h, s, fuel), m,
                      doubtful, shared);
      } else {
        UnderIsUnclaimed(rb.log, enter, cons + 1, 0, m, doubtful);
      }
    }
  }

  lemma {:induction false} ForReached(h: Stmt, env: Env, st: WState, cond: Term, cons: nat, s: Store, fuel: nat,
                                      m: Model, known: set<string>, doubtful: set<int>, shared: set<(int, int)>)
    requires h.For? && fuel > 0 && env.Keys <= known && StmtDoubtful(h, known) <= doubtful && StmtShared(h) <= shared
    requires Fresh(env, st) && Agrees(env, st.tainted, s, m) && Holds(cond, m)
    ensures Reached(WalkFor(h, env, st, cond, cons, 0).log, ExecStmt(h, s, fuel), m, doubtful, shared)
    decreases h, 1
  {
    if h.step != 0 {
      if AboveCap(h) {
        assert WalkFor(h, env, st, cond, cons, 0) == WalkForAboveCap(h, env, st, cond, cons, 0);
        AboveCapReached(h, env, st, cond, cons, s, fuel, m, known, doubtful, shared);
      } else {
        UnrolledReached(h, env, st, cond, cons, s, fuel, m, known, doubtful, shared);
      }
    }
  }

  lemma {:induction false} UnrolledReached(h: Stmt, env: Env, st: WState, cond: Term, cons: nat, s: Store, fuel: nat,
                                           m: Model, known: set<string>, doubtful: set<int>, shared: set<(int, int)>)
    requires h.For? && fuel > 0 && env.Keys <= known && StmtDoubtful(h, known) <= doubtful && StmtShared(h) <= shared
    requires h.step != 0 && !AboveCap(h)
    requires Fresh(env, st) && Agrees(env, st.tainted, s, m) && Holds(cond, m)
    ensures Reached(WalkFor(h, env, st, cond, cons, 0).log, ExecStmt(h, s, fuel), m, doubtful, shared)
    decreases h, 0
  {
    var vals := RangeValues(h.start, h.stop, h.step);
    var r := WalkUnrolled(h, vals, env, st, cond, cons, 0);
    assert WalkFor(h, env, st, cond, cons, 0) == r;
    var visit := Visit(Label(h.line, KFor), AndT(cond, BoolVal(vals != [])), cons, 0);
    if vals == [] {
      assert Eval(BoolVal(false), m) == 0;
    } else {
      var rc := WalkCopies(h.body, h.target, vals, env, st, cond, cons, 0, false, false);
      CopiesReached(h.body, h.target, vals, env, st, cond, cons, s, fuel, m,
                    known + {h.target} + Binds(h.body), doubtful, shared);
      ReachedAround([visit, Push], rc.log, [Pop], ExecCopies(h.body, h.target, vals, s, fuel), ExecStmt(h, s, fuel), m,
                    doubtful, shared);
    }
  }

  // A model's value for the index is one that a uniform loop takes, and the iteration that takes it
  // starts from a store that the walk's environment describes.
  lemma {:induction false} AboveCapReached(h: Stmt, env: Env, st: WState, cond: Term, cons: nat, s: Store, fuel: nat,
                                           m: Model, known: set<string>, doubtful: set<int>, shared: set<(int, int)>)
    requires h.For? && fuel > 0 && env.Keys <= known && StmtDoubtful(h, known) <= doubtful && StmtShared(h) <= shared
    requires h.step != 0 && AboveCap(h)
    requires Fresh(env, st) && Agrees(env, st.tainted, s, m) && Holds(cond, m)
    ensures Reached(WalkForAboveCap(h, env, st, cond, cons, 0).log, ExecStmt(h, s, fuel), m, doubtful, shared)
    decreases h, 0
  {
    var enter := AndT(cond, BoolVal(Entered(h)));
    var inside := SomeIteration(h, enter);
    var env1, st1 := env[h.target := Entry(LoopIndex(h), st.nextId)], st.(nextId := st.nextId + 1);
    var rb := WalkBlock(h.body, env1, st1, inside, cons + 1, 0, false);
    var visit := Visit(Label(h.line, KFor), enter, cons, 0);
    var vals := RangeValues(h.start, h.stop, h.step);
    var copies, run := ExecCopies(h.body, h.target, vals, s, fuel), ExecStmt(h, s, fuel);
    assert WalkForAboveCap(h, env, st, cond, cons, 0).log == [visit] + rb.log == [visit] + rb.log + [];
    if Uniform(h, known) && Holds(inside, m) {
      InsideBounds(h, enter, m);
      UnitStrideHas(h.start, h.stop, h.step, Lookup(m, LoopIndex(h).sym));
      IterationReached(h, vals, env, st, inside, cons, s, fuel, m, known, doubtful, shared);
    } else {
      BlockBasics(h.body, env1, st1, inside, cons + 1, 0, false, m);
      BlockPlaced(h.body, env1, st1, inside, cons + 1, 0, false);
      if Uniform(h, known) { UnderIsUnclaimed(rb.log, inside, cons + 1, 0, m, doubtful); }
      UnclaimedIsReached(rb.log, copies, m, doubtful, shared);
    }
    ReachedAround([visit], rb.log, [], copies, run, m, doubtful, shared);
  }

  lemma UnclaimedIsReached(log: seq<Item>, run: Run, m: Model, doubtful: set<int>, shared: set<(int, int)>)
    requires forall it :: it in log && Claimed(it, m) ==> it.arm.line in doubtful
    ensures Reached(log, run, m, doubtful, shared)
  {
    forall i | 0 <= i < |log| && Claimed(log[i], m) ensures log[i].arm.line in doubtful {
      assert log[i] in log;
    }
  }

  // The environment describes the store, the loop's target aside.
  predicate AgreesBut(env: Env, x: string, tainted: set<string>, s: Store, m: Model) {
    forall y :: y in env && y != x ==> y in s && (Mentions(env[y].term, tainted) || s[y] == Eval(env[y].term, m))
  }

  lemma {:induction false} IterationReached(h: Stmt, vals: seq<int>, env: Env, st: WState, inside: Term, cons: nat,
                                            s: Store, fuel: nat, m: Model, known: set<string>, doubtful: set<int>,
                                            shared: set<(int, int)>)
    requires h.For? && fuel > 0 && env.Keys <= known && Uniform(h, known) && AboveCap(h)
    requires StmtDoubtful(h, known) <= doubtful && StmtShared(h) <= shared
    requires Fresh(env, st) && AgreesBut(env, h.target, st.tainted, s, m) && Holds(inside, m)
    requires Lookup(m, LoopIndex(h).sym) in vals
    ensures var rb := WalkBlock(h.body, env[h.target := Entry(LoopIndex(h), st.nextId)], st.(nextId := st.nextId + 1),
                                inside, cons + 1, 0, false);
      Reached(rb.log, ExecCopies(h.body, h.target, vals, s, fuel), m, doubtful, shared)
    decreases h.body, 1, |vals|
  {
    var env1, st1 := env[h.target := Entry(LoopIndex(h), st.nextId)], st.(nextId := st.nextId + 1);
    var rb := WalkBlock(h.body, env1, st1, inside, cons + 1, 0, false);
    var run := ExecCopies(h.body, h.target, vals, s, fuel);
    var s1 := s[h.target := vals[0]];
    var e := ExecBlock(h.body, s1, fuel);
    if vals[0] == Lookup(m, LoopIndex(h).sym) {
      BlockReached(h.body, env1, st1, inside, cons + 1, s1, fuel, m, known + {h.target}, doubtful, shared);
      ReachedAround([], rb.log, [], e, run, m, doubtful, shared);
      assert rb.log == [] + rb.log + [];
    } else if e.status.Fell? {
      BlockUntouched(h.body, s1, fuel, Binds(h.body));
      IterationReached(h, vals[1..], env, st, inside, cons, e.status.store, fuel, m, known, doubtful, shared);
      ReachedAround([], rb.log, [],
                    ExecCopies(h.body, h.target, vals[1..], e.status.store, fuel), run, m, doubtful, shared);
      assert rb.log == [] + rb.log + [];
    } else {
      NoReturnNeverReturns(h.body, s1, fuel);
      BlockStays(h.body, s1, fuel, Lines(h.body));
      BlockPlaced(h.body, env1, st1, inside, cons + 1, 0, false);
      StoppedInLoop(h, rb.log, run, m, doubtful, shared);
    }
  }

  lemma StoppedInLoop(h: Stmt, log: seq<Item>, run: Run, m: Model, doubtful: set<int>, shared: set<(int, int)>)
    requires h.For? && AboveCap(h) && StmtShared(h) <= shared
    requires run.status.Stuck? && run.status.line in Lines(h.body)
    requires forall it :: it in log ==> ItemOn(it, Lines(h.body))
    ensures Reached(log, run, m, doubtful, shared)
  {
    forall i | 0 <= i < |log| && Claimed(log[i], m) ensures Enters(log, i, run, shared) {
      assert ItemOn(log[i], Lines(h.body));
      assert (log[i].arm.line, run.status.line) in StmtShared(h);
    }
  }

  lemma {:induction false} CopiesReached(body: Block, x: string, vals: seq<int>, env: Env, st: WState, cond: Term,
                                         cons: nat, s: Store, fuel: nat, m: Model, known: set<string>,
                                         doubtful: set<int>, shared: set<(int, int)>)
    requires fuel > 0 && env.Keys <= known && x in known && Binds(body) <= known
    requires Doubtful(body, known) <= doubtful && Shared(body) <= shared
    requires Fresh(env, st) && Agrees(env, st.tainted, s, m) && Holds(cond, m)
    ensures Reached(WalkCopies(body, x, vals, env, st, cond, cons, 0, false, false).log,
                    ExecCopies(body, x, vals, s, fuel), m, doubtful, shared)
    decreases body, 1, |vals|
  {
    if vals != [] {
      var env1, st1 := env[x := Entry(IntVal(vals[0]), st.nextId)], st.(nextId := st.nextId + 1);
      var s1 := s[x := vals[0]];
      var r := WalkBlock(body, env1, st1, cond, cons, 0, false);
      var e := ExecBlock(body, s1, fuel);
      var run := ExecCopies(body, x, vals, s, fuel);
      BlockReached(body, env1, st1, cond, cons, s1, fuel, m, known, doubtful, shared);
      BlockExact(body, env1, st1, cond, cons, 0, s1, fuel, m);
      BlockBasics(body, env1, st1, cond, cons, 0, false, m);
      BlockPlaced(body, env1, st1, cond, cons, 0, false);
      if r.out.Falls? && !r.out.taint && e.status.Fell? {
        CopiesReached(body, x, vals[1..], r.out.env, r.st, r.out.cont, cons, e.status.store, fuel, m,
                      known, doubtful, shared);
      }
      CopyThenReached(body, x, vals, env, st, cond, cons, s, fuel, m, doubtful, shared);
    }
  }

  lemma CopyThenReached(body: Block, x: string, vals: seq<int>, env: Env, st: WState, cond: Term, cons: nat, s: Store,
                        fuel: nat, m: Model, doubtful: set<int>, shared: set<(int, int)>)
    requires vals != []
    requires var r := WalkBlock(body, env[x := Entry(IntVal(vals[0]), st.nextId)], st.(nextId := st.nextId + 1),
                                cond, cons, 0, false);
      var e := ExecBlock(body, s[x := vals[0]], fuel);
      && Reached(r.log, e, m, doubtful, shared) && Exact(r, e, m)
      && (r.out.Falls? && !r.out.taint && e.status.Fell? ==>
            Reached(WalkCopies(body, x, vals[1..], r.out.env, r.st, r.out.cont, cons, 0, false, false).log,
                    ExecCopies(body, x, vals[1..], e.status.store, fuel), m, doubtful, shared))
    ensures Reached(WalkCopies(body, x, vals, env, st, cond, cons, 0, false, false).log,
                    ExecCopies(body, x, vals, s, fuel), m, doubtful, shared)
  {
    var r := WalkBlock(body, env[x := Entry(IntVal(vals[0]), st.nextId)], st.(nextId := st.nextId + 1),
                       cond, cons, 0, false);
    var e, run := ExecBlock(body, s[x := vals[0]], fuel), ExecCopies(body, x, vals, s, fuel);
    CopyFirst(body, x, vals, env, st, cond, cons, 0, false, false);
    assert run == if e.status.Fell? then After(e.trace, ExecCopies(body, x, vals[1..], e.status.store, fuel)) else e;
    if r.out.Fails? {
      ReachedAround([], r.log, [], e, run, m, doubtful, shared);
      assert r.log == [] + r.log + [];
    } else {
      var cont := if r.out.Falls? then r.out.cont else BoolVal(false);
      var rest := WalkCopies(body, x, vals[1..], r.out.env, r.st, cont, cons, 0, r.out.taint, r.out.Closes?);
      if r.out.Falls? && !r.out.taint && e.status.Fell? {
        ReachedSeq(r.log, rest.log, e, ExecCopies(body, x, vals[1..], e.status.store, fuel), m, doubtful, shared);
      } else {
        CopiesBasics(body, x, vals[1..], r.out.env, r.st, cont, cons, 0, r.out.taint, r.out.Closes?, m);
        assert Eval(BoolVal(false), m) == 0;
        if r.out.taint || !Holds(cont, m) {
          UnderIsUnclaimed(rest.log, cont, cons, Bump(0, r.out.taint), m, doubtful);
        }
        ReachedAround([], r.log, rest.log, e, run, m, doubtful, shared);
        assert r.log + rest.log == [] + r.log + rest.log;
      }
    }
  }
}
