/** Deciding the reported arms with a solver, and collecting the verdicts: frames, ranks and the cap. */
module Verdicts {
  import opened Wrappers
  import opened PySubset
  import opened Interp
  import opened Terms
  import opened Walk

  datatype Verdict = Dead | Unknown | Reachable

  function Rank(v: Verdict): nat {
    match v
    case Dead => 0
    case Unknown => 1
    case Reachable => 2
  }

  datatype Reason = NoReason | FirstIterationOnly | TaintedByLoop | AfterUnresolvedReturn

  datatype Branch = Branch(arm: Label, verdict: Verdict, input: Option<Store>, reason: Reason)

  // The solver is an oracle. Its answer may depend on when it is asked, since the time budget
  // can run out: the first argument counts the calls made so far.
  datatype Answer = Sat(model: Model) | Unsat | NoAnswer

  type Solver = (nat, Term) -> Answer

  ghost predicate Sound(solver: Solver) {
    && (forall k, t :: solver(k, t).Sat? ==> Holds(t, solver(k, t).model))
    && (forall k, t, m :: solver(k, t).Unsat? ==> !Holds(t, m))
  }

  // One concrete input off a model: every parameter, with the default for those it leaves out.
  function Witness(params: Params, m: Model): Store {
    map x | x in params :: Lookup(m, Sym(x, params[x]))
  }

  function Decide(it: Item, answer: Answer, params: Params): Branch
    requires it.Visit?
  {
    match answer
    case Sat(m) =>
      if it.unres > 0 then Branch(it.arm, Unknown, None, AfterUnresolvedReturn)
      else Branch(it.arm, Reachable, Some(Witness(params, m)), NoReason)
    case Unsat =>
      if it.cons > 0 then Branch(it.arm, Unknown, None, FirstIterationOnly)
      else Branch(it.arm, Dead, None, NoReason)
    case NoAnswer => Branch(it.arm, Unknown, None, NoReason)
  }

  // ---------------------------------------------------------------- collecting

  // A frame keeps one entry per line, in the order of first insertion.
  type Frame = seq<Branch>

  datatype Report = Report(branches: seq<Branch>, stack: seq<Frame>, truncated: bool, calls: nat)

  function Insert(frame: Frame, b: Branch): Frame {
    if frame == [] then [b]
    else if frame[0].arm.line == b.arm.line then
      [if Rank(b.verdict) > Rank(frame[0].verdict) then b else frame[0]] + frame[1..]
    else [frame[0]] + Insert(frame[1..], b)
  }

  function Commit(rep: Report, b: Branch, max: nat): Report {
    if rep.stack != [] then
      var top := |rep.stack| - 1;
      rep.(stack := rep.stack[top := Insert(rep.stack[top], b)])
    else if |rep.branches| >= max then rep.(truncated := true)
    else rep.(branches := rep.branches + [b])
  }

  function CommitAll(rep: Report, frame: Frame, max: nat): Report
    decreases |frame|
  {
    if frame == [] then rep else CommitAll(Commit(rep, frame[0], max), frame[1..], max)
  }

  function Flush(rep: Report, max: nat): Report {
    if rep.stack == [] then rep
    else
      var top := |rep.stack| - 1;
      CommitAll(rep.(stack := rep.stack[..top]), rep.stack[top], max)
  }

  predicate Reported(it: Item) {
    it.Visit? || it.Unsolved?
  }

  // The entry for an item, if the solver is at call number `k`.
  function BranchOf(it: Item, k: nat, solver: Solver, params: Params): Branch
    requires Reported(it)
  {
    if it.Visit? then Decide(it, solver(k, it.cond), params)
    else Branch(it.arm, Unknown, None, if it.tainted then TaintedByLoop else NoReason)
  }

  function Step(rep: Report, it: Item, max: nat, solver: Solver, params: Params): Report {
    if Reported(it) then
      // Outside an unrolled loop a full report stops the solving as well.
      if rep.stack == [] && |rep.branches| >= max then rep.(truncated := true)
      else
        Commit(if it.Visit? then rep.(calls := rep.calls + 1) else rep, BranchOf(it, rep.calls, solver, params), max)
    else if it.Push? then rep.(stack := rep.stack + [[]])
    else if it.Pop? then Flush(rep, max)
    else rep
  }

  function Replay(rep: Report, log: seq<Item>, max: nat, solver: Solver, params: Params): Report
    decreases |log|
  {
    if log == [] then rep else Replay(Step(rep, log[0], max, solver, params), log[1..], max, solver, params)
  }

  lemma {:induction false} ReplayCat(rep: Report, log: seq<Item>, log': seq<Item>, max: nat, solver: Solver,
                                     params: Params)
    ensures Replay(rep, log + log', max, solver, params)
         == Replay(Replay(rep, log, max, solver, params), log', max, solver, params)
    decreases |log|
  {
    if log == [] {
      assert log + log' == log';
    } else {
      assert (log + log')[1..] == log[1..] + log' && (log + log')[0] == log[0];
      ReplayCat(Step(rep, log[0], max, solver, params), log[1..], log', max, solver, params);
    }
  }

  function EmptyReport(): Report {
    Report([], [], false, 0)
  }

  // Every guard translated: the result is `supported`.
  predicate Translated(log: seq<Item>) {
    forall it :: it in log ==> !(it.Unsolved? && !it.tainted)
  }

  // No guard was passed over for what a loop computed.
  predicate NothingTaintedOver(log: seq<Item>) {
    forall it :: it in log ==> !(it.Unsolved? && it.tainted)
  }

  // `None` is a refusal: a top-level assignment failed to translate.
  function Analyze(params: Params, body: Block, max: nat, solver: Solver): Option<Report> {
    var r := WalkProgram(params, body);
    if r.out.Fails? then None else Some(Replay(EmptyReport(), r.log, max, solver, params))
  }

  // ---------------------------------------------------------------- nesting

  // The depth of open frames after the log; `None` if a frame is closed that was not opened.
  function Level(log: seq<Item>, d: nat): Option<nat>
    decreases |log|
  {
    if log == [] then Some(d)
    else if log[0].Push? then Level(log[1..], d + 1)
    else if log[0].Pop? then if d == 0 then None else Level(log[1..], d - 1)
    else Level(log[1..], d)
  }

  ghost predicate Balanced(log: seq<Item>) {
    forall d: nat :: Level(log, d) == Some(d)
  }

  lemma {:induction false} LevelCat(log: seq<Item>, log': seq<Item>, d: nat)
    ensures Level(log + log', d) == if Level(log, d).None? then None else Level(log', Level(log, d).value)
    decreases |log|
  {
    if log == [] {
      assert log + log' == log';
    } else {
      assert (log + log')[1..] == log[1..] + log' && (log + log')[0] == log[0];
      LevelCat(log[1..], log', if log[0].Push? then d + 1 else if log[0].Pop? && d > 0 then d - 1 else d);
    }
  }

  lemma BalancedCat(log: seq<Item>, log': seq<Item>)
    requires Balanced(log) && Balanced(log')
    ensures Balanced(log + log')
  {
    forall d: nat ensures Level(log + log', d) == Some(d) { LevelCat(log, log', d); }
  }

  lemma BalancedOne(it: Item)
    requires !it.Push? && !it.Pop?
    ensures Balanced([it])
  {
    assert [it][1..] == [];
  }

  lemma BalancedFrame(log: seq<Item>)
    requires Balanced(log)
    ensures Balanced([Push] + log + [Pop])
  {
    forall d: nat ensures Level([Push] + log + [Pop], d) == Some(d) {
      assert [Push][1..] == [] && [Pop][1..] == [];
      LevelCat([Push] + log, [Pop], d);
      LevelCat([Push], log, d);
    }
  }

  lemma {:induction false} StackFollowsLevel(rep: Report, log: seq<Item>, max: nat, solver: Solver, params: Params)
    requires Level(log, |rep.stack|).Some?
    ensures |Replay(rep, log, max, solver, params).stack| == Level(log, |rep.stack|).value
    decreases |log|
  {
    if log != [] {
      if log[0].Pop? { CommitAllDepth(rep.(stack := rep.stack[..|rep.stack| - 1]), rep.stack[|rep.stack| - 1], max); }
      StackFollowsLevel(Step(rep, log[0], max, solver, params), log[1..], max, solver, params);
    }
  }

  lemma {:induction false} CommitAllDepth(rep: Report, frame: Frame, max: nat)
    ensures |CommitAll(rep, frame, max).stack| == |rep.stack|
    decreases |frame|
  {
    if frame != [] { CommitAllDepth(Commit(rep, frame[0], max), frame[1..], max); }
  }

  // ---------------------------------------------------------------- every walk opens and closes its frames

  lemma BalancedNone()
    ensures Balanced([])
  {
  }

  lemma {:induction false} BlockBalanced(b: Block, env: Env, st: WState, cond: Term, cons: nat, unres: nat, u: bool)
    ensures Balanced(WalkBlock(b, env, st, cond, cons, unres, u).log)
    decreases b, 0
  {
    BalancedNone();
    hide Balanced, Level, WalkCompound, Translate;
    match b
    case Nil =>
    case Cons(h, t) =>
      if Compound(h) {
        var r := WalkCompound(h, env, st, cond, cons, Bump(unres, u));
        CompoundBalanced(h, env, st, cond, cons, Bump(unres, u));
        if r.out.Fails? {
          var bad := Unsolved(Label(h.line, KindOf(h)), false);
          BalancedOne(bad);
          BalancedCat(r.log, [bad]);
          BlockBalanced(t, env, r.st, cond, cons, unres, true);
          BalancedCat(r.log + [bad], WalkBlock(t, env, r.st, cond, cons, unres, true).log);
        } else if r.out.Falls? {
          BlockBalanced(t, r.out.env, r.st, r.out.cont, cons, unres, u || r.out.taint);
          BalancedCat(r.log, WalkBlock(t, r.out.env, r.st, r.out.cont, cons, unres, u || r.out.taint).log);
        }
      } else if h.Assign? {
        if Translate(h.e, env).Some? {
          var env1 := env[h.x := Entry(Translate(h.e, env).value, st.nextId)];
          BlockBalanced(t, env1, st.(nextId := st.nextId + 1), cond, cons, unres, u);
        }
      } else if !h.Return? {
        BlockBalanced(t, env, st, cond, cons, unres, u);
        BalancedOne(Passed(h.line));
        BalancedCat([Passed(h.line)], WalkBlock(t, env, st, cond, cons, unres, u).log);
      }
  }

  lemma {:induction false} CompoundBalanced(h: Stmt, env: Env, st: WState, cond: Term, cons: nat, unres: nat)
    requires Compound(h)
    ensures Balanced(WalkCompound(h, env, st, cond, cons, unres).log)
    decreases h, 2
  {
    match h
    case If(_, _, _, _) => IfBalanced(h, env, st, cond, cons, unres, KIf);
    case While(line, test, body) =>
      var g := Guard(test, env);
      BalancedOne(Unsolved(Label(line, KWhile), true));
      if g.Some? && !Mentions(g.value, st.tainted) {
        var enter := AndT(cond, g.value);
        var visit := Visit(Label(line, KWhile), enter, cons, unres);
        var rb := WalkBlock(body, env, st, enter, cons + 1, unres, false);
        BlockBalanced(body, env, st, enter, cons + 1, unres, false);
        BalancedOne(visit);
        BalancedOne(Passed(line));
        BalancedCat([visit], rb.log);
        BalancedCat([visit] + rb.log, [Passed(line)]);
      }
    case For(line, x, start, stop, step, body) =>
      var vals := RangeValues(start, stop, step);
      if step != 0 {
        if |vals| > MAX_UNROLL_ITERATIONS {
          var visit := Visit(Label(line, KFor), AndT(cond, BoolVal(Entered(h))), cons, unres);
          var env1, st1 := env[x := Entry(LoopIndex(h), st.nextId)], st.(nextId := st.nextId + 1);
          BlockBalanced(body, env1, st1, SomeIteration(h, visit.cond), cons + 1, unres, false);
          BalancedOne(visit);
          BalancedCat([visit], WalkBlock(body, env1, st1, SomeIteration(h, visit.cond), cons + 1, unres, false).log);
          assert WalkFor(h, env, st, cond, cons, unres) == WalkForAboveCap(h, env, st, cond, cons, unres);
        } else {
          var r := WalkUnrolled(h, vals, env, st, cond, cons, unres);
          assert WalkFor(h, env, st, cond, cons, unres) == r;
          var visit := Visit(Label(line, KFor), AndT(cond, BoolVal(vals != [])), cons, unres);
          BalancedOne(visit);
          if vals != [] {
            var rc := WalkCopies(body, x, vals, env, st, cond, cons, unres, false, false);
            CopiesBalanced(body, x, vals, env, st, cond, cons, unres, false, false);
            BalancedFrame(rc.log);
            BalancedCat([visit], [Push] + rc.log + [Pop]);
            assert r.log == [visit] + ([Push] + rc.log + [Pop]);
          }
        }
      }
  }

  lemma {:induction false} IfBalanced(h: Stmt, env: Env, st: WState, cond: Term, cons: nat, unres: nat, kind: Kind)
    requires h.If?
    ensures Balanced(WalkIf(h, env, st, cond, cons, unres, kind).log)
    decreases h, 1
  {
    var g := Guard(h.test, env);
    BalancedOne(Unsolved(Label(h.line, kind), true));
    if g.Some? && !Mentions(g.value, st.tainted) {
      var yes, no := AndT(cond, g.value), AndT(cond, NotT(g.value));
      var visit := Visit(Label(h.line, kind), yes, cons, unres);
      var rb := WalkBlock(h.body, env, st, yes, cons, unres, false);
      BlockBalanced(h.body, env, st, yes, cons, unres, false);
      BalancedOne(visit);
      BalancedCat([visit], rb.log);
      if !rb.out.Fails? {
        if IsElif(h.orelse) {
          IfBalanced(h.orelse.head, env, rb.st, no, cons, unres, KElif);
        } else if h.orelse.Cons? {
          var other := Visit(Label(h.orelse.head.line, KElse), no, cons, unres);
          BlockBalanced(h.orelse, env, rb.st, no, cons, unres, false);
          BalancedOne(other);
          BalancedCat([other], WalkBlock(h.orelse, env, rb.st, no, cons, unres, false).log);
        }
        BalancedCat([visit] + rb.log, WalkElse(h.orelse, env, rb.st, no, cons, unres).log);
      }
    }
  }

  lemma {:induction false} CopiesBalanced(body: Block, x: string, vals: seq<int>, env: Env, st: WState, cond: Term,
                                          cons: nat, unres: nat, u: bool, closed: bool)
    ensures Balanced(WalkCopies(body, x, vals, env, st, cond, cons, unres, u, closed).log)
    decreases body, 1, |vals|
  {
    if vals != [] {
      var env1, st1 := env[x := Entry(IntVal(vals[0]), st.nextId)], st.(nextId := st.nextId + 1);
      var r := WalkBlock(body, env1, st1, cond, cons, Bump(unres, u), false);
      BlockBalanced(body, env1, st1, cond, cons, Bump(unres, u), false);
      if !r.out.Fails? {
        var cont := if r.out.Falls? then r.out.cont else BoolVal(false);
        var u', closed' := u || r.out.taint, closed || r.out.Closes?;
        CopiesBalanced(body, x, vals[1..], r.out.env, r.st, cont, cons, unres, u', closed');
        BalancedCat(r.log, WalkCopies(body, x, vals[1..], r.out.env, r.st, cont, cons, unres, u', closed').log);
      }
    }
  }
}
