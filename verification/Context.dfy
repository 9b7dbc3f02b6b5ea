/**
  The walk as it is carried out: one context object, updated in place. Depths and frames are
  raised and lowered around the pieces they cover, and the closure signal is a one-shot flag that
  each caller reads and clears. Every method leaves the context as the pure walk says.
 */
module Context {
  import opened Wrappers
  import opened PySubset
  import opened Interp
  import opened Terms
  import opened Walk
  import opened WalkBasics
  import opened Verdicts

  // The result of walking something; the closure signal is left in the context.
  datatype Walked = FallsThrough(cont: Term, env: Env) | Closed(env: Env) | Raised

  predicate Yields(w: Walked, out: Outcome) {
    match out
    case Falls(cont, env, _) => w == FallsThrough(cont, env)
    case Closes(env, _) => w == Closed(env)
    case Fails => w == Raised
  }

  // A term is the root of a tainted symbol only if it or one of its children is.
  predicate TaintedLeaf(t: Term, names: set<string>) {
    t.Const? && t.sym.name in names
  }

  lemma MentionsChildren(t: Term, names: set<string>)
    ensures Mentions(t, names) <==> TaintedLeaf(t, names) || exists c :: c in Children(t) && Mentions(c, names)
  {
    if Mentions(t, names) {
      var s :| s in Syms(t) && s.name in names;
      if !t.Const? {
        assert exists c :: c in Children(t) && s in Syms(c) by {
          match t
          case NegT(a) => assert a in Children(t);
          case NotT(a) => assert a in Children(t);
          case ArithT(_, a, b) => assert a in Children(t) && b in Children(t);
          case DivT(a, k) => assert a in Children(t);
          case ModT(a, k) => assert a in Children(t);
          case AndT(a, b) => assert a in Children(t) && b in Children(t);
          case OrT(a, b) => assert a in Children(t) && b in Children(t);
          case CmpT(_, a, b) => assert a in Children(t) && b in Children(t);
          case Ite(c, a, b) => assert c in Children(t) && a in Children(t) && b in Children(t);
        }
      }
    }
    forall c | c in Children(t) && Mentions(c, names) ensures Mentions(t, names) {
      var s :| s in Syms(c) && s.name in names;
      assert s in Syms(t);
    }
  }

  // Terms seen so far hold no tainted leaf, and all their children are seen or waiting.
  predicate Explored(seen: set<Term>, stack: seq<Term>, names: set<string>) {
    forall t :: t in seen ==> !TaintedLeaf(t, names) && forall c :: c in Children(t) ==> c in seen || c in stack
  }

  function Size(t: Term): nat {
    match t
    case NegT(a) => 1 + Size(a)
    case NotT(a) => 1 + Size(a)
    case ArithT(_, a, b) => 1 + Size(a) + Size(b)
    case DivT(a, _) => 2 + Size(a)
    case ModT(a, _) => 2 + Size(a)
    case AndT(a, b) => 1 + Size(a) + Size(b)
    case OrT(a, b) => 1 + Size(a) + Size(b)
    case CmpT(_, a, b) => 1 + Size(a) + Size(b)
    case Ite(c, a, b) => 1 + Size(c) + Size(a) + Size(b)
    case _ => 1
  }

  function Sizes(ts: seq<Term>): nat {
    if ts == [] then 0 else Sizes(ts[..|ts| - 1]) + Size(ts[|ts| - 1])
  }

  lemma {:induction false} SizesCat(ts: seq<Term>, us: seq<Term>)
    ensures Sizes(ts + us) == Sizes(ts) + Sizes(us)
  {
    if us == [] {
      assert ts + us == ts;
    } else {
      assert (ts + us)[..|ts + us| - 1] == ts + us[..|us| - 1];
      SizesCat(ts, us[..|us| - 1]);
    }
  }

  lemma {:induction false} OneOfSizes(t: Term, ts: seq<Term>)
    requires t in ts
    ensures Size(t) <= Sizes(ts)
  {
    if t != ts[|ts| - 1] { OneOfSizes(t, ts[..|ts| - 1]); }
  }

  lemma ChildrenAreSmaller(t: Term)
    ensures Sizes(Children(t)) < Size(t)
  {
    var cs := Children(t);
    if cs != [] {
      assert [cs[0]][..0] == [] && Sizes([cs[0]]) == Size(cs[0]);
      assert |cs| == 2 ==> cs[..1] == [cs[0]];
      assert |cs| == 3 ==> cs[..2][..1] == [cs[0]] && Sizes(cs[..2]) == Size(cs[0]) + Size(cs[1]);
      assert t.DivT? || t.ModT? ==> Size(cs[1]) == 1;
    }
  }

  lemma {:induction false} ExploredIsClean(t: Term, seen: set<Term>, names: set<string>)
    requires t in seen && Explored(seen, [], names)
    ensures !Mentions(t, names)
    decreases Size(t)
  {
    MentionsChildren(t, names);
    ChildrenAreSmaller(t);
    forall c | c in Children(t) ensures !Mentions(c, names) {
      OneOfSizes(c, Children(t));
      ExploredIsClean(c, seen, names);
    }
  }

  // The tainted-symbol test: a worklist over the term, visiting each distinct subterm once.
  method MentionsTainted(expr: Term, names: set<string>) returns (found: bool)
    ensures found == Mentions(expr, names)
  {
    if names == {} { return false; }
    var stack, seen := [expr], {};
    while stack != []
      invariant Explored(seen, stack, names)
      invariant expr in seen || expr in stack
      invariant forall t :: t in stack && Mentions(t, names) ==> Mentions(expr, names)
      decreases Sizes(stack)
    {
      var n := |stack| - 1;
      var node := stack[n];
      var rest := stack[..n];
      assert stack == rest + [node];
      ChildrenAreSmaller(node);
      MentionsChildren(node, names);
      SizesCat(rest, Children(node));
      if node in seen {
        stack := rest;
      } else {
        seen := seen + {node};
        if TaintedLeaf(node, names) { return true; }
        stack := rest + Children(node);
      }
    }
    ExploredIsClean(expr, seen, names);
    return false;
  }

  class Ctx {
    const params: Params
    const maxBranches: nat
    const solver: Solver

    var branches: seq<Branch>
    var truncated: bool
    var supported: bool
    var unrollStack: seq<Frame>
    var conservativeDepth: nat
    var unresolvedDepth: nat
    var pending: bool
    var tainted: set<string>
    var taintCounter: nat
    var nextId: nat
    var calls: nat

    // What has been reported so far.
    ghost var log: seq<Item>

    function View(): Report
      reads this
    {
      Report(branches, unrollStack, truncated, calls)
    }

    function State(): WState
      reads this
    {
      WState(nextId, taintCounter, tainted)
    }

    // The collected verdicts are those of the log.
    ghost predicate Valid()
      reads this
    {
      View() == Replay(EmptyReport(), log, maxBranches, solver, params) && supported == Translated(log)
    }

    // The context has done what the pure walk `r` says, and `w` is what was returned.
    twostate predicate Did(r: Res, w: Walked)
      reads this
    {
      && Valid()
      && State() == r.st
      && log == old(log) + r.log
      && conservativeDepth == old(conservativeDepth) && unresolvedDepth == old(unresolvedDepth)
      && Yields(w, r.out) && (!r.out.Fails? ==> pending == r.out.taint)
    }

    constructor (params: Params, maxBranches: nat, solver: Solver)
      ensures this.params == params && this.maxBranches == maxBranches && this.solver == solver
      ensures Valid() && log == [] && State() == InitialState()
      ensures conservativeDepth == 0 && unresolvedDepth == 0
    {
      this.params, this.maxBranches, this.solver := params, maxBranches, solver;
      branches, truncated, supported, unrollStack := [], false, true, [];
      conservativeDepth, unresolvedDepth, pending := 0, 0, false;
      tainted, taintCounter, nextId, calls := {}, 1, 1, 0;
      log := [];
    }

    // ---------------------------------------------------------------- recording

    method CommitBranch(b: Branch)
      modifies this`branches, this`unrollStack, this`truncated
      ensures View() == Commit(old(View()), b, maxBranches)
    {
      if unrollStack != [] {
        var top := |unrollStack| - 1;
        unrollStack := unrollStack[top := Insert(unrollStack[top], b)];
      } else if |branches| >= maxBranches {
        truncated := true;
      } else {
        branches := branches + [b];
      }
    }

    lemma LogOne(it: Item)
      ensures Replay(EmptyReport(), log + [it], maxBranches, solver, params)
           == Step(Replay(EmptyReport(), log, maxBranches, solver, params), it, maxBranches, solver, params)
    {
      ReplayCat(EmptyReport(), log, [it], maxBranches, solver, params);
      assert [it][1..] == [];
    }

    method PushFrame()
      requires Valid()
      modifies this`unrollStack, this`log
      ensures Valid() && log == old(log) + [Push] && |unrollStack| == |old(unrollStack)| + 1
    {
      LogOne(Push);
      unrollStack := unrollStack + [[]];
      log := log + [Push];
    }

    method FlushUnrollFrame()
      requires Valid() && unrollStack != []
      modifies this`branches, this`unrollStack, this`truncated, this`log
      ensures Valid() && log == old(log) + [Pop]
    {
      LogOne(Pop);
      ghost var after := Flush(View(), maxBranches);
      var top := |unrollStack| - 1;
      var frame := unrollStack[top];
      unrollStack := unrollStack[..top];
      var i := 0;
      while i < |frame|
        invariant i <= |frame| && log == old(log)
        invariant CommitAll(View(), frame[i..], maxBranches) == after
      {
        assert frame[i..][0] == frame[i] && frame[i..][1..] == frame[i + 1..];
        CommitBranch(frame[i]);
        i := i + 1;
      }
      log := log + [Pop];
    }

    method Record(arm: Label, cond: Term)
      requires Valid()
      modifies this`branches, this`unrollStack, this`truncated, this`calls, this`log
      ensures Valid() && log == old(log) + [Visit(arm, cond, conservativeDepth, unresolvedDepth)]
    {
      LogOne(Visit(arm, cond, conservativeDepth, unresolvedDepth));
      log := log + [Visit(arm, cond, conservativeDepth, unresolvedDepth)];
      if unrollStack == [] && |branches| >= maxBranches {
        truncated := true;
        return;
      }
      var answer := solver(calls, cond);
      calls := calls + 1;
      CommitBranch(Decide(Visit(arm, cond, conservativeDepth, unresolvedDepth), answer, params));
    }

    // A guard that is passed over; one that failed to translate makes the result unsupported.
    method RecordUnsolved(arm: Label, byTaint: bool)
      requires Valid()
      modifies this`branches, this`unrollStack, this`truncated, this`supported, this`log
      ensures Valid() && log == old(log) + [Unsolved(arm, byTaint)]
    {
      LogOne(Unsolved(arm, byTaint));
      log := log + [Unsolved(arm, byTaint)];
      assert Unsolved(arm, byTaint) in log;
      if !byTaint { supported := false; }
      if unrollStack == [] && |branches| >= maxBranches {
        truncated := true;
        return;
      }
      CommitBranch(Branch(arm, Unknown, None, if byTaint then TaintedByLoop else NoReason));
    }

    ghost method PassOver(line: int)
      requires Valid()
      modifies this`log
      ensures Valid() && log == old(log) + [Passed(line)]
    {
      LogOne(Passed(line));
      log := log + [Passed(line)];
    }

    // Read and clear the one-shot signal.
    method TakeClosureTaint() returns (taken: bool)
      modifies this`pending
      ensures taken == old(pending) && !pending
    {
      taken := pending;
      pending := false;
    }

    // ---------------------------------------------------------------- walking

    // Undo the depth that an unresolved closure raised, and pass the signal on.
    method EndBlock(uncertain: bool)
      requires uncertain ==> unresolvedDepth > 0
      modifies this`unresolvedDepth, this`pending
      ensures Bump(unresolvedDepth, uncertain) == old(unresolvedDepth) && pending == uncertain
    {
      if uncertain { unresolvedDepth := unresolvedDepth - 1; }
      pending := uncertain;
    }

    method WalkBlock(stmts: Block, env0: Env, cond0: Term) returns (w: Walked)
      requires Valid()
      modifies this
      ensures Did(Walk.WalkBlock(stmts, env0, old(State()), cond0, old(conservativeDepth), old(unresolvedDepth),
                                 false), w)
      decreases stmts, 0
    {
      hide Replay, Translated;
      var rest, env, cond := stmts, env0, cond0;
      var uncertain := false;
      w := FallsThrough(cond, env);
      ghost var cons, unres := conservativeDepth, unresolvedDepth;
      ghost var whole := Walk.WalkBlock(stmts, env0, State(), cond0, cons, unres, false);
      while rest.Cons?
        invariant Valid() && (rest == stmts || rest < stmts) && w == FallsThrough(cond, env)
        invariant StillToDo(old(log), log, whole, Walk.WalkBlock(rest, env, State(), cond, cons, unres, uncertain))
        invariant conservativeDepth == cons && unresolvedDepth == Bump(unres, uncertain)
        decreases rest
      {
        PieceFirst(rest.head, rest.tail, env, State(), cond, cons, unres, uncertain);
        ghost var before, r := log, Piece(rest.head, env, State(), cond, cons, unresolvedDepth, uncertain);
        w, uncertain := WalkStmt(rest.head, env, cond, uncertain);
        if !w.FallsThrough? { break; }
        cond, env, rest := w.cont, w.env, rest.tail;
        DoneWith(old(log), before, whole, r.log, Walk.WalkBlock(rest, env, State(), cond, cons, unres, uncertain));
      }
      EndBlock(uncertain);
    }

    // One statement of a block; `uncertain` says whether an earlier one left its closure open.
    method WalkStmt(h: Stmt, env: Env, cond: Term, uncertain: bool) returns (w: Walked, uncertain': bool)
      requires Valid()
      modifies this
      ensures var r := Piece(h, env, old(State()), cond, old(conservativeDepth), old(unresolvedDepth), uncertain);
        && Valid() && State() == r.st && log == old(log) + r.log && Yields(w, r.out)
        && uncertain' == (if r.out.Falls? then r.out.taint else uncertain)
      ensures conservativeDepth == old(conservativeDepth)
      ensures unresolvedDepth == if uncertain' && !uncertain then old(unresolvedDepth) + 1 else old(unresolvedDepth)
      decreases h, 6
    {
      w, uncertain' := FallsThrough(cond, env), uncertain;
      if Compound(h) {
        w, uncertain' := StepCompound(h, env, cond, uncertain);
      } else if h.Assign? {
        var v := Translate(h.e, env);
        if v.None? { return Raised, uncertain; }
        w := FallsThrough(cond, env[h.x := Entry(v.value, nextId)]);
        nextId := nextId + 1;
      } else if h.Return? {
        w := Closed(env);
      } else if h.ExprStmt? {
        PassOver(h.line);
      }
    }

    // A compound statement of a block, raising the depth the first time one leaves its closure open.
    method StepCompound(h: Stmt, env: Env, cond: Term, uncertain: bool) returns (w: Walked, uncertain': bool)
      requires Valid() && Compound(h)
      modifies this
      ensures var r := Tried(h, env, old(State()), cond, old(conservativeDepth), old(unresolvedDepth));
        && Valid() && State() == r.st && log == old(log) + r.log && Yields(w, r.out)
        && uncertain' == (uncertain || (r.out.Falls? && r.out.taint))
      ensures conservativeDepth == old(conservativeDepth)
      ensures unresolvedDepth == if uncertain' && !uncertain then old(unresolvedDepth) + 1 else old(unresolvedDepth)
      decreases h, 5
    {
      var taint;
      w, taint := TryCompound(h, env, cond);
      uncertain' := uncertain;
      if w.FallsThrough? && taint && !uncertain {
        uncertain' := true;
        unresolvedDepth := unresolvedDepth + 1;
      }
    }

    // A compound statement, with a translation error turned into an opaque pass-through.
    method TryCompound(h: Stmt, env: Env, cond: Term) returns (w: Walked, taint: bool)
      requires Valid() && Compound(h)
      modifies this
      ensures Valid() && conservativeDepth == old(conservativeDepth) && unresolvedDepth == old(unresolvedDepth)
      ensures var r := Tried(h, env, old(State()), cond, old(conservativeDepth), old(unresolvedDepth));
        State() == r.st && log == old(log) + r.log && Yields(w, r.out) && taint == r.out.taint
      decreases h, 4
    {
      hide Replay, Translated, Walk.WalkIf, Walk.WalkWhile, Walk.WalkFor;
      match h {
        case If(_, _, _, _) => w := WalkIf(h, env, cond, KIf);
        case While(_, _, _) => w := WalkWhile(h, env, cond);
        case For(_, _, _, _, _, _) => w := WalkFor(h, env, cond);
      }
      if w.Raised? {
        RecordUnsolved(Label(h.line, KindOf(h)), false);
        w, taint := FallsThrough(cond, env), true;
      } else {
        taint := TakeClosureTaint();
      }
    }

    method WalkIf(h: Stmt, env: Env, cond: Term, kind: Kind) returns (w: Walked)
      requires Valid() && h.If?
      modifies this
      ensures Did(Walk.WalkIf(h, env, old(State()), cond, old(conservativeDepth), old(unresolvedDepth), kind), w)
      decreases h, 3
    {
      var g := Guard(h.test, env);
      if g.None? { return Raised; }
      var passOver := MentionsTainted(g.value, tainted);
      if passOver {
        RecordUnsolved(Label(h.line, kind), true);
        pending := true;
        return FallsThrough(cond, env);
      }
      w := WalkArms(h, env, cond, g.value, kind);
    }

    method WalkArms(h: Stmt, env: Env, cond: Term, g: Term, kind: Kind) returns (w: Walked)
      requires Valid() && h.If? && Guard(h.test, env) == Some(g) && !Mentions(g, tainted)
      modifies this
      ensures Did(Walk.WalkIf(h, env, old(State()), cond, old(conservativeDepth), old(unresolvedDepth), kind), w)
      decreases h, 2
    {
      hide Replay, Translated, Walk.WalkBlock, Walk.WalkElse;
      ghost var visit := Visit(Label(h.line, kind), AndT(cond, g), conservativeDepth, unresolvedDepth);
      ghost var rb := Walk.WalkBlock(h.body, env, State(), AndT(cond, g), conservativeDepth, unresolvedDepth, false);
      Record(Label(h.line, kind), AndT(cond, g));
      var wb := WalkBlock(h.body, env, AndT(cond, g));
      assert log == old(log) + ([visit] + rb.log);
      if wb.Raised? { return Raised; }
      w := FinishArms(h.orelse, env, cond, g, wb, rb);
    }

    // The `else` side and the join, after the body.
    method FinishArms(orelse: Block, env: Env, cond: Term, g: Term, wb: Walked, ghost rb: Res) returns (w: Walked)
      requires Valid() && !rb.out.Fails? && Yields(wb, rb.out) && pending == rb.out.taint && State() == rb.st
      modifies this
      ensures var re := Walk.WalkElse(orelse, env, old(State()), AndT(cond, NotT(g)), old(conservativeDepth),
                                      old(unresolvedDepth));
        var r := Join(g, env, rb, re, re.log);
        && Valid() && State() == r.st && log == old(log) + re.log
        && conservativeDepth == old(conservativeDepth) && unresolvedDepth == old(unresolvedDepth)
        && Yields(w, r.out) && (!r.out.Fails? ==> pending == r.out.taint)
      decreases orelse, 6
    {
      var bodyTaint := TakeClosureTaint();
      ghost var re := Walk.WalkElse(orelse, env, State(), AndT(cond, NotT(g)), conservativeDepth, unresolvedDepth);
      var we := WalkElse(orelse, env, AndT(cond, NotT(g)));
      if we.Raised? { return Raised; }
      var elseTaint := TakeClosureTaint();
      w := JoinArms(g, env, wb, we, bodyTaint, elseTaint, rb, re);
    }

    // Only the arms that fall through contribute to the condition, the environment and the signal.
    method JoinArms(g: Term, env: Env, wb: Walked, we: Walked, bodyTaint: bool, elseTaint: bool, ghost rb: Res,
                    ghost re: Res)
      returns (w: Walked)
      requires Valid() && !pending && State() == re.st
      requires !rb.out.Fails? && Yields(wb, rb.out) && bodyTaint == rb.out.taint
      requires !re.out.Fails? && Yields(we, re.out) && elseTaint == re.out.taint
      modifies this`pending, this`nextId
      ensures var r := Join(g, env, rb, re, log);
        Valid() && State() == r.st && Yields(w, r.out) && (!r.out.Fails? ==> pending == r.out.taint)
    {
      if wb.Closed? && we.Closed? {
        w := Closed(env);
      } else if wb.Closed? {
        w, pending := we, elseTaint;
      } else if we.Closed? {
        w, pending := wb, bodyTaint;
      } else if !Joinable(wb.env, we.env) {
        w := Raised;
      } else {
        w := FallsThrough(OrT(wb.cont, we.cont), MergeEnvs(g, wb.env, we.env, nextId));
        nextId := nextId + 1;
        pending := bodyTaint || elseTaint;
      }
    }

    // The signal must have been taken: an absent `else` leaves it as it is.
    method WalkElse(orelse: Block, env: Env, cond: Term) returns (w: Walked)
      requires Valid() && !pending
      modifies this
      ensures Did(Walk.WalkElse(orelse, env, old(State()), cond, old(conservativeDepth), old(unresolvedDepth)), w)
      decreases orelse, 5
    {
      if IsElif(orelse) {
        w := WalkIf(orelse.head, env, cond, KElif);
      } else if orelse.Cons? {
        Record(Label(orelse.head.line, KElse), cond);
        w := WalkBlock(orelse, env, cond);
      } else {
        w := FallsThrough(cond, env);
      }
    }

    method WalkFor(h: Stmt, env: Env, cond: Term) returns (w: Walked)
      requires Valid() && h.For?
      modifies this
      ensures Did(Walk.WalkFor(h, env, old(State()), cond, old(conservativeDepth), old(unresolvedDepth)), w)
      decreases h, 3
    {
      if h.step == 0 { return Raised; }
      var vals := RangeValues(h.start, h.stop, h.step);
      if |vals| <= MAX_UNROLL_ITERATIONS {
        w := WalkUnrolled(h, vals, env, cond);
      } else {
        w := WalkForAboveCap(h, env, cond);
      }
    }

    method WalkUnrolled(h: Stmt, vals: seq<int>, env: Env, cond: Term) returns (w: Walked)
      requires Valid() && h.For?
      modifies this
      ensures Did(Walk.WalkUnrolled(h, vals, env, old(State()), cond, old(conservativeDepth), old(unresolvedDepth)), w)
      decreases h, 2
    {
      hide Replay, Translated, Walk.WalkCopies;
      Record(Label(h.line, KFor), AndT(cond, BoolVal(vals != [])));
      if vals == [] {
        pending := false;
        return FallsThrough(cond, env);
      }
      PushFrame();
      FrameStaysOpen(log, h, vals, env, State(), cond, conservativeDepth, unresolvedDepth);
      w := WalkCopies(h, vals, env, cond);
      FlushUnrollFrame();
    }

    // The copies close every frame that they open.
    lemma FrameStaysOpen(start: seq<Item>, h: Stmt, vals: seq<int>, env: Env, st: WState, cond: Term, cons: nat,
                         unres: nat)
      requires h.For?
      ensures var r := Walk.WalkCopies(h.body, h.target, vals, env, st, cond, cons, unres, false, false);
        |Replay(EmptyReport(), start + r.log, maxBranches, solver, params).stack|
        == |Replay(EmptyReport(), start, maxBranches, solver, params).stack|
    {
      var r := Walk.WalkCopies(h.body, h.target, vals, env, st, cond, cons, unres, false, false);
      var rep := Replay(EmptyReport(), start, maxBranches, solver, params);
      CopiesBalanced(h.body, h.target, vals, env, st, cond, cons, unres, false, false);
      assert Level(r.log, |rep.stack|) == Some(|rep.stack|);
      ReplayCat(EmptyReport(), start, r.log, maxBranches, solver, params);
      StackFollowsLevel(rep, r.log, maxBranches, solver, params);
    }

    method WalkCopies(h: Stmt, vals: seq<int>, env0: Env, cond0: Term) returns (w: Walked)
      requires Valid() && h.For?
      modifies this
      ensures Did(Walk.WalkCopies(h.body, h.target, vals, env0, old(State()), cond0, old(conservativeDepth),
                                  old(unresolvedDepth), false, false), w)
      decreases h, 1
    {
      hide Replay, Translated, Walk.WalkBlock, Walk.WalkCopies;
      var i, env, cond := 0, env0, cond0;
      var uncertain, closed := false, false;
      w := FallsThrough(cond, env);
      ghost var cons, unres := conservativeDepth, unresolvedDepth;
      ghost var whole := Walk.WalkCopies(h.body, h.target, vals, env0, State(), cond0, cons, unres, false, false);
      assert vals[0..] == vals;
      while i < |vals|
        invariant Valid() && i <= |vals| && w == FallsThrough(cond, env)
        invariant StillToDo(old(log), log, whole,
                            Walk.WalkCopies(h.body, h.target, vals[i..], env, State(),
                                            cond, cons, unres, uncertain, closed))
        invariant conservativeDepth == cons && unresolvedDepth == Bump(unres, uncertain)
      {
        CopyFirst(h.body, h.target, vals[i..], env, State(), cond, cons, unres, uncertain, closed);
        assert vals[i..][0] == vals[i] && vals[i..][1..] == vals[i + 1..];
        env := env[h.target := Entry(IntVal(vals[i]), nextId)];
        nextId := nextId + 1;
        ghost var before, r := log, Walk.WalkBlock(h.body, env, State(), cond, cons, unresolvedDepth, false);
        w := WalkBlock(h.body, env, cond);
        if w.Raised? { break; }
        uncertain := NoteTaint(uncertain);
        env := w.env;
        // After a copy that closes, the rest are still walked, so that their arms are reported,
        // but nothing reaches them.
        closed, cond := closed || w.Closed?, if w.Closed? then BoolVal(false) else w.cont;
        i := i + 1;
        w := FallsThrough(cond, env);
        DoneWith(old(log), before, whole, r.log,
                 Walk.WalkCopies(h.body, h.target, vals[i..], env, State(), cond, cons, unres, uncertain, closed));
      }
      assert i == |vals| ==> vals[i..] == [];
      NoCopiesLeft(h.body, h.target, env, State(), cond, cons, unres, uncertain, closed);
      EndBlock(uncertain);
      if closed && !w.Raised? { w, pending := Closed(env), false; }
    }

    // Take the signal, raising the depth the first time it is up.
    method NoteTaint(uncertain: bool) returns (uncertain': bool)
      modifies this`pending, this`unresolvedDepth
      ensures uncertain' == (uncertain || old(pending)) && !pending
      ensures unresolvedDepth == if uncertain' && !uncertain then old(unresolvedDepth) + 1 else old(unresolvedDepth)
    {
      var taint := TakeClosureTaint();
      uncertain' := uncertain || taint;
      if taint && !uncertain { unresolvedDepth := unresolvedDepth + 1; }
    }

    method WalkWhile(h: Stmt, env: Env, cond: Term) returns (w: Walked)
      requires Valid() && h.While?
      modifies this
      ensures Did(Walk.WalkWhile(h, env, old(State()), cond, old(conservativeDepth), old(unresolvedDepth)), w)
      decreases h, 3
    {
      var g := Guard(h.test, env);
      if g.None? { return Raised; }
      var passOver := MentionsTainted(g.value, tainted);
      if passOver {
        RecordUnsolved(Label(h.line, KWhile), true);
        pending := true;
        return FallsThrough(cond, env);
      }
      w := EnterWhile(h, env, cond, g.value);
    }

    method EnterWhile(h: Stmt, env: Env, cond: Term, g: Term) returns (w: Walked)
      requires Valid() && h.While? && Guard(h.test, env) == Some(g) && !Mentions(g, tainted)
      modifies this
      ensures Did(Walk.WalkWhile(h, env, old(State()), cond, old(conservativeDepth), old(unresolvedDepth)), w)
      decreases h, 2
    {
      hide Replay, Translated, Walk.WalkBlock;
      var enter := AndT(cond, g);
      ghost var visit := Visit(Label(h.line, KWhile), enter, conservativeDepth, unresolvedDepth);
      Record(Label(h.line, KWhile), enter);
      ghost var rb := Walk.WalkBlock(h.body, env, State(), enter, conservativeDepth + 1, unresolvedDepth, false);
      var wb := WalkLoopBody(h.body, env, enter);
      PassOver(h.line);
      assert log == old(log) + ([visit] + rb.log + [Passed(h.line)]);
      w := LeaveLoop(h.body, env, cond, g, wb, rb);
    }

    // One representative iteration.
    method WalkLoopBody(body: Block, env: Env, cond: Term) returns (w: Walked)
      requires Valid()
      modifies this
      ensures Did(Walk.WalkBlock(body, env, old(State()), cond, old(conservativeDepth) + 1, old(unresolvedDepth),
                                 false), w)
      decreases body, 1
    {
      conservativeDepth := conservativeDepth + 1;
      w := WalkBlock(body, env, cond);
      conservativeDepth := conservativeDepth - 1;
    }

    method WalkForAboveCap(h: Stmt, env: Env, cond: Term) returns (w: Walked)
      requires Valid() && h.For?
      modifies this
      ensures Did(Walk.WalkForAboveCap(h, env, old(State()), cond, old(conservativeDepth), old(unresolvedDepth)), w)
      decreases h, 2
    {
      hide Replay, Translated, Walk.WalkBlock;
      var enter := AndT(cond, BoolVal(Entered(h)));
      ghost var visit := Visit(Label(h.line, KFor), enter, conservativeDepth, unresolvedDepth);
      Record(Label(h.line, KFor), enter);
      var env1, inside := env[h.target := Entry(LoopIndex(h), nextId)], SomeIteration(h, enter);
      nextId := nextId + 1;
      ghost var rb := Walk.WalkBlock(h.body, env1, State(), inside, conservativeDepth + 1, unresolvedDepth, false);
      var wb := WalkLoopBody(h.body, env1, inside);
      assert log == old(log) + ([visit] + rb.log);
      w := LeaveLoop(h.body, env, cond, BoolVal(Entered(h)), wb, rb);
    }

    // Taint what the body rebound, and say what of the loop's closure the code after it may trust.
    method LeaveLoop(body: Block, env: Env, cond: Term, guard: Term, wb: Walked, ghost rb: Res) returns (w: Walked)
      requires Valid() && Yields(wb, rb.out) && State() == rb.st && (!rb.out.Fails? ==> pending == rb.out.taint)
      modifies this`pending, this`tainted, this`taintCounter, this`nextId
      ensures var r := Walk.LeaveLoop(body, env, cond, guard, rb, log);
        Valid() && Yields(w, r.out) && State() == r.st && (!r.out.Fails? ==> pending == r.out.taint)
    {
      if wb.Raised? { return Raised; }
      var bodyTaint := TakeClosureTaint();
      var env' := TaintEnv(env, wb.env, State());
      var st' := TaintState(env, wb.env, State());
      nextId, taintCounter, tainted := st'.nextId, st'.taints, st'.tainted;
      if wb.Closed? {
        pending := bodyTaint;
        return FallsThrough(AndT(cond, NotT(guard)), env');
      }
      if HasReturn(body) {
        pending := true;
        return FallsThrough(wb.cont, env');
      }
      pending := bodyTaint;
      return FallsThrough(cond, env');
    }
  }

  // `whole` is what the walk reports after `start`; `rest` is what it reports from `now` on.
  ghost predicate StillToDo(start: seq<Item>, now: seq<Item>, whole: Res, rest: Res) {
    whole.out == rest.out && whole.st == rest.st && start + whole.log == now + rest.log
  }

  lemma DoneWith(start: seq<Item>, now: seq<Item>, whole: Res, piece: seq<Item>, rest: Res)
    requires StillToDo(start, now, whole, Prepend(piece, rest))
    ensures StillToDo(start, now + piece, whole, rest)
  {
    assert now + (piece + rest.log) == now + piece + rest.log;
  }

  // A compound statement with the translation error caught.
  function Tried(h: Stmt, env: Env, st: WState, cond: Term, cons: nat, unres: nat): Res
    requires Compound(h)
  {
    var r := Walk.WalkCompound(h, env, st, cond, cons, unres);
    if r.out.Fails? then Res(Falls(cond, env, true), r.st, r.log + [Unsolved(Label(h.line, KindOf(h)), false)]) else r
  }

  // What one statement of a block contributes.
  function Piece(h: Stmt, env: Env, st: WState, cond: Term, cons: nat, unres: nat, u: bool): Res {
    match h
    case Pass(_) => Res(Falls(cond, env, u), st, [])
    case ExprStmt(line, _) => Res(Falls(cond, env, u), st, [Passed(line)])
    case Assign(_, x, e) =>
      var v := Translate(e, env);
      if v.None? then Res(Fails, st, [])
      else Res(Falls(cond, env[x := Entry(v.value, st.nextId)], u), st.(nextId := st.nextId + 1), [])
    case Return(_) => Res(Closes(env, u), st, [])
    case _ =>
      var r := Tried(h, env, st, cond, cons, unres);
      if r.out.Falls? then r.(out := Falls(r.out.cont, r.out.env, u || r.out.taint))
        else r.(out := Closes(r.out.env, u))
  }

  lemma PieceFirst(h: Stmt, t: Block, env: Env, st: WState, cond: Term, cons: nat, unres: nat, u: bool)
    ensures var r := Piece(h, env, st, cond, cons, Bump(unres, u), u);
      Walk.WalkBlock(Cons(h, t), env, st, cond, cons, unres, u)
      == if r.out.Falls? then Prepend(r.log, Walk.WalkBlock(t, r.out.env, r.st, r.out.cont, cons, unres, r.out.taint))
        else r
  {
    if Compound(h) {
      CompoundFirst(h, t, env, st, cond, cons, unres, u);
    } else {
      var r := Piece(h, env, st, cond, cons, Bump(unres, u), u);
      if r.out.Falls? {
        var rest := Walk.WalkBlock(t, r.out.env, r.st, r.out.cont, cons, unres, r.out.taint);
        assert [] + rest.log == rest.log;
      }
    }
  }

  lemma CompoundFirst(h: Stmt, t: Block, env: Env, st: WState, cond: Term, cons: nat, unres: nat, u: bool)
    requires Compound(h)
    ensures var r := Piece(h, env, st, cond, cons, Bump(unres, u), u);
      Walk.WalkBlock(Cons(h, t), env, st, cond, cons, unres, u)
      == if r.out.Falls? then Prepend(r.log, Walk.WalkBlock(t, r.out.env, r.st, r.out.cont, cons, unres, r.out.taint))
        else r
  {
  }

  // The entry point: the report that a run of the analysis leaves behind is the specified one.
  method RunAnalysis(params: Params, body: Block, maxBranches: nat, solver: Solver)
    returns (rep: Option<Report>, supported: bool)
    ensures rep == Analyze(params, body, maxBranches, solver)
    ensures rep.Some? ==> supported == Translated(WalkProgram(params, body).log)
  {
    var ctx := new Ctx(params, maxBranches, solver);
    var w := ctx.WalkBlock(body, ParamEnv(params), BoolVal(true));
    ghost var r := WalkProgram(params, body);
    assert ctx.log == r.log;
    rep := if w.Raised? then None else Some(ctx.View());
    supported := ctx.supported;
  }
}
