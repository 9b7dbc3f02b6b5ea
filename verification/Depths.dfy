/**
  The depths that are reported with an arm: it is inside an approximated loop only if its line is,
  and after an unresolved closure only if a statement was passed over or an approximated loop may return.
 */
module Depths {
  import opened PySubset
  import opened Interp
  import opened Terms
  import opened Walk
  import opened WalkBasics
  import opened AnyStore
  import opened Scope
  import opened Placement
  import opened Reach

  // The lines of the loop bodies of which a run with this fuel may reach an iteration that the
  // walk does not describe: any after the first in a `while`, any at all in a `for` above the cap.
  predicate Recurs(b: Block, far: set<int>, fuel: nat)
    decreases b, 0
  {
    b.Cons? ==> StmtRecurs(b.head, far, fuel) && Recurs(b.tail, far, fuel)
  }

  predicate StmtRecurs(h: Stmt, far: set<int>, fuel: nat)
    decreases h, 1
  {
    match h
    case If(_, _, body, orelse) => Recurs(body, far, fuel) && Recurs(orelse, far, fuel)
    case While(_, _, body) => Recurs(body, far, fuel) && (fuel <= 1 || Lines(body) <= far)
    case For(_, _, start, stop, step, body) =>
      if |RangeValues(start, stop, step)| <= MAX_UNROLL_ITERATIONS then Recurs(body, far, fuel) else Lines(body) <= far
    case _ => true
  }

  lemma {:induction false} AllLinesRecur(b: Block, far: set<int>, fuel: nat)
    requires Lines(b) <= far
    ensures Recurs(b, far, fuel)
    decreases b, 0
  {
    if b.Cons? {
      AllLinesRecur(b.tail, far, fuel);
      assert Lines(b) == {b.head.line} + Inner(b.head) + Lines(b.tail);
      match b.head
      case If(_, _, body, orelse) => AllLinesRecur(body, far, fuel); AllLinesRecur(orelse, far, fuel);
      case While(_, _, body) => AllLinesRecur(body, far, fuel);
      case For(_, _, _, _, _, body) => AllLinesRecur(body, far, fuel);
      case _ =>
    }
  }

  // No approximated loop may return.
  predicate LoopsGoOn(b: Block)
    decreases b, 0
  {
    b.Cons? ==> StmtLoopsGoOn(b.head) && LoopsGoOn(b.tail)
  }

  predicate StmtLoopsGoOn(h: Stmt)
    decreases h, 1
  {
    match h
    case If(_, _, body, orelse) => LoopsGoOn(body) && LoopsGoOn(orelse)
    case While(_, _, body) => !HasReturn(body) && LoopsGoOn(body)
    case For(_, _, start, stop, step, body) =>
      LoopsGoOn(body) && (|RangeValues(start, stop, step)| <= MAX_UNROLL_ITERATIONS || !HasReturn(body))
    case _ => true
  }

  lemma {:induction false} UnrolledOnly(b: Block)
    requires WhileFree(b) && WithinCap(b)
    ensures LoopsGoOn(b) && forall far, fuel :: Recurs(b, far, fuel)
    decreases b, 0
  {
    if b.Cons? {
      UnrolledOnly(b.tail);
      StmtUnrolledOnly(b.head);
    }
  }

  lemma {:induction false} StmtUnrolledOnly(h: Stmt)
    requires StmtWhileFree(h) && StmtWithinCap(h)
    ensures StmtLoopsGoOn(h) && forall far, fuel :: StmtRecurs(h, far, fuel)
    decreases h, 1
  {
    match h
    case If(_, _, body, orelse) => UnrolledOnly(body); UnrolledOnly(orelse);
    case For(_, _, _, _, _, body) => UnrolledOnly(body);
    case _ =>
  }

  // The depth of enclosing loops is as before the walk, except on the lines inside approximated
  // loops; so is that of unresolved closures if nothing was passed over and the loops go on.
  datatype Depth = Depth(cons: nat, unres: nat, far: set<int>, settled: bool)

  predicate At(it: Item, at: Depth) {
    it.Visit? ==> (it.cons == at.cons || it.arm.line in at.far) && (at.settled ==> it.unres == at.unres)
  }

  predicate Flat(r: Res, at: Depth) {
    && (forall it :: it in r.log ==> At(it, at))
    && (at.settled && !r.out.Fails? ==> !r.out.taint)
  }

  predicate Kept(b: Block, log: seq<Item>, u: bool, at: Depth) {
    Recurs(b, at.far, 2) && (at.settled ==> LoopsGoOn(b) && Resolved(log) && !u)
  }

  lemma FlatThen(log: seq<Item>, r: Res, at: Depth)
    requires Flat(r, at) && forall it :: it in log ==> At(it, at)
    ensures Flat(Prepend(log, r), at)
  {
  }

  lemma {:induction false} BlockFlat(b: Block, env: Env, st: WState, cond: Term, u: bool, at: Depth)
    requires Kept(b, WalkBlock(b, env, st, cond, at.cons, at.unres, u).log, u, at)
    ensures Flat(WalkBlock(b, env, st, cond, at.cons, at.unres, u), at)
    decreases b, 0
  {
    match b
    case Nil =>
    case Cons(h, t) =>
      if Compound(h) {
        CompoundThenFlat(h, t, env, st, cond, u, at);
      } else if h.Assign? {
        if Translate(h.e, env).Some? {
          var env1 := env[h.x := Entry(Translate(h.e, env).value, st.nextId)];
          BlockFlat(t, env1, st.(nextId := st.nextId + 1), cond, u, at);
        }
      } else if !h.Return? {
        var r := WalkBlock(t, env, st, cond, at.cons, at.unres, u);
        assert WalkBlock(b, env, st, cond, at.cons, at.unres, u)
            == if h.Pass? then r else Prepend([Passed(h.line)], r);
        BlockFlat(t, env, st, cond, u, at);
      }
  }

  lemma {:induction false} CompoundThenFlat(h: Stmt, t: Block, env: Env, st: WState, cond: Term, u: bool, at: Depth)
    requires Compound(h)
    requires Kept(Cons(h, t), WalkBlock(Cons(h, t), env, st, cond, at.cons, at.unres, u).log, u, at)
    ensures Flat(WalkBlock(Cons(h, t), env, st, cond, at.cons, at.unres, u), at)
    decreases Cons(h, t), 0, 0
  {
    var whole := WalkBlock(Cons(h, t), env, st, cond, at.cons, at.unres, u);
    var r := WalkCompound(h, env, st, cond, at.cons, Bump(at.unres, u));
    var bad := Unsolved(Label(h.line, KindOf(h)), false);
    if u {
      CompoundFlat(h, env, st, cond, at.(unres := at.unres + 1));
    } else {
      CompoundFlat(h, env, st, cond, at);
    }
    if r.out.Fails? {
      assert bad in whole.log;
      BlockFlat(t, env, r.st, cond, true, at);
      FlatThen(r.log + [bad], WalkBlock(t, env, r.st, cond, at.cons, at.unres, true), at);
    } else if r.out.Falls? {
      BlockFlat(t, r.out.env, r.st, r.out.cont, u || r.out.taint, at);
      FlatThen(r.log, WalkBlock(t, r.out.env, r.st, r.out.cont, at.cons, at.unres, u || r.out.taint), at);
    }
  }

  lemma {:induction false} CompoundFlat(h: Stmt, env: Env, st: WState, cond: Term, at: Depth)
    requires Compound(h) && StmtRecurs(h, at.far, 2)
    requires at.settled ==> StmtLoopsGoOn(h) && Resolved(WalkCompound(h, env, st, cond, at.cons, at.unres).log)
    ensures Flat(WalkCompound(h, env, st, cond, at.cons, at.unres), at)
    decreases h, 2
  {
    match h
    case If(_, _, _, _) => IfFlat(h, env, st, cond, KIf, at);
    case While(_, _, _) => WhileFlat(h, env, st, cond, at);
    case For(_, x, _, _, _, body) =>
      var vals := RangeValues(h.start, h.stop, h.step);
      if h.step != 0 {
        if |vals| > MAX_UNROLL_ITERATIONS {
          assert WalkFor(h, env, st, cond, at.cons, at.unres) == WalkForAboveCap(h, env, st, cond, at.cons, at.unres);
          AboveCapFlat(h, env, st, cond, at);
        } else if vals != [] {
          var r := WalkUnrolled(h, vals, env, st, cond, at.cons, at.unres);
          assert WalkFor(h, env, st, cond, at.cons, at.unres) == r;
          var rc := WalkCopies(body, x, vals, env, st, cond, at.cons, at.unres, false, false);
          assert forall it :: it in rc.log ==> it in r.log;
          CopiesFlat(body, x, vals, env, st, cond, false, false, at);
        }
      }
  }

  lemma {:induction false} IfFlat(h: Stmt, env: Env, st: WState, cond: Term, kind: Kind, at: Depth)
    requires h.If? && StmtRecurs(h, at.far, 2)
    requires at.settled ==> StmtLoopsGoOn(h) && Resolved(WalkIf(h, env, st, cond, at.cons, at.unres, kind).log)
    ensures Flat(WalkIf(h, env, st, cond, at.cons, at.unres, kind), at)
    decreases h, 1
  {
    var g := Guard(h.test, env);
    var r := WalkIf(h, env, st, cond, at.cons, at.unres, kind);
    if g.Some? && Mentions(g.value, st.tainted) {
      assert Unsolved(Label(h.line, kind), true) in r.log;
    } else if g.Some? {
      var yes, no := AndT(cond, g.value), AndT(cond, NotT(g.value));
      var rb := WalkBlock(h.body, env, st, yes, at.cons, at.unres, false);
      assert forall it :: it in rb.log ==> it in r.log;
      BlockFlat(h.body, env, st, yes, false, at);
      if !rb.out.Fails? {
        var re := WalkElse(h.orelse, env, rb.st, no, at.cons, at.unres);
        assert forall it :: it in re.log ==> it in r.log;
        ElseFlat(h.orelse, env, rb.st, no, at);
      }
    }
  }

  lemma {:induction false} ElseFlat(orelse: Block, env: Env, st: WState, cond: Term, at: Depth)
    requires Kept(orelse, WalkElse(orelse, env, st, cond, at.cons, at.unres).log, false, at)
    ensures Flat(WalkElse(orelse, env, st, cond, at.cons, at.unres), at)
    decreases orelse, 3
  {
    if IsElif(orelse) {
      IfFlat(orelse.head, env, st, cond, KElif, at);
    } else if orelse.Cons? {
      var visit := Visit(Label(orelse.head.line, KElse), cond, at.cons, at.unres);
      BlockFlat(orelse, env, st, cond, false, at);
      FlatThen([visit], WalkBlock(orelse, env, st, cond, at.cons, at.unres, false), at);
    }
  }

  // Inside an approximated loop only the depth of unresolved closures is as before.
  lemma LoopFlat(body: Block, visit: Item, rb: Res, at: Depth)
    requires Lines(body) <= at.far && At(visit, at) && Flat(rb, at.(cons := at.cons + 1))
    requires forall it :: it in rb.log ==> ItemOn(it, Lines(body))
    ensures forall it :: it in [visit] + rb.log ==> At(it, at)
  {
    forall it | it in rb.log ensures At(it, at) {
      assert ItemOn(it, Lines(body)) && At(it, at.(cons := at.cons + 1));
    }
  }

  lemma {:induction false} WhileFlat(h: Stmt, env: Env, st: WState, cond: Term, at: Depth)
    requires h.While? && StmtRecurs(h, at.far, 2)
    requires at.settled ==> StmtLoopsGoOn(h) && Resolved(WalkWhile(h, env, st, cond, at.cons, at.unres).log)
    ensures Flat(WalkWhile(h, env, st, cond, at.cons, at.unres), at)
    decreases h, 1
  {
    var g := Guard(h.test, env);
    var r := WalkWhile(h, env, st, cond, at.cons, at.unres);
    if g.Some? && Mentions(g.value, st.tainted) {
      assert Unsolved(Label(h.line, KWhile), true) in r.log;
    } else if g.Some? {
      var enter := AndT(cond, g.value);
      var rb := WalkBlock(h.body, env, st, enter, at.cons + 1, at.unres, false);
      var visit := Visit(Label(h.line, KWhile), enter, at.cons, at.unres);
      assert r == LeaveLoop(h.body, env, cond, g.value, rb, [visit] + rb.log + [Passed(h.line)]);
      assert r.log == [visit] + rb.log + [Passed(h.line)];
      BlockFlat(h.body, env, st, enter, false, at.(cons := at.cons + 1));
      BlockPlaced(h.body, env, st, enter, at.cons + 1, at.unres, false);
      LoopFlat(h.body, visit, rb, at);
    }
  }

  lemma {:induction false} AboveCapFlat(h: Stmt, env: Env, st: WState, cond: Term, at: Depth)
    requires h.For? && Lines(h.body) <= at.far
    requires at.settled ==> !HasReturn(h.body) && LoopsGoOn(h.body)
    requires at.settled ==> Resolved(WalkForAboveCap(h, env, st, cond, at.cons, at.unres).log)
    ensures Flat(WalkForAboveCap(h, env, st, cond, at.cons, at.unres), at)
    decreases h, 0
  {
    var enter := AndT(cond, BoolVal(Entered(h)));
    var inside := SomeIteration(h, enter);
    var env1, st1 := env[h.target := Entry(LoopIndex(h), st.nextId)], st.(nextId := st.nextId + 1);
    var rb := WalkBlock(h.body, env1, st1, inside, at.cons + 1, at.unres, false);
    var visit := Visit(Label(h.line, KFor), enter, at.cons, at.unres);
    assert WalkForAboveCap(h, env, st, cond, at.cons, at.unres)
        == LeaveLoop(h.body, env, cond, BoolVal(Entered(h)), rb, [visit] + rb.log);
    assert WalkForAboveCap(h, env, st, cond, at.cons, at.unres).log == [visit] + rb.log;
    AllLinesRecur(h.body, at.far, 2);
    BlockFlat(h.body, env1, st1, inside, false, at.(cons := at.cons + 1));
    BlockPlaced(h.body, env1, st1, inside, at.cons + 1, at.unres, false);
    LoopFlat(h.body, visit, rb, at);
  }

  lemma {:induction false} CopiesFlat(body: Block, x: string, vals: seq<int>, env: Env, st: WState, cond: Term,
                                      u: bool, closed: bool, at: Depth)
    requires Kept(body, WalkCopies(body, x, vals, env, st, cond, at.cons, at.unres, u, closed).log, u, at)
    ensures Flat(WalkCopies(body, x, vals, env, st, cond, at.cons, at.unres, u, closed), at)
    decreases body, 1, |vals|
  {
    if vals != [] {
      var env1, st1 := env[x := Entry(IntVal(vals[0]), st.nextId)], st.(nextId := st.nextId + 1);
      var r := WalkBlock(body, env1, st1, cond, at.cons, Bump(at.unres, u), false);
      var all := WalkCopies(body, x, vals, env, st, cond, at.cons, at.unres, u, closed);
      CopyFirst(body, x, vals, env, st, cond, at.cons, at.unres, u, closed);
      assert forall it :: it in r.log ==> it in all.log;
      if u {
        BlockFlat(body, env1, st1, cond, false, at.(unres := at.unres + 1));
      } else {
        BlockFlat(body, env1, st1, cond, false, at);
      }
      if !r.out.Fails? {
        var cont := if r.out.Falls? then r.out.cont else BoolVal(false);
        var u', closed' := u || r.out.taint, closed || r.out.Closes?;
        var rest := WalkCopies(body, x, vals[1..], r.out.env, r.st, cont, at.cons, at.unres, u', closed');
        assert forall it :: it in rest.log ==> it in all.log;
        CopiesFlat(body, x, vals[1..], r.out.env, r.st, cont, u', closed', at);
        FlatThen(r.log, rest, at);
      }
    }
  }
}
