/** What every walk keeps, whatever the program: identities, tainted names, depths and conditions only grow. */
module WalkBasics {
  import opened PySubset
  import opened Interp
  import opened Terms
  import opened Walk

  // Identities in use are below the next one.
  predicate Fresh(env: Env, st: WState) {
    forall x :: x in env ==> env[x].id < st.nextId
  }

  // A binding after a walk is the one from before, the same tuple, or a tuple made by the walk.
  predicate EnvGrown(env: Env, st: WState, env': Env, st': WState) {
    && (forall x :: x in env ==> x in env')
    && (forall x :: x in env' ==> (x in env && env'[x] == env[x]) || st.nextId <= env'[x].id < st'.nextId)
  }

  predicate Grown(env: Env, st: WState, r: Res) {
    && st.nextId <= r.st.nextId
    && st.taints <= r.st.taints
    && st.tainted <= r.st.tainted
    && (!r.out.Fails? ==> EnvGrown(env, st, r.out.env, r.st))
  }

  // A reported arm lies at least as deep as the walk that reports it, and under its condition.
  predicate ItemUnder(it: Item, cond: Term, cons: nat, unres: nat, m: Model) {
    it.Visit? ==> cons <= it.cons && unres <= it.unres && (Holds(it.cond, m) ==> Holds(cond, m))
  }

  predicate LogUnder(log: seq<Item>, cond: Term, cons: nat, unres: nat, m: Model) {
    forall it :: it in log ==> ItemUnder(it, cond, cons, unres, m)
  }

  predicate Under(r: Res, cond: Term, cons: nat, unres: nat, m: Model) {
    && LogUnder(r.log, cond, cons, unres, m)
    && (r.out.Falls? && Holds(r.out.cont, m) ==> Holds(cond, m))
  }

  // `r` walks on from (env', st', cond') after `log` was reported.
  lemma ThenBasics(log: seq<Item>, env: Env, st: WState, cond: Term, env': Env, st': WState, cond': Term, r: Res,
                   cons: nat, unres: nat, unres': nat, m: Model)
    requires st.nextId <= st'.nextId && st.taints <= st'.taints && st.tainted <= st'.tainted
    requires EnvGrown(env, st, env', st') && Grown(env', st', r)
    requires LogUnder(log, cond, cons, unres, m) && Under(r, cond', cons, unres', m)
    requires unres <= unres' && (Holds(cond', m) ==> Holds(cond, m))
    ensures Grown(env, st, Prepend(log, r)) && Under(Prepend(log, r), cond, cons, unres, m)
  {
    LogUnderWeaken(r.log, cond', cons, unres', cond, cons, unres, m);
  }

  lemma LogUnderWeaken(log: seq<Item>, c: Term, cons: nat, unres: nat, c': Term, cons': nat, unres': nat, m: Model)
    requires LogUnder(log, c, cons, unres, m)
    requires cons' <= cons && unres' <= unres && (Holds(c, m) ==> Holds(c', m))
    ensures LogUnder(log, c', cons', unres', m)
  {
    forall it | it in log ensures ItemUnder(it, c', cons', unres', m) {
      assert ItemUnder(it, c, cons, unres, m);
    }
  }

  lemma {:induction false} BlockBasics(b: Block, env: Env, st: WState, cond: Term, cons: nat, unres: nat, u: bool,
                                       m: Model)
    ensures var r := WalkBlock(b, env, st, cond, cons, unres, u);
      Grown(env, st, r) && Under(r, cond, cons, Bump(unres, u), m) && (u && !r.out.Fails? ==> r.out.taint)
    decreases b, 0
  {
    match b
    case Nil =>
    case Cons(h, t) =>
      if Compound(h) {
        CompoundThenBasics(h, t, env, st, cond, cons, unres, u, m);
      } else if h.Assign? {
        var v := Translate(h.e, env);
        if v.Some? {
          BlockBasics(t, env[h.x := Entry(v.value, st.nextId)], st.(nextId := st.nextId + 1), cond, cons, unres, u, m);
        }
      } else if !h.Return? {
        BlockBasics(t, env, st, cond, cons, unres, u, m);
      }
  }

  lemma {:induction false} CompoundThenBasics(h: Stmt, t: Block, env: Env, st: WState, cond: Term, cons: nat,
                                              unres: nat, u: bool, m: Model)
    requires Compound(h)
    ensures var r := WalkBlock(Cons(h, t), env, st, cond, cons, unres, u);
      Grown(env, st, r) && Under(r, cond, cons, Bump(unres, u), m) && (u && !r.out.Fails? ==> r.out.taint)
    decreases Cons(h, t), 0, 0
  {
    var r := WalkCompound(h, env, st, cond, cons, Bump(unres, u));
    CompoundBasics(h, env, st, cond, cons, Bump(unres, u), m);
    match r.out
    case Fails =>
      BlockBasics(t, env, r.st, cond, cons, unres, true, m);
      ThenBasics(r.log + [Unsolved(Label(h.line, KindOf(h)), false)], env, st, cond, env, r.st, cond,
                 WalkBlock(t, env, r.st, cond, cons, unres, true), cons, Bump(unres, u), Bump(unres, true), m);
    case Closes(env', _) =>
    case Falls(cont, env', taint) =>
      BlockBasics(t, env', r.st, cont, cons, unres, u || taint, m);
      ThenBasics(r.log, env, st, cond, env', r.st, cont, WalkBlock(t, env', r.st, cont, cons, unres, u || taint),
                 cons, Bump(unres, u), Bump(unres, u || taint), m);
  }

  lemma {:induction false} CompoundBasics(h: Stmt, env: Env, st: WState, cond: Term, cons: nat, unres: nat, m: Model)
    requires Compound(h)
    ensures var r := WalkCompound(h, env, st, cond, cons, unres);
      Grown(env, st, r) && Under(r, cond, cons, unres, m)
    decreases h, 2
  {
    match h
    case If(_, _, _, _) => IfBasics(h, env, st, cond, cons, unres, KIf, m);
    case While(_, _, _) => WhileBasics(h, env, st, cond, cons, unres, m);
    case For(_, _, _, _, _, _) => ForBasics(h, env, st, cond, cons, unres, m);
  }

  lemma JoinBasics(g: Term, env: Env, st: WState, rb: Res, re: Res, log: seq<Item>, cond: Term, cons: nat, unres: nat,
                   m: Model)
    requires !rb.out.Fails? && Grown(env, st, rb) && Grown(env, rb.st, re)
    requires LogUnder(log, cond, cons, unres, m)
    requires rb.out.Falls? && Holds(rb.out.cont, m) ==> Holds(cond, m)
    requires re.out.Falls? && Holds(re.out.cont, m) ==> Holds(cond, m)
    ensures var r := Join(g, env, rb, re, log);
      Grown(env, st, r) && Under(r, cond, cons, unres, m)
  {
  }

  lemma {:induction false} IfBasics(h: Stmt, env: Env, st: WState, cond: Term, cons: nat, unres: nat, kind: Kind,
                                    m: Model)
    requires h.If?
    ensures var r := WalkIf(h, env, st, cond, cons, unres, kind);
      Grown(env, st, r) && Under(r, cond, cons, unres, m)
    decreases h, 1
  {
    var g := Guard(h.test, env);
    if g.Some? && !Mentions(g.value, st.tainted) {
      var yes := AndT(cond, g.value);
      var no := AndT(cond, NotT(g.value));
      BlockBasics(h.body, env, st, yes, cons, unres, false, m);
      var rb := WalkBlock(h.body, env, st, yes, cons, unres, false);
      var visit := Visit(Label(h.line, kind), yes, cons, unres);
      LogUnderWeaken(rb.log, yes, cons, unres, cond, cons, unres, m);
      if !rb.out.Fails? {
        ElseBasics(h.orelse, env, rb.st, no, cons, unres, m);
        var re := WalkElse(h.orelse, env, rb.st, no, cons, unres);
        LogUnderWeaken(re.log, no, cons, unres, cond, cons, unres, m);
        JoinBasics(g.value, env, st, rb, re, [visit] + rb.log + re.log, cond, cons, unres, m);
      }
    }
  }

  lemma {:induction false} ElseBasics(orelse: Block, env: Env, st: WState, cond: Term, cons: nat, unres: nat, m: Model)
    ensures var r := WalkElse(orelse, env, st, cond, cons, unres);
      Grown(env, st, r) && Under(r, cond, cons, unres, m)
    decreases orelse, 3
  {
    if IsElif(orelse) {
      IfBasics(orelse.head, env, st, cond, cons, unres, KElif, m);
    } else if orelse.Cons? {
      BlockBasics(orelse, env, st, cond, cons, unres, false, m);
    }
  }

  lemma {:induction false} ForBasics(h: Stmt, env: Env, st: WState, cond: Term, cons: nat, unres: nat, m: Model)
    requires h.For?
    ensures var r := WalkFor(h, env, st, cond, cons, unres);
      Grown(env, st, r) && Under(r, cond, cons, unres, m)
    decreases h, 1
  {
    if h.step != 0 {
      var vals := RangeValues(h.start, h.stop, h.step);
      if |vals| <= MAX_UNROLL_ITERATIONS {
        CopiesBasics(h.body, h.target, vals, env, st, cond, cons, unres, false, false, m);
        UnrolledBasics(h, vals, env, st, cond, cons, unres, m);
      } else {
        AboveCapBasics(h, env, st, cond, cons, unres, m);
      }
    }
  }

  lemma UnrolledBasics(h: Stmt, vals: seq<int>, env: Env, st: WState, cond: Term, cons: nat, unres: nat, m: Model)
    requires h.For?
    requires var r := WalkCopies(h.body, h.target, vals, env, st, cond, cons, unres, false, false);
      Grown(env, st, r) && Under(r, cond, cons, unres, m)
    ensures var r := WalkUnrolled(h, vals, env, st, cond, cons, unres);
      Grown(env, st, r) && Under(r, cond, cons, unres, m)
  {
    hide WalkCopies;
  }

  lemma {:induction false} CopiesBasics(body: Block, x: string, vals: seq<int>, env: Env, st: WState, cond: Term,
                                        cons: nat, unres: nat, u: bool, closed: bool, m: Model)
    ensures var r := WalkCopies(body, x, vals, env, st, cond, cons, unres, u, closed);
      Grown(env, st, r) && Under(r, cond, cons, Bump(unres, u), m)
      && (r.out.Falls? && u ==> r.out.taint) && (closed ==> !r.out.Falls?)
    decreases body, 1, |vals|
  {
    if vals != [] {
      var env1, st1 := env[x := Entry(IntVal(vals[0]), st.nextId)], st.(nextId := st.nextId + 1);
      BlockBasics(body, env1, st1, cond, cons, Bump(unres, u), false, m);
      var r := WalkBlock(body, env1, st1, cond, cons, Bump(unres, u), false);
      if !r.out.Fails? {
        var cont := if r.out.Falls? then r.out.cont else BoolVal(false);
        var closed' := closed || r.out.Closes?;
        var r' := WalkCopies(body, x, vals[1..], r.out.env, r.st, cont, cons, unres, u || r.out.taint, closed');
        CopiesBasics(body, x, vals[1..], r.out.env, r.st, cont, cons, unres, u || r.out.taint, closed', m);
        ThenBasics(r.log, env, st, cond, r.out.env, r.st, cont, r', cons, Bump(unres, u),
                   Bump(unres, u || r.out.taint), m);
      }
    }
  }

  lemma LeaveLoopBasics(body: Block, env: Env, st: WState, cond: Term, guard: Term, rb: Res, log: seq<Item>, cons: nat,
                        unres: nat, m: Model)
    requires st.nextId <= rb.st.nextId && st.taints <= rb.st.taints && st.tainted <= rb.st.tainted
    requires LogUnder(log, cond, cons, unres, m)
    requires rb.out.Falls? && Holds(rb.out.cont, m) ==> Holds(cond, m)
    ensures var r := LeaveLoop(body, env, cond, guard, rb, log);
      Grown(env, st, r) && Under(r, cond, cons, unres, m)
  {
  }

  lemma {:induction false} WhileBasics(h: Stmt, env: Env, st: WState, cond: Term, cons: nat, unres: nat, m: Model)
    requires h.While?
    ensures var r := WalkWhile(h, env, st, cond, cons, unres);
      Grown(env, st, r) && Under(r, cond, cons, unres, m)
    decreases h, 1
  {
    var g := Guard(h.test, env);
    if g.Some? && !Mentions(g.value, st.tainted) {
      var enter := AndT(cond, g.value);
      BlockBasics(h.body, env, st, enter, cons + 1, unres, false, m);
      var rb := WalkBlock(h.body, env, st, enter, cons + 1, unres, false);
      LogUnderWeaken(rb.log, enter, cons + 1, unres, cond, cons, unres, m);
      LeaveLoopBasics(h.body, env, st, cond, g.value, rb,
                      [Visit(Label(h.line, KWhile), enter, cons, unres)] + rb.log + [Passed(h.line)], cons, unres, m);
    }
  }

  lemma {:induction false} AboveCapBasics(h: Stmt, env: Env, st: WState, cond: Term, cons: nat, unres: nat, m: Model)
    requires h.For?
    ensures var r := WalkForAboveCap(h, env, st, cond, cons, unres);
      Grown(env, st, r) && Under(r, cond, cons, unres, m)
    decreases h, 0
  {
    var enter := AndT(cond, BoolVal(Entered(h)));
    var inside := SomeIteration(h, enter);
    assert Holds(inside, m) ==> Holds(inside.l, m);
    assert Holds(inside.l, m) ==> Holds(enter, m);
    var env1, st1 := env[h.target := Entry(LoopIndex(h), st.nextId)], st.(nextId := st.nextId + 1);
    BlockBasics(h.body, env1, st1, inside, cons + 1, unres, false, m);
    var rb := WalkBlock(h.body, env1, st1, inside, cons + 1, unres, false);
    LogUnderWeaken(rb.log, inside, cons + 1, unres, cond, cons, unres, m);
    LeaveLoopBasics(h.body, env, st, cond, BoolVal(Entered(h)), rb,
                    [Visit(Label(h.line, KFor), enter, cons, unres)] + rb.log, cons, unres, m);
  }

  // ---------------------------------------------------------------- copies one by one

  lemma NoCopiesLeft(body: Block, x: string, env: Env, st: WState, cond: Term, cons: nat, unres: nat, u: bool,
                     closed: bool)
    ensures WalkCopies(body, x, [], env, st, cond, cons, unres, u, closed)
         == Res(if closed then Closes(env, false) else Falls(cond, env, u), st, [])
  {
  }

  // The first copy and then the others.
  lemma CopyFirst(body: Block, x: string, vals: seq<int>, env: Env, st: WState, cond: Term, cons: nat, unres: nat,
                  u: bool, closed: bool)
    requires vals != []
    ensures var r := WalkBlock(body, env[x := Entry(IntVal(vals[0]), st.nextId)], st.(nextId := st.nextId + 1),
                               cond, cons, Bump(unres, u), false);
      var all := WalkCopies(body, x, vals, env, st, cond, cons, unres, u, closed);
      if r.out.Fails? then all == r
      else all == Prepend(r.log, WalkCopies(body, x, vals[1..], r.out.env, r.st,
                                            if r.out.Falls? then r.out.cont else BoolVal(false),
                                            cons, unres, u || r.out.taint, closed || r.out.Closes?))
  {
    hide WalkBlock;
  }
}
