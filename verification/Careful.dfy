/**
  What the walk gets away with. It passes over guards that it cannot solve, and it leaves loops that
  may return under the condition of their first iteration. Below, `line` is the line a `dead` is
  reported for, and `later` says that it occurs in the text still to come.
 */
module Careful {
  import opened PySubset
  import opened Terms
  import opened Walk
  import opened Scope
  import opened Reach

  // Passing over `h` hides no arm on the line and, if the line is still to come, forgets no
  // assignment to a variable whose value is still exact.
  predicate Skippable(h: Stmt, env: Env, tainted: set<string>, line: int, later: bool) {
    && line !in Inner(h)
    && (later ==> forall x :: x in StmtBinds(h) && x in env ==> Mentions(env[x].term, tainted))
  }

  // If the line is still to come, every input that reaches the loop enters it.
  ghost predicate AlwaysEntered(cond: Term, g: Term) {
    forall m :: Holds(cond, m) ==> Holds(g, m)
  }

  ghost predicate BlockCareful(b: Block, env: Env, st: WState, cond: Term, cons: nat, unres: nat, u: bool, line: int,
                               later: bool)
    decreases b, 0
  {
    match b
    case Nil => true
    case Cons(h, t) =>
      if Compound(h) then
        var r := WalkCompound(h, env, st, cond, cons, Bump(unres, u));
        var later' := later || line in Lines(t);
        match r.out
        case Fails => Skippable(h, env, r.st.tainted, line, later')
          && BlockCareful(t, env, r.st, cond, cons, unres, true, line, later)
        case Closes(_, _) => StmtCareful(h, env, st, cond, cons, Bump(unres, u), line, later')
        case Falls(cont, env', taint) =>
          && StmtCareful(h, env, st, cond, cons, Bump(unres, u), line, later')
          && BlockCareful(t, env', r.st, cont, cons, unres, u || taint, line, later)
      else if h.Assign? then
        Translate(h.e, env).Some? ==>
          BlockCareful(t, env[h.x := Entry(Translate(h.e, env).value, st.nextId)], st.(nextId := st.nextId + 1),
                       cond, cons, unres, u, line, later)
      else h.Return? || BlockCareful(t, env, st, cond, cons, unres, u, line, later)
  }

  ghost predicate StmtCareful(h: Stmt, env: Env, st: WState, cond: Term, cons: nat, unres: nat, line: int, later: bool)
    requires Compound(h)
    decreases h, 2
  {
    match h
    case If(_, _, _, _) => IfCareful(h, env, st, cond, cons, unres, line, later)
    case While(_, _, _) => WhileCareful(h, env, st, cond, cons, unres, line, later)
    case For(_, _, _, _, _, _) => ForCareful(h, env, st, cond, cons, unres, line, later)
  }

  ghost predicate IfCareful(h: Stmt, env: Env, st: WState, cond: Term, cons: nat, unres: nat, line: int, later: bool)
    requires h.If?
    decreases h, 1
  {
    var g := Guard(h.test, env);
    g.Some? ==>
      if Mentions(g.value, st.tainted) then Skippable(h, env, st.tainted, line, later)
      else
        var rb := WalkBlock(h.body, env, st, AndT(cond, g.value), cons, unres, false);
        && BlockCareful(h.body, env, st, AndT(cond, g.value), cons, unres, false, line, later)
        && ElseCareful(h.orelse, env, rb.st, AndT(cond, NotT(g.value)), cons, unres, line, later)
  }

  ghost predicate ElseCareful(orelse: Block, env: Env, st: WState, cond: Term, cons: nat, unres: nat, line: int,
                              later: bool)
    decreases orelse, 3
  {
    if IsElif(orelse) then IfCareful(orelse.head, env, st, cond, cons, unres, line, later)
    else BlockCareful(orelse, env, st, cond, cons, unres, false, line, later)
  }

  ghost predicate WhileCareful(h: Stmt, env: Env, st: WState, cond: Term, cons: nat, unres: nat, line: int, later: bool)
    requires h.While?
    decreases h, 1
  {
    var g := Guard(h.test, env);
    g.Some? ==>
      if Mentions(g.value, st.tainted) then Skippable(h, env, st.tainted, line, later)
      else
        && BlockCareful(h.body, env, st, AndT(cond, g.value), cons + 1, unres, false, line, later)
        && (later && HasReturn(h.body) ==> AlwaysEntered(cond, g.value))
  }

  ghost predicate ForCareful(h: Stmt, env: Env, st: WState, cond: Term, cons: nat, unres: nat, line: int, later: bool)
    requires h.For?
    decreases h, 1
  {
    h.step != 0 ==>
      if AboveCap(h) then
        && BlockCareful(h.body, env[h.target := Entry(LoopIndex(h), st.nextId)], st.(nextId := st.nextId + 1),
                        SomeIteration(h, AndT(cond, BoolVal(Entered(h)))), cons + 1, unres, false, line, later)
        && (later ==> !HasReturn(h.body))
      else
        CopiesCareful(h.body, h.target, RangeValues(h.start, h.stop, h.step), env, st, cond, cons, unres, false, line,
                      later || line in Lines(h.body))
  }

  // The copies of an unrolled body, up to the first that closes.
  ghost predicate CopiesCareful(body: Block, x: string, vals: seq<int>, env: Env, st: WState, cond: Term, cons: nat,
                                unres: nat, u: bool, line: int, later: bool)
    decreases body, 1, |vals|
  {
    vals != [] ==>
      var env1, st1 := env[x := Entry(IntVal(vals[0]), st.nextId)], st.(nextId := st.nextId + 1);
      var r := WalkBlock(body, env1, st1, cond, cons, Bump(unres, u), false);
      && BlockCareful(body, env1, st1, cond, cons, Bump(unres, u), false, line, later)
      && (r.out.Falls? ==>
            CopiesCareful(body, x, vals[1..], r.out.env, r.st, r.out.cont, cons, unres, u || r.out.taint, line, later))
  }
}
