/** Which inputs a loop that may return loses, exactly. */
module Limits {
  import opened PySubset
  import opened Interp
  import opened Terms
  import opened Walk
  import opened WalkBasics
  import opened Agreement
  import opened Joins
  import opened Careful
  import opened Following

  // A loop whose body may return is left under the condition of its first iteration. An input that
  // gets past the loop, after any number of iterations, satisfies that condition exactly when it
  // enters the loop: the inputs lost are those that skip it, and no others. The body may pass over
  // guards, as long as it is careful about some line to come.
  lemma EntryDecidesContinuation(h: Stmt, env: Env, st: WState, cond: Term, cons: nat, unres: nat, s: Store, fuel: nat,
                                 m: Model, line: int)
    requires h.While? && HasReturn(h.body) && Guard(h.test, env).Some?
    requires !Mentions(Guard(h.test, env).value, st.tainted)
    requires Fresh(env, st) && Agrees(env, st.tainted, s, m) && Holds(cond, m)
    requires var rb := WalkBlock(h.body, env, st, AndT(cond, Guard(h.test, env).value), cons + 1, unres, false);
      rb.out.Falls?
      && (!rb.out.taint
          || BlockCareful(h.body, env, st, AndT(cond, Guard(h.test, env).value), cons + 1, unres, false, line, true))
    requires ExecWhile(h, s, fuel).status.Fell?
    ensures WalkWhile(h, env, st, cond, cons, unres).out.Falls?
    ensures Holds(WalkWhile(h, env, st, cond, cons, unres).out.cont, m) <==> Holds(Guard(h.test, env).value, m)
  {
    var g := Guard(h.test, env).value;
    var enter := AndT(cond, g);
    var rb := WalkBlock(h.body, env, st, enter, cons + 1, unres, false);
    TranslateIsSound(h.test, env, st.tainted, s, m);
    BlockBasics(h.body, env, st, enter, cons + 1, unres, false, m);
    assert WalkWhile(h, env, st, cond, cons, unres).out.cont == rb.out.cont;
    if Holds(g, m) {
      FirstIterationFalls(h, s, fuel);
      if rb.out.taint {
        BlockFollows(h.body, env, st, enter, cons + 1, unres, false, line, true, s, fuel, m);
      } else {
        BlockExact(h.body, env, st, enter, cons + 1, unres, s, fuel, m);
      }
    }
  }

  lemma FirstIterationFalls(h: Stmt, s: Store, fuel: nat)
    requires h.While? && ExecWhile(h, s, fuel).status.Fell?
    ensures EvalExpr(h.test, s).Some? && (EvalExpr(h.test, s).value != 0 ==> ExecBlock(h.body, s, fuel).status.Fell?)
  {
  }
}
