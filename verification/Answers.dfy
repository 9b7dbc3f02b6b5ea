/**
  What a finished report says about a line, in terms of what the solver answered: exactly which
  answers make an entry `reachable`, leave nothing but `dead`, or give each reason for `unknown`.
 */
module Answers {
  import opened Walk
  import opened Verdicts
  import opened Aggregation

  // How often the solver is called for a log.
  function Calls(log: seq<Item>): nat {
    if log == [] then 0 else (if log[0].Visit? then 1 else 0) + Calls(log[1..])
  }

  predicate ReportsOn(log: seq<Item>, i: nat, line: int) {
    i < |log| && Reported(log[i]) && log[i].arm.line == line
  }

  // The arm was visited and the solver, asked in turn, gave this answer.
  predicate Answered(log: seq<Item>, i: nat, solver: Solver, answer: Answer) {
    i < |log| && log[i].Visit? && solver(Calls(log[..i]), log[i].cond) == answer
  }

  predicate Refuted(log: seq<Item>, i: nat, solver: Solver) {
    Answered(log, i, solver, Unsat) && log[i].cons == 0
  }

  ghost predicate Witnessed(log: seq<Item>, i: nat, solver: Solver) {
    exists m :: Answered(log, i, solver, Sat(m)) && log[i].unres == 0
  }

  // The entry is what the item at `i` and its answer call for.
  ghost predicate Explains(log: seq<Item>, i: nat, b: Branch, solver: Solver, params: Params) {
    && ReportsOn(log, i, b.arm.line) && log[i].arm == b.arm
    && (b.verdict == Reachable <==> Witnessed(log, i, solver))
    && (b.verdict == Dead <==> Refuted(log, i, solver))
    && (b.input.Some? <==> b.verdict == Reachable)
    && (forall m :: Answered(log, i, solver, Sat(m)) && b.input.Some? ==> b.input.value == Witness(params, m))
    && (b.reason == TaintedByLoop <==> log[i].Unsolved? && log[i].tainted)
    && (b.reason == FirstIterationOnly <==> Answered(log, i, solver, Unsat) && log[i].cons > 0)
    && (b.reason == AfterUnresolvedReturn <==>
          log[i].Visit? && log[i].unres > 0 && exists m :: Answered(log, i, solver, Sat(m)))
  }

  lemma BranchExplained(log: seq<Item>, i: nat, solver: Solver, params: Params)
    requires i < |log| && Reported(log[i])
    ensures Explains(log, i, BranchOf(log[i], Calls(log[..i]), solver, params), solver, params)
  {
    var it := log[i];
    if it.Visit? {
      var answer := solver(Calls(log[..i]), it.cond);
      if answer.Sat? { assert Answered(log, i, solver, Sat(answer.model)); }
    }
  }

  // The decisions are one for each item that is reported, asked in turn.
  lemma {:induction false} ItemDecided(k: nat, log: seq<Item>, i: nat, solver: Solver, params: Params)
    requires i < |log| && Reported(log[i])
    ensures BranchOf(log[i], k + Calls(log[..i]), solver, params) in Decisions(k, log, solver, params)
    decreases |log|
  {
    if i > 0 {
      assert log[..i][0] == log[0] && log[..i][1..] == log[1..][..i - 1];
      ItemDecided(if log[0].Visit? then k + 1 else k, log[1..], i - 1, solver, params);
    }
  }

  lemma {:induction false} DecidedItem(k: nat, log: seq<Item>, b: Branch, solver: Solver, params: Params)
    returns (i: nat)
    requires b in Decisions(k, log, solver, params)
    ensures i < |log| && Reported(log[i]) && b == BranchOf(log[i], k + Calls(log[..i]), solver, params)
    decreases |log|
  {
    if Reported(log[0]) && b == BranchOf(log[0], k, solver, params) {
      i := 0;
    } else {
      var j := DecidedItem(if log[0].Visit? then k + 1 else k, log[1..], b, solver, params);
      i := j + 1;
      assert log[..i][0] == log[0] && log[..i][1..] == log[1..][..j];
    }
  }

  // ---------------------------------------------------------------- finished reports

  predicate Lists(rep: Report, line: int) {
    exists b :: b in rep.branches && b.arm.line == line
  }

  predicate ClaimsReachable(rep: Report, line: int) {
    exists b :: b in rep.branches && b.arm.line == line && b.verdict == Reachable
  }

  // No entry of the report speaks against `dead` on the line.
  predicate AllDead(rep: Report, line: int) {
    forall b :: b in rep.branches && b.arm.line == line ==> b.verdict == Dead
  }

  // The report of a log whose frames are all closed, with nothing dropped.
  predicate Finished(rep: Report, log: seq<Item>, max: nat, solver: Solver, params: Params) {
    rep == Replay(EmptyReport(), log, max, solver, params) && rep.stack == [] && !rep.truncated
  }

  lemma EntryExplained(rep: Report, log: seq<Item>, max: nat, solver: Solver, params: Params, b: Branch)
    requires Finished(rep, log, max, solver, params) && b in rep.branches
    ensures exists i: nat :: Explains(log, i, b, solver, params)
  {
    EntriesAreDecisions(EmptyReport(), log, max, solver, params);
    assert In(b, rep) && !In(b, EmptyReport());
    var i := DecidedItem(0, log, b, solver, params);
    BranchExplained(log, i, solver, params);
  }

  // Every reported item is answered by an entry on its line that is no weaker.
  lemma ItemAnswered(rep: Report, log: seq<Item>, max: nat, solver: Solver, params: Params, i: nat) returns (b: Branch)
    requires Finished(rep, log, max, solver, params) && i < |log| && Reported(log[i])
    ensures b in rep.branches && b.arm.line == log[i].arm.line
    ensures Witnessed(log, i, solver) ==> b.verdict == Reachable
    ensures b.verdict == Dead ==> Refuted(log, i, solver)
  {
    ItemDecided(0, log, i, solver, params);
    BranchExplained(log, i, solver, params);
    var d := BranchOf(log[i], Calls(log[..i]), solver, params);
    DecisionsAreDominated(EmptyReport(), log, max, solver, params);
    assert d in Decisions(0, log, solver, params);
    b :| In(b, rep) && Above(b, d);
  }

  // A line is listed exactly if something on it was reported, ...
  lemma ListedIff(rep: Report, log: seq<Item>, max: nat, solver: Solver, params: Params, line: int)
    requires Finished(rep, log, max, solver, params)
    ensures Lists(rep, line) <==> exists i: nat :: ReportsOn(log, i, line)
  {
    if Lists(rep, line) {
      var b :| b in rep.branches && b.arm.line == line;
      EntryExplained(rep, log, max, solver, params, b);
    }
    if i: nat :| ReportsOn(log, i, line) {
      var b := ItemAnswered(rep, log, max, solver, params, i);
    }
  }

  // ... claimed reachable exactly if the solver found a model for an arm on it that no unresolved
  // closure precedes, ...
  lemma ReachableIff(rep: Report, log: seq<Item>, max: nat, solver: Solver, params: Params, line: int)
    requires Finished(rep, log, max, solver, params)
    ensures ClaimsReachable(rep, line) <==> exists i: nat :: ReportsOn(log, i, line) && Witnessed(log, i, solver)
  {
    if ClaimsReachable(rep, line) {
      var b :| b in rep.branches && b.arm.line == line && b.verdict == Reachable;
      EntryExplained(rep, log, max, solver, params, b);
    }
    if i: nat :| ReportsOn(log, i, line) && Witnessed(log, i, solver) {
      var b := ItemAnswered(rep, log, max, solver, params, i);
    }
  }

  // ... and given nothing but `dead` exactly if every arm on it was visited outside approximated
  // loops and proved unsatisfiable.
  lemma AllDeadIff(rep: Report, log: seq<Item>, max: nat, solver: Solver, params: Params, line: int)
    requires Finished(rep, log, max, solver, params)
    ensures AllDead(rep, line) <==> forall i: nat :: ReportsOn(log, i, line) ==> Refuted(log, i, solver)
  {
    if AllDead(rep, line) {
      forall i: nat | ReportsOn(log, i, line) ensures Refuted(log, i, solver) {
        var b := ItemAnswered(rep, log, max, solver, params, i);
      }
    }
    if forall i: nat :: ReportsOn(log, i, line) ==> Refuted(log, i, solver) {
      forall b | b in rep.branches && b.arm.line == line ensures b.verdict == Dead {
        EntryExplained(rep, log, max, solver, params, b);
      }
    }
  }
}
