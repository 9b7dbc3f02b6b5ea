/**
  Collecting verdicts: through any nesting of unrolled loops a line keeps the highest-ranked of its
  decisions, and a capped report is a prefix of the uncapped one.
 */
module Aggregation {
  import opened Wrappers
  import opened Walk
  import opened Verdicts

  // ---------------------------------------------------------------- decisions

  // What the solver decides for each reported item, when every one of them is solved.
  function Decisions(k: nat, log: seq<Item>, solver: Solver, params: Params): seq<Branch>
    decreases |log|
  {
    if log == [] then []
    else if Reported(log[0]) then
      [BranchOf(log[0], k, solver, params)] + Decisions(if log[0].Visit? then k + 1 else k, log[1..], solver, params)
    else Decisions(k, log[1..], solver, params)
  }

  predicate In(b: Branch, rep: Report) {
    b in rep.branches || exists i :: 0 <= i < |rep.stack| && b in rep.stack[i]
  }

  // Some entry for the line ranks at least as high.
  ghost predicate Dominated(b: Branch, rep: Report) {
    exists c :: In(c, rep) && Above(c, b)
  }

  predicate Above(c: Branch, b: Branch) {
    c.arm.line == b.arm.line && Rank(b.verdict) <= Rank(c.verdict)
  }

  predicate DistinctLines(frame: Frame) {
    forall i, j :: 0 <= i < j < |frame| ==> frame[i].arm.line != frame[j].arm.line
  }

  predicate Outranked(b: Branch, frame: Frame) {
    exists c :: c in frame && Above(c, b)
  }

  lemma {:induction false} InsertKeeps(frame: Frame, b: Branch)
    ensures forall c :: c in Insert(frame, b) ==> c == b || c in frame
    ensures Outranked(b, Insert(frame, b)) && forall c :: c in frame ==> Outranked(c, Insert(frame, b))
  {
    var after := Insert(frame, b);
    if frame == [] {
      assert b in after && Above(b, b);
    } else if frame[0].arm.line == b.arm.line {
      assert after[0] in after && Above(after[0], b) && Above(after[0], frame[0]);
      forall c | c in frame ensures Outranked(c, after) {
        if c in frame[1..] { assert c in after && Above(c, c); }
      }
    } else {
      var rest := Insert(frame[1..], b);
      InsertKeeps(frame[1..], b);
      assert after == [frame[0]] + rest;
      forall c | c in frame || c == b ensures Outranked(c, after) {
        if c == frame[0] {
          assert frame[0] in after && Above(c, c);
        } else {
          assert Outranked(c, rest);
          var d :| d in rest && Above(d, c);
          assert d in after;
        }
      }
    }
  }

  lemma {:induction false} InsertDistinct(frame: Frame, b: Branch)
    requires DistinctLines(frame)
    ensures DistinctLines(Insert(frame, b))
    ensures forall c :: c in Insert(frame, b) ==>
                          c.arm.line == b.arm.line || exists d :: d in frame && d.arm.line == c.arm.line
  {
    if frame != [] && frame[0].arm.line != b.arm.line {
      InsertDistinct(frame[1..], b);
      var rest := Insert(frame[1..], b);
      forall c | c in rest ensures c.arm.line != frame[0].arm.line {
        if c.arm.line != b.arm.line {
          var d :| d in frame[1..] && d.arm.line == c.arm.line;
        }
      }
      var after := [frame[0]] + rest;
      forall i, j | 0 <= i < j < |after| ensures after[i].arm.line != after[j].arm.line {
        assert after[j] in rest;
        if i > 0 { assert after[i] == rest[i - 1] && after[j] == rest[j - 1]; }
      }
      forall c | c in after ensures c.arm.line == b.arm.line || exists d :: d in frame && d.arm.line == c.arm.line {
        if c != frame[0] {
          assert c in rest;
          if c.arm.line != b.arm.line {
            var d :| d in frame[1..] && d.arm.line == c.arm.line;
            assert d in frame;
          }
        } else {
          assert frame[0] in frame;
        }
      }
    }
  }

  lemma CommitKeeps(rep: Report, b: Branch, max: nat)
    ensures forall c :: In(c, Commit(rep, b, max)) ==> c == b || In(c, rep)
    ensures !Commit(rep, b, max).truncated ==> forall c :: In(c, rep) || c == b ==> Dominated(c, Commit(rep, b, max))
  {
    var after := Commit(rep, b, max);
    if rep.stack != [] {
      var top := |rep.stack| - 1;
      InsertKeeps(rep.stack[top], b);
      assert after.stack[top] == Insert(rep.stack[top], b);
      forall c | In(c, rep) || c == b ensures Dominated(c, after) {
        if c == b || c in rep.stack[top] {
          assert Outranked(c, after.stack[top]);
          var d :| d in after.stack[top] && Above(d, c);
          assert In(d, after);
        } else {
          assert In(c, after) by {
            if c !in rep.branches {
              var i :| 0 <= i < |rep.stack| && c in rep.stack[i];
              assert after.stack[i] == rep.stack[i];
            }
          }
          assert Above(c, c);
        }
      }
      forall c | In(c, after) ensures c == b || In(c, rep) {
        if c !in after.branches {
          var i :| 0 <= i < |after.stack| && c in after.stack[i];
          assert i != top ==> after.stack[i] == rep.stack[i];
        }
      }
    } else if !after.truncated {
      forall c | In(c, rep) || c == b ensures Dominated(c, after) {
        assert In(c, after) && Above(c, c);
      }
    }
  }

  lemma DominatedThrough(b: Branch, rep: Report, rep': Report)
    requires Dominated(b, rep) && forall c :: In(c, rep) ==> Dominated(c, rep')
    ensures Dominated(b, rep')
  {
    var c :| In(c, rep) && Above(c, b);
    var d :| In(d, rep') && Above(d, c);
    assert Above(d, b);
  }

  lemma {:induction false} CommitAllKeeps(rep: Report, frame: Frame, max: nat)
    ensures var after := CommitAll(rep, frame, max);
      && (rep.truncated ==> after.truncated)
      && (forall c :: In(c, after) ==> c in frame || In(c, rep))
      && (!after.truncated ==> forall c :: In(c, rep) || c in frame ==> Dominated(c, after))
    decreases |frame|
  {
    var after := CommitAll(rep, frame, max);
    if frame == [] {
      forall c | In(c, rep) ensures Dominated(c, after) { assert Above(c, c); }
    } else {
      var mid := Commit(rep, frame[0], max);
      CommitKeeps(rep, frame[0], max);
      CommitAllKeeps(mid, frame[1..], max);
      if !after.truncated {
        forall c | In(c, rep) || c in frame ensures Dominated(c, after) {
          if In(c, rep) || c == frame[0] {
            DominatedThrough(c, mid, after);
          } else {
            assert c in frame[1..];
          }
        }
      }
    }
  }

  lemma {:induction false} StepKeeps(rep: Report, it: Item, max: nat, solver: Solver, params: Params)
    ensures var after := Step(rep, it, max, solver, params);
      && (rep.truncated ==> after.truncated)
      && (forall c :: In(c, after) ==> In(c, rep) || (Reported(it) && c == BranchOf(it, rep.calls, solver, params)))
      && (!after.truncated ==>
            && (forall c :: In(c, rep) ==> Dominated(c, after))
            && (Reported(it) ==> Dominated(BranchOf(it, rep.calls, solver, params), after))
            && after.calls == if it.Visit? then rep.calls + 1 else rep.calls)
  {
    var after := Step(rep, it, max, solver, params);
    if Reported(it) {
      var rep' := if it.Visit? then rep.(calls := rep.calls + 1) else rep;
      assert forall c :: In(c, rep') <==> In(c, rep);
      CommitKeeps(rep', BranchOf(it, rep.calls, solver, params), max);
    } else if it.Pop? && rep.stack != [] {
      var top := |rep.stack| - 1;
      var rest := rep.(stack := rep.stack[..top]);
      CommitAllKeeps(rest, rep.stack[top], max);
      CommitAllCalls(rest, rep.stack[top], max);
      forall c ensures In(c, rep) <==> In(c, rest) || c in rep.stack[top] {
        if In(c, rep) && c !in rep.branches && c !in rep.stack[top] {
          var i :| 0 <= i < |rep.stack| && c in rep.stack[i];
          assert rest.stack[i] == rep.stack[i];
        }
        if In(c, rest) && c !in rest.branches {
          var i :| 0 <= i < |rest.stack| && c in rest.stack[i];
          assert rep.stack[i] == rest.stack[i];
        }
      }
    } else {
      forall c ensures In(c, rep) <==> In(c, after) {
        if In(c, rep) && c !in rep.branches {
          var i :| 0 <= i < |rep.stack| && c in rep.stack[i];
          assert after.stack[i] == rep.stack[i];
        }
        if In(c, after) && c !in after.branches {
          var i :| 0 <= i < |after.stack| && c in after.stack[i];
          assert i < |rep.stack| && rep.stack[i] == after.stack[i];
        }
      }
      forall c | In(c, rep) ensures Dominated(c, after) { assert Above(c, c); }
    }
  }

  lemma {:induction false} CommitAllCalls(rep: Report, frame: Frame, max: nat)
    ensures CommitAll(rep, frame, max).calls == rep.calls
    decreases |frame|
  {
    if frame != [] { CommitAllCalls(Commit(rep, frame[0], max), frame[1..], max); }
  }

  // Every entry was decided for some item of the log.
  ghost predicate From(b: Branch, log: seq<Item>, solver: Solver, params: Params) {
    exists it, k: nat :: it in log && Reported(it) && b == BranchOf(it, k, solver, params)
  }

  lemma {:induction false} ReplayOrigins(rep: Report, log: seq<Item>, max: nat, solver: Solver, params: Params)
    ensures forall b :: In(b, Replay(rep, log, max, solver, params)) ==> In(b, rep) || From(b, log, solver, params)
    decreases |log|
  {
    if log != [] {
      var mid := Step(rep, log[0], max, solver, params);
      StepKeeps(rep, log[0], max, solver, params);
      ReplayOrigins(mid, log[1..], max, solver, params);
      forall b | In(b, Replay(rep, log, max, solver, params)) ensures In(b, rep) || From(b, log, solver, params) {
        if !In(b, mid) {
          var it, k: nat :| it in log[1..] && Reported(it) && b == BranchOf(it, k, solver, params);
          assert it in log;
        } else if !In(b, rep) {
          assert log[0] in log;
        }
      }
    }
  }

  // With nothing dropped, the entries are decisions ...
  lemma {:induction false} EntriesAreDecisions(rep: Report, log: seq<Item>, max: nat, solver: Solver, params: Params)
    requires !Replay(rep, log, max, solver, params).truncated
    ensures !rep.truncated
    ensures forall b :: In(b, Replay(rep, log, max, solver, params)) ==>
                          In(b, rep) || b in Decisions(rep.calls, log, solver, params)
    decreases |log|
  {
    if log != [] {
      EntriesAreDecisions(Step(rep, log[0], max, solver, params), log[1..], max, solver, params);
      StepKeeps(rep, log[0], max, solver, params);
    }
  }

  // ... and every decision is matched or outranked by an entry for its line.
  lemma {:induction false} DecisionsAreDominated(rep: Report, log: seq<Item>, max: nat, solver: Solver, params: Params)
    requires !Replay(rep, log, max, solver, params).truncated
    ensures forall b :: In(b, rep) || b in Decisions(rep.calls, log, solver, params) ==>
                          Dominated(b, Replay(rep, log, max, solver, params))
    decreases |log|
  {
    var after := Replay(rep, log, max, solver, params);
    if log == [] {
      forall b | In(b, rep) ensures Dominated(b, after) { assert Above(b, b); }
    } else {
      var mid := Step(rep, log[0], max, solver, params);
      EntriesAreDecisions(mid, log[1..], max, solver, params);
      DecisionsAreDominated(mid, log[1..], max, solver, params);
      StepKeeps(rep, log[0], max, solver, params);
      forall b | In(b, rep) || b in Decisions(rep.calls, log, solver, params) ensures Dominated(b, after) {
        OneDominated(b, rep, log, max, solver, params);
      }
    }
  }

  lemma OneDominated(b: Branch, rep: Report, log: seq<Item>, max: nat, solver: Solver, params: Params)
    requires log != [] && (In(b, rep) || b in Decisions(rep.calls, log, solver, params))
    requires var mid := Step(rep, log[0], max, solver, params);
      && (forall c :: In(c, rep) ==> Dominated(c, mid))
      && (Reported(log[0]) ==> Dominated(BranchOf(log[0], rep.calls, solver, params), mid))
      && mid.calls == (if log[0].Visit? then rep.calls + 1 else rep.calls)
      && (forall c :: In(c, mid) || c in Decisions(mid.calls, log[1..], solver, params) ==>
                        Dominated(c, Replay(mid, log[1..], max, solver, params)))
    ensures Dominated(b, Replay(rep, log, max, solver, params))
  {
    var mid := Step(rep, log[0], max, solver, params);
    if b !in Decisions(mid.calls, log[1..], solver, params) {
      DominatedThrough(b, mid, Replay(mid, log[1..], max, solver, params));
    }
  }

  // ---------------------------------------------------------------- one unrolled loop

  // Work inside a frame touches neither the report below nor the frames further down.
  lemma {:induction false} FrameIsolated(rep: Report, log: seq<Item>, base: nat, d: nat, max: nat, solver: Solver,
                                         params: Params)
    requires base > 0 && |rep.stack| == base + d && Level(log, d).Some?
    requires forall i :: base - 1 <= i < |rep.stack| ==> DistinctLines(rep.stack[i])
    ensures var after := Replay(rep, log, max, solver, params);
      && after.branches == rep.branches && after.truncated == rep.truncated
      && |after.stack| == base + Level(log, d).value
      && after.stack[..base - 1] == rep.stack[..base - 1]
      && (forall i :: base - 1 <= i < |after.stack| ==> DistinctLines(after.stack[i]))
    decreases |log|
  {
    if log != [] {
      var it := log[0];
      var mid := Step(rep, it, max, solver, params);
      var d' := if it.Push? then d + 1 else if it.Pop? then d - 1 else d;
      if Reported(it) {
        InsertDistinct(rep.stack[|rep.stack| - 1], BranchOf(it, rep.calls, solver, params));
      } else if it.Pop? {
        var top := |rep.stack| - 1;
        CommitAllInFrame(rep.(stack := rep.stack[..top]), rep.stack[top], base, max);
      }
      FrameIsolated(mid, log[1..], base, d', max, solver, params);
    }
  }

  lemma {:induction false} CommitAllInFrame(rep: Report, frame: Frame, base: nat, max: nat)
    requires 0 < base <= |rep.stack|
    requires forall i :: base - 1 <= i < |rep.stack| ==> DistinctLines(rep.stack[i])
    ensures var after := CommitAll(rep, frame, max);
      && after.branches == rep.branches && after.truncated == rep.truncated
      && |after.stack| == |rep.stack|
      && after.stack[..base - 1] == rep.stack[..base - 1]
      && (forall i :: base - 1 <= i < |after.stack| ==> DistinctLines(after.stack[i]))
    decreases |frame|
  {
    if frame != [] {
      InsertDistinct(rep.stack[|rep.stack| - 1], frame[0]);
      CommitAllInFrame(Commit(rep, frame[0], max), frame[1..], base, max);
    }
  }

  lemma {:induction false} CommitAllAtTop(rep: Report, frame: Frame, max: nat)
    requires rep.stack == [] && |rep.branches| <= max
    ensures var after := CommitAll(rep, frame, max);
      && after.stack == []
      && after.branches == (if |rep.branches| + |frame| <= max then rep.branches + frame
                            else (rep.branches + frame)[..max])
      && after.truncated == (rep.truncated || |rep.branches| + |frame| > max)
    decreases |frame|
  {
    if frame != [] {
      var mid := Commit(rep, frame[0], max);
      CommitAllAtTop(mid, frame[1..], max);
      if |rep.branches| < max {
        assert [frame[0]] + frame[1..] == frame;
        assert mid.branches + frame[1..] == rep.branches + frame;
      } else {
        assert (rep.branches + frame)[..max] == rep.branches == (rep.branches + frame[1..])[..max];
      }
    }
  }

  // ---------------------------------------------------------------- what a frame keeps, exactly

  predicate Stronger(v: Verdict, w: Verdict) {
    (v.Reachable? && !w.Reachable?) || (v.Unknown? && w.Dead?)
  }

  // The decision at `i` is the line's entry: none is stronger, and the earlier ones are weaker.
  predicate Wins(ds: seq<Branch>, i: nat) {
    && i < |ds|
    && (forall j :: 0 <= j < i && ds[j].arm.line == ds[i].arm.line ==> Stronger(ds[i].verdict, ds[j].verdict))
    && (forall j :: i < j < |ds| && ds[j].arm.line == ds[i].arm.line ==> !Stronger(ds[j].verdict, ds[i].verdict))
  }

  // Some decision on one line comes before every decision on the other.
  predicate Precedes(ds: seq<Branch>, line: int, other: int) {
    exists i :: 0 <= i < |ds| && ds[i].arm.line == line && Absent(ds[..i], other) && line != other
  }

  predicate Absent(ds: seq<Branch>, line: int) {
    forall d :: d in ds ==> d.arm.line != line
  }

  predicate Has(frame: Frame, line: int) {
    exists c :: c in frame && c.arm.line == line
  }

  ghost predicate WinsSomewhere(ds: seq<Branch>, b: Branch) {
    exists i: nat :: Wins(ds, i) && ds[i] == b
  }

  // One entry per line, lines in the order of their first decision, each entry the line's winner.
  ghost predicate Summarizes(frame: Frame, ds: seq<Branch>) {
    && (forall d :: d in ds ==> Has(frame, d.arm.line))
    && (forall c :: c in frame ==> WinsSomewhere(ds, c))
    && (forall p, q :: 0 <= p < q < |frame| ==> Precedes(ds, frame[p].arm.line, frame[q].arm.line))
  }

  function InsertAll(frame: Frame, ds: seq<Branch>): Frame
    decreases |ds|
  {
    if ds == [] then frame else InsertAll(Insert(frame, ds[0]), ds[1..])
  }

  lemma {:induction false} InsertAllLast(frame: Frame, ds: seq<Branch>, b: Branch)
    ensures InsertAll(frame, ds + [b]) == Insert(InsertAll(frame, ds), b)
    decreases |ds|
  {
    if ds == [] {
      assert ds + [b] == [b] && [b][1..] == [];
    } else {
      assert (ds + [b])[0] == ds[0] && (ds + [b])[1..] == ds[1..] + [b];
      InsertAllLast(Insert(frame, ds[0]), ds[1..], b);
    }
  }

  predicate Lands(frame: Frame, b: Branch, p: nat) {
    && p <= |frame|
    && (p < |frame| ==> frame[p].arm.line == b.arm.line)
    && (p == |frame| ==> !Has(frame, b.arm.line))
    && Insert(frame, b) == if p == |frame| then frame + [b]
                           else if Stronger(b.verdict, frame[p].verdict) then frame[p := b]
                           else frame
  }

  // Where an insertion goes: it replaces a weaker entry of its line, or is added at the end.
  lemma {:induction false} InsertPlace(frame: Frame, b: Branch) returns (p: nat)
    requires DistinctLines(frame)
    ensures Lands(frame, b, p)
  {
    if frame == [] || frame[0].arm.line == b.arm.line {
      p := 0;
      assert frame != [] ==> [b] + frame[1..] == frame[0 := b] && [frame[0]] + frame[1..] == frame;
    } else {
      var r := InsertPlace(frame[1..], b);
      p := r + 1;
      assert [frame[0]] + frame[1..] == frame;
    }
  }

  lemma {:induction false} Summary(ds: seq<Branch>)
    ensures Summarizes(InsertAll([], ds), ds)
    decreases |ds|
  {
    if ds != [] {
      var last := |ds| - 1;
      var before := ds[..last];
      assert before + [ds[last]] == ds;
      Summary(before);
      InsertAllLast([], before, ds[last]);
      SummaryGrows(InsertAll([], before), before, ds[last]);
    }
  }

  lemma SummaryGrows(frame: Frame, ds: seq<Branch>, b: Branch)
    requires Summarizes(frame, ds)
    ensures Summarizes(Insert(frame, b), ds + [b])
  {
    forall i, j | 0 <= i < j < |frame| ensures frame[i].arm.line != frame[j].arm.line {
      assert Precedes(ds, frame[i].arm.line, frame[j].arm.line);
    }
    var p := InsertPlace(frame, b);
    var after, all := Insert(frame, b), ds + [b];
    forall d | d in all ensures Has(after, d.arm.line) { LineStays(frame, ds, b, p, d); }
    forall c | c in after ensures WinsSomewhere(all, c) { WinnerStays(frame, ds, b, p, c); }
    forall i, j | 0 <= i < j < |after| ensures Precedes(all, after[i].arm.line, after[j].arm.line) {
      OrderStays(frame, ds, b, p, i, j);
    }
  }

  lemma LineStays(frame: Frame, ds: seq<Branch>, b: Branch, p: nat, d: Branch)
    requires Summarizes(frame, ds) && Lands(frame, b, p) && d in ds + [b]
    ensures Has(Insert(frame, b), d.arm.line)
  {
    var after := Insert(frame, b);
    if d == b {
      assert after[p] in after && after[p].arm.line == b.arm.line;
    } else {
      var c :| c in frame && c.arm.line == d.arm.line;
      var q :| 0 <= q < |frame| && frame[q] == c;
      assert after[q] in after && after[q].arm.line == d.arm.line;
    }
  }

  lemma WinnerStays(frame: Frame, ds: seq<Branch>, b: Branch, p: nat, c: Branch)
    requires Summarizes(frame, ds) && DistinctLines(frame) && Lands(frame, b, p) && c in Insert(frame, b)
    ensures WinsSomewhere(ds + [b], c)
  {
    var after := Insert(frame, b);
    if p < |frame| { assert frame[p] in frame; }
    if p == |frame| || Stronger(b.verdict, frame[p].verdict) {
      if c == b {
        NewWins(frame, ds, b, p);
      } else {
        assert c in frame;
        OldWins(ds, b, c);
      }
    } else {
      OldWins(ds, b, c);
    }
  }

  lemma OldWins(ds: seq<Branch>, b: Branch, c: Branch)
    requires WinsSomewhere(ds, c) && (c.arm.line == b.arm.line ==> !Stronger(b.verdict, c.verdict))
    ensures WinsSomewhere(ds + [b], c)
  {
    var all := ds + [b];
    var i: nat :| Wins(ds, i) && ds[i] == c;
    assert all[i] == c && all[|ds|] == b && forall j :: 0 <= j < |ds| ==> all[j] == ds[j];
    assert Wins(all, i);
  }

  lemma NewWins(frame: Frame, ds: seq<Branch>, b: Branch, p: nat)
    requires Summarizes(frame, ds) && Lands(frame, b, p)
    requires p < |frame| ==> Stronger(b.verdict, frame[p].verdict) && WinsSomewhere(ds, frame[p])
    ensures WinsSomewhere(ds + [b], b)
  {
    var all := ds + [b];
    assert all[|ds|] == b && forall j :: 0 <= j < |ds| ==> all[j] == ds[j];
    if p < |frame| {
      var i: nat :| Wins(ds, i) && ds[i] == frame[p];
    } else {
      forall j | 0 <= j < |ds| ensures ds[j].arm.line != b.arm.line { assert ds[j] in ds; }
    }
    assert Wins(all, |ds|);
  }

  lemma OrderStays(frame: Frame, ds: seq<Branch>, b: Branch, p: nat, i: nat, j: nat)
    requires Summarizes(frame, ds) && DistinctLines(frame) && Lands(frame, b, p)
    requires i < j < |Insert(frame, b)|
    ensures Precedes(ds + [b], Insert(frame, b)[i].arm.line, Insert(frame, b)[j].arm.line)
  {
    var after, all := Insert(frame, b), ds + [b];
    var line, other := after[i].arm.line, after[j].arm.line;
    if j < |frame| {
      assert line == frame[i].arm.line && other == frame[j].arm.line;
      var k :| 0 <= k < |ds| && ds[k].arm.line == line && Absent(ds[..k], other) && line != other;
      assert all[k] == ds[k] && all[..k] == ds[..k];
    } else {
      assert frame[i] in frame && other == b.arm.line;
      var k: nat :| Wins(ds, k) && ds[k] == frame[i];
      assert Has(frame, line);
      forall d | d in ds[..k] ensures d.arm.line != other { assert d in ds; }
      assert all[k] == ds[k] && all[..k] == ds[..k];
    }
  }

  // ---------------------------------------------------------------- frames inside frames

  predicate Same(b: Branch, c: Branch) {
    b.arm.line == c.arm.line
  }

  lemma {:induction false} InsertTwice(frame: Frame, a: Branch, b: Branch)
    requires Same(a, b)
    ensures Insert(Insert(frame, a), b) == Insert(frame, if Rank(b.verdict) > Rank(a.verdict) then b else a)
  {
    if frame != [] && !Same(frame[0], a) { InsertTwice(frame[1..], a, b); }
  }

  lemma {:induction false} InsertSwaps(frame: Frame, a: Branch, b: Branch)
    requires !Same(a, b) && Has(frame, b.arm.line)
    ensures Insert(Insert(frame, a), b) == Insert(Insert(frame, b), a)
  {
    if !Same(frame[0], a) && !Same(frame[0], b) { InsertSwaps(frame[1..], a, b); }
  }

  lemma {:induction false} InsertHas(frame: Frame, a: Branch, line: int)
    requires Has(frame, line)
    ensures Has(Insert(frame, a), line)
  {
    var after := Insert(frame, a);
    if frame[0].arm.line == line {
      assert after[0] in after && after[0].arm.line == line;
    } else {
      assert Has(frame[1..], line);
      if Same(frame[0], a) {
        assert after[1..] == frame[1..];
      } else {
        InsertHas(frame[1..], a, line);
      }
      var c :| c in after[1..] && c.arm.line == line;
      assert c in after;
    }
  }

  lemma {:induction false} InsertPasses(frame: Frame, g: Frame, b: Branch)
    requires Has(frame, b.arm.line) && Absent(g, b.arm.line)
    ensures Insert(InsertAll(frame, g), b) == InsertAll(Insert(frame, b), g)
    decreases |g|
  {
    if g != [] {
      InsertHas(frame, g[0], b.arm.line);
      InsertPasses(Insert(frame, g[0]), g[1..], b);
      InsertSwaps(frame, g[0], b);
    }
  }

  // Inserting into a frame and then merging it is merging it and then inserting.
  lemma {:induction false} InsertInner(frame: Frame, g: Frame, b: Branch)
    requires DistinctLines(g)
    ensures InsertAll(frame, Insert(g, b)) == Insert(InsertAll(frame, g), b)
    decreases |g|
  {
    if g == [] {
      assert [b][1..] == [];
    } else if Same(g[0], b) {
      var best := if Rank(b.verdict) > Rank(g[0].verdict) then b else g[0];
      assert Insert(g, b) == [best] + g[1..] && ([best] + g[1..])[1..] == g[1..];
      InsertTwice(frame, g[0], b);
      Inserted(frame, g[0]);
      InsertPasses(Insert(frame, g[0]), g[1..], b);
    } else {
      assert Insert(g, b) == [g[0]] + Insert(g[1..], b);
      assert ([g[0]] + Insert(g[1..], b))[1..] == Insert(g[1..], b);
      InsertInner(Insert(frame, g[0]), g[1..], b);
    }
  }

  lemma {:induction false} Inserted(frame: Frame, b: Branch)
    ensures Has(Insert(frame, b), b.arm.line)
  {
    InsertKeeps(frame, b);
    var c :| c in Insert(frame, b) && Above(c, b);
  }

  // Merging is associative.
  lemma {:induction false} MergeInner(frame: Frame, g: Frame, ds: seq<Branch>)
    requires DistinctLines(g)
    ensures InsertAll(frame, InsertAll(g, ds)) == InsertAll(InsertAll(frame, g), ds)
    decreases |ds|
  {
    if ds != [] {
      InsertDistinct(g, ds[0]);
      MergeInner(frame, Insert(g, ds[0]), ds[1..]);
      InsertInner(frame, g, ds[0]);
    }
  }

  // The open frames, merged from the outermost inwards.
  function Merged(stack: seq<Frame>): Frame
    requires stack != []
  {
    var top := |stack| - 1;
    if top == 0 then stack[0] else InsertAll(Merged(stack[..top]), stack[top])
  }

  lemma MergedCommit(stack: seq<Frame>, b: Branch)
    requires stack != [] && DistinctLines(stack[|stack| - 1])
    ensures var top := |stack| - 1;
      Merged(stack[top := Insert(stack[top], b)]) == Insert(Merged(stack), b)
  {
    var top := |stack| - 1;
    var stack' := stack[top := Insert(stack[top], b)];
    assert stack'[..top] == stack[..top];
    if top > 0 { InsertInner(Merged(stack[..top]), stack[top], b); }
  }

  lemma {:induction false} MergedFlush(rep: Report, frame: Frame, max: nat)
    requires rep.stack != [] && DistinctLines(rep.stack[|rep.stack| - 1])
    ensures CommitAll(rep, frame, max).stack != []
    ensures Merged(CommitAll(rep, frame, max).stack) == InsertAll(Merged(rep.stack), frame)
    decreases |frame|
  {
    if frame != [] {
      var top := |rep.stack| - 1;
      MergedCommit(rep.stack, frame[0]);
      InsertDistinct(rep.stack[top], frame[0]);
      MergedFlush(Commit(rep, frame[0], max), frame[1..], max);
    }
  }

  lemma {:induction false} ReplayMerges(rep: Report, log: seq<Item>, max: nat, solver: Solver, params: Params)
    requires rep.stack != [] && Level(log, |rep.stack| - 1).Some?
    requires forall i :: 0 <= i < |rep.stack| ==> DistinctLines(rep.stack[i])
    ensures var after := Replay(rep, log, max, solver, params);
      && after.stack != []
      && Merged(after.stack) == InsertAll(Merged(rep.stack), Decisions(rep.calls, log, solver, params))
    decreases |log|
  {
    if log != [] {
      var it, top := log[0], |rep.stack| - 1;
      var mid := Step(rep, it, max, solver, params);
      var d := if it.Push? then top + 1 else if it.Pop? then top - 1 else top;
      StepMerges(rep, it, max, solver, params);
      FrameIsolated(rep, [it], 1, top, max, solver, params);
      assert [it][1..] == [] && Replay(rep, [it], max, solver, params) == mid;
      ReplayMerges(mid, log[1..], max, solver, params);
    }
  }

  lemma StepMerges(rep: Report, it: Item, max: nat, solver: Solver, params: Params)
    requires rep.stack != [] && (it.Pop? ==> |rep.stack| > 1)
    requires forall i :: 0 <= i < |rep.stack| ==> DistinctLines(rep.stack[i])
    ensures var after := Step(rep, it, max, solver, params);
      && after.stack != []
      && after.calls == (if it.Visit? then rep.calls + 1 else rep.calls)
      && Merged(after.stack)
         == if Reported(it) then Insert(Merged(rep.stack), BranchOf(it, rep.calls, solver, params))
            else Merged(rep.stack)
  {
    var top := |rep.stack| - 1;
    if Reported(it) {
      MergedCommit(rep.stack, BranchOf(it, rep.calls, solver, params));
    } else if it.Push? {
      assert (rep.stack + [[]])[..top + 1] == rep.stack;
    } else if it.Pop? {
      MergedFlush(rep.(stack := rep.stack[..top]), rep.stack[top], max);
      CommitAllCalls(rep.(stack := rep.stack[..top]), rep.stack[top], max);
    }
  }

  // Aggregation: an unrolled loop, however its body nests further ones, adds one entry per line, in
  // the order in which the lines were first decided; the entry is the first of the line's decisions
  // that none of them outranks.
  lemma {:induction false} LoopAggregates(rep: Report, body: seq<Item>, max: nat, solver: Solver, params: Params)
    returns (frame: Frame)
    requires Balanced(body) && rep.stack == [] && !rep.truncated && |rep.branches| <= max
    ensures Summarizes(frame, Decisions(rep.calls, body, solver, params))
    ensures var after := Replay(rep, [Push] + body + [Pop], max, solver, params);
      && after.stack == []
      && after.branches == (if |rep.branches| + |frame| <= max then rep.branches + frame
                            else (rep.branches + frame)[..max])
      && after.truncated == (|rep.branches| + |frame| > max)
  {
    var open := rep.(stack := [[]]);
    frame := FrameCollects(open, body, max, solver, params);
    var done := Replay(open, body, max, solver, params);
    ReplayCat(rep, [Push] + body, [Pop], max, solver, params);
    ReplayCat(rep, [Push], body, max, solver, params);
    assert [Push][1..] == [] && [Pop][1..] == [];
    assert Replay(rep, [Push], max, solver, params) == open;
    assert Replay(done, [Pop], max, solver, params) == Step(done, Pop, max, solver, params);
    assert done.stack[..0] == [];
    CommitAllAtTop(done.(stack := []), frame, max);
  }

  lemma {:induction false} FrameCollects(open: Report, body: seq<Item>, max: nat, solver: Solver, params: Params)
    returns (frame: Frame)
    requires Balanced(body) && open.stack == [[]] && !open.truncated
    ensures Summarizes(frame, Decisions(open.calls, body, solver, params))
    ensures var done := Replay(open, body, max, solver, params);
      done.branches == open.branches && done.stack == [frame] && !done.truncated
  {
    var start := Report([], [[]], false, open.calls);
    assert Level(body, 0) == Some(0);
    FrameIsolated(open, body, 1, 0, max, solver, params);
    FrameIsolated(start, body, 1, 0, max, solver, params);
    FramesAlike(open, start, body, 1, 0, max, solver, params);
    frame := Replay(start, body, max, solver, params).stack[0];
    ReplayMerges(start, body, max, solver, params);
    Summary(Decisions(start.calls, body, solver, params));
  }

  // Inside a frame, what was reported before does not matter.
  lemma {:induction false} FramesAlike(rep: Report, rep': Report, log: seq<Item>, base: nat, d: nat, max: nat,
                                       solver: Solver, params: Params)
    requires base > 0 && |rep.stack| == base + d && Level(log, d).Some?
    requires rep.stack == rep'.stack && rep.calls == rep'.calls
    ensures Replay(rep, log, max, solver, params).stack == Replay(rep', log, max, solver, params).stack
    ensures Replay(rep, log, max, solver, params).calls == Replay(rep', log, max, solver, params).calls
    decreases |log|
  {
    if log != [] {
      var it := log[0];
      if it.Pop? {
        var top := |rep.stack| - 1;
        CommitAllAlike(rep.(stack := rep.stack[..top]), rep'.(stack := rep.stack[..top]), rep.stack[top], max);
      }
      FramesAlike(Step(rep, it, max, solver, params), Step(rep', it, max, solver, params), log[1..], base,
                  if it.Push? then d + 1 else if it.Pop? then d - 1 else d, max, solver, params);
    }
  }

  lemma {:induction false} CommitAllAlike(rep: Report, rep': Report, frame: Frame, max: nat)
    requires rep.stack == rep'.stack && rep.stack != [] && rep.calls == rep'.calls
    ensures var a, b := CommitAll(rep, frame, max), CommitAll(rep', frame, max);
      a.stack == b.stack && a.calls == b.calls && |a.stack| == |rep.stack|
    decreases |frame|
  {
    if frame != [] {
      CommitAllAlike(Commit(rep, frame[0], max), Commit(rep', frame[0], max), frame[1..], max);
    }
  }

  // ---------------------------------------------------------------- the whole report

  // The entries that a log calls for: outside every frame one for each decision, and for an
  // outermost frame those that sum up all the decisions made inside it.
  function Entries(k: nat, log: seq<Item>, d: nat, inside: seq<Branch>, solver: Solver, params: Params): seq<Branch>
    decreases |log|
  {
    if log == [] then []
    else
      var it, rest := log[0], log[1..];
      if Reported(it) then
        var b, k' := BranchOf(it, k, solver, params), if it.Visit? then k + 1 else k;
        if d == 0 then [b] + Entries(k', rest, 0, [], solver, params)
        else Entries(k', rest, d, inside + [b], solver, params)
      else if it.Push? then Entries(k, rest, d + 1, inside, solver, params)
      else if it.Pop? && d > 0 then
        if d == 1 then InsertAll([], inside) + Entries(k, rest, 0, [], solver, params)
        else Entries(k, rest, d - 1, inside, solver, params)
      else Entries(k, rest, d, inside, solver, params)
  }

  // The open frames hold the decisions made inside the outermost one.
  ghost predicate Holding(rep: Report, d: nat, inside: seq<Branch>) {
    && |rep.stack| == d
    && (forall i :: 0 <= i < d ==> DistinctLines(rep.stack[i]))
    && (if d == 0 then inside == [] else Merged(rep.stack) == InsertAll([], inside))
  }

  // Inside a frame a step keeps the frames in order.
  lemma StepHolds(rep: Report, it: Item, d: nat, inside: seq<Branch>, max: nat, solver: Solver, params: Params)
    requires Holding(rep, d, inside) && d > 0 && !(it.Pop? && d == 1)
    ensures var after := Step(rep, it, max, solver, params);
      var d' := if it.Push? then d + 1 else if it.Pop? then d - 1 else d;
      && after.branches == rep.branches
      && after.calls == (if it.Visit? then rep.calls + 1 else rep.calls)
      && Holding(after, d', if Reported(it) then inside + [BranchOf(it, rep.calls, solver, params)] else inside)
  {
    assert [it][1..] == [];
    assert Replay(rep, [it], max, solver, params) == Step(rep, it, max, solver, params);
    FrameIsolated(rep, [it], 1, d - 1, max, solver, params);
    StepMerges(rep, it, max, solver, params);
    if Reported(it) { InsertAllLast([], inside, BranchOf(it, rep.calls, solver, params)); }
  }

  // A report with room for them all consists of exactly these entries, in this order.
  lemma {:induction false} ReportIsEntries(rep: Report, log: seq<Item>, d: nat, inside: seq<Branch>, max: nat,
                                           solver: Solver, params: Params)
    requires Holding(rep, d, inside) && Level(log, d) == Some(0) && |rep.branches| <= max
    requires !Replay(rep, log, max, solver, params).truncated
    ensures Replay(rep, log, max, solver, params).branches
         == rep.branches + Entries(rep.calls, log, d, inside, solver, params)
    decreases |log|
  {
    if log != [] {
      var it, rest := log[0], log[1..];
      var mid := Step(rep, it, max, solver, params);
      EntriesAreDecisions(mid, rest, max, solver, params);
      if d == 0 {
        ReportAtTop(rep, log, max, solver, params);
      } else if it.Pop? && d == 1 {
        assert rep.stack[..0] == [];
        CommitAllAtTop(rep.(stack := []), rep.stack[0], max);
        CommitAllCalls(rep.(stack := []), rep.stack[0], max);
        ReportIsEntries(mid, rest, 0, [], max, solver, params);
      } else {
        StepHolds(rep, it, d, inside, max, solver, params);
        ReportIsEntries(mid, rest, if it.Push? then d + 1 else if it.Pop? then d - 1 else d,
                        if Reported(it) then inside + [BranchOf(it, rep.calls, solver, params)] else inside,
                        max, solver, params);
      }
    }
  }

  lemma {:induction false} ReportAtTop(rep: Report, log: seq<Item>, max: nat, solver: Solver, params: Params)
    requires log != [] && Holding(rep, 0, []) && Level(log, 0) == Some(0) && |rep.branches| <= max
    requires !Replay(rep, log, max, solver, params).truncated
    requires !Step(rep, log[0], max, solver, params).truncated
    ensures Replay(rep, log, max, solver, params).branches
         == rep.branches + Entries(rep.calls, log, 0, [], solver, params)
    decreases |log|, 0
  {
    var it, rest := log[0], log[1..];
    var mid := Step(rep, it, max, solver, params);
    if it.Push? {
      assert mid.stack == [[]];
      ReportIsEntries(mid, rest, 1, [], max, solver, params);
    } else {
      ReportIsEntries(mid, rest, 0, [], max, solver, params);
    }
  }

  // ---------------------------------------------------------------- the cap

  function FrameLines(frame: Frame): seq<int> {
    seq(|frame|, i requires 0 <= i < |frame| => frame[i].arm.line)
  }

  predicate SameLines(a: seq<Frame>, b: seq<Frame>) {
    |a| == |b| && forall i :: 0 <= i < |a| ==> FrameLines(a[i]) == FrameLines(b[i])
  }

  // A report capped at `max` against one with more room. Either the cap has not bitten yet, ...
  predicate SameSoFar(small: Report, large: Report, max: nat) {
    small == large && |small.branches| <= max && !small.truncated
  }

  // ... or the small one is full: a prefix, truncated when the large one has gone on.
  predicate Full(small: Report, large: Report, max: nat) {
    && |small.branches| == max <= |large.branches|
    && small.branches == large.branches[..max]
    && SameLines(small.stack, large.stack)
    && small.truncated == (|large.branches| > max)
  }

  lemma {:induction false} InsertLines(f: Frame, g: Frame, b: Branch, c: Branch)
    requires FrameLines(f) == FrameLines(g) && b.arm.line == c.arm.line
    ensures FrameLines(Insert(f, b)) == FrameLines(Insert(g, c))
  {
    assert |f| == |FrameLines(f)| == |FrameLines(g)| == |g|;
    if f != [] {
      assert f[0].arm.line == FrameLines(f)[0] == FrameLines(g)[0] == g[0].arm.line;
      assert FrameLines(f[1..]) == FrameLines(f)[1..] && FrameLines(g[1..]) == FrameLines(g)[1..];
      if f[0].arm.line != b.arm.line {
        InsertLines(f[1..], g[1..], b, c);
        assert FrameLines(Insert(f, b)) == [f[0].arm.line] + FrameLines(Insert(f[1..], b));
        assert FrameLines(Insert(g, c)) == [g[0].arm.line] + FrameLines(Insert(g[1..], c));
      } else {
        assert FrameLines(Insert(f, b)) == [b.arm.line] + FrameLines(f[1..]);
        assert FrameLines(Insert(g, c)) == [b.arm.line] + FrameLines(g[1..]);
      }
    }
  }

  lemma CommitFull(small: Report, large: Report, b: Branch, c: Branch, max: nat, more: nat)
    requires max < more && Full(small, large, max) && b.arm.line == c.arm.line
    ensures Full(Commit(small, b, max), Commit(large, c, more), max)
  {
    if small.stack != [] {
      var top := |small.stack| - 1;
      InsertLines(small.stack[top], large.stack[top], b, c);
    }
  }

  lemma CommitSame(small: Report, large: Report, b: Branch, max: nat, more: nat)
    requires max < more && SameSoFar(small, large, max)
    ensures var small', large' := Commit(small, b, max), Commit(large, b, more);
      SameSoFar(small', large', max) || Full(small', large', max)
  {
  }

  lemma {:induction false} CommitAllFull(small: Report, large: Report, f: Frame, g: Frame, max: nat, more: nat)
    requires max < more && Full(small, large, max) && FrameLines(f) == FrameLines(g)
    ensures Full(CommitAll(small, f, max), CommitAll(large, g, more), max)
    decreases |f|
  {
    assert |f| == |FrameLines(f)| == |FrameLines(g)| == |g|;
    if f != [] {
      assert f[0].arm.line == FrameLines(f)[0] == FrameLines(g)[0] == g[0].arm.line;
      assert FrameLines(f[1..]) == FrameLines(f)[1..] && FrameLines(g[1..]) == FrameLines(g)[1..];
      CommitFull(small, large, f[0], g[0], max, more);
      CommitAllFull(Commit(small, f[0], max), Commit(large, g[0], more), f[1..], g[1..], max, more);
    }
  }

  lemma {:induction false} CommitAllSame(small: Report, large: Report, f: Frame, max: nat, more: nat)
    requires max < more && SameSoFar(small, large, max)
    ensures var small', large' := CommitAll(small, f, max), CommitAll(large, f, more);
      SameSoFar(small', large', max) || Full(small', large', max)
    decreases |f|
  {
    if f != [] {
      CommitSame(small, large, f[0], max, more);
      var small', large' := Commit(small, f[0], max), Commit(large, f[0], more);
      if SameSoFar(small', large', max) {
        CommitAllSame(small', large', f[1..], max, more);
      } else {
        CommitAllFull(small', large', f[1..], f[1..], max, more);
      }
    }
  }

  lemma StepFull(small: Report, large: Report, it: Item, max: nat, more: nat, solver: Solver, params: Params)
    requires max < more && Full(small, large, max)
    ensures Full(Step(small, it, max, solver, params), Step(large, it, more, solver, params), max)
  {
    if Reported(it) {
      var b, c := BranchOf(it, small.calls, solver, params), BranchOf(it, large.calls, solver, params);
      var small' := if it.Visit? then small.(calls := small.calls + 1) else small;
      var large' := if it.Visit? then large.(calls := large.calls + 1) else large;
      CommitFull(small', large', b, c, max, more);
    } else if it.Pop? && small.stack != [] {
      var top := |small.stack| - 1;
      CommitAllFull(small.(stack := small.stack[..top]), large.(stack := large.stack[..top]),
                    small.stack[top], large.stack[top], max, more);
    }
  }

  lemma StepSame(small: Report, large: Report, it: Item, max: nat, more: nat, solver: Solver, params: Params)
    requires max < more && SameSoFar(small, large, max)
    ensures var small', large' := Step(small, it, max, solver, params), Step(large, it, more, solver, params);
      SameSoFar(small', large', max) || Full(small', large', max)
  {
    if Reported(it) {
      var rep := if it.Visit? then small.(calls := small.calls + 1) else small;
      CommitSame(rep, rep, BranchOf(it, small.calls, solver, params), max, more);
    } else if it.Pop? && small.stack != [] {
      var top := |small.stack| - 1;
      var rep := small.(stack := small.stack[..top]);
      CommitAllSame(rep, rep, small.stack[top], max, more);
    }
  }

  lemma {:induction false} ReplayFull(small: Report, large: Report, log: seq<Item>, max: nat, more: nat, solver: Solver,
                                      params: Params)
    requires max < more && Full(small, large, max)
    ensures Full(Replay(small, log, max, solver, params), Replay(large, log, more, solver, params), max)
    decreases |log|
  {
    if log != [] {
      StepFull(small, large, log[0], max, more, solver, params);
      ReplayFull(Step(small, log[0], max, solver, params), Step(large, log[0], more, solver, params), log[1..], max,
                 more, solver, params);
    }
  }

  lemma {:induction false} ReplaySame(rep: Report, log: seq<Item>, max: nat, more: nat, solver: Solver, params: Params)
    requires max < more && SameSoFar(rep, rep, max)
    ensures var small, large := Replay(rep, log, max, solver, params), Replay(rep, log, more, solver, params);
      SameSoFar(small, large, max) || Full(small, large, max)
    decreases |log|
  {
    if log != [] {
      StepSame(rep, rep, log[0], max, more, solver, params);
      var small, large := Step(rep, log[0], max, solver, params), Step(rep, log[0], more, solver, params);
      if SameSoFar(small, large, max) {
        ReplaySame(small, log[1..], max, more, solver, params);
      } else {
        ReplayFull(small, large, log[1..], max, more, solver, params);
      }
    }
  }

  // A report capped at `max` is the first `max` entries of a report with more room, and it is
  // flagged as truncated exactly when that report has more entries.
  lemma CapIsPrefix(log: seq<Item>, max: nat, more: nat, solver: Solver, params: Params)
    requires max < more
    ensures var small := Replay(EmptyReport(), log, max, solver, params);
      var large := Replay(EmptyReport(), log, more, solver, params);
      && |small.branches| <= |large.branches|
      && small.branches == large.branches[..|small.branches|]
      && |small.branches| == (if |large.branches| <= max then |large.branches| else max)
      && (small.truncated <==> |large.branches| > max)
  {
    ReplaySame(EmptyReport(), log, max, more, solver, params);
  }
}
