/**
  Counting loops by indentation: the stack of open loops against a declarative reading of nesting.
  Which lines are skipped, and which open a loop, is decided by the caller's patterns.
 */
module LoopNesting {

  // `considered` is false for blank and comment lines.
  datatype Line = Line(considered: bool, indent: nat, loop: bool)

  predicate IsLoop(lines: seq<Line>, i: nat) {
    i < |lines| && lines[i].considered && lines[i].loop
  }

  // Loop line i still encloses what follows line n - 1: every considered line since is deeper.
  predicate Open(lines: seq<Line>, i: nat, n: nat)
    requires n <= |lines|
  {
    i < n && IsLoop(lines, i) && forall k :: i < k < n && lines[k].considered ==> lines[k].indent > lines[i].indent
  }

  // Loop i encloses loop j.
  predicate Encloses(lines: seq<Line>, i: nat, j: nat) {
    i < j < |lines| && Open(lines, i, j + 1) && IsLoop(lines, j)
  }

  // Loops, outermost first, each directly or indirectly enclosing the next.
  predicate Chain(lines: seq<Line>, c: seq<nat>) {
    && (forall k :: 0 <= k < |c| ==> IsLoop(lines, c[k]))
    && (forall k :: 0 <= k < |c| - 1 ==> Encloses(lines, c[k], c[k + 1]))
  }

  // The loop lines among the first n.
  function Loops(lines: seq<Line>, n: nat): nat {
    if n == 0 then 0 else Loops(lines, n - 1) + if IsLoop(lines, n - 1) then 1 else 0
  }

  // The indices of the open loops, outermost first.
  ghost predicate OpenLoops(lines: seq<Line>, n: nat, open: seq<nat>)
    requires n <= |lines|
  {
    && Increasing(open)
    && (forall k :: 0 <= k < |open| ==> Open(lines, open[k], n))
    && (forall i: nat :: i in open <==> Open(lines, i, n))
  }

  predicate Increasing(s: seq<nat>) {
    forall a, b :: 0 <= a < b < |s| ==> s[a] < s[b]
  }

  function IndentOf(lines: seq<Line>, i: nat): nat {
    if i < |lines| then lines[i].indent else 0
  }

  function Indents(lines: seq<Line>, open: seq<nat>): seq<nat> {
    seq(|open|, k requires 0 <= k < |open| => IndentOf(lines, open[k]))
  }

  // `d` is the length of the longest chain among the first n lines.
  ghost predicate Deepest(lines: seq<Line>, n: nat, d: nat) {
    && (exists c :: Chain(lines, c) && |c| == d)
    && (forall c :: Chain(lines, c) && (c != [] ==> c[|c| - 1] < n) ==> |c| <= d)
  }

  method CountLoops(lines: seq<Line>) returns (loops: nat, maxDepth: nat)
    ensures loops == Loops(lines, |lines|)
    // The depth is the length of the longest chain of enclosing loops.
    ensures exists c :: Chain(lines, c) && |c| == maxDepth
    ensures forall c :: Chain(lines, c) ==> |c| <= maxDepth
  {
    hide OpenLoops, Deepest, Indents, Chain, Increasing;
    var stack: seq<nat> := [];
    loops, maxDepth := 0, 0;
    ghost var open: seq<nat> := [];
    NothingOpen(lines);
    var n := 0;
    while n < |lines|
      invariant n <= |lines| && loops == Loops(lines, n)
      invariant OpenLoops(lines, n, open) && stack == Indents(lines, open)
      invariant Deepest(lines, n, maxDepth)
    {
      stack, open := Consider(lines, n, stack, open);
      NextDeepest(lines, n, open, maxDepth);
      if lines[n].considered && lines[n].loop {
        loops := loops + 1;
        maxDepth := if |stack| > maxDepth then |stack| else maxDepth;
      }
      n := n + 1;
    }
    AllChainsEndWithin(lines, maxDepth);
  }

  lemma NothingOpen(lines: seq<Line>)
    ensures OpenLoops(lines, 0, []) && Indents(lines, []) == [] && Deepest(lines, 0, 0)
  {
    assert Chain(lines, []);
  }

  lemma AllChainsEndWithin(lines: seq<Line>, d: nat)
    requires Deepest(lines, |lines|, d)
    ensures exists c :: Chain(lines, c) && |c| == d
    ensures forall c :: Chain(lines, c) ==> |c| <= d
  {
    forall c | Chain(lines, c) ensures |c| <= d {
      if c != [] { assert IsLoop(lines, c[|c| - 1]); }
    }
  }

  lemma NextDeepest(lines: seq<Line>, n: nat, open: seq<nat>, d: nat)
    requires n < |lines| && Deepest(lines, n, d) && OpenLoops(lines, n + 1, open)
    ensures Deepest(lines, n + 1, if IsLoop(lines, n) && |open| > d then |open| else d)
  {
    OpenIsChain(lines, n, open);
    forall c | Chain(lines, c) && (c != [] ==> c[|c| - 1] < n + 1)
      ensures |c| <= if IsLoop(lines, n) && |open| > d then |open| else d
    {
      if c != [] && c[|c| - 1] == n {
        assert IsLoop(lines, c[|c| - 1]);
        ChainFits(lines, c, n, open);
      }
    }
  }

  // One line: the stack afterwards is that of the loops still open, and strictly increasing.
  method Consider(lines: seq<Line>, n: nat, stack0: seq<nat>, ghost open0: seq<nat>)
    returns (stack: seq<nat>, ghost open: seq<nat>)
    requires n < |lines| && OpenLoops(lines, n, open0) && stack0 == Indents(lines, open0)
    ensures OpenLoops(lines, n + 1, open) && stack == Indents(lines, open) && Increasing(stack) && |stack| == |open|
  {
    stack, open := stack0, open0;
    StackIncreases(lines, n, open0);
    if lines[n].considered {
      stack, open := PopShallower(lines, n, stack, open);
      ghost var m := |open|;
      if lines[n].loop {
        stack, open := stack + [lines[n].indent], open + [n];
      }
      assert open == open0[..m] + (if lines[n].loop then [n] else []);
      assert stack == Indents(lines, open);
      NextOpen(lines, n, open0, m, open);
    } else {
      SkipOpen(lines, n, open);
    }
    StackIncreases(lines, n + 1, open);
  }

  // Pop while the line is no deeper than the top: exactly the loops that stay open remain.
  method PopShallower(lines: seq<Line>, n: nat, stack0: seq<nat>, ghost open0: seq<nat>)
    returns (stack: seq<nat>, ghost open: seq<nat>)
    requires n < |lines| && OpenLoops(lines, n, open0) && stack0 == Indents(lines, open0) && Increasing(stack0)
    ensures open <= open0 && stack == Indents(lines, open) && Increasing(stack)
    ensures forall k :: 0 <= k < |open0| ==> (k < |open| <==> IndentOf(lines, open0[k]) < lines[n].indent)
  {
    stack, open := stack0, open0;
    while stack != [] && lines[n].indent <= stack[|stack| - 1]
      invariant open <= open0 && stack == stack0[..|open|] && |stack| == |open|
      invariant forall k :: |open| <= k < |open0| ==> IndentOf(lines, open0[k]) >= lines[n].indent
    {
      stack, open := stack[..|stack| - 1], open[..|open| - 1];
    }
  }

  // Which loops are open after one more line: the first m, which are shallower, and itself if a loop.
  lemma NextOpen(lines: seq<Line>, n: nat, before: seq<nat>, m: nat, open: seq<nat>)
    requires n < |lines| && OpenLoops(lines, n, before) && lines[n].considered && m <= |before|
    requires forall k :: 0 <= k < |before| ==> (k < m <==> IndentOf(lines, before[k]) < lines[n].indent)
    requires open == before[..m] + (if lines[n].loop then [n] else [])
    ensures OpenLoops(lines, n + 1, open)
  {
    forall k | 0 <= k < |open| ensures Open(lines, open[k], n + 1) {
      if k < m { assert open[k] == before[k] && Open(lines, before[k], n); }
    }
    forall i: nat | Open(lines, i, n + 1) ensures i in open {
      if i < n {
        assert Open(lines, i, n) && i in before;
        var k :| 0 <= k < |before| && before[k] == i;
        assert open[k] == i;
      }
    }
  }

  lemma SkipOpen(lines: seq<Line>, n: nat, open: seq<nat>)
    requires n < |lines| && OpenLoops(lines, n, open) && !lines[n].considered
    ensures OpenLoops(lines, n + 1, open)
  {
    forall i: nat ensures Open(lines, i, n) <==> Open(lines, i, n + 1) {
    }
  }

  // The stack is strictly increasing: a loop is open only while everything since is deeper.
  lemma StackIncreases(lines: seq<Line>, n: nat, open: seq<nat>)
    requires n <= |lines| && OpenLoops(lines, n, open)
    ensures Increasing(Indents(lines, open))
  {
    forall a, b | 0 <= a < b < |open| ensures IndentOf(lines, open[a]) < IndentOf(lines, open[b]) {
      assert open[a] in open && open[b] in open;
      assert Open(lines, open[a], n) && Open(lines, open[b], n);
    }
  }

  lemma OpenIsChain(lines: seq<Line>, n: nat, open: seq<nat>)
    requires n < |lines| && OpenLoops(lines, n + 1, open)
    ensures Chain(lines, open)
  {
    forall k | 0 <= k < |open| ensures IsLoop(lines, open[k]) {
      assert open[k] in open;
    }
    forall k | 0 <= k < |open| - 1 ensures Encloses(lines, open[k], open[k + 1]) {
      assert open[k] in open && open[k + 1] in open && Open(lines, open[k], n + 1) && Open(lines, open[k + 1], n + 1);
    }
  }

  // Everything in a chain that ends at line n is open there.
  lemma {:induction false} ChainIsOpen(lines: seq<Line>, c: seq<nat>, n: nat, k: nat)
    requires n < |lines| && Chain(lines, c) && c != [] && c[|c| - 1] == n && k < |c|
    ensures Open(lines, c[k], n + 1) && lines[c[k]].indent <= lines[n].indent
    decreases |c| - k
  {
    if k + 1 < |c| {
      ChainIsOpen(lines, c, n, k + 1);
      assert Encloses(lines, c[k], c[k + 1]);
      forall x | c[k] < x < n + 1 && lines[x].considered ensures lines[x].indent > lines[c[k]].indent {
        assert lines[c[k + 1]].indent > lines[c[k]].indent;
      }
    }
  }

  lemma {:induction false} ChainAscends(lines: seq<Line>, c: seq<nat>, a: nat, b: nat)
    requires Chain(lines, c) && a < b < |c|
    ensures c[a] < c[b]
    decreases b - a
  {
    assert Encloses(lines, c[b - 1], c[b]);
    if a + 1 < b { ChainAscends(lines, c, a, b - 1); }
  }

  lemma ChainFits(lines: seq<Line>, c: seq<nat>, n: nat, open: seq<nat>)
    requires n < |lines| && Chain(lines, c) && c != [] && c[|c| - 1] == n && OpenLoops(lines, n + 1, open)
    ensures |c| <= |open|
  {
    forall a, b | 0 <= a < b < |c| ensures c[a] < c[b] { ChainAscends(lines, c, a, b); }
    forall k | 0 <= k < |c| ensures c[k] in open { ChainIsOpen(lines, c, n, k); }
    AscendingFits(c, open);
  }

  // A strictly ascending sequence drawn from another is no longer than it.
  lemma {:induction false} AscendingFits(c: seq<nat>, d: seq<nat>)
    requires Increasing(c) && Increasing(d) && forall k :: 0 <= k < |c| ==> c[k] in d
    ensures |c| <= |d|
    decreases |c|
  {
    if c != [] {
      var last := |c| - 1;
      var p :| 0 <= p < |d| && d[p] == c[last];
      forall k | 0 <= k < last ensures c[k] in d[..p] {
        var q :| 0 <= q < |d| && d[q] == c[k];
        assert q < p;
      }
      AscendingFits(c[..last], d[..p]);
    }
  }
}
