/** The index of a `for` above the cap: what its representative iteration allows, and what the loop takes. */
module Ranges {
  import opened PySubset
  import opened Terms
  import opened Walk

  lemma IterationBounds(h: Stmt, m: Model)
    requires h.For? && h.step != 0
    ensures var v := Lookup(m, LoopIndex(h).sym);
      Holds(SomeIteration(h, BoolVal(true)), m) <==> if h.step > 0 then h.start <= v < h.stop else h.stop < v <= h.start
  {
    var lo := if h.step > 0 then h.start else h.stop + 1;
    var hi := if h.step > 0 then h.stop - 1 else h.start;
    assert Eval(IntVal(lo), m) == lo && Eval(IntVal(hi), m) == hi && Eval(BoolVal(true), m) == 1;
    var i, v := LoopIndex(h), Lookup(m, LoopIndex(h).sym);
    assert Eval(i, m) == v;
    var above, below := CmpT(Ge, i, IntVal(lo)), CmpT(Le, i, IntVal(hi));
    assert Eval(above, m) == AsInt(v >= lo) && Eval(below, m) == AsInt(v <= hi);
    assert Eval(AndT(BoolVal(true), above), m) == AsInt(v >= lo);
    assert SomeIteration(h, BoolVal(true)) == AndT(AndT(BoolVal(true), above), below);
  }

  lemma {:induction false} UnitStrideHas(start: int, stop: int, step: int, v: int)
    requires if step == 1 then start <= v < stop else step == -1 && stop < v <= start
    ensures v in RangeValues(start, stop, step)
    decreases if step == 1 then stop - start else start - stop
  {
    if v != start { UnitStrideHas(start + step, stop, step, v); }
  }

  // Nothing in a range lies before its start.
  lemma {:induction false} RangeIsBeyond(start: int, stop: int, step: int, v: int)
    requires if step > 0 then v < start else step < 0 && v > start
    ensures v !in RangeValues(start, stop, step)
    decreases if step > 0 then stop - start else start - stop
  {
    if (step > 0 && start < stop) || (step < 0 && start > stop) { RangeIsBeyond(start + step, stop, step, v); }
  }

  // A range is an arithmetic progression that stops short of its bound and goes on up to it.
  lemma {:induction false} RangeIsProgression(start: int, stop: int, step: int, i: nat)
    requires step != 0
    ensures var vals := RangeValues(start, stop, step);
      var v := start + i * step;
      && (i < |vals| <==> if step > 0 then v < stop else v > stop)
      && (i < |vals| ==> vals[i] == v)
    decreases i
  {
    if i > 0 {
      if (step > 0 && start < stop) || (step < 0 && start > stop) {
        RangeIsProgression(start + step, stop, step, i - 1);
        assert start + i * step == (start + step) + (i - 1) * step;
      } else {
        NoProgression(start, stop, step, i);
      }
    }
  }

  lemma NoProgression(start: int, stop: int, step: int, i: nat)
    requires if step > 0 then start >= stop else step < 0 && start <= stop
    ensures if step > 0 then start + i * step >= stop else start + i * step <= stop
  {
  }

  lemma RangeIsBounded(h: Stmt, v: int)
    requires h.For? && h.step != 0 && v in RangeValues(h.start, h.stop, h.step)
    ensures if h.step > 0 then h.start <= v < h.stop else h.stop < v <= h.start
  {
    var vals := RangeValues(h.start, h.stop, h.step);
    var i: nat :| i < |vals| && vals[i] == v;
    RangeIsProgression(h.start, h.stop, h.step, i);
    if h.step > 0 { assert i * h.step >= 0; } else { assert i * h.step <= 0; }
  }

  lemma LongRangeGoesOn(start: int, stop: int, step: int)
    requires |RangeValues(start, stop, step)| > 1
    ensures if step > 0 then start + step < stop else step < 0 && start + step > stop
  {
    assert |RangeValues(start + step, stop, step)| > 0;
  }

  lemma InsideBounds(h: Stmt, enter: Term, m: Model)
    requires h.For? && h.step != 0 && Holds(SomeIteration(h, enter), m)
    ensures var v := Lookup(m, LoopIndex(h).sym); if h.step > 0 then h.start <= v < h.stop else h.stop < v <= h.start
  {
    var inside, weaker := SomeIteration(h, enter), SomeIteration(h, BoolVal(true));
    assert Holds(inside.l, m) && Holds(inside.r, m) && Holds(inside.l.r, m);
    assert Eval(BoolVal(true), m) == 1;
    assert Holds(weaker.l, m) by { assert weaker.l == AndT(BoolVal(true), inside.l.r); }
    IterationBounds(h, m);
  }

  // The representative iteration admits every index that the loop takes.
  lemma EveryIndexInside(h: Stmt, enter: Term, m: Model)
    requires h.For? && h.step != 0 && Lookup(m, LoopIndex(h).sym) in RangeValues(h.start, h.stop, h.step)
    requires Holds(enter, m)
    ensures Holds(SomeIteration(h, enter), m)
  {
    var v, inside, weaker := Lookup(m, LoopIndex(h).sym), SomeIteration(h, enter), SomeIteration(h, BoolVal(true));
    RangeIsBounded(h, v);
    IterationBounds(h, m);
    assert Holds(weaker.l, m) && Holds(weaker.r, m) && Holds(weaker.l.r, m);
    assert weaker.l.r == inside.l.r && weaker.r == inside.r;
    assert Holds(inside.l, m) by { assert inside.l == AndT(enter, inside.l.r); }
  }
}
