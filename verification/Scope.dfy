/** What the text of a program bounds: the lines a run can name and the variables it can bind. */
module Scope {
  import opened PySubset
  import opened Interp

  // The lines of a block's statements, at any depth. An `else` arm is named by its first statement.
  function Lines(b: Block): set<int>
    decreases b, 0
  {
    if b.Nil? then {} else StmtLines(b.head) + Lines(b.tail)
  }

  function StmtLines(h: Stmt): set<int>
    decreases h, 1
  {
    {h.line} + Inner(h)
  }

  // The lines inside a statement.
  function Inner(h: Stmt): set<int>
    decreases h, 0
  {
    match h
    case If(_, _, body, orelse) => Lines(body) + Lines(orelse)
    case While(_, _, body) => Lines(body)
    case For(_, _, _, _, _, body) => Lines(body)
    case _ => {}
  }

  // The variables that a block may bind, loop targets included.
  function Binds(b: Block): set<string>
    decreases b, 0
  {
    if b.Nil? then {} else StmtBinds(b.head) + Binds(b.tail)
  }

  function StmtBinds(h: Stmt): set<string>
    decreases h, 1
  {
    match h
    case Assign(_, x, _) => {x}
    case If(_, _, body, orelse) => Binds(body) + Binds(orelse)
    case While(_, _, body) => Binds(body)
    case For(_, x, _, _, _, body) => {x} + Binds(body)
    case _ => {}
  }

  // The statement occurs in the block, at any depth.
  predicate Occurs(s: Stmt, b: Block)
    decreases b, 0
  {
    b.Cons? && (s == b.head || Inside(s, b.head) || Occurs(s, b.tail))
  }

  predicate Inside(s: Stmt, h: Stmt)
    decreases h, 0
  {
    match h
    case If(_, _, body, orelse) => Occurs(s, body) || Occurs(s, orelse)
    case While(_, _, body) => Occurs(s, body)
    case For(_, _, _, _, _, body) => Occurs(s, body)
    case _ => false
  }

  // The scan for a `return` finds one if and only if one occurs.
  lemma {:induction false} ReturnIsFound(b: Block)
    ensures HasReturn(b) <==> exists s: Stmt :: s.Return? && Occurs(s, b)
    decreases b, 0
  {
    if b.Cons? {
      ReturnIsFound(b.tail);
      ReturnIsFoundInside(b.head);
      assert b.head.Return? ==> Occurs(b.head, b);
      assert forall s :: Inside(s, b.head) || Occurs(s, b.tail) ==> Occurs(s, b);
    }
  }

  lemma {:induction false} ReturnIsFoundInside(h: Stmt)
    ensures StmtHasReturn(h) <==> h.Return? || exists s: Stmt :: s.Return? && Inside(s, h)
    decreases h, 0
  {
    match h
    case If(_, _, body, orelse) => ReturnIsFound(body); ReturnIsFound(orelse);
    case While(_, _, body) => ReturnIsFound(body);
    case For(_, _, _, _, _, body) => ReturnIsFound(body);
    case _ =>
  }

  predicate WhileFree(b: Block)
    decreases b, 0
  {
    b.Cons? ==> StmtWhileFree(b.head) && WhileFree(b.tail)
  }

  predicate StmtWhileFree(s: Stmt)
    decreases s, 1
  {
    match s
    case If(_, _, body, orelse) => WhileFree(body) && WhileFree(orelse)
    case While(_, _, _) => false
    case For(_, _, _, _, _, body) => WhileFree(body)
    case _ => true
  }

  // ---------------------------------------------------------------- lines

  // Every arm that the run enters, and the place where it stops short, is on one of the lines.
  predicate Stays(run: Run, lines: set<int>) {
    && (forall l :: l in run.trace ==> l.line in lines)
    && (run.status.Stuck? ==> run.status.line in lines)
  }

  lemma {:induction false} BlockStays(b: Block, s: Store, fuel: nat, lines: set<int>)
    requires Lines(b) <= lines
    ensures Stays(ExecBlock(b, s, fuel), lines)
    decreases fuel, b, 0
  {
    if b.Cons? {
      StmtStays(b.head, s, fuel, lines);
      var e := ExecStmt(b.head, s, fuel);
      if e.status.Fell? { BlockStays(b.tail, e.status.store, fuel, lines); }
    }
  }

  lemma {:induction false} StmtStays(h: Stmt, s: Store, fuel: nat, lines: set<int>)
    requires StmtLines(h) <= lines
    ensures Stays(ExecStmt(h, s, fuel), lines)
    ensures h.While? ==> Stays(ExecWhile(h, s, fuel), lines)
    decreases fuel, h, 2
  {
    match h
    case If(_, _, _, _) => IfStays(h, s, fuel, KIf, lines);
    case While(_, _, body) =>
      if fuel > 0 {
        BlockStays(body, s, fuel, lines);
        var e := ExecBlock(body, s, fuel);
        if e.status.Fell? { StmtStays(h, e.status.store, fuel - 1, lines); }
      }
    case For(_, x, start, stop, step, body) =>
      CopiesStay(body, x, RangeValues(start, stop, step), s, fuel, lines);
    case _ =>
  }

  lemma {:induction false} IfStays(h: Stmt, s: Store, fuel: nat, kind: Kind, lines: set<int>)
    requires h.If? && StmtLines(h) <= lines
    ensures Stays(ExecIf(h, s, fuel, kind), lines)
    decreases fuel, h, 1
  {
    BlockStays(h.body, s, fuel, lines);
    ElseStays(h.orelse, s, fuel, lines);
  }

  lemma {:induction false} ElseStays(orelse: Block, s: Store, fuel: nat, lines: set<int>)
    requires Lines(orelse) <= lines
    ensures Stays(ExecElse(orelse, s, fuel), lines)
    decreases fuel, orelse, 3
  {
    if IsElif(orelse) {
      IfStays(orelse.head, s, fuel, KElif, lines);
    } else {
      BlockStays(orelse, s, fuel, lines);
    }
  }

  lemma {:induction false} CopiesStay(body: Block, x: string, vals: seq<int>, s: Store, fuel: nat, lines: set<int>)
    requires Lines(body) <= lines
    ensures Stays(ExecCopies(body, x, vals, s, fuel), lines)
    decreases fuel, body, 1, |vals|
  {
    if vals != [] {
      BlockStays(body, s[x := vals[0]], fuel, lines);
      var e := ExecBlock(body, s[x := vals[0]], fuel);
      if e.status.Fell? { CopiesStay(body, x, vals[1..], e.status.store, fuel, lines); }
    }
  }

  // ---------------------------------------------------------------- variables

  // Whatever ran, every variable outside `bound` has kept its value.
  predicate Untouched(bound: set<string>, s: Store, run: Run) {
    run.status.Fell? ==> forall x :: x in s ==> x in run.status.store && (x in bound || run.status.store[x] == s[x])
  }

  lemma {:induction false} BlockUntouched(b: Block, s: Store, fuel: nat, bound: set<string>)
    requires Binds(b) <= bound
    ensures Untouched(bound, s, ExecBlock(b, s, fuel))
    decreases fuel, b, 0
  {
    if b.Cons? {
      StmtUntouched(b.head, s, fuel, bound);
      var e := ExecStmt(b.head, s, fuel);
      if e.status.Fell? { BlockUntouched(b.tail, e.status.store, fuel, bound); }
    }
  }

  lemma {:induction false} StmtUntouched(h: Stmt, s: Store, fuel: nat, bound: set<string>)
    requires StmtBinds(h) <= bound
    ensures Untouched(bound, s, ExecStmt(h, s, fuel))
    ensures h.If? ==> Untouched(bound, s, ExecIf(h, s, fuel, KElif))
    ensures h.While? ==> Untouched(bound, s, ExecWhile(h, s, fuel))
    decreases fuel, h, 2
  {
    match h
    case If(_, _, _, _) =>
      IfUntouched(h, s, fuel, KIf, bound);
      IfUntouched(h, s, fuel, KElif, bound);
    case While(_, _, body) =>
      if fuel > 0 {
        BlockUntouched(body, s, fuel, bound);
        var e := ExecBlock(body, s, fuel);
        if e.status.Fell? { StmtUntouched(h, e.status.store, fuel - 1, bound); }
      }
    case For(_, x, start, stop, step, body) =>
      CopiesUntouched(body, x, RangeValues(start, stop, step), s, fuel, bound);
    case _ =>
  }

  lemma {:induction false} IfUntouched(h: Stmt, s: Store, fuel: nat, kind: Kind, bound: set<string>)
    requires h.If? && StmtBinds(h) <= bound
    ensures Untouched(bound, s, ExecIf(h, s, fuel, kind))
    decreases fuel, h, 1
  {
    BlockUntouched(h.body, s, fuel, bound);
    ElseUntouched(h.orelse, s, fuel, bound);
    assert EvalExpr(h.test, s).Some? && EvalExpr(h.test, s).value == 0
      ==> ExecIf(h, s, fuel, kind) == ExecElse(h.orelse, s, fuel);
  }

  lemma {:induction false} ElseUntouched(orelse: Block, s: Store, fuel: nat, bound: set<string>)
    requires Binds(orelse) <= bound
    ensures Untouched(bound, s, ExecElse(orelse, s, fuel))
    decreases fuel, orelse, 3
  {
    if IsElif(orelse) {
      IfUntouched(orelse.head, s, fuel, KElif, bound);
    } else {
      BlockUntouched(orelse, s, fuel, bound);
    }
  }

  lemma {:induction false} CopiesUntouched(body: Block, x: string, vals: seq<int>, s: Store, fuel: nat,
                                           bound: set<string>)
    requires Binds(body) <= bound && x in bound
    ensures Untouched(bound, s, ExecCopies(body, x, vals, s, fuel))
    decreases fuel, body, 1, |vals|
  {
    if vals != [] {
      BlockUntouched(body, s[x := vals[0]], fuel, bound);
      var e := ExecBlock(body, s[x := vals[0]], fuel);
      if e.status.Fell? { CopiesUntouched(body, x, vals[1..], e.status.store, fuel, bound); }
    }
  }
}
