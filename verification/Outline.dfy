/**
  What a walk reports, and in which order, is written in the text: when nothing is passed over, the
  log is the program's outline, the body of an unrolled loop once for every iteration and framed.
 */
module Outline {
  import opened PySubset
  import opened Interp
  import opened Terms
  import opened Walk
  import opened WalkBasics
  import opened AnyStore

  datatype Mark = Arm(arm: Label) | Open | Close | Past(line: int)

  // The marks of a text, and whether every path through it returns.
  datatype Shape = Shape(marks: seq<Mark>, ends: bool)

  function BlockShape(b: Block): Shape
    decreases b, 0
  {
    match b
    case Nil => Shape([], false)
    case Cons(h, t) =>
      var first := StmtShape(h);
      if first.ends then first else Shape(first.marks + BlockShape(t).marks, BlockShape(t).ends)
  }

  function StmtShape(h: Stmt): Shape
    decreases h, 2
  {
    match h
    case Return(_) => Shape([], true)
    case ExprStmt(line, _) => Shape([Past(line)], false)
    case If(_, _, _, _) => IfShape(h, KIf)
    case While(line, _, body) => Shape([Arm(Label(line, KWhile))] + BlockShape(body).marks + [Past(line)], false)
    case For(line, _, start, stop, step, body) =>
      var n := |RangeValues(start, stop, step)|;
      var arm := Arm(Label(line, KFor));
      if n == 0 then Shape([arm], false)
      else if n <= MAX_UNROLL_ITERATIONS then
        Shape([arm, Open] + Repeated(BlockShape(body).marks, n) + [Close], BlockShape(body).ends)
      else Shape([arm] + BlockShape(body).marks, false)
    case _ => Shape([], false)
  }

  function IfShape(h: Stmt, kind: Kind): Shape
    requires h.If?
    decreases h, 1
  {
    var body, orelse := BlockShape(h.body), ElseShape(h.orelse);
    Shape([Arm(Label(h.line, kind))] + body.marks + orelse.marks, body.ends && orelse.ends)
  }

  function ElseShape(orelse: Block): Shape
    decreases orelse, 3
  {
    if IsElif(orelse) then IfShape(orelse.head, KElif)
    else if orelse.Cons? then
      Shape([Arm(Label(orelse.head.line, KElse))] + BlockShape(orelse).marks, BlockShape(orelse).ends)
    else Shape([], false)
  }

  function Repeated(marks: seq<Mark>, n: nat): seq<Mark> {
    if n == 0 then [] else marks + Repeated(marks, n - 1)
  }

  // ---------------------------------------------------------------- the marks of a log

  function MarkOf(it: Item): Mark {
    match it
    case Visit(arm, _, _, _) => Arm(arm)
    case Unsolved(arm, _) => Arm(arm)
    case Push => Open
    case Pop => Close
    case Passed(line) => Past(line)
  }

  function Marks(log: seq<Item>): seq<Mark> {
    seq(|log|, i requires 0 <= i < |log| => MarkOf(log[i]))
  }

  lemma MarksOne(it: Item)
    ensures Marks([it]) == [MarkOf(it)] && Marks([]) == []
  {
  }

  lemma MarksCat(log: seq<Item>, log': seq<Item>)
    ensures Marks(log + log') == Marks(log) + Marks(log')
  {
  }

  lemma MarksAround(pre: Item, log: seq<Item>, post: seq<Item>)
    ensures Marks([pre] + log + post) == [MarkOf(pre)] + Marks(log) + Marks(post)
  {
    MarksOne(pre);
    MarksCat([pre] + log, post);
    MarksCat([pre], log);
  }

  lemma FrameMarks(visit: Item, log: seq<Item>)
    ensures Marks([visit, Push] + log + [Pop]) == [MarkOf(visit), Open] + Marks(log) + [Close]
  {
    MarksAround(Push, log, [Pop]);
    MarksOne(Pop);
    MarksOne(visit);
    MarksCat([visit], [Push] + log + [Pop]);
    assert [visit] + ([Push] + log + [Pop]) == [visit, Push] + log + [Pop];
  }

  predicate Walked(r: Res) {
    !r.out.Fails? && Resolved(r.log)
  }

  predicate Shows(r: Res, shape: Shape) {
    Marks(r.log) == shape.marks && (r.out.Closes? <==> shape.ends)
  }

  lemma {:induction false} BlockOutlined(b: Block, env: Env, st: WState, cond: Term, cons: nat, unres: nat, u: bool)
    requires Walked(WalkBlock(b, env, st, cond, cons, unres, u))
    ensures Shows(WalkBlock(b, env, st, cond, cons, unres, u), BlockShape(b))
    decreases b, 0
  {
    hide Marks;
    MarksOne(Push);
    match b
    case Nil =>
    case Cons(h, t) =>
      if Compound(h) {
        CompoundThenOutlined(h, t, env, st, cond, cons, unres, u);
      } else if h.Assign? {
        var env1 := env[h.x := Entry(Translate(h.e, env).value, st.nextId)];
        BlockOutlined(t, env1, st.(nextId := st.nextId + 1), cond, cons, unres, u);
        assert [] + BlockShape(t).marks == BlockShape(t).marks;
      } else if !h.Return? {
        StepOverOutlined(h, t, env, st, cond, cons, unres, u);
      }
  }

  // `pass` and expression statements.
  lemma {:induction false} StepOverOutlined(h: Stmt, t: Block, env: Env, st: WState, cond: Term, cons: nat, unres: nat,
                                            u: bool)
    requires (h.Pass? || h.ExprStmt?) && Walked(WalkBlock(Cons(h, t), env, st, cond, cons, unres, u))
    ensures Shows(WalkBlock(Cons(h, t), env, st, cond, cons, unres, u), BlockShape(Cons(h, t)))
    decreases Cons(h, t), 0, 0
  {
    hide Marks;
    var whole, r := WalkBlock(Cons(h, t), env, st, cond, cons, unres, u), WalkBlock(t, env, st, cond, cons, unres, u);
    if h.Pass? {
      assert whole == r;
      BlockOutlined(t, env, st, cond, cons, unres, u);
      assert [] + BlockShape(t).marks == BlockShape(t).marks;
    } else {
      assert whole == Prepend([Passed(h.line)], r);
      assert forall it :: it in r.log ==> it in [Passed(h.line)] + r.log;
      BlockOutlined(t, env, st, cond, cons, unres, u);
      MarksOne(Passed(h.line));
      MarksCat([Passed(h.line)], r.log);
    }
  }

  lemma {:induction false} CompoundThenOutlined(h: Stmt, t: Block, env: Env, st: WState, cond: Term, cons: nat,
                                                unres: nat, u: bool)
    requires Compound(h) && Walked(WalkBlock(Cons(h, t), env, st, cond, cons, unres, u))
    ensures Shows(WalkBlock(Cons(h, t), env, st, cond, cons, unres, u), BlockShape(Cons(h, t)))
    decreases Cons(h, t), 0, 0
  {
    hide Marks;
    var whole := WalkBlock(Cons(h, t), env, st, cond, cons, unres, u);
    var r := WalkCompound(h, env, st, cond, cons, Bump(unres, u));
    var bad := Unsolved(Label(h.line, KindOf(h)), false);
    assert r.out.Fails? ==> bad in whole.log;
    assert forall it :: it in r.log ==> it in whole.log;
    CompoundOutlined(h, env, st, cond, cons, Bump(unres, u));
    if r.out.Falls? {
      var rest := WalkBlock(t, r.out.env, r.st, r.out.cont, cons, unres, u || r.out.taint);
      assert whole.log == r.log + rest.log;
      BlockOutlined(t, r.out.env, r.st, r.out.cont, cons, unres, u || r.out.taint);
      MarksCat(r.log, rest.log);
    }
  }

  lemma {:induction false} CompoundOutlined(h: Stmt, env: Env, st: WState, cond: Term, cons: nat, unres: nat)
    requires Compound(h) && Walked(WalkCompound(h, env, st, cond, cons, unres))
    ensures Shows(WalkCompound(h, env, st, cond, cons, unres), StmtShape(h))
    decreases h, 2
  {
    match h
    case If(_, _, _, _) => IfOutlined(h, env, st, cond, cons, unres, KIf);
    case While(_, _, _) => WhileOutlined(h, env, st, cond, cons, unres);
    case For(_, _, _, _, _, _) => ForOutlined(h, env, st, cond, cons, unres);
  }

  lemma {:induction false} IfOutlined(h: Stmt, env: Env, st: WState, cond: Term, cons: nat, unres: nat, kind: Kind)
    requires h.If? && Walked(WalkIf(h, env, st, cond, cons, unres, kind))
    ensures Shows(WalkIf(h, env, st, cond, cons, unres, kind), IfShape(h, kind))
    decreases h, 1
  {
    hide Marks;
    var r := WalkIf(h, env, st, cond, cons, unres, kind);
    var g := Guard(h.test, env).value;
    assert Mentions(g, st.tainted) ==> Unsolved(Label(h.line, kind), true) in r.log;
    var yes, no := AndT(cond, g), AndT(cond, NotT(g));
    var visit := Visit(Label(h.line, kind), yes, cons, unres);
    var rb := WalkBlock(h.body, env, st, yes, cons, unres, false);
    var re := WalkElse(h.orelse, env, rb.st, no, cons, unres);
    assert r == Join(g, env, rb, re, [visit] + rb.log + re.log);
    assert r.log == [visit] + rb.log + re.log;
    BlockOutlined(h.body, env, st, yes, cons, unres, false);
    ElseOutlined(h.orelse, env, rb.st, no, cons, unres);
    MarksAround(visit, rb.log, re.log);
  }

  lemma {:induction false} ElseOutlined(orelse: Block, env: Env, st: WState, cond: Term, cons: nat, unres: nat)
    requires Walked(WalkElse(orelse, env, st, cond, cons, unres))
    ensures Shows(WalkElse(orelse, env, st, cond, cons, unres), ElseShape(orelse))
    decreases orelse, 3
  {
    hide Marks;
    MarksOne(Push);
    if IsElif(orelse) {
      IfOutlined(orelse.head, env, st, cond, cons, unres, KElif);
    } else if orelse.Cons? {
      var r := WalkBlock(orelse, env, st, cond, cons, unres, false);
      var visit := Visit(Label(orelse.head.line, KElse), cond, cons, unres);
      assert forall it :: it in r.log ==> it in [visit] + r.log;
      BlockOutlined(orelse, env, st, cond, cons, unres, false);
      MarksOne(visit);
      MarksCat([visit], r.log);
    }
  }

  lemma {:induction false} WhileOutlined(h: Stmt, env: Env, st: WState, cond: Term, cons: nat, unres: nat)
    requires h.While? && Walked(WalkWhile(h, env, st, cond, cons, unres))
    ensures Shows(WalkWhile(h, env, st, cond, cons, unres), StmtShape(h))
    decreases h, 1
  {
    hide Marks;
    var r := WalkWhile(h, env, st, cond, cons, unres);
    var g := Guard(h.test, env).value;
    assert Mentions(g, st.tainted) ==> Unsolved(Label(h.line, KWhile), true) in r.log;
    var enter := AndT(cond, g);
    var visit := Visit(Label(h.line, KWhile), enter, cons, unres);
    var rb := WalkBlock(h.body, env, st, enter, cons + 1, unres, false);
    assert r == LeaveLoop(h.body, env, cond, g, rb, [visit] + rb.log + [Passed(h.line)]);
    assert r.log == [visit] + rb.log + [Passed(h.line)];
    BlockOutlined(h.body, env, st, enter, cons + 1, unres, false);
    MarksAround(visit, rb.log, [Passed(h.line)]);
    MarksOne(Passed(h.line));
  }

  lemma {:induction false} ForOutlined(h: Stmt, env: Env, st: WState, cond: Term, cons: nat, unres: nat)
    requires h.For? && Walked(WalkFor(h, env, st, cond, cons, unres))
    ensures Shows(WalkFor(h, env, st, cond, cons, unres), StmtShape(h))
    decreases h, 1
  {
    hide Marks;
    var vals := RangeValues(h.start, h.stop, h.step);
    if |vals| > MAX_UNROLL_ITERATIONS {
      AboveCapOutlined(h, env, st, cond, cons, unres);
    } else {
      var r := WalkUnrolled(h, vals, env, st, cond, cons, unres);
      assert WalkFor(h, env, st, cond, cons, unres) == r;
      var visit := Visit(Label(h.line, KFor), AndT(cond, BoolVal(vals != [])), cons, unres);
      MarksOne(visit);
      if vals != [] {
        var rc := WalkCopies(h.body, h.target, vals, env, st, cond, cons, unres, false, false);
        assert r.log == [visit, Push] + rc.log + [Pop];
        CopiesOutlined(h.body, h.target, vals, env, st, cond, cons, unres, false, false);
        FrameMarks(visit, rc.log);
      }
    }
  }

  lemma {:induction false} AboveCapOutlined(h: Stmt, env: Env, st: WState, cond: Term, cons: nat, unres: nat)
    requires h.For? && h.step != 0 && |RangeValues(h.start, h.stop, h.step)| > MAX_UNROLL_ITERATIONS
    requires Walked(WalkForAboveCap(h, env, st, cond, cons, unres))
    ensures Shows(WalkFor(h, env, st, cond, cons, unres), StmtShape(h))
    decreases h, 0
  {
    hide Marks;
    var enter := AndT(cond, BoolVal(Entered(h)));
    var inside := SomeIteration(h, enter);
    var env1, st1 := env[h.target := Entry(LoopIndex(h), st.nextId)], st.(nextId := st.nextId + 1);
    var rb := WalkBlock(h.body, env1, st1, inside, cons + 1, unres, false);
    var visit := Visit(Label(h.line, KFor), enter, cons, unres);
    var r := WalkForAboveCap(h, env, st, cond, cons, unres);
    assert r == LeaveLoop(h.body, env, cond, BoolVal(Entered(h)), rb, [visit] + rb.log);
    assert r.log == [visit] + rb.log;
    BlockOutlined(h.body, env1, st1, inside, cons + 1, unres, false);
    MarksOne(visit);
    MarksCat([visit], rb.log);
  }

  lemma {:induction false} CopiesOutlined(body: Block, x: string, vals: seq<int>, env: Env, st: WState, cond: Term,
                                          cons: nat, unres: nat, u: bool, closed: bool)
    requires Walked(WalkCopies(body, x, vals, env, st, cond, cons, unres, u, closed))
    ensures var r := WalkCopies(body, x, vals, env, st, cond, cons, unres, u, closed);
      && Marks(r.log) == Repeated(BlockShape(body).marks, |vals|)
      && (r.out.Closes? <==> closed || (vals != [] && BlockShape(body).ends))
    decreases body, 1, |vals|
  {
    if vals == [] {
      NoCopiesLeft(body, x, env, st, cond, cons, unres, u, closed);
    } else {
      hide WalkCopies, WalkBlock, BlockShape, Marks;
      var env1, st1 := env[x := Entry(IntVal(vals[0]), st.nextId)], st.(nextId := st.nextId + 1);
      var r := WalkBlock(body, env1, st1, cond, cons, Bump(unres, u), false);
      CopyFirst(body, x, vals, env, st, cond, cons, unres, u, closed);
      var cont := if r.out.Falls? then r.out.cont else BoolVal(false);
      var u', closed' := u || r.out.taint, closed || r.out.Closes?;
      var rest := WalkCopies(body, x, vals[1..], r.out.env, r.st, cont, cons, unres, u', closed');
      PartsWalked(r, rest);
      BlockOutlined(body, env1, st1, cond, cons, Bump(unres, u), false);
      CopiesOutlined(body, x, vals[1..], r.out.env, r.st, cont, cons, unres, u', closed');
      CopyThenOutlined(BlockShape(body), |vals|, r, rest, closed);
    }
  }

  lemma CopyThenOutlined(shape: Shape, n: nat, r: Res, rest: Res, closed: bool)
    requires n > 0 && Shows(r, shape) && Marks(rest.log) == Repeated(shape.marks, n - 1)
    requires rest.out.Closes? <==> closed || r.out.Closes? || (n > 1 && shape.ends)
    ensures Marks(Prepend(r.log, rest).log) == Repeated(shape.marks, n)
    ensures Prepend(r.log, rest).out.Closes? <==> closed || shape.ends
  {
    MarksCat(r.log, rest.log);
    hide Marks;
  }

  lemma PartsWalked(r: Res, rest: Res)
    requires Walked(Prepend(r.log, rest)) && !r.out.Fails?
    ensures Walked(r) && Walked(rest)
  {
    assert forall it :: it in r.log || it in rest.log ==> it in r.log + rest.log;
  }
}
