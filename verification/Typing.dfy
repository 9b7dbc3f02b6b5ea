/**
  When the analysis supports a program: a type system for the subset that knows nothing of terms.
  Every name must be bound on every path that reaches it, and a join must agree on its type.
 */
module Typing {
  import opened Wrappers
  import opened PySubset
  import opened Interp
  import opened Terms
  import opened Walk
  import opened WalkBasics
  import opened AnyStore
  import opened Scope
  import opened Reach
  import opened Verdicts
  import opened ExactTrace

  type Types = map<string, Sort>

  // ---------------------------------------------------------------- expressions

  // An operator on operands of the given type, with its result.
  function Typed(operand: Option<Sort>, expected: Sort, result: Sort): Option<Sort> {
    if operand == Some(expected) then Some(result) else None
  }

  function Typed2(l: Option<Sort>, r: Option<Sort>, expected: Sort, result: Sort): Option<Sort> {
    if l == Some(expected) && r == Some(expected) then Some(result) else None
  }

  function TypeOf(e: Expr, types: Types): Option<Sort> {
    match e
    case Num(_) => Some(IntSort)
    case Boolean(_) => Some(BoolSort)
    case Name(x) => if x in types then Some(types[x]) else None
    case UAdd(a) => TypeOf(a, types)
    case USub(a) => Typed(TypeOf(a, types), IntSort, IntSort)
    case Not(a) => Typed(TypeOf(a, types), BoolSort, BoolSort)
    case Arith(_, a, b) => Typed2(TypeOf(a, types), TypeOf(b, types), IntSort, IntSort)
    case FloorDiv(a, _) => Typed(TypeOf(a, types), IntSort, IntSort)
    case Mod(a, _) => Typed(TypeOf(a, types), IntSort, IntSort)
    case And(a, b) => Typed2(TypeOf(a, types), TypeOf(b, types), BoolSort, BoolSort)
    case Or(a, b) => Typed2(TypeOf(a, types), TypeOf(b, types), BoolSort, BoolSort)
    case Compare(_, a, b) =>
      if TypeOf(a, types).Some? && TypeOf(a, types) == TypeOf(b, types) then Some(BoolSort) else None
    case Abs(a) => Typed(TypeOf(a, types), IntSort, IntSort)
    case Min(a, b) => Typed2(TypeOf(a, types), TypeOf(b, types), IntSort, IntSort)
    case Max(a, b) => Typed2(TypeOf(a, types), TypeOf(b, types), IntSort, IntSort)
  }

  // The environment binds the typed names, each to a term of its type.
  predicate Describes(env: Env, types: Types) {
    env.Keys == types.Keys && forall x :: x in env ==> (IsBool(env[x].term) <==> types[x].BoolSort?)
  }

  predicate HasType(t: Option<Term>, ty: Option<Sort>) {
    (t.Some? <==> ty.Some?) && (t.Some? ==> (IsBool(t.value) <==> ty.value.BoolSort?))
  }

  // An expression translates exactly when it is well typed, to a term of its type.
  lemma {:induction false} TranslatesIffTyped(e: Expr, env: Env, types: Types)
    requires Describes(env, types)
    ensures HasType(Translate(e, env), TypeOf(e, types))
  {
    match e
    case Num(_) =>
    case Boolean(_) =>
    case Name(_) =>
    case UAdd(a) => TranslatesIffTyped(a, env, types);
    case USub(a) => TranslatesIffTyped(a, env, types);
    case Not(a) => TranslatesIffTyped(a, env, types);
    case FloorDiv(a, _) => TranslatesIffTyped(a, env, types);
    case Mod(a, _) => TranslatesIffTyped(a, env, types);
    case Abs(a) => TranslatesIffTyped(a, env, types);
    case _ =>
      TranslatesIffTyped(e.l, env, types);
      TranslatesIffTyped(e.r, env, types);
      BinaryTyped(e, env, types);
  }

  lemma BinaryTyped(e: Expr, env: Env, types: Types)
    requires e.Arith? || e.And? || e.Or? || e.Compare? || e.Min? || e.Max?
    requires HasType(Translate(e.l, env), TypeOf(e.l, types)) && HasType(Translate(e.r, env), TypeOf(e.r, types))
    ensures HasType(Translate(e, env), TypeOf(e, types))
  {
  }

  lemma GuardIffBool(e: Expr, env: Env, types: Types)
    requires Describes(env, types)
    ensures Guard(e, env).Some? <==> TypeOf(e, types) == Some(BoolSort)
  {
    TranslatesIffTyped(e, env, types);
  }

  // ---------------------------------------------------------------- statements

  // The types after a statement, and whether every path through it returns.
  datatype Flow = Flow(types: Types, closes: bool)

  // Only arms that fall through meet; a name stays bound if both bind it, with one type.
  function Meet(before: Types, a: Flow, b: Flow): Option<Flow> {
    if a.closes && b.closes then Some(Flow(before, true))
    else if a.closes then Some(b)
    else if b.closes then Some(a)
    else if Meets(a.types, b.types) then Some(Flow(Common(a.types, b.types), false))
    else None
  }

  predicate Meets(a: Types, b: Types) {
    forall x :: x in a && x in b ==> a[x] == b[x]
  }

  function Common(a: Types, b: Types): Types {
    map x | x in a && x in b :: a[x]
  }

  // After a loop that may run any number of times: the names from before, as the body leaves them.
  function AfterLoop(before: Types, after: Types): Flow {
    Flow(map x | x in before :: if x in after then after[x] else before[x], false)
  }

  // `None` is a type error or a name that may be unbound.
  function TypeBlock(b: Block, types: Types): Option<Flow>
    decreases b, 0
  {
    match b
    case Nil => Some(Flow(types, false))
    case Cons(h, t) =>
      if h.Return? then Some(Flow(types, true))
      else
        var flow := TypeStmt(h, types);
        if flow.None? || flow.value.closes then flow else TypeBlock(t, flow.value.types)
  }

  function TypeStmt(h: Stmt, types: Types): Option<Flow>
    decreases h, 2
  {
    match h
    case Assign(_, x, e) =>
      var ty := TypeOf(e, types);
      if ty.None? then None else Some(Flow(types[x := ty.value], false))
    case If(_, test, body, orelse) => TypeIf(h, types)
    case While(_, test, body) =>
      var flow := TypeBlock(body, types);
      if TypeOf(test, types) != Some(BoolSort) || flow.None? then None else Some(AfterLoop(types, flow.value.types))
    case For(_, x, start, stop, step, body) =>
      var n := |RangeValues(start, stop, step)|;
      if step == 0 then None
      else if n <= MAX_UNROLL_ITERATIONS then TypeCopies(body, x, n, types, false)
      else
        var flow := TypeBlock(body, types[x := IntSort]);
        if flow.None? then None else Some(AfterLoop(types, flow.value.types))
    case _ => Some(Flow(types, false))
  }

  function TypeIf(h: Stmt, types: Types): Option<Flow>
    requires h.If?
    decreases h, 1
  {
    var a := TypeBlock(h.body, types);
    var b := TypeElse(h.orelse, types);
    if TypeOf(h.test, types) != Some(BoolSort) || a.None? || b.None? then None else Meet(types, a.value, b.value)
  }

  function TypeElse(orelse: Block, types: Types): Option<Flow>
    decreases orelse, 3
  {
    if IsElif(orelse) then TypeIf(orelse.head, types) else TypeBlock(orelse, types)
  }

  // The first n iterations, unless one closes the loop; later ones must still be well typed.
  function TypeCopies(body: Block, x: string, n: nat, types: Types, closed: bool): Option<Flow>
    decreases body, 1, n
  {
    if n == 0 then Some(Flow(types, closed))
    else
      var flow := TypeBlock(body, types[x := IntSort]);
      if flow.None? then None else TypeCopies(body, x, n - 1, flow.value.types, closed || flow.value.closes)
  }

  // ---------------------------------------------------------------- typed means supported

  // Supported exactly if typed, and then with the environment that the types describe.
  predicate Supports(r: Res, flow: Option<Flow>) {
    && (flow.Some? <==> !r.out.Fails? && Translated(r.log))
    && (flow.Some? ==> Describes(r.out.env, flow.value.types) && (r.out.Closes? <==> flow.value.closes))
  }

  lemma TaintedOver(arm: Label)
    ensures !NothingTaintedOver([Unsolved(arm, true)])
  {
    assert Unsolved(arm, true) in [Unsolved(arm, true)];
  }

  // A walk that goes on after `log`.
  lemma GoesOn(log: seq<Item>, r: Res, flow: Option<Flow>)
    requires Supports(r, flow) && Translated(log)
    ensures Supports(Prepend(log, r), flow)
  {
    var all := log + r.log;
    assert forall it :: it in all <==> it in log || it in r.log;
  }

  lemma StaysUnsupported(log: seq<Item>, r: Res)
    requires !Translated(log)
    ensures Supports(Prepend(log, r), None)
  {
    var it :| it in log && it.Unsolved? && !it.tainted;
    assert it in log + r.log;
  }

  lemma PartsNotTainted(a: seq<Item>, b: seq<Item>)
    requires NothingTaintedOver(a + b)
    ensures NothingTaintedOver(a) && NothingTaintedOver(b)
  {
    forall it | it in a || it in b ensures it in a + b {
    }
  }

  lemma {:induction false} BlockTyped(b: Block, env: Env, st: WState, cond: Term, cons: nat, unres: nat, u: bool,
                                      types: Types)
    requires Describes(env, types) && Fresh(env, st)
    requires NothingTaintedOver(WalkBlock(b, env, st, cond, cons, unres, u).log)
    ensures Supports(WalkBlock(b, env, st, cond, cons, unres, u), TypeBlock(b, types))
    decreases b, 0
  {
    match b
    case Nil =>
    case Cons(h, t) =>
      if Compound(h) {
        CompoundThenTyped(h, t, env, st, cond, cons, unres, u, types);
      } else if h.Assign? {
        TranslatesIffTyped(h.e, env, types);
        if Translate(h.e, env).Some? {
          var env1 := env[h.x := Entry(Translate(h.e, env).value, st.nextId)];
          BlockTyped(t, env1, st.(nextId := st.nextId + 1), cond, cons, unres, u,
                     types[h.x := TypeOf(h.e, types).value]);
        }
      } else if !h.Return? {
        StepOverTyped(h, t, env, st, cond, cons, unres, u, types);
      }
  }

  // `pass` and expression statements.
  lemma {:induction false} StepOverTyped(h: Stmt, t: Block, env: Env, st: WState, cond: Term, cons: nat, unres: nat,
                                         u: bool, types: Types)
    requires (h.Pass? || h.ExprStmt?) && Describes(env, types) && Fresh(env, st)
    requires NothingTaintedOver(WalkBlock(Cons(h, t), env, st, cond, cons, unres, u).log)
    ensures Supports(WalkBlock(Cons(h, t), env, st, cond, cons, unres, u), TypeBlock(Cons(h, t), types))
    decreases Cons(h, t), 0, 0
  {
    var rest := WalkBlock(t, env, st, cond, cons, unres, u);
    var pre := if h.ExprStmt? then [Passed(h.line)] else [];
    assert Prepend([], rest) == rest;
    assert WalkBlock(Cons(h, t), env, st, cond, cons, unres, u) == Prepend(pre, rest);
    PartsNotTainted(pre, rest.log);
    BlockTyped(t, env, st, cond, cons, unres, u, types);
    GoesOn(pre, rest, TypeBlock(t, types));
  }

  lemma {:induction false} CompoundThenTyped(h: Stmt, t: Block, env: Env, st: WState, cond: Term, cons: nat, unres: nat,
                                             u: bool, types: Types)
    requires Compound(h) && Describes(env, types) && Fresh(env, st)
    requires NothingTaintedOver(WalkBlock(Cons(h, t), env, st, cond, cons, unres, u).log)
    ensures Supports(WalkBlock(Cons(h, t), env, st, cond, cons, unres, u), TypeBlock(Cons(h, t), types))
    decreases Cons(h, t), 0, 0
  {
    var r := WalkCompound(h, env, st, cond, cons, Bump(unres, u));
    var whole := WalkBlock(Cons(h, t), env, st, cond, cons, unres, u);
    CompoundBasics(h, env, st, cond, cons, Bump(unres, u), map[]);
    match r.out
    case Fails =>
      var bad := Unsolved(Label(h.line, KindOf(h)), false);
      var rest := WalkBlock(t, env, r.st, cond, cons, unres, true);
      assert whole == Prepend(r.log + [bad], rest) && bad in r.log + [bad];
      PartsNotTainted(r.log + [bad], rest.log);
      PartsNotTainted(r.log, [bad]);
      CompoundTyped(h, env, st, cond, cons, Bump(unres, u), types);
      StaysUnsupported(r.log + [bad], rest);
    case Closes(_, _) =>
      assert whole.log == r.log;
      CompoundTyped(h, env, st, cond, cons, Bump(unres, u), types);
    case Falls(cont, env', taint) =>
      var rest := WalkBlock(t, env', r.st, cont, cons, unres, u || taint);
      assert whole == Prepend(r.log, rest);
      PartsNotTainted(r.log, rest.log);
      CompoundTyped(h, env, st, cond, cons, Bump(unres, u), types);
      if Translated(r.log) {
        BlockTyped(t, env', r.st, cont, cons, unres, u || taint, TypeStmt(h, types).value.types);
        GoesOn(r.log, rest, TypeBlock(t, TypeStmt(h, types).value.types));
      } else {
        StaysUnsupported(r.log, rest);
      }
  }

  lemma {:induction false} CompoundTyped(h: Stmt, env: Env, st: WState, cond: Term, cons: nat, unres: nat, types: Types)
    requires Compound(h) && Describes(env, types) && Fresh(env, st)
    requires NothingTaintedOver(WalkCompound(h, env, st, cond, cons, unres).log)
    ensures Supports(WalkCompound(h, env, st, cond, cons, unres), TypeStmt(h, types))
    decreases h, 2
  {
    match h
    case If(_, _, _, _) => IfTyped(h, env, st, cond, cons, unres, KIf, types);
    case While(_, _, _) => WhileTyped(h, env, st, cond, cons, unres, types);
    case For(_, _, _, _, _, _) => ForTyped(h, env, st, cond, cons, unres, types);
  }

  // The join refuses exactly what the types refuse.
  lemma JoinTyped(g: Term, env: Env, st: WState, rb: Res, re: Res, log: seq<Item>, types: Types, a: Flow, b: Flow)
    requires Fresh(env, st) && Describes(env, types) && Grown(env, st, rb) && Grown(env, rb.st, re) && Translated(log)
    requires !rb.out.Fails? && Describes(rb.out.env, a.types) && (rb.out.Closes? <==> a.closes)
    requires !re.out.Fails? && Describes(re.out.env, b.types) && (re.out.Closes? <==> b.closes)
    ensures Supports(Join(g, env, rb, re, log), Meet(types, a, b))
  {
    if rb.out.Falls? && re.out.Falls? {
      SameIdSameEntry(env, st, rb, re);
      JoinableIffMeets(rb.out.env, re.out.env, a.types, b.types);
      if Meets(a.types, b.types) { MergeTyped(g, rb.out.env, re.out.env, re.st.nextId, a.types, b.types); }
      BothFallTyped(g, env, rb, re, log, types, a, b);
    }
  }

  lemma BothFallTyped(g: Term, env: Env, rb: Res, re: Res, log: seq<Item>, types: Types, a: Flow, b: Flow)
    requires rb.out.Falls? && re.out.Falls? && !a.closes && !b.closes && Translated(log)
    requires Joinable(rb.out.env, re.out.env) <==> Meets(a.types, b.types)
    requires Meets(a.types, b.types) ==>
               Describes(MergeEnvs(g, rb.out.env, re.out.env, re.st.nextId), Common(a.types, b.types))
    ensures Supports(Join(g, env, rb, re, log), Meet(types, a, b))
  {
    hide Describes, Meets, MergeEnvs, Joinable, Translated, Common;
  }

  lemma SameIdSameEntry(env: Env, st: WState, rb: Res, re: Res)
    requires Fresh(env, st) && Grown(env, st, rb) && Grown(env, rb.st, re) && rb.out.Falls? && re.out.Falls?
    ensures var bt, bf := rb.out.env, re.out.env;
      forall x :: x in bt && x in bf && bt[x].id == bf[x].id ==> bt[x] == bf[x]
  {
  }

  lemma JoinableIffMeets(bt: Env, bf: Env, a: Types, b: Types)
    requires Describes(bt, a) && Describes(bf, b)
    requires forall x :: x in bt && x in bf && bt[x].id == bf[x].id ==> bt[x] == bf[x]
    ensures Joinable(bt, bf) <==> Meets(a, b)
  {
    forall x | x in bt && x in bf ensures (IsBool(bt[x].term) == IsBool(bf[x].term)) <==> a[x] == b[x] {
    }
  }

  lemma MergeTyped(g: Term, bt: Env, bf: Env, id: nat, a: Types, b: Types)
    requires Describes(bt, a) && Describes(bf, b) && Meets(a, b)
    ensures Describes(MergeEnvs(g, bt, bf, id), Common(a, b))
  {
    var env, types := MergeEnvs(g, bt, bf, id), Common(a, b);
    assert env.Keys == types.Keys;
    forall x | x in env ensures IsBool(env[x].term) <==> types[x].BoolSort? {
      assert IsBool(bt[x].term) == IsBool(bf[x].term);
    }
  }

  lemma {:induction false} IfTyped(h: Stmt, env: Env, st: WState, cond: Term, cons: nat, unres: nat, kind: Kind,
                                   types: Types)
    requires h.If? && Describes(env, types) && Fresh(env, st)
    requires NothingTaintedOver(WalkIf(h, env, st, cond, cons, unres, kind).log)
    ensures Supports(WalkIf(h, env, st, cond, cons, unres, kind), TypeIf(h, types))
    decreases h, 1
  {
    GuardIffBool(h.test, env, types);
    var guard := Guard(h.test, env);
    if guard.Some? {
      var g := guard.value;
      TaintedOver(Label(h.line, kind));
      var yes, no := AndT(cond, g), AndT(cond, NotT(g));
      var rb := WalkBlock(h.body, env, st, yes, cons, unres, false);
      var visit := Visit(Label(h.line, kind), yes, cons, unres);
      BlockBasics(h.body, env, st, yes, cons, unres, false, map[]);
      if rb.out.Fails? {
        PartsNotTainted([visit], rb.log);
        BlockTyped(h.body, env, st, yes, cons, unres, false, types);
      } else {
        var re := WalkElse(h.orelse, env, rb.st, no, cons, unres);
        PartsNotTainted([visit] + rb.log, re.log);
        PartsNotTainted([visit], rb.log);
        BlockTyped(h.body, env, st, yes, cons, unres, false, types);
        ElseTyped(h.orelse, env, rb.st, no, cons, unres, types);
        ElseBasics(h.orelse, env, rb.st, no, cons, unres, map[]);
        ArmsTyped(h, env, st, cond, cons, unres, kind, types);
      }
    }
  }

  lemma ArmsTyped(h: Stmt, env: Env, st: WState, cond: Term, cons: nat, unres: nat, kind: Kind, types: Types)
    requires h.If? && Describes(env, types) && Fresh(env, st) && Guard(h.test, env).Some?
    requires !Mentions(Guard(h.test, env).value, st.tainted) && TypeOf(h.test, types) == Some(BoolSort)
    requires var g := Guard(h.test, env).value;
      var rb := WalkBlock(h.body, env, st, AndT(cond, g), cons, unres, false);
      var re := WalkElse(h.orelse, env, rb.st, AndT(cond, NotT(g)), cons, unres);
      && !rb.out.Fails? && Grown(env, st, rb) && Grown(env, rb.st, re)
      && Supports(rb, TypeBlock(h.body, types)) && Supports(re, TypeElse(h.orelse, types))
    ensures Supports(WalkIf(h, env, st, cond, cons, unres, kind), TypeIf(h, types))
  {
    var g := Guard(h.test, env).value;
    var yes, no := AndT(cond, g), AndT(cond, NotT(g));
    var rb := WalkBlock(h.body, env, st, yes, cons, unres, false);
    var re := WalkElse(h.orelse, env, rb.st, no, cons, unres);
    var visit := Visit(Label(h.line, kind), yes, cons, unres);
    var log := [visit] + rb.log + re.log;
    var a, b := TypeBlock(h.body, types), TypeElse(h.orelse, types);
    assert WalkIf(h, env, st, cond, cons, unres, kind) == Join(g, env, rb, re, log);
    assert Translated(log) <==> Translated(rb.log) && Translated(re.log) by {
      assert forall it :: it in log <==> it == visit || it in rb.log || it in re.log;
    }
    assert TypeIf(h, types) == if a.None? || b.None? then None else Meet(types, a.value, b.value);
    if a.Some? && b.Some? {
      JoinTyped(g, env, st, rb, re, log, types, a.value, b.value);
    } else {
      JoinLog(g, env, rb, re, log);
    }
  }

  lemma JoinLog(g: Term, env: Env, rb: Res, re: Res, log: seq<Item>)
    requires !rb.out.Fails?
    ensures Join(g, env, rb, re, log).log == log && (re.out.Fails? ==> Join(g, env, rb, re, log).out.Fails?)
  {
  }

  lemma {:induction false} ElseTyped(orelse: Block, env: Env, st: WState, cond: Term, cons: nat, unres: nat,
                                     types: Types)
    requires Describes(env, types) && Fresh(env, st)
    requires NothingTaintedOver(WalkElse(orelse, env, st, cond, cons, unres).log)
    ensures Supports(WalkElse(orelse, env, st, cond, cons, unres), TypeElse(orelse, types))
    decreases orelse, 3
  {
    if IsElif(orelse) {
      IfTyped(orelse.head, env, st, cond, cons, unres, KElif, types);
    } else if orelse.Cons? {
      var visit := Visit(Label(orelse.head.line, KElse), cond, cons, unres);
      var rb := WalkBlock(orelse, env, st, cond, cons, unres, false);
      PartsNotTainted([visit], rb.log);
      BlockTyped(orelse, env, st, cond, cons, unres, false, types);
      GoesOn([visit], rb, TypeBlock(orelse, types));
    }
  }

  // What an approximated loop leaves has the types of the body's end.
  lemma LeaveTyped(body: Block, env: Env, st: WState, cond: Term, g: Term, rb: Res, log: seq<Item>, types: Types,
                   flow: Option<Flow>)
    requires Describes(env, types) && Fresh(env, st) && Supports(rb, flow)
    requires Translated(log) <==> Translated(rb.log)
    requires !rb.out.Fails? ==> EnvGrown(env, st, rb.out.env, rb.st)
    ensures Supports(LeaveLoop(body, env, cond, g, rb, log),
                     if flow.None? then None else Some(AfterLoop(types, flow.value.types)))
  {
    if flow.Some? {
      var env', types' := TaintEnv(env, rb.out.env, rb.st), AfterLoop(types, flow.value.types).types;
      forall x | x in env ensures IsBool(env'[x].term) <==> types'[x].BoolSort? {
        assert x in rb.out.env && (IsBool(rb.out.env[x].term) <==> flow.value.types[x].BoolSort?);
        if x !in Rebound(env, rb.out.env) { assert rb.out.env[x] == env[x]; }
      }
      assert env'.Keys == env.Keys && types'.Keys == types.Keys;
    }
  }

  lemma {:induction false} WhileTyped(h: Stmt, env: Env, st: WState, cond: Term, cons: nat, unres: nat, types: Types)
    requires h.While? && Describes(env, types) && Fresh(env, st)
    requires NothingTaintedOver(WalkWhile(h, env, st, cond, cons, unres).log)
    ensures Supports(WalkWhile(h, env, st, cond, cons, unres), TypeStmt(h, types))
    decreases h, 1
  {
    GuardIffBool(h.test, env, types);
    var guard := Guard(h.test, env);
    if guard.Some? {
      var g := guard.value;
      var r := WalkWhile(h, env, st, cond, cons, unres);
      TaintedOver(Label(h.line, KWhile));
      var enter := AndT(cond, g);
      var rb := WalkBlock(h.body, env, st, enter, cons + 1, unres, false);
      var visit := Visit(Label(h.line, KWhile), enter, cons, unres);
      var log := [visit] + rb.log + [Passed(h.line)];
      assert r == LeaveLoop(h.body, env, cond, g, rb, log) && r.log == log;
      PartsNotTainted([visit] + rb.log, [Passed(h.line)]);
      PartsNotTainted([visit], rb.log);
      assert forall it :: it in log <==> it == visit || it in rb.log || it == Passed(h.line);
      BlockTyped(h.body, env, st, enter, cons + 1, unres, false, types);
      BlockBasics(h.body, env, st, enter, cons + 1, unres, false, map[]);
      LeaveTyped(h.body, env, st, cond, g, rb, log, types, TypeBlock(h.body, types));
    }
  }

  lemma {:induction false} ForTyped(h: Stmt, env: Env, st: WState, cond: Term, cons: nat, unres: nat, types: Types)
    requires h.For? && Describes(env, types) && Fresh(env, st)
    requires NothingTaintedOver(WalkFor(h, env, st, cond, cons, unres).log)
    ensures Supports(WalkFor(h, env, st, cond, cons, unres), TypeStmt(h, types))
    decreases h, 1
  {
    var vals := RangeValues(h.start, h.stop, h.step);
    if h.step != 0 {
      if |vals| > MAX_UNROLL_ITERATIONS {
        AboveCapTyped(h, env, st, cond, cons, unres, types);
      } else {
        UnrolledTyped(h, vals, env, st, cond, cons, unres, types);
      }
    }
  }

  lemma {:induction false} UnrolledTyped(h: Stmt, vals: seq<int>, env: Env, st: WState, cond: Term, cons: nat,
                                         unres: nat, types: Types)
    requires h.For? && Describes(env, types) && Fresh(env, st)
    requires NothingTaintedOver(WalkUnrolled(h, vals, env, st, cond, cons, unres).log)
    ensures Supports(WalkUnrolled(h, vals, env, st, cond, cons, unres),
                     TypeCopies(h.body, h.target, |vals|, types, false))
    decreases h, 0
  {
    var r := WalkUnrolled(h, vals, env, st, cond, cons, unres);
    var visit := Visit(Label(h.line, KFor), AndT(cond, BoolVal(vals != [])), cons, unres);
    if vals != [] {
      var rc := WalkCopies(h.body, h.target, vals, env, st, cond, cons, unres, false, false);
      assert r.log == [visit, Push] + rc.log + [Pop];
      assert forall it :: it in r.log <==> it == visit || it == Push || it in rc.log || it == Pop;
      CopiesTyped(h.body, h.target, vals, env, st, cond, cons, unres, false, false, types);
    }
  }

  lemma {:induction false} AboveCapTyped(h: Stmt, env: Env, st: WState, cond: Term, cons: nat, unres: nat, types: Types)
    requires h.For? && h.step != 0 && |RangeValues(h.start, h.stop, h.step)| > MAX_UNROLL_ITERATIONS
    requires Describes(env, types) && Fresh(env, st)
    requires NothingTaintedOver(WalkFor(h, env, st, cond, cons, unres).log)
    ensures Supports(WalkFor(h, env, st, cond, cons, unres), TypeStmt(h, types))
    decreases h, 0
  {
    var enter := AndT(cond, BoolVal(Entered(h)));
    var inside := SomeIteration(h, enter);
    var env1, st1 := env[h.target := Entry(LoopIndex(h), st.nextId)], st.(nextId := st.nextId + 1);
    var types1 := types[h.target := IntSort];
    var rb := WalkBlock(h.body, env1, st1, inside, cons + 1, unres, false);
    var visit := Visit(Label(h.line, KFor), enter, cons, unres);
    var log := [visit] + rb.log;
    assert WalkFor(h, env, st, cond, cons, unres) == WalkForAboveCap(h, env, st, cond, cons, unres)
        == LeaveLoop(h.body, env, cond, BoolVal(Entered(h)), rb, log);
    assert WalkFor(h, env, st, cond, cons, unres).log == log;
    PartsNotTainted([visit], rb.log);
    assert forall it :: it in log <==> it == visit || it in rb.log;
    assert Describes(env1, types1);
    BlockTyped(h.body, env1, st1, inside, cons + 1, unres, false, types1);
    BlockBasics(h.body, env1, st1, inside, cons + 1, unres, false, map[]);
    LeaveTyped(h.body, env, st, cond, BoolVal(Entered(h)), rb, log, types, TypeBlock(h.body, types1));
  }

  lemma {:induction false} CopiesTyped(body: Block, x: string, vals: seq<int>, env: Env, st: WState, cond: Term,
                                       cons: nat, unres: nat, u: bool, closed: bool, types: Types)
    requires Describes(env, types) && Fresh(env, st)
    requires NothingTaintedOver(WalkCopies(body, x, vals, env, st, cond, cons, unres, u, closed).log)
    ensures Supports(WalkCopies(body, x, vals, env, st, cond, cons, unres, u, closed),
                     TypeCopies(body, x, |vals|, types, closed))
    decreases body, 1, |vals|
  {
    if vals == [] {
      NoCopiesLeft(body, x, env, st, cond, cons, unres, u, closed);
    } else {
      hide WalkBlock, WalkCopies, TypeBlock, TypeCopies, NothingTaintedOver, Supports;
      var env1, st1 := env[x := Entry(IntVal(vals[0]), st.nextId)], st.(nextId := st.nextId + 1);
      var types1 := types[x := IntSort];
      var r := WalkBlock(body, env1, st1, cond, cons, Bump(unres, u), false);
      CopyFirst(body, x, vals, env, st, cond, cons, unres, u, closed);
      BlockBasics(body, env1, st1, cond, cons, Bump(unres, u), false, map[]);
      if r.out.Fails? {
        BlockTyped(body, env1, st1, cond, cons, Bump(unres, u), false, types1);
        CopyFailed(body, x, |vals|, types, closed, r);
      } else {
        var cont := if r.out.Falls? then r.out.cont else BoolVal(false);
        var u', closed' := u || r.out.taint, closed || r.out.Closes?;
        var rest := WalkCopies(body, x, vals[1..], r.out.env, r.st, cont, cons, unres, u', closed');
        PartsNotTainted(r.log, rest.log);
        BlockTyped(body, env1, st1, cond, cons, Bump(unres, u), false, types1);
        if TypeBlock(body, types1).Some? {
          CopyDescribes(r, TypeBlock(body, types1));
          CopiesTyped(body, x, vals[1..], r.out.env, r.st, cont, cons, unres, u', closed',
                      TypeBlock(body, types1).value.types);
        }
        CopyThenTyped(body, x, |vals|, types, closed, r, rest);
      }
    }
  }

  lemma CopyDescribes(r: Res, flow: Option<Flow>)
    requires Supports(r, flow) && flow.Some?
    ensures !r.out.Fails? && Describes(r.out.env, flow.value.types)
  {
  }

  lemma CopyFailed(body: Block, x: string, n: nat, types: Types, closed: bool, r: Res)
    requires n > 0 && r.out.Fails? && Supports(r, TypeBlock(body, types[x := IntSort]))
    ensures Supports(r, TypeCopies(body, x, n, types, closed))
  {
  }

  lemma CopyThenTyped(body: Block, x: string, n: nat, types: Types, closed: bool, r: Res, rest: Res)
    requires n > 0 && !r.out.Fails?
    requires Supports(r, TypeBlock(body, types[x := IntSort]))
    requires TypeBlock(body, types[x := IntSort]).Some? ==>
               Supports(rest, TypeCopies(body, x, n - 1, TypeBlock(body, types[x := IntSort]).value.types,
                                         closed || r.out.Closes?))
    ensures Supports(Prepend(r.log, rest), TypeCopies(body, x, n, types, closed))
  {
    var flow := TypeBlock(body, types[x := IntSort]);
    if flow.None? {
      StaysUnsupported(r.log, rest);
    } else {
      GoesOn(r.log, rest, TypeCopies(body, x, n - 1, flow.value.types, closed || r.out.Closes?));
    }
  }

  // ---------------------------------------------------------------- programs

  // A program in which no guard is passed over for taint is accepted and `supported` exactly when it
  // is well typed and every name is bound where it is read.
  lemma SupportedIffTyped(params: Params, body: Block)
    requires NothingTaintedOver(WalkProgram(params, body).log)
    ensures !WalkProgram(params, body).out.Fails? && Translated(WalkProgram(params, body).log)
       <==> TypeBlock(body, params).Some?
  {
    BlockTyped(body, ParamEnv(params), InitialState(), BoolVal(true), 0, 0, false, params);
  }

  // Every loop unrolled: `supported` means well typed, and then nothing is passed over.
  lemma UnrolledSupportedIffTyped(params: Params, body: Block)
    requires WhileFree(body) && WithinCap(body)
    ensures !WalkProgram(params, body).out.Fails? && Translated(WalkProgram(params, body).log)
       <==> TypeBlock(body, params).Some?
    ensures TypeBlock(body, params).Some? ==> Resolved(WalkProgram(params, body).log)
  {
    NothingTainted(body, ParamEnv(params), InitialState(), BoolVal(true), 0, 0, false);
    SupportedIffTyped(params, body);
  }

  // Only an assignment outside every `if` and loop can have the program refused.
  predicate Assigns(b: Block) {
    b.Cons? && (b.head.Assign? || Assigns(b.tail))
  }

  lemma {:induction false} RefusedForAssignment(b: Block, env: Env, st: WState, cond: Term, cons: nat, unres: nat,
                                                u: bool)
    ensures WalkBlock(b, env, st, cond, cons, unres, u).out.Fails? ==> Assigns(b)
    decreases b
  {
    match b
    case Nil =>
    case Cons(h, t) =>
      if Compound(h) {
        var r := WalkCompound(h, env, st, cond, cons, Bump(unres, u));
        match r.out
        case Fails => RefusedForAssignment(t, env, r.st, cond, cons, unres, true);
        case Closes(_, _) =>
        case Falls(cont, env', taint) => RefusedForAssignment(t, env', r.st, cont, cons, unres, u || taint);
      } else if !h.Assign? && !h.Return? {
        RefusedForAssignment(t, env, st, cond, cons, unres, u);
      }
  }
}
