/**
  The symbolic walk: expressions to terms, statements to path conditions.

  Every function returns what it computed and a log of what it reported on the way, in order.
  The log is independent of the solver, which is consulted when the log is replayed.
 */
module Walk {
  import opened Wrappers
  import opened PySubset
  import opened Interp
  import opened Terms

  const MAX_UNROLL_ITERATIONS := 32

  // A binding. `id` is the identity of the tuple that holds it: rebinding a variable, even to
  // an equal term, makes a new tuple, and identity is what the joins and the taint pass compare.
  datatype Entry = Entry(term: Term, id: nat)

  type Env = map<string, Entry>

  // The counters and the tainted names that the walk threads through.
  datatype WState = WState(nextId: nat, taints: nat, tainted: set<string>)

  datatype Item =
    // An arm with its path condition, and how many approximated loops and unresolved
    // closures surround it.
    | Visit(arm: Label, cond: Term, cons: nat, unres: nat)
    // An arm whose guard mentions a tainted symbol, or failed to translate: passed over unseen.
    | Unsolved(arm: Label, tainted: bool)
    // Begin and end of the aggregation frame of an unrolled loop.
    | Push
    | Pop
    // The walk has left the `while`, or stepped over the expression statement, on this line.
    | Passed(line: int)

  datatype Outcome =
    // Falls through under `cont`; `taint` says that an unresolved construct may have returned.
    | Falls(cont: Term, env: Env, taint: bool)
    // Every path returns.
    | Closes(env: Env, taint: bool)
    // A translation error.
    | Fails

  datatype Res = Res(out: Outcome, st: WState, log: seq<Item>)

  // ---------------------------------------------------------------- expressions

  // `None` is a translation error: an undefined name or operands of the wrong type.
  function Translate(e: Expr, env: Env): Option<Term> {
    match e
    case Num(n) => Some(IntVal(n))
    case Boolean(b) => Some(BoolVal(b))
    case Name(x) => if x in env then Some(env[x].term) else None
    case UAdd(a) => Translate(a, env)
    case USub(a) =>
      var t := Translate(a, env);
      if t.None? || IsBool(t.value) then None else Some(NegT(t.value))
    case Not(a) =>
      var t := Translate(a, env);
      if t.None? || !IsBool(t.value) then None else Some(NotT(t.value))
    case Arith(op, a, b) =>
      var t, u := Translate(a, env), Translate(b, env);
      if t.None? || u.None? || IsBool(t.value) || IsBool(u.value) then None
      else Some(ArithT(op, t.value, u.value))
    case FloorDiv(a, k) =>
      var t := Translate(a, env);
      if t.None? || IsBool(t.value) then None else Some(DivT(t.value, k))
    case Mod(a, k) =>
      var t := Translate(a, env);
      if t.None? || IsBool(t.value) then None else Some(ModT(t.value, k))
    case And(a, b) =>
      var t, u := Translate(a, env), Translate(b, env);
      if t.None? || u.None? || !IsBool(t.value) || !IsBool(u.value) then None
      else Some(AndT(t.value, u.value))
    case Or(a, b) =>
      var t, u := Translate(a, env), Translate(b, env);
      if t.None? || u.None? || !IsBool(t.value) || !IsBool(u.value) then None
      else Some(OrT(t.value, u.value))
    case Compare(op, a, b) =>
      var t, u := Translate(a, env), Translate(b, env);
      if t.None? || u.None? || IsBool(t.value) != IsBool(u.value) then None
      else Some(CmpT(op, t.value, u.value))
    case Abs(a) =>
      var t := Translate(a, env);
      if t.None? || IsBool(t.value) then None
      else Some(Ite(CmpT(Ge, t.value, IntVal(0)), t.value, NegT(t.value)))
    case Min(a, b) =>
      var t, u := Translate(a, env), Translate(b, env);
      if t.None? || u.None? || IsBool(t.value) || IsBool(u.value) then None
      else Some(Ite(CmpT(Lt, u.value, t.value), u.value, t.value))
    case Max(a, b) =>
      var t, u := Translate(a, env), Translate(b, env);
      if t.None? || u.None? || IsBool(t.value) || IsBool(u.value) then None
      else Some(Ite(CmpT(Gt, u.value, t.value), u.value, t.value))
  }

  // A guard: an expression that translates to a bool.
  function Guard(e: Expr, env: Env): Option<Term> {
    var t := Translate(e, env);
    if t.None? || !IsBool(t.value) then None else t
  }

  // ---------------------------------------------------------------- environments

  function Decimal(n: nat): string {
    (if n < 10 then "" else Decimal(n / 10)) + ["0123456789"[n % 10]]
  }

  function TaintName(k: nat, hint: string): string {
    "__tainted_" + Decimal(k) + "_" + hint
  }

  function LoopName(line: int, x: string): string {
    "__loop_" + (if line < 0 then "-" + Decimal(-line) else Decimal(line)) + "_" + x
  }

  function SortOf(t: Term): Sort {
    if IsBool(t) then BoolSort else IntSort
  }

  // Two surviving arms can be joined unless a variable holds two types.
  predicate Joinable(bt: Env, bf: Env) {
    forall x :: x in bt && x in bf && bt[x].id != bf[x].id ==> IsBool(bt[x].term) == IsBool(bf[x].term)
  }

  // The environment after a two-way join. A variable bound in one arm only is dropped.
  function MergeEnvs(g: Term, bt: Env, bf: Env, id: nat): Env {
    map x | x in bt && x in bf ::
      if bt[x].id == bf[x].id then bt[x] else Entry(Ite(g, bt[x].term, bf[x].term), id)
  }

  // The variables bound before a loop that its body rebinds.
  function Rebound(env: Env, after: Env): set<string> {
    set x | x in env && x in after && after[x].id != env[x].id
  }

  // After an approximated loop: each rebound variable becomes a fresh, unconstrained symbol.
  function TaintEnv(env: Env, after: Env, st: WState): Env {
    map x | x in env ::
      if x in Rebound(env, after)
      then Entry(Const(Sym(TaintName(st.taints, x), SortOf(after[x].term))), st.nextId)
      else env[x]
  }

  function TaintState(env: Env, after: Env, st: WState): WState {
    WState(st.nextId + 1, st.taints + 1,
           st.tainted + set x | x in Rebound(env, after) :: TaintName(st.taints, x))
  }

  // ---------------------------------------------------------------- statements

  function Prepend(log: seq<Item>, r: Res): Res {
    Res(r.out, r.st, log + r.log)
  }

  function Bump(unres: nat, u: bool): nat {
    if u then unres + 1 else unres
  }

  // `u` says that an earlier statement of this block may have returned, unresolved.
  function WalkBlock(b: Block, env: Env, st: WState, cond: Term, cons: nat, unres: nat, u: bool): Res
    decreases b, 0
  {
    match b
    case Nil => Res(Falls(cond, env, u), st, [])
    case Cons(h, t) =>
      match h
      case Pass(_) => WalkBlock(t, env, st, cond, cons, unres, u)
      case ExprStmt(line, _) => Prepend([Passed(line)], WalkBlock(t, env, st, cond, cons, unres, u))
      case Assign(_, x, e) =>
        var v := Translate(e, env);
        if v.None? then Res(Fails, st, [])
        else WalkBlock(t, env[x := Entry(v.value, st.nextId)], st.(nextId := st.nextId + 1), cond, cons, unres, u)
      case Return(_) => Res(Closes(env, u), st, [])
      case _ =>
        var r := WalkCompound(h, env, st, cond, cons, Bump(unres, u));
        match r.out
        case Fails =>
          Prepend(r.log + [Unsolved(Label(h.line, KindOf(h)), false)],
                  WalkBlock(t, env, r.st, cond, cons, unres, true))
        case Closes(env', _) => Res(Closes(env', u), r.st, r.log)
        case Falls(cont, env', taint) =>
          Prepend(r.log, WalkBlock(t, env', r.st, cont, cons, unres, u || taint))
  }

  predicate Compound(s: Stmt) {
    s.If? || s.While? || s.For?
  }

  function KindOf(s: Stmt): Kind
    requires Compound(s)
  {
    match s
    case If(_, _, _, _) => KIf
    case While(_, _, _) => KWhile
    case For(_, _, _, _, _, _) => KFor
  }

  function WalkCompound(h: Stmt, env: Env, st: WState, cond: Term, cons: nat, unres: nat): Res
    requires Compound(h)
    decreases h, 2
  {
    match h
    case If(_, _, _, _) => WalkIf(h, env, st, cond, cons, unres, KIf)
    case While(_, _, _) => WalkWhile(h, env, st, cond, cons, unres)
    case For(_, _, _, _, _, _) => WalkFor(h, env, st, cond, cons, unres)
  }

  function WalkIf(h: Stmt, env: Env, st: WState, cond: Term, cons: nat, unres: nat, kind: Kind): Res
    requires h.If?
    decreases h, 1
  {
    var g := Guard(h.test, env);
    if g.None? then Res(Fails, st, [])
    else if Mentions(g.value, st.tainted) then
      Res(Falls(cond, env, true), st, [Unsolved(Label(h.line, kind), true)])
    else
      var yes := AndT(cond, g.value);
      var visit := Visit(Label(h.line, kind), yes, cons, unres);
      var rb := WalkBlock(h.body, env, st, yes, cons, unres, false);
      if rb.out.Fails? then Res(Fails, rb.st, [visit] + rb.log)
      else
        var re := WalkElse(h.orelse, env, rb.st, AndT(cond, NotT(g.value)), cons, unres);
        Join(g.value, env, rb, re, [visit] + rb.log + re.log)
  }

  function WalkElse(orelse: Block, env: Env, st: WState, cond: Term, cons: nat, unres: nat): Res
    decreases orelse, 3
  {
    if IsElif(orelse) then WalkIf(orelse.head, env, st, cond, cons, unres, KElif)
    else if orelse.Cons? then
      Prepend([Visit(Label(orelse.head.line, KElse), cond, cons, unres)],
              WalkBlock(orelse, env, st, cond, cons, unres, false))
    else Res(Falls(cond, env, false), st, [])
  }

  // The join point of an if/elif/else; only the arms that fall through contribute.
  function Join(g: Term, env: Env, rb: Res, re: Res, log: seq<Item>): Res
    requires !rb.out.Fails?
  {
    if re.out.Fails? then Res(Fails, re.st, log)
    else if rb.out.Closes? && re.out.Closes? then Res(Closes(env, false), re.st, log)
    else if rb.out.Closes? then Res(re.out, re.st, log)
    else if re.out.Closes? then Res(rb.out, re.st, log)
    else if !Joinable(rb.out.env, re.out.env) then Res(Fails, re.st, log)
    else
      Res(Falls(OrT(rb.out.cont, re.out.cont), MergeEnvs(g, rb.out.env, re.out.env, re.st.nextId),
                rb.out.taint || re.out.taint),
          re.st.(nextId := re.st.nextId + 1), log)
  }

  function WalkFor(h: Stmt, env: Env, st: WState, cond: Term, cons: nat, unres: nat): Res
    requires h.For?
    decreases h, 1
  {
    if h.step == 0 then Res(Fails, st, [])
    else
      var vals := RangeValues(h.start, h.stop, h.step);
      if |vals| <= MAX_UNROLL_ITERATIONS then WalkUnrolled(h, vals, env, st, cond, cons, unres)
      else WalkForAboveCap(h, env, st, cond, cons, unres)
  }

  function WalkUnrolled(h: Stmt, vals: seq<int>, env: Env, st: WState, cond: Term, cons: nat, unres: nat): Res
    requires h.For?
    decreases h, 0
  {
    var visit := Visit(Label(h.line, KFor), AndT(cond, BoolVal(vals != [])), cons, unres);
    if vals == [] then Res(Falls(cond, env, false), st, [visit])
    else
      var r := WalkCopies(h.body, h.target, vals, env, st, cond, cons, unres, false, false);
      Res(r.out, r.st, [visit, Push] + r.log + [Pop])
  }

  // The remaining body copies. Once a copy closes, the later ones are walked under `False`.
  function WalkCopies(body: Block, x: string, vals: seq<int>, env: Env, st: WState, cond: Term, cons: nat, unres: nat,
                      u: bool, closed: bool): Res
    decreases body, 1, |vals|
  {
    if vals == [] then
      Res(if closed then Closes(env, false) else Falls(cond, env, u), st, [])
    else
      var r := WalkBlock(body, env[x := Entry(IntVal(vals[0]), st.nextId)], st.(nextId := st.nextId + 1),
                         cond, cons, Bump(unres, u), false);
      match r.out
      case Fails => r
      case Falls(cont, env', taint) =>
        Prepend(r.log, WalkCopies(body, x, vals[1..], env', r.st, cont, cons, unres, u || taint, closed))
      case Closes(env', taint) =>
        Prepend(r.log, WalkCopies(body, x, vals[1..], env', r.st, BoolVal(false), cons, unres, u || taint, true))
  }

  function WalkWhile(h: Stmt, env: Env, st: WState, cond: Term, cons: nat, unres: nat): Res
    requires h.While?
    decreases h, 1
  {
    var g := Guard(h.test, env);
    if g.None? then Res(Fails, st, [])
    else if Mentions(g.value, st.tainted) then
      Res(Falls(cond, env, true), st, [Unsolved(Label(h.line, KWhile), true)])
    else
      var enter := AndT(cond, g.value);
      var rb := WalkBlock(h.body, env, st, enter, cons + 1, unres, false);
      LeaveLoop(h.body, env, cond, g.value, rb,
                [Visit(Label(h.line, KWhile), enter, cons, unres)] + rb.log + [Passed(h.line)])
  }

  predicate Entered(h: Stmt)
    requires h.For?
  {
    if h.step > 0 then h.start < h.stop else h.start > h.stop
  }

  function LoopIndex(h: Stmt): Term
    requires h.For?
  {
    Const(Sym(LoopName(h.line, h.target), IntSort))
  }

  // The representative iteration: the loop is entered and its index is somewhere in the range.
  function SomeIteration(h: Stmt, enter: Term): Term
    requires h.For?
  {
    var lo := if h.step > 0 then h.start else h.stop + 1;
    var hi := if h.step > 0 then h.stop - 1 else h.start;
    AndT(AndT(enter, CmpT(Ge, LoopIndex(h), IntVal(lo))), CmpT(Le, LoopIndex(h), IntVal(hi)))
  }

  // A `for` above the cap: one representative iteration with an in-range index.
  function WalkForAboveCap(h: Stmt, env: Env, st: WState, cond: Term, cons: nat, unres: nat): Res
    requires h.For?
    decreases h, 0
  {
    var enter := AndT(cond, BoolVal(Entered(h)));
    var rb := WalkBlock(h.body, env[h.target := Entry(LoopIndex(h), st.nextId)], st.(nextId := st.nextId + 1),
                        SomeIteration(h, enter), cons + 1, unres, false);
    LeaveLoop(h.body, env, cond, BoolVal(Entered(h)), rb,
              [Visit(Label(h.line, KFor), enter, cons, unres)] + rb.log)
  }

  // What an approximated loop hands to the code after it.
  function LeaveLoop(body: Block, env: Env, cond: Term, guard: Term, rb: Res, log: seq<Item>): Res {
    if rb.out.Fails? then Res(Fails, rb.st, log)
    else
      var env' := TaintEnv(env, rb.out.env, rb.st);
      var st' := TaintState(env, rb.out.env, rb.st);
      if rb.out.Closes? then Res(Falls(AndT(cond, NotT(guard)), env', rb.out.taint), st', log)
      else if HasReturn(body) then Res(Falls(rb.out.cont, env', true), st', log)
      else Res(Falls(cond, env', rb.out.taint), st', log)
  }

  // ---------------------------------------------------------------- the whole analysis

  type Params = map<string, Sort>

  function ParamEnv(params: Params): Env {
    map x | x in params :: Entry(Const(Sym(x, params[x])), 0)
  }

  function InitialState(): WState {
    WState(1, 1, {})
  }

  function WalkProgram(params: Params, body: Block): Res {
    WalkBlock(body, ParamEnv(params), InitialState(), BoolVal(true), 0, 0, false)
  }
}
