/** Python's own meaning of the subset: a concrete interpreter that records the arms it enters. */
module Interp {
  import opened Wrappers
  import opened PySubset

  type Store = map<string, int>

  datatype Kind = KIf | KElif | KElse | KWhile | KFor

  // How a report names an arm.
  datatype Label = Label(line: int, kind: Kind)

  // `Stuck` names the line that the run never got past: an expression that raised, or a
  // `while` whose iterations outlast the fuel.
  datatype Status = Fell(store: Store) | Returned | Stuck(line: int)

  datatype Run = Run(trace: seq<Label>, status: Status)

  // `None` is a raised exception (an unbound name).
  function EvalExpr(e: Expr, s: Store): Option<int> {
    match e
    case Num(n) => Some(n)
    case Boolean(b) => Some(AsInt(b))
    case Name(x) => if x in s then Some(s[x]) else None
    case UAdd(a) => EvalExpr(a, s)
    case USub(a) => (match EvalExpr(a, s) case None => None case Some(v) => Some(-v))
    case Not(a) => (match EvalExpr(a, s) case None => None case Some(v) => Some(AsInt(v == 0)))
    case Arith(op, a, b) =>
      var u, v := EvalExpr(a, s), EvalExpr(b, s);
      if u.None? || v.None? then None else Some(ApplyArith(op, u.value, v.value))
    case FloorDiv(a, k) => (match EvalExpr(a, s) case None => None case Some(v) => Some(v / k))
    case Mod(a, k) => (match EvalExpr(a, s) case None => None case Some(v) => Some(v % k))
    case And(a, b) =>
      (match EvalExpr(a, s) case None => None case Some(v) => if v == 0 then Some(v) else EvalExpr(b, s))
    case Or(a, b) =>
      (match EvalExpr(a, s) case None => None case Some(v) => if v != 0 then Some(v) else EvalExpr(b, s))
    case Compare(op, a, b) =>
      var u, v := EvalExpr(a, s), EvalExpr(b, s);
      if u.None? || v.None? then None else Some(AsInt(ApplyCmp(op, u.value, v.value)))
    case Abs(a) => (match EvalExpr(a, s) case None => None case Some(v) => Some(if v >= 0 then v else -v))
    case Min(a, b) =>
      var u, v := EvalExpr(a, s), EvalExpr(b, s);
      if u.None? || v.None? then None else Some(if v.value < u.value then v.value else u.value)
    case Max(a, b) =>
      var u, v := EvalExpr(a, s), EvalExpr(b, s);
      if u.None? || v.None? then None else Some(if v.value > u.value then v.value else u.value)
  }

  function After(trace: seq<Label>, r: Run): Run {
    Run(trace + r.trace, r.status)
  }

  // `fuel` bounds the iterations of each `while`.
  function ExecBlock(b: Block, s: Store, fuel: nat): Run
    decreases fuel, b, 0
  {
    match b
    case Nil => Run([], Fell(s))
    case Cons(h, t) =>
      var r := ExecStmt(h, s, fuel);
      if r.status.Fell? then After(r.trace, ExecBlock(t, r.status.store, fuel)) else r
  }

  function ExecStmt(st: Stmt, s: Store, fuel: nat): Run
    decreases fuel, st, 2
  {
    match st
    case Pass(_) => Run([], Fell(s))
    case ExprStmt(line, e) =>
      if EvalExpr(e, s).None? then Run([], Stuck(line)) else Run([], Fell(s))
    case Assign(line, x, e) =>
      (match EvalExpr(e, s)
       case None => Run([], Stuck(line))
       case Some(v) => Run([], Fell(s[x := v])))
    case Return(_) => Run([], Returned)
    case If(_, _, _, _) => ExecIf(st, s, fuel, KIf)
    case While(_, _, _) => ExecWhile(st, s, fuel)
    case For(line, x, start, stop, step, body) =>
      if step == 0 then Run([], Stuck(line))
      else
        var vals := RangeValues(start, stop, step);
        if vals == [] then Run([], Fell(s))
        else After([Label(line, KFor)], ExecCopies(body, x, vals, s, fuel))
  }

  function ExecIf(st: Stmt, s: Store, fuel: nat, kind: Kind): Run
    requires st.If?
    decreases fuel, st, 1
  {
    match EvalExpr(st.test, s)
    case None => Run([], Stuck(st.line))
    case Some(v) =>
      if v != 0 then
        After([Label(st.line, kind)], ExecBlock(st.body, s, fuel))
      else
        ExecElse(st.orelse, s, fuel)
  }

  function ExecElse(orelse: Block, s: Store, fuel: nat): Run
    decreases fuel, orelse, 3
  {
    if IsElif(orelse) then ExecIf(orelse.head, s, fuel, KElif)
    else if orelse.Cons? then After([Label(orelse.head.line, KElse)], ExecBlock(orelse, s, fuel))
    else Run([], Fell(s))
  }

  function ExecWhile(st: Stmt, s: Store, fuel: nat): Run
    requires st.While?
    decreases fuel, st, 1
  {
    match EvalExpr(st.test, s)
    case None => Run([], Stuck(st.line))
    case Some(v) =>
      if v == 0 then Run([], Fell(s))
      else if fuel == 0 then Run([], Stuck(st.line))
      else
        var r := After([Label(st.line, KWhile)], ExecBlock(st.body, s, fuel));
        if r.status.Fell? then After(r.trace, ExecWhile(st, r.status.store, fuel - 1)) else r
  }

  // The iterations of a `for` over the given values.
  function ExecCopies(body: Block, x: string, vals: seq<int>, s: Store, fuel: nat): Run
    decreases fuel, body, 1, |vals|
  {
    if vals == [] then Run([], Fell(s))
    else
      var r := ExecBlock(body, s[x := vals[0]], fuel);
      if r.status.Fell? then After(r.trace, ExecCopies(body, x, vals[1..], r.status.store, fuel)) else r
  }

  lemma NameOnly(h: Stmt, s: Store, fuel: nat, kind: Kind)
    requires h.If?
    ensures ExecIf(h, s, fuel, kind).status == ExecIf(h, s, fuel, KIf).status
  {
  }

  // `elif` is only another name: an `else` arm does what its block does.
  lemma ElseRunsItsBlock(orelse: Block, s: Store, fuel: nat)
    ensures ExecElse(orelse, s, fuel).status == ExecBlock(orelse, s, fuel).status
  {
    if IsElif(orelse) {
      var e := ExecStmt(orelse.head, s, fuel);
      NameOnly(orelse.head, s, fuel, KElif);
      if e.status.Fell? { assert ExecBlock(orelse.tail, e.status.store, fuel) == Run([], e.status); }
    }
  }
}
