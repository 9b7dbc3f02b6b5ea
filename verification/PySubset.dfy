/**
  The Python subset that the branch analysis accepts, restricted to `int` and `bool`.

  `bool` is a subclass of `int` in Python and nothing in the subset can tell `True` from `1`,
  so a run-time value is an `int`, with `True` as 1 and `False` as 0.
 */
module PySubset {

  // Divisors of `//` and `%` are positive integer literals; the scan that runs before the analysis refuses the rest.
  type pos = k: int | 0 < k witness 1

  datatype ArithOp = Add | Sub | Mul

  datatype CmpOp = Eq | Ne | Lt | Le | Gt | Ge

  // An n-ary `and`, `or`, `min` or `max` is written as nested binary ones.
  datatype Expr =
    | Num(n: int)
    | Boolean(b: bool)
    | Name(id: string)
    | UAdd(e: Expr)
    | USub(e: Expr)
    | Not(e: Expr)
    | Arith(aop: ArithOp, l: Expr, r: Expr)
    | FloorDiv(l: Expr, k: pos)
    | Mod(l: Expr, k: pos)
    | And(l: Expr, r: Expr)
    | Or(l: Expr, r: Expr)
    | Compare(cop: CmpOp, l: Expr, r: Expr)
    | Abs(e: Expr)
    | Min(l: Expr, r: Expr)
    | Max(l: Expr, r: Expr)

  // `elif` is a single `If` in `orelse`, as in Python's own syntax tree.
  datatype Stmt =
    | Pass(line: int)
    | ExprStmt(line: int, e: Expr)
    | Assign(line: int, x: string, e: Expr)
    | Return(line: int)
    | If(line: int, test: Expr, body: Block, orelse: Block)
    | While(line: int, test: Expr, body: Block)
    | For(line: int, target: string, start: int, stop: int, step: int, body: Block)

  datatype Block = Nil | Cons(head: Stmt, tail: Block)

  function One(a: Stmt): Block { Cons(a, Nil) }

  function Two(a: Stmt, b: Stmt): Block { Cons(a, One(b)) }

  predicate IsElif(orelse: Block) {
    orelse.Cons? && orelse.tail.Nil? && orelse.head.If?
  }

  // The values of `range(start, stop, step)`; a zero step is handled by the callers.
  function RangeValues(start: int, stop: int, step: int): seq<int>
    decreases if step > 0 then stop - start else start - stop
  {
    if (step > 0 && start < stop) || (step < 0 && start > stop) then
      [start] + RangeValues(start + step, stop, step)
    else
      []
  }

  function ApplyArith(op: ArithOp, a: int, b: int): int {
    match op
    case Add => a + b
    case Sub => a - b
    case Mul => a * b
  }

  function ApplyCmp(op: CmpOp, a: int, b: int): bool {
    match op
    case Eq => a == b
    case Ne => a != b
    case Lt => a < b
    case Le => a <= b
    case Gt => a > b
    case Ge => a >= b
  }

  function AsInt(b: bool): int {
    if b then 1 else 0
  }

  // Whether a `return` appears anywhere in a statement, at any depth.
  predicate HasReturn(b: Block)
    decreases b, 0
  {
    b.Cons? && (StmtHasReturn(b.head) || HasReturn(b.tail))
  }

  predicate StmtHasReturn(s: Stmt)
    decreases s, 1
  {
    match s
    case Return(_) => true
    case If(_, _, body, orelse) => HasReturn(body) || HasReturn(orelse)
    case While(_, _, body) => HasReturn(body)
    case For(_, _, _, _, _, body) => HasReturn(body)
    case _ => false
  }
}
