/** The solver's terms, their meaning, and the symbols they mention. */
module Terms {
  import opened PySubset

  datatype Sort = IntSort | BoolSort

  // Two constants of the solver are the same when both name and sort agree.
  datatype Sym = Sym(name: string, sort: Sort)

  datatype Term =
    | IntVal(n: int)
    | BoolVal(b: bool)
    | Const(sym: Sym)
    | NegT(t: Term)
    | NotT(t: Term)
    | ArithT(aop: ArithOp, l: Term, r: Term)
    | DivT(l: Term, k: pos)
    | ModT(l: Term, k: pos)
    | AndT(l: Term, r: Term)
    | OrT(l: Term, r: Term)
    | CmpT(cop: CmpOp, l: Term, r: Term)
    | Ite(c: Term, t: Term, e: Term)

  // A model need not list every symbol; a missing one reads as 0 or False.
  type Model = map<Sym, int>

  function Lookup(m: Model, s: Sym): int {
    var v := if s in m then m[s] else 0;
    if s.sort.BoolSort? then AsInt(v != 0) else v
  }

  function Eval(t: Term, m: Model): int {
    match t
    case IntVal(n) => n
    case BoolVal(b) => AsInt(b)
    case Const(s) => Lookup(m, s)
    case NegT(a) => -Eval(a, m)
    case NotT(a) => AsInt(Eval(a, m) == 0)
    case ArithT(op, a, b) => ApplyArith(op, Eval(a, m), Eval(b, m))
    case DivT(a, k) => Eval(a, m) / k
    case ModT(a, k) => Eval(a, m) % k
    case AndT(a, b) => AsInt(Eval(a, m) != 0 && Eval(b, m) != 0)
    case OrT(a, b) => AsInt(Eval(a, m) != 0 || Eval(b, m) != 0)
    case CmpT(op, a, b) => AsInt(ApplyCmp(op, Eval(a, m), Eval(b, m)))
    case Ite(c, a, b) => if Eval(c, m) != 0 then Eval(a, m) else Eval(b, m)
  }

  predicate Holds(t: Term, m: Model) {
    Eval(t, m) != 0
  }

  predicate IsBool(t: Term) {
    match t
    case BoolVal(_) => true
    case Const(s) => s.sort.BoolSort?
    case NotT(_) => true
    case AndT(_, _) => true
    case OrT(_, _) => true
    case CmpT(_, _, _) => true
    case Ite(_, a, b) => IsBool(a) && IsBool(b)
    case _ => false
  }

  lemma {:induction false} BoolTermsAreBits(t: Term, m: Model)
    requires IsBool(t)
    ensures Eval(t, m) == 0 || Eval(t, m) == 1
  {
    match t
    case Ite(c, a, b) => BoolTermsAreBits(a, m); BoolTermsAreBits(b, m);
    case _ =>
  }

  function Children(t: Term): seq<Term> {
    match t
    case NegT(a) => [a]
    case NotT(a) => [a]
    case ArithT(_, a, b) => [a, b]
    case DivT(a, k) => [a, IntVal(k)]
    case ModT(a, k) => [a, IntVal(k)]
    case AndT(a, b) => [a, b]
    case OrT(a, b) => [a, b]
    case CmpT(_, a, b) => [a, b]
    case Ite(c, a, b) => [c, a, b]
    case _ => []
  }

  function Syms(t: Term): set<Sym> {
    match t
    case IntVal(_) => {}
    case BoolVal(_) => {}
    case Const(s) => {s}
    case NegT(a) => Syms(a)
    case NotT(a) => Syms(a)
    case ArithT(_, a, b) => Syms(a) + Syms(b)
    case DivT(a, _) => Syms(a)
    case ModT(a, _) => Syms(a)
    case AndT(a, b) => Syms(a) + Syms(b)
    case OrT(a, b) => Syms(a) + Syms(b)
    case CmpT(_, a, b) => Syms(a) + Syms(b)
    case Ite(c, a, b) => Syms(c) + Syms(a) + Syms(b)
  }

  // Whether a symbol with one of the given names occurs anywhere in the term.
  predicate Mentions(t: Term, names: set<string>) {
    exists s :: s in Syms(t) && s.name in names
  }

  // A term's value depends only on the symbols it mentions.
  lemma {:induction false} EvalDependsOnSyms(t: Term, m: Model, m': Model)
    requires forall s :: s in Syms(t) ==> Lookup(m, s) == Lookup(m', s)
    ensures Eval(t, m) == Eval(t, m')
  {
    match t
    case IntVal(_) =>
    case BoolVal(_) =>
    case Const(_) =>
    case NegT(a) => EvalDependsOnSyms(a, m, m');
    case NotT(a) => EvalDependsOnSyms(a, m, m');
    case ArithT(_, a, b) => EvalDependsOnSyms(a, m, m'); EvalDependsOnSyms(b, m, m');
    case DivT(a, _) => EvalDependsOnSyms(a, m, m');
    case ModT(a, _) => EvalDependsOnSyms(a, m, m');
    case AndT(a, b) => EvalDependsOnSyms(a, m, m'); EvalDependsOnSyms(b, m, m');
    case OrT(a, b) => EvalDependsOnSyms(a, m, m'); EvalDependsOnSyms(b, m, m');
    case CmpT(_, a, b) => EvalDependsOnSyms(a, m, m'); EvalDependsOnSyms(b, m, m');
    case Ite(c, a, b) =>
      EvalDependsOnSyms(c, m, m'); EvalDependsOnSyms(a, m, m'); EvalDependsOnSyms(b, m, m');
  }
}
