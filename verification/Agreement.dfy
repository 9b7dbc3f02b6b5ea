/** When a symbolic environment describes a concrete store, and what translation then preserves. */
module Agreement {
  import opened Wrappers
  import opened PySubset
  import opened Interp
  import opened Terms
  import opened Walk

  // Every variable of the environment is bound in the store, and its term, unless tainted,
  // evaluates to the stored value under the input `m`.
  predicate Agrees(env: Env, tainted: set<string>, s: Store, m: Model) {
    forall x :: x in env ==> x in s && (Mentions(env[x].term, tainted) || s[x] == Eval(env[x].term, m))
  }

  lemma MentionsSub(t: Term, u: Term, names: set<string>)
    requires Syms(t) <= Syms(u) && !Mentions(u, names)
    ensures !Mentions(t, names)
  {
  }

  lemma MentionsGrow(t: Term, names: set<string>, names': set<string>)
    requires names <= names' && Mentions(t, names)
    ensures Mentions(t, names')
  {
  }

  lemma AgreesGrow(env: Env, tainted: set<string>, tainted': set<string>, s: Store, m: Model)
    requires tainted <= tainted' && Agrees(env, tainted, s, m)
    ensures Agrees(env, tainted', s, m)
  {
    forall x | x in env
      ensures x in s && (Mentions(env[x].term, tainted') || s[x] == Eval(env[x].term, m))
    {
      if Mentions(env[x].term, tainted) { MentionsGrow(env[x].term, tainted, tainted'); }
    }
  }

  // An expression that translates never raises: the walk checks definite assignment.
  lemma {:induction false} TranslatedIsBound(e: Expr, env: Env, s: Store)
    requires Translate(e, env).Some? && env.Keys <= s.Keys
    ensures EvalExpr(e, s).Some?
  {
    match e
    case Num(_) =>
    case Boolean(_) =>
    case Name(_) =>
    case UAdd(a) => TranslatedIsBound(a, env, s);
    case USub(a) => TranslatedIsBound(a, env, s);
    case Not(a) => TranslatedIsBound(a, env, s);
    case Arith(_, a, b) => TranslatedIsBound(a, env, s); TranslatedIsBound(b, env, s);
    case FloorDiv(a, _) => TranslatedIsBound(a, env, s);
    case Mod(a, _) => TranslatedIsBound(a, env, s);
    case And(a, b) => TranslatedIsBound(a, env, s); TranslatedIsBound(b, env, s);
    case Or(a, b) => TranslatedIsBound(a, env, s); TranslatedIsBound(b, env, s);
    case Compare(_, a, b) => TranslatedIsBound(a, env, s); TranslatedIsBound(b, env, s);
    case Abs(a) => TranslatedIsBound(a, env, s);
    case Min(a, b) => TranslatedIsBound(a, env, s); TranslatedIsBound(b, env, s);
    case Max(a, b) => TranslatedIsBound(a, env, s); TranslatedIsBound(b, env, s);
  }

  // Translation preserves meaning: an untainted term has the value that Python computes.
  lemma {:induction false} TranslateIsSound(e: Expr, env: Env, tainted: set<string>, s: Store, m: Model)
    requires Agrees(env, tainted, s, m)
    requires Translate(e, env).Some? && !Mentions(Translate(e, env).value, tainted)
    ensures EvalExpr(e, s) == Some(Eval(Translate(e, env).value, m))
    decreases e, 2
  {
    var t := Translate(e, env).value;
    match e
    case Num(_) =>
    case Boolean(_) =>
    case Name(_) =>
    case UAdd(a) => TranslateIsSound(a, env, tainted, s, m);
    case USub(a) => OneSound(a, t, env, tainted, s, m);
    case Not(a) => OneSound(a, t, env, tainted, s, m);
    case FloorDiv(a, _) => OneSound(a, t, env, tainted, s, m);
    case Mod(a, _) => OneSound(a, t, env, tainted, s, m);
    case Abs(a) =>
      assert Syms(t.c) == Syms(t.t) + Syms(IntVal(0)) && Eval(t.c.r, m) == 0;
      OneSound(a, t, env, tainted, s, m);
    case _ => BinarySound(e, env, tainted, s, m);
  }

  lemma SubtermSyms(e: Expr, env: Env)
    requires e.Arith? || e.And? || e.Or? || e.Compare? || e.Min? || e.Max?
    requires Translate(e, env).Some?
    ensures Translate(e.l, env).Some? && Translate(e.r, env).Some?
    ensures Syms(Translate(e.l, env).value) <= Syms(Translate(e, env).value)
    ensures Syms(Translate(e.r, env).value) <= Syms(Translate(e, env).value)
  {
  }

  lemma {:induction false} BinarySound(e: Expr, env: Env, tainted: set<string>, s: Store, m: Model)
    requires e.Arith? || e.And? || e.Or? || e.Compare? || e.Min? || e.Max?
    requires Agrees(env, tainted, s, m)
    requires Translate(e, env).Some? && !Mentions(Translate(e, env).value, tainted)
    ensures EvalExpr(e, s) == Some(Eval(Translate(e, env).value, m))
    decreases e, 1
  {
    var t := Translate(e, env).value;
    SubtermSyms(e, env);
    OneSound(e.l, t, env, tainted, s, m);
    OneSound(e.r, t, env, tainted, s, m);
    if e.And? || e.Or? {
      LogicalSound(e, env, s, m);
    } else {
      NumericSound(e, env, s, m);
    }
  }

  lemma LogicalSound(e: Expr, env: Env, s: Store, m: Model)
    requires (e.And? || e.Or?) && Translate(e, env).Some?
    requires EvalExpr(e.l, s) == Some(Eval(Translate(e.l, env).value, m))
    requires EvalExpr(e.r, s) == Some(Eval(Translate(e.r, env).value, m))
    ensures EvalExpr(e, s) == Some(Eval(Translate(e, env).value, m))
  {
    BoolTermsAreBits(Translate(e.l, env).value, m);
    BoolTermsAreBits(Translate(e.r, env).value, m);
  }

  lemma NumericSound(e: Expr, env: Env, s: Store, m: Model)
    requires (e.Arith? || e.Compare? || e.Min? || e.Max?) && Translate(e, env).Some?
    requires EvalExpr(e.l, s) == Some(Eval(Translate(e.l, env).value, m))
    requires EvalExpr(e.r, s) == Some(Eval(Translate(e.r, env).value, m))
    ensures EvalExpr(e, s) == Some(Eval(Translate(e, env).value, m))
  {
  }

  lemma {:induction false} OneSound(a: Expr, t: Term, env: Env, tainted: set<string>, s: Store, m: Model)
    requires Agrees(env, tainted, s, m) && Translate(a, env).Some?
    requires Syms(Translate(a, env).value) <= Syms(t) && !Mentions(t, tainted)
    ensures EvalExpr(a, s) == Some(Eval(Translate(a, env).value, m))
    decreases a, 3
  {
    MentionsSub(Translate(a, env).value, t, tainted);
    TranslateIsSound(a, env, tainted, s, m);
  }

  // A term built from clean or tainted bindings only mentions `known` symbols unless it is tainted.
  predicate EnvKnown(env: Env, tainted: set<string>, known: iset<Sym>) {
    forall x :: x in env ==> Mentions(env[x].term, tainted) || forall s :: s in Syms(env[x].term) ==> s in known
  }

  lemma {:induction false} TranslateKnown(e: Expr, env: Env, tainted: set<string>, known: iset<Sym>, s: Sym)
    requires EnvKnown(env, tainted, known)
    requires Translate(e, env).Some? && s in Syms(Translate(e, env).value)
    ensures s in known || Mentions(Translate(e, env).value, tainted)
    decreases e, 0
  {
    var t := Translate(e, env).value;
    match e
    case Num(_) =>
    case Boolean(_) =>
    case Name(_) =>
    case UAdd(a) => OneKnown(a, t, env, tainted, known, s);
    case USub(a) => OneKnown(a, t, env, tainted, known, s);
    case Not(a) => OneKnown(a, t, env, tainted, known, s);
    case Arith(_, a, b) => OneKnown(a, t, env, tainted, known, s); OneKnown(b, t, env, tainted, known, s);
    case FloorDiv(a, _) => OneKnown(a, t, env, tainted, known, s);
    case Mod(a, _) => OneKnown(a, t, env, tainted, known, s);
    case And(a, b) => OneKnown(a, t, env, tainted, known, s); OneKnown(b, t, env, tainted, known, s);
    case Or(a, b) => OneKnown(a, t, env, tainted, known, s); OneKnown(b, t, env, tainted, known, s);
    case Compare(_, a, b) => OneKnown(a, t, env, tainted, known, s); OneKnown(b, t, env, tainted, known, s);
    case Abs(a) =>
      assert Syms(t.c) == Syms(t.t) + Syms(IntVal(0)) && Syms(t.e) == Syms(t.t);
      OneKnown(a, t, env, tainted, known, s);
    case Min(a, b) => OneKnown(a, t, env, tainted, known, s); OneKnown(b, t, env, tainted, known, s);
    case Max(a, b) => OneKnown(a, t, env, tainted, known, s); OneKnown(b, t, env, tainted, known, s);
  }

  lemma {:induction false} OneKnown(a: Expr, t: Term, env: Env, tainted: set<string>, known: iset<Sym>, s: Sym)
    requires EnvKnown(env, tainted, known) && Translate(a, env).Some?
    requires Syms(Translate(a, env).value) <= Syms(t)
    ensures s in Syms(Translate(a, env).value) ==> s in known || Mentions(t, tainted)
    decreases a, 1
  {
    if s in Syms(Translate(a, env).value) {
      TranslateKnown(a, env, tainted, known, s);
    }
  }
}
