/** expr_transform, expr_trans_bool and expr_trans_compare of support/kconfig/expr.c. */
module ExprTransform {
  import opened KconfigExpr

  /** Strictly drops whenever expr_transform pushes a negation inwards. */
  function Weight(e: Expr): (w: nat)
    ensures w >= 1
  {
    match e
    case ESym(_) => 1
    case ECmp(_, _, _) => 3
    case ENot(x) => 2 * Weight(x)
    case EBin(_, l, r) => Weight(l) + Weight(r) + 1
  }

  function Negated(rel: Rel): Rel {
    match rel
    case Eq => Ne
    case Ne => Eq
    case Le => Gt
    case Gt => Le
    case Ge => Lt
    case Lt => Ge
  }

  function Dual(op: Op): Op { if op == AndOp then OrOp else AndOp }

  /** A comparison of a bool with y, m or n is a plain condition. */
  function TransformCmp(rel: Rel, l: Symbol, r: Symbol): (e: Expr)
    ensures Weight(e) <= 3
  {
    if l.Type() != SBoolean then ECmp(rel, l, r)
    else if rel == Eq && r == SymNo then ENot(ESym(l))
    else if rel == Eq && r == SymMod then ESym(SymNo)
    else if rel == Eq && r == SymYes then ESym(l)
    else if rel == Ne && r == SymNo then ESym(l)
    else if rel == Ne && r == SymMod then ESym(SymYes)
    else if rel == Ne && r == SymYes then ENot(ESym(l))
    else ECmp(rel, l, r)
  }

  /** expr_transform */
  function Transform(e: Expr): (r: Expr)
    ensures Weight(r) <= Weight(e)
    decreases Weight(e), 1
  {
    match e
    case ESym(_) => e
    case ECmp(rel, l, r) => TransformCmp(rel, l, r)
    case EBin(op, l, r) => EBin(op, Transform(l), Transform(r))
    case ENot(x) => TransformNot(Transform(x))
  }

  /** The negation of an operand that is already transformed. */
  function TransformNot(x: Expr): (r: Expr)
    ensures Weight(r) <= 2 * Weight(x)
    decreases 2 * Weight(x), 0
  {
    match x
    case ENot(y) => Transform(y)
    case ECmp(rel, l, r) => ECmp(Negated(rel), l, r)
    case EBin(op, l, r) =>
      assert Weight(ENot(l)) == 2 * Weight(l) && Weight(ENot(r)) == 2 * Weight(r);
      Transform(EBin(Dual(op), ENot(l), ENot(r)))
    case ESym(s) =>
      if s == SymYes then ESym(SymNo)
      else if s == SymMod then ESym(SymMod)
      else if s == SymNo then ESym(SymYes)
      else ENot(x)
  }

  /** NOT stands on symbols other than y, m and n only, and no bool is compared with one of
      these. */
  predicate Normal(e: Expr) {
    match e
    case ESym(_) => true
    case ECmp(rel, l, r) => l.Type() == SBoolean && (rel == Eq || rel == Ne) ==> !r.IsTriConst()
    case EBin(_, l, r) => Normal(l) && Normal(r)
    case ENot(x) => x.ESym? && !x.sym.IsTriConst()
  }

  lemma {:induction false} TransformNormal(e: Expr)
    ensures Normal(Transform(e))
    decreases Weight(e), 1
  {
    match e
    case ESym(_) =>
    case ECmp(_, _, _) =>
    case EBin(_, l, r) =>
      TransformNormal(l);
      TransformNormal(r);
    case ENot(x) =>
      TransformNormal(x);
      TransformNotNormal(Transform(x));
  }

  lemma {:induction false} TransformNotNormal(x: Expr)
    requires Normal(x)
    ensures Normal(TransformNot(x))
    decreases 2 * Weight(x), 0
  {
    match x
    case ENot(y) => TransformNormal(y);
    case EBin(op, l, r) =>
      assert Weight(ENot(l)) == 2 * Weight(l) && Weight(ENot(r)) == 2 * Weight(r);
      TransformNormal(EBin(Dual(op), ENot(l), ENot(r)));
    case _ =>
  }

  /** A normal expression is left as it is; so expr_transform is idempotent. */
  lemma {:induction false} TransformFixesNormal(e: Expr)
    requires Normal(e)
    ensures Transform(e) == e
  {
    match e
    case EBin(_, l, r) =>
      TransformFixesNormal(l);
      TransformFixesNormal(r);
    case _ =>
  }

  lemma TransformIdempotent(e: Expr)
    ensures Transform(Transform(e)) == Transform(e)
  {
    TransformNormal(e);
    TransformFixesNormal(Transform(e));
  }

  lemma TransformCmpValue(rel: Rel, l: Symbol, r: Symbol, v: Valuation)
    requires WellTyped(v)
    ensures Eval(TransformCmp(rel, l, r), v) == CmpValue(v, rel, l, r)
  {
    if l.Type() == SBoolean && r.IsTriConst() {
      TriCompare(v, l, r);
    }
  }

  /** Negating the relation negates the value, unless the symbols are incomparable. */
  lemma NegatedValue(rel: Rel, l: Symbol, r: Symbol, v: Valuation)
    requires l.Type() != SOther && r.Type() != SOther
    ensures CmpValue(v, Negated(rel), l, r) == 2 - CmpValue(v, rel, l, r)
  {
  }

  /** expr_transform keeps the value. */
  lemma {:induction false} TransformValue(e: Expr, v: Valuation)
    requires WellTyped(v) && Clean(e, v)
    ensures Eval(Transform(e), v) == Eval(e, v) && Clean(Transform(e), v)
    decreases Weight(e), 1
  {
    match e
    case ESym(_) =>
    case ECmp(rel, l, r) => TransformCmpValue(rel, l, r, v);
    case EBin(_, l, r) =>
      TransformValue(l, v);
      TransformValue(r, v);
    case ENot(x) =>
      TransformValue(x, v);
      TransformNotValue(Transform(x), v);
  }

  lemma {:induction false} TransformNotValue(x: Expr, v: Valuation)
    requires WellTyped(v) && Clean(x, v)
    ensures Eval(TransformNot(x), v) == 2 - Eval(x, v) && Clean(TransformNot(x), v)
    decreases 2 * Weight(x), 0
  {
    match x
    case ENot(y) => TransformValue(y, v);
    case ECmp(rel, l, r) => NegatedValue(rel, l, r, v);
    case EBin(op, l, r) =>
      assert Weight(ENot(l)) == 2 * Weight(l) && Weight(ENot(r)) == 2 * Weight(r);
      TransformValue(EBin(Dual(op), ENot(l), ENot(r)), v);
    case ESym(_) =>
  }

  /** expr_trans_bool */
  function TransBool(e: Expr): Expr {
    match e
    case EBin(op, l, r) => EBin(op, TransBool(l), TransBool(r))
    case ENot(x) => ENot(TransBool(x))
    case ECmp(rel, l, r) => if rel == Ne && l.Type() == STristate && r == SymNo then ESym(l) else e
    case ESym(_) => e
  }

  /** No tristate worth m is compared `!= n` in e. */
  predicate NoModTest(e: Expr, v: Valuation) {
    match e
    case EBin(_, l, r) => NoModTest(l, v) && NoModTest(r, v)
    case ENot(x) => NoModTest(x, v)
    case ECmp(rel, l, r) => !(rel == Ne && l.Type() == STristate && r == SymNo && v.tri(l) == MOD)
    case ESym(_) => true
  }

  /** None is so compared below a negation. */
  predicate NoNegatedModTest(e: Expr, v: Valuation) {
    match e
    case EBin(_, l, r) => NoNegatedModTest(l, v) && NoNegatedModTest(r, v)
    case ENot(x) => NoModTest(x, v)
    case _ => true
  }

  lemma {:induction false} NormalNoNegatedModTest(e: Expr, v: Valuation)
    requires Normal(e)
    ensures NoNegatedModTest(e, v)
  {
    match e
    case EBin(_, l, r) =>
      NormalNoNegatedModTest(l, v);
      NormalNoNegatedModTest(r, v);
    case _ =>
  }

  lemma {:induction false} TransBoolExact(e: Expr, v: Valuation)
    requires WellTyped(v) && NoModTest(e, v)
    ensures Eval(TransBool(e), v) == Eval(e, v)
    ensures Clean(e, v) ==> Clean(TransBool(e), v)
  {
    match e
    case EBin(_, l, r) =>
      TransBoolExact(l, v);
      TransBoolExact(r, v);
    case ENot(x) => TransBoolExact(x, v);
    case ECmp(rel, l, r) =>
      if rel == Ne && l.Type() == STristate && r == SymNo { TriCompare(v, l, r); }
    case ESym(_) =>
  }

  /** Unless a tristate worth m is compared `!= n` below a negation, expr_trans_bool may lower
      the value from y to m, and does not change whether it is n. */
  lemma {:induction false} TransBoolValue(e: Expr, v: Valuation)
    requires WellTyped(v) && NoNegatedModTest(e, v)
    ensures Eval(TransBool(e), v) <= Eval(e, v)
    ensures Eval(TransBool(e), v) == NO <==> Eval(e, v) == NO
    ensures Clean(e, v) ==> Clean(TransBool(e), v)
  {
    match e
    case EBin(_, l, r) =>
      TransBoolValue(l, v);
      TransBoolValue(r, v);
    case ENot(x) => TransBoolExact(x, v);
    case ECmp(rel, l, r) =>
      if rel == Ne && l.Type() == STristate && r == SymNo { TriCompare(v, l, r); }
    case ESym(_) =>
  }

  /** A y of a normal expression does not rest on a tristate worth m that is compared `!= n`: in
      a disjunction some operand that is y does not. */
  predicate YesStays(e: Expr, v: Valuation) {
    match e
    case EBin(AndOp, l, r) => YesStays(l, v) && YesStays(r, v)
    case EBin(OrOp, l, r) => (Eval(l, v) == YES && YesStays(l, v)) || (Eval(r, v) == YES && YesStays(r, v))
    case ECmp(rel, l, r) => !(rel == Ne && l.Type() == STristate && r == SymNo && v.tri(l) == MOD)
    case _ => true
  }

  /** On a normal expression y stays y exactly then; an m stays m. */
  lemma {:induction false} TransBoolYes(e: Expr, v: Valuation)
    requires WellTyped(v) && Normal(e)
    ensures Eval(e, v) == YES ==> (Eval(TransBool(e), v) == YES <==> YesStays(e, v))
    ensures Eval(TransBool(e), v) == Eval(e, v) <==> (Eval(e, v) == YES ==> YesStays(e, v))
  {
    NormalNoNegatedModTest(e, v);
    TransBoolValue(e, v);
    match e
    case EBin(_, l, r) =>
      TransBoolYes(l, v);
      TransBoolYes(r, v);
      NormalNoNegatedModTest(l, v);
      NormalNoNegatedModTest(r, v);
      TransBoolValue(l, v);
      TransBoolValue(r, v);
    case ECmp(rel, l, r) =>
      if rel == Ne && l.Type() == STristate && r == SymNo { TriCompare(v, l, r); }
    case _ =>
  }

  /** For one negated comparison the condition is necessary too: `!(A != n)` keeps whether it
      is n exactly when the tristate A is not m, and as m it goes from n to m. */
  lemma NegatedTestExact(a: Symbol, v: Valuation)
    requires WellTyped(v) && a.Type() == STristate
    ensures var e := ENot(ECmp(Ne, a, SymNo));
            && ((Eval(TransBool(e), v) == NO <==> Eval(e, v) == NO) <==> v.tri(a) != MOD)
            && (v.tri(a) == MOD ==> Eval(e, v) == NO && Eval(TransBool(e), v) == MOD)
  {
    TriCompare(v, a, SymNo);
  }
}
