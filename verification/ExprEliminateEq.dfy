/** expr_eliminate_yn, expr_eq and expr_eliminate_eq of support/kconfig/expr.c. */
module ExprEliminateEq {
  import opened KconfigExpr

  /** The operand that leaves `op` unchanged, and the one that decides it. */
  function Unit(op: Op): Symbol { if op == AndOp then SymYes else SymNo }

  function Zero(op: Op): Symbol { if op == AndOp then SymNo else SymYes }

  /** expr_eliminate_yn */
  function EliminateYn(e: Expr): (r: Expr)
    ensures Size(r) <= Size(e)
  {
    match e
    case EBin(op, l, r) =>
      var l', r' := EliminateYn(l), EliminateYn(r);
      if l' == ESym(Zero(op)) then ESym(Zero(op))
      else if l' == ESym(Unit(op)) then r'
      else if r' == ESym(Zero(op)) then ESym(Zero(op))
      else if r' == ESym(Unit(op)) then l'
      else EBin(op, l', r')
    case _ => e
  }

  /** An && or || node that has the constant `y` or `n` as an operand. */
  predicate HasYn(e: Expr) {
    match e
    case EBin(_, l, r) =>
      || l == ESym(SymYes) || l == ESym(SymNo) || r == ESym(SymYes) || r == ESym(SymNo)
      || HasYn(l) || HasYn(r)
    case _ => false
  }

  lemma {:induction false} EliminateYnValue(e: Expr, v: Valuation)
    requires WellTyped(v)
    ensures Eval(EliminateYn(e), v) == Eval(e, v)
    ensures Clean(e, v) ==> Clean(EliminateYn(e), v)
  {
    match e
    case EBin(op, l, r) =>
      EliminateYnValue(l, v);
      EliminateYnValue(r, v);
    case _ =>
  }

  /** Nothing is left to eliminate, and the tree got smaller exactly when there was. */
  lemma {:induction false} EliminateYnShrinks(e: Expr)
    ensures !HasYn(EliminateYn(e))
    ensures HasYn(e) ==> Size(EliminateYn(e)) < Size(e)
    ensures !HasYn(e) ==> EliminateYn(e) == e
  {
    match e
    case EBin(op, l, r) =>
      EliminateYnShrinks(l);
      EliminateYnShrinks(r);
    case _ =>
  }

  predicate IsOp(op: Op, e: Expr) { e.EBin? && e.op == op }

  predicate SameYn(e1: Expr, e2: Expr) { e1 == e2 && (e1 == ESym(SymYes) || e1 == ESym(SymNo)) }

  /** expr_eq */
  predicate ExprEq(e1: Expr, e2: Expr)
    decreases Size(e1) + Size(e2), 3
  {
    match (e1, e2)
    case (ESym(s1), ESym(s2)) => s1 == s2
    case (ECmp(r1, a1, b1), ECmp(r2, a2, b2)) => r1 == r2 && a1 == a2 && b1 == b2
    case (ENot(x1), ENot(x2)) => ExprEq(x1, x2)
    case (EBin(op1, _, _), EBin(op2, _, _)) =>
      && op1 == op2
      && var (d1, d2) := EliminateEq(e1, e2);
         d1.ESym? && d2.ESym? && d1.sym == d2.sym
    case _ => false
  }

  /** __expr_eliminate_eq: the two trees, with every pair of equal operands of `op`
      replaced by its unit. */
  function EliminateOperands(op: Op, e1: Expr, e2: Expr): (r: (Expr, Expr))
    ensures Size(r.0) <= Size(e1) && Size(r.1) <= Size(e2)
    ensures IsOp(op, r.0) == IsOp(op, e1) && IsOp(op, r.1) == IsOp(op, e2)
    decreases Size(e1) + Size(e2), if IsOp(op, e1) || IsOp(op, e2) then 0 else 4
  {
    if IsOp(op, e1) then
      var (l, d) := EliminateOperands(op, e1.left, e2);
      var (r, d') := EliminateOperands(op, e1.right, d);
      (EBin(op, l, r), d')
    else if IsOp(op, e2) then
      var (d, l) := EliminateOperands(op, e1, e2.left);
      var (d', r) := EliminateOperands(op, d, e2.right);
      (d', EBin(op, l, r))
    else if SameYn(e1, e2) || !ExprEq(e1, e2) then (e1, e2)
    else (ESym(Unit(op)), ESym(Unit(op)))
  }

  /** The two passes of expr_eliminate_eq, before its final expr_eliminate_yn. The second
      pass runs for the type e2 has after the first. */
  function EliminatePasses(e1: Expr, e2: Expr): (r: (Expr, Expr))
    ensures Size(r.0) <= Size(e1) && Size(r.1) <= Size(e2)
    decreases Size(e1) + Size(e2), 1
  {
    var (a, b) := if e1.EBin? then EliminateOperands(e1.op, e1, e2) else (e1, e2);
    if b.EBin? && !IsOp(b.op, a) then EliminateOperands(b.op, a, b) else (a, b)
  }

  /** expr_eliminate_eq */
  function EliminateEq(e1: Expr, e2: Expr): (r: (Expr, Expr))
    ensures Size(r.0) <= Size(e1) && Size(r.1) <= Size(e2)
    decreases Size(e1) + Size(e2), 2
  {
    var (a, b) := EliminatePasses(e1, e2);
    (EliminateYn(a), EliminateYn(b))
  }

  /** What was taken out of both trees is one common operand, so an order between the
      results is an order between the originals. */
  ghost predicate Reflects(a1: Tristate, a2: Tristate, b1: Tristate, b2: Tristate) {
    && (b1 <= b2 ==> a1 <= a2)
    && (b2 <= b1 ==> a2 <= a1)
  }

  /** expr_eq never calls two expressions equal that differ under some valuation. */
  lemma {:induction false} ExprEqSound(e1: Expr, e2: Expr, v: Valuation)
    requires WellTyped(v) && ExprEq(e1, e2)
    ensures Eval(e1, v) == Eval(e2, v)
    decreases Size(e1) + Size(e2), 3
  {
    match (e1, e2)
    case (ENot(x1), ENot(x2)) => ExprEqSound(x1, x2, v);
    case (EBin(_, _, _), EBin(_, _, _)) => EliminateEqReflects(e1, e2, v);
    case _ =>
  }

  lemma ApplySwap(op: Op, l: Tristate, r: Tristate, c: Tristate, d: Tristate)
    ensures Apply(op, Apply(op, l, c), Apply(op, r, d)) == Apply(op, Apply(op, l, r), Apply(op, c, d))
    ensures Apply(op, Apply(op, l, d), c) == Apply(op, l, Apply(op, c, d))
  {
  }

  /** What expr_eq finds equal in both trees is one value c that both had as an operand. */
  lemma {:induction false} EliminateOperandsCommon(op: Op, e1: Expr, e2: Expr, v: Valuation) returns (c: Tristate)
    requires WellTyped(v)
    ensures Eval(e1, v) == Apply(op, Eval(EliminateOperands(op, e1, e2).0, v), c)
    ensures Eval(e2, v) == Apply(op, Eval(EliminateOperands(op, e1, e2).1, v), c)
    decreases Size(e1) + Size(e2), if IsOp(op, e1) || IsOp(op, e2) then 0 else 4
  {
    if IsOp(op, e1) {
      var first := EliminateOperands(op, e1.left, e2);
      var second := EliminateOperands(op, e1.right, first.1);
      var c1 := EliminateOperandsCommon(op, e1.left, e2, v);
      var c2 := EliminateOperandsCommon(op, e1.right, first.1, v);
      c := Apply(op, c1, c2);
      ApplySwap(op, Eval(first.0, v), Eval(second.0, v), c1, c2);
      ApplySwap(op, Eval(second.1, v), 0, c1, c2);
    } else if IsOp(op, e2) {
      var first := EliminateOperands(op, e1, e2.left);
      var second := EliminateOperands(op, first.0, e2.right);
      var c1 := EliminateOperandsCommon(op, e1, e2.left, v);
      var c2 := EliminateOperandsCommon(op, first.0, e2.right, v);
      c := Apply(op, c1, c2);
      ApplySwap(op, Eval(first.1, v), Eval(second.1, v), c1, c2);
      ApplySwap(op, Eval(second.0, v), 0, c1, c2);
    } else if SameYn(e1, e2) || !ExprEq(e1, e2) {
      c := v.tri(Unit(op));
    } else {
      ExprEqSound(e1, e2, v);
      c := Eval(e1, v);
    }
  }

  lemma {:induction false} EliminatePassesReflect(e1: Expr, e2: Expr, v: Valuation)
    requires WellTyped(v)
    ensures var (d1, d2) := EliminatePasses(e1, e2);
            Reflects(Eval(e1, v), Eval(e2, v), Eval(d1, v), Eval(d2, v))
    decreases Size(e1) + Size(e2), 1
  {
    hide EliminateOperands; hide Eval; hide WellTyped; hide Apply; hide Reflects;
    var (a, b) := if e1.EBin? then EliminateOperands(e1.op, e1, e2) else (e1, e2);
    ReflectsTwice(Eval(e1, v), Eval(e2, v), Eval(e1, v), Eval(e2, v), Eval(e1, v), Eval(e2, v));
    if e1.EBin? {
      var c := EliminateOperandsCommon(e1.op, e1, e2, v);
      CommonReflects(e1.op, Eval(a, v), Eval(b, v), c);
    }
    if b.EBin? && !IsOp(b.op, a) {
      var d := EliminateOperands(b.op, a, b);
      var c := EliminateOperandsCommon(b.op, a, b, v);
      CommonReflects(b.op, Eval(d.0, v), Eval(d.1, v), c);
      ReflectsTwice(Eval(e1, v), Eval(e2, v), Eval(a, v), Eval(b, v), Eval(d.0, v), Eval(d.1, v));
    }
  }

  lemma CommonReflects(op: Op, b1: Tristate, b2: Tristate, c: Tristate)
    ensures Reflects(Apply(op, b1, c), Apply(op, b2, c), b1, b2)
  {
  }

  lemma ReflectsTwice(a1: Tristate, a2: Tristate, b1: Tristate, b2: Tristate, c1: Tristate, c2: Tristate)
    ensures Reflects(a1, a2, a1, a2)
    ensures Reflects(a1, a2, b1, b2) && Reflects(b1, b2, c1, c2) ==> Reflects(a1, a2, c1, c2)
  {
  }

  /** The results of expr_eliminate_eq are ordered only if the originals were. */
  lemma {:induction false} EliminateEqReflects(e1: Expr, e2: Expr, v: Valuation)
    requires WellTyped(v)
    ensures var (d1, d2) := EliminateEq(e1, e2);
            Reflects(Eval(e1, v), Eval(e2, v), Eval(d1, v), Eval(d2, v))
    decreases Size(e1) + Size(e2), 2
  {
    var (a, b) := EliminatePasses(e1, e2);
    EliminatePassesReflect(e1, e2, v);
    EliminateYnValue(a, v);
    EliminateYnValue(b, v);
  }

  /** The superset test of menu_finalize: when e2 reduces to `y`, e1 implies e2. */
  lemma {:induction false} ReducedToYes(e1: Expr, e2: Expr, v: Valuation)
    requires WellTyped(v) && EliminateEq(e1, e2).1 == ESym(SymYes)
    ensures Eval(e1, v) <= Eval(e2, v)
  {
    EliminateEqReflects(e1, e2, v);
  }
}
