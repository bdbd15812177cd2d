/** expr_trans_compare, expr_contains_symbol and expr_depends_symbol of
    support/kconfig/expr.c. */
module ExprCompare {
  import opened KconfigExpr
  import opened ExprTransform

  /** expr_trans_compare of a present expression: `e = c`, or `e != c` when ne, with the
      comparison pushed down to the symbols. c is one of y, m and n. */
  function TransCompare(e: Expr, ne: bool, c: Symbol): Expr
    requires c.IsTriConst()
  {
    match e
    case EBin(op, l, r) =>
      var e1, e2 := TransCompare(l, false, c), TransCompare(r, false, c);
      var both := if c == SymYes then EBin(op, e1, e2)
                  else if c == SymNo then EBin(Dual(op), e1, e2)
                  else e;
      if ne then ENot(both) else both
    case ENot(x) => TransCompare(x, !ne, c)
    case ECmp(_, _, _) =>
      if c == SymMod then ESym(if ne then SymYes else SymNo)
      else if ne == (c == SymYes) then ENot(e) else e
    case ESym(s) => ECmp(if ne then Ne else Eq, s, c)
  }

  /** expr_trans_compare with its case for a missing expression. */
  function TransCompareOpt(e: Option<Expr>, ne: bool, c: Symbol): Expr
    requires c.IsTriConst()
  {
    match e
    case Some(x) => TransCompare(x, ne, c)
    case None => if ne then ENot(ESym(c)) else ESym(c)
  }

  /** The symbols standing as conditions are bools, tristates or y, m, n. */
  predicate Logical(e: Expr) {
    match e
    case ESym(s) => s.IsTri() || s.IsTriConst()
    case ENot(x) => Logical(x)
    case EBin(_, l, r) => Logical(l) && Logical(r)
    case ECmp(_, _, _) => true
  }

  /** No operand of a negation is worth m. */
  predicate NoNegatedMod(e: Expr, v: Valuation) {
    match e
    case ENot(x) => Eval(x, v) != MOD && NoNegatedMod(x, v)
    case EBin(_, l, r) => NoNegatedMod(l, v) && NoNegatedMod(r, v)
    case _ => true
  }

  function Truth(b: bool): Tristate { if b then YES else NO }

  lemma SymbolCompare(s: Symbol, c: Symbol, v: Valuation)
    requires WellTyped(v) && c.IsTriConst() && (s.IsTri() || s.IsTriConst())
    ensures CmpValue(v, Eq, s, c) == Truth(v.tri(s) == v.tri(c))
    ensures CmpValue(v, Ne, s, c) == Truth(v.tri(s) != v.tri(c))
  {
    if s.IsTri() {
      TriCompare(v, s, c);
    } else {
      assert v.str(s) == s.name && v.str(c) == c.name;
    }
  }

  /** Comparing with y or n is exact while no negated operand is worth m. */
  lemma {:induction false} TransCompareValue(e: Expr, ne: bool, c: Symbol, v: Valuation)
    requires WellTyped(v) && (c == SymYes || c == SymNo) && Logical(e) && NoNegatedMod(e, v)
    ensures Eval(TransCompare(e, ne, c), v) == Truth((Eval(e, v) == v.tri(c)) != ne)
  {
    match e
    case EBin(_, l, r) =>
      TransCompareValue(l, false, c, v);
      TransCompareValue(r, false, c, v);
    case ENot(x) => TransCompareValue(x, !ne, c, v);
    case ESym(s) => SymbolCompare(s, c, v);
    case ECmp(_, _, _) =>
  }

  /** For a negated symbol the condition is necessary too: comparing !s with y or n is right
      exactly when s is not m. */
  lemma NegatedSymbolExact(s: Symbol, ne: bool, c: Symbol, v: Valuation)
    requires WellTyped(v) && (c == SymYes || c == SymNo) && (s.IsTri() || s.IsTriConst())
    ensures var e := ENot(ESym(s));
            Eval(TransCompare(e, ne, c), v) == Truth((Eval(e, v) == v.tri(c)) != ne) <==> v.tri(s) != MOD
  {
    SymbolCompare(s, c, v);
  }

  /** The valuation that a comparison with y or n works in: with y, m counts as n, and with n,
      m counts as y. */
  function Collapsed(v: Valuation, c: Symbol): Valuation {
    v.(tri := s => CollapsedTri(v.tri(s), c))
  }

  function CollapsedTri(t: Tristate, c: Symbol): Tristate {
    if t != MOD then t else if c == SymYes then NO else YES
  }

  lemma {:induction false} CollapsedTwoValued(e: Expr, c: Symbol, v: Valuation)
    ensures Eval(e, Collapsed(v, c)) != MOD
  {
    match e
    case EBin(_, l, r) =>
      CollapsedTwoValued(l, c, v);
      CollapsedTwoValued(r, c, v);
    case ENot(x) => CollapsedTwoValued(x, c, v);
    case _ =>
  }

  /** What comparing with y or n computes, for every expression: whether e, with its symbols
      collapsed to n and y, is c. So it is right exactly where the collapsed expression is c
      if and only if e is. */
  lemma {:induction false} TransCompareCollapses(e: Expr, ne: bool, c: Symbol, v: Valuation)
    requires WellTyped(v) && (c == SymYes || c == SymNo) && Logical(e)
    ensures Eval(TransCompare(e, ne, c), v) == Truth((Eval(e, Collapsed(v, c)) == v.tri(c)) != ne)
    ensures Eval(TransCompare(e, ne, c), v) == Truth((Eval(e, v) == v.tri(c)) != ne) <==>
            ((Eval(e, Collapsed(v, c)) == v.tri(c)) <==> Eval(e, v) == v.tri(c))
  {
    match e
    case EBin(_, l, r) =>
      TransCompareCollapses(l, false, c, v);
      TransCompareCollapses(r, false, c, v);
    case ENot(x) =>
      TransCompareCollapses(x, !ne, c, v);
      CollapsedTwoValued(x, c, v);
    case ESym(s) => SymbolCompare(s, c, v);
    case ECmp(_, _, _) => assert Collapsed(v, c).str == v.str;
  }

  /** What stands below the leading negations of e, and whether they are odd in number. */
  function Core(e: Expr): Expr { if e.ENot? then Core(e.arg) else e }

  predicate Odd(e: Expr) { e.ENot? && !Odd(e.arg) }

  lemma {:induction false} TransCompareCore(e: Expr, ne: bool, c: Symbol, v: Valuation)
    requires c.IsTriConst()
    ensures !Core(e).ENot?
    ensures Logical(e) ==> Logical(Core(e))
    ensures TransCompare(e, ne, c) == TransCompare(Core(e), ne != Odd(e), c)
    ensures Eval(e, v) == if Odd(e) then 2 - Eval(Core(e), v) else Eval(Core(e), v)
  {
    if e.ENot? {
      TransCompareCore(e.arg, !ne, c, v);
    }
  }

  /** Comparing with m drops the comparison at the first conjunction or disjunction, so it is
      right there only when the whole is n, and otherwise when the leading negations are even
      in number. */
  lemma TransCompareModExact(e: Expr, ne: bool, v: Valuation)
    requires WellTyped(v) && Logical(e)
    ensures Eval(TransCompare(e, ne, SymMod), v) == Truth((Eval(e, v) == MOD) != ne) <==>
            (if Core(e).EBin? then Eval(e, v) == NO else !Odd(e))
  {
    TransCompareCore(e, ne, SymMod, v);
    if Core(e).ESym? {
      SymbolCompare(Core(e).sym, SymMod, v);
    }
  }

  /** In a normal expression `e != n` may be missed, where !s is m, but is never invented. */
  lemma {:induction false} TransCompareBelow(e: Expr, ne: bool, v: Valuation)
    requires WellTyped(v) && Logical(e) && Normal(e)
    ensures ne ==> Eval(TransCompare(e, ne, SymNo), v) <= Truth(Eval(e, v) != NO)
    ensures !ne ==> Truth(Eval(e, v) == NO) <= Eval(TransCompare(e, ne, SymNo), v)
    ensures Eval(TransCompare(e, ne, SymNo), v) != MOD
  {
    match e
    case EBin(_, l, r) =>
      TransCompareBelow(l, false, v);
      TransCompareBelow(r, false, v);
    case ENot(x) =>
      assert x.ESym?;
      SymbolCompare(x.sym, SymNo, v);
    case ESym(s) => SymbolCompare(s, SymNo, v);
    case ECmp(_, _, _) =>
  }

  lemma {:induction false} TransCompareClean(e: Expr, ne: bool, c: Symbol, v: Valuation)
    requires WellTyped(v) && c.IsTriConst() && Logical(e) && Clean(e, v)
    ensures Clean(TransCompare(e, ne, c), v)
  {
    match e
    case EBin(_, l, r) =>
      TransCompareClean(l, false, c, v);
      TransCompareClean(r, false, c, v);
    case ENot(x) => TransCompareClean(x, !ne, c, v);
    case ESym(s) => assert v.str(c) == c.name;
    case ECmp(_, _, _) =>
  }

  /** expr_contains_symbol */
  predicate ContainsSymbol(e: Expr, s: Symbol) {
    match e
    case EBin(_, l, r) => ContainsSymbol(l, s) || ContainsSymbol(r, s)
    case ESym(t) => t == s
    case ECmp(_, l, r) => l == s || r == s
    case ENot(x) => ContainsSymbol(x, s)
  }

  /** expr_depends_symbol */
  predicate DependsSymbol(e: Expr, s: Symbol) {
    match e
    case EBin(AndOp, l, r) => DependsSymbol(l, s) || DependsSymbol(r, s)
    case ESym(t) => t == s
    case ECmp(Eq, l, r) => l == s && (r == SymYes || r == SymMod)
    case ECmp(Ne, l, r) => l == s && r == SymNo
    case _ => false
  }

  /** An expression that does not contain s does not look at s. */
  lemma {:induction false} ContainsSymbolSound(e: Expr, s: Symbol, v: Valuation, w: Valuation)
    requires !ContainsSymbol(e, s) && v.num == w.num
    requires forall t: Symbol :: t != s ==> v.tri(t) == w.tri(t) && v.str(t) == w.str(t)
    ensures Eval(e, v) == Eval(e, w)
  {
    match e
    case EBin(_, l, r) =>
      ContainsSymbolSound(l, s, v, w);
      ContainsSymbolSound(r, s, v, w);
    case ENot(x) => ContainsSymbolSound(x, s, v, w);
    case ESym(t) =>
    case ECmp(_, l, r) =>
      assert v.str(l) == w.str(l) && v.str(r) == w.str(r);
  }

  /** An expression that depends on s is n whenever s is, and contains s. */
  lemma {:induction false} DependsSymbolSound(e: Expr, s: Symbol, v: Valuation)
    requires WellTyped(v) && s.IsTri() && DependsSymbol(e, s)
    ensures v.tri(s) == NO ==> Eval(e, v) == NO
    ensures ContainsSymbol(e, s)
  {
    match e
    case EBin(AndOp, l, r) =>
      if DependsSymbol(l, s) { DependsSymbolSound(l, s, v); } else { DependsSymbolSound(r, s, v); }
    case ECmp(_, l, r) => TriCompare(v, s, r);
    case _ =>
  }
}
