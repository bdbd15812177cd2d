/** expr_join_or and expr_join_and of support/kconfig/expr.c: one expression for two
    operands of the same || or &&, where there is one. */
module ExprJoin {
  import opened KconfigExpr
  import opened ExprEliminateEq

  predicate IsEqNe(e: Expr) { e.ECmp? && (e.rel == Eq || e.rel == Ne) }

  /** The symbol the first operand is about. */
  function JoinSymbol(e: Expr): Option<Symbol> {
    match e
    case ESym(s) => Some(s)
    case ECmp(_, l, _) => if IsEqNe(e) then Some(l) else None
    case ENot(ESym(s)) => Some(s)
    case ENot(ECmp(rel, l, _)) => if rel == Eq || rel == Ne then Some(l) else None
    case _ => None
  }

  /** The second operand may be a negation of a plain symbol only. */
  function JoinSymbol2(e: Expr): Option<Symbol> {
    if e.ENot? && !e.arg.ESym? then None else JoinSymbol(e)
  }

  predicate IsCmp(e: Expr, rel: Rel, c: Symbol) { e.ECmp? && e.rel == rel && e.rhs == c }

  /** e1 and e2 are comparisons `rel` with a and b, in either order. */
  predicate ArePair(e1: Expr, e2: Expr, rel: Rel, a: Symbol, b: Symbol) {
    (IsCmp(e1, rel, a) && IsCmp(e2, rel, b)) || (IsCmp(e1, rel, b) && IsCmp(e2, rel, a))
  }

  /** One of e1 and e2 is a symbol and the other compares with c. */
  predicate AreSymCmp(e1: Expr, e2: Expr, rel: Rel, c: Symbol) {
    (e1.ESym? && IsCmp(e2, rel, c)) || (e2.ESym? && IsCmp(e1, rel, c))
  }

  predicate IsNotSym(e: Expr) { e.ENot? && e.arg.ESym? }

  /** expr_join_or */
  function JoinOr(e1: Expr, e2: Expr): Option<Expr> {
    var s1, s2 := JoinSymbol(e1), JoinSymbol2(e2);
    if ExprEq(e1, e2) then Some(e1)
    else if s1.None? || s2.None? || s1 != s2 || !s1.value.IsTri() then None
    else if s1.value.Type() == STristate then
      if ArePair(e1, e2, Eq, SymYes, SymMod) then Some(ECmp(Ne, s1.value, SymNo))
      else if ArePair(e1, e2, Eq, SymYes, SymNo) then Some(ECmp(Ne, s1.value, SymMod))
      else if ArePair(e1, e2, Eq, SymMod, SymNo) then Some(ECmp(Ne, s1.value, SymYes))
      else None
    else if (IsNotSym(e1) && e2.ESym?) || (IsNotSym(e2) && e1.ESym?) then Some(ESym(SymYes))
    else None
  }

  /** expr_join_and */
  function JoinAnd(e1: Expr, e2: Expr): Option<Expr> {
    var s1, s2 := JoinSymbol(e1), JoinSymbol2(e2);
    if ExprEq(e1, e2) then Some(e1)
    else if s1.None? || s2.None? || s1 != s2 || !s1.value.IsTri() then None
    else if AreSymCmp(e1, e2, Eq, SymYes) then Some(ECmp(Eq, s1.value, SymYes))
    else if AreSymCmp(e1, e2, Ne, SymNo) then Some(ESym(s1.value))
    else if AreSymCmp(e1, e2, Ne, SymMod) then Some(ECmp(Eq, s1.value, SymYes))
    else if s1.value.Type() != STristate then None
    else if e1.ECmp? && e2.ECmp? && e1.rel == Eq && e2.rel == Ne && e1.rhs.Const? && e2.rhs.Const? then
      Some(if e1.rhs != e2.rhs then ECmp(Eq, s1.value, e1.rhs) else ESym(SymNo))
    else if e1.ECmp? && e2.ECmp? && e1.rel == Ne && e2.rel == Eq && e1.rhs.Const? && e2.rhs.Const? then
      Some(if e2.rhs != e1.rhs then ECmp(Eq, s1.value, e2.rhs) else ESym(SymNo))
    else if ArePair(e1, e2, Ne, SymYes, SymNo) then Some(ECmp(Eq, s1.value, SymMod))
    else if ArePair(e1, e2, Ne, SymYes, SymMod) then Some(ECmp(Eq, s1.value, SymNo))
    else if ArePair(e1, e2, Ne, SymMod, SymNo) then Some(ECmp(Eq, s1.value, SymYes))
    else None
  }

  function Join(op: Op, e1: Expr, e2: Expr): Option<Expr> {
    if op == AndOp then JoinAnd(e1, e2) else JoinOr(e1, e2)
  }

  lemma JoinOrValue(e1: Expr, e2: Expr, v: Valuation)
    requires WellTyped(v) && JoinOr(e1, e2).Some? && !ExprEq(e1, e2)
    ensures Eval(JoinOr(e1, e2).value, v) == Max(Eval(e1, v), Eval(e2, v))
    ensures Clean(JoinOr(e1, e2).value, v)
  {
    hide CmpValue; hide ExprEq; hide WellTyped;
    TriFacts(JoinSymbol(e1).value, v);
  }

  /** What the value of a bool or tristate says of its comparisons with y, m and n. */
  lemma TriFacts(s: Symbol, v: Valuation)
    requires WellTyped(v) && s.IsTri()
    ensures v.tri(SymYes) == YES && v.tri(SymMod) == MOD && v.tri(SymNo) == NO && (s.Type() == SBoolean ==> v.tri(s) != MOD)
    ensures CmpValue(v, Eq, s, SymYes) == (if v.tri(s) == YES then YES else NO)
    ensures CmpValue(v, Ne, s, SymYes) == (if v.tri(s) == YES then NO else YES)
    ensures CmpValue(v, Eq, s, SymMod) == (if v.tri(s) == MOD then YES else NO)
    ensures CmpValue(v, Ne, s, SymMod) == (if v.tri(s) == MOD then NO else YES)
    ensures CmpValue(v, Eq, s, SymNo) == (if v.tri(s) == NO then YES else NO)
    ensures CmpValue(v, Ne, s, SymNo) == (if v.tri(s) == NO then NO else YES)
    ensures ParseString(v.num, v.str(SymYes), SymYes.Type()).KString?
    ensures ParseString(v.num, v.str(SymMod), SymMod.Type()).KString?
    ensures ParseString(v.num, v.str(SymNo), SymNo.Type()).KString?
  {
    hide CmpValue;
    TriCompare(v, s, SymYes);
    TriCompare(v, s, SymMod);
    TriCompare(v, s, SymNo);
    assert v.str(SymYes) == "y" && v.str(SymMod) == "m" && v.str(SymNo) == "n";
  }

  /** What a constant stands for when a tristate is compared with it: `n`, `m` and `y` by
      their text, a numeral by its number, other text nothing. */
  function Denoted(v: Valuation, c: Symbol): Option<int>
    requires c.Const?
  {
    if c == SymNo then Some(0) else if c == SymMod then Some(1) else if c == SymYes then Some(2)
    else v.num(c.name, SUnknown)
  }

  lemma ConstCompare(v: Valuation, s: Symbol, c: Symbol)
    requires WellTyped(v) && s.Type() == STristate && c.Const?
    ensures CmpValue(v, Eq, s, c) == (if Denoted(v, c) == Some(v.tri(s)) then YES else NO)
    ensures CmpValue(v, Ne, s, c) == (if Denoted(v, c) == Some(v.tri(s)) then NO else YES)
  {
    if c.IsTriConst() {
      TriCompare(v, s, c);
    } else {
      assert v.str(c) == c.name && v.str(s) == TriString(v.tri(s));
    }
  }

  /** The rule for `s = b && s != c` with constants b and c is right exactly when b and c do
      not both stand for the value of s, or are the same constant. */
  lemma ConstRuleExact(v: Valuation, s: Symbol, b: Symbol, c: Symbol)
    requires WellTyped(v) && s.Type() == STristate && b.Const? && c.Const?
    ensures var e1, e2 := ECmp(Eq, s, b), ECmp(Ne, s, c);
            && JoinAnd(e1, e2) == Some(if b != c then e1 else ESym(SymNo))
            && (Eval(JoinAnd(e1, e2).value, v) == Min(Eval(e1, v), Eval(e2, v)) <==>
                b == c || !(Denoted(v, b) == Denoted(v, c) == Some(v.tri(s))))
  {
    ConstCompare(v, s, b);
    ConstCompare(v, s, c);
  }

  predicate AreConstCmps(e1: Expr, e2: Expr) {
    && e1.ECmp? && e2.ECmp? && e1.rhs.Const? && e2.rhs.Const?
    && ((e1.rel == Eq && e2.rel == Ne) || (e1.rel == Ne && e2.rel == Eq))
  }

  lemma JoinAndConstCmps(e1: Expr, e2: Expr, v: Valuation)
    requires WellTyped(v) && Clean(e1, v) && Clean(e2, v) && AreConstCmps(e1, e2)
    requires e1.lhs == e2.lhs && e1.lhs.Type() == STristate
    ensures JoinAnd(e1, e2).Some? && !ExprEq(e1, e2)
    ensures Eval(JoinAnd(e1, e2).value, v) == Min(Eval(e1, v), Eval(e2, v))
  {
    var eq, ne := if e1.rel == Eq then e1 else e2, if e1.rel == Eq then e2 else e1;
    ConstRuleExact(v, e1.lhs, eq.rhs, ne.rhs);
    assert v.str(eq.rhs) == eq.rhs.name && v.str(ne.rhs) == ne.rhs.name;
  }

  lemma JoinAndValue(e1: Expr, e2: Expr, v: Valuation)
    requires WellTyped(v) && Clean(e1, v) && Clean(e2, v) && JoinAnd(e1, e2).Some? && !ExprEq(e1, e2)
    ensures Eval(JoinAnd(e1, e2).value, v) == Min(Eval(e1, v), Eval(e2, v))
  {
    hide CmpValue; hide ExprEq; hide WellTyped; hide Clean;
    var s := JoinSymbol(e1).value;
    TriFacts(s, v);
    if s.Type() == STristate && AreConstCmps(e1, e2) {
      JoinAndConstCmps(e1, e2, v);
    }
  }

  lemma JoinAndClean(e1: Expr, e2: Expr, v: Valuation)
    requires WellTyped(v) && Clean(e1, v) && Clean(e2, v) && JoinAnd(e1, e2).Some?
    ensures Clean(JoinAnd(e1, e2).value, v)
  {
    hide CmpValue; hide ExprEq; hide WellTyped; hide ParseString;
    if !ExprEq(e1, e2) { TriFacts(JoinSymbol(e1).value, v); }
  }

  /** The joined expression is worth what `e1 op e2` is worth, for every clean pair. */
  lemma JoinValue(op: Op, e1: Expr, e2: Expr, v: Valuation)
    requires WellTyped(v) && Clean(e1, v) && Clean(e2, v) && Join(op, e1, e2).Some?
    ensures Eval(Join(op, e1, e2).value, v) == Apply(op, Eval(e1, v), Eval(e2, v))
    ensures Clean(Join(op, e1, e2).value, v)
  {
    if ExprEq(e1, e2) {
      ExprEqSound(e1, e2, v);
    } else if op == AndOp {
      JoinAndValue(e1, e2, v);
      JoinAndClean(e1, e2, v);
    } else {
      JoinOrValue(e1, e2, v);
    }
  }

  /** A join never adds nodes and never makes a new node of the level it joins. */
  lemma JoinSize(op: Op, e1: Expr, e2: Expr)
    requires Join(op, e1, e2).Some?
    ensures Size(Join(op, e1, e2).value) < Size(e1) + Size(e2)
    ensures !IsOp(op, e1) ==> !IsOp(op, Join(op, e1, e2).value)
  {
  }

  /** Without the restriction to text constants the rule for `a = b && a != c` is wrong:
      for a tristate a = y, a = "2" holds (both read as 2) and a != y does not, and the
      rule answers with a = "2". */
  lemma NumeralConstantsBreakJoin(v: Valuation, a: nat)
    requires WellTyped(v) && v.tri(Sym(a, STristate)) == YES && v.num("2", SUnknown) == Some(2)
    ensures var s := Sym(a, STristate);
            var e1, e2 := ECmp(Eq, s, Const("2")), ECmp(Ne, s, SymYes);
            && JoinAnd(e1, e2) == Some(e1)
            && Eval(e1, v) == YES && Min(Eval(e1, v), Eval(e2, v)) == NO
  {
    var s := Sym(a, STristate);
    TriCompare(v, s, SymYes);
    assert v.str(Const("2")) == "2" && v.str(s) == "y";
    assert ParseString(v.num, "2", SUnknown) == KSigned(2);
  }

  // ---- which pairs join

  /** The one of y, m and n that is neither a nor b. */
  function Third(a: Symbol, b: Symbol): Symbol {
    if SymYes !in {a, b} then SymYes else if SymMod !in {a, b} then SymMod else SymNo
  }

  predicate Either(e1: Expr, e2: Expr, a: Expr, b: Expr) { (e1 == a && e2 == b) || (e1 == b && e2 == a) }

  /** For a tristate, two of its values leave out the third; a bool or its negation is y. */
  ghost predicate OrRule(s: Symbol, a: Symbol, b: Symbol, e1: Expr, e2: Expr, r: Expr) {
    if s.Type() == STristate then
      && a != b && a.IsTriConst() && b.IsTriConst()
      && e1 == ECmp(Eq, s, a) && e2 == ECmp(Eq, s, b) && r == ECmp(Ne, s, Third(a, b))
    else s.Type() == SBoolean && Either(e1, e2, ESym(s), ENot(ESym(s))) && r == ESym(SymYes)
  }

  /** With the symbol itself, tests for y, against n and against m; for a tristate, two values
      left out leave the third, and a test for one constant decides a test against another. */
  ghost predicate AndRule(s: Symbol, a: Symbol, b: Symbol, e1: Expr, e2: Expr, r: Expr) {
    && s.IsTri()
    && (
      || (Either(e1, e2, ESym(s), ECmp(Eq, s, SymYes)) && r == ECmp(Eq, s, SymYes))
      || (Either(e1, e2, ESym(s), ECmp(Ne, s, SymNo)) && r == ESym(s))
      || (Either(e1, e2, ESym(s), ECmp(Ne, s, SymMod)) && r == ECmp(Eq, s, SymYes))
      || (s.Type() == STristate && a.Const? && b.Const? && Either(e1, e2, ECmp(Eq, s, a), ECmp(Ne, s, b))
          && r == if a == b then ESym(SymNo) else ECmp(Eq, s, a))
      || (s.Type() == STristate && a != b && a.IsTriConst() && b.IsTriConst()
          && e1 == ECmp(Ne, s, a) && e2 == ECmp(Ne, s, b) && r == ECmp(Eq, s, Third(a, b))))
  }

  /** The disjunctions that join, and what they join to: equal operands and those of OrRule, in
      either order, and no others. */
  lemma JoinOrExact(e1: Expr, e2: Expr, r: Expr)
    ensures JoinOr(e1, e2) == Some(r) <==>
            if ExprEq(e1, e2) then r == e1 else exists s, a, b :: OrRule(s, a, b, e1, e2, r)
  {
    if !ExprEq(e1, e2) && JoinOr(e1, e2) == Some(r) {
      var s := JoinSymbol(e1).value;
      if s.Type() == STristate {
        assert OrRule(s, e1.rhs, e2.rhs, e1, e2, r);
      } else {
        assert OrRule(s, s, s, e1, e2, r);
      }
    }
  }

  /** The same of conjunctions and AndRule. */
  lemma JoinAndExact(e1: Expr, e2: Expr, r: Expr)
    ensures JoinAnd(e1, e2) == Some(r) <==>
            if ExprEq(e1, e2) then r == e1 else exists s, a, b :: AndRule(s, a, b, e1, e2, r)
  {
    if !ExprEq(e1, e2) && JoinAnd(e1, e2) == Some(r) {
      var s := JoinSymbol(e1).value;
      if e1.ECmp? && e2.ECmp? {
        assert AndRule(s, e1.rhs, e2.rhs, e1, e2, r) || AndRule(s, e2.rhs, e1.rhs, e1, e2, r);
      } else {
        assert AndRule(s, s, s, e1, e2, r);
      }
    }
  }
}
