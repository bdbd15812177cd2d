/** How far the superset test of menu_finalize, support/kconfig/menu.c, can go wrong: for which
    entries some prompt condition passes it although that is n. */
module MenuSubmenu {
  import opened KconfigExpr
  import opened ExprEliminateEq
  import opened ExprDups
  import opened ExprTransform
  import opened ExprCompare
  import opened ExprEqual
  import opened ExprPath
  import opened MenuDeps
  import opened SymbolGraph

  /** The test by which an entry with condition dep goes below a symbol whose prompt has
      condition promptDep. */
  predicate PassesSuperset(promptDep: Option<Expr>, dep: Option<Expr>) {
    EliminateEq(Presence(dep), Presence(promptDep)).1 == ESym(SymYes)
  }

  /** A condition that says that s is not n: s, `s = y`, `s = m` or `s != n`. */
  predicate SaysPresent(e: Expr, s: Symbol) {
    e in {ESym(s), ECmp(Eq, s, SymYes), ECmp(Eq, s, SymMod), ECmp(Ne, s, SymNo)}
  }

  /** An entry depends on s absolutely if and only if one operand of its conjunction says that s
      is present, wherever it stands in the conjunction. */
  lemma {:induction false} DependsStated(e: Expr, s: Symbol)
    ensures DependsSymbol(e, s) <==> exists p: Path :: IsOperand(AndOp, e, p) && SaysPresent(Get(AndOp, e, p), s)
  {
    if IsOp(AndOp, e) {
      DependsStated(e.left, s);
      DependsStated(e.right, s);
      if p: Path :| IsOperand(AndOp, e.left, p) && SaysPresent(Get(AndOp, e.left, p), s) {
        OperandBelow(e, false, p);
      }
      if p: Path :| IsOperand(AndOp, e.right, p) && SaysPresent(Get(AndOp, e.right, p), s) {
        OperandBelow(e, true, p);
      }
    } else {
      assert IsOperand(AndOp, e, []) && Get(AndOp, e, []) == e;
    }
  }

  lemma OperandBelow(e: Expr, right: bool, p: Path)
    requires IsOp(AndOp, e) && IsOperand(AndOp, Child(e, right), p)
    ensures IsOperand(AndOp, e, [right] + p) && Get(AndOp, e, [right] + p) == Get(AndOp, Child(e, right), p)
  {
    assert ([right] + p)[1..] == p;
  }

  /** So neither the order nor the grouping of operands matters. */
  lemma {:induction false} DependsByBag(e: Expr, s: Symbol)
    requires s != SymYes
    ensures DependsSymbol(e, s) <==>
            || FSym(s) in Bag(AndOp, e) || FCmp(Eq, s, SymYes) in Bag(AndOp, e)
            || FCmp(Eq, s, SymMod) in Bag(AndOp, e) || FCmp(Ne, s, SymNo) in Bag(AndOp, e)
  {
    if IsOp(AndOp, e) {
      DependsByBag(e.left, s);
      DependsByBag(e.right, s);
      assert Bag(AndOp, e) == Bag(AndOp, e.left) + Bag(AndOp, e.right);
    }
  }

  /** expr_contains_symbol finds a symbol wherever it stands. */
  lemma {:induction false} ContainsStated(e: Expr, s: Symbol)
    ensures ContainsSymbol(e, s) <==> s in Symbols(e)
  {
    match e
    case EBin(_, l, r) =>
      ContainsStated(l, s);
      ContainsStated(r, s);
    case ENot(x) => ContainsStated(x, s);
    case _ =>
  }

  lemma {:induction false} OperandSymbols(e: Expr, p: Path)
    requires IsOperand(AndOp, e, p)
    ensures Symbols(Get(AndOp, e, p)) <= Symbols(e)
  {
    if p != [] { OperandSymbols(Child(e, p[0]), p[1..]); }
  }

  /** What goes below a symbol: every entry one of whose operands says that it is present, and
      every other entry that names it and passes the superset test; nothing else. */
  lemma InSubmenuStated(s: Symbol, promptDep: Option<Expr>, dep: Expr)
    ensures InSubmenu(s, promptDep, Some(dep)) <==>
            || (exists p: Path :: IsOperand(AndOp, dep, p) && SaysPresent(Get(AndOp, dep, p), s))
            || (s in Symbols(dep) && PassesSuperset(promptDep, Some(dep)))
  {
    hide Presence; hide EliminateEq; hide DependsSymbol; hide ContainsSymbol; hide Get; hide OnLevel;
    DependsStated(dep, s);
    ContainsStated(dep, s);
    if p: Path :| IsOperand(AndOp, dep, p) && SaysPresent(Get(AndOp, dep, p), s) {
      OperandSymbols(dep, p);
      PresentNames(Get(AndOp, dep, p), s);
    }
  }

  lemma PresentNames(e: Expr, s: Symbol)
    requires SaysPresent(e, s)
    ensures s in Symbols(e)
  {
  }

  /** Normal, and the only symbols that stand as conditions are bools. */
  predicate Shown(e: Expr) {
    match e
    case ESym(s) => s.Type() == SBoolean
    case ECmp(_, _, _) => Normal(e)
    case EBin(_, l, r) => Shown(l) && Shown(r)
    case ENot(x) => x.ESym? && x.sym.Type() == SBoolean
  }

  lemma {:induction false} ShownFacts(e: Expr)
    requires Shown(e)
    ensures Normal(e) && Logical(e) && Plain(e) && !IsYn(e) && Transform(e) == e
  {
    match e
    case EBin(_, l, r) =>
      ShownFacts(l);
      ShownFacts(r);
    case _ =>
  }

  /** Negating twice gives the same expression back. */
  lemma {:induction false} ShownTwice(e: Expr)
    requires Shown(e)
    ensures Shown(Transform(ENot(e))) && Transform(ENot(Transform(ENot(e)))) == e
  {
    ShownFacts(e);
    match e
    case EBin(op, l, r) =>
      ShownTwice(l);
      ShownTwice(r);
      var (l', r') := (Transform(ENot(l)), Transform(ENot(r)));
      ShownFacts(l');
      ShownFacts(r');
      NotOfBin(op, l, r);
      NotOfBin(Dual(op), l', r');
    case ENot(x) => assert Transform(ENot(x)) == ENot(x) && Transform(ENot(ENot(x))) == x by { DoubleNegation(x.sym); }
    case ESym(s) => assert Transform(ENot(e)) == ENot(e) && Transform(ENot(ENot(e))) == e by { DoubleNegation(s); }
    case ECmp(rel, a, b) =>
      var e' := ECmp(Negated(rel), a, b);
      assert Transform(ENot(e)) == e' && Transform(e') == e' && Transform(ENot(e')) == ECmp(Negated(Negated(rel)), a, b);
  }

  /** The negation of a conjunction or disjunction that is already transformed. */
  lemma NotOfBin(op: Op, l: Expr, r: Expr)
    requires Transform(l) == l && Transform(r) == r
    ensures Transform(ENot(EBin(op, l, r))) == EBin(Dual(op), Transform(ENot(l)), Transform(ENot(r)))
  {
    assert Transform(EBin(op, l, r)) == EBin(op, l, r);
    assert TransformNot(EBin(op, l, r)) == Transform(EBin(Dual(op), ENot(l), ENot(r)));
  }

  /** What the comparison with n, simplified, makes of a normal expression. */
  function Tested(e: Expr, ne: bool): Expr { Transform(TransCompare(e, ne, SymNo)) }

  lemma TestedBin(op: Op, l: Expr, r: Expr, ne: bool)
    requires Shown(Tested(l, false)) && Shown(Tested(r, false))
    ensures var both := EBin(Dual(op), Tested(l, false), Tested(r, false));
            Tested(EBin(op, l, r), ne) == if ne then Transform(ENot(both)) else both
  {
    ShownFacts(Tested(l, false));
    ShownFacts(Tested(r, false));
    var inner := EBin(Dual(op), TransCompare(l, false, SymNo), TransCompare(r, false, SymNo));
    var both := EBin(Dual(op), Tested(l, false), Tested(r, false));
    assert Transform(inner) == both && Transform(both) == both;
    assert Transform(ENot(inner)) == TransformNot(both) == Transform(ENot(both));
  }

  lemma {:induction false} TestedShown(e: Expr, ne: bool)
    requires Normal(e)
    ensures Shown(Tested(e, ne))
  {
    match e
    case EBin(op, l, r) =>
      TestedShown(l, false);
      TestedShown(r, false);
      TestedBin(op, l, r, ne);
      var both := EBin(Dual(op), Tested(l, false), Tested(r, false));
      assert Shown(both);
      ShownTwice(both);
    case ENot(x) => TestedSymbol(x.sym, !ne);
    case ESym(s) => TestedSymbol(s, ne);
    case ECmp(rel, a, b) =>
      assert Transform(e) == e && Transform(ENot(e)) == ECmp(Negated(rel), a, b);
  }

  lemma TestedSymbol(s: Symbol, ne: bool)
    ensures Shown(Tested(ESym(s), ne))
    ensures s.Type() == SBoolean ==> Tested(ESym(s), ne) == if ne then ESym(s) else ENot(ESym(s))
  {
  }

  /** Such a condition is tested for what it says, and tests alike. */
  lemma {:induction false} TestedFixed(e: Expr, ne: bool)
    requires Shown(e)
    ensures Tested(e, ne) == if ne then e else Transform(ENot(e))
  {
    ShownFacts(e);
    match e
    case EBin(op, l, r) =>
      TestedFixed(l, false);
      TestedFixed(r, false);
      ShownTwice(l);
      ShownTwice(r);
      TestedBin(op, l, r, ne);
      var (l', r') := (Transform(ENot(l)), Transform(ENot(r)));
      ShownFacts(l);
      ShownFacts(r);
      ShownFacts(l');
      ShownFacts(r');
      NotOfBin(op, l, r);
      NotOfBin(Dual(op), l', r');
    case ENot(x) =>
      TestedSymbol(x.sym, !ne);
      DoubleNegation(x.sym);
    case ESym(s) => TestedSymbol(s, ne);
    case ECmp(rel, a, b) => assert Transform(ENot(e)) == ECmp(Negated(rel), a, b);
  }

  lemma {:induction false} EliminateDupsHasNoYn(e: Expr)
    requires !HasYn(e)
    ensures !HasYn(EliminateDups(e))
    decreases Size(e)
  {
    if e.EBin? {
      Dups1Count(e.op, e, [], []);
      var pass := Dups1(e.op, e, [], []);
      if pass.joins > 0 {
        EliminateYnShrinks(pass.tree);
        EliminateDupsHasNoYn(EliminateYn(pass.tree));
      }
    }
  }

  lemma {:induction false} NormalPlain(e: Expr)
    requires Normal(e) && !HasYn(e)
    ensures Plain(e)
  {
    match e
    case EBin(_, l, r) =>
      NormalPlain(l);
      NormalPlain(r);
    case _ =>
  }

  /** The presence of a normal condition has no y or n inside. */
  lemma PresencePlain(e: Expr)
    requires Normal(e)
    ensures Presence(Some(e)) == EliminateDups(Tested(e, true)) && Plain(Presence(Some(e)))
  {
    TestedShown(e, true);
    ShownFacts(Tested(e, true));
    PlainHasNoYn(Tested(e, true));
    EliminateDupsHasNoYn(Tested(e, true));
    EliminateDupsNormal(Tested(e, true));
    NormalPlain(Presence(Some(e)));
  }

  /** A conjunction takes all of itself out of itself. */
  lemma {:induction false} ClearedUnit(op: Op, e: Expr)
    requires !HasYn(e) && !IsYn(e)
    ensures EliminateYn(Cleared(op, e)) == ESym(Unit(op))
  {
    if IsOp(op, e) {
      ClearedUnit(op, e.left);
      ClearedUnit(op, e.right);
    }
  }

  lemma AndPassesItself(e: Expr)
    requires IsOp(AndOp, e) && Plain(e)
    ensures EliminateEq(e, e).1 == ESym(SymYes)
  {
    SelfWalk(AndOp, e, [], e);
    ClearedSpent(AndOp, e);
    PlainHasNoYn(e);
    ClearedUnit(AndOp, e);
  }

  lemma {:induction false} BagSize(op: Op, e: Expr)
    requires Plain(e) && !IsYn(e)
    ensures |Bag(op, e)| >= if IsOp(op, e) then 2 else 1
    ensures !IsOp(op, e) ==> |Bag(op, e)| == 1
  {
    if IsOp(op, e) {
      BagSize(op, e.left);
      BagSize(op, e.right);
    }
  }

  /** One operand takes at most one out of a conjunction. */
  lemma OneTakesOne(p: Expr, x: Expr)
    requires Plain(p) && Plain(x) && !IsOp(AndOp, p) && IsOp(AndOp, x) && p != ESym(SymYes)
    ensures EliminateYn(EliminateOperands(AndOp, p, x).1) != ESym(SymYes)
  {
    hide EliminateYn; hide EliminateOperands;
    PlainLevel(AndOp, x);
    BagSize(AndOp, x);
    if p == ESym(SymNo) {
      ConstWalk(AndOp, p, x);
      LevelReduced(AndOp, x);
    } else {
      PlainLevel(AndOp, p);
      BagSize(AndOp, p);
      WalkBags(AndOp, p, x);
      LevelReduced(AndOp, EliminateOperands(AndOp, p, x).1);
      assert Bag(AndOp, x) - Bag(AndOp, p) != multiset{};
    }
  }

  lemma {:induction false} LeftAlone(op: Op, e: Expr, x: Expr)
    requires !IsOp(op, x) && !IsYn(x)
    ensures var d := EliminateOperands(op, e, x);
            (d.1 == x && d.0 == e) || d.1 == ESym(Unit(op))
  {
    if IsOp(op, e) {
      LeftAlone(op, e.left, x);
      var d := EliminateOperands(op, e.left, x).1;
      if d == x { LeftAlone(op, e.right, x); } else { FoundNoMore(op, e.right); }
    }
  }

  lemma {:induction false} FoundNoMore(op: Op, e: Expr)
    ensures EliminateOperands(op, e, ESym(Unit(op))).1 == ESym(Unit(op))
  {
    if IsOp(op, e) {
      FoundNoMore(op, e.left);
      FoundNoMore(op, e.right);
    }
  }

  /** A walk over two disjunctions leaves no y. */
  lemma OrLeavesNoYes(p: Expr, x: Expr)
    requires Plain(p) && Plain(x) && p != ESym(SymYes) && x != ESym(SymYes)
    ensures EliminateYn(EliminateOperands(OrOp, p, x).1) != ESym(SymYes)
  {
    if p != ESym(SymNo) { PlainLevel(OrOp, p); }
    if x != ESym(SymNo) { PlainLevel(OrOp, x); }
    WalkBags(OrOp, p, x);
    LevelReduced(OrOp, EliminateOperands(OrOp, p, x).1);
  }

  /** Anything but a conjunction leaves y only of y. */
  lemma OthersPassNothing(p: Expr, x: Expr)
    requires Plain(p) && Plain(x) && !IsOp(AndOp, p) && p != ESym(SymYes)
    requires EliminateEq(p, x).1 == ESym(SymYes)
    ensures x == ESym(SymYes)
  {
    hide Plain; hide EliminateOperands; hide EliminateYn;
    if x != ESym(SymYes) {
      OrLeavesNoYes(p, x);
      if IsOp(AndOp, x) {
        LeftAlone(OrOp, p, x);
        OneTakesOne(p, x);
      } else {
        LeafReduced(x);
        if x == ESym(SymNo) { FoundNoMore(OrOp, p); } else if !x.EBin? { LeftAlone(OrOp, p, x); }
      }
    }
  }

  lemma LeafReduced(x: Expr)
    ensures !x.EBin? ==> EliminateYn(x) == x
  {
  }

  /** The simplified `dep != n`, as a condition of its own: it says whether dep, every m read as
      y, is not n, and its presence is that of dep. */
  lemma TestedAsPrompt(dep: Expr, v: Valuation)
    requires WellTyped(v) && Normal(dep) && Logical(dep) && Clean(dep, v)
    ensures var q := Tested(dep, true);
            && Normal(q) && Logical(q) && Clean(q, v) && Presence(Some(q)) == Presence(Some(dep))
            && Eval(q, v) == Truth(Eval(dep, Collapsed(v, SymNo)) != NO)
  {
    hide WellTyped; hide Collapsed; hide EliminateDups;
    var q := Tested(dep, true);
    TestedShown(dep, true);
    ShownFacts(q);
    TestedFixed(q, true);
    TransCompareClean(dep, true, SymNo, v);
    TransCompareCollapses(dep, true, SymNo, v);
    TransformValue(TransCompare(dep, true, SymNo), v);
    assert v.tri(SymNo) == NO by { NoIsNo(v); }
  }

  lemma NoIsNo(v: Valuation)
    requires WellTyped(v)
    ensures v.tri(SymNo) == NO && v.tri(SymYes) == YES
  {
  }

  /** q is n and yet passes the test for dep. */
  ghost predicate WronglyPasses(q: Expr, dep: Expr, v: Valuation) {
    Normal(q) && Logical(q) && Clean(q, v) && Eval(q, v) == NO && PassesSuperset(Some(q), Some(dep))
  }

  /** For an entry whose condition, every m read as y, is n: some prompt condition that is n too
      passes the superset test for it if and only if the simplified `dep != n` is a conjunction. */
  lemma SupersetExact(dep: Expr, v: Valuation)
    requires WellTyped(v) && Normal(dep) && Logical(dep) && Clean(dep, v)
    requires Eval(dep, Collapsed(v, SymNo)) == NO
    ensures (exists q: Expr :: WronglyPasses(q, dep, v)) <==> IsOp(AndOp, Presence(Some(dep)))
  {
    hide Presence; hide Tested; hide EliminateEq; hide Plain; hide WellTyped;
    var p := Presence(Some(dep));
    PresencePlain(dep);
    PresenceValue(Some(dep), v);
    NoIsNo(v);
    if IsOp(AndOp, p) {
      TestedAsPrompt(dep, v);
      AndPassesItself(p);
      assert WronglyPasses(Tested(dep, true), dep, v);
    } else if q: Expr :| WronglyPasses(q, dep, v) {
      PresencePlain(q);
      PresenceValue(Some(q), v);
      OthersPassNothing(p, Presence(Some(q)));
    }
  }
}
