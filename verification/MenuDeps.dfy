/** The propagation of parent dependencies in menu_finalize, support/kconfig/menu.c: how one
    menu node's and one property's condition is rewritten, and the submenu tests. */
module MenuDeps {
  import opened KconfigExpr
  import opened ExprEliminateEq
  import opened ExprJoin
  import opened ExprPath
  import opened ExprDups
  import opened ExprTransform
  import opened ExprCompare

  function MapOpt(e: Option<Expr>, f: Expr -> Expr): Option<Expr> {
    match e case None => None case Some(x) => Some(f(x))
  }

  /** expr_alloc_and */
  function AllocAnd(a: Option<Expr>, b: Option<Expr>): Option<Expr> {
    if a.None? then b else if b.None? then a else Some(EBin(AndOp, a.value, b.value))
  }

  /** rewrite_m: `m` becomes `m && MODULES`. */
  function RewriteM(e: Expr, modules: Symbol): Expr {
    match e
    case ENot(x) => ENot(RewriteM(x, modules))
    case EBin(op, l, r) => EBin(op, RewriteM(l, modules), RewriteM(r, modules))
    case ESym(s) => if s == SymMod then EBin(AndOp, e, ESym(modules)) else e
    case ECmp(_, _, _) => e
  }

  /** The condition of a menu node or property: its own, rewritten, under its parent's. */
  function Propagate(parentDep: Option<Expr>, dep: Option<Expr>, modules: Symbol): Option<Expr> {
    var own := MapOpt(dep, x => Transform(RewriteM(x, modules)));
    MapOpt(AllocAnd(parentDep, own), EliminateDups)
  }

  /** A property of a symbol that is not a tristate is also run through expr_trans_bool. */
  function PropagateProp(parentDep: Option<Expr>, dep: Option<Expr>, modules: Symbol, tristateSym: bool): Option<Expr> {
    var d := Propagate(parentDep, dep, modules);
    if tristateSym then d else MapOpt(d, TransBool)
  }

  function ModularTri(v: Valuation, modules: Symbol, s: Symbol): Tristate {
    if s == SymMod then Min(MOD, v.tri(modules)) else v.tri(s)
  }

  /** The valuation in which the constant m is worth n while MODULES is n. */
  function Modular(v: Valuation, modules: Symbol): Valuation {
    v.(tri := s => ModularTri(v, modules, s))
  }

  lemma {:induction false} RewriteMValue(e: Expr, modules: Symbol, v: Valuation)
    requires v.tri(SymMod) == MOD
    ensures Eval(RewriteM(e, modules), v) == Eval(e, Modular(v, modules))
    ensures Clean(e, v) ==> Clean(RewriteM(e, modules), v)
  {
    match e
    case ENot(x) => RewriteMValue(x, modules, v);
    case EBin(_, l, r) =>
      RewriteMValue(l, modules, v);
      RewriteMValue(r, modules, v);
    case ESym(_) =>
    case ECmp(_, l, r) => assert Modular(v, modules).str == v.str;
  }

  predicate NormalOpt(e: Option<Expr>) { e.Some? ==> Normal(e.value) }

  lemma JoinNormal(op: Op, e1: Expr, e2: Expr)
    requires Normal(e1) && Normal(e2) && Join(op, e1, e2).Some?
    ensures Normal(Join(op, e1, e2).value)
  {
  }

  lemma {:induction false} PutNormal(op: Op, e: Expr, p: Path, x: Expr)
    requires OnLevel(op, e, p) && Normal(e)
    ensures Normal(Get(op, e, p))
    ensures Normal(x) ==> Normal(Put(op, e, p, x))
  {
    if p != [] {
      PutNormal(op, Child(e, p[0]), p[1..], x);
    }
  }

  lemma {:induction false} EliminateYnNormal(e: Expr)
    requires Normal(e)
    ensures Normal(EliminateYn(e))
  {
    match e
    case EBin(_, l, r) =>
      EliminateYnNormal(l);
      EliminateYnNormal(r);
    case _ =>
  }

  lemma {:induction false} Dups1Normal(op: Op, e: Expr, p: Path, q: Path)
    requires Normal(e) && OnLevel(op, e, p) && OnLevel(op, e, q)
    ensures Normal(Dups1(op, e, p, q).tree)
    decreases Size(e), LevelSize(op, Get(op, e, p)) + LevelSize(op, Get(op, e, q)), 1
  {
    hide OnLevel; hide Get; hide LevelSize; hide SameLevel; hide Normal; hide JoinAt; hide Join; hide DupsInside;
    if IsOp(op, Get(op, e, p)) {
      FirstSteps(op, e, p, q);
      var a := Dups1(op, e, p + [false], q);
      Dups1Normal(op, e, p + [false], q);
      Dups1Normal(op, a.tree, p + [true], q);
    } else if IsOp(op, Get(op, e, q)) {
      SecondSteps(op, e, p, q);
      var a := Dups1(op, e, p, q + [false]);
      Dups1Normal(op, e, p, q + [false]);
      Dups1Normal(op, a.tree, p, q + [true]);
    } else if p != q {
      DupsInsideNormal(op, e, p, q);
      var inner := DupsInside(op, e, p, q).tree;
      var j := Join(op, Get(op, inner, p), Get(op, inner, q));
      if j.Some? {
        JoinSize(op, Get(op, inner, p), Get(op, inner, q));
        JoinedNormal(op, inner, p, q);
      }
    }
  }

  lemma {:induction false} DupsInsideNormal(op: Op, e: Expr, p: Path, q: Path)
    requires Normal(e) && IsOperand(op, e, p) && IsOperand(op, e, q) && p != q
    ensures Normal(DupsInside(op, e, p, q).tree)
    decreases Size(e), 0, 0
  {
    assert p == [] ==> q == [];
    var e1 := Get(op, e, p);
    if e1.EBin? {
      PutNormal(op, e, p, Dups1(e1.op, e1, [], []).tree);
      Dups1Normal(e1.op, e1, [], []);
    }
  }

  lemma JoinedNormal(op: Op, e: Expr, p: Path, q: Path)
    requires Normal(e) && IsOperand(op, e, p) && IsOperand(op, e, q) && p != q
    requires Join(op, Get(op, e, p), Get(op, e, q)).Some?
    requires !IsOp(op, Join(op, Get(op, e, p), Get(op, e, q)).value)
    requires Size(Join(op, Get(op, e, p), Get(op, e, q)).value) < Size(Get(op, e, p)) + Size(Get(op, e, q))
    ensures Normal(JoinAt(op, e, p, q, Join(op, Get(op, e, p), Get(op, e, q)).value))
  {
    var unit := ESym(Unit(op));
    PutNormal(op, e, p, unit);
    PutNormal(op, e, q, unit);
    PutGetOther(op, e, p, q, unit);
    JoinNormal(op, Get(op, e, p), Get(op, e, q));
    PutNormal(op, Put(op, e, p, unit), q, Join(op, Get(op, e, p), Get(op, e, q)).value);
  }

  lemma {:induction false} EliminateDupsNormal(e: Expr)
    requires Normal(e)
    ensures Normal(EliminateDups(e))
    decreases Size(e)
  {
    if e.EBin? {
      var pass := Dups1(e.op, e, [], []);
      if pass.joins > 0 {
        Dups1Count(e.op, e, [], []);
        EliminateYnShrinks(pass.tree);
        Dups1Normal(e.op, e, [], []);
        EliminateYnNormal(pass.tree);
        EliminateDupsNormal(EliminateYn(pass.tree));
      }
    }
  }

  /** The propagated condition is worth exactly the smaller of the parent's and the node's
      own, where m counts as n without modules; it stays clean and normal. */
  lemma PropagateExact(parentDep: Option<Expr>, dep: Option<Expr>, modules: Symbol, v: Valuation)
    requires WellTyped(v) && CleanOpt(parentDep, v) && CleanOpt(dep, v)
    ensures var d := Propagate(parentDep, dep, modules);
            && EvalOpt(d, v) == Min(EvalOpt(parentDep, v), EvalOpt(dep, Modular(v, modules)))
            && CleanOpt(d, v)
  {
    var own := MapOpt(dep, x => Transform(RewriteM(x, modules)));
    if dep.Some? {
      RewriteMValue(dep.value, modules, v);
      TransformValue(RewriteM(dep.value, modules), v);
    }
    var both := AllocAnd(parentDep, own);
    if both.Some? {
      EliminateDupsValue(both.value, v);
    }
  }

  /** Conditions stay in normal form from the root of the menu tree to its leaves. */
  lemma PropagateNormal(parentDep: Option<Expr>, dep: Option<Expr>, modules: Symbol)
    requires NormalOpt(parentDep)
    ensures NormalOpt(Propagate(parentDep, dep, modules))
  {
    var own := MapOpt(dep, x => Transform(RewriteM(x, modules)));
    if dep.Some? {
      TransformNormal(RewriteM(dep.value, modules));
    }
    var both := AllocAnd(parentDep, own);
    if both.Some? {
      EliminateDupsNormal(both.value);
    }
  }

  /** expr_trans_bool on a property keeps whether it is n, because the parent's condition is
      normal; so it keeps the property's value after a bool's m counts as y. */
  lemma PropagatePropVisible(parentDep: Option<Expr>, dep: Option<Expr>, modules: Symbol, v: Valuation)
    requires WellTyped(v) && CleanOpt(parentDep, v) && CleanOpt(dep, v) && NormalOpt(parentDep)
    ensures var d, exact := PropagateProp(parentDep, dep, modules, false),
                            Min(EvalOpt(parentDep, v), EvalOpt(dep, Modular(v, modules)));
            && (EvalOpt(d, v) == NO <==> exact == NO)
            && EvalOpt(d, v) <= exact
            && CleanOpt(d, v)
  {
    PropagateExact(parentDep, dep, modules, v);
    PropagateNormal(parentDep, dep, modules);
    var d := Propagate(parentDep, dep, modules);
    if d.Some? {
      NormalNoNegatedModTest(d.value, v);
      TransBoolValue(d.value, v);
    }
  }

  /** `e != n`, simplified, as the submenu test prepares both sides. */
  function Presence(e: Option<Expr>): Expr {
    EliminateDups(Transform(TransCompareOpt(e, true, SymNo)))
  }

  /** The test whether the entry with condition dep goes into the submenu of sym, whose own
      prompt has condition promptDep (menu.c, menu_finalize). */
  predicate InSubmenu(sym: Symbol, promptDep: Option<Expr>, dep: Option<Expr>) {
    && dep.Some? && ContainsSymbol(dep.value, sym)
    && (DependsSymbol(dep.value, sym) || EliminateEq(Presence(dep), Presence(promptDep)).1 == ESym(SymYes))
  }

  /** `e != n` is tested with every m of e read as y. */
  lemma PresenceValue(e: Option<Expr>, v: Valuation)
    requires WellTyped(v) && CleanOpt(e, v) && (e.Some? ==> Logical(e.value))
    ensures e.Some? ==> Eval(Presence(e), v) == Truth(Eval(e.value, Collapsed(v, SymNo)) != NO)
    ensures e.Some? && NoNegatedMod(e.value, v) ==> Eval(Presence(e), v) == Truth(EvalOpt(e, v) != NO)
    ensures NormalOpt(e) ==> Eval(Presence(e), v) <= Truth(EvalOpt(e, v) != NO)
  {
    var x := TransCompareOpt(e, true, SymNo);
    if e.Some? {
      TransCompareClean(e.value, true, SymNo, v);
      TransCompareCollapses(e.value, true, SymNo, v);
      if NoNegatedMod(e.value, v) { TransCompareValue(e.value, true, SymNo, v); }
      if Normal(e.value) { TransCompareBelow(e.value, true, v); }
    }
    TransformValue(x, v);
    EliminateDupsValue(Transform(x), v);
  }

  /** When an entry in the submenu of sym is visible, so is sym. If the entry was put there for
      depending on sym, sym is not n. If it was put there by the superset test, the prompt of
      sym is visible wherever the entry's condition is, m read as y, not n; where no negated
      operand is m that is wherever the condition is not n. */
  lemma SubmenuFollowsSymbol(sym: Symbol, promptDep: Option<Expr>, dep: Option<Expr>, v: Valuation)
    requires WellTyped(v) && sym.IsTri() && InSubmenu(sym, promptDep, dep)
    requires CleanOpt(promptDep, v) && NormalOpt(promptDep) && (promptDep.Some? ==> Logical(promptDep.value))
    requires Clean(dep.value, v) && Logical(dep.value)
    ensures DependsSymbol(dep.value, sym) && EvalOpt(dep, v) != NO ==> v.tri(sym) != NO
    ensures !DependsSymbol(dep.value, sym) && Eval(dep.value, Collapsed(v, SymNo)) != NO ==>
              EvalOpt(promptDep, v) != NO
    ensures !DependsSymbol(dep.value, sym) && NoNegatedMod(dep.value, v) && EvalOpt(dep, v) != NO ==>
              EvalOpt(promptDep, v) != NO
  {
    if DependsSymbol(dep.value, sym) {
      DependsSymbolSound(dep.value, sym, v);
    } else {
      PresenceValue(dep, v);
      PresenceValue(promptDep, v);
      ReducedToYes(Presence(dep), Presence(promptDep), v);
    }
  }

  /** `(S || Q) && !A`, and the prompt condition `A = n` of S. */
  function NegatedEntry(s: Symbol, q: Symbol, a: Symbol): Expr {
    EBin(AndOp, EBin(OrOp, ESym(s), ESym(q)), ENot(ESym(a)))
  }

  function AbsentPrompt(a: Symbol): Expr { ECmp(Eq, a, SymNo) }

  lemma NoJoinOfTwo(op: Op, l: Expr, r: Expr)
    requires !IsOp(op, l) && !IsOp(op, r) && Joinless(l) && Joinless(r)
    requires Join(op, l, r).None? && Join(op, r, l).None?
    ensures EliminateDups(EBin(op, l, r)) == EBin(op, l, r)
    ensures Joinless(EBin(op, l, r))
  {
    var e := EBin(op, l, r);
    var (p, q) := ([false], [true]);
    assert Get(op, e, p) == l && Get(op, e, q) == r;
    assert JoinlessPairs(op, e, p, p) && JoinlessPairs(op, e, p, q);
    assert JoinlessPairs(op, e, q, p) && JoinlessPairs(op, e, q, q);
    assert JoinlessPairs(op, e, p, []) && JoinlessPairs(op, e, q, []) by {
      assert [] + [false] == p && [] + [true] == q;
    }
    assert JoinlessPairs(op, e, [], []) by {
      assert [] + [false] == p && [] + [true] == q;
    }
    EliminateDupsDone(e);
  }

  lemma NegatedEntryPresence(s: Symbol, q: Symbol, a: Symbol)
    requires s.Type() == SBoolean && q.Type() == SBoolean && s != q && a.Type() == STristate
    ensures Presence(Some(NegatedEntry(s, q, a))) == EBin(AndOp, EBin(OrOp, ESym(s), ESym(q)), AbsentPrompt(a))
  {
    var either := EBin(OrOp, ESym(s), ESym(q));
    var none := EBin(AndOp, ENot(ESym(s)), ENot(ESym(q)));
    var compared := EBin(OrOp, EBin(AndOp, ECmp(Eq, s, SymNo), ECmp(Eq, q, SymNo)), ECmp(Ne, a, SymNo));
    assert TransCompare(NegatedEntry(s, q, a), true, SymNo) == ENot(compared) by {
      assert TransCompare(either, false, SymNo) == EBin(AndOp, ECmp(Eq, s, SymNo), ECmp(Eq, q, SymNo));
      assert TransCompare(ENot(ESym(a)), false, SymNo) == ECmp(Ne, a, SymNo);
    }
    assert Transform(compared) == EBin(OrOp, none, ECmp(Ne, a, SymNo)) by {
      assert Transform(EBin(AndOp, ECmp(Eq, s, SymNo), ECmp(Eq, q, SymNo))) == none;
      assert Transform(ECmp(Ne, a, SymNo)) == ECmp(Ne, a, SymNo);
    }
    DoubleNegation(s);
    DoubleNegation(q);
    assert Transform(ENot(none)) == either by {
      TransformFixesNormal(none);
      assert Transform(EBin(OrOp, ENot(ENot(ESym(s))), ENot(ENot(ESym(q))))) == either;
    }
    assert Transform(ENot(compared)) == EBin(AndOp, either, AbsentPrompt(a)) by {
      assert Transform(ENot(ECmp(Ne, a, SymNo))) == AbsentPrompt(a);
      assert Transform(EBin(AndOp, ENot(none), ENot(ECmp(Ne, a, SymNo)))) == EBin(AndOp, either, AbsentPrompt(a));
    }
    NoJoinOfTwo(OrOp, ESym(s), ESym(q));
    NoJoinOfTwo(AndOp, either, AbsentPrompt(a));
  }

  lemma DoubleNegation(s: Symbol)
    requires !s.IsTriConst()
    ensures Transform(ENot(ENot(ESym(s)))) == ESym(s)
  {
    assert Transform(ENot(ESym(s))) == ENot(ESym(s));
    assert TransformNot(ENot(ESym(s))) == Transform(ESym(s));
  }

  lemma NegatedEntryInSubmenu(s: Symbol, q: Symbol, a: Symbol)
    requires s.Type() == SBoolean && q.Type() == SBoolean && s != q && a.Type() == STristate
    ensures InSubmenu(s, Some(AbsentPrompt(a)), Some(NegatedEntry(s, q, a)))
    ensures !DependsSymbol(NegatedEntry(s, q, a), s)
  {
    NegatedEntryPresence(s, q, a);
    var (l, r) := (EBin(OrOp, ESym(s), ESym(q)), AbsentPrompt(a));
    assert Presence(Some(r)) == r;
    assert EliminateOperands(AndOp, l, r) == (l, r);
    assert EliminateOperands(AndOp, r, r) == (ESym(SymYes), ESym(SymYes));
    assert EliminateOperands(AndOp, EBin(AndOp, l, r), r) == (EBin(AndOp, l, ESym(SymYes)), ESym(SymYes));
  }

  /** The superset test is wrong for a negated tristate exactly when that is m: the entry is
      then visible, if S or Q is not n, while the prompt of S is not. */
  lemma NegatedEntryExact(s: Symbol, q: Symbol, a: Symbol, v: Valuation)
    requires WellTyped(v) && (v.tri(s) != NO || v.tri(q) != NO)
    requires s.Type() == SBoolean && q.Type() == SBoolean && s != q && a.Type() == STristate
    ensures InSubmenu(s, Some(AbsentPrompt(a)), Some(NegatedEntry(s, q, a)))
    ensures (Eval(NegatedEntry(s, q, a), v) != NO ==> Eval(AbsentPrompt(a), v) != NO) <==> v.tri(a) != MOD
  {
    NegatedEntryInSubmenu(s, q, a);
    TriCompare(v, a, SymNo);
    assert Eval(EBin(OrOp, ESym(s), ESym(q)), v) == Max(v.tri(s), v.tri(q));
    assert Eval(ENot(ESym(a)), v) == 2 - v.tri(a);
  }
}
