/** expr_eliminate_dups and its pairwise walk, support/kconfig/expr.c. */
module ExprDups {
  import opened KconfigExpr
  import opened ExprEliminateEq
  import opened ExprJoin
  import opened ExprPath

  /** One join of two different operands p and q: the first becomes the unit, the second the
      joined expression. */
  function JoinAt(op: Op, e: Expr, p: Path, q: Path, joined: Expr): (r: Expr)
    requires IsOperand(op, e, p) && IsOperand(op, e, q) && p != q && !IsOp(op, joined)
    requires Size(joined) < Size(Get(op, e, p)) + Size(Get(op, e, q))
    ensures SameLevel(op, e, r) && Size(r) <= Size(e)
  {
    PutGetOther(op, e, p, q, ESym(Unit(op)));
    PutSameLevel(op, e, p, ESym(Unit(op)));
    var e' := Put(op, e, p, ESym(Unit(op)));
    PutSameLevel(op, e', q, joined);
    SameLevelTrans(op, e, e', Put(op, e', q, joined));
    Put(op, e', q, joined)
  }

  /** The new tree and the number of joins made in it. */
  datatype Pass = Pass(tree: Expr, joins: nat)

  /** expr_eliminate_dups1 with both pointers in one tree. */
  function Dups1(op: Op, e: Expr, p: Path, q: Path): (r: Pass)
    requires OnLevel(op, e, p) && OnLevel(op, e, q)
    ensures SameLevel(op, e, r.tree) && Size(r.tree) <= Size(e)
    decreases Size(e), LevelSize(op, Get(op, e, p)) + LevelSize(op, Get(op, e, q))
  {
    SameLevelRefl(op, e);
    if IsOp(op, Get(op, e, p)) then
      OnLevelChild(op, e, p, false);
      OnLevelChild(op, e, p, true);
      var a := Dups1(op, e, p + [false], q);
      LevelKept(op, e, a.tree, p + [true], q);
      var b := Dups1(op, a.tree, p + [true], q);
      SameLevelTrans(op, e, a.tree, b.tree);
      Pass(b.tree, a.joins + b.joins)
    else if IsOp(op, Get(op, e, q)) then
      OnLevelChild(op, e, q, false);
      OnLevelChild(op, e, q, true);
      var a := Dups1(op, e, p, q + [false]);
      LevelKept(op, e, a.tree, q + [true], p);
      var b := Dups1(op, a.tree, p, q + [true]);
      SameLevelTrans(op, e, a.tree, b.tree);
      Pass(b.tree, a.joins + b.joins)
    else if p == q then Pass(e, 0)
    else
      var inner := DupsInside(op, e, p, q);
      match Join(op, Get(op, inner.tree, p), Get(op, inner.tree, q))
      case None => inner
      case Some(x) =>
        JoinSize(op, Get(op, inner.tree, p), Get(op, inner.tree, q));
        SameLevelTrans(op, e, inner.tree, JoinAt(op, inner.tree, p, q, x));
        Pass(JoinAt(op, inner.tree, p, q, x), inner.joins + 1)
  }

  /** The operand at p is an && or || of the other kind: its own pairs first. */
  function DupsInside(op: Op, e: Expr, p: Path, q: Path): (r: Pass)
    requires IsOperand(op, e, p) && IsOperand(op, e, q) && p != q
    ensures SameLevel(op, e, r.tree) && Size(r.tree) <= Size(e)
    ensures IsOperand(op, r.tree, p) && IsOperand(op, r.tree, q)
    ensures Get(op, r.tree, q) == Get(op, e, q)
    decreases Size(e), 0
  {
    SameLevelRefl(op, e);
    var e1 := Get(op, e, p);
    assert p == [] ==> q == [];
    if e1.EBin? then
      var inner := Dups1(e1.op, e1, [], []);
      PutSameLevel(op, e, p, inner.tree);
      PutGetOther(op, e, p, q, inner.tree);
      PutGetOther(op, e, p, p, inner.tree);
      Pass(Put(op, e, p, inner.tree), inner.joins)
    else Pass(e, 0)
  }

  lemma LevelKept(op: Op, e: Expr, e': Expr, p: Path, q: Path)
    requires SameLevel(op, e, e') && OnLevel(op, e, p) && OnLevel(op, e, q)
    ensures OnLevel(op, e', p) && OnLevel(op, e', q)
    ensures LevelSize(op, Get(op, e', p)) == LevelSize(op, Get(op, e, p))
    ensures LevelSize(op, Get(op, e', q)) == LevelSize(op, Get(op, e, q))
  {
    SameLevelPath(op, e, e', p);
    SameLevelPath(op, e, e', q);
    SameLevelSize(op, Get(op, e, p), Get(op, e', p));
    SameLevelSize(op, Get(op, e, q), Get(op, e', q));
  }

  /** One step of the walk while p is not an operand: everything its two halves need. */
  lemma FirstSteps(op: Op, e: Expr, p: Path, q: Path)
    requires OnLevel(op, e, p) && OnLevel(op, e, q) && IsOp(op, Get(op, e, p))
    ensures OnLevel(op, e, p + [false]) && OnLevel(op, e, p + [true])
    ensures LevelSize(op, Get(op, e, p + [false])) < LevelSize(op, Get(op, e, p))
    ensures LevelSize(op, Get(op, e, p + [true])) < LevelSize(op, Get(op, e, p))
    ensures var a := Dups1(op, e, p + [false], q);
            && Size(a.tree) <= Size(e) && OnLevel(op, a.tree, p + [true]) && OnLevel(op, a.tree, q)
            && LevelSize(op, Get(op, a.tree, p + [true])) < LevelSize(op, Get(op, e, p))
            && LevelSize(op, Get(op, a.tree, q)) == LevelSize(op, Get(op, e, q))
            && var b := Dups1(op, a.tree, p + [true], q); Dups1(op, e, p, q) == Pass(b.tree, a.joins + b.joins)
  {
    hide OnLevel; hide Get; hide SameLevel; hide DupsInside; hide Join; hide JoinAt; hide Size;
    OnLevelChild(op, e, p, false);
    OnLevelChild(op, e, p, true);
    LevelKept(op, e, Dups1(op, e, p + [false], q).tree, p + [true], q);
  }

  /** One step while q is not an operand. */
  lemma SecondSteps(op: Op, e: Expr, p: Path, q: Path)
    requires OnLevel(op, e, p) && OnLevel(op, e, q) && !IsOp(op, Get(op, e, p)) && IsOp(op, Get(op, e, q))
    ensures OnLevel(op, e, q + [false]) && OnLevel(op, e, q + [true])
    ensures LevelSize(op, Get(op, e, q + [false])) < LevelSize(op, Get(op, e, q))
    ensures LevelSize(op, Get(op, e, q + [true])) < LevelSize(op, Get(op, e, q))
    ensures var a := Dups1(op, e, p, q + [false]);
            && Size(a.tree) <= Size(e) && OnLevel(op, a.tree, p) && OnLevel(op, a.tree, q + [true])
            && LevelSize(op, Get(op, a.tree, q + [true])) < LevelSize(op, Get(op, e, q))
            && LevelSize(op, Get(op, a.tree, p)) == LevelSize(op, Get(op, e, p))
            && var b := Dups1(op, a.tree, p, q + [true]); Dups1(op, e, p, q) == Pass(b.tree, a.joins + b.joins)
  {
    hide OnLevel; hide Get; hide SameLevel; hide DupsInside; hide Join; hide JoinAt; hide Size;
    OnLevelChild(op, e, q, false);
    OnLevelChild(op, e, q, true);
    LevelKept(op, e, Dups1(op, e, p, q + [false]).tree, q + [true], p);
  }

  lemma JoinAtValue(op: Op, e: Expr, p: Path, q: Path, v: Valuation)
    requires WellTyped(v) && Clean(e, v) && IsOperand(op, e, p) && IsOperand(op, e, q) && p != q
    requires Join(op, Get(op, e, p), Get(op, e, q)).Some?
    requires !IsOp(op, Join(op, Get(op, e, p), Get(op, e, q)).value)
    requires Size(Join(op, Get(op, e, p), Get(op, e, q)).value) < Size(Get(op, e, p)) + Size(Get(op, e, q))
    ensures var r := JoinAt(op, e, p, q, Join(op, Get(op, e, p), Get(op, e, q)).value);
            Eval(r, v) == Eval(e, v) && Clean(r, v)
  {
    var e1, e2 := Get(op, e, p), Get(op, e, q);
    var x := Join(op, e1, e2).value;
    var unit := ESym(Unit(op));
    var e' := Put(op, e, p, unit);
    PutClean(op, e, p, unit, v);
    PutClean(op, e, q, unit, v);
    JoinValue(op, e1, e2, v);
    PutGetOther(op, e, p, q, unit);
    PutClean(op, e', q, x, v);
    PutValue(op, e, p, unit, v);
    PutValue(op, e', q, x, v);
    var rest := Eval(Put(op, e', q, unit), v);
    ApplyMove(op, rest, Eval(e2, v), Eval(e1, v));
    ApplyMove(op, Eval(e1, v), Eval(e2, v), rest);
  }

  /** The walk of a tree against itself keeps the tree's value. */
  lemma {:induction false} Dups1Value(op: Op, e: Expr, p: Path, q: Path, v: Valuation)
    requires WellTyped(v) && Clean(e, v) && OnLevel(op, e, p) && OnLevel(op, e, q)
    ensures Eval(Dups1(op, e, p, q).tree, v) == Eval(e, v)
    ensures Clean(Dups1(op, e, p, q).tree, v)
    decreases Size(e), LevelSize(op, Get(op, e, p)) + LevelSize(op, Get(op, e, q)), 1
  {
    hide OnLevel; hide Get; hide LevelSize; hide SameLevel; hide Clean; hide Eval; hide JoinAt; hide Join; hide DupsInside;
    if IsOp(op, Get(op, e, p)) {
      FirstSteps(op, e, p, q);
      var a := Dups1(op, e, p + [false], q);
      Dups1Value(op, e, p + [false], q, v);
      Dups1Value(op, a.tree, p + [true], q, v);
    } else if IsOp(op, Get(op, e, q)) {
      SecondSteps(op, e, p, q);
      var a := Dups1(op, e, p, q + [false]);
      Dups1Value(op, e, p, q + [false], v);
      Dups1Value(op, a.tree, p, q + [true], v);
    } else if p != q {
      DupsInsideValue(op, e, p, q, v);
      var inner := DupsInside(op, e, p, q);
      var e1, e2 := Get(op, inner.tree, p), Get(op, inner.tree, q);
      if Join(op, e1, e2).Some? {
        JoinSize(op, e1, e2);
        JoinAtValue(op, inner.tree, p, q, v);
      }
    }
  }

  lemma {:induction false} DupsInsideValue(op: Op, e: Expr, p: Path, q: Path, v: Valuation)
    requires WellTyped(v) && Clean(e, v) && IsOperand(op, e, p) && IsOperand(op, e, q) && p != q
    ensures Eval(DupsInside(op, e, p, q).tree, v) == Eval(e, v)
    ensures Clean(DupsInside(op, e, p, q).tree, v)
    decreases Size(e), 0, 0
  {
    var e1 := Get(op, e, p);
    if e1.EBin? {
      assert p == [] ==> q == [];
      var x := Dups1(e1.op, e1, [], []).tree;
      PutClean(op, e, p, x, v);
      Dups1Value(e1.op, e1, [], [], v);
      PutValue(op, e, p, x, v);
    }
  }

  /** No join is possible between two operands of one level, at any depth of && and ||. */
  predicate Joinless(e: Expr)
    decreases Size(e)
  {
    e.EBin? ==> JoinlessPairs(e.op, e, [], [])
  }

  /** No join is possible between an operand below p and another below q; the operands below
      p are themselves joinless. */
  predicate JoinlessPairs(op: Op, e: Expr, p: Path, q: Path)
    requires OnLevel(op, e, p) && OnLevel(op, e, q)
    decreases Size(e), LevelSize(op, Get(op, e, p)) + LevelSize(op, Get(op, e, q))
  {
    if IsOp(op, Get(op, e, p)) then
      OnLevelChild(op, e, p, false);
      OnLevelChild(op, e, p, true);
      JoinlessPairs(op, e, p + [false], q) && JoinlessPairs(op, e, p + [true], q)
    else if IsOp(op, Get(op, e, q)) then
      OnLevelChild(op, e, q, false);
      OnLevelChild(op, e, q, true);
      JoinlessPairs(op, e, p, q + [false]) && JoinlessPairs(op, e, p, q + [true])
    else
      p != q ==> Joinless(assert p == [] ==> q == []; Get(op, e, p)) && Join(op, Get(op, e, p), Get(op, e, q)).None?
  }

  /** A pass that counts no join found nothing to do and changed nothing; a pass that counts
      one leaves a constant for expr_eliminate_yn to remove. */
  lemma {:induction false} Dups1Count(op: Op, e: Expr, p: Path, q: Path)
    requires OnLevel(op, e, p) && OnLevel(op, e, q)
    ensures var r := Dups1(op, e, p, q);
            && (r.joins == 0 ==> r.tree == e)
            && (r.joins == 0 <==> JoinlessPairs(op, e, p, q))
            && (r.joins > 0 ==> HasYn(r.tree))
    decreases Size(e), LevelSize(op, Get(op, e, p)) + LevelSize(op, Get(op, e, q)), 1
  {
    hide OnLevel; hide Get; hide LevelSize; hide SameLevel; hide HasYn; hide JoinAt; hide Join; hide DupsInside; hide Joinless;
    if IsOp(op, Get(op, e, p)) {
      FirstSteps(op, e, p, q);
      var a := Dups1(op, e, p + [false], q);
      Dups1Count(op, e, p + [false], q);
      Dups1Count(op, a.tree, p + [true], q);
    } else if IsOp(op, Get(op, e, q)) {
      SecondSteps(op, e, p, q);
      var a := Dups1(op, e, p, q + [false]);
      Dups1Count(op, e, p, q + [false]);
      Dups1Count(op, a.tree, p, q + [true]);
    } else if p != q {
      InsideCount(op, e, p, q);
      var inner := DupsInside(op, e, p, q).tree;
      if Join(op, Get(op, inner, p), Get(op, inner, q)).Some? { JoinCount(op, inner, p, q); }
    }
  }

  lemma {:induction false} InsideCount(op: Op, e: Expr, p: Path, q: Path)
    requires IsOperand(op, e, p) && IsOperand(op, e, q) && p != q
    ensures var r := DupsInside(op, e, p, q);
            && (r.joins == 0 ==> r.tree == e)
            && (r.joins == 0 <==> Joinless(assert p == [] ==> q == []; Get(op, e, p)))
            && (r.joins > 0 ==> HasYn(r.tree))
    decreases Size(e), 0, 0
  {
    hide HasYn; hide JoinlessPairs;
    assert p == [] ==> q == [];
    var e1 := Get(op, e, p);
    PutBack(op, e, p);
    if e1.EBin? {
      Dups1Count(e1.op, e1, [], []);
      var x := Dups1(e1.op, e1, [], []);
      if x.joins > 0 { PutHasYn(op, e, p, x.tree); }
    }
  }

  lemma JoinCount(op: Op, e: Expr, p: Path, q: Path)
    requires IsOperand(op, e, p) && IsOperand(op, e, q) && p != q
    requires Join(op, Get(op, e, p), Get(op, e, q)).Some?
    ensures var x := Join(op, Get(op, e, p), Get(op, e, q)).value;
            && !IsOp(op, x) && Size(x) < Size(Get(op, e, p)) + Size(Get(op, e, q))
            && HasYn(JoinAt(op, e, p, q, x))
  {
    hide HasYn; hide Join; hide OnLevel;
    JoinSize(op, Get(op, e, p), Get(op, e, q));
    PutUnitHasYn(op, e, p, q, Join(op, Get(op, e, p), Get(op, e, q)).value);
  }

  /** expr_eliminate_dups: passes until one counts no join. */
  function EliminateDups(e: Expr): (r: Expr)
    decreases Size(e)
  {
    if !e.EBin? then e
    else
      var pass := Dups1(e.op, e, [], []);
      if pass.joins == 0 then e
      else
        Dups1Count(e.op, e, [], []);
        EliminateYnShrinks(pass.tree);
        EliminateDups(EliminateYn(pass.tree))
  }

  /** expr_eliminate_dups keeps the value of every clean expression. */
  lemma {:induction false} EliminateDupsValue(e: Expr, v: Valuation)
    requires WellTyped(v) && Clean(e, v)
    ensures Eval(EliminateDups(e), v) == Eval(e, v)
    ensures Clean(EliminateDups(e), v)
    decreases Size(e)
  {
    if e.EBin? {
      var pass := Dups1(e.op, e, [], []);
      if pass.joins > 0 {
        Dups1Count(e.op, e, [], []);
        EliminateYnShrinks(pass.tree);
        Dups1Value(e.op, e, [], [], v);
        EliminateYnValue(pass.tree, v);
        EliminateDupsValue(EliminateYn(pass.tree), v);
      }
    }
  }

  /** It stops only when no two operands of a level can be joined, and running it again
      changes nothing. Each pass that made a join made the tree smaller. */
  lemma {:induction false} EliminateDupsDone(e: Expr)
    ensures Joinless(EliminateDups(e))
    ensures EliminateDups(EliminateDups(e)) == EliminateDups(e)
    ensures EliminateDups(e) == e <==> Joinless(e)
    ensures !Joinless(e) ==> Size(EliminateDups(e)) < Size(e)
    decreases Size(e)
  {
    if e.EBin? {
      Dups1Count(e.op, e, [], []);
      var pass := Dups1(e.op, e, [], []);
      if pass.joins > 0 {
        EliminateYnShrinks(pass.tree);
        EliminateDupsDone(EliminateYn(pass.tree));
      }
    }
  }

  lemma {:induction false} JoinlessBelow(op: Op, e: Expr, p0: Path, q0: Path, p: Path, q: Path)
    requires OnLevel(op, e, p0) && OnLevel(op, e, q0) && JoinlessPairs(op, e, p0, q0)
    requires OnLevel(op, Get(op, e, p0), p) && OnLevel(op, Get(op, e, q0), q)
    requires IsOperand(op, e, p0 + p) && IsOperand(op, e, q0 + q) && p0 + p != q0 + q
    ensures Join(op, Get(op, e, p0 + p), Get(op, e, q0 + q)).None?
    ensures Joinless(Get(op, e, p0 + p))
    decreases LevelSize(op, Get(op, e, p0)) + LevelSize(op, Get(op, e, q0))
  {
    hide OnLevel; hide Get; hide LevelSize; hide Join; hide Joinless;
    if IsOp(op, Get(op, e, p0)) {
      PathStep(op, e, p0, p);
      assert JoinlessPairs(op, e, p0 + [p[0]], q0) by { if p[0] { assert [p[0]] == [true]; } else { assert [p[0]] == [false]; } }
      JoinlessBelow(op, e, p0 + [p[0]], q0, p[1..], q);
    } else if IsOp(op, Get(op, e, q0)) {
      PathStep(op, e, q0, q);
      assert JoinlessPairs(op, e, p0, q0 + [q[0]]) by { if q[0] { assert [q[0]] == [true]; } else { assert [q[0]] == [false]; } }
      JoinlessBelow(op, e, p0, q0 + [q[0]], p, q[1..]);
    } else {
      PathEnd(op, e, p0, p);
      PathEnd(op, e, q0, q);
    }
  }

  lemma PathStep(op: Op, e: Expr, p0: Path, p: Path)
    requires OnLevel(op, e, p0) && IsOp(op, Get(op, e, p0)) && OnLevel(op, Get(op, e, p0), p) && IsOperand(op, e, p0 + p)
    ensures p != [] && p0 + p == p0 + [p[0]] + p[1..]
    ensures OnLevel(op, e, p0 + [p[0]]) && OnLevel(op, Get(op, e, p0 + [p[0]]), p[1..])
    ensures LevelSize(op, Get(op, e, p0 + [p[0]])) < LevelSize(op, Get(op, e, p0))
  {
    hide Get;
    assert p0 + [] == p0;
    OnLevelChild(op, e, p0, p[0]);
  }

  lemma PathEnd(op: Op, e: Expr, p0: Path, p: Path)
    requires OnLevel(op, e, p0) && !IsOp(op, Get(op, e, p0)) && OnLevel(op, Get(op, e, p0), p)
    ensures p == [] && p0 + p == p0
  {
  }

  /** Joinless, said of any two different operands p and q of the top level. */
  lemma JoinlessOperands(e: Expr, p: Path, q: Path)
    requires Joinless(e) && e.EBin? && IsOperand(e.op, e, p) && IsOperand(e.op, e, q) && p != q
    ensures Join(e.op, Get(e.op, e, p), Get(e.op, e, q)).None?
    ensures Joinless(Get(e.op, e, p))
  {
    assert [] + p == p && [] + q == q;
    JoinlessBelow(e.op, e, [], [], p, q);
  }
}
