/** Positions inside an expression. A `struct expr **` of the C code that points into a tree
    is the path from the tree's own slot to the slot it points at, so two pointers into one
    tree are two paths into one value, and the same slot is the same path. */
module ExprPath {
  import opened KconfigExpr
  import opened ExprEliminateEq

  /** false: left operand, true: right operand. */
  type Path = seq<bool>

  function Child(e: Expr, right: bool): Expr
    requires e.EBin?
  {
    if right then e.right else e.left
  }

  function WithChild(e: Expr, right: bool, x: Expr): Expr
    requires e.EBin?
  {
    if right then EBin(e.op, e.left, x) else EBin(e.op, x, e.right)
  }

  /** Every node passed on the way down is a node of `op`: p stays on one level. */
  predicate OnLevel(op: Op, e: Expr, p: Path) {
    p == [] || (IsOp(op, e) && OnLevel(op, Child(e, p[0]), p[1..]))
  }

  function Get(op: Op, e: Expr, p: Path): (r: Expr)
    requires OnLevel(op, e, p)
    ensures Size(r) <= Size(e) && (p != [] ==> Size(r) < Size(e))
  {
    if p == [] then e else Get(op, Child(e, p[0]), p[1..])
  }

  function Put(op: Op, e: Expr, p: Path, x: Expr): (r: Expr)
    requires OnLevel(op, e, p)
    ensures OnLevel(op, r, p)
    ensures Size(r) == Size(e) - Size(Get(op, e, p)) + Size(x)
  {
    if p == [] then x else WithChild(e, p[0], Put(op, Child(e, p[0]), p[1..], x))
  }

  /** The number of nodes and operands of one level. */
  function LevelSize(op: Op, e: Expr): nat {
    if IsOp(op, e) then 1 + LevelSize(op, e.left) + LevelSize(op, e.right) else 1
  }

  /** The two trees have the same nodes of `op` on their first level. */
  predicate SameLevel(op: Op, a: Expr, b: Expr) {
    if IsOp(op, a) then IsOp(op, b) && SameLevel(op, a.left, b.left) && SameLevel(op, a.right, b.right)
    else !IsOp(op, b)
  }

  /** p leads to an operand of the level. */
  predicate IsOperand(op: Op, e: Expr, p: Path) {
    OnLevel(op, e, p) && !IsOp(op, Get(op, e, p))
  }

  lemma {:induction false} OnLevelChild(op: Op, e: Expr, p: Path, right: bool)
    requires OnLevel(op, e, p) && IsOp(op, Get(op, e, p))
    ensures OnLevel(op, e, p + [right])
    ensures Get(op, e, p + [right]) == Child(Get(op, e, p), right)
  {
    if p != [] {
      assert (p + [right])[1..] == p[1..] + [right];
      OnLevelChild(op, Child(e, p[0]), p[1..], right);
    }
  }

  lemma {:induction false} SameLevelRefl(op: Op, a: Expr)
    ensures SameLevel(op, a, a)
  {
    if IsOp(op, a) {
      SameLevelRefl(op, a.left);
      SameLevelRefl(op, a.right);
    }
  }

  lemma {:induction false} SameLevelTrans(op: Op, a: Expr, b: Expr, c: Expr)
    requires SameLevel(op, a, b) && SameLevel(op, b, c)
    ensures SameLevel(op, a, c)
  {
    if IsOp(op, a) {
      SameLevelTrans(op, a.left, b.left, c.left);
      SameLevelTrans(op, a.right, b.right, c.right);
    }
  }

  lemma {:induction false} SameLevelPath(op: Op, a: Expr, b: Expr, p: Path)
    requires SameLevel(op, a, b) && OnLevel(op, a, p)
    ensures OnLevel(op, b, p) && SameLevel(op, Get(op, a, p), Get(op, b, p))
  {
    if p != [] {
      SameLevelPath(op, Child(a, p[0]), Child(b, p[0]), p[1..]);
    }
  }

  lemma {:induction false} SameLevelSize(op: Op, a: Expr, b: Expr)
    requires SameLevel(op, a, b)
    ensures LevelSize(op, a) == LevelSize(op, b)
  {
    if IsOp(op, a) {
      SameLevelSize(op, a.left, b.left);
      SameLevelSize(op, a.right, b.right);
    }
  }

  /** Replacing an operand by something that is not of the level keeps the level. */
  lemma {:induction false} PutSameLevel(op: Op, e: Expr, p: Path, x: Expr)
    requires IsOperand(op, e, p) && !IsOp(op, x)
    ensures SameLevel(op, e, Put(op, e, p, x))
  {
    if p != [] {
      PutSameLevel(op, Child(e, p[0]), p[1..], x);
      SameLevelRefl(op, Child(e, !p[0]));
    }
  }

  /** Two different operands lie in disjoint subtrees: writing one leaves the other. */
  lemma {:induction false} PutGetOther(op: Op, e: Expr, p: Path, q: Path, x: Expr)
    requires IsOperand(op, e, p) && IsOperand(op, e, q) && !IsOp(op, x)
    ensures IsOperand(op, Put(op, e, p, x), q)
    ensures Get(op, Put(op, e, p, x), q) == (if p == q then x else Get(op, e, q))
  {
    if p != [] && q != [] {
      assert p == q <==> p[0] == q[0] && p[1..] == q[1..] by {
        assert p == [p[0]] + p[1..] && q == [q[0]] + q[1..];
      }
      if p[0] == q[0] {
        PutGetOther(op, Child(e, p[0]), p[1..], q[1..], x);
      }
    }
  }

  lemma ApplyMove(op: Op, a: Tristate, b: Tristate, c: Tristate)
    ensures Apply(op, Apply(op, a, b), c) == Apply(op, Apply(op, a, c), b)
    ensures Apply(op, c, Apply(op, a, b)) == Apply(op, Apply(op, c, a), b)
    ensures Apply(op, a, b) == Apply(op, b, a)
  {
  }

  /** The value of a level is the value of the rest combined with that of one position. */
  lemma {:induction false} PutValue(op: Op, e: Expr, p: Path, x: Expr, v: Valuation)
    requires WellTyped(v) && OnLevel(op, e, p)
    ensures Eval(Put(op, e, p, x), v) ==
            Apply(op, Eval(Put(op, e, p, ESym(Unit(op))), v), Eval(x, v))
    ensures Eval(e, v) == Apply(op, Eval(Put(op, e, p, ESym(Unit(op))), v), Eval(Get(op, e, p), v))
  {
    if p != [] {
      var child := Child(e, p[0]);
      var rest := Eval(Put(op, child, p[1..], ESym(Unit(op))), v);
      PutValue(op, child, p[1..], x, v);
      ApplyMove(op, rest, Eval(x, v), Eval(Child(e, !p[0]), v));
      ApplyMove(op, rest, Eval(Get(op, e, p), v), Eval(Child(e, !p[0]), v));
    }
  }

  lemma {:induction false} PutClean(op: Op, e: Expr, p: Path, x: Expr, v: Valuation)
    requires OnLevel(op, e, p) && Clean(e, v)
    ensures Clean(Get(op, e, p), v)
    ensures Clean(x, v) ==> Clean(Put(op, e, p, x), v)
  {
    if p != [] {
      PutClean(op, Child(e, p[0]), p[1..], x, v);
    }
  }

  /** The constant a join leaves behind is something expr_eliminate_yn removes. */
  lemma {:induction false} PutUnitHasYn(op: Op, e: Expr, p: Path, q: Path, x: Expr)
    requires IsOperand(op, e, p) && IsOperand(op, e, q) && p != q && !IsOp(op, x)
    ensures IsOperand(op, Put(op, e, p, ESym(Unit(op))), q)
    ensures HasYn(Put(op, Put(op, e, p, ESym(Unit(op))), q, x))
  {
    PutGetOther(op, e, p, q, ESym(Unit(op)));
    if p[0] == q[0] {
      assert p[1..] != q[1..] by {
        assert p == [p[0]] + p[1..] && q == [q[0]] + q[1..];
      }
      PutUnitHasYn(op, Child(e, p[0]), p[1..], q[1..], x);
    } else {
      UnitHasYn(op, Child(e, p[0]), p[1..]);
    }
  }

  lemma {:induction false} UnitHasYn(op: Op, e: Expr, p: Path)
    requires OnLevel(op, e, p)
    ensures var r := Put(op, e, p, ESym(Unit(op))); r == ESym(Unit(op)) || HasYn(r)
  {
    if p != [] {
      UnitHasYn(op, Child(e, p[0]), p[1..]);
    }
  }

  lemma {:induction false} PutBack(op: Op, e: Expr, p: Path)
    requires OnLevel(op, e, p)
    ensures Put(op, e, p, Get(op, e, p)) == e
  {
    if p != [] {
      PutBack(op, Child(e, p[0]), p[1..]);
    }
  }

  lemma {:induction false} PutHasYn(op: Op, e: Expr, p: Path, x: Expr)
    requires OnLevel(op, e, p) && HasYn(x)
    ensures HasYn(Put(op, e, p, x))
  {
    if p != [] {
      PutHasYn(op, Child(e, p[0]), p[1..], x);
    }
  }
}
