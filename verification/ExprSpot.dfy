/** expr_eliminate_yn, expr_transform and expr_trans_bool of support/kconfig/expr.c as they work:
    every node is overwritten where it stands. A slot is the caller's pointer variable, and a
    spot is the way from it to a node. */
module ExprSpot {
  import opened KconfigExpr
  import opened ExprEliminateEq
  import opened ExprPath
  import opened ExprTransform

  class Slot {
    var tree: Expr

    constructor (e: Expr)
      ensures tree == e
    {
      tree := e;
    }
  }

  /** A negation has its operand on the left. */
  predicate HasChild(e: Expr, right: bool) { e.EBin? || (e.ENot? && !right) }

  function Operand(e: Expr, right: bool): Expr
    requires HasChild(e, right)
  {
    if e.ENot? then e.arg else Child(e, right)
  }

  function WithOperand(e: Expr, right: bool, x: Expr): Expr
    requires HasChild(e, right)
  {
    if e.ENot? then ENot(x) else WithChild(e, right, x)
  }

  predicate Within(e: Expr, r: Path) {
    r == [] || (HasChild(e, r[0]) && Within(Operand(e, r[0]), r[1..]))
  }

  function Sub(e: Expr, r: Path): Expr
    requires Within(e, r)
  {
    if r == [] then e else Sub(Operand(e, r[0]), r[1..])
  }

  function Replace(e: Expr, r: Path, x: Expr): (e': Expr)
    requires Within(e, r)
    ensures Within(e', r) && Sub(e', r) == x
  {
    if r == [] then x else WithOperand(e, r[0], Replace(Operand(e, r[0]), r[1..], x))
  }

  lemma {:induction false} ReplaceTwice(e: Expr, r: Path, x: Expr, y: Expr)
    requires Within(e, r)
    ensures Replace(Replace(e, r, x), r, y) == Replace(e, r, y)
    ensures Replace(e, r, Sub(e, r)) == e
  {
    if r != [] { ReplaceTwice(Operand(e, r[0]), r[1..], x, y); }
  }

  lemma {:induction false} ChildSpot(e: Expr, r: Path, right: bool, x: Expr)
    requires Within(e, r) && HasChild(Sub(e, r), right)
    ensures Within(e, r + [right]) && Sub(e, r + [right]) == Operand(Sub(e, r), right)
    ensures Replace(e, r + [right], x) == Replace(e, r, WithOperand(Sub(e, r), right, x))
  {
    if r != [] {
      assert (r + [right])[1..] == r[1..] + [right];
      ChildSpot(Operand(e, r[0]), r[1..], right, x);
    }
  }

  /** Rewriting both operands of a node, one after the other, rewrites the node. */
  lemma BothOperands(t: Expr, r: Path, x: Expr, y: Expr)
    requires Within(t, r) && Sub(t, r).EBin?
    ensures var e := Sub(t, r);
            && Within(t, r + [false]) && Sub(t, r + [false]) == e.left
            && var u := Replace(t, r + [false], x);
            && u == Replace(t, r, EBin(e.op, x, e.right))
            && Within(u, r + [true]) && Sub(u, r + [true]) == e.right
            && Replace(u, r + [true], y) == Replace(t, r, EBin(e.op, x, y))
  {
    hide Within; hide Sub; hide Replace;
    var e := Sub(t, r);
    ChildSpot(t, r, false, x);
    var u := Replace(t, r, EBin(e.op, x, e.right));
    ChildSpot(u, r, true, y);
    ReplaceTwice(t, r, EBin(e.op, x, e.right), EBin(e.op, x, y));
  }

  /** expr_eliminate_yn */
  method EliminateYnAt(s: Slot, r: Path)
    requires Within(s.tree, r)
    modifies s
    ensures Within(old(s.tree), r) && s.tree == Replace(old(s.tree), r, EliminateYn(Sub(old(s.tree), r)))
    decreases Size(Sub(s.tree, r))
  {
    hide Within; hide Sub; hide Replace;
    ghost var t := s.tree;
    var e := Sub(s.tree, r);
    ReplaceTwice(t, r, e, e);
    if e.EBin? {
      ghost var x, y := EliminateYn(e.left), EliminateYn(e.right);
      BothOperands(t, r, x, y);
      EliminateYnAt(s, r + [false]);
      EliminateYnAt(s, r + [true]);
      e := Sub(s.tree, r);
      if e.left == ESym(Zero(e.op)) {
        s.tree := Replace(s.tree, r, ESym(Zero(e.op)));
      } else if e.left == ESym(Unit(e.op)) {
        s.tree := Replace(s.tree, r, e.right);
      } else if e.right == ESym(Zero(e.op)) {
        s.tree := Replace(s.tree, r, ESym(Zero(e.op)));
      } else if e.right == ESym(Unit(e.op)) {
        s.tree := Replace(s.tree, r, e.left);
      }
      ReplaceTwice(t, r, EBin(e.op, x, y), EliminateYn(Sub(t, r)));
    }
  }

  /** expr_trans_bool */
  method TransBoolAt(s: Slot, r: Path)
    requires Within(s.tree, r)
    modifies s
    ensures Within(old(s.tree), r) && s.tree == Replace(old(s.tree), r, TransBool(Sub(old(s.tree), r)))
    decreases Size(Sub(s.tree, r))
  {
    hide Within; hide Sub; hide Replace;
    var e := Sub(s.tree, r);
    ReplaceTwice(s.tree, r, e, e);
    match e {
      case EBin(_, l, x) =>
        BothOperands(s.tree, r, TransBool(l), TransBool(x));
        TransBoolAt(s, r + [false]);
        TransBoolAt(s, r + [true]);
      case ENot(x) =>
        ChildSpot(s.tree, r, false, TransBool(x));
        TransBoolAt(s, r + [false]);
      case ECmp(rel, a, b) =>
        if rel == Ne && a.Type() == STristate && b == SymNo { s.tree := Replace(s.tree, r, ESym(a)); }
      case ESym(_) =>
    }
  }

  /** expr_transform */
  method TransformAt(s: Slot, r: Path)
    requires Within(s.tree, r)
    modifies s
    ensures Within(old(s.tree), r) && s.tree == Replace(old(s.tree), r, Transform(Sub(old(s.tree), r)))
    decreases Weight(Sub(s.tree, r)), 1
  {
    hide Within; hide Sub; hide Replace; hide TransformNot;
    ghost var t := s.tree;
    var e := Sub(s.tree, r);
    ReplaceTwice(t, r, e, e);
    match e {
      case ESym(_) =>
      case ECmp(rel, a, b) => s.tree := Replace(s.tree, r, TransformCmp(rel, a, b));
      case EBin(_, l, x) =>
        BothOperands(t, r, Transform(l), Transform(x));
        TransformAt(s, r + [false]);
        TransformAt(s, r + [true]);
      case ENot(x) =>
        ChildSpot(t, r, false, Transform(x));
        TransformAt(s, r + [false]);
        TransformNotAt(s, r);
        ReplaceTwice(t, r, ENot(Transform(x)), TransformNot(Transform(x)));
    }
  }

  /** Its second switch, on a negation whose operand is transformed. */
  method TransformNotAt(s: Slot, r: Path)
    requires Within(s.tree, r) && Sub(s.tree, r).ENot?
    modifies s
    ensures Within(old(s.tree), r) && s.tree == Replace(old(s.tree), r, TransformNot(Sub(old(s.tree), r).arg))
    decreases Weight(Sub(s.tree, r)), 0
  {
    hide Within; hide Sub; hide Replace; hide Transform;
    ghost var t := s.tree;
    var x := Sub(s.tree, r).arg;
    assert Weight(Sub(t, r)) == 2 * Weight(x) by { assert Sub(t, r) == ENot(x); }
    ReplaceTwice(t, r, Sub(t, r), Sub(t, r));
    match x {
      case ENot(y) =>
        s.tree := Replace(s.tree, r, y);
        TransformAt(s, r);
        ReplaceTwice(t, r, y, Transform(y));
      case ECmp(rel, a, b) => s.tree := Replace(s.tree, r, ECmp(Negated(rel), a, b));
      case EBin(op, a, b) =>
        var e := EBin(Dual(op), ENot(a), ENot(b));
        assert Weight(ENot(a)) == 2 * Weight(a) && Weight(ENot(b)) == 2 * Weight(b);
        s.tree := Replace(s.tree, r, e);
        TransformAt(s, r);
        ReplaceTwice(t, r, e, Transform(e));
      case ESym(c) =>
        if c == SymYes {
          s.tree := Replace(s.tree, r, ESym(SymNo));
        } else if c == SymMod {
          s.tree := Replace(s.tree, r, ESym(SymMod));
        } else if c == SymNo {
          s.tree := Replace(s.tree, r, ESym(SymYes));
        }
    }
  }
}
