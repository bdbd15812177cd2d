/** The passes of support/kconfig/expr.c that overwrite trees through `struct expr **`.
    A pointer into the tree of a slot is a path. Each method is proved to leave in the slot what
    the function it is named after computes. */
module ExprInPlace {
  import opened KconfigExpr
  import opened ExprEliminateEq
  import opened ExprJoin
  import opened ExprPath
  import opened ExprDups
  import opened ExprSpot

  /** A position of the level that starts at r, as a position of the whole tree. */
  lemma {:induction false} WriteBelow(op: Op, e: Expr, r: Path, p: Path, x: Expr)
    requires Within(e, r) && OnLevel(op, Sub(e, r), p)
    ensures Within(e, r + p) && Sub(e, r + p) == Get(op, Sub(e, r), p)
    ensures Replace(e, r + p, x) == Replace(e, r, Put(op, Sub(e, r), p, x))
  {
    if r != [] {
      assert (r + p)[1..] == r[1..] + p && (r + p)[0] == r[0];
      WriteBelow(op, Operand(e, r[0]), r[1..], p, x);
    } else {
      assert r + p == p;
      WriteLevel(op, e, p, x);
    }
  }

  lemma {:induction false} WriteLevel(op: Op, e: Expr, p: Path, x: Expr)
    requires OnLevel(op, e, p)
    ensures Within(e, p) && Sub(e, p) == Get(op, e, p) && Replace(e, p, x) == Put(op, e, p, x)
  {
    if p != [] {
      WriteLevel(op, Child(e, p[0]), p[1..], x);
    }
  }

  lemma {:induction false} PutGet(op: Op, e: Expr, p: Path, x: Expr, y: Expr)
    requires OnLevel(op, e, p)
    ensures Get(op, Put(op, e, p, x), p) == x
    ensures Put(op, Put(op, e, p, x), p, y) == Put(op, e, p, y)
  {
    if p != [] {
      PutGet(op, Child(e, p[0]), p[1..], x, y);
    }
  }

  /** Writing one operand of the node at p rewrites that node and leaves its other operand. */
  lemma {:induction false} PutOperand(op: Op, e: Expr, p: Path, right: bool, x: Expr)
    requires OnLevel(op, e, p) && IsOp(op, Get(op, e, p))
    ensures OnLevel(op, e, p + [right]) && OnLevel(op, e, p + [!right])
    ensures Get(op, e, p + [right]) == Child(Get(op, e, p), right)
    ensures Put(op, e, p + [right], x) == Put(op, e, p, WithChild(Get(op, e, p), right, x))
    ensures OnLevel(op, Put(op, e, p + [right], x), p + [!right])
    ensures Get(op, Put(op, e, p + [right], x), p + [!right]) == Child(Get(op, e, p), !right)
  {
    OnLevelChild(op, e, p, right);
    OnLevelChild(op, e, p, !right);
    if p != [] {
      assert (p + [right])[1..] == p[1..] + [right] && (p + [!right])[1..] == p[1..] + [!right];
      PutOperand(op, Child(e, p[0]), p[1..], right, x);
    }
  }

  /** Both steps of __expr_eliminate_eq at a node of the first tree, as writes. */
  lemma FirstOperandSteps(op: Op, t1: Expr, p1: Path, t2: Expr, p2: Path)
    requires OnLevel(op, t1, p1) && OnLevel(op, t2, p2) && IsOp(op, Get(op, t1, p1))
    ensures var e1, e2 := Get(op, t1, p1), Get(op, t2, p2);
            var a := EliminateOperands(op, e1.left, e2);
            var b := EliminateOperands(op, e1.right, a.1);
            && OnLevel(op, t1, p1 + [false]) && Get(op, t1, p1 + [false]) == e1.left
            && var u1, u2 := Put(op, t1, p1 + [false], a.0), Put(op, t2, p2, a.1);
            && OnLevel(op, u1, p1 + [true]) && Get(op, u1, p1 + [true]) == e1.right
            && Get(op, u2, p2) == a.1
            && Put(op, u1, p1 + [true], b.0) == Put(op, t1, p1, EBin(op, a.0, b.0))
            && Put(op, u2, p2, b.1) == Put(op, t2, p2, b.1)
            && EliminateOperands(op, e1, e2) == (EBin(op, a.0, b.0), b.1)
  {
    var e1, e2 := Get(op, t1, p1), Get(op, t2, p2);
    var a := EliminateOperands(op, e1.left, e2);
    var b := EliminateOperands(op, e1.right, a.1);
    PutOperand(op, t1, p1, false, a.0);
    PutGet(op, t1, p1, EBin(op, a.0, e1.right), EBin(op, a.0, b.0));
    PutGet(op, t2, p2, a.1, b.1);
    PutOperand(op, Put(op, t1, p1 + [false], a.0), p1, true, b.0);
  }

  lemma SecondOperandSteps(op: Op, t1: Expr, p1: Path, t2: Expr, p2: Path)
    requires OnLevel(op, t1, p1) && OnLevel(op, t2, p2) && !IsOp(op, Get(op, t1, p1)) && IsOp(op, Get(op, t2, p2))
    ensures var e1, e2 := Get(op, t1, p1), Get(op, t2, p2);
            var a := EliminateOperands(op, e1, e2.left);
            var b := EliminateOperands(op, a.0, e2.right);
            && OnLevel(op, t2, p2 + [false]) && Get(op, t2, p2 + [false]) == e2.left
            && var u1, u2 := Put(op, t1, p1, a.0), Put(op, t2, p2 + [false], a.1);
            && OnLevel(op, u2, p2 + [true]) && Get(op, u2, p2 + [true]) == e2.right
            && Get(op, u1, p1) == a.0
            && Put(op, u2, p2 + [true], b.1) == Put(op, t2, p2, EBin(op, a.1, b.1))
            && Put(op, u1, p1, b.0) == Put(op, t1, p1, b.0)
            && EliminateOperands(op, e1, e2) == (b.0, EBin(op, a.1, b.1))
  {
    var e1, e2 := Get(op, t1, p1), Get(op, t2, p2);
    var a := EliminateOperands(op, e1, e2.left);
    var b := EliminateOperands(op, a.0, e2.right);
    PutOperand(op, t2, p2, false, a.1);
    PutGet(op, t2, p2, EBin(op, a.1, e2.right), EBin(op, a.1, b.1));
    PutGet(op, t1, p1, a.0, b.0);
    PutOperand(op, Put(op, t2, p2 + [false], a.1), p2, true, b.1);
  }

  /** trans_count and the functions that change it. */
  class Rewriter {
    var transCount: nat

    constructor ()
      ensures transCount == 0
    {
      transCount := 0;
    }

    /** __expr_eliminate_eq: two trees, walked against each other. */
    method EliminateOperandsAt(op: Op, s1: Slot, p1: Path, s2: Slot, p2: Path)
      requires s1 != s2 && OnLevel(op, s1.tree, p1) && OnLevel(op, s2.tree, p2)
      modifies this, s1, s2
      ensures OnLevel(op, old(s1.tree), p1) && OnLevel(op, old(s2.tree), p2)
      ensures var r := EliminateOperands(op, Get(op, old(s1.tree), p1), Get(op, old(s2.tree), p2));
              && s1.tree == Put(op, old(s1.tree), p1, r.0)
              && s2.tree == Put(op, old(s2.tree), p2, r.1)
      ensures transCount >= old(transCount)
      decreases Size(Get(op, s1.tree, p1)) + Size(Get(op, s2.tree, p2)),
                if IsOp(op, Get(op, s1.tree, p1)) || IsOp(op, Get(op, s2.tree, p2)) then 1 else 5
    {
      if IsOp(op, Get(op, s1.tree, p1)) {
        EliminateFirstAt(op, s1, p1, s2, p2);
      } else if IsOp(op, Get(op, s2.tree, p2)) {
        EliminateSecondAt(op, s1, p1, s2, p2);
      } else {
        EliminateLeavesAt(op, s1, p1, s2, p2);
      }
    }

    /** e1 is a node of op: its operands in turn against e2. */
    method EliminateFirstAt(op: Op, s1: Slot, p1: Path, s2: Slot, p2: Path)
      requires s1 != s2 && OnLevel(op, s1.tree, p1) && OnLevel(op, s2.tree, p2)
      requires IsOp(op, Get(op, s1.tree, p1))
      modifies this, s1, s2
      ensures OnLevel(op, old(s1.tree), p1) && OnLevel(op, old(s2.tree), p2)
      ensures var r := EliminateOperands(op, Get(op, old(s1.tree), p1), Get(op, old(s2.tree), p2));
              && s1.tree == Put(op, old(s1.tree), p1, r.0)
              && s2.tree == Put(op, old(s2.tree), p2, r.1)
      ensures transCount >= old(transCount)
      decreases Size(Get(op, s1.tree, p1)) + Size(Get(op, s2.tree, p2)), 0
    {
      FirstOperandSteps(op, s1.tree, p1, s2.tree, p2);
      EliminateOperandsAt(op, s1, p1 + [false], s2, p2);
      EliminateOperandsAt(op, s1, p1 + [true], s2, p2);
    }

    /** Only e2 is: e1 against its operands in turn. */
    method EliminateSecondAt(op: Op, s1: Slot, p1: Path, s2: Slot, p2: Path)
      requires s1 != s2 && OnLevel(op, s1.tree, p1) && OnLevel(op, s2.tree, p2)
      requires !IsOp(op, Get(op, s1.tree, p1)) && IsOp(op, Get(op, s2.tree, p2))
      modifies this, s1, s2
      ensures OnLevel(op, old(s1.tree), p1) && OnLevel(op, old(s2.tree), p2)
      ensures var r := EliminateOperands(op, Get(op, old(s1.tree), p1), Get(op, old(s2.tree), p2));
              && s1.tree == Put(op, old(s1.tree), p1, r.0)
              && s2.tree == Put(op, old(s2.tree), p2, r.1)
      ensures transCount >= old(transCount)
      decreases Size(Get(op, s1.tree, p1)) + Size(Get(op, s2.tree, p2)), 0
    {
      SecondOperandSteps(op, s1.tree, p1, s2.tree, p2);
      EliminateOperandsAt(op, s1, p1, s2, p2 + [false]);
      EliminateOperandsAt(op, s1, p1, s2, p2 + [true]);
    }

    /** Two operands: equal ones both become the unit. */
    method EliminateLeavesAt(op: Op, s1: Slot, p1: Path, s2: Slot, p2: Path)
      requires s1 != s2 && OnLevel(op, s1.tree, p1) && OnLevel(op, s2.tree, p2)
      requires !IsOp(op, Get(op, s1.tree, p1)) && !IsOp(op, Get(op, s2.tree, p2))
      modifies this, s1, s2
      ensures OnLevel(op, old(s1.tree), p1) && OnLevel(op, old(s2.tree), p2)
      ensures var r := EliminateOperands(op, Get(op, old(s1.tree), p1), Get(op, old(s2.tree), p2));
              && s1.tree == Put(op, old(s1.tree), p1, r.0)
              && s2.tree == Put(op, old(s2.tree), p2, r.1)
      ensures transCount >= old(transCount)
      decreases Size(Get(op, s1.tree, p1)) + Size(Get(op, s2.tree, p2)), 4
    {
      var e1, e2 := Get(op, s1.tree, p1), Get(op, s2.tree, p2);
      PutBack(op, s1.tree, p1);
      PutBack(op, s2.tree, p2);
      if SameYn(e1, e2) {
        return;
      }
      var equal := ExprEqual(e1, e2);
      if equal {
        transCount := transCount + 1;
        s1.tree := Put(op, s1.tree, p1, ESym(Unit(op)));
        s2.tree := Put(op, s2.tree, p2, ESym(Unit(op)));
      }
    }

    /** expr_eliminate_eq */
    method EliminateEqIn(s1: Slot, s2: Slot)
      requires s1 != s2
      modifies this, s1, s2
      ensures (s1.tree, s2.tree) == EliminateEq(old(s1.tree), old(s2.tree))
      ensures transCount >= old(transCount)
      decreases Size(s1.tree) + Size(s2.tree), 2
    {
      if s1.tree.EBin? {
        EliminateOperandsAt(s1.tree.op, s1, [], s2, []);
      }
      if s2.tree.EBin? && !IsOp(s2.tree.op, s1.tree) {
        EliminateOperandsAt(s2.tree.op, s1, [], s2, []);
      }
      EliminateYnAt(s1, []);
      EliminateYnAt(s2, []);
    }

    /** expr_eq: works on copies and restores trans_count. */
    method ExprEqual(e1: Expr, e2: Expr) returns (res: bool)
      modifies this
      ensures res == ExprEq(e1, e2) && transCount == old(transCount)
      decreases Size(e1) + Size(e2), 3
    {
      match (e1, e2)
      case (ESym(s1), ESym(s2)) => res := s1 == s2;
      case (ECmp(r1, a1, b1), ECmp(r2, a2, b2)) => res := r1 == r2 && a1 == a2 && b1 == b2;
      case (ENot(x1), ENot(x2)) => res := ExprEqual(x1, x2);
      case (EBin(op1, _, _), EBin(op2, _, _)) =>
        if op1 != op2 { return false; }
        var c1 := new Slot(e1);
        var c2 := new Slot(e2);
        var oldCount := transCount;
        EliminateEqIn(c1, c2);
        res := c1.tree.ESym? && c2.tree.ESym? && c1.tree.sym == c2.tree.sym;
        transCount := oldCount;
      case _ => res := false;
    }

    /** expr_eliminate_dups1: both pointers are in the one tree of s, and their level starts
        at root. What one writes the other sees. */
    method Dups1At(op: Op, s: Slot, root: Path, p: Path, q: Path)
      requires Within(s.tree, root) && OnLevel(op, Sub(s.tree, root), p) && OnLevel(op, Sub(s.tree, root), q)
      modifies this, s
      ensures Within(old(s.tree), root)
      ensures var r := Dups1(op, Sub(old(s.tree), root), p, q);
              s.tree == Replace(old(s.tree), root, r.tree) && transCount == old(transCount) + r.joins
      decreases Size(Sub(s.tree, root)), LevelSize(op, Get(op, Sub(s.tree, root), p)) + LevelSize(op, Get(op, Sub(s.tree, root), q)), 1
    {
      hide OnLevel; hide Get; hide LevelSize; hide SameLevel; hide JoinAt; hide Join; hide DupsInside; hide Sub; hide Replace;
      hide Within;
      ghost var t, e := s.tree, Sub(s.tree, root);
      ReplaceTwice(t, root, e, e);
      WriteBelow(op, t, root, p, e);
      WriteBelow(op, t, root, q, e);
      var e1, e2 := Sub(s.tree, root + p), Sub(s.tree, root + q);
      if IsOp(op, e1) {
        FirstSteps(op, e, p, q);
        ghost var a := Dups1(op, e, p + [false], q).tree;
        Dups1At(op, s, root, p + [false], q);
        Dups1At(op, s, root, p + [true], q);
        ReplaceTwice(t, root, a, Dups1(op, a, p + [true], q).tree);
      } else if IsOp(op, e2) {
        SecondSteps(op, e, p, q);
        ghost var a := Dups1(op, e, p, q + [false]).tree;
        Dups1At(op, s, root, p, q + [false]);
        Dups1At(op, s, root, p, q + [true]);
        ReplaceTwice(t, root, a, Dups1(op, a, p, q + [true]).tree);
      } else if p != q {
        DupsInsideAt(op, s, root, p, q);
        JoinOperandsAt(op, s, root, p, q);
        ReplaceTwice(t, root, DupsInside(op, e, p, q).tree, Dups1(op, e, p, q).tree);
      }
    }

    /** The nested call on an && or || operand. */
    method DupsInsideAt(op: Op, s: Slot, root: Path, p: Path, q: Path)
      requires Within(s.tree, root) && p != q
      requires IsOperand(op, Sub(s.tree, root), p) && IsOperand(op, Sub(s.tree, root), q)
      modifies this, s
      ensures Within(old(s.tree), root)
      ensures var r := DupsInside(op, Sub(old(s.tree), root), p, q);
              s.tree == Replace(old(s.tree), root, r.tree) && transCount == old(transCount) + r.joins
      decreases Size(Sub(s.tree, root)), 0, 0
    {
      ghost var t, e := s.tree, Sub(s.tree, root);
      ReplaceTwice(t, root, e, e);
      WriteBelow(op, t, root, p, e);
      assert p == [] ==> q == [];
      var e1 := Sub(s.tree, root + p);
      if e1.EBin? {
        WriteBelow(op, t, root, p, Dups1(e1.op, e1, [], []).tree);
        Dups1At(e1.op, s, root + p, [], []);
      }
    }

    /** The comparison of two different operands and the two writes a join makes. */
    method JoinOperandsAt(op: Op, s: Slot, root: Path, p: Path, q: Path)
      requires Within(s.tree, root) && p != q
      requires IsOperand(op, Sub(s.tree, root), p) && IsOperand(op, Sub(s.tree, root), q)
      modifies this, s
      ensures Within(old(s.tree), root) && var e := Sub(old(s.tree), root);
              match Join(op, Get(op, e, p), Get(op, e, q))
              case None => s.tree == old(s.tree) && transCount == old(transCount)
              case Some(x) =>
                && !IsOp(op, x) && Size(x) < Size(Get(op, e, p)) + Size(Get(op, e, q))
                && s.tree == Replace(old(s.tree), root, JoinAt(op, e, p, q, x))
                && transCount == old(transCount) + 1
    {
      ghost var t, e := s.tree, Sub(s.tree, root);
      WriteBelow(op, t, root, p, ESym(Unit(op)));
      WriteBelow(op, t, root, q, e);
      var e1, e2 := Sub(s.tree, root + p), Sub(s.tree, root + q);
      var joined := Join(op, e1, e2);
      if joined.Some? {
        JoinSize(op, e1, e2);
        s.tree := Replace(s.tree, root + p, ESym(Unit(op)));
        ghost var e' := Put(op, e, p, ESym(Unit(op)));
        PutGetOther(op, e, p, q, ESym(Unit(op)));
        WriteBelow(op, s.tree, root, q, joined.value);
        ReplaceTwice(t, root, e', Put(op, e', q, joined.value));
        s.tree := Replace(s.tree, root + q, joined.value);
        transCount := transCount + 1;
      }
    }

    /** expr_eliminate_dups: a pass, then expr_eliminate_yn, until a pass counts nothing. */
    method EliminateDupsIn(s: Slot)
      modifies this, s
      ensures s.tree == EliminateDups(old(s.tree)) && transCount == old(transCount)
    {
      var oldCount := transCount;
      while true
        invariant EliminateDups(s.tree) == EliminateDups(old(s.tree))
        decreases Size(s.tree)
      {
        transCount := 0;
        ghost var e := s.tree;
        if s.tree.EBin? {
          Dups1Count(e.op, e, [], []);
          Dups1At(s.tree.op, s, [], [], []);
        }
        if transCount == 0 {
          break;
        }
        EliminateYnShrinks(s.tree);
        EliminateYnAt(s, []);
      }
      transCount := oldCount;
    }
  }
}
