/** What expr_eq of support/kconfig/expr.c decides: on expressions without y and n as operands,
    whether two expressions have the same operands, up to order and grouping, at every level. */
module ExprEqual {
  import opened KconfigExpr
  import opened ExprEliminateEq
  import opened ExprPath
  import opened ExprDups

  predicate IsYn(e: Expr) { e == ESym(SymYes) || e == ESym(SymNo) }

  /** No && or || has y or n as an operand, at any depth. */
  predicate Plain(e: Expr) {
    match e
    case EBin(_, l, r) => !IsYn(l) && !IsYn(r) && Plain(l) && Plain(r)
    case ENot(x) => Plain(x)
    case _ => true
  }

  /** An expression without the order and the grouping of operands. */
  datatype Form =
    | FSym(sym: Symbol)
    | FCmp(rel: Rel, lhs: Symbol, rhs: Symbol)
    | FNot(arg: Form)
    | FBin(op: Op, operands: multiset<Form>)

  function FormOf(e: Expr): Form
    decreases Size(e), 0
  {
    match e
    case ESym(s) => FSym(s)
    case ECmp(rel, l, r) => FCmp(rel, l, r)
    case ENot(x) => FNot(FormOf(x))
    case EBin(op, l, r) => FBin(op, Bag(op, l) + Bag(op, r))
  }

  /** The operands of one level, without its units. */
  function Bag(op: Op, e: Expr): multiset<Form>
    decreases Size(e), 1
  {
    if IsOp(op, e) then Bag(op, e.left) + Bag(op, e.right)
    else if e == ESym(Unit(op)) then multiset{}
    else multiset{FormOf(e)}
  }

  /** The operands of the level are plain, or units that took the place of some. */
  predicate Level(op: Op, e: Expr) {
    if IsOp(op, e) then Level(op, e.left) && Level(op, e.right)
    else e == ESym(Unit(op)) || (Plain(e) && !IsYn(e))
  }

  lemma {:induction false} PlainLevel(op: Op, e: Expr)
    requires Plain(e) && !IsYn(e)
    ensures Level(op, e)
  {
    if IsOp(op, e) {
      PlainLevel(op, e.left);
      PlainLevel(op, e.right);
    }
  }

  lemma {:induction false} PlainHasNoYn(e: Expr)
    requires Plain(e)
    ensures !HasYn(e)
  {
    if e.EBin? {
      PlainHasNoYn(e.left);
      PlainHasNoYn(e.right);
    }
  }

  /** What is left of a level once its units are removed. */
  lemma {:induction false} LevelReduced(op: Op, e: Expr)
    requires Level(op, e)
    ensures var d := EliminateYn(e);
            && d != ESym(Zero(op)) && (d == ESym(Unit(op)) <==> Bag(op, e) == multiset{})
            && (d.ESym? && d != ESym(Unit(op)) ==> Bag(op, e) == multiset{FSym(d.sym)})
  {
    if IsOp(op, e) {
      LevelReduced(op, e.left);
      LevelReduced(op, e.right);
    } else if e != ESym(Unit(op)) {
      PlainHasNoYn(e);
      EliminateYnShrinks(e);
    }
  }

  /** What two bags lose to each other, operand by operand, is what they lose at once. */
  lemma BagsInTurn(l: multiset<Form>, r: multiset<Form>, b: multiset<Form>)
    ensures (l - b) + (r - (b - l)) == (l + r) - b
    ensures (b - l) - r == b - (l + r)
  {
  }

  /** The walk over two levels takes out of each what the other has too. */
  lemma {:induction false} WalkBags(op: Op, e1: Expr, e2: Expr)
    requires Level(op, e1) && Level(op, e2)
    ensures var d := EliminateOperands(op, e1, e2);
            && Level(op, d.0) && Level(op, d.1)
            && Bag(op, d.0) == Bag(op, e1) - Bag(op, e2) && Bag(op, d.1) == Bag(op, e2) - Bag(op, e1)
    decreases Size(e1) + Size(e2), if IsOp(op, e1) || IsOp(op, e2) then 0 else 5
  {
    hide Plain; hide FormOf; hide ExprEq;
    if IsOp(op, e1) {
      var first := EliminateOperands(op, e1.left, e2);
      WalkBags(op, e1.left, e2);
      WalkBags(op, e1.right, first.1);
      BagsInTurn(Bag(op, e1.left), Bag(op, e1.right), Bag(op, e2));
    } else if IsOp(op, e2) {
      var first := EliminateOperands(op, e1, e2.left);
      WalkBags(op, e1, e2.left);
      WalkBags(op, first.0, e2.right);
      BagsInTurn(Bag(op, e2.left), Bag(op, e2.right), Bag(op, e1));
    } else {
      WalkPair(op, e1, e2);
    }
  }

  lemma PairOutcome(op: Op, e1: Expr, e2: Expr)
    requires Level(op, e1) && Level(op, e2) && !IsOp(op, e1) && !IsOp(op, e2)
    ensures var u := ESym(Unit(op));
            EliminateOperands(op, e1, e2) == if e1 != u && e2 != u && ExprEq(e1, e2) then (u, u) else (e1, e2)
  {
    hide EliminateEq; hide Plain;
  }

  /** One operand against another. */
  lemma {:induction false} WalkPair(op: Op, e1: Expr, e2: Expr)
    requires Level(op, e1) && Level(op, e2) && !IsOp(op, e1) && !IsOp(op, e2)
    ensures var d := EliminateOperands(op, e1, e2);
            && Level(op, d.0) && Level(op, d.1)
            && Bag(op, d.0) == Bag(op, e1) - Bag(op, e2) && Bag(op, d.1) == Bag(op, e2) - Bag(op, e1)
    decreases Size(e1) + Size(e2), 4
  {
    hide EliminateOperands; hide ExprEq; hide FormOf; hide Plain; hide Bag;
    PairOutcome(op, e1, e2);
    var u := ESym(Unit(op));
    LeafBag(op, e1);
    LeafBag(op, e2);
    LeafBag(op, u);
    if e1 != u && e2 != u {
      ExprEqExact(e1, e2);
      OneForm(FormOf(e1), FormOf(e2));
    }
  }

  lemma LeafBag(op: Op, e: Expr)
    requires !IsOp(op, e)
    ensures Bag(op, e) == if e == ESym(Unit(op)) then multiset{} else multiset{FormOf(e)}
  {
  }

  lemma OneForm(a: Form, b: Form)
    ensures a == b ==> multiset{a} - multiset{b} == multiset{}
    ensures a != b ==> multiset{a} - multiset{b} == multiset{a} && multiset{b} - multiset{a} == multiset{b}
  {
  }

  lemma Balanced(a: multiset<Form>, b: multiset<Form>, x: Form)
    requires a - b == multiset{x}
    ensures b - a != multiset{x}
  {
    assert a[x] > b[x];
  }

  /** expr_eq is right and complete: it holds if and only if the two forms are the same. */
  lemma {:induction false} ExprEqExact(e1: Expr, e2: Expr)
    requires Plain(e1) && Plain(e2)
    ensures ExprEq(e1, e2) <==> FormOf(e1) == FormOf(e2)
    decreases Size(e1) + Size(e2), 3
  {
    match (e1, e2)
    case (ENot(x1), ENot(x2)) => ExprEqExact(x1, x2);
    case (EBin(op, _, _), EBin(op2, _, _)) =>
      if op == op2 {
        PlainLevel(op, e1);
        PlainLevel(op, e2);
        WalkBags(op, e1, e2);
        var d := EliminateOperands(op, e1, e2);
        LevelReduced(op, d.0);
        LevelReduced(op, d.1);
        SameBags(op, e1, e2);
      }
    case _ =>
  }

  /** Two levels are equal to expr_eq if nothing is left of either. */
  lemma SameBags(op: Op, e1: Expr, e2: Expr)
    requires IsOp(op, e1) && IsOp(op, e2)
    requires var d := EliminateOperands(op, e1, e2);
             && Bag(op, d.0) == Bag(op, e1) - Bag(op, e2) && Bag(op, d.1) == Bag(op, e2) - Bag(op, e1)
             && (EliminateYn(d.0) == ESym(Unit(op)) <==> Bag(op, d.0) == multiset{})
             && (EliminateYn(d.1) == ESym(Unit(op)) <==> Bag(op, d.1) == multiset{})
             && (EliminateYn(d.0).ESym? && EliminateYn(d.0) != ESym(Unit(op)) ==> Bag(op, d.0) == multiset{FSym(EliminateYn(d.0).sym)})
             && (EliminateYn(d.1).ESym? && EliminateYn(d.1) != ESym(Unit(op)) ==> Bag(op, d.1) == multiset{FSym(EliminateYn(d.1).sym)})
    ensures ExprEq(e1, e2) <==> FormOf(e1) == FormOf(e2)
  {
    hide EliminateYn; hide EliminateOperands; hide Bag;
    var d := EliminateOperands(op, e1, e2);
    assert EliminateEq(e1, e2) == (EliminateYn(d.0), EliminateYn(d.1));
    var (a, b) := (Bag(op, e1), Bag(op, e2));
    assert FormOf(e1) == FBin(op, a) && FormOf(e2) == FBin(op, b) by { BagOfBin(op, e1); BagOfBin(op, e2); }
    var x := EliminateYn(d.0);
    if x.ESym? && x != ESym(Unit(op)) {
      Balanced(a, b, FSym(x.sym));
    } else if a - b == multiset{} && b - a == multiset{} {
      assert a <= b && b <= a;
    }
  }

  lemma BagOfBin(op: Op, e: Expr)
    requires IsOp(op, e)
    ensures FormOf(e) == FBin(op, Bag(op, e)) && Bag(op, e) == Bag(op, e.left) + Bag(op, e.right)
  {
  }

  /** So on these expressions expr_eq is an equivalence, and neither the order nor the grouping of
      operands matters to it. */
  lemma ExprEqEquivalence(a: Expr, b: Expr, c: Expr)
    requires Plain(a) && Plain(b) && Plain(c)
    ensures ExprEq(a, a) && (ExprEq(a, b) <==> ExprEq(b, a)) && (ExprEq(a, b) && ExprEq(b, c) ==> ExprEq(a, c))
  {
    hide FormOf; hide ExprEq;
    ExprEqExact(a, a);
    ExprEqExact(a, b);
    ExprEqExact(b, a);
    ExprEqExact(b, c);
    ExprEqExact(a, c);
  }

  lemma ExprEqRegroups(op: Op, a: Expr, b: Expr, c: Expr)
    requires Plain(a) && Plain(b) && Plain(c) && !IsYn(a) && !IsYn(b) && !IsYn(c)
    ensures ExprEq(EBin(op, a, b), EBin(op, b, a))
    ensures ExprEq(EBin(op, EBin(op, a, b), c), EBin(op, a, EBin(op, b, c)))
  {
    hide ExprEq; hide FormOf; hide Bag; hide IsYn;
    var (ab, ba, bc) := (EBin(op, a, b), EBin(op, b, a), EBin(op, b, c));
    var (l, r) := (EBin(op, ab, c), EBin(op, a, bc));
    BagOfBin(op, ab);
    BagOfBin(op, ba);
    BagOfBin(op, bc);
    BagOfBin(op, l);
    BagOfBin(op, r);
    assert Bag(op, a) + Bag(op, b) == Bag(op, b) + Bag(op, a);
    assert Bag(op, a) + Bag(op, b) + Bag(op, c) == Bag(op, a) + (Bag(op, b) + Bag(op, c));
    BinPlain(op, a, b);
    BinPlain(op, b, a);
    BinPlain(op, b, c);
    BinPlain(op, ab, c);
    BinPlain(op, a, bc);
    ExprEqExact(ab, ba);
    ExprEqExact(l, r);
  }

  lemma BinPlain(op: Op, a: Expr, b: Expr)
    requires Plain(a) && Plain(b) && !IsYn(a) && !IsYn(b)
    ensures Plain(EBin(op, a, b)) && !IsYn(EBin(op, a, b))
  {
  }

  // ---- an expression and itself

  /** Every operand of the level is y or n. */
  predicate Spent(op: Op, e: Expr) {
    if IsOp(op, e) then Spent(op, e.left) && Spent(op, e.right) else IsYn(e)
  }

  /** Every operand left of p is. */
  predicate SpentBefore(op: Op, e: Expr, p: Path)
    requires OnLevel(op, e, p)
  {
    p == [] || (SpentBefore(op, Child(e, p[0]), p[1..]) && (p[0] ==> Spent(op, e.left)))
  }

  /** The level with a unit for every operand but y and n. */
  function Cleared(op: Op, e: Expr): Expr {
    if IsOp(op, e) then EBin(op, Cleared(op, e.left), Cleared(op, e.right))
    else if IsYn(e) then e else ESym(Unit(op))
  }

  lemma {:induction false} ClearedSpent(op: Op, e: Expr)
    ensures Spent(op, Cleared(op, e)) && EliminateYn(Cleared(op, e)).ESym?
    ensures IsYn(EliminateYn(Cleared(op, e))) && SameLevel(op, e, Cleared(op, e))
  {
    if IsOp(op, e) {
      ClearedSpent(op, e.left);
      ClearedSpent(op, e.right);
    }
  }

  lemma ConstAlone(op: Op, c: Expr, e: Expr)
    requires !IsOp(op, c) && !IsOp(op, e) && (IsYn(c) || IsYn(e))
    ensures EliminateOperands(op, c, e) == (c, e) && EliminateOperands(op, e, c) == (e, c)
  {
  }

  /** y and n find nothing. */
  lemma {:induction false} ConstWalk(op: Op, c: Expr, e: Expr)
    requires IsYn(c)
    ensures EliminateOperands(op, c, e) == (c, e)
  {
    if IsOp(op, e) {
      ConstWalk(op, c, e.left);
      ConstWalk(op, c, e.right);
    } else {
      ConstAlone(op, c, e);
    }
  }

  /** And nothing finds them. */
  lemma {:induction false} SpentWalk(op: Op, x: Expr, e: Expr)
    requires !IsOp(op, x) && Spent(op, e)
    ensures EliminateOperands(op, x, e) == (x, e)
  {
    if IsOp(op, e) {
      SpentWalk(op, x, e.left);
      SpentWalk(op, x, e.right);
    } else {
      ConstAlone(op, e, x);
    }
  }

  /** An operand finds itself, if nothing before it can be found. */
  lemma {:induction false} OperandWalk(op: Op, e: Expr, p: Path, x: Expr)
    requires OnLevel(op, e, p) && SpentBefore(op, e, p) && Get(op, e, p) == x && !IsOp(op, x)
    ensures EliminateOperands(op, x, e) == (Cleared(op, x), Put(op, e, p, Cleared(op, x)))
    decreases Size(x), 2, e
  {
    hide ExprEq; hide SameYn; hide Spent;
    if p == [] {
      ExprEqReflexive(x);
      ItselfFound(op, x);
    } else {
      OperandWalk(op, Child(e, p[0]), p[1..], x);
      if p[0] {
        SpentWalk(op, x, e.left);
      } else if IsYn(x) {
        ConstWalk(op, x, e.right);
      } else {
        ConstWalk(op, ESym(Unit(op)), e.right);
      }
    }
  }

  lemma ItselfFound(op: Op, x: Expr)
    requires !IsOp(op, x) && ExprEq(x, x)
    ensures EliminateOperands(op, x, x) == (Cleared(op, x), Cleared(op, x))
  {
    hide ExprEq;
  }

  lemma {:induction false} PutTwice(op: Op, e: Expr, p: Path, l: Expr, r: Expr)
    requires OnLevel(op, e, p) && IsOp(op, Get(op, e, p))
    ensures OnLevel(op, e, p + [false]) && Get(op, e, p + [false]) == Get(op, e, p).left
    ensures var e1 := Put(op, e, p + [false], l);
            && OnLevel(op, e1, p + [true]) && Get(op, e1, p + [true]) == Get(op, e, p).right
            && Put(op, e1, p + [true], r) == Put(op, e, p, EBin(op, l, r))
  {
    if p == [] {
      assert p + [false] == [false] && p + [true] == [true];
    } else {
      assert (p + [false])[1..] == p[1..] + [false] && (p + [true])[1..] == p[1..] + [true];
      PutTwice(op, Child(e, p[0]), p[1..], l, r);
    }
  }

  lemma {:induction false} SpentTwice(op: Op, e: Expr, p: Path, l: Expr)
    requires OnLevel(op, e, p) && IsOp(op, Get(op, e, p)) && SpentBefore(op, e, p) && Spent(op, l)
    ensures OnLevel(op, e, p + [false]) && SpentBefore(op, e, p + [false])
    ensures var e1 := Put(op, e, p + [false], l); OnLevel(op, e1, p + [true]) && SpentBefore(op, e1, p + [true])
  {
    hide Spent; hide Size;
    PutTwice(op, e, p, l, l);
    if p == [] {
      assert p + [false] == [false] && p + [true] == [true];
    } else {
      assert (p + [false])[1..] == p[1..] + [false] && (p + [true])[1..] == p[1..] + [true];
      SpentTwice(op, Child(e, p[0]), p[1..], l);
    }
  }

  lemma {:induction false} SelfWalk(op: Op, e: Expr, p: Path, x: Expr)
    requires OnLevel(op, e, p) && SpentBefore(op, e, p) && Get(op, e, p) == x
    ensures EliminateOperands(op, x, e) == (Cleared(op, x), Put(op, e, p, Cleared(op, x)))
    decreases Size(x), if IsOp(op, x) then 0 else 3
  {
    hide Spent; hide SpentBefore; hide Get; hide Put; hide OnLevel; hide ExprEq;
    if IsOp(op, x) {
      var (l, r) := (Cleared(op, x.left), Cleared(op, x.right));
      PutTwice(op, e, p, l, r);
      ClearedSpent(op, x.left);
      SpentTwice(op, e, p, l);
      SelfWalk(op, e, p + [false], x.left);
      SelfWalk(op, Put(op, e, p + [false], l), p + [true], x.right);
    } else {
      OperandWalk(op, e, p, x);
    }
  }

  /** Every expression, constants included, is equal to itself. */
  lemma {:induction false} ExprEqReflexive(e: Expr)
    ensures ExprEq(e, e)
    decreases Size(e), 1
  {
    match e
    case ENot(x) => ExprEqReflexive(x);
    case EBin(op, _, _) =>
      SelfWalk(op, e, [], e);
      ClearedSpent(op, e);
    case _ =>
  }

  /** So expr_eliminate_dups leaves no operand twice: among the operands of its result no two are
      written alike, and no two plain ones have the same form. */
  lemma NoOperandTwice(e: Expr, p: Path, q: Path)
    requires var d := EliminateDups(e);
             d.EBin? && IsOperand(d.op, d, p) && IsOperand(d.op, d, q) && p != q
    ensures var d := EliminateDups(e);
            var (a, b) := (Get(d.op, d, p), Get(d.op, d, q));
            a != b && (Plain(a) && Plain(b) ==> FormOf(a) != FormOf(b))
  {
    hide ExprEq; hide FormOf; hide Plain; hide EliminateDups; hide Get; hide OnLevel; hide Joinless;
    EliminateDupsDone(e);
    var d := EliminateDups(e);
    var (a, b) := (Get(d.op, d, p), Get(d.op, d, q));
    JoinlessOperands(d, p, q);
    ExprEqReflexive(a);
    if Plain(a) && Plain(b) { ExprEqExact(a, b); }
  }

  // ---- where constants stand in the way

  /** The walk over two levels of two operands each, where the first operand of the one is not
      equal to the second of the other. */
  lemma PairWalk(op: Op, a: Expr, b: Expr, c: Expr, d: Expr)
    requires !IsOp(op, a) && !IsOp(op, b) && !IsOp(op, c) && !IsOp(op, d)
    requires !IsYn(a) && !IsYn(c) && !ExprEq(a, d) && !ExprEq(b, c)
    ensures var (p, q) := (EliminateOperands(op, a, c), EliminateOperands(op, b, d));
            EliminateOperands(op, EBin(op, a, b), EBin(op, c, d)) == (EBin(op, p.0, q.0), EBin(op, p.1, q.1))
  {
    hide ExprEq;
    var (p, q) := (EliminateOperands(op, a, c), EliminateOperands(op, b, d));
    var u := ESym(Unit(op));
    assert EliminateOperands(op, p.0, d) == (p.0, d) by {
      if p.0 == u { ConstWalk(op, u, d); }
    }
    assert EliminateOperands(op, a, EBin(op, c, d)) == (p.0, EBin(op, p.1, d));
    assert EliminateOperands(op, b, p.1) == (b, p.1) by {
      if p.1 == u { ConstAlone(op, b, u); }
    }
    assert EliminateOperands(op, b, EBin(op, p.1, d)) == (q.0, EBin(op, p.1, q.1));
  }

  /** What is left of both levels. */
  lemma PairLeft(a: Expr, b: Expr, c: Expr, d: Expr)
    requires !IsOp(AndOp, a) && !IsOp(AndOp, b) && !IsOp(AndOp, c) && !IsOp(AndOp, d)
    requires !IsYn(a) && !IsYn(b) && !IsYn(c) && !IsYn(d) && !ExprEq(a, d) && !ExprEq(b, c)
    ensures var u := ESym(SymYes);
            EliminateEq(EBin(AndOp, a, b), EBin(AndOp, c, d)) ==
            (EliminateYn(EBin(AndOp, if ExprEq(a, c) then u else a, if ExprEq(b, d) then u else b)),
             EliminateYn(EBin(AndOp, if ExprEq(a, c) then u else c, if ExprEq(b, d) then u else d)))
  {
    hide ExprEq; hide EliminateYn;
    PairWalk(AndOp, a, b, c, d);
    var u := ESym(SymYes);
    assert EliminateOperands(AndOp, a, c) == if ExprEq(a, c) then (u, u) else (a, c);
    assert EliminateOperands(AndOp, b, d) == if ExprEq(b, d) then (u, u) else (b, d);
  }

  lemma OrWithNo(a: Symbol, c: Symbol)
    requires a.Sym? && c.Sym? && a != c
    ensures !ExprEq(EBin(OrOp, ESym(a), ESym(SymNo)), EBin(OrOp, ESym(c), ESym(SymNo)))
  {
    var n := ESym(SymNo);
    PairWalk(OrOp, ESym(a), n, ESym(c), n);
    ConstAlone(OrOp, n, n);
    assert EliminateOperands(OrOp, ESym(a), ESym(c)) == (ESym(a), ESym(c));
    var (x, y) := (EBin(OrOp, ESym(a), n), EBin(OrOp, ESym(c), n));
    assert EliminateYn(x) == ESym(a) && EliminateYn(y) == ESym(c);
    assert EliminatePasses(x, y) == (x, y);
  }

  /** With n as an operand expr_eq is not transitive. */
  lemma ExprEqNotTransitive(a: Symbol, c: Symbol)
    requires a.Sym? && c.Sym? && a != c
    ensures var (x, y) := (EBin(OrOp, ESym(a), ESym(SymNo)), EBin(OrOp, ESym(c), ESym(SymNo)));
            && ExprEq(EBin(AndOp, x, y), EBin(AndOp, ESym(a), y))
            && ExprEq(EBin(AndOp, ESym(a), y), EBin(AndOp, ESym(a), ESym(c)))
            && !ExprEq(EBin(AndOp, x, y), EBin(AndOp, ESym(a), ESym(c)))
  {
    hide EliminateEq; hide Size;
    var (x, y) := (EBin(OrOp, ESym(a), ESym(SymNo)), EBin(OrOp, ESym(c), ESym(SymNo)));
    var (sa, sc) := (ESym(a), ESym(c));
    OrWithNo(a, c);
    ExprEqReflexive(y);
    ExprEqReflexive(sa);
    assert EliminateYn(x) == sa && EliminateYn(y) == sc;
    assert EliminateEq(EBin(AndOp, x, y), EBin(AndOp, sa, y)) == (sa, sa) by { PairLeft(x, y, sa, y); }
    assert EliminateEq(EBin(AndOp, sa, y), EBin(AndOp, sa, sc)) == (sc, sc) by { PairLeft(sa, y, sa, sc); }
    assert EliminateEq(EBin(AndOp, x, y), EBin(AndOp, sa, sc)).0.EBin? by { PairLeft(x, y, sa, sc); }
  }

  /** Three operands against the same in another order, when the pairing that the walk finds first
      leaves two that are not equal. */
  lemma ThreeWalk(op: Op, p: Expr, q: Expr, r: Expr)
    requires !IsOp(op, p) && !IsOp(op, q) && !IsOp(op, r) && !IsYn(p) && !IsYn(q) && !IsYn(r)
    requires ExprEq(p, r) && ExprEq(q, p) && !ExprEq(r, q)
    ensures var u := ESym(Unit(op));
            EliminateOperands(op, EBin(op, EBin(op, p, q), r), EBin(op, EBin(op, r, p), q)) ==
            (EBin(op, EBin(op, u, u), r), EBin(op, EBin(op, u, u), q))
  {
    hide ExprEq;
    var u := ESym(Unit(op));
    ConstWalk(op, u, p);
    ConstWalk(op, u, q);
    ConstAlone(op, q, u);
    ConstAlone(op, r, u);
    var (t0, t1) := (EBin(op, EBin(op, r, p), q), EBin(op, EBin(op, u, p), q));
    var t2 := EBin(op, EBin(op, u, u), q);
    assert EliminateOperands(op, p, EBin(op, r, p)) == (u, EBin(op, u, p));
    assert EliminateOperands(op, p, t0) == (u, t1);
    assert EliminateOperands(op, q, EBin(op, u, p)) == (u, EBin(op, u, u));
    assert EliminateOperands(op, q, t1) == (u, t2);
    assert EliminateOperands(op, EBin(op, p, q), t0) == (EBin(op, u, u), t2);
    assert EliminateOperands(op, r, EBin(op, u, u)) == (r, EBin(op, u, u));
    assert EliminateOperands(op, r, t2) == (r, t2);
  }

  /** So the order of operands can matter there: three that are equal in a row but not first to
      last, and the same three in another order. */
  lemma ExprEqOrderMatters(a: Symbol, c: Symbol)
    requires a.Sym? && c.Sym? && a != c
    ensures var (y, sa, sc) := (EBin(OrOp, ESym(c), ESym(SymNo)), ESym(a), ESym(c));
            var (p, q) := (EBin(AndOp, sa, y), EBin(AndOp, sa, sc));
            var r := EBin(AndOp, EBin(OrOp, sa, ESym(SymNo)), y);
            !ExprEq(EBin(OrOp, EBin(OrOp, p, q), r), EBin(OrOp, EBin(OrOp, r, p), q))
  {
    hide EliminateEq; hide Size;
    var (x, y) := (EBin(OrOp, ESym(a), ESym(SymNo)), EBin(OrOp, ESym(c), ESym(SymNo)));
    var (sa, sc) := (ESym(a), ESym(c));
    var (p, q, r) := (EBin(AndOp, sa, y), EBin(AndOp, sa, sc), EBin(AndOp, x, y));
    OrWithNo(c, a);
    ExprEqReflexive(y);
    ExprEqReflexive(sa);
    assert EliminateYn(x) == sa && EliminateYn(y) == sc;
    assert EliminateEq(p, r) == (sa, sa) by { PairLeft(sa, y, x, y); }
    assert EliminateEq(q, p) == (sc, sc) by { PairLeft(sa, sc, sa, y); }
    ExprEqNotTransitive(a, c);
    ThreeWalk(OrOp, p, q, r);
    ThreeLeft(p, q, r);
  }

  lemma ThreeLeft(p: Expr, q: Expr, r: Expr)
    requires var u := ESym(SymNo);
             EliminateOperands(OrOp, EBin(OrOp, EBin(OrOp, p, q), r), EBin(OrOp, EBin(OrOp, r, p), q)) ==
             (EBin(OrOp, EBin(OrOp, u, u), r), EBin(OrOp, EBin(OrOp, u, u), q))
    requires EliminateYn(r).EBin?
    ensures !ExprEq(EBin(OrOp, EBin(OrOp, p, q), r), EBin(OrOp, EBin(OrOp, r, p), q))
  {
    hide EliminateOperands;
    var (e, f) := (EBin(OrOp, EBin(OrOp, p, q), r), EBin(OrOp, EBin(OrOp, r, p), q));
    var none := EBin(OrOp, ESym(SymNo), ESym(SymNo));
    assert EliminatePasses(e, f) == (EBin(OrOp, none, r), EBin(OrOp, none, q));
    assert EliminateYn(none) == ESym(SymNo);
  }

  /** Operands are counted: `A && A && B` and `A && B && B` are not equal, although every operand
      of the one equals an operand of the other. */
  lemma OperandsAreCounted(a: Symbol, b: Symbol)
    requires a.Sym? && b.Sym? && a != b
    ensures !ExprEq(EBin(AndOp, EBin(AndOp, ESym(a), ESym(a)), ESym(b)), EBin(AndOp, EBin(AndOp, ESym(a), ESym(b)), ESym(b)))
  {
    hide ExprEq; hide IsYn; hide Plain; hide FormOf;
    var (x, y) := (EBin(AndOp, EBin(AndOp, ESym(a), ESym(a)), ESym(b)), EBin(AndOp, EBin(AndOp, ESym(a), ESym(b)), ESym(b)));
    PlainThree(a, a, b);
    PlainThree(a, b, b);
    ExprEqExact(x, y);
    assert multiset{FSym(a), FSym(a), FSym(b)}[FSym(a)] == 2 && multiset{FSym(a), FSym(b), FSym(b)}[FSym(a)] == 1;
  }

  lemma PlainThree(a: Symbol, b: Symbol, c: Symbol)
    requires a.Sym? && b.Sym? && c.Sym?
    ensures var e := EBin(AndOp, EBin(AndOp, ESym(a), ESym(b)), ESym(c));
            Plain(e) && FormOf(e) == FBin(AndOp, multiset{FSym(a), FSym(b), FSym(c)})
  {
    hide FormOf; hide Bag; hide Size;
    var (l, e) := (EBin(AndOp, ESym(a), ESym(b)), EBin(AndOp, EBin(AndOp, ESym(a), ESym(b)), ESym(c)));
    SymbolBag(a);
    SymbolBag(b);
    SymbolBag(c);
    BagOfBin(AndOp, l);
    BagOfBin(AndOp, e);
    ThreeForms(FSym(a), FSym(b), FSym(c));
    assert Plain(l);
  }

  lemma ThreeForms(a: Form, b: Form, c: Form)
    ensures multiset{a} + multiset{b} + multiset{c} == multiset{a, b, c}
  {
  }

  lemma SymbolBag(s: Symbol)
    requires s.Sym?
    ensures Bag(AndOp, ESym(s)) == multiset{FSym(s)}
  {
  }
}
