/** sym_tristate_within_range of support/kconfig/symbol.c against what sym_calc_value makes of
    a stored user value, for symbols outside choices. */
module SymbolRange {
  import opened KconfigExpr
  import opened SymbolGraph
  import opened SymbolValue

  /** sym_tristate_within_range, given the computed state x of s. */
  predicate WithinRange(g: Graph, s: Symbol, x: SymValue, val: Tristate) {
    var ty := TypeNow(g, s);
    && x.visible != NO
    && (ty == SBoolean || ty == STristate)
    && !(ty == SBoolean && val == MOD)
    && x.visible > x.rev
    && !(x.imp == YES && val == MOD)
    && x.rev <= val <= x.visible
  }

  /** sym_is_changable */
  predicate Changeable(x: SymValue) { x.visible > x.rev }

  /** The same table after the user value of s was set to val. */
  function WithUser(g: Graph, s: Symbol, val: Tristate): Graph {
    g.(user := g.user[s := UserValue(val, if s in g.user then g.user[s].val else "")])
  }

  /** The user value of s plays no part in the value of any other symbol, seen on its own. */
  lemma CalcOther(g: Graph, s: Symbol, val: Tristate, t: Symbol, v: Valuation)
    requires t != s
    ensures Calc(WithUser(g, s, val), t, v) == Calc(g, t, v)
  {
    hide Eval; hide DefaultTri; hide CalcVisibility; hide ModToYes; hide Min; hide Max; hide TriString;
    VisibilitySame(g, s, val, t, v);
  }

  lemma VisibilitySame(g: Graph, s: Symbol, val: Tristate, t: Symbol, v: Valuation)
    ensures CalcVisibility(WithUser(g, s, val), t, v) == CalcVisibility(g, t, v)
  {
    hide Eval;
  }

  /** Setting the user value of s does not change what is ranked at or below it. */
  lemma {:induction false} OthersUnchanged(g: Graph, r: Rank, s: Symbol, val: Tristate, t: Symbol)
    requires t != s && RankOf(r, t) <= RankOf(r, s)
    ensures ValueOf(WithUser(g, s, val), r, t) == ValueOf(g, r, t)
    decreases RankOf(r, t)
  {
    BelowUnchanged(g, r, s, val, RankOf(r, t), EvalDeps(g, t));
    hide Calc;
    var v, w := Below(WithUser(g, s, val), r, RankOf(r, t)), Below(g, r, RankOf(r, t));
    CalcOther(g, s, val, t, v);
    CalcAgree(g, t, v, w);
  }

  lemma {:induction false} BelowUnchanged(g: Graph, r: Rank, s: Symbol, val: Tristate, n: nat, ts: set<Symbol>)
    requires n <= RankOf(r, s)
    ensures var v, w := Below(WithUser(g, s, val), r, n), Below(g, r, n);
            Agree(v, w, ts)
    decreases n, 0
  {
    hide Calc;
    var g' := WithUser(g, s, val);
    forall t: Symbol | RankOf(r, t) < n
      ensures ValueOf(g', r, t) == ValueOf(g, r, t)
    {
      OthersUnchanged(g, r, s, val, t);
    }
    var v, w := Below(g', r, n), Below(g, r, n);
    forall t: Symbol
      ensures v.tri(t) == w.tri(t) && v.str(t) == w.str(t)
    {
    }
  }

  /** After storing val, s is worth the stored value cut off at its visibility, raised to its
      selects, with m promoted. */
  lemma Recalculated(g: Graph, r: Rank, s: Symbol, val: Tristate)
    requires s.IsTri()
    ensures var x, y := ValueOf(g, r, s), ValueOf(WithUser(g, s, val), r, s);
            && y.visible == x.visible && y.rev == x.rev && y.imp == x.imp
            && (x.visible != NO ==>
                  y.tri == ModToYes(Max(Min(val, x.visible), x.rev), TypeNow(g, s) == SBoolean || x.imp == YES))
  {
    BelowUnchanged(g, r, s, val, RankOf(r, s), EvalDeps(g, s));
    hide Below;
    hide Eval;
    var v, w := Below(WithUser(g, s, val), r, RankOf(r, s)), Below(g, r, RankOf(r, s));
    VisibilitySame(g, s, val, s, v);
    CalcVisibilityAgree(g, s, v, w);
    hide CalcVisibility;
    hide DefaultTri;
  }

  /** For a changeable symbol the range test says exactly which values take effect when they
      are stored, with one exception: a tristate whose prompt allows only m but that is
      implied at y becomes y when y is stored, and the test refuses y. */
  lemma RangeTestExact(g: Graph, r: Rank, s: Symbol, val: Tristate)
    requires s.IsTri() && Changeable(ValueOf(g, r, s))
    ensures var x := ValueOf(g, r, s);
            (WithinRange(g, s, x, val) <==> ValueOf(WithUser(g, s, val), r, s).tri == val)
            <==> !(val == YES && x.visible == MOD && x.imp == YES)
  {
    Recalculated(g, r, s, val);
    VisibleShape(g, s, Below(g, r, RankOf(r, s)));
    hide Calc;
    hide Below;
  }

  /** A symbol that cannot be m is not visible at m. */
  lemma VisibleShape(g: Graph, s: Symbol, v: Valuation)
    requires s.IsTri()
    ensures TypeNow(g, s) == SBoolean ==> Calc(g, s, v).visible != MOD
  {
    hide Eval;
    hide DefaultTri;
  }

  /** In every case a value the test accepts is the value the symbol then has. */
  lemma AcceptedTakesEffect(g: Graph, r: Rank, s: Symbol, val: Tristate)
    requires s.IsTri() && WithinRange(g, s, ValueOf(g, r, s), val)
    ensures ValueOf(WithUser(g, s, val), r, s).tri == val
  {
    Recalculated(g, r, s, val);
    hide Calc;
    hide Below;
  }

  /** The exception happens: S with a prompt `if M`, implied by a symbol that is y. */
  lemma RangeTestException() returns (g: Graph, s: Symbol)
    ensures var r: Rank := map[s := 1];
            && Acyclic(g, r) && s.IsTri() && Changeable(ValueOf(g, r, s))
            && !WithinRange(g, s, ValueOf(g, r, s), YES)
            && ValueOf(WithUser(g, s, YES), r, s).tri == YES
  {
    s := Sym(0, STristate);
    var prompt := Property(PPrompt, true, Some(ESym(SymMod)), None);
    var info := SymInfo("S", [prompt], None, None, Some(ESym(SymYes)), false);
    g := Graph(map[s := info], map[], YES, (t, k) => None);
    var r: Rank := map[s := 1];
    assert EvalDepsOfProps([prompt]) == {SymMod} by { assert EvalDepsOfProps([]) == {}; }
    assert Acyclic(g, r);
    var v := Below(g, r, 1);
    assert v.tri(SymMod) == MOD && v.tri(SymYes) == YES by {
      CalcShape(g, SymMod, Below(g, r, 0));
      CalcShape(g, SymYes, Below(g, r, 0));
    }
    ExceptionVisibility(g, s, prompt, v);
    Recalculated(g, r, s, YES);
    assert ValueOf(g, r, s) == Calc(g, s, v);
    hide Calc;
    hide Below;
    hide ValueOf;
  }

  lemma ExceptionVisibility(g: Graph, s: Symbol, prompt: Property, v: Valuation)
    requires s.Type() == STristate && g.modulesVal == YES && v.tri(SymMod) == MOD && v.tri(SymYes) == YES
    requires prompt == Property(PPrompt, true, Some(ESym(SymMod)), None)
    requires g.Info(s) == SymInfo("S", [prompt], None, None, Some(ESym(SymYes)), false)
    ensures var x := Calc(g, s, v); x.visible == MOD && x.imp == YES && x.rev == NO
  {
    assert BestPrompt([prompt], v) == MOD by { assert BestPrompt([], v) == NO; }
    hide DefaultTri;
  }
}
