/** What the conditions that menu_finalize writes do to the values that sym_calc_value
    computes: support/kconfig/menu.c against support/kconfig/symbol.c. */
module MenuValue {
  import opened KconfigExpr
  import opened ExprTransform
  import opened ExprDups
  import opened MenuDeps
  import opened SymbolGraph
  import opened SymbolValue

  /** The properties of one symbol as menu_finalize leaves them, given the finished dependency
      of the menu node that each belongs to. It leaves expr_trans_bool out for tristates. */
  function Finalized(ps: seq<Property>, bases: seq<Option<Expr>>, modules: Symbol, tristateSym: bool): (r: seq<Property>)
    requires |ps| == |bases|
    ensures |r| == |ps|
  {
    if ps == [] then []
    else
      [ps[0].(visible := PropagateProp(bases[0], ps[0].visible, modules, tristateSym))]
      + Finalized(ps[1..], bases[1..], modules, tristateSym)
  }

  /** The best prompt as the menu tree states it: each condition under that of its node. */
  function StatedPrompt(ps: seq<Property>, bases: seq<Option<Expr>>, modules: Symbol, v: Valuation): Tristate
    requires |ps| == |bases|
  {
    if ps == [] then NO
    else
      var rest := StatedPrompt(ps[1..], bases[1..], modules, v);
      if ps[0].text then Max(Min(EvalOpt(bases[0], v), EvalOpt(ps[0].visible, Modular(v, modules))), rest) else rest
  }

  ghost predicate SoundProps(ps: seq<Property>, bases: seq<Option<Expr>>, v: Valuation) {
    && |ps| == |bases|
    && forall i :: 0 <= i < |ps| ==> CleanOpt(ps[i].visible, v) && CleanOpt(bases[i], v) && NormalOpt(bases[i])
  }

  /** The conditions of qs are n where those of ps are; all else is the same. */
  ghost predicate SameNo(ps: seq<Property>, qs: seq<Property>, v: Valuation) {
    && |ps| == |qs|
    && forall i :: 0 <= i < |ps| ==> SameNoProp(ps[i], qs[i], v)
  }

  ghost predicate SameNoProp(p: Property, q: Property, v: Valuation) {
    q == p.(visible := q.visible) && (EvalOpt(p.visible, v) == NO <==> EvalOpt(q.visible, v) == NO)
  }

  lemma {:induction false} FinalizedSound(ps: seq<Property>, bases: seq<Option<Expr>>, modules: Symbol, v: Valuation)
    requires WellTyped(v) && SoundProps(ps, bases, v)
    ensures SameNo(Finalized(ps, bases, modules, true), Finalized(ps, bases, modules, false), v)
    ensures BestPrompt(Finalized(ps, bases, modules, true), v) == StatedPrompt(ps, bases, modules, v)
  {
    hide Propagate; hide Modular; hide Eval;
    if ps != [] {
      PropagateExact(bases[0], ps[0].visible, modules, v);
      PropagatePropVisible(bases[0], ps[0].visible, modules, v);
      FinalizedSound(ps[1..], bases[1..], modules, v);
      assert Finalized(ps, bases, modules, true)[1..] == Finalized(ps[1..], bases[1..], modules, true);
    }
  }

  lemma {:induction false} SameNoPrompt(ps: seq<Property>, qs: seq<Property>, v: Valuation)
    requires SameNo(ps, qs, v)
    ensures BestPrompt(ps, v) == NO <==> BestPrompt(qs, v) == NO
  {
    hide Eval;
    if ps != [] {
      assert SameNoProp(ps[0], qs[0], v);
      SameNoPrompt(ps[1..], qs[1..], v);
    }
  }

  lemma {:induction false} SameNoDefault(ps: seq<Property>, qs: seq<Property>, v: Valuation)
    requires SameNo(ps, qs, v)
    ensures DefaultProp(ps, v) == DefaultProp(qs, v)
  {
    hide Eval;
    if ps != [] {
      assert SameNoProp(ps[0], qs[0], v);
      SameNoDefault(ps[1..], qs[1..], v);
    }
  }

  /** A symbol that is not a tristate has the same value under conditions that are n in the
      same places: what is visible at m counts as y for it. */
  lemma SameNoCalc(g: Graph, h: Graph, s: Symbol, v: Valuation)
    requires s.Type() != STristate
    requires h.user == g.user && h.modulesVal == g.modulesVal
    requires h.Info(s) == g.Info(s).(props := h.Info(s).props) && SameNo(g.Info(s).props, h.Info(s).props, v)
    ensures Calc(g, s, v) == Calc(h, s, v)
  {
    hide CalcVisibility; hide SameNo; hide Eval; hide CalcTri; hide CalcString;
    SameNoVisibility(g, h, s, v);
    if s.IsTri() {
      SameNoTri(g, h, s, v, CalcVisibility(g, s, v));
    } else {
      SameNoString(g, h, s, v, CalcVisibility(g, s, v));
    }
  }

  lemma SameNoVisibility(g: Graph, h: Graph, s: Symbol, v: Valuation)
    requires s.Type() != STristate && h.modulesVal == g.modulesVal
    requires h.Info(s) == g.Info(s).(props := h.Info(s).props) && SameNo(g.Info(s).props, h.Info(s).props, v)
    ensures CalcVisibility(g, s, v) == CalcVisibility(h, s, v)
  {
    hide Eval; hide BestPrompt; hide SameNo;
    SameNoPrompt(g.Info(s).props, h.Info(s).props, v);
  }

  lemma SameNoTri(g: Graph, h: Graph, s: Symbol, v: Valuation, x: SymValue)
    requires s.Type() == SBoolean && h.user == g.user
    requires SameNo(g.Info(s).props, h.Info(s).props, v)
    ensures CalcTri(g, s, v, x) == CalcTri(h, s, v, x)
  {
    hide Eval; hide DefaultProp;
    var (ps, qs) := (g.Info(s).props, h.Info(s).props);
    SameNoDefault(ps, qs, v);
    var i := DefaultProp(ps, v);
    if i < |ps| { assert SameNoProp(ps[i], qs[i], v); }
    hide SameNo;
  }

  lemma SameNoString(g: Graph, h: Graph, s: Symbol, v: Valuation, x: SymValue)
    requires h.user == g.user && SameNo(g.Info(s).props, h.Info(s).props, v)
    ensures CalcString(g, s, v, x) == CalcString(h, s, v, x)
  {
    hide Eval; hide DefaultProp;
    var (ps, qs) := (g.Info(s).props, h.Info(s).props);
    SameNoDefault(ps, qs, v);
    var i := DefaultProp(ps, v);
    if i < |ps| { assert SameNoProp(ps[i], qs[i], v); }
  }

  /** The symbol table with the conditions of all properties as menu_finalize leaves them, or,
      when exact, without its calls of expr_trans_bool. */
  function FinalGraph(g: Graph, bases: map<Symbol, seq<Option<Expr>>>, modules: Symbol, exact: bool): Graph
    requires forall s :: s in g.info ==> s in bases && |bases[s]| == |g.info[s].props|
  {
    g.(info := map s | s in g.info ::
      g.info[s].(props := Finalized(g.info[s].props, bases[s], modules, exact || s.Type() == STristate)))
  }

  /** The prompt of a symbol is visible as the menu tree states it, up to m counting as y for
      a symbol that cannot be m: sym_calc_visibility over what menu_finalize wrote. */
  lemma FinalVisibility(g: Graph, bases: map<Symbol, seq<Option<Expr>>>, modules: Symbol, s: Symbol, v: Valuation)
    requires WellTyped(v) && s in g.info
    requires forall t :: t in g.info ==> t in bases && |bases[t]| == |g.info[t].props|
    requires SoundProps(g.info[s].props, bases[s], v)
    ensures CalcVisibility(FinalGraph(g, bases, modules, false), s, v).visible ==
            ModToYes(StatedPrompt(g.info[s].props, bases[s], modules, v), s.Type() != STristate || g.modulesVal == NO)
  {
    hide Eval;
    var ps := g.info[s].props;
    FinalizedSound(ps, bases[s], modules, v);
    SameNoPrompt(Finalized(ps, bases[s], modules, true), Finalized(ps, bases[s], modules, false), v);
  }

  lemma SameInfoCalc(g: Graph, h: Graph, s: Symbol, v: Valuation)
    requires h.user == g.user && h.modulesVal == g.modulesVal && h.Info(s) == g.Info(s)
    ensures Calc(g, s, v) == Calc(h, s, v)
  {
    hide Eval; hide BestPrompt;
  }

  lemma FinalCalc(g: Graph, bases: map<Symbol, seq<Option<Expr>>>, modules: Symbol, s: Symbol, v: Valuation)
    requires forall t :: t in g.info ==> t in bases && |bases[t]| == |g.info[t].props|
    requires WellTyped(v) && (s in g.info ==> SoundProps(g.info[s].props, bases[s], v))
    ensures Calc(FinalGraph(g, bases, modules, true), s, v) == Calc(FinalGraph(g, bases, modules, false), s, v)
  {
    hide Calc; hide WellTyped; hide SoundProps; hide SameNo;
    var (exact, final) := (FinalGraph(g, bases, modules, true), FinalGraph(g, bases, modules, false));
    if s in g.info && s.Type() != STristate {
      FinalizedSound(g.info[s].props, bases[s], modules, v);
      SameNoCalc(exact, final, s, v);
    } else {
      SameInfoCalc(exact, final, s, v);
    }
  }

  /** Two graphs whose equations agree on the values of one have the same values. */
  lemma SameEquations(g: Graph, h: Graph, r: Rank, s: Symbol)
    requires Acyclic(g, r) && Acyclic(h, r) && h.num == g.num && h.modulesVal == g.modulesVal
    requires forall t: Symbol :: Calc(g, t, Full(g, r)) == Calc(h, t, Full(g, r))
    ensures ValueOf(h, r, s) == ValueOf(g, r, s)
  {
    hide Calc; hide Acyclic; hide ValueOf; hide EvalDeps;
    var w: Symbol -> SymValue := t => ValueOf(g, r, t);
    var v := Valuation(t => w(t).tri, t => StringOf(h, t, w(t)), h.num);
    forall t: Symbol
      ensures w(t) == Calc(h, t, v)
    {
      ValueEquation(g, r, t);
      assert Agree(Full(g, r), v, EvalDeps(h, t)) by {
        forall u: Symbol
          ensures Full(g, r).tri(u) == v.tri(u) && Full(g, r).str(u) == v.str(u)
        {
          assert Full(g, r).str(u) == StringOf(g, u, ValueOf(g, r, u)) == StringOf(h, u, w(u));
        }
      }
      CalcAgree(h, t, Full(g, r), v);
    }
    ValueUnique(h, r, w, s);
  }

  lemma {:induction false} TransBoolSymbols(e: Expr)
    ensures Symbols(TransBool(e)) <= Symbols(e)
  {
    match e
    case EBin(_, l, r) =>
      TransBoolSymbols(l);
      TransBoolSymbols(r);
    case ENot(x) => TransBoolSymbols(x);
    case _ =>
  }

  lemma {:induction false} FinalPropDeps(ps: seq<Property>, bases: seq<Option<Expr>>, modules: Symbol)
    requires |ps| == |bases|
    ensures EvalDepsOfProps(Finalized(ps, bases, modules, false)) <= EvalDepsOfProps(Finalized(ps, bases, modules, true))
  {
    hide Propagate;
    if ps != [] {
      var d := Propagate(bases[0], ps[0].visible, modules);
      if d.Some? { TransBoolSymbols(d.value); }
      FinalPropDeps(ps[1..], bases[1..], modules);
      assert Finalized(ps, bases, modules, true)[1..] == Finalized(ps[1..], bases[1..], modules, true);
      assert Finalized(ps, bases, modules, false)[1..] == Finalized(ps[1..], bases[1..], modules, false);
    }
  }

  /** expr_trans_bool brings no symbol in, so no cycle. */
  lemma FinalAcyclic(g: Graph, bases: map<Symbol, seq<Option<Expr>>>, modules: Symbol, r: Rank)
    requires forall t :: t in g.info ==> t in bases && |bases[t]| == |g.info[t].props|
    requires Acyclic(FinalGraph(g, bases, modules, true), r)
    ensures Acyclic(FinalGraph(g, bases, modules, false), r)
  {
    hide Finalized; hide EvalDepsOfProps; hide SymbolsOpt;
    var (exact, final) := (FinalGraph(g, bases, modules, true), FinalGraph(g, bases, modules, false));
    forall s, t | t in EvalDeps(final, s)
      ensures RankOf(r, t) < RankOf(r, s)
    {
      if s in g.info { FinalPropDeps(g.info[s].props, bases[s], modules); }
      assert t in EvalDeps(exact, s);
    }
  }

  /** The value of every symbol is the same whether menu_finalize ran expr_trans_bool on the
      prompts and defaults of bools, strings and numbers or not. */
  lemma FinalValues(g: Graph, bases: map<Symbol, seq<Option<Expr>>>, modules: Symbol, r: Rank, s: Symbol)
    requires forall t :: t in g.info ==> t in bases && |bases[t]| == |g.info[t].props|
    requires g.num("y", SUnknown) == g.num("m", SUnknown) == g.num("n", SUnknown) == None
    requires Acyclic(FinalGraph(g, bases, modules, true), r)
    requires forall t :: t in g.info ==>
               SoundProps(g.info[t].props, bases[t], Full(FinalGraph(g, bases, modules, true), r))
    ensures Acyclic(FinalGraph(g, bases, modules, false), r)
    ensures ValueOf(FinalGraph(g, bases, modules, false), r, s) == ValueOf(FinalGraph(g, bases, modules, true), r, s)
  {
    hide Calc; hide Acyclic; hide ValueOf; hide SoundProps; hide WellTyped;
    var (exact, final) := (FinalGraph(g, bases, modules, true), FinalGraph(g, bases, modules, false));
    FinalAcyclic(g, bases, modules, r);
    FullWellTyped(exact, r);
    forall t: Symbol
      ensures Calc(exact, t, Full(exact, r)) == Calc(final, t, Full(exact, r))
    {
      FinalCalc(g, bases, modules, t, Full(exact, r));
    }
    SameEquations(exact, final, r, s);
  }

  /** A select of one target: the symbol that carries it, the finished dependency of the menu
      node it stands at, and its condition. */
  datatype Select = Select(from: Symbol, base: Option<Expr>, dep: Option<Expr>)

  /** What menu_finalize adds to the reverse dependency of the target. */
  function ReverseTerm(s: Select, modules: Symbol): Expr {
    var d := PropagateProp(s.base, s.dep, modules, s.from.Type() == STristate);
    if d.None? then ESym(s.from) else EBin(AndOp, ESym(s.from), d.value)
  }

  /** The reverse dependency after all selects, in the order they come. */
  function ReverseDep(selects: seq<Select>, modules: Symbol): Option<Expr> {
    if selects == [] then None
    else
      var before := ReverseDep(selects[..|selects| - 1], modules);
      var term := ReverseTerm(selects[|selects| - 1], modules);
      Some(if before.None? then term else EBin(OrOp, before.value, term))
  }

  /** What sym_calc_visibility makes of it. */
  function ReverseValue(e: Option<Expr>, v: Valuation): Tristate { if e.None? then NO else Eval(e.value, v) }

  /** The strength that a select states: that of the symbol, its condition and its place. */
  function StatedSelect(s: Select, modules: Symbol, v: Valuation): Tristate {
    Min(v.tri(s.from), Min(EvalOpt(s.base, v), EvalOpt(s.dep, Modular(v, modules))))
  }

  function StatedReverse(selects: seq<Select>, modules: Symbol, v: Valuation): Tristate {
    if selects == [] then NO
    else Max(StatedReverse(selects[..|selects| - 1], modules, v), StatedSelect(selects[|selects| - 1], modules, v))
  }

  predicate SoundSelect(s: Select, v: Valuation) { CleanOpt(s.base, v) && CleanOpt(s.dep, v) && NormalOpt(s.base) }

  lemma SelectStrength(s: Select, modules: Symbol, v: Valuation)
    requires WellTyped(v) && SoundSelect(s, v)
    ensures var term, stated := Eval(ReverseTerm(s, modules), v), StatedSelect(s, modules, v);
            && term <= stated && (term == NO <==> stated == NO)
            && (s.from.Type() == STristate ==> term == stated)
  {
    hide Propagate;
    PropagateExact(s.base, s.dep, modules, v);
    PropagatePropVisible(s.base, s.dep, modules, v);
  }

  /** From a symbol that is not a tristate the strength is as stated unless that is y and the y
      of the simplified condition rests on a tristate worth m that is compared `!= n`; the
      target is then selected at m instead. */
  lemma SelectExact(s: Select, modules: Symbol, v: Valuation)
    requires WellTyped(v) && SoundSelect(s, v) && s.from.Type() != STristate
    ensures var term, stated := Eval(ReverseTerm(s, modules), v), StatedSelect(s, modules, v);
            var d := Propagate(s.base, s.dep, modules);
            && (term == stated <==> (stated == YES && d.Some? ==> YesStays(d.value, v)))
            && (term != stated ==> stated == YES && term == MOD)
  {
    PropagateExact(s.base, s.dep, modules, v);
    PropagateNormal(s.base, s.dep, modules);
    PropagatePropVisible(s.base, s.dep, modules, v);
    var d := Propagate(s.base, s.dep, modules);
    if d.Some? { TransBoolYes(d.value, v); }
    hide Propagate; hide Eval; hide YesStays; hide TransBool; hide Normal; hide Clean; hide WellTyped;
  }

  /** A symbol is selected exactly if some select states it, and never more strongly than the
      strongest says; if all of them come from tristates, exactly that strongly. */
  lemma {:induction false} ReverseStrength(selects: seq<Select>, modules: Symbol, v: Valuation)
    requires WellTyped(v) && forall i :: 0 <= i < |selects| ==> SoundSelect(selects[i], v)
    ensures var final, stated := ReverseValue(ReverseDep(selects, modules), v), StatedReverse(selects, modules, v);
            && final <= stated && (final == NO <==> stated == NO)
            && ((forall i :: 0 <= i < |selects| ==> selects[i].from.Type() == STristate) ==> final == stated)
  {
    hide ReverseTerm; hide StatedSelect; hide SoundSelect;
    if selects != [] {
      var n := |selects| - 1;
      assert SoundSelect(selects[n], v);
      SelectStrength(selects[n], modules, v);
      ReverseStrength(selects[..n], modules, v);
    }
  }

  /** A select that comes through at y. */
  predicate SelectsYes(s: Select, modules: Symbol, v: Valuation) {
    var d := Propagate(s.base, s.dep, modules);
    StatedSelect(s, modules, v) == YES && (s.from.Type() == STristate || d.None? || YesStays(d.value, v))
  }

  /** So a symbol is selected at y exactly if some select comes through at y, and at m if some
      select states anything but none does. */
  lemma {:induction false} ReverseExact(selects: seq<Select>, modules: Symbol, v: Valuation)
    requires WellTyped(v) && forall i :: 0 <= i < |selects| ==> SoundSelect(selects[i], v)
    ensures ReverseValue(ReverseDep(selects, modules), v) == YES <==>
            exists i :: 0 <= i < |selects| && SelectsYes(selects[i], modules, v)
  {
    hide ReverseTerm; hide SoundSelect; hide WellTyped; hide SelectsYes;
    if selects != [] {
      var n := |selects| - 1;
      assert SoundSelect(selects[n], v);
      TermYes(selects[n], modules, v);
      ReverseExact(selects[..n], modules, v);
      if i :| 0 <= i < |selects| && SelectsYes(selects[i], modules, v) {
        assert i < n ==> selects[..n][i] == selects[i];
      }
    }
  }

  lemma TermYes(s: Select, modules: Symbol, v: Valuation)
    requires WellTyped(v) && SoundSelect(s, v)
    ensures Eval(ReverseTerm(s, modules), v) == YES <==> SelectsYes(s, modules, v)
  {
    SelectStrength(s, modules, v);
    if s.from.Type() != STristate { SelectExact(s, modules, v); }
    hide ReverseTerm; hide StatedSelect; hide Propagate; hide Eval; hide YesStays; hide WellTyped;
  }

  /** An instance: with the condition `B != n` alone, of a tristate B, the strength is as stated if
      and only if B is not m or the selecting symbol is not y. */
  lemma SelectWeakened(from: Symbol, b: Symbol, modules: Symbol, v: Valuation)
    requires WellTyped(v) && from.Type() != STristate && b.Type() == STristate
    ensures var s := Select(from, None, Some(ECmp(Ne, b, SymNo)));
            var term, stated := Eval(ReverseTerm(s, modules), v), StatedSelect(s, modules, v);
            && (term == stated <==> v.tri(b) != MOD || v.tri(from) != YES)
            && (v.tri(b) == MOD && v.tri(from) == YES ==> stated == YES && term == MOD)
  {
    TriCompare(v, b, SymNo);
    assert Modular(v, modules).str == v.str;
    var dep := ECmp(Ne, b, SymNo);
    assert EliminateDups(dep) == dep;
    assert PropagateProp(None, Some(dep), modules, false) == Some(ESym(b));
  }
}
