/** What sym_calc_value of support/kconfig/symbol.c computes for symbols outside choices,
    said without a cache: the value of a symbol in terms of the values of the symbols its
    expressions name. */
module SymbolValue {
  import opened KconfigExpr
  import opened SymbolGraph

  /** Everything sym_calc_value leaves in a symbol: curr.tri, curr.val, visible, the three
      dependency values and SYMBOL_WRITE. */
  datatype SymValue = SymValue(
    tri: Tristate, val: string,
    visible: Tristate, dir: Tristate, rev: Tristate, imp: Tristate,
    write: bool)

  const Nothing := SymValue(NO, "n", NO, NO, NO, NO, false)

  /** sym_get_type outside choices. */
  function TypeNow(g: Graph, s: Symbol): SymType {
    if s.Type() == STristate && g.modulesVal == NO then SBoolean else s.Type()
  }

  /** sym_get_string_value of a computed symbol. */
  function StringOf(g: Graph, s: Symbol, x: SymValue): string {
    if s.IsTri() then
      if x.tri == NO then "n"
      else if x.tri == YES then "y"
      else if g.modulesVal == NO then "n" else "m"
    else x.val
  }

  /** A symbol of no known type, and a constant: worth its name. */
  function Plain(g: Graph, s: Symbol): SymValue {
    if s.Const? then
      Nothing.(val := s.name, tri := if s == SymYes then YES else if s == SymMod then MOD else NO)
    else Nothing.(val := g.Info(s).name)
  }

  predicate HasValueType(s: Symbol) {
    s.IsTri() || s.Type() == SString || s.Type() == SInt || s.Type() == SHex
  }

  /** m counts as y for a symbol that cannot be m. */
  function ModToYes(t: Tristate, cannotBeMod: bool): Tristate {
    if t == MOD && cannotBeMod then YES else t
  }

  /** The best condition of the properties that carry a prompt text. */
  function BestPrompt(ps: seq<Property>, v: Valuation): Tristate {
    if ps == [] then NO
    else if ps[0].text then Max(EvalOpt(ps[0].visible, v), BestPrompt(ps[1..], v))
    else BestPrompt(ps[1..], v)
  }

  /** sym_get_default_prop: the index of the first default whose condition is not n. */
  function DefaultProp(ps: seq<Property>, v: Valuation): (i: nat)
    ensures i <= |ps|
    ensures i < |ps| ==> ps[i].kind == PDefault && EvalOpt(ps[i].visible, v) != NO
    ensures forall k :: 0 <= k < i ==> ps[k].kind == PDefault ==> EvalOpt(ps[k].visible, v) == NO
  {
    if ps == [] then 0
    else if ps[0].kind == PDefault && EvalOpt(ps[0].visible, v) != NO then 0
    else
      assert forall k :: 0 <= k < |ps| - 1 ==> ps[1..][k] == ps[k + 1];
      1 + DefaultProp(ps[1..], v)
  }

  /** sym_calc_visibility */
  function CalcVisibility(g: Graph, s: Symbol, v: Valuation): SymValue {
    var i := g.Info(s);
    var visible := ModToYes(BestPrompt(i.props, v), s.Type() != STristate || g.modulesVal == NO);
    var isBool := TypeNow(g, s) == SBoolean;
    var dir := ModToYes(EvalOpt(i.dirDep, v), isBool);
    var rev := ModToYes(if i.revDep.None? then NO else Eval(i.revDep.value, v), isBool);
    var imp := ModToYes(if i.implied.None? || dir == NO then NO else Eval(i.implied.value, v), isBool);
    Nothing.(visible := visible, dir := dir, rev := rev, imp := imp, write := visible != NO)
  }

  /** The value of the default that applies, n if none does. */
  function DefaultTri(ps: seq<Property>, v: Valuation): Tristate {
    var i := DefaultProp(ps, v);
    if i == |ps| then NO else Min(EvalOpt(ps[i].expr, v), EvalOpt(ps[i].visible, v))
  }

  /** The bool and tristate case of sym_calc_value, given the result of sym_calc_visibility. */
  function CalcTri(g: Graph, s: Symbol, v: Valuation, x: SymValue): SymValue {
    var fromUser := x.visible != NO && s in g.user;
    var dflt := if fromUser then NO else DefaultTri(g.Info(s).props, v);
    var base := if fromUser then Min(g.user[s].tri, x.visible) else Max(dflt, x.imp);
    var write := x.write || (!fromUser && (x.rev != NO || dflt != NO || x.imp != NO));
    x.(tri := ModToYes(Max(base, x.rev), TypeNow(g, s) == SBoolean || x.imp == YES),
       write := write)
  }

  /** prop_get_symbol of a default. */
  function DefaultSymbol(e: Option<Expr>): Option<Symbol> {
    if e.Some? && e.value.ESym? then Some(e.value.sym) else None
  }

  /** curr.val of a symbol: a bool or tristate keeps "n" there, whatever its value. */
  function RawVal(v: Valuation, s: Symbol): string { if s.IsTri() then "n" else v.str(s) }

  /** The string, int and hex case. */
  function CalcString(g: Graph, s: Symbol, v: Valuation, x: SymValue): SymValue {
    var ps := g.Info(s).props;
    var i := DefaultProp(ps, v);
    if x.visible != NO && s in g.user then x.(val := g.user[s].val)
    else if i < |ps| && DefaultSymbol(ps[i].expr).Some? then
      x.(val := RawVal(v, DefaultSymbol(ps[i].expr).value), write := true)
    else x.(val := "")
  }

  /** sym_calc_value, when the symbols it asks for are worth what v says. */
  function Calc(g: Graph, s: Symbol, v: Valuation): SymValue {
    if !HasValueType(s) then Plain(g, s)
    else
      var x := CalcVisibility(g, s, v);
      var y := if s.IsTri() then CalcTri(g, s, v, x) else CalcString(g, s, v, x);
      y.(write := y.write && !g.Info(s).isAuto)
  }

  /** The symbols sym_calc_value may ask for while it computes s. */
  function EvalDeps(g: Graph, s: Symbol): set<Symbol> {
    var i := g.Info(s);
    SymbolsOpt(i.dirDep) + SymbolsOpt(i.revDep) + SymbolsOpt(i.implied) + EvalDepsOfProps(i.props)
  }

  function EvalDepsOfProps(ps: seq<Property>): set<Symbol> {
    if ps == [] then {}
    else
      (if ps[0].text || ps[0].kind == PDefault then SymbolsOpt(ps[0].visible) else {})
      + (if ps[0].kind == PDefault then SymbolsOpt(ps[0].expr) else {})
      + EvalDepsOfProps(ps[1..])
  }

  /** r goes down along every edge that evaluation follows. */
  ghost predicate Acyclic(g: Graph, r: Rank) {
    forall s, t :: t in EvalDeps(g, s) ==> RankOf(r, t) < RankOf(r, s)
  }

  /** The cache-free value: defined by recursion on the rank. */
  ghost function ValueOf(g: Graph, r: Rank, s: Symbol): SymValue
    decreases RankOf(r, s), 1
  {
    Calc(g, s, Below(g, r, RankOf(r, s)))
  }

  /** The values of the symbols of rank below n. */
  ghost function Below(g: Graph, r: Rank, n: nat): Valuation
    decreases n, 0
  {
    Valuation(
      t => if RankOf(r, t) < n then ValueOf(g, r, t).tri else NO,
      t => if RankOf(r, t) < n then StringOf(g, t, ValueOf(g, r, t)) else "",
      g.num)
  }

  /** The values of all symbols. */
  ghost function Full(g: Graph, r: Rank): Valuation {
    Valuation(t => ValueOf(g, r, t).tri, t => StringOf(g, t, ValueOf(g, r, t)), g.num)
  }

  ghost predicate Agree(v: Valuation, w: Valuation, ts: set<Symbol>) {
    v.num == w.num && forall t :: t in ts ==> v.tri(t) == w.tri(t) && v.str(t) == w.str(t)
  }

  /** An expression looks at its own symbols only. */
  lemma {:induction false} EvalAgree(e: Expr, v: Valuation, w: Valuation)
    requires Agree(v, w, Symbols(e))
    ensures Eval(e, v) == Eval(e, w)
  {
    match e
    case ENot(x) => EvalAgree(x, v, w);
    case EBin(_, a, b) =>
      EvalAgree(a, v, w);
      EvalAgree(b, v, w);
    case _ =>
  }

  lemma EvalOptAgree(e: Option<Expr>, v: Valuation, w: Valuation)
    requires Agree(v, w, SymbolsOpt(e))
    ensures EvalOpt(e, v) == EvalOpt(e, w)
  {
    if e.Some? { EvalAgree(e.value, v, w); }
  }

  lemma {:induction false} PropsAgree(ps: seq<Property>, v: Valuation, w: Valuation)
    requires Agree(v, w, EvalDepsOfProps(ps))
    ensures BestPrompt(ps, v) == BestPrompt(ps, w)
    ensures DefaultProp(ps, v) == DefaultProp(ps, w)
    ensures DefaultTri(ps, v) == DefaultTri(ps, w)
  {
    if ps != [] {
      PropsAgree(ps[1..], v, w);
      if ps[0].text || ps[0].kind == PDefault { EvalOptAgree(ps[0].visible, v, w); }
      if ps[0].kind == PDefault { EvalOptAgree(ps[0].expr, v, w); }
    }
  }

  lemma {:induction false} DefaultSymbolNeeded(ps: seq<Property>, v: Valuation)
    ensures var i := DefaultProp(ps, v);
            i < |ps| ==> SymbolsOpt(ps[i].expr) + SymbolsOpt(ps[i].visible) <= EvalDepsOfProps(ps)
  {
    if ps != [] {
      DefaultSymbolNeeded(ps[1..], v);
    }
  }

  lemma CalcVisibilityAgree(g: Graph, s: Symbol, v: Valuation, w: Valuation)
    requires Agree(v, w, EvalDeps(g, s))
    ensures CalcVisibility(g, s, v) == CalcVisibility(g, s, w)
  {
    hide Eval;
    hide EvalDepsOfProps;
    var i := g.Info(s);
    EvalOptAgree(i.dirDep, v, w);
    EvalOptAgree(i.revDep, v, w);
    EvalOptAgree(i.implied, v, w);
    PropsAgree(i.props, v, w);
  }

  /** Evaluation of s looks at EvalDeps only. */
  lemma CalcAgree(g: Graph, s: Symbol, v: Valuation, w: Valuation)
    requires Agree(v, w, EvalDeps(g, s))
    ensures Calc(g, s, v) == Calc(g, s, w)
  {
    hide Eval;
    hide CalcVisibility;
    hide EvalDepsOfProps;
    hide DefaultTri;
    CalcVisibilityAgree(g, s, v, w);
    PropsAgree(g.Info(s).props, v, w);
    DefaultSymbolNeeded(g.Info(s).props, v);
  }

  /** On an acyclic graph the recursion is an equation over the values of all symbols. */
  lemma ValueEquation(g: Graph, r: Rank, s: Symbol)
    requires Acyclic(g, r)
    ensures ValueOf(g, r, s) == Calc(g, s, Full(g, r))
  {
    hide Calc;
    hide EvalDeps;
    CalcAgree(g, s, Below(g, r, RankOf(r, s)), Full(g, r));
  }

  /** The equations have one solution, so the values do not depend on the rank they were
      computed with, nor on any order. */
  lemma {:induction false} ValueUnique(g: Graph, r: Rank, w: Symbol -> SymValue, s: Symbol)
    requires Acyclic(g, r)
    requires forall t: Symbol :: w(t) == Calc(g, t, Valuation(u => w(u).tri, u => StringOf(g, u, w(u)), g.num))
    ensures w(s) == ValueOf(g, r, s)
    decreases RankOf(r, s)
  {
    hide Calc;
    hide EvalDeps;
    var v := Valuation(u => w(u).tri, u => StringOf(g, u, w(u)), g.num);
    forall t | t in EvalDeps(g, s)
      ensures w(t) == ValueOf(g, r, t)
    {
      ValueUnique(g, r, w, t);
    }
    CalcAgree(g, s, v, Below(g, r, RankOf(r, s)));
  }

  /** The shape of any computed value: a constant is worth its name, a symbol that is bool
      now is not m. */
  lemma CalcShape(g: Graph, s: Symbol, v: Valuation)
    ensures s.Const? ==> Calc(g, s, v) == Plain(g, s)
    ensures s.IsTri() && TypeNow(g, s) == SBoolean ==> Calc(g, s, v).tri != MOD
  {
    hide Eval;
    hide CalcVisibility;
    hide DefaultTri;
  }

  /** A computed state is well typed, so every theorem about rewritten expressions holds of
      it: a bool is never m, and nothing but the constant is m while modules are off. */
  lemma FullWellTyped(g: Graph, r: Rank)
    requires g.num("y", SUnknown) == g.num("m", SUnknown) == g.num("n", SUnknown) == None
    ensures WellTyped(Full(g, r))
    ensures forall s: Symbol :: s.IsTri() && g.modulesVal == NO ==> Full(g, r).tri(s) != MOD
  {
    hide Calc;
    forall s: Symbol
      ensures s.Const? ==> ValueOf(g, r, s) == Plain(g, s)
      ensures s.IsTri() && TypeNow(g, s) == SBoolean ==> ValueOf(g, r, s).tri != MOD
    {
      CalcShape(g, s, Below(g, r, RankOf(r, s)));
    }
    hide ValueOf;
  }
}
