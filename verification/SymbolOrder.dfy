/** When sym_calc_value of support/kconfig/symbol.c has an order to compute in, against what
    sym_check_deps looks at. */
module SymbolOrder {
  import opened KconfigExpr
  import opened SymbolGraph
  import opened SymbolValue

  /** A walk along what evaluation asks for. */
  ghost predicate IsEvalWalk(g: Graph, w: seq<Symbol>) {
    forall i, j :: 0 <= i < j < |w| && j == i + 1 ==> w[j] in EvalDeps(g, w[i])
  }

  ghost predicate IsEvalCycle(g: Graph, w: seq<Symbol>) {
    |w| >= 2 && w[0] == w[|w| - 1] && IsEvalWalk(g, w)
  }

  ghost predicate HasEvalCycle(g: Graph) {
    exists w: seq<Symbol> :: IsEvalCycle(g, w)
  }

  lemma {:induction false} RankDescendsEvalWalk(g: Graph, r: Rank, w: seq<Symbol>, i: nat)
    requires Acyclic(g, r) && IsEvalWalk(g, w) && i < |w|
    ensures i > 0 ==> RankOf(r, w[i]) < RankOf(r, w[0])
  {
    hide EvalDeps;
    if i > 0 {
      RankDescendsEvalWalk(g, r, w, i - 1);
      assert w[i] in EvalDeps(g, w[i - 1]);
    }
  }

  lemma RankExcludesEvalCycles(g: Graph, r: Rank)
    requires Acyclic(g, r)
    ensures !HasEvalCycle(g)
  {
    hide EvalDeps; hide Acyclic; hide IsEvalWalk;
    if w: seq<Symbol> :| IsEvalCycle(g, w) {
      RankDescendsEvalWalk(g, r, w, |w| - 1);
    }
  }

  /** A walk of n steps that stays in todo. */
  ghost predicate StaysIn(w: seq<Symbol>, todo: set<Symbol>) { forall i :: 0 <= i < |w| ==> w[i] in todo }

  lemma {:induction false} WalkWithin(g: Graph, todo: set<Symbol>, s: Symbol, n: nat) returns (w: seq<Symbol>)
    requires s in todo && forall t :: t in todo ==> EvalDeps(g, t) * todo != {}
    ensures |w| == n + 1 && w[0] == s && IsEvalWalk(g, w) && StaysIn(w, todo)
    decreases n
  {
    hide EvalDeps;
    if n == 0 {
      w := [s];
    } else {
      var t :| t in EvalDeps(g, s) * todo;
      var rest := WalkWithin(g, todo, t, n - 1);
      w := [s] + rest;
    }
  }

  /** More places than symbols: one comes twice. */
  lemma {:induction false} ComesTwice(w: seq<Symbol>, todo: set<Symbol>) returns (i: nat, j: nat)
    requires StaysIn(w, todo) && |w| > |todo|
    ensures i < j < |w| && w[i] == w[j]
    decreases |w|
  {
    var n := |w| - 1;
    if k :| 0 <= k < n && w[k] == w[n] {
      i, j := k, n;
    } else {
      i, j := ComesTwice(w[..n], todo - {w[n]});
    }
  }

  lemma CutCycle(g: Graph, w: seq<Symbol>, i: nat, j: nat)
    requires IsEvalWalk(g, w) && i < j < |w| && w[i] == w[j]
    ensures HasEvalCycle(g)
  {
    hide EvalDeps;
    var c := w[i..j + 1];
    assert c[0] == c[|c| - 1];
    forall a, b | 0 <= a < b < |c| && b == a + 1
      ensures c[b] in EvalDeps(g, c[a])
    {
      assert w[i + b] in EvalDeps(g, w[i + a]);
    }
    assert IsEvalCycle(g, c);
  }

  /** Without a cycle some symbol asks for none of the others. */
  lemma SomeFirst(g: Graph, todo: set<Symbol>) returns (s: Symbol)
    requires todo != {} && !HasEvalCycle(g)
    ensures s in todo && EvalDeps(g, s) * todo == {}
  {
    hide EvalDeps; hide IsEvalWalk; hide HasEvalCycle;
    if forall t :: t in todo ==> EvalDeps(g, t) * todo != {} {
      var t :| t in todo;
      var w := WalkWithin(g, todo, t, |todo|);
      var i, j := ComesTwice(w, todo);
      CutCycle(g, w, i, j);
      assert false;
    } else {
      s :| s in todo && EvalDeps(g, s) * todo == {};
    }
  }

  /** The symbols of todo in an order to compute in. */
  lemma {:induction false} RankWithin(g: Graph, todo: set<Symbol>) returns (r: Rank)
    requires !HasEvalCycle(g)
    ensures r.Keys == todo && forall s :: s in r ==> r[s] > 0
    ensures forall s, t :: s in todo && t in todo && t in EvalDeps(g, s) ==> r[t] < r[s]
    decreases todo
  {
    hide EvalDeps; hide HasEvalCycle;
    if todo == {} {
      r := map[];
    } else {
      var s := SomeFirst(g, todo);
      var rest := RankWithin(g, todo - {s});
      r := map t | t in todo :: if t == s then 1 else rest[t] + 1;
    }
  }

  /** There is an order to compute in if and only if nothing asks for itself on the way. */
  lemma OrderExists(g: Graph)
    ensures (exists r: Rank :: Acyclic(g, r)) <==> !HasEvalCycle(g)
  {
    hide EvalDeps; hide HasEvalCycle; hide Acyclic;
    if r: Rank :| Acyclic(g, r) {
      RankExcludesEvalCycles(g, r);
    }
    if !HasEvalCycle(g) {
      var r := EvalRank(g);
    }
  }

  lemma EvalRank(g: Graph) returns (r: Rank)
    requires !HasEvalCycle(g)
    ensures Acyclic(g, r)
  {
    hide HasEvalCycle;
    r := RankWithin(g, g.info.Keys);
    forall s, t | t in EvalDeps(g, s)
      ensures RankOf(r, t) < RankOf(r, s)
    {
      assert s in g.info;
      hide EvalDeps;
    }
  }

  /** s asks for t by what selects it, by the condition of a property, or by a default. The
      members of a choice and the targets of a select are not asked for. */
  ghost predicate AsksFor(g: Graph, s: Symbol, t: Symbol) {
    || t in SymbolsOpt(g.Info(s).revDep)
    || exists i :: 0 <= i < |g.Info(s).props| && AsksByProp(g.Info(s).props[i], t)
  }

  predicate AsksByProp(p: Property, t: Symbol) {
    && p.kind !in {PChoice, PSelect}
    && (t in SymbolsOpt(p.visible) || (p.kind == PDefault && t in SymbolsOpt(p.expr)))
  }

  lemma {:induction false} CheckedOfPropsStated(ps: seq<Property>, t: Symbol)
    ensures t in CheckedOfProps(ps) <==> exists i :: 0 <= i < |ps| && AsksByProp(ps[i], t)
  {
    hide SymbolsOpt;
    if ps != [] {
      CheckedOfPropsStated(ps[1..], t);
      if i :| 0 <= i < |ps[1..]| && AsksByProp(ps[1..][i], t) { assert AsksByProp(ps[i + 1], t); }
      if i :| 0 <= i < |ps| && AsksByProp(ps[i], t) && i > 0 { assert AsksByProp(ps[1..][i - 1], t); }
    }
  }

  /** The edges of the check are exactly these. */
  lemma CheckedStated(g: Graph, s: Symbol, t: Symbol)
    ensures t in CheckedDeps(g, s) <==> AsksFor(g, s, t)
  {
    hide SymbolsOpt; hide CheckedOfProps; hide AsksByProp;
    CheckedOfPropsStated(g.Info(s).props, t);
  }

  /** A cycle of such edges. */
  ghost predicate IsAskCycle(g: Graph, w: seq<Symbol>) {
    && |w| >= 2 && w[0] == w[|w| - 1]
    && forall i, j :: 0 <= i < j < |w| && j == i + 1 ==> AsksFor(g, w[i], w[j])
  }

  /** Which are those that the check reports. */
  lemma AskCycleStated(g: Graph)
    ensures (exists w: seq<Symbol> :: IsAskCycle(g, w)) <==> HasCycle(g)
  {
    hide CheckedDeps; hide AsksFor;
    forall s, t
      ensures t in CheckedDeps(g, s) <==> AsksFor(g, s, t)
    {
      CheckedStated(g, s, t);
    }
    if w: seq<Symbol> :| IsAskCycle(g, w) { assert IsCycle(g, w); }
    if w: seq<Symbol> :| IsCycle(g, w) { assert IsAskCycle(g, w); }
  }

  /** The symbols of direct dependencies and implies, which the check does not look at, stand in
      some property too or are selects. Prompt texts belong to prompts. */
  ghost predicate Covered(g: Graph) {
    forall s, t :: s in g.info ==>
      && (t in SymbolsOpt(g.Info(s).dirDep) || t in SymbolsOpt(g.Info(s).implied) ==> AsksFor(g, s, t))
      && forall i :: 0 <= i < |g.Info(s).props| && g.Info(s).props[i].text ==> g.Info(s).props[i].kind !in {PChoice, PSelect}
  }

  lemma {:induction false} EvalPropAsks(ps: seq<Property>, t: Symbol)
    requires t in EvalDepsOfProps(ps)
    ensures exists i :: 0 <= i < |ps| && (ps[i].text || ps[i].kind == PDefault)
                        && (t in SymbolsOpt(ps[i].visible) || (ps[i].kind == PDefault && t in SymbolsOpt(ps[i].expr)))
  {
    hide SymbolsOpt;
    if !((ps[0].text || ps[0].kind == PDefault)
         && (t in SymbolsOpt(ps[0].visible) || (ps[0].kind == PDefault && t in SymbolsOpt(ps[0].expr)))) {
      EvalPropAsks(ps[1..], t);
      var i :| 0 <= i < |ps[1..]| && (ps[1..][i].text || ps[1..][i].kind == PDefault)
               && (t in SymbolsOpt(ps[1..][i].visible) || (ps[1..][i].kind == PDefault && t in SymbolsOpt(ps[1..][i].expr)));
      assert ps[i + 1] == ps[1..][i];
    }
  }

  lemma {:induction false} PropAsksEval(ps: seq<Property>, i: nat, t: Symbol)
    requires i < |ps| && (ps[i].text || ps[i].kind == PDefault)
    requires t in SymbolsOpt(ps[i].visible) || (ps[i].kind == PDefault && t in SymbolsOpt(ps[i].expr))
    ensures t in EvalDepsOfProps(ps)
  {
    hide SymbolsOpt;
    if i > 0 { PropAsksEval(ps[1..], i - 1, t); }
  }

  /** Evaluation asks for the symbols of the three dependencies, of the conditions of prompts and
      defaults and of what defaults name, and for no others. */
  lemma EvalStated(g: Graph, s: Symbol, t: Symbol)
    ensures var (i, ps) := (g.Info(s), g.Info(s).props);
            t in EvalDeps(g, s) <==>
              || t in SymbolsOpt(i.dirDep) || t in SymbolsOpt(i.revDep) || t in SymbolsOpt(i.implied)
              || exists k :: 0 <= k < |ps| && (ps[k].text || ps[k].kind == PDefault)
                             && (t in SymbolsOpt(ps[k].visible) || (ps[k].kind == PDefault && t in SymbolsOpt(ps[k].expr)))
  {
    hide SymbolsOpt; hide EvalDepsOfProps;
    var ps := g.Info(s).props;
    if t in EvalDepsOfProps(ps) { EvalPropAsks(ps, t); }
    if k :| 0 <= k < |ps| && (ps[k].text || ps[k].kind == PDefault)
            && (t in SymbolsOpt(ps[k].visible) || (ps[k].kind == PDefault && t in SymbolsOpt(ps[k].expr))) {
      PropAsksEval(ps, k, t);
    }
  }

  /** Then everything that evaluation asks for is an edge of the check. */
  lemma EvalAsks(g: Graph, s: Symbol, t: Symbol)
    requires Covered(g) && s in g.info && t in EvalDeps(g, s)
    ensures AsksFor(g, s, t)
  {
    hide SymbolsOpt; hide EvalDepsOfProps;
    var ps := g.Info(s).props;
    if t in EvalDepsOfProps(ps) {
      EvalPropAsks(ps, t);
      var i :| 0 <= i < |ps| && (ps[i].text || ps[i].kind == PDefault)
               && (t in SymbolsOpt(ps[i].visible) || (ps[i].kind == PDefault && t in SymbolsOpt(ps[i].expr)));
      assert AsksByProp(ps[i], t);
    }
  }

  lemma EvalCycleChecked(g: Graph, w: seq<Symbol>)
    requires Covered(g) && IsEvalCycle(g, w)
    ensures IsCycle(g, w)
  {
    hide EvalDeps; hide CheckedDeps; hide Covered; hide AsksFor;
    forall i, j | 0 <= i < j < |w| && j == i + 1
      ensures w[j] in CheckedDeps(g, w[i])
    {
      assert w[j] in EvalDeps(g, w[i]);
      if w[i] !in g.info { NothingToAsk(g, w[i]); }
      EvalAsks(g, w[i], w[j]);
      CheckedStated(g, w[i], w[j]);
    }
  }

  /** So a table that the check accepts has an order. */
  lemma CheckedHasOrder(g: Graph)
    requires Covered(g) && !HasCycle(g)
    ensures !HasEvalCycle(g)
  {
    hide EvalDeps; hide CheckedDeps; hide IsCycle; hide IsEvalCycle; hide Covered;
    if w: seq<Symbol> :| IsEvalCycle(g, w) {
      EvalCycleChecked(g, w);
    }
  }

  lemma NothingToAsk(g: Graph, s: Symbol)
    requires s !in g.info
    ensures EvalDeps(g, s) == {}
  {
  }

  // ---- two symbols that imply each other

  /** A bool with a prompt, implied by other. */
  function ImpliedInfo(name: string, other: Symbol): SymInfo {
    SymInfo(name,
            [Property(PPrompt, true, None, None), Property(PImply, false, None, Some(ESym(other)))],
            None, None, Some(ESym(other)), false)
  }

  function ImplyGraph(a: Symbol, b: Symbol, num: Numeric): Graph {
    Graph(map[a := ImpliedInfo("A", b), b := ImpliedInfo("B", a)], map[], NO, num)
  }

  lemma NothingChecked(name: string, other: Symbol)
    ensures CheckedOfProps(ImpliedInfo(name, other).props) == {}
  {
    var ps := ImpliedInfo(name, other).props;
    assert CheckedOfProps(ps[1..]) == {};
  }

  /** The check accepts two symbols that imply each other, and evaluation has no order for them:
      sym_check_sym_deps does not look at the condition that an imply leaves. */
  lemma ImplyGoesUnchecked(a: Symbol, b: Symbol, num: Numeric)
    requires a != b
    ensures var g := ImplyGraph(a, b, num);
            && (forall s :: s in g.info ==> CheckedDeps(g, s) <= g.info.Keys)
            && !HasCycle(g) && HasEvalCycle(g) && !exists r: Rank :: Acyclic(g, r)
  {
    var g := ImplyGraph(a, b, num);
    forall s
      ensures CheckedDeps(g, s) == {}
    {
      NothingChecked("A", b);
      NothingChecked("B", a);
    }
    assert !HasCycle(g) by {
      if w: seq<Symbol> :| IsCycle(g, w) {
        assert w[1] in CheckedDeps(g, w[0]);
      }
    }
    assert b in EvalDeps(g, a) && a in EvalDeps(g, b);
    hide EvalDeps; hide CheckedDeps;
    assert IsEvalCycle(g, [a, b, a]);
    OrderExists(g);
  }

  /** Both imply-ing symbols at t. */
  function ImplySolution(a: Symbol, b: Symbol, num: Numeric, t: Tristate, s: Symbol): SymValue {
    if s == a || s == b then SymValue(t, "n", YES, YES, NO, t, true)
    else Calc(ImplyGraph(a, b, num), s, Valuation(u => NO, u => "", num))
  }

  /** The evaluation rules do not determine such values: both symbols can be n, and both y. */
  lemma ImplyUndetermined(a: Symbol, b: Symbol, num: Numeric, t: Tristate, s: Symbol)
    requires a != b && a.Type() == SBoolean && b.Type() == SBoolean && (t == NO || t == YES)
    ensures var g := ImplyGraph(a, b, num);
            var v := Valuation(u => ImplySolution(a, b, num, t, u).tri, u => StringOf(g, u, ImplySolution(a, b, num, t, u)), num);
            ImplySolution(a, b, num, t, s) == Calc(g, s, v)
    ensures ImplySolution(a, b, num, t, a).tri == t
  {
    var g := ImplyGraph(a, b, num);
    var v := Valuation(u => ImplySolution(a, b, num, t, u).tri, u => StringOf(g, u, ImplySolution(a, b, num, t, u)), num);
    if s == a || s == b {
      ImpliedValue(g, s, if s == a then b else a, v, t);
    } else {
      CalcAgree(g, s, v, Valuation(u => NO, u => "", num));
    }
  }

  lemma ImpliedValue(g: Graph, s: Symbol, other: Symbol, v: Valuation, t: Tristate)
    requires g.Info(s) in {ImpliedInfo("A", other), ImpliedInfo("B", other)} && s !in g.user && s.Type() == SBoolean
    requires v.tri(other) == t && (t == NO || t == YES)
    ensures Calc(g, s, v) == SymValue(t, "n", YES, YES, NO, t, true)
  {
    var ps := g.Info(s).props;
    assert BestPrompt(ps[1..], v) == NO && BestPrompt(ps, v) == YES by { assert BestPrompt(ps[2..], v) == NO; }
    assert DefaultProp(ps, v) == 2 by { assert DefaultProp(ps[2..], v) == 0 && DefaultProp(ps[1..], v) == 1; }
    assert CalcVisibility(g, s, v) == Nothing.(visible := YES, dir := YES, imp := t, write := true);
  }
}
