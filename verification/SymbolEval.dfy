/** sym_calc_value with its cache, support/kconfig/symbol.c: SYMBOL_VALID marks the symbols
    whose stored value is taken as it is. That makes evaluation end on every table; where the
    table has an order to compute in, it is also right. */
module SymbolEval {
  import opened KconfigExpr
  import opened SymbolGraph
  import opened SymbolValue

  class Evaluator {
    const g: Graph
    ghost const r: Rank
    var valid: set<Symbol>           // SYMBOL_VALID
    var cur: map<Symbol, SymValue>   // what is stored in the symbols

    /** From a state in which nothing is valid; what the symbols hold then does not matter. */
    constructor (g: Graph, ghost r: Rank, stale: map<Symbol, SymValue>)
      ensures this.g == g && this.r == r && Cached({}) && valid == {} && cur == stale
    {
      this.g, this.r, valid, cur := g, r, {}, stale;
    }

    /** r is an order to compute in. */
    ghost predicate Ordered() { Acyclic(g, r) }

    /** Every valid symbol that is not being computed holds its cache-free value, if there is an
        order. */
    ghost predicate Cached(active: set<Symbol>)
      reads this
    {
      && valid <= cur.Keys
      && active <= valid
      && (Ordered() ==> forall s :: s in valid && s !in active ==> cur[s] == ValueOf(g, r, s))
    }

    /** The symbols being computed all rank at n or above. */
    ghost predicate Above(active: set<Symbol>, n: nat) {
      Ordered() ==> forall a :: a in active ==> n <= RankOf(r, a)
    }

    /** How many symbols of the table are not valid: what a computation uses up. */
    ghost function Left(): nat
      reads this
    {
      |g.info.Keys - valid|
    }

    twostate lemma LeftDrops()
      requires old(valid) <= valid
      ensures Left() <= old(Left())
    {
      var a, b := g.info.Keys - valid, g.info.Keys - old(valid);
      assert b == a + (b - a);
    }

    /** A call keeps what is valid and does not touch the symbols being computed. */
    twostate predicate Grew(active: set<Symbol>)
      reads this
    {
      && old(valid) <= valid
      && forall a :: a in active && a in old(cur) ==> a in cur && cur[a] == old(cur)[a]
    }

    ghost predicate AllBelow(ts: set<Symbol>, n: nat) {
      Ordered() ==> forall t :: t in ts ==> RankOf(r, t) < n
    }

    /** What s asks for ranks below it. */
    lemma DepsBelow(s: Symbol)
      ensures var n, info := RankOf(r, s), g.Info(s);
              && AllBelow(SymbolsOpt(info.dirDep), n) && AllBelow(SymbolsOpt(info.revDep), n)
              && AllBelow(SymbolsOpt(info.implied), n) && AllBelow(EvalDepsOfProps(info.props), n)
    {
      assert AllBelow(EvalDeps(g, s), RankOf(r, s));
    }

    static lemma {:induction false} DefaultNeeded(ps: seq<Property>, i: nat)
      requires i < |ps| && ps[i].kind == PDefault
      ensures SymbolsOpt(ps[i].expr) <= EvalDepsOfProps(ps)
    {
      if i > 0 { DefaultNeeded(ps[1..], i - 1); }
    }

    lemma Within(ts: set<Symbol>, us: set<Symbol>, n: nat)
      requires ts <= us && AllBelow(us, n)
      ensures AllBelow(ts, n)
    {
    }

    /** What the property at i asks for, and the ones after it. */
    lemma RestBelow(ps: seq<Property>, i: nat, n: nat)
      requires i < |ps| && AllBelow(EvalDepsOfProps(ps[i..]), n)
      ensures AllBelow(EvalDepsOfProps(ps[i + 1..]), n)
      ensures ps[i].text || ps[i].kind == PDefault ==> AllBelow(SymbolsOpt(ps[i].visible), n)
    {
      hide Ordered;
      assert ps[i..][1..] == ps[i + 1..];
    }

    static lemma RestPrompt(ps: seq<Property>, i: nat, v: Valuation)
      requires i < |ps|
      ensures BestPrompt(ps[i..], v) ==
              if ps[i].text then Max(EvalOpt(ps[i].visible, v), BestPrompt(ps[i + 1..], v)) else BestPrompt(ps[i + 1..], v)
      ensures DefaultProp(ps[i..], v) ==
              if ps[i].kind == PDefault && EvalOpt(ps[i].visible, v) != NO then 0 else 1 + DefaultProp(ps[i + 1..], v)
    {
      assert ps[i..][1..] == ps[i + 1..];
    }

    method Value(s: Symbol, ghost active: set<Symbol>) returns (x: SymValue)
      requires Cached(active) && Above(active, RankOf(r, s) + 1)
      modifies this
      ensures Cached(active) && Grew(active)
      ensures Ordered() ==> x == ValueOf(g, r, s)
      decreases Left(), 2
    {
      hide ValueOf;
      hide Ordered;
      CalcValue(s, active);
      x := cur[s];
    }

    /** expr_calc_value; symbols are computed as they are met. */
    method ExprValue(e: Expr, ghost n: nat, ghost active: set<Symbol>) returns (t: Tristate)
      requires Cached(active) && Above(active, n) && AllBelow(Symbols(e), n)
      modifies this
      ensures Cached(active) && Grew(active)
      ensures Ordered() ==> t == Eval(e, Below(g, r, n))
      decreases Left(), 3, e
    {
      hide ValueOf;
      hide Cached;
      hide Ordered;
      match e
      case ESym(s) =>
        var x := Value(s, active);
        t := x.tri;
      case EBin(op, a, b) =>
        var t1 := ExprValue(a, n, active);
        LeftDrops();
        var t2 := ExprValue(b, n, active);
        t := Apply(op, t1, t2);
      case ENot(a) =>
        t := ExprValue(a, n, active);
        t := 2 - t;
      case ECmp(rel, a, b) =>
        var x := Value(a, active);
        LeftDrops();
        var y := Value(b, active);
        t := RelValue(rel, CompareText(g.num, StringOf(g, a, x), a.Type(), StringOf(g, b, y), b.Type()));
    }

    method ExprOptValue(e: Option<Expr>, ghost n: nat, ghost active: set<Symbol>) returns (t: Tristate)
      requires Cached(active) && Above(active, n) && AllBelow(SymbolsOpt(e), n)
      modifies this
      ensures Cached(active) && Grew(active)
      ensures Ordered() ==> t == EvalOpt(e, Below(g, r, n))
      decreases Left(), 4
    {
      hide ValueOf;
      hide Below;
      hide Ordered;
      match e
      case None => t := YES;
      case Some(x) => t := ExprValue(x, n, active);
    }

    /** The prompts of sym_calc_visibility. */
    method PromptsValue(ps: seq<Property>, ghost n: nat, ghost active: set<Symbol>) returns (t: Tristate)
      requires Cached(active) && Above(active, n) && AllBelow(EvalDepsOfProps(ps), n)
      modifies this
      ensures Cached(active) && Grew(active)
      ensures Ordered() ==> t == BestPrompt(ps, Below(g, r, n))
      decreases Left(), 5
    {
      hide ValueOf;
      hide Below;
      hide Cached;
      hide EvalOpt;
      hide Ordered;
      hide AllBelow; hide EvalDepsOfProps; hide BestPrompt; hide Left;
      ghost var v := Below(g, r, n);
      t := NO;
      var i := 0;
      NoPrompt(ps, v);
      assert ps[0..] == ps;
      while i < |ps|
        invariant 0 <= i <= |ps|
        invariant Cached(active) && Grew(active)
        invariant AllBelow(EvalDepsOfProps(ps[i..]), n)
        invariant Ordered() ==> BestPrompt(ps, v) == Max(t, BestPrompt(ps[i..], v))
      {
        RestBelow(ps, i, n);
        RestPrompt(ps, i, v);
        if ps[i].text {
          LeftDrops();
          var c := ExprOptValue(ps[i].visible, n, active);
          t := Max(t, c);
        }
        i := i + 1;
      }
    }

    static lemma NoPrompt(ps: seq<Property>, v: Valuation)
      ensures BestPrompt(ps[|ps|..], v) == NO && DefaultProp(ps[|ps|..], v) == 0
    {
    }

    /** sym_get_default_prop: the first default that applies, and the value of its condition. */
    method FindDefault(ps: seq<Property>, ghost n: nat, ghost active: set<Symbol>) returns (i: nat, c: Tristate)
      requires Cached(active) && Above(active, n) && AllBelow(EvalDepsOfProps(ps), n)
      modifies this
      ensures Cached(active) && Grew(active)
      ensures i <= |ps| && (i < |ps| ==> ps[i].kind == PDefault)
      ensures Ordered() ==> i == DefaultProp(ps, Below(g, r, n))
      ensures Ordered() && i < |ps| ==> c == EvalOpt(ps[i].visible, Below(g, r, n))
      decreases Left(), 5
    {
      hide ValueOf;
      hide Below;
      hide Cached;
      hide EvalOpt;
      hide Ordered;
      hide AllBelow; hide EvalDepsOfProps; hide DefaultProp; hide Left;
      ghost var v := Below(g, r, n);
      NoPrompt(ps, v);
      i, c := 0, NO;
      assert ps[0..] == ps;
      while i < |ps|
        invariant 0 <= i <= |ps|
        invariant Cached(active) && Grew(active)
        invariant AllBelow(EvalDepsOfProps(ps[i..]), n)
        invariant Ordered() ==> DefaultProp(ps, v) == i + DefaultProp(ps[i..], v)
      {
        RestBelow(ps, i, n);
        RestPrompt(ps, i, v);
        if ps[i].kind == PDefault {
          LeftDrops();
          c := ExprOptValue(ps[i].visible, n, active);
          if c != NO { return; }
        }
        i := i + 1;
      }
    }

    /** sym_calc_visibility */
    method Visibility(s: Symbol, ghost active: set<Symbol>) returns (x: SymValue)
      requires Cached(active) && Above(active, RankOf(r, s))
      modifies this
      ensures Cached(active) && Grew(active)
      ensures Ordered() ==> x == CalcVisibility(g, s, Below(g, r, RankOf(r, s)))
      ensures x.tri == NO
      decreases Left(), 6
    {
      hide AllBelow;
      hide ValueOf;
      hide Below;
      hide Cached;
      hide Eval;
      hide EvalDepsOfProps;
      hide BestPrompt;
      hide Ordered;
      hide Left;
      ghost var n := RankOf(r, s);
      DepsBelow(s);
      var i := g.Info(s);
      var visible := PromptsValue(i.props, n, active);
      visible := ModToYes(visible, s.Type() != STristate || g.modulesVal == NO);
      var isBool := TypeNow(g, s) == SBoolean;
      LeftDrops();
      var dir := ExprOptValue(i.dirDep, n, active);
      dir := ModToYes(dir, isBool);
      var rev := NO;
      LeftDrops();
      if i.revDep.Some? { rev := ExprOptValue(i.revDep, n, active); }
      rev := ModToYes(rev, isBool);
      var imp := NO;
      LeftDrops();
      if i.implied.Some? && dir != NO { imp := ExprOptValue(i.implied, n, active); }
      imp := ModToYes(imp, isBool);
      x := Nothing.(visible := visible, dir := dir, rev := rev, imp := imp, write := visible != NO);
    }

    /** The bool and tristate case. */
    method TriValue(s: Symbol, x: SymValue, ghost active: set<Symbol>) returns (y: SymValue)
      requires Cached(active) && Above(active, RankOf(r, s))
      modifies this
      ensures Cached(active) && Grew(active)
      ensures Ordered() ==> y == CalcTri(g, s, Below(g, r, RankOf(r, s)), x)
      decreases Left(), 6
    {
      hide AllBelow;
      hide ValueOf;
      hide Below;
      hide Cached;
      hide EvalOpt;
      hide EvalDepsOfProps;
      hide Ordered;
      hide Left;
      ghost var n := RankOf(r, s);
      DepsBelow(s);
      y := x;
      var base: Tristate := NO;
      if x.visible != NO && s in g.user {
        base := Min(g.user[s].tri, x.visible);
      } else {
        if x.rev != NO { y := y.(write := true); }
        var ps := g.Info(s).props;
        var i, c := FindDefault(ps, n, active);
        if i < |ps| {
          DefaultNeeded(ps, i);
          Within(SymbolsOpt(ps[i].expr), EvalDepsOfProps(ps), n);
          LeftDrops();
          base := ExprOptValue(ps[i].expr, n, active);
          base := Min(base, c);
          if base != NO { y := y.(write := true); }
        }
        if x.imp != NO {
          y := y.(write := true);
          base := Max(base, x.imp);
        }
      }
      base := Max(base, x.rev);
      y := y.(tri := ModToYes(base, TypeNow(g, s) == SBoolean || x.imp == YES));
    }

    /** The string, int and hex case. */
    method StringValue(s: Symbol, x: SymValue, ghost active: set<Symbol>) returns (y: SymValue)
      requires Cached(active) && Above(active, RankOf(r, s))
      requires x.tri == NO
      modifies this
      ensures Cached(active) && Grew(active)
      ensures Ordered() ==> y == CalcString(g, s, Below(g, r, RankOf(r, s)), x)
      decreases Left(), 6
    {
      hide ValueOf;
      hide Cached;
      hide EvalOpt;
      hide EvalDepsOfProps;
      hide Ordered;
      hide Left;
      ghost var n := RankOf(r, s);
      DepsBelow(s);
      if x.visible != NO && s in g.user {
        return x.(val := g.user[s].val);
      }
      var ps := g.Info(s).props;
      var i, c := FindDefault(ps, n, active);
      y := x.(val := "");
      if i < |ps| {
        match DefaultSymbol(ps[i].expr)
        case None =>
        case Some(ds) =>
          DefaultNeeded(ps, i);
          assert ds in SymbolsOpt(ps[i].expr);
          LeftDrops();
          var d := Value(ds, active);
          RawValStored(ds);
          y := y.(val := d.val, write := true);
      }
    }

    /** curr.val of a computed symbol. */
    lemma RawValStored(t: Symbol)
      ensures t.IsTri() ==> ValueOf(g, r, t).val == "n"
      ensures !t.IsTri() ==> StringOf(g, t, ValueOf(g, r, t)) == ValueOf(g, r, t).val
    {
      hide Eval;
      hide DefaultTri;
      hide Below;
    }

    /** Marking s valid; until its visibility is known it keeps what it held, if it is new
        nothing. */
    method StartComputing(s: Symbol, ghost active: set<Symbol>)
      requires Cached(active) && Above(active, RankOf(r, s) + 1) && s !in valid
      modifies this
      ensures Cached(active + {s}) && Above(active + {s}, RankOf(r, s))
      ensures valid == old(valid) + {s} && s !in active && Grew(active)
      ensures s in g.info ==> Left() < old(Left())
    {
      hide ValueOf;
      hide Ordered;
      assert s in g.info ==> g.info.Keys - valid == (g.info.Keys - (valid + {s})) + {s};
      valid := valid + {s};
      if s !in cur { cur := cur[s := Nothing]; }
    }

    /** The values of a symbol of a known type. */
    method Compute(s: Symbol, ghost active: set<Symbol>) returns (x: SymValue)
      requires HasValueType(s) && s in active && Cached(active) && Above(active, RankOf(r, s))
      modifies this
      ensures Cached(active) && Grew(active - {s})
      ensures Ordered() ==> x == ValueOf(g, r, s)
      decreases Left(), 7
    {
      hide CalcVisibility;
      hide CalcTri;
      hide CalcString;
      hide Below;
      hide Ordered;
      hide Left;
      x := Visibility(s, active);
      LeftDrops();
      StoreDefault(s, x, active);
      if s.IsTri() {
        x := TriValue(s, x, active);
      } else {
        x := StringValue(s, x, active);
      }
      x := x.(write := x.write && !g.Info(s).isAuto);
    }

    /** "set default if recursively called" */
    method StoreDefault(s: Symbol, x: SymValue, ghost active: set<Symbol>)
      requires Cached(active) && s in active
      modifies this
      ensures Cached(active) && cur == old(cur)[s := x] && valid == old(valid) && Left() == old(Left())
    {
      hide ValueOf;
      hide Ordered;
      cur := cur[s := x];
    }

    /** The values of the others: a symbol without a type is worth its name, and one without an
        entry asks for nothing. */
    lemma OtherValue(s: Symbol)
      ensures !HasValueType(s) ==> ValueOf(g, r, s) == Plain(g, s)
      ensures s !in g.info ==> ValueOf(g, r, s) == Calc(g, s, Nobody(g.num))
    {
      if s !in g.info {
        CalcAgree(g, s, Below(g, r, RankOf(r, s)), Nobody(g.num));
      }
    }

    static function Nobody(num: Numeric): Valuation { Valuation(t => NO, t => "", num) }

    /** sym_calc_value. The symbol is marked valid before it is computed, and holds its old value
        until its visibility is known and a default from then on. Because of the mark this ends
        on every table; where there is an order, nobody looks at the values held meanwhile. */
    method CalcValue(s: Symbol, ghost active: set<Symbol>)
      requires Cached(active) && Above(active, RankOf(r, s) + 1)
      modifies this
      ensures Cached(active) && Grew(active) && s in valid && (Ordered() ==> s !in active)
      decreases Left(), 1
    {
      hide ValueOf;
      hide Calc;
      hide Ordered;
      hide Left;
      if s in valid {
        return;
      }
      StartComputing(s, active);
      assert (active + {s}) - {s} == active;
      OtherValue(s);
      var x: SymValue;
      if !HasValueType(s) {
        x := Plain(g, s);
      } else if s !in g.info {
        x := Calc(g, s, Nobody(g.num));
      } else {
        x := Compute(s, active + {s});
      }
      Finish(s, x, active);
    }

    method Finish(s: Symbol, x: SymValue, ghost active: set<Symbol>)
      requires Cached(active + {s}) && s !in active && (Ordered() ==> x == ValueOf(g, r, s))
      modifies this
      ensures Cached(active) && valid == old(valid) && cur == old(cur)[s := x]
    {
      hide ValueOf;
      hide Ordered;
      cur := cur[s := x];
    }

    /** sym_clear_all_valid, for a modules symbol that keeps its value: nothing stays valid, and
        the modules symbol is computed again at once. */
    method ClearAllValid(modules: Symbol)
      modifies this
      ensures Cached({}) && modules in valid && (Ordered() ==> cur[modules] == ValueOf(g, r, modules))
    {
      hide ValueOf;
      hide Ordered;
      valid := {};
      CalcValue(modules, {});
    }
  }
}
