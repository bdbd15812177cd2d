/** What the values that sym_calc_value of support/kconfig/symbol.c computes mean in terms of
    what the table says: prompts, defaults, selects, implies and the user's values. */
module SymbolMeaning {
  import opened KconfigExpr
  import opened SymbolGraph
  import opened SymbolValue

  /** Some property with a prompt text has a condition of at least t. */
  ghost predicate Prompted(ps: seq<Property>, v: Valuation, t: Tristate) {
    exists i :: 0 <= i < |ps| && ps[i].text && EvalOpt(ps[i].visible, v) >= t
  }

  /** Property k is a default whose condition is not n, and no default before it has one. */
  ghost predicate FirstDefault(ps: seq<Property>, v: Valuation, k: nat) {
    && k < |ps| && ps[k].kind == PDefault && EvalOpt(ps[k].visible, v) != NO
    && forall j :: 0 <= j < k && ps[j].kind == PDefault ==> EvalOpt(ps[j].visible, v) == NO
  }

  /** The first default that applies is worth at least t, under its condition. */
  ghost predicate DefaultsTo(ps: seq<Property>, v: Valuation, t: Tristate) {
    exists k: nat :: FirstDefault(ps, v, k) && EvalOpt(ps[k].expr, v) >= t && EvalOpt(ps[k].visible, v) >= t
  }

  /** The selects of s reach at least t. */
  ghost predicate Selected(g: Graph, s: Symbol, v: Valuation, t: Tristate) {
    var e := g.Info(s).revDep; e.Some? && Eval(e.value, v) >= t
  }

  /** Its implies do, and its direct dependencies allow them. */
  ghost predicate Implied(g: Graph, s: Symbol, v: Valuation, t: Tristate) {
    var e := g.Info(s).implied; e.Some? && Eval(e.value, v) >= t && EvalOpt(g.Info(s).dirDep, v) != NO
  }

  /** A bool, or a tristate while modules are off. */
  predicate NeverMod(g: Graph, s: Symbol) { s.Type() == SBoolean || g.modulesVal == NO }

  /** The user's value counts: there is one, and a prompt to have set it by. */
  ghost predicate UserCounts(g: Graph, s: Symbol, v: Valuation) { s in g.user && Prompted(g.Info(s).props, v, MOD) }

  lemma {:induction false} BestPromptAtLeast(ps: seq<Property>, v: Valuation, t: Tristate)
    requires t != NO
    ensures BestPrompt(ps, v) >= t <==> Prompted(ps, v, t)
  {
    hide EvalOpt;
    if ps != [] {
      BestPromptAtLeast(ps[1..], v, t);
      if Prompted(ps[1..], v, t) {
        var i :| 0 <= i < |ps[1..]| && ps[1..][i].text && EvalOpt(ps[1..][i].visible, v) >= t;
        assert ps[i + 1] == ps[1..][i];
      }
      if i :| 0 <= i < |ps| && ps[i].text && EvalOpt(ps[i].visible, v) >= t {
        if i > 0 { assert ps[1..][i - 1] == ps[i]; }
      }
    }
  }

  /** Visible are exactly the symbols with a prompt whose condition is not n; what cannot be m is
      visible at y then. */
  lemma VisibleStated(g: Graph, s: Symbol, v: Valuation)
    requires HasValueType(s)
    ensures var x := Calc(g, s, v); var ps := g.Info(s).props;
            && (x.visible != NO <==> Prompted(ps, v, MOD))
            && (x.visible == YES <==>
                  Prompted(ps, v, YES) || (Prompted(ps, v, MOD) && (s.Type() != STristate || g.modulesVal == NO)))
  {
    hide EvalOpt; hide BestPrompt; hide DefaultTri; hide Prompted; hide DefaultProp;
    var ps := g.Info(s).props;
    BestPromptAtLeast(ps, v, MOD);
    BestPromptAtLeast(ps, v, YES);
  }

  lemma OnlyFirst(ps: seq<Property>, v: Valuation, j: nat, k: nat)
    requires FirstDefault(ps, v, j) && FirstDefault(ps, v, k)
    ensures j == k
  {
    hide EvalOpt;
  }

  lemma DefaultAtLeast(ps: seq<Property>, v: Valuation, t: Tristate)
    requires t != NO
    ensures DefaultTri(ps, v) >= t <==> DefaultsTo(ps, v, t)
  {
    hide EvalOpt; hide FirstDefault;
    var i := DefaultProp(ps, v);
    FoundIsFirst(ps, v);
    if k: nat :| FirstDefault(ps, v, k) && EvalOpt(ps[k].expr, v) >= t && EvalOpt(ps[k].visible, v) >= t {
      OnlyFirst(ps, v, i, k);
    }
  }

  lemma FoundIsFirst(ps: seq<Property>, v: Valuation)
    ensures DefaultProp(ps, v) < |ps| ==> FirstDefault(ps, v, DefaultProp(ps, v))
    ensures (exists k: nat :: FirstDefault(ps, v, k)) ==> DefaultProp(ps, v) < |ps|
    ensures forall k: nat :: FirstDefault(ps, v, k) ==> k < |ps|
  {
    hide EvalOpt;
  }

  /** A bool or tristate whose user value does not count: it is n if its first default that
      applies is, nothing selects it and nothing implies it; and y if one of these reaches y, or
      anything at all for a symbol that is never m. */
  lemma UnsetStated(g: Graph, s: Symbol, v: Valuation)
    requires s.IsTri() && !UserCounts(g, s, v)
    ensures var x := Calc(g, s, v); var ps := g.Info(s).props;
            && (x.tri != NO <==> DefaultsTo(ps, v, MOD) || Selected(g, s, v, MOD) || Implied(g, s, v, MOD))
            && (x.tri == YES <==>
                  || DefaultsTo(ps, v, YES) || Selected(g, s, v, YES) || Implied(g, s, v, YES)
                  || (NeverMod(g, s) && x.tri != NO))
  {
    var ps := g.Info(s).props;
    BestPromptAtLeast(ps, v, MOD);
    DefaultAtLeast(ps, v, MOD);
    DefaultAtLeast(ps, v, YES);
    hide Prompted; hide DefaultsTo; hide Eval; hide BestPrompt; hide DefaultTri;
  }

  /** One whose user value counts: the value cut off at its visibility and raised to its selects;
      an m becomes y if it is never m or implied at y. */
  lemma SetStated(g: Graph, s: Symbol, v: Valuation)
    requires s.IsTri() && UserCounts(g, s, v)
    ensures var x := Calc(g, s, v); var u := g.user[s].tri;
            && (x.tri != NO <==> u != NO || Selected(g, s, v, MOD))
            && (x.tri == YES <==>
                  || (u == YES && x.visible == YES) || Selected(g, s, v, YES)
                  || (x.tri != NO && (NeverMod(g, s) || Implied(g, s, v, YES))))
  {
    BestPromptAtLeast(g.Info(s).props, v, MOD);
    hide Prompted; hide DefaultsTo; hide Eval; hide BestPrompt; hide DefaultTri;
  }

  /** Written to the file are the symbols that are visible or have a value that is not the user's. */
  lemma WrittenStated(g: Graph, s: Symbol, v: Valuation)
    requires s.IsTri()
    ensures var ps := g.Info(s).props;
            Calc(g, s, v).write <==>
              && !g.Info(s).isAuto
              && (Prompted(ps, v, MOD) || DefaultsTo(ps, v, MOD) || Selected(g, s, v, MOD) || Implied(g, s, v, MOD))
  {
    var ps := g.Info(s).props;
    BestPromptAtLeast(ps, v, MOD);
    DefaultAtLeast(ps, v, MOD);
    hide Prompted; hide DefaultsTo; hide Eval; hide BestPrompt; hide DefaultTri;
  }

  /** A string, int or hex: the user's text if it counts, else the text of the symbol that its
      first default that applies names, else nothing. */
  lemma TextStated(g: Graph, s: Symbol, v: Valuation)
    requires HasValueType(s) && !s.IsTri()
    ensures var val := Calc(g, s, v).val; var ps := g.Info(s).props;
            && (UserCounts(g, s, v) ==> val == g.user[s].val)
            && (!UserCounts(g, s, v) ==>
                  && (forall k: nat, d: Symbol :: FirstDefault(ps, v, k) && ps[k].expr == Some(ESym(d)) ==>
                        val == if d.IsTri() then "n" else v.str(d))
                  && ((forall k: nat :: FirstDefault(ps, v, k) ==> ps[k].expr.None? || !ps[k].expr.value.ESym?) ==> val == ""))
  {
    hide EvalOpt; hide BestPrompt; hide DefaultProp; hide FirstDefault; hide Prompted;
    var ps := g.Info(s).props;
    BestPromptAtLeast(ps, v, MOD);
    FoundIsFirst(ps, v);
    forall k: nat | FirstDefault(ps, v, k)
      ensures k == DefaultProp(ps, v)
    {
      OnlyFirst(ps, v, k, DefaultProp(ps, v));
    }
  }

  // ---- a stored value without a prompt

  /** The same table, but for what the user's value of s is. */
  ghost predicate SameBut(g: Graph, h: Graph, s: Symbol) {
    && h == g.(user := h.user)
    && forall t :: t != s ==> (t in g.user <==> t in h.user) && (t in g.user ==> g.user[t] == h.user[t])
  }

  lemma CalcIgnores(g: Graph, h: Graph, s: Symbol, t: Symbol, v: Valuation)
    requires SameBut(g, h, s) && (t == s ==> !Prompted(g.Info(s).props, v, MOD))
    ensures Calc(g, t, v) == Calc(h, t, v)
  {
    hide EvalOpt; hide Prompted; hide DefaultProp; hide DefaultTri; hide BestPrompt;
    BestPromptAtLeast(g.Info(t).props, v, MOD);
    assert CalcVisibility(g, t, v) == CalcVisibility(h, t, v) by { hide Eval; }
    hide Eval;
  }

  /** While no prompt of s is visible, its stored value plays no part: not in its own value, and
      in that of no other symbol. */
  lemma {:induction false} InvisibleIgnored(g: Graph, h: Graph, r: Rank, s: Symbol, t: Symbol)
    requires SameBut(g, h, s) && HasValueType(s) && ValueOf(g, r, s).visible == NO
    ensures ValueOf(g, r, t) == ValueOf(h, r, t)
    decreases RankOf(r, t)
  {
    hide Calc; hide SameBut; hide EvalDeps;
    var (v, w) := (Below(g, r, RankOf(r, t)), Below(h, r, RankOf(r, t)));
    forall u: Symbol | RankOf(r, u) < RankOf(r, t)
      ensures ValueOf(g, r, u) == ValueOf(h, r, u)
    {
      InvisibleIgnored(g, h, r, s, u);
    }
    SameTexts(g, h, r, s, RankOf(r, t));
    CalcAgree(h, t, v, w);
    if t == s { VisibleStated(g, s, v); }
    CalcIgnores(g, h, s, t, v);
  }

  lemma SameTexts(g: Graph, h: Graph, r: Rank, s: Symbol, n: nat)
    requires SameBut(g, h, s) && forall u: Symbol :: RankOf(r, u) < n ==> ValueOf(g, r, u) == ValueOf(h, r, u)
    ensures forall ts: set<Symbol> :: Agree(Below(g, r, n), Below(h, r, n), ts)
  {
    hide ValueOf;
  }
}
