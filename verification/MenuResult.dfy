/** menu_finalize and conf_write together: what a whole run does to the menu tree. */
module MenuResult {
  import opened KconfigExpr
  import opened ExprTransform
  import opened MenuLinks
  import opened MenuDeps
  import opened MenuFinalize
  import MenuWalk

  /** Every dependency and prompt condition is clean. */
  ghost predicate CleanAttrs(a: Attrs, v: Valuation) {
    && (forall n :: 0 <= n < |a.dep| ==> CleanOpt(a.dep[n], v))
    && (forall n :: 0 <= n < |a.cond| && a.cond[n].Some? ==> CleanOpt(a.cond[n].value, v))
  }

  /** The final attributes of n say what its original ones said under its original parent o:
      the dependency is worth the smaller of both, the prompt is worth the smaller of its own
      condition and that, up to m counting as y where n is not a tristate. */
  ghost predicate Exact(i: Info, a0: Attrs, a: Attrs, v: Valuation, n: nat, o: int) {
    && n < |i.sym| && n < |a0.dep| && n < |a0.cond| && n < |a.dep| && n < |a.cond|
    && 0 <= o < |i.sym| && o < |i.choice| && o < |a.dep| && o < |a.cond|
    && var m := Modular(v, i.modules);
    && EvalOpt(a.dep[n], v) == Min(EvalOpt(ParentDep(i, a, o), v), EvalOpt(a0.dep[n], m))
    && a.cond[n].Some? == a0.cond[n].Some?
    && (a.cond[n].Some? ==>
          var all := Min(EvalOpt(a.dep[n], v), EvalOpt(a0.cond[n].value, m));
          && EvalOpt(a.cond[n].value, v) <= all
          && (EvalOpt(a.cond[n].value, v) == NO <==> all == NO)
          && (IsTristate(i, n) ==> EvalOpt(a.cond[n].value, v) == all))
  }

  lemma {:induction false} TransBoolNormal(e: Expr)
    requires Normal(e)
    ensures Normal(TransBool(e))
  {
    match e
    case EBin(_, l, r) =>
      TransBoolNormal(l);
      TransBoolNormal(r);
    case _ =>
  }

  ghost predicate Sound(e: Option<Expr>, v: Valuation) { CleanOpt(e, v) && NormalOpt(e) }

  lemma PropSound(base: Option<Expr>, own: Option<Expr>, modules: Symbol, tristateSym: bool, v: Valuation)
    requires WellTyped(v) && Sound(base, v) && CleanOpt(own, v)
    ensures var d := PropagateProp(base, own, modules, tristateSym);
            var all := Min(EvalOpt(base, v), EvalOpt(own, Modular(v, modules)));
            && Sound(d, v) && EvalOpt(d, v) <= all && (EvalOpt(d, v) == NO <==> all == NO)
            && (tristateSym ==> EvalOpt(d, v) == all)
  {
    PropagateExact(base, own, modules, v);
    PropagateNormal(base, own, modules);
    PropagatePropVisible(base, own, modules, v);
    var d := Propagate(base, own, modules);
    if d.Some? { TransBoolNormal(d.value); }
    hide Propagate;
    hide Eval;
  }

  /** One node: exact, and sound as a parent of others. */
  lemma NodeExact(i: Info, a0: Attrs, a: Attrs, v: Valuation, n: nat, o: int)
    requires WellTyped(v) && CleanAttrs(a0, v) && Done(i, a0, a, n, o) && n < |i.choice|
    requires Sound(ParentDep(i, a, o), v)
    ensures Exact(i, a0, a, v, n, o) && Sound(ParentDep(i, a, n), v)
  {
    hide Eval;
    hide Propagate;
    hide PropagateProp;
    PropagateExact(ParentDep(i, a, o), a0.dep[n], i.modules, v);
    PropagateNormal(ParentDep(i, a, o), a0.dep[n], i.modules);
    if a0.cond[n].Some? {
      PropSound(a.dep[n], a0.cond[n].value, i.modules, IsTristate(i, n), v);
    }
  }

  lemma {:induction false} ChainExact(i: Info, a0: Attrs, a: Attrs, h0: Links, v: Valuation, p: int, q: int, c: Chain)
    requires WellTyped(v) && CleanAttrs(a0, v) && SizedAll(i, a0, h0) && Seg(h0, p, -1, q, c)
    requires 0 <= q < |i.sym| && q < |i.choice| && q < |a.dep| && q < |a.cond| && Sound(ParentDep(i, a, q), v)
    requires AllDone(i, a0, a, h0, Ids(c))
    ensures forall n :: n in Ids(c) ==> n < |h0.parent| && Exact(i, a0, a, v, n, h0.parent[n])
    decreases c
  {
    hide Done;
    hide Exact;
    hide Eval;
    hide CleanAttrs;
    match c
    case Nil =>
    case Cons(id, kids, rest) =>
      assert Done(i, a0, a, id, h0.parent[id]);
      NodeExact(i, a0, a, v, id, h0.parent[id]);
      DoneSizes(i, a0, a, id, h0.parent[id]);
      ChainExact(i, a0, a, h0, v, h0.list[id], id, kids);
      ChainExact(i, a0, a, h0, v, h0.next[id], q, rest);
  }

  lemma DoneSizes(i: Info, a0: Attrs, a: Attrs, n: nat, o: int)
    requires Done(i, a0, a, n, o)
    ensures n < |i.sym| && n < |a.dep| && n < |a.cond|
  {
  }

  /** What n takes from its original parent o: below a choice the value of the choice itself,
      below an entry with a prompt that prompt's own condition and the dependency of the entry,
      below any other its dependency. */
  ghost predicate Inherits(i: Info, a0: Attrs, a: Attrs, v: Valuation, n: nat, o: nat) {
    && n < |a0.dep| && n < |a.dep| && o < |i.sym| && o < |i.choice| && o < |a0.cond| && o < |a.dep|
    && var own := EvalOpt(a0.dep[n], Modular(v, i.modules));
    && var dep := EvalOpt(a.dep[n], v);
    && if i.sym[o].Some? && i.choice[o] then dep == Min(v.tri(i.sym[o].value), own)
       else if a0.cond[o].None? then dep == Min(EvalOpt(a.dep[o], v), own)
       else
         var all := Min(Min(EvalOpt(a.dep[o], v), EvalOpt(a0.cond[o].value, Modular(v, i.modules))), own);
         dep <= all && (dep == NO <==> all == NO) && (IsTristate(i, o) ==> dep == all)
  }

  /** In the finished tree every node inherits in this way from its original parent. */
  lemma ChainInherits(i: Info, a0: Attrs, a: Attrs, h0: Links, v: Valuation, p: int, q: int, c: Chain)
    requires WellTyped(v) && CleanAttrs(a0, v) && SizedAll(i, a0, h0) && Seg(h0, p, -1, q, c)
    requires 0 <= q < |i.sym| && q < |i.choice| && q < |a.dep| && q < |a.cond| && Sound(ParentDep(i, a, q), v)
    requires AllDone(i, a0, a, h0, Ids(c))
    ensures forall n {:trigger h0.parent[n]} :: n in Ids(c) ==>
              n < |h0.parent| && (h0.parent[n] in Ids(c) && h0.parent[n] >= 0 ==> Inherits(i, a0, a, v, n, h0.parent[n]))
  {
    hide Exact; hide Eval; hide CleanAttrs; hide Seg; hide AllDone; hide Inherits;
    ChainExact(i, a0, a, h0, v, p, q, c);
    forall n | n in Ids(c) && h0.parent[n] in Ids(c)
      ensures Inherits(i, a0, a, v, n, h0.parent[n])
    {
      var o := h0.parent[n];
      ExactInherits(i, a0, a, v, n, o, h0.parent[o]);
    }
  }

  lemma ExactInherits(i: Info, a0: Attrs, a: Attrs, v: Valuation, n: nat, o: nat, oo: int)
    requires Exact(i, a0, a, v, n, o) && Exact(i, a0, a, v, o, oo)
    ensures Inherits(i, a0, a, v, n, o)
  {
    hide EvalOpt;
    if i.sym[o].Some? && i.choice[o] { SymbolAlone(i.sym[o].value, v); }
  }

  lemma SymbolAlone(s: Symbol, v: Valuation)
    ensures EvalOpt(Some(ESym(s)), v) == v.tri(s)
  {
  }

  /** menu_finalize on the root of a parsed menu tree, then the walk of conf_write. Every node
      is finalized exactly once, in document order; the finished tree is still in that order
      and the walk visits each of its nodes once; only nodes with a prompt text have
      children; and every node has the attributes that its original place gives it. */
  method FinalizeAndWrite(i: Info, h: Links, a: Attrs, root: nat, ghost kids: Chain)
    returns (ghost finalized: seq<nat>, written: seq<nat>, h': Links, a': Attrs, ghost kids': Chain)
    requires SizedAll(i, a, h) && Seg(h, root, -1, -1, One(root, kids)) && Distinct(One(root, kids))
    ensures finalized == [root] + Preorder(kids) && NoRepeat(finalized)
    ensures written == Preorder(kids)
    ensures Seg(h', root, -1, -1, One(root, kids')) && Preorder(kids') == Preorder(kids) && Tidy(i, kids')
    ensures AllDone(i, a, a', h, Ids(kids)) && SameAttrs(a, a', Ids(kids))
  {
    hide Seg;
    hide Distinct;
    hide AllDone;
    hide SameAttrs;
    hide Finalized;
    hide Preorder; hide NoRepeat; hide Ids; hide Tidy; hide SizedAll;
    var t := new Menus(i, h, a);
    ghost var taken, rest';
    kids', taken, rest' := t.Finalize(root, -1, kids, Nil);
    RootFinalized(i, h, t.H(), a, t.A(), root, kids, kids', taken, rest');
    written := MenuWalk.Walk(t.H(), root, kids');
    finalized, h', a' := t.log, t.H(), t.A();
    PreorderOnce(One(root, kids));
    assert NoRepeat(Preorder(One(root, kids)));
    assert finalized == [root] + Preorder(kids) + [];
  }

  lemma RootFinalized(i: Info, h0: Links, h: Links, a0: Attrs, a: Attrs, root: nat, kids: Chain, kids': Chain, taken: Chain, rest': Chain)
    requires Finalized(i, h0, h, a0, a, root, -1, kids, Nil, kids', taken, rest')
    ensures taken.Nil? && rest'.Nil? && Preorder(taken) == []
    ensures Seg(h, root, -1, -1, One(root, kids')) && Preorder(kids') == Preorder(kids) && Tidy(i, kids')
    ensures AllDone(i, a0, a, h0, Ids(kids)) && SameAttrs(a0, a, Ids(kids))
    ensures [root] + Preorder(kids) + [] == Preorder(One(root, kids))
  {
    hide AllDone;
    hide SameAttrs;
    assert taken.Nil? && rest'.Nil? && KidIds(taken) == {} && Preorder(taken) == [];
    assert Ids(kids) + KidIds(taken) == Ids(kids);
    assert Preorder(kids) + [] == Preorder(kids) && Preorder(Nil) == [];
  }
}
