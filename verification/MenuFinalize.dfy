/** menu_finalize of support/kconfig/menu.c: parent dependencies are propagated to every node,
    automatic submenus are made, and `if` blocks are flattened, all in the linked tree. */
module MenuFinalize {
  import opened KconfigExpr
  import opened MenuLinks
  import opened MenuDeps

  /** What menu_finalize only reads: each node's symbol, whether that is a choice, whether the
      node has a prompt with a text, and the modules symbol. */
  datatype Info = Info(sym: seq<Option<Symbol>>, choice: seq<bool>, text: seq<bool>, modules: Symbol)

  /** What it rewrites: each node's dependency, and the condition of its prompt if it has
      one. */
  datatype Attrs = Attrs(dep: seq<Option<Expr>>, cond: seq<Option<Option<Expr>>>)

  ghost predicate SizedAll(i: Info, a: Attrs, h: Links) {
    var n := |h.list|;
    && Sized(h, n) && |i.sym| == n && |i.choice| == n && |i.text| == n && |a.dep| == n && |a.cond| == n
    && forall k :: 0 <= k < n ==> (i.text[k] ==> a.cond[k].Some?)
  }

  /** The dependency the children of node p inherit: the choice itself, the condition of a
      menu's prompt, or the dependency of an `if`. */
  function ParentDep(i: Info, a: Attrs, p: nat): Option<Expr>
    requires p < |i.sym| && p < |i.choice| && p < |a.cond| && p < |a.dep|
  {
    if i.sym[p].Some? && i.choice[p] then Some(ESym(i.sym[p].value))
    else if a.cond[p].Some? then a.cond[p].value
    else a.dep[p]
  }

  function IsTristate(i: Info, n: nat): bool
    requires n < |i.sym|
  {
    i.sym[n].None? || i.sym[n].value.Type() == STristate
  }

  /** The attributes with node n's rewritten under the dependency d. */
  function Rewritten(i: Info, a: Attrs, n: nat, d: Option<Expr>): Attrs
    requires n < |i.sym| && n < |a.dep| && n < |a.cond|
  {
    var base := Propagate(d, a.dep[n], i.modules);
    Attrs(a.dep[n := base],
          a.cond[n := MapPrompt(a.cond[n], base, i.modules, IsTristate(i, n))])
  }

  function MapPrompt(c: Option<Option<Expr>>, base: Option<Expr>, modules: Symbol, tristateSym: bool): Option<Option<Expr>> {
    match c case None => None case Some(x) => Some(PropagateProp(base, x, modules, tristateSym))
  }

  /** Node n, which was below node o, has its final attributes. */
  ghost predicate Done(i: Info, a0: Attrs, a: Attrs, n: nat, o: int) {
    && n < |i.sym| && n < |a0.dep| && n < |a0.cond| && n < |a.dep| && n < |a.cond|
    && 0 <= o < |i.sym| && o < |i.choice| && o < |a.dep| && o < |a.cond|
    && var r := Rewritten(i, a0, n, ParentDep(i, a, o));
       a.dep[n] == r.dep[n] && a.cond[n] == r.cond[n]
  }

  ghost predicate AllDone(i: Info, a0: Attrs, a: Attrs, h0: Links, ids: set<nat>) {
    forall n :: n in ids ==> n < |h0.parent| && Done(i, a0, a, n, h0.parent[n])
  }

  ghost predicate SameAttrs(a: Attrs, b: Attrs, ids: set<nat>) {
    && |b.dep| == |a.dep| && |b.cond| == |a.cond|
    && (forall n: nat :: n < |a.dep| && n !in ids ==> b.dep[n] == a.dep[n])
    && (forall n: nat :: n < |a.cond| && n !in ids ==> b.cond[n] == a.cond[n])
    && (forall n: nat :: n < |a.cond| && n < |b.cond| ==> (a.cond[n].Some? <==> b.cond[n].Some?))
  }

  /** The nodes strictly below the nodes of a chain. */
  function KidIds(c: Chain): set<nat> {
    match c
    case Nil => {}
    case Cons(_, kids, rest) => Ids(kids) + KidIds(rest)
  }

  function TopIds(c: Chain): set<nat> {
    match c
    case Nil => {}
    case Cons(id, _, rest) => {id} + TopIds(rest)
  }

  /** Only nodes with a prompt text have children. */
  predicate Tidy(i: Info, c: Chain) {
    match c
    case Nil => true
    case Cons(id, kids, rest) =>
      && (kids.Cons? ==> id < |i.text| && i.text[id])
      && Tidy(i, kids) && Tidy(i, rest)
  }

  predicate TidyKids(i: Info, c: Chain) {
    match c
    case Nil => true
    case Cons(_, kids, rest) => Tidy(i, kids) && TidyKids(i, rest)
  }

  lemma {:induction false} TidyAppend(i: Info, a: Chain, b: Chain)
    ensures Tidy(i, Append(a, b)) <==> Tidy(i, a) && Tidy(i, b)
    ensures TidyKids(i, Append(a, b)) <==> TidyKids(i, a) && TidyKids(i, b)
    ensures Tidy(i, a) ==> TidyKids(i, a)
    ensures KidIds(Append(a, b)) == KidIds(a) + KidIds(b)
    ensures TopIds(Append(a, b)) == TopIds(a) + TopIds(b)
  {
    match a
    case Nil =>
    case Cons(_, _, rest) => TidyAppend(i, rest, b);
  }

  lemma {:induction false} SplitIds(c: Chain)
    ensures Ids(c) == TopIds(c) + KidIds(c)
    ensures Distinct(c) ==> TopIds(c) !! KidIds(c)
  {
    match c
    case Nil =>
    case Cons(_, _, rest) => SplitIds(rest);
  }

  /** The parent of a node strictly below a chain is a node of the chain. */
  lemma {:induction false} SegParents(h: Links, p: int, end: int, q: int, c: Chain)
    requires Seg(h, p, end, q, c)
    ensures forall n :: n in KidIds(c) ==> n < |h.parent| && h.parent[n] >= 0 && h.parent[n] in Ids(c)
    ensures forall n :: n in TopIds(c) ==> n < |h.parent| && h.parent[n] == q
    decreases c
  {
    match c
    case Nil =>
    case Cons(id, kids, rest) =>
      SegParents(h, h.list[id], -1, id, kids);
      SegParents(h, h.next[id], end, q, rest);
      SplitIds(kids);
  }

  /** Both rewritings together, when the second leaves alone what the first used. */
  lemma DoneBoth(i: Info, a0: Attrs, a1: Attrs, a2: Attrs, h0: Links, h1: Links, ids1: set<nat>, ids2: set<nat>)
    requires AllDone(i, a0, a1, h0, ids1) && SameAttrs(a0, a1, ids1)
    requires AllDone(i, a1, a2, h1, ids2) && SameAttrs(a1, a2, ids2)
    requires ids1 !! ids2
    requires forall n :: n in ids1 ==> n < |h0.parent| && h0.parent[n] !in ids2
    requires forall n :: n in ids2 ==> n < |h0.parent| && n < |h1.parent| && h0.parent[n] == h1.parent[n]
    ensures AllDone(i, a0, a2, h0, ids1 + ids2) && SameAttrs(a0, a2, ids1 + ids2)
  {
    hide Propagate;
    hide MapPrompt;
    forall n | n in ids1 + ids2
      ensures n < |h0.parent| && Done(i, a0, a2, n, h0.parent[n])
    {
      if n in ids1 {
        assert Done(i, a0, a1, n, h0.parent[n]);
        var o: nat := h0.parent[n];
        assert o !in ids2;
      } else {
        assert Done(i, a1, a2, n, h1.parent[n]);
      }
    }
  }

  lemma DoneOne(i: Info, a0: Attrs, h0: Links, n: nat, p: nat)
    requires n < |i.sym| && n < |a0.dep| && n < |a0.cond| && n < |h0.parent| && h0.parent[n] == p && n != p
    requires p < |i.sym| && p < |i.choice| && p < |a0.dep| && p < |a0.cond|
    ensures var a := Rewritten(i, a0, n, ParentDep(i, a0, p));
            SameAttrs(a0, a, {n}) && AllDone(i, a0, a, h0, {n})
  {
    hide Propagate;
    hide PropagateProp;
  }

  /** One child finalized: it joins the finished part of the chain. */
  lemma ChildStep(h0: Links, h: Links, p: int, m: nat, q: int, acc: Chain, kids: Chain, rest: Chain, ids: set<nat>)
    requires Seg(h0, p, m, q, acc) && SameOutside(h0, h, ids) && Ids(acc) !! ids
    requires Seg(h, m, -1, q, Cons(m, kids, rest))
    ensures m < |h.next|
    ensures Seg(h, p, h.next[m], q, Append(acc, One(m, kids)))
    ensures Seg(h, h.next[m], -1, q, rest)
  {
    SegFrame(h0, h, p, m, q, acc, ids);
    assert Seg(h, h.next[m], h.next[m], q, Nil);
    assert Seg(h, m, h.next[m], q, One(m, kids));
    SegAppend(h, p, m, h.next[m], q, acc, One(m, kids));
  }

  lemma {:induction false} PrefixParents(h: Links, p: int, end: int, q: int, a: Chain, b: Chain)
    requires Seg(h, p, end, q, Append(a, b))
    ensures forall n :: n in KidIds(a) ==> n < |h.parent| && h.parent[n] >= 0 && h.parent[n] in Ids(a)
    ensures forall n :: n in TopIds(a) ==> n < |h.parent| && h.parent[n] == q
    decreases a
  {
    match a
    case Nil =>
    case Cons(id, kids, rest) =>
      SegParents(h, h.list[id], -1, id, kids);
      SplitIds(kids);
      PrefixParents(h, h.next[id], end, q, rest, b);
  }

  /** What a call of menu_finalize may change, and what it leaves. */
  ghost predicate Effect(i: Info, h0: Links, h: Links, a0: Attrs, a: Attrs, links: set<nat>, attrs: set<nat>) {
    && SizedAll(i, a, h)
    && SameOutside(h0, h, links)
    && SameAttrs(a0, a, attrs)
    && AllDone(i, a0, a, h0, attrs)
  }

  /** The submenu test of the symbol of node p on node n. */
  predicate Passes(i: Info, a: Attrs, p: nat, n: nat) {
    && p < |i.sym| && i.sym[p].Some? && p < |a.cond| && n < |a.cond| && n < |a.dep|
    && InSubmenu(i.sym[p].value, if a.cond[p].Some? then a.cond[p].value else None,
                 if a.cond[n].Some? then a.cond[n].value else a.dep[n])
  }

  ghost predicate AllPass(i: Info, a: Attrs, p: nat, ns: set<nat>) {
    forall n :: n in ns ==> Passes(i, a, p, n)
  }

  /** Siblings after the last loop: the children of a node without prompt text come after it,
      and are looked at in turn; a node with a text keeps its own. */
  function Flat(i: Info, c: Chain): Chain
    decreases Count(c)
  {
    match c
    case Nil => Nil
    case Cons(id, kids, rest) =>
      AppendFacts(kids, rest);
      if kids.Cons? && id < |i.text| && !i.text[id] then Cons(id, Nil, Flat(i, Append(kids, rest)))
      else Cons(id, kids, Flat(i, rest))
  }

  lemma FlatStep(i: Info, out: Chain, c: Chain)
    requires c.Cons?
    ensures c.kids.Cons? && c.id < |i.text| && !i.text[c.id] ==>
              Flat(i, c) == Flat(i, Cons(c.id, Nil, Append(c.kids, c.rest)))
    ensures !(c.kids.Cons? && c.id < |i.text| && !i.text[c.id]) ==>
              Append(out, Flat(i, c)) == Append(Append(out, One(c.id, c.kids)), Flat(i, c.rest))
  {
    AppendAssoc(out, One(c.id, c.kids), Flat(i, c.rest));
  }

  lemma FlatEnd(i: Info, out: Chain)
    ensures Append(out, Flat(i, Nil)) == out && Append(Nil, Flat(i, out)) == Flat(i, out)
  {
    AppendAssoc(out, Nil, Nil);
  }

  class Menus {
    const info: Info
    var list: seq<int>
    var next: seq<int>
    var parent: seq<int>
    var dep: seq<Option<Expr>>
    var cond: seq<Option<Option<Expr>>>
    ghost var log: seq<nat>   // the nodes menu_finalize was called on, in order

    function H(): Links
      reads this
    {
      Links(list, next, parent)
    }

    function A(): Attrs
      reads this
    {
      Attrs(dep, cond)
    }

    constructor (info: Info, h: Links, a: Attrs)
      ensures this.info == info && H() == h && A() == a && log == []
    {
      this.info := info;
      list, next, parent := h.list, h.next, h.parent;
      dep, cond := a.dep, a.cond;
      log := [];
    }

    /** The first loop over the children of p: their dependencies and prompts. */
    method PropagateDeps(p: nat, ghost kids: Chain)
      requires SizedAll(info, A(), H()) && p < |list| && p !in Ids(kids) && Distinct(kids)
      requires Seg(H(), list[p], -1, p, kids)
      modifies this`dep, this`cond
      ensures Effect(info, old(H()), H(), old(A()), A(), {}, TopIds(kids))
      ensures SizedAll(info, A(), H())
    {
      hide Seg;
      hide SizedAll;
      hide AllDone;
      hide SameAttrs;
      hide Rewritten;
      ghost var h, a0 := H(), A();
      StartPropagate(info, a0, h, p, kids);
      var parentDep := ParentDep(info, A(), p);
      var m := list[p];
      ghost var seen, rest := Nil, kids;
      while m != -1
        invariant H() == h && Propagated(info, a0, A(), h, p, m, seen, rest)
        invariant kids == Append(seen, rest)
        decreases rest
      {
        PropagateStep(info, a0, A(), h, p, m, seen, rest);
        var r := Rewritten(info, A(), m, parentDep);
        dep, cond := r.dep, r.cond;
        seen, rest := Append(seen, One(m, rest.kids)), rest.rest;
        m := next[m];
      }
      EndPropagate(info, a0, A(), h, p, m, seen, rest);
    }

    /** menu_finalize. Below p there were kids, after p there came rest; afterwards p has the
        children kids', and the siblings taken from rest are among them. */
    method Finalize(p: nat, ghost q: int, ghost kids: Chain, ghost rest: Chain)
      returns (ghost kids': Chain, ghost taken: Chain, ghost rest': Chain)
      requires SizedAll(info, A(), H()) && Seg(H(), p, -1, q, Cons(p, kids, rest)) && Distinct(Cons(p, kids, rest))
      modifies this
      ensures Finalized(info, old(H()), H(), old(A()), A(), p, q, kids, rest, kids', taken, rest')
      ensures kids.Cons? || info.sym[p].None? ==> taken.Nil?
      ensures kids.Nil? && info.sym[p].Some? && rest'.Cons? ==> !Passes(info, old(A()), p, rest'.id)
      ensures log == old(log) + [p] + Preorder(kids) + Preorder(taken)
      decreases Count(Cons(p, kids, rest)), 1
    {
      hide Seg;
      hide SizedAll;
      hide Finalized;
      hide Effect;
      hide Ready;
      hide Merged;
      hide Flattened;
      hide Distinct; hide Passes; hide AllPass;
      log := log + [p];
      StartFinalize(info, H(), A(), p, q, kids, rest);
      ghost var h0, a0 := H(), A();
      ghost var chain;
      if list[p] != -1 {
        PropagateDeps(p, kids);
        ghost var a1 := A();
        chain := FinalizeChildren(p, kids);
        taken, rest' := Nil, rest;
        ChildrenDone(info, h0, H(), a0, a1, A(), p, q, kids, rest, chain);
      } else if info.sym[p].Some? {
        chain, taken, rest' := AbsorbSiblings(p, q, rest);
      } else {
        chain, taken, rest' := Nil, Nil, rest;
      }
      ReadyFacts(info, h0, H(), a0, A(), p, q, kids, rest, chain, taken, rest');
      ghost var h1 := H();
      kids' := Flatten(p, chain);
      FlattenDone(info, h0, h1, H(), a0, A(), p, q, kids, rest, chain, taken, rest', kids');
    }

    /** The second loop over the children. A child may take later children into its submenu. */
    method FinalizeChildren(p: nat, ghost kids: Chain) returns (ghost acc: Chain)
      requires SizedAll(info, A(), H()) && p < |list| && Seg(H(), list[p], -1, p, kids)
      requires Distinct(kids) && p !in Ids(kids)
      modifies this
      ensures Merged(info, old(H()), H(), old(A()), A(), p, kids, acc)
      ensures log == old(log) + Preorder(kids)
      decreases Count(kids), 2
    {
      hide Seg;
      hide SizedAll;
      hide Merged;
      hide Effect;
      hide Finalized;
      hide Distinct; hide Ids; hide Count;
      ghost var h0, a0 := H(), A();
      StartChildren(info, h0, a0, p, kids);
      acc := Nil;
      ghost var seen, rest := Nil, kids;
      var m := list[p];
      while m != -1
        invariant p < |list|
        invariant Merging(info, h0, H(), a0, A(), p, list[p], m, seen, rest, acc)
        invariant kids == Append(seen, rest)
        invariant log == old(log) + Preorder(seen)
        decreases Count(rest)
      {
        ghost var h1, a1 := H(), A();
        MergingNext(info, h0, h1, a0, a1, p, list[p], m, seen, rest, acc);
        ghost var k, taken, rest' := Finalize(m, p, rest.kids, rest.rest);
        MergingStep(info, h0, h1, H(), a0, a1, A(), p, h1.list[p], m, seen, rest, acc, k, taken, rest');
        seen, rest, acc := Append(seen, Cons(rest.id, rest.kids, taken)), rest', Append(acc, One(rest.id, k));
        m := next[m];
      }
      EndChildren(info, h0, H(), a0, A(), p, list[p], m, seen, rest, acc);
    }

    /** Automatic submenus: the entries right after p that depend on its symbol become its
        children. */
    method AbsorbSiblings(p: nat, ghost q: int, ghost rest: Chain)
      returns (ghost acc: Chain, ghost taken: Chain, ghost rest': Chain)
      requires SizedAll(info, A(), H()) && p < |list| && list[p] == -1 && info.sym[p].Some?
      requires Seg(H(), next[p], -1, q, rest) && Distinct(rest) && p !in Ids(rest)
      modifies this
      ensures Ready(info, old(H()), H(), old(A()), A(), p, q, Nil, rest, acc, taken, rest')
      ensures AllPass(info, old(A()), p, TopIds(acc)) && (rest'.Cons? ==> !Passes(info, old(A()), p, rest'.id))
      ensures log == old(log) + Preorder(taken)
      decreases Count(rest), 2
    {
      hide Seg;
      hide SizedAll;
      hide Effect;
      hide Finalized;
      hide Absorbing;
      hide InSubmenu;
      hide Ready;
      hide Distinct; hide Ids; hide Count; hide AllPass; hide Append; hide Preorder;
      ghost var h0, a0 := H(), A();
      StartAbsorb(info, h0, a0, p, q, rest);
      var promptDep := if cond[p].Some? then cond[p].value else None;
      acc, taken, rest' := Nil, Nil, rest;
      NothingYet(info, a0, p, rest, log);
      var last, m := -1, next[p];
      while m != -1
        invariant Absorbing(info, h0, H(), a0, A(), p, q, m, taken, rest', acc)
        invariant rest == Append(taken, rest')
        invariant last == (if acc.Nil? then -1 else Last(acc))
        invariant AllPass(info, a0, p, TopIds(acc))
        invariant log == old(log) + Preorder(taken)
        decreases Count(rest')
      {
        AbsorbingNext(info, h0, H(), a0, A(), p, q, m, taken, rest', acc);
        TestedAsBefore(info, h0, H(), a0, A(), p, q, m, taken, rest', acc);
        var d := if cond[m].Some? then cond[m].value else dep[m];
        if !InSubmenu(info.sym[p].value, promptDep, d) {
          break;
        }
        ghost var h1, a1 := H(), A();
        ghost var k, t, r := Finalize(m, q, rest'.kids, rest'.rest);
        ghost var h2 := H();
        AbsorbingStep(info, h0, h1, h2, a0, a1, A(), p, q, m, taken, rest', acc, k, t, r);
        MorePass(info, a0, p, acc, m, k);
        LogStep(old(log), Preorder(taken), [m], Preorder(rest'.kids), Preorder(t));
        parent := parent[m := p];
        taken, acc, rest' := Append(taken, Cons(rest'.id, rest'.kids, t)), Append(acc, One(rest'.id, k)), r;
        last := m;
        m := next[m];
      }
      if m == -1 { AbsorbedAll(info, h0, H(), a0, A(), p, q, m, taken, rest', acc); }
      EndAbsorbing(p, last, h0, a0, m, q, taken, rest', acc);
    }

    /** After the loop, the absorbed entries are spliced in, if there are any. */
    method EndAbsorbing(p: nat, last: int, ghost h0: Links, ghost a0: Attrs, ghost m: int, ghost q: int,
                        ghost taken: Chain, ghost rest: Chain, ghost acc: Chain)
      requires Absorbing(info, h0, H(), a0, A(), p, q, m, taken, rest, acc)
      requires last == (if acc.Nil? then -1 else Last(acc))
      modifies this`list, this`next
      ensures Ready(info, h0, H(), a0, A(), p, q, Nil, Append(taken, rest), acc, taken, rest)
    {
      hide Seg; hide SizedAll; hide Effect; hide Absorbing; hide Ready; hide Distinct; hide Ids; hide Append;
      ghost var h1 := H();
      AbsorbingEnd(info, h0, h1, a0, A(), p, q, m, taken, rest, acc);
      if last != -1 {
        Splice(p, last, m, q, acc, rest);
        AbsorbingDone(info, h0, h1, H(), a0, A(), p, q, m, taken, rest, acc);
      }
    }

    /** The siblings after p up to last, which have p as their parent by now, become the children
        of p, and what followed them its siblings; both chains keep their nodes, what is below
        these and their order, and no other node is changed. */
    method Splice(p: nat, last: nat, ghost m: int, ghost q: int, ghost acc: Chain, ghost rest: Chain)
      requires p < |list| && p < |next| && acc.Cons? && last == Last(acc) < |next|
      requires Seg(H(), next[p], m, p, acc) && Seg(H(), m, -1, q, rest)
      requires Distinct(acc) && p !in Ids(acc) && p !in Ids(rest) && Ids(acc) !! Ids(rest)
      modifies this`list, this`next
      ensures p < |list| && p < |next|
      ensures Seg(H(), list[p], -1, p, acc) && Seg(H(), next[p], -1, q, rest)
      ensures SameOutside(old(H()), H(), {p, last})
    {
      hide Seg; hide Distinct; hide Ids;
      ghost var h := H();
      SplicedSegs(h, p, m, q, acc, rest);
      SplicedOutside(h, p, last);
      list := list[p := next[p]];
      next := next[p := next[last]];
      next := next[last := -1];
      assert H() == Spliced(h, p, last);
    }

    /** The last loop: the children of a node without prompt text move up after it. */
    method Flatten(p: nat, ghost chain: Chain) returns (ghost out: Chain)
      requires SizedAll(info, A(), H()) && p < |list|
      requires Seg(H(), list[p], -1, p, chain) && Distinct(chain) && p !in Ids(chain) && TidyKids(info, chain)
      modifies this`list, this`next, this`parent
      ensures Flattened(info, old(H()), H(), p, chain, out) && out == Flat(info, chain)
      ensures SizedAll(info, A(), H())
    {
      hide Seg;
      hide SizedAll;
      hide Flattening;
      hide Flattened;
      hide Flat; hide Append; hide Distinct; hide Ids; hide Count;
      ghost var h0 := H();
      FlatEnd(info, chain);
      StartFlatten(info, A(), h0, p, chain);
      var m := list[p];
      out := Nil;
      ghost var rest := chain;
      while m != -1
        invariant Flattening(info, h0, H(), p, m, chain, out, rest)
        invariant Append(out, Flat(info, rest)) == Flat(info, chain)
        invariant SizedAll(info, A(), H())
        decreases Count(rest)
      {
        FlatteningNext(info, A(), h0, H(), p, m, chain, out, rest);
        FlatStep(info, out, rest);
        if list[m] != -1 && !info.text[m] {
          ghost var h1 := H();
          var last := Adopt(list[m], m, p, rest.kids);
          HoistStep(info, A(), h0, h1, H(), p, m, last, chain, out, rest);
          next := next[last := next[m]];
          next := next[m := list[m]];
          list := list[m := -1];
          rest := Cons(rest.id, Nil, Append(rest.kids, rest.rest));
          FlatStep(info, out, rest);
        }
        KeepStep(info, A(), h0, H(), p, m, chain, out, rest);
        out, rest := Append(out, One(rest.id, rest.kids)), rest.rest;
        m := next[m];
      }
      EndFlatten(info, h0, H(), p, m, chain, out, rest);
      FlatEnd(info, out);
    }

    /** `last_menu->parent = parent` along the children of m, up to the last of them. */
    method Adopt(first: nat, ghost m: int, p: int, ghost kids: Chain) returns (last: nat)
      requires kids.Cons? && Seg(H(), first, -1, m, kids) && Distinct(kids) && Sized(H(), |list|)
      modifies this`parent
      ensures Sized(H(), |list|) && SameOutside(old(H()), H(), TopIds(kids))
      ensures Seg(H(), first, -1, p, kids) && last == Last(kids)
    {
      hide Seg;
      hide Adopting;
      hide SameOutside;
      ghost var seen, rest := Nil, kids;
      last := first;
      ghost var h0 := H();
      StartAdopt(h0, first, m, p, kids);
      while true
        invariant Adopting(h0, H(), first, last, m, p, kids, seen, rest)
        decreases rest
      {
        AdoptStep(h0, H(), first, last, m, p, kids, seen, rest);
        parent := parent[last := p];
        if next[last] == -1 {
          break;
        }
        seen, rest := Append(seen, One(rest.id, rest.kids)), rest.rest;
        last := next[last];
      }
    }
  }

  /** The children in seen are rewritten, m is the first of the rest. */
  ghost predicate Propagated(i: Info, a0: Attrs, a: Attrs, h: Links, p: nat, m: int, seen: Chain, rest: Chain) {
    && SizedAll(i, a0, h) && SizedAll(i, a, h) && p < |h.list|
    && Distinct(Append(seen, rest)) && p !in Ids(Append(seen, rest))
    && Seg(h, m, -1, p, rest)
    && (forall n :: n in TopIds(seen) ==> n < |h.parent| && h.parent[n] == p)
    && SameAttrs(a0, a, TopIds(seen)) && AllDone(i, a0, a, h, TopIds(seen))
  }

  lemma StartPropagate(i: Info, a0: Attrs, h: Links, p: nat, kids: Chain)
    requires SizedAll(i, a0, h) && p < |h.list| && p !in Ids(kids) && Distinct(kids)
    requires Seg(h, h.list[p], -1, p, kids)
    ensures Propagated(i, a0, a0, h, p, h.list[p], Nil, kids)
    ensures p < |i.sym| && p < |i.choice| && p < |a0.dep| && p < |a0.cond|
  {
  }

  lemma PropagateStep(i: Info, a0: Attrs, a: Attrs, h: Links, p: nat, m: int, seen: Chain, rest: Chain)
    requires Propagated(i, a0, a, h, p, m, seen, rest) && m != -1
    ensures rest.Cons? && m == rest.id && rest.id < |h.next|
    ensures rest.id < |i.sym| && rest.id < |a.dep| && rest.id < |a.cond|
    ensures p < |i.sym| && p < |i.choice| && p < |a0.dep| && p < |a0.cond|
    ensures var seen' := Append(seen, One(rest.id, rest.kids));
            && Propagated(i, a0, Rewritten(i, a, rest.id, ParentDep(i, a0, p)), h, p, h.next[rest.id], seen', rest.rest)
            && Append(seen', rest.rest) == Append(seen, rest)
  {
    hide Propagate;
    hide MapPrompt;
    hide Preorder;
    hide Count;
    var one := One(rest.id, rest.kids);
    var a' := Rewritten(i, a, rest.id, ParentDep(i, a0, p));
    AppendFacts(seen, rest);
    SplitIds(seen);
    AppendAssoc(seen, one, rest.rest);
    assert Append(one, rest.rest) == rest;
    TidyAppend(i, seen, one);
    assert TopIds(one) == {rest.id} by { assert TopIds(Nil) == {}; }
    assert p !in TopIds(seen) && ParentDep(i, a0, p) == ParentDep(i, a, p);
    DoneOne(i, a, h, rest.id, p);
    DoneBoth(i, a0, a, a', h, h, TopIds(seen), {rest.id});
  }

  lemma EndPropagate(i: Info, a0: Attrs, a: Attrs, h: Links, p: nat, m: int, seen: Chain, rest: Chain)
    requires Propagated(i, a0, a, h, p, m, seen, rest) && m == -1
    ensures Effect(i, h, h, a0, a, {}, TopIds(Append(seen, rest)))
  {
    TidyAppend(i, seen, rest);
  }

  /** What menu_finalize(p) does to the tree below and right after p: the nodes keep their
      document order, the siblings it takes are a prefix of those after p, and every node
      below p has its final attributes. */
  ghost predicate Finalized(i: Info, h0: Links, h: Links, a0: Attrs, a: Attrs, p: nat, q: int,
                            kids: Chain, rest: Chain, kids': Chain, taken: Chain, rest': Chain) {
    && Effect(i, h0, h, a0, a, {p} + Ids(kids) + Ids(taken), Ids(kids) + KidIds(taken))
    && Seg(h, p, -1, q, Cons(p, kids', rest'))
    && NewShape(i, kids, rest, kids', taken, rest') && Tidy(i, kids')
  }

  /** The order of nodes a call keeps: kids and the taken siblings become kids'. */
  predicate NewShape(i: Info, kids: Chain, rest: Chain, kids': Chain, taken: Chain, rest': Chain) {
    && rest == Append(taken, rest')
    && Preorder(kids') == Preorder(kids) + Preorder(taken)
    && Ids(kids') == Ids(kids) + Ids(taken)
    && Distinct(kids') && TidyKids(i, kids')
  }

  /** The order of nodes in the loops: seen were finalized and form acc, rest remain. */
  predicate Shape(i: Info, p: nat, seen: Chain, rest: Chain, acc: Chain) {
    && Distinct(Append(seen, rest)) && p !in Ids(Append(seen, rest))
    && Preorder(acc) == Preorder(seen) && Ids(acc) == Ids(seen) && Distinct(acc) && TidyKids(i, acc)
  }

  lemma ShapeStep(i: Info, p: nat, m: nat, seen: Chain, kids: Chain, rest: Chain, acc: Chain, k: Chain, taken: Chain, r: Chain)
    requires Shape(i, p, seen, Cons(m, kids, rest), acc) && NewShape(i, kids, rest, k, taken, r) && Tidy(i, k)
    ensures var seen' := Append(seen, Cons(m, kids, taken));
            && Shape(i, p, seen', r, Append(acc, One(m, k)))
            && Append(seen', r) == Append(seen, Cons(m, kids, rest))
            && Append(seen, Append(Cons(m, kids, taken), r)) == Append(seen, Cons(m, kids, rest))
            && Preorder(seen') == Preorder(seen) + [m] + Preorder(kids) + Preorder(taken)
            && Ids(seen') == Ids(seen) + Ids(Cons(m, kids, taken))
            && KidIds(seen') == KidIds(seen) + KidIds(Cons(m, kids, taken))
    ensures Count(r) < Count(Cons(m, kids, rest))
    ensures Ids(Cons(m, kids, taken)) == {m} + Ids(kids) + Ids(taken)
    ensures KidIds(Cons(m, kids, taken)) == Ids(kids) + KidIds(taken)
    ensures Ids(acc) !! {m} + Ids(kids) + Ids(taken) && p !in {m} + Ids(kids) + Ids(taken)
    ensures Distinct(Cons(m, k, r))
  {
    hide Ids; hide KidIds; hide Distinct; hide Preorder; hide TidyKids; hide Tidy; hide Append; hide Count; hide NewShape;
    var got := Cons(m, kids, taken);
    AppendFacts(seen, Cons(m, kids, rest));
    NewNode(i, m, kids, rest, k, taken, r);
    AppendAssoc(seen, got, r);
    AppendFacts(seen, got);
    TidyAppend(i, seen, got);
    GrownAcc(i, acc, m, k);
    assert Preorder(seen) + ([m] + Preorder(kids) + Preorder(taken)) ==
           Preorder(seen) + [m] + Preorder(kids) + Preorder(taken);
  }

  /** One more finished node at the end of the new siblings. */
  lemma GrownAcc(i: Info, acc: Chain, m: nat, k: Chain)
    requires Distinct(acc) && TidyKids(i, acc) && Distinct(One(m, k)) && TidyKids(i, One(m, k)) && Ids(acc) !! Ids(One(m, k))
    ensures var grown := Append(acc, One(m, k));
            && Distinct(grown) && TidyKids(i, grown) && Ids(grown) == Ids(acc) + Ids(One(m, k))
            && Preorder(grown) == Preorder(acc) + Preorder(One(m, k))
  {
    hide Ids; hide KidIds; hide Distinct; hide Preorder; hide TidyKids; hide Tidy; hide Append;
    AppendFacts(acc, One(m, k));
    TidyAppend(i, acc, One(m, k));
  }

  /** The finished node m, alone: it has the nodes of m, its old children and the siblings it
      took. */
  lemma NewNode(i: Info, m: nat, kids: Chain, rest: Chain, k: Chain, taken: Chain, r: Chain)
    requires NewShape(i, kids, rest, k, taken, r) && Tidy(i, k) && Distinct(Cons(m, kids, rest))
    ensures var got := Cons(m, kids, taken);
            && Append(got, r) == Cons(m, kids, rest)
            && Ids(got) == {m} + Ids(kids) + Ids(taken) && KidIds(got) == Ids(kids) + KidIds(taken)
            && Preorder(got) == [m] + Preorder(kids) + Preorder(taken)
            && Ids(One(m, k)) == Ids(got) && Preorder(One(m, k)) == Preorder(got)
            && Distinct(One(m, k)) && TidyKids(i, One(m, k)) && Ids(got) !! Ids(r)
            && Ids(Cons(m, kids, rest)) == Ids(got) + Ids(r)
    ensures Distinct(Cons(m, k, r)) && Count(r) < Count(Cons(m, kids, rest))
  {
    hide TidyKids;
    hide Tidy;
    hide Append;
    hide Ids;
    hide KidIds;
    hide Distinct;
    hide Preorder;
    hide Count;
    AppendFacts(taken, r);
    AppendCons(m, kids, taken, r);
    OneTidy(i, m, k);
    ConsFacts(m, kids, taken);
    ConsFacts(m, kids, rest);
    ConsFacts(m, k, Nil);
    ConsFacts(m, k, r);
  }

  lemma ConsFacts(m: nat, kids: Chain, rest: Chain)
    ensures var c := Cons(m, kids, rest);
            && Ids(c) == {m} + Ids(kids) + Ids(rest) && KidIds(c) == Ids(kids) + KidIds(rest)
            && Preorder(c) == [m] + Preorder(kids) + Preorder(rest) && Count(c) == 1 + Count(kids) + Count(rest)
            && (Distinct(c) <==> m !in Ids(kids) && m !in Ids(rest) && Ids(kids) !! Ids(rest)
                                 && Distinct(kids) && Distinct(rest))
    ensures Ids(Nil) == {} && Preorder(Nil) == [] && Distinct(Nil) && Count(Nil) == 0
  {
  }

  lemma AppendCons(m: nat, kids: Chain, a: Chain, b: Chain)
    ensures Append(Cons(m, kids, a), b) == Cons(m, kids, Append(a, b))
  {
  }

  lemma OneTidy(i: Info, m: nat, k: Chain)
    requires Tidy(i, k)
    ensures TidyKids(i, One(m, k))
  {
  }

  /** The same before the last loop of menu_finalize. */
  ghost predicate Ready(i: Info, h0: Links, h: Links, a0: Attrs, a: Attrs, p: nat, q: int,
                        kids: Chain, rest: Chain, chain: Chain, taken: Chain, rest': Chain) {
    && p < |h.list| && p < |h.next| && p < |h.parent| && p < |h0.parent|
    && Effect(i, h0, h, a0, a, {p} + Ids(kids) + Ids(taken), Ids(kids) + KidIds(taken))
    && Seg(h, h.list[p], -1, p, chain)
    && Seg(h, h.next[p], -1, q, rest')
    && h.parent[p] == h0.parent[p]
    && NewShape(i, kids, rest, chain, taken, rest')
  }

  ghost predicate Merged(i: Info, h0: Links, h: Links, a0: Attrs, a: Attrs, p: nat, kids: Chain, acc: Chain) {
    && p < |h.list|
    && Effect(i, h0, h, a0, a, Ids(kids), KidIds(kids))
    && Seg(h, h.list[p], -1, p, acc)
    && Preorder(acc) == Preorder(kids) && Ids(acc) == Ids(kids) && Distinct(acc) && TidyKids(i, acc)
  }

  /** In the loop over the children of p: seen are finalized and now form acc, m heads the
      rest. */
  ghost predicate Merging(i: Info, h0: Links, h: Links, a0: Attrs, a: Attrs, p: nat, first: int, m: int,
                          seen: Chain, rest: Chain, acc: Chain) {
    && p < |h0.list| && p < |h.list| && first == h.list[p] == h0.list[p]
    && Effect(i, h0, h, a0, a, Ids(seen), KidIds(seen))
    && Seg(h0, first, -1, p, Append(seen, rest))
    && Seg(h, first, m, p, acc) && Seg(h, m, -1, p, rest)
    && Shape(i, p, seen, rest, acc)
  }

  lemma StartChildren(i: Info, h0: Links, a0: Attrs, p: nat, kids: Chain)
    requires SizedAll(i, a0, h0) && p < |h0.list| && Seg(h0, h0.list[p], -1, p, kids)
    requires Distinct(kids) && p !in Ids(kids)
    ensures Merging(i, h0, h0, a0, a0, p, h0.list[p], h0.list[p], Nil, kids, Nil)
  {
  }

  lemma MergingNext(i: Info, h0: Links, h: Links, a0: Attrs, a: Attrs, p: nat, first: int, m: int,
                    seen: Chain, rest: Chain, acc: Chain)
    requires Merging(i, h0, h, a0, a, p, first, m, seen, rest, acc) && m != -1
    ensures rest.Cons? && m == rest.id && rest.id < |h.next| && p < |h.list| && first == h.list[p]
    ensures SizedAll(i, a, h) && Seg(h, m, -1, p, Cons(rest.id, rest.kids, rest.rest))
    ensures Distinct(Cons(rest.id, rest.kids, rest.rest))
    ensures Count(rest) <= Count(Append(seen, rest))
  {
    AppendFacts(seen, rest);
  }

  lemma OutsideSized(i: Info, a: Attrs, h: Links, p: nat)
    requires SizedAll(i, a, h) && p < |h.list|
    ensures p < |h.next| && p < |h.parent|
  {
  }

  lemma OutsideAt(h: Links, k: Links, ids: set<nat>, n: nat)
    requires SameOutside(h, k, ids) && n !in ids && n < |h.list| && n < |h.next| && n < |h.parent|
    ensures n < |k.list| && n < |k.next| && n < |k.parent|
    ensures k.list[n] == h.list[n] && k.next[n] == h.next[n] && k.parent[n] == h.parent[n]
  {
  }

  /** The finished child m joins acc; what it took is no longer among the rest. */
  lemma MergingStep(i: Info, h0: Links, h1: Links, h: Links, a0: Attrs, a1: Attrs, a: Attrs, p: nat, first: int, m: nat,
                    seen: Chain, rest: Chain, acc: Chain, k: Chain, taken: Chain, rest': Chain)
    requires Merging(i, h0, h1, a0, a1, p, first, m, seen, rest, acc) && rest.Cons? && rest.id == m
    requires Finalized(i, h1, h, a1, a, m, p, rest.kids, rest.rest, k, taken, rest')
    ensures m < |h.next| && p < |h.list| && first == h.list[p]
    ensures var seen' := Append(seen, Cons(m, rest.kids, taken));
            && Merging(i, h0, h, a0, a, p, first, h.next[m], seen', rest', Append(acc, One(m, k)))
            && Append(seen', rest') == Append(seen, rest)
            && Preorder(seen') == Preorder(seen) + [m] + Preorder(rest.kids) + Preorder(taken)
    ensures Count(rest') < Count(rest)
  {
    hide SizedAll;
    hide SameAttrs;
    hide AllDone;
    hide SameOutside;
    hide Seg;
    hide Tidy;
    hide Shape;
    hide NewShape;
    hide Append;
    hide Ids;
    var got := Cons(m, rest.kids, taken);
    var ids := {m} + Ids(rest.kids) + Ids(taken);
    ShapeStep(i, p, m, seen, rest.kids, rest.rest, acc, k, taken, rest');
    OutsideSized(i, a1, h1, p);
    OutsideAt(h1, h, ids, p);
    ChildStep(h1, h, first, m, p, acc, k, rest', ids);
    ShapeDistinct(i, p, seen, rest, acc);
    MergingEffect(i, h0, h1, h, a0, a1, a, p, first, seen, got, rest');
  }

  lemma ShapeDistinct(i: Info, p: nat, seen: Chain, rest: Chain, acc: Chain)
    requires Shape(i, p, seen, rest, acc)
    ensures Distinct(Append(seen, rest)) && p !in Ids(Append(seen, rest))
  {
  }

  lemma MergingEffect(i: Info, h0: Links, h1: Links, h: Links, a0: Attrs, a1: Attrs, a: Attrs, p: int, first: int,
                      seen: Chain, got: Chain, rest': Chain)
    requires Effect(i, h0, h1, a0, a1, Ids(seen), KidIds(seen))
    requires Effect(i, h1, h, a1, a, Ids(got), KidIds(got))
    requires Seg(h0, first, -1, p, Append(seen, Append(got, rest')))
    requires Distinct(Append(seen, Append(got, rest')))
    ensures Effect(i, h0, h, a0, a, Ids(seen) + Ids(got), KidIds(seen) + KidIds(got))
  {
    hide Seg; hide Distinct; hide Append; hide Ids; hide KidIds; hide AllDone;
    SplitIds(seen);
    SplitIds(got);
    AppendFacts(seen, Append(got, rest'));
    AppendFacts(got, rest');
    PrefixParents(h0, first, -1, p, seen, Append(got, rest'));
    SegParents(h0, first, -1, p, Append(seen, Append(got, rest')));
    SplitIds(Append(seen, Append(got, rest')));
    DoneBoth(i, a0, a1, a, h0, h1, KidIds(seen), KidIds(got));
  }

  lemma EndChildren(i: Info, h0: Links, h: Links, a0: Attrs, a: Attrs, p: nat, first: int, m: int,
                    seen: Chain, rest: Chain, acc: Chain)
    requires Merging(i, h0, h, a0, a, p, first, m, seen, rest, acc) && m == -1
    ensures Merged(i, h0, h, a0, a, p, Append(seen, rest), acc) && rest.Nil?
  {
    AppendAssoc(seen, Nil, Nil);
  }

  lemma StartFinalize(i: Info, h: Links, a: Attrs, p: nat, q: int, kids: Chain, rest: Chain)
    requires SizedAll(i, a, h) && Seg(h, p, -1, q, Cons(p, kids, rest)) && Distinct(Cons(p, kids, rest))
    ensures p < |h.list| && p < |h.next| && p < |h.parent| && p < |i.sym| && h.parent[p] == q
    ensures Seg(h, h.list[p], -1, p, kids) && Seg(h, h.next[p], -1, q, rest)
    ensures Distinct(kids) && p !in Ids(kids) && Distinct(rest) && p !in Ids(rest) && Ids(kids) !! Ids(rest)
    ensures h.list[p] == -1 <==> kids.Nil?
    ensures kids.Nil? ==> Ready(i, h, h, a, a, p, q, Nil, rest, Nil, Nil, rest)
  {
  }

  lemma ChildrenDone(i: Info, h0: Links, h: Links, a0: Attrs, a1: Attrs, a: Attrs, p: nat, q: int,
                     kids: Chain, rest: Chain, chain: Chain)
    requires SizedAll(i, a0, h0) && Seg(h0, p, -1, q, Cons(p, kids, rest)) && Distinct(Cons(p, kids, rest))
    requires Effect(i, h0, h0, a0, a1, {}, TopIds(kids)) && Merged(i, h0, h, a1, a, p, kids, chain)
    ensures Ready(i, h0, h, a0, a, p, q, kids, rest, chain, Nil, rest)
  {
    hide SizedAll;
    hide SameAttrs;
    hide AllDone;
    hide SameOutside;
    hide Seg;
    hide TidyKids;
    hide Distinct;
    StartFinalize(i, h0, a0, p, q, kids, rest);
    OutsideSized(i, a0, h0, p);
    KidsEffect(i, h0, h, a0, a1, a, p, kids);
    OutsideAt(h0, h, Ids(kids), p);
    SegFrame(h0, h, h0.next[p], -1, q, rest, Ids(kids));
    NothingTaken(p, kids, rest);
  }

  lemma NothingTaken(p: nat, kids: Chain, rest: Chain)
    ensures {p} + Ids(kids) + Ids(Nil) == {p} + Ids(kids) && Ids(kids) + KidIds(Nil) == Ids(kids)
    ensures Preorder(kids) + Preorder(Nil) == Preorder(kids) && rest == Append(Nil, rest)
    ensures Ids(kids) + Ids(Nil) == Ids(kids)
  {
  }

  lemma KidsEffect(i: Info, h0: Links, h: Links, a0: Attrs, a1: Attrs, a: Attrs, p: nat, kids: Chain)
    requires p < |h0.list| && Seg(h0, h0.list[p], -1, p, kids) && Distinct(kids) && p !in Ids(kids)
    requires Effect(i, h0, h0, a0, a1, {}, TopIds(kids)) && Effect(i, h0, h, a1, a, Ids(kids), KidIds(kids))
    ensures Effect(i, h0, h, a0, a, {p} + Ids(kids), Ids(kids))
  {
    SplitIds(kids);
    SegParents(h0, h0.list[p], -1, p, kids);
    hide Done;
    DoneBoth(i, a0, a1, a, h0, h0, TopIds(kids), KidIds(kids));
  }

  lemma OutsideTwice(h0: Links, h1: Links, h: Links, ids: set<nat>, more: set<nat>)
    requires SameOutside(h0, h1, ids) && SameOutside(h1, h, more) && more <= ids
    ensures SameOutside(h0, h, ids)
  {
  }

  lemma ReadyFacts(i: Info, h0: Links, h: Links, a0: Attrs, a: Attrs, p: nat, q: int,
                   kids: Chain, rest: Chain, chain: Chain, taken: Chain, rest': Chain)
    requires Ready(i, h0, h, a0, a, p, q, kids, rest, chain, taken, rest') && Distinct(Cons(p, kids, rest))
    ensures SizedAll(i, a, h) && p < |h.list| && Seg(h, h.list[p], -1, p, chain) && Distinct(chain)
    ensures p !in Ids(chain) && TidyKids(i, chain)
  {
    AppendFacts(taken, rest');
  }

  lemma FlattenDone(i: Info, h0: Links, h1: Links, h: Links, a0: Attrs, a: Attrs, p: nat, q: int,
                    kids: Chain, rest: Chain, chain: Chain, taken: Chain, rest': Chain, out: Chain)
    requires Ready(i, h0, h1, a0, a, p, q, kids, rest, chain, taken, rest') && Distinct(Cons(p, kids, rest))
    requires h0.parent[p] == q && Flattened(i, h1, h, p, chain, out) && SizedAll(i, a, h)
    ensures Finalized(i, h0, h, a0, a, p, q, kids, rest, out, taken, rest')
  {
    hide SizedAll;
    hide SameAttrs;
    hide AllDone;
    hide SameOutside;
    hide Distinct;
    hide Tidy;
    hide TidyKids;
    hide Append; hide Ids;
    ReadyApart(p, kids, rest, chain, taken, rest');
    OutsideTwice(h0, h1, h, {p} + Ids(kids) + Ids(taken), Ids(chain));
    OutsideAt(h1, h, Ids(chain), p);
    TidyAppend(i, out, Nil);
    SegFrame(h1, h, h1.next[p], -1, q, rest', Ids(chain));
  }

  lemma ReadyApart(p: nat, kids: Chain, rest: Chain, chain: Chain, taken: Chain, rest': Chain)
    requires Distinct(Cons(p, kids, rest)) && rest == Append(taken, rest') && Ids(chain) == Ids(kids) + Ids(taken)
    ensures p !in Ids(chain) && p !in Ids(rest') && Ids(chain) !! Ids(rest')
  {
    AppendFacts(taken, rest');
  }

  /** In the loop that makes a submenu: seen are finalized, now below p and forming acc; m
      heads the siblings that remain. */
  ghost predicate Absorbing(i: Info, h0: Links, h: Links, a0: Attrs, a: Attrs, p: nat, q: int, m: int,
                            seen: Chain, rest: Chain, acc: Chain) {
    && p < |h0.list| && p < |h.list| && p < |h0.next| && p < |h.next| && p < |h.parent| && p < |h0.parent|
    && h.list[p] == -1 && h.next[p] == h0.next[p] && h.parent[p] == h0.parent[p]
    && Effect(i, h0, h, a0, a, Ids(seen), KidIds(seen))
    && Seg(h0, h0.next[p], -1, q, Append(seen, rest))
    && Seg(h, h.next[p], m, p, acc) && Seg(h, m, -1, q, rest)
    && Shape(i, p, seen, rest, acc)
  }

  lemma StartAbsorb(i: Info, h0: Links, a0: Attrs, p: nat, q: int, rest: Chain)
    requires SizedAll(i, a0, h0) && p < |h0.list| && h0.list[p] == -1
    requires Seg(h0, h0.next[p], -1, q, rest) && Distinct(rest) && p !in Ids(rest)
    ensures Absorbing(i, h0, h0, a0, a0, p, q, h0.next[p], Nil, rest, Nil)
    ensures p < |a0.cond| && p < |i.sym|
  {
  }

  lemma AbsorbingNext(i: Info, h0: Links, h: Links, a0: Attrs, a: Attrs, p: nat, q: int, m: int,
                      seen: Chain, rest: Chain, acc: Chain)
    requires Absorbing(i, h0, h, a0, a, p, q, m, seen, rest, acc) && m != -1
    ensures rest.Cons? && m == rest.id && m < |a.cond| && m < |a.dep| && m < |h.parent| && m < |h.next|
    ensures SizedAll(i, a, h) && Seg(h, m, -1, q, Cons(rest.id, rest.kids, rest.rest))
    ensures Distinct(Cons(rest.id, rest.kids, rest.rest)) && Count(rest) <= Count(Append(seen, rest))
  {
    AppendFacts(seen, rest);
  }

  /** The test on m looks at what m and p had before the loop. */
  lemma TestedAsBefore(i: Info, h0: Links, h: Links, a0: Attrs, a: Attrs, p: nat, q: int, m: int,
                       seen: Chain, rest: Chain, acc: Chain)
    requires Absorbing(i, h0, h, a0, a, p, q, m, seen, rest, acc) && m != -1
    ensures rest.Cons? && m == rest.id && m < |a.cond| && m < |a.dep| && m < |a0.cond| && m < |a0.dep|
    ensures a.cond[m] == a0.cond[m] && a.dep[m] == a0.dep[m]
  {
    hide AllDone; hide SameOutside;
    AppendFacts(seen, rest);
    SplitIds(seen);
  }

  lemma AbsorbedAll(i: Info, h0: Links, h: Links, a0: Attrs, a: Attrs, p: nat, q: int, m: int,
                    seen: Chain, rest: Chain, acc: Chain)
    requires Absorbing(i, h0, h, a0, a, p, q, m, seen, rest, acc) && m == -1
    ensures rest.Nil?
  {
  }

  lemma NothingYet(i: Info, a: Attrs, p: nat, rest: Chain, log: seq<nat>)
    ensures AllPass(i, a, p, TopIds(Nil)) && rest == Append(Nil, rest) && log == log + Preorder(Nil)
  {
  }

  lemma LogStep(log: seq<nat>, a: seq<nat>, x: seq<nat>, k: seq<nat>, t: seq<nat>)
    ensures log + a + x + k + t == log + (a + x + k + t)
  {
    assert log + a + x == log + (a + x);
    assert log + a + x + k == log + (a + x + k);
  }

  lemma MorePass(i: Info, a: Attrs, p: nat, acc: Chain, m: nat, k: Chain)
    requires AllPass(i, a, p, TopIds(acc)) && Passes(i, a, p, m)
    ensures AllPass(i, a, p, TopIds(Append(acc, One(m, k))))
  {
    TidyAppend(i, acc, One(m, k));
    assert TopIds(One(m, k)) == {m} + TopIds(Nil);
  }

  /** The node m and its siblings after m was finalized, and after it was put below p. */
  lemma MoveBelow(h: Links, m: nat, p: int, q: int, k: Chain, r: Chain)
    requires Seg(h, m, -1, q, Cons(m, k, r)) && Distinct(Cons(m, k, r))
    ensures m < |h.parent| && m < |h.next|
    ensures Seg(WithParent(h, m, p), m, h.next[m], p, One(m, k))
    ensures Seg(WithParent(h, m, p), h.next[m], -1, q, r)
  {
    var h' := WithParent(h, m, p);
    SegFrame(h, h', h.list[m], -1, m, k, {m});
    SegFrame(h, h', h.next[m], -1, q, r, {m});
    assert Seg(h', h.next[m], h.next[m], p, Nil);
  }

  lemma AbsorbingStep(i: Info, h0: Links, h1: Links, h2: Links, a0: Attrs, a1: Attrs, a: Attrs, p: nat, q: int, m: nat,
                      seen: Chain, rest: Chain, acc: Chain, k: Chain, taken: Chain, r: Chain)
    requires Absorbing(i, h0, h1, a0, a1, p, q, m, seen, rest, acc) && rest.Cons? && rest.id == m
    requires Finalized(i, h1, h2, a1, a, m, q, rest.kids, rest.rest, k, taken, r)
    ensures m < |h2.parent| && m < |h2.next|
    ensures var h := WithParent(h2, m, p);
            var seen' := Append(seen, Cons(m, rest.kids, taken));
            && Absorbing(i, h0, h, a0, a, p, q, h.next[m], seen', r, Append(acc, One(m, k)))
            && Append(seen', r) == Append(seen, rest)
            && Preorder(seen') == Preorder(seen) + [m] + Preorder(rest.kids) + Preorder(taken)
    ensures Count(r) < Count(rest) && Append(acc, One(m, k)).Cons? && Last(Append(acc, One(m, k))) == m
  {
    hide SizedAll;
    hide SameAttrs;
    hide AllDone;
    hide SameOutside;
    hide Seg;
    hide Tidy;
    hide Shape;
    hide NewShape;
    hide Append;
    hide Ids;
    var got := Cons(m, rest.kids, taken);
    var ids := {m} + Ids(rest.kids) + Ids(taken);
    ShapeStep(i, p, m, seen, rest.kids, rest.rest, acc, k, taken, r);
    MoveBelow(h2, m, p, q, k, r);
    var h := WithParent(h2, m, p);
    MovedEffect(i, h1, h2, a1, a, m, p, ids, Ids(rest.kids) + KidIds(taken));
    OutsideSized(i, a1, h1, p);
    OutsideAt(h1, h, ids, p);
    SegFrame(h1, h, h1.next[p], m, p, acc, ids);
    SegAppend(h, h.next[p], m, h.next[m], p, acc, One(m, k));
    ShapeDistinct(i, p, seen, rest, acc);
    MergingEffect(i, h0, h1, h, a0, a1, a, q, h0.next[p], seen, got, r);
    LastOfAppend(acc, One(m, k));
  }

  lemma MovedEffect(i: Info, h0: Links, h: Links, a0: Attrs, a: Attrs, m: nat, p: int, links: set<nat>, attrs: set<nat>)
    requires Effect(i, h0, h, a0, a, links, attrs) && m in links && m < |h.parent|
    ensures Effect(i, h0, WithParent(h, m, p), a0, a, links, attrs)
  {
    hide AllDone;
    hide SameAttrs;
  }

  lemma {:induction false} LastOfAppend(a: Chain, b: Chain)
    requires b.Cons?
    ensures Append(a, b).Cons? && Last(Append(a, b)) == Last(b)
  {
    match a
    case Nil =>
    case Cons(_, _, rest) => LastOfAppend(rest, b);
  }

  /** Where the loop stops: nothing was absorbed, or what was stands ready to be spliced. */
  lemma AbsorbingEnd(i: Info, h0: Links, h1: Links, a0: Attrs, a: Attrs, p: nat, q: int, m: int,
                     taken: Chain, rest': Chain, acc: Chain)
    requires Absorbing(i, h0, h1, a0, a, p, q, m, taken, rest', acc)
    ensures p < |h1.list| && p < |h1.next|
    ensures acc.Nil? ==> Ready(i, h0, h1, a0, a, p, q, Nil, Append(taken, rest'), acc, taken, rest')
    ensures acc.Cons? ==> Last(acc) < |h1.next| && Seg(h1, h1.next[p], m, p, acc) && Seg(h1, m, -1, q, rest')
    ensures Distinct(acc) && p !in Ids(acc) && p !in Ids(rest') && Ids(acc) !! Ids(rest')
  {
    hide SizedAll;
    hide SameAttrs;
    hide AllDone;
    hide SameOutside;
    hide TidyKids;
    hide Seg;
    hide Distinct;
    hide Append;
    AppendFacts(taken, rest');
    AbsorbedShape(i, p, taken, rest', acc);
    if acc.Cons? {
      SegEnd(h1, h1.next[p], m, p, acc);
    } else {
      OutsideNothing(h1, {p, p});
      SplicedEffect(i, h0, h1, h1, a0, a, p, p, Ids(taken), KidIds(taken));
      SegNil(h1, h1.next[p], m, p, acc);
      EmptySeg(h1, p);
    }
  }

  /** After the splice: p has the absorbed entries as children and the rest as its siblings. */
  lemma AbsorbingDone(i: Info, h0: Links, h1: Links, h: Links, a0: Attrs, a: Attrs, p: nat, q: int, m: int,
                      taken: Chain, rest': Chain, acc: Chain)
    requires Absorbing(i, h0, h1, a0, a, p, q, m, taken, rest', acc) && acc.Cons?
    requires SameOutside(h1, h, {p, Last(acc)}) && h.parent == h1.parent && p < |h.list| && p < |h.next|
    requires Seg(h, h.list[p], -1, p, acc) && Seg(h, h.next[p], -1, q, rest')
    ensures Ready(i, h0, h, a0, a, p, q, Nil, Append(taken, rest'), acc, taken, rest')
  {
    hide SizedAll;
    hide SameAttrs;
    hide AllDone;
    hide TidyKids;
    hide Seg;
    hide Distinct;
    hide Append;
    AppendFacts(taken, rest');
    AbsorbedShape(i, p, taken, rest', acc);
    LastInIds(acc);
    SplicedEffect(i, h0, h1, h, a0, a, p, Last(acc), Ids(taken), KidIds(taken));
    hide SameOutside;
  }

  /** The three writes of the splice, on the two chains. */
  lemma SplicedSegs(h: Links, p: nat, m: int, q: int, acc: Chain, rest: Chain)
    requires p < |h.list| && p < |h.next| && acc.Cons? && Last(acc) < |h.next|
    requires Seg(h, h.next[p], m, p, acc) && Seg(h, m, -1, q, rest)
    requires Distinct(acc) && p !in Ids(acc) && p !in Ids(rest) && Ids(acc) !! Ids(rest)
    ensures var k := Spliced(h, p, Last(acc));
            Seg(k, k.list[p], -1, p, acc) && Seg(k, k.next[p], -1, q, rest)
  {
    hide SameOutside; hide Seg; hide Distinct; hide Ids;
    var l := Last(acc);
    LastInIds(acc);
    SegRedirect(h, h.next[p], m, p, acc, -1);
    SegEnd(h, h.next[p], m, p, acc);
    var k := Spliced(h, p, l);
    SplicedOutside(h, p, l);
    SegFrame(h.(next := h.next[l := -1]), k, h.next[p], -1, p, acc, {p});
    SegFrame(h, k, m, -1, q, rest, {p, l});
  }

  lemma SegNil(h: Links, p: int, end: int, q: int, c: Chain)
    requires Seg(h, p, end, q, c) && c.Nil?
    ensures p == end
  {
  }

  lemma OutsideNothing(h: Links, ids: set<nat>)
    ensures SameOutside(h, h, ids)
  {
  }

  lemma EmptySeg(h: Links, q: int)
    ensures Seg(h, -1, -1, q, Nil)
  {
  }

  lemma AbsorbedShape(i: Info, p: nat, taken: Chain, rest: Chain, acc: Chain)
    requires Shape(i, p, taken, rest, acc)
    ensures NewShape(i, Nil, Append(taken, rest), acc, taken, rest)
    ensures Ids(acc) == Ids(taken) && Distinct(acc) && p !in Ids(taken) && p !in Ids(rest) && Ids(taken) !! Ids(rest)
    ensures {p} + Ids(Nil) + Ids(taken) == {p} + Ids(taken) && Ids(Nil) + KidIds(taken) == KidIds(taken)
    ensures acc.Nil? <==> taken.Nil?
  {
    AppendFacts(taken, rest);
  }

  lemma SplicedOutside(h: Links, p: nat, last: nat)
    requires p < |h.list| && p < |h.next| && last < |h.next|
    ensures SameOutside(h, Spliced(h, p, last), {p, last})
    ensures SameOutside(h.(next := h.next[last := -1]), Spliced(h, p, last), {p})
  {
  }

  lemma SplicedEffect(i: Info, h0: Links, h1: Links, h: Links, a0: Attrs, a: Attrs, p: nat, last: nat,
                      ids: set<nat>, attrs: set<nat>)
    requires Effect(i, h0, h1, a0, a, ids, attrs) && SameOutside(h1, h, {p, last})
    requires last in ids || last == p
    ensures Effect(i, h0, h, a0, a, {p} + ids, attrs)
  {
    hide AllDone;
    hide SameAttrs;
  }

  function Spliced(h: Links, p: nat, last: nat): Links
    requires p < |h.list| && p < |h.next| && last < |h.next|
  {
    Links(h.list[p := h.next[p]], h.next[p := h.next[last]][last := -1], h.parent)
  }

  lemma {:induction false} SegEnd(h: Links, p: int, end: int, q: int, c: Chain)
    requires Seg(h, p, end, q, c) && c.Cons?
    ensures Last(c) < |h.next| && h.next[Last(c)] == end
    decreases c
  {
    if c.rest.Cons? { SegEnd(h, h.next[c.id], end, q, c.rest); }
  }

  function WithParent(h: Links, n: nat, p: int): Links
    requires n < |h.parent|
  {
    h.(parent := h.parent[n := p])
  }

  ghost predicate Flattened(i: Info, h0: Links, h: Links, p: nat, chain: Chain, out: Chain) {
    && p < |h.list| && SameOutside(h0, h, Ids(chain))
    && Seg(h, h.list[p], -1, p, out)
    && Preorder(out) == Preorder(chain) && Ids(out) == Ids(chain) && Distinct(out) && Tidy(i, out)
  }

  /** In the flattening loop: done is finished, m heads what is left. */
  ghost predicate Flattening(i: Info, h0: Links, h: Links, p: nat, m: int, chain: Chain, done: Chain, rest: Chain) {
    && p < |h.list| && p !in Ids(chain) && SameOutside(h0, h, Ids(chain))
    && Seg(h, h.list[p], m, p, done) && Seg(h, m, -1, p, rest)
    && Preorder(done) + Preorder(rest) == Preorder(chain)
    && Ids(done) + Ids(rest) == Ids(chain)
    && Distinct(Append(done, rest)) && Tidy(i, done) && TidyKids(i, rest)
  }

  lemma StartFlatten(i: Info, a: Attrs, h0: Links, p: nat, chain: Chain)
    requires SizedAll(i, a, h0) && p < |h0.list| && Seg(h0, h0.list[p], -1, p, chain) && Distinct(chain)
    requires p !in Ids(chain) && TidyKids(i, chain)
    ensures Flattening(i, h0, h0, p, h0.list[p], chain, Nil, chain)
  {
  }

  lemma FlatteningNext(i: Info, a: Attrs, h0: Links, h: Links, p: nat, m: int, chain: Chain, done: Chain, rest: Chain)
    requires Flattening(i, h0, h, p, m, chain, done, rest) && m != -1 && SizedAll(i, a, h)
    ensures rest.Cons? && m == rest.id && m < |i.text| && m < |h.list| && m < |h.next| && m < |h.parent|
    ensures Sized(h, |h.list|) && Distinct(rest.kids) && Seg(h, h.list[m], -1, m, rest.kids)
    ensures h.list[m] == -1 <==> rest.kids.Nil?
    ensures h.list[m] != -1 ==> h.list[m] >= 0
  {
    AppendFacts(done, rest);
  }

  /** last_menu->next = menu->next; menu->next = menu->list; menu->list = NULL */
  function Hoisted(h: Links, m: nat, last: nat): Links
    requires m < |h.list| && m < |h.next| && last < |h.next|
  {
    var next := h.next[last := h.next[m]];
    Links(h.list[m := -1], next[m := h.list[m]], h.parent)
  }

  lemma HoistStep(i: Info, a: Attrs, h0: Links, h1: Links, h2: Links, p: nat, m: nat, last: nat,
                  chain: Chain, done: Chain, rest: Chain)
    requires Flattening(i, h0, h1, p, m, chain, done, rest) && rest.Cons? && m == rest.id && rest.kids.Cons?
    requires m < |h1.list| && m < |h1.next| && SizedAll(i, a, h1)
    requires h2.list == h1.list && h2.next == h1.next && SameOutside(h1, h2, TopIds(rest.kids))
    requires Seg(h2, h1.list[m], -1, p, rest.kids) && last == Last(rest.kids)
    ensures last < |h2.next| && SizedAll(i, a, Hoisted(h2, m, last))
    ensures Flattening(i, h0, Hoisted(h2, m, last), p, m, chain, done, Cons(m, Nil, Append(rest.kids, rest.rest)))
    ensures Count(Cons(m, Nil, Append(rest.kids, rest.rest))) == Count(rest)
  {
    hide TidyKids;
    hide Tidy;
    hide Append;
    hide Distinct;
    hide KidIds;
    hide Preorder;
    hide Count;
    hide Ids;
    hide Seg;
    hide SizedAll;
    var kids, r := rest.kids, rest.rest;
    var rest' := Cons(m, Nil, Append(kids, r));
    LastInIds(kids);
    HoistShape(i, m, done, kids, r);
    SegCons(h1, -1, p, m, kids, r);
    HoistSized(i, a, h1, h2, m, last);
    SegRedirect(h2, h1.list[m], -1, p, kids, h1.next[m]);
    var h3 := h2.(next := h2.next[last := h1.next[m]]);
    var h := Hoisted(h2, m, last);
    SegFrame(h3, h, h1.list[m], h1.next[m], p, kids, {m});
    SegFrame(h1, h, h1.next[m], -1, p, r, {m} + Ids(kids));
    SegAppend(h, h1.list[m], h1.next[m], -1, p, kids, r);
    SegFrame(h1, h, h1.list[p], m, p, done, {m} + Ids(kids));
    EmptySeg(h, m);
    SegCons(h, -1, p, m, Nil, Append(kids, r));
  }

  lemma SegCons(h: Links, end: int, q: int, m: nat, kids: Chain, r: Chain)
    ensures Seg(h, m, end, q, Cons(m, kids, r)) <==>
            && m < |h.list| && m < |h.next| && m < |h.parent| && h.parent[m] == q
            && Seg(h, h.list[m], -1, m, kids) && Seg(h, h.next[m], end, q, r)
  {
  }

  lemma HoistSized(i: Info, a: Attrs, h1: Links, h2: Links, m: nat, last: nat)
    requires SizedAll(i, a, h1) && h2.list == h1.list && h2.next == h1.next && |h2.parent| == |h1.parent|
    requires m < |h1.list|
    ensures m < |h2.next|
    ensures last < |h2.next| ==> SizedAll(i, a, Hoisted(h2, m, last))
  {
  }

  /** Document order does not change when children become the next siblings. */
  lemma HoistShape(i: Info, m: nat, done: Chain, kids: Chain, r: Chain)
    requires Distinct(Append(done, Cons(m, kids, r))) && TidyKids(i, Cons(m, kids, r))
    ensures var rest, rest' := Cons(m, kids, r), Cons(m, Nil, Append(kids, r));
            && Preorder(rest') == Preorder(rest) && Ids(rest') == Ids(rest) && Count(rest') == Count(rest)
            && Distinct(Append(done, rest')) && TidyKids(i, rest')
            && Ids(rest) == {m} + Ids(kids) + Ids(r) && Ids(done) !! Ids(rest)
    ensures Distinct(kids) && m !in Ids(kids) && m !in Ids(r) && Ids(kids) !! Ids(r) && TopIds(kids) <= Ids(kids)
  {
    hide Ids;
    hide TopIds;
    hide KidIds;
    hide Distinct;
    hide Preorder;
    hide Count;
    hide Append;
    SplitIds(kids);
    AppendFacts(done, Cons(m, kids, r));
    AppendFacts(kids, r);
    AppendFacts(done, Cons(m, Nil, Append(kids, r)));
    ConsFacts(m, kids, r);
    ConsFacts(m, Nil, Append(kids, r));
    TidyAppend(i, kids, r);
    assert [m] + [] + (Preorder(kids) + Preorder(r)) == [m] + Preorder(kids) + Preorder(r);
  }

  lemma KeepStep(i: Info, a: Attrs, h0: Links, h: Links, p: nat, m: nat, chain: Chain, done: Chain, rest: Chain)
    requires Flattening(i, h0, h, p, m, chain, done, rest) && rest.Cons? && m == rest.id && SizedAll(i, a, h)
    requires rest.kids.Cons? ==> m < |i.text| && i.text[m]
    ensures m < |h.next|
    ensures Flattening(i, h0, h, p, h.next[m], chain, Append(done, One(m, rest.kids)), rest.rest)
    ensures Count(rest.rest) < Count(rest)
  {
    hide Distinct; hide TidyKids; hide Tidy; hide Ids; hide SizedAll; hide SameOutside; hide Append; hide Preorder; hide Count;
    KeepSeg(h, p, m, done, rest);
    KeepShape(i, m, done, rest);
  }

  lemma KeepSeg(h: Links, p: nat, m: nat, done: Chain, rest: Chain)
    requires p < |h.list| && rest.Cons? && m == rest.id && Seg(h, h.list[p], m, p, done) && Seg(h, m, -1, p, rest)
    ensures m < |h.next| && Seg(h, h.list[p], h.next[m], p, Append(done, One(m, rest.kids)))
    ensures Seg(h, h.next[m], -1, p, rest.rest)
  {
    hide Append;
    assert Seg(h, h.next[m], h.next[m], p, Nil);
    SegAppend(h, h.list[p], m, h.next[m], p, done, One(m, rest.kids));
  }

  lemma KeepShape(i: Info, m: nat, done: Chain, rest: Chain)
    requires rest.Cons? && m == rest.id && Tidy(i, done) && TidyKids(i, rest)
    requires rest.kids.Cons? ==> m < |i.text| && i.text[m]
    ensures var one := One(m, rest.kids);
            && Append(Append(done, one), rest.rest) == Append(done, rest)
            && Preorder(Append(done, one)) + Preorder(rest.rest) == Preorder(done) + Preorder(rest)
            && Ids(Append(done, one)) + Ids(rest.rest) == Ids(done) + Ids(rest)
            && Tidy(i, Append(done, one)) && TidyKids(i, rest.rest) && Count(rest.rest) < Count(rest)
  {
    hide Distinct; hide KidIds; hide Ids; hide Preorder; hide Append; hide Count; hide TopIds;
    var one := One(m, rest.kids);
    SplitFirst(rest);
    AppendFacts(one, rest.rest);
    TidyAppend(i, one, rest.rest);
    AppendFacts(done, one);
    AppendAssoc(done, one, rest.rest);
    TidyAppend(i, done, one);
    assert Preorder(done) + Preorder(rest) == Preorder(done) + Preorder(one) + Preorder(rest.rest);
  }

  lemma SplitFirst(c: Chain)
    requires c.Cons?
    ensures Append(One(c.id, c.kids), c.rest) == c && Count(One(c.id, c.kids)) > 0
  {
  }

  lemma EndFlatten(i: Info, h0: Links, h: Links, p: nat, m: int, chain: Chain, done: Chain, rest: Chain)
    requires Flattening(i, h0, h, p, m, chain, done, rest) && m == -1
    ensures Flattened(i, h0, h, p, chain, done) && rest.Nil?
  {
    AppendAssoc(done, Nil, Nil);
    assert rest.Nil? && Preorder(done) + [] == Preorder(done);
  }

  ghost predicate Adopting(h0: Links, h: Links, first: int, last: int, m: int, p: int, kids: Chain, seen: Chain, rest: Chain) {
    && kids == Append(seen, rest) && rest.Cons? && last == rest.id && Distinct(kids)
    && Sized(h, |h0.list|) && h.list == h0.list && h.next == h0.next && SameOutside(h0, h, TopIds(seen))
    && Seg(h, first, last, p, seen) && Seg(h, last, -1, m, rest)
  }

  lemma StartAdopt(h0: Links, first: int, m: int, p: int, kids: Chain)
    requires kids.Cons? && Seg(h0, first, -1, m, kids) && Distinct(kids) && Sized(h0, |h0.list|)
    ensures Adopting(h0, h0, first, first, m, p, kids, Nil, kids)
  {
  }

  lemma AdoptStep(h0: Links, h: Links, first: int, last: int, m: int, p: int, kids: Chain, seen: Chain, rest: Chain)
    requires Adopting(h0, h, first, last, m, p, kids, seen, rest)
    ensures rest.Cons? && last == rest.id && last < |h.parent| && last < |h.next|
    ensures h.next[last] != -1 ==> h.next[last] >= 0
    ensures var h' := WithParent(h, last, p);
            if h.next[last] == -1
            then Sized(h', |h0.list|) && SameOutside(h0, h', TopIds(kids)) && Seg(h', first, -1, p, kids) && last == Last(kids)
            else Adopting(h0, h', first, h.next[last], m, p, kids, Append(seen, One(rest.id, rest.kids)), rest.rest)
  {
    var one := One(rest.id, rest.kids);
    var h' := WithParent(h, last, p);
    AppendFacts(seen, rest);
    AppendAssoc(seen, one, rest.rest);
    TopAppend(seen, one);
    SegFrame(h, h', first, last, p, seen, {rest.id});
    MoveBelow(h, rest.id, p, m, rest.kids, rest.rest);
    SegAppend(h', first, last, h.next[last], p, seen, one);
    if rest.rest.Nil? { LastOfAppend(seen, one); }
  }

  lemma {:induction false} TopAppend(a: Chain, b: Chain)
    ensures TopIds(Append(a, b)) == TopIds(a) + TopIds(b)
  {
    match a
    case Nil =>
    case Cons(_, _, rest) => TopAppend(rest, b);
  }
}
