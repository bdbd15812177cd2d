/** Where the last loop of menu_finalize, support/kconfig/menu.c, leaves every node. */
module MenuShape {
  import opened MenuLinks
  import opened MenuFinalize

  /** The parent of n in a chain of siblings below q. */
  function ParentIn(c: Chain, q: int, n: nat): int {
    match c
    case Nil => q
    case Cons(id, kids, rest) => if n in Ids(kids) then ParentIn(kids, id, n) else if n == id then q else ParentIn(rest, q, n)
  }

  lemma {:induction false} ParentLinked(h: Links, p: int, end: int, q: int, c: Chain, n: nat)
    requires Seg(h, p, end, q, c) && Distinct(c) && n in Ids(c)
    ensures n < |h.parent| && h.parent[n] == ParentIn(c, q, n)
    decreases c
  {
    if n in Ids(c.kids) {
      ParentLinked(h, h.list[c.id], -1, c.id, c.kids, n);
    } else if n != c.id {
      ParentLinked(h, h.next[c.id], end, q, c.rest, n);
    }
  }

  /** A node without a prompt text. */
  predicate Textless(i: Info, o: int) { 0 <= o < |i.text| && !i.text[o] }

  lemma {:induction false} ParentAppend(a: Chain, b: Chain, q: int, n: nat)
    requires Distinct(Append(a, b))
    ensures ParentIn(Append(a, b), q, n) == if n in Ids(a) then ParentIn(a, q, n) else ParentIn(b, q, n)
  {
    AppendFacts(a, b);
    if a.Cons? { ParentAppend(a.rest, b, q, n); }
  }

  /** Below the first level of a tidy chain parents have a text. */
  lemma {:induction false} ParentHasText(i: Info, c: Chain, q: int, o: int, n: nat)
    requires Tidy(i, c) && Distinct(c) && n in Ids(c)
    ensures (ParentIn(c, q, n) == q && ParentIn(c, o, n) == o) || (ParentIn(c, q, n) == ParentIn(c, o, n) && !Textless(i, ParentIn(c, q, n)))
    decreases c
  {
    if n in Ids(c.kids) {
      ParentHasText(i, c.kids, c.id, c.id, n);
    } else if n != c.id {
      ParentHasText(i, c.rest, q, o, n);
    }
  }

  lemma {:induction false} TidyBelow(i: Info, c: Chain)
    requires Tidy(i, c)
    ensures TidyKids(i, c)
  {
    if c.Cons? { TidyBelow(i, c.rest); }
  }

  lemma {:induction false} FlatIds(i: Info, c: Chain)
    ensures Ids(Flat(i, c)) == Ids(c)
    decreases Count(c)
  {
    if c.Cons? {
      AppendFacts(c.kids, c.rest);
      if c.kids.Cons? && Textless(i, c.id) { FlatIds(i, Append(c.kids, c.rest)); } else { FlatIds(i, c.rest); }
    }
  }

  lemma {:induction false} FlatParent(i: Info, c: Chain, q: int, n: nat)
    requires Distinct(c) && TidyKids(i, c) && n in Ids(c) && q !in Ids(c)
    ensures ParentIn(Flat(i, c), q, n) == var o := ParentIn(c, q, n); if Textless(i, o) then q else o
    decreases Count(c)
  {
    var (id, kids, rest) := (c.id, c.kids, c.rest);
    AppendFacts(kids, rest);
    if kids.Cons? && Textless(i, id) {
      FlatIds(i, Append(kids, rest));
      if n != id {
        TidyBelow(i, kids);
        TidyAppend(i, kids, rest);
        FlatParent(i, Append(kids, rest), q, n);
        ParentAppend(kids, rest, q, n);
        if n in Ids(kids) { ParentHasText(i, kids, id, q, n); }
      }
    } else {
      FlatIds(i, rest);
      if n in Ids(kids) {
        ParentHasText(i, kids, id, id, n);
      } else if n != id {
        FlatParent(i, rest, q, n);
      }
    }
  }

  /** The children of node q before and after the loop: a node whose parent has no prompt text
      goes up to q, and every other node stays where it is. The nodes keep their order. */
  lemma FlattenedParents(i: Info, h0: Links, h: Links, q: nat, c: Chain, n: nat)
    requires q < |h0.list| && Seg(h0, h0.list[q], -1, q, c) && Distinct(c) && TidyKids(i, c) && q !in Ids(c)
    requires Flattened(i, h0, h, q, c, Flat(i, c)) && n in Ids(c)
    ensures n < |h0.parent| && n < |h.parent|
    ensures h.parent[n] == if Textless(i, h0.parent[n]) then q else h0.parent[n]
    ensures Preorder(Flat(i, c)) == Preorder(c)
  {
    hide Flat; hide Seg;
    ParentLinked(h0, h0.list[q], -1, q, c, n);
    ParentLinked(h, h.list[q], -1, q, Flat(i, c), n);
    FlatParent(i, c, q, n);
  }
}
