/** The loop of conf_write in support/kconfig/confdata.c: a walk over the menu tree by list,
    next and parent pointers, without a stack. */
module MenuWalk {
  import opened MenuLinks

  /** What the walk has still to visit outside the current chain: the siblings that follow
      each enclosing node, innermost first. */
  datatype Frame = Frame(node: nat, rest: Chain)

  ghost predicate Frames(h: Links, q: int, fs: seq<Frame>)
    decreases |fs|
  {
    if fs == [] then q == -1
    else
      && q == fs[0].node && q < |h.next| && q < |h.parent|
      && Seg(h, h.next[q], -1, h.parent[q], fs[0].rest)
      && Frames(h, h.parent[q], fs[1..])
  }

  /** m is the first node of the chain cur, inside the frames fs. */
  ghost predicate At(h: Links, m: int, cur: Chain, fs: seq<Frame>) {
    && cur.Cons? && m == cur.id && cur.id < |h.parent|
    && Seg(h, m, -1, h.parent[cur.id], cur)
    && Frames(h, h.parent[cur.id], fs)
  }

  ghost function Pending(fs: seq<Frame>): seq<nat> {
    if fs == [] then [] else Preorder(fs[0].rest) + Pending(fs[1..])
  }

  /** The three ways on from a node: to its children, to its sibling, or up. */
  lemma StepDown(h: Links, m: int, cur: Chain, fs: seq<Frame>)
    requires At(h, m, cur, fs)
    ensures cur.Cons? && m == cur.id && cur.id < |h.list| && cur.id < |h.next| && cur.id < |h.parent|
    ensures Frames(h, h.parent[cur.id], fs)
    ensures h.list[m] == -1 <==> cur.kids.Nil?
    ensures h.next[m] == -1 <==> cur.rest.Nil?
    ensures h.list[m] != -1 ==> At(h, h.list[m], cur.kids, [Frame(cur.id, cur.rest)] + fs)
    ensures h.next[m] != -1 ==> At(h, h.next[m], cur.rest, fs)
    ensures Pending([Frame(cur.id, cur.rest)] + fs) == Preorder(cur.rest) + Pending(fs)
  {
    assert Seg(h, h.list[m], -1, m, cur.kids) && Seg(h, h.next[m], -1, h.parent[m], cur.rest);
    assert ([Frame(cur.id, cur.rest)] + fs)[1..] == fs;
  }

  /** Visits the tree below root. The root itself, which has neither parent nor siblings, is
      not visited. */
  method Walk(h: Links, root: nat, ghost kids: Chain) returns (visited: seq<nat>)
    requires Seg(h, root, -1, -1, One(root, kids))
    ensures visited == Preorder(kids)
    ensures Distinct(kids) ==> NoRepeat(visited)
  {
    hide Seg;
    hide Frames;
    hide At;
    PreorderOnce(kids);
    StartWalk(h, root, kids);
    visited := [];
    var m := h.list[root];
    ghost var cur, fs := kids, [Frame(root, Nil)];
    if m == -1 {
      return;
    }
    while true
      invariant At(h, m, cur, fs)
      invariant visited + Preorder(cur) + Pending(fs) == Preorder(kids)
      decreases |Preorder(kids)| - |visited|
    {
      StepDown(h, m, cur, fs);
      OrderStep(visited, cur, fs);
      visited := visited + [m];
      if h.list[m] != -1 {
        m, cur, fs := h.list[m], cur.kids, [Frame(m, cur.rest)] + fs;
      } else if h.next[m] != -1 {
        m, cur := h.next[m], cur.rest;
      } else {
        m, cur, fs := Climb(h, h.parent[m], fs);
        if m == -1 { return; }
      }
    }
  }

  lemma StartWalk(h: Links, root: nat, kids: Chain)
    requires Seg(h, root, -1, -1, One(root, kids))
    ensures root < |h.list| && (h.list[root] == -1 <==> kids.Nil?)
    ensures kids.Cons? ==> At(h, h.list[root], kids, [Frame(root, Nil)])
    ensures Pending([Frame(root, Nil)]) == []
  {
    assert [Frame(root, Nil)][1..] == [];
    assert Seg(h, h.list[root], -1, root, kids) && Seg(h, h.next[root], -1, -1, Nil);
  }

  lemma OrderStep(visited: seq<nat>, cur: Chain, fs: seq<Frame>)
    requires cur.Cons?
    ensures visited + Preorder(cur) + Pending(fs) ==
            visited + [cur.id] + Preorder(cur.kids) + (Preorder(cur.rest) + Pending(fs))
    ensures cur.kids.Nil? ==>
              visited + Preorder(cur) + Pending(fs) == visited + [cur.id] + Preorder(cur.rest) + Pending(fs)
    ensures cur.kids.Nil? && cur.rest.Nil? ==>
              visited + Preorder(cur) + Pending(fs) == visited + [cur.id] + Pending(fs)
  {
    Regroup(visited, [cur.id], Preorder(cur.kids), Preorder(cur.rest), Pending(fs));
  }

  lemma Regroup(v: seq<nat>, x: seq<nat>, a: seq<nat>, b: seq<nat>, p: seq<nat>)
    ensures v + (x + a + b) + p == v + x + a + (b + p)
    ensures a == [] ==> v + (x + a + b) + p == v + x + b + p
    ensures a == [] && b == [] ==> v + (x + a + b) + p == v + x + p
  {
    assert v + (x + a + b) == v + x + a + b;
    assert v + x + a + b + p == v + x + a + (b + p);
  }

  /** `while ((menu = menu->parent)) if (menu->next) ...`: up to the first node with a sibling
      still to visit. */
  method Climb(h: Links, start: int, ghost fs0: seq<Frame>) returns (m: int, ghost cur: Chain, ghost fs: seq<Frame>)
    requires Frames(h, start, fs0)
    ensures m == -1 ==> Pending(fs0) == []
    ensures m != -1 ==> At(h, m, cur, fs)
    ensures m != -1 ==> Pending(fs0) == Preorder(cur) + Pending(fs)
  {
    fs, cur := fs0, Nil;
    m := start;
    while m != -1
      invariant Frames(h, m, fs) && Pending(fs) == Pending(fs0)
      decreases |fs|
    {
      if h.next[m] != -1 {
        cur := fs[0].rest;
        return h.next[m], cur, fs[1..];
      }
      m, fs := h.parent[m], fs[1..];
    }
  }
}
