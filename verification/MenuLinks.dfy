/** The linked menu tree of support/kconfig: list, next and parent pointers, and the ordered
    tree they stand for. A node is a number, -1 is NULL. */
module MenuLinks {

  datatype Links = Links(list: seq<int>, next: seq<int>, parent: seq<int>)

  /** A chain of siblings: a first node with its children, and the siblings after it. */
  datatype Chain = Nil | Cons(id: nat, kids: Chain, rest: Chain)

  predicate Sized(h: Links, n: nat) { |h.list| == n && |h.next| == n && |h.parent| == n }

  /** Document order. */
  function Preorder(c: Chain): seq<nat> {
    match c
    case Nil => []
    case Cons(id, kids, rest) => [id] + Preorder(kids) + Preorder(rest)
  }

  function Ids(c: Chain): set<nat> {
    match c
    case Nil => {}
    case Cons(id, kids, rest) => {id} + Ids(kids) + Ids(rest)
  }

  /** No node occurs twice. */
  predicate Distinct(c: Chain) {
    match c
    case Nil => true
    case Cons(id, kids, rest) =>
      && id !in Ids(kids) && id !in Ids(rest) && Ids(kids) !! Ids(rest)
      && Distinct(kids) && Distinct(rest)
  }

  function Count(c: Chain): nat {
    match c
    case Nil => 0
    case Cons(_, kids, rest) => 1 + Count(kids) + Count(rest)
  }

  function Append(a: Chain, b: Chain): Chain {
    match a
    case Nil => b
    case Cons(id, kids, rest) => Cons(id, kids, Append(rest, b))
  }

  function One(id: nat, kids: Chain): Chain { Cons(id, kids, Nil) }

  /** The pointers from p up to (not including) end stand for c, under parent q. */
  predicate Seg(h: Links, p: int, end: int, q: int, c: Chain)
    decreases c
  {
    match c
    case Nil => p == end
    case Cons(id, kids, rest) =>
      && p == id && id < |h.list| && id < |h.next| && id < |h.parent|
      && h.parent[id] == q
      && Seg(h, h.list[id], -1, id, kids)
      && Seg(h, h.next[id], end, q, rest)
  }

  /** h and k agree on the pointers of every node outside ids. */
  predicate SameOutside(h: Links, k: Links, ids: set<nat>) {
    && |k.list| == |h.list| && |k.next| == |h.next| && |k.parent| == |h.parent|
    && (forall i: nat :: i < |h.list| && i !in ids ==> k.list[i] == h.list[i])
    && (forall i: nat :: i < |h.next| && i !in ids ==> k.next[i] == h.next[i])
    && (forall i: nat :: i < |h.parent| && i !in ids ==> k.parent[i] == h.parent[i])
  }

  lemma {:induction false} SegFrame(h: Links, k: Links, p: int, end: int, q: int, c: Chain, ids: set<nat>)
    requires Seg(h, p, end, q, c) && SameOutside(h, k, ids) && Ids(c) !! ids
    ensures Seg(k, p, end, q, c)
    decreases c
  {
    match c
    case Nil =>
    case Cons(id, kids, rest) =>
      SegFrame(h, k, h.list[id], -1, id, kids, ids);
      SegFrame(h, k, h.next[id], end, q, rest, ids);
  }

  lemma {:induction false} SegAppend(h: Links, p: int, m: int, end: int, q: int, a: Chain, b: Chain)
    requires Seg(h, p, m, q, a) && Seg(h, m, end, q, b)
    ensures Seg(h, p, end, q, Append(a, b))
    decreases a
  {
    match a
    case Nil =>
    case Cons(id, kids, rest) => SegAppend(h, h.next[id], m, end, q, rest, b);
  }

  lemma {:induction false} AppendFacts(a: Chain, b: Chain)
    ensures Preorder(Append(a, b)) == Preorder(a) + Preorder(b)
    ensures Ids(Append(a, b)) == Ids(a) + Ids(b)
    ensures Count(Append(a, b)) == Count(a) + Count(b)
    ensures Distinct(Append(a, b)) <==> Distinct(a) && Distinct(b) && Ids(a) !! Ids(b)
  {
    match a
    case Nil =>
    case Cons(id, kids, rest) =>
      AppendFacts(rest, b);
      assert [id] + Preorder(kids) + (Preorder(rest) + Preorder(b)) ==
             [id] + Preorder(kids) + Preorder(rest) + Preorder(b);
  }

  lemma {:induction false} AppendAssoc(a: Chain, b: Chain, c: Chain)
    ensures Append(Append(a, b), c) == Append(a, Append(b, c))
    ensures Append(a, Nil) == a
  {
    match a
    case Nil =>
    case Cons(_, _, rest) => AppendAssoc(rest, b, c);
  }

  /** The last node of a chain. */
  function Last(c: Chain): nat
    requires c.Cons?
  {
    if c.rest.Nil? then c.id else Last(c.rest)
  }

  lemma {:induction false} LastInIds(c: Chain)
    requires c.Cons?
    ensures Last(c) in Ids(c)
  {
    if c.rest.Cons? { LastInIds(c.rest); }
  }

  /** Redirecting the last node of a chain moves where the chain ends. */
  lemma {:induction false} SegRedirect(h: Links, p: int, end: int, q: int, c: Chain, end': int)
    requires Seg(h, p, end, q, c) && c.Cons? && Distinct(c)
    ensures Last(c) < |h.next|
    ensures Seg(h.(next := h.next[Last(c) := end']), p, end', q, c)
    decreases c
  {
    LastInIds(c);
    if c.rest.Nil? {
      SegFrame(h, h.(next := h.next[c.id := end']), h.list[c.id], -1, c.id, c.kids, {c.id});
    } else {
      SegRedirect(h, h.next[c.id], end, q, c.rest, end');
      LastInIds(c.rest);
      SegFrame(h, h.(next := h.next[Last(c.rest) := end']), h.list[c.id], -1, c.id, c.kids, {Last(c.rest)});
    }
  }

  predicate NoRepeat(s: seq<nat>) {
    forall i, j :: 0 <= i < j < |s| ==> s[i] != s[j]
  }

  lemma NoRepeatJoin(id: nat, a: seq<nat>, b: seq<nat>)
    requires NoRepeat(a) && NoRepeat(b) && id !in a && id !in b && forall x :: x in a ==> x !in b
    ensures NoRepeat([id] + a + b)
  {
    var s := [id] + a + b;
    forall i, j | 0 <= i < j < |s|
      ensures s[i] != s[j]
    {
      assert s[j] in (if j < 1 + |a| then a else b);
      if 0 < i < 1 + |a| {
        assert s[i] == a[i - 1] && s[i] in a;
      } else if i > 0 {
        assert s[i] == b[i - 1 - |a|] && s[j] == b[j - 1 - |a|];
      }
    }
  }

  /** Document order lists exactly the nodes, each once. */
  lemma {:induction false} PreorderOnce(c: Chain)
    ensures forall i: nat :: i in Preorder(c) <==> i in Ids(c)
    ensures |Preorder(c)| == Count(c)
    ensures Distinct(c) ==> NoRepeat(Preorder(c))
  {
    match c
    case Nil =>
    case Cons(id, kids, rest) =>
      PreorderOnce(kids);
      PreorderOnce(rest);
      if Distinct(c) {
        NoRepeatJoin(id, Preorder(kids), Preorder(rest));
      }
  }
}
