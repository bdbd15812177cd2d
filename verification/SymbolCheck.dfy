/** sym_check_deps, sym_check_sym_deps and sym_check_expr_deps of support/kconfig/symbol.c
    on symbols outside choices: a depth-first search for recursive dependencies. */
module SymbolCheck {
  import opened KconfigExpr
  import opened SymbolGraph

  /** Every symbol a symbol of the table can reach is in the table. */
  ghost predicate Closed(g: Graph) {
    forall s :: s in g.info ==> CheckedDeps(g, s) <= g.info.Keys
  }

  class Checker {
    const g: Graph
    var check: set<Symbol>     // SYMBOL_CHECK
    var checked: set<Symbol>   // SYMBOL_CHECKED
    var reports: nat           // recursive dependencies printed so far
    ghost var stack: seq<Symbol>  // the path of check_top
    ghost var rank: Rank

    constructor (g: Graph)
      requires Closed(g)
      ensures this.g == g && Valid() && check == {} && stack == [] && reports == 0 && checked == {}
    {
      this.g := g;
      check, checked, reports, stack, rank := {}, {}, 0, [], map[];
    }

    /** What holds whether or not something was reported. */
    ghost predicate Valid()
      reads this
    {
      && Closed(g)
      && checked <= g.info.Keys
      && check <= checked
      && (forall s :: s in check <==> s in stack)
      && IsWalk(g, stack)
      && (reports > 0 ==> HasCycle(g))
      && (reports == 0 ==> Finished())
    }

    /** While nothing was reported, the symbols that are done have ranks. */
    ghost predicate Finished()
      reads this
    {
      && rank.Keys == checked - check
      && Descends(g, rank)
    }

    /** How many symbols the search has not entered yet. */
    ghost function Unvisited(): nat
      reads this
    {
      |g.info.Keys - checked|
    }

    twostate lemma UnvisitedDrops()
      requires old(checked) <= checked
      ensures Unvisited() <= old(Unvisited())
    {
      var a, b := g.info.Keys - checked, g.info.Keys - old(checked);
      assert b == a + (b - a);
    }

    /** The rank a symbol may get: above all ranks so far. */
    ghost function Top(): (n: nat)
      reads this
      ensures forall s :: s in rank ==> rank[s] < n
    {
      TopOf(rank)
    }

    static ghost function TopOf(r: Rank): (n: nat)
      ensures forall s :: s in r ==> r[s] < n
      decreases |r|
    {
      if r == map[] then 0
      else
        var s :| s in r;
        var rest := map t | t in r && t != s :: r[t];
        assert rest.Keys == r.Keys - {s};
        assert forall t :: t in r && t != s ==> t in rest;
        var n := TopOf(rest);
        if r[s] < n then n else r[s] + 1
    }

    lemma ValidFacts(s: Symbol)
      requires Valid()
      ensures check <= checked && (reports == 0 ==> rank.Keys == checked - check)
      ensures s in check <==> s in stack
      ensures s in g.info ==> CheckedDeps(g, s) <= g.info.Keys
    {
    }

    /** Appending an edge target that is on the path closes a cycle. */
    lemma ClosesCycle(s: Symbol)
      requires Valid() && s in check
      requires stack != [] && s in CheckedDeps(g, stack[|stack| - 1])
      ensures HasCycle(g)
    {
      hide CheckedDeps;
      var i :| 0 <= i < |stack| && stack[i] == s;
      var w := stack[i..] + [s];
      forall j, k | 0 <= j < k < |w| && k == j + 1
        ensures w[k] in CheckedDeps(g, w[j])
      {
        if k < |w| - 1 {
          assert w[k] == stack[i + k] && w[j] == stack[i + j];
        } else {
          assert w[j] == stack[|stack| - 1];
        }
      }
      assert IsCycle(g, w);
    }

    /** sym_check_deps. Returns the symbol at which the cycle just reported was entered, for
        the callers to unwind to; that symbol is on the path above the caller. */
    method CheckDeps(s: Symbol) returns (r: Option<Symbol>)
      requires Valid() && s in g.info
      requires stack != [] ==> s in CheckedDeps(g, stack[|stack| - 1])
      requires s in check ==> stack != []
      modifies this
      ensures Valid() && check == old(check) && stack == old(stack)
      ensures old(checked) <= checked && reports >= old(reports) && s in checked
      ensures reports == 0 ==> r.None? && old(rank.Keys) <= rank.Keys && s in rank
      ensures r.Some? ==> r.value in check
      decreases Unvisited(), 0
    {
      hide Valid;
      hide CheckedDeps;
      hide Unvisited;
      ValidFacts(s);
      if s in check {
        Report(s);
        return Some(s);
      }
      if s in checked {
        return None;
      }
      Enter(s);
      r := CheckSymDeps(s);
      Leave(s);
      if r == Some(s) {
        r := None;
      }
    }

    /** Reaching a symbol of the path again. */
    method Report(s: Symbol)
      requires Valid() && s in check && stack != [] && s in CheckedDeps(g, stack[|stack| - 1])
      modifies this
      ensures Valid() && check == old(check) && stack == old(stack) && checked == old(checked)
      ensures reports == old(reports) + 1
    {
      hide CheckedDeps;
      hide HasCycle;
      hide Closed;
      hide Descends;
      ClosesCycle(s);
      reports := reports + 1;
    }

    /** The first visit: s joins the path. */
    method Enter(s: Symbol)
      requires Valid() && s in g.info && s !in checked
      requires stack != [] ==> s in CheckedDeps(g, stack[|stack| - 1])
      modifies this
      ensures Valid() && check == old(check) + {s} && stack == old(stack) + [s] && checked == old(checked) + {s}
      ensures reports == old(reports) && rank == old(rank) && Unvisited() < old(Unvisited())
      ensures s !in old(check) && s !in old(stack) && stack[..|stack| - 1] == old(stack)
    {
      hide CheckedDeps;
      hide HasCycle;
      hide Closed;
      hide Descends;
      assert g.info.Keys - checked == (g.info.Keys - (checked + {s})) + {s};
      check, checked, stack := check + {s}, checked + {s}, stack + [s];
      assert checked - check == old(checked - check);
      assert IsWalk(g, stack);
    }

    /** s leaves the path; if nothing was reported it is done and ranks above what it needs. */
    method Leave(s: Symbol)
      requires Valid() && stack != [] && stack[|stack| - 1] == s && s !in stack[..|stack| - 1]
      requires reports == 0 ==> CheckedDeps(g, s) <= rank.Keys
      modifies this
      ensures Valid() && check == old(check) - {s} && stack == old(stack)[..|old(stack)| - 1]
      ensures checked == old(checked) && reports == old(reports) && Unvisited() == old(Unvisited())
      ensures reports == 0 ==> rank.Keys == old(rank.Keys) + {s}
    {
      hide CheckedDeps;
      hide HasCycle;
      hide Closed;
      ghost var top := Top();
      assert stack == stack[..|stack| - 1] + [s];
      check, stack := check - {s}, stack[..|stack| - 1];
      if reports == 0 {
        assert s !in rank;
        rank := rank[s := top];
        assert checked - check == old(checked - check) + {s};
      }
    }

    /** sym_check_sym_deps: the reverse dependency, then the properties in order. */
    method CheckSymDeps(s: Symbol) returns (r: Option<Symbol>)
      requires Valid() && s in g.info && stack != [] && stack[|stack| - 1] == s
      requires CheckedDeps(g, s) <= g.info.Keys
      modifies this
      ensures Valid() && check == old(check) && stack == old(stack)
      ensures old(checked) <= checked && reports >= old(reports)
      ensures reports == 0 ==> r.None? && old(rank.Keys) <= rank.Keys && CheckedDeps(g, s) <= rank.Keys
      ensures r.Some? ==> r.value in check
      decreases Unvisited(), 3
    {
      hide Valid;
      hide Descends;
      r := CheckExprOpt(s, g.Info(s).revDep);
      if r.Some? { return; }
      var props := g.Info(s).props;
      var i := 0;
      assert props[i..] == props;
      while i < |props|
        invariant 0 <= i <= |props|
        invariant Valid() && check == old(check) && stack == old(stack)
        invariant old(checked) <= checked && reports >= old(reports) && r.None?
        invariant CheckedOfProps(props[i..]) <= CheckedDeps(g, s)
        invariant reports == 0 ==> old(rank.Keys) <= rank.Keys
        invariant reports == 0 ==> CheckedDeps(g, s) <= rank.Keys + CheckedOfProps(props[i..])
      {
        var p := props[i];
        assert props[i..][1..] == props[i + 1..];
        UnvisitedDrops();
        if p.kind != PChoice && p.kind != PSelect {
          r := CheckExprOpt(s, p.visible);
          if r.Some? { return; }
          if p.kind == PDefault {
            UnvisitedDrops();
            r := CheckExprOpt(s, p.expr);
            if r.Some? { return; }
          }
        }
        i := i + 1;
      }
    }

    method CheckExprOpt(ghost s: Symbol, e: Option<Expr>) returns (r: Option<Symbol>)
      requires Valid() && s in g.info && stack != [] && stack[|stack| - 1] == s && SymbolsOpt(e) <= CheckedDeps(g, s)
      requires SymbolsOpt(e) <= g.info.Keys
      modifies this
      ensures Valid() && check == old(check) && stack == old(stack)
      ensures old(checked) <= checked && reports >= old(reports)
      ensures reports == 0 ==> r.None? && old(rank.Keys) <= rank.Keys && SymbolsOpt(e) <= rank.Keys
      ensures r.Some? ==> r.value in check
      decreases Unvisited(), 2
    {
      hide Valid;
      hide CheckedDeps;
      match e
      case None => r := None;
      case Some(x) => r := CheckExpr(s, x);
    }

    /** sym_check_expr_deps: stops at the first operand that reports. */
    method CheckExpr(ghost s: Symbol, e: Expr) returns (r: Option<Symbol>)
      requires Valid() && s in g.info && stack != [] && stack[|stack| - 1] == s && Symbols(e) <= CheckedDeps(g, s)
      requires Symbols(e) <= g.info.Keys
      modifies this
      ensures Valid() && check == old(check) && stack == old(stack)
      ensures old(checked) <= checked && reports >= old(reports)
      ensures reports == 0 ==> r.None? && old(rank.Keys) <= rank.Keys && Symbols(e) <= rank.Keys
      ensures r.Some? ==> r.value in check
      decreases Unvisited(), 1, e
    {
      hide Valid;
      hide CheckedDeps;
      match e
      case EBin(_, a, b) =>
        r := CheckExpr(s, a);
        if r.Some? { return; }
        UnvisitedDrops();
        r := CheckExpr(s, b);
      case ENot(x) => r := CheckExpr(s, x);
      case ECmp(_, a, b) =>
        r := CheckDeps(a);
        if r.Some? { return; }
        UnvisitedDrops();
        r := CheckDeps(b);
      case ESym(t) => r := CheckDeps(t);
    }
  }

  /** The loop of conf_parse over the whole table. A recursive dependency is reported if and
      only if the graph has a cycle; when it has none, the search yields a rank. The value
      that sym_check_deps hands back is NULL either way, so the error count of conf_parse
      stays 0 and a reported recursion does not stop the program. */
  method CheckAll(g: Graph, order: seq<Symbol>) returns (reported: bool, errors: nat, ghost rank: Rank)
    requires Closed(g)
    requires forall s :: s in g.info <==> s in order
    ensures reported <==> HasCycle(g)
    ensures errors == 0
    ensures !reported ==> rank.Keys == g.info.Keys && Descends(g, rank)
  {
    hide Descends;
    hide HasCycle;
    hide CheckedDeps;
    var c := new Checker(g);
    errors := 0;
    var i := 0;
    while i < |order|
      invariant 0 <= i <= |order|
      invariant c.Valid() && c.g == g && c.check == {} && c.stack == [] && errors == 0
      invariant c.reports == 0 ==> forall k :: 0 <= k < i ==> order[k] in c.rank
      invariant fresh(c)
    {
      var r := c.CheckDeps(order[i]);
      errors := errors + (if r.Some? then 1 else 0);
      i := i + 1;
    }
    reported := c.reports > 0;
    rank := c.rank;
    if !reported {
      RankExcludesCycles(g, rank);
    }
  }
}
