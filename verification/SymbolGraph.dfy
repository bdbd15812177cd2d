/** The symbol table that support/kconfig/symbol.c works on, and its dependency graph. */
module SymbolGraph {
  import opened KconfigExpr

  datatype PropKind = PPrompt | PDefault | PSelect | PImply | PRange | PChoice | POtherProp

  /** A property: `text` says whether it has a prompt text, `visible` is its condition and
      `expr` its expression (the default value, the selected symbol). */
  datatype Property = Property(kind: PropKind, text: bool, visible: Option<Expr>, expr: Option<Expr>)

  /** The parts of a symbol that evaluation only reads. */
  datatype SymInfo = SymInfo(
    name: string,
    props: seq<Property>,
    dirDep: Option<Expr>,
    revDep: Option<Expr>,
    implied: Option<Expr>,
    isAuto: bool)

  const NoInfo := SymInfo("", [], None, None, None, false)

  /** def[S_DEF_USER] of a symbol that has SYMBOL_DEF_USER. */
  datatype UserValue = UserValue(tri: Tristate, val: string)

  /** The graph, the user's values, the value of the modules symbol, and strtoll. */
  datatype Graph = Graph(
    info: map<Symbol, SymInfo>,
    user: map<Symbol, UserValue>,
    modulesVal: Tristate,
    num: Numeric)
  {
    function Info(s: Symbol): SymInfo { if s in info then info[s] else NoInfo }
  }

  function Symbols(e: Expr): set<Symbol> {
    match e
    case ESym(s) => {s}
    case ENot(x) => Symbols(x)
    case EBin(_, l, r) => Symbols(l) + Symbols(r)
    case ECmp(_, l, r) => {l, r}
  }

  function SymbolsOpt(e: Option<Expr>): set<Symbol> {
    match e case None => {} case Some(x) => Symbols(x)
  }

  /** The symbols sym_check_sym_deps visits for one property. */
  function CheckedOfProp(p: Property): set<Symbol> {
    if p.kind == PChoice || p.kind == PSelect then {}
    else SymbolsOpt(p.visible) + (if p.kind == PDefault then SymbolsOpt(p.expr) else {})
  }

  function CheckedOfProps(ps: seq<Property>): set<Symbol> {
    if ps == [] then {} else CheckedOfProp(ps[0]) + CheckedOfProps(ps[1..])
  }

  /** All the symbols it visits for s: the edges of the checked graph. */
  function CheckedDeps(g: Graph, s: Symbol): set<Symbol> {
    SymbolsOpt(g.Info(s).revDep) + CheckedOfProps(g.Info(s).props)
  }

  /** A walk along edges of the checked graph. */
  ghost predicate IsWalk(g: Graph, w: seq<Symbol>) {
    forall i, j :: 0 <= i < j < |w| && j == i + 1 ==> w[j] in CheckedDeps(g, w[i])
  }

  ghost predicate IsCycle(g: Graph, w: seq<Symbol>) {
    |w| >= 2 && w[0] == w[|w| - 1] && IsWalk(g, w)
  }

  ghost predicate HasCycle(g: Graph) {
    exists w: seq<Symbol> :: IsCycle(g, w)
  }

  type Rank = map<Symbol, nat>

  function RankOf(r: Rank, s: Symbol): nat { if s in r then r[s] else 0 }

  /** r goes down along every edge of the checked graph out of a symbol of r. */
  ghost predicate Descends(g: Graph, r: Rank) {
    forall s, t :: s in r && t in CheckedDeps(g, s) ==> t in r && r[t] < r[s]
  }

  /** A rank rules out every cycle. */
  lemma {:induction false} RankDescendsWalk(g: Graph, r: Rank, w: seq<Symbol>, i: nat)
    requires Descends(g, r) && IsWalk(g, w) && i < |w| && w[0] in r
    ensures w[i] in r && (i > 0 ==> r[w[i]] < r[w[0]])
  {
    if i > 0 {
      RankDescendsWalk(g, r, w, i - 1);
    }
  }

  lemma RankExcludesCycles(g: Graph, r: Rank)
    requires Descends(g, r) && g.info.Keys <= r.Keys
    ensures !HasCycle(g)
  {
    if HasCycle(g) {
      var w: seq<Symbol> :| IsCycle(g, w);
      assert w[1] in CheckedDeps(g, w[0]);
      RankDescendsWalk(g, r, w, |w| - 1);
      assert false;
    }
  }
}
