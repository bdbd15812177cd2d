/** The dependency check and the evaluator together: conf_parse checks the table once, and the
    front ends evaluate it whatever the check found. */
module SymbolRun {
  import opened KconfigExpr
  import opened SymbolGraph
  import opened SymbolOrder
  import opened SymbolValue
  import SymbolCheck
  import SymbolEval

  /** What a front end does with the table: compute a symbol, or invalidate all of them. */
  datatype Event = CalcEvent(s: Symbol) | ClearEvent

  /** Any run of computations and invalidations, from a state in which nothing is valid. It ends
      on every table; if r is an order to compute in, each computation finds the cache-free
      value, whatever was computed before it. */
  method Run(g: Graph, ghost r: Rank, modules: Symbol, stale: map<Symbol, SymValue>, events: seq<Event>)
    returns (results: seq<SymValue>)
    ensures |results| == |events|
    ensures Acyclic(g, r) ==>
              forall i :: 0 <= i < |events| && events[i].CalcEvent? ==> results[i] == ValueOf(g, r, events[i].s)
  {
    hide ValueOf;
    hide Acyclic;
    var ev := new SymbolEval.Evaluator(g, r, stale);
    results := [];
    var i := 0;
    while i < |events|
      invariant 0 <= i <= |events| && |results| == i
      invariant ev.g == g && ev.r == r && ev.Cached({}) && fresh(ev)
      invariant Acyclic(g, r) ==>
                  forall k :: 0 <= k < i && events[k].CalcEvent? ==> results[k] == ValueOf(g, r, events[k].s)
    {
      match events[i] {
        case CalcEvent(s) =>
          var x := ev.Value(s, {});
          results := results + [x];
        case ClearEvent =>
          ev.ClearAllValid(modules);
          results := results + [Nothing];
      }
      i := i + 1;
    }
  }

  /** The whole of it, on every table. The check reports exactly the cycles through selects,
      conditions of properties and defaults, and evaluation goes on in any case. There is an order to compute in exactly if the edges that
      evaluation follows itself have no cycle (`OrderExists`); then every value found is that of
      the one assignment that satisfies the evaluation rules. Where the check follows all these
      edges, a table without a report has an order. */
  method CheckThenRun(g: Graph, order: seq<Symbol>, modules: Symbol, stale: map<Symbol, SymValue>, events: seq<Event>)
    returns (reported: bool, results: seq<SymValue>, ghost r: Rank)
    requires SymbolCheck.Closed(g)
    requires forall s :: s in g.info <==> s in order
    ensures reported <==> exists w: seq<Symbol> :: IsAskCycle(g, w)
    ensures |results| == |events|
    ensures Acyclic(g, r) <==> !HasEvalCycle(g)
    ensures !HasEvalCycle(g) ==> forall i :: 0 <= i < |events| && events[i].CalcEvent? ==>
              results[i] == Calc(g, events[i].s, Full(g, r)) == ValueOf(g, r, events[i].s)
    ensures !reported && Covered(g) ==> !HasEvalCycle(g)
  {
    hide Calc; hide CheckedDeps; hide HasEvalCycle; hide HasCycle; hide EvalDeps; hide Covered; hide IsAskCycle;
    var errors: nat;
    ghost var checkedRank: Rank;
    reported, errors, checkedRank := SymbolCheck.CheckAll(g, order);
    AskCycleStated(g);
    if !reported && Covered(g) { CheckedHasOrder(g); }
    r := map[];
    OrderExists(g);
    if !HasEvalCycle(g) { r := EvalRank(g); }
    results := Run(g, r, modules, stale, events);
    forall i | Acyclic(g, r) && 0 <= i < |events| && events[i].CalcEvent?
      ensures ValueOf(g, r, events[i].s) == Calc(g, events[i].s, Full(g, r))
    {
      ValueEquation(g, r, events[i].s);
    }
  }

  /** Two ranks of one graph give the same values. */
  lemma ValuesIndependentOfRank(g: Graph, r: Rank, q: Rank, s: Symbol)
    requires Acyclic(g, r) && Acyclic(g, q)
    ensures ValueOf(g, r, s) == ValueOf(g, q, s)
  {
    hide Calc;
    hide EvalDeps;
    hide ValueOf;
    var w := (t: Symbol) => ValueOf(g, r, t);
    var v := Valuation(u => w(u).tri, u => StringOf(g, u, w(u)), g.num);
    forall t: Symbol
      ensures w(t) == Calc(g, t, v)
    {
      ValueEquation(g, r, t);
      CalcAgree(g, t, v, Full(g, r));
    }
    ValueUnique(g, q, w, s);
  }
}
