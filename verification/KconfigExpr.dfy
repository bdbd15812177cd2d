/** Three-valued dependency expressions of the Kconfig language and their value.
    Follows support/kconfig/expr.h and expr_calc_value in support/kconfig/expr.c. */
module KconfigExpr {

  datatype Option<+T> = None | Some(value: T)

  /** no = 0, mod = 1, yes = 2, ordered as the C enum is. */
  type Tristate = t: int | 0 <= t <= 2

  const NO: Tristate := 0
  const MOD: Tristate := 1
  const YES: Tristate := 2

  function Min(a: Tristate, b: Tristate): Tristate { if a < b then a else b }

  function Max(a: Tristate, b: Tristate): Tristate { if a > b then a else b }

  datatype SymType = SUnknown | SBoolean | STristate | SInt | SHex | SString | SOther

  /** Constants are interned by name (sym_lookup with SYMBOL_CONST); `y`, `m` and `n` are
      symbol_yes, symbol_mod and symbol_no. Any other symbol is identified by a number, as
      the C code identifies it by its address. */
  datatype Symbol = Const(name: string) | Sym(id: nat, ty: SymType)
  {
    function Type(): SymType { if Sym? then ty else SUnknown }

    predicate IsTri() { Type() == SBoolean || Type() == STristate }

    predicate IsTriConst() { this == SymYes || this == SymMod || this == SymNo }
  }

  const SymYes := Const("y")
  const SymMod := Const("m")
  const SymNo := Const("n")

  datatype Op = AndOp | OrOp

  datatype Rel = Eq | Ne | Lt | Le | Gt | Ge

  datatype Expr =
    | ESym(sym: Symbol)
    | ENot(arg: Expr)
    | EBin(op: Op, left: Expr, right: Expr)
    | ECmp(rel: Rel, lhs: Symbol, rhs: Symbol)

  /** What the symbols are worth: tristate value, string value (sym_get_string_value) and
      the number a string denotes for a symbol type (strtoll and strtoull, None when the
      text is not a number). */
  datatype Valuation = Valuation(
    tri: Symbol -> Tristate,
    str: Symbol -> string,
    num: Numeric)

  function TriString(t: Tristate): string {
    if t == NO then "n" else if t == MOD then "m" else "y"
  }

  datatype Parsed = KString | KSigned(s: int) | KUnsigned(u: int) | KInvalid

  const TWO64 := 0x1_0000_0000_0000_0000

  type Numeric = (string, SymType) -> Option<int>

  /** expr_parse_string */
  function ParseString(num: Numeric, text: string, ty: SymType): Parsed {
    match ty
    case SBoolean => ParseTri(text)
    case STristate => ParseTri(text)
    case SOther => KInvalid
    case _ =>
      match num(text, ty)
      case None => KString
      case Some(x) => if ty == SHex then KUnsigned(x) else KSigned(x)
  }

  function ParseTri(text: string): Parsed {
    KSigned(if text == "n" then 0 else if text == "m" then 1 else if text == "y" then 2 else -1)
  }

  /** strcmp on the characters: negative, zero or positive. */
  function StrCmp(a: string, b: string): (r: int)
    ensures r == 0 <==> a == b
  {
    if a == [] && b == [] then 0
    else if a == [] then -1
    else if b == [] then 1
    else if a[0] != b[0] then (if a[0] < b[0] then -1 else 1)
    else
      assert a == [a[0]] + a[1..] && b == [b[0]] + b[1..];
      StrCmp(a[1..], b[1..])
  }

  function Sign(a: int, b: int): int { if a > b then 1 else if a < b then -1 else 0 }

  /** The union's other member: a negative signed value read as unsigned. */
  function AsUnsigned(p: Parsed): int
    requires p.KSigned? || p.KUnsigned?
  {
    if p.KSigned? then (if p.s < 0 then p.s + TWO64 else p.s) else p.u
  }

  datatype Comparison = Comparable(res: int) | Incomparable(res: int)

  /** The comparison step of expr_calc_value, before the relation is applied: two strings and
      the types of their symbols. */
  function CompareText(num: Numeric, s1: string, t1: SymType, s2: string, t2: SymType): Comparison {
    var both := t1 == SString && t2 == SString;
    var k1 := if both then KString else ParseString(num, s1, t1);
    var k2 := if both then KString else ParseString(num, s2, t2);
    if k1.KString? || k2.KString? then Comparable(StrCmp(s1, s2))
    else if k1.KInvalid? || k2.KInvalid? then Incomparable(StrCmp(s1, s2))
    else if k1.KUnsigned? || k2.KUnsigned? then Comparable(Sign(AsUnsigned(k1), AsUnsigned(k2)))
    else Comparable(Sign(k1.s, k2.s))
  }

  predicate Holds(rel: Rel, res: int) {
    match rel
    case Eq => res == 0
    case Ne => res != 0
    case Lt => res < 0
    case Le => res <= 0
    case Gt => res > 0
    case Ge => res >= 0
  }

  /** Its last step: incomparable strings can only be equal or different. */
  function RelValue(rel: Rel, c: Comparison): Tristate {
    if c.Incomparable? && rel != Eq && rel != Ne then NO
    else if Holds(rel, c.res) then YES else NO
  }

  function CmpValue(v: Valuation, rel: Rel, l: Symbol, r: Symbol): Tristate {
    RelValue(rel, CompareText(v.num, v.str(l), l.Type(), v.str(r), r.Type()))
  }

  function Apply(op: Op, a: Tristate, b: Tristate): Tristate {
    if op == AndOp then Min(a, b) else Max(a, b)
  }

  /** expr_calc_value of a non-null expression. */
  function Eval(e: Expr, v: Valuation): Tristate {
    match e
    case ESym(s) => v.tri(s)
    case ENot(x) => 2 - Eval(x, v)
    case EBin(op, l, r) => Apply(op, Eval(l, v), Eval(r, v))
    case ECmp(rel, l, r) => CmpValue(v, rel, l, r)
  }

  /** A missing expression counts as `y`. */
  function EvalOpt(e: Option<Expr>, v: Valuation): Tristate {
    match e
    case None => YES
    case Some(x) => Eval(x, v)
  }

  /** What the symbol table guarantees of a computed state: the three constants have their
      own values and are not numbers; a bool is `n` or `y`; a bool or tristate prints as its
      value (so nothing is `m` while modules are off); a constant prints as its name. */
  ghost predicate WellTyped(v: Valuation) {
    && v.tri(SymYes) == YES && v.tri(SymMod) == MOD && v.tri(SymNo) == NO
    && v.num("y", SUnknown) == v.num("m", SUnknown) == v.num("n", SUnknown) == None
    && (forall n: string :: v.str(Const(n)) == n)
    && (forall s: Symbol :: s.Type() == SBoolean ==> v.tri(s) != MOD)
    && (forall s: Symbol :: s.IsTri() ==> v.str(s) == TriString(v.tri(s)))
  }

  /** A constant that a tristate symbol is compared with is compared as text. */
  predicate TextConst(v: Valuation, l: Symbol, r: Symbol) {
    l.Type() == STristate && r.Const? ==> ParseString(v.num, v.str(r), r.Type()).KString?
  }

  /** The expressions the rewriting theorems are about: no comparison of a symbol of type
      S_OTHER, and tristates are not compared with numerals. */
  predicate Clean(e: Expr, v: Valuation) {
    match e
    case ESym(_) => true
    case ENot(x) => Clean(x, v)
    case EBin(_, l, r) => Clean(l, v) && Clean(r, v)
    case ECmp(_, l, r) => l.Type() != SOther && r.Type() != SOther && TextConst(v, l, r)
  }

  predicate CleanOpt(e: Option<Expr>, v: Valuation) { e.Some? ==> Clean(e.value, v) }

  function Size(e: Expr): nat {
    match e
    case ESym(_) => 1
    case ENot(x) => 1 + Size(x)
    case EBin(_, l, r) => 1 + Size(l) + Size(r)
    case ECmp(_, _, _) => 1
  }

  /** Comparing a bool or tristate with one of y, m, n compares the values. */
  lemma TriCompare(v: Valuation, s: Symbol, c: Symbol)
    requires WellTyped(v) && s.IsTri() && c.IsTriConst()
    ensures CmpValue(v, Eq, s, c) == (if v.tri(s) == v.tri(c) then YES else NO)
    ensures CmpValue(v, Ne, s, c) == (if v.tri(s) == v.tri(c) then NO else YES)
  {
    assert v.str(c) == TriString(v.tri(c));
    assert ParseString(v.num, v.str(c), c.Type()).KString?;
    assert v.str(s) == TriString(v.tri(s));
  }

  // ---- what the relations mean

  /** a comes before b in the order of strings: at the first difference a has the smaller
      character or ends. */
  ghost predicate Before(a: string, b: string) {
    exists k: nat :: k <= |a| && k < |b| && a[..k] == b[..k] && (k == |a| || a[k] < b[k])
  }

  lemma {:induction false} StrOrder(a: string, b: string)
    ensures StrCmp(a, b) < 0 <==> Before(a, b)
    ensures StrCmp(a, b) > 0 <==> Before(b, a)
    decreases |a|
  {
    if a == [] || b == [] || a[0] != b[0] {
      if a != b { assert a[..0] == b[..0]; }
    } else {
      StrOrder(a[1..], b[1..]);
      BeforeTail(a, b);
      BeforeTail(b, a);
    }
  }

  lemma BeforeTail(a: string, b: string)
    requires a != [] && b != [] && a[0] == b[0]
    ensures Before(a, b) <==> Before(a[1..], b[1..])
  {
    if Before(a, b) {
      var k: nat :| k <= |a| && k < |b| && a[..k] == b[..k] && (k == |a| || a[k] < b[k]);
      assert k > 0 && a[1..][..k - 1] == a[..k][1..] && b[1..][..k - 1] == b[..k][1..];
    }
    if Before(a[1..], b[1..]) {
      var k: nat :| k <= |a[1..]| && k < |b[1..]| && a[1..][..k] == b[1..][..k] && (k == |a[1..]| || a[1..][k] < b[1..][k]);
      assert a[..k + 1] == [a[0]] + a[1..][..k] && b[..k + 1] == [b[0]] + b[1..][..k];
    }
  }

  function YesIf(b: bool): Tristate { if b then YES else NO }

  /** The number a symbol stands for in a comparison, if any: a bool or tristate its value. */
  function NumberOf(v: Valuation, s: Symbol): Option<int> {
    if s.IsTri() then Some(v.tri(s)) else v.num(v.str(s), s.Type())
  }

  /** Numbers are compared as such, and if one of them is that of a hex symbol, modulo 2 to
      the 64th; the range is that of strtoll and strtoull. */
  lemma NumbersCompared(v: Valuation, l: Symbol, r: Symbol, x: int, y: int)
    requires WellTyped(v) && l.Type() != SOther && r.Type() != SOther && !(l.Type() == r.Type() == SString)
    requires NumberOf(v, l) == Some(x) && NumberOf(v, r) == Some(y) && -TWO64 <= x < TWO64 && -TWO64 <= y < TWO64
    requires (l.Type() == SHex ==> x >= 0) && (r.Type() == SHex ==> y >= 0)
    ensures var hex := l.Type() == SHex || r.Type() == SHex;
            var a, b := if hex then x % TWO64 else x, if hex then y % TWO64 else y;
            && CmpValue(v, Lt, l, r) == YesIf(a < b) && CmpValue(v, Le, l, r) == YesIf(a <= b)
            && CmpValue(v, Gt, l, r) == YesIf(a > b) && CmpValue(v, Ge, l, r) == YesIf(a >= b)
            && CmpValue(v, Eq, l, r) == YesIf(a == b) && CmpValue(v, Ne, l, r) == YesIf(a != b)
  {
    hide ParseString; hide WellTyped; hide StrCmp; hide AsUnsigned;
    NumberParsed(v, l, x);
    NumberParsed(v, r, y);
  }

  lemma NumberParsed(v: Valuation, s: Symbol, x: int)
    requires WellTyped(v) && s.Type() != SOther && NumberOf(v, s) == Some(x)
    ensures var p := ParseString(v.num, v.str(s), s.Type());
            && p == (if s.Type() == SHex then KUnsigned(x) else KSigned(x))
            && (-TWO64 <= x < TWO64 && (s.Type() == SHex ==> x >= 0) ==> AsUnsigned(p) == x % TWO64)
  {
    if s.IsTri() { assert v.str(s) == TriString(v.tri(s)); }
  }

  /** Two string symbols, or symbols of which one stands for no number, are compared by the
      order of their texts. */
  lemma TextsCompared(v: Valuation, l: Symbol, r: Symbol)
    requires l.Type() == r.Type() == SString
             || (l.Type() != SOther && NumberOf(v, l).None?) || (r.Type() != SOther && NumberOf(v, r).None?)
    ensures var a, b := v.str(l), v.str(r);
            && CmpValue(v, Lt, l, r) == YesIf(Before(a, b)) && CmpValue(v, Le, l, r) == YesIf(!Before(b, a))
            && CmpValue(v, Gt, l, r) == YesIf(Before(b, a)) && CmpValue(v, Ge, l, r) == YesIf(!Before(a, b))
            && CmpValue(v, Eq, l, r) == YesIf(a == b) && CmpValue(v, Ne, l, r) == YesIf(a != b)
  {
    StrOrder(v.str(l), v.str(r));
  }

  /** A symbol of type S_OTHER and a number are equal or different by their texts, and in no
      order. */
  lemma OthersCompared(v: Valuation, rel: Rel, l: Symbol, r: Symbol)
    requires l.Type() == SOther || r.Type() == SOther
    requires (l.Type() == SOther || NumberOf(v, l).Some?) && (r.Type() == SOther || NumberOf(v, r).Some?)
    ensures CmpValue(v, rel, l, r) == YesIf((rel == Eq && v.str(l) == v.str(r)) || (rel == Ne && v.str(l) != v.str(r)))
  {
  }
}
