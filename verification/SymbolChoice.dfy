/** sym_calc_choice and the choice-member case of sym_calc_value, support/kconfig/symbol.c,
    for a bool choice that is y. */
module SymbolChoice {
  import opened KconfigExpr
  import opened SymbolGraph
  import opened SymbolValue
  import SymbolMeaning

  /** A default of the choice: the member it names and its condition. */
  datatype ChoiceDefault = ChoiceDefault(sym: Symbol, cond: Option<Expr>)

  /** The members in the order of the menu, with their properties; the choice's defaults; the
      member the user picked last; and which members have a user value. */
  datatype Choice = Choice(
    members: seq<Symbol>,
    props: map<Symbol, seq<Property>>,
    defaults: seq<ChoiceDefault>,
    userPick: Option<Symbol>,
    hasUser: set<Symbol>)
  {
    function Props(s: Symbol): seq<Property> { if s in props then props[s] else [] }
  }

  /** sym_calc_visibility of a bool member: m counts as y. The dependency values of a member
      are not computed and stay n. */
  function Visible(c: Choice, s: Symbol, v: Valuation): Tristate {
    ModToYes(BestPrompt(c.Props(s), v), true)
  }

  /** The first element of ss that is visible, from i on. */
  function FirstVisible(c: Choice, v: Valuation, i: nat): Option<Symbol>
    requires i <= |c.members|
    decreases |c.members| - i
  {
    if i == |c.members| then None
    else if Visible(c, c.members[i], v) != NO then Some(c.members[i])
    else FirstVisible(c, v, i + 1)
  }

  /** Default k has a condition that is not n and names a visible symbol. */
  predicate Applies(c: Choice, v: Valuation, k: nat)
    requires k < |c.defaults|
  {
    EvalOpt(c.defaults[k].cond, v) != NO && Visible(c, c.defaults[k].sym, v) != NO
  }

  function FirstDefault(c: Choice, v: Valuation, i: nat): Option<Symbol>
    requires i <= |c.defaults|
    decreases |c.defaults| - i
  {
    if i == |c.defaults| then None
    else if Applies(c, v, i) then Some(c.defaults[i].sym)
    else FirstDefault(c, v, i + 1)
  }

  /** Who wins: the user's pick if visible, else the first default that applies and is
      visible, else the first visible member. */
  function Winner(c: Choice, v: Valuation): Option<Symbol> {
    if c.userPick.Some? && Visible(c, c.userPick.value, v) != NO then c.userPick
    else if FirstDefault(c, v, 0).Some? then FirstDefault(c, v, 0)
    else FirstVisible(c, v, 0)
  }

  /** sym_calc_choice. `complete` is what it leaves of the choice's own user flag hadUser: it
      stays set only if every visible member has a user value. */
  method CalcChoice(c: Choice, hadUser: bool, v: Valuation) returns (pick: Option<Symbol>, complete: bool)
    ensures pick == Winner(c, v)
    ensures complete <==> hadUser && forall i :: 0 <= i < |c.members| && Visible(c, c.members[i], v) != NO ==> c.members[i] in c.hasUser
  {
    hide Visible;
    complete := hadUser;
    var i := 0;
    while i < |c.members|
      invariant 0 <= i <= |c.members|
      invariant complete <==> hadUser && forall k :: 0 <= k < i && Visible(c, c.members[k], v) != NO ==> c.members[k] in c.hasUser
    {
      if Visible(c, c.members[i], v) != NO && c.members[i] !in c.hasUser {
        complete := false;
      }
      i := i + 1;
    }
    if c.userPick.Some? && Visible(c, c.userPick.value, v) != NO {
      return c.userPick, complete;
    }
    pick := ChoiceDefaultSymbol(c, v);
  }

  /** sym_choice_default */
  method ChoiceDefaultSymbol(c: Choice, v: Valuation) returns (pick: Option<Symbol>)
    ensures pick == (if FirstDefault(c, v, 0).Some? then FirstDefault(c, v, 0) else FirstVisible(c, v, 0))
  {
    hide Visible;
    hide EvalOpt;
    var i := 0;
    while i < |c.defaults|
      invariant 0 <= i <= |c.defaults|
      invariant FirstDefault(c, v, 0) == FirstDefault(c, v, i)
    {
      var d := c.defaults[i];
      if EvalOpt(d.cond, v) != NO && Visible(c, d.sym, v) != NO {
        return Some(d.sym);
      }
      i := i + 1;
    }
    i := 0;
    while i < |c.members|
      invariant 0 <= i <= |c.members|
      invariant FirstVisible(c, v, 0) == FirstVisible(c, v, i)
    {
      if Visible(c, c.members[i], v) != NO {
        return Some(c.members[i]);
      }
      i := i + 1;
    }
    pick := None;
  }

  /** sym_calc_value of a member without defaults of its own. */
  function MemberTri(c: Choice, s: Symbol, v: Valuation): Tristate {
    if Visible(c, s, v) == YES then (if Winner(c, v) == Some(s) then YES else NO) else NO
  }

  lemma {:induction false} FirstVisibleIs(c: Choice, v: Valuation, i: nat)
    requires i <= |c.members|
    ensures match FirstVisible(c, v, i)
            case None => forall k :: i <= k < |c.members| ==> Visible(c, c.members[k], v) == NO
            case Some(s) => exists k :: i <= k < |c.members| && c.members[k] == s && Visible(c, s, v) != NO
                                        && forall j :: i <= j < k ==> Visible(c, c.members[j], v) == NO
    decreases |c.members| - i
  {
    hide Visible;
    if i < |c.members| {
      FirstVisibleIs(c, v, i + 1);
    }
  }

  lemma {:induction false} FirstDefaultIs(c: Choice, v: Valuation, i: nat)
    requires i <= |c.defaults|
    ensures match FirstDefault(c, v, i)
            case None => forall k :: i <= k < |c.defaults| ==> !Applies(c, v, k)
            case Some(s) => exists k :: i <= k < |c.defaults| && c.defaults[k].sym == s && Applies(c, v, k)
                                        && forall j :: i <= j < k ==> !Applies(c, v, j)
    decreases |c.defaults| - i
  {
    hide Applies;
    if i < |c.defaults| {
      FirstDefaultIs(c, v, i + 1);
    }
  }

  /** The user's pick and the defaults are members; menu.c only warns when a default is not. */
  predicate Contained(c: Choice) {
    && (c.userPick.Some? ==> c.userPick.value in c.members)
    && forall i :: 0 <= i < |c.defaults| ==> c.defaults[i].sym in c.members
  }

  lemma VisibleIsYes(c: Choice, s: Symbol, v: Valuation)
    ensures Visible(c, s, v) != MOD
  {
  }

  /** Exactly the winner is y: one member if any is visible, none otherwise. */
  lemma ExactlyOneMember(c: Choice, v: Valuation)
    requires Contained(c)
    ensures forall s :: s in c.members ==> (MemberTri(c, s, v) == YES <==> Winner(c, v) == Some(s))
    ensures forall s :: s in c.members ==> MemberTri(c, s, v) != MOD
    ensures (exists s :: s in c.members && Visible(c, s, v) != NO) <==> Winner(c, v).Some?
    ensures Winner(c, v).Some? ==> Winner(c, v).value in c.members
  {
    FirstVisibleIs(c, v, 0);
    FirstDefaultIs(c, v, 0);
    forall s
      ensures Visible(c, s, v) != MOD
    {
      VisibleIsYes(c, s, v);
    }
    hide Visible;
  }

  /** Default k is the first that applies. */
  ghost predicate AppliesFirst(c: Choice, v: Valuation, k: nat)
    requires k < |c.defaults|
  {
    Applies(c, v, k) && forall j :: 0 <= j < k ==> !Applies(c, v, j)
  }

  predicate PickVisible(c: Choice, v: Valuation) {
    c.userPick.Some? && Visible(c, c.userPick.value, v) != NO
  }

  ghost predicate MemberIsYes(c: Choice, v: Valuation) {
    exists s :: s in c.members && MemberTri(c, s, v) == YES
  }

  /** When a choice that is y has a member that is y, for any pick and any defaults: if the
      user's pick is visible, when that is a member; else if a default applies, when the first
      that does names a member; else when some member is visible. There is never a second. */
  lemma SomeMemberExact(c: Choice, v: Valuation)
    ensures MemberIsYes(c, v) <==>
            if PickVisible(c, v) then c.userPick.value in c.members
            else if exists k :: 0 <= k < |c.defaults| && Applies(c, v, k) then
              exists k :: 0 <= k < |c.defaults| && AppliesFirst(c, v, k) && c.defaults[k].sym in c.members
            else exists s :: s in c.members && Visible(c, s, v) != NO
    ensures forall s, t :: s in c.members && t in c.members && MemberTri(c, s, v) == YES && MemberTri(c, t, v) == YES ==> s == t
  {
    FirstVisibleIs(c, v, 0);
    FirstDefaultIs(c, v, 0);
    forall s
      ensures Visible(c, s, v) != MOD
    {
      VisibleIsYes(c, s, v);
    }
    WinnerYes(c, v);
    hide Visible; hide MemberTri; hide EvalOpt; hide MemberIsYes;
  }

  lemma WinnerYes(c: Choice, v: Valuation)
    ensures MemberIsYes(c, v) <==> Winner(c, v).Some? && Winner(c, v).value in c.members
    ensures forall s, t :: MemberTri(c, s, v) == YES && MemberTri(c, t, v) == YES ==> s == t
  {
    FirstVisibleIs(c, v, 0);
    FirstDefaultIs(c, v, 0);
    forall s
      ensures Visible(c, s, v) != MOD
    {
      VisibleIsYes(c, s, v);
    }
    hide Visible; hide EvalOpt;
    if Winner(c, v).Some? && Winner(c, v).value in c.members {
      assert MemberTri(c, Winner(c, v).value, v) == YES;
    }
  }

  /** With some member visible and a pick that is a member or absent, that is: the choice has
      its one member unless the pick is not visible and the first default that applies names a
      symbol outside the choice, which then wins; the members all stay n. */
  lemma ForeignDefaultWins(c: Choice, v: Valuation)
    requires c.userPick.Some? ==> c.userPick.value in c.members
    requires exists s :: s in c.members && Visible(c, s, v) != NO
    ensures !MemberIsYes(c, v) <==>
            && !PickVisible(c, v)
            && exists k :: 0 <= k < |c.defaults| && AppliesFirst(c, v, k) && c.defaults[k].sym !in c.members
  {
    SomeMemberExact(c, v);
    FirstDefaultIs(c, v, 0);
    hide Visible; hide EvalOpt; hide MemberIsYes; hide Applies;
  }

  // ---- who wins, in terms of the table

  /** Some prompt of s has a condition that is not n. */
  ghost predicate Shown(c: Choice, v: Valuation, s: Symbol) { SymbolMeaning.Prompted(c.Props(s), v, MOD) }

  /** Default k has a condition that is not n and names a symbol that is shown. */
  ghost predicate Offered(c: Choice, v: Valuation, k: nat) {
    k < |c.defaults| && EvalOpt(c.defaults[k].cond, v) != NO && Shown(c, v, c.defaults[k].sym)
  }

  ghost predicate OfferedFirst(c: Choice, v: Valuation, k: nat) { Offered(c, v, k) && forall j: nat :: j < k ==> !Offered(c, v, j) }

  ghost predicate ShownFirst(c: Choice, v: Valuation, k: nat) {
    k < |c.members| && Shown(c, v, c.members[k]) && forall j: nat :: j < k ==> !Shown(c, v, c.members[j])
  }

  lemma ShownIsVisible(c: Choice, v: Valuation, s: Symbol)
    ensures Shown(c, v, s) <==> Visible(c, s, v) != NO
  {
    SymbolMeaning.BestPromptAtLeast(c.Props(s), v, MOD);
  }

  lemma DefaultStated(c: Choice, v: Valuation, w: Symbol)
    ensures FirstDefault(c, v, 0).Some? <==> exists k: nat :: Offered(c, v, k)
    ensures FirstDefault(c, v, 0) == Some(w) <==> exists k: nat :: OfferedFirst(c, v, k) && c.defaults[k].sym == w
  {
    hide Visible; hide EvalOpt; hide Shown;
    forall s ensures Shown(c, v, s) <==> Visible(c, s, v) != NO { ShownIsVisible(c, v, s); }
    FirstDefaultIs(c, v, 0);
    assert forall k: nat :: k < |c.defaults| ==> (Applies(c, v, k) <==> Offered(c, v, k));
    if FirstDefault(c, v, 0).Some? {
      var k: nat :| k < |c.defaults| && c.defaults[k].sym == FirstDefault(c, v, 0).value && Applies(c, v, k)
                    && forall j :: 0 <= j < k ==> !Applies(c, v, j);
      assert OfferedFirst(c, v, k);
      assert forall i: nat :: OfferedFirst(c, v, i) ==> i <= k && k <= i;
    }
  }

  lemma MemberStated(c: Choice, v: Valuation, w: Symbol)
    ensures FirstVisible(c, v, 0) == Some(w) <==> exists k: nat :: ShownFirst(c, v, k) && c.members[k] == w
  {
    hide Visible; hide EvalOpt; hide Shown;
    forall s ensures Shown(c, v, s) <==> Visible(c, s, v) != NO { ShownIsVisible(c, v, s); }
    FirstVisibleIs(c, v, 0);
    if FirstVisible(c, v, 0).Some? {
      var k: nat :| k < |c.members| && c.members[k] == FirstVisible(c, v, 0).value && Visible(c, c.members[k], v) != NO
                    && forall j :: 0 <= j < k ==> Visible(c, c.members[j], v) == NO;
      assert ShownFirst(c, v, k);
      assert forall i: nat :: ShownFirst(c, v, i) ==> i <= k && k <= i;
    }
  }

  /** The user's pick wins if it is shown, over every default and every other member; else the
      first default that is offered; else the first member that is shown. */
  lemma WinnerStated(c: Choice, v: Valuation, w: Symbol)
    ensures Winner(c, v) == Some(w) <==>
            if c.userPick.Some? && Shown(c, v, c.userPick.value) then w == c.userPick.value
            else if exists k: nat :: Offered(c, v, k) then exists k: nat :: OfferedFirst(c, v, k) && c.defaults[k].sym == w
            else exists k: nat :: ShownFirst(c, v, k) && c.members[k] == w
  {
    hide Visible; hide EvalOpt; hide Shown; hide Offered; hide OfferedFirst; hide ShownFirst;
    if c.userPick.Some? { ShownIsVisible(c, v, c.userPick.value); }
    DefaultStated(c, v, w);
    MemberStated(c, v, w);
  }
}
