# Verified models of three parts of Buildroot

Three programs that Buildroot carries in its own tree, modelled in Dafny with proofs of what
they promise.

**The Kconfig engine** (`support/kconfig`). Dependencies are expressions in three-valued logic
(n < m < y; conjunction is the minimum, disjunction the maximum, negation 2 - x).

- `KconfigExpr`, `ExprEliminateEq`, `ExprEqual`, `ExprJoin`, `ExprPath`, `ExprDups`, `ExprTransform`,
  `ExprCompare`, `ExprSpot`, `ExprInPlace`: the rewriter of `expr.c`. It overwrites trees through
  pointers, walks one tree against itself, and its functions call each other and themselves on
  results; the theorems say that it terminates and that the value of an expression is kept under
  every valuation a symbol table can be in. A pointer into a tree is a path, so that two pointers
  into one tree are two paths into one value and a write through one is seen through the other.
- `SymbolGraph`, `SymbolCheck`, `SymbolOrder`: the depth-first search for recursive dependencies,
  which cycles it reports, and when there is an order to compute in.
- `SymbolValue`, `SymbolEval`, `SymbolRun`, `SymbolRange`, `SymbolChoice`: evaluation with the
  SYMBOL_VALID cache against a definition without one, the range test for user values, and the
  winner of a choice. `SymbolMeaning` says what the values are in terms of prompts, defaults,
  selects, implies and the user's values.
- `MenuLinks`, `MenuDeps`, `MenuFinalize`, `MenuWalk`, `MenuResult`: `menu_finalize`, which
  propagates conditions, makes automatic submenus and flattens `if` blocks in a linked tree, and
  the walk of `conf_write` over what it leaves. `MenuValue` says what the conditions it writes
  make of the values of symbols and of reverse dependencies, `MenuSubmenu` which entries go into
  automatic submenus and how far the test for them can go wrong, `MenuShape` where flattening
  leaves every node.
- `ConfEscape`, `ConfFile`: the lines of a `.config` file, written and read back, and exactly which
  lines set a symbol to what. `Numerals` is decimal text, here and in control sequences.

**The terminal emulator** (`package/simple-terminal`). `TermUtf8` is the decoder at its input,
`TermScreen`, `TermClass`, `TermMode`, `TermControl`, `TermVt` and `TermResize` are the screen
and the state machine over the characters, and `TermRun` says what holds after any run of reads,
resizes and draws. `TermMeaning` says what control codes and control functions mean for the text
and the cursor. A row buffer is a value with an identity; `line` and `alt` are sequences of
them. What the surface shows is part of the state, so that the soundness of the dirty marks is an
invariant: a row that is not marked is shown as it is.

**The boot image builder** (`package/mkpimage`). `ImageCrc`, `ImageHeader` and `ImageRoom`: the
table-driven CRC and the header, against a reader that takes the message bit by bit, sums the
header again and decodes the ARM branch, and the smallest images.

## What the code does that one might not expect

Each is stated by a lemma or a contract, with the exact condition.

- `a = b && a != c` with constants b and c is simplified wrongly when both stand for the value of
  a, as "2" and y do (`ExprJoin.ConstRuleExact`, `ExprJoin.NumeralConstantsBreakJoin`).
- `expr_trans_compare` compares an expression with y or n as if m were n or y. That is wrong for
  a negated symbol exactly when it is m (`ExprCompare.TransCompareCollapses`,
  `ExprCompare.NegatedSymbolExact`). Comparing with m, which no caller asks for, drops the
  comparison at the first conjunction or disjunction (`ExprCompare.TransCompareModExact`).
- So the superset test can put an entry with a negated condition into the submenu of a symbol
  whose prompt is invisible while the entry is not: for every entry that is n once each m is read
  as y, if and only if its simplified condition is a conjunction (`MenuSubmenu.SupersetExact`,
  `MenuDeps.NegatedEntryExact`, `MenuDeps.SubmenuFollowsSymbol`).
- `expr_eq` counts operands, although the comment above it says otherwise, and with y or n as
  operands it is neither transitive nor independent of order; without them it compares the
  operands up to order and grouping (`ExprEqual.OperandsAreCounted`,
  `ExprEqual.ExprEqNotTransitive`, `ExprEqual.ExprEqOrderMatters`, `ExprEqual.ExprEqExact`).
- `expr_trans_bool` changes whether a negated `A != n` is n exactly when the tristate A is m; in
  normal form it changes no such thing (`ExprTransform.NegatedTestExact`,
  `ExprTransform.TransBoolValue`). `menu_finalize` runs it on normal forms only, which leaves all
  prompts and defaults as they were (`MenuValue.FinalValues`). But it weakens a select by a bool
  from y to m exactly when the y of the simplified condition, the place of the select included,
  rests on a tristate worth m that is compared `!= n` (`MenuValue.SelectExact`; `A != n || C` with
  C = y does not).
- `sym_tristate_within_range` refuses y for a tristate that is visible at m and implied at y,
  although storing y would take effect (`SymbolRange.RangeTestExact`,
  `SymbolRange.RangeTestException`).
- A choice default that names a symbol outside the choice can win, and then no member is y
  (`SymbolChoice.ForeignDefaultWins`, `SymbolChoice.SomeMemberExact`).
- `sym_check_deps` hands back NULL to the parser even after it printed a recursive dependency, so
  the parser's error count stays 0 (`SymbolCheck.CheckAll`). The check does not
  follow what an imply leaves in its target, which evaluation does: two symbols that imply each
  other pass, and the rules allow both to be n and both to be y. Values are determined on a table
  if the edges of evaluation itself have no cycle, which is exactly when there is an order to
  compute in (`SymbolOrder.ImplyGoesUnchecked`, `SymbolOrder.ImplyUndetermined`,
  `SymbolOrder.OrderExists`, `SymbolRun.CheckThenRun`). Evaluation ends in any case
  (`SymbolEval.Evaluator.CalcValue`).
- ED with parameter 1 leaves row 0 alone when the cursor is in row 1, ECH erases one cell more
  than asked, and the final byte `e`, which ECMA-48 calls VPR, moves up like `A`
  (`TermControl.EraseDisplay`, `TermControl.Erase`, `TermControl.CsiHandle`).
- A reset (ESC c) leaves the main screen aside exactly when the alternate screen is shown; what
  was the alternate screen is the main one from then on (`TermVt.EscapeKeepsMain`,
  `TermRun.MainScreenRestored`, `TermRun.ResetAside`). CAN and SUB empty a control sequence but do
  not end it (`TermVt.Vt.PutControl`).
- The visible screen of a new terminal is blank, but the other one holds whatever memory it was
  given until it is first left (`TermClass.Term.constructor`).
- A version 1 image without -b made of 80 bytes ends where its trampoline should be and cannot be
  started. One made of 81 to 84 bytes has its CRC on the trampoline, and can be started only if
  the CRC happens to be the branch instruction, which is not so for two inputs that differ in one
  of their first 64 bytes. All other accepted inputs have room (`ImageRoom.RoomExact`,
  `ImageRoom.NoTrampoline`, `ImageRoom.TrampolineOverwritten`, `ImageRoom.NotBothByChance`).

## Assumptions

`KconfigExpr.WellTyped` is what a symbol table guarantees of a computed state: y, m and n have
their own values and are not numbers, a bool is n or y, a bool or tristate prints as its value,
and a constant prints as its name. `SymbolValue.FullWellTyped` proves it of every computed state.
`KconfigExpr.Clean` excludes comparisons of symbols of type S_OTHER, which are incomparable, and
of tristates with constants that read as numbers; the first item above shows what happens without
it. `strtoll` and `strtoull` are a parameter of the valuation. The modules symbol keeps its value
during a run.

## Model

| member | source | states |
|---|---|---|
| KconfigExpr.TriCompare | support/kconfig/expr.c:1026-1104 | comparing a bool or tristate with y, m or n compares their values, for `=` and `!=` |
| KconfigExpr.NumbersCompared | support/kconfig/expr.c:991-1104 | each of the six relations between two symbols that stand for numbers is that relation between the numbers, a bool or tristate standing for its value; with a hex symbol on either side, between the numbers modulo 2 to the 64th |
| KconfigExpr.TextsCompared | support/kconfig/expr.c:1026-1104 | two string symbols, or symbols of which one stands for no number, are related by the order of their texts: at the first difference the smaller character or the end comes first |
| KconfigExpr.OthersCompared | support/kconfig/expr.c:1074-1081 | a symbol of type S_OTHER and a number are equal or different by their texts, and in no order |
| ExprEliminateEq.EliminateYnValue | support/kconfig/expr.c:308-389 | removing constant operands keeps the value under every well-typed valuation |
| ExprEliminateEq.EliminateYnShrinks | support/kconfig/expr.c:308-389 | no conjunction or disjunction with a constant y or n operand is left; the tree gets strictly smaller if there was one and is unchanged if there was none |
| ExprEliminateEq.EliminateOperands | support/kconfig/expr.c:149-189 | neither tree grows and neither changes its top operator, which is what lets expr_eq, expr_eliminate_eq and this walk call each other and still terminate |
| ExprEliminateEq.EliminateOperandsCommon | support/kconfig/expr.c:149-189 | what the walk takes out of both trees is one common operand: there is one value c with which both results, combined by the operator, give the originals |
| ExprEliminateEq.ExprEqSound | support/kconfig/expr.c:251-295 | two expressions that expr_eq calls equal have the same value under every well-typed valuation |
| ExprEliminateEq.EliminateEqReflects | support/kconfig/expr.c:220-240 | an order between the two results is an order between the two originals |
| ExprEliminateEq.ReducedToYes | support/kconfig/menu.c:472-483 | when dep2 reduces to y, the original dep is at most the original dep2 under every valuation: the superset test of automatic submenus |
| ExprJoin.JoinOrValue | support/kconfig/expr.c:423-485 | a joined disjunction has the value of the larger operand |
| ExprJoin.JoinAndValue | support/kconfig/expr.c:487-579 | a joined conjunction has the value of the smaller operand |
| ExprJoin.JoinValue | support/kconfig/expr.c:423-579 | both joins keep the value, and keep expressions free of numerals compared with tristates |
| ExprJoin.JoinSize | support/kconfig/expr.c:423-579 | a joined expression is smaller than its two operands together and is not a new node of their operator |
| ExprJoin.JoinOrExact | support/kconfig/expr.c:423-485 | exactly which disjunctions join, and to what: equal operands; for a tristate two of the tests for y, m and n, to the test against the third; a bool or its negation, to y; in either order, and nothing else |
| ExprJoin.JoinAndExact | support/kconfig/expr.c:487-579 | exactly which conjunctions join, and to what: equal operands; a symbol with its test for y or against n or m; for a tristate a test for one constant with a test against another, and two tests against y, m or n, to the test for the third; in either order, and nothing else |
| ExprJoin.ConstRuleExact | support/kconfig/expr.c:531-545 | the rule for `a = b && a != c` with two constants is right if and only if they are the same constant or do not both stand for the value of a |
| ExprJoin.NumeralConstantsBreakJoin | support/kconfig/expr.c:531-545 | an input on which that rule is wrong: a tristate a = y, `a = "2" && a != y` |
| ExprDups.Dups1 | support/kconfig/expr.c:588-643 | the walk of one tree against itself terminates, keeps the nodes of the level it walks and never makes the tree larger |
| ExprDups.Dups1Value | support/kconfig/expr.c:588-643 | it keeps the value of the tree although both pointers write into it |
| ExprDups.Dups1Count | support/kconfig/expr.c:588-643 | it counts no join if and only if no two operands can be joined, at any depth, and then changed nothing; if it counts one, expr_eliminate_yn has a constant to remove |
| ExprDups.EliminateDupsValue | support/kconfig/expr.c:656-678 | expr_eliminate_dups, which terminates on every expression, keeps the value |
| ExprDups.EliminateDupsDone | support/kconfig/expr.c:656-678 | it stops only when nothing can be joined; a second run changes nothing; it changes something exactly when something can be joined, and then the tree is strictly smaller |
| ExprDups.JoinlessOperands | support/kconfig/expr.c:656-678 | in its result no two different operands of the top level can be joined, and the operands are themselves finished |
| ExprEqual.ExprEqExact | support/kconfig/expr.c:251-295 | on expressions without y and n as operands, expr_eq holds if and only if the two have the same operands, counted, up to order and grouping, at every level |
| ExprEqual.ExprEqEquivalence | support/kconfig/expr.c:251-295 | there it is reflexive, symmetric and transitive |
| ExprEqual.ExprEqRegroups | support/kconfig/expr.c:251-295 | neither the order nor the grouping of operands matters to it |
| ExprEqual.WalkBags | support/kconfig/expr.c:149-189 | the walk over two levels takes out of each exactly the operands that the other has too, as often as it has them |
| ExprEqual.ExprEqReflexive | support/kconfig/expr.c:251-295 | every expression, with constants or without, is equal to itself |
| ExprEqual.ExprEqNotTransitive | support/kconfig/expr.c:251-295 | with n as an operand it is not transitive: an input |
| ExprEqual.ExprEqOrderMatters | support/kconfig/expr.c:251-295 | nor independent of the order of operands: an input |
| ExprEqual.OperandsAreCounted | support/kconfig/expr.c:244-249 | `A && A && B` and `A && B && B` are not equal, although every operand of the one equals one of the other |
| ExprEqual.NoOperandTwice | support/kconfig/expr.c:656-678 | expr_eliminate_dups leaves no operand of its top level twice, neither written alike nor reordered or regrouped |
| ExprInPlace.Rewriter.EliminateOperandsAt | support/kconfig/expr.c:149-189 | the pointer walk over two trees leaves in each what the function on values computes, every write taking effect where the pointer points |
| ExprInPlace.Rewriter.EliminateEqIn | support/kconfig/expr.c:220-240 | the in-place expr_eliminate_eq computes the same pair of trees |
| ExprInPlace.Rewriter.ExprEqual | support/kconfig/expr.c:251-295 | expr_eq on copies gives the answer of the predicate and leaves trans_count as it was |
| ExprInPlace.Rewriter.Dups1At | support/kconfig/expr.c:588-643 | with both pointers in one tree, what one writes the other sees, and the outcome and the count are those of the function on values |
| ExprInPlace.Rewriter.JoinOperandsAt | support/kconfig/expr.c:618-641 | a join writes the unit over the first operand and the joined expression over the second, and nothing else |
| ExprInPlace.Rewriter.EliminateDupsIn | support/kconfig/expr.c:656-678 | the loop of passes terminates, computes the function on values and restores trans_count |
| ExprTransform.Transform | support/kconfig/expr.c:686-841 | expr_transform terminates: it calls itself on results it already rewrote, but the weight (1 for a symbol, 3 for a comparison, doubled by a negation) does not grow |
| ExprTransform.TransformNormal | support/kconfig/expr.c:686-841 | negation is left only on symbols other than y, m and n, and no bool is compared with one of these |
| ExprTransform.TransformIdempotent | support/kconfig/expr.c:686-841 | a second run changes nothing |
| ExprTransform.TransformValue | support/kconfig/expr.c:686-841 | the value is kept under every well-typed valuation |
| ExprTransform.NegatedValue | support/kconfig/expr.c:761-784 | negating the relation of a comparison negates its value unless the symbols are incomparable |
| ExprTransform.TransBoolValue | support/kconfig/expr.c:394-418 | unless a tristate worth m is compared `!= n` below a negation, expr_trans_bool never raises the value and never changes whether it is n |
| ExprTransform.NormalNoNegatedModTest | support/kconfig/expr.c:394-418 | an expression in normal form, which is what menu_finalize passes, never has such a comparison |
| ExprTransform.TransBoolExact | support/kconfig/expr.c:394-418 | where no tristate worth m is compared `!= n` at all, it keeps the value exactly |
| ExprTransform.TransBoolYes | support/kconfig/expr.c:394-418 | on a normal expression a y stays y if and only if it does not rest on a tristate worth m that is compared `!= n`, of a disjunction one operand that is y being enough; any other value stays |
| ExprTransform.NegatedTestExact | support/kconfig/expr.c:394-418 | for `!(A != n)` it keeps whether the value is n if and only if the tristate A is not m; as m, A takes it from n to m |
| ExprSpot.EliminateYnAt | support/kconfig/expr.c:308-389 | working in place from the operands up, overwriting each node where it stands, it leaves at its spot the tree that the function on values gives, and the rest of the tree as it was |
| ExprSpot.TransformAt | support/kconfig/expr.c:686-841 | the same of expr_transform, which runs again on trees it has just written |
| ExprSpot.TransformNotAt | support/kconfig/expr.c:751-832 | the same of its second switch, on a negation whose operand is finished |
| ExprSpot.TransBoolAt | support/kconfig/expr.c:394-418 | the same of expr_trans_bool |
| ExprCompare.TransCompareCollapses | support/kconfig/expr.c:914-977 | for every expression, comparing with y or n tests the expression with its symbols collapsed to two values, m read as n against y and as y against n; so it is right exactly where that agrees |
| ExprCompare.TransCompareValue | support/kconfig/expr.c:914-977 | it does while no negated operand is worth m: comparing with y or n is then exact |
| ExprCompare.NegatedSymbolExact | support/kconfig/expr.c:914-977 | for a negated symbol it is exact if and only if the symbol is not m |
| ExprCompare.TransCompareModExact | support/kconfig/expr.c:914-977 | comparing with m is right if and only if, below the leading negations, either a conjunction or disjunction stands and the whole is n, or none stands and the negations are even in number |
| ExprCompare.TransCompareBelow | support/kconfig/expr.c:914-977 | on a normal expression `e != n` can be missed but is never invented |
| ExprCompare.ContainsSymbolSound | support/kconfig/expr.c:843-869 | an expression that does not contain a symbol has the same value whatever that symbol is |
| ExprCompare.DependsSymbolSound | support/kconfig/expr.c:871-898 | an expression that depends on a symbol is n whenever the symbol is, and contains it; when it depends is DependsStated |
| MenuDeps.RewriteMValue | support/kconfig/menu.c:81-104 | rewriting m to `m && MODULES` evaluates as if m were worth n while MODULES is n |
| MenuDeps.EliminateDupsNormal | support/kconfig/expr.c:656-678 | expr_eliminate_dups keeps the normal form |
| MenuDeps.PropagateExact | support/kconfig/menu.c:348-353 | the propagated condition is worth exactly the smaller of the parent's and the rewritten own one |
| MenuDeps.PropagateNormal | support/kconfig/menu.c:348-353 | conditions stay in normal form from parent to child |
| MenuDeps.PropagatePropVisible | support/kconfig/menu.c:392-398 | the extra expr_trans_bool for symbols that are not tristates keeps whether the property's condition is n |
| MenuDeps.PresenceValue | support/kconfig/menu.c:448-450 | the simplified `e != n` says whether e, every m read as y, is not n; where no negated operand is worth m, whether e is not n; in normal form it is never y too often |
| MenuDeps.SubmenuFollowsSymbol | support/kconfig/menu.c:454-487 | an entry put below a symbol for depending on it is visible only while the symbol is not n; one put there by the superset test has the prompt of the symbol visible wherever its condition, m read as y, is not n |
| MenuDeps.NegatedEntryExact | support/kconfig/menu.c:466-487 | an entry that the superset test puts into the submenu of S although it is negated: `(S OR Q) && !A` where the prompt of S has `A = n`; while S or Q is set, the entry is visible without the prompt if and only if the tristate A is m |
| MenuSubmenu.DependsStated | support/kconfig/expr.c:871-898 | an entry depends on a symbol s if and only if some operand of its conjunction, at any place in it, is s, `s = y`, `s = m` or `s != n` |
| MenuSubmenu.DependsByBag | support/kconfig/expr.c:871-898 | so neither the order nor the grouping of the operands matters |
| MenuSubmenu.ContainsStated | support/kconfig/expr.c:843-869 | an expression contains a symbol if and only if the symbol stands in it |
| MenuSubmenu.InSubmenuStated | support/kconfig/menu.c:454-487 | what goes below a symbol: every entry with such an operand, and every other entry that names the symbol and passes the superset test; nothing else |
| MenuSubmenu.SupersetExact | support/kconfig/menu.c:448-487 | for every normal condition that is n once each m is read as y: some prompt condition that is n too passes the superset test for it if and only if the simplified `dep != n` is a conjunction |
| MenuSubmenu.TestedAsPrompt | support/kconfig/menu.c:448-474 | that simplified condition is such a prompt condition: it says the same and is simplified to the same again |
| MenuValue.FinalVisibility | support/kconfig/symbol.c:209-239 | sym_calc_visibility over the conditions that menu_finalize wrote finds the best prompt as the menu tree states it, each condition under that of its node, up to m counting as y for a symbol that cannot be m |
| MenuValue.SameNoCalc | support/kconfig/symbol.c:209-270 | a symbol that is not a tristate has the same value, dependencies and write flag under conditions that are n in the same places |
| MenuValue.FinalValues | support/kconfig/menu.c:390-398 | the value of every symbol of a table is the same whether menu_finalize runs expr_trans_bool on prompts and defaults or leaves it out, and running it brings in no cycle |
| MenuValue.SelectStrength | support/kconfig/menu.c:390-412 | what a select adds to the reverse dependency of its target is n exactly where the select says n, never stronger than it says, and exactly that strong from a tristate |
| MenuValue.ReverseStrength | support/kconfig/menu.c:404-412 | the same of all selects of a target together, accumulated in order: against the strongest of them |
| MenuValue.SelectExact | support/kconfig/menu.c:396-408 | a select by a symbol that is not a tristate, under any condition at any place: the strength is as stated unless that is y and the y of the simplified condition rests on a tristate worth m that is compared `!= n`; the target is then selected at m |
| MenuValue.ReverseExact | support/kconfig/menu.c:404-412 | all selects of a target together: it is selected at y if and only if some select comes through at y |
| MenuValue.SelectWeakened | support/kconfig/menu.c:396-408 | an instance: under `B != n` alone it is as stated if and only if the tristate B is not m or the symbol is not y |
| SymbolGraph.RankExcludesCycles | support/kconfig/symbol.c:1312-1344 | a rank that goes down along every checked edge rules out every cycle |
| SymbolCheck.Checker.CheckDeps | support/kconfig/symbol.c:1312-1344 | terminates; SYMBOL_CHECK is as before; every report is a real cycle; without any report the symbol and all it needs are ranked; a symbol handed back is on the path above |
| SymbolCheck.Checker.CheckSymDeps | support/kconfig/symbol.c:1241-1273 | visits the reverse dependency and the properties in order; without any report all edges of the symbol, which CheckedStated lists, lead to ranked symbols |
| SymbolCheck.Checker.CheckExpr | support/kconfig/symbol.c:1206-1238 | the same for the symbols of an expression |
| SymbolCheck.CheckAll | support/kconfig/zconf.y:554-559 | over the whole table a recursive dependency is reported if and only if the graph of the visited edges has a cycle (AskCycleStated says which), in spite of the early aborts; no report yields a rank; and the error count of the parser stays 0 either way |
| SymbolOrder.CheckedStated | support/kconfig/symbol.c:1241-1273 | the edges of the check, for any kinds of properties: s leads to t if and only if t stands in the reverse dependency of s, in the condition of a property other than a choice or a select, or in a default |
| SymbolOrder.AskCycleStated | support/kconfig/symbol.c:1241-1344 | so the check reports if and only if there is a cycle of such edges; one through selects, prompts or defaults is always reported |
| SymbolOrder.EvalStated | support/kconfig/symbol.c:209-270 | evaluation asks for the symbols of the three dependencies, of the conditions of prompts and defaults and of what defaults name, and for no others |
| SymbolValue.DefaultProp | support/kconfig/symbol.c:115-125 | the default that applies is the first whose condition is not n |
| SymbolMeaning.VisibleStated | support/kconfig/symbol.c:209-239 | a symbol is visible if and only if some prompt has a condition that is not n, and at y if some prompt is y or the symbol cannot be m |
| SymbolMeaning.UnsetStated | support/kconfig/symbol.c:411-440 | a bool or tristate without a visible prompt or without a user value is not n if and only if its first default that applies, its selects or its implies say so, and y if and only if one of them reaches y or the symbol is never m |
| SymbolMeaning.SetStated | support/kconfig/symbol.c:411-440 | one with a visible prompt and a user value is not n if and only if that value or its selects are not, and y if and only if the value is y and the prompt too, or the selects reach y, or m is promoted |
| SymbolMeaning.WrittenStated | support/kconfig/symbol.c:411-440 | written to the file are the symbols with a visible prompt, a default that applies, a select or an imply, but not the automatic ones |
| SymbolMeaning.TextStated | support/kconfig/symbol.c:446-462 | a string, int or hex has the user text if a prompt is visible and there is one, else the text of the symbol that its first default that applies names, else none |
| SymbolMeaning.InvisibleIgnored | support/kconfig/symbol.c:357-498 | while no prompt of a symbol is visible, its stored user value plays no part in the value of any symbol, its own included |
| SymbolValue.CalcAgree | support/kconfig/symbol.c:357-498 | the value of a symbol depends only on the symbols that evaluation asks for |
| SymbolValue.ValueEquation | support/kconfig/symbol.c:357-498 | on an acyclic graph the value defined by recursion satisfies the evaluation rules over the values of all symbols |
| SymbolValue.ValueUnique | support/kconfig/symbol.c:357-498 | no other assignment of values satisfies them |
| SymbolValue.CalcShape | support/kconfig/symbol.c:357-498 | a constant is worth its name, and a symbol that is bool now is never m |
| SymbolValue.FullWellTyped | support/kconfig/symbol.c:803-825 | the computed state is a well-typed valuation, so the theorems on rewritten expressions hold of it; nothing but the constant is m while modules are off |
| SymbolEval.Evaluator.CalcValue | support/kconfig/symbol.c:357-498 | ends on every table, recursive dependencies included, because a symbol already marked valid is left alone; afterwards the symbol is valid, and where there is an order to compute in, every valid symbol not being computed holds its cache-free value |
| SymbolEval.Evaluator.ExprValue | support/kconfig/expr.c:1026-1104 | expression evaluation, which computes symbols as it meets them, gives the value over the cache-free values |
| SymbolEval.Evaluator.Visibility | support/kconfig/symbol.c:209-270 | visibility and the three dependency values are the cache-free ones |
| SymbolEval.Evaluator.FindDefault | support/kconfig/symbol.c:115-125 | the loop over the properties finds the default that applies and its condition |
| SymbolEval.Evaluator.TriValue | support/kconfig/symbol.c:405-445 | the bool and tristate case gives the cache-free value, that of UnsetStated and SetStated |
| SymbolEval.Evaluator.StringValue | support/kconfig/symbol.c:446-462 | so does the string, int and hex case, with TextStated |
| SymbolEval.Evaluator.ClearAllValid | support/kconfig/symbol.c:500-509 | invalidating everything and computing the modules symbol again leaves a state from which evaluation is right |
| SymbolRun.Run | support/kconfig/symbol.c:357-509 | every sequence of computations and invalidations ends, on every table; where there is an order to compute in, each computation finds the cache-free value: results do not depend on call order |
| SymbolRun.CheckThenRun | support/kconfig/symbol.c:357-509 | on every table: the check reports if and only if there is a cycle of selects, prompts and defaults; whatever it reports, unless the edges that evaluation follows have a cycle, every computed value is the one solution of the evaluation rules |
| SymbolOrder.OrderExists | support/kconfig/symbol.c:357-498 | there is an order to compute in if and only if the edges that evaluation follows have no cycle |
| SymbolOrder.CheckedHasOrder | support/kconfig/symbol.c:1241-1273 | a table that the check accepts has an order to compute in, if the symbols of direct dependencies and implies, which are not checked, stand in checked conditions too |
| SymbolOrder.ImplyGoesUnchecked | support/kconfig/symbol.c:1241-1273 | it does not follow what an imply leaves in its target: two symbols that imply each other pass the check and have no order |
| SymbolOrder.ImplyUndetermined | support/kconfig/symbol.c:261-269 | the evaluation rules then allow both symbols to be n, and both to be y |
| SymbolRun.ValuesIndependentOfRank | support/kconfig/symbol.c:357-498 | the values do not depend on the order they are computed in |
| SymbolRange.Recalculated | support/kconfig/symbol.c:405-445 | after a value is stored, the symbol is worth it cut off at its visibility, raised to its selects, with m promoted |
| SymbolRange.RangeTestExact | support/kconfig/symbol.c:511-530 | for a changeable symbol the range test holds if and only if storing the value takes effect, in every case but one, and in that one it does not: y on a tristate visible at m and implied at y |
| SymbolRange.AcceptedTakesEffect | support/kconfig/symbol.c:532-566 | a value that the test accepts is the value the symbol then has |
| SymbolRange.RangeTestException | support/kconfig/symbol.c:511-530 | the exception happens: a graph and a symbol |
| SymbolChoice.CalcChoice | support/kconfig/symbol.c:304-334 | the winner is the user's pick if visible, else the default; the choice still counts as set by the user if and only if it did and every visible member does |
| SymbolChoice.ChoiceDefaultSymbol | support/kconfig/symbol.c:278-302 | the first default that applies and is visible, else the first visible member |
| SymbolChoice.FirstVisibleIs | support/kconfig/symbol.c:294-301 | that member is visible and no earlier one is; if there is none, no member is visible |
| SymbolChoice.FirstDefaultIs | support/kconfig/symbol.c:284-292 | the default found has a condition that is not n and a visible symbol, and no earlier one has; if there is none, none has |
| SymbolChoice.WinnerStated | support/kconfig/symbol.c:278-334 | a pick of the user with a visible prompt wins over every default and member; else the first default whose condition is not n and whose symbol has a visible prompt; else the first member with one |
| SymbolChoice.ExactlyOneMember | support/kconfig/symbol.c:405-410 | in a bool choice that is y, exactly the winner is y: one member if any is visible, none otherwise, and none is m |
| SymbolChoice.ForeignDefaultWins | support/kconfig/symbol.c:278-334 | with some member visible and the pick a member or absent, no member is y if and only if the pick is not visible and the first default that applies names a symbol outside the choice |
| SymbolChoice.SomeMemberExact | support/kconfig/symbol.c:278-334 | for any pick and defaults: some member is y if and only if the visible pick is a member, or without one the first default that applies names a member, or without that some member is visible; never two |
| MenuWalk.Walk | support/kconfig/confdata.c:792-824 | the loop by list, next and parent terminates and visits exactly the nodes below the root in document order, each once |
| MenuWalk.Climb | support/kconfig/confdata.c:818-823 | the way up stops at the first enclosing node with a sibling still to visit |
| MenuFinalize.Menus.PropagateDeps | support/kconfig/menu.c:343-399 | every child of a node, and nothing else, gets the condition rewritten under the node's own |
| MenuFinalize.Menus.Finalize | support/kconfig/menu.c:296-605 | the tree below a node and the siblings it takes keep their document order and get the right parents; every node below is finalized once, in that order, with the condition its original place gives it; nothing else in the tree changes |
| MenuFinalize.Menus.FinalizeChildren | support/kconfig/menu.c:423-424 | the loop over the children goes on correctly although each call may take later children away |
| MenuFinalize.Menus.AbsorbSiblings | support/kconfig/menu.c:448-494 | the entries right after a symbol become its children, in order, as long as they pass the submenu test, which InSubmenuStated states: every one that does so passes it and the first one left behind does not; the list goes on after the last of them |
| MenuFinalize.Menus.Splice | support/kconfig/menu.c:490-494 | the absorbed siblings are the children of the symbol and what followed them its siblings, both with the same nodes, subtrees and order, and the pointers of all other nodes are as before |
| MenuFinalize.Menus.Flatten | support/kconfig/menu.c:566-576 | children of nodes without prompt text move up behind them, and theirs in turn, while a node with a text keeps its own; the order of all nodes is kept |
| MenuShape.FlattenedParents | support/kconfig/menu.c:566-576 | after that loop a node whose parent has no prompt text has gone up to the parent of that one, and every other node is where it was; the order of all nodes is kept |
| MenuFinalize.Menus.Adopt | support/kconfig/menu.c:567-571 | along a list of siblings every parent pointer is redirected and the last sibling found |
| MenuResult.NodeExact | support/kconfig/menu.c:348-398 | a node's final dependency and prompt are worth what its parent's final one and its own original ones say |
| MenuResult.ChainExact | support/kconfig/menu.c:348-398 | this holds of every node of a tree, by its original parent |
| MenuResult.ChainInherits | support/kconfig/menu.c:331-353 | in the finished tree the dependency of a node is worth its own original condition, cut off below a choice at the value of the choice, below an entry with a prompt at the prompt and the dependency of that entry, below any other at its dependency; up to m counting as y where the entry with the prompt is not a tristate |
| MenuResult.FinalizeAndWrite | support/kconfig/menu.c:296-605 | a whole run: every node is finalized exactly once, in document order; the writing loop then visits every node below the root in that same order; only nodes with prompt text still have children |
| ConfEscape.UnescapeInverts | support/kconfig/symbol.c:962-1003 | unescaping what was escaped, up to the closing quote, gives the text back whatever follows |
| ConfEscape.UnescapeExact | support/kconfig/confdata.c:160-177 | unescaping gives a text if and only if what stands before a closing quote spells it, each character by itself or after a backslash |
| ConfEscape.EscapePlain | support/kconfig/symbol.c:982-1000 | a text without quotes and backslashes is written as it is |
| ConfEscape.QuoteInjective | support/kconfig/symbol.c:962-1003 | different texts have different quoted forms |
| ConfEscape.EscapedSize | support/kconfig/symbol.c:968-980 | the first pass computes exactly the length that the second writes, quotes and terminator included |
| ConfEscape.EscapeString | support/kconfig/symbol.c:962-1003 | the second pass fills the allocated buffer exactly and writes the quoted text |
| ConfEscape.UnescapeInPlace | support/kconfig/confdata.c:162-173 | the loop that shifts the line buffer left at every backslash leaves the unescaped text before the closing quote, and reports a missing quote if and only if there is none |
| ConfFile.LineRoundTrip | support/kconfig/confdata.c:312-372 | the line written for a symbol with a valid value, read back, sets that symbol to that value |
| ConfFile.UnsetRoundTrip | support/kconfig/confdata.c:315-343 | so does the comment form for n |
| ConfFile.AssignRoundTrip | support/kconfig/confdata.c:344-372 | an assignment line sets its symbol to what its text says, whatever the text before the line end |
| ConfFile.SymStringValid | support/kconfig/symbol.c:591-627 | the loop over the characters admits an int if and only if it is the decimal text of an integer or -0, and a hex if and only if it is a run of at least one hex digit, alone or after 0x or 0X |
| Numerals.DigitsDecimal | support/kconfig/symbol.c:598-607 | digits without a leading zero are the decimal text of a number |
| ConfFile.SetTriExact | support/kconfig/confdata.c:129-151 | a bool takes a text that starts with y or n, a tristate also one that starts with m, and nothing else |
| ConfFile.SetStringExact | support/kconfig/confdata.c:160-185 | a string takes exactly what is spelled between a quote at the start and the next closing one |
| ConfFile.CutExact | support/kconfig/confdata.c:347-352 | the value ends before the first newline, or before a carriage return just before it |
| ConfFile.UnsetExact | support/kconfig/confdata.c:314-343 | a comment line sets a symbol if and only if it is `#`, any character, the prefix, the name of a bool or tristate and ` is not set`, whatever follows, and then to n |
| ConfFile.AssignExact | support/kconfig/confdata.c:344-372 | any other line sets a symbol if and only if it is the prefix, its name, `=` and a text whose part before the line end is a value of the symbol, and then to that value |
| ConfFile.Reader.ReadLine | support/kconfig/confdata.c:312-400 | one line changes the user values exactly as its effect says |
| ConfFile.Reader.SetSymVal | support/kconfig/confdata.c:125-193 | a value is stored if and only if the type of the symbol admits the text: SetTriExact, SetStringExact and SymStringValid say which, 0x values included |
| ConfFile.WriteThenRead | support/kconfig/confdata.c:486-507 | any list of distinctly named symbols whose values are y, m or n, any text without newline, the decimal text of an integer or -0, or hex digits with or without 0x, written and read back, gives exactly these values to exactly these symbols |
| ImageCrc.TableCorrect | package/mkpimage/mkpimage.c:104-148 | every entry of crc_table is its index shifted eight times by the polynomial 0x04c11db7 |
| ImageCrc.NextByteShift | package/mkpimage/mkpimage.c:150-158 | eight message bits fed one at a time are eight shifts of the register with the byte added at its top |
| ImageCrc.TableStepCorrect | package/mkpimage/mkpimage.c:155-156 | one table step is eight bit steps |
| ImageCrc.Crc32 | package/mkpimage/mkpimage.c:150-158 | the table-driven loop computes the bit-by-bit CRC |
| ImageHeader.BranchReaches | package/mkpimage/mkpimage.c:163-171 | decoding the encoded offset at PC + 8 gives the destination if and only if it is a whole number of words away and within 32 MB |
| ImageHeader.Branch | package/mkpimage/mkpimage.c:163-171 | the four bytes written are that instruction, and no others change |
| ImageHeader.WordBytes | package/mkpimage/mkpimage.c:249-252 | the bytes of a register put together again give the register |
| ImageHeader.WriteFields | package/mkpimage/mkpimage.c:186-235 | the header fields, byte by byte for version 1, and a start that leads to the entry if and only if the header can express it, through the trampoline where needed, at the end of the image or behind it |
| ImageHeader.WriteChecksum | package/mkpimage/mkpimage.c:237-247 | the checksum field equals the sum of the header bytes before it |
| ImageHeader.WriteCrc | package/mkpimage/mkpimage.c:249-252 | the last four bytes are the complemented CRC of all others |
| ImageHeader.AddHeader | package/mkpimage/mkpimage.c:175-255 | for every image of at least 84 bytes, as long as the memory written is there: the fields and the CRC are accepted by an independent reader; where the last four bytes come after the rest, so is the checksum, and following the start leads to the requested entry if and only if that entry is in range; bytes outside the header, a trampoline and the CRC are unchanged; sizes that are not multiples of 4 are refused with nothing written |
| ImageRoom.RoomExact | package/mkpimage/mkpimage.c:262-360 | for every input that main accepts: the CRC comes after header and trampoline unless it is 80 to 84 bytes in version 1 without -b, 80 making an image that ends where the trampoline should be and 81 to 84 one with the CRC exactly on it; the header never cuts off the size |
| ImageRoom.NoTrampoline | package/mkpimage/mkpimage.c:191-203 | an image that ends where its trampoline should be cannot be started |
| ImageRoom.TrampolineOverwritten | package/mkpimage/mkpimage.c:249-252 | one with the CRC on the trampoline can be started if and only if the CRC happens to be the branch instruction |
| ImageRoom.AddHeaderToSmallest | package/mkpimage/mkpimage.c:175-255 | the same in terms of the first 64 bytes that add_socfpga_header is given |
| ImageRoom.AddHeaderBeforeEnd | package/mkpimage/mkpimage.c:175-255 | on an image of 84 bytes, with the trampoline written behind it: fields and CRC are right, and it cannot be started |
| ImageRoom.NotBothByChance | package/mkpimage/mkpimage.c:175-255 | of two inputs that differ in one of these bytes, one makes an image that cannot be started |
| ImageRoom.OneByteMatters | package/mkpimage/mkpimage.c:150-158 | two messages that differ in one byte have different CRCs |
| ImageRoom.CrcDetectsByte | package/mkpimage/mkpimage.c:249-252 | a finished image with any one byte changed, in the CRC or before it, fails the CRC |
| TermUtf8.DecodeEncode | package/simple-terminal/src/main.c:854-954 | decoding inverts encoding on every Unicode scalar value, whatever bytes follow |
| TermUtf8.OnlyShortestForm | package/simple-terminal/src/main.c:854-908 | the other way round: what decodes to a scalar value other than U+FFFD is exactly that value's encoding, so no longer form is accepted |
| TermUtf8.BrokenUsed | package/simple-terminal/src/main.c:854-908 | a sequence that breaks off gives one U+FFFD for the bytes before the break; the byte that breaks it is not used up |
| TermUtf8.StrayUsed | package/simple-terminal/src/main.c:854-908 | a byte that can begin no sequence gives one U+FFFD by itself |
| TermUtf8.DecodedScalar | package/simple-terminal/src/main.c:854-908 | a decoded value is never a surrogate |
| TermUtf8.EncodedWellFormed | package/simple-terminal/src/main.c:910-954 | what is passed on is well-formed UTF-8 |
| TermUtf8.DrainScalar | package/simple-terminal/src/main.c:1538-1547 | whatever bytes come in, only scalar values are passed on, the replacement character for what is too large |
| TermUtf8.ReadyStable | package/simple-terminal/src/main.c:958-990 | a sequence that may be decoded decodes the same when more bytes arrive, and uses only bytes that are there |
| TermUtf8.ReadyExact | package/simple-terminal/src/main.c:958-990 | ttyread waits exactly as long as bytes that may still come could belong to the sequence |
| TermUtf8.DrainSplit | package/simple-terminal/src/main.c:1538-1547 | a stream cut in two anywhere is read as if it were whole |
| TermUtf8.Tty.TtyRead | package/simple-terminal/src/main.c:1520-1548 | one call passes on exactly the characters that the buffer and the new bytes hold, each as the bytes of its encoding, and keeps fewer than 4 bytes |
| TermUtf8.ReadChunks | package/simple-terminal/src/main.c:1520-1548 | for every division of a stream into reads the characters and the bytes left over are the same |
| TermScreen.DeleteUndoesInsert | package/simple-terminal/src/main.c:1866-1880 | deleting as many lines as were inserted restores all rows but the last n of the region, which are blank |
| TermScreen.DeleteUndoesBlanks | package/simple-terminal/src/main.c:1828-1864 | deleting as many characters as blanks were inserted restores the row but for its last n cells, which are blank |
| TermClass.Term.constructor | package/simple-terminal/src/main.c:1620-1639 | a new terminal is in order: blank screen, cursor at home, full scrolling region |
| TermClass.Term.SetDirt | package/simple-terminal/src/main.c:1568-1577 | marks exactly the rows between the two bounds cut off at the screen |
| TermClass.Term.Draw | package/simple-terminal/src/main.c:3044-3092 | if the window is visible, afterwards no row is marked and every row is shown as it is; otherwise nothing changes |
| TermClass.Term.Redraw | package/simple-terminal/src/main.c:3029-3036 | whatever was shown before, unmarked rows are shown as they are afterwards |
| TermClass.Term.ClearRegion | package/simple-terminal/src/main.c:1806-1826 | clears exactly the rectangle between the corners, given in any order and cut off at the screen, and marks exactly its rows |
| TermClass.Term.MoveTo | package/simple-terminal/src/main.c:1766-1773 | the cursor goes to the nearest position on the screen, and no next line is due |
| TermClass.Term.SaveOrLoad | package/simple-terminal/src/main.c:1584-1597 | loading gives back what was saved, cut off at a screen that may have shrunk |
| TermClass.Term.Reset | package/simple-terminal/src/main.c:1599-1618 | home, default attributes, a stop every 4 columns, blank and fully marked screen in the same buffers |
| TermClass.Term.ScrollUp | package/simple-terminal/src/main.c:1673-1692 | the row buffers of the region are permuted, none lost; the surviving rows move up by exactly n in order; the last n are blank; other rows are unchanged; exactly the region is marked |
| TermClass.Term.ScrollDown | package/simple-terminal/src/main.c:1651-1671 | the same downwards |
| TermClass.Term.NewLine | package/simple-terminal/src/main.c:1721-1734 | the region scrolls if the cursor is in its last row, otherwise the cursor moves down |
| TermClass.Term.PutTab | package/simple-terminal/src/main.c:2428-2447 | the cursor goes to the nearest tab stop in the direction, or to the margin |
| TermClass.Term.SetChar | package/simple-terminal/src/main.c:1775-1804 | exactly one cell changes, to the character or its line drawing form, and its row is marked |
| TermClass.Term.DeleteChar | package/simple-terminal/src/main.c:1828-1845 | the cells after the cursor move left by n, blanks come in at the right, for n beyond the margin too |
| TermClass.Term.InsertBlank | package/simple-terminal/src/main.c:1847-1864 | the cells from the cursor on move right by n, blanks come in, for n beyond the margin too |
| TermClass.Term.InsertBlankLine | package/simple-terminal/src/main.c:1866-1872 | inside the region, the rows from the cursor down; outside, nothing |
| TermClass.Term.DeleteLine | package/simple-terminal/src/main.c:1874-1880 | inside the region, the rows from the cursor down; outside, nothing |
| TermClass.Term.SwapScreen | package/simple-terminal/src/main.c:1641-1649 | the two screens trade places and everything is marked |
| TermClass.Term.SetScroll | package/simple-terminal/src/main.c:2005-2019 | the margins are in order and on the screen |
| TermClass.Term.SetAttr | package/simple-terminal/src/main.c:1882-2003 | the attributes after a whole list, which SgrSplit takes apart and SgrColours, SgrExtended, SgrFlag, SgrZero and SgrOthers give for each parameter; colour indexes stay in 0 to 255 |
| TermCsi.Sgr | package/simple-terminal/src/main.c:1882-2003 | colour indexes stay in 0 to 255 and the line drawing flag is never touched |
| TermCsi.SgrSplit | package/simple-terminal/src/main.c:1882-2003 | a list of attributes without extended colours has the effect of its parts one after the other |
| TermCsi.SgrReset | package/simple-terminal/src/main.c:1890-1894 | what came before attribute 0 does not matter, but for the line drawing flag |
| TermCsi.SgrExtended | package/simple-terminal/src/main.c:1926-1971 | 38;5;n sets the foreground to colour n and 48;5;n the background, and nothing else; a number that is no colour changes nothing |
| TermCsi.SgrColours | package/simple-terminal/src/main.c:1972-1990 | 30 to 37 and 90 to 97 are the short forms for the first sixteen foreground colours, 40 to 47 and 100 to 107 for the backgrounds, 39 and 49 for the defaults |
| TermCsi.SgrFlag | package/simple-terminal/src/main.c:1895-1925 | 1, 3, 4, 5 and 7 set one flag each and 22 to 27 clear the same one, and nothing else; clearing what was just set gives the attributes back |
| TermCsi.SgrZero | package/simple-terminal/src/main.c:1890-1894 | 0 clears all flags but the line drawing set and both colours |
| TermCsi.SgrOthers | package/simple-terminal/src/main.c:1991-1999 | no other parameter changes anything |
| TermClass.Term.Print | package/simple-terminal/src/main.c:2691-2704 | a character appears at the cursor, or at the start of the next line if one was due, with the scrolling that takes; nothing else changes; in the last column the cursor stays and the next line becomes due |
| TermClass.Term.Index | package/simple-terminal/src/main.c:2621-2631 | down one row, or the region scrolls up |
| TermClass.Term.ReverseIndex | package/simple-terminal/src/main.c:2640-2650 | up one row, or the region scrolls down |
| TermClass.Term.AlignmentTest | package/simple-terminal/src/main.c:2579-2593 | every cell shows E, in the same buffers |
| TermMode.SwitchScreen | package/simple-terminal/src/main.c:2062-2076 | the alternate screen is shown if and only if asked for; it is blank when left; the main screen is kept aside unchanged |
| TermMode.SetOne | package/simple-terminal/src/main.c:2029-2114 | one parameter switches exactly its flag, and only a change of reverse video clears marks |
| TermMode.SetMode | package/simple-terminal/src/main.c:2023-2116 | all parameters switch their flags; no mark is lost unless reverse video changed; the main screen is kept while the other is shown |
| TermCsi.ParsedFormatted | package/simple-terminal/src/main.c:1736-1764 | one to sixteen decimal parameters and a final byte, as section 5.4 of ECMA-48 writes them, are read back in order |
| TermCsi.ParsedBare | package/simple-terminal/src/main.c:1736-1764 | no parameter reads as the one parameter 0 |
| TermVt.Vt.CsiParse | package/simple-terminal/src/main.c:1736-1764 | the loop over the buffer computes the parsed sequence; the read past a full buffer included |
| TermControl.ShiftText | package/simple-terminal/src/main.c:2129-2253 | for ICH, DCH, IL, DL, SU and SD: which rows or cells move where |
| TermControl.Erase | package/simple-terminal/src/main.c:2192-2249 | for ED, EL and ECH: which cells are cleared |
| TermControl.EraseDisplay | package/simple-terminal/src/main.c:2192-2212 | ED clears from the cursor to the end, or the start to the cursor, or all; with parameter 1 it leaves row 0 alone when the cursor is in row 1 |
| TermControl.Tabulate | package/simple-terminal/src/main.c:2163-2258 | CHT and CBT move to the n-th tab stop in their direction, or to the margin |
| TermControl.ClearTabs | package/simple-terminal/src/main.c:2163-2176 | TBC clears the stop at the cursor, or all |
| TermControl.CsiHandle | package/simple-terminal/src/main.c:2119-2289 | for every final byte: where the cursor goes, what happens to text, modes, margins and attributes, and that all else stays; the invariant and the marks are kept |
| TermVt.Vt.PutString | package/simple-terminal/src/main.c:2468-2488 | a string sequence ends at ESC or BEL or when its buffer has 255 characters, which it never exceeds; every other character is kept |
| TermVt.Vt.PutControl | package/simple-terminal/src/main.c:2494-2540 | control codes act inside sequences too and do not disturb them, but ESC begins a new one and CAN and SUB empty it; the ignored codes change nothing at all; the others fall through with nothing changed |
| TermVt.Vt.PutCsi | package/simple-terminal/src/main.c:2543-2551 | a control sequence is handled at its final byte, or when its buffer has 256 characters, which it never exceeds |
| TermVt.Vt.PutEscape | package/simple-terminal/src/main.c:2594-2683 | the character after ESC begins a longer sequence, of the kind it names, or is carried out; every field that it does not concern stays |
| TermVt.EscapeKeepsMain | package/simple-terminal/src/main.c:2594-2683 | of the sequences of ESC and one character, ESC c alone can lose the main screen, and does if and only if the alternate screen is shown |
| TermVt.Vt.PutC | package/simple-terminal/src/main.c:2449-2705 | for every character, the step that the state of the parser asks for, with the new state of the parser in full; the invariant (cursor and margins on the screen, next line due only in the last column, colour indexes in range, both screens of full width and of distinct buffers, buffers within bounds) and unmarked rows shown as they are; marks kept; the main screen kept if and only if it is not ESC c while the alternate screen is shown |
| TermRun.PutAll | package/simple-terminal/src/main.c:2449-2705 | the same for every sequence of characters, step by step |
| TermRun.MainScreenRestored | package/simple-terminal/src/main.c:2062-2076 | whatever is read while the alternate screen is shown, leaving it gives the main screen back as it was if and only if it is not left by ESC c |
| TermRun.Excursion | package/simple-terminal/src/main.c:2449-2705 | a run of characters that leads to the alternate screen and back, put through the terminal one after the other, leaves the main screen as it was under exactly that condition |
| TermRun.ResetAside | package/simple-terminal/src/main.c:2655-2659 | from any valid terminal, switching to the alternate screen and resetting there leaves the main screen aside and shows the other one in its place from then on |
| TermRun.Run | package/simple-terminal/src/main.c:1520-1548 | every run of reads in any chunks, resizes and draws, with the window visible or not, keeps the invariant, and passes on the characters of the whole stream |
| TermRun.RunThenDraw | package/simple-terminal/src/main.c:3038-3092 | after any run, drawing shows exactly the screen |
| TermRun.Send | package/simple-terminal/src/main.c:2449-2705 | the bytes ESC [ with one to sixteen parameters and a final byte, sent in any state but inside a string, carry out the function with these parameters |
| TermRun.CursorPosition | package/simple-terminal/src/main.c:2181-2186 | CUP moves to the line and column asked for, or as near as there is one |
| TermRun.CursorMoves | package/simple-terminal/src/main.c:2133-2263 | CUU, CUD, CUF, CUB, CNL, CPL, CHA and VPA move by the count, or to the line or column, they are given, stopping at the margins |
| TermRun.TypeText | package/simple-terminal/src/main.c:2691-2704 | text that fits in the row appears there and changes nothing else; filling the row exactly does not scroll |
| TermMeaning.TypeColoured | package/simple-terminal/src/main.c:1882-2003 | text typed after ESC [ 30+n m appears in foreground colour n, on the background and with the flags that were set before |
| TermMeaning.LinesMove | package/simple-terminal/src/main.c:1866-1880 | IL n and then DL n, sent at one place inside the margins: the rows from the cursor on move down by n with blank ones above them, and come back but for those pushed out |
| TermMeaning.CharsMove | package/simple-terminal/src/main.c:1828-1864 | ICH n and then DCH n: the cells from the cursor on move right by n, and come back but for those pushed out; all other rows stay |
| TermMeaning.RegionScrolls | package/simple-terminal/src/main.c:2227-2234 | SU n and SD n: the rows of the region move up or down by n, wherever the cursor is, and blank ones come in; all other rows and the cursor stay |
| TermMeaning.LineErased | package/simple-terminal/src/main.c:2213-2249 | EL erases from the cursor, up to the cursor or the whole line, ECH n the n cells from the cursor and one more, and no other cell changes |
| TermMeaning.DisplayErased | package/simple-terminal/src/main.c:2192-2212 | ED erases all cells after the cursor, before it or all there are, and no others; with parameter 1 in row 1 it leaves row 0 alone |
| TermMeaning.MarginsSet | package/simple-terminal/src/main.c:2269-2281 | DECSTBM a;b makes lines a to b, counted from 1, the scrolling region, without parameters the whole screen, and the cursor goes home |
| TermMeaning.ModeSwitched | package/simple-terminal/src/main.c:2023-2116 | SM sets and RM clears exactly the mode of each number |
| TermMeaning.CursorShown | package/simple-terminal/src/main.c:2052-2054 | mode 25 shows and hides the cursor |
| TermMeaning.CursorComesBack | package/simple-terminal/src/main.c:1584-1597 | ESC 8, CSI u and RM of 1048 bring back the cursor and the attributes that ESC 7, CSI s or SM of 1048 saved, whatever came in between, if the screen kept its size and nothing else was saved |
| TermMeaning.SameMoves | package/simple-terminal/src/main.c:2133-2186 | HPR, HPA and HVP are CUF, CHA and CUP, and the final byte e, VPR in ECMA-48, is CUU |
| TermMeaning.CodesMove | package/simple-terminal/src/main.c:2496-2513 | CR goes to the first column, BS one column back and no further than the first, LF, VT and FF above the lower margin one row down |
| TermMeaning.MarginScrollsUp | package/simple-terminal/src/main.c:1721-1734 | at the lower margin LF, VT, FF, IND and NEL scroll the region up by one row, and the cursor keeps its row |
| TermMeaning.MarginScrollsDown | package/simple-terminal/src/main.c:2640-2650 | at the upper one RI scrolls it down |
| TermMeaning.IndexMoves | package/simple-terminal/src/main.c:2621-2650 | elsewhere IND, NEL and RI move one row, NEL to the first column |
| TermMeaning.StopSet | package/simple-terminal/src/main.c:2636-2639 | a tab goes no further than a stop that HTS set |
| TermMeaning.StopCleared | package/simple-terminal/src/main.c:2163-2176 | nor does it stop where TBC cleared one, and after TBC of all stops it goes to the margin |
| TermMeaning.TabMoves | package/simple-terminal/src/main.c:2428-2447 | CHT n and CBT n pass exactly n stops and end on the last of them, or at the margin |
| TermMeaning.LineDrawing | package/simple-terminal/src/main.c:1775-1804 | with the line drawing set on, the corners, tees, bars and other characters of the DEC special graphics, and all other characters as they are |
| TermMeaning.CharsetShifted | package/simple-terminal/src/main.c:2522-2527 | SO turns the set on and SI off, and nothing else changes |
| TermMeaning.CharsetSelected | package/simple-terminal/src/main.c:2557-2576 | so do ESC ( 0 and ESC ( B, sent in any state but inside a string |
| TermResize.KeptOrFreed | package/simple-terminal/src/main.c:2707-2736 | every old row buffer is kept or freed, and none both or twice |
| TermResize.CutRows | package/simple-terminal/src/main.c:2718-2736 | which rows are freed at the top and the bottom and which contiguous block is kept |
| TermResize.ResizeRows | package/simple-terminal/src/main.c:2744-2764 | kept rows keep their cells as far as they fit, new columns and new rows are blank |
| TermResize.ResizeTabs | package/simple-terminal/src/main.c:2765-2774 | old stops are kept as far as they fit, and new ones come every 4 columns from the last |
| TermResize.CursorStays | package/simple-terminal/src/main.c:2711-2780 | the cursor is still in the row it was in |
| TermResize.Resize | package/simple-terminal/src/main.c:2707-2784 | all of this for both screens at once, with the invariant; sizes below 1 change nothing |

## Left out

- ExprSpot.TransformAt: models that every node is overwritten where it stands, but not which memory it occupies: which nodes are freed or reused, and the sharing of nodes between trees, which the code avoids by copying.
- E_LIST and E_RANGE inside conditions; printing of expressions; expr_simplify_unmet_dep and expr_get_leftmost_symbol.
- SymbolEval.Evaluator.CalcValue: does not model choices and their members, range validation, environment symbols, the SYMBOL_CHANGED flags and the warning about unmet dependencies; choices are in SymbolChoice, for a bool choice that is y.
- SymbolCheck.CheckAll: leaves out sym_check_choice_deps and the text of the report.
- Tristate choices, optional and named choices, and the user flag of a choice beyond what decides it. For a choice default that is not a member the code reads the visibility computed for it last; SymbolChoice takes the present one.
- MenuFinalize.Menus.Finalize: models a node with its dependency and one prompt condition; the other properties of a symbol and its reverse dependencies are in MenuValue, apart from the tree; direct and implied dependencies, choice types and the warnings are not modelled.
- MenuFinalize.Menus.PropagateDeps: rewrites one prompt condition for each node; the conditions of the other properties and the accumulation of reverse dependencies are in MenuValue, and implied dependencies, which the code accumulates in the same way, are left out.
- Pointer identity of menu nodes: a node is a number and a pointer an entry of a table, so updates in place and the order of writes are modelled but not memory.
- ConfFile.WriteThenRead: covers symbols outside choices, without the comments, headings and blank lines of the file, and without values for choice members.
- Reading of old or hand-written files beyond what each line does: the warnings, S_OTHER values and the symbols that a file names but the table lacks.
- Saving and restoring files, defconfig minimisation, autoconf, the all-yes and random modes, searching.
- User interfaces: mconf, nconf, gconf, qconf, lxdialog.
- The terminal's window, keyboard, fonts, colours, titles, selection, mouse reports and the answers it writes to the program; the cursor that is drawn over a row.
- Row buffers are values with an identity, so reallocation keeps the identity of a kept row and gives a new row one that no old row has; memory itself is not modelled.
- CSI parameters are integers without a width, where the code multiplies in an int.
- The bytes of a character in a cell are its code point, since TermUtf8 shows that encoding and decoding are inverse.
- TermClass.Term.ScrollUp: assumes a count of at least 1, as every caller gives.
- ImageHeader.AddHeader: requires that the memory it writes is there, while main allocates the size of the image alone, which for an input of 80 bytes in version 1 ends before the trampoline; the CRC is stored in the byte order of a little-endian host; the barebox header and the command line are left out.
- Drivers of these programs: files, processes, threads, signals, help texts.
