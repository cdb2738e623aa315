# lambda.ts in Dafny

A model of `src/lambda.ts`, an untyped lambda-calculus engine. Terms are a
variable, an abstraction (`Lambda`, one head letter and a body) or an
application (`Application`). A variable is a letter in named form and a
natural number in de Bruijn form. The engine has these parts:

- a resumable depth-first traverser (`Traverser`, `DepthFirst`) with a focus,
  a path of application frames and a stack of scope contexts;
- walks built on it: `mapVariables`, `findBy` and `clone`;
- conversion between named and de Bruijn terms (`convertToIndices`,
  `convertToNames`);
- beta contraction (`bind`) and head renaming (`renameHead`);
- the normal-order evaluator (`evaluateGen`, `evaluate`);
- Church numerals (`numberExpression`), the printer (`print`) and the two
  folds of the parser (curried heads, application lists).

Modules, one file each:

| file | module | models |
|---|---|---|
| terms.dfy | Terms | the term datatype, letters of `ALPHABET`, the `expression<A \| B>` working type of `mapVariables` |
| zipper.dfy | Zipper | `Traverser` and `DepthFirst` as the class `DepthFirst`, specified by the pure `Plug`, `Climb` and `Advance` |
| walks.dfy | Walks | `mapVariables`, `findBy`, `clone` and the top-level walk, each proved equal to a structural recursion |
| indices.dfy | Indices | `convertToIndices` and `convertToNames` with their round trip |
| substitution.dfy | Substitution | `bind` proved equal to textbook shift/substitute/unshift beta, and `renameHead` |
| evaluator.dfy | Evaluator | `evaluateGen` as the class `Evaluation` with one `Next()` per pull, and `evaluate` with fuel |
| syntax.dfy | Syntax | `numberExpression`, `print`, and the parser's fold actions |
| aliasing.dfy | Aliasing | `Traverser` as written, with the lambdas' body pointers explicit: the stray pointer left by `exitScope`, what `evaluate` returns because of it, and how `renameHead`'s `findBy` makes it permanent |

The traverser keeps its path as values. A frame records the branch taken and
the sibling not entered. A context records the entered lambda's head and the
path saved on entry. The source instead keeps the live parent objects and
patches them through aliasing. `DepthFirst.Root()` rebuilds the whole term by
plugging the focus back through the path and the contexts. It is what the
`expression` getter returns when every parent pointer is up to date. Every
traverser method is proved to keep `Root()` unchanged, with two exceptions.
The `current` setter replaces the focus inside it. `exitScope` keeps it only on
an empty path, the only case in which `exitScopes` calls it; on a non-empty
path it drops the innermost context, as the source does.

That is the intended behaviour, and the rest of the model builds on it. As
written, `exitScope` sets the focus through the setter before it restores the
saved path, and so leaves the enclosing lambda's body pointer on the exited
lambda (see Findings). Module Aliasing models the traverser as written. It
keeps each entered lambda's body pointer and a getter that follows the
pointers. It proves that this getter agrees with `Root()` while no pointer is
astray. It then replays the calls `evaluate` makes on two inputs where the stray
pointer changes the result. In the first, the pointer is put back later in the
walk, but only after `evaluate` has yielded the wrong term. In the second,
`findBy` inside `renameHead` returns before the walk climbs back, so the pointer
is never put back and the term itself loses its body.

## Model

| member | source | states |
|---|---|---|
| Terms.Pos | src/lambda.ts:258 | `ALPHABET.indexOf` of a letter is below 26, and `ALPHABET` at that position gives the letter back |
| Terms.ProjectAfter | src/lambda.ts:369 | the final cast of `mapVariables` loses nothing: injecting its result back gives the working term |
| Terms.ProjectInjectAfter | src/lambda.ts:346-369 | casting a fully mapped working term to the result type gives back the term that was mapped in |
| Zipper.DepthFirst.constructor | src/lambda.ts:91-95 | a new traverser focuses the whole term, with an empty path and no contexts |
| Zipper.DepthFirst.Root | src/lambda.ts:120-135 | the `expression` getter: the root is the focus with no path and no context, an application when the outermost saved path (or the path) is non-empty, and otherwise the outermost entered lambda |
| Zipper.DepthFirst.Bindings | src/lambda.ts:350-357 | the `bindings` list of the walks is the heads of the entered lambdas, outermost first, one per context |
| Zipper.DepthFirst.RightSibling | src/lambda.ts:113-118 | defined exactly when the innermost frame went left, and then the focus applied to it is the node above the focus in the whole term |
| Zipper.DepthFirst.SetCurrent | src/lambda.ts:97-107 | the setter replaces the focus in the whole term (in the innermost frame's branch, or as the innermost lambda's body) and keeps the path and the contexts |
| Zipper.DepthFirst.Left | src/lambda.ts:138-144 | moves to the left child and pushes a left frame exactly when the focus is an application; otherwise changes nothing; the whole term is unchanged |
| Zipper.DepthFirst.Right | src/lambda.ts:146-152 | moves to the right child and pushes a right frame exactly when the focus is an application; otherwise changes nothing; the whole term is unchanged |
| Zipper.DepthFirst.Up | src/lambda.ts:154-160 | pops a frame and focuses the parent application, or reports false on an empty path; the whole term is unchanged |
| Zipper.DepthFirst.EnterScope | src/lambda.ts:162-168 | on a lambda, saves its head and the path, focuses the body with an empty path; otherwise does nothing; the whole term is unchanged |
| Zipper.DepthFirst.ExitScope | src/lambda.ts:170-176 | pops the innermost context; only on an empty path does it refocus the lambda around the focus and restore the saved path; then the whole term is unchanged |
| Zipper.DepthFirst.Forward | src/lambda.ts:198-203 | on an application enters the left child; otherwise moves exactly as `nextBranch`; true exactly when path and contexts are both empty; the whole term is unchanged |
| Zipper.DepthFirst.NextBranch | src/lambda.ts:205-219 | lands where `Advance` says: the right sibling of the nearest frame that went left, going up through scopes, or the finished root; true exactly when the walk is complete; the whole term is unchanged |
| Zipper.DepthFirst.ExitScopes | src/lambda.ts:188-196 | on a non-empty path does nothing; on an empty one exits scopes and goes forward until `Advance`'s position is reached; true exactly when path and contexts are empty |
| Zipper.ClimbRightFrame | src/lambda.ts:207-210 | one iteration of the climb of `nextBranch` does not change where the walk goes next |
| Zipper.TakeLeftFrame | src/lambda.ts:211-213 | out of a left child, the next branch is the right sibling, with the parent frame turned right |
| Zipper.AdvanceShrinks | src/lambda.ts:205-219 | every move to a next branch consumes part of the walk (the measure that makes the walks terminate) |
| Zipper.AdvancePlug | src/lambda.ts:205-219 | moving to the next branch rebuilds to the same whole term, and a finished walk returns the whole term |
| Walks.MapVarsLeafwise | src/lambda.ts:346-370 | a mapping with a leaf-to-leaf callback keeps every head and the application shape, and the k-th leaf becomes the callback on the k-th old leaf and its enclosing heads |
| Walks.FindFirstIsFirst | src/lambda.ts:372-395 | the search answers the first leaf, left to right, that satisfies the predicate under its enclosing heads, and nothing exactly when no leaf does |
| Walks.Clone | src/lambda.ts:397-415 | `clone` returns a term equal to its input |
| Walks.MapVariables | src/lambda.ts:346-370 | the traverser loop of `mapVariables` returns the structural mapping `MapVars(expr, [], f)` |
| Walks.FindBy | src/lambda.ts:372-395 | the traverser loop of `findBy`, with its early return, answers the structural search `FindFirst(expr, [], p)` |
| Walks.WalkTopLevel | tests/lambda.test.ts:28-47 | iterating `forward` without entering scopes stops at every lambda and every variable not inside a lambda, once each and left to right, and ends focused on the unchanged term |
| Walks.AdvancePending | src/lambda.ts:205-219 | a walk finishes exactly when no right sibling is pending, and otherwise moves to the first pending atom |
| Indices.LastIndexOf | src/lambda.ts:256 | `lastIndexOf`: -1 exactly when the name is absent, otherwise a position holding it with no later one |
| Indices.IndexOfName | src/lambda.ts:255-259 | a bound name becomes the number of lambdas between it and its nearest binder of that name; a free name becomes its alphabet position plus the depth |
| Indices.ConvertToIndices | src/lambda.ts:254-260 | `convertToIndices` is the mapping with the index callback |
| Indices.ConvertToNames | src/lambda.ts:263-269 | `convertToNames` is the mapping with the name callback |
| Indices.ToIndicesLeaves | src/lambda.ts:254-260 | conversion to indices keeps heads and shape, and each leaf becomes the index of its name under its heads |
| Indices.NameOfIndexOfName | src/lambda.ts:263-269 | one leaf: the name callback reads back the name the index callback numbered |
| Indices.NamesOfIndices | tests/lambda.test.ts:113-119 | `convertToNames(convertToIndices(t))` is `t`, for every named term |
| Indices.ToIndicesInjective | src/lambda.ts:254-260 | different named terms have different de Bruijn forms |
| Indices.ToIndicesFree | tests/lambda.test.ts:90-93 | `abc` converts to `(0 1) 2` |
| Indices.ToIndicesUnderLambda | tests/lambda.test.ts:95-98 | `\x.a` converts to `\x.1` |
| Indices.ToIndicesRedex | tests/lambda.test.ts:100-103 | `(\x.ax)b` converts to `(\x.1 0) 1` |
| Indices.ToIndicesNested | tests/lambda.test.ts:105-110 | `(\x.\y.z x (\u.u x))(\x.w x)` converts to `(\x.\y.27 1 (\u.0 2))(\x.23 0)` |
| Substitution.IncrementIsShift | src/lambda.ts:223-227 | the `incrementFreeBy` callback at depth d is the textbook shift with cutoff d |
| Substitution.IncrementFreeBy | src/lambda.ts:223-227 | `incrementFreeBy(e, n)` raises every free index of `e` by `n` and leaves bound ones alone |
| Substitution.ShiftShift | src/lambda.ts:231 | two shifts at one cutoff add up |
| Substitution.UnshiftShift | src/lambda.ts:229-237 | removing a binder that a shift stepped over undoes one unit of the shift |
| Substitution.BindLeafIsBeta | src/lambda.ts:229-237 | the `bind` callback at depth d (the bound index becomes the argument raised by d, larger indices go down by one, smaller ones stay) is substitution at d followed by removal of the binder |
| Substitution.Bind | src/lambda.ts:222-238 | `bind(\.B, A)` is the beta contraction of `B` with `A` |
| Substitution.BetaIdentity | tests/lambda.test.ts:64-68 | `bind(\x.0, e)` is `e` for every `e` |
| Substitution.BetaLexicalScope | tests/lambda.test.ts:70-73 | `bind(\x.(0 (\x.0)) 0, 1)` is `(1 (\x.0)) 1` |
| Substitution.FirstFree | src/lambda.ts:241-245 | the position of the first candidate that does not clash; every earlier one clashes |
| Substitution.RenamedHeadChoice | src/lambda.ts:240-250 | the head is kept exactly when it does not clash; a new head is the first letter from `a` that does not clash; it is `z`, taken without a clash check, only when all of `a` to `y` clash |
| Substitution.RenameHead | src/lambda.ts:240-250 | `renameHead` changes only the head, to the chosen letter, and keeps the body |
| Evaluator.SeekRoot | src/lambda.ts:58-79 | the walk between two yields never changes the term: it completes with the whole term, or finds a lambda applied to its argument at a place that rebuilds the whole term |
| Evaluator.FlatLeftOfApp | src/lambda.ts:66 | the focus has a right sibling exactly when the innermost frame went left |
| Evaluator.Evaluation.constructor | src/lambda.ts:58-62 | the generator starts on a traverser focused on the input |
| Evaluator.Evaluation.Contract | src/lambda.ts:66-70 | the redex is replaced by `bind` of the lambda and its argument, renamed when a lambda; the path loses the application frame |
| Evaluator.Evaluation.Next | src/lambda.ts:58-79 | the first pull yields the input; each later pull contracts exactly the redex the walk finds and yields the whole term, or yields nothing and ends when the walk completes; after the end nothing changes; the redex found is the leftmost outermost one (Evaluator.SeekLeftmostOutermost) |
| Evaluator.Evaluate | src/lambda.ts:47-56 | `evaluate` returns the last yield: the result of `Run` with the same fuel |
| Evaluator.SeekPassed | src/lambda.ts:58-79 | what the walk leaves behind is in normal form, so a completed walk has a normal form |
| Evaluator.SeekLeftmostOutermost | src/lambda.ts:64-78 | normal order: where the walk stops at a redex, no lambda enclosing it is applied (no redex encloses it) and every left sibling on its path is a normal form other than a lambda (no redex lies to its left) |
| Evaluator.EvaluateNormal | src/lambda.ts:47-79 | whatever `evaluate` returns has no lambda in function position |
| Evaluator.SeekOnNormal | src/lambda.ts:58-79 | on a normal form the walk finds no redex and completes with the term |
| Evaluator.EvaluateOnNormal | src/lambda.ts:47-79 | a term in normal form evaluates to itself |
| Evaluator.EvaluateIdentityApp | tests/lambda.test.ts:7-10 | `evaluate((\x.0) 0)` is `0` |
| Evaluator.OmegaDiverges | src/lambda.ts:64-78 | `(\x.0 0)(\x.0 0)` contracts to itself, so no fuel is enough for `evaluate` |
| Evaluator.NoCapture | src/lambda.ts:240-250 | `(\x.\y.x) y` evaluates to `\a.25`, which names back to `\a.y`: the head is renamed instead of capturing the free `y` |
| Syntax.CountApplicationsOf | src/lambda.ts:10-16 | the application chain of a numeral counts back to its length |
| Syntax.NumberExpression | src/lambda.ts:10-16 | `numberExpression(n)` is `\s.\z.` with `n` applications of `s` to `z`, and reads back as `n` |
| Syntax.ReadOperandPrinted | src/lambda.ts:273-283 | a printed operand, bare letter or parenthesised term, reads back as the term |
| Syntax.ReadTermPrinted | src/lambda.ts:273-283 | the printed form of a named term reads back as that term |
| Syntax.PrintInjective | src/lambda.ts:273-283 | different named terms print differently |
| Syntax.PeelCurried | src/lambda.ts:300-307 | the lambda action wraps the body in one lambda per head, the first head outermost, in order |
| Syntax.ApplyAllSpine | src/lambda.ts:309-315 | the application action undoes the spine of any term (application is left associative) |
| Syntax.SpineApplyAll | src/lambda.ts:309-315 | the application action on atoms whose first is not an application has those atoms as its spine |
| Syntax.ParseUncurries | tests/lambda.test.ts:77-82 | `\xy.xy` folds to `\x.\y.xy` |
| Syntax.ParsePrintAssociativity | tests/lambda.test.ts:84-86 | the folds of `\x.xz\y.xy` print as `\x.(xz)(\y.xy)` |
| Aliasing.RereadInPlace | src/lambda.ts:120-135 | with every body pointer in place, the getter that follows the pointers reads the term the zipper rebuilds by plugging |
| Aliasing.Traverser.constructor | src/lambda.ts:91-95 | a new traverser focuses the whole term, and the getter reads it |
| Aliasing.Traverser.ExpressionInPlace | src/lambda.ts:120-135 | while no pointer is astray the as-written getter equals `Root()` |
| Aliasing.Traverser.RightSibling | src/lambda.ts:113-118 | defined exactly when the innermost frame went left, and then it is that frame's right child |
| Aliasing.Traverser.SetCurrent | src/lambda.ts:97-107 | the setter replaces the focus; with an empty path it puts the innermost lambda's body pointer on the new focus; otherwise the contexts stay as they are |
| Aliasing.Traverser.Left | src/lambda.ts:138-144 | moves to the left child and pushes a left frame exactly on an application; the pointers are unchanged |
| Aliasing.Traverser.Right | src/lambda.ts:146-152 | moves to the right child and pushes a right frame exactly on an application; the pointers are unchanged |
| Aliasing.Traverser.Up | src/lambda.ts:154-160 | pops a frame and focuses its application through the setter; popping the last frame puts the innermost body pointer back in place |
| Aliasing.Traverser.EnterScope | src/lambda.ts:162-168 | on a lambda, saves it with its pointer in place and focuses its body with an empty path, without the setter |
| Aliasing.Traverser.ExitScope | src/lambda.ts:170-176 | as written: with an empty path it focuses the exited lambda through the setter, then restores the saved path, which leaves the enclosing lambda's body pointer on the exited lambda |
| Aliasing.ExitScopeLosesPath | src/lambda.ts:170-176 | exiting `\b` in `\a.x(\b.y)`: the getter reads the whole term before the exit and `\a.\b.y` after it |
| Aliasing.DescendToB | src/lambda.ts:64-78 | the loop of `evaluateGen` from the root to the body of `\b`: the state it reaches, pointers in place |
| Aliasing.LeaveB | src/lambda.ts:188-219 | `forward` at `y`: the scope exit leaves the body pointer of `\a` on `\b.y`, and the walk reaches `\c.c` |
| Aliasing.ContractC | src/lambda.ts:66-69 | the contraction of `(\c.c)w` puts `w` in its place; the stray pointer stays |
| Aliasing.Finish | src/lambda.ts:188-219 | the rest of the walk: the climb to the top of the scope puts the pointer back, and the walk completes on `\a.x(\b.y)wv` |
| Aliasing.ReadContracted | src/lambda.ts:120-135 | after the contraction, the getter reads `\a.\b.y` through the stray pointer |
| Aliasing.SampleAsWritten | src/lambda.ts:47-79 | as written, `evaluateGen` yields the input and then `\a.\b.y`, so `evaluate` returns `\a.\b.y`, although the walk leaves `\a.x(\b.y)wv` behind |
| Aliasing.SampleEvaluates | src/lambda.ts:47-79 | the corrected evaluator returns `\a.x(\b.y)wv` on the same input |
| Aliasing.ClashDescend | src/lambda.ts:379-389 | the first `findBy` of `renameHead` on `\a.x(\b.b)yr`, for the head `y`: the walk reaches the body of `\b` with no match so far, pointers in place |
| Aliasing.ClashReturn | src/lambda.ts:372-395 | the scope exit leaves the body pointer of `\a` on `\b.b`; the walk reaches the free `y` and `findBy` returns it before climbing back |
| Aliasing.ReadClash | src/lambda.ts:120-135 | where `findBy` returned, the lambda it searched reads `\a.\b.b` through the stray pointer |
| Aliasing.FindNoClash | src/lambda.ts:372-395 | the second `findBy`, for the head `a` on `\a.\b.b`, finds nothing and completes |
| Aliasing.RenameCaptureAsWritten | src/lambda.ts:240-250 | as written, `renameHead` of `\y.\a.x(\b.b)yr` renames the head to `a` and returns `\a.\a.\b.b` |
| Aliasing.FinishCapture | src/lambda.ts:64-78 | the rest of the walk of `evaluateGen` on `\a.\a.\b.b` meets no redex and completes, the term unchanged |
| Aliasing.CaptureAsWritten | src/lambda.ts:58-79 | as written, `evaluateGen` on `(\q.\y.\a.x(\b.b)qr)y` yields the input and then `\a.\a.\b.b`, and leaves that term behind |
| Aliasing.CaptureEvaluates | src/lambda.ts:47-79 | the corrected evaluator returns `\a.\a.x(\b.b)yr` on the same input |

## Left out

- The Parsimmon grammar itself (`parse`, `Lang`, its regular expressions, whitespace trimming and thrown parse errors) is a foreign library. Only the fold actions it applies are modelled. `Syntax.ReadTerm` is a reader of the printed form, not the parser.
- The `constants` table (`Succ`, `Add`) is built by running the parser at module load, so it is not part of this model.
- `interpret` composes the parser with conversion and evaluation, and the parser is not modelled.
- src/index.ts (the page, its event handlers and styling) is not part of this model.
- The `afterScopeExit` and `forwardAfterScopesExit` hooks are not first-class values. The walks pop their `bindings` directly, and `forward` after a scope exit is always taken, which is the only setting the source uses.
- Update in place and aliasing. The zipper and the walks built on it keep frames as values and implement the corrected `exitScope`. The as-written pointer behaviour is modelled only in module Aliasing, and only for the lambdas' body pointers, the only pointers the source leaves astray. A stray pointer records the subterm it leads to as a value. This is exact because the walk never returns to that subterm. The as-written `evaluate` is shown by replaying its calls on two inputs, not as a loop over the as-written traverser.
- `evaluateGen` walks the caller's term in place, and `findBy` inside `renameHead` walks the live result of `bind`. The model does not promise anything about the caller's copy.
- Substitution.RenameHead: keeps the body because it runs over the corrected traverser. As written, `findBy` walks the body in place and can return while a body pointer is astray, and then `renameHead` returns a lambda that has lost part of its body (see Findings). Evaluator.Evaluation.Contract builds on it and keeps the body for the same reason.
- Evaluator.Evaluation.Next: the first yield is the input itself, not a separate copy; values cannot tell the two apart.
- Evaluator.Evaluate: evaluation may diverge, so `evaluate` takes a fuel bound on the number of pulls after the first and answers None when the fuel runs out.
- Syntax.NumberExpression: takes a natural number; JavaScript numbers that are negative or not integers, and the number range, are not modelled.
- Indices.NameOfIndex: `ALPHABET[k]` past the end of the alphabet is `undefined` in the source; the model answers None for it.
- Syntax.Print: `String` on a leaf is a parameter. The read-back is proved for named terms only. On de Bruijn terms the printed form is ambiguous: the application of 1 to 2 and the index 12 both print as `12`.
- Names and heads are the 26 lower-case letters; `ALPHABET.indexOf` on any other string (-1) is not modelled.

## Findings

| source | as written | input that shows it | evidently intended | confidence | as-written member | corrected member |
|---|---|---|---|---|---|---|
| src/lambda.ts:170-176 | `exitScope` sets `current` through the setter while the path is still empty, and only then restores the saved path. The setter points the enclosing lambda's body at the exited lambda, so the `expression` getter drops the saved path until the walk next climbs to the top of that scope. When a walk ends early, that never happens (next row). | `evaluate` of `\a.x(\b.y)((\c.c)w)v` (de Bruijn `\.24(\.26)((\.0)23)22`) returns `\a.\b.y` | restore the saved path before the focus is set, so the getter keeps reading the whole term (as Zipper.DepthFirst.ExitScope does), and `evaluate` returns `\a.x(\b.y)wv` | not executed; traced by hand from the source and proved of the as-written model | Aliasing.SampleAsWritten | Aliasing.SampleEvaluates |
| src/lambda.ts:372-395 | `findBy`, which `renameHead` (240-250) calls on the lambda's own body, walks that body in place and returns at the first match. A body pointer that `exitScope` (170-176) has left astray before the match is never put back, so the body loses the rest of the scope for good. | `evaluate` of `(\q.\y.\a.x(\b.b)qr)y` (de Bruijn `(\.\.\.26(\.0)2 20)24`) returns `\a.\a.\b.b` | the same correction of `exitScope`, after which `findBy` leaves the body unchanged, `renameHead` only renames the head, and `evaluate` returns `\a.\a.x(\b.b)yr` | not executed; traced by hand from the source and proved of the as-written model | Aliasing.CaptureAsWritten | Aliasing.CaptureEvaluates |
