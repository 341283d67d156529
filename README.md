# Two lint rules and their reporting adapter, in Dafny

This project models two rules of an ESLint plugin for TypeScript code, and
the adapter one of them uses to report problems.

* **explicit-size-check** finds a `x.size()` call whose value is used as a
  boolean, such as `if (x.size())`, `!x.size()` or `a && x.size()`. It
  reports the call and rewrites it into an explicit comparison:
  `x.size() > 0` or `x.size() !== 0` (chosen by the `non-zero` option), or
  `x.size() === 0`. Existing comparisons against 0 or 1 are recognised and
  normalised. Inside a bare `&&`/`||` chain the rewrite is offered only as a
  suggestion. A space is inserted where the new text would touch a keyword.
* **The reporting adapter** (`reportProblems`) lets that rule's listeners
  register extra listeners through `on`/`onExit` and return their problems.
  A listener may return nothing, one problem or an iterable of problems.
  Each problem is reported, with each fix function wrapped so that a fix
  generator is drained into an array of edits. An aborted fix yields no
  edits at all. Each suggestion's `data` is merged with the problem's.
* **prefer-math-min-max** reports a conditional such as
  `height > 50 ? 50 : height` whose branches repeat the compared operands. It
  rewrites it to `math.min(height, 50)` or `math.max(...)`. The match is
  rejected when an operand is evidently not a number: an `as` to a
  non-numeric type, or a variable declared with a non-numeric type or
  initialised with a non-numeric literal.

Modules: `Js` (`js.dfy`) holds the shared values (`Option`, `Result`, the
value of a literal). `Reporting` (`reporting.dfy`) is the adapter. `SizeCheck`
(`size_check.dfy`) and `MinMax` (`min_max.dfy`) are the two rules.

Syntax trees are given as data:

* explicit-size-check sees the tree from the candidate call upward. A `Path`
  holds the call and its ancestors, each with the slot that holds the node
  below it.
* The static-value resolver is a flag carried by the logical expression.
* The source-code accessor is a `Source`: the call's text, and for each
  ancestor its range, tokens and parenthesis tokens.
* prefer-math-min-max sees the conditional's expressions, each with its
  source text. The scope resolver is a map from a name to that variable's
  definitions.

A fix generator is a sequence of steps, each of which yields an edit or
throws. The host's `context.report` appends to the `reported` sequence of a
`Reporter`.

Two behaviours of the code worth noting, which the model follows:

* A bare `Number` type reference counts as numeric only for an `as`
  expression. A parameter or variable annotated `: Number` is a type
  annotation wrapping a reference, so it rejects the match
  (`MinMax.NumberTypeAnnotationExact`).
* Whether the right side of an `||` is numeric is decided by the
  static-value resolver alone, which is an input here.

## Model

| member | source | states |
|---|---|---|
| Reporting.IsIterableExactly | src/rules/explicit-size-check/util.ts:7-9 | only a non-null object with `Symbol.iterator` is iterable; strings, functions and `null` are not |
| Reporting.Drained | src/rules/explicit-size-check/util.ts:147-157 | draining a generator gives all yielded edits in order if no step throws; at the first throw, `undefined` for the abort signal and the error itself otherwise |
| Reporting.Wrapped | src/rules/explicit-size-check/util.ts:144-160 | a non-iterable result passes through unchanged, and a wrapped fix never returns a generator |
| Reporting.WrapFixFunction | src/rules/explicit-size-check/util.ts:141-161 | the wrapped fix is a function whose result is the wrapped result of the original fix |
| Reporting.NoPartialEdits | src/rules/explicit-size-check/util.ts:147-157 | an edit array comes out of a wrapped generator only when no step threw, and it holds every yielded edit in order |
| Reporting.WrapIdempotent | src/rules/explicit-size-check/util.ts:141-161 | wrapping an already wrapped result changes nothing |
| Reporting.MergeData | src/rules/explicit-size-check/util.ts:130-133 | the merged data has the keys of both maps; a suggestion's own value wins on a conflict; a missing map counts as empty |
| Reporting.PreparedFields | src/rules/explicit-size-check/util.ts:119-135 | only fix fields holding functions are wrapped; each suggestion's data is the problem's data overlaid with its own; every other field is untouched |
| Reporting.Problems | src/rules/explicit-size-check/util.ts:111-117 | a falsy result gives no problems, one problem gives itself, an iterable gives its elements in order |
| Reporting.PrepareAllAt | src/rules/explicit-size-check/util.ts:119-138 | the i-th reported problem is the i-th problem, prepared |
| Reporting.PrepareSuggestions | src/rules/explicit-size-check/util.ts:124-135 | the loop over suggestions wraps each fix function and merges each data map, keeping the count and the order |
| Reporting.PrepareProblem | src/rules/explicit-size-check/util.ts:120-135 | the in-place updates of one problem give exactly the prepared problem |
| Reporting.Drain | src/rules/explicit-size-check/util.ts:147-157 | the step-by-step drain loop returns the drained value of the generator |
| Reporting.Reporter.Report | src/rules/explicit-size-check/util.ts:137 | `context.report` appends the problem to the reported sequence |
| Reporting.Reporter.ReportListenerProblems | src/rules/explicit-size-check/util.ts:107-139 | a listener's result adds exactly its problems, prepared, once each and in order, to what was reported |
| Reporting.PlainSelectorIsSingleton | src/rules/explicit-size-check/util.ts:52-57 | registering under a plain selector is registering under the one-element list holding it, which appends the listener to that selector alone |
| Reporting.ExitSelectors | src/rules/explicit-size-check/util.ts:66-71 | `onExit` registers under `<selector>:exit`, one entry per selector, in order |
| Reporting.Add | src/rules/explicit-size-check/util.ts:37-43 | `addListener` appends the listener to its selector's list, creating the list when missing, and changes no other selector |
| Reporting.AddAllLookup | src/rules/explicit-size-check/util.ts:55-57 | registering under a list of selectors appends the listener to a selector's list once per occurrence of that selector, after everything already there |
| Reporting.AddAllKeys | src/rules/explicit-size-check/util.ts:41 | registering adds exactly the given selectors as keys |
| Reporting.ApplyRegistrationsLookup | src/rules/explicit-size-check/util.ts:47-73 | a sequence of `on`/`onExit` calls appends, per selector, the listeners in call order |
| Reporting.ApplyEntriesLookup | src/rules/explicit-size-check/util.ts:82-84 | the entries of the returned listener map are appended per selector in entry order |
| Reporting.ListenerOrder | src/rules/explicit-size-check/util.ts:45-84 | for every selector, listeners registered through `on`/`onExit` while `create` ran come first, followed by the listeners of the map `create` returned |
| Reporting.OnExitSelector | src/rules/explicit-size-check/util.ts:61-72 | `onExit("X", l)` registers `l` under `X:exit` and under no other selector |
| Reporting.ListenerTable.constructor | src/rules/explicit-size-check/util.ts:36 | the listener table starts empty |
| Reporting.ListenerTable.AddListener | src/rules/explicit-size-check/util.ts:37-43 | the in-place `addListener` updates the table as `Add` says, and a new selector goes to the end of the key order |
| Reporting.ListenerTable.AddEach | src/rules/explicit-size-check/util.ts:55-57 | the loop registers the listener under each selector in order |
| Reporting.ListenerTable.On | src/rules/explicit-size-check/util.ts:47-59 | `on` registers the listener under each of its selectors |
| Reporting.ListenerTable.OnExit | src/rules/explicit-size-check/util.ts:61-73 | `onExit` registers the listener under each selector's `:exit` form |
| Reporting.ListenerTable.Build | src/rules/explicit-size-check/util.ts:32-85 | the table built by `reportProblems` is the registrations applied in order, then the returned entries, and its selectors are ordered by first registration |
| Reporting.CombinedListener | src/rules/explicit-size-check/util.ts:86-103 | the combined listener for a selector reports each registered listener's problems, prepared, in table order |
| SizeCheck.NonCandidateNotReported | src/rules/explicit-size-check/rule.ts:245-254 | a call that is not `x.size()` (identifier property `size`, no arguments, not optional, not on `this`) is never reported |
| SizeCheck.GetSizeCheckNode | src/rules/explicit-size-check/rule.ts:323-369 | a recognised comparison is always the call's parent |
| SizeCheck.SizeCheckNodeShapes | src/rules/explicit-size-check/rule.ts:323-369 | the parent is a zero-check exactly for the six zero shapes, a non-zero-check exactly for the eight non-zero shapes, and nothing otherwise |
| SizeCheck.ZeroShapesExact | src/rules/explicit-size-check/rule.ts:329-344 | the six zero shapes are `=== 0`, `== 0`, `< 1` with the literal on the right and `0 ===`, `0 ==`, `1 >` with it on the left |
| SizeCheck.NonZeroShapesExact | src/rules/explicit-size-check/rule.ts:347-366 | the eight non-zero shapes are `!== 0`, `!= 0`, `> 0`, `>= 1` on the right and `0 !==`, `0 !=`, `0 <`, `1 <=` on the left |
| SizeCheck.ShapesDisjoint | src/rules/explicit-size-check/rule.ts:328-366 | no comparison with the call on one side is both a zero and a non-zero shape, so the order of the two tests does not matter |
| SizeCheck.LogicalChainInTest | src/rules/explicit-size-check/rule.ts:389-420 | a node under a chain of logical and/or expressions that is the test of an `if`, `?:`, `while`, `do-while` or `for` is a boolean node |
| SizeCheck.BooleanAncestor | src/rules/explicit-size-check/rule.ts:302-321 | the ancestor is reached through `!` operands and single `Boolean(...)` arguments only, is itself neither, and is negative exactly when an odd number of `!` were climbed |
| SizeCheck.GetBooleanAncestor | src/rules/explicit-size-check/rule.ts:302-321 | the `while (true)` loop returns the boolean ancestor and its negation parity |
| SizeCheck.Create | src/rules/explicit-size-check/rule.ts:147-158 | the `non-zero` option defaults to `greater-than` (`> 0`); `not-equal` gives `!== 0`; any other value fails with "Invalid option for non-zero: " and the value |
| SizeCheck.GetParenthesizedTimes | src/rules/explicit-size-check/rule.ts:122-130 | the loop returns the largest number of parenthesis pairs wrapping the node |
| SizeCheck.ParenDepthUnique | src/rules/explicit-size-check/rule.ts:122-130 | the parenthesisation depth is the only count that wraps the node while one more does not |
| SizeCheck.ParenthesizedRangeContains | src/rules/explicit-size-check/rule.ts:97-120 | when the tokens before and after a node lie outside it, the parenthesised range contains the node's range, and equals it exactly when the node has no parentheses |
| SizeCheck.ProblematicTokens | src/rules/explicit-size-check/rule.ts:132-140 | for every token: a keyword is problematic exactly when it is all lower-case letters, an identifier exactly when it is `of` or `await`, and a punctuator, comment or other token never |
| SizeCheck.SpaceEditsExact | src/rules/explicit-size-check/rule.ts:78-95 | one space is inserted after the token before and one before the token after, each only when that token touches the parenthesised range and is problematic |
| SizeCheck.FixSpaceAroundKeyword | src/rules/explicit-size-check/rule.ts:78-95 | the generator yields exactly those space insertions, computed from the maximal parenthesisation |
| SizeCheck.AlreadyStyledNotReported | src/rules/explicit-size-check/rule.ts:186-189 | a node already written in the chosen style is not reported |
| SizeCheck.ZeroStyleIndependentOfOption | src/rules/explicit-size-check/rule.ts:142-145 | a zero check is reported the same way whatever the `non-zero` option |
| SizeCheck.ProblemShape | src/rules/explicit-size-check/rule.ts:191-240 | message `zero`/`non-zero`, data `code` and `property`; an automatic fix or a single `suggestion`; its generator yields the replacement first, then at most two single spaces |
| SizeCheck.GetProblem | src/rules/explicit-size-check/rule.ts:162-241 | the step-by-step `getProblem` builds exactly the specified problem |
| SizeCheck.ComparisonClassification | src/rules/explicit-size-check/rule.ts:260-269 | an existing comparison is fixed automatically and classified as its base classification XOR the parity of the `!` above it |
| SizeCheck.BareCallClassification | src/rules/explicit-size-check/rule.ts:270-274 | a bare call in boolean context is a non-zero check, flipped by each `!` climbed |
| SizeCheck.LogicalChainSuggestion | src/rules/explicit-size-check/rule.ts:275-285 | a call directly under a logical and/or without boolean context is reported as itself with one `suggestion` and no fix |
| SizeCheck.NumericFallbackNotReported | src/rules/explicit-size-check/rule.ts:276-281 | a call on the left of a logical or whose right side is numeric, with no boolean context, is not reported |
| SizeCheck.NullishNotReported | src/rules/explicit-size-check/rule.ts:426-431 | `??` is not a logical context: a call under `??` without boolean context is not reported |
| SizeCheck.OnCallExpression | src/rules/explicit-size-check/rule.ts:244-298 | the `CallExpression` listener returns exactly the specified report |
| SizeCheck.ReportedFixEdits | src/rules/explicit-size-check/rule.ts:209-212 | once reported through the adapter, an automatic fix returns one array: the replacement, then the space insertions |
| SizeCheck.SuggestionInheritsData | src/rules/explicit-size-check/rule.ts:232-237 | once reported through the adapter, the single suggestion carries the problem's `code` and `property` and a wrapped fix |
| SizeCheck.ExampleIfTest | src/rules/explicit-size-check/rule.ts:264-274 | `if (foo.size())` is a non-zero check fixed to `foo.size() > 0` under the default option |
| SizeCheck.ExampleNegation | src/rules/explicit-size-check/rule.ts:265-269 | `!foo.size()` is a zero check that replaces the whole negation |
| SizeCheck.FixedNotReportedAgain | src/rules/explicit-size-check/rule.ts:186-212 | once the node is replaced by the comparison the fix writes, the call is not reported again under the same option |
| SizeCheck.SuggestionNotReportedAgain | src/rules/explicit-size-check/rule.ts:229-237 | a suggestion replaces the call itself, and once applied the call is not reported again |
| SizeCheck.FixedSourceEdits | src/rules/explicit-size-check/rule.ts:191-212 | the fixed source is the text with the replacement and the space insertions applied |
| SizeCheck.ExampleTypeof | src/rules/explicit-size-check/rule.spec.ts:272-276 | `typeof!foo.size()` is fixed to `typeof (foo.size() === 0)` |
| SizeCheck.ExampleVoid | src/rules/explicit-size-check/rule.spec.ts:216-220 | `const bar = void !foo.size();` is fixed to `const bar = void (foo.size() === 0);` |
| SizeCheck.ExampleIn | src/rules/explicit-size-check/rule.spec.ts:290-294 | `a in!foo.size()` is fixed to `a in foo.size() === 0` |
| SizeCheck.ExampleDoubleNegation | src/rules/explicit-size-check/rule.spec.ts:172-176 | `if (!!(!!foo.size())) {}` is fixed to `if (foo.size() > 0) {}` |
| MinMax.ExpressionTextIgnoresAs | src/rules/prefer-math-min-max/rule.ts:9-20 | any number of nested `as` wrappers leave the compared text unchanged |
| MinMax.ExpressionTextIsInnermost | src/rules/prefer-math-min-max/rule.ts:9-20 | the compared text is the text of the expression under all `as` wrappers |
| MinMax.NumberTypeAnnotationExact | src/rules/prefer-math-min-max/rule.ts:22-39 | exactly `number`, an annotation wrapping `number`, and a reference to `Number` are numeric; an annotation wrapping `Number` is not |
| MinMax.ChooseMethodTable | src/rules/prefer-math-min-max/rule.ts:58-86 | the `min` patterns give `min`, even when a `max` pattern also holds; the mirrored patterns otherwise give `max`; everything else gives no method |
| MinMax.OnlyComparisonsMatch | src/rules/prefer-math-min-max/rule.ts:58-59 | only `>`, `>=`, `<`, `<=` can choose a method |
| MinMax.ChooseMethodSymmetric | src/rules/prefer-math-min-max/rule.ts:63-82 | swapping the compared operands and flipping the operator chooses the same method |
| MinMax.ChosenMethodPreservesValue | src/rules/prefer-math-min-max/rule.ts:63-82 | when equal texts denote equal numbers, the conditional and the chosen `math` call compute the same value, for every number but NaN |
| MinMax.NonNumericAsRejected | src/rules/prefer-math-min-max/rule.ts:91-96 | an `as` operand whose type is not numeric rejects the match |
| MinMax.ContradictsExact | src/rules/prefer-math-min-max/rule.ts:106-170 | a definition rejects exactly on a non-numeric annotation or a non-number literal default or initialiser |
| MinMax.DefinitionRejects | src/rules/prefer-math-min-max/rule.ts:100-172 | one contradicting definition of the identifier rejects the operand |
| MinMax.NoInformationAllows | src/rules/prefer-math-min-max/rule.ts:100-172 | missing definitions, annotations and initialisers never reject the match |
| MinMax.ArgumentKeepsAs | src/rules/prefer-math-min-max/rule.ts:180-186 | the call's argument keeps the `as` wrappers, as the outermost one's text, which the compared text strips |
| MinMax.ExampleFixTextCast | src/rules/prefer-math-min-max/rule.ts:180-191 | an operand `x as number` keeps its cast in the call: `math.min(x as number, 50)` |
| MinMax.ExampleFixTextSequence | src/rules/prefer-math-min-max/rule.ts:180-191 | a sequence operand is parenthesised in the call: `math.max((a, b), 0)` |
| MinMax.NonBinaryTestNotReported | src/rules/prefer-math-min-max/rule.ts:46-48 | a conditional whose test is not a binary expression is not reported |
| MinMax.ReportExact | src/rules/prefer-math-min-max/rule.ts:84-195 | a report is made exactly when a method is chosen and both operands pass the guard; it names the method and replaces the whole conditional with `math.<method>(<left>, <right>)` |
| MinMax.OnConditionalExpression | src/rules/prefer-math-min-max/rule.ts:44-195 | the listener, with its loops over the operands and their definitions and its early returns, returns exactly the specified report |
| MinMax.ExampleMin | src/rules/prefer-math-min-max/rule.ts:64-72 | `height > 50 ? 50 : height` becomes `math.min(height, 50)` |
| MinMax.ExampleNotOperand | src/rules/prefer-math-min-max/rule.ts:63-86 | `height > 50 ? height + 1 : height` is not reported |

## Left out

- Tree traversal and `context.report` delivery belong to the host linter. A report is an append to `Reporter.reported`, and a listener's return value is an input.
- Applying fixes also belongs to the host linter. `Reporting.ApplyEdits` models only how the host merges the edits of one fix: sorted by start and then end, applied in one pass, overlapping edits refused. It is used only to state the expected fixed text of the examples.
- `getStaticValue` and `sourceCode.getScope` are foreign analyses. Their answers are inputs: a flag on the logical expression, and a map from a name to its definitions.
- `getScope` looks only at the scope of the operand itself. The input map stands for that scope and nothing is looked up in outer scopes.
- The token stream and the internals of `isParenthesized` are inputs: the tokens around each node, and the position of the parent's own syntax parenthesis. `getParentheses` is covered by the range computation only.
- The `Proxy` and `Reflect.get` passthrough: `on` and `onExit` are explicit methods of `ListenerTable`, and every other context property is out of scope.
- Generators are finite sequences of steps, drained eagerly. Laziness and non-terminating generators are not modelled.
- The rule metadata, the option schema, message-template interpolation and the `createEslintRule` wrapper are declarative glue and are not modelled.
- The tests are not modelled as such. A few of their cases are stated as example lemmas.
- SizeCheck.Create: an option object holding `non-zero: undefined` is treated as an absent option. The code would spread `undefined` and then throw.
- Reporting.ListenerTable.Build: the key order is that of first registration. `Object.entries` would list integer-like selectors first, in numeric order.
- A candidate call with no parent is modelled as a path of length zero, where `GetSizeCheckNode` gives nothing.
- Numbers are reals. NaN and the infinities cannot be a literal's value and are not modelled.
- A fix that throws is modelled (`FixValue.Thrown`), and so is a step of a drained generator that throws. A listener that throws is not, and neither is a problem iterable that throws while `Array.from` drains it (src/rules/explicit-size-check/util.ts:115-117).
- Reporting.Prepared / Reporting.Reporter.ReportListenerProblems: problems and suggestions are values here. The code updates them in place: it writes the wrapped fix back into the problem and the merged data back into each suggestion object (src/rules/explicit-size-check/util.ts:119-135). Aliasing is therefore not modelled. A suggestion object shared by several problems keeps the data merged for the first one, and because the suggestion's own value wins, that data is carried into the later ones. Likely unintended example: `p1.data = {name: "a"}`, `p2.data = {name: "b"}`, one shared suggestion without data. The code reports `p2`'s suggestion with `name: "a"`; the model gives `name: "b"`, the per-problem merge the code evidently intends. A fix function shared the same way is wrapped twice, which `Reporting.WrapIdempotent` shows to be harmless.
- Registrations through `on`/`onExit` after `create` has returned are not modelled. In the code they are lost for a new selector and, through the captured `listenerList`, seen by the combined listener of an existing one (src/rules/explicit-size-check/util.ts:86-91).
- The explicit-size-check lemmas about fixing and running again are about the tree the fix intends. Re-parsing the fixed text can give another tree, as in `a instanceof foo.size() === 0`.
- MinMax.OnConditionalExpression: the reported node is recorded as index 0, meaning the conditional itself, rather than as a node object.
- `src/index.ts`, `src/util.ts` and the build and lint configuration files have no rule logic and are not part of this model.
