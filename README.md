# Recursive condition evaluation of the json-business-rules engine

This project models the condition evaluator of the rules engine. A rule's
`conditions` is a tree. A leaf `{fact, operator, value}` compares the value
of a named fact with a constant, using one of the operators `lessThan`,
`greaterThan`, `lessThanInclusive` or `equal`. A combinator node is
`{all: [...]}` (every child holds), `{any: [...]}` (at least one child
holds) or `{not: node}` (negation of its single child). The engine decides a
rule against the facts added for a run. When the rule passes, the engine
emits the rule's `success` event once.

Modules:

- `Conditions` (Conditions.dfy) holds the condition tree `Cond`, the
  operators `Op` and their predicate `Compare`, the document-shape check
  `WellFormed`, and the set of facts a tree reads, `FactsOf`. It also holds
  the mutually recursive evaluator `Eval`, `EvalAll` and `EvalAny`. `Eval`
  is pure, so its value does not depend on whether a combinator stops at
  its first deciding child. The rule outcome does: `Engine.EvaluateRule`
  requires every fact that appears anywhere in the tree to be defined,
  even in a branch a short-circuiting evaluator would never reach. This is
  the no-short-circuit reading. `MissingFact` finds a fact that appears in
  the tree and that the run does not define.
- `ConditionLaws` (Laws.dfy) holds laws that hold for every tree and every
  fact assignment: double negation, a single-child `any`, De Morgan for a
  negated `all`, and the fact that a decision depends only on the facts the
  tree reads.
- `Engine` (Engine.dfy) holds `addFact`, rules, the rule outcomes PASSED,
  FAILED and ERRORED, a run over a rule list, and the success events that
  a run emits.
- `RecursiveRules` (RecursiveRules.dfy) holds the five trees of the
  recursive-rules suite. For each tree it gives a closed form of its decision
  that holds for every fact assignment. It also holds the suite's ten
  expectations, each a lemma about the success events that a one-rule engine
  emits.

Fact values are unbounded integers. A fact assignment is a `map<string,
int>`, built the way the suite builds it with `addFact` before
`engine.run()`.

## Model

| member | source | states |
|---|---|---|
| Conditions.EvalSemantics | test/engine-recusive-rules.test.mjs:9-206 | what `Eval` decides for each kind of node: a leaf applies its operator to the fact's value and the leaf's constant, `not` negates its child, `all` holds iff every child holds, `any` iff some child holds |
| Conditions.OperatorLaws | test/engine-recusive-rules.test.mjs:168-223 | `lessThan` is false at equality; `lessThanInclusive` is `lessThan` or `equal`; `greaterThan` is the complement of `lessThanInclusive`; `equal` holds iff neither strict comparison holds |
| Conditions.WellFormed | test/engine-recusive-rules.test.mjs:117-138 | an `all`/`any` node is well formed iff it has at least one child and every child is well formed |
| Conditions.EvalAll | test/engine-recusive-rules.test.mjs:9-36 | an `all` node's children evaluate to true iff every child evaluates true (the empty list gives true) |
| Conditions.EvalAny | test/engine-recusive-rules.test.mjs:21-33 | an `any` node's children evaluate to true iff at least one child evaluates true (the empty list gives false) |
| Conditions.MissingFact | test/engine-recusive-rules.test.mjs:49-56 | returns None exactly when every fact the tree reads was added for the run; otherwise returns a fact the tree reads that was never added |
| ConditionLaws.DoubleNegation | test/engine-recusive-rules.test.mjs:158-181 | `not(not(c))` reads the same facts as `c` and decides the same way, for every `c` and every assignment |
| ConditionLaws.SingleAny | test/engine-recusive-rules.test.mjs:117-138 | an `any` with one child reads the same facts as that child and decides the same way |
| ConditionLaws.NotAllIsAnyNot | test/engine-recusive-rules.test.mjs:184-206 | `not(all[c1..cn])` decides the same way as `any[not c1 .. not cn]`, and both read the same facts |
| ConditionLaws.ReadsOnlyItsFacts | test/engine-recusive-rules.test.mjs:11-19 | two assignments that agree on the facts a tree reads give the same decision |
| ConditionLaws.ReadsOnlyItsFactsSeq | test/engine-recusive-rules.test.mjs:70-78 | the same property for each child in a list of sibling trees |
| Engine.EvaluateRule | test/engine-recusive-rules.test.mjs:49-65 | PASSED iff the tree is well formed, every fact it reads is defined, and it evaluates true; FAILED iff the same holds except that it evaluates false; otherwise ERRORED, with a malformed tree reported as such and otherwise a fact the tree reads that is undefined |
| Engine.AddFact | test/engine-recusive-rules.test.mjs:51-53 | after `addFact(name, value)` the assignment defines exactly the earlier facts plus `name`; `name` has `value` and every other fact keeps its value |
| Engine.Run | test/engine-recusive-rules.test.mjs:42-54 | produces one result per rule, in rule order, each carrying that rule's outcome against the run's facts |
| Engine.SuccessEvents | test/engine-recusive-rules.test.mjs:39-46 | the success listener receives the event of every passing rule and no event that does not belong to a passing rule |
| Engine.SuccessEventPerPass | test/engine-recusive-rules.test.mjs:45 | a run emits exactly as many success events as there are passing rules |
| Engine.SuccessEventsAppend | test/engine-recusive-rules.test.mjs:42-45 | the events of two consecutive stretches of results are those of the first followed by those of the second, so events come in rule order |
| Engine.SuccessEmittedOnce | test/engine-recusive-rules.test.mjs:49-56 | with one rule, the success listener is called exactly once iff the rule passes; it is called with the rule's event, and not at all otherwise |
| RecursiveRules.NestedAnyCondition | test/engine-recusive-rules.test.mjs:9-36 | the `nestedAnyCondition` document is well formed and reads exactly age, income and family-size |
| RecursiveRules.NestedAllCondition | test/engine-recusive-rules.test.mjs:68-95 | the `nestedAllCondition` document is well formed and reads exactly age, income and family-size |
| RecursiveRules.ThriceNestedCondition | test/engine-recusive-rules.test.mjs:117-138 | the `thriceNestedCondition` document is well formed (every `any`/`all` is non-empty) and reads exactly income and family-size |
| RecursiveRules.NotNotCondition | test/engine-recusive-rules.test.mjs:158-166 | the `notNotCondition` document is well formed and reads only age |
| RecursiveRules.NestedNotCondition | test/engine-recusive-rules.test.mjs:184-206 | the `nestedNotCondition` document is well formed and reads exactly age and income |
| RecursiveRules.Household | test/engine-recusive-rules.test.mjs:51-53 | the three `addFact` calls in turn, starting from no facts, define exactly age, income and family-size, each with the value added |
| RecursiveRules.NestedAnyMeaning | test/engine-recusive-rules.test.mjs:9-36 | for every assignment, the tree holds iff 21 < age < 65 and (income <= 100 or family-size <= 3) |
| RecursiveRules.NestedAllMeaning | test/engine-recusive-rules.test.mjs:68-95 | holds iff age < 65, or age == 70, or (income <= 100 and family-size <= 3) |
| RecursiveRules.NestedAllReducesToInnerAll | test/engine-recusive-rules.test.mjs:98-114 | when both age leaves are false (for example age 90), the tree decides as its nested `all` |
| RecursiveRules.ThriceNestedMeaning | test/engine-recusive-rules.test.mjs:117-138 | holds iff income <= 100 and family-size <= 3; the single-child `any` layers vanish |
| RecursiveRules.NotNotMeaning | test/engine-recusive-rules.test.mjs:158-166 | holds iff age < 65, strictly |
| RecursiveRules.NestedNotMeaning | test/engine-recusive-rules.test.mjs:184-206 | holds iff age is outside (21, 65) or income <= 100; the inner `not` flips the income leaf |
| RecursiveRules.NestedAnyPasses | test/engine-recusive-rules.test.mjs:49-56 | age 30, income 30, family-size 2: the success event is emitted once |
| RecursiveRules.NestedAnyFails | test/engine-recusive-rules.test.mjs:58-65 | age 30, income 200, family-size 8: no success event |
| RecursiveRules.NestedAllPasses | test/engine-recusive-rules.test.mjs:98-105 | age 90, income 30, family-size 2: the success event is emitted once |
| RecursiveRules.NestedAllFails | test/engine-recusive-rules.test.mjs:107-114 | age 90, income 200, family-size 2: no success event |
| RecursiveRules.ThriceNestedPasses | test/engine-recusive-rules.test.mjs:141-147 | income 30, family-size 1: the success event is emitted once |
| RecursiveRules.ThriceNestedFails | test/engine-recusive-rules.test.mjs:149-155 | income 30, family-size 5: no success event |
| RecursiveRules.NotNotPasses | test/engine-recusive-rules.test.mjs:169-174 | age 30: the success event is emitted once |
| RecursiveRules.NotNotFails | test/engine-recusive-rules.test.mjs:176-181 | age 65: no success event, because `lessThan` is strict |
| RecursiveRules.NestedNotPasses | test/engine-recusive-rules.test.mjs:209-215 | age 30, income 100: the success event is emitted once, because `lessThanInclusive` holds at equality |
| RecursiveRules.NestedNotFails | test/engine-recusive-rules.test.mjs:217-223 | age 30, income 101: no success event |

The suite's negative expectations say only that the listener is "not called
exactly once". The model proves the stronger statement that it is not
called at all.

## Left out

- The evaluator's own source (`src/`), `engineFactory` and `ruleFactory` are not part of this model. The suite fixes the five trees, the `all`/`any`/`not` semantics on them, the four operators at the values it uses, and "success emitted once" for a passing rule. The rest is this model's own design choice, not something the suite shows: the ERRORED outcome and its two causes, no short-circuit (a fact in any branch must be defined, so `any[a == 1, b == 1]` with only `a` added is ERRORED rather than PASSED), the rule that every `all`/`any` is non-empty, the order in which those checks apply, and the success events of a run with several rules.
- The asynchronous `engine.run()`/`await` flow, the event emitter and the `vi.fn` spy. A run is a function from rules and facts to results, and "the success listener was called" is the list of success events it returns.
- Fact memoization, de-duplication of in-flight requests, asynchronous or parameterised fact providers, and runtime (dynamic) facts. The suite does not exercise them, and de-duplication is a concurrency concern. Every fact is a constant in one immutable map per run.
- Priority segments and the order in which rules run. The suite's engine holds one rule.
- JavaScript number semantics (IEEE-754 doubles). Every value in the suite is a small integer, so values are `int`.
- Operators other than the four the suite uses, and the unknown-operator error. `Op` is a closed type, so a leaf cannot name an unregistered operator.
- The ERRORED outcome is a choice of this model, and the suite exercises none of it. A malformed tree (an empty `all`/`any`) is refused before its facts are checked. A fact that appears anywhere in the tree but was never added is reported as undefined, whether or not the branch holding it decides the result.
- Conditions.Eval: evaluates an empty `all` as true and an empty `any` as false, like JavaScript's `every`/`some`. Only `Engine.EvaluateRule` refuses such trees as malformed, because the evaluator's own handling of them cannot be seen.
