/**
 * The five nested condition trees of the recursive-rules suite, what each
 * one decides for every fact assignment, and the ten expectations: for
 * each tree, one assignment under which the engine's success listener is
 * called once and one under which it is not.
 */
module RecursiveRules {
  import opened Conditions
  import opened Engine
  import ConditionLaws

  const MiddleIncomeAdult := Event("middle-income-adult")

  /** all[age < 65, age > 21, any[income <= 100, family-size <= 3]] */
  function NestedAnyCondition(): (c: Cond)
    ensures WellFormed(c)
    ensures FactsOf(c) == {"age", "income", "family-size"}
  {
    All([
      Leaf("age", LessThan, 65),
      Leaf("age", GreaterThan, 21),
      Any([
        Leaf("income", LessThanInclusive, 100),
        Leaf("family-size", LessThanInclusive, 3)
      ])
    ])
  }

  /** any[age < 65, age == 70, all[income <= 100, family-size <= 3]] */
  function NestedAllCondition(): (c: Cond)
    ensures WellFormed(c)
    ensures FactsOf(c) == {"age", "income", "family-size"}
  {
    Any([
      Leaf("age", LessThan, 65),
      Leaf("age", Equal, 70),
      All([
        Leaf("income", LessThanInclusive, 100),
        Leaf("family-size", LessThanInclusive, 3)
      ])
    ])
  }

  /** any[all[any[income <= 100], family-size <= 3]] */
  function ThriceNestedCondition(): (c: Cond)
    ensures WellFormed(c)
    ensures FactsOf(c) == {"income", "family-size"}
  {
    Any([
      All([
        Any([Leaf("income", LessThanInclusive, 100)]),
        Leaf("family-size", LessThanInclusive, 3)
      ])
    ])
  }

  /** not(not(age < 65)) */
  function NotNotCondition(): (c: Cond)
    ensures WellFormed(c)
    ensures FactsOf(c) == {"age"}
  {
    Not(Not(Leaf("age", LessThan, 65)))
  }

  /** not(all[age < 65, age > 21, not(income <= 100)]) */
  function NestedNotCondition(): (c: Cond)
    ensures WellFormed(c)
    ensures FactsOf(c) == {"age", "income"}
  {
    Not(All([
      Leaf("age", LessThan, 65),
      Leaf("age", GreaterThan, 21),
      Not(Leaf("income", LessThanInclusive, 100))
    ]))
  }

  /** The single rule of the suite's engine, carrying the given tree. */
  function SuiteRule(conditions: Cond): (r: Rule)
  {
    Rule(conditions, MiddleIncomeAdult)
  }

  /**
   * The assignment made by `addFact("age", ..)`, `addFact("income", ..)`
   * and `addFact("family-size", ..)` in turn.
   */
  function Household(age: int, income: int, familySize: int): (facts: Facts)
    ensures facts.Keys == {"age", "income", "family-size"}
    ensures facts["age"] == age && facts["income"] == income && facts["family-size"] == familySize
  {
    AddFact(AddFact(AddFact(map[], "age", age), "income", income), "family-size", familySize)
  }

  // ---- What each tree decides, for every assignment ----

  /**
   * The nested-any tree passes iff age lies strictly between 21 and 65
   * and income is at most 100 or the family has at most 3 members; both
   * age leaves read the one age value.
   */
  lemma NestedAnyMeaning(facts: Facts)
    requires {"age", "income", "family-size"} <= facts.Keys
    ensures Eval(NestedAnyCondition(), facts) <==>
      21 < facts["age"] < 65 && (facts["income"] <= 100 || facts["family-size"] <= 3)
  {
    var income := Leaf("income", LessThanInclusive, 100);
    var familySize := Leaf("family-size", LessThanInclusive, 3);
    ConditionLaws.AnyOfTwo(income, familySize, facts);
    ConditionLaws.AllOfThree(Leaf("age", LessThan, 65), Leaf("age", GreaterThan, 21),
      Any([income, familySize]), facts);
  }

  /**
   * The nested-all tree passes iff age is below 65, or age is exactly 70,
   * or both income <= 100 and family-size <= 3.
   */
  lemma NestedAllMeaning(facts: Facts)
    requires {"age", "income", "family-size"} <= facts.Keys
    ensures Eval(NestedAllCondition(), facts) <==>
      facts["age"] < 65 || facts["age"] == 70 ||
      (facts["income"] <= 100 && facts["family-size"] <= 3)
  {
    var income := Leaf("income", LessThanInclusive, 100);
    var familySize := Leaf("family-size", LessThanInclusive, 3);
    ConditionLaws.AllOfTwo(income, familySize, facts);
    ConditionLaws.AnyOfThree(Leaf("age", LessThan, 65), Leaf("age", Equal, 70),
      All([income, familySize]), facts);
  }

  /** With both age leaves false, the nested-all tree is its inner `all`. */
  lemma NestedAllReducesToInnerAll(facts: Facts)
    requires {"age", "income", "family-size"} <= facts.Keys
    requires facts["age"] >= 65 && facts["age"] != 70
    ensures Eval(NestedAllCondition(), facts) ==
      Eval(NestedAllCondition().children[2], facts)
  {
    NestedAllMeaning(facts);
  }

  /**
   * The single-child `any` layers vanish: the thrice-nested tree passes
   * iff income <= 100 and family-size <= 3.
   */
  lemma ThriceNestedMeaning(facts: Facts)
    requires {"income", "family-size"} <= facts.Keys
    ensures Eval(ThriceNestedCondition(), facts) <==>
      facts["income"] <= 100 && facts["family-size"] <= 3
  {
  }

  /** The doubly negated tree passes iff age < 65 (strictly). */
  lemma NotNotMeaning(facts: Facts)
    requires "age" in facts
    ensures Eval(NotNotCondition(), facts) <==> facts["age"] < 65
  {
    ConditionLaws.DoubleNegation(Leaf("age", LessThan, 65), facts);
  }

  /**
   * The outer `not` passes iff age is outside (21, 65) or income is at
   * most 100: the inner `not` flips the income leaf.
   */
  lemma NestedNotMeaning(facts: Facts)
    requires {"age", "income"} <= facts.Keys
    ensures Eval(NestedNotCondition(), facts) <==>
      !(21 < facts["age"] < 65) || facts["income"] <= 100
  {
    var inner := NestedNotCondition().child;
    assert Eval(inner.children[2], facts) <==> facts["income"] > 100;
  }

  // ---- The ten expectations of the suite ----

  lemma NestedAnyPasses()
    ensures SuccessEvents(Run([SuiteRule(NestedAnyCondition())], Household(30, 30, 2))) == [MiddleIncomeAdult]
  {
    NestedAnyMeaning(Household(30, 30, 2));
    SuccessEmittedOnce(SuiteRule(NestedAnyCondition()), Household(30, 30, 2));
  }

  lemma NestedAnyFails()
    ensures SuccessEvents(Run([SuiteRule(NestedAnyCondition())], Household(30, 200, 8))) == []
  {
    NestedAnyMeaning(Household(30, 200, 8));
    SuccessEmittedOnce(SuiteRule(NestedAnyCondition()), Household(30, 200, 8));
  }

  lemma NestedAllPasses()
    ensures SuccessEvents(Run([SuiteRule(NestedAllCondition())], Household(90, 30, 2))) == [MiddleIncomeAdult]
  {
    NestedAllMeaning(Household(90, 30, 2));
    SuccessEmittedOnce(SuiteRule(NestedAllCondition()), Household(90, 30, 2));
  }

  lemma NestedAllFails()
    ensures SuccessEvents(Run([SuiteRule(NestedAllCondition())], Household(90, 200, 2))) == []
  {
    NestedAllMeaning(Household(90, 200, 2));
    SuccessEmittedOnce(SuiteRule(NestedAllCondition()), Household(90, 200, 2));
  }

  lemma ThriceNestedPasses()
    ensures SuccessEvents(Run([SuiteRule(ThriceNestedCondition())],
      AddFact(AddFact(map[], "income", 30), "family-size", 1))) == [MiddleIncomeAdult]
  {
    var facts := AddFact(AddFact(map[], "income", 30), "family-size", 1);
    ThriceNestedMeaning(facts);
    SuccessEmittedOnce(SuiteRule(ThriceNestedCondition()), facts);
  }

  lemma ThriceNestedFails()
    ensures SuccessEvents(Run([SuiteRule(ThriceNestedCondition())],
      AddFact(AddFact(map[], "income", 30), "family-size", 5))) == []
  {
    var facts := AddFact(AddFact(map[], "income", 30), "family-size", 5);
    ThriceNestedMeaning(facts);
    SuccessEmittedOnce(SuiteRule(ThriceNestedCondition()), facts);
  }

  lemma NotNotPasses()
    ensures SuccessEvents(Run([SuiteRule(NotNotCondition())], AddFact(map[], "age", 30))) == [MiddleIncomeAdult]
  {
    NotNotMeaning(AddFact(map[], "age", 30));
    SuccessEmittedOnce(SuiteRule(NotNotCondition()), AddFact(map[], "age", 30));
  }

  /** At age 65 `lessThan 65` is false: the operator is strict. */
  lemma NotNotFails()
    ensures SuccessEvents(Run([SuiteRule(NotNotCondition())], AddFact(map[], "age", 65))) == []
  {
    NotNotMeaning(AddFact(map[], "age", 65));
    SuccessEmittedOnce(SuiteRule(NotNotCondition()), AddFact(map[], "age", 65));
  }

  /** At income 100 `lessThanInclusive 100` holds, so the inner `not` is false. */
  lemma NestedNotPasses()
    ensures SuccessEvents(Run([SuiteRule(NestedNotCondition())],
      AddFact(AddFact(map[], "age", 30), "income", 100))) == [MiddleIncomeAdult]
  {
    var facts := AddFact(AddFact(map[], "age", 30), "income", 100);
    NestedNotMeaning(facts);
    SuccessEmittedOnce(SuiteRule(NestedNotCondition()), facts);
  }

  lemma NestedNotFails()
    ensures SuccessEvents(Run([SuiteRule(NestedNotCondition())],
      AddFact(AddFact(map[], "age", 30), "income", 101))) == []
  {
    var facts := AddFact(AddFact(map[], "age", 30), "income", 101);
    NestedNotMeaning(facts);
    SuccessEmittedOnce(SuiteRule(NestedNotCondition()), facts);
  }
}
