/**
 * Rules and one run of the engine over a fact assignment. A rule passes
 * when its well-formed condition tree evaluates true with every fact it
 * reads defined; each passing rule emits its success event once, in
 * rule order.
 */
module Engine {
  import opened Conditions

  /** The event a rule carries, e.g. `{ type: "middle-income-adult" }`. */
  datatype Event = Event(kind: string)

  datatype Rule = Rule(conditions: Cond, event: Event)

  datatype EngineError = MalformedCondition | UndefinedFact(name: string)

  /** A rule's outcome in a run: PASSED, FAILED, or ERRORED with the cause. */
  datatype Outcome = Passed | Failed | Errored(error: EngineError)

  datatype RuleResult = RuleResult(rule: Rule, outcome: Outcome)

  /**
   * Decides one rule. A malformed tree is refused before it is evaluated;
   * a fact the tree reads and the run does not define makes the rule
   * ERRORED (not FAILED); otherwise the tree's value decides.
   */
  function EvaluateRule(rule: Rule, facts: Facts): (o: Outcome)
    ensures o.Errored? <==> !WellFormed(rule.conditions) || !(FactsOf(rule.conditions) <= facts.Keys)
    ensures o == Errored(MalformedCondition) <==> !WellFormed(rule.conditions)
    ensures o.Errored? && o.error.UndefinedFact? ==>
      o.error.name in FactsOf(rule.conditions) && o.error.name !in facts
    ensures o == Passed <==>
      WellFormed(rule.conditions) && FactsOf(rule.conditions) <= facts.Keys && Eval(rule.conditions, facts)
    ensures o == Failed <==>
      WellFormed(rule.conditions) && FactsOf(rule.conditions) <= facts.Keys && !Eval(rule.conditions, facts)
  {
    if !WellFormed(rule.conditions) then Errored(MalformedCondition)
    else
      match MissingFact(rule.conditions, facts)
      case Some(name) => Errored(UndefinedFact(name))
      case None => if Eval(rule.conditions, facts) then Passed else Failed
  }

  /**
   * `engine.addFact(name, value)`: the run's assignment gains `name`
   * with `value`, replacing any earlier value for it; every other fact
   * keeps its value.
   */
  function AddFact(facts: Facts, name: string, value: int): (added: Facts)
    ensures added.Keys == facts.Keys + {name}
    ensures added[name] == value
    ensures forall x | x in facts && x != name :: added[x] == facts[x]
  {
    facts[name := value]
  }

  /** One run: every rule is decided against the same fact assignment. */
  function Run(rules: seq<Rule>, facts: Facts): (results: seq<RuleResult>)
    ensures |results| == |rules|
    ensures forall i | 0 <= i < |rules| ::
      results[i].rule == rules[i] && results[i].outcome == EvaluateRule(rules[i], facts)
  {
    if |rules| == 0 then []
    else [RuleResult(rules[0], EvaluateRule(rules[0], facts))] + Run(rules[1..], facts)
  }

  /**
   * The success events emitted by a run, in rule order: the event of
   * every passing rule, and only of passing rules.
   */
  function SuccessEvents(results: seq<RuleResult>): (events: seq<Event>)
    ensures |events| <= |results|
    ensures forall i | 0 <= i < |results| && results[i].outcome == Passed ::
      results[i].rule.event in events
    ensures forall e | e in events ::
      exists i | 0 <= i < |results| :: results[i].outcome == Passed && results[i].rule.event == e
  {
    if |results| == 0 then []
    else
      var rest := SuccessEvents(results[1..]);
      assert forall i | 1 <= i < |results| :: results[i] == results[1..][i - 1];
      (if results[0].outcome == Passed then [results[0].rule.event] else []) + rest
  }

  /** How many rules of a run passed. */
  function PassCount(results: seq<RuleResult>): (n: nat)
    ensures n <= |results|
  {
    if |results| == 0 then 0
    else (if results[0].outcome == Passed then 1 else 0) + PassCount(results[1..])
  }

  /** A run emits exactly one success event per passing rule. */
  lemma {:induction false} SuccessEventPerPass(results: seq<RuleResult>)
    ensures |SuccessEvents(results)| == PassCount(results)
  {
    if |results| > 0 {
      SuccessEventPerPass(results[1..]);
    }
  }

  /**
   * Emission follows rule order: the events of a run over two consecutive
   * stretches of results are those of the first stretch followed by those
   * of the second.
   */
  lemma {:induction false} SuccessEventsAppend(r1: seq<RuleResult>, r2: seq<RuleResult>)
    ensures SuccessEvents(r1 + r2) == SuccessEvents(r1) + SuccessEvents(r2)
  {
    if |r1| > 0 {
      assert (r1 + r2)[1..] == r1[1..] + r2;
      SuccessEventsAppend(r1[1..], r2);
    } else {
      assert r1 + r2 == r2;
    }
  }

  /**
   * For an engine holding one rule, the success listener is called
   * exactly once when the rule's tree evaluates true, and not at all
   * otherwise (a FAILED or ERRORED rule emits nothing).
   */
  lemma SuccessEmittedOnce(rule: Rule, facts: Facts)
    ensures |SuccessEvents(Run([rule], facts))| == 1 <==> EvaluateRule(rule, facts) == Passed
    ensures SuccessEvents(Run([rule], facts)) ==
      if EvaluateRule(rule, facts) == Passed then [rule.event] else []
  {
    var results := Run([rule], facts);
    assert results == [RuleResult(rule, EvaluateRule(rule, facts))];
    assert SuccessEvents(results[1..]) == [];
  }
}
