/**
 * Condition trees of the rules engine and their recursive evaluator.
 *
 * A rule's `conditions` is a tree whose nodes are either a leaf
 * `{fact, operator, value}`, comparing the current value of a named fact
 * with a constant, or one of the combinators `{all: [...]}`,
 * `{any: [...]}` and `{not: node}`. Facts are resolved from one fact
 * assignment per run, modelled as a map from fact name to value.
 */
module Conditions {

  /** The comparison operators a leaf may name. */
  datatype Op = LessThan | GreaterThan | LessThanInclusive | Equal

  /** One node of a condition document. */
  datatype Cond =
    | Leaf(fact: string, op: Op, value: int)
    | All(children: seq<Cond>)
    | Any(children: seq<Cond>)
    | Not(child: Cond)

  /** The fact assignment of one run: fact name to its (numeric) value. */
  type Facts = map<string, int>

  /** The operator predicate `op(factValue, value)`. */
  function Compare(op: Op, factValue: int, value: int): bool
  {
    match op
    case LessThan => factValue < value
    case GreaterThan => factValue > value
    case LessThanInclusive => factValue <= value
    case Equal => factValue == value
  }

  /**
   * How the four operators relate at and around the comparison value:
   * `lessThan` is strict, `lessThanInclusive` also admits equality, and
   * `greaterThan` is its complement.
   */
  lemma OperatorLaws(factValue: int, value: int)
    ensures !Compare(LessThan, value, value)
    ensures Compare(LessThanInclusive, value, value)
    ensures Compare(LessThanInclusive, factValue, value) <==>
      Compare(LessThan, factValue, value) || Compare(Equal, factValue, value)
    ensures Compare(GreaterThan, factValue, value) <==> !Compare(LessThanInclusive, factValue, value)
    ensures Compare(Equal, factValue, value) <==>
      !Compare(LessThan, factValue, value) && !Compare(GreaterThan, factValue, value)
  {
  }

  /**
   * Document shape: every `all` and `any` has at least one child, and
   * every child is itself well formed.
   */
  function WellFormed(c: Cond): (ok: bool)
    ensures !c.Leaf? && !c.Not? ==>
      (ok <==> |c.children| > 0 && forall i | 0 <= i < |c.children| :: WellFormed(c.children[i]))
  {
    match c
    case Leaf(_, _, _) => true
    case All(cs) => |cs| > 0 && WellFormedSeq(cs)
    case Any(cs) => |cs| > 0 && WellFormedSeq(cs)
    case Not(d) => WellFormed(d)
  }

  function WellFormedSeq(cs: seq<Cond>): (ok: bool)
    ensures ok <==> forall i | 0 <= i < |cs| :: WellFormed(cs[i])
  {
    if |cs| == 0 then true
    else
      var rest := WellFormedSeq(cs[1..]);
      assert forall i | 1 <= i < |cs| :: cs[i] == cs[1..][i - 1];
      WellFormed(cs[0]) && rest
  }

  /** The names of the facts a tree reads, at any depth. */
  function FactsOf(c: Cond): (names: set<string>)
    ensures c.Leaf? ==> c.fact in names
    ensures c.Not? ==> names == FactsOf(c.child)
    ensures !c.Leaf? && !c.Not? ==>
      forall i | 0 <= i < |c.children| :: FactsOf(c.children[i]) <= names
  {
    match c
    case Leaf(f, _, _) => {f}
    case All(cs) => FactsOfSeq(cs)
    case Any(cs) => FactsOfSeq(cs)
    case Not(d) => FactsOf(d)
  }

  /** The names of the facts read by a sequence of sibling trees. */
  function FactsOfSeq(cs: seq<Cond>): (names: set<string>)
    ensures forall i | 0 <= i < |cs| :: FactsOf(cs[i]) <= names
    ensures forall x | x in names :: exists i | 0 <= i < |cs| :: x in FactsOf(cs[i])
  {
    if |cs| == 0 then {}
    else
      var rest := FactsOfSeq(cs[1..]);
      assert forall i | 1 <= i < |cs| :: cs[i] == cs[1..][i - 1];
      FactsOf(cs[0]) + rest
  }

  /**
   * Evaluates a tree against the facts: `all` is the conjunction of the
   * children's results, `any` their disjunction, `not` the negation of its
   * single child. Being pure, it gives the same result whether or not a
   * combinator stops at its first deciding child; its precondition asks
   * for every fact in the tree, as a rule outcome does (no short-circuit).
   */
  function Eval(c: Cond, facts: Facts): (b: bool)
    requires FactsOf(c) <= facts.Keys
  {
    match c
    case Leaf(f, op, v) => Compare(op, facts[f], v)
    case All(cs) => EvalAll(cs, facts)
    case Any(cs) => EvalAny(cs, facts)
    case Not(d) => !Eval(d, facts)
  }

  /**
   * What the evaluator decides, node kind by node kind: a leaf applies its
   * operator to the fact's value and the leaf's constant, `not` negates
   * its child, `all` holds iff every child holds, `any` iff some child does.
   */
  lemma EvalSemantics(c: Cond, facts: Facts)
    requires FactsOf(c) <= facts.Keys
    ensures c.Leaf? ==> (Eval(c, facts) <==> Compare(c.op, facts[c.fact], c.value))
    ensures c.Not? ==> (Eval(c, facts) <==> !Eval(c.child, facts))
    ensures c.All? ==> (Eval(c, facts) <==> forall i | 0 <= i < |c.children| :: Eval(c.children[i], facts))
    ensures c.Any? ==> (Eval(c, facts) <==> exists i | 0 <= i < |c.children| :: Eval(c.children[i], facts))
  {
  }

  /** The conjunction of the results of all the children. */
  function EvalAll(cs: seq<Cond>, facts: Facts): (b: bool)
    requires FactsOfSeq(cs) <= facts.Keys
    ensures b <==> forall i | 0 <= i < |cs| :: Eval(cs[i], facts)
  {
    if |cs| == 0 then true
    else
      var first := Eval(cs[0], facts);
      var rest := EvalAll(cs[1..], facts);
      assert forall i | 1 <= i < |cs| :: cs[i] == cs[1..][i - 1];
      first && rest
  }

  /** The disjunction of the results of all the children. */
  function EvalAny(cs: seq<Cond>, facts: Facts): (b: bool)
    requires FactsOfSeq(cs) <= facts.Keys
    ensures b <==> exists i | 0 <= i < |cs| :: Eval(cs[i], facts)
  {
    if |cs| == 0 then false
    else
      var first := Eval(cs[0], facts);
      var rest := EvalAny(cs[1..], facts);
      assert forall i | 1 <= i < |cs| :: cs[i] == cs[1..][i - 1];
      first || rest
  }

  /**
   * A fact that appears anywhere in the tree, in any branch, and that the
   * assignment does not define; None when every such fact is defined.
   */
  function MissingFact(c: Cond, facts: Facts): (m: Option<string>)
    ensures m.None? <==> FactsOf(c) <= facts.Keys
    ensures m.Some? ==> m.value in FactsOf(c) && m.value !in facts
  {
    match c
    case Leaf(f, _, _) => if f in facts then None else Some(f)
    case All(cs) => MissingFactSeq(cs, facts)
    case Any(cs) => MissingFactSeq(cs, facts)
    case Not(d) => MissingFact(d, facts)
  }

  function MissingFactSeq(cs: seq<Cond>, facts: Facts): (m: Option<string>)
    ensures m.None? <==> FactsOfSeq(cs) <= facts.Keys
    ensures m.Some? ==> m.value in FactsOfSeq(cs) && m.value !in facts
  {
    if |cs| == 0 then None
    else
      match MissingFact(cs[0], facts)
      case Some(f) => Some(f)
      case None => MissingFactSeq(cs[1..], facts)
  }

  datatype Option<T> = None | Some(value: T)
}
