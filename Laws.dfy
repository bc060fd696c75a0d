/**
 * Laws of the condition evaluator that hold for every tree and every
 * fact assignment.
 */
module ConditionLaws {
  import opened Conditions

  /** `not(not(c))` decides exactly as `c` does. */
  lemma DoubleNegation(c: Cond, facts: Facts)
    requires FactsOf(c) <= facts.Keys
    ensures FactsOf(Not(Not(c))) == FactsOf(c)
    ensures Eval(Not(Not(c)), facts) == Eval(c, facts)
  {
  }

  /** An `any` with a single child decides exactly as that child. */
  lemma SingleAny(c: Cond, facts: Facts)
    requires FactsOf(c) <= facts.Keys
    ensures FactsOf(Any([c])) == FactsOf(c)
    ensures Eval(Any([c]), facts) == Eval(c, facts)
  {
  }

  /** A two-child `all` is the conjunction of its children. */
  lemma AllOfTwo(a: Cond, b: Cond, facts: Facts)
    requires FactsOf(a) <= facts.Keys && FactsOf(b) <= facts.Keys
    ensures FactsOf(All([a, b])) == FactsOf(a) + FactsOf(b)
    ensures Eval(All([a, b]), facts) == (Eval(a, facts) && Eval(b, facts))
  {
    assert [a, b][1..] == [b] && [b][1..] == [];
    assert FactsOfSeq([a, b]) == FactsOf(a) + FactsOfSeq([b]);
    assert FactsOfSeq([b]) == FactsOf(b) + FactsOfSeq([]);
    assert EvalAll([a, b], facts) == (Eval(a, facts) && EvalAll([b], facts));
    assert EvalAll([b], facts) == (Eval(b, facts) && EvalAll([], facts));
  }

  /** A two-child `any` is the disjunction of its children. */
  lemma AnyOfTwo(a: Cond, b: Cond, facts: Facts)
    requires FactsOf(a) <= facts.Keys && FactsOf(b) <= facts.Keys
    ensures FactsOf(Any([a, b])) == FactsOf(a) + FactsOf(b)
    ensures Eval(Any([a, b]), facts) == (Eval(a, facts) || Eval(b, facts))
  {
    assert [a, b][1..] == [b] && [b][1..] == [];
    assert FactsOfSeq([a, b]) == FactsOf(a) + FactsOfSeq([b]);
    assert FactsOfSeq([b]) == FactsOf(b) + FactsOfSeq([]);
    assert EvalAny([a, b], facts) == (Eval(a, facts) || EvalAny([b], facts));
    assert EvalAny([b], facts) == (Eval(b, facts) || EvalAny([], facts));
  }

  /** A three-child `all` is the conjunction of its children. */
  lemma AllOfThree(a: Cond, b: Cond, c: Cond, facts: Facts)
    requires FactsOf(a) <= facts.Keys && FactsOf(b) <= facts.Keys && FactsOf(c) <= facts.Keys
    ensures FactsOf(All([a, b, c])) == FactsOf(a) + FactsOf(b) + FactsOf(c)
    ensures Eval(All([a, b, c]), facts) == (Eval(a, facts) && Eval(b, facts) && Eval(c, facts))
  {
    assert [a, b, c][1..] == [b, c] && [b, c][1..] == [c] && [c][1..] == [];
    assert FactsOfSeq([a, b, c]) == FactsOf(a) + FactsOfSeq([b, c]);
    assert FactsOfSeq([b, c]) == FactsOf(b) + FactsOfSeq([c]);
    assert FactsOfSeq([c]) == FactsOf(c) + FactsOfSeq([]);
    assert EvalAll([a, b, c], facts) == (Eval(a, facts) && EvalAll([b, c], facts));
    assert EvalAll([b, c], facts) == (Eval(b, facts) && EvalAll([c], facts));
    assert EvalAll([c], facts) == (Eval(c, facts) && EvalAll([], facts));
  }

  /** A three-child `any` is the disjunction of its children. */
  lemma AnyOfThree(a: Cond, b: Cond, c: Cond, facts: Facts)
    requires FactsOf(a) <= facts.Keys && FactsOf(b) <= facts.Keys && FactsOf(c) <= facts.Keys
    ensures FactsOf(Any([a, b, c])) == FactsOf(a) + FactsOf(b) + FactsOf(c)
    ensures Eval(Any([a, b, c]), facts) == (Eval(a, facts) || Eval(b, facts) || Eval(c, facts))
  {
    assert [a, b, c][1..] == [b, c] && [b, c][1..] == [c] && [c][1..] == [];
    assert FactsOfSeq([a, b, c]) == FactsOf(a) + FactsOfSeq([b, c]);
    assert FactsOfSeq([b, c]) == FactsOf(b) + FactsOfSeq([c]);
    assert FactsOfSeq([c]) == FactsOf(c) + FactsOfSeq([]);
    assert EvalAny([a, b, c], facts) == (Eval(a, facts) || EvalAny([b, c], facts));
    assert EvalAny([b, c], facts) == (Eval(b, facts) || EvalAny([c], facts));
    assert EvalAny([c], facts) == (Eval(c, facts) || EvalAny([], facts));
  }

  /** Each child wrapped in a `not`. */
  function Negated(cs: seq<Cond>): (ns: seq<Cond>)
    ensures |ns| == |cs|
    ensures forall i | 0 <= i < |cs| :: ns[i] == Not(cs[i])
  {
    seq(|cs|, i requires 0 <= i < |cs| => Not(cs[i]))
  }

  /** De Morgan: `not(all[c1..cn])` decides as `any[not c1 .. not cn]`. */
  lemma NotAllIsAnyNot(cs: seq<Cond>, facts: Facts)
    requires FactsOfSeq(cs) <= facts.Keys
    ensures FactsOf(Any(Negated(cs))) == FactsOf(Not(All(cs)))
    ensures Eval(Not(All(cs)), facts) == Eval(Any(Negated(cs)), facts)
  {
  }

  /** Two assignments that agree on every fact a tree reads. */
  ghost predicate AgreeOn(names: set<string>, f1: Facts, f2: Facts)
  {
    names <= f1.Keys && names <= f2.Keys &&
    forall x | x in names :: f1[x] == f2[x]
  }

  /**
   * The decision depends only on the facts the tree reads: facts the
   * tree does not mention have no influence on it.
   */
  lemma {:induction false} ReadsOnlyItsFacts(c: Cond, f1: Facts, f2: Facts)
    requires AgreeOn(FactsOf(c), f1, f2)
    ensures Eval(c, f1) == Eval(c, f2)
    decreases c
  {
    match c
    case Leaf(_, _, _) =>
    case All(cs) => ReadsOnlyItsFactsSeq(cs, f1, f2);
    case Any(cs) => ReadsOnlyItsFactsSeq(cs, f1, f2);
    case Not(d) => ReadsOnlyItsFacts(d, f1, f2);
  }

  lemma {:induction false} ReadsOnlyItsFactsSeq(cs: seq<Cond>, f1: Facts, f2: Facts)
    requires AgreeOn(FactsOfSeq(cs), f1, f2)
    ensures forall i | 0 <= i < |cs| :: Eval(cs[i], f1) == Eval(cs[i], f2)
    decreases cs
  {
    forall i | 0 <= i < |cs|
      ensures Eval(cs[i], f1) == Eval(cs[i], f2)
    {
      ReadsOnlyItsFacts(cs[i], f1, f2);
    }
  }
}
