/** Whether one rule holds against an applicant's facts: every condition of the
    rule, in order, must name a known fact, use a supported operator and compare
    true. */
module RuleMatching {
  import opened Optional
  import opened Values
  import opened Operators

  /** The applicant's facts: field name to value. */
  type Facts = map<string, Value>

  /** The length of a condition list that is not a triple. */
  type BadArity = n: nat | n != 3

  /** One entry of a rule's `conditions`: a `[field, operator, expected]`
      triple, or a list of any other length. */
  datatype Condition =
    | Triple(field: string, symbol: string, expected: Value)
    | Malformed(arity: BadArity)

  /** A rule's `action` object; either key may be absent. */
  datatype Action = Action(decision: Option<string>, reason: Option<string>)

  /** A rule object; each key may be absent from the JSON. */
  datatype Rule = Rule(
    name: Option<string>,
    priority: Option<int>,
    conditions: Option<seq<Condition>>,
    action: Option<Action>)

  /** How checking one condition ends: it holds, or the reason the rule fails. */
  datatype Outcome =
    | Holds
    | WrongArity           // not exactly three elements
    | MissingField         // the field is not among the facts
    | UnsupportedOperator  // the symbol is not in the operator table
    | Incomparable         // the comparison raised, e.g. a number against a string
    | Falsified            // the comparison was performed and came out false

  /** Checks one condition against the facts, testing arity, field, operator and
      comparison in that order. */
  function CheckCondition(c: Condition, facts: Facts): (o: Outcome)
    ensures o.Holds? <==>
      && c.Triple?
      && c.field in facts
      && LookupOp(c.symbol).Some?
      && Apply(LookupOp(c.symbol).value, facts[c.field], c.expected) == Some(true)
    ensures c.Malformed? ==> o == WrongArity
    ensures c.Triple? && c.field !in facts ==> o == MissingField
    ensures c.Triple? && LookupOp(c.symbol).None? ==> o in {MissingField, UnsupportedOperator}
    ensures o == Incomparable ==> LookupOp(c.symbol).Some? && LookupOp(c.symbol).value != Eq
  {
    match c
    case Malformed(_) => WrongArity
    case Triple(field, symbol, expected) =>
      if field !in facts then MissingField
      else
        match LookupOp(symbol)
        case None => UnsupportedOperator
        case Some(op) =>
          match Apply(op, facts[field], expected)
          case None => Incomparable
          case Some(b) => if b then Holds else Falsified
  }

  /** The conditions a rule lists; an absent `conditions` key means none. */
  function ConditionsOf(rule: Rule): (cs: seq<Condition>)
    ensures rule.conditions.Some? ==> cs == rule.conditions.value
    ensures rule.conditions.None? ==> cs == []
  {
    rule.conditions.ValueOr([])
  }

  /** Walks the conditions in order, stopping with false at the first one that
      does not hold. */
  function AllHold(conds: seq<Condition>, facts: Facts): (b: bool)
    ensures b <==> forall i :: 0 <= i < |conds| ==> CheckCondition(conds[i], facts).Holds?
  {
    if |conds| == 0 then true
    else if !CheckCondition(conds[0], facts).Holds? then false
    else
      var rest := AllHold(conds[1..], facts);
      assert forall i :: 1 <= i < |conds| ==> conds[i] == conds[1..][i - 1];
      rest
  }

  /** The position at which the walk over the conditions stops with false, if
      it does: the first condition that does not hold. */
  function FirstFailure(conds: seq<Condition>, facts: Facts): (r: Option<nat>)
    ensures r.Some? ==>
      && r.value < |conds|
      && !CheckCondition(conds[r.value], facts).Holds?
      && forall j :: 0 <= j < r.value ==> CheckCondition(conds[j], facts).Holds?
    ensures r.None? <==> AllHold(conds, facts)
  {
    if |conds| == 0 then None
    else if !CheckCondition(conds[0], facts).Holds? then Some(0)
    else
      match FirstFailure(conds[1..], facts)
      case None => None
      case Some(k) =>
        assert forall j :: 1 <= j < k + 1 ==> conds[j] == conds[1..][j - 1];
        Some(k + 1)
  }

  /** Whether the rule holds against the facts. A rule with no conditions, or
      with no `conditions` key at all, holds against any facts. */
  function RuleMatches(rule: Rule, facts: Facts): (b: bool)
    ensures rule.conditions.None? || rule.conditions.value == [] ==> b
  {
    AllHold(ConditionsOf(rule), facts)
  }

  /** A rule matches exactly when each of its conditions is a triple whose
      field is among the facts, whose operator is supported, and whose
      comparison can be performed and is true. */
  lemma RuleMatchesIff(rule: Rule, facts: Facts)
    ensures RuleMatches(rule, facts) <==>
      forall c :: c in ConditionsOf(rule) ==>
        && c.Triple?
        && c.field in facts
        && LookupOp(c.symbol).Some?
        && Apply(LookupOp(c.symbol).value, facts[c.field], c.expected) == Some(true)
  {
    var conds := ConditionsOf(rule);
    if !RuleMatches(rule, facts) {
      var k := FirstFailure(conds, facts).value;
      assert conds[k] in conds;
    }
  }

  /** One failing condition anywhere in the list (wrong arity, missing field,
      unsupported operator, a comparison that raises, or one that is false)
      makes the rule fail, whatever the other conditions say. */
  lemma FailingConditionFailsRule(rule: Rule, facts: Facts, i: nat)
    requires i < |ConditionsOf(rule)|
    requires CheckCondition(ConditionsOf(rule)[i], facts) != Holds
    ensures !RuleMatches(rule, facts)
  {
  }

  /** Whatever follows the first failing condition is never consulted: the
      rule fails for every continuation of the list up to that condition. */
  lemma {:induction false} StopsAtFirstFailure(conds: seq<Condition>, rest: seq<Condition>, facts: Facts)
    requires FirstFailure(conds, facts).Some?
    ensures var k := FirstFailure(conds, facts).value;
      !AllHold(conds[..k + 1] + rest, facts)
  {
    var k := FirstFailure(conds, facts).value;
    assert (conds[..k + 1] + rest)[k] == conds[k];
  }
}
