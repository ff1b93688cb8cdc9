/** Evaluating an applicant against a rule set: collect the matching rules in
    order, pick the one with the highest priority (the first one on a tie), and
    report its decision.

    The resolution step only asks, of each rule, whether it holds; it is stated
    for any such test `holds`, and `EvaluateApplicant` plugs in `RuleMatches`
    for the applicant's facts. */
module Evaluation {
  import opened Optional
  import opened RuleMatching

  /** The decision reported when no rule matches, and the one an action without
      a `decision` key stands for. */
  const Review := "REVIEW"

  /** The reason reported when no rule matches. */
  const NoMatchReason := "No rules matched for this applicant. Rules may need review."

  /** The name shown for a rule without a `name` key. */
  const UnnamedRule := "Unnamed rule"

  /** The result record: decision, reason, the names of every matched rule in
      rule-set order, and the name of the selected rule (None when none matched). */
  datatype Decision = Decision(
    decision: string,
    reason: string,
    matchedRules: seq<string>,
    selectedRule: Option<string>)

  /** The result when no rule matches. */
  const NoMatch := Decision(Review, NoMatchReason, [], None)

  /** A rule's priority; an absent `priority` key counts as 0. */
  function Priority(r: Rule): (p: int)
    ensures r.priority.Some? ==> p == r.priority.value
    ensures r.priority.None? ==> p == 0
  {
    r.priority.ValueOr(0)
  }

  /** A rule's display name. */
  function NameOf(r: Rule): (name: string)
    ensures r.name.Some? ==> name == r.name.value
    ensures r.name.None? ==> name == UnnamedRule
  {
    r.name.ValueOr(UnnamedRule)
  }

  /** The decision of a rule's action, defaulting to REVIEW; an absent action
      is an empty one. */
  function DecisionOf(r: Rule): (decision: string)
    ensures r.action.Some? && r.action.value.decision.Some? ==> decision == r.action.value.decision.value
    ensures r.action.None? || r.action.value.decision.None? ==> decision == Review
  {
    r.action.ValueOr(Action(None, None)).decision.ValueOr(Review)
  }

  /** The reason of a rule's action, defaulting to the empty string. */
  function ReasonOf(r: Rule): (reason: string)
    ensures r.action.Some? && r.action.value.reason.Some? ==> reason == r.action.value.reason.value
    ensures r.action.None? || r.action.value.reason.None? ==> reason == ""
  {
    r.action.ValueOr(Action(None, None)).reason.ValueOr("")
  }

  /** The matching rules, appended in rule-set order as the scan over the rules
      meets them. */
  function Matched(rules: seq<Rule>, holds: Rule -> bool): (m: seq<Rule>)
    ensures |m| <= |rules|
  {
    if |rules| == 0 then []
    else
      var last := rules[|rules| - 1];
      if holds(last) then Matched(rules[..|rules| - 1], holds) + [last]
      else Matched(rules[..|rules| - 1], holds)
  }

  /** The positions in the rule set of the matching rules, in increasing order. */
  ghost function MatchedIndices(rules: seq<Rule>, holds: Rule -> bool): (ix: seq<nat>)
    ensures |ix| == |Matched(rules, holds)|
    ensures forall i :: 0 <= i < |ix| ==> ix[i] < |rules|
    ensures forall i, j :: 0 <= i < j < |ix| ==> ix[i] < ix[j]
  {
    if |rules| == 0 then []
    else
      var n := |rules| - 1;
      var ix := MatchedIndices(rules[..n], holds);
      if holds(rules[n]) then ix + [n] else ix
  }

  /** A position of the rule set is listed exactly when its rule matches. */
  lemma {:induction false} MatchedIndicesExact(rules: seq<Rule>, holds: Rule -> bool)
    ensures forall k :: 0 <= k < |rules| ==> (k in MatchedIndices(rules, holds) <==> holds(rules[k]))
  {
    if |rules| > 0 {
      var n := |rules| - 1;
      var prefix := rules[..n];
      MatchedIndicesExact(prefix, holds);
      var ix', ix := MatchedIndices(prefix, holds), MatchedIndices(rules, holds);
      assert n !in ix';
      forall k | 0 <= k < n
        ensures k in ix <==> holds(rules[k])
      {
        assert prefix[k] == rules[k];
      }
    }
  }

  /** The i-th matched rule is the rule at the i-th listed position: with
      `MatchedIndicesExact`, the matched list is the rule set's matching rules
      in rule-set order. */
  lemma {:induction false} MatchedIsOrderedSelection(rules: seq<Rule>, holds: Rule -> bool)
    ensures forall i :: 0 <= i < |Matched(rules, holds)| ==>
      Matched(rules, holds)[i] == rules[MatchedIndices(rules, holds)[i]]
  {
    if |rules| > 0 {
      var n := |rules| - 1;
      var prefix := rules[..n];
      MatchedIsOrderedSelection(prefix, holds);
      var m', ix' := Matched(prefix, holds), MatchedIndices(prefix, holds);
      var m, ix := Matched(rules, holds), MatchedIndices(rules, holds);
      forall i | 0 <= i < |m'|
        ensures m[i] == rules[ix[i]]
      {
        assert m[i] == m'[i] && ix[i] == ix'[i];
        assert prefix[ix'[i]] == rules[ix'[i]];
      }
    }
  }

  /** A rule is in the matched list exactly when it is in the rule set and matches. */
  lemma MatchedMembers(rules: seq<Rule>, holds: Rule -> bool)
    ensures forall r :: r in Matched(rules, holds) <==> r in rules && holds(r)
  {
    MatchedIndicesExact(rules, holds);
    MatchedIsOrderedSelection(rules, holds);
    var m, ix := Matched(rules, holds), MatchedIndices(rules, holds);
    forall r | r in m
      ensures r in rules && holds(r)
    {
      var i :| 0 <= i < |m| && m[i] == r;
      assert rules[ix[i]] == r;
    }
    forall r | r in rules && holds(r)
      ensures r in m
    {
      var k :| 0 <= k < |rules| && rules[k] == r;
      var i :| 0 <= i < |ix| && ix[i] == k;
      assert m[i] == r;
    }
  }

  /** The position Python's `max(matched, key=priority)` returns: scanning left
      to right, a later rule replaces the best so far only when its priority is
      strictly greater. */
  function BestIndex(m: seq<Rule>): (k: nat)
    requires |m| > 0
    ensures k < |m|
    ensures forall j :: 0 <= j < |m| ==> Priority(m[j]) <= Priority(m[k])
    ensures forall j :: 0 <= j < k ==> Priority(m[j]) < Priority(m[k])
  {
    if |m| == 1 then 0
    else
      var n := |m| - 1;
      var k := BestIndex(m[..n]);
      if Priority(m[n]) > Priority(m[k]) then n else k
  }

  /** Position `w` holds the rule the engine should select: it matches, no
      matching rule has a higher priority, and every earlier matching rule has
      a strictly lower one. */
  ghost predicate IsWinner(rules: seq<Rule>, holds: Rule -> bool, w: int) {
    && 0 <= w < |rules|
    && holds(rules[w])
    && (forall j :: 0 <= j < |rules| && holds(rules[j]) ==> Priority(rules[j]) <= Priority(rules[w]))
    && (forall j :: 0 <= j < w && holds(rules[j]) ==> Priority(rules[j]) < Priority(rules[w]))
  }

  /** There is at most one winning position. */
  lemma WinnerUnique(rules: seq<Rule>, holds: Rule -> bool, v: int, w: int)
    requires IsWinner(rules, holds, v) && IsWinner(rules, holds, w)
    ensures v == w
  {
  }

  /** The winning position found directly on the rule set, without building
      the matched list: a later matching rule displaces the one found so far
      only with a strictly higher priority. */
  ghost function WinnerIndex(rules: seq<Rule>, holds: Rule -> bool): (w: Option<nat>)
    ensures w.None? <==> forall i :: 0 <= i < |rules| ==> !holds(rules[i])
    ensures w.Some? ==> IsWinner(rules, holds, w.value)
  {
    if |rules| == 0 then None
    else
      var n := |rules| - 1;
      var prefix := rules[..n];
      var w := WinnerIndex(prefix, holds);
      assert forall j :: 0 <= j < n ==> prefix[j] == rules[j];
      if !holds(rules[n]) then w
      else if w.None? || Priority(rules[n]) > Priority(rules[w.value]) then Some(n)
      else w
  }

  /** The rule `max` picks from the matched list is the rule at the winning
      position of the rule set. */
  lemma {:induction false} BestIsWinner(rules: seq<Rule>, holds: Rule -> bool)
    ensures |Matched(rules, holds)| == 0 <==> WinnerIndex(rules, holds).None?
    ensures |Matched(rules, holds)| > 0 ==>
      Matched(rules, holds)[BestIndex(Matched(rules, holds))] == rules[WinnerIndex(rules, holds).value]
  {
    if |rules| > 0 {
      var n := |rules| - 1;
      var prefix := rules[..n];
      BestIsWinner(prefix, holds);
      var m' := Matched(prefix, holds);
      var w' := WinnerIndex(prefix, holds);
      if |m'| > 0 {
        assert prefix[w'.value] == rules[w'.value];
      }
      if holds(rules[n]) {
        var m := Matched(rules, holds);
        assert m[..|m'|] == m';
      }
    }
  }

  /** Resolves a rule set, given which rules hold. */
  function Resolve(rules: seq<Rule>, holds: Rule -> bool): (d: Decision)
    ensures d.selectedRule.None? <==> forall i :: 0 <= i < |rules| ==> !holds(rules[i])
    ensures d.selectedRule.None? ==> d == NoMatch
    ensures |d.matchedRules| <= |rules|
  {
    var m := Matched(rules, holds);
    MatchedMembers(rules, holds);
    assert forall i :: 0 <= i < |rules| && holds(rules[i]) ==> rules[i] in m;
    if |m| == 0 then NoMatch
    else
      assert m[0] in m;
      var best := m[BestIndex(m)];
      Decision(DecisionOf(best), ReasonOf(best), seq(|m|, i requires 0 <= i < |m| => NameOf(m[i])), Some(NameOf(best)))
  }

  /** The result reports the winner: its name as the selected rule, and the
      decision and reason of its action (with their defaults). With
      `WinnerIndex`, a winner exists exactly when some rule matches, and it is
      the earliest of the highest-priority matching rules. */
  lemma SelectsWinner(rules: seq<Rule>, holds: Rule -> bool, w: int)
    requires IsWinner(rules, holds, w)
    ensures Resolve(rules, holds).selectedRule == Some(NameOf(rules[w]))
    ensures Resolve(rules, holds).decision == DecisionOf(rules[w])
    ensures Resolve(rules, holds).reason == ReasonOf(rules[w])
  {
    BestIsWinner(rules, holds);
    WinnerUnique(rules, holds, w, WinnerIndex(rules, holds).value);
  }

  /** `matched_rules` lists the names of the rules at the matching positions,
      in rule-set order, with absent names shown as "Unnamed rule"; with
      `MatchedIndicesExact`, those are exactly the matching rules. */
  lemma MatchedNamesInOrder(rules: seq<Rule>, holds: Rule -> bool)
    ensures var d := Resolve(rules, holds);
      var ix := MatchedIndices(rules, holds);
      && |d.matchedRules| == |ix|
      && (forall i :: 0 <= i < |ix| ==> d.matchedRules[i] == NameOf(rules[ix[i]]))
  {
    MatchedIsOrderedSelection(rules, holds);
  }

  /** Adding a rule that does not match changes nothing in the result. */
  lemma NonMatchingRuleIsInert(rules: seq<Rule>, holds: Rule -> bool, r: Rule)
    requires !holds(r)
    ensures Resolve(rules + [r], holds) == Resolve(rules, holds)
  {
    assert (rules + [r])[..|rules|] == rules;
    assert Matched(rules + [r], holds) == Matched(rules, holds);
  }

  /** The applicant's facts as the test of which rules hold. */
  function MatcherFor(facts: Facts): Rule -> bool {
    r => RuleMatches(r, facts)
  }

  /** Evaluates the applicant's facts against the rule set: when no rule
      matches, the fixed REVIEW result; otherwise the result of the winner. */
  function EvaluateApplicant(facts: Facts, rules: seq<Rule>): (d: Decision)
    ensures d.selectedRule.None? <==> forall i :: 0 <= i < |rules| ==> !RuleMatches(rules[i], facts)
    ensures d.selectedRule.None? ==> d == NoMatch
  {
    Resolve(rules, MatcherFor(facts))
  }
}
