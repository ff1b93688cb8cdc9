# Scholarship rule engine — Dafny model

This project models the rule engine of the scholarship advisory app in
`SD23067_Lab3.py`. The engine compares an applicant's facts (`cgpa`,
`family_income`, `disciplinary_actions`, ...) against a list of rules. Each
rule has a name, a priority, a list of `[field, operator, expected]`
conditions and an action. The engine:

- collects every rule whose conditions all hold, in rule-set order;
- picks the one with the highest priority, the first one written on a tie;
- reports that rule's decision and reason, with the names of all matched rules;
- reports a fixed REVIEW result when no rule matches.

Modules, bottom-up:

- `Optional` (`optional.dfy`): `Option`, and `ValueOr`, which models `dict.get(key, default)`.
- `Values` (`values.dfy`): the scalar values being compared, and the comparison rules of Python.
  - Numbers are exact reals.
  - A bool compares as 1 or 0, as Python's bool is an int.
  - Strings are ordered code point by code point.
  - `None` equals only `None`.
- `Operators` (`operators.dfy`): the `OPERATORS` table and what each operator gives on two values.
  - `Some(b)` when Python can perform the comparison.
  - `None` when it would raise `TypeError`, which the engine catches.
- `RuleMatching` (`rule_matching.dfy`): `rule_matches`.
  - Each condition ends in one of six outcomes.
  - The walk over the conditions stops at the first one that does not hold.
- `Evaluation` (`evaluation.dfy`): `evaluate_applicant`.
  - The filter over the rules and the first-on-tie `max` are stated for any test of which rules hold.
  - `EvaluateApplicant` plugs in `RuleMatches` for the applicant's facts.
- `DefaultRules` (`default_rules.dfy`): the five default rules of `DEFAULT_RULES_JSON`, and the engine's decisions for a few applicants.

The engine is a pure function of its inputs. Evaluating the same facts and
rules twice gives the same result, because every member here is a
mathematical function.

Against the default rules, the facts `cgpa=3.8, co_curricular_score=85,
family_income=5000, disciplinary_actions=0` satisfy all four conditions of
"Top merit candidate" and all four of "Good candidate - partial scholarship"
(3.8 >= 3.3, 85 >= 60, 5000 <= 12000, 0 <= 1). `DefaultRules.StrongApplicant`
proves that `matched_rules` lists both names and that "Top merit candidate"
is selected, with decision AWARD_FULL.

## Model

| member | source | states |
|---|---|---|
| `Values.StrCmp` | SD23067_Lab3.py:73-79 | string ordering used by the four ordering operators is a three-way result in {-1, 0, 1} that is 0 exactly when the strings are equal |
| `Values.StrCmpAntisymmetric` | SD23067_Lab3.py:73-79 | swapping two strings negates their comparison, so `a < b` exactly when `b > a` |
| `Values.StrCmpLexicographic` | SD23067_Lab3.py:73-79 | the string order is lexicographic by code point: a proper prefix sorts first, and otherwise the first differing character decides (so "aa" sorts before "b") |
| `Values.StrCmpTransitive` | SD23067_Lab3.py:73-79 | string ordering is transitive |
| `Values.Equal` | SD23067_Lab3.py:78 | `==` never raises and holds exactly when the values are identical or both are numeric (bools as 1 and 0) with the same value; so distinct numbers are unequal, and a string, None and a number are never equal to one another |
| `Values.EqualIsEquivalence` | SD23067_Lab3.py:78 | `==` on scalars is symmetric and transitive |
| `Operators.LookupOp` | SD23067_Lab3.py:73-79 | the operator table knows exactly the five symbols `>= <= > < ==`, and maps each to the operator written with that symbol |
| `Operators.LookupSymbol` | SD23067_Lab3.py:73-79 | every supported operator is found again under its own symbol |
| `Operators.Apply` | SD23067_Lab3.py:99-104 | a comparison raises exactly when it is an ordering (`>= <= > <`) between values that are not both numeric and not both strings; `==` always gives Python equality; on two numbers `>= <= > <` give the real-number comparison of their values, and on two strings `<` and `>` give the string order of `Values.StrCmp` |
| `Operators.OrderLaws` | SD23067_Lab3.py:73-79 | on every pair of values `>=` is the complement of `<` and `<=` of `>` (raising together), swapping operands turns each ordering into its converse, `==` is symmetric, and on orderable values `>=` is `>` or `==` |
| `Operators.LtTransitive` | SD23067_Lab3.py:77 | `<` is transitive wherever both comparisons can be performed |
| `RuleMatching.CheckCondition` | SD23067_Lab3.py:87-104 | a condition holds exactly when it is a triple whose field is a fact, whose operator is supported and whose comparison is performed and true; a wrong-arity entry fails whatever the facts; a missing field fails whatever the operator; a raising comparison is never `==` |
| `RuleMatching.AllHold` | SD23067_Lab3.py:86-106 | the walk over a condition list succeeds exactly when every condition in it holds |
| `RuleMatching.FirstFailure` | SD23067_Lab3.py:86-106 | the walk stops at a failing condition all of whose predecessors hold, and it stops nowhere exactly when the rule matches |
| `RuleMatching.RuleMatches` | SD23067_Lab3.py:86 | a rule with an empty or absent condition list matches every facts map |
| `RuleMatching.ConditionsOf` | SD23067_Lab3.py:86 | `rule.get("conditions", [])`: the listed conditions when the key is present, none when it is absent |
| `RuleMatching.RuleMatchesIff` | SD23067_Lab3.py:86-106 | a rule matches exactly when each of its conditions is well-formed, names a present field, uses a supported operator and compares true |
| `RuleMatching.FailingConditionFailsRule` | SD23067_Lab3.py:87-104 | any one failing condition (wrong arity, missing field, unsupported operator, raising or false comparison) makes the rule fail, whatever the other conditions are |
| `RuleMatching.StopsAtFirstFailure` | SD23067_Lab3.py:86-104 | conditions after the first failing one are never consulted: every continuation after it still fails |
| `Evaluation.Priority` | SD23067_Lab3.py:129 | `r.get("priority", 0)`: the rule's priority when present, 0 when absent |
| `Evaluation.NameOf` | SD23067_Lab3.py:135-136 | `r.get("name", "Unnamed rule")`: the rule's name when present, "Unnamed rule" when absent |
| `Evaluation.DecisionOf` | SD23067_Lab3.py:130-133 | `action.get("decision", "REVIEW")` with an absent action read as `{}`: the action's decision when present, REVIEW otherwise |
| `Evaluation.ReasonOf` | SD23067_Lab3.py:130-134 | `action.get("reason", "")` with an absent action read as `{}`: the action's reason when present, the empty string otherwise |
| `Evaluation.Matched` | SD23067_Lab3.py:114-118 | the matched list is never longer than the rule set |
| `Evaluation.MatchedIndices` | SD23067_Lab3.py:114-118 | the matching positions are strictly increasing positions of the rule set, one per matched rule |
| `Evaluation.MatchedIndicesExact` | SD23067_Lab3.py:114-118 | a position is listed exactly when the rule there matches |
| `Evaluation.MatchedIsOrderedSelection` | SD23067_Lab3.py:114-118 | the i-th matched rule is the rule at the i-th matching position, so the matched list is the matching rules in input order |
| `Evaluation.MatchedMembers` | SD23067_Lab3.py:114-118 | a rule is in the matched list exactly when it is in the rule set and matches |
| `Evaluation.BestIndex` | SD23067_Lab3.py:129 | `max` by priority returns a rule whose priority is at least every other's, and every rule before it has a strictly lower priority (first maximum wins) |
| `Evaluation.WinnerIndex` | SD23067_Lab3.py:129 | there is a winning position exactly when some rule matches, and it satisfies the winner conditions |
| `Evaluation.WinnerUnique` | SD23067_Lab3.py:129 | at most one position is the winner: the tie-break is deterministic |
| `Evaluation.BestIsWinner` | SD23067_Lab3.py:129 | the rule `max` picks from the filtered list is the rule at the winning position of the full rule set |
| `Evaluation.Resolve` | SD23067_Lab3.py:114-136 | no rule is selected exactly when no rule matches, and then the result is decision REVIEW, the fixed reason, no matched names and no selected rule |
| `Evaluation.SelectsWinner` | SD23067_Lab3.py:129-136 | for the winning position (the earliest matching rule of highest priority, default 0), the result names that rule as selected rule and copies its action's decision and reason (defaults REVIEW and empty) |
| `Evaluation.MatchedNamesInOrder` | SD23067_Lab3.py:135 | `matched_rules` holds, in input order, the names (default "Unnamed rule") of the rules at the matching positions, one per position |
| `Evaluation.NonMatchingRuleIsInert` | SD23067_Lab3.py:114-137 | appending a rule that does not match leaves the result unchanged |
| `Evaluation.EvaluateApplicant` | SD23067_Lab3.py:109-137 | the selected rule is absent exactly when no rule matches the facts, and the result is then the no-match REVIEW record |
| `DefaultRules.StrongApplicant` | SD23067_Lab3.py:7-34 | facts cgpa 3.8, score 85, income 5000, no disciplinary actions: both award rules match and AWARD_FULL is selected |
| `DefaultRules.RejectionPrecedence` | SD23067_Lab3.py:47-68 | facts cgpa 2.0 and 3 disciplinary actions: both rejection rules match and the low-CGPA rule (95) beats the disciplinary one (90) |
| `DefaultRules.CgpaThreshold` | SD23067_Lab3.py:11 | `cgpa >= 3.7` holds for 3.8 and is false for 3.6 |
| `DefaultRules.NoFactsMeansReview` | SD23067_Lab3.py:91-92 | with no facts every default rule fails on a missing field and the no-match REVIEW result is returned |
| `DefaultRules.TieGoesToFirst` | SD23067_Lab3.py:129 | of two matching rules with equal priority the first written is selected |
| `DefaultRules.MixedKindsDoNotMatch` | SD23067_Lab3.py:95-104 | an ordering between a number and a string is a non-match rather than an error, `==` between them is false, and `!=` is an unsupported operator |

## Left out

- The Streamlit user interface (`main`, lines 141-279): the form, the rule editor and the display of the result. It is presentation and I/O.
- Parsing the rule JSON and the check that its root is a list (lines 232-239). Rules enter the model already structured.
- The facts literal after the call to `main` (lines 281-288). It has no effect on the engine.
- Floating point: `float(cgpa)` and `float(family_income)` are exact reals here. IEEE rounding and NaN are not modelled.
- Values other than scalars. A JSON array or object as a fact or as a condition's expected value is not modelled. Python's ordering of lists and its equality of dicts are left out with it.
- Rules are structured values: every rule is an object, `conditions` is a list (or absent), an action is an object (or absent), and `name`, `decision` and `reason` are strings. Inputs of any other shape are outside the datatypes. On some the source raises an exception that escapes `evaluate_applicant`; on others it does not raise. The known cases are:
  - a rules entry that is not an object (`rule.get` raises AttributeError at line 86);
  - `conditions` set to `null`, a number or a bool (TypeError at line 86);
  - a condition entry without a length, such as a number (TypeError at line 87);
  - an unhashable field or operator symbol, such as a list (TypeError at lines 91 and 95);
  - an `action` that is `null`, a string, a number or a list (AttributeError at line 133, raised only when that rule is selected);
  - a priority that is not an integer, or priorities that `max` cannot compare (line 129);
  - a field or operator symbol that is a number, bool or `null`, such as `[1, ">=", 2]` or `["cgpa", 5, 2]`. This does not raise: the condition fails as a missing field (lines 91-92) or as an unsupported operator (lines 95-97). The model's fields and symbols are strings, so it does not represent these entries.
- A condition that is a three-character string, or an object with three keys, is not represented as such. Python unpacks it at line 89 into its characters or its keys, and it behaves exactly like the triple of those parts, which the model does represent (`Triple(c0, c1, Str(c2))`).
