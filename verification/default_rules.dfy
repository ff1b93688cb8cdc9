/** The scholarship rule set shipped as the engine's default configuration,
    and what the engine decides for a few applicants against it. */
module DefaultRules {
  import opened Optional
  import opened Values
  import opened RuleMatching
  import opened Evaluation

  /** A condition comparing a numeric fact against a number. */
  function Cond(field: string, symbol: string, expected: real): Condition {
    Triple(field, symbol, Num(expected))
  }

  /** A rule with every key present, as each default rule is written. */
  function MakeRule(name: string, priority: int, conds: seq<Condition>, decision: string, reason: string): Rule {
    Rule(Some(name), Some(priority), Some(conds), Some(Action(Some(decision), Some(reason))))
  }

  const TopMerit := MakeRule("Top merit candidate", 100,
    [Cond("cgpa", ">=", 3.7), Cond("co_curricular_score", ">=", 80.0),
     Cond("family_income", "<=", 8000.0), Cond("disciplinary_actions", "==", 0.0)],
    "AWARD_FULL", "Excellent academic & co-curricular performance, with acceptable need")

  const GoodCandidate := MakeRule("Good candidate - partial scholarship", 80,
    [Cond("cgpa", ">=", 3.3), Cond("co_curricular_score", ">=", 60.0),
     Cond("family_income", "<=", 12000.0), Cond("disciplinary_actions", "<=", 1.0)],
    "AWARD_PARTIAL", "Good academic & involvement record with moderate need")

  const NeedBased := MakeRule("Need-based review", 70,
    [Cond("cgpa", ">=", 2.5), Cond("family_income", "<=", 4000.0)],
    "REVIEW", "High need but borderline academic score")

  const LowCgpa := MakeRule("Low CGPA \U{2013} not eligible", 95,
    [Cond("cgpa", "<", 2.5)],
    "REJECT", "CGPA below minimum scholarship requirement")

  const Disciplinary := MakeRule("Serious disciplinary record", 90,
    [Cond("disciplinary_actions", ">=", 2.0)],
    "REJECT", "Too many disciplinary records")

  /** The five default rules, in the order they are written. */
  const Defaults := [TopMerit, GoodCandidate, NeedBased, LowCgpa, Disciplinary]

  /** The one-rule list `[r]` when `b` holds, the empty list otherwise. */
  function Keep(b: bool, r: Rule): seq<Rule> {
    if b then [r] else []
  }

  /** The matched list over the default rules, given which of them match. */
  lemma MatchedDefaults(holds: Rule -> bool, t: bool, g: bool, n: bool, l: bool, d: bool)
    requires holds(TopMerit) == t && holds(GoodCandidate) == g
    requires holds(NeedBased) == n && holds(LowCgpa) == l
    requires holds(Disciplinary) == d
    ensures Matched(Defaults, holds)
      == Keep(t, TopMerit) + Keep(g, GoodCandidate) + Keep(n, NeedBased) + Keep(l, LowCgpa) + Keep(d, Disciplinary)
  {
    var r1, r2, r3, r4 := [TopMerit], [TopMerit, GoodCandidate], [TopMerit, GoodCandidate, NeedBased],
      [TopMerit, GoodCandidate, NeedBased, LowCgpa];
    assert r1[..0] == [] && r2[..1] == r1 && r3[..2] == r2 && r4[..3] == r3 && Defaults[..4] == r4;
    assert Matched(r1, holds) == Keep(t, TopMerit);
    assert Matched(r2, holds) == Keep(t, TopMerit) + Keep(g, GoodCandidate);
    assert Matched(r3, holds) == Keep(t, TopMerit) + Keep(g, GoodCandidate) + Keep(n, NeedBased);
    assert Matched(r4, holds) == Keep(t, TopMerit) + Keep(g, GoodCandidate) + Keep(n, NeedBased) + Keep(l, LowCgpa);
  }

  /** The facts of a strong applicant. */
  const Strong: Facts := map["cgpa" := Num(3.8), "co_curricular_score" := Num(85.0),
                             "family_income" := Num(5000.0), "disciplinary_actions" := Num(0.0)]

  /** The facts of an applicant with a low CGPA and a disciplinary record. */
  const Weak: Facts := map["cgpa" := Num(2.0), "disciplinary_actions" := Num(3.0)]

  /** Each of the four conditions of the top-merit rule holds for the strong
      applicant, and so do those of the partial-award rule. */
  lemma StrongMeetsAwards()
    ensures RuleMatches(TopMerit, Strong) && RuleMatches(GoodCandidate, Strong)
  {
    var top, good := ConditionsOf(TopMerit), ConditionsOf(GoodCandidate);
    assert CheckCondition(top[0], Strong) == Holds;
    assert CheckCondition(top[1], Strong) == Holds;
    assert CheckCondition(top[2], Strong) == Holds;
    assert CheckCondition(top[3], Strong) == Holds;
    assert CheckCondition(good[0], Strong) == Holds;
    assert CheckCondition(good[1], Strong) == Holds;
    assert CheckCondition(good[2], Strong) == Holds;
    assert CheckCondition(good[3], Strong) == Holds;
  }

  /** The need-based rule fails for the strong applicant: income 5000 is above 4000. */
  lemma StrongMissesNeedBased()
    ensures !RuleMatches(NeedBased, Strong)
  {
    assert Strong["family_income"] == Num(5000.0);
    assert CheckCondition(ConditionsOf(NeedBased)[1], Strong) == Falsified;
  }

  /** The low-CGPA rule fails for the strong applicant: 3.8 is not below 2.5. */
  lemma StrongMissesLowCgpa()
    ensures !RuleMatches(LowCgpa, Strong)
  {
    assert Strong["cgpa"] == Num(3.8);
    assert CheckCondition(ConditionsOf(LowCgpa)[0], Strong) == Falsified;
  }

  /** The disciplinary rule fails for the strong applicant: 0 actions is below 2. */
  lemma StrongMissesDisciplinary()
    ensures !RuleMatches(Disciplinary, Strong)
  {
    assert Strong["disciplinary_actions"] == Num(0.0);
    assert CheckCondition(ConditionsOf(Disciplinary)[0], Strong) == Falsified;
  }

  /** Against the strong applicant, exactly the two award rules hold. */
  lemma StrongMatches()
    ensures RuleMatches(TopMerit, Strong) && RuleMatches(GoodCandidate, Strong)
    ensures !RuleMatches(NeedBased, Strong) && !RuleMatches(LowCgpa, Strong) && !RuleMatches(Disciplinary, Strong)
  {
    StrongMeetsAwards();
    StrongMissesNeedBased();
    StrongMissesLowCgpa();
    StrongMissesDisciplinary();
  }

  /** Against the weak applicant, exactly the two rejection rules hold. */
  lemma WeakMatches()
    ensures !RuleMatches(TopMerit, Weak) && !RuleMatches(GoodCandidate, Weak) && !RuleMatches(NeedBased, Weak)
    ensures RuleMatches(LowCgpa, Weak) && RuleMatches(Disciplinary, Weak)
  {
    assert CheckCondition(ConditionsOf(TopMerit)[0], Weak) == Falsified;
    assert CheckCondition(ConditionsOf(GoodCandidate)[0], Weak) == Falsified;
    assert CheckCondition(ConditionsOf(NeedBased)[0], Weak) == Falsified;
  }

  /** The matched list for the strong applicant: the two award rules, in order. */
  lemma StrongMatchedList()
    ensures Matched(Defaults, MatcherFor(Strong)) == [TopMerit, GoodCandidate]
  {
    StrongMatches();
    MatchedDefaults(MatcherFor(Strong), true, true, false, false, false);
  }

  /** The matched list for the weak applicant: the two rejection rules, in order. */
  lemma WeakMatchedList()
    ensures Matched(Defaults, MatcherFor(Weak)) == [LowCgpa, Disciplinary]
  {
    WeakMatches();
    MatchedDefaults(MatcherFor(Weak), false, false, false, true, true);
  }

  /** When exactly two rules match and the first has at least the second's
      priority, the first is selected. */
  lemma ResolvePair(rules: seq<Rule>, holds: Rule -> bool, x: Rule, y: Rule)
    requires Matched(rules, holds) == [x, y]
    requires Priority(y) <= Priority(x)
    ensures Resolve(rules, holds) == Decision(DecisionOf(x), ReasonOf(x), [NameOf(x), NameOf(y)], Some(NameOf(x)))
  {
    var m := Matched(rules, holds);
    assert m[..1] == [x];
    assert BestIndex(m) == 0;
    assert Resolve(rules, holds).matchedRules == [NameOf(x), NameOf(y)];
  }

  /** A strong applicant: both award rules match, and the full award, with the
      higher priority, is selected. */
  lemma StrongApplicant()
    ensures EvaluateApplicant(Strong, Defaults)
      == Decision("AWARD_FULL", "Excellent academic & co-curricular performance, with acceptable need",
                  ["Top merit candidate", "Good candidate - partial scholarship"],
                  Some("Top merit candidate"))
  {
    StrongMatchedList();
    ResolvePair(Defaults, MatcherFor(Strong), TopMerit, GoodCandidate);
  }

  /** Low CGPA and a disciplinary record: both rejection rules match and the
      low-CGPA rule (priority 95) beats the disciplinary one (priority 90). */
  lemma RejectionPrecedence()
    ensures EvaluateApplicant(Weak, Defaults)
      == Decision("REJECT", "CGPA below minimum scholarship requirement",
                  ["Low CGPA \U{2013} not eligible", "Serious disciplinary record"],
                  Some("Low CGPA \U{2013} not eligible"))
  {
    WeakMatchedList();
    ResolvePair(Defaults, MatcherFor(Weak), LowCgpa, Disciplinary);
  }

  /** A CGPA of 3.6 fails `cgpa >= 3.7` while 3.8 passes it. */
  lemma CgpaThreshold()
    ensures CheckCondition(Cond("cgpa", ">=", 3.7), map["cgpa" := Num(3.8)]) == Holds
    ensures CheckCondition(Cond("cgpa", ">=", 3.7), map["cgpa" := Num(3.6)]) == Falsified
  {
  }

  /** With no facts at all every default rule fails on a missing field, and the
      result is the no-match review. */
  lemma NoFactsMeansReview()
    ensures EvaluateApplicant(map[], Defaults) == NoMatch
  {
  }

  /** Two unconditional rules of equal priority, the second with an action. */
  const TieFirst := Rule(Some("first"), Some(5), None, None)
  const TieSecond := Rule(Some("second"), Some(5), Some([]), Some(Action(Some("REJECT"), None)))

  /** Two rules that both hold are both kept, in order. */
  lemma BothMatched(holds: Rule -> bool, a: Rule, b: Rule)
    requires holds(a) && holds(b)
    ensures Matched([a, b], holds) == [a, b]
  {
    assert [a, b][..1] == [a] && [a][..0] == [];
    assert Matched([a], holds) == [a];
  }

  /** Two unconditional rules of equal priority: the first one written wins,
      and its missing action gives REVIEW with an empty reason. */
  lemma TieGoesToFirst()
    ensures EvaluateApplicant(map[], [TieFirst, TieSecond])
      == Decision("REVIEW", "", ["first", "second"], Some("first"))
  {
    var holds := MatcherFor(map[]);
    assert holds(TieFirst) && holds(TieSecond);
    BothMatched(holds, TieFirst, TieSecond);
    ResolvePair([TieFirst, TieSecond], holds, TieFirst, TieSecond);
  }

  /** Comparing a string fact with `>=` raises in Python; the condition fails
      instead, while `==` against the same value is simply false. */
  lemma MixedKindsDoNotMatch()
    ensures CheckCondition(Triple("cgpa", ">=", Str("high")), map["cgpa" := Num(3.8)]) == Incomparable
    ensures CheckCondition(Triple("cgpa", "==", Str("high")), map["cgpa" := Num(3.8)]) == Falsified
    ensures CheckCondition(Triple("cgpa", "!=", Num(3.0)), map["cgpa" := Num(3.8)]) == UnsupportedOperator
  {
  }
}
