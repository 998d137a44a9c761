/** Autonomy levels earned from receipts and artifacts (src/acp/autonomy.fard). */
module Autonomy {
  import opened Records
  import opened Numbers
  import opened Policy
  import opened Runs
  import opened Runtime

  const RESTRICTED := 0
  const SUPERVISED := 1
  const STANDARD := 2
  const EXTENDED := 3
  const AUTONOMOUS := 4

  function AllowedToolsForLevel(level: int): seq<string> {
    if level == RESTRICTED then ["none"]
    else if level == SUPERVISED then ["none", "read_file", "search"]
    else if level == STANDARD then ["none", "read_file", "search", "write_artifact", "score_vendor", "diff_contract"]
    else if level == EXTENDED then
      ["none", "read_file", "search", "write_artifact", "score_vendor", "diff_contract", "run_tests", "run_query", "write_file"]
    else
      ["none", "read_file", "search", "write_artifact", "score_vendor", "diff_contract", "run_tests", "run_query", "write_file",
       "external_api", "send_notification"]
  }

  function SpendLimitForLevel(level: int): int {
    if level == RESTRICTED then 0
    else if level == SUPERVISED then 100
    else if level == STANDARD then 5000
    else if level == EXTENDED then 25000
    else 100000
  }

  datatype Record = Record(
    actorId: string, level: int, total: nat, violationCount: nat,
    passRate: int, avgConfidence: int, interventionRate: int,
    allowedTools: seq<string>, spendLimit: int)

  function OfActor(receipts: seq<Receipt>, actorId: string): seq<Receipt> {
    if receipts == [] then []
    else (if receipts[0].body.actor == actorId then [receipts[0]] else []) + OfActor(receipts[1..], actorId)
  }

  predicate IsViolation(r: Receipt) {
    r.body.kind == "policy_violation"
  }

  function CountViolations(receipts: seq<Receipt>): (n: nat)
    ensures n <= |receipts|
  {
    if receipts == [] then 0 else (if IsViolation(receipts[0]) then 1 else 0) + CountViolations(receipts[1..])
  }

  function Sum(confidences: seq<int>): int {
    if confidences == [] then 0 else confidences[0] + Sum(confidences[1..])
  }

  function PassRate(committed: nat, total: nat): int
    requires committed <= total
  {
    if total == 0 then 0 else (committed * 100) / total
  }

  function AvgConfidence(confidences: seq<int>): int {
    if confidences == [] then 0 else Sum(confidences) / |confidences|
  }

  function InterventionRate(humanEdits: int, committed: nat): int {
    if committed == 0 then 100 else (humanEdits * 100) / committed
  }

  function LevelFor(total: nat, violations: nat, passRate: int, confidence: int, intervention: int): int {
    if violations > 2 then RESTRICTED
    else if total < 3 then RESTRICTED
    else if total < 10 then
      if passRate >= 90 && confidence >= 70 then SUPERVISED else RESTRICTED
    else if total < 25 then
      if passRate >= 95 && confidence >= 75 && intervention <= 30 then STANDARD
      else if passRate >= 90 then SUPERVISED
      else RESTRICTED
    else if total < 50 then
      if passRate >= 97 && confidence >= 80 && intervention <= 20 then EXTENDED
      else if passRate >= 95 then STANDARD
      else SUPERVISED
    else
      if passRate >= 99 && confidence >= 85 && intervention <= 10 then AUTONOMOUS
      else if passRate >= 97 then EXTENDED
      else STANDARD
  }

  function ScoreCounts(actorId: string, total: nat, violations: nat, confidences: seq<int>, humanEdits: int): Record
    requires violations <= total
  {
    var committed := total - violations;
    var passRate := PassRate(committed, total);
    var confidence := AvgConfidence(confidences);
    var intervention := InterventionRate(humanEdits, committed);
    var level := LevelFor(total, violations, passRate, confidence, intervention);
    Record(actorId, level, total, violations, passRate, confidence, intervention,
           AllowedToolsForLevel(level), SpendLimitForLevel(level))
  }

  /** `confidences` are those of the artifacts passed in. */
  function Score(actorId: string, receipts: seq<Receipt>, confidences: seq<int>, humanEdits: int): Record {
    var own := OfActor(receipts, actorId);
    ScoreCounts(actorId, |own|, CountViolations(own), confidences, humanEdits)
  }

  datatype Override = Override(maxLevel: Option<int>, minLevel: Option<int>)

  function OverrideLevel(r: Record, o: Option<Override>): Record {
    if o.None? then r
    else
      var capped := if o.value.maxLevel.Some? && r.level > o.value.maxLevel.value then o.value.maxLevel.value else r.level;
      var floored := if o.value.minLevel.Some? && capped < o.value.minLevel.value then o.value.minLevel.value else capped;
      var level := if floored > AUTONOMOUS then AUTONOMOUS else if floored < RESTRICTED then RESTRICTED else floored;
      r.(level := level, allowedTools := AllowedToolsForLevel(level), spendLimit := SpendLimitForLevel(level))
  }

  function BaseRules(rules: seq<Rule>): seq<Rule> {
    if rules == [] then []
    else (if rules[0].ToolAllow? || rules[0].SpendLimit? then [] else [rules[0]]) + BaseRules(rules[1..])
  }

  function AutonomyRules(r: Record): seq<Rule> {
    [ToolAllow("autonomy.tool.allow." + r.actorId, "high", r.allowedTools),
     SpendLimit("autonomy.spend." + r.actorId, "medium", r.spendLimit, "manager_spend")]
  }

  function LevelText(level: int): string {
    if 0 <= level <= 9 then [['0', '1', '2', '3', '4', '5', '6', '7', '8', '9'][level]] else "?"
  }

  function EvaluateWithAutonomy(policy: PolicyRec, s: State, actor: Actor, input: Input, r: Record): PolicyResult {
    var augmented := PolicyRec(policy.version + "+autonomy." + r.actorId + ".l" + LevelText(r.level),
                               BaseRules(policy.rules) + AutonomyRules(r));
    Evaluate(augmented, s, actor, input)
  }

  // ---------- What the levels mean ----------

  /** What it takes to reach each level, from the top: never more than two violations; and enough
      receipts, passing, confident and left alone enough, for one of the bands that lead there. */
  lemma LevelReachedExactlyWhen(total: nat, violations: nat, passRate: int, confidence: int, intervention: int)
    ensures var level := LevelFor(total, violations, passRate, confidence, intervention);
            && 0 <= level <= 4
            && (level >= 4 <==> violations <= 2 && total >= 50 && passRate >= 99 && confidence >= 85 && intervention <= 10)
            && (level >= 3 <==> violations <= 2 && passRate >= 97
                                && (total >= 50 || (total >= 25 && confidence >= 80 && intervention <= 20)))
            && (level >= 2 <==> violations <= 2
                                && (total >= 50 || (total >= 25 && passRate >= 95)
                                    || (10 <= total < 25 && passRate >= 95 && confidence >= 75 && intervention <= 30)))
            && (level >= 1 <==> violations <= 2
                                && (total >= 25 || (total >= 10 && passRate >= 90) || (total >= 3 && passRate >= 90 && confidence >= 70)))
  {
  }

  /** The tools and the spend limit of each level: each level has those of the one below, and more. */
  lemma LevelsGrant(level: int)
    requires 0 <= level <= 4
    ensures var all := ["none", "read_file", "search", "write_artifact", "score_vendor", "diff_contract", "run_tests", "run_query",
                        "write_file", "external_api", "send_notification"];
            AllowedToolsForLevel(level) == all[..[1, 3, 6, 9, 11][level]]
    ensures SpendLimitForLevel(level) == [0, 100, 5000, 25000, 100000][level]
  {
  }

  /** Where an actor's receipts are, and the violations among them. */
  function OwnAt(receipts: seq<Receipt>, actorId: string): set<int> {
    set i | 0 <= i < |receipts| && receipts[i].body.actor == actorId
  }

  function ViolationsAt(receipts: seq<Receipt>, actorId: string): set<int> {
    set i | 0 <= i < |receipts| && receipts[i].body.actor == actorId && receipts[i].body.kind == "policy_violation"
  }

  lemma PlacesGrow(front: seq<Receipt>, last: Receipt, actorId: string)
    ensures |OwnAt(front + [last], actorId)| == |OwnAt(front, actorId)| + (if last.body.actor == actorId then 1 else 0)
    ensures |ViolationsAt(front + [last], actorId)|
         == |ViolationsAt(front, actorId)| + (if last.body.actor == actorId && last.body.kind == "policy_violation" then 1 else 0)
  {
    var m := |front|;
    assert OwnAt(front + [last], actorId) == OwnAt(front, actorId) + (if last.body.actor == actorId then {m} else {});
    assert ViolationsAt(front + [last], actorId)
        == ViolationsAt(front, actorId) + (if last.body.actor == actorId && last.body.kind == "policy_violation" then {m} else {});
  }

  lemma OwnGrow(front: seq<Receipt>, last: Receipt, actorId: string)
    ensures |OfActor(front + [last], actorId)| == |OfActor(front, actorId)| + (if last.body.actor == actorId then 1 else 0)
    ensures CountViolations(OfActor(front + [last], actorId))
         == CountViolations(OfActor(front, actorId)) + (if last.body.actor == actorId && last.body.kind == "policy_violation" then 1 else 0)
  {
    OfActorAppends(front, [last], actorId);
    assert OfActor([last], actorId) == (if last.body.actor == actorId then [last] else []) + OfActor([], actorId);
    CountViolationsAppends(OfActor(front, actorId), OfActor([last], actorId));
    assert CountViolations([last]) == (if IsViolation(last) then 1 else 0) + CountViolations([]);
  }

  lemma {:induction false} OwnViolations(receipts: seq<Receipt>, actorId: string)
    ensures |OfActor(receipts, actorId)| == |OwnAt(receipts, actorId)|
    ensures CountViolations(OfActor(receipts, actorId)) == |ViolationsAt(receipts, actorId)|
    decreases |receipts|
  {
    if receipts != [] {
      var front, last := receipts[..|receipts| - 1], receipts[|receipts| - 1];
      assert receipts == front + [last];
      OwnViolations(front, actorId);
      PlacesGrow(front, last, actorId);
      OwnGrow(front, last, actorId);
    }
  }

  /** `q` is `a` over `b`, rounded down. */
  ghost predicate IsQuotient(q: int, a: int, b: int) {
    q * b <= a < (q + 1) * b
  }

  lemma RatesAreQuotients(committed: nat, total: nat, confidences: seq<int>, humanEdits: int)
    requires committed <= total
    ensures if total == 0 then PassRate(committed, total) == 0 else IsQuotient(PassRate(committed, total), committed * 100, total)
    ensures if confidences == [] then AvgConfidence(confidences) == 0
            else IsQuotient(AvgConfidence(confidences), Sum(confidences), |confidences|)
    ensures if committed == 0 then InterventionRate(humanEdits, committed) == 100
            else IsQuotient(InterventionRate(humanEdits, committed), humanEdits * 100, committed)
  {
    if total > 0 { QuotientBounds(committed * 100, total); }
    if confidences != [] { QuotientBounds(Sum(confidences), |confidences|); }
    if committed > 0 { QuotientBounds(humanEdits * 100, committed); }
  }

  /** The rates of a record: its pass rate and its intervention rate, in whole percent, and the mean
      confidence, all rounded down. */
  ghost predicate RatesOf(r: Record, committed: int, confidences: seq<int>, humanEdits: int) {
    && (if r.total == 0 then r.passRate == 0 else IsQuotient(r.passRate, committed * 100, r.total))
    && (if confidences == [] then r.avgConfidence == 0 else IsQuotient(r.avgConfidence, Sum(confidences), |confidences|))
    && (if committed == 0 then r.interventionRate == 100 else IsQuotient(r.interventionRate, humanEdits * 100, committed))
  }

  lemma CountsMeasure(actorId: string, total: nat, violations: nat, confidences: seq<int>, humanEdits: int)
    requires violations <= total
    ensures RatesOf(ScoreCounts(actorId, total, violations, confidences, humanEdits), total - violations, confidences, humanEdits)
  {
    RatesAreQuotients(total - violations, total, confidences, humanEdits);
  }

  /** What a score measures: the actor's receipts and the violations among them; the rates; and the level
      and grants that follow. */
  lemma ScoreMeasures(actorId: string, receipts: seq<Receipt>, confidences: seq<int>, humanEdits: int)
    ensures var r := Score(actorId, receipts, confidences, humanEdits);
            && r.actorId == actorId && r.total == |OwnAt(receipts, actorId)| && r.violationCount == |ViolationsAt(receipts, actorId)|
            && RatesOf(r, r.total - r.violationCount, confidences, humanEdits)
            && r.level == LevelFor(r.total, r.violationCount, r.passRate, r.avgConfidence, r.interventionRate)
            && r.allowedTools == AllowedToolsForLevel(r.level) && r.spendLimit == SpendLimitForLevel(r.level)
  {
    var own := OfActor(receipts, actorId);
    OwnViolations(receipts, actorId);
    CountsMeasure(actorId, |own|, CountViolations(own), confidences, humanEdits);
  }

  lemma {:induction false} BaseRulesAre(rules: seq<Rule>, r: Rule)
    ensures r in BaseRules(rules) <==> r in rules && !r.ToolAllow? && !r.SpendLimit?
  {
    if rules != [] {
      BaseRulesAre(rules[1..], r);
    }
  }

  /** With autonomy, an input is accepted exactly when the policy's other rules pass it, its tool is one of
      the record's, and its amount is within the record's limit or has a manager's approval. */
  lemma AutonomyAcceptsExactlyWhen(policy: PolicyRec, s: State, actor: Actor, input: Input, r: Record)
    ensures EvaluateWithAutonomy(policy, s, actor, input, r).ok <==>
              && (forall rule :: rule in policy.rules && !rule.ToolAllow? && !rule.SpendLimit? ==> EvalRule(rule, s, actor, input).None?)
              && (match input.tool case Some(tool) => tool in r.allowedTools case None => "" in r.allowedTools)
              && ((match input.amount case Some(amount) => amount <= r.spendLimit case None => r.spendLimit >= 0)
                  || Approved(s.approvals, "manager_spend"))
  {
    var base, own := BaseRules(policy.rules), AutonomyRules(r);
    OkMeansAllPass(base + own, s, actor, input);
    assert own[0] in base + own && own[1] in base + own;
    assert forall rule :: rule in base + own <==> rule in base || rule == own[0] || rule == own[1];
    forall rule ensures rule in base <==> rule in policy.rules && !rule.ToolAllow? && !rule.SpendLimit? {
      BaseRulesAre(policy.rules, rule);
    }
    ToolRulePassesExactlyWhen(own[0].id, own[0].severity, own[0].allowedTools, s, actor, input);
    SpendRulePassesExactlyWhen(own[1].id, own[1].severity, own[1].maxAmount, own[1].approvalKind, s, actor, input);
  }

  // ---------- The receipts of a run ----------

  /** The receipts of a run, one for each step. */
  function RunReceipts(s: State, ops: seq<Op>, policy: PolicyRec): (r: seq<Receipt>)
    ensures |r| == |ops|
  {
    seq(|ops|, i requires 0 <= i < |ops| => At(s, ops, Executor(policy), i).receipt)
  }

  /** The step was denied; or accepted, as a transition that calls itself a violation. */
  ghost predicate CountsAgainst(op: Op, out: Outcome) {
    !out.ok || (op.Transit? && op.kind == "policy_violation")
  }

  lemma RunPlaces(s: State, ops: seq<Op>, policy: PolicyRec, actorId: string)
    ensures OwnAt(RunReceipts(s, ops, policy), actorId) == set i | 0 <= i < |ops| && ops[i].actor.id == actorId
    ensures ViolationsAt(RunReceipts(s, ops, policy), actorId)
         == set i | 0 <= i < |ops| && ops[i].actor.id == actorId && CountsAgainst(ops[i], At(s, ops, Executor(policy), i))
  {
    var receipts, f := RunReceipts(s, ops, policy), Executor(policy);
    forall i | 0 <= i < |ops|
      ensures receipts[i].body.actor == ops[i].actor.id
      ensures receipts[i].body.kind == "policy_violation" <==> CountsAgainst(ops[i], At(s, ops, f, i))
    {
      ReceiptNamesStep(ops[i], RunState(s, ops[..i], f), policy);
    }
  }

  /** Over a run, autonomy counts against an actor exactly its denied steps, and transitions of its own by
      the name of a violation, whose kind the caller chooses. */
  lemma DeniedStepsAreCounted(s: State, ops: seq<Op>, policy: PolicyRec, actorId: string, confidences: seq<int>, humanEdits: int)
    ensures var r := Score(actorId, RunReceipts(s, ops, policy), confidences, humanEdits);
            && r.total == |set i | 0 <= i < |ops| && ops[i].actor.id == actorId|
            && r.violationCount
                 == |set i | 0 <= i < |ops| && ops[i].actor.id == actorId && CountsAgainst(ops[i], At(s, ops, Executor(policy), i))|
  {
    OwnViolations(RunReceipts(s, ops, policy), actorId);
    RunPlaces(s, ops, policy, actorId);
  }

  // ---------- Monotonicity ----------

  lemma QuotientBounds(a: int, b: int)
    requires b > 0
    ensures (a / b) * b <= a < (a / b + 1) * b
  {
  }

  lemma DivisionAtLeast(a: int, b: int, q: int)
    requires b > 0 && q * b <= a
    ensures q <= a / b
  {
    QuotientBounds(a, b);
    ProductOrder(a / b + 1, q, b);
  }

  /** A ratio below one does not fall when both sides grow alike. */
  lemma PassRateGrows(committed: nat, total: nat, k: nat)
    requires committed <= total
    ensures PassRate(committed, total) <= PassRate(committed + k, total + k)
  {
    if total > 0 {
      var q := PassRate(committed, total);
      QuotientBounds(committed * 100, total);
      ProductOrder(101, q, total);
      ProductOrder(q, 100, k);
      SumOfProducts(q, total, k);
      DivisionAtLeast((committed + k) * 100, total + k, q);
    }
  }

  lemma SumOfProducts(q: int, a: int, b: int)
    ensures q * (a + b) == q * a + q * b
  {
  }

  lemma InterventionFalls(humanEdits: int, committed: nat, k: nat)
    requires committed > 0
    ensures var a, b := InterventionRate(humanEdits, committed), InterventionRate(humanEdits, committed + k);
            b <= a || b <= 0
  {
    var h, c := humanEdits * 100, committed;
    var b := h / (c + k);
    QuotientBounds(h, c + k);
    if b > 0 {
      SumOfProducts(b, c, k);
      DivisionAtLeast(h, c, b);
    }
  }

  lemma LevelIsMonotone(total: nat, violations: nat, p: int, confidence: int, i: int, k: nat, p': int, i': int)
    requires p <= p' && (i' <= i || i' <= 0)
    ensures LevelFor(total, violations, p, confidence, i) <= LevelFor(total + k, violations, p', confidence, i')
  {
  }

  lemma {:induction false} OfActorAppends(a: seq<Receipt>, b: seq<Receipt>, actorId: string)
    ensures OfActor(a + b, actorId) == OfActor(a, actorId) + OfActor(b, actorId)
  {
    if a == [] {
      assert a + b == b;
    } else {
      var c := a + b;
      assert c[0] == a[0] && c[1..] == a[1..] + b;
      OfActorAppends(a[1..], b, actorId);
      var head := if a[0].body.actor == actorId then [a[0]] else [];
      assert OfActor(c, actorId) == head + (OfActor(a[1..], actorId) + OfActor(b, actorId));
    }
  }

  lemma {:induction false} CountViolationsAppends(a: seq<Receipt>, b: seq<Receipt>)
    ensures CountViolations(a + b) == CountViolations(a) + CountViolations(b)
  {
    if a == [] {
      assert a + b == b;
    } else {
      assert (a + b)[1..] == a[1..] + b;
      CountViolationsAppends(a[1..], b);
    }
  }

  lemma {:induction false} NoViolations(receipts: seq<Receipt>, actorId: string)
    requires forall r :: r in receipts ==> r.body.actor == actorId && !IsViolation(r)
    ensures OfActor(receipts, actorId) == receipts && CountViolations(receipts) == 0
  {
    if receipts != [] {
      NoViolations(receipts[1..], actorId);
    }
  }

  /** Appending any number of the actor's own non-violation receipts never lowers its level. */
  lemma GoodReceiptsNeverDemote(actorId: string, receipts: seq<Receipt>, more: seq<Receipt>, confidences: seq<int>, humanEdits: int)
    requires forall r :: r in more ==> r.body.actor == actorId && !IsViolation(r)
    ensures Score(actorId, receipts, confidences, humanEdits).level <= Score(actorId, receipts + more, confidences, humanEdits).level
  {
    OfActorAppends(receipts, more, actorId);
    NoViolations(more, actorId);
    var own := OfActor(receipts, actorId);
    CountViolationsAppends(own, more);
    GoodCountsNeverDemote(actorId, |own|, CountViolations(own), |more|, confidences, humanEdits);
  }

  lemma GoodCountsNeverDemote(actorId: string, total: nat, violations: nat, k: nat, confidences: seq<int>, humanEdits: int)
    requires violations <= total
    ensures ScoreCounts(actorId, total, violations, confidences, humanEdits).level
         <= ScoreCounts(actorId, total + k, violations, confidences, humanEdits).level
  {
    var a, b := ScoreCounts(actorId, total, violations, confidences, humanEdits),
                ScoreCounts(actorId, total + k, violations, confidences, humanEdits);
    PassRateGrows(total - violations, total, k);
    if total > violations {
      InterventionFalls(humanEdits, total - violations, k);
      LevelIsMonotone(total, violations, a.passRate, a.avgConfidence, a.interventionRate, k, b.passRate, b.interventionRate);
    }
  }

  lemma ToolsGrowWithLevel(low: int, high: int)
    requires 0 <= low <= high <= AUTONOMOUS
    ensures forall t :: t in AllowedToolsForLevel(low) ==> t in AllowedToolsForLevel(high)
    ensures SpendLimitForLevel(low) <= SpendLimitForLevel(high)
  {
  }

  /** Whatever a level accepts, every higher level accepts: same policy, state and input. */
  lemma HigherLevelAcceptsMore(policy: PolicyRec, s: State, actor: Actor, input: Input, low: Record, high: Record)
    requires low.actorId == high.actorId && 0 <= low.level <= high.level <= AUTONOMOUS
    requires low.allowedTools == AllowedToolsForLevel(low.level) && low.spendLimit == SpendLimitForLevel(low.level)
    requires high.allowedTools == AllowedToolsForLevel(high.level) && high.spendLimit == SpendLimitForLevel(high.level)
    ensures EvaluateWithAutonomy(policy, s, actor, input, low).ok ==> EvaluateWithAutonomy(policy, s, actor, input, high).ok
  {
    ToolsGrowWithLevel(low.level, high.level);
    var base := BaseRules(policy.rules);
    OkMeansAllPass(base + AutonomyRules(low), s, actor, input);
    OkMeansAllPass(base + AutonomyRules(high), s, actor, input);
    assert AutonomyRules(low)[0] in base + AutonomyRules(low) && AutonomyRules(low)[1] in base + AutonomyRules(low);
  }

  /** So more good work by an actor never turns an accepted input into a refused one. */
  lemma GoodReceiptsNeverRevoke(policy: PolicyRec, s: State, actor: Actor, input: Input, actorId: string,
                                receipts: seq<Receipt>, more: seq<Receipt>, confidences: seq<int>, humanEdits: int)
    requires forall r :: r in more ==> r.body.actor == actorId && !IsViolation(r)
    ensures EvaluateWithAutonomy(policy, s, actor, input, Score(actorId, receipts, confidences, humanEdits)).ok
        ==> EvaluateWithAutonomy(policy, s, actor, input, Score(actorId, receipts + more, confidences, humanEdits)).ok
  {
    GoodReceiptsNeverDemote(actorId, receipts, more, confidences, humanEdits);
    HigherLevelAcceptsMore(policy, s, actor, input, Score(actorId, receipts, confidences, humanEdits),
                           Score(actorId, receipts + more, confidences, humanEdits));
  }

  /** When one more receipt of the actor is a violation, the level rises exactly for a clean
      record standing one short of a band whose lower tier asks for no confidence, and held back
      by its evidence so far. */
  lemma ViolationPromotesExactlyWhen(actorId: string, receipts: seq<Receipt>, bad: Receipt, confidences: seq<int>, humanEdits: int)
    requires bad.body.actor == actorId && IsViolation(bad)
    ensures var r := Score(actorId, receipts, confidences, humanEdits);
            Score(actorId, receipts + [bad], confidences, humanEdits).level > r.level <==>
            r.violationCount == 0
            && ((r.total == 9 && r.avgConfidence < 70)
                || (r.total == 24 && !(r.avgConfidence >= 75 && r.interventionRate <= 30))
                || (r.total == 49 && !(r.avgConfidence >= 80 && r.interventionRate <= 20)))
  {
    OfActorAppends(receipts, [bad], actorId);
    var own := OfActor(receipts, actorId);
    assert OfActor([bad], actorId) == [bad] + OfActor([], actorId);
    assert OfActor(receipts + [bad], actorId) == own + [bad];
    CountViolationsAppends(own, [bad]);
    assert CountViolations([bad]) == 1 + CountViolations([]);
    var n, v := |own|, CountViolations(own);
    assert Score(actorId, receipts + [bad], confidences, humanEdits) == ScoreCounts(actorId, n + 1, v + 1, confidences, humanEdits);
    ViolationCounts(|own|, CountViolations(own), AvgConfidence(confidences),
                    InterventionRate(humanEdits, |own| - CountViolations(own)));
  }

  /** Such records exist: with no artifacts, a violation promotes an actor after 9, 24 or 49 clean
      receipts. */
  lemma ViolationPromotes(actorId: string, clean: Receipt, bad: Receipt, n: nat, humanEdits: int)
    requires n in {9, 24, 49}
    requires clean.body.actor == actorId && !IsViolation(clean) && bad.body.actor == actorId && IsViolation(bad)
    ensures var receipts := seq(n, _ => clean);
            Score(actorId, receipts + [bad], [], humanEdits).level > Score(actorId, receipts, [], humanEdits).level
  {
    var receipts := seq(n, _ => clean);
    NoViolations(receipts, actorId);
    ViolationPromotesExactlyWhen(actorId, receipts, bad, [], humanEdits);
  }

  lemma ViolationCounts(n: nat, v: nat, confidence: int, i: int)
    requires v <= n
    ensures LevelFor(n + 1, v + 1, PassRate(n - v, n + 1), confidence, i) > LevelFor(n, v, PassRate(n - v, n), confidence, i)
       <==> v == 0 && ((n == 9 && confidence < 70) || (n == 24 && !(confidence >= 75 && i <= 30))
                       || (n == 49 && !(confidence >= 80 && i <= 20)))
  {
    var c := n - v;
    if n > 0 && v < 2 && n != 9 && n != 24 && n != 49 && n != 2 {
      PassRateFalls(c, n);
    }
  }

  lemma PassRateFalls(c: nat, n: nat)
    requires c <= n && n > 0
    ensures PassRate(c, n + 1) <= PassRate(c, n)
  {
    var q := PassRate(c, n + 1);
    QuotientBounds(c * 100, n + 1);
    SumOfProducts(q, n, 1);
    assert q >= 0;
    DivisionAtLeast(c * 100, n, q);
  }

  /** An override never leaves the five levels, and tools and spend limit follow the level it gives.
      It respects its cap exactly when the cap is a level no lower than the floor (or no cap at all,
      in effect), and its floor exactly when that is not above the top level. */
  lemma OverrideClampsExactlyWhen(r: Record, o: Override)
    ensures var out := OverrideLevel(r, Some(o));
            && RESTRICTED <= out.level <= AUTONOMOUS
            && out.allowedTools == AllowedToolsForLevel(out.level) && out.spendLimit == SpendLimitForLevel(out.level)
            && (o.maxLevel.Some? ==>
                  (out.level <= o.maxLevel.value <==>
                   o.maxLevel.value >= AUTONOMOUS
                   || (o.maxLevel.value >= RESTRICTED && (o.minLevel.None? || o.minLevel.value <= o.maxLevel.value))))
            && (o.minLevel.Some? ==> (out.level >= o.minLevel.value <==> o.minLevel.value <= AUTONOMOUS))
            && (RESTRICTED <= r.level <= AUTONOMOUS
                && (o.maxLevel.None? || r.level <= o.maxLevel.value) && (o.minLevel.None? || r.level >= o.minLevel.value)
                ==> out.level == r.level)
  {
  }

  /** What an override gives: the scored level, lowered to the cap, then raised to the floor, then brought
      among the five levels; all else in the record stays. */
  lemma OverrideGives(r: Record, o: Override)
    ensures var out := OverrideLevel(r, Some(o));
            && out == r.(level := out.level, allowedTools := out.allowedTools, spendLimit := out.spendLimit)
            && OverrideLevel(r, None) == r
            && (o.minLevel.Some? && o.minLevel.value >= 4 ==> out.level == 4)
            && (o.minLevel.Some? && 0 <= o.minLevel.value <= 4
                && (r.level <= o.minLevel.value || (o.maxLevel.Some? && o.maxLevel.value <= o.minLevel.value))
                ==> out.level == o.minLevel.value)
            && (o.maxLevel.Some? && o.maxLevel.value <= r.level && (o.minLevel.None? || o.minLevel.value <= o.maxLevel.value)
                ==> out.level == if o.maxLevel.value < 0 then 0 else if o.maxLevel.value > 4 then 4 else o.maxLevel.value)
  {
  }

  /** The version of the policy that autonomy evaluates names the actor and the level. */
  lemma AutonomyVersionNames(policy: PolicyRec, s: State, actor: Actor, input: Input, r: Record)
    requires 0 <= r.level <= 4
    ensures EvaluateWithAutonomy(policy, s, actor, input, r).version
         == policy.version + "+autonomy." + r.actorId + ".l" + ["0", "1", "2", "3", "4"][r.level]
  {
  }

  /** Such overrides exist, for every scored record: a floor above the cap wins over it, a cap below the
      lowest level gives that level, a floor above the top level gives that one. */
  lemma OverridesIgnoreBounds(actorId: string, receipts: seq<Receipt>, confidences: seq<int>, humanEdits: int)
    ensures var r := Score(actorId, receipts, confidences, humanEdits);
            && OverrideLevel(r, Some(Override(Some(SUPERVISED), Some(EXTENDED)))).level > SUPERVISED
            && OverrideLevel(r, Some(Override(Some(-1), None))).level > -1
            && OverrideLevel(r, Some(Override(None, Some(AUTONOMOUS + 1)))).level < AUTONOMOUS + 1
  {
    var r := Score(actorId, receipts, confidences, humanEdits);
    OverrideClampsExactlyWhen(r, Override(Some(SUPERVISED), Some(EXTENDED)));
    OverrideClampsExactlyWhen(r, Override(Some(-1), None));
    OverrideClampsExactlyWhen(r, Override(None, Some(AUTONOMOUS + 1)));
  }
}
