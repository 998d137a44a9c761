/** Policy evaluation (src/acp/policy.fard). */
module Policy {
  import opened Records

  datatype Rule =
    | ToolAllow(id: string, severity: string, allowedTools: seq<string>)
    | SpendLimit(id: string, severity: string, maxAmount: int, approvalKind: string)
    | RequiredRole(id: string, severity: string, role: string, appliesTo: Option<seq<string>>)
    | DataBoundary(id: string, severity: string, block: seq<(string, string)>)
    | UnknownRule(id: string, kind: string)

  datatype PolicyRec = PolicyRec(version: string, rules: seq<Rule>)

  datatype PolicyResult = PolicyResult(ok: bool, version: string, violations: seq<Violation>)

  function GetOr<T>(o: Option<T>, default: T): T {
    if o.Some? then o.value else default
  }

  function Strings(xs: seq<string>): (r: seq<Value>)
    ensures |r| == |xs|
  {
    seq(|xs|, i requires 0 <= i < |xs| => Str(xs[i]))
  }

  predicate HasField(v: Value, key: string, x: Value) {
    v.Rec? && key in v.fields && v.fields[key] == x
  }

  predicate ApprovalExists(s: State, kind: string) {
    exists a :: a in s.approvals && HasField(a, "kind", Str(kind)) && HasField(a, "status", Str("approved"))
  }

  function EvalRule(rule: Rule, s: State, actor: Actor, input: Input): Option<Violation> {
    match rule
    case ToolAllow(id, severity, allowed) =>
      var used := GetOr(input.tool, "");
      if used in allowed then None
      else Some(Violation("POLICY_TOOL_DENIED", "Tool not allowed: " + used, id, severity,
                          Rec(map["tool" := Str(used), "allowed_tools" := List(Strings(allowed))])))
    case SpendLimit(id, severity, maxAmount, approvalKind) =>
      var amount := GetOr(input.amount, 0);
      if amount <= maxAmount then None
      else if ApprovalExists(s, approvalKind) then None
      else Some(Violation("POLICY_APPROVAL_REQUIRED", "Spend threshold requires approval", id, severity,
                          Rec(map["amount" := Num(amount), "max_amount" := Num(maxAmount), "approval_kind" := Str(approvalKind)])))
    case RequiredRole(id, severity, role, appliesTo) =>
      var used := GetOr(input.tool, "");
      if appliesTo.Some? && used !in appliesTo.value then None
      else if role in actor.roles then None
      else Some(Violation("POLICY_ROLE_REQUIRED", "Actor lacks role: " + role, id, severity,
                          Rec(map["role" := Str(role), "actor" := Str(actor.id)])))
    case DataBoundary(id, severity, block) =>
      var classification := GetOr(input.classification, "public");
      var destination := GetOr(input.destination, "internal");
      if (classification, destination) in block then
        Some(Violation("POLICY_DATA_BOUNDARY", "Data boundary violation", id, severity,
                       Rec(map["classification" := Str(classification), "destination" := Str(destination)])))
      else None
    case UnknownRule(id, kind) =>
      Some(Violation("POLICY_UNKNOWN_RULE", "Unknown policy rule kind: " + kind, id, "high",
                     Rec(map["kind" := Str(kind)])))
  }

  function Violations(rules: seq<Rule>, s: State, actor: Actor, input: Input): seq<Violation> {
    if rules == [] then []
    else
      var v := EvalRule(rules[0], s, actor, input);
      (if v.Some? then [v.value] else []) + Violations(rules[1..], s, actor, input)
  }

  function Evaluate(policy: PolicyRec, s: State, actor: Actor, input: Input): PolicyResult {
    var violations := Violations(policy.rules, s, actor, input);
    PolicyResult(violations == [], policy.version, violations)
  }

  function MergePolicies(base: PolicyRec, overlay: PolicyRec): PolicyRec {
    PolicyRec(base.version + "+" + overlay.version, base.rules + overlay.rules)
  }

  function ExtendToolAllowlist(base: PolicyRec, ruleId: string, extraTools: seq<string>): PolicyRec {
    base.(rules := base.rules + [ToolAllow(ruleId, "high", extraTools)])
  }

  function DefaultEnterprisePolicy(): PolicyRec {
    PolicyRec("ACP-POLICY-1.0.0", [
      ToolAllow("tool.allow.core", "high",
                ["search", "read_file", "write_artifact", "score_vendor", "diff_contract", "run_tests", "none"]),
      RequiredRole("role.state.edit", "high", "operator", Some(["none"])),
      SpendLimit("spend.manager.approval", "medium", 5000, "manager_spend"),
      DataBoundary("data.no_pii_public", "critical", [("pii", "public_model"), ("customer_secret", "public_model")])
    ])
  }

  // ---------- What each rule asks ----------

  /** Somebody approved spending of this kind. */
  ghost predicate Approved(approvals: seq<Value>, kind: string) {
    exists a :: a in approvals && a.Rec? && "kind" in a.fields && a.fields["kind"] == Str(kind)
                && "status" in a.fields && a.fields["status"] == Str("approved")
  }

  /** The refusal names the rule, its severity and this code. */
  ghost predicate Refuses(v: Option<Violation>, code: string, id: string, severity: string) {
    v.Some? && v.value.code == code && v.value.ruleId == id && v.value.severity == severity
  }

  /** A tool rule passes exactly the listed tools; no tool counts as the empty name. */
  lemma ToolRulePassesExactlyWhen(id: string, severity: string, allowed: seq<string>, s: State, actor: Actor, input: Input)
    ensures var v := EvalRule(ToolAllow(id, severity, allowed), s, actor, input);
            && (v.None? <==> match input.tool case Some(tool) => tool in allowed case None => "" in allowed)
            && (v.Some? ==> Refuses(v, "POLICY_TOOL_DENIED", id, severity)
                            && v.value.data == Rec(map["tool" := Str(if input.tool.Some? then input.tool.value else ""),
                                                       "allowed_tools" := List(Strings(allowed))]))
  {
  }

  /** A spend rule passes an amount up to its limit, and any amount with an approval of its kind; no
      amount counts as zero. */
  lemma SpendRulePassesExactlyWhen(id: string, severity: string, max: int, kind: string, s: State, actor: Actor, input: Input)
    ensures var v := EvalRule(SpendLimit(id, severity, max, kind), s, actor, input);
            && (v.None? <==> (match input.amount case Some(amount) => amount <= max case None => max >= 0) || Approved(s.approvals, kind))
            && (v.Some? ==> Refuses(v, "POLICY_APPROVAL_REQUIRED", id, severity)
                            && v.value.data == Rec(map["amount" := Num(if input.amount.Some? then input.amount.value else 0),
                                                       "max_amount" := Num(max), "approval_kind" := Str(kind)]))
  {
    assert ApprovalExists(s, kind) <==> Approved(s.approvals, kind) by {
      forall a | a in s.approvals
        ensures HasField(a, "kind", Str(kind)) && HasField(a, "status", Str("approved")) <==>
                a.Rec? && "kind" in a.fields && a.fields["kind"] == Str(kind) && "status" in a.fields && a.fields["status"] == Str("approved")
      {
      }
    }
  }

  /** A role rule passes actors in the role; and, if it applies to listed tools only, any other tool. */
  lemma RoleRulePassesExactlyWhen(id: string, severity: string, role: string, appliesTo: Option<seq<string>>, s: State, actor: Actor, input: Input)
    ensures var v := EvalRule(RequiredRole(id, severity, role, appliesTo), s, actor, input);
            && (v.None? <==> role in actor.roles
                             || (appliesTo.Some? && match input.tool case Some(tool) => tool !in appliesTo.value case None => "" !in appliesTo.value))
            && (v.Some? ==> Refuses(v, "POLICY_ROLE_REQUIRED", id, severity)
                            && v.value.data == Rec(map["role" := Str(role), "actor" := Str(actor.id)]))
  {
  }

  /** A boundary rule passes exactly what does not send a blocked classification to a destination blocked
      for it; unclassified data counts as public, no destination as internal. */
  lemma BoundaryRulePassesExactlyWhen(id: string, severity: string, block: seq<(string, string)>, s: State, actor: Actor, input: Input)
    ensures var v := EvalRule(DataBoundary(id, severity, block), s, actor, input);
            && (v.None? <==> forall b :: b in block ==>
                  !(b.0 == (match input.classification case Some(c) => c case None => "public")
                    && b.1 == (match input.destination case Some(d) => d case None => "internal")))
            && (v.Some? ==> Refuses(v, "POLICY_DATA_BOUNDARY", id, severity)
                            && v.value.data == Rec(map[
                                 "classification" := Str(if input.classification.Some? then input.classification.value else "public"),
                                 "destination" := Str(if input.destination.Some? then input.destination.value else "internal")]))
  {
    var classification := match input.classification case Some(c) => c case None => "public";
    var destination := match input.destination case Some(d) => d case None => "internal";
    assert forall b: (string, string) :: b == (classification, destination) <==> b.0 == classification && b.1 == destination;
  }

  /** A rule of any other kind passes nothing. */
  lemma UnknownRulePassesNothing(id: string, kind: string, s: State, actor: Actor, input: Input)
    ensures Refuses(EvalRule(UnknownRule(id, kind), s, actor, input), "POLICY_UNKNOWN_RULE", id, "high")
  {
  }

  /** What the default policy accepts: a tool it lists; the tool "none", by which state is edited, from
      operators only; more than 5000 with a manager's approval only; and neither personal data nor
      customer secrets to a public model. */
  lemma DefaultPolicyAcceptsExactlyWhen(s: State, actor: Actor, input: Input)
    ensures Evaluate(DefaultEnterprisePolicy(), s, actor, input).ok <==>
              && input.tool.Some?
              && input.tool.value in {"search", "read_file", "write_artifact", "score_vendor", "diff_contract", "run_tests", "none"}
              && (input.tool.value == "none" ==> "operator" in actor.roles)
              && (input.amount.Some? && input.amount.value > 5000 ==> Approved(s.approvals, "manager_spend"))
              && !(input.classification == Some("pii") && input.destination == Some("public_model"))
              && !(input.classification == Some("customer_secret") && input.destination == Some("public_model"))
  {
    var rules := DefaultEnterprisePolicy().rules;
    OkMeansAllPass(rules, s, actor, input);
    ToolRulePassesExactlyWhen(rules[0].id, rules[0].severity, rules[0].allowedTools, s, actor, input);
    RoleRulePassesExactlyWhen(rules[1].id, rules[1].severity, rules[1].role, rules[1].appliesTo, s, actor, input);
    SpendRulePassesExactlyWhen(rules[2].id, rules[2].severity, rules[2].maxAmount, rules[2].approvalKind, s, actor, input);
    BoundaryRulePassesExactlyWhen(rules[3].id, rules[3].severity, rules[3].block, s, actor, input);
    BlockedPairs(rules[3].block, input);
    FourRulesPass(rules, s, actor, input);
  }

  lemma FourRulesPass(rules: seq<Rule>, s: State, actor: Actor, input: Input)
    requires |rules| == 4
    ensures AllPass(rules, s, actor, input) <==>
              && EvalRule(rules[0], s, actor, input).None? && EvalRule(rules[1], s, actor, input).None?
              && EvalRule(rules[2], s, actor, input).None? && EvalRule(rules[3], s, actor, input).None?
  {
    assert forall r :: r in rules <==> r == rules[0] || r == rules[1] || r == rules[2] || r == rules[3];
  }

  lemma BlockedPairs(block: seq<(string, string)>, input: Input)
    requires block == [("pii", "public_model"), ("customer_secret", "public_model")]
    ensures (forall b :: b in block ==>
               !(b.0 == (match input.classification case Some(c) => c case None => "public")
                 && b.1 == (match input.destination case Some(d) => d case None => "internal")))
       <==> !(input.classification == Some("pii") && input.destination == Some("public_model"))
            && !(input.classification == Some("customer_secret") && input.destination == Some("public_model"))
  {
    assert block[0] in block && block[1] in block;
    assert forall b :: b in block <==> b == block[0] || b == block[1];
    assert "public"[1] == 'u' && "internal"[0] == 'i';
  }

  ghost predicate AllPass(rules: seq<Rule>, s: State, actor: Actor, input: Input) {
    forall r :: r in rules ==> EvalRule(r, s, actor, input) == None
  }

  /** A policy accepts exactly when each of its rules passes. */
  lemma {:induction false} OkMeansAllPass(rules: seq<Rule>, s: State, actor: Actor, input: Input)
    ensures Violations(rules, s, actor, input) == [] <==> AllPass(rules, s, actor, input)
  {
    if rules != [] {
      OkMeansAllPass(rules[1..], s, actor, input);
      assert forall r :: r in rules <==> r == rules[0] || r in rules[1..];
    }
  }

  /** Of the whole state, a policy sees the approvals only. */
  lemma {:induction false} OnlyApprovalsMatter(rules: seq<Rule>, s: State, t: State, actor: Actor, input: Input)
    requires s.approvals == t.approvals
    ensures Violations(rules, s, actor, input) == Violations(rules, t, actor, input)
  {
    if rules != [] {
      assert forall kind :: ApprovalExists(s, kind) <==> ApprovalExists(t, kind);
      OnlyApprovalsMatter(rules[1..], s, t, actor, input);
    }
  }

  /** A merged policy accepts exactly what both parts accept. */
  lemma MergeIsConjunction(base: PolicyRec, overlay: PolicyRec, s: State, actor: Actor, input: Input)
    ensures Evaluate(MergePolicies(base, overlay), s, actor, input).ok
       <==> Evaluate(base, s, actor, input).ok && Evaluate(overlay, s, actor, input).ok
  {
    MergeListsBoth(base, overlay, s, actor, input);
  }

  lemma {:induction false} ViolationsSplit(a: seq<Rule>, b: seq<Rule>, s: State, actor: Actor, input: Input)
    ensures Violations(a + b, s, actor, input) == Violations(a, s, actor, input) + Violations(b, s, actor, input)
  {
    if a == [] {
      assert a + b == b;
    } else {
      var c := a + b;
      assert c[0] == a[0] && c[1..] == a[1..] + b;
      ViolationsSplit(a[1..], b, s, actor, input);
      var v := EvalRule(a[0], s, actor, input);
      var head := if v.Some? then [v.value] else [];
      assert Violations(c, s, actor, input) == head + (Violations(a[1..], s, actor, input) + Violations(b, s, actor, input));
    }
  }

  /** Its refusals are those of the base, then those of the overlay; its version names both. */
  lemma MergeListsBoth(base: PolicyRec, overlay: PolicyRec, s: State, actor: Actor, input: Input)
    ensures Evaluate(MergePolicies(base, overlay), s, actor, input).violations
         == Evaluate(base, s, actor, input).violations + Evaluate(overlay, s, actor, input).violations
    ensures Evaluate(MergePolicies(base, overlay), s, actor, input).version == base.version + "+" + overlay.version
  {
    ViolationsSplit(base.rules, overlay.rules, s, actor, input);
  }

  /** Extending the tool allowlist never admits an input the base refused: it narrows the
      policy to the inputs whose tool is also among the extra ones. */
  lemma ExtendingAllowlistNarrows(base: PolicyRec, ruleId: string, extraTools: seq<string>, s: State, actor: Actor, input: Input)
    ensures Evaluate(ExtendToolAllowlist(base, ruleId, extraTools), s, actor, input).ok
       <==> Evaluate(base, s, actor, input).ok && GetOr(input.tool, "") in extraTools
  {
    var rule := ToolAllow(ruleId, "high", extraTools);
    OkMeansAllPass(base.rules + [rule], s, actor, input);
    OkMeansAllPass(base.rules, s, actor, input);
    assert rule in base.rules + [rule];
  }
}
