/** The three ways a workflow state advances (src/acp/runtime.fard). */
module Runtime {
  import opened Records
  import opened WorkflowState
  import opened Policy
  import opened Receipts
  import opened Runs


  function MakeEvent(body: EventBody): Event {
    Event(body, OfEvent(body))
  }

  function PatchesOf(input: Input): seq<Patch> {
    if input.patches.Patches? then input.patches.list else []
  }

  function Transition(kind: string, actor: Actor, input: Input, before: State, policy: PolicyRec, toolVersion: string): Outcome {
    var result := Evaluate(policy, before, actor, input);
    if !result.ok then
      var v := result.violations[0];
      var event := MakeEvent(PolicyViolation(before.seqNo + 1, actor.id, v));
      var after := Bump(AddTimeline(AddViolation(before, v), event));
      var r := MakeStateReceipt(before.workflowId, after.seqNo, "policy_violation", actor.id, before, input,
                                policy.version, toolVersion, [], after);
      Outcome(false, after, r, result)
    else
      var after0 := Bump(ApplyPatches(before, PatchesOf(input)));
      var event := MakeEvent(StateTransition(after0.seqNo, actor.id, OfTransitionEvent(after0.seqNo, actor.id, None)));
      var after := AddTimeline(after0, event);
      var r := MakeStateReceipt(before.workflowId, after.seqNo, kind, actor.id, before, input,
                                policy.version, toolVersion, [], after);
      Outcome(true, after, r, result)
  }

  function ToolInput(tool: string, patches: seq<Patch>): Input {
    Input(Some(tool), None, None, None, Patches(patches))
  }

  function CommitArtifact(actor: Actor, before: State, policy: PolicyRec, toolVersion: string, artifact: Digest): Outcome {
    var input := ToolInput("write_artifact", [Patch("stage", before.stage)]);
    var result := Evaluate(policy, before, actor, input);
    if !result.ok then Transition("artifact_denied", actor, input, before, policy, toolVersion)
    else
      var after0 := Bump(AddArtifact(before, artifact));
      var event := MakeEvent(StateTransition(after0.seqNo, actor.id, OfTransitionEvent(after0.seqNo, actor.id, Some(artifact))));
      var after := AddTimeline(after0, event);
      var r := MakeStateReceipt(before.workflowId, after.seqNo, "artifact_committed", actor.id, before, input,
                                policy.version, toolVersion, [artifact], after);
      Outcome(true, after, r, result)
  }

  function HumanStateEdit(actor: Actor, before: State, policy: PolicyRec, patches: seq<Patch>): Outcome {
    var input := ToolInput("none", patches);
    var after0 := Bump(ApplyPatches(before, patches));
    var result := Evaluate(policy, before, actor, input);
    if !result.ok then
      var v := result.violations[0];
      var event := MakeEvent(PolicyViolation(after0.seqNo, actor.id, v));
      var after := AddTimeline(AddViolation(after0, v), event);
      var r := MakeStateReceipt(before.workflowId, after.seqNo, "policy_violation", actor.id, before, input,
                                policy.version, "human", [], after);
      Outcome(false, after, r, result)
    else
      var after := AddTimeline(after0, MakeEvent(HumanEdit(after0.seqNo, actor.id, patches)));
      var r := MakeStateReceipt(before.workflowId, after.seqNo, "human_state_edit", actor.id, before, input,
                                policy.version, "human", [], after);
      Outcome(true, after, r, result)
  }

  /** One step of a workflow, whichever entry point takes it. */
  datatype Op =
    | Transit(kind: string, actor: Actor, input: Input, toolVersion: string)
    | Artifact(actor: Actor, toolVersion: string, digest: Digest)
    | Edit(actor: Actor, patches: seq<Patch>)

  function Apply(op: Op, before: State, policy: PolicyRec): Outcome {
    match op
    case Transit(kind, actor, input, tv) => Transition(kind, actor, input, before, policy, tv)
    case Artifact(actor, tv, digest) => CommitArtifact(actor, before, policy, tv, digest)
    case Edit(actor, patches) => HumanStateEdit(actor, before, policy, patches)
  }

  function InputOf(op: Op, before: State): Input {
    match op
    case Transit(_, _, input, _) => input
    case Artifact(_, _, _) => ToolInput("write_artifact", [Patch("stage", before.stage)])
    case Edit(_, patches) => ToolInput("none", patches)
  }

  function Executor(policy: PolicyRec): (Op, State) -> Outcome {
    (op: Op, before: State) => Apply(op, before, policy)
  }

  /** Accepted or denied, a step is governed by the policy at its own input, advances seq by
      one, appends one timeline event, and leaves a receipt that verifies against the exact
      states around it. */
  lemma StepIsReceipted(op: Op, before: State, policy: PolicyRec)
    ensures var out := Apply(op, before, policy);
            && out.policy == Evaluate(policy, before, op.actor, InputOf(op, before)) && out.ok == out.policy.ok
            && out.state.seqNo == before.seqNo + 1
            && out.state.workflowId == before.workflowId
            && out.state.lineage == before.lineage
            && |out.state.timeline| == |before.timeline| + 1
            && before.timeline <= out.state.timeline
            && VerifyStateReceipt(out.receipt, before, InputOf(op, before), out.state)
            && out.receipt.body.seqNo == out.state.seqNo
            && out.receipt.body.workflowId == before.workflowId
            && (out.ok ==> out.state.violations == before.violations)
            && (!out.ok ==> out.state.violations == before.violations + [out.policy.violations[0]])
  {
    match op
    case Transit(_, _, input, _) => PatchesKeepIdentity(before, PatchesOf(input));
    case Artifact(_, _, _) =>
    case Edit(_, patches) => PatchesKeepIdentity(before, patches);
  }

  /** What the receipt of a step names: the actor; what happened; the versions, their digests; and the
      artifact, if one was committed. */
  lemma ReceiptNamesStep(op: Op, before: State, policy: PolicyRec)
    ensures var out := Apply(op, before, policy);
            var body := out.receipt.body;
            && body.actor == op.actor.id
            && body.inputHash == OfInput(match op
                                         case Transit(_, _, input, _) => input
                                         case Artifact(_, _, _) =>
                                           Input(Some("write_artifact"), None, None, None, Patches([Patch("stage", before.stage)]))
                                         case Edit(_, patches) => Input(Some("none"), None, None, None, Patches(patches)))
            && body.kind == (if !out.ok then "policy_violation"
                             else match op
                                  case Transit(kind, _, _, _) => kind
                                  case Artifact(_, _, _) => "artifact_committed"
                                  case Edit(_, _) => "human_state_edit")
            && body.policyVersion == policy.version && body.policyDigest == OfText(policy.version)
            && body.toolVersion == (if op.Edit? then "human" else op.toolVersion) && body.toolDigest == OfText(body.toolVersion)
            && body.artifactDigests == (if op.Artifact? && out.ok then [op.digest] else [])
  {
  }

  /** The event a step appends to the timeline. */
  ghost predicate Logs(before: State, after: State, body: EventBody) {
    after.timeline == before.timeline + [Event(body, OfEvent(body))]
  }

  /** What an accepted step leaves: a transition or edit the patched state, field by field; an artifact
      commit the state with the artifact at the end of its list. */
  lemma AcceptedStepLeaves(op: Op, before: State, policy: PolicyRec)
    requires Apply(op, before, policy).ok
    ensures var after, next := Apply(op, before, policy).state, before.seqNo + 1;
            match op
            case Transit(_, actor, input, _) =>
              && after == PatchedByField(before, if input.patches.Patches? then input.patches.list else []).(seqNo := next, timeline := after.timeline)
              && Logs(before, after, StateTransition(next, actor.id, OfTransitionEvent(next, actor.id, None)))
            case Artifact(actor, _, digest) =>
              && after == before.(artifacts := before.artifacts + [digest], seqNo := next, timeline := after.timeline)
              && Logs(before, after, StateTransition(next, actor.id, OfTransitionEvent(next, actor.id, Some(digest))))
            case Edit(actor, patches) =>
              && after == PatchedByField(before, patches).(seqNo := next, timeline := after.timeline)
              && Logs(before, after, HumanEdit(next, actor.id, patches))
  {
    match op
    case Transit(_, _, input, _) => PatchesActByField(before, PatchesOf(input));
    case Artifact(_, _, _) =>
    case Edit(_, patches) => PatchesActByField(before, patches);
  }

  /** What a denied step leaves: the first violation of the policy, recorded twice; and, after an edit,
      the patched fields all the same. */
  lemma DeniedStepLeaves(op: Op, before: State, policy: PolicyRec)
    requires !Apply(op, before, policy).ok
    ensures var out := Apply(op, before, policy);
            var refusals := Evaluate(policy, before, op.actor, InputOf(op, before)).violations;
            && out.policy == Evaluate(policy, before, op.actor, InputOf(op, before)) && refusals != []
            && out.state == (if op.Edit? then PatchedByField(before, op.patches) else before)
                              .(seqNo := before.seqNo + 1, violations := before.violations + [refusals[0]], timeline := out.state.timeline)
            && Logs(before, out.state, PolicyViolation(before.seqNo + 1, op.actor.id, refusals[0]))
  {
    if op.Edit? {
      PatchesActByField(before, op.patches);
    }
  }

  /** Under the default policy anyone may commit an artifact. */
  lemma AnyoneCommitsArtifacts(actor: Actor, before: State, toolVersion: string, digest: Digest)
    ensures CommitArtifact(actor, before, DefaultEnterprisePolicy(), toolVersion, digest).ok
  {
    DefaultPolicyAcceptsExactlyWhen(before, actor, ToolInput("write_artifact", [Patch("stage", before.stage)]));
  }

  /** A denied transition or artifact commit changes the log and nothing else. */
  lemma DenialAppliesNoPatch(op: Op, before: State, policy: PolicyRec)
    requires !op.Edit? && !Apply(op, before, policy).ok
    ensures Logical(Apply(op, before, policy).state) == Logical(before)
  {
  }

  /** A denied human edit returns the patched state all the same; so its logical content is
      that of the accepted edit. */
  lemma DeniedEditIsStillPatched(actor: Actor, before: State, policy: PolicyRec, patches: seq<Patch>)
    requires !HumanStateEdit(actor, before, policy, patches).ok
    ensures Logical(HumanStateEdit(actor, before, policy, patches).state) == Logical(ApplyPatches(before, patches))
  {
  }

  /** A denied step leaves the logical state alone exactly when it is no edit, or an edit that would
      have changed nothing had it been accepted. */
  lemma DenialKeepsLogicalExactlyWhen(op: Op, before: State, policy: PolicyRec)
    requires !Apply(op, before, policy).ok
    ensures Logical(Apply(op, before, policy).state) == Logical(before) <==> !op.Edit? || IsInert(op.patches, before)
  {
    if op.Edit? {
      InertExactlyWhenLogicalStays(before, op.patches);
    }
  }

  /** Under the default policy an edit is accepted exactly from operators. */
  lemma EditNeedsOperator(actor: Actor, before: State, patches: seq<Patch>)
    ensures HumanStateEdit(actor, before, DefaultEnterprisePolicy(), patches).ok <==> "operator" in actor.roles
  {
    DefaultPolicyAcceptsExactlyWhen(before, actor, ToolInput("none", patches));
  }

  /** So under the default policy anyone who is not an operator moves the stage by an edit that is
      denied. */
  lemma DeniedEditMovesStage(a: Actor, b: State, stage: Value)
    requires "operator" !in a.roles
    ensures var out := HumanStateEdit(a, b, DefaultEnterprisePolicy(), [Patch("stage", stage)]);
            !out.ok && out.state.stage == stage
  {
    var ps := [Patch("stage", stage)];
    EditNeedsOperator(a, b, ps);
    assert ApplyPatches(b, ps) == ApplyPatches(PatchField(b, ps[0]), []);
  }

  /** Along a run the id never changes and seq counts the steps. */
  lemma {:induction false} RunCountsSteps(s: State, ops: seq<Op>, policy: PolicyRec)
    ensures RunState(s, ops, Executor(policy)).seqNo == s.seqNo + |ops|
    ensures RunState(s, ops, Executor(policy)).workflowId == s.workflowId
    decreases |ops|
  {
    if ops != [] {
      var front := ops[..|ops| - 1];
      RunCountsSteps(s, front, policy);
      StepIsReceipted(ops[|ops| - 1], RunState(s, front, Executor(policy)), policy);
    }
  }
}
