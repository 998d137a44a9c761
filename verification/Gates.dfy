/** Human approval gates (src/acp/gate.fard). */
module Gates {
  import opened Records
  import opened WorkflowState
  import opened Policy
  import opened Runtime
  import opened DeltaLog
  import opened Lists

  function MakeGate(token: Digest, kind: string, input: Input, actorId: string, deadlineSeq: int, context: Value): Gate {
    var body := GateBody(token, kind, input, actorId, deadlineSeq, context);
    Gate(body, OfGate(body))
  }

  function GateToken(gate: Gate): Digest {
    gate.digest
  }

  function GateFor(actor: Actor, before: State, input: Input, kind: string, deadline: int, context: Value): Gate {
    MakeGate(OfGateRequest(kind, input, actor.id, before.seqNo), kind, input, actor.id, before.seqNo + deadline, context)
  }

  datatype OpenResult =
    | Opened(state: State, receipt: Receipt, gate: Gate, token: Digest)
    | GateOpenFailed(policy: PolicyResult)

  function OpenPatches(gate: Gate): seq<Patch> {
    [Patch("stage", Str("gated")), Patch("var.gate", GateValue(gate))]
  }

  function Open(actor: Actor, before: State, policy: PolicyRec, input: Input, kind: string, deadline: int, context: Value): OpenResult {
    var gate := GateFor(actor, before, input, kind, deadline, context);
    var result := HumanStateEdit(actor, before, policy, OpenPatches(gate));
    if !result.ok then GateOpenFailed(result.policy)
    else Opened(result.state, result.receipt, gate, GateToken(gate))
  }

  predicate IsExpired(gate: Gate, currentSeq: int) {
    currentSeq > gate.body.deadlineSeq
  }

  datatype ResumeResult =
    | NoGateFound
    | NotAGate
    | GateExpired(expired: Gate)
    | GateTokenMismatch
    | GateRejected(rejected: State, rejectedReceipt: Receipt)
    | PolicyStillBlocked(blockedBy: PolicyResult)
    | Resumed(ok: bool, state: State, receipt: Receipt)

  function Resolution(status: string, actorId: string): Patch {
    Patch("var.gate_resolution", Rec(map["status" := Str(status), "by" := Str(actorId)]))
  }

  function Approval(gate: Gate, actorId: string): Value {
    Rec(map["kind" := Str(gate.body.kind), "status" := Str("approved"), "by" := Str(actorId), "gate_digest" := Hash(gate.digest)])
  }

  function RejectionPatches(actorId: string): seq<Patch> {
    [Patch("stage", Str("gated_rejected")), Resolution("rejected", actorId)]
  }

  function ResumePatches(gate: Gate, actorId: string): seq<Patch> {
    PatchesOf(gate.body.input) + [Resolution("approved", actorId)]
  }

  function Resume(actor: Actor, gated: State, policy: PolicyRec, token: Digest, resolution: string): ResumeResult {
    if !gated.variables.Rec? || "gate" !in gated.variables.fields then NoGateFound
    else if !gated.variables.fields["gate"].GateValue? then NotAGate
    else
      var gate := gated.variables.fields["gate"].gate;
      if IsExpired(gate, gated.seqNo) then GateExpired(gate)
      else if GateToken(gate) != token then GateTokenMismatch
      else if resolution == "rejected" then
        var result := HumanStateEdit(actor, gated, policy, RejectionPatches(actor.id));
        GateRejected(result.state, result.receipt)
      else
        var approved := AddApproval(gated, Approval(gate, actor.id));
        var verdict := Evaluate(policy, approved, actor, gate.body.input);
        if !verdict.ok then PolicyStillBlocked(verdict)
        else
          var result := HumanStateEdit(actor, approved, policy, ResumePatches(gate, actor.id));
          Resumed(result.ok, result.state, result.receipt)
  }

  /** Variables with the two keys that the gate machinery owns removed. */
  function WithoutGateKeys(v: Value): Value {
    if v.Rec? then Rec(v.fields - {"gate", "gate_resolution"}) else v
  }

  lemma SetKeyOutsideGate(f: map<string, Value>, key: string, x: Value)
    ensures f[key := x] - {"gate", "gate_resolution"}
         == if key == "gate" || key == "gate_resolution" then f - {"gate", "gate_resolution"}
            else (f - {"gate", "gate_resolution"})[key := x]
  {
  }

  lemma SetKeyKeepsAgreement(v: Value, w: Value, key: string, x: Value)
    requires WithoutGateKeys(v) == WithoutGateKeys(w) && v.Rec? == w.Rec?
    ensures WithoutGateKeys(SetKey(v, key, x)) == WithoutGateKeys(SetKey(w, key, x))
    ensures SetKey(v, key, x).Rec? == SetKey(w, key, x).Rec?
  {
    if v.Rec? {
      SetKeyOutsideGate(v.fields, key, x);
      SetKeyOutsideGate(w.fields, key, x);
    }
  }

  /** What patches do to the other variables does not depend on the gate's. */
  lemma {:induction false} VariablesIgnoreGate(patches: seq<Patch>, v: Value, w: Value)
    requires WithoutGateKeys(v) == WithoutGateKeys(w) && v.Rec? == w.Rec?
    ensures WithoutGateKeys(VariablesAfter(patches, v)) == WithoutGateKeys(VariablesAfter(patches, w))
    ensures VariablesAfter(patches, v).Rec? == VariablesAfter(patches, w).Rec?
  {
    if patches != [] {
      var p := patches[0];
      if IsVariablePath(p.path) {
        SetKeyKeepsAgreement(v, w, p.path[4..], p.value);
      }
      VariablesIgnoreGate(patches[1..], PatchVariables(p, v), PatchVariables(p, w));
    }
  }

  lemma AcceptedEdit(actor: Actor, before: State, policy: PolicyRec, patches: seq<Patch>)
    requires HumanStateEdit(actor, before, policy, patches).ok
    ensures var t, p := HumanStateEdit(actor, before, policy, patches).state, ApplyPatches(before, patches);
            t == p.(seqNo := before.seqNo + 1, timeline := t.timeline) && |t.timeline| == |before.timeline| + 1
  {
    PatchesKeepIdentity(before, patches);
  }

  lemma OpenedState(actor: Actor, before: State, policy: PolicyRec, input: Input, kind: string, deadline: int, context: Value)
    requires Open(actor, before, policy, input, kind, deadline, context).Opened?
    ensures var o := Open(actor, before, policy, input, kind, deadline, context);
            && o.state == before.(stage := Str("gated"), variables := SetKey(before.variables, "gate", GateValue(o.gate)),
                                  seqNo := before.seqNo + 1, timeline := o.state.timeline)
            && |o.state.timeline| == |before.timeline| + 1
            && o.gate == GateFor(actor, before, input, kind, deadline, context)
            && o.token == o.gate.digest
  {
    var gate := GateFor(actor, before, input, kind, deadline, context);
    var patches := OpenPatches(gate);
    AcceptedEdit(actor, before, policy, patches);
    var s1 := PatchField(before, patches[0]);
    assert "var.gate"[4..] == "gate";
    assert ApplyPatches(before, patches) == ApplyPatches(s1, patches[1..]);
    assert ApplyPatches(s1, patches[1..]) == PatchField(s1, patches[1]);
  }

  /** What an approved resume leaves behind, against patching the original state directly. */
  ghost predicate SameAsDirect(result: State, s: State, patches: seq<Patch>, approval: Value) {
    var direct := ApplyPatches(s, patches);
    && result.workflowId == s.workflowId && result.lineage == s.lineage && result.violations == s.violations
    && result.goal == direct.goal && result.owner == direct.owner && result.plan == direct.plan
    && result.artifacts == direct.artifacts && result.finalDecision == direct.finalDecision
    && result.patchError == direct.patchError
    && (if direct.variables.Rec? then WithoutGateKeys(result.variables) == WithoutGateKeys(direct.variables)
        else result.variables == Fault)
    && result.stage == LastValue(patches, "stage", Str("gated"))
    && s.approvals <= direct.approvals
    && result.approvals == s.approvals + [approval] + direct.approvals[|s.approvals|..]
  }

  lemma RecordingResolution(s: State, actorId: string)
    ensures var t := ApplyPatches(s, [Resolution("approved", actorId)]);
            && t == s.(variables := t.variables)
            && (if s.variables.Rec? then WithoutGateKeys(t.variables) == WithoutGateKeys(s.variables) && t.variables.Rec?
                else t.variables == Fault)
  {
    var p := Resolution("approved", actorId);
    assert "var.gate_resolution"[4..] == "gate_resolution";
    assert ApplyPatches(s, [p]) == PatchField(s, p);
    if s.variables.Rec? {
      SetKeyOutsideGate(s.variables.fields, "gate_resolution", p.value);
    }
  }

  /** Patching the gated and approved state and recording the resolution, against patching the
      original state. */
  lemma GatedPatching(s: State, gated: State, gate: Value, approval: Value, patches: seq<Patch>, actorId: string)
    requires s.variables.Rec?
    requires gated == s.(stage := Str("gated"), variables := SetKey(s.variables, "gate", gate), approvals := s.approvals + [approval],
                         seqNo := gated.seqNo, timeline := gated.timeline)
    ensures SameAsDirect(ApplyPatches(gated, patches + [Resolution("approved", actorId)]), s, patches, approval)
  {
    SetKeyOutsideGate(s.variables.fields, "gate", gate);
    VariablesIgnoreGate(patches, gated.variables, s.variables);
    PatchesActByField(gated, patches);
    PatchesActByField(s, patches);
    ApplyPatchesConcat(gated, patches, [Resolution("approved", actorId)]);
    RecordingResolution(ApplyPatches(gated, patches), actorId);
  }

  /** An approved, unexpired, policy-passing gate gives the state that the gated patches give
      directly, but for one extra approval, the stage left at "gated" when no patch sets it, and
      the two variables that record the gate; and it costs two sequence numbers. */
  lemma ApprovedGateEqualsDirectPatching(opener: Actor, approver: Actor, s: State, policy: PolicyRec, input: Input,
                                         kind: string, deadline: int, context: Value, token: Digest, resolution: string)
    requires Open(opener, s, policy, input, kind, deadline, context).Opened?
    requires var r := Resume(approver, Open(opener, s, policy, input, kind, deadline, context).state, policy, token, resolution);
             r.Resumed? && r.ok
    ensures var o := Open(opener, s, policy, input, kind, deadline, context);
            var r := Resume(approver, o.state, policy, token, resolution);
            && SameAsDirect(r.state, s, PatchesOf(input), Approval(o.gate, approver.id))
            && r.state.seqNo == s.seqNo + 2
            && |r.state.timeline| == |s.timeline| + 2
  {
    var o := Open(opener, s, policy, input, kind, deadline, context);
    OpenedState(opener, s, policy, input, kind, deadline, context);
    var approval := Approval(o.gate, approver.id);
    var approved := AddApproval(o.state, approval);
    assert approved == s.(stage := Str("gated"), variables := SetKey(s.variables, "gate", GateValue(o.gate)),
                          approvals := s.approvals + [approval], seqNo := approved.seqNo, timeline := approved.timeline);
    GatedPatching(s, approved, GateValue(o.gate), approval, PatchesOf(input), approver.id);
    AcceptedEdit(approver, approved, policy, ResumePatches(o.gate, approver.id));
  }

  /** Under the default policy a gate opens exactly for operators; and the state then holds it exactly
      when the variables were a record, as setting a key of anything else is a fault. */
  lemma OpeningNeedsOperator(actor: Actor, before: State, input: Input, kind: string, deadline: int, context: Value)
    ensures var o := Open(actor, before, DefaultEnterprisePolicy(), input, kind, deadline, context);
            && (o.Opened? <==> "operator" in actor.roles)
            && (o.Opened? ==> (if before.variables.Rec? then GateIn(o.state.variables) == Some(GateValue(o.gate))
                               else o.state.variables == Fault))
  {
    if Open(actor, before, DefaultEnterprisePolicy(), input, kind, deadline, context).Opened? {
      OpenedState(actor, before, DefaultEnterprisePolicy(), input, kind, deadline, context);
    }
    EditNeedsOperator(actor, before, OpenPatches(GateFor(actor, before, input, kind, deadline, context)));
  }

  /** When the gate in a state resumes, with an answer other than "rejected". */
  lemma ResumesExactlyWhen(actor: Actor, gated: State, gate: Gate, policy: PolicyRec, token: Digest, resolution: string)
    requires GateIn(gated.variables) == Some(GateValue(gate)) && resolution != "rejected"
    ensures var r := Resume(actor, gated, policy, token, resolution);
            var approved := AddApproval(gated, Approval(gate, actor.id));
            r.Resumed? && r.ok <==>
              && gated.seqNo <= gate.body.deadlineSeq && gate.digest == token
              && Evaluate(policy, approved, actor, gate.body.input).ok
              && HumanStateEdit(actor, approved, policy, ResumePatches(gate, actor.id)).ok
  {
  }

  /** The gate variable, if the variables are a record that has one. */
  function GateIn(v: Value): Option<Value> {
    if v.Rec? && "gate" in v.fields then Some(v.fields["gate"]) else None
  }

  lemma OpenedGateIsIn(actor: Actor, before: State, policy: PolicyRec, input: Input, kind: string, deadline: int, context: Value)
    requires Open(actor, before, policy, input, kind, deadline, context).Opened?
    ensures var o := Open(actor, before, policy, input, kind, deadline, context);
            GateIn(o.state.variables) == if before.variables.Rec? then Some(GateValue(o.gate)) else None
  {
    OpenedState(actor, before, policy, input, kind, deadline, context);
  }

  /** When a freshly opened gate resumes: the deadline allows at least one step, the token is the
      gate's, the answer is anything but "rejected", the gated input now passes with the approval
      on record, and the approver is an operator. */
  lemma ResumeSucceedsExactlyWhen(opener: Actor, approver: Actor, s: State, input: Input, kind: string, deadline: int,
                                  context: Value, token: Digest, resolution: string)
    requires s.variables.Rec? && "operator" in opener.roles
    ensures var policy := DefaultEnterprisePolicy();
            var o := Open(opener, s, policy, input, kind, deadline, context);
            && o.Opened?
            && var r := Resume(approver, o.state, policy, token, resolution);
               (r.Resumed? && r.ok <==>
                 && deadline >= 1 && token == o.token && resolution != "rejected"
                 && "operator" in approver.roles
                 && Evaluate(policy, AddApproval(s, Approval(o.gate, approver.id)), approver, input).ok)
  {
    var policy := DefaultEnterprisePolicy();
    OpeningNeedsOperator(opener, s, input, kind, deadline, context);
    var o := Open(opener, s, policy, input, kind, deadline, context);
    OpenedState(opener, s, policy, input, kind, deadline, context);
    if resolution != "rejected" {
      var approved := AddApproval(o.state, Approval(o.gate, approver.id));
      OpenedGateIsIn(opener, s, policy, input, kind, deadline, context);
      ResumesExactlyWhen(approver, o.state, o.gate, policy, token, resolution);
      OnlyApprovalsMatter(policy.rules, approved, AddApproval(s, Approval(o.gate, approver.id)), approver, input);
      EditNeedsOperator(approver, approved, ResumePatches(o.gate, approver.id));
    }
  }

  /** More approvals never turn an accepted input into a refused one. */
  lemma {:induction false} ApprovalsOnlyHelp(rules: seq<Rule>, s: State, t: State, actor: Actor, input: Input)
    requires forall a :: a in s.approvals ==> a in t.approvals
    ensures Violations(rules, s, actor, input) == [] ==> Violations(rules, t, actor, input) == []
  {
    if rules != [] {
      assert forall kind :: ApprovalExists(s, kind) ==> ApprovalExists(t, kind);
      ApprovalsOnlyHelp(rules[1..], s, t, actor, input);
    }
  }

  // ---------- What an answer leaves ----------

  /** The record of who answered, and how. */
  ghost predicate Recorded(variables: Value, status: string, actorId: string) {
    && variables.Rec? && "gate_resolution" in variables.fields
    && variables.fields["gate_resolution"] == Rec(map["status" := Str(status), "by" := Str(actorId)])
  }

  /** A gate carries what was asked for, by whom, and until when. */
  lemma OpenedGateCarries(actor: Actor, before: State, policy: PolicyRec, input: Input, kind: string, deadline: int, context: Value)
    requires Open(actor, before, policy, input, kind, deadline, context).Opened?
    ensures var o := Open(actor, before, policy, input, kind, deadline, context);
            var body := o.gate.body;
            && body.kind == kind && body.input == input && body.actorId == actor.id && body.context == context
            && body.deadlineSeq == before.seqNo + deadline && body.token == OfGateRequest(kind, input, actor.id, before.seqNo)
            && o.gate.digest == OfGate(body) && o.token == o.gate.digest
            && o.receipt.body.stateBeforeHash == OfState(before)
  {
  }

  lemma EditNamesActor(actor: Actor, before: State, policy: PolicyRec, requested: seq<Patch>)
    ensures var out := HumanStateEdit(actor, before, policy, requested);
            && out.receipt.body.actor == actor.id && out.receipt.body.policyVersion == policy.version
            && out.receipt.body.kind == (if out.ok then "human_state_edit" else "policy_violation")
            && out.receipt.body.stateAfterHash == OfState(out.state)
            && out.policy.ok == out.ok && out.policy.version == policy.version
  {
  }

  /** The receipt of an opened gate is that of its edit: by the one who opens it, up to the state that is left. */
  lemma OpeningIsReceipted(actor: Actor, before: State, policy: PolicyRec, input: Input, kind: string, deadline: int, context: Value)
    ensures var o := Open(actor, before, policy, input, kind, deadline, context);
            && (o.Opened? ==> o.receipt.body.actor == actor.id && o.receipt.body.kind == "human_state_edit"
                              && o.receipt.body.stateAfterHash == OfState(o.state))
            && (o.GateOpenFailed? ==> !o.policy.ok && o.policy.version == policy.version)
  {
    EditNamesActor(actor, before, policy, OpenPatches(GateFor(actor, before, input, kind, deadline, context)));
  }

  /** And so is that of an answer: by the one who answers. */
  lemma AnswerIsReceipted(actor: Actor, gated: State, policy: PolicyRec, token: Digest, resolution: string)
    ensures var r := Resume(actor, gated, policy, token, resolution);
            && (r.GateRejected? || r.Resumed? ==>
                  && ReceiptOf(r).body.actor == actor.id && ReceiptOf(r).body.stateAfterHash == OfState(StateOf(r))
                  && ReceiptOf(r).body.policyVersion == policy.version)
            && (r.Resumed? ==> ReceiptOf(r).body.kind == if r.ok then "human_state_edit" else "policy_violation")
  {
    if GateIn(gated.variables).Some? && GateIn(gated.variables).value.GateValue? {
      var gate := GateIn(gated.variables).value.gate;
      EditNamesActor(actor, gated, policy, RejectionPatches(actor.id));
      EditNamesActor(actor, AddApproval(gated, Approval(gate, actor.id)), policy, ResumePatches(gate, actor.id));
    }
  }

  /** Which answer a resume gets, in the order of its checks. */
  lemma ResumeAnswers(actor: Actor, gated: State, policy: PolicyRec, token: Digest, resolution: string)
    ensures var r := Resume(actor, gated, policy, token, resolution);
            match GateIn(gated.variables)
            case None => r.NoGateFound?
            case Some(v) =>
              if !v.GateValue? then r.NotAGate?
              else
                var gate := v.gate;
                && (r.GateExpired? <==> gated.seqNo > gate.body.deadlineSeq) && (r.GateExpired? ==> r.expired == gate)
                && (r.GateTokenMismatch? <==> gated.seqNo <= gate.body.deadlineSeq && token != gate.digest)
                && (r.GateRejected? <==> gated.seqNo <= gate.body.deadlineSeq && token == gate.digest && resolution == "rejected")
                && (r.PolicyStillBlocked? || r.Resumed? <==>
                      gated.seqNo <= gate.body.deadlineSeq && token == gate.digest && resolution != "rejected")
                && (r.PolicyStillBlocked? || r.Resumed? ==>
                      (r.Resumed? <==> Evaluate(policy, AddApproval(gated, Approval(gate, actor.id)), actor, gate.body.input).ok))
                && (r.PolicyStillBlocked? ==>
                      r.blockedBy == Evaluate(policy, AddApproval(gated, Approval(gate, actor.id)), actor, gate.body.input))
  {
  }

  /** A rejected gate applies none of its patches: the state is the gated one, at stage "gated_rejected",
      with the rejection on record; and, if the policy denies the one who rejects, a violation. */
  lemma RejectionLeaves(actor: Actor, gated: State, policy: PolicyRec, token: Digest, resolution: string)
    requires Resume(actor, gated, policy, token, resolution).GateRejected?
    ensures var s := Resume(actor, gated, policy, token, resolution).rejected;
            && gated.variables.Rec? && Recorded(s.variables, "rejected", actor.id)
            && s.variables.fields == gated.variables.fields["gate_resolution" := s.variables.fields["gate_resolution"]]
            && s == gated.(stage := Str("gated_rejected"), variables := s.variables, seqNo := gated.seqNo + 1,
                           violations := s.violations, timeline := s.timeline)
            && |s.timeline| == |gated.timeline| + 1 && gated.timeline <= s.timeline
            && var patches := [Patch("stage", Str("gated_rejected")),
                               Patch("var.gate_resolution", Rec(map["status" := Str("rejected"), "by" := Str(actor.id)]))];
               var verdict := Evaluate(policy, gated, actor, Input(Some("none"), None, None, None, Patches(patches)));
               s.violations == gated.violations + (if verdict.ok then [] else [verdict.violations[0]])
  {
    var patches := RejectionPatches(actor.id);
    var s1 := PatchField(gated, patches[0]);
    assert "var.gate_resolution"[4..] == "gate_resolution";
    assert ApplyPatches(gated, patches) == ApplyPatches(s1, patches[1..]);
    assert ApplyPatches(s1, patches[1..]) == PatchField(s1, patches[1]);
  }

  /** An approved resume records who approved, and adds one approval, of the gate's kind, naming the gate,
      right after those there were. */
  lemma ApprovalLeaves(actor: Actor, gated: State, policy: PolicyRec, token: Digest, resolution: string)
    requires Resume(actor, gated, policy, token, resolution).Resumed?
    ensures var s, gate := Resume(actor, gated, policy, token, resolution).state, gated.variables.fields["gate"].gate;
            && (s.variables.Rec? ==> Recorded(s.variables, "approved", actor.id))
            && |s.approvals| > |gated.approvals| && gated.approvals <= s.approvals
            && var a := s.approvals[|gated.approvals|];
               && a.Rec? && a.fields.Keys == {"kind", "status", "by", "gate_digest"}
               && a.fields["kind"] == Str(gate.body.kind) && a.fields["status"] == Str("approved")
               && a.fields["by"] == Str(actor.id) && a.fields["gate_digest"] == Hash(gate.digest)
  {
    var gate := gated.variables.fields["gate"].gate;
    var approved := AddApproval(gated, Approval(gate, actor.id));
    var patches := ResumePatches(gate, actor.id);
    PatchesKeepIdentity(approved, patches);
    ApplyPatchesConcat(approved, PatchesOf(gate.body.input), [Resolution("approved", actor.id)]);
    LastResolutionStands(ApplyPatches(approved, PatchesOf(gate.body.input)), actor.id);
  }

  lemma LastResolutionStands(s: State, actorId: string)
    ensures var v := ApplyPatches(s, [Resolution("approved", actorId)]).variables; v.Rec? ==> Recorded(v, "approved", actorId)
  {
    var p := Resolution("approved", actorId);
    assert "var.gate_resolution"[4..] == "gate_resolution";
    assert ApplyPatches(s, [p]) == PatchField(s, p);
  }

  // ---------- Resuming twice ----------

  /** The patch sets the gate variable, or replaces all the variables. */
  predicate TouchesGate(p: Patch) {
    p.path == "variables" || p.path == "var.gate"
  }

  /** The patch leaves this gate variable. */
  predicate LeavesGate(p: Patch, gate: Value) {
    (p.path == "var.gate" && p.value == gate) || (p.path == "variables" && GateIn(p.value) == Some(gate))
  }

  lemma VariableKey(path: string)
    requires IsVariablePath(path)
    ensures path[4..] == "gate" <==> path == "var.gate"
  {
    assert path == "var." + path[4..];
  }

  /** The gate variable is the old one if no patch touches it, and otherwise one that a patch leaves. */
  lemma {:induction false} GateAfterPatches(patches: seq<Patch>, v: Value)
    ensures (forall p :: p in patches ==> !TouchesGate(p)) ==>
              VariablesAfter(patches, v).Rec? == v.Rec? && GateIn(VariablesAfter(patches, v)) == GateIn(v)
    ensures (exists p :: p in patches && TouchesGate(p)) && GateIn(VariablesAfter(patches, v)).Some? ==>
              exists p :: p in patches && LeavesGate(p, GateIn(VariablesAfter(patches, v)).value)
  {
    if patches != [] {
      var p, rest := patches[0], patches[1..];
      assert p in patches;
      if IsVariablePath(p.path) {
        VariableKey(p.path);
      }
      GateAfterPatches(rest, PatchVariables(p, v));
      assert forall q :: q in patches <==> q == p || q in rest;
    }
  }

  /** No input can hold the gate that was made over it: its digest would be over itself. */
  lemma NoGateOverItself(body: GateBody, p: Patch, gate: Gate)
    requires p in PatchesOf(body.input) && LeavesGate(p, GateValue(gate))
    ensures gate.digest != OfGate(body)
  {
  }

  lemma SecondResumeFindsGate(actor: Actor, gated: State, gate: Gate, policy: PolicyRec, resolution: string)
    requires GateIn(gated.variables) == Some(GateValue(gate)) && gate.digest == OfGate(gate.body)
    requires var r := Resume(actor, gated, policy, gate.digest, resolution); r.Resumed? && r.ok
    ensures var once := Resume(actor, gated, policy, gate.digest, resolution).state;
            var found := GateIn(once.variables);
            if exists p :: p in PatchesOf(gate.body.input) && TouchesGate(p)
            then found.Some? && found.value.GateValue? ==> found.value.gate.digest != gate.digest
            else found == Some(GateValue(gate))
  {
    var approved := AddApproval(gated, Approval(gate, actor.id));
    var patches := ResumePatches(gate, actor.id);
    var once := Resume(actor, gated, policy, gate.digest, resolution).state;
    AcceptedEdit(actor, approved, policy, patches);
    PatchesActByField(approved, patches);
    GateAfterPatches(patches, gated.variables);
    assert forall p :: p in patches <==> p in PatchesOf(gate.body.input) || p == Resolution("approved", actor.id);
    forall p, g | p in patches && LeavesGate(p, GateValue(g)) ensures g.digest != gate.digest {
      NoGateOverItself(gate.body, p, g);
    }
  }

  /** A gate that resumed once resumes again with the same token exactly until its deadline, unless
      the gated patches touched the gate variable: nothing in the state marks a gate as used. */
  lemma ResumesTwiceExactlyWhen(opener: Actor, approver: Actor, s: State, policy: PolicyRec, input: Input, kind: string,
                                deadline: int, context: Value, token: Digest, resolution: string)
    requires Open(opener, s, policy, input, kind, deadline, context).Opened?
    requires var r := Resume(approver, Open(opener, s, policy, input, kind, deadline, context).state, policy, token, resolution);
             r.Resumed? && r.ok
    ensures var once := Resume(approver, Open(opener, s, policy, input, kind, deadline, context).state, policy, token, resolution).state;
            var twice := Resume(approver, once, policy, token, resolution);
            twice.Resumed? && twice.ok <==> deadline >= 2 && forall p :: p in PatchesOf(input) ==> !TouchesGate(p)
  {
    var o := Open(opener, s, policy, input, kind, deadline, context);
    var once := Resume(approver, o.state, policy, token, resolution).state;
    OpenedState(opener, s, policy, input, kind, deadline, context);
    OpenedGateIsIn(opener, s, policy, input, kind, deadline, context);
    SecondResumeFindsGate(approver, o.state, o.gate, policy, resolution);
    ResumeAdvances(approver, o.state, o.gate, policy, token, resolution);
    if forall p :: p in PatchesOf(input) ==> !TouchesGate(p) {
      ResumesExactlyWhen(approver, once, o.gate, policy, token, resolution);
      StillAccepted(approver, o.state, once, o.gate, policy);
    }
  }

  ghost predicate ResumesTwice(actor: Actor, gated: State, policy: PolicyRec, token: Digest, resolution: string) {
    var once := Resume(actor, gated, policy, token, resolution);
    once.Resumed? && once.ok && (var twice := Resume(actor, once.state, policy, token, resolution); twice.Resumed? && twice.ok)
  }

  /** Such gates exist: under the default policy operators can always make one resume twice. */
  lemma OperatorResumesTwice(opener: Actor, approver: Actor, s: State, input: Input, kind: string, deadline: int, context: Value)
    requires s.variables.Rec? && "operator" in opener.roles && "operator" in approver.roles && deadline >= 2
    requires forall p :: p in PatchesOf(input) ==> !TouchesGate(p)
    requires Evaluate(DefaultEnterprisePolicy(), s, approver, input).ok
    ensures var policy := DefaultEnterprisePolicy();
            var o := Open(opener, s, policy, input, kind, deadline, context);
            o.Opened? && ResumesTwice(approver, o.state, policy, o.token, "approved")
  {
    var policy := DefaultEnterprisePolicy();
    OpeningNeedsOperator(opener, s, input, kind, deadline, context);
    var o := Open(opener, s, policy, input, kind, deadline, context);
    ApprovalsOnlyHelp(policy.rules, s, AddApproval(s, Approval(o.gate, approver.id)), approver, input);
    ResumeSucceedsExactlyWhen(opener, approver, s, input, kind, deadline, context, o.token, "approved");
    ResumesTwiceExactlyWhen(opener, approver, s, policy, input, kind, deadline, context, o.token, "approved");
  }

  lemma ResumeAdvances(actor: Actor, gated: State, gate: Gate, policy: PolicyRec, token: Digest, resolution: string)
    requires GateIn(gated.variables) == Some(GateValue(gate))
    requires var r := Resume(actor, gated, policy, token, resolution); r.Resumed? && r.ok
    ensures var once := Resume(actor, gated, policy, token, resolution).state;
            && once.seqNo == gated.seqNo + 1 && token == gate.digest && resolution != "rejected"
            && AddApproval(gated, Approval(gate, actor.id)).approvals <= once.approvals
            && Evaluate(policy, AddApproval(gated, Approval(gate, actor.id)), actor, gate.body.input).ok
            && HumanStateEdit(actor, AddApproval(gated, Approval(gate, actor.id)), policy, ResumePatches(gate, actor.id)).ok
  {
    var approved := AddApproval(gated, Approval(gate, actor.id));
    AcceptedEdit(actor, approved, policy, ResumePatches(gate, actor.id));
    PatchesKeepIdentity(approved, ResumePatches(gate, actor.id));
  }

  /** What passed with fewer approvals passes again. */
  lemma StillAccepted(actor: Actor, gated: State, once: State, gate: Gate, policy: PolicyRec)
    requires AddApproval(gated, Approval(gate, actor.id)).approvals <= once.approvals
    requires Evaluate(policy, AddApproval(gated, Approval(gate, actor.id)), actor, gate.body.input).ok
    requires HumanStateEdit(actor, AddApproval(gated, Approval(gate, actor.id)), policy, ResumePatches(gate, actor.id)).ok
    ensures Evaluate(policy, AddApproval(once, Approval(gate, actor.id)), actor, gate.body.input).ok
    ensures HumanStateEdit(actor, AddApproval(once, Approval(gate, actor.id)), policy, ResumePatches(gate, actor.id)).ok
  {
    var approved, again := AddApproval(gated, Approval(gate, actor.id)), AddApproval(once, Approval(gate, actor.id));
    assert forall a :: a in approved.approvals ==> a in again.approvals;
    ApprovalsOnlyHelp(policy.rules, approved, again, actor, gate.body.input);
    ApprovalsOnlyHelp(policy.rules, approved, again, actor, ToolInput("none", ResumePatches(gate, actor.id)));
  }

  // ---------- Receipts and deltas of a resume ----------

  /** The receipt of an answered gate links to the gated state exactly when the answer was
      "rejected": an approval is on record before the before-hash is taken. */
  lemma ResumeLinksExactlyWhenRejected(actor: Actor, gated: State, policy: PolicyRec, token: Digest, resolution: string)
    requires var r := Resume(actor, gated, policy, token, resolution); r.GateRejected? || r.Resumed?
    ensures ReceiptOf(Resume(actor, gated, policy, token, resolution)).body.stateBeforeHash == OfState(gated) <==> resolution == "rejected"
  {
    var gate := gated.variables.fields["gate"].gate;
    assert |AddApproval(gated, Approval(gate, actor.id)).approvals| != |gated.approvals|;
  }

  function ReceiptOf(r: ResumeResult): Receipt
    requires r.GateRejected? || r.Resumed?
  {
    if r.GateRejected? then r.rejectedReceipt else r.receipt
  }

  function StateOf(r: ResumeResult): State
    requires r.GateRejected? || r.Resumed?
  {
    if r.GateRejected? then r.rejected else r.state
  }

  /** The delta of an answered gate, from its patches and its receipt. */
  function ResumeDelta(r: ResumeResult, patches: seq<Patch>, kind: string, actorId: string): Delta
    requires r.GateRejected? || r.Resumed?
  {
    Delta(StateOf(r).seqNo, kind, actorId, patches, [],
          ReceiptOf(r).body.stateBeforeHash, ReceiptOf(r).body.stateAfterHash, ReceiptOf(r).digest)
  }

  /** The delta of an approved resume, applied to the gated state, rebuilds the resumed state less
      exactly the one approval. */
  lemma ResumeDeltaLacksApproval(actor: Actor, gated: State, policy: PolicyRec, token: Digest, resolution: string, kind: string)
    requires var r := Resume(actor, gated, policy, token, resolution); r.Resumed? && r.ok
    ensures var r, gate := Resume(actor, gated, policy, token, resolution), gated.variables.fields["gate"].gate;
            var rebuilt := ApplyDelta(gated, ResumeDelta(r, ResumePatches(gate, actor.id), kind, actor.id));
            && gated.approvals <= rebuilt.approvals
            && NoTimeline(r.state) == NoTimeline(rebuilt.(
                 approvals := gated.approvals + [Approval(gate, actor.id)] + rebuilt.approvals[|gated.approvals|..]))
            && |r.state.approvals| == |rebuilt.approvals| + 1
  {
    var gate := gated.variables.fields["gate"].gate;
    var approved, patches := AddApproval(gated, Approval(gate, actor.id)), ResumePatches(gate, actor.id);
    AcceptedEdit(actor, approved, policy, patches);
    PatchesActByField(approved, patches);
    PatchesActByField(gated, patches);
  }

  /** A log that chains up to the gated state and goes on with the delta of an answered gate, in any
      order and with anything later: the check gets past that delta when the answer was "rejected",
      and fails right there when it was not. */
  lemma LogBreaksAtApprovedResume(actor: Actor, gated: State, policy: PolicyRec, token: Digest, resolution: string, kind: string,
                                  patches: seq<Patch>, run: seq<Delta>, states: seq<State>, later: seq<Delta>, log: seq<Delta>)
    requires var r := Resume(actor, gated, policy, token, resolution); r.GateRejected? || r.Resumed?
    requires Chained(run, states) && states[|run|] == gated
    requires var d := ResumeDelta(Resume(actor, gated, policy, token, resolution), patches, kind, actor.id);
             StrictlyAscending(run + [d] + later, SeqKey()) && multiset(log) == multiset(run + [d] + later)
    ensures var d := ResumeDelta(Resume(actor, gated, policy, token, resolution), patches, kind, actor.id);
            var check := VerifyDeltaChain(OfState(states[0]), log);
            && (resolution == "rejected" ==> FoldCheck(OfState(states[0]), run + [d]).ok)
            && (resolution != "rejected" ==> !check.ok && check.seqNo == d.seqNo)
  {
    var d := ResumeDelta(Resume(actor, gated, policy, token, resolution), patches, kind, actor.id);
    ResumeLinksExactlyWhenRejected(actor, gated, policy, token, resolution);
    NextLinkDecides(run, states, d, later, log);
  }
}
