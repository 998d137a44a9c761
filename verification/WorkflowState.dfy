/** The workflow state record and its patches (src/acp/state.fard). */
module WorkflowState {
  import opened Records

  const VAR_PREFIX := "var."

  function NewWorkflow(workflowId: string, goal: string, owner: string): State {
    State(workflowId, Str(goal), Str(owner), Str("created"), 0,
          Rec(map["nodes" := List([]), "edges" := List([])]),
          [], [], [], [], Rec(map[]), Null, None, None)
  }

  function AddArtifact(s: State, digest: Digest): State {
    s.(artifacts := s.artifacts + [digest])
  }

  function AddApproval(s: State, approval: Value): State {
    s.(approvals := s.approvals + [approval])
  }

  function AddViolation(s: State, violation: Violation): State {
    s.(violations := s.violations + [violation])
  }

  function AddTimeline(s: State, event: Event): State {
    s.(timeline := s.timeline + [event])
  }

  function Bump(s: State): State {
    s.(seqNo := s.seqNo + 1)
  }

  /** Sets one key of a record; setting a key of anything else faults. */
  function SetKey(v: Value, key: string, x: Value): Value {
    if v.Rec? then Rec(v.fields[key := x]) else Fault
  }

  predicate IsVariablePath(path: string) {
    VAR_PREFIX <= path
  }

  function PatchField(s: State, p: Patch): State {
    if p.path == "stage" then s.(stage := p.value)
    else if p.path == "variables" then s.(variables := p.value)
    else if p.path == "plan" then s.(plan := p.value)
    else if p.path == "final_decision" then s.(finalDecision := p.value)
    else if p.path == "goal" then s.(goal := p.value)
    else if p.path == "owner" then s.(owner := p.value)
    else if p.path == "approvals" then AddApproval(s, p.value)
    else if IsVariablePath(p.path) then s.(variables := SetKey(s.variables, p.path[4..], p.value))
    else s.(patchError := Some(p))
  }

  function ApplyPatches(s: State, patches: seq<Patch>): State
    decreases patches
  {
    if patches == [] then s else ApplyPatches(PatchField(s, patches[0]), patches[1..])
  }

  /** What a new workflow is. */
  lemma NewWorkflowIs(workflowId: string, goal: string, owner: string)
    ensures var s := NewWorkflow(workflowId, goal, owner);
            && s.workflowId == workflowId && s.goal == Str(goal) && s.owner == Str(owner) && s.stage == Str("created") && s.seqNo == 0
            && s.plan == Rec(map["nodes" := List([]), "edges" := List([])]) && s.variables == Rec(map[]) && s.finalDecision == Null
            && s.artifacts == [] && s.approvals == [] && s.violations == [] && s.timeline == [] && s.patchError == None && s.lineage == None
  {
  }

  lemma {:induction false} ApplyPatchesConcat(s: State, a: seq<Patch>, b: seq<Patch>)
    ensures ApplyPatches(s, a + b) == ApplyPatches(ApplyPatches(s, a), b)
    decreases a
  {
    if a == [] {
      assert a + b == b;
    } else {
      assert (a + b)[1..] == a[1..] + b;
      ApplyPatchesConcat(PatchField(s, a[0]), a[1..], b);
    }
  }

  // ---------- What patches do, field by field ----------

  /** The last value the patches give the field, or the one it has. */
  function LastValue(patches: seq<Patch>, path: string, has: Value): Value {
    if patches == [] then has
    else LastValue(patches[1..], path, if patches[0].path == path then patches[0].value else has)
  }

  function VariablesAfter(patches: seq<Patch>, has: Value): Value {
    if patches == [] then has
    else VariablesAfter(patches[1..], PatchVariables(patches[0], has))
  }

  function PatchVariables(p: Patch, has: Value): Value {
    if p.path == "variables" then p.value
    else if IsVariablePath(p.path) then SetKey(has, p.path[4..], p.value)
    else has
  }

  function NewApprovals(patches: seq<Patch>): seq<Value> {
    if patches == [] then []
    else (if patches[0].path == "approvals" then [patches[0].value] else []) + NewApprovals(patches[1..])
  }

  predicate IsKnownPath(path: string) {
    path in {"stage", "variables", "plan", "final_decision", "goal", "owner", "approvals"} || IsVariablePath(path)
  }

  function LastUnknown(patches: seq<Patch>, has: Option<Patch>): Option<Patch> {
    if patches == [] then has
    else LastUnknown(patches[1..], if IsKnownPath(patches[0].path) then has else Some(patches[0]))
  }

  /** The patched state, each field from the patches on that field alone. */
  function PatchedByField(s: State, patches: seq<Patch>): State {
    s.(goal := LastValue(patches, "goal", s.goal),
       owner := LastValue(patches, "owner", s.owner),
       stage := LastValue(patches, "stage", s.stage),
       plan := LastValue(patches, "plan", s.plan),
       finalDecision := LastValue(patches, "final_decision", s.finalDecision),
       variables := VariablesAfter(patches, s.variables),
       approvals := s.approvals + NewApprovals(patches),
       patchError := LastUnknown(patches, s.patchError))
  }

  lemma NamedPathsAreNotVariables()
    ensures forall path :: path in {"stage", "variables", "plan", "final_decision", "goal", "owner", "approvals"} ==> !IsVariablePath(path)
  {
    forall path: string | IsVariablePath(path) ensures path[0] == 'v' && path[3] == '.' {
      assert path[0] == VAR_PREFIX[0] && path[3] == VAR_PREFIX[3];
    }
    assert "stage"[0] == 's' && "plan"[0] == 'p' && "final_decision"[0] == 'f' && "goal"[0] == 'g';
    assert "owner"[0] == 'o' && "approvals"[0] == 'a' && "variables"[3] == 'i';
  }

  lemma PatchFieldActsOnOne(s: State, p: Patch, rest: seq<Patch>)
    ensures PatchedByField(PatchField(s, p), rest) == PatchedByField(s, [p] + rest)
  {
    assert ([p] + rest)[1..] == rest;
    NamedPathsAreNotVariables();
    assert p.path == "approvals" ==> (s.approvals + [p.value]) + NewApprovals(rest) == s.approvals + ([p.value] + NewApprovals(rest));
  }

  /** Patching in sequence is patching field by field: paths do not interfere, the last value wins,
      approvals add up. */
  lemma {:induction false} PatchesActByField(s: State, patches: seq<Patch>)
    ensures ApplyPatches(s, patches) == PatchedByField(s, patches)
    decreases patches
  {
    if patches != [] {
      PatchesActByField(PatchField(s, patches[0]), patches[1..]);
      PatchFieldActsOnOne(s, patches[0], patches[1..]);
      assert patches == [patches[0]] + patches[1..];
    }
  }

  /** No approval is added, and the last value written to each field is the one it has. */
  predicate IsInert(patches: seq<Patch>, s: State) {
    && LastValue(patches, "goal", s.goal) == s.goal
    && LastValue(patches, "owner", s.owner) == s.owner
    && LastValue(patches, "stage", s.stage) == s.stage
    && LastValue(patches, "plan", s.plan) == s.plan
    && LastValue(patches, "final_decision", s.finalDecision) == s.finalDecision
    && VariablesAfter(patches, s.variables) == s.variables
    && NewApprovals(patches) == []
    && LastUnknown(patches, s.patchError) == s.patchError
  }

  /** The fields that no patch can reach. */
  lemma {:induction false} PatchesKeepIdentity(s: State, patches: seq<Patch>)
    ensures var t := ApplyPatches(s, patches);
            t.workflowId == s.workflowId && t.seqNo == s.seqNo && t.artifacts == s.artifacts
            && t.violations == s.violations && t.timeline == s.timeline && t.lineage == s.lineage
            && s.approvals <= t.approvals
    decreases patches
  {
    if patches != [] {
      PatchesKeepIdentity(PatchField(s, patches[0]), patches[1..]);
    }
  }

  /** A state with its history stripped: everything that a replay on another workflow
      with another log must still agree on. */
  function Logical(s: State): State {
    s.(workflowId := "", seqNo := 0, timeline := [], violations := [], lineage := None)
  }

  lemma PatchActsOnLogical(s: State, t: State, p: Patch)
    requires Logical(s) == Logical(t)
    ensures Logical(PatchField(s, p)) == Logical(PatchField(t, p))
  {
    assert t == s.(workflowId := t.workflowId, seqNo := t.seqNo, timeline := t.timeline,
                   violations := t.violations, lineage := t.lineage);
  }

  lemma {:induction false} PatchesActOnLogical(s: State, t: State, patches: seq<Patch>)
    requires Logical(s) == Logical(t)
    ensures Logical(ApplyPatches(s, patches)) == Logical(ApplyPatches(t, patches))
    decreases patches
  {
    if patches != [] {
      PatchActsOnLogical(s, t, patches[0]);
      PatchesActOnLogical(PatchField(s, patches[0]), PatchField(t, patches[0]), patches[1..]);
    }
  }

  lemma InertExactlyWhenLogicalStays(s: State, patches: seq<Patch>)
    ensures Logical(ApplyPatches(s, patches)) == Logical(s) <==> IsInert(patches, s)
  {
    PatchesActByField(s, patches);
    assert s.approvals + NewApprovals(patches) == s.approvals ==> |NewApprovals(patches)| == 0;
  }

  /** Everything but the timeline. */
  function NoTimeline(s: State): State {
    s.(timeline := [])
  }

  lemma {:induction false} PatchesIgnoreTimeline(s: State, t: State, patches: seq<Patch>)
    requires NoTimeline(s) == NoTimeline(t)
    ensures NoTimeline(ApplyPatches(s, patches)) == NoTimeline(ApplyPatches(t, patches))
    decreases patches
  {
    if patches != [] {
      assert t == s.(timeline := t.timeline);
      PatchesIgnoreTimeline(PatchField(s, patches[0]), PatchField(t, patches[0]), patches[1..]);
    }
  }
}
