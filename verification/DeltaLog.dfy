/** Deltas: reconstruction from a baseline and the hash chain check (src/acp/delta.fard). */
module DeltaLog {
  import opened Records
  import opened Lists
  import opened WorkflowState
  import opened Policy
  import opened Runs
  import opened Runtime
  import opened Replays

  function FromTransition(out: Outcome, patches: seq<Patch>, kind: string, actor: string): Delta {
    Delta(out.state.seqNo, kind, actor, patches, [],
          out.receipt.body.stateBeforeHash, out.receipt.body.stateAfterHash, out.receipt.digest)
  }

  function FromArtifactCommit(out: Outcome, artifact: Digest, actor: string): Delta {
    Delta(out.state.seqNo, "artifact_committed", actor, [], [artifact],
          out.receipt.body.stateBeforeHash, out.receipt.body.stateAfterHash, out.receipt.digest)
  }

  function SeqKey(): Delta -> int {
    (d: Delta) => d.seqNo
  }

  function SortDeltas(deltas: seq<Delta>): seq<Delta> {
    SortBy(deltas, SeqKey())
  }

  function ApplyDelta(s: State, d: Delta): State {
    if d.patches != [] then Bump(ApplyPatches(s, d.patches))
    else if d.artifactDigests != [] then Bump(AddArtifact(s, d.artifactDigests[0]))
    else Bump(s)
  }

  datatype Rebuilt = Rebuilt(ok: bool, state: State, seqNo: int)

  function FoldDeltas(s: State, deltas: seq<Delta>): Rebuilt
    decreases |deltas|
  {
    if deltas == [] then Rebuilt(true, s, 0)
    else
      var d := deltas[|deltas| - 1];
      Rebuilt(true, ApplyDelta(FoldDeltas(s, deltas[..|deltas| - 1]).state, d), d.seqNo)
  }

  function UpTo(deltas: seq<Delta>, maxSeq: int): seq<Delta> {
    if deltas == [] then []
    else (if deltas[0].seqNo <= maxSeq then [deltas[0]] else []) + UpTo(deltas[1..], maxSeq)
  }

  /** `maxSeq` below zero means all of them. */
  function ApplyDeltas(baseline: State, deltas: seq<Delta>, maxSeq: int): Rebuilt {
    var sorted := SortDeltas(deltas);
    FoldDeltas(baseline, if maxSeq < 0 then sorted else UpTo(sorted, maxSeq))
  }

  function ReconstructAt(baseline: State, deltas: seq<Delta>, targetSeq: int): Rebuilt {
    ApplyDeltas(baseline, deltas, targetSeq)
  }

  datatype ChainCheck = ChainCheck(ok: bool, prevHash: Digest, seqNo: int)

  function CheckStep(acc: ChainCheck, d: Delta): ChainCheck {
    if !acc.ok then acc
    else if d.stateBeforeHash != acc.prevHash then ChainCheck(false, acc.prevHash, d.seqNo)
    else ChainCheck(true, d.stateAfterHash, d.seqNo)
  }

  function FoldCheck(baselineHash: Digest, deltas: seq<Delta>): ChainCheck
    decreases |deltas|
  {
    if deltas == [] then ChainCheck(true, baselineHash, 0)
    else CheckStep(FoldCheck(baselineHash, deltas[..|deltas| - 1]), deltas[|deltas| - 1])
  }

  function VerifyDeltaChain(baselineHash: Digest, deltas: seq<Delta>): ChainCheck {
    FoldCheck(baselineHash, SortDeltas(deltas))
  }

  // ---------- Chains: deltas between consecutive states ----------

  /** `run[i]` leads from `states[i]` to `states[i + 1]`. */
  ghost predicate Chained(run: seq<Delta>, states: seq<State>) {
    && |states| == |run| + 1
    && (forall i :: 0 <= i < |states| ==> states[i].seqNo == states[0].seqNo + i)
    && (forall i :: 0 <= i < |run| ==> Links(run[i], states[i], states[i + 1]))
  }

  ghost predicate Links(d: Delta, before: State, after: State) {
    d.seqNo == after.seqNo && d.stateBeforeHash == OfState(before) && d.stateAfterHash == OfState(after)
  }

  /** What the deltas do to the states, the timeline aside. */
  ghost predicate Faithful(run: seq<Delta>, states: seq<State>)
    requires |states| == |run| + 1
  {
    forall i :: 0 <= i < |run| ==> NoTimeline(ApplyDelta(states[i], run[i])) == NoTimeline(states[i + 1])
  }

  lemma ChainAscends(run: seq<Delta>, states: seq<State>)
    requires Chained(run, states)
    ensures forall i :: 0 <= i < |run| ==> run[i].seqNo == states[0].seqNo + i + 1
    ensures StrictlyAscending(run, SeqKey())
  {
    forall i | 0 <= i < |run| ensures run[i].seqNo == states[0].seqNo + i + 1 {
      assert Links(run[i], states[i], states[i + 1]);
    }
  }

  /** Sorting brings any arrangement of a chain's first deltas back into order. */
  lemma SortingRestoresChain(run: seq<Delta>, states: seq<State>, k: nat, deltas: seq<Delta>)
    requires Chained(run, states)
    requires k <= |run| && multiset(deltas) == multiset(run[..k])
    ensures SortDeltas(deltas) == run[..k]
  {
    ChainAscends(run, states);
    SortByIsSorted(deltas, SeqKey());
    SortedIsUnique(SortDeltas(deltas), run[..k], SeqKey());
  }

  lemma SortingRestoresWhole(run: seq<Delta>, states: seq<State>, deltas: seq<Delta>)
    requires Chained(run, states) && multiset(deltas) == multiset(run)
    ensures SortDeltas(deltas) == run
  {
    assert run[..|run|] == run;
    SortingRestoresChain(run, states, |run|, deltas);
  }

  /** The check passes a list of chain deltas exactly when it is the chain's own beginning. */
  lemma {:induction false} CheckPassesChainPrefix(run: seq<Delta>, states: seq<State>, list: seq<Delta>)
    requires Chained(run, states)
    requires forall d :: d in list ==> d in run
    ensures FoldCheck(OfState(states[0]), list).ok <==> |list| <= |run| && list == run[..|list|]
    ensures FoldCheck(OfState(states[0]), list).ok ==> FoldCheck(OfState(states[0]), list).prevHash == OfState(states[|list|])
    decreases |list|
  {
    if list != [] {
      var m := |list| - 1;
      var front, last := list[..m], list[m];
      CheckPassesChainPrefix(run, states, front);
      assert list == front + [last] && last in list;
      var i :| 0 <= i < |run| && run[i] == last;
      assert Links(run[i], states[i], states[i + 1]);
      assert m < |run| ==> run[..m + 1] == run[..m] + [run[m]];
      if m < |run| {
        assert Links(run[m], states[m], states[m + 1]);
        assert states[i] == states[m] ==> states[i].seqNo == states[m].seqNo;
      }
    }
  }

  /** For every chain, and every list drawn from its deltas, in any order and with any repeats:
      verification accepts it exactly when it is an arrangement of the chain's first k. */
  lemma ChainAcceptsPrefixes(run: seq<Delta>, states: seq<State>, deltas: seq<Delta>)
    requires Chained(run, states)
    requires forall d :: d in deltas ==> d in run
    ensures VerifyDeltaChain(OfState(states[0]), deltas).ok
       <==> exists k :: 0 <= k <= |run| && multiset(deltas) == multiset(run[..k])
  {
    var sorted := SortDeltas(deltas);
    SortByIsSorted(deltas, SeqKey());
    forall d | d in sorted ensures d in run {
      assert d in multiset(sorted);
      assert d in multiset(deltas);
    }
    CheckPassesChainPrefix(run, states, sorted);
    if VerifyDeltaChain(OfState(states[0]), deltas).ok {
      assert multiset(deltas) == multiset(run[..|sorted|]);
    }
    forall k | 0 <= k <= |run| && multiset(deltas) == multiset(run[..k])
      ensures VerifyDeltaChain(OfState(states[0]), deltas).ok
    {
      SortingRestoresChain(run, states, k, deltas);
    }
  }

  lemma {:induction false} BrokenCheckStays(baselineHash: Digest, a: seq<Delta>, b: seq<Delta>)
    requires !FoldCheck(baselineHash, a).ok
    ensures FoldCheck(baselineHash, a + b) == FoldCheck(baselineHash, a)
    decreases |b|
  {
    if b == [] {
      assert a + b == a;
    } else {
      BrokenCheckStays(baselineHash, a, b[..|b| - 1]);
      assert (a + b)[..|a + b| - 1] == a + b[..|b| - 1];
    }
  }

  lemma CheckAppends(baselineHash: Digest, front: seq<Delta>, d: Delta)
    ensures FoldCheck(baselineHash, front + [d]) == CheckStep(FoldCheck(baselineHash, front), d)
  {
    assert (front + [d])[..|front|] == front;
  }

  /** A delta after a chain, with whatever comes later: the check passes it exactly when it starts from
      the chain's last state, and otherwise stops right there, whatever the order of the log. */
  lemma NextLinkDecides(run: seq<Delta>, states: seq<State>, d: Delta, later: seq<Delta>, log: seq<Delta>)
    requires Chained(run, states) && StrictlyAscending(run + [d] + later, SeqKey())
    requires multiset(log) == multiset(run + [d] + later)
    ensures d.stateBeforeHash == OfState(states[|run|]) ==>
              FoldCheck(OfState(states[0]), run + [d]) == ChainCheck(true, d.stateAfterHash, d.seqNo)
    ensures d.stateBeforeHash != OfState(states[|run|]) ==>
              !VerifyDeltaChain(OfState(states[0]), log).ok && VerifyDeltaChain(OfState(states[0]), log).seqNo == d.seqNo
  {
    var h := OfState(states[0]);
    SortByIsSorted(log, SeqKey());
    SortedIsUnique(SortDeltas(log), run + [d] + later, SeqKey());
    CheckPassesChainPrefix(run, states, run);
    assert run[..|run|] == run;
    CheckAppends(h, run, d);
    if d.stateBeforeHash != OfState(states[|run|]) {
      BrokenCheckStays(h, run + [d], later);
    }
  }

  lemma ApplyDeltaIgnoresTimeline(s: State, t: State, d: Delta)
    requires NoTimeline(s) == NoTimeline(t)
    ensures NoTimeline(ApplyDelta(s, d)) == NoTimeline(ApplyDelta(t, d))
    ensures ApplyDelta(s, d).timeline == s.timeline
  {
    assert t == s.(timeline := t.timeline);
    PatchesIgnoreTimeline(s, t, d.patches);
    PatchesKeepIdentity(s, d.patches);
  }

  lemma {:induction false} FoldingChain(run: seq<Delta>, states: seq<State>, k: nat)
    requires Chained(run, states) && Faithful(run, states) && k <= |run|
    ensures var r := FoldDeltas(states[0], run[..k]);
            && NoTimeline(r.state) == NoTimeline(states[k])
            && r.state.timeline == states[0].timeline
            && r.ok && r.seqNo == (if k == 0 then 0 else states[k].seqNo)
  {
    if k > 0 {
      FoldingChain(run, states, k - 1);
      FoldAppends(states[0], run[..k - 1], run[k - 1]);
      assert run[..k] == run[..k - 1] + [run[k - 1]];
      FoldingStep(run, states, k - 1, FoldDeltas(states[0], run[..k - 1]).state);
    }
  }

  lemma FoldAppends(s: State, front: seq<Delta>, d: Delta)
    ensures FoldDeltas(s, front + [d]) == Rebuilt(true, ApplyDelta(FoldDeltas(s, front).state, d), d.seqNo)
  {
    assert (front + [d])[..|front|] == front;
  }

  lemma FoldingStep(run: seq<Delta>, states: seq<State>, i: nat, before: State)
    requires Chained(run, states) && Faithful(run, states) && i < |run| && NoTimeline(before) == NoTimeline(states[i])
    ensures NoTimeline(ApplyDelta(before, run[i])) == NoTimeline(states[i + 1])
    ensures ApplyDelta(before, run[i]).timeline == before.timeline && run[i].seqNo == states[i + 1].seqNo
  {
    ApplyDeltaIgnoresTimeline(before, states[i], run[i]);
    assert Links(run[i], states[i], states[i + 1]);
  }

  lemma {:induction false} UpToTakesPrefix(deltas: seq<Delta>, base: int, k: nat)
    requires k <= |deltas| && forall i :: 0 <= i < |deltas| ==> deltas[i].seqNo == base + i + 1
    ensures UpTo(deltas, base + k) == deltas[..k]
  {
    if deltas != [] {
      forall i | 0 <= i < |deltas| - 1 ensures deltas[1..][i].seqNo == base + i + 2 {
        assert deltas[1..][i] == deltas[i + 1];
      }
      if k == 0 {
        NothingUpTo(deltas[1..], base);
      } else {
        UpToTakesPrefix(deltas[1..], base + 1, k - 1);
      }
    }
  }

  lemma {:induction false} NothingUpTo(deltas: seq<Delta>, maxSeq: int)
    requires forall i :: 0 <= i < |deltas| ==> deltas[i].seqNo > maxSeq
    ensures UpTo(deltas, maxSeq) == []
  {
    if deltas != [] {
      NothingUpTo(deltas[1..], maxSeq);
    }
  }

  /** Reconstruction at `target` gives `live` in every field but the timeline, which stays the
      baseline's. */
  ghost predicate Rebuilds(baseline: State, deltas: seq<Delta>, target: int, live: State) {
    var r := ReconstructAt(baseline, deltas, target);
    r.ok && NoTimeline(r.state) == NoTimeline(live) && r.state.timeline == baseline.timeline
  }

  lemma ReconstructionFoldsPrefix(baseline: State, run: seq<Delta>, states: seq<State>, deltas: seq<Delta>, k: nat)
    requires Chained(run, states) && states[0] == baseline
    requires multiset(deltas) == multiset(run) && k <= |run| && baseline.seqNo >= 0
    ensures ReconstructAt(baseline, deltas, baseline.seqNo + k) == FoldDeltas(baseline, run[..k])
  {
    SortingRestoresWhole(run, states, deltas);
    ChainAscends(run, states);
    UpToTakesPrefix(run, baseline.seqNo, k);
    assert UpTo(SortDeltas(deltas), baseline.seqNo + k) == run[..k];
  }

  /** From any arrangement of the deltas of a faithful chain, the baseline and a sequence number
      rebuild the state at that point, in every field but the timeline. */
  lemma ChainReconstructs(baseline: State, run: seq<Delta>, states: seq<State>, deltas: seq<Delta>, k: nat)
    requires Chained(run, states) && Faithful(run, states) && states[0] == baseline
    requires multiset(deltas) == multiset(run) && k <= |run| && baseline.seqNo >= 0
    ensures Rebuilds(baseline, deltas, baseline.seqNo + k, states[k])
  {
    ReconstructionFoldsPrefix(baseline, run, states, deltas, k);
    FoldingChain(run, states, k);
  }

  // ---------- The deltas of a run ----------

  function DeltaOf(op: Op, out: Outcome): Delta {
    match op
    case Transit(kind, actor, input, _) => FromTransition(out, PatchesOf(input), kind, actor.id)
    case Artifact(actor, _, digest) => FromArtifactCommit(out, digest, actor.id)
    case Edit(actor, patches) => FromTransition(out, patches, "human_state_edit", actor.id)
  }

  /** What the delta of a step names: the actor; the kind, whatever the verdict; the patches asked for, or
      the artifact; and the receipt. */
  lemma DeltaNamesStep(op: Op, before: State, policy: PolicyRec)
    ensures var out := Apply(op, before, policy);
            var d := DeltaOf(op, out);
            && d.actor == op.actor.id && d.receiptDigest == out.receipt.digest
            && d.kind == (match op
                          case Transit(kind, _, _, _) => kind
                          case Artifact(_, _, _) => "artifact_committed"
                          case Edit(_, _) => "human_state_edit")
            && d.patches == (match op
                             case Transit(_, _, input, _) => if input.patches.Patches? then input.patches.list else []
                             case Artifact(_, _, _) => []
                             case Edit(_, patches) => patches)
            && d.artifactDigests == (if op.Artifact? then [op.digest] else [])
  {
  }

  /** What applying a delta does: its patches, field by field, if it has any; otherwise its first artifact,
      if it has one; and one more seq. */
  lemma DeltaDoes(s: State, d: Delta)
    ensures ApplyDelta(s, d) ==
              if d.patches != [] then PatchedByField(s, d.patches).(seqNo := s.seqNo + 1)
              else if d.artifactDigests != [] then s.(artifacts := s.artifacts + [d.artifactDigests[0]], seqNo := s.seqNo + 1)
              else s.(seqNo := s.seqNo + 1)
  {
    PatchesActByField(s, d.patches);
  }

  /** One delta for every step of a run, accepted or denied. */
  function RunDeltas(s: State, ops: seq<Op>, policy: PolicyRec): (r: seq<Delta>)
    ensures |r| == |ops|
  {
    seq(|ops|, i requires 0 <= i < |ops| => DeltaOf(ops[i], At(s, ops, Executor(policy), i)))
  }

  /** The states a run passes through, from the first to the last. */
  function RunStates(s: State, ops: seq<Op>, policy: PolicyRec): (r: seq<State>)
    ensures |r| == |ops| + 1
  {
    seq(|ops| + 1, k requires 0 <= k <= |ops| => RunState(s, ops[..k], Executor(policy)))
  }

  lemma DeltaLinks(op: Op, before: State, policy: PolicyRec)
    ensures Links(DeltaOf(op, Apply(op, before, policy)), before, Apply(op, before, policy).state)
  {
    StepIsReceipted(op, before, policy);
  }

  lemma RunIsChained(s: State, ops: seq<Op>, policy: PolicyRec)
    ensures Chained(RunDeltas(s, ops, policy), RunStates(s, ops, policy))
    ensures RunStates(s, ops, policy)[0] == s
    ensures RunStates(s, ops, policy)[|ops|] == RunState(s, ops, Executor(policy))
  {
    var run, states := RunDeltas(s, ops, policy), RunStates(s, ops, policy);
    assert ops[..0] == [] && ops[..|ops|] == ops;
    forall i | 0 <= i < |states| ensures states[i].seqNo == s.seqNo + i {
      RunCountsSteps(s, ops[..i], policy);
    }
    forall i | 0 <= i < |run| ensures Links(run[i], states[i], states[i + 1]) {
      RunStateStep(s, ops, Executor(policy), i);
      DeltaLinks(ops[i], states[i], policy);
    }
  }

  /** For every run of the runtime, and every list drawn from its deltas, in any order and with
      any repeats: the chain check accepts it exactly when it is an arrangement of the first k. */
  lemma VerifyAcceptsExactlyPrefixes(s: State, ops: seq<Op>, policy: PolicyRec, deltas: seq<Delta>)
    requires forall d :: d in deltas ==> d in RunDeltas(s, ops, policy)
    ensures VerifyDeltaChain(OfState(s), deltas).ok
       <==> exists k :: 0 <= k <= |ops| && multiset(deltas) == multiset(RunDeltas(s, ops, policy)[..k])
  {
    RunIsChained(s, ops, policy);
    ChainAcceptsPrefixes(RunDeltas(s, ops, policy), RunStates(s, ops, policy), deltas);
  }

  /** Dropping one delta from a run is caught, unless it is the last one. */
  lemma RemovalIsCaughtExceptAtTail(s: State, ops: seq<Op>, policy: PolicyRec, i: nat)
    requires i < |ops|
    ensures var run := RunDeltas(s, ops, policy);
            VerifyDeltaChain(OfState(s), run[..i] + run[i + 1..]).ok <==> i == |ops| - 1
  {
    RunIsChained(s, ops, policy);
    ChainRemovalIsCaught(RunDeltas(s, ops, policy), RunStates(s, ops, policy), i);
  }

  lemma ChainRemovalIsCaught(run: seq<Delta>, states: seq<State>, i: nat)
    requires Chained(run, states) && i < |run|
    ensures VerifyDeltaChain(OfState(states[0]), run[..i] + run[i + 1..]).ok <==> i == |run| - 1
  {
    var rest := run[..i] + run[i + 1..];
    ChainAscends(run, states);
    ChainAcceptsPrefixes(run, states, rest);
    if i == |run| - 1 {
      assert rest == run[..i];
    } else {
      var last := run[|run| - 1];
      assert |multiset(rest)| == |run| - 1;
      assert last == rest[|rest| - 1] && last in multiset(rest);
      forall k | 0 <= k < |run| ensures last !in multiset(run[..k]) {
        assert forall j :: 0 <= j < k ==> run[j].seqNo < last.seqNo;
      }
      assert forall k :: 0 <= k <= |run| ==> |multiset(run[..k])| == |run[..k]|;
    }
  }

  /** An accepted step and its delta do the same to every field but the timeline. */
  lemma DeltaMirrorsStep(op: Op, before: State, policy: PolicyRec)
    requires Apply(op, before, policy).ok
    ensures NoTimeline(ApplyDelta(before, DeltaOf(op, Apply(op, before, policy)))) == NoTimeline(Apply(op, before, policy).state)
  {
  }

  lemma AcceptedRunIsFaithful(s: State, ops: seq<Op>, policy: PolicyRec)
    requires AllAccepted(s, ops, Executor(policy))
    ensures Faithful(RunDeltas(s, ops, policy), RunStates(s, ops, policy))
  {
    var run, states := RunDeltas(s, ops, policy), RunStates(s, ops, policy);
    forall i | 0 <= i < |run| ensures NoTimeline(ApplyDelta(states[i], run[i])) == NoTimeline(states[i + 1]) {
      assert At(s, ops, Executor(policy), i).ok;
      RunStateStep(s, ops, Executor(policy), i);
      DeltaMirrorsStep(ops[i], states[i], policy);
    }
  }

  /** Folding deltas leaves violations and timeline alone. */
  lemma {:induction false} FoldKeepsLogs(s: State, deltas: seq<Delta>)
    ensures FoldDeltas(s, deltas).state.violations == s.violations
    ensures FoldDeltas(s, deltas).state.timeline == s.timeline
    decreases |deltas|
  {
    if deltas != [] {
      var front, d := deltas[..|deltas| - 1], deltas[|deltas| - 1];
      FoldKeepsLogs(s, front);
      PatchesKeepIdentity(FoldDeltas(s, front).state, d.patches);
    }
  }

  lemma DenialAddsViolation(op: Op, before: State, policy: PolicyRec)
    ensures var out := Executor(policy)(op, before);
            if out.ok then out.state.violations == before.violations else |out.state.violations| == |before.violations| + 1
  {
    StepIsReceipted(op, before, policy);
  }

  /** A run adds a violation for each step denied. */
  lemma {:induction false} ViolationsTellDenials(s: State, ops: seq<Op>, policy: PolicyRec)
    ensures if AllAccepted(s, ops, Executor(policy)) then RunState(s, ops, Executor(policy)).violations == s.violations
            else |RunState(s, ops, Executor(policy)).violations| > |s.violations|
    decreases |ops|
  {
    if ops != [] {
      var front, last := ops[..|ops| - 1], ops[|ops| - 1];
      ViolationsTellDenials(s, front, policy);
      DenialAddsViolation(last, RunState(s, front, Executor(policy)), policy);
      assert ops == front + [last];
      AcceptedGrowsExactlyWhen(s, front, last, Executor(policy));
    }
  }

  lemma AcceptedGrowsExactlyWhen(s: State, front: seq<Op>, op: Op, f: (Op, State) -> Outcome)
    ensures AllAccepted(s, front + [op], f) <==> AllAccepted(s, front, f) && f(op, RunState(s, front, f)).ok
  {
    var ops := front + [op];
    assert ops[..|front|] == front;
    if AllAccepted(s, ops, f) {
      AcceptedFront(s, ops, f, |front|);
      assert At(s, ops, f, |front|).ok;
    } else if AllAccepted(s, front, f) && f(op, RunState(s, front, f)).ok {
      AcceptedGrows(s, front, op, f);
    }
  }

  lemma RunPrefix(s: State, ops: seq<Op>, policy: PolicyRec, k: nat)
    requires k <= |ops|
    ensures RunDeltas(s, ops[..k], policy) == RunDeltas(s, ops, policy)[..k]
    ensures RunStates(s, ops[..k], policy)[k] == RunStates(s, ops, policy)[k] == RunState(s, ops[..k], Executor(policy))
  {
    assert ops[..k][..k] == ops[..k];
    forall i | 0 <= i < k ensures RunDeltas(s, ops[..k], policy)[i] == RunDeltas(s, ops, policy)[i] {
      AtIgnoresLater(s, ops, Executor(policy), k, i);
    }
  }

  /** Folding the deltas of a run gives its final state, in every field but the timeline, exactly when
      every step was accepted. */
  lemma FoldMatchesRunExactlyWhen(s: State, ops: seq<Op>, policy: PolicyRec)
    ensures NoTimeline(FoldDeltas(s, RunDeltas(s, ops, policy)).state) == NoTimeline(RunState(s, ops, Executor(policy)))
       <==> AllAccepted(s, ops, Executor(policy))
  {
    var run := RunDeltas(s, ops, policy);
    FoldKeepsLogs(s, run);
    ViolationsTellDenials(s, ops, policy);
    if AllAccepted(s, ops, Executor(policy)) {
      RunIsChained(s, ops, policy);
      AcceptedRunIsFaithful(s, ops, policy);
      FoldingChain(run, RunStates(s, ops, policy), |run|);
      assert run[..|run|] == run;
    }
  }

  /** From any arrangement of the deltas of a run, the baseline and a sequence number rebuild the live
      state at that point, in every field but the timeline, exactly when every step so far was
      accepted. */
  lemma ReconstructionMatchesLiveExactlyWhen(s: State, ops: seq<Op>, policy: PolicyRec, deltas: seq<Delta>, k: nat)
    requires multiset(deltas) == multiset(RunDeltas(s, ops, policy))
    requires k <= |ops| && s.seqNo >= 0
    ensures Rebuilds(s, deltas, s.seqNo + k, RunStates(s, ops, policy)[k]) <==> AllAccepted(s, ops[..k], Executor(policy))
  {
    RunIsChained(s, ops, policy);
    ReconstructionFoldsPrefix(s, RunDeltas(s, ops, policy), RunStates(s, ops, policy), deltas, k);
    RunPrefix(s, ops, policy, k);
    FoldKeepsLogs(s, RunDeltas(s, ops[..k], policy));
    FoldMatchesRunExactlyWhen(s, ops[..k], policy);
  }

  /** Folding all the deltas of a run, in any arrangement, gives its final seq; and its final state, in
      every field but the timeline, exactly when every step was accepted. */
  lemma DeltaFoldMatchesLiveExactlyWhen(s: State, ops: seq<Op>, policy: PolicyRec, deltas: seq<Delta>)
    requires multiset(deltas) == multiset(RunDeltas(s, ops, policy))
    ensures var r := ApplyDeltas(s, deltas, -1);
            && r.ok && r.state.timeline == s.timeline
            && r.seqNo == (if ops == [] then 0 else RunState(s, ops, Executor(policy)).seqNo)
            && (NoTimeline(r.state) == NoTimeline(RunState(s, ops, Executor(policy))) <==> AllAccepted(s, ops, Executor(policy)))
  {
    var run, states := RunDeltas(s, ops, policy), RunStates(s, ops, policy);
    RunIsChained(s, ops, policy);
    SortingRestoresWhole(run, states, deltas);
    FoldKeepsLogs(s, run);
    FoldMatchesRunExactlyWhen(s, ops, policy);
    assert run != [] ==> Links(run[|run| - 1], states[|run| - 1], states[|run|]);
  }

  // ---------- Deltas that no step made ----------

  /** The delta sorts before one with this seq, when those in `front` come before it in the log. */
  predicate ComesFirst(r: Delta, front: seq<Delta>, seqNo: int) {
    r.seqNo < seqNo || (r.seqNo == seqNo && r in front)
  }

  /** How many deltas of the chain sort before one with this seq. */
  function SortsAt(run: seq<Delta>, front: seq<Delta>, seqNo: int): (i: nat)
    ensures i <= |run|
  {
    if run == [] || !ComesFirst(run[0], front, seqNo) then 0 else 1 + SortsAt(run[1..], front, seqNo)
  }

  lemma {:induction false} SortsAtDivides(run: seq<Delta>, front: seq<Delta>, seqNo: int)
    requires StrictlyAscending(run, SeqKey())
    ensures forall j :: 0 <= j < |run| ==> (ComesFirst(run[j], front, seqNo) <==> j < SortsAt(run, front, seqNo))
  {
    if run != [] {
      assert forall j :: 0 < j < |run| ==> SeqKey()(run[0]) < SeqKey()(run[j]);
      if ComesFirst(run[0], front, seqNo) {
        SortsAtDivides(run[1..], front, seqNo);
        forall j | 0 <= j < |run| ensures ComesFirst(run[j], front, seqNo) <==> j < SortsAt(run, front, seqNo) {
          assert j > 0 ==> run[1..][j - 1] == run[j];
        }
      }
    }
  }

  lemma {:induction false} WithKeyMembers(xs: seq<Delta>, k: int)
    ensures forall d :: d in WithKey(xs, SeqKey(), k) <==> d in xs && d.seqNo == k
  {
    if xs != [] {
      WithKeyMembers(xs[1..], k);
    }
  }

  lemma {:induction false} WithKeyIsShort(run: seq<Delta>, k: int)
    requires StrictlyAscending(run, SeqKey())
    ensures |WithKey(run, SeqKey(), k)| <= 1
  {
    if run != [] {
      assert forall j :: 0 < j < |run| ==> SeqKey()(run[0]) < SeqKey()(run[j]);
      WithKeyIsShort(run[1..], k);
      if run[0].seqNo == k {
        WithKeyIsEmpty(run[1..], SeqKey(), k);
      }
    }
  }

  lemma HalvesAgree<T>(a: seq<T>, b: seq<T>, c: seq<T>, d: seq<T>)
    requires a + b == c + d && |a + b| <= 1
    requires forall x :: (x in a ==> x !in d) && (x in b ==> x !in c)
    ensures a == c && b == d
  {
    assert a != [] ==> a[0] == (a + b)[0] && a[0] in a;
    assert d != [] ==> d[0] == (c + d)[|c|] && d[0] in d;
    assert c != [] ==> c[0] == (c + d)[0] && c[0] in c;
    assert b != [] ==> b[0] == (a + b)[|a|] && b[0] in b;
  }

  lemma WithKeySplitsAround(front: seq<Delta>, d: Delta, back: seq<Delta>, k: int)
    ensures WithKey(front + [d] + back, SeqKey(), k)
         == WithKey(front, SeqKey(), k) + (if d.seqNo == k then [d] else []) + WithKey(back, SeqKey(), k)
  {
    WithKeySplits(front + [d], back, SeqKey(), k);
    WithKeySplits(front, [d], SeqKey(), k);
    assert WithKey([d], SeqKey(), k) == if d.seqNo == k then [d] else [];
  }

  /** The chain's delta of this seq, if any, is in the same half of the log and of the chain. */
  lemma HalvesKeepKey(run: seq<Delta>, front: seq<Delta>, back: seq<Delta>, k: int)
    requires StrictlyAscending(run, SeqKey()) && SortDeltas(front + back) == run && NoneTwice(front, back)
    ensures var i := SortsAt(run, front, k);
            WithKey(front, SeqKey(), k) == WithKey(run[..i], SeqKey(), k) && WithKey(back, SeqKey(), k) == WithKey(run[i..], SeqKey(), k)
  {
    var i := SortsAt(run, front, k);
    var wf, wb, wl, wr := WithKey(front, SeqKey(), k), WithKey(back, SeqKey(), k), WithKey(run[..i], SeqKey(), k), WithKey(run[i..], SeqKey(), k);
    SortsAtDivides(run, front, k);
    HalvesJoin(run, front, back, i, k);
    WithKeyIsShort(run, k);
    WithKeyMembers(front, k);
    WithKeyMembers(back, k);
    WithKeyMembers(run[..i], k);
    WithKeyMembers(run[i..], k);
    HalvesAgree(wf, wb, wl, wr);
  }

  lemma HalvesJoin(run: seq<Delta>, front: seq<Delta>, back: seq<Delta>, i: nat, k: int)
    requires SortDeltas(front + back) == run && i <= |run|
    ensures WithKey(front, SeqKey(), k) + WithKey(back, SeqKey(), k) == WithKey(run[..i], SeqKey(), k) + WithKey(run[i..], SeqKey(), k)
    ensures WithKey(run[..i], SeqKey(), k) + WithKey(run[i..], SeqKey(), k) == WithKey(run, SeqKey(), k)
  {
    SortIsStable(front + back, SeqKey(), k);
    WithKeySplits(front, back, SeqKey(), k);
    WithKeySplits(run[..i], run[i..], SeqKey(), k);
    assert run[..i] + run[i..] == run;
  }

  lemma AddedKeepsKeys(run: seq<Delta>, front: seq<Delta>, d: Delta, back: seq<Delta>, k: int)
    requires StrictlyAscending(run, SeqKey()) && SortDeltas(front + back) == run && NoneTwice(front, back)
    ensures var i := SortsAt(run, front, d.seqNo);
            WithKey(front + [d] + back, SeqKey(), k) == WithKey(run[..i] + [d] + run[i..], SeqKey(), k)
  {
    var i := SortsAt(run, front, d.seqNo);
    if k == d.seqNo {
      HalvesKeepKey(run, front, back, k);
    } else {
      HalvesJoin(run, front, back, i, k);
    }
    KeysAround(front, back, run[..i], run[i..], d, k);
  }

  lemma KeysAround(front: seq<Delta>, back: seq<Delta>, left: seq<Delta>, right: seq<Delta>, d: Delta, k: int)
    requires if k == d.seqNo then WithKey(front, SeqKey(), k) == WithKey(left, SeqKey(), k) && WithKey(back, SeqKey(), k) == WithKey(right, SeqKey(), k)
             else WithKey(front, SeqKey(), k) + WithKey(back, SeqKey(), k) == WithKey(left, SeqKey(), k) + WithKey(right, SeqKey(), k)
    ensures WithKey(front + [d] + back, SeqKey(), k) == WithKey(left + [d] + right, SeqKey(), k)
  {
    WithKeySplitsAround(front, d, back, k);
    WithKeySplitsAround(left, d, right, k);
    JoinsAround(WithKey(front, SeqKey(), k), WithKey(back, SeqKey(), k), WithKey(left, SeqKey(), k), WithKey(right, SeqKey(), k),
                if d.seqNo == k then [d] else []);
  }

  lemma JoinsAround<T>(a: seq<T>, b: seq<T>, c: seq<T>, d: seq<T>, middle: seq<T>)
    requires if middle == [] then a + b == c + d else a == c && b == d
    ensures a + middle + b == c + middle + d
  {
    assert a + [] == a && c + [] == c;
  }

  /** No delta is in both parts of the log. */
  ghost predicate NoneTwice(front: seq<Delta>, back: seq<Delta>) {
    forall x :: x in front ==> x !in back
  }

  lemma ArrangedHasNoneTwice(run: seq<Delta>, front: seq<Delta>, back: seq<Delta>)
    requires StrictlyAscending(run, SeqKey()) && multiset(front + back) == multiset(run)
    ensures NoneTwice(front, back)
  {
    forall x | x in front ensures x !in back {
      AppearsOnce(run, x);
      assert multiset(front + back) == multiset(front) + multiset(back);
      assert x in multiset(front) && (x in back ==> x in multiset(back));
    }
  }

  lemma {:induction false} AppearsOnce(run: seq<Delta>, x: Delta)
    requires StrictlyAscending(run, SeqKey())
    ensures multiset(run)[x] <= 1
  {
    if run != [] {
      assert run == [run[0]] + run[1..];
      AppearsOnce(run[1..], x);
      assert forall j :: 0 < j < |run| ==> SeqKey()(run[0]) < SeqKey()(run[j]);
      assert run[0] !in run[1..];
    }
  }

  lemma AddedAscends(run: seq<Delta>, front: seq<Delta>, d: Delta)
    requires StrictlyAscending(run, SeqKey())
    ensures var i := SortsAt(run, front, d.seqNo); Ascending(run[..i] + [d] + run[i..], SeqKey())
  {
    SortsAtDivides(run, front, d.seqNo);
  }

  /** Where a delta added to a log of the chain ends up. */
  lemma AddedSortsAt(run: seq<Delta>, states: seq<State>, front: seq<Delta>, d: Delta, back: seq<Delta>)
    requires Chained(run, states) && multiset(front + back) == multiset(run)
    ensures var i := SortsAt(run, front, d.seqNo);
            SortDeltas(front + [d] + back) == run[..i] + [d] + run[i..]
  {
    var i := SortsAt(run, front, d.seqNo);
    ChainAscends(run, states);
    SortingRestoresWhole(run, states, front + back);
    ArrangedHasNoneTwice(run, front, back);
    SortByIsSorted(front + [d] + back, SeqKey());
    AddedAscends(run, front, d);
    forall k ensures WithKey(SortDeltas(front + [d] + back), SeqKey(), k) == WithKey(run[..i] + [d] + run[i..], SeqKey(), k) {
      SortIsStable(front + [d] + back, SeqKey(), k);
      AddedKeepsKeys(run, front, d, back, k);
    }
    StableOrderIsUnique(SortDeltas(front + [d] + back), run[..i] + [d] + run[i..], SeqKey());
  }

  /** A check that got through a list goes on as a check from there. */
  lemma {:induction false} CheckGoesOn(baselineHash: Digest, a: seq<Delta>, b: seq<Delta>)
    requires FoldCheck(baselineHash, a).ok
    ensures var whole, rest := FoldCheck(baselineHash, a + b), FoldCheck(FoldCheck(baselineHash, a).prevHash, b);
            whole.ok == rest.ok && whole.prevHash == rest.prevHash
    decreases |b|
  {
    if b == [] {
      assert a + b == a;
    } else {
      var front, d := b[..|b| - 1], b[|b| - 1];
      CheckGoesOn(baselineHash, a, front);
      assert a + b == (a + front) + [d];
      CheckAppends(baselineHash, a + front, d);
    }
  }

  lemma ChainTail(run: seq<Delta>, states: seq<State>, i: nat)
    requires Chained(run, states) && i <= |run|
    ensures Chained(run[i..], states[i..])
    ensures FoldCheck(OfState(states[0]), run[..i]).ok && FoldCheck(OfState(states[0]), run[..i]).prevHash == OfState(states[i])
    ensures FoldCheck(OfState(states[i]), run[i..]).ok
    ensures i < |run| ==> run[i].stateBeforeHash == OfState(states[i])
  {
    forall j | 0 <= j < |run| - i ensures Links(run[i..][j], states[i..][j], states[i..][j + 1]) {
      assert Links(run[i + j], states[i + j], states[i + j + 1]);
    }
    assert i < |run| ==> Links(run[i], states[i], states[i + 1]);
    CheckPassesChainPrefix(run, states, run[..i]);
    CheckPassesChainPrefix(run[i..], states[i..], run[i..]);
    assert run[i..][..|run| - i] == run[i..];
  }

  lemma {:induction false} WrongStartFails(hash: Digest, deltas: seq<Delta>)
    requires deltas != [] && deltas[0].stateBeforeHash != hash
    ensures !FoldCheck(hash, deltas).ok
  {
    CheckAppends(hash, [], deltas[0]);
    assert [] + [deltas[0]] == [deltas[0]];
    BrokenCheckStays(hash, [deltas[0]], deltas[1..]);
    assert deltas == [deltas[0]] + deltas[1..];
  }

  /** A chain with one delta more in it passes the check exactly when that starts from the state where
      it stands, and ends there too or is the last. */
  lemma ChainAdmitsExactlyWhen(run: seq<Delta>, states: seq<State>, d: Delta, i: nat)
    requires Chained(run, states) && i <= |run|
    ensures FoldCheck(OfState(states[0]), run[..i] + [d] + run[i..]).ok
       <==> d.stateBeforeHash == OfState(states[i]) && (i == |run| || d.stateAfterHash == OfState(states[i]))
  {
    var h := OfState(states[0]);
    ChainTail(run, states, i);
    CheckAppends(h, run[..i], d);
    if d.stateBeforeHash == OfState(states[i]) {
      CheckGoesOn(h, run[..i] + [d], run[i..]);
      if i < |run| && d.stateAfterHash != OfState(states[i]) {
        WrongStartFails(d.stateAfterHash, run[i..]);
      }
    } else {
      BrokenCheckStays(h, run[..i] + [d], run[i..]);
    }
  }

  /** A delta added anywhere in any arrangement of a run's deltas goes unnoticed exactly when its
      before-hash is that of the state where its seq sorts, and its after-hash is the same, or it comes
      last. */
  lemma AdditionPassesExactlyWhen(s: State, ops: seq<Op>, policy: PolicyRec, front: seq<Delta>, d: Delta, back: seq<Delta>)
    requires multiset(front + back) == multiset(RunDeltas(s, ops, policy))
    ensures var i := SortsAt(RunDeltas(s, ops, policy), front, d.seqNo);
            var here := OfState(RunStates(s, ops, policy)[i]);
            (VerifyDeltaChain(OfState(s), front + [d] + back).ok <==>
             d.stateBeforeHash == here && (i == |ops| || d.stateAfterHash == here))
  {
    var run, states := RunDeltas(s, ops, policy), RunStates(s, ops, policy);
    RunIsChained(s, ops, policy);
    AddedSortsAt(run, states, front, d, back);
    ChainAdmitsExactlyWhen(run, states, d, SortsAt(run, front, d.seqNo));
  }

  /** A delta that claims the state after `i` steps as both its ends. */
  function ForgedDelta(here: State, patches: seq<Patch>, kind: string, actor: string, receiptDigest: Digest): Delta {
    Delta(here.seqNo, kind, actor, patches, [], OfState(here), OfState(here), receiptDigest)
  }

  lemma SortsAfterPrefix(run: seq<Delta>, states: seq<State>, i: nat)
    requires Chained(run, states) && i <= |run|
    ensures SortsAt(run, run[..i], states[i].seqNo) == i
  {
    ChainAscends(run, states);
    SortsAtDivides(run, run[..i], states[i].seqNo);
    assert states[i].seqNo == states[0].seqNo + i;
    forall j | 0 <= j < |run| ensures ComesFirst(run[j], run[..i], states[i].seqNo) <==> j < i {
      assert j < i ==> run[..i][j] == run[j];
    }
    assert i < |run| ==> !ComesFirst(run[i], run[..i], states[i].seqNo);
    assert i > 0 ==> ComesFirst(run[i - 1], run[..i], states[i].seqNo);
  }

  lemma {:induction false} UpToSplits(a: seq<Delta>, b: seq<Delta>, maxSeq: int)
    requires (forall i :: 0 <= i < |a| ==> a[i].seqNo <= maxSeq) && (forall i :: 0 <= i < |b| ==> b[i].seqNo > maxSeq)
    ensures UpTo(a + b, maxSeq) == a
  {
    if a == [] {
      assert a + b == b;
      NothingUpTo(b, maxSeq);
    } else {
      assert (a + b)[0] == a[0] && (a + b)[1..] == a[1..] + b;
      UpToSplits(a[1..], b, maxSeq);
      assert a == [a[0]] + a[1..];
    }
  }

  lemma ForgedDeltaIsRebuilt(s: State, ops: seq<Op>, policy: PolicyRec, i: nat, d: Delta)
    requires i <= |ops| && AllAccepted(s, ops[..i], Executor(policy))
    ensures NoTimeline(FoldDeltas(s, RunDeltas(s, ops, policy)[..i] + [d]).state)
         == NoTimeline(ApplyDelta(RunStates(s, ops, policy)[i], d))
  {
    var front := RunDeltas(s, ops, policy)[..i];
    RunPrefix(s, ops, policy, i);
    FoldMatchesRunExactlyWhen(s, ops[..i], policy);
    assert (front + [d])[..i] == front;
    ApplyDeltaIgnoresTimeline(FoldDeltas(s, front).state, RunStates(s, ops, policy)[i], d);
  }

  lemma ForgedDeltaSorts(run: seq<Delta>, states: seq<State>, i: nat, d: Delta)
    requires Chained(run, states) && i <= |run| && d.seqNo == states[i].seqNo
    ensures SortsAt(run, run[..i], d.seqNo) == i
    ensures SortDeltas(run[..i] + [d] + run[i..]) == run[..i] + [d] + run[i..]
  {
    assert run[..i] + run[i..] == run;
    SortsAfterPrefix(run, states, i);
    AddedSortsAt(run, states, run[..i], d, run[i..]);
  }

  lemma UpToForgedDelta(run: seq<Delta>, states: seq<State>, i: nat, d: Delta)
    requires Chained(run, states) && i <= |run| && d.seqNo == states[i].seqNo
    ensures UpTo(run[..i] + [d] + run[i..], d.seqNo) == run[..i] + [d]
  {
    ChainAscends(run, states);
    assert states[i].seqNo == states[0].seqNo + i;
    forall j | 0 <= j < i + 1 ensures (run[..i] + [d])[j].seqNo <= d.seqNo {
      assert j < i ==> (run[..i] + [d])[j] == run[j];
    }
    forall j | 0 <= j < |run| - i ensures run[i..][j].seqNo > d.seqNo {
      assert run[i..][j] == run[i + j];
    }
    UpToSplits(run[..i] + [d], run[i..], d.seqNo);
  }

  lemma ForgedDeltaVerifies(s: State, ops: seq<Op>, policy: PolicyRec, i: nat, d: Delta)
    requires i <= |ops|
    requires var here := RunStates(s, ops, policy)[i];
             d.seqNo == here.seqNo && d.stateBeforeHash == OfState(here) && d.stateAfterHash == OfState(here)
    ensures var run := RunDeltas(s, ops, policy); VerifyDeltaChain(OfState(s), run[..i] + [d] + run[i..]).ok
  {
    RunIsChained(s, ops, policy);
    ForgedDeltaSorts(RunDeltas(s, ops, policy), RunStates(s, ops, policy), i, d);
    ChainAdmitsExactlyWhen(RunDeltas(s, ops, policy), RunStates(s, ops, policy), d, i);
  }

  lemma ForgedDeltaReconstructs(s: State, ops: seq<Op>, policy: PolicyRec, i: nat, d: Delta)
    requires i <= |ops| && s.seqNo >= 0 && d.seqNo == RunStates(s, ops, policy)[i].seqNo
    ensures var run := RunDeltas(s, ops, policy);
            ReconstructAt(s, run[..i] + [d] + run[i..], d.seqNo) == FoldDeltas(s, run[..i] + [d])
  {
    var run, states := RunDeltas(s, ops, policy), RunStates(s, ops, policy);
    RunIsChained(s, ops, policy);
    ForgedDeltaSorts(run, states, i, d);
    UpToForgedDelta(run, states, i, d);
    assert states[i].seqNo == s.seqNo + i;
  }

  /** Such a delta passes the check at any point of any run, with any patches; and where the run was
      accepted so far, the state rebuilt at that point is the live one with those patches applied. */
  lemma ForgedDeltaPasses(s: State, ops: seq<Op>, policy: PolicyRec, i: nat, patches: seq<Patch>, kind: string, actor: string, rd: Digest)
    requires i <= |ops| && s.seqNo >= 0
    ensures var run, here := RunDeltas(s, ops, policy), RunStates(s, ops, policy)[i];
            var d := ForgedDelta(here, patches, kind, actor, rd);
            var log := run[..i] + [d] + run[i..];
            && VerifyDeltaChain(OfState(s), log).ok
            && (AllAccepted(s, ops[..i], Executor(policy)) ==>
                  NoTimeline(ReconstructAt(s, log, here.seqNo).state) == NoTimeline(ApplyDelta(here, d)))
  {
    var d := ForgedDelta(RunStates(s, ops, policy)[i], patches, kind, actor, rd);
    ForgedDeltaVerifies(s, ops, policy, i, d);
    ForgedDeltaReconstructs(s, ops, policy, i, d);
    if AllAccepted(s, ops[..i], Executor(policy)) {
      ForgedDeltaIsRebuilt(s, ops, policy, i, d);
    }
  }

  // ---------- Replay of an edit log ----------

  function EditOps(actor: Actor, log: seq<seq<Patch>>): (r: seq<Op>)
    ensures |r| == |log|
  {
    seq(|log|, i requires 0 <= i < |log| => Edit(actor, log[i]))
  }

  /** The events a client would submit to replay an edit log. */
  function EditEvents(kind: string, log: seq<seq<Patch>>): (r: seq<ReplayEvent>)
    ensures |r| == |log|
  {
    seq(|log|, i requires 0 <= i < |log| => ReplayEvent(kind, ToolInput("none", log[i]), None))
  }

  lemma EditMirrorsTransition(actor: Actor, patches: seq<Patch>, kind: string, before: State, mirror: State, g: Setting)
    requires NoTimeline(before) == NoTimeline(mirror) && g.actor == actor
    ensures var live := HumanStateEdit(actor, before, g.policy, patches);
            var again := Transition(kind, g.actor, ToolInput("none", patches), mirror, g.policy, g.toolVersion);
            && live.ok == again.ok
            && (live.ok ==> NoTimeline(live.state) == NoTimeline(again.state))
  {
    assert mirror == before.(timeline := mirror.timeline);
    OnlyApprovalsMatter(g.policy.rules, before, mirror, actor, ToolInput("none", patches));
    PatchesIgnoreTimeline(before, mirror, patches);
  }

  /** The two steps give the same verdict on states that differ in timeline only, and on acceptance
      lead to such states again. */
  ghost predicate Mirrors<A, B>(a: A, b: B, f: (A, State) -> Outcome, g: (B, State) -> Outcome) {
    forall s, t :: NoTimeline(s) == NoTimeline(t) ==> MirrorOutcomes(f(a, s), g(b, t))
  }

  ghost predicate MirrorOutcomes(x: Outcome, y: Outcome) {
    x.ok == y.ok && (x.ok ==> NoTimeline(x.state) == NoTimeline(y.state))
  }

  lemma {:induction false} MirrorRuns<A, B>(s: State, xs: seq<A>, ys: seq<B>, f: (A, State) -> Outcome, g: (B, State) -> Outcome)
    requires |xs| == |ys| && forall i :: 0 <= i < |xs| ==> Mirrors(xs[i], ys[i], f, g)
    requires AllAccepted(s, xs, f)
    ensures AllAccepted(s, ys, g) && NoTimeline(RunState(s, xs, f)) == NoTimeline(RunState(s, ys, g))
    decreases |xs|
  {
    if xs != [] {
      var m := |xs| - 1;
      AcceptedFront(s, xs, f, m);
      MirrorRuns(s, xs[..m], ys[..m], f, g);
      assert At(s, xs, f, m).ok && Mirrors(xs[m], ys[m], f, g);
      assert MirrorOutcomes(f(xs[m], RunState(s, xs[..m], f)), g(ys[m], RunState(s, ys[..m], g)));
      AcceptedGrows(s, ys[..m], ys[m], g);
      assert ys == ys[..m] + [ys[m]];
    }
  }

  lemma EditRunMirrorsReplayRun(s: State, log: seq<seq<Patch>>, kind: string, g: Setting)
    requires AllAccepted(s, EditOps(g.actor, log), Executor(g.policy))
    ensures AllAccepted(s, EditEvents(kind, log), Replayer(g))
    ensures NoTimeline(RunState(s, EditOps(g.actor, log), Executor(g.policy)))
         == NoTimeline(RunState(s, EditEvents(kind, log), Replayer(g)))
  {
    var ops, events := EditOps(g.actor, log), EditEvents(kind, log);
    forall i | 0 <= i < |log| ensures Mirrors(ops[i], events[i], Executor(g.policy), Replayer(g)) {
      forall before, mirror | NoTimeline(before) == NoTimeline(mirror)
        ensures MirrorOutcomes(Executor(g.policy)(ops[i], before), Replayer(g)(events[i], mirror))
      {
        EditMirrorsTransition(g.actor, log[i], kind, before, mirror, g);
      }
    }
    MirrorRuns(s, ops, events, Executor(g.policy), Replayer(g));
  }

  /** Three executors of one accepted edit log agree: replaying it through the governed
      transition succeeds and ends, timeline aside, in the state of the live edit run, which is
      also what any arrangement of the deltas folds to. */
  lemma LiveReplayAndDeltasAgree(s: State, log: seq<seq<Patch>>, kind: string, g: Setting, deltas: seq<Delta>)
    requires AllAccepted(s, EditOps(g.actor, log), Executor(g.policy))
    requires multiset(deltas) == multiset(RunDeltas(s, EditOps(g.actor, log), g.policy))
    ensures var live := RunState(s, EditOps(g.actor, log), Executor(g.policy));
            var replayed := Replay(s, EditEvents(kind, log), g).progress;
            && replayed.ok && replayed.step == |log|
            && NoTimeline(replayed.state) == NoTimeline(live)
            && NoTimeline(ApplyDeltas(s, deltas, -1).state) == NoTimeline(live)
            && live.seqNo == s.seqNo + |log|
  {
    EditRunMirrorsReplayRun(s, log, kind, g);
    var events := EditEvents(kind, log);
    ReplayIsLongestAcceptedPrefix(s, events, g);
    DeltaFoldMatchesLiveExactlyWhen(s, EditOps(g.actor, log), g.policy, deltas);
    RunCountsSteps(s, EditOps(g.actor, log), g.policy);
  }
}
