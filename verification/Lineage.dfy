/** Forks and counterfactual replays (src/acp/lineage.fard). */
module Lineage {
  import opened Records
  import opened WorkflowState
  import opened Policy
  import opened Receipts
  import opened Runs
  import opened Runtime
  import opened Replays

  function MakeBranch(branchId: string, parentId: string, pointSeq: int, pointHash: Digest, reason: string): Branch {
    Branch(branchId, parentId, pointSeq, pointHash, reason, OfBranchPoint(branchId, parentId, pointSeq))
  }

  function Fork(parent: State, newId: string, pointSeq: int, reason: string): State {
    var branch := MakeBranch(newId, parent.workflowId, pointSeq, OfState(parent), reason);
    parent.(workflowId := newId, seqNo := 0, timeline := [], violations := [], lineage := Some(branch))
  }

  function EventsUpTo(events: seq<ReplayEvent>, pointSeq: int): seq<ReplayEvent> {
    if events == [] then []
    else
      (if events[0].seqNo.Some? && events[0].seqNo.value <= pointSeq then [events[0]] else [])
      + EventsUpTo(events[1..], pointSeq)
  }

  datatype ForkResult = Forked(state: State) | ReplayFailedAtBranchPoint(replay: ReplayResult)

  function ForkFromReplay(s: State, events: seq<ReplayEvent>, g: Setting, pointSeq: int, newId: string, reason: string): ForkResult {
    var r := Replay(s, EventsUpTo(events, pointSeq), g);
    if !r.progress.ok then ReplayFailedAtBranchPoint(r)
    else Forked(Fork(r.progress.state, newId, pointSeq, reason))
  }

  datatype Counterfactual = Counterfactual(
    ok: bool, state: State, receipts: seq<Receipt>, chainRoot: Digest,
    branchId: string, parentId: Option<string>, branchPointSeq: Option<int>)

  function RunCounterfactual(forked: State, events: seq<ReplayEvent>, g: Setting): Counterfactual {
    var r := Replay(forked, events, g);
    Counterfactual(r.progress.ok, r.progress.state, r.progress.receipts, r.chainRoot, forked.workflowId,
                   if forked.lineage.Some? then Some(forked.lineage.value.parentId) else None,
                   if forked.lineage.Some? then Some(forked.lineage.value.branchPointSeq) else None)
  }

  function SnapshotOf(s: State): LogicalSnapshot {
    LogicalSnapshot(s.stage, s.variables, s.finalDecision, |s.artifacts|, |s.approvals|)
  }

  datatype BranchComparison = BranchComparison(logicalConverged: bool, chainsIndependent: bool, originalOk: bool, counterfactualOk: bool)

  function CompareBranches(original: ReplayResult, other: Counterfactual): BranchComparison {
    BranchComparison(OfSnapshot(SnapshotOf(original.progress.state)) == OfSnapshot(SnapshotOf(other.state)),
                     original.chainRoot != other.chainRoot, original.progress.ok, other.ok)
  }

  /** What a fork is: the parent under the new id at seq 0, its timeline and violations emptied, with a
      branch record that names parent, point, reason and the digest of the parent's state. */
  lemma ForkIs(parent: State, newId: string, pointSeq: int, reason: string)
    ensures var forked := Fork(parent, newId, pointSeq, reason);
            && forked == parent.(workflowId := newId, seqNo := 0, timeline := [], violations := [], lineage := forked.lineage)
            && forked.lineage.Some?
            && var b := forked.lineage.value;
               && b.branchId == newId && b.parentId == parent.workflowId && b.branchPointSeq == pointSeq && b.reason == reason
               && b.branchPointHash == OfState(parent) && b.createdAtDigest == OfBranchPoint(newId, parent.workflowId, pointSeq)
  {
  }

  /** Two branches are reported converged exactly when their stages, variables and final decisions are
      equal and they count as many artifacts and approvals; and independent exactly when their receipts'
      digests differ. */
  lemma BranchesConvergeExactlyWhen(s: State, a: seq<ReplayEvent>, t: State, b: seq<ReplayEvent>, g: Setting, h: Setting)
    ensures var original, other := Replay(s, a, g), RunCounterfactual(t, b, h);
            var c := CompareBranches(original, other);
            && (c.logicalConverged <==>
                  && original.progress.state.stage == other.state.stage && original.progress.state.variables == other.state.variables
                  && original.progress.state.finalDecision == other.state.finalDecision
                  && |original.progress.state.artifacts| == |other.state.artifacts|
                  && |original.progress.state.approvals| == |other.state.approvals|)
            && (c.chainsIndependent <==> Digests(original.progress.receipts) != Digests(other.receipts))
            && c.originalOk == original.progress.ok && c.counterfactualOk == other.ok && other.branchId == t.workflowId
  {
    ChainRootIsInjective(Replay(s, a, g).progress.receipts, Replay(t, b, h).progress.receipts);
  }

  /** The events up to a point are, in order, those that carry a seq no later; one without a seq is left
      out. */
  lemma {:induction false} EventsUpToSplits(a: seq<ReplayEvent>, e: ReplayEvent, b: seq<ReplayEvent>, pointSeq: int)
    ensures EventsUpTo(a + [e] + b, pointSeq)
         == EventsUpTo(a, pointSeq)
          + (match e.seqNo case Some(n) => if n <= pointSeq then [e] else [] case None => [])
          + EventsUpTo(b, pointSeq)
  {
    if a == [] {
      assert (a + [e] + b)[0] == e && (a + [e] + b)[1..] == b;
    } else {
      var whole := a + [e] + b;
      assert whole[0] == a[0] && whole[1..] == a[1..] + [e] + b;
      EventsUpToSplits(a[1..], e, b, pointSeq);
    }
  }

  lemma ForkKeepsLogical(parent: State, newId: string, pointSeq: int, reason: string)
    ensures Logical(Fork(parent, newId, pointSeq, reason)) == Logical(parent)
    ensures SnapshotOf(Fork(parent, newId, pointSeq, reason)) == SnapshotOf(parent)
  {
  }

  lemma LogicalDecidesSnapshot(s: State, t: State)
    requires Logical(s) == Logical(t)
    ensures SnapshotOf(s) == SnapshotOf(t)
  {
    assert SnapshotOf(s) == SnapshotOf(Logical(s));
    assert SnapshotOf(t) == SnapshotOf(Logical(t));
  }

  /** The transition judges and patches logically equal states alike. */
  lemma TransitionRespectsLogical(e: ReplayEvent, s: State, t: State, g: Setting)
    requires Logical(s) == Logical(t)
    ensures Replayer(g)(e, s).ok == Replayer(g)(e, t).ok
    ensures Replayer(g)(e, s).policy == Replayer(g)(e, t).policy
    ensures Logical(Replayer(g)(e, s).state) == Logical(Replayer(g)(e, t).state)
  {
    assert t == s.(workflowId := t.workflowId, seqNo := t.seqNo, timeline := t.timeline,
                   violations := t.violations, lineage := t.lineage);
    OnlyApprovalsMatter(g.policy.rules, s, t, g.actor, e.input);
    PatchesActOnLogical(s, t, PatchesOf(e.input));
  }

  /** Replays from logically equal states halt at the same step, for the same violations. */
  lemma {:induction false} ReplayRespectsLogical(s: State, t: State, events: seq<ReplayEvent>, g: Setting)
    requires Logical(s) == Logical(t)
    ensures var p, q := Fold(s, events, Replayer(g)), Fold(t, events, Replayer(g));
            p.ok == q.ok && p.step == q.step && p.failedAt == q.failedAt && p.error == q.error
            && |p.receipts| == |q.receipts| && Logical(p.state) == Logical(q.state)
    decreases |events|
  {
    if events != [] {
      var front := events[..|events| - 1];
      ReplayRespectsLogical(s, t, front, g);
      TransitionRespectsLogical(events[|events| - 1], Fold(s, front, Replayer(g)).state, Fold(t, front, Replayer(g)).state, g);
    }
  }

  /** The chains of replays in two workflows differ as soon as one event has committed. */
  lemma ChainsDifferAcrossWorkflows(s: State, t: State, events: seq<ReplayEvent>, g: Setting)
    requires s.workflowId != t.workflowId
    requires |Replay(s, events, g).progress.receipts| == |Replay(t, events, g).progress.receipts|
    ensures Replay(s, events, g).chainRoot != Replay(t, events, g).chainRoot
       <==> Replay(s, events, g).progress.receipts != []
  {
    var a, b := Replay(s, events, g).progress.receipts, Replay(t, events, g).progress.receipts;
    ChainRootIsInjective(a, b);
    if a != [] {
      ReceiptVerifies(s, events, g, 0);
      ReceiptVerifies(t, events, g, 0);
      assert Digests(a)[0] != Digests(b)[0];
    } else {
      assert Digests(a) == Digests(b);
    }
  }

  /** Replaying the same events on a fork and on its parent: same halting step, same verdicts,
      same logical outcome; and, under different ids, chain roots that differ exactly when at
      least one event committed. */
  lemma CounterfactualConverges(parent: State, newId: string, pointSeq: int, reason: string, events: seq<ReplayEvent>, g: Setting)
    ensures var original := Replay(parent, events, g);
            var other := RunCounterfactual(Fork(parent, newId, pointSeq, reason), events, g);
            var c := CompareBranches(original, other);
            && c.logicalConverged && c.originalOk == c.counterfactualOk
            && |original.progress.receipts| == |other.receipts| == original.progress.step
            && Logical(original.progress.state) == Logical(other.state)
            && other.parentId == Some(parent.workflowId) && other.branchPointSeq == Some(pointSeq)
            && (newId != parent.workflowId ==> (c.chainsIndependent <==> original.progress.step > 0))
  {
    var forked := Fork(parent, newId, pointSeq, reason);
    ForkKeepsLogical(parent, newId, pointSeq, reason);
    ReplayRespectsLogical(parent, forked, events, g);
    ReplayIsLongestAcceptedPrefix(parent, events, g);
    LogicalDecidesSnapshot(Replay(parent, events, g).progress.state, Replay(forked, events, g).progress.state);
    if newId != parent.workflowId {
      ChainsDifferAcrossWorkflows(parent, forked, events, g);
    }
  }

  lemma {:induction false} EventsUpToTakesPrefix(events: seq<ReplayEvent>, base: int, k: nat)
    requires k <= |events| && forall i :: 0 <= i < |events| ==> events[i].seqNo == Some(base + i + 1)
    ensures EventsUpTo(events, base + k) == events[..k]
    decreases |events|
  {
    if events != [] {
      assert forall i :: 0 <= i < |events[1..]| ==> events[1..][i] == events[i + 1];
      if k == 0 {
        NoEventsUpTo(events[1..], base);
      } else {
        EventsUpToTakesPrefix(events[1..], base + 1, k - 1);
      }
    }
  }

  lemma {:induction false} NoEventsUpTo(events: seq<ReplayEvent>, pointSeq: int)
    requires forall i :: 0 <= i < |events| ==> events[i].seqNo.Some? && events[i].seqNo.value > pointSeq
    ensures EventsUpTo(events, pointSeq) == []
  {
    if events != [] {
      NoEventsUpTo(events[1..], pointSeq);
    }
  }

  /** Forking a numbered log at any point and replaying the rest on the branch reaches the same
      logical outcome as replaying the whole log; when the log is denied before the branch
      point, the fork is refused instead. */
  lemma ForkThenRestConverges(s: State, events: seq<ReplayEvent>, g: Setting, k: nat, newId: string, reason: string)
    requires k <= |events| && forall i :: 0 <= i < |events| ==> events[i].seqNo == Some(s.seqNo + i + 1)
    ensures var whole := Replay(s, events, g).progress;
            match ForkFromReplay(s, events, g, s.seqNo + k, newId, reason)
            case ReplayFailedAtBranchPoint(r) => !whole.ok && whole == r.progress && whole.step < k
            case Forked(forked) =>
              var rest := Replay(forked, events[k..], g).progress;
              && whole.step >= k && whole.ok == rest.ok && whole.step == k + rest.step
              && Logical(whole.state) == Logical(rest.state)
              && forked == Fork(RunState(s, events[..k], Replayer(g)), newId, s.seqNo + k, reason)
  {
    EventsUpToTakesPrefix(events, s.seqNo, k);
    assert events == events[..k] + events[k..];
    FoldComposes(s, events[..k], events[k..], Replayer(g));
    FoldHasOutcome(s, events[..k], Replayer(g));
    var first := Fold(s, events[..k], Replayer(g));
    if first.ok {
      ForkKeepsLogical(first.state, newId, s.seqNo + k, reason);
      ReplayRespectsLogical(first.state, Fork(first.state, newId, s.seqNo + k, reason), events[k..], g);
    }
  }
}
