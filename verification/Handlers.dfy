/** The two API handlers that advance a workflow (acpd/internal/api/workflows.go): read the latest
    snapshot, compute the successor, commit it. */
module Handlers {
  import opened Records
  import opened Policy
  import opened Runs
  import opened Runtime
  import opened Tables
  import opened CommitProtocol
  import opened History
  import opened Store

  datatype Reply = NotFound | Denied(denied: Outcome) | CommitFailed(error: StoreError) | Committed(outcome: Outcome)

  /** What a handler answers, and what the tables then hold, when nobody interferes. */
  function HandlerEffect(t: DbState, id: string, op: Op, policy: PolicyRec): (Reply, DbState) {
    var snap := LatestSnapshot(t, id);
    if snap.None? then (NotFound, t)
    else
      var out := Executor(policy)(op, snap.value.state);
      if !out.ok then (Denied(out), t)
      else
        match CommitOf(t, id, snap.value.state, op, Executor(policy))
        case Ok(u) => (Committed(out), u)
        case Err(e) => (CommitFailed(e), t)
  }

  method EditState(db: DB, id: string, actor: Actor, policy: PolicyRec, requested: seq<Patch>) returns (reply: Reply)
    modifies db
    ensures (reply, db.View()) == HandlerEffect(old(db.View()), id, Edit(actor, requested), policy)
  {
    var snap := LatestSnapshot(db.View(), id);
    if snap.None? {
      return NotFound;
    }
    var result := HumanStateEdit(actor, snap.value.state, policy, requested);
    if !result.ok {
      return Denied(result);
    }
    var patches: seq<Patch> := [];
    for i := 0 to |requested|
      invariant patches == requested[..i]
    {
      patches := patches + [Patch(requested[i].path, requested[i].value)];
    }
    assert patches == requested;
    var err := db.CommitTransition(id, Bridge(result), patches, "human_state_edit", actor.id);
    reply := if err.Some? then CommitFailed(err.value) else Committed(result);
  }

  method CommitArtifact(db: DB, id: string, actor: Actor, policy: PolicyRec, toolVersion: string, artifact: Digest) returns (reply: Reply)
    modifies db
    ensures (reply, db.View()) == HandlerEffect(old(db.View()), id, Artifact(actor, toolVersion, artifact), policy)
  {
    var snap := LatestSnapshot(db.View(), id);
    if snap.None? {
      return NotFound;
    }
    var result := Runtime.CommitArtifact(actor, snap.value.state, policy, toolVersion, artifact);
    if !result.ok {
      return Denied(result);
    }
    var err := db.CommitArtifactRow(id, artifact, Bridge(result), actor.id);
    reply := if err.Some? then CommitFailed(err.value) else Committed(result);
  }

  /** A commit from the latest snapshot goes through and records its step. */
  lemma LatestCommits(t: DbState, id: string, op: Op, f: Exec)
    requires Sane(f) && (forall w :: WellFormed(t, w, f)) && LatestSnapshot(t, id).Some? && !op.Transit?
    ensures id in t.workflows
    ensures var out := f(op, LatestSnapshot(t, id).value.state);
            out.ok ==> var commit := CommitOf(t, id, LatestSnapshot(t, id).value.state, op, f);
                       commit.Ok? && RecordsNext(t, commit.value, id, op, out)
  {
    LatestIsHeld(t, id, f);
    var base := LatestSnapshot(t, id).value.state;
    CommitSucceedsExactlyWhenLatest(t, id, base, op, f);
    assert Receipted(base, f(op, base));
    if f(op, base).ok {
      CommitRecordsOutcome(t, id, base, op, f);
      CommitSummarizes(t, id, base, op, f);
    }
  }

  /** What a handler does, without interference, in any store the clients can reach: nothing, for a workflow
      without a snapshot; nothing, for a step that the policy denies from the latest state; and otherwise
      it commits that very step. */
  lemma UninterruptedHandlersDo(schedule: seq<(nat, Action)>, policy: PolicyRec, id: string, op: Op)
    requires !op.Transit?
    ensures var t := Reached(schedule, policy).db;
            var (reply, u) := HandlerEffect(t, id, op, policy);
            match LatestSnapshot(t, id)
            case None => reply == NotFound && u == t
            case Some(snap) =>
              var out := Executor(policy)(op, snap.state);
              && id in t.workflows
              && (if out.ok then reply == Reply.Committed(out) && RecordsNext(t, u, id, op, out) else reply == Denied(out) && u == t)
  {
    var t := Reached(schedule, policy).db;
    ReachableStoresAreSound(schedule, policy);
    RuntimeIsSane(policy);
    if LatestSnapshot(t, id).Some? {
      LatestCommits(t, id, op, Executor(policy));
    }
  }

  /** Without interference a handler's commit never fails, in any store the clients can reach. */
  lemma UninterruptedHandlersCommit(schedule: seq<(nat, Action)>, policy: PolicyRec, id: string, op: Op)
    ensures !HandlerEffect(Reached(schedule, policy).db, id, op, policy).0.CommitFailed?
  {
    var t, f := Reached(schedule, policy).db, Executor(policy);
    ReachableStoresAreSound(schedule, policy);
    RuntimeIsSane(policy);
    if LatestSnapshot(t, id).Some? {
      assert WellFormed(t, id, f);
      LatestIsHeld(t, id, f);
      CommitSucceedsExactlyWhenLatest(t, id, LatestSnapshot(t, id).value.state, op, f);
    }
  }
}
