/** What every interleaving of clients leaves in the store: for each workflow one linear,
    permanent, reconstructible history of accepted steps. */
module History {
  import opened Records
  import opened Policy
  import opened Runs
  import opened Runtime
  import opened DeltaLog
  import opened Tables
  import opened CommitProtocol

  lemma RuntimeIsSane(policy: PolicyRec)
    ensures Sane(Executor(policy))
  {
    forall op: Op, s: State ensures Receipted(s, Executor(policy)(op, s)) {
      StepIsReceipted(op, s, policy);
    }
  }

  /** The system after a schedule of client actions, starting from an empty store. */
  function Reached(schedule: seq<(nat, Action)>, policy: PolicyRec): System {
    Execute(START, schedule, Executor(policy))
  }

  /** Whatever the interleaving, every workflow has receipts and deltas at exactly 1..current_seq
      and snapshots at 0..current_seq, each row the outcome of an accepted step from the snapshot
      one seq earlier and naming the previous row's digest, and the summary row agrees with the
      last snapshot. */
  lemma ReachableStoresAreSound(schedule: seq<(nat, Action)>, policy: PolicyRec)
    ensures Inv(Reached(schedule, policy), Executor(policy))
  {
    RuntimeIsSane(policy);
    ExecuteKeepsInv(START, schedule, Executor(policy));
  }

  /** Finishing commits client `c`'s accepted step exactly when the snapshot it started from is still
      the latest; then the new rows record that very step on top of that very snapshot, and otherwise
      the store is left as it was. */
  ghost predicate CommitsExactlyIfLatest(sys: System, c: nat, f: Exec) {
    var t, u, client := sys.db, Step(sys, c, Finish, f).db, ClientOf(sys, c);
    var r := FinishResult(t, client, f);
    && client.Holding? && client.id in t.workflows
    && (r.Ok? <==> LatestSnapshot(t, client.id).Some? && LatestSnapshot(t, client.id).value.state == client.base)
    && (r.Err? ==> u == t)
    && (r.Ok? ==> RecordsNext(t, u, client.id, client.op, f(client.op, client.base)))
  }

  /** The rows after the last ones record this outcome. */
  ghost predicate RecordsNext(t: DbState, u: DbState, id: string, op: Op, out: Outcome)
    requires id in t.workflows
  {
    var q := t.workflows[id].currentSeq + 1;
    && id in u.workflows
    && u.workflows[id] == t.workflows[id].(stage := if out.state.stage.Str? then out.state.stage.s else "", stateHash := OfState(out.state),
                                           currentSeq := q, snapshotSeq := q)
    && (id, q) in u.snapshots && (id, q) in u.receipts && (id, q) in u.deltas
    && IsOutcome(out, op, u.snapshots[(id, q)], u.receipts[(id, q)], u.deltas[(id, q)])
  }

  lemma NoUpdateIsLost(schedule: seq<(nat, Action)>, policy: PolicyRec, c: nat)
    requires var sys := Reached(schedule, policy);
             ClientOf(sys, c).Holding? && Executor(policy)(ClientOf(sys, c).op, ClientOf(sys, c).base).ok
    ensures CommitsExactlyIfLatest(Reached(schedule, policy), c, Executor(policy))
  {
    ReachableStoresAreSound(schedule, policy);
    RuntimeIsSane(policy);
    CommitIsExact(Reached(schedule, policy), c, Executor(policy));
  }

  lemma CommitIsExact(sys: System, c: nat, f: Exec)
    requires Sane(f) && Inv(sys, f) && ClientOf(sys, c).Holding? && f(ClientOf(sys, c).op, ClientOf(sys, c).base).ok
    ensures CommitsExactlyIfLatest(sys, c, f)
  {
    var client := ClientOf(sys, c);
    assert ClientOk(sys.db, sys.clients[c], f);
    CommitSucceedsExactlyWhenLatest(sys.db, client.id, client.base, client.op, f);
    if FinishResult(sys.db, client, f).Ok? {
      CommitAppends(sys.db, client.id, client.base, client.op, f);
      assert Receipted(client.base, f(client.op, client.base));
      CommitRecordsOutcome(sys.db, client.id, client.base, client.op, f);
      CommitSummarizes(sys.db, client.id, client.base, client.op, f);
    }
  }

  lemma CommitSummarizes(t: DbState, id: string, base: State, op: Op, f: Exec)
    requires id in t.workflows && Receipted(base, f(op, base)) && CommitOf(t, id, base, op, f).Ok?
    ensures var u, out := CommitOf(t, id, base, op, f).value, f(op, base);
            && id in u.workflows
            && u.workflows[id] == t.workflows[id].(stage := if out.state.stage.Str? then out.state.stage.s else "", stateHash := OfState(out.state),
                                                   currentSeq := base.seqNo + 1, snapshotSeq := base.seqNo + 1)
  {
  }

  // ---------- Permanence and isolation ----------

  /** What the rest of the store sees of a step on the touched workflow. */
  ghost predicate TouchesOnly(t: DbState, u: DbState, touched: string, f: Exec) {
    && (forall other :: other != touched ==> SameRows(t, u, other))
    && (IsIntact(t, touched, f) && !SameRows(t, u, touched) ==> IsIntact(u, touched, f) && KeepsRows(t, u, touched))
  }

  lemma FinishTouchesOnly(t: DbState, client: Client, f: Exec)
    requires Sane(f) && (forall w :: WellFormed(t, w, f)) && ClientOk(t, client, f)
    ensures match FinishResult(t, client, f)
            case Ok(u) => TouchesOnly(t, u, TargetOf(client), f)
            case Err(_) => true
  {
    FinishTouches(t, client, f);
  }

  /** A step changes the rows of at most one workflow, and of an intact one only by adding to them. */
  lemma StepTouchesOneWorkflow(sys: System, c: nat, a: Action, f: Exec) returns (touched: string)
    requires Sane(f) && Inv(sys, f)
    ensures TouchesOnly(sys.db, Step(sys, c, a, f).db, touched, f)
  {
    touched := "";
    if a.Finish? && c in sys.clients {
      assert ClientOk(sys.db, sys.clients[c], f);
      FinishTouchesOnly(sys.db, sys.clients[c], f);
      touched := TargetOf(sys.clients[c]);
    } else if a.BeginCreate? {
      touched := a.id;
    }
  }

  lemma StepKeepsHistory(sys: System, c: nat, a: Action, f: Exec, id: string)
    requires Sane(f) && Inv(sys, f) && IsIntact(sys.db, id, f)
    ensures IsIntact(Step(sys, c, a, f).db, id, f) && KeepsRows(sys.db, Step(sys, c, a, f).db, id)
  {
    var touched := StepTouchesOneWorkflow(sys, c, a, f);
    if SameRows(sys.db, Step(sys, c, a, f).db, id) {
      SameRowsKeeps(sys.db, Step(sys, c, a, f).db, id, f);
    }
  }

  lemma {:induction false} RunKeepsHistory(sys: System, schedule: seq<(nat, Action)>, f: Exec, id: string)
    requires Sane(f) && Inv(sys, f) && IsIntact(sys.db, id, f)
    ensures IsIntact(Execute(sys, schedule, f).db, id, f) && KeepsRows(sys.db, Execute(sys, schedule, f).db, id)
    decreases |schedule|
  {
    if schedule != [] {
      var front, last := schedule[..|schedule| - 1], schedule[|schedule| - 1];
      RunKeepsHistory(sys, front, f, id);
      ExecuteKeepsInv(sys, front, f);
      StepKeepsHistory(Execute(sys, front, f), last.0, last.1, f, id);
    }
  }

  /** History is permanent: reading the snapshot at a committed seq gives the state committed there,
      now and after any further actions of any clients. */
  lemma HistoryIsPermanent(before: seq<(nat, Action)>, later: seq<(nat, Action)>, policy: PolicyRec, id: string, k: int)
    requires var t := Reached(before, policy).db;
             id in t.workflows && (id, 0) in t.snapshots && 0 <= k <= t.workflows[id].currentSeq
    ensures var t, u := Reached(before, policy).db, Execute(Reached(before, policy), later, Executor(policy)).db;
            && (id, k) in t.snapshots
            && SnapshotAtSeq(t, id, k) == Some(t.snapshots[(id, k)])
            && SnapshotAtSeq(u, id, k) == Some(t.snapshots[(id, k)])
            && t.snapshots[(id, k)].state.seqNo == k
  {
    var sys, f := Reached(before, policy), Executor(policy);
    ReachableStoresAreSound(before, policy);
    RuntimeIsSane(policy);
    assert WellFormed(sys.db, id, f);
    RunKeepsHistory(sys, later, f, id);
    SnapshotIsRead(sys.db, id, k, f);
    SnapshotIsRead(Execute(sys, later, f).db, id, k, f);
  }

  lemma SnapshotIsRead(t: DbState, id: string, k: int, f: Exec)
    requires IsIntact(t, id, f) && 0 <= k <= t.workflows[id].currentSeq
    ensures (id, k) in t.snapshots && SnapshotAtSeq(t, id, k) == Some(t.snapshots[(id, k)])
    ensures t.snapshots[(id, k)].state.seqNo == k
  {
    LatestOfRange(t.snapshots, id, 0, t.workflows[id].currentSeq);
    assert IdentifiedAt(t.snapshots[(id, k)].state, id, k);
  }

  // ---------- Artifacts ----------

  ghost predicate CommitsArtifact(t: DbState, client: Client, f: Exec, digest: Digest) {
    && client.Holding? && client.op.Artifact? && client.op.digest == digest && f(client.op, client.base).ok
    && FinishResult(t, client, f).Ok?
  }

  /** The artifact table after a client finishes: as before, but for the row of an artifact committed
      for the first time, which names the committing workflow. */
  lemma FinishRecordsArtifacts(t: DbState, client: Client, f: Exec, digest: Digest)
    ensures match FinishResult(t, client, f)
            case Ok(u) =>
              && (digest in u.artifacts <==> digest in t.artifacts || CommitsArtifact(t, client, f, digest))
              && (digest in t.artifacts ==> u.artifacts[digest] == t.artifacts[digest])
              && (digest in u.artifacts && digest !in t.artifacts ==> u.artifacts[digest] == client.id)
            case Err(_) => !CommitsArtifact(t, client, f, digest)
  {
  }

  /** No other step touches it. */
  lemma StepRecordsArtifacts(sys: System, c: nat, a: Action, f: Exec, digest: Digest)
    ensures var before, after := sys.db.artifacts, Step(sys, c, a, f).db.artifacts;
            && (digest in after <==> digest in before || (a.Finish? && CommitsArtifact(sys.db, ClientOf(sys, c), f, digest)))
            && (digest in before ==> after[digest] == before[digest])
            && (digest in after && digest !in before ==> after[digest] == ClientOf(sys, c).id)
  {
    FinishRecordsArtifacts(sys.db, ClientOf(sys, c), f, digest);
  }

  /** An artifact belongs for good to the workflow that committed it first. */
  lemma {:induction false} ArtifactKeepsItsWorkflow(sys: System, schedule: seq<(nat, Action)>, f: Exec, digest: Digest)
    requires digest in sys.db.artifacts
    ensures var after := Execute(sys, schedule, f).db.artifacts;
            digest in after && after[digest] == sys.db.artifacts[digest]
    decreases |schedule|
  {
    if schedule != [] {
      var front, last := schedule[..|schedule| - 1], schedule[|schedule| - 1];
      ArtifactKeepsItsWorkflow(sys, front, f, digest);
      StepRecordsArtifacts(Execute(sys, front, f), last.0, last.1, f, digest);
    }
  }

  // ---------- Linear history ----------

  /** The first k rows of a workflow are a sequential run of these steps. */
  ghost predicate Replays(t: DbState, id: string, ops: seq<Op>, f: Exec)
    requires forall q :: 0 <= q <= |ops| ==> (id, q) in t.snapshots
    requires forall q :: 1 <= q <= |ops| ==> (id, q) in t.receipts && (id, q) in t.deltas
  {
    var s := t.snapshots[(id, 0)].state;
    && AllAccepted(s, ops, f)
    && (forall k :: 0 <= k <= |ops| ==> RunState(s, ops[..k], f) == t.snapshots[(id, k)].state)
    && (forall k :: 0 <= k < |ops| ==> RecordsStep(t, id, k, ops[k], At(s, ops, f, k)))
  }

  ghost predicate RecordsStep(t: DbState, id: string, k: int, op: Op, out: Outcome)
    requires (id, k + 1) in t.receipts && (id, k + 1) in t.deltas
  {
    t.receipts[(id, k + 1)].receipt == out.receipt && t.deltas[(id, k + 1)].delta == DeltaOf(op, out) && !op.Transit?
  }

  lemma RecordsGrow(t: DbState, id: string, front: seq<Op>, op: Op, f: Exec, i: nat)
    requires forall q :: 0 <= q <= |front| + 1 ==> (id, q) in t.snapshots
    requires forall q :: 1 <= q <= |front| + 1 ==> (id, q) in t.receipts && (id, q) in t.deltas
    requires Replays(t, id, front, f) && i < |front|
    ensures RecordsStep(t, id, i, (front + [op])[i], At(t.snapshots[(id, 0)].state, front + [op], f, i))
  {
    var s, ops := t.snapshots[(id, 0)].state, front + [op];
    assert RecordsStep(t, id, i, front[i], At(s, front, f, i));
    assert ops[..|front|] == front;
    AtIgnoresLater(s, ops, f, |front|, i);
  }

  lemma StatesGrow(t: DbState, id: string, front: seq<Op>, op: Op, f: Exec, i: nat)
    requires forall q :: 0 <= q <= |front| + 1 ==> (id, q) in t.snapshots
    requires forall q :: 1 <= q <= |front| + 1 ==> (id, q) in t.receipts && (id, q) in t.deltas
    requires Replays(t, id, front, f) && i <= |front|
    ensures RunState(t.snapshots[(id, 0)].state, (front + [op])[..i], f) == t.snapshots[(id, i)].state
  {
    assert (front + [op])[..i] == front[..i];
  }

  lemma RunEndsAt(t: DbState, id: string, ops: seq<Op>, f: Exec)
    requires forall q :: 0 <= q <= |ops| ==> (id, q) in t.snapshots
    requires forall q :: 1 <= q <= |ops| ==> (id, q) in t.receipts && (id, q) in t.deltas
    requires Replays(t, id, ops, f)
    ensures RunState(t.snapshots[(id, 0)].state, ops, f) == t.snapshots[(id, |ops|)].state
  {
    assert ops[..|ops|] == ops;
  }

  lemma ReplaysGrows(t: DbState, id: string, front: seq<Op>, op: Op, f: Exec)
    requires forall q :: 0 <= q <= |front| + 1 ==> (id, q) in t.snapshots
    requires forall q :: 1 <= q <= |front| + 1 ==> (id, q) in t.receipts && (id, q) in t.deltas
    requires Replays(t, id, front, f) && !op.Transit?
    requires var k := |front| + 1;
             IsOutcome(f(op, t.snapshots[(id, k - 1)].state), op, t.snapshots[(id, k)], t.receipts[(id, k)], t.deltas[(id, k)])
    ensures Replays(t, id, front + [op], f)
  {
    var s := t.snapshots[(id, 0)].state;
    RunEndsAt(t, id, front, f);
    RunAppends(s, front, op, f);
    AcceptedGrows(s, front, op, f);
    assert (front + [op])[..|front| + 1] == front + [op];
    AllRecordsGrow(t, id, front, op, f);
    AllStatesGrow(t, id, front, op, f);
  }

  lemma AllRecordsGrow(t: DbState, id: string, front: seq<Op>, op: Op, f: Exec)
    requires forall q :: 0 <= q <= |front| + 1 ==> (id, q) in t.snapshots
    requires forall q :: 1 <= q <= |front| + 1 ==> (id, q) in t.receipts && (id, q) in t.deltas
    requires Replays(t, id, front, f)
    requires RecordsStep(t, id, |front|, op, At(t.snapshots[(id, 0)].state, front + [op], f, |front|))
    ensures var s, ops := t.snapshots[(id, 0)].state, front + [op];
            forall i :: 0 <= i < |ops| ==> RecordsStep(t, id, i, ops[i], At(s, ops, f, i))
  {
    var s, ops := t.snapshots[(id, 0)].state, front + [op];
    forall i | 0 <= i < |ops| ensures RecordsStep(t, id, i, ops[i], At(s, ops, f, i)) {
      if i < |front| {
        RecordsGrow(t, id, front, op, f, i);
      }
    }
  }

  lemma AllStatesGrow(t: DbState, id: string, front: seq<Op>, op: Op, f: Exec)
    requires forall q :: 0 <= q <= |front| + 1 ==> (id, q) in t.snapshots
    requires forall q :: 1 <= q <= |front| + 1 ==> (id, q) in t.receipts && (id, q) in t.deltas
    requires Replays(t, id, front, f)
    requires RunState(t.snapshots[(id, 0)].state, (front + [op])[..|front| + 1], f) == t.snapshots[(id, |front| + 1)].state
    ensures var s, ops := t.snapshots[(id, 0)].state, front + [op];
            forall i :: 0 <= i <= |ops| ==> RunState(s, ops[..i], f) == t.snapshots[(id, i)].state
  {
    var s, ops := t.snapshots[(id, 0)].state, front + [op];
    forall i | 0 <= i <= |ops| ensures RunState(s, ops[..i], f) == t.snapshots[(id, i)].state {
      if i <= |front| {
        StatesGrow(t, id, front, op, f, i);
      }
    }
  }

  /** What a step commits to a workflow: the operation of a client whose commit succeeds. */
  function CommittedBy(sys: System, c: nat, a: Action, f: Exec, id: string): seq<Op> {
    var client := ClientOf(sys, c);
    if a.Finish? && client.Holding? && client.id == id && f(client.op, client.base).ok && FinishResult(sys.db, client, f).Ok?
    then [client.op] else []
  }

  /** The operations a schedule commits to a workflow, in the order of their commits. */
  function CommittedOps(schedule: seq<(nat, Action)>, f: Exec, id: string): seq<Op>
    decreases |schedule|
  {
    if schedule == [] then []
    else
      var front, last := schedule[..|schedule| - 1], schedule[|schedule| - 1];
      CommittedOps(front, f, id) + CommittedBy(Execute(START, front, f), last.0, last.1, f, id)
  }

  /** A workflow with a first snapshot holds the rows of these operations; any other has none. */
  ghost predicate Linear(t: DbState, id: string, ops: seq<Op>, f: Exec) {
    if id in t.workflows && (id, 0) in t.snapshots
    then Intact(t, id, f) && |ops| == t.workflows[id].currentSeq && Replays(t, id, ops, f)
    else ops == []
  }

  lemma LinearFrame(t: DbState, u: DbState, id: string, ops: seq<Op>, f: Exec)
    requires Linear(t, id, ops, f) && SameRows(t, u, id)
    ensures Linear(u, id, ops, f)
  {
    if id in t.workflows && (id, 0) in t.snapshots {
      IntactFrame(t, u, id, f);
      forall k | 0 <= k < |ops| ensures RecordsStep(u, id, k, ops[k], At(u.snapshots[(id, 0)].state, ops, f, k)) {
        assert RecordsStep(t, id, k, ops[k], At(t.snapshots[(id, 0)].state, ops, f, k));
      }
    }
  }

  lemma LinearStarts(u: DbState, id: string, f: Exec)
    requires id in u.workflows && Intact(u, id, f) && u.workflows[id].currentSeq == 0
    ensures Linear(u, id, [], f)
  {
    var none: seq<Op> := [];
    assert none[..0] == none;
  }

  lemma LinearGrows(t: DbState, u: DbState, id: string, ops: seq<Op>, op: Op, f: Exec)
    requires Linear(t, id, ops, f) && IsIntact(t, id, f) && IsIntact(u, id, f) && KeepsRows(t, u, id) && !op.Transit?
    requires RecordsNext(t, u, id, op, f(op, t.snapshots[(id, t.workflows[id].currentSeq)].state))
    ensures Linear(u, id, ops + [op], f)
  {
    forall k | 0 <= k < |ops| ensures RecordsStep(u, id, k, ops[k], At(u.snapshots[(id, 0)].state, ops, f, k)) {
      assert RecordsStep(t, id, k, ops[k], At(t.snapshots[(id, 0)].state, ops, f, k));
    }
    assert Replays(u, id, ops, f);
    ReplaysGrows(u, id, ops, op, f);
  }

  lemma CommitExtends(sys: System, c: nat, f: Exec, id: string)
    requires Sane(f) && Inv(sys, f) && CommittedBy(sys, c, Finish, f, id) != []
    ensures var t, u, client := sys.db, Step(sys, c, Finish, f).db, ClientOf(sys, c);
            && !client.op.Transit? && IsIntact(t, id, f) && IsIntact(u, id, f) && KeepsRows(t, u, id)
            && client.base == t.snapshots[(id, t.workflows[id].currentSeq)].state
  {
    assert ClientOk(sys.db, sys.clients[c], f);
    CommitExtendsRows(sys.db, sys.clients[c], f);
  }

  lemma CommitExtendsRows(t: DbState, client: Client, f: Exec)
    requires Sane(f) && (forall w :: WellFormed(t, w, f)) && ClientOk(t, client, f)
    requires client.Holding? && f(client.op, client.base).ok && FinishResult(t, client, f).Ok?
    ensures IsIntact(t, client.id, f) && IsIntact(FinishResult(t, client, f).value, client.id, f)
    ensures KeepsRows(t, FinishResult(t, client, f).value, client.id)
    ensures client.base == t.snapshots[(client.id, t.workflows[client.id].currentSeq)].state
  {
    CommitSucceedsExactlyWhenLatest(t, client.id, client.base, client.op, f);
    CommitTouches(t, client.id, client.base, client.op, f);
  }

  lemma CommitKeepsLinear(sys: System, c: nat, f: Exec, id: string, ops: seq<Op>)
    requires Sane(f) && Inv(sys, f) && Linear(sys.db, id, ops, f)
    requires CommittedBy(sys, c, Finish, f, id) != []
    ensures Linear(Step(sys, c, Finish, f).db, id, ops + CommittedBy(sys, c, Finish, f, id), f)
  {
    CommitIsExact(sys, c, f);
    CommitExtends(sys, c, f, id);
    LinearGrows(sys.db, Step(sys, c, Finish, f).db, id, ops, ClientOf(sys, c).op, f);
  }

  lemma FirstSnapshotKeepsLinear(sys: System, c: nat, f: Exec, id: string, ops: seq<Op>)
    requires Sane(f) && Inv(sys, f) && Linear(sys.db, id, ops, f)
    requires c in sys.clients && (sys.clients[c].Creating? || sys.clients[c].PointRead?) && TargetOf(sys.clients[c]) == id
    ensures Linear(Step(sys, c, Finish, f).db, id, ops, f)
  {
    var client, u := sys.clients[c], Step(sys, c, Finish, f).db;
    assert ClientOk(sys.db, client, f) && WellFormed(sys.db, id, f);
    FinishTouches(sys.db, client, f);
    if u != sys.db {
      assert (id, 0) !in sys.db.snapshots;
      LinearStarts(u, id, f);
    }
  }

  /** A step that saves no first snapshot of the workflow and commits nothing to it leaves its rows
      alone, or adds its summary row. */
  lemma OtherStepsLeaveRows(sys: System, c: nat, a: Action, f: Exec, id: string)
    requires Sane(f) && Inv(sys, f) && CommittedBy(sys, c, a, f, id) == []
    requires a.Finish? && c in sys.clients && (sys.clients[c].Creating? || sys.clients[c].PointRead?) ==> TargetOf(sys.clients[c]) != id
    ensures SameRows(sys.db, Step(sys, c, a, f).db, id) || (a.BeginCreate? && a.id == id && (id, 0) !in Step(sys, c, a, f).db.snapshots)
  {
    if a.Finish? && c in sys.clients {
      assert ClientOk(sys.db, sys.clients[c], f);
      FinishTouches(sys.db, sys.clients[c], f);
    } else if a.BeginCreate? {
      assert WellFormed(sys.db, a.id, f);
    }
  }

  lemma StepKeepsLinear(sys: System, c: nat, a: Action, f: Exec, id: string, ops: seq<Op>)
    requires Sane(f) && Inv(sys, f) && Linear(sys.db, id, ops, f)
    ensures Linear(Step(sys, c, a, f).db, id, ops + CommittedBy(sys, c, a, f, id), f)
  {
    if CommittedBy(sys, c, a, f, id) != [] {
      CommitKeepsLinear(sys, c, f, id, ops);
    } else {
      assert ops + CommittedBy(sys, c, a, f, id) == ops;
      if a.Finish? && c in sys.clients && (sys.clients[c].Creating? || sys.clients[c].PointRead?) && TargetOf(sys.clients[c]) == id {
        FirstSnapshotKeepsLinear(sys, c, f, id, ops);
      } else {
        OtherStepsLeaveRows(sys, c, a, f, id);
        if SameRows(sys.db, Step(sys, c, a, f).db, id) {
          LinearFrame(sys.db, Step(sys, c, a, f).db, id, ops, f);
        }
      }
    }
  }

  lemma {:induction false} ScheduleIsLinear(schedule: seq<(nat, Action)>, f: Exec, id: string)
    requires Sane(f)
    ensures Linear(Execute(START, schedule, f).db, id, CommittedOps(schedule, f, id), f)
    decreases |schedule|
  {
    if schedule != [] {
      var front, last := schedule[..|schedule| - 1], schedule[|schedule| - 1];
      ScheduleIsLinear(front, f, id);
      ExecuteKeepsInv(START, front, f);
      StepKeepsLinear(Execute(START, front, f), last.0, last.1, f, id, CommittedOps(front, f, id));
    }
  }

  /** Every reachable workflow's rows are those of one sequential run from its first snapshot: that of
      the operations whose commits succeeded, in the order of their commits, whichever clients
      computed them from whichever snapshots. */
  lemma HistoryIsLinear(schedule: seq<(nat, Action)>, policy: PolicyRec, id: string)
    requires var t := Reached(schedule, policy).db; id in t.workflows && (id, 0) in t.snapshots
    ensures var t, f := Reached(schedule, policy).db, Executor(policy);
            var ops := CommittedOps(schedule, f, id);
            IsIntact(t, id, f) && |ops| == t.workflows[id].currentSeq && Replays(t, id, ops, f)
  {
    RuntimeIsSane(policy);
    ScheduleIsLinear(schedule, Executor(policy), id);
  }

  /** The delta rows of a workflow, in order. */
  function StoredDeltas(t: DbState, id: string, n: nat): (r: seq<Delta>)
    requires forall q :: 1 <= q <= n ==> (id, q) in t.deltas
    ensures |r| == n
  {
    seq(n, i requires 0 <= i < n => t.deltas[(id, i + 1)].delta)
  }

  lemma StoredDeltasAreRunDeltas(t: DbState, id: string, ops: seq<Op>, policy: PolicyRec)
    requires forall q :: 0 <= q <= |ops| ==> (id, q) in t.snapshots
    requires forall q :: 1 <= q <= |ops| ==> (id, q) in t.receipts && (id, q) in t.deltas
    requires Replays(t, id, ops, Executor(policy))
    ensures StoredDeltas(t, id, |ops|) == RunDeltas(t.snapshots[(id, 0)].state, ops, policy)
  {
    var s, f := t.snapshots[(id, 0)].state, Executor(policy);
    forall i | 0 <= i < |ops| ensures StoredDeltas(t, id, |ops|)[i] == RunDeltas(s, ops, policy)[i] {
      assert RecordsStep(t, id, i, ops[i], At(s, ops, f, i));
    }
  }

  lemma WholeRunVerifies(s: State, ops: seq<Op>, policy: PolicyRec, arranged: seq<Delta>)
    requires multiset(arranged) == multiset(RunDeltas(s, ops, policy))
    ensures VerifyDeltaChain(OfState(s), arranged).ok
  {
    var run := RunDeltas(s, ops, policy);
    assert run[..|ops|] == run;
    forall d | d in arranged ensures d in run {
      assert d in multiset(arranged);
      assert d in multiset(run);
    }
    VerifyAcceptsExactlyPrefixes(s, ops, policy, arranged);
  }

  /** The stored deltas do their job: in any arrangement they verify as a chain from the first
      snapshot, and rebuild every later snapshot in every field but the timeline. */
  lemma StoredDeltasReconstruct(schedule: seq<(nat, Action)>, policy: PolicyRec, id: string, arranged: seq<Delta>, k: nat)
    requires var t := Reached(schedule, policy).db;
             && id in t.workflows && (id, 0) in t.snapshots && 0 <= k <= t.workflows[id].currentSeq
             && (forall q :: 1 <= q <= t.workflows[id].currentSeq ==> (id, q) in t.deltas)
             && multiset(arranged) == multiset(StoredDeltas(t, id, t.workflows[id].currentSeq))
    ensures var t := Reached(schedule, policy).db;
            && (id, k) in t.snapshots
            && VerifyDeltaChain(OfState(t.snapshots[(id, 0)].state), arranged).ok
            && Rebuilds(t.snapshots[(id, 0)].state, arranged, k, t.snapshots[(id, k)].state)
  {
    HistoryIsLinear(schedule, policy, id);
    RowsReconstruct(Reached(schedule, policy).db, id, CommittedOps(schedule, Executor(policy), id), policy, arranged, k);
  }

  lemma RowsReconstruct(t: DbState, id: string, ops: seq<Op>, policy: PolicyRec, arranged: seq<Delta>, k: nat)
    requires IsIntact(t, id, Executor(policy)) && |ops| == t.workflows[id].currentSeq && Replays(t, id, ops, Executor(policy))
    requires k <= |ops| && multiset(arranged) == multiset(StoredDeltas(t, id, |ops|))
    ensures (id, k) in t.snapshots
    ensures VerifyDeltaChain(OfState(t.snapshots[(id, 0)].state), arranged).ok
    ensures Rebuilds(t.snapshots[(id, 0)].state, arranged, k, t.snapshots[(id, k)].state)
  {
    var s := t.snapshots[(id, 0)].state;
    assert IdentifiedAt(s, id, 0);
    StoredDeltasAreRunDeltas(t, id, ops, policy);
    assert RunStates(s, ops, policy)[k] == t.snapshots[(id, k)].state;
    WholeRunVerifies(s, ops, policy, arranged);
    AcceptedFront(s, ops, Executor(policy), k);
    ReconstructionMatchesLiveExactlyWhen(s, ops, policy, arranged, k);
  }
}
