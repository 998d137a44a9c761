/** What creating and forking workflows leaves in the store: which hashes are stored with the first
    snapshots, and what becomes of a creation that breaks off (acpd/internal/api/workflows.go,
    acpd/internal/store/branches.go). */
module Creations {
  import opened Records
  import opened Lists
  import opened WorkflowState
  import opened Lineage
  import opened Tables
  import opened Policy
  import opened Runtime
  import opened CommitProtocol
  import opened History

  /** What a creation starts with: a summary row of its goal and owner at stage "created", and a state that
      is new but for the plan it was given. */
  lemma CreationStartsWith(sys: System, c: nat, id: string, goal: string, owner: string, plan: Option<Value>, f: Exec)
    requires ClientOf(sys, c).Idle? && id !in sys.db.workflows
    ensures var next := Step(sys, c, BeginCreate(id, goal, owner, plan), f);
            var hash := OfState(NewWorkflow(id, goal, owner));
            && next.db == sys.db.(workflows := sys.db.workflows[id := WorkflowRow(goal, owner, "created", hash, 0, 0)])
            && ClientOf(next, c).Creating? && ClientOf(next, c).id == id && ClientOf(next, c).hash == hash
            && ClientOf(next, c).initial == (match plan
                                             case Some(p) => NewWorkflow(id, goal, owner).(plan := p)
                                             case None => NewWorkflow(id, goal, owner))
  {
  }

  /** A fork is begun from the latest snapshot; at point 0 it asks for that snapshot's own seq. */
  lemma ForkBegins(sys: System, c: nat, parent: string, newId: string, pointSeq: int, reason: string, kind: string, f: Exec)
    requires ClientOf(sys, c).Idle? && LatestSnapshot(sys.db, parent).Some?
    ensures var next, base := Step(sys, c, BeginFork(parent, newId, pointSeq, reason, kind), f), LatestSnapshot(sys.db, parent).value.state;
            && next.db == sys.db
            && ClientOf(next, c) == Forking(parent, newId, if pointSeq == 0 then base.seqNo else pointSeq, reason, kind, base, None)
  {
  }

  // ---------- Stored hashes ----------

  /** The hash computed for a new workflow is the digest of the state stored for it exactly when the
      request gave no plan, or the empty one. */
  lemma CreationHashMatchesExactlyWhen(id: string, goal: string, owner: string, plan: Option<Value>)
    ensures OfState(InitialState(id, goal, owner, plan)) == OfState(NewWorkflow(id, goal, owner))
       <==> plan.None? || plan.value == EMPTY_PLAN
  {
  }

  ghost predicate HashesOk(t: DbState) {
    (forall k :: k in t.snapshots ==> HashOk(t, k)) && t.branches.Keys <= t.workflows.Keys
  }

  ghost predicate CreatorOk(t: DbState, client: Client) {
    client.Creating? ==> client.id !in t.branches && client.hash == OfState(client.initial.(plan := EMPTY_PLAN))
  }

  ghost predicate HashInv(sys: System) {
    HashesOk(sys.db) && forall c :: c in sys.clients ==> CreatorOk(sys.db, sys.clients[c])
  }

  /** `u` keeps to the rule, and any branch that is new in it is that of a new workflow. */
  ghost predicate KeepsHashes(t: DbState, u: DbState) {
    HashesOk(u) && forall id :: id in u.branches ==> id in t.branches || id !in t.workflows
  }

  lemma FirstSnapshotKeepsHashes(t: DbState, client: Client)
    requires client.Creating? && CreatorOk(t, client) && HashesOk(t)
    ensures match PutSnapshot(t, client.id, 0, SnapshotRow(client.initial, client.hash))
            case Ok(u) => KeepsHashes(t, u)
            case Err(_) => true
  {
    match PutSnapshot(t, client.id, 0, SnapshotRow(client.initial, client.hash))
    case Ok(u) =>
      forall k | k in u.snapshots ensures HashOk(u, k) {
        assert k != (client.id, 0) ==> HashOk(t, k);
      }
    case Err(_) =>
  }

  lemma CommitKeepsHashes(t: DbState, id: string, base: State, op: Op, f: Exec)
    requires HashesOk(t) && Receipted(base, f(op, base)) && base.seqNo >= 0
    ensures match CommitOf(t, id, base, op, f)
            case Ok(u) => KeepsHashes(t, u)
            case Err(_) => true
  {
    match CommitOf(t, id, base, op, f)
    case Ok(u) =>
      forall k | k in u.snapshots ensures HashOk(u, k) {
        assert k != (id, base.seqNo + 1) ==> HashOk(t, k);
      }
    case Err(_) =>
  }

  lemma HolderKeepsHashes(t: DbState, client: Client, f: Exec)
    requires HashesOk(t) && client.Holding? && Receipted(client.base, f(client.op, client.base)) && client.base.seqNo >= 0
    ensures match FinishResult(t, client, f)
            case Ok(u) => KeepsHashes(t, u)
            case Err(_) => true
  {
    CommitKeepsHashes(t, client.id, client.base, client.op, f);
  }

  lemma ForkKeepsHashes(t: DbState, client: Client, f: Exec)
    requires HashesOk(t) && client.PointRead? && WellFormed(t, client.newId, f)
    ensures match FinishResult(t, client, f)
            case Ok(u) => KeepsHashes(t, u)
            case Err(_) => true
  {
    match FinishResult(t, client, f)
    case Ok(u) =>
      forall k | k in u.snapshots ensures HashOk(u, k) {
        assert (k.0, k.1) == k;
        assert k != (client.newId, 0) ==> k in t.snapshots && HashOk(t, k);
      }
    case Err(_) =>
  }

  lemma FinishingKeepsHashes(t: DbState, client: Client, f: Exec)
    requires Sane(f) && (forall w :: WellFormed(t, w, f)) && ClientOk(t, client, f) && CreatorOk(t, client) && HashesOk(t)
    ensures match FinishResult(t, client, f)
            case Ok(u) => KeepsHashes(t, u)
            case Err(_) => true
  {
    match client
    case Idle =>
    case Creating(_, _, _) => FirstSnapshotKeepsHashes(t, client);
    case Holding(_, base, op) =>
      assert Receipted(base, f(op, base));
      HolderKeepsHashes(t, client, f);
    case Forking(_, _, _, _, _, _, _) =>
    case PointRead(_, newId, _, _, _, _, _) =>
      assert WellFormed(t, newId, f);
      ForkKeepsHashes(t, client, f);
  }

  lemma CreatorsSurvive(sys: System, u: DbState, f: Exec)
    requires Inv(sys, f) && HashInv(sys) && (u == sys.db || KeepsHashes(sys.db, u))
    ensures forall d :: d in sys.clients ==> CreatorOk(u, sys.clients[d])
  {
    forall d | d in sys.clients ensures CreatorOk(u, sys.clients[d]) {
      assert ClientOk(sys.db, sys.clients[d], f) && CreatorOk(sys.db, sys.clients[d]);
    }
  }

  lemma HashesAfter(sys: System, c: nat, u: DbState, f: Exec)
    requires Inv(sys, f) && HashInv(sys) && (u == sys.db || KeepsHashes(sys.db, u))
    ensures HashInv(System(u, sys.clients[c := Idle]))
  {
    CreatorsSurvive(sys, u, f);
  }

  lemma FinishKeepsHashes(sys: System, c: nat, f: Exec)
    requires Sane(f) && Inv(sys, f) && HashInv(sys) && c in sys.clients
    ensures HashInv(Step(sys, c, Finish, f))
  {
    var u := GetOrElse(FinishResult(sys.db, sys.clients[c], f), sys.db);
    assert ClientOk(sys.db, sys.clients[c], f) && CreatorOk(sys.db, sys.clients[c]);
    FinishingKeepsHashes(sys.db, sys.clients[c], f);
    HashesAfter(sys, c, u, f);
    assert Step(sys, c, Finish, f) == System(u, sys.clients[c := Idle]);
  }

  lemma StepKeepsHashes(sys: System, c: nat, a: Action, f: Exec)
    requires Sane(f) && Inv(sys, f) && HashInv(sys)
    ensures HashInv(Step(sys, c, a, f))
  {
    if a.Finish? {
      if c in sys.clients {
        FinishKeepsHashes(sys, c, f);
      }
    } else if a.BeginCreate? {
      assert forall k :: k in sys.db.snapshots ==> HashOk(sys.db, k);
    }
  }

  lemma {:induction false} ExecuteKeepsHashes(sys: System, schedule: seq<(nat, Action)>, f: Exec)
    requires Sane(f) && Inv(sys, f) && HashInv(sys)
    ensures HashInv(Execute(sys, schedule, f))
    decreases |schedule|
  {
    if schedule != [] {
      var front, last := schedule[..|schedule| - 1], schedule[|schedule| - 1];
      ExecuteKeepsHashes(sys, front, f);
      ExecuteKeepsInv(sys, front, f);
      StepKeepsHashes(Execute(sys, front, f), last.0, last.1, f);
    }
  }

  /** In every reachable store the hash stored with a snapshot is the digest of its state, but for the
      first snapshots of workflows that were created, not forked, with a plan other than the empty one. */
  lemma StoredHashMatchesExactlyWhen(schedule: seq<(nat, Action)>, policy: PolicyRec, k: Key)
    requires k in Reached(schedule, policy).db.snapshots
    ensures var t := Reached(schedule, policy).db;
            HashMatches(t, k) <==> k.1 >= 1 || k.0 in t.branches || t.snapshots[k].state.plan == EMPTY_PLAN
  {
    RuntimeIsSane(policy);
    ExecuteKeepsHashes(START, schedule, Executor(policy));
    assert HashOk(Reached(schedule, policy).db, k);
  }

  /** In every reachable system a fork that has read its point succeeds exactly when the new id is
      free; and its branch row then agrees with the lineage in its state exactly when the point is the
      snapshot the state was forked from, and that is not the first one of a workflow created with a
      plan. */
  lemma ReachableForkSucceedsExactlyWhen(schedule: seq<(nat, Action)>, policy: PolicyRec, c: nat)
    requires ClientOf(Reached(schedule, policy), c).PointRead?
    ensures var sys, f := Reached(schedule, policy), Executor(policy);
            var t, client := sys.db, ClientOf(sys, c);
            var r, forked := FinishResult(t, client, f), Fork(client.base, client.newId, client.pointSeq, client.reason);
            && (r.Ok? <==> client.newId !in t.workflows && client.newId !in t.branches)
            && (r.Ok? ==> client.newId in r.value.branches
                          && (forked.lineage.value.branchPointHash == r.value.branches[client.newId].pointHash
                              <==> client.base.seqNo == client.point.snap.seqNo
                                   && (client.point.snap.seqNo >= 1 || client.parent in t.branches || client.base.plan == EMPTY_PLAN)))
  {
    var sys, f := Reached(schedule, policy), Executor(policy);
    var client := ClientOf(sys, c);
    RuntimeIsSane(policy);
    ReachableStoresAreSound(schedule, policy);
    assert ClientOk(sys.db, sys.clients[c], f);
    var k := (client.parent, client.point.snap.seqNo);
    StoredHashMatchesExactlyWhen(schedule, policy, k);
    ExecuteKeepsHashes(START, schedule, f);
    assert HashOk(sys.db, k);
    ForkSucceedsExactlyWhen(sys.db, client, f);
  }

  lemma ExecuteGrows(sys: System, front: seq<(nat, Action)>, c: nat, a: Action, f: Exec)
    ensures Execute(sys, front + [(c, a)], f) == Step(Execute(sys, front, f), c, a, f)
  {
    assert (front + [(c, a)])[..|front|] == front;
  }

  /** The run that creates one workflow with a plan. */
  function CreateRun(id: string, goal: string, owner: string, plan: Value): seq<(nat, Action)> {
    [(0, BeginCreate(id, goal, owner, Some(plan))), (0, Finish)]
  }

  lemma BegunCreation(id: string, goal: string, owner: string, plan: Value, f: Exec)
    ensures var hash := OfState(NewWorkflow(id, goal, owner));
            Execute(START, [(0, BeginCreate(id, goal, owner, Some(plan)))], f)
              == System(EMPTY.(workflows := map[id := WorkflowRow(goal, owner, "created", hash, 0, 0)]),
                        map[0 := Creating(id, InitialState(id, goal, owner, Some(plan)), hash)])
  {
    var a := BeginCreate(id, goal, owner, Some(plan));
    ExecuteGrows(START, [], 0, a, f);
    assert [] + [(0, a)] == [(0, a)];
    assert Execute(START, [], f) == START;
  }

  lemma CreatedAlone(id: string, goal: string, owner: string, plan: Value, f: Exec)
    ensures var hash := OfState(NewWorkflow(id, goal, owner));
            Execute(START, CreateRun(id, goal, owner, plan), f)
              == System(EMPTY.(workflows := map[id := WorkflowRow(goal, owner, "created", hash, 0, 0)],
                               snapshots := map[(id, 0) := SnapshotRow(InitialState(id, goal, owner, Some(plan)), hash)]),
                        map[0 := Idle])
  {
    var begin := [(0, BeginCreate(id, goal, owner, Some(plan)))];
    BegunCreation(id, goal, owner, plan, f);
    ExecuteGrows(START, begin, 0, Finish, f);
    assert begin + [(0, Finish)] == CreateRun(id, goal, owner, plan);
  }

  /** Such rows are reached: every workflow created with a plan other than the empty one. */
  lemma PlannedCreationMismatches(id: string, goal: string, owner: string, plan: Value, policy: PolicyRec)
    requires plan != EMPTY_PLAN
    ensures var t := Reached(CreateRun(id, goal, owner, plan), policy).db;
            (id, 0) in t.snapshots && !HashMatches(t, (id, 0))
  {
    CreatedAlone(id, goal, owner, plan, Executor(policy));
    StoredHashMatchesExactlyWhen(CreateRun(id, goal, owner, plan), policy, (id, 0));
  }

  /** The run that goes on to fork it at once. */
  function ForkRun(id: string, goal: string, owner: string, plan: Value, newId: string, reason: string, kind: string): seq<(nat, Action)> {
    CreateRun(id, goal, owner, plan) + [(0, BeginFork(id, newId, 0, reason, kind))] + [(0, ReadPoint)] + [(0, ReadPoint)]
  }

  lemma ForkRunReadsPoint(id: string, goal: string, owner: string, plan: Value, newId: string, reason: string, kind: string, f: Exec)
    ensures var sys := Execute(START, ForkRun(id, goal, owner, plan, newId, reason, kind), f);
            var created := Execute(START, CreateRun(id, goal, owner, plan), f).db;
            && sys.db == created && id in created.workflows
            && ClientOf(sys, 0) == PointRead(id, newId, 0, reason, kind, InitialState(id, goal, owner, Some(plan)),
                                             ForkPoint(created.workflows[id], SnapshotRead(0, OfState(NewWorkflow(id, goal, owner)))))
  {
    var run := CreateRun(id, goal, owner, plan);
    CreatedAlone(id, goal, owner, plan, f);
    LatestOfRange(Execute(START, run, f).db.snapshots, id, 0, 0);
    var fork := BeginFork(id, newId, 0, reason, kind);
    ExecuteGrows(START, run, 0, fork, f);
    ExecuteGrows(START, run + [(0, fork)], 0, ReadPoint, f);
    ExecuteGrows(START, run + [(0, fork)] + [(0, ReadPoint)], 0, ReadPoint, f);
  }

  /** Such forks are reached: a workflow created with a plan and forked before its first edit. */
  lemma PlannedForkDisagrees(id: string, goal: string, owner: string, plan: Value, newId: string, reason: string, kind: string, policy: PolicyRec)
    requires plan != EMPTY_PLAN && newId != id
    ensures var t := Reached(ForkRun(id, goal, owner, plan, newId, reason, kind) + [(0, Finish)], policy).db;
            && newId in t.branches && (newId, 0) in t.snapshots && t.snapshots[(newId, 0)].state.lineage.Some?
            && t.snapshots[(newId, 0)].state.lineage.value.branchPointHash != t.branches[newId].pointHash
  {
    var run, f := ForkRun(id, goal, owner, plan, newId, reason, kind), Executor(policy);
    ForkRunReadsPoint(id, goal, owner, plan, newId, reason, kind, f);
    CreatedAlone(id, goal, owner, plan, f);
    ReachableForkSucceedsExactlyWhen(run, policy, 0);
    ExecuteGrows(START, run, 0, Finish, f);
  }

  /** What a client has read when it is about to fork at an earlier point. */
  lemma EarlierForkReads(schedule: seq<(nat, Action)>, policy: PolicyRec, c: nat, id: string, newId: string, p: int, reason: string, kind: string)
    requires var sys := Reached(schedule, policy);
             && ClientOf(sys, c).Idle? && id in sys.db.workflows && (id, 0) in sys.db.snapshots && 0 < p < sys.db.workflows[id].currentSeq
    ensures var sys := Reached(schedule, policy);
            var ready := Reached(schedule + [(c, BeginFork(id, newId, p, reason, kind))] + [(c, ReadPoint)] + [(c, ReadPoint)], policy);
            var client := ClientOf(ready, c);
            && ready.db == sys.db && client.PointRead? && client.parent == id && client.newId == newId && client.pointSeq == p
            && client.reason == reason && client.point.snap.seqNo == p && client.base.seqNo == sys.db.workflows[id].currentSeq
  {
    var sys, f, fork := Reached(schedule, policy), Executor(policy), BeginFork(id, newId, p, reason, kind);
    ReachableStoresAreSound(schedule, policy);
    assert WellFormed(sys.db, id, f);
    LatestOfRange(sys.db.snapshots, id, 0, sys.db.workflows[id].currentSeq);
    LatestIsHeld(sys.db, id, f);
    assert IdentifiedAt(sys.db.snapshots[(id, sys.db.workflows[id].currentSeq)].state, id, sys.db.workflows[id].currentSeq);
    ForkPointReadsExactlyWhen(sys.db, id, p, f);
    ExecuteGrows(START, schedule, c, fork, f);
    ExecuteGrows(START, schedule + [(c, fork)], c, ReadPoint, f);
    ExecuteGrows(START, schedule + [(c, fork)] + [(c, ReadPoint)], c, ReadPoint, f);
  }

  /** Nor do they agree after any fork at a point after the first and before the latest. */
  lemma EarlierForkDisagrees(schedule: seq<(nat, Action)>, policy: PolicyRec, c: nat, id: string, newId: string, p: int, reason: string, kind: string)
    requires var sys := Reached(schedule, policy);
             && ClientOf(sys, c).Idle? && id in sys.db.workflows && (id, 0) in sys.db.snapshots && 0 < p < sys.db.workflows[id].currentSeq
             && newId !in sys.db.workflows && newId !in sys.db.branches
    ensures var run := schedule + [(c, BeginFork(id, newId, p, reason, kind))] + [(c, ReadPoint)] + [(c, ReadPoint)] + [(c, Finish)];
            var t := Reached(run, policy).db;
            && newId in t.branches && (newId, 0) in t.snapshots && t.snapshots[(newId, 0)].state.lineage.Some?
            && t.snapshots[(newId, 0)].state.lineage.value.branchPointHash != t.branches[newId].pointHash
  {
    var run := schedule + [(c, BeginFork(id, newId, p, reason, kind))] + [(c, ReadPoint)] + [(c, ReadPoint)];
    EarlierForkReads(schedule, policy, c, id, newId, p, reason, kind);
    ReachableForkSucceedsExactlyWhen(run, policy, c);
    ExecuteGrows(START, run, c, Finish, Executor(policy));
  }

  // ---------- Creations that break off ----------

  /** The summary row is there, the first snapshot is not, and no client is about to save it. */
  ghost predicate Orphaned(sys: System, id: string) {
    && id in sys.db.workflows && Blank(sys.db, id)
    && forall c :: c in sys.clients ==> !(sys.clients[c].Creating? && sys.clients[c].id == id)
  }

  lemma FinishSparesOrphan(t: DbState, client: Client, f: Exec, id: string)
    requires Sane(f) && (forall w :: WellFormed(t, w, f)) && ClientOk(t, client, f)
    requires id in t.workflows && Blank(t, id) && (client.Creating? ==> client.id != id)
    ensures match FinishResult(t, client, f)
            case Ok(u) => SameRows(t, u, id)
            case Err(_) => true
  {
    FinishTouches(t, client, f);
    if client.Holding? {
      assert (client.id, 0) in t.snapshots;
    }
  }

  lemma BlankFrame(t: DbState, u: DbState, id: string)
    requires SameRows(t, u, id) && id in t.workflows && Blank(t, id)
    ensures id in u.workflows && Blank(u, id)
  {
  }

  lemma StepKeepsOrphan(sys: System, c: nat, a: Action, f: Exec, id: string)
    requires Sane(f) && Inv(sys, f) && Orphaned(sys, id)
    ensures Orphaned(Step(sys, c, a, f), id)
  {
    var next := Step(sys, c, a, f);
    if a.Finish? && c in sys.clients {
      assert ClientOk(sys.db, sys.clients[c], f);
      FinishSparesOrphan(sys.db, sys.clients[c], f, id);
    }
    BlankFrame(sys.db, next.db, id);
  }

  /** A creation that breaks off before its first snapshot leaves the id unusable for good: whatever
      any clients do, it can neither be read, edited or forked, nor created anew or forked to. */
  lemma {:induction false} OrphanStays(sys: System, schedule: seq<(nat, Action)>, f: Exec, id: string)
    requires Sane(f) && Inv(sys, f) && Orphaned(sys, id)
    ensures var after := Execute(sys, schedule, f);
            && Orphaned(after, id) && LatestSnapshot(after.db, id).None?
            && (forall row :: InsertWorkflow(after.db, id, row) == Err(WorkflowExists))
            && (forall pointSeq :: ReadForkSnapshot(after.db, id, pointSeq) == None)
    decreases |schedule|
  {
    if schedule != [] {
      var front, last := schedule[..|schedule| - 1], schedule[|schedule| - 1];
      OrphanStays(sys, front, f, id);
      ExecuteKeepsInv(sys, front, f);
      StepKeepsOrphan(Execute(sys, front, f), last.0, last.1, f, id);
    }
    LatestOfRange(Execute(sys, schedule, f).db.snapshots, id, 0, -1);
  }

  lemma FreshClient(sys: System) returns (c: nat)
    ensures c !in sys.clients
  {
    var taken := set d: nat | d in sys.clients :: d as int;
    if taken == {} {
      c := 0;
      assert c in sys.clients ==> c as int in taken;
    } else {
      MaximumExists(taken);
      var m :| m in taken && forall x :: x in taken ==> x <= m;
      c := m + 1;
      assert c in sys.clients ==> c as int in taken;
    }
  }

  lemma FinishingCreation(sys: System, c: nat, f: Exec)
    requires Inv(sys, f) && ClientOf(sys, c).Creating?
    ensures LatestSnapshot(Step(sys, c, Finish, f).db, ClientOf(sys, c).id).Some?
  {
    assert ClientOk(sys.db, sys.clients[c], f);
    assert (ClientOf(sys, c).id, 0) in Step(sys, c, Finish, f).db.snapshots;
  }

  /** Any other id can become usable: a run that goes on from here and leaves it with a snapshot. */
  lemma UsableRun(sys: System, f: Exec, id: string) returns (later: seq<(nat, Action)>)
    requires Sane(f) && Inv(sys, f) && !Orphaned(sys, id)
    ensures LatestSnapshot(Execute(sys, later, f).db, id).Some?
  {
    assert WellFormed(sys.db, id, f);
    if id in sys.db.workflows && Intact(sys.db, id, f) {
      later := [];
      LatestOfRange(sys.db.snapshots, id, 0, sys.db.workflows[id].currentSeq);
    } else if id in sys.db.workflows {
      var c :| c in sys.clients && sys.clients[c].Creating? && sys.clients[c].id == id;
      later := [] + [(c, Finish)];
      ExecuteGrows(sys, [], c, Finish, f);
      FinishingCreation(sys, c, f);
    } else {
      var c := FreshClient(sys);
      var begin := BeginCreate(id, "", "", None);
      later := ([] + [(c, begin)]) + [(c, Finish)];
      ExecuteGrows(sys, [], c, begin, f);
      ExecuteGrows(sys, [] + [(c, begin)], c, Finish, f);
      StepKeepsInv(sys, c, begin, f);
      FinishingCreation(Step(sys, c, begin, f), c, f);
    }
  }

  /** An id is usable, now or later, exactly when it is not orphaned. */
  lemma UsableExactlyWhen(sys: System, f: Exec, id: string)
    requires Sane(f) && Inv(sys, f)
    ensures (exists later :: LatestSnapshot(Execute(sys, later, f).db, id).Some?) <==> !Orphaned(sys, id)
  {
    if Orphaned(sys, id) {
      forall later ensures LatestSnapshot(Execute(sys, later, f).db, id).None? {
        OrphanStays(sys, later, f, id);
      }
    } else {
      var later := UsableRun(sys, f, id);
      assert LatestSnapshot(Execute(sys, later, f).db, id).Some?;
    }
  }

  /** Finishing blanks no workflow. */
  lemma FinishBlanksNone(t: DbState, client: Client, f: Exec, id: string)
    requires Sane(f) && (forall w :: WellFormed(t, w, f)) && ClientOk(t, client, f)
    requires id in t.workflows ==> Intact(t, id, f)
    ensures match FinishResult(t, client, f)
            case Ok(u) => id in u.workflows ==> (id, 0) in u.snapshots
            case Err(_) => true
  {
    FinishTouches(t, client, f);
  }

  lemma FinishOrphansNone(sys: System, c: nat, f: Exec, id: string)
    requires Sane(f) && Inv(sys, f) && !Orphaned(sys, id)
    ensures !Orphaned(Step(sys, c, Finish, f), id)
  {
    var client, next := ClientOf(sys, c), Step(sys, c, Finish, f);
    assert WellFormed(sys.db, id, f);
    if client.Creating? && client.id == id {
      assert ClientOk(sys.db, client, f);
      assert (id, 0) in next.db.snapshots;
    } else if id in sys.db.workflows && Blank(sys.db, id) {
      var d :| d in sys.clients && sys.clients[d].Creating? && sys.clients[d].id == id;
      assert d in next.clients && next.clients[d] == sys.clients[d];
    } else {
      assert c in sys.clients ==> ClientOk(sys.db, client, f);
      FinishBlanksNone(sys.db, client, f, id);
      assert id in next.db.workflows ==> (id, 0) in next.db.snapshots;
    }
  }

  /** A step orphans an id exactly by crashing the client that is creating it. */
  lemma StepOrphansExactlyWhen(sys: System, c: nat, a: Action, f: Exec, id: string)
    requires Sane(f) && Inv(sys, f) && !Orphaned(sys, id)
    ensures Orphaned(Step(sys, c, a, f), id) <==> a.Crash? && ClientOf(sys, c).Creating? && ClientOf(sys, c).id == id
  {
    var next := Step(sys, c, a, f);
    if a.Finish? {
      FinishOrphansNone(sys, c, f, id);
    } else if a.Crash? && ClientOf(sys, c).Creating? && ClientOf(sys, c).id == id {
      assert ClientOk(sys.db, sys.clients[c], f);
    } else if next != sys {
      if id in sys.db.workflows && Blank(sys.db, id) {
        var d :| d in sys.clients && sys.clients[d].Creating? && sys.clients[d].id == id;
        assert d in next.clients && next.clients[d] == sys.clients[d];
      } else if a.BeginCreate? && a.id == id {
        assert next.clients[c].Creating? && next.clients[c].id == id;
      }
    }
  }

  /** A creator that crashes before it has saved the first snapshot leaves such an id. */
  lemma CrashedCreationIsOrphaned(schedule: seq<(nat, Action)>, policy: PolicyRec, c: nat)
    requires ClientOf(Reached(schedule, policy), c).Creating?
    ensures Orphaned(Step(Reached(schedule, policy), c, Crash, Executor(policy)), ClientOf(Reached(schedule, policy), c).id)
  {
    var sys, f := Reached(schedule, policy), Executor(policy);
    ReachableStoresAreSound(schedule, policy);
    assert ClientOk(sys.db, sys.clients[c], f);
  }

  /** Such ids are reached, by two steps. */
  lemma CrashedRunOrphans(id: string, goal: string, owner: string, plan: Value, policy: PolicyRec)
    ensures Orphaned(Reached([(0, BeginCreate(id, goal, owner, Some(plan))), (0, Crash)], policy), id)
  {
    var begin := [(0, BeginCreate(id, goal, owner, Some(plan)))];
    BegunCreation(id, goal, owner, plan, Executor(policy));
    CrashedCreationIsOrphaned(begin, policy, 0);
    ExecuteGrows(START, begin, 0, Crash, Executor(policy));
    assert begin + [(0, Crash)] == [(0, BeginCreate(id, goal, owner, Some(plan))), (0, Crash)];
  }
}
