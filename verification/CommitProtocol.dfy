/** Optimistic commits under any interleaving of clients (acpd/internal/api/workflows.go over
    acpd/internal/store/commit.go).

    A client reads the latest snapshot, computes a successor on its own, and commits it later;
    in between, other clients do the same.  No step compares the client's snapshot with the
    current one: only the primary keys stand in the way of a stale commit.  The step function
    `f` is the runtime; `Sane` says what is used of it. */
module CommitProtocol {
  import opened Records
  import opened WorkflowState
  import opened Runs
  import opened Runtime
  import opened DeltaLog
  import opened Lineage
  import opened Tables

  type Exec = (Op, State) -> Outcome

  datatype Client =
    | Idle
    | Creating(id: string, initial: State, hash: Digest)
    | Holding(id: string, base: State, op: Op)
    | Forking(parent: string, newId: string, pointSeq: int, reason: string, kind: string, base: State, read: Option<SnapshotRead>)
    | PointRead(parent: string, newId: string, pointSeq: int, reason: string, kind: string, base: State, point: ForkPoint)

  datatype System = System(db: DbState, clients: map<nat, Client>)

  datatype Action =
    | BeginCreate(id: string, goal: string, owner: string, plan: Option<Value>)
    | BeginOp(id: string, op: Op)
    | BeginFork(parent: string, newId: string, pointSeq: int, reason: string, kind: string)
    | ReadPoint
    | Finish
    | Crash

  function ClientOf(sys: System, c: nat): Client {
    if c in sys.clients then sys.clients[c] else Idle
  }

  function InitialState(id: string, goal: string, owner: string, plan: Option<Value>): State {
    var s := NewWorkflow(id, goal, owner);
    if plan.Some? then s.(plan := plan.value) else s
  }

  /** The store's answer when the client finishes what it has begun.  An outcome the policy
      refused is never sent to the store. */
  function FinishResult(db: DbState, client: Client, f: Exec): Result<DbState> {
    match client
    case Idle => Ok(db)
    case Creating(id, initial, hash) => PutSnapshot(db, id, 0, SnapshotRow(initial, hash))
    case Holding(id, base, op) =>
      var out := f(op, base);
      if out.ok then CommitRows(db, id, Bridge(out), DeltaOf(op, out), if op.Artifact? then Some(op.digest) else None)
      else Ok(db)
    case Forking(_, _, _, _, _, _, _) => Ok(db)
    case PointRead(parent, newId, pointSeq, reason, kind, base, point) =>
      var forked := Fork(base, newId, pointSeq, reason);
      ForkRows(db, parent, newId, pointSeq, reason, kind, point, forked, OfState(forked))
  }

  function GetOrElse<T>(r: Result<T>, default: T): T {
    if r.Ok? then r.value else default
  }

  /** One step of client `c`; an action that does not fit the client's position does nothing. */
  function Step(sys: System, c: nat, a: Action, f: Exec): System {
    var client := ClientOf(sys, c);
    match a
    case Crash => sys.(clients := sys.clients[c := Idle])
    case Finish => System(GetOrElse(FinishResult(sys.db, client, f), sys.db), sys.clients[c := Idle])
    case BeginCreate(id, goal, owner, plan) =>
      var hash := OfState(NewWorkflow(id, goal, owner));
      var r := InsertWorkflow(sys.db, id, WorkflowRow(goal, owner, "created", hash, 0, 0));
      if client.Idle? && r.Ok? then System(r.value, sys.clients[c := Creating(id, InitialState(id, goal, owner, plan), hash)]) else sys
    case BeginOp(id, op) =>
      var snap := LatestSnapshot(sys.db, id);
      if client.Idle? && !op.Transit? && snap.Some? then sys.(clients := sys.clients[c := Holding(id, snap.value.state, op)]) else sys
    case BeginFork(parent, newId, pointSeq, reason, kind) =>
      var snap := LatestSnapshot(sys.db, parent);
      if client.Idle? && snap.Some? then
        var base := snap.value.state;
        sys.(clients := sys.clients[c := Forking(parent, newId, if pointSeq == 0 then base.seqNo else pointSeq, reason, kind, base, None)])
      else sys
    case ReadPoint => if client.Forking? then sys.(clients := sys.clients[c := AfterRead(sys.db, client)]) else sys
  }

  /** A forking client's next query: first the snapshot, then the parent's row; it gives up when there
      is none. */
  function AfterRead(t: DbState, client: Client): Client
    requires client.Forking?
  {
    if client.read.None? then
      var snap := ReadForkSnapshot(t, client.parent, client.pointSeq);
      if snap.None? then Idle else client.(read := snap)
    else if client.parent !in t.workflows then Idle
    else
      PointRead(client.parent, client.newId, client.pointSeq, client.reason, client.kind, client.base,
                ForkPoint(t.workflows[client.parent], client.read.value))
  }

  const START := System(EMPTY, map[])

  /** A schedule says which client takes which action next. */
  function Execute(sys: System, schedule: seq<(nat, Action)>, f: Exec): System
    decreases |schedule|
  {
    if schedule == [] then sys
    else
      var last := schedule[|schedule| - 1];
      Step(Execute(sys, schedule[..|schedule| - 1], f), last.0, last.1, f)
  }

  // ---------- The invariant ----------

  /** What a receipt of `out` says about the step from `s`. */
  ghost predicate Receipted(s: State, out: Outcome) {
    && out.state.seqNo == s.seqNo + 1 && out.state.workflowId == s.workflowId
    && out.receipt.digest == OfReceipt(out.receipt.body)
    && out.receipt.body.workflowId == s.workflowId && out.receipt.body.seqNo == s.seqNo + 1
    && out.receipt.body.stateBeforeHash == OfState(s) && out.receipt.body.stateAfterHash == OfState(out.state)
  }

  ghost predicate Sane(f: Exec) {
    forall op: Op, s: State :: Receipted(s, f(op, s))
  }

  /** An accepted step of the runtime from `before` left exactly these rows. */
  ghost predicate Committed(before: State, snap: SnapshotRow, r: ReceiptRow, d: DeltaRow, f: Exec) {
    exists op: Op :: !op.Transit? && IsOutcome(f(op, before), op, snap, r, d)
  }

  ghost predicate IsOutcome(out: Outcome, op: Op, snap: SnapshotRow, r: ReceiptRow, d: DeltaRow) {
    && out.ok && snap.state == out.state && snap.stateHash == OfState(out.state)
    && r.receipt == out.receipt && r.digest == out.receipt.digest
    && d.delta == DeltaOf(op, out) && d.hash == OfDelta(d.delta)
  }

  /** The rows at seq `k` follow those at `k` - 1. */
  ghost predicate Follows(t: DbState, id: string, k: int, f: Exec)
    requires (id, k - 1) in t.snapshots && (id, k) in t.snapshots && (id, k) in t.receipts && (id, k) in t.deltas
    requires k > 1 ==> (id, k - 1) in t.receipts && (id, k - 1) in t.deltas
  {
    && Committed(t.snapshots[(id, k - 1)].state, t.snapshots[(id, k)], t.receipts[(id, k)], t.deltas[(id, k)], f)
    && t.receipts[(id, k)].prev == (if k <= 1 then None else Some(t.receipts[(id, k - 1)].digest))
    && t.deltas[(id, k)].prev == (if k <= 1 then None else Some(t.deltas[(id, k - 1)].hash))
  }

  ghost predicate IdentifiedAt(s: State, id: string, k: int) {
    s.workflowId == id && s.seqNo == k
  }

  /** A workflow whose first snapshot is saved: receipts and deltas at 1..n, snapshots at 0..n,
      each row following the one before, and the summary row agreeing with the last. */
  ghost predicate Intact(t: DbState, id: string, f: Exec)
    requires id in t.workflows
  {
    var row := t.workflows[id];
    var n := row.currentSeq;
    && n >= 0 && row.snapshotSeq == n
    && RowsAt(t.snapshots, id, 0, n) && RowsAt(t.receipts, id, 1, n) && RowsAt(t.deltas, id, 1, n)
    && (forall k :: 0 <= k <= n ==> IdentifiedAt(t.snapshots[(id, k)].state, id, k))
    && (forall k :: 1 <= k <= n ==> Follows(t, id, k, f))
    && row.stateHash == t.snapshots[(id, n)].stateHash
    && (n >= 1 ==> row.stage == StageText(t.snapshots[(id, n)].state))
  }

  /** A workflow row whose first snapshot is still to come. */
  ghost predicate Blank(t: DbState, id: string)
    requires id in t.workflows
  {
    && t.workflows[id].currentSeq == 0 && t.workflows[id].snapshotSeq == 0
    && RowsAt(t.snapshots, id, 0, -1) && RowsAt(t.receipts, id, 0, -1) && RowsAt(t.deltas, id, 0, -1)
  }

  ghost predicate Absent(t: DbState, id: string) {
    id !in t.workflows && RowsAt(t.snapshots, id, 0, -1) && RowsAt(t.receipts, id, 0, -1) && RowsAt(t.deltas, id, 0, -1)
  }

  ghost predicate WellFormed(t: DbState, id: string, f: Exec) {
    Absent(t, id) || (id in t.workflows && (Blank(t, id) || Intact(t, id, f)))
  }

  /** The state a client holds is a snapshot of an intact workflow, though not always the latest. */
  ghost predicate HoldsSnapshot(t: DbState, id: string, base: State, f: Exec) {
    && id in t.workflows && Intact(t, id, f)
    && 0 <= base.seqNo <= t.workflows[id].currentSeq
    && t.snapshots[(id, base.seqNo)].state == base
  }

  ghost predicate ClientOk(t: DbState, client: Client, f: Exec) {
    match client
    case Idle => true
    case Creating(id, initial, hash) =>
      id in t.workflows && Blank(t, id) && IdentifiedAt(initial, id, 0) && t.workflows[id].stateHash == hash
    case Holding(id, base, op) => !op.Transit? && HoldsSnapshot(t, id, base, f)
    case Forking(parent, _, pointSeq, _, _, base, read) =>
      HoldsSnapshot(t, parent, base, f) && (read.Some? ==> PointOk(t, parent, pointSeq, read.value))
    case PointRead(parent, _, pointSeq, _, _, base, point) =>
      HoldsSnapshot(t, parent, base, f) && PointOk(t, parent, pointSeq, point.snap)
  }

  /** What was read of the fork point is still there. */
  ghost predicate PointOk(t: DbState, parent: string, pointSeq: int, read: SnapshotRead) {
    && 0 <= read.seqNo <= pointSeq && (parent, read.seqNo) in t.snapshots
    && t.snapshots[(parent, read.seqNo)].stateHash == read.hash
  }

  ghost predicate OneCreator(sys: System) {
    forall c, d :: c in sys.clients && d in sys.clients && c != d && sys.clients[c].Creating? && sys.clients[d].Creating?
                   ==> sys.clients[c].id != sys.clients[d].id
  }

  ghost predicate Inv(sys: System, f: Exec) {
    && (forall id :: WellFormed(sys.db, id, f))
    && (forall c :: c in sys.clients ==> ClientOk(sys.db, sys.clients[c], f))
    && OneCreator(sys)
  }

  // ---------- Frames ----------

  lemma IntactFrame(t: DbState, u: DbState, id: string, f: Exec)
    requires SameRows(t, u, id) && id in t.workflows && Intact(t, id, f)
    ensures Intact(u, id, f)
  {
    forall k | 1 <= k <= t.workflows[id].currentSeq ensures Follows(u, id, k, f) {
      assert Follows(t, id, k, f);
    }
  }

  lemma WellFormedFrame(t: DbState, u: DbState, id: string, f: Exec)
    requires SameRows(t, u, id) && WellFormed(t, id, f)
    ensures WellFormed(u, id, f)
  {
    if id in t.workflows && Intact(t, id, f) {
      IntactFrame(t, u, id, f);
    }
  }

  /** All rows of the workflow are kept, and none is withdrawn. */
  ghost predicate KeepsRows(t: DbState, u: DbState, id: string)
    requires id in t.workflows && id in u.workflows
  {
    && t.workflows[id].currentSeq <= u.workflows[id].currentSeq
    && KeepsAt(t.snapshots, u.snapshots, id) && KeepsAt(t.receipts, u.receipts, id) && KeepsAt(t.deltas, u.deltas, id)
  }

  ghost predicate KeepsAt<V>(m: map<Key, V>, n: map<Key, V>, id: string) {
    forall q: int :: (id, q) in m ==> (id, q) in n && n[(id, q)] == m[(id, q)]
  }

  /** What may happen to a workflow: it appears, or it grows. */
  ghost predicate Evolves(t: DbState, u: DbState, id: string, f: Exec) {
    && WellFormed(u, id, f)
    && if id in t.workflows then id in u.workflows && Intact(u, id, f) && KeepsRows(t, u, id) else Absent(t, id)
  }

  /** A transaction that changes one workflow only. */
  ghost predicate Touches(t: DbState, u: DbState, id: string, f: Exec) {
    (forall other :: other != id ==> SameRows(t, u, other)) && Evolves(t, u, id, f)
  }

  // ---------- The transactions ----------

  lemma InsertTouches(t: DbState, id: string, goal: string, owner: string, hash: Digest, f: Exec)
    requires WellFormed(t, id, f)
    ensures match InsertWorkflow(t, id, WorkflowRow(goal, owner, "created", hash, 0, 0))
            case Ok(u) => Touches(t, u, id, f) && id in u.workflows && Blank(u, id) && u.workflows[id].stateHash == hash
            case Err(_) => true
  {
  }

  lemma FirstSnapshotTouches(t: DbState, id: string, initial: State, hash: Digest, f: Exec)
    requires ClientOk(t, Creating(id, initial, hash), f)
    ensures match PutSnapshot(t, id, 0, SnapshotRow(initial, hash))
            case Ok(u) => Touches(t, u, id, f)
            case Err(_) => false
  {
  }

  lemma ForkTouches(t: DbState, parent: string, newId: string, pointSeq: int, reason: string, kind: string, base: State, point: ForkPoint,
                    f: Exec)
    requires WellFormed(t, newId, f)
    ensures var forked := Fork(base, newId, pointSeq, reason);
            match ForkRows(t, parent, newId, pointSeq, reason, kind, point, forked, OfState(forked))
            case Ok(u) => Touches(t, u, newId, f)
            case Err(_) => true
  {
  }

  /** A fork point of an intact workflow can be read exactly when it is not negative; what is read is
      the snapshot at the point, or the last one if the point is yet to come. */
  lemma ForkPointReadsExactlyWhen(t: DbState, parent: string, pointSeq: int, f: Exec)
    requires IsIntact(t, parent, f)
    ensures var r := ReadForkSnapshot(t, parent, pointSeq);
            var n := t.workflows[parent].currentSeq;
            && (r.Some? <==> pointSeq >= 0)
            && (r.Some? ==> r.value.seqNo == (if pointSeq < n then pointSeq else n) && PointOk(t, parent, pointSeq, r.value))
  {
    LatestOfRange(t.snapshots, parent, 0, t.workflows[parent].currentSeq);
  }

  /** A fork whose point has been read is committed exactly when the new id is free.  It starts from
      the logical state that was read, and its branch row records the stored hash of the point's
      snapshot; so the row agrees with the lineage in the state exactly when that snapshot is the one
      that was read and its stored hash is the digest of its state. */
  lemma ForkSucceedsExactlyWhen(t: DbState, client: Client, f: Exec)
    requires client.PointRead? && ClientOk(t, client, f) && HashOk(t, (client.parent, client.point.snap.seqNo))
    ensures var forked := Fork(client.base, client.newId, client.pointSeq, client.reason);
            var r, k := FinishResult(t, client, f), client.point.snap.seqNo;
            && (r.Ok? <==> client.newId !in t.workflows && client.newId !in t.branches)
            && (r.Ok? ==>
                  && client.newId in r.value.branches && (client.newId, 0) in r.value.snapshots && (client.parent, k) in t.snapshots
                  && r.value.branches[client.newId]
                       == BranchRow(client.parent, client.pointSeq, t.snapshots[(client.parent, k)].stateHash, client.reason,
                                   if client.kind == "" then "fork" else client.kind)
                  && r.value.snapshots[(client.newId, 0)] == SnapshotRow(forked, OfState(forked))
                  && client.newId in r.value.workflows
                  && r.value.workflows[client.newId]
                       == WorkflowRow(client.point.parent.goal + " [" + (if client.kind == "" then "fork" else client.kind) + ": " + client.reason + "]",
                                      client.point.parent.owner, client.point.parent.stage, OfState(forked), 0, 0)
                  && Logical(forked) == Logical(client.base)
                  && (forked.lineage.value.branchPointHash == r.value.branches[client.newId].pointHash
                      <==> client.base.seqNo == k && HashMatches(t, (client.parent, k))))
  {
    ForkKeepsLogical(client.base, client.newId, client.pointSeq, client.reason);
    assert IdentifiedAt(t.snapshots[(client.parent, client.point.snap.seqNo)].state, client.parent, client.point.snap.seqNo);
  }

  const EMPTY_PLAN := NewWorkflow("", "", "").plan

  /** What hash is stored with a snapshot: the digest of its state, but for the first snapshot of a
      created workflow, where it is the digest of the state without the plan it was given. */
  ghost predicate HashOk(t: DbState, k: Key)
    requires k in t.snapshots
  {
    var row := t.snapshots[k];
    row.stateHash == OfState(if k.1 >= 1 || k.0 in t.branches then row.state else row.state.(plan := EMPTY_PLAN))
  }

  /** The stored hash of a snapshot row is the digest of its state. */
  ghost predicate HashMatches(t: DbState, k: Key)
    requires k in t.snapshots
  {
    t.snapshots[k].stateHash == OfState(t.snapshots[k].state)
  }

  /** A stored receipt names its own place. */
  lemma ReceiptKnowsItsPlace(t: DbState, k: Key, f: Exec)
    requires Sane(f) && WellFormed(t, k.0, f) && k in t.receipts
    ensures t.receipts[k].digest == OfReceipt(t.receipts[k].receipt.body)
    ensures t.receipts[k].receipt.body.workflowId == k.0 && t.receipts[k].receipt.body.seqNo == k.1
  {
    var (id, q) := k;
    assert (id, q) == k;
    assert Follows(t, id, q, f) && IdentifiedAt(t.snapshots[(id, q - 1)].state, id, q - 1);
    var op: Op :| !op.Transit? && IsOutcome(f(op, t.snapshots[(id, q - 1)].state), op, t.snapshots[k], t.receipts[k], t.deltas[k]);
    assert Receipted(t.snapshots[(id, q - 1)].state, f(op, t.snapshots[(id, q - 1)].state));
  }

  function CommitOf(t: DbState, id: string, base: State, op: Op, f: Exec): Result<DbState> {
    var out := f(op, base);
    CommitRows(t, id, Bridge(out), DeltaOf(op, out), if op.Artifact? then Some(op.digest) else None)
  }

  /** An accepted outcome is committed exactly when its base is still the latest snapshot: the
      primary key on receipts refuses every stale one, and nothing else gets in the way. */
  lemma CommitSucceedsExactlyWhenLatest(t: DbState, id: string, base: State, op: Op, f: Exec)
    requires Sane(f) && (forall w :: WellFormed(t, w, f))
    requires HoldsSnapshot(t, id, base, f)
    ensures CommitOf(t, id, base, op, f).Ok? <==> base.seqNo == t.workflows[id].currentSeq
    ensures CommitOf(t, id, base, op, f).Ok? <==> LatestSnapshot(t, id).Some? && LatestSnapshot(t, id).value.state == base
  {
    var n, q := t.workflows[id].currentSeq, base.seqNo + 1;
    assert Receipted(base, f(op, base));
    LatestOfRange(t.snapshots, id, 0, n);
    assert IdentifiedAt(t.snapshots[(id, n)].state, id, n);
    assert (id, q) in t.receipts <==> q <= n;
    assert (id, q) in t.deltas <==> q <= n;
    forall k | k in t.receipts && t.receipts[k].digest == f(op, base).receipt.digest ensures k == (id, q) {
      ReceiptKnowsItsPlace(t, k, f);
    }
  }

  /** `u` is `t` with one row more for the workflow in each table, following its last rows. */
  ghost predicate Appended(t: DbState, u: DbState, id: string, f: Exec)
    requires id in t.workflows && Intact(t, id, f)
  {
    var n := t.workflows[id].currentSeq;
    && AddsRow(t.snapshots, u.snapshots, (id, n + 1)) && AddsRow(t.receipts, u.receipts, (id, n + 1))
    && AddsRow(t.deltas, u.deltas, (id, n + 1))
    && IdentifiedAt(u.snapshots[(id, n + 1)].state, id, n + 1)
    && id in u.workflows && SummarizesRow(u.workflows[id], u.snapshots[(id, n + 1)], n + 1)
    && Follows(u, id, n + 1, f)
  }

  lemma AppendedIsIntact(t: DbState, u: DbState, id: string, f: Exec)
    requires id in t.workflows && Intact(t, id, f) && Appended(t, u, id, f)
    ensures Intact(u, id, f) && KeepsRows(t, u, id)
  {
    var n := t.workflows[id].currentSeq;
    AppendedKeepsRows(t, u, id, f);
    forall k | 1 <= k <= n ensures Follows(u, id, k, f) {
      AppendedKeepsLink(t, u, id, k, f);
    }
    assert forall k :: 0 <= k <= n ==> IdentifiedAt(t.snapshots[(id, k)].state, id, k);
  }

  lemma AppendedKeepsLink(t: DbState, u: DbState, id: string, k: int, f: Exec)
    requires id in t.workflows && Intact(t, id, f) && Appended(t, u, id, f) && 1 <= k <= t.workflows[id].currentSeq
    ensures (id, k - 1) in u.snapshots && (id, k) in u.snapshots && (id, k) in u.receipts && (id, k) in u.deltas
    ensures k > 1 ==> (id, k - 1) in u.receipts && (id, k - 1) in u.deltas
    ensures Follows(u, id, k, f)
  {
    assert Follows(t, id, k, f);
  }

  lemma AppendedKeepsRows(t: DbState, u: DbState, id: string, f: Exec)
    requires id in t.workflows && Intact(t, id, f) && Appended(t, u, id, f)
    ensures KeepsRows(t, u, id)
  {
    var n := t.workflows[id].currentSeq;
    assert (id, n + 1) !in t.snapshots && (id, n + 1) !in t.receipts && (id, n + 1) !in t.deltas;
  }

  lemma CommitTouchesOnly(t: DbState, id: string, base: State, op: Op, f: Exec)
    requires f(op, base).state.seqNo == base.seqNo + 1 && CommitOf(t, id, base, op, f).Ok?
    ensures forall other :: other != id ==> SameRows(t, CommitOf(t, id, base, op, f).value, other)
  {
  }

  /** The new rows name the last rows before them. */
  lemma CommitNamesLastRows(t: DbState, id: string, base: State, op: Op, f: Exec)
    requires f(op, base).state.seqNo == base.seqNo + 1 && CommitOf(t, id, base, op, f).Ok?
    requires RowsAt(t.receipts, id, 1, base.seqNo) && RowsAt(t.deltas, id, 1, base.seqNo)
    ensures var n, u := base.seqNo, CommitOf(t, id, base, op, f).value;
            && (id, n + 1) in u.receipts && (id, n + 1) in u.deltas
            && u.receipts[(id, n + 1)].prev == (if n < 1 then None else Some(t.receipts[(id, n)].digest))
            && u.deltas[(id, n + 1)].prev == (if n < 1 then None else Some(t.deltas[(id, n)].hash))
  {
    LatestOfRange(t.receipts, id, 1, base.seqNo);
    LatestOfRange(t.deltas, id, 1, base.seqNo);
  }

  lemma CommitFollows(t: DbState, id: string, base: State, op: Op, f: Exec)
    requires HoldsSnapshot(t, id, base, f) && Receipted(base, f(op, base)) && CommitOf(t, id, base, op, f).Ok? && !op.Transit? && f(op, base).ok
    requires base.seqNo == t.workflows[id].currentSeq
    ensures var u, n := CommitOf(t, id, base, op, f).value, base.seqNo;
            && (id, n) in u.snapshots && (id, n + 1) in u.snapshots && (id, n + 1) in u.receipts && (id, n + 1) in u.deltas
            && (n >= 1 ==> (id, n) in u.receipts && (id, n) in u.deltas)
            && Follows(u, id, n + 1, f)
  {
    CommitNamesLastRows(t, id, base, op, f);
    CommitRecordsOutcome(t, id, base, op, f);
  }

  lemma CommitAppends(t: DbState, id: string, base: State, op: Op, f: Exec)
    requires Sane(f) && (forall w :: WellFormed(t, w, f))
    requires HoldsSnapshot(t, id, base, f) && !op.Transit? && f(op, base).ok
    requires base.seqNo == t.workflows[id].currentSeq
    ensures CommitOf(t, id, base, op, f).Ok? && Appended(t, CommitOf(t, id, base, op, f).value, id, f)
  {
    CommitSucceedsExactlyWhenLatest(t, id, base, op, f);
    assert IdentifiedAt(base, id, t.workflows[id].currentSeq);
    assert Receipted(base, f(op, base));
    CommittedIsAppended(t, id, base, op, f);
  }

  lemma CommittedIsAppended(t: DbState, id: string, base: State, op: Op, f: Exec)
    requires HoldsSnapshot(t, id, base, f) && Receipted(base, f(op, base)) && CommitOf(t, id, base, op, f).Ok? && !op.Transit? && f(op, base).ok
    requires base.seqNo == t.workflows[id].currentSeq && IdentifiedAt(base, id, base.seqNo)
    ensures Appended(t, CommitOf(t, id, base, op, f).value, id, f)
  {
    CommitAddsRows(t, id, base, op, f);
    CommitFollows(t, id, base, op, f);
  }

  lemma CommitAddsRows(t: DbState, id: string, base: State, op: Op, f: Exec)
    requires Receipted(base, f(op, base)) && CommitOf(t, id, base, op, f).Ok? && IdentifiedAt(base, id, base.seqNo)
    ensures var u, n := CommitOf(t, id, base, op, f).value, base.seqNo;
            && AddsRow(t.snapshots, u.snapshots, (id, n + 1)) && AddsRow(t.receipts, u.receipts, (id, n + 1))
            && AddsRow(t.deltas, u.deltas, (id, n + 1))
            && IdentifiedAt(u.snapshots[(id, n + 1)].state, id, n + 1)
            && id in u.workflows && SummarizesRow(u.workflows[id], u.snapshots[(id, n + 1)], n + 1)
  {
  }

  ghost predicate AddsRow<V>(m: map<Key, V>, n: map<Key, V>, k: Key) {
    k in n && n == m[k := n[k]]
  }

  ghost predicate SummarizesRow(w: WorkflowRow, snap: SnapshotRow, n: int) {
    w.currentSeq == n && w.snapshotSeq == n && w.stateHash == snap.stateHash && w.stage == StageText(snap.state)
  }

  lemma CommitRecordsOutcome(t: DbState, id: string, base: State, op: Op, f: Exec)
    requires Receipted(base, f(op, base)) && CommitOf(t, id, base, op, f).Ok? && !op.Transit? && f(op, base).ok
    ensures var u, k := CommitOf(t, id, base, op, f).value, (id, base.seqNo + 1);
            && k in u.snapshots && k in u.receipts && k in u.deltas
            && IsOutcome(f(op, base), op, u.snapshots[k], u.receipts[k], u.deltas[k])
            && Committed(base, u.snapshots[k], u.receipts[k], u.deltas[k], f)
  {
  }

  lemma CommitTouches(t: DbState, id: string, base: State, op: Op, f: Exec)
    requires Sane(f) && (forall w :: WellFormed(t, w, f))
    requires HoldsSnapshot(t, id, base, f) && !op.Transit? && f(op, base).ok
    requires base.seqNo == t.workflows[id].currentSeq
    ensures CommitOf(t, id, base, op, f).Ok? && Touches(t, CommitOf(t, id, base, op, f).value, id, f)
  {
    CommitAppends(t, id, base, op, f);
    assert Receipted(base, f(op, base));
    CommitTouchesOnly(t, id, base, op, f);
    AppendedIsIntact(t, CommitOf(t, id, base, op, f).value, id, f);
  }

  // ---------- Every step keeps the invariant ----------

  /** The workflow whose rows a client depends on. */
  function Watches(client: Client): Option<string> {
    match client
    case Idle => None
    case Creating(id, _, _) => Some(id)
    case Holding(id, _, _) => Some(id)
    case Forking(parent, _, _, _, _, _, _) => Some(parent)
    case PointRead(parent, _, _, _, _, _, _) => Some(parent)
  }

  lemma HolderSurvives(t: DbState, u: DbState, id: string, base: State, f: Exec)
    requires HoldsSnapshot(t, id, base, f) && IsIntact(u, id, f) && KeepsRows(t, u, id)
    ensures HoldsSnapshot(u, id, base, f)
  {
    assert (id, base.seqNo) in t.snapshots;
  }

  ghost predicate IsIntact(u: DbState, id: string, f: Exec) {
    id in u.workflows && Intact(u, id, f)
  }

  lemma SameRowsKeeps(t: DbState, u: DbState, id: string, f: Exec)
    requires id in t.workflows && Intact(t, id, f) && SameRows(t, u, id)
    ensures IsIntact(u, id, f) && KeepsRows(t, u, id)
  {
    IntactFrame(t, u, id, f);
  }

  lemma ClientSurvives(t: DbState, u: DbState, touched: string, client: Client, f: Exec)
    requires Touches(t, u, touched, f) && ClientOk(t, client, f)
    requires client.Creating? ==> client.id != touched
    ensures ClientOk(u, client, f)
  {
    if client.Holding? || client.Forking? || client.PointRead? {
      var id := Watches(client).value;
      if id != touched {
        SameRowsKeeps(t, u, id, f);
      }
      HolderSurvives(t, u, id, client.base, f);
    } else if client.Creating? {
      assert SameRows(t, u, client.id);
    }
  }

  lemma WellFormedSurvives(t: DbState, u: DbState, touched: string, f: Exec)
    requires Touches(t, u, touched, f) && (forall id :: WellFormed(t, id, f))
    ensures forall id :: WellFormed(u, id, f)
  {
    forall id ensures WellFormed(u, id, f) {
      assert WellFormed(t, id, f);
      if id != touched {
        WellFormedFrame(t, u, id, f);
      }
    }
  }

  /** What finishing does to the tables: nothing, or one workflow evolves. */
  lemma FinishTouches(t: DbState, client: Client, f: Exec)
    requires Sane(f) && (forall w :: WellFormed(t, w, f)) && ClientOk(t, client, f)
    ensures match FinishResult(t, client, f)
            case Ok(u) => u == t || Touches(t, u, TargetOf(client), f)
            case Err(_) => true
  {
    match client
    case Idle =>
    case Creating(id, initial, hash) => FirstSnapshotTouches(t, id, initial, hash, f);
    case Holding(id, base, op) =>
      CommitSucceedsExactlyWhenLatest(t, id, base, op, f);
      if f(op, base).ok && base.seqNo == t.workflows[id].currentSeq {
        CommitTouches(t, id, base, op, f);
      }
    case Forking(_, _, _, _, _, _, _) =>
    case PointRead(parent, newId, pointSeq, reason, kind, base, point) =>
      assert WellFormed(t, newId, f);
      ForkTouches(t, parent, newId, pointSeq, reason, kind, base, point, f);
  }

  /** The workflow a client writes to. */
  function TargetOf(client: Client): string {
    match client
    case Idle => ""
    case Creating(id, _, _) => id
    case Holding(id, _, _) => id
    case Forking(_, newId, _, _, _, _, _) => newId
    case PointRead(_, newId, _, _, _, _, _) => newId
  }

  /** A workflow under creation is touched by no client but its creator. */
  lemma OthersAreNotCreating(sys: System, c: nat, f: Exec, d: nat)
    requires Inv(sys, f) && c in sys.clients && d in sys.clients && c != d && sys.clients[d].Creating?
    requires !sys.clients[c].Idle? && !sys.clients[c].Forking? && FinishResult(sys.db, sys.clients[c], f).Ok?
    ensures TargetOf(sys.clients[c]) != sys.clients[d].id
  {
    assert ClientOk(sys.db, sys.clients[c], f) && ClientOk(sys.db, sys.clients[d], f);
    if sys.clients[c].Holding? {
      assert (sys.clients[c].id, sys.clients[c].base.seqNo) in sys.db.snapshots;
    }
  }

  lemma FinishKeepsInv(sys: System, c: nat, f: Exec)
    requires Sane(f) && Inv(sys, f) && c in sys.clients
    ensures Inv(Step(sys, c, Finish, f), f)
  {
    var client, next := sys.clients[c], Step(sys, c, Finish, f);
    FinishTouches(sys.db, client, f);
    if next.db != sys.db {
      WellFormedSurvives(sys.db, next.db, TargetOf(client), f);
      forall d | d in next.clients ensures ClientOk(next.db, next.clients[d], f) {
        if d != c {
          OtherSurvivesFinish(sys, c, f, d);
        }
      }
    }
  }

  lemma OtherSurvivesFinish(sys: System, c: nat, f: Exec, d: nat)
    requires Sane(f) && Inv(sys, f) && c in sys.clients && d in sys.clients && c != d
    requires FinishResult(sys.db, sys.clients[c], f).Ok? && FinishResult(sys.db, sys.clients[c], f).value != sys.db
    ensures ClientOk(FinishResult(sys.db, sys.clients[c], f).value, sys.clients[d], f)
  {
    assert ClientOk(sys.db, sys.clients[c], f) && ClientOk(sys.db, sys.clients[d], f);
    FinishTouches(sys.db, sys.clients[c], f);
    if sys.clients[d].Creating? {
      OthersAreNotCreating(sys, c, f, d);
    }
    ClientSurvives(sys.db, FinishResult(sys.db, sys.clients[c], f).value, TargetOf(sys.clients[c]), sys.clients[d], f);
  }

  lemma BeginCreateKeepsInv(sys: System, c: nat, a: Action, f: Exec)
    requires Inv(sys, f) && a.BeginCreate?
    ensures Inv(Step(sys, c, a, f), f)
  {
    var next := Step(sys, c, a, f);
    if next != sys {
      assert WellFormed(sys.db, a.id, f);
      InsertTouches(sys.db, a.id, a.goal, a.owner, OfState(NewWorkflow(a.id, a.goal, a.owner)), f);
      WellFormedSurvives(sys.db, next.db, a.id, f);
      forall d | d in next.clients ensures ClientOk(next.db, next.clients[d], f) {
        if d != c {
          assert ClientOk(sys.db, sys.clients[d], f);
          ClientSurvives(sys.db, next.db, a.id, sys.clients[d], f);
        }
      }
    }
  }

  lemma LatestIsHeld(t: DbState, id: string, f: Exec)
    requires WellFormed(t, id, f) && LatestSnapshot(t, id).Some?
    ensures HoldsSnapshot(t, id, LatestSnapshot(t, id).value.state, f)
    ensures LatestSnapshot(t, id) == Some(t.snapshots[(id, t.workflows[id].currentSeq)])
  {
    var q := LatestSeq(t.snapshots, id).value;
    assert (id, q) in t.snapshots;
    LatestOfRange(t.snapshots, id, 0, t.workflows[id].currentSeq);
    assert IdentifiedAt(t.snapshots[(id, q)].state, id, q);
  }

  /** Each step of each client keeps the invariant. */
  lemma StepKeepsInv(sys: System, c: nat, a: Action, f: Exec)
    requires Sane(f) && Inv(sys, f)
    ensures Inv(Step(sys, c, a, f), f)
  {
    match a
    case Crash =>
    case Finish =>
      if c in sys.clients {
        FinishKeepsInv(sys, c, f);
      }
    case BeginCreate(_, _, _, _) => BeginCreateKeepsInv(sys, c, a, f);
    case BeginOp(id, op) =>
      if LatestSnapshot(sys.db, id).Some? {
        assert WellFormed(sys.db, id, f);
        LatestIsHeld(sys.db, id, f);
      }
    case BeginFork(parent, _, _, _, _) =>
      if LatestSnapshot(sys.db, parent).Some? {
        assert WellFormed(sys.db, parent, f);
        LatestIsHeld(sys.db, parent, f);
      }
    case ReadPoint => ReadPointKeepsInv(sys, c, f);
  }

  lemma ReadPointKeepsInv(sys: System, c: nat, f: Exec)
    requires Inv(sys, f)
    ensures Inv(Step(sys, c, ReadPoint, f), f)
  {
    var client := ClientOf(sys, c);
    if client.Forking? {
      assert ClientOk(sys.db, sys.clients[c], f);
      ForkPointReadsExactlyWhen(sys.db, client.parent, client.pointSeq, f);
    }
  }

  lemma {:induction false} ExecuteKeepsInv(sys: System, schedule: seq<(nat, Action)>, f: Exec)
    requires Sane(f) && Inv(sys, f)
    ensures Inv(Execute(sys, schedule, f), f)
    decreases |schedule|
  {
    if schedule != [] {
      var front, last := schedule[..|schedule| - 1], schedule[|schedule| - 1];
      ExecuteKeepsInv(sys, front, f);
      StepKeepsInv(Execute(sys, front, f), last.0, last.1, f);
    }
  }
}
