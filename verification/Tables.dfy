/** The store's tables as values, and what each transaction does to them
    (acpd/internal/store/commit.go, workflows.go, branches.go; acpd/migrations/001_initial.sql). */
module Tables {
  import opened Lists
  import opened Records
  import opened Runs

  /** Primary key of the per-workflow tables: workflow id and sequence number. */
  type Key = (string, int)

  datatype WorkflowRow = WorkflowRow(goal: string, owner: string, stage: string, stateHash: Digest, currentSeq: int, snapshotSeq: int)

  datatype SnapshotRow = SnapshotRow(state: State, stateHash: Digest)

  datatype ReceiptRow = ReceiptRow(digest: Digest, receipt: Receipt, prev: Option<Digest>)

  datatype DeltaRow = DeltaRow(delta: Delta, hash: Digest, prev: Option<Digest>)

  datatype BranchRow = BranchRow(parentId: string, pointSeq: int, pointHash: Digest, reason: string, kind: string)

  datatype DbState = DbState(
    workflows: map<string, WorkflowRow>,
    snapshots: map<Key, SnapshotRow>,
    receipts: map<Key, ReceiptRow>,
    deltas: map<Key, DeltaRow>,
    artifacts: map<Digest, string>,
    branches: map<string, BranchRow>)

  const EMPTY := DbState(map[], map[], map[], map[], map[], map[])

  datatype StoreError = WorkflowExists | NoWorkflow | NoSnapshot | ReceiptExists | DeltaExists | BranchExists

  datatype Result<T> = Ok(value: T) | Err(error: StoreError)

  /** What the bridge hands to a commit. */
  datatype TransitionResult = TransitionResult(
    ok: bool, state: State, stateHash: Digest, receipt: Receipt, receiptDigest: Digest, seqNo: int)

  function Bridge(out: Outcome): TransitionResult {
    TransitionResult(out.ok, out.state, OfState(out.state), out.receipt, out.receipt.digest, out.state.seqNo)
  }

  // ---------- Reads ----------

  function SeqsOf<V>(m: map<Key, V>, id: string): set<int> {
    set k | k in m && k.0 == id :: k.1
  }

  /** ORDER BY seq DESC LIMIT 1. */
  function Greatest(xs: set<int>): (r: Option<int>)
    ensures r.None? <==> xs == {}
    ensures r.Some? ==> r.value in xs && forall x :: x in xs ==> x <= r.value
  {
    if xs == {} then None
    else
      MaximumExists(xs);
      var m :| m in xs && forall x :: x in xs ==> x <= m;
      Some(m)
  }

  function LatestSeq<V>(m: map<Key, V>, id: string): (r: Option<int>)
    ensures r.Some? ==> (id, r.value) in m
    ensures r.None? ==> forall q :: (id, q) !in m
  {
    var r := Greatest(SeqsOf(m, id));
    assert r.None? ==> forall q :: (id, q) in m ==> (id, q).1 in SeqsOf(m, id);
    r
  }

  function LatestSeqUpTo<V>(m: map<Key, V>, id: string, bound: int): (r: Option<int>)
    ensures r.Some? ==> (id, r.value) in m && r.value <= bound
  {
    Greatest(set q | q in SeqsOf(m, id) && q <= bound)
  }

  function LatestSnapshot(t: DbState, id: string): Option<SnapshotRow> {
    var q := LatestSeq(t.snapshots, id);
    if q.Some? then Some(t.snapshots[(id, q.value)]) else None
  }

  function SnapshotAtSeq(t: DbState, id: string, seqNo: int): Option<SnapshotRow> {
    var q := LatestSeqUpTo(t.snapshots, id, seqNo);
    if q.Some? then Some(t.snapshots[(id, q.value)]) else None
  }

  function LastReceiptDigest(t: DbState, id: string): Option<Digest> {
    var q := LatestSeq(t.receipts, id);
    if q.Some? then Some(t.receipts[(id, q.value)].digest) else None
  }

  function LastDeltaHash(t: DbState, id: string): Option<Digest> {
    var q := LatestSeq(t.deltas, id);
    if q.Some? then Some(t.deltas[(id, q.value)].hash) else None
  }

  /** The stage column: the state's stage when that is text, else empty. */
  function StageText(s: State): string {
    if s.stage.Str? then s.stage.s else ""
  }

  // ---------- Transactions ----------

  function InsertWorkflow(t: DbState, id: string, row: WorkflowRow): Result<DbState> {
    if id in t.workflows then Err(WorkflowExists) else Ok(t.(workflows := t.workflows[id := row]))
  }

  /** INSERT OR REPLACE, under the foreign key on workflows. */
  function PutSnapshot(t: DbState, id: string, seqNo: int, row: SnapshotRow): Result<DbState> {
    if id !in t.workflows then Err(NoWorkflow) else Ok(t.(snapshots := t.snapshots[(id, seqNo) := row]))
  }

  /** The receipts table refuses a used (workflow, seq) and a used digest. */
  predicate ReceiptTaken(t: DbState, id: string, seqNo: int, digest: Digest) {
    (id, seqNo) in t.receipts || exists k :: k in t.receipts && t.receipts[k].digest == digest
  }

  /** Receipt, delta, snapshot and summary row of one transition, all or none. */
  function CommitRows(t: DbState, id: string, r: TransitionResult, d: Delta, artifact: Option<Digest>): Result<DbState> {
    if id !in t.workflows then Err(NoWorkflow)
    else if ReceiptTaken(t, id, r.seqNo, r.receiptDigest) then Err(ReceiptExists)
    else if (id, r.seqNo) in t.deltas then Err(DeltaExists)
    else
      Ok(t.(receipts := t.receipts[(id, r.seqNo) := ReceiptRow(r.receiptDigest, r.receipt, LastReceiptDigest(t, id))],
            deltas := t.deltas[(id, r.seqNo) := DeltaRow(d, OfDelta(d), LastDeltaHash(t, id))],
            snapshots := t.snapshots[(id, r.seqNo) := SnapshotRow(r.state, r.stateHash)],
            workflows := t.workflows[id := t.workflows[id].(
              stage := StageText(r.state), stateHash := r.stateHash, currentSeq := r.seqNo, snapshotSeq := r.seqNo)],
            artifacts := if artifact.Some? && artifact.value !in t.artifacts then t.artifacts[artifact.value := id] else t.artifacts))
  }

  /** What a fork reads before its transaction, in two queries: the snapshot at or before the point, and
      the parent's summary row. */
  datatype SnapshotRead = SnapshotRead(seqNo: int, hash: Digest)

  datatype ForkPoint = ForkPoint(parent: WorkflowRow, snap: SnapshotRead)

  function ReadForkSnapshot(t: DbState, parent: string, pointSeq: int): Option<SnapshotRead> {
    var q := LatestSeqUpTo(t.snapshots, parent, pointSeq);
    if q.None? then None else Some(SnapshotRead(q.value, t.snapshots[(parent, q.value)].stateHash))
  }

  /** Both queries, one right after the other. */
  function ReadForkPoint(t: DbState, parent: string, pointSeq: int): Result<ForkPoint> {
    var snap := ReadForkSnapshot(t, parent, pointSeq);
    if snap.None? then Err(NoSnapshot)
    else if parent !in t.workflows then Err(NoWorkflow)
    else Ok(ForkPoint(t.workflows[parent], snap.value))
  }

  function KindOr(kind: string): string {
    if kind == "" then "fork" else kind
  }

  function ForkGoal(goal: string, kind: string, reason: string): string {
    goal + " [" + KindOr(kind) + ": " + reason + "]"
  }

  function ForkRows(t: DbState, parent: string, newId: string, pointSeq: int, reason: string, kind: string,
                    point: ForkPoint, forked: State, forkedHash: Digest): Result<DbState> {
    if newId in t.workflows then Err(WorkflowExists)
    else if newId in t.branches then Err(BranchExists)
    else
      var row := point.parent.(goal := ForkGoal(point.parent.goal, kind, reason), stateHash := forkedHash, currentSeq := 0, snapshotSeq := 0);
      Ok(t.(workflows := t.workflows[newId := row],
            snapshots := t.snapshots[(newId, 0) := SnapshotRow(forked, forkedHash)],
            branches := t.branches[newId := BranchRow(parent, pointSeq, point.snap.hash, reason, KindOr(kind))]))
  }

  /** The rows of one workflow are the same in both. */
  ghost predicate SameRows(t: DbState, u: DbState, id: string) {
    && (id in t.workflows <==> id in u.workflows)
    && (id in t.workflows ==> t.workflows[id] == u.workflows[id])
    && SameAt(t.snapshots, u.snapshots, id) && SameAt(t.receipts, u.receipts, id) && SameAt(t.deltas, u.deltas, id)
  }

  ghost predicate SameAt<V>(m: map<Key, V>, n: map<Key, V>, id: string) {
    forall q: int :: ((id, q) in m <==> (id, q) in n) && ((id, q) in m ==> m[(id, q)] == n[(id, q)])
  }

  /** The workflow has rows at exactly lo..hi. */
  ghost predicate RowsAt<V>(m: map<Key, V>, id: string, lo: int, hi: int) {
    forall q: int :: (id, q) in m <==> lo <= q <= hi
  }

  lemma LatestOfRange<V>(m: map<Key, V>, id: string, lo: int, hi: int)
    requires RowsAt(m, id, lo, hi)
    ensures LatestSeq(m, id) == if lo <= hi then Some(hi) else None
    ensures forall q :: LatestSeqUpTo(m, id, q) == if lo <= q && lo <= hi then Some(if q < hi then q else hi) else None
  {
    var seqs := SeqsOf(m, id);
    forall q: int ensures q in seqs <==> lo <= q <= hi {
      assert (id, q) in m ==> (id, q).1 in seqs;
    }
    assert lo <= hi ==> lo in seqs && hi in seqs;
    forall q: int ensures LatestSeqUpTo(m, id, q) == if lo <= q && lo <= hi then Some(if q < hi then q else hi) else None {
      var below := set x | x in seqs && x <= q;
      assert lo <= q && lo <= hi ==> lo in below && (if q < hi then q else hi) in below;
    }
  }
}
