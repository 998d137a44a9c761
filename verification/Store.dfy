/** The store: tables updated in place, one transaction at a time
    (acpd/internal/store/commit.go, workflows.go, branches.go, db.go). */
module Store {
  import opened Records
  import opened Tables

  class DB {
    var workflows: map<string, WorkflowRow>
    var snapshots: map<Key, SnapshotRow>
    var receipts: map<Key, ReceiptRow>
    var deltas: map<Key, DeltaRow>
    var artifacts: map<Digest, string>
    var branches: map<string, BranchRow>

    function View(): DbState
      reads this
    {
      DbState(workflows, snapshots, receipts, deltas, artifacts, branches)
    }

    constructor ()
      ensures View() == EMPTY
    {
      workflows, snapshots, receipts, deltas, artifacts, branches := map[], map[], map[], map[], map[], map[];
    }

    method CreateWorkflow(id: string, row: WorkflowRow) returns (err: Option<StoreError>)
      modifies this
      ensures match InsertWorkflow(old(View()), id, row)
              case Ok(t) => err == None && View() == t
              case Err(e) => err == Some(e) && View() == old(View())
    {
      if id in workflows {
        return Some(WorkflowExists);
      }
      workflows := workflows[id := row];
      return None;
    }

    method SaveSnapshot(id: string, seqNo: int, row: SnapshotRow) returns (err: Option<StoreError>)
      modifies this
      ensures match PutSnapshot(old(View()), id, seqNo, row)
              case Ok(t) => err == None && View() == t
              case Err(e) => err == Some(e) && View() == old(View())
    {
      if id !in workflows {
        return Some(NoWorkflow);
      }
      snapshots := snapshots[(id, seqNo) := row];
      return None;
    }

    /** INSERT INTO receipts. */
    method InsertReceipt(id: string, seqNo: int, row: ReceiptRow) returns (err: Option<StoreError>)
      modifies this`receipts
      ensures if ReceiptTaken(old(View()), id, seqNo, row.digest) then err == Some(ReceiptExists) && receipts == old(receipts)
              else err == None && receipts == old(receipts)[(id, seqNo) := row]
    {
      if (id, seqNo) in receipts || exists k :: k in receipts && receipts[k].digest == row.digest {
        return Some(ReceiptExists);
      }
      receipts := receipts[(id, seqNo) := row];
      return None;
    }

    /** INSERT INTO deltas. */
    method InsertDelta(id: string, seqNo: int, row: DeltaRow) returns (err: Option<StoreError>)
      modifies this`deltas
      ensures if (id, seqNo) in old(deltas) then err == Some(DeltaExists) && deltas == old(deltas)
              else err == None && deltas == old(deltas)[(id, seqNo) := row]
    {
      if (id, seqNo) in deltas {
        return Some(DeltaExists);
      }
      deltas := deltas[(id, seqNo) := row];
      return None;
    }

    /** The transaction of CommitTransition: a failure part way rolls everything back. */
    method CommitTransition(id: string, r: TransitionResult, patches: seq<Patch>, kind: string, actorId: string)
      returns (err: Option<StoreError>)
      modifies this
      ensures match CommitRows(old(View()), id, r,
                               Delta(r.seqNo, kind, actorId, patches, [], r.receipt.body.stateBeforeHash, r.stateHash, r.receiptDigest), None)
              case Ok(t) => err == None && View() == t
              case Err(e) => err == Some(e) && View() == old(View())
    {
      if id !in workflows {
        return Some(NoWorkflow);
      }
      var prevReceipt := LastReceiptDigest(View(), id);
      var prevDelta := LastDeltaHash(View(), id);
      var savedReceipts := receipts;
      err := InsertReceipt(id, r.seqNo, ReceiptRow(r.receiptDigest, r.receipt, prevReceipt));
      if err != None {
        return;
      }
      var body := Delta(r.seqNo, kind, actorId, patches, [], r.receipt.body.stateBeforeHash, r.stateHash, r.receiptDigest);
      err := InsertDelta(id, r.seqNo, DeltaRow(body, OfDelta(body), prevDelta));
      if err != None {
        receipts := savedReceipts;
        return;
      }
      snapshots := snapshots[(id, r.seqNo) := SnapshotRow(r.state, r.stateHash)];
      var row := workflows[id];
      workflows := workflows[id := row.(stage := StageText(r.state), stateHash := r.stateHash, currentSeq := r.seqNo, snapshotSeq := r.seqNo)];
    }

    /** The transaction of CommitArtifact; the artifact row is insert-or-ignore. */
    method CommitArtifactRow(id: string, artifact: Digest, r: TransitionResult, actorId: string) returns (err: Option<StoreError>)
      modifies this
      ensures match CommitRows(old(View()), id, r,
                               Delta(r.seqNo, "artifact_committed", actorId, [], [artifact], r.receipt.body.stateBeforeHash, r.stateHash, r.receiptDigest),
                               Some(artifact))
              case Ok(t) => err == None && View() == t
              case Err(e) => err == Some(e) && View() == old(View())
    {
      if id !in workflows {
        return Some(NoWorkflow);
      }
      var savedArtifacts, savedReceipts := artifacts, receipts;
      if artifact !in artifacts {
        artifacts := artifacts[artifact := id];
      }
      var prevReceipt := LastReceiptDigest(View(), id);
      var prevDelta := LastDeltaHash(View(), id);
      err := InsertReceipt(id, r.seqNo, ReceiptRow(r.receiptDigest, r.receipt, prevReceipt));
      if err != None {
        artifacts := savedArtifacts;
        return;
      }
      var body := Delta(r.seqNo, "artifact_committed", actorId, [], [artifact], r.receipt.body.stateBeforeHash, r.stateHash, r.receiptDigest);
      err := InsertDelta(id, r.seqNo, DeltaRow(body, OfDelta(body), prevDelta));
      if err != None {
        artifacts, receipts := savedArtifacts, savedReceipts;
        return;
      }
      snapshots := snapshots[(id, r.seqNo) := SnapshotRow(r.state, r.stateHash)];
      var row := workflows[id];
      workflows := workflows[id := row.(stage := StageText(r.state), stateHash := r.stateHash, currentSeq := r.seqNo, snapshotSeq := r.seqNo)];
    }

    /** CommitFork: the parent is read first, outside the transaction that writes the rows. */
    method CommitFork(parent: string, newId: string, pointSeq: int, reason: string, kind: string, forked: State, forkedHash: Digest)
      returns (err: Option<StoreError>)
      modifies this
      ensures var point := ReadForkPoint(old(View()), parent, pointSeq);
              if point.Err? then err == Some(point.error) && View() == old(View())
              else
                match ForkRows(old(View()), parent, newId, pointSeq, reason, kind, point.value, forked, forkedHash)
                case Ok(t) => err == None && View() == t
                case Err(e) => err == Some(e) && View() == old(View())
    {
      var snap := ReadForkSnapshot(View(), parent, pointSeq);
      if snap.None? {
        return Some(NoSnapshot);
      }
      if parent !in workflows {
        return Some(NoWorkflow);
      }
      var p := workflows[parent];
      err := InsertFork(parent, newId, pointSeq, reason, kind, ForkPoint(p, snap.value), forked, forkedHash);
    }

    /** The transaction of CommitFork. */
    method InsertFork(parent: string, newId: string, pointSeq: int, reason: string, kind: string, point: ForkPoint,
                      forked: State, forkedHash: Digest) returns (err: Option<StoreError>)
      modifies this
      ensures match ForkRows(old(View()), parent, newId, pointSeq, reason, kind, point, forked, forkedHash)
              case Ok(t) => err == None && View() == t
              case Err(e) => err == Some(e) && View() == old(View())
    {
      var forkKind := kind;
      if forkKind == "" {
        forkKind := "fork";
      }
      if newId in workflows {
        return Some(WorkflowExists);
      }
      var savedWorkflows, savedSnapshots := workflows, snapshots;
      var p := point.parent;
      workflows := workflows[newId := WorkflowRow(p.goal + " [" + forkKind + ": " + reason + "]", p.owner, p.stage, forkedHash, 0, 0)];
      snapshots := snapshots[(newId, 0) := SnapshotRow(forked, forkedHash)];
      if newId in branches {
        workflows, snapshots := savedWorkflows, savedSnapshots;
        return Some(BranchExists);
      }
      branches := branches[newId := BranchRow(parent, pointSeq, point.snap.hash, reason, forkKind)];
      return None;
    }
  }
}
