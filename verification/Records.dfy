/** The records the control plane passes around, and the digests over them.

    A digest is a free constructor over the record it hashes, so two digests are
    equal exactly when the hashed records are.  States hold digests and digests
    hold states, which is why the records are declared together. */
module Records {
  datatype Option<+T> = None | Some(value: T)

  /** A JSON value.  `Fault` stands for the result of an operation that the FARD
      interpreter refuses, such as setting a key of something that is not a record. */
  datatype Value =
    | Null
    | Bool(b: bool)
    | Num(n: int)
    | Str(s: string)
    | List(items: seq<Value>)
    | Rec(fields: map<string, Value>)
    | Hash(digest: Digest)
    | GateValue(gate: Gate)
    | Fault

  datatype Patch = Patch(path: string, value: Value)

  /** The `patches` key of an input, where there is one. */
  datatype PatchList = NoPatches | Patches(list: seq<Patch>)

  datatype Actor = Actor(id: string, roles: seq<string>)

  /** The input record of a transition; a missing key is `None`. */
  datatype Input = Input(
    tool: Option<string>,
    amount: Option<int>,
    classification: Option<string>,
    destination: Option<string>,
    patches: PatchList)

  datatype Violation = Violation(code: string, message: string, ruleId: string, severity: string, data: Value)

  datatype EventBody =
    | StateTransition(seqNo: int, actor: string, receiptDigest: Digest)
    | HumanEdit(seqNo: int, user: string, patches: seq<Patch>)
    | PolicyViolation(seqNo: int, actor: string, violation: Violation)

  datatype Event = Event(body: EventBody, digest: Digest)

  datatype Branch = Branch(
    branchId: string,
    parentId: string,
    branchPointSeq: int,
    branchPointHash: Digest,
    reason: string,
    createdAtDigest: Digest)

  datatype State = State(
    workflowId: string,
    goal: Value,
    owner: Value,
    stage: Value,
    seqNo: int,
    plan: Value,
    artifacts: seq<Digest>,
    approvals: seq<Value>,
    violations: seq<Violation>,
    timeline: seq<Event>,
    variables: Value,
    finalDecision: Value,
    patchError: Option<Patch>,
    lineage: Option<Branch>)

  datatype GateBody = GateBody(token: Digest, kind: string, input: Input, actorId: string, deadlineSeq: int, context: Value)

  datatype Gate = Gate(body: GateBody, digest: Digest)

  datatype ReceiptBody = ReceiptBody(
    workflowId: string,
    seqNo: int,
    kind: string,
    actor: string,
    stateBeforeHash: Digest,
    inputHash: Digest,
    policyVersion: string,
    policyDigest: Digest,
    toolVersion: string,
    toolDigest: Digest,
    artifactDigests: seq<Digest>,
    stateAfterHash: Digest)

  datatype Receipt = Receipt(body: ReceiptBody, digest: Digest)

  datatype Delta = Delta(
    seqNo: int,
    kind: string,
    actor: string,
    patches: seq<Patch>,
    artifactDigests: seq<Digest>,
    stateBeforeHash: Digest,
    stateAfterHash: Digest,
    receiptDigest: Digest)

  datatype LogicalSnapshot = LogicalSnapshot(
    stage: Value,
    variables: Value,
    finalDecision: Value,
    artifactCount: nat,
    approvalCount: nat)

  datatype PayloadBody = PayloadBody(workflowId: string, seqFrom: int, seqTo: int, chainRoot: Digest, policyVersion: string)

  datatype Payload = Payload(body: PayloadBody, payloadDigest: Digest)

  datatype ProofBody = ProofBody(payload: Payload, externalRef: Value, anchoredBy: string)

  datatype Proof = Proof(body: ProofBody, proofDigest: Digest)

  datatype Digest =
    | OfText(text: string)
    | OfState(state: State)
    | OfInput(input: Input)
    | OfReceipt(receipt: ReceiptBody)
    | OfDelta(delta: Delta)
    | OfEvent(event: EventBody)
    | OfTransitionEvent(seqNo: int, actor: string, artifact: Option<Digest>)
    | OfGateRequest(kind: string, input: Input, actor: string, seqNo: int)
    | OfGate(gate: GateBody)
    | OfBranchPoint(branchId: string, parentId: string, seqNo: int)
    | OfSnapshot(snapshot: LogicalSnapshot)
    | OfLink(prev: Digest, next: Digest)
    | OfPayload(payload: PayloadBody)
    | OfProof(proof: ProofBody)
    | External(name: string)
}
