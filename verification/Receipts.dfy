/** Receipts and the hash chain over them (src/acp/receipt.fard). */
module Receipts {
  import opened Records

  function MakeStateReceipt(workflowId: string, seqNo: int, kind: string, actor: string, before: State, input: Input,
                            policyVersion: string, toolVersion: string, artifacts: seq<Digest>, after: State): Receipt {
    var body := ReceiptBody(workflowId, seqNo, kind, actor, OfState(before), OfInput(input),
                            policyVersion, OfText(policyVersion), toolVersion, OfText(toolVersion), artifacts, OfState(after));
    Receipt(body, OfReceipt(body))
  }

  predicate VerifyStateReceipt(r: Receipt, before: State, input: Input, after: State) {
    && r.body.stateBeforeHash == OfState(before)
    && r.body.inputHash == OfInput(input)
    && r.body.stateAfterHash == OfState(after)
    && r.digest == OfReceipt(r.body)
  }

  function AppendChain(prev: Digest, r: Receipt): Digest {
    OfLink(prev, r.digest)
  }

  function FoldChain(root: Digest, receipts: seq<Receipt>): Digest
    decreases receipts
  {
    if receipts == [] then root else FoldChain(AppendChain(root, receipts[0]), receipts[1..])
  }

  const GENESIS := OfText("genesis")

  function ChainRoot(receipts: seq<Receipt>): Digest {
    FoldChain(GENESIS, receipts)
  }

  function Digests(receipts: seq<Receipt>): (r: seq<Digest>)
    ensures |r| == |receipts|
  {
    seq(|receipts|, i requires 0 <= i < |receipts| => receipts[i].digest)
  }

  lemma {:induction false} FoldChainSplits(root: Digest, a: seq<Receipt>, b: seq<Receipt>)
    ensures FoldChain(root, a + b) == FoldChain(FoldChain(root, a), b)
    decreases a
  {
    if a == [] {
      assert a + b == b;
    } else {
      assert (a + b)[1..] == a[1..] + b;
      FoldChainSplits(AppendChain(root, a[0]), a[1..], b);
    }
  }

  lemma FoldChainLast(root: Digest, receipts: seq<Receipt>)
    requires receipts != []
    ensures FoldChain(root, receipts)
         == OfLink(FoldChain(root, receipts[..|receipts| - 1]), receipts[|receipts| - 1].digest)
  {
    var front, last := receipts[..|receipts| - 1], receipts[|receipts| - 1];
    assert receipts == front + [last];
    FoldChainSplits(root, front, [last]);
    assert FoldChain(FoldChain(root, front), [last]) == AppendChain(FoldChain(root, front), last);
  }

  /** The root starts at the digest of the word "genesis", and each receipt's digest is linked onto it. */
  lemma ChainRootLinks(receipts: seq<Receipt>, r: Receipt)
    ensures ChainRoot([]) == OfText("genesis")
    ensures ChainRoot(receipts + [r]) == OfLink(ChainRoot(receipts), r.digest)
  {
    FoldChainLast(GENESIS, receipts + [r]);
    assert (receipts + [r])[..|receipts|] == receipts;
  }

  /** The chain root pins down the whole list of receipt digests: no insertion, removal,
      reordering or truncation keeps it. */
  lemma {:induction false} ChainRootIsInjective(a: seq<Receipt>, b: seq<Receipt>)
    ensures ChainRoot(a) == ChainRoot(b) <==> Digests(a) == Digests(b)
  {
    if a != [] { FoldChainLast(GENESIS, a); }
    if b != [] { FoldChainLast(GENESIS, b); }
    if a != [] && b != [] {
      var a', b' := a[..|a| - 1], b[..|b| - 1];
      ChainRootIsInjective(a', b');
      assert Digests(a) == Digests(a') + [a[|a| - 1].digest];
      assert Digests(b) == Digests(b') + [b[|b| - 1].digest];
      if Digests(a) == Digests(b) {
        assert Digests(a') == Digests(a)[..|a| - 1] && Digests(b') == Digests(b)[..|b| - 1];
      }
    } else if a == [] && b == [] {
    } else {
      assert |Digests(a)| != |Digests(b)|;
    }
  }
}
