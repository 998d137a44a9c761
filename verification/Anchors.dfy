/** External anchors: payloads, proofs, and the sequence numbers still unanchored
    (src/acp/anchor.fard and acpd/internal/store/anchors.go). */
module Anchors {
  import opened Records
  import opened Numbers
  import opened Lists
  import opened Receipts

  // ---------- Payloads and proofs ----------

  function MakePayload(workflowId: string, seqFrom: int, seqTo: int, chainRoot: Digest, policyVersion: string): Payload {
    var body := PayloadBody(workflowId, seqFrom, seqTo, chainRoot, policyVersion);
    Payload(body, OfPayload(body))
  }

  function MakeProof(payload: Payload, externalRef: Value, anchoredBy: string): Proof {
    var body := ProofBody(payload, externalRef, anchoredBy);
    Proof(body, OfProof(body))
  }

  predicate VerifyPayload(payload: Payload, receipts: seq<Receipt>) {
    payload.body.chainRoot == ChainRoot(receipts) && payload.payloadDigest == OfPayload(payload.body)
  }

  predicate VerifyProof(proof: Proof, receipts: seq<Receipt>) {
    VerifyPayload(proof.body.payload, receipts) && proof.proofDigest == OfProof(proof.body)
  }

  /** A fresh proof verifies against exactly the receipt lists with the anchored digests. */
  lemma FreshProofPinsReceipts(workflowId: string, seqFrom: int, seqTo: int, anchored: seq<Receipt>, policyVersion: string,
                               externalRef: Value, anchoredBy: string, presented: seq<Receipt>)
    ensures var proof := MakeProof(MakePayload(workflowId, seqFrom, seqTo, ChainRoot(anchored), policyVersion), externalRef, anchoredBy);
            VerifyProof(proof, presented) <==> Digests(presented) == Digests(anchored)
  {
    ChainRootIsInjective(anchored, presented);
  }

  /** So an anchor stops verifying once the list it is checked against has grown. */
  lemma AnchorStopsAtGrowth(workflowId: string, seqFrom: int, seqTo: int, anchored: seq<Receipt>, policyVersion: string,
                            externalRef: Value, anchoredBy: string, more: seq<Receipt>)
    ensures var proof := MakeProof(MakePayload(workflowId, seqFrom, seqTo, ChainRoot(anchored), policyVersion), externalRef, anchoredBy);
            VerifyProof(proof, anchored + more) <==> more == []
  {
    FreshProofPinsReceipts(workflowId, seqFrom, seqTo, anchored, policyVersion, externalRef, anchoredBy, anchored + more);
    assert |Digests(anchored + more)| == |Digests(anchored)| + |more|;
    if more == [] {
      assert anchored + more == anchored;
    }
  }

  /** A payload names its workflow, root and policy version as given, and is tied to them: with any field
      changed, and the digest kept, it no longer verifies. */
  lemma PayloadIsTamperEvident(workflowId: string, seqFrom: int, seqTo: int, root: Digest, policyVersion: string, body: PayloadBody,
                               receipts: seq<Receipt>)
    ensures var payload := MakePayload(workflowId, seqFrom, seqTo, root, policyVersion);
            && payload.body.workflowId == workflowId && payload.body.seqFrom == seqFrom && payload.body.seqTo == seqTo
            && payload.body.chainRoot == root && payload.body.policyVersion == policyVersion
            && (VerifyPayload(payload.(body := body), receipts) <==> body == payload.body && ChainRoot(receipts) == root)
  {
  }

  /** So is a proof, to its payload, its reference and who made it. */
  lemma ProofIsTamperEvident(payload: Payload, externalRef: Value, anchoredBy: string, body: ProofBody, receipts: seq<Receipt>)
    ensures var proof := MakeProof(payload, externalRef, anchoredBy);
            && proof.body.payload == payload && proof.body.externalRef == externalRef && proof.body.anchoredBy == anchoredBy
            && (VerifyProof(proof.(body := body), receipts) <==> body == proof.body && VerifyPayload(payload, receipts))
  {
  }

  // ---------- Unanchored ranges ----------

  datatype Range = Range(from: int, to: int)

  predicate Covered(ranges: seq<Range>, q: int) {
    exists r :: r in ranges && r.from <= q <= r.to
  }

  ghost predicate NonEmpty(ranges: seq<Range>) {
    forall r :: r in ranges ==> r.from <= r.to
  }

  /** `gaps` lists, in order, the maximal uncovered runs of lo..hi. */
  ghost predicate IsGapList(gaps: seq<Range>, ranges: seq<Range>, lo: int, hi: int) {
    && (forall g :: g in gaps ==> IsMaximalRun(g, ranges, lo, hi))
    && (forall i, j :: 0 <= i < j < |gaps| ==> gaps[i].to < gaps[j].from)
    && (forall q :: lo <= q <= hi && !Covered(ranges, q) ==> InSome(gaps, q))
  }

  ghost predicate InSome(gaps: seq<Range>, q: int) {
    exists g :: g in gaps && g.from <= q <= g.to
  }

  ghost predicate IsMaximalRun(g: Range, ranges: seq<Range>, lo: int, hi: int) {
    && lo <= g.from <= g.to <= hi
    && (forall q :: g.from <= q <= g.to ==> !Covered(ranges, q))
    && (g.from == lo || Covered(ranges, g.from - 1))
    && (g.to == hi || Covered(ranges, g.to + 1))
  }

  lemma EmptyMeansAllCovered(gaps: seq<Range>, ranges: seq<Range>, lo: int, hi: int)
    requires IsGapList(gaps, ranges, lo, hi)
    ensures gaps == [] <==> forall q :: lo <= q <= hi ==> Covered(ranges, q)
  {
    if gaps != [] {
      assert gaps[0] in gaps && !Covered(ranges, gaps[0].from);
    }
  }

  lemma {:induction false} GapListIsUnique(a: seq<Range>, b: seq<Range>, ranges: seq<Range>, lo: int, hi: int)
    requires IsGapList(a, ranges, lo, hi) && IsGapList(b, ranges, lo, hi)
    ensures a == b
    decreases |a|
  {
    BothOrNeitherEmpty(a, b, ranges, lo, hi);
    if a != [] {
      var a', b' := a[1..], b[1..];
      FirstGapsAgree(a, b, ranges, lo, hi);
      RestIsGapList(a, ranges, lo, hi);
      RestIsGapList(b, ranges, lo, hi);
      GapListIsUnique(a', b', ranges, a[0].to + 1, hi);
      assert a == [a[0]] + a' && b == [b[0]] + b';
    }
  }

  lemma BothOrNeitherEmpty(a: seq<Range>, b: seq<Range>, ranges: seq<Range>, lo: int, hi: int)
    requires IsGapList(a, ranges, lo, hi) && IsGapList(b, ranges, lo, hi)
    ensures a == [] <==> b == []
  {
    EmptyMeansAllCovered(a, ranges, lo, hi);
    EmptyMeansAllCovered(b, ranges, lo, hi);
  }

  /** Nothing before the first gap is uncovered. */
  lemma CoveredBeforeFirst(a: seq<Range>, ranges: seq<Range>, lo: int, hi: int, q: int)
    requires IsGapList(a, ranges, lo, hi) && a != []
    requires lo <= q < a[0].from
    ensures Covered(ranges, q)
  {
    assert a[0] in a;
    forall g | g in a ensures q < g.from {
      var i :| 0 <= i < |a| && a[i] == g;
      assert i == 0 || a[0].to < a[i].from;
    }
    assert !InSome(a, q);
  }

  lemma FirstGapsAgree(a: seq<Range>, b: seq<Range>, ranges: seq<Range>, lo: int, hi: int)
    requires IsGapList(a, ranges, lo, hi) && IsGapList(b, ranges, lo, hi) && a != [] && b != []
    ensures a[0] == b[0]
  {
    var g, h := a[0], b[0];
    assert g in a && h in b;
    assert !Covered(ranges, g.from) && !Covered(ranges, h.from);
    if g.from < h.from { CoveredBeforeFirst(b, ranges, lo, hi, g.from); }
    if h.from < g.from { CoveredBeforeFirst(a, ranges, lo, hi, h.from); }
    assert g.to < h.to ==> !Covered(ranges, g.to + 1);
    assert h.to < g.to ==> !Covered(ranges, h.to + 1);
  }

  lemma RestIsGapList(a: seq<Range>, ranges: seq<Range>, lo: int, hi: int)
    requires IsGapList(a, ranges, lo, hi) && a != []
    ensures IsGapList(a[1..], ranges, a[0].to + 1, hi)
  {
    var rest, lo' := a[1..], a[0].to + 1;
    assert a[0] in a;
    forall g | g in rest ensures IsMaximalRun(g, ranges, lo', hi) {
      var i :| 0 <= i < |rest| && rest[i] == g;
      assert a[i + 1] == g && g in a;
    }
    forall q | lo' <= q <= hi && !Covered(ranges, q) ensures InSome(rest, q) {
      assert InSome(a, q);
      var g :| g in a && g.from <= q <= g.to;
      assert g in rest;
    }
  }

  // ---------- The cursor sweep ----------

  datatype Sweep = Sweep(gaps: seq<Range>, cursor: int)

  function SweepStep(acc: Sweep, r: Range): Sweep {
    if acc.cursor < r.from then Sweep(acc.gaps + [Range(acc.cursor, r.from - 1)], r.to + 1)
    else Sweep(acc.gaps, if r.to + 1 > acc.cursor then r.to + 1 else acc.cursor)
  }

  function FoldSweep(sorted: seq<Range>): Sweep
    decreases |sorted|
  {
    if sorted == [] then Sweep([], 1)
    else SweepStep(FoldSweep(sorted[..|sorted| - 1]), sorted[|sorted| - 1])
  }

  function FromKey(): Range -> int {
    (r: Range) => r.from
  }

  function RangesOf(log: seq<Proof>): (r: seq<Range>)
    ensures |r| == |log|
  {
    seq(|log|, i requires 0 <= i < |log| => Range(log[i].body.payload.body.seqFrom, log[i].body.payload.body.seqTo))
  }

  function Finish(acc: Sweep, maxSeq: int): seq<Range> {
    if acc.cursor <= maxSeq then acc.gaps + [Range(acc.cursor, maxSeq)] else acc.gaps
  }

  function SweepGaps(ranges: seq<Range>, maxSeq: int): seq<Range> {
    Finish(FoldSweep(SortBy(ranges, FromKey())), maxSeq)
  }

  function GapReport(log: seq<Proof>, maxSeq: int): seq<Range> {
    SweepGaps(RangesOf(log), maxSeq)
  }

  predicate IsAnchored(log: seq<Proof>, q: int) {
    exists p :: p in log && p.body.payload.body.seqFrom <= q <= p.body.payload.body.seqTo
  }

  /** The last covered sequence number, or 0. */
  function Horizon(ranges: seq<Range>): (h: int)
    ensures h >= 0 && forall r :: r in ranges && r.from <= r.to ==> r.to <= h
    ensures h == 0 || exists r :: r in ranges && r.from <= r.to == h
  {
    if ranges == [] then 0
    else
      var h := Horizon(ranges[..|ranges| - 1]);
      var last := ranges[|ranges| - 1];
      assert ranges == ranges[..|ranges| - 1] + [last];
      if last.from <= last.to && last.to > h then assert last in ranges; last.to else h
  }

  lemma HorizonIsCovered(ranges: seq<Range>)
    ensures Horizon(ranges) > 0 ==> Covered(ranges, Horizon(ranges))
    ensures forall q :: Covered(ranges, q) ==> q <= Horizon(ranges)
  {
  }

  lemma HorizonAppends(front: seq<Range>, r: Range)
    ensures Horizon(front + [r]) == if r.from <= r.to then Max(r.to, Horizon(front)) else Horizon(front)
  {
    assert (front + [r])[..|front + [r]| - 1] == front;
  }

  lemma CoveredIn(front: seq<Range>, r: Range)
    ensures forall q :: Covered(front + [r], q) <==> Covered(front, q) || r.from <= q <= r.to
  {
    assert r in front + [r];
    assert forall x :: x in front + [r] <==> x in front || x == r;
  }

  lemma CoverageIgnoresOrder(a: seq<Range>, b: seq<Range>)
    requires multiset(a) == multiset(b)
    ensures forall x :: x in a <==> x in b
    ensures forall q :: Covered(a, q) <==> Covered(b, q)
    ensures Horizon(a) == Horizon(b)
  {
    assert forall x :: x in a <==> x in multiset(a);
    assert forall x :: x in b <==> x in multiset(b);
  }

  lemma GapListIgnoresOrder(gaps: seq<Range>, a: seq<Range>, b: seq<Range>, lo: int, hi: int)
    requires multiset(a) == multiset(b) && IsGapList(gaps, a, lo, hi)
    ensures IsGapList(gaps, b, lo, hi)
  {
    CoverageIgnoresOrder(a, b);
    forall g | g in gaps ensures IsMaximalRun(g, b, lo, hi) {
      assert IsMaximalRun(g, a, lo, hi);
    }
  }

  // ---------- When the sweep is right ----------

  /** The first range listed that starts at `from`. */
  function FirstFrom(ranges: seq<Range>, from: int): Option<Range> {
    var those := WithKey(ranges, FromKey(), from);
    if those == [] then None else Some(those[0])
  }

  /** A range that ends before it starts does no harm where the sweep's cursor is already past its
      start; nor where it ends right before its start and the run of gaps ends there anyway. */
  ghost predicate StartsSafely(ranges: seq<Range>, maxSeq: int, r: Range) {
    || r.from <= r.to
    || r.from <= 1 || Covered(ranges, r.from - 1)
    || (r.to == r.from - 1 && (r.from == maxSeq + 1 || Covered(ranges, r.from)))
  }

  /** At each start, the first range listed there does no harm. */
  ghost predicate SafeStarts(ranges: seq<Range>, maxSeq: int) {
    forall from :: FirstFrom(ranges, from).Some? ==> StartsSafely(ranges, maxSeq, FirstFrom(ranges, from).value)
  }

  /** Nothing between `maxSeq` and the last covered number is left uncovered. */
  ghost predicate NoHolesBeyond(ranges: seq<Range>, maxSeq: int) {
    forall q :: Max(maxSeq, 0) < q <= Horizon(ranges) ==> Covered(ranges, q)
  }

  lemma {:induction false} FirstFromIsListed(ranges: seq<Range>, from: int)
    ensures FirstFrom(ranges, from).Some? ==>
              exists n :: 0 <= n < |ranges| && FirstFrom(ranges, from).value == ranges[n] && ranges[n].from == from
                          && forall m :: 0 <= m < n ==> ranges[m].from != from
    ensures FirstFrom(ranges, from).None? ==> forall m :: 0 <= m < |ranges| ==> ranges[m].from != from
  {
    if ranges != [] && ranges[0].from != from {
      assert FirstFrom(ranges, from) == FirstFrom(ranges[1..], from);
      FirstFromIsListed(ranges[1..], from);
      if FirstFrom(ranges, from).Some? {
        var k :| 0 <= k < |ranges[1..]| && FirstFrom(ranges, from).value == ranges[1..][k] && ranges[1..][k].from == from
                 && forall m :: 0 <= m < k ==> ranges[1..][m].from != from;
        forall m | 0 <= m < k + 1 ensures ranges[m].from != from {
          assert m > 0 ==> ranges[1..][m - 1] == ranges[m];
        }
        assert ranges[k + 1] == ranges[1..][k];
      } else {
        forall m | 0 <= m < |ranges| ensures ranges[m].from != from {
          assert m > 0 ==> ranges[1..][m - 1] == ranges[m];
        }
      }
    }
  }

  // ---------- The sweep's invariant ----------

  /** The cursor stands at the start of the range just swept, past all that is covered so far, and
      no gap may run on from there. */
  ghost predicate Waits(acc: Sweep, front: seq<Range>, all: seq<Range>, maxSeq: int) {
    && front != [] && acc.cursor == front[|front| - 1].from && Horizon(front) + 1 < acc.cursor
    && (acc.cursor == maxSeq + 1 || Covered(all, acc.cursor))
  }

  /** The gaps below the cursor are right; and the cursor stands just past the last covered number,
      or waits. */
  ghost predicate SweptOver(acc: Sweep, front: seq<Range>, all: seq<Range>, maxSeq: int) {
    && IsGapList(acc.gaps, front, 1, acc.cursor - 1)
    && (front != [] ==> front[|front| - 1].from <= acc.cursor)
    && (acc.cursor == Horizon(front) + 1 || Waits(acc, front, all, maxSeq))
  }

  /** What keeps the invariant: a range past the cursor opens a gap only from a cursor that does not
      wait, and if it is empty the sweep waits at its start. */
  ghost predicate StepsSafely(acc: Sweep, front: seq<Range>, r: Range, all: seq<Range>, maxSeq: int) {
    acc.cursor < r.from ==>
      && acc.cursor == Horizon(front) + 1
      && (r.from <= r.to || (r.to == r.from - 1 && (r.from == maxSeq + 1 || Covered(all, r.from))))
  }

  /** Old gaps stay maximal when more is covered just past them. */
  lemma OldGapsStayRuns(gaps: seq<Range>, front: seq<Range>, r: Range, end: int, hi: int)
    requires IsGapList(gaps, front, 1, end) && end < r.from && end <= hi
    requires end < hi ==> end <= 0 || Covered(front, end) || r.from == end + 1 <= r.to
    ensures forall g :: g in gaps ==> IsMaximalRun(g, front + [r], 1, hi)
  {
    CoveredIn(front, r);
    forall g | g in gaps ensures IsMaximalRun(g, front + [r], 1, hi) {
      assert IsMaximalRun(g, front, 1, end);
      assert !Covered(front, g.to);
    }
  }

  lemma StepPastCovered(acc: Sweep, front: seq<Range>, r: Range, all: seq<Range>, maxSeq: int)
    requires SweptOver(acc, front, all, maxSeq) && r.from <= acc.cursor
    requires forall p :: p in front ==> p.from <= r.from
    ensures SweptOver(SweepStep(acc, r), front + [r], all, maxSeq)
  {
    RangePastCovered(acc, front, r, all, maxSeq);
    GapsPastCovered(acc.gaps, front, r, acc.cursor - 1, SweepStep(acc, r).cursor - 1);
    CursorPastCovered(acc, front, r, all, maxSeq);
  }

  lemma CursorPastCovered(acc: Sweep, front: seq<Range>, r: Range, all: seq<Range>, maxSeq: int)
    requires SweptOver(acc, front, all, maxSeq) && r.from <= acc.cursor
    requires Waits(acc, front, all, maxSeq) ==> r.from == acc.cursor
    ensures var more, cursor := front + [r], SweepStep(acc, r).cursor;
            && more[|more| - 1].from <= cursor
            && (cursor == Horizon(more) + 1 || Waits(SweepStep(acc, r), more, all, maxSeq))
  {
    HorizonAppends(front, r);
  }

  /** A range that starts at or before the cursor covers nothing new below it. */
  lemma RangePastCovered(acc: Sweep, front: seq<Range>, r: Range, all: seq<Range>, maxSeq: int)
    requires SweptOver(acc, front, all, maxSeq) && r.from <= acc.cursor
    requires forall p :: p in front ==> p.from <= r.from
    ensures forall q :: 1 <= q < acc.cursor && r.from <= q <= r.to ==> Covered(front, q)
    ensures Waits(acc, front, all, maxSeq) ==> r.from == acc.cursor
  {
    HorizonIsCovered(front);
    if Waits(acc, front, all, maxSeq) {
      assert front[|front| - 1] in front;
    } else if Horizon(front) > 0 {
      var p :| p in front && p.from <= Horizon(front) <= p.to;
      forall q | r.from <= q < acc.cursor ensures Covered(front, q) {
        CoveredBy(front, p, q);
      }
    }
  }

  lemma CoveredBy(ranges: seq<Range>, p: Range, q: int)
    requires p in ranges && p.from <= q <= p.to
    ensures Covered(ranges, q)
  {
  }

  lemma GapsPastCovered(gaps: seq<Range>, front: seq<Range>, r: Range, end: int, hi: int)
    requires IsGapList(gaps, front, 1, end) && end <= hi && r.from <= end + 1
    requires forall q :: 1 <= q <= end && r.from <= q <= r.to ==> Covered(front, q)
    requires hi == end || hi == r.to
    ensures IsGapList(gaps, front + [r], 1, hi)
  {
    CoveredIn(front, r);
    forall g | g in gaps ensures IsMaximalRun(g, front + [r], 1, hi) {
      assert IsMaximalRun(g, front, 1, end);
      assert g.to == end < hi ==> Covered(front + [r], g.to + 1);
      forall q | g.from <= q <= g.to ensures !Covered(front + [r], q) {
        assert !Covered(front, q) && !(r.from <= q <= r.to);
      }
    }
  }

  lemma StepOpensGap(acc: Sweep, front: seq<Range>, r: Range, all: seq<Range>, maxSeq: int)
    requires SweptOver(acc, front, all, maxSeq) && acc.cursor < r.from
    requires StepsSafely(acc, front, r, all, maxSeq)
    ensures SweptOver(SweepStep(acc, r), front + [r], all, maxSeq)
  {
    HorizonAppends(front, r);
    HorizonIsCovered(front);
    GapOpens(acc.gaps, front, r, Horizon(front));
  }

  lemma GapOpens(gaps: seq<Range>, front: seq<Range>, r: Range, h: int)
    requires IsGapList(gaps, front, 1, h) && h == Horizon(front) && h + 1 < r.from && r.from - 1 <= r.to
    ensures IsGapList(gaps + [Range(h + 1, r.from - 1)], front + [r], 1, r.to)
  {
    var g := Range(h + 1, r.from - 1);
    CoveredIn(front, r);
    HorizonIsCovered(front);
    OldGapsStayRuns(gaps, front, r, h, r.to);
    assert IsMaximalRun(g, front + [r], 1, r.to);
    GapJoins(gaps, g, front + [r], r.to);
  }

  /** A run past all the others joins the list. */
  lemma GapJoins(gaps: seq<Range>, g: Range, ranges: seq<Range>, hi: int)
    requires forall x :: x in gaps ==> IsMaximalRun(x, ranges, 1, hi) && x.to < g.from
    requires forall i, j :: 0 <= i < j < |gaps| ==> gaps[i].to < gaps[j].from
    requires IsMaximalRun(g, ranges, 1, hi)
    requires forall q :: 1 <= q < g.from && !Covered(ranges, q) ==> InSome(gaps, q)
    requires forall q :: g.to < q <= hi ==> Covered(ranges, q)
    ensures IsGapList(gaps + [g], ranges, 1, hi)
  {
    var more := gaps + [g];
    assert g in more;
    forall q | 1 <= q <= hi && !Covered(ranges, q) ensures InSome(more, q) {
      if q < g.from {
        assert InSome(gaps, q);
        var x :| x in gaps && x.from <= q <= x.to;
        assert x in more;
      }
    }
  }

  // ---------- The bitmap scan ----------

  /** The store's gap finder: mark every anchored number, then scan 1..maxSeq for runs. */
  method GetAnchorGaps(anchors: seq<Range>, maxSeq: int) returns (gaps: seq<Range>)
    ensures IsGapList(gaps, anchors, 1, maxSeq)
  {
    var covered: map<int, bool> := map[];
    for i := 0 to |anchors|
      invariant forall q :: q in covered <==> Covered(anchors[..i], q)
    {
      var a := anchors[i];
      var q := a.from;
      while q <= a.to
        invariant a.from <= q <= Max(a.from, a.to + 1)
        invariant forall x :: x in covered <==> Covered(anchors[..i], x) || a.from <= x < q
        decreases a.to - q
      {
        covered := covered[q := true];
        q := q + 1;
      }
      assert anchors[..i + 1] == anchors[..i] + [a];
      CoveredIn(anchors[..i], a);
    }
    assert anchors[..|anchors|] == anchors;

    gaps := [];
    var gapStart := -1;
    var q := 1;
    while q <= maxSeq
      invariant 1 <= q && (maxSeq >= 1 ==> q <= maxSeq + 1)
      invariant maxSeq < 1 ==> q == 1 && gaps == [] && gapStart == -1
      invariant gapStart == -1 || 1 <= gapStart < q
      invariant gapStart == -1 ==> q == 1 || Covered(anchors, q - 1)
      invariant gapStart != -1 ==> gapStart == 1 || Covered(anchors, gapStart - 1)
      invariant gapStart != -1 ==> forall x :: gapStart <= x < q ==> !Covered(anchors, x)
      invariant IsGapList(gaps, anchors, 1, (if gapStart == -1 then q else gapStart) - 1)
      decreases maxSeq - q
    {
      if q !in covered {
        if gapStart == -1 {
          gapStart := q;
        }
      } else {
        if gapStart != -1 {
          ExtendGapList(gaps, anchors, Range(gapStart, q - 1), q);
          gaps := gaps + [Range(gapStart, q - 1)];
          gapStart := -1;
        } else {
          SkipCovered(gaps, anchors, q);
        }
      }
      q := q + 1;
    }
    if gapStart != -1 {
      ExtendGapList(gaps, anchors, Range(gapStart, maxSeq), maxSeq);
      gaps := gaps + [Range(gapStart, maxSeq)];
    }
  }

  /** A run just past a gap list extends it, up to the run's end or the covered number after. */
  lemma ExtendGapList(gaps: seq<Range>, ranges: seq<Range>, g: Range, hi: int)
    requires g.from >= 1 && IsGapList(gaps, ranges, 1, g.from - 1)
    requires IsMaximalRun(g, ranges, 1, hi)
    requires hi == g.to || (hi == g.to + 1 && Covered(ranges, hi))
    ensures IsGapList(gaps + [g], ranges, 1, hi)
  {
    var all := gaps + [g];
    assert g in all;
    forall x | x in gaps ensures IsMaximalRun(x, ranges, 1, hi) && x.to < g.from {
      assert IsMaximalRun(x, ranges, 1, g.from - 1);
      assert !Covered(ranges, x.to);
    }
    forall q | 1 <= q <= hi && !Covered(ranges, q) ensures InSome(all, q) {
      if q < g.from {
        assert InSome(gaps, q);
        var x :| x in gaps && x.from <= q <= x.to;
        assert x in all;
      }
    }
  }

  lemma SkipCovered(gaps: seq<Range>, ranges: seq<Range>, q: int)
    requires q >= 1 && IsGapList(gaps, ranges, 1, q - 1) && Covered(ranges, q)
    ensures IsGapList(gaps, ranges, 1, q)
  {
    forall x | x in gaps ensures IsMaximalRun(x, ranges, 1, q) {
      assert IsMaximalRun(x, ranges, 1, q - 1);
    }
  }

  // ---------- Agreement ----------

  /** The sweep over the first `n` of the sorted ranges. */
  ghost predicate SweptTo(sorted: seq<Range>, n: nat, maxSeq: int)
    requires n <= |sorted|
  {
    SweptOver(FoldSweep(sorted[..n]), sorted[..n], sorted, maxSeq)
  }

  lemma SweepOneMore(sorted: seq<Range>, n: nat)
    requires n < |sorted|
    ensures FoldSweep(sorted[..n + 1]) == SweepStep(FoldSweep(sorted[..n]), sorted[n])
    ensures sorted[..n + 1] == sorted[..n] + [sorted[n]]
  {
    assert sorted[..n + 1][..n] == sorted[..n];
  }

  lemma StartsAscend(sorted: seq<Range>)
    requires Ascending(sorted, FromKey())
    ensures forall i, j :: 0 <= i <= j < |sorted| ==> sorted[i].from <= sorted[j].from
  {
    forall i, j | 0 <= i < j < |sorted| ensures sorted[i].from <= sorted[j].from {
      assert FromKey()(sorted[i]) <= FromKey()(sorted[j]);
    }
  }

  lemma StepKeepsSwept(acc: Sweep, front: seq<Range>, r: Range, next: Sweep, more: seq<Range>, all: seq<Range>, maxSeq: int)
    requires SweptOver(acc, front, all, maxSeq) && StepsSafely(acc, front, r, all, maxSeq)
    requires forall p :: p in front ==> p.from <= r.from
    requires next == SweepStep(acc, r) && more == front + [r]
    ensures SweptOver(next, more, all, maxSeq)
  {
    if acc.cursor < r.from {
      StepOpensGap(acc, front, r, all, maxSeq);
    } else {
      StepPastCovered(acc, front, r, all, maxSeq);
    }
  }

  lemma SweepNext(sorted: seq<Range>, n: nat, maxSeq: int)
    requires Ascending(sorted, FromKey()) && n < |sorted| && SweptTo(sorted, n, maxSeq)
    requires StepsSafely(FoldSweep(sorted[..n]), sorted[..n], sorted[n], sorted, maxSeq)
    ensures SweptTo(sorted, n + 1, maxSeq)
  {
    EarlierStarts(sorted, n);
    SweepOneMore(sorted, n);
    StepKeepsSwept(FoldSweep(sorted[..n]), sorted[..n], sorted[n], FoldSweep(sorted[..n + 1]), sorted[..n + 1], sorted, maxSeq);
  }

  lemma EarlierStarts(sorted: seq<Range>, n: nat)
    requires Ascending(sorted, FromKey()) && n < |sorted|
    ensures forall p :: p in sorted[..n] ==> p.from <= sorted[n].from
  {
    StartsAscend(sorted);
  }

  /** Numbers below the start of range `n` can only be covered by the ranges before it. */
  lemma CoveredEarlier(sorted: seq<Range>, n: nat, q: int)
    requires Ascending(sorted, FromKey()) && n < |sorted| && q < sorted[n].from && Covered(sorted, q)
    ensures Covered(sorted[..n], q)
  {
    var m :| 0 <= m < |sorted| && sorted[m].from <= q <= sorted[m].to;
    StartsAscend(sorted);
    assert sorted[m] in sorted[..n];
  }

  /** A range past the cursor is the first at its start. */
  lemma FirstPastCursor(sorted: seq<Range>, n: nat)
    requires Ascending(sorted, FromKey()) && n < |sorted|
    requires n > 0 ==> sorted[n - 1].from < sorted[n].from
    ensures FirstFrom(sorted, sorted[n].from) == Some(sorted[n])
  {
    var from := sorted[n].from;
    FirstFromIsListed(sorted, from);
    var k :| 0 <= k < |sorted| && FirstFrom(sorted, from).value == sorted[k] && sorted[k].from == from
             && forall m :: 0 <= m < k ==> sorted[m].from != from;
    StartsAscend(sorted);
  }

  /** Under the condition every step is safe. */
  lemma SafeStartsStep(sorted: seq<Range>, n: nat, maxSeq: int)
    requires Ascending(sorted, FromKey()) && n < |sorted| && SweptTo(sorted, n, maxSeq)
    requires SafeStarts(sorted, maxSeq) && NoHolesBeyond(sorted, maxSeq)
    ensures StepsSafely(FoldSweep(sorted[..n]), sorted[..n], sorted[n], sorted, maxSeq)
  {
    var acc, front, r := FoldSweep(sorted[..n]), sorted[..n], sorted[n];
    if acc.cursor < r.from {
      FirstPastCursor(sorted, n);
      assert StartsSafely(sorted, maxSeq, r);
      NothingBetween(sorted, n, acc.cursor);
      StartsBelowHorizon(sorted, maxSeq, r);
    }
  }

  /** Between the last number covered so far and the next start nothing is covered. */
  lemma NothingBetween(sorted: seq<Range>, n: nat, cursor: int)
    requires Ascending(sorted, FromKey()) && n < |sorted| && Horizon(sorted[..n]) < cursor
    ensures forall q :: cursor <= q < sorted[n].from ==> !Covered(sorted, q)
  {
    HorizonIsCovered(sorted[..n]);
    forall q | cursor <= q < sorted[n].from && Covered(sorted, q) ensures false {
      CoveredEarlier(sorted, n, q);
    }
  }

  /** A safe range whose start lies beyond maxSeq + 1 is not past a hole. */
  lemma StartsBelowHorizon(sorted: seq<Range>, maxSeq: int, r: Range)
    requires r in sorted && StartsSafely(sorted, maxSeq, r) && NoHolesBeyond(sorted, maxSeq)
    ensures forall q :: Max(maxSeq, 0) < q < r.from - 1 ==> Covered(sorted, q)
    ensures r.from > Max(maxSeq, 0) + 1 ==> Covered(sorted, r.from - 1)
  {
    HorizonIsCovered(sorted);
    assert r.from <= r.to ==> Covered(sorted, r.from);
  }

  lemma {:induction false} SafeStartsSweep(sorted: seq<Range>, n: nat, maxSeq: int)
    requires Ascending(sorted, FromKey()) && n <= |sorted|
    requires SafeStarts(sorted, maxSeq) && NoHolesBeyond(sorted, maxSeq)
    ensures SweptTo(sorted, n, maxSeq)
  {
    if n > 0 {
      SafeStartsSweep(sorted, n - 1, maxSeq);
      SafeStartsStep(sorted, n - 1, maxSeq);
      SweepNext(sorted, n - 1, maxSeq);
    }
  }

  /** A sweep that kept its invariant to the end, with no holes beyond, finishes right. */
  lemma SweepFinishes(sorted: seq<Range>, acc: Sweep, maxSeq: int)
    requires SweptOver(acc, sorted, sorted, maxSeq) && NoHolesBeyond(sorted, maxSeq)
    ensures IsGapList(Finish(acc, maxSeq), sorted, 1, maxSeq)
  {
    HorizonIsCovered(sorted);
    if acc.cursor <= maxSeq {
      assert !Waits(acc, sorted, sorted, maxSeq);
      var last := Range(acc.cursor, maxSeq);
      forall g | g in acc.gaps ensures IsMaximalRun(g, sorted, 1, maxSeq) && g.to < last.from {
        assert IsMaximalRun(g, sorted, 1, acc.cursor - 1);
        assert !Covered(sorted, g.to);
      }
      GapJoins(acc.gaps, last, sorted, maxSeq);
    } else {
      forall g | g in acc.gaps ensures IsMaximalRun(g, sorted, 1, maxSeq) {
        assert IsMaximalRun(g, sorted, 1, acc.cursor - 1);
        assert !Covered(sorted, g.to) && !Covered(sorted, g.from);
      }
    }
  }

  // The other direction: a list that comes out right was swept safely.

  lemma {:induction false} GapsOnlyGrow(sorted: seq<Range>, n: nat, maxSeq: int)
    requires n <= |sorted|
    ensures FoldSweep(sorted[..n]).gaps <= Finish(FoldSweep(sorted), maxSeq)
    decreases |sorted| - n
  {
    if n < |sorted| {
      SweepOneMore(sorted, n);
      GapsOnlyGrow(sorted, n + 1, maxSeq);
    } else {
      assert sorted[..n] == sorted;
    }
  }

  /** The gap opened at a range past the cursor is in the final list, in its place. */
  lemma GapIsListed(sorted: seq<Range>, n: nat, maxSeq: int)
    requires n < |sorted| && FoldSweep(sorted[..n]).cursor < sorted[n].from
    ensures var acc, all := FoldSweep(sorted[..n]), Finish(FoldSweep(sorted), maxSeq);
            && |acc.gaps| < |all| && all[|acc.gaps|] == Range(acc.cursor, sorted[n].from - 1)
            && FoldSweep(sorted[..n + 1]) == Sweep(acc.gaps + [Range(acc.cursor, sorted[n].from - 1)], sorted[n].to + 1)
  {
    var acc := FoldSweep(sorted[..n]);
    SweepOneMore(sorted, n);
    GapsOnlyGrow(sorted, n + 1, maxSeq);
    assert FoldSweep(sorted[..n + 1]).gaps[|acc.gaps|] == Range(acc.cursor, sorted[n].from - 1);
  }

  /** A list that reports a number twice, or one past `maxSeq`. */
  ghost predicate Overreports(list: seq<Range>, maxSeq: int) {
    exists m :: 0 <= m < |list| && OverreportsAt(list, maxSeq, m)
  }

  ghost predicate OverreportsAt(list: seq<Range>, maxSeq: int, m: nat)
    requires m < |list|
  {
    list[m].to > maxSeq || (m + 1 < |list| && list[m + 1].from <= list[m].to)
  }

  lemma OverreportingIsWrong(list: seq<Range>, ranges: seq<Range>, maxSeq: int)
    requires IsGapList(list, ranges, 1, maxSeq)
    ensures !Overreports(list, maxSeq)
  {
    forall m | 0 <= m < |list| ensures !OverreportsAt(list, maxSeq, m) {
      assert list[m] in list;
    }
  }

  /** A cursor thrown back below the gap just opened overreports. */
  lemma ThrownBackOverreports(sorted: seq<Range>, n: nat, maxSeq: int)
    requires Ascending(sorted, FromKey()) && n < |sorted|
    requires FoldSweep(sorted[..n]).cursor < sorted[n].from && sorted[n].to < sorted[n].from - 1
    ensures Overreports(Finish(FoldSweep(sorted), maxSeq), maxSeq)
  {
    GapIsListed(sorted, n, maxSeq);
    var gaps, next := FoldSweep(sorted[..n]).gaps, FoldSweep(sorted[..n + 1]);
    if n + 1 < |sorted| {
      assert FromKey()(sorted[n]) <= FromKey()(sorted[n + 1]);
      GapIsListed(sorted, n + 1, maxSeq);
      PairOverreports(gaps, next, sorted[n], Finish(FoldSweep(sorted), maxSeq), maxSeq);
    } else {
      assert sorted[..n + 1] == sorted;
      LastOverreports(next, maxSeq);
    }
  }

  lemma PairOverreports(gaps: seq<Range>, next: Sweep, r: Range, list: seq<Range>, maxSeq: int)
    requires |next.gaps| == |gaps| + 1 && |next.gaps| < |list|
    requires list[|gaps|].to == r.from - 1 && next.cursor == r.to + 1 < r.from
    requires list[|next.gaps|].from == next.cursor
    ensures Overreports(list, maxSeq)
  {
    assert OverreportsAt(list, maxSeq, |gaps|);
  }

  lemma LastOverreports(acc: Sweep, maxSeq: int)
    requires acc.gaps != [] && acc.cursor <= acc.gaps[|acc.gaps| - 1].to
    ensures Overreports(Finish(acc, maxSeq), maxSeq)
  {
    assert OverreportsAt(Finish(acc, maxSeq), maxSeq, |acc.gaps| - 1);
  }

  lemma RightListHasRun(sorted: seq<Range>, n: nat, maxSeq: int)
    requires Ascending(sorted, FromKey()) && n < |sorted| && SweptTo(sorted, n, maxSeq)
    requires IsGapList(Finish(FoldSweep(sorted), maxSeq), sorted, 1, maxSeq) && FoldSweep(sorted[..n]).cursor < sorted[n].from
    ensures IsMaximalRun(Range(FoldSweep(sorted[..n]).cursor, sorted[n].from - 1), sorted, 1, maxSeq)
  {
    GapIsListed(sorted, n, maxSeq);
    assert Range(FoldSweep(sorted[..n]).cursor, sorted[n].from - 1) in Finish(FoldSweep(sorted), maxSeq);
  }

  lemma RightListIsNotThrownBack(sorted: seq<Range>, n: nat, maxSeq: int)
    requires Ascending(sorted, FromKey()) && n < |sorted| && SweptTo(sorted, n, maxSeq)
    requires IsGapList(Finish(FoldSweep(sorted), maxSeq), sorted, 1, maxSeq) && FoldSweep(sorted[..n]).cursor < sorted[n].from
    ensures sorted[n].from - 1 <= sorted[n].to
  {
    if sorted[n].to < sorted[n].from - 1 {
      RightListHasRun(sorted, n, maxSeq);
      ThrownBackOverreports(sorted, n, maxSeq);
      OverreportingIsWrong(Finish(FoldSweep(sorted), maxSeq), sorted, maxSeq);
    }
  }

  /** When the list comes out right, every step was safe. */
  lemma RightListStep(sorted: seq<Range>, n: nat, maxSeq: int)
    requires Ascending(sorted, FromKey()) && n < |sorted| && SweptTo(sorted, n, maxSeq)
    requires IsGapList(Finish(FoldSweep(sorted), maxSeq), sorted, 1, maxSeq)
    ensures StepsSafely(FoldSweep(sorted[..n]), sorted[..n], sorted[n], sorted, maxSeq)
  {
    if FoldSweep(sorted[..n]).cursor < sorted[n].from {
      RightListHasRun(sorted, n, maxSeq);
      RightListIsNotThrownBack(sorted, n, maxSeq);
    }
  }

  lemma SweepStarts(sorted: seq<Range>, maxSeq: int)
    ensures SweptTo(sorted, 0, maxSeq)
  {
    assert sorted[..0] == [];
  }

  lemma {:induction false} RightListSweep(sorted: seq<Range>, n: nat, maxSeq: int)
    requires Ascending(sorted, FromKey()) && n <= |sorted|
    requires IsGapList(Finish(FoldSweep(sorted), maxSeq), sorted, 1, maxSeq)
    ensures SweptTo(sorted, n, maxSeq)
  {
    if n == 0 {
      SweepStarts(sorted, maxSeq);
    } else {
      RightListSweep(sorted, n - 1, maxSeq);
      RightListStep(sorted, n - 1, maxSeq);
      SweepNext(sorted, n - 1, maxSeq);
    }
  }

  lemma BelowCursorIsCovered(sorted: seq<Range>, n: nat, cursor: int)
    requires Ascending(sorted, FromKey()) && n < |sorted| && (n > 0 ==> sorted[n - 1].from < sorted[n].from)
    requires cursor == Horizon(sorted[..n]) + 1 && 1 < sorted[n].from <= cursor
    ensures Covered(sorted, sorted[n].from - 1)
  {
    HorizonIsCovered(sorted[..n]);
    StartsAscend(sorted);
    var p :| p in sorted[..n] && p.from <= cursor - 1 <= p.to;
    assert p in sorted && p.from <= sorted[n].from - 1 <= p.to;
  }

  lemma RightListIsSafe(sorted: seq<Range>, maxSeq: int)
    requires Ascending(sorted, FromKey())
    requires IsGapList(Finish(FoldSweep(sorted), maxSeq), sorted, 1, maxSeq)
    ensures SafeStarts(sorted, maxSeq)
  {
    forall from | FirstFrom(sorted, from).Some? ensures StartsSafely(sorted, maxSeq, FirstFrom(sorted, from).value) {
      FirstFromIsListed(sorted, from);
      var n :| 0 <= n < |sorted| && FirstFrom(sorted, from).value == sorted[n] && sorted[n].from == from
               && forall m :: 0 <= m < n ==> sorted[m].from != from;
      RightListSweep(sorted, n, maxSeq);
      RightListStep(sorted, n, maxSeq);
      var acc, front := FoldSweep(sorted[..n]), sorted[..n];
      HorizonIsCovered(front);
      StartsAscend(sorted);
      if 1 < from <= acc.cursor {
        BelowCursorIsCovered(sorted, n, acc.cursor);
      }
    }
  }

  lemma RightListHasNoHoles(sorted: seq<Range>, maxSeq: int)
    requires Ascending(sorted, FromKey())
    requires IsGapList(Finish(FoldSweep(sorted), maxSeq), sorted, 1, maxSeq)
    ensures NoHolesBeyond(sorted, maxSeq)
  {
    var acc := FoldSweep(sorted);
    assert sorted[..|sorted|] == sorted;
    RightListSweep(sorted, |sorted|, maxSeq);
    forall q | Max(maxSeq, 0) < q <= Horizon(sorted) ensures Covered(sorted, q) {
      assert forall g :: g in acc.gaps ==> g in Finish(acc, maxSeq) && g.to <= maxSeq;
      assert !Covered(sorted, q) ==> InSome(acc.gaps, q);
    }
  }

  /** For all ranges, overlapping, unsorted, empty or out of bounds: the sweep lists the maximal
      uncovered runs of 1..maxSeq exactly when every start is safe and there are no holes beyond. */
  lemma SweepIsGapListExactlyWhen(ranges: seq<Range>, maxSeq: int)
    ensures IsGapList(SweepGaps(ranges, maxSeq), ranges, 1, maxSeq) <==> SafeStarts(ranges, maxSeq) && NoHolesBeyond(ranges, maxSeq)
  {
    var sorted, list := SortBy(ranges, FromKey()), SweepGaps(ranges, maxSeq);
    SortByIsSorted(ranges, FromKey());
    SortedConditions(ranges, sorted, maxSeq);
    if SafeStarts(ranges, maxSeq) && NoHolesBeyond(ranges, maxSeq) {
      SafeStartsSweep(sorted, |sorted|, maxSeq);
      assert sorted[..|sorted|] == sorted;
      SweepFinishes(sorted, FoldSweep(sorted), maxSeq);
      GapListIgnoresOrder(list, sorted, ranges, 1, maxSeq);
    }
    if IsGapList(list, ranges, 1, maxSeq) {
      GapListIgnoresOrder(list, ranges, sorted, 1, maxSeq);
      RightListIsSafe(sorted, maxSeq);
      RightListHasNoHoles(sorted, maxSeq);
    }
  }

  lemma SortedConditions(ranges: seq<Range>, sorted: seq<Range>, maxSeq: int)
    requires sorted == SortBy(ranges, FromKey()) && multiset(sorted) == multiset(ranges)
    ensures SafeStarts(sorted, maxSeq) <==> SafeStarts(ranges, maxSeq)
    ensures NoHolesBeyond(sorted, maxSeq) <==> NoHolesBeyond(ranges, maxSeq)
  {
    CoverageIgnoresOrder(sorted, ranges);
    forall from ensures FirstFrom(sorted, from) == FirstFrom(ranges, from) {
      SortIsStable(ranges, FromKey(), from);
    }
  }

  /** So the two finders return the same list exactly then. */
  lemma SweepAgreesWithScanExactlyWhen(ranges: seq<Range>, maxSeq: int, scan: seq<Range>)
    requires IsGapList(scan, ranges, 1, maxSeq)
    ensures SweepGaps(ranges, maxSeq) == scan <==> SafeStarts(ranges, maxSeq) && NoHolesBeyond(ranges, maxSeq)
  {
    SweepIsGapListExactlyWhen(ranges, maxSeq);
    if IsGapList(SweepGaps(ranges, maxSeq), ranges, 1, maxSeq) {
      GapListIsUnique(SweepGaps(ranges, maxSeq), scan, ranges, 1, maxSeq);
    }
  }

  /** In particular they agree whenever no range ends before it starts and each starts no later than
      one past `maxSeq`. */
  lemma SweepAgreesWithScan(ranges: seq<Range>, maxSeq: int, scan: seq<Range>)
    requires NonEmpty(ranges) && IsGapList(scan, ranges, 1, maxSeq)
    requires forall r :: r in ranges ==> r.from <= maxSeq + 1
    ensures SweepGaps(ranges, maxSeq) == scan
  {
    SweepAgreesWithScanExactlyWhen(ranges, maxSeq, scan);
    forall from ensures FirstFrom(ranges, from).Some? ==> FirstFrom(ranges, from).value in ranges {
      FirstFromIsListed(ranges, from);
    }
    forall q | Max(maxSeq, 0) < q <= Horizon(ranges) ensures Covered(ranges, q) {
      var r :| r in ranges && r.from <= r.to == Horizon(ranges);
      assert r.from <= q <= r.to;
    }
  }

  lemma AnchoredIsCovered(log: seq<Proof>, q: int)
    ensures Covered(RangesOf(log), q) <==> IsAnchored(log, q)
  {
    var ranges := RangesOf(log);
    if Covered(ranges, q) {
      var i :| 0 <= i < |ranges| && ranges[i].from <= q <= ranges[i].to;
      assert log[i] in log;
    }
    if IsAnchored(log, q) {
      var i :| 0 <= i < |log| && log[i].body.payload.body.seqFrom <= q <= log[i].body.payload.body.seqTo;
      assert ranges[i] in ranges;
    }
  }

  /** The report is the ordered list of the maximal runs of unanchored numbers exactly under that
      condition on the log; then it names exactly the numbers in 1..maxSeq that no proof covers, and
      is empty exactly when all of them are anchored. */
  lemma ReportNamesUnanchoredExactlyWhen(log: seq<Proof>, maxSeq: int)
    ensures var ranges, gaps := RangesOf(log), GapReport(log, maxSeq);
            && (IsGapList(gaps, ranges, 1, maxSeq) <==> SafeStarts(ranges, maxSeq) && NoHolesBeyond(ranges, maxSeq))
            && (IsGapList(gaps, ranges, 1, maxSeq) ==>
                  && (forall q :: InSome(gaps, q) <==> 1 <= q <= maxSeq && !IsAnchored(log, q))
                  && (gaps == [] <==> forall q :: 1 <= q <= maxSeq ==> IsAnchored(log, q)))
  {
    var ranges, gaps := RangesOf(log), GapReport(log, maxSeq);
    SweepIsGapListExactlyWhen(ranges, maxSeq);
    forall q ensures Covered(ranges, q) <==> IsAnchored(log, q) {
      AnchoredIsCovered(log, q);
    }
    if IsGapList(gaps, ranges, 1, maxSeq) {
      EmptyMeansAllCovered(gaps, ranges, 1, maxSeq);
      forall q ensures InSome(gaps, q) <==> 1 <= q <= maxSeq && !Covered(ranges, q) {
        GapsName(gaps, ranges, 1, maxSeq, q);
      }
    }
  }

  lemma GapsName(gaps: seq<Range>, ranges: seq<Range>, lo: int, hi: int, q: int)
    requires IsGapList(gaps, ranges, lo, hi)
    ensures InSome(gaps, q) <==> lo <= q <= hi && !Covered(ranges, q)
  {
    if InSome(gaps, q) {
      var g :| g in gaps && g.from <= q <= g.to;
      assert IsMaximalRun(g, ranges, lo, hi);
    }
  }

  /** A log of one fresh proof anchors exactly the numbers its payload was made for. */
  lemma FreshProofAnchorsItsRange(workflowId: string, seqFrom: int, seqTo: int, root: Digest, policyVersion: string, externalRef: Value,
                                  anchoredBy: string, q: int)
    ensures IsAnchored([MakeProof(MakePayload(workflowId, seqFrom, seqTo, root, policyVersion), externalRef, anchoredBy)], q)
       <==> seqFrom <= q <= seqTo
  {
    var proof := MakeProof(MakePayload(workflowId, seqFrom, seqTo, root, policyVersion), externalRef, anchoredBy);
    assert proof in [proof];
  }

  /** A range that ends before it starts throws the sweep's cursor back: 3 and 4 are reported
      twice, where the scan reports one run. */
  lemma EmptyRangeBreaksSweep()
    ensures SweepGaps([Range(5, 2)], 6) == [Range(1, 4), Range(3, 6)]
    ensures IsGapList([Range(1, 6)], [Range(5, 2)], 1, 6)
  {
    var ranges := [Range(5, 2)];
    assert ranges[..0] == [] && SortBy(ranges[..0], FromKey()) == [];
    assert SortBy(ranges, FromKey()) == ranges;
    assert FoldSweep(ranges) == SweepStep(FoldSweep([]), ranges[0]);
    assert Range(1, 6) in [Range(1, 6)];
  }
}
