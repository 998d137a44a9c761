/** Replaying an event list through the governed transition (src/acp/replay.fard). */
module Replays {
  import opened Records
  import opened Policy
  import opened Receipts
  import opened Runs
  import opened Runtime

  datatype ReplayEvent = ReplayEvent(kind: string, input: Input, seqNo: Option<int>)

  datatype Progress = Progress(
    ok: bool, state: State, receipts: seq<Receipt>, step: nat, failedAt: Option<nat>, error: seq<Violation>)

  datatype ReplayResult = ReplayResult(progress: Progress, chainRoot: Digest)

  datatype Setting = Setting(policy: PolicyRec, actor: Actor, toolVersion: string)

  function Step<E>(acc: Progress, e: E, f: (E, State) -> Outcome): Progress {
    if !acc.ok then acc
    else
      var res := f(e, acc.state);
      if res.ok then Progress(true, res.state, acc.receipts + [res.receipt], acc.step + 1, None, [])
      else Progress(false, res.state, acc.receipts, acc.step, Some(acc.step), res.policy.violations)
  }

  /** The left fold over the events. */
  function Fold<E>(s: State, events: seq<E>, f: (E, State) -> Outcome): Progress
    decreases |events|
  {
    if events == [] then Progress(true, s, [], 0, None, [])
    else Step(Fold(s, events[..|events| - 1], f), events[|events| - 1], f)
  }

  function Replayer(g: Setting): (ReplayEvent, State) -> Outcome {
    (e: ReplayEvent, before: State) => Transition(e.kind, g.actor, e.input, before, g.policy, g.toolVersion)
  }

  function Replay(s: State, events: seq<ReplayEvent>, g: Setting): ReplayResult {
    var out := Fold(s, events, Replayer(g));
    ReplayResult(out, ChainRoot(out.receipts))
  }

  datatype Comparison = Comparison(equal: bool, bothOk: bool, sameState: bool, sameChain: bool)

  function CompareReplay(a: ReplayResult, b: ReplayResult): Comparison {
    var bothOk := a.progress.ok && b.progress.ok;
    var sameState := OfState(a.progress.state) == OfState(b.progress.state);
    var sameChain := a.chainRoot == b.chainRoot;
    Comparison(bothOk && sameState && sameChain, bothOk, sameState, sameChain)
  }

  /** `n` is the number of leading events that are accepted one after another. */
  ghost predicate IsLongestAcceptedPrefix<E>(s: State, events: seq<E>, f: (E, State) -> Outcome, n: nat) {
    && n <= |events|
    && (forall i :: 0 <= i < n ==> At(s, events, f, i).ok)
    && (n < |events| ==> !At(s, events, f, n).ok)
  }

  ghost predicate HasOutcome<E>(p: Progress, s: State, events: seq<E>, f: (E, State) -> Outcome) {
    && IsLongestAcceptedPrefix(s, events, f, p.step)
    && p.ok == (p.step == |events|)
    && |p.receipts| == p.step
    && (forall i :: 0 <= i < p.step ==> p.receipts[i] == At(s, events, f, i).receipt)
    && p.failedAt == (if p.ok then None else Some(p.step))
    && p.error == (if p.ok then [] else At(s, events, f, p.step).policy.violations)
    && p.state == (if p.ok then RunState(s, events, f) else At(s, events, f, p.step).state)
  }

  lemma {:induction false} FoldHasOutcome<E>(s: State, events: seq<E>, f: (E, State) -> Outcome)
    ensures HasOutcome(Fold(s, events, f), s, events, f)
    decreases |events|
  {
    if events != [] {
      var m := |events| - 1;
      FoldHasOutcome(s, events[..m], f);
      forall i | 0 <= i < m ensures At(s, events[..m], f, i) == At(s, events, f, i) {
        AtIgnoresLater(s, events, f, m, i);
      }
    }
  }

  /** A replay stops at the first denied event: its receipts, step and failed_at are those of
      the longest accepted prefix; its state is the run of that prefix, followed by the denial
      record of the event that broke it. */
  lemma ReplayIsLongestAcceptedPrefix(s: State, events: seq<ReplayEvent>, g: Setting)
    ensures HasOutcome(Replay(s, events, g).progress, s, events, Replayer(g))
  {
    FoldHasOutcome(s, events, Replayer(g));
  }

  /** Each receipt of a replay is that of its event: of its kind and input, by the actor, under the policy
      and the tool of the replay; and what broke the replay off is the policy's refusal of the next event. */
  lemma ReplayNamesEvents(s: State, events: seq<ReplayEvent>, g: Setting)
    ensures var r := Replay(s, events, g);
            var p := r.progress;
            && |p.receipts| == p.step <= |events| && r.chainRoot == ChainRoot(p.receipts)
            && (forall i :: 0 <= i < p.step ==> NamesEvent(p.receipts[i].body, events[i], g))
            && (!p.ok ==> p.step < |events|
                          && p.error == Evaluate(g.policy, RunState(s, events[..p.step], Replayer(g)), g.actor, events[p.step].input).violations
                          && p.error != [] && p.state.violations == RunState(s, events[..p.step], Replayer(g)).violations + [p.error[0]])
  {
    ReplayIsLongestAcceptedPrefix(s, events, g);
    var p := Replay(s, events, g).progress;
    forall i | 0 <= i < p.step ensures NamesEvent(p.receipts[i].body, events[i], g) {
      TransitionNamesEvent(events[i], RunState(s, events[..i], Replayer(g)), g);
    }
    if !p.ok {
      TransitionNamesEvent(events[p.step], RunState(s, events[..p.step], Replayer(g)), g);
    }
  }

  ghost predicate NamesEvent(body: ReceiptBody, e: ReplayEvent, g: Setting) {
    && body.kind == e.kind && body.inputHash == OfInput(e.input) && body.actor == g.actor.id
    && body.policyVersion == g.policy.version && body.toolVersion == g.toolVersion
  }

  lemma TransitionNamesEvent(e: ReplayEvent, before: State, g: Setting)
    ensures var out := Replayer(g)(e, before);
            && (out.ok ==> NamesEvent(out.receipt.body, e, g))
            && out.policy == Evaluate(g.policy, before, g.actor, e.input)
            && (!out.ok ==> out.policy.violations != [] && out.state.violations == before.violations + [out.policy.violations[0]])
  {
  }

  /** What two replays, the second from where the first ended, amount to. */
  function Both(p1: Progress, p2: Progress): Progress {
    if !p1.ok then p1
    else
      Progress(p2.ok, p2.state, p1.receipts + p2.receipts, p1.step + p2.step,
               if p2.failedAt.None? then None else Some(p1.step + p2.failedAt.value), p2.error)
  }

  lemma BothSteps<E>(p1: Progress, p2: Progress, e: E, f: (E, State) -> Outcome)
    requires p1.ok && (p2.ok ==> p2.failedAt.None?)
    ensures Both(p1, Step(p2, e, f)) == Step(Both(p1, p2), e, f)
  {
  }

  lemma BothStarts<E>(s: State, events: seq<E>, f: (E, State) -> Outcome)
    ensures Both(Fold(s, events, f), Progress(true, Fold(s, events, f).state, [], 0, None, [])) == Fold(s, events, f)
  {
    FoldHasOutcome(s, events, f);
  }

  lemma {:induction false} FoldComposes<E>(s: State, e1: seq<E>, e2: seq<E>, f: (E, State) -> Outcome)
    ensures Fold(s, e1 + e2, f) == Both(Fold(s, e1, f), Fold(Fold(s, e1, f).state, e2, f))
    decreases |e2|
  {
    var p1 := Fold(s, e1, f);
    if e2 == [] {
      assert e1 + e2 == e1;
      BothStarts(s, e1, f);
    } else {
      var front := e2[..|e2| - 1];
      FoldComposes(s, e1, front, f);
      assert (e1 + e2)[..|e1 + e2| - 1] == e1 + front;
      FoldHasOutcome(p1.state, front, f);
      if p1.ok {
        BothSteps(p1, Fold(p1.state, front, f), e2[|e2| - 1], f);
      }
    }
  }

  /** Replay composes: the second part starts where the first ended, receipts concatenate and
      the chain root is folded on; a failure in the first part is final. */
  lemma ReplayComposes(s: State, e1: seq<ReplayEvent>, e2: seq<ReplayEvent>, g: Setting)
    ensures var r1, r := Replay(s, e1, g), Replay(s, e1 + e2, g);
            var r2 := Replay(r1.progress.state, e2, g);
            && r.progress == Both(r1.progress, r2.progress)
            && r.chainRoot == if r1.progress.ok then FoldChain(r1.chainRoot, r2.progress.receipts) else r1.chainRoot
  {
    FoldComposes(s, e1, e2, Replayer(g));
    var p1 := Fold(s, e1, Replayer(g));
    FoldChainSplits(GENESIS, p1.receipts, Fold(p1.state, e2, Replayer(g)).receipts);
  }

  lemma TransitionIsReceipted(e: ReplayEvent, before: State, g: Setting)
    ensures var out := Replayer(g)(e, before);
            && VerifyStateReceipt(out.receipt, before, e.input, out.state)
            && out.receipt.body.workflowId == before.workflowId
            && out.state.workflowId == before.workflowId
  {
    StepIsReceipted(Transit(e.kind, g.actor, e.input, g.toolVersion), before, g.policy);
  }

  /** Receipt `i` of a replay verifies against the states the run passes through. */
  lemma ReceiptVerifies(s: State, events: seq<ReplayEvent>, g: Setting, i: nat)
    requires i < |Replay(s, events, g).progress.receipts|
    ensures i < |events|
    ensures VerifyStateReceipt(Replay(s, events, g).progress.receipts[i],
                               RunState(s, events[..i], Replayer(g)), events[i].input, RunState(s, events[..i + 1], Replayer(g)))
    ensures Replay(s, events, g).progress.receipts[i].body.workflowId == s.workflowId
  {
    var f := Replayer(g);
    FoldHasOutcome(s, events, f);
    RunStateStep(s, events, f, i);
    TransitionIsReceipted(events[i], RunState(s, events[..i], f), g);
    ReplayKeepsId(s, events[..i], g);
  }

  lemma {:induction false} ReplayKeepsId(s: State, events: seq<ReplayEvent>, g: Setting)
    ensures RunState(s, events, Replayer(g)).workflowId == s.workflowId
    decreases |events|
  {
    if events != [] {
      var front := events[..|events| - 1];
      ReplayKeepsId(s, front, g);
      TransitionIsReceipted(events[|events| - 1], RunState(s, front, Replayer(g)), g);
    }
  }

  lemma ReceiptJoins(s: State, events: seq<ReplayEvent>, g: Setting, i: nat)
    requires i < |Replay(s, events, g).progress.receipts|
    ensures i < |events|
    ensures Replay(s, events, g).progress.receipts[i].body.stateBeforeHash == OfState(RunState(s, events[..i], Replayer(g)))
    ensures Replay(s, events, g).progress.receipts[i].body.stateAfterHash == OfState(RunState(s, events[..i + 1], Replayer(g)))
  {
    ReceiptVerifies(s, events, g, i);
  }

  lemma LastReceiptJoins(s: State, events: seq<ReplayEvent>, g: Setting)
    requires var p := Replay(s, events, g).progress; p.receipts != []
    ensures var p := Replay(s, events, g).progress;
            p.ok ==> p.receipts[|p.receipts| - 1].body.stateAfterHash == OfState(p.state)
  {
    ReplayIsLongestAcceptedPrefix(s, events, g);
    ReceiptJoins(s, events, g, |Replay(s, events, g).progress.receipts| - 1);
    assert events[..|events|] == events;
  }

  /** The receipts of a replay link: each starts from the state the previous one ended in, the
      first from the initial state, the last at the final one. */
  lemma ReceiptsLink(s: State, events: seq<ReplayEvent>, g: Setting)
    ensures var p := Replay(s, events, g).progress;
            && (p.receipts != [] ==> p.receipts[0].body.stateBeforeHash == OfState(s))
            && (forall i :: 0 < i < |p.receipts| ==> p.receipts[i].body.stateBeforeHash == p.receipts[i - 1].body.stateAfterHash)
            && (p.ok && p.receipts != [] ==> p.receipts[|p.receipts| - 1].body.stateAfterHash == OfState(p.state))
  {
    var p := Replay(s, events, g).progress;
    forall i | 0 < i < |p.receipts|
      ensures p.receipts[i].body.stateBeforeHash == p.receipts[i - 1].body.stateAfterHash
    {
      ReceiptJoins(s, events, g, i - 1);
      ReceiptJoins(s, events, g, i);
    }
    if p.receipts != [] {
      ReceiptJoins(s, events, g, 0);
      assert events[..0] == [];
      LastReceiptJoins(s, events, g);
    }
  }

  /** Two replays count as equal exactly when both finish, in the same final state, with the
      same list of receipt digests. */
  lemma CompareReplayIsExact(s: State, a: seq<ReplayEvent>, t: State, b: seq<ReplayEvent>, g: Setting, h: Setting)
    ensures var ra, rb := Replay(s, a, g), Replay(t, b, h);
            var c := CompareReplay(ra, rb);
            && (c.equal <==> c.bothOk && c.sameState && c.sameChain)
            && (c.bothOk <==> ra.progress.ok && rb.progress.ok)
            && (c.sameState <==> ra.progress.state == rb.progress.state)
            && (c.sameChain <==> Digests(ra.progress.receipts) == Digests(rb.progress.receipts))
  {
    ChainRootIsInjective(Replay(s, a, g).progress.receipts, Replay(t, b, h).progress.receipts);
  }
}
