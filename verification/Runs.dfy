/** Runs of a state machine whose step function is a parameter: live edits, artifact commits
    and replayed events all advance a workflow through one of these. */
module Runs {
  import opened Records
  import opened Policy

  datatype Outcome = Outcome(ok: bool, state: State, receipt: Receipt, policy: PolicyResult)

  /** The state after a whole run of steps, accepted or not. */
  function RunState<O>(s: State, ops: seq<O>, f: (O, State) -> Outcome): State
    decreases |ops|
  {
    if ops == [] then s else f(ops[|ops| - 1], RunState(s, ops[..|ops| - 1], f)).state
  }

  /** What step `i` of a run produced. */
  function At<O>(s: State, ops: seq<O>, f: (O, State) -> Outcome, i: nat): Outcome
    requires i < |ops|
  {
    f(ops[i], RunState(s, ops[..i], f))
  }

  ghost predicate AllAccepted<O>(s: State, ops: seq<O>, f: (O, State) -> Outcome) {
    forall i :: 0 <= i < |ops| ==> At(s, ops, f, i).ok
  }

  lemma AcceptedFront<O>(s: State, ops: seq<O>, f: (O, State) -> Outcome, m: nat)
    requires m <= |ops| && AllAccepted(s, ops, f)
    ensures AllAccepted(s, ops[..m], f)
  {
    forall i | 0 <= i < m ensures At(s, ops[..m], f, i).ok {
      AtIgnoresLater(s, ops, f, m, i);
    }
  }

  lemma AcceptedGrows<O>(s: State, front: seq<O>, op: O, f: (O, State) -> Outcome)
    requires AllAccepted(s, front, f) && f(op, RunState(s, front, f)).ok
    ensures AllAccepted(s, front + [op], f)
  {
    var ops := front + [op];
    assert ops[..|front|] == front;
    forall i | 0 <= i < |ops| ensures At(s, ops, f, i).ok {
      if i < |front| {
        AtIgnoresLater(s, ops, f, |front|, i);
      }
    }
  }

  lemma RunStateStep<O>(s: State, ops: seq<O>, f: (O, State) -> Outcome, i: nat)
    requires i < |ops|
    ensures RunState(s, ops[..i + 1], f) == At(s, ops, f, i).state
  {
    assert ops[..i + 1][..i] == ops[..i];
  }

  lemma RunAppends<O>(s: State, front: seq<O>, op: O, f: (O, State) -> Outcome)
    ensures RunState(s, front + [op], f) == f(op, RunState(s, front, f)).state
    ensures At(s, front + [op], f, |front|) == f(op, RunState(s, front, f))
  {
    assert (front + [op])[..|front|] == front;
  }

  lemma AtIgnoresLater<O>(s: State, ops: seq<O>, f: (O, State) -> Outcome, m: nat, i: nat)
    requires i < m <= |ops|
    ensures At(s, ops[..m], f, i) == At(s, ops, f, i)
  {
    assert ops[..m][..i] == ops[..i];
  }
}
