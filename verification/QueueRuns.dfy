/** The task queue under concurrency: workers claim, heartbeat, complete and fail tasks while the
    reaper scans for expired claims and then deals with them one by one
    (acpd/internal/store/tasks.go, acpd/internal/queue/queue.go). */
module QueueRuns {
  import opened Numbers
  import opened Records
  import opened TaskQueue

  /** A worker that has read a task's attempt counts and is about to report its failure. */
  datatype Ticket = Ticket(id: string, attempts: int, max: int)

  datatype Handout = Handout(id: string, attempt: int)

  /** The queue, what is left of each reaper's scan, the failures being reported, and (for the
      statements below) every task handed out so far. */
  datatype System = System(q: Queue, scans: map<nat, seq<Entry>>, tickets: map<nat, Ticket>, handouts: seq<Handout>)

  datatype Action =
    | DoEnqueue(id: string, request: Request, now: int)
    | DoClaim(id: string, agent: string, now: int)
    | DoHeartbeat(id: string, worker: string, now: int)
    | DoComplete(id: string)
    | ReadForFail(ticket: nat, id: string)
    | WriteFail(ticket: nat, reason: string)
    | DoScan(reaper: nat, order: seq<string>, now: int)
    | ReapNext(reaper: nat)

  function ScanOf(s: System, reaper: nat): seq<Entry> {
    if reaper in s.scans then s.scans[reaper] else []
  }

  /** One step.  A claim takes a next task of its agent, whichever the database picks; a scan lists
      the expired claims in whichever order; a reaper scans again when it has finished its list. */
  ghost function Step(s: System, a: Action): System {
    match a
    case DoEnqueue(id, request, now) => s.(q := Enqueue(s.q, id, request, now))
    case DoClaim(id, agent, now) =>
      if IsNext(s.q, agent, id) then
        s.(q := Claim(s.q, id, agent, now), handouts := s.handouts + [Handout(id, s.q.tasks[id].attemptCount + 1)])
      else s
    case DoHeartbeat(id, worker, now) => s.(q := Heartbeat(s.q, id, worker, now))
    case DoComplete(id) => s.(q := Complete(s.q, id))
    case ReadForFail(ticket, id) =>
      s.(tickets := s.tickets[ticket := Ticket(id, ReadAttempts(s.q, id).0, ReadAttempts(s.q, id).1)])
    case WriteFail(ticket, reason) =>
      if ticket in s.tickets then
        var t := s.tickets[ticket];
        s.(q := Fail(s.q, t.id, reason, t.attempts, t.max).0, tickets := s.tickets - {ticket})
      else s
    case DoScan(reaper, order, now) =>
      if ScanOf(s, reaper) == [] && IsScan(s.q, order, now) then s.(scans := s.scans[reaper := Entries(s.q, order)]) else s
    case ReapNext(reaper) =>
      var scan := ScanOf(s, reaper);
      if scan == [] then s else s.(q := Reap(s.q, scan[0]), scans := s.scans[reaper := scan[1..]])
  }

  const START := System(Queue(map[], map[]), map[], map[], [])

  ghost function Execute(s: System, schedule: seq<Action>): System
    decreases |schedule|
  {
    if schedule == [] then s else Step(Execute(s, schedule[..|schedule| - 1]), schedule[|schedule| - 1])
  }

  // ---------- The invariant ----------

  ghost predicate TaskOk(q: Queue, id: string)
    requires id in q.tasks
  {
    var t := q.tasks[id];
    && 0 <= t.attemptCount && t.maxAttempts != 0
    && (t.status.Pending? || t.status.Claimed? ==> !t.deadLettered)
    && (t.deadLettered <==> id in q.dead)
    && (if t.maxAttempts < 0 then t.attemptCount == 0 && !t.status.Claimed? else t.attemptCount <= t.maxAttempts)
  }

  /** The rows of a scan are those of tasks, fresh or stale. */
  ghost predicate RowsKnown(q: Queue, scan: seq<Entry>) {
    forall i :: 0 <= i < |scan| ==> scan[i].id in q.tasks
  }

  ghost predicate Inv(s: System) {
    && (forall id :: id in s.q.tasks ==> TaskOk(s.q, id))
    && s.q.dead.Keys <= s.q.tasks.Keys
    && (forall reaper :: RowsKnown(s.q, ScanOf(s, reaper)))
  }

  ghost predicate KnownRow(s: System, a: Action) {
    a.ReapNext? && ScanOf(s, a.reaper) != [] ==> ScanOf(s, a.reaper)[0].id in s.q.tasks
  }

  /** How one task may change in one step. */
  ghost predicate Moves(t: Task, u: Task) {
    && u.maxAttempts == t.maxAttempts
    && (u.attemptCount == t.attemptCount || (t.status.Pending? && u.status.Claimed? && u.attemptCount == t.attemptCount + 1))
    && (u.status.Pending? && !t.status.Pending? ==> t.status.Claimed? && !t.deadLettered)
    && (u.status.Claimed? && !t.status.Claimed? ==> u.attemptCount == t.attemptCount + 1)
    && (t.deadLettered ==> u.deadLettered)
  }

  lemma StepKeepsTask(s: System, a: Action, id: string)
    requires (id in s.q.tasks ==> TaskOk(s.q, id)) && (id in s.q.dead ==> id in s.q.tasks)
    requires KnownRow(s, a)
    ensures id in Step(s, a).q.dead ==> id in Step(s, a).q.tasks
    ensures id in Step(s, a).q.tasks ==> TaskOk(Step(s, a).q, id)
  {
  }

  lemma StepKeepsTasks(s: System, a: Action, id: string)
    requires id in s.q.tasks
    ensures id in Step(s, a).q.tasks
  {
  }

  lemma StepKeepsRows(s: System, a: Action, reaper: nat)
    requires RowsKnown(s.q, ScanOf(s, reaper))
    ensures RowsKnown(Step(s, a).q, ScanOf(Step(s, a), reaper))
  {
    var scan, left := ScanOf(s, reaper), ScanOf(Step(s, a), reaper);
    if a.DoScan? && left != scan {
      ScanEntriesAreOk(s.q, a.order, a.now);
      assert forall i :: 0 <= i < |left| ==> left[i] in left;
    } else {
      forall i | 0 <= i < |left| ensures left[i].id in Step(s, a).q.tasks {
        assert left == scan || left == scan[1..];
        StepKeepsTasks(s, a, left[i].id);
      }
    }
  }

  lemma InvKnowsRow(s: System, a: Action)
    requires Inv(s)
    ensures KnownRow(s, a)
  {
    if a.ReapNext? {
      assert RowsKnown(s.q, ScanOf(s, a.reaper));
    }
  }

  lemma StepKeepsInv(s: System, a: Action)
    requires Inv(s)
    ensures Inv(Step(s, a))
  {
    var n := Step(s, a);
    InvKnowsRow(s, a);
    forall reaper ensures RowsKnown(n.q, ScanOf(n, reaper)) {
      assert RowsKnown(s.q, ScanOf(s, reaper));
      StepKeepsRows(s, a, reaper);
    }
    forall id ensures (id in n.q.dead ==> id in n.q.tasks) && (id in n.q.tasks ==> TaskOk(n.q, id)) {
      StepKeepsTask(s, a, id);
    }
  }

  lemma TaskMoves(s: System, a: Action, id: string)
    requires id in s.q.tasks && TaskOk(s.q, id) && KnownRow(s, a)
    ensures id in Step(s, a).q.tasks && Moves(s.q.tasks[id], Step(s, a).q.tasks[id])
  {
  }

  lemma StepMoves(s: System, a: Action, id: string)
    requires Inv(s) && id in s.q.tasks
    ensures id in Step(s, a).q.tasks && Moves(s.q.tasks[id], Step(s, a).q.tasks[id])
  {
    InvKnowsRow(s, a);
    TaskMoves(s, a, id);
  }

  lemma {:induction false} ExecuteKeepsInv(s: System, schedule: seq<Action>)
    requires Inv(s)
    ensures Inv(Execute(s, schedule))
    decreases |schedule|
  {
    if schedule != [] {
      var front, last := schedule[..|schedule| - 1], schedule[|schedule| - 1];
      ExecuteKeepsInv(s, front);
      StepKeepsInv(Execute(s, front), last);
    }
  }

  /** In every queue that any interleaving reaches, with any number of reapers: the dead-lettered tasks
      are exactly those in the dead-letter table, and none of them is pending or claimed; a task is
      within its attempt limit exactly when that limit is not negative. */
  lemma ReachableQueuesAreSound(schedule: seq<Action>, id: string)
    ensures var q := Execute(START, schedule).q;
            && (id in q.dead ==> id in q.tasks)
            && (id in q.tasks ==>
                  var t := q.tasks[id];
                  && 0 <= t.attemptCount
                  && (t.attemptCount <= t.maxAttempts <==> t.maxAttempts >= 0)
                  && (t.deadLettered <==> id in q.dead)
                  && (t.deadLettered ==> !t.status.Pending? && !t.status.Claimed?))
  {
    ExecuteKeepsInv(START, schedule);
    if id in Execute(START, schedule).q.tasks {
      assert TaskOk(Execute(START, schedule).q, id);
    }
  }

  // ---------- Hand-outs ----------

  /** The attempt numbers under which a task has been handed out, in order. */
  ghost function AttemptsOf(handouts: seq<Handout>, id: string): seq<int>
    decreases |handouts|
  {
    if handouts == [] then []
    else
      var last := handouts[|handouts| - 1];
      AttemptsOf(handouts[..|handouts| - 1], id) + (if last.id == id then [last.attempt] else [])
  }

  /** 1, 2, ..., n. */
  function UpTo(n: nat): (r: seq<int>)
    ensures |r| == n && forall i :: 0 <= i < n ==> r[i] == i + 1
  {
    seq(n, i => i + 1)
  }

  ghost predicate HandoutsOk(s: System, id: string) {
    && (id in s.q.tasks ==> s.q.tasks[id].attemptCount >= 0)
    && AttemptsOf(s.handouts, id) == UpTo(if id in s.q.tasks then s.q.tasks[id].attemptCount else 0)
  }

  lemma StepKeepsAttempts(s: System, a: Action, id: string)
    requires id in s.q.tasks && KnownRow(s, a)
    requires !(a.DoClaim? && a.id == id && IsNext(s.q, a.agent, id))
    ensures id in Step(s, a).q.tasks && Step(s, a).q.tasks[id].attemptCount == s.q.tasks[id].attemptCount
  {
  }

  lemma StepCreates(s: System, a: Action, id: string)
    requires id !in s.q.tasks && KnownRow(s, a)
    ensures id in Step(s, a).q.tasks ==> Step(s, a).q.tasks[id].attemptCount == 0
  {
  }

  lemma StepHandsOut(s: System, a: Action, id: string)
    ensures AttemptsOf(Step(s, a).handouts, id) == AttemptsOf(s.handouts, id)
              + (if a.DoClaim? && a.id == id && IsNext(s.q, a.agent, id) then [s.q.tasks[id].attemptCount + 1] else [])
  {
    if a.DoClaim? && IsNext(s.q, a.agent, a.id) {
      assert Step(s, a).handouts[..|s.handouts|] == s.handouts;
    }
  }

  lemma StepKeepsHandouts(s: System, a: Action, id: string)
    requires HandoutsOk(s, id) && KnownRow(s, a)
    ensures HandoutsOk(Step(s, a), id)
  {
    StepHandsOut(s, a, id);
    if a.DoClaim? && a.id == id && IsNext(s.q, a.agent, id) {
      var n := s.q.tasks[id].attemptCount;
      assert UpTo(n + 1) == UpTo(n) + [n + 1];
    } else if id in s.q.tasks {
      StepKeepsAttempts(s, a, id);
    } else {
      StepCreates(s, a, id);
    }
  }

  lemma {:induction false} ExecuteKeepsHandouts(schedule: seq<Action>, id: string)
    ensures HandoutsOk(Execute(START, schedule), id)
    decreases |schedule|
  {
    if schedule != [] {
      var front, last := schedule[..|schedule| - 1], schedule[|schedule| - 1];
      ExecuteKeepsInv(START, front);
      InvKnowsRow(Execute(START, front), last);
      ExecuteKeepsHandouts(front, id);
      StepKeepsHandouts(Execute(START, front), last, id);
    }
  }

  /** Over every run a task has been handed out under the attempt numbers 1, 2, ..., attempt_count,
      once each: so at most max_attempts times, and never if that is negative. */
  lemma HandoutsAreNumberedAttempts(schedule: seq<Action>, id: string)
    ensures var s := Execute(START, schedule);
            if id in s.q.tasks then
              && s.q.tasks[id].attemptCount >= 0
              && AttemptsOf(s.handouts, id) == UpTo(s.q.tasks[id].attemptCount)
              && |AttemptsOf(s.handouts, id)| <= Max(0, s.q.tasks[id].maxAttempts)
            else AttemptsOf(s.handouts, id) == []
  {
    ExecuteKeepsHandouts(schedule, id);
    ExecuteKeepsInv(START, schedule);
    if id in Execute(START, schedule).q.tasks {
      assert TaskOk(Execute(START, schedule).q, id);
    }
  }

  lemma StepKeepsDead(s: System, a: Action, id: string)
    requires Inv(s) && id in s.q.tasks && s.q.tasks[id].deadLettered
    ensures var n := Step(s, a);
            && id in n.q.tasks && n.q.tasks[id].deadLettered
            && !n.q.tasks[id].status.Pending? && !n.q.tasks[id].status.Claimed?
            && AttemptsOf(n.handouts, id) == AttemptsOf(s.handouts, id)
  {
    StepMoves(s, a, id);
    StepHandsOut(s, a, id);
    assert TaskOk(s.q, id);
  }

  /** Once dead-lettered, a task stays so, is never handed out again, and is never pending or
      claimed again. */
  lemma {:induction false} DeadStaysDead(s: System, schedule: seq<Action>, id: string)
    requires Inv(s) && id in s.q.tasks && s.q.tasks[id].deadLettered
    ensures var n := Execute(s, schedule);
            && id in n.q.tasks && n.q.tasks[id].deadLettered
            && !n.q.tasks[id].status.Pending? && !n.q.tasks[id].status.Claimed?
            && AttemptsOf(n.handouts, id) == AttemptsOf(s.handouts, id)
    decreases |schedule|
  {
    if schedule == [] {
      assert TaskOk(s.q, id);
    } else {
      var front, last := schedule[..|schedule| - 1], schedule[|schedule| - 1];
      DeadStaysDead(s, front, id);
      ExecuteKeepsInv(s, front);
      StepKeepsDead(Execute(s, front), last, id);
    }
  }

  // ---------- Retrying terminates ----------

  function Measure(t: Task): int {
    2 * Max(0, t.maxAttempts - t.attemptCount) + if t.status.Claimed? then 1 else 0
  }

  /** The step claims the task, or puts it back in the queue. */
  ghost predicate IsRetryStep(t: Task, u: Task) {
    (t.status.Pending? && u.status.Claimed?) || (t.status.Claimed? && u.status.Pending?)
  }

  /** Claims and requeues strictly lower the measure, and nothing raises it. */
  lemma RetryLowersMeasure(s: System, a: Action, id: string)
    requires Inv(s) && id in s.q.tasks
    ensures id in Step(s, a).q.tasks
    ensures var t, u := s.q.tasks[id], Step(s, a).q.tasks[id];
            && Measure(u) <= Measure(t) - (if IsRetryStep(t, u) then 1 else 0)
            && Measure(t) >= 0
  {
    InvKnowsRow(s, a);
    assert TaskOk(s.q, id);
    MoveLowersMeasure(s, a, id);
  }

  lemma MoveLowersMeasure(s: System, a: Action, id: string)
    requires id in s.q.tasks && TaskOk(s.q, id) && KnownRow(s, a)
    ensures id in Step(s, a).q.tasks
    ensures var t, u := s.q.tasks[id], Step(s, a).q.tasks[id];
            Measure(u) <= Measure(t) - (if IsRetryStep(t, u) then 1 else 0)
  {
  }

  /** How often a run claims or requeues a task. */
  ghost function RetrySteps(s: System, schedule: seq<Action>, id: string): nat
    requires id in s.q.tasks
    decreases |schedule|
  {
    if schedule == [] then 0
    else
      var n := Step(s, schedule[0]);
      StepKeepsTasks(s, schedule[0], id);
      (if IsRetryStep(s.q.tasks[id], n.q.tasks[id]) then 1 else 0) + RetrySteps(n, schedule[1..], id)
  }

  /** No run claims and requeues a task more often than its measure allows: at most twice per
      attempt left. */
  lemma {:induction false} RetryingTerminates(s: System, schedule: seq<Action>, id: string)
    requires id in s.q.tasks && Inv(s)
    ensures RetrySteps(s, schedule, id) <= Measure(s.q.tasks[id])
    decreases |schedule|
  {
    if schedule == [] {
      assert TaskOk(s.q, id);
    } else {
      RetryLowersMeasure(s, schedule[0], id);
      StepKeepsInv(s, schedule[0]);
      RetryingTerminates(Step(s, schedule[0]), schedule[1..], id);
    }
  }

  // ---------- What stays ----------

  /** No step changes what a task is: whose, how urgent, how patient, how old. */
  lemma StepKeepsDescription(s: System, a: Action, id: string)
    requires id in s.q.tasks
    ensures id in Step(s, a).q.tasks
    ensures var t, u := s.q.tasks[id], Step(s, a).q.tasks[id];
            && u.agent == t.agent && u.priority == t.priority && u.lane == t.lane && u.timeoutSec == t.timeoutSec
            && u.maxAttempts == t.maxAttempts && u.createdAt == t.createdAt
  {
  }

  ghost predicate Settled(q: Queue, id: string) {
    id in q.tasks && !q.tasks[id].status.Pending? && !q.tasks[id].status.Claimed?
  }

  lemma StepKeepsSettled(s: System, a: Action, id: string)
    requires Settled(s.q, id)
    ensures Settled(Step(s, a).q, id)
  {
  }

  lemma SettledIsNotNext(q: Queue, agent: string, id: string)
    requires Settled(q, id)
    ensures !IsNext(q, agent, id)
  {
  }

  /** A completed or failed task is never handed out again, even with attempts left: only expiry gives a
      task another try, a reported failure does not. */
  lemma {:induction false} SettledStaysSettled(s: System, schedule: seq<Action>, id: string)
    requires Settled(s.q, id)
    ensures var n := Execute(s, schedule);
            Settled(n.q, id) && AttemptsOf(n.handouts, id) == AttemptsOf(s.handouts, id)
    decreases |schedule|
  {
    if schedule != [] {
      var front, last := schedule[..|schedule| - 1], schedule[|schedule| - 1];
      SettledStaysSettled(s, front, id);
      var before := Execute(s, front);
      StepKeepsSettled(before, last, id);
      StepHandsOut(before, last, id);
      if last.DoClaim? {
        SettledIsNotNext(before.q, last.agent, id);
      }
    }
  }

  /** A failure reported with attempts left fails the task, whatever its status, and leaves the
      dead-letter table alone. */
  lemma ReportedFailureFails(s: System, ticket: nat, reason: string)
    requires ticket in s.tickets && s.tickets[ticket].id in s.q.tasks && s.tickets[ticket].attempts < s.tickets[ticket].max
    ensures var id, n := s.tickets[ticket].id, Step(s, WriteFail(ticket, reason));
            && n.q.dead == s.q.dead && ticket !in n.tickets
            && n.q.tasks == s.q.tasks[id := s.q.tasks[id].(status := Failed, failedReason := Some(reason))]
  {
  }

  // ---------- What the missing guards allow ----------

  lemma ExecuteGrows(s: System, front: seq<Action>, a: Action)
    ensures Execute(s, front + [a]) == Step(Execute(s, front), a)
  {
    assert (front + [a])[..|front|] == front;
  }

  /** A completed task stays completed, but for two steps that do not look at its status: writing a
      failure read before, unless the task is out of attempts and already in the dead-letter table;
      and reaping a row of a scan that found it out of attempts. */
  lemma CompletedIsUndoneExactlyWhen(s: System, a: Action, id: string)
    requires id in s.q.tasks && s.q.tasks[id].status.Completed?
    ensures id in Step(s, a).q.tasks
    ensures !Step(s, a).q.tasks[id].status.Completed? <==>
              || (a.WriteFail? && a.ticket in s.tickets && s.tickets[a.ticket].id == id
                  && (s.tickets[a.ticket].attempts < s.tickets[a.ticket].max || id !in s.q.dead))
              || (a.ReapNext? && ScanOf(s, a.reaper) != [] && ScanOf(s, a.reaper)[0].id == id
                  && ScanOf(s, a.reaper)[0].attempts >= ScanOf(s, a.reaper)[0].max)
    ensures !Step(s, a).q.tasks[id].status.Completed? ==> Step(s, a).q.tasks[id].status.Failed?
  {
  }

  /** A task alone in the queue, claimed once. */
  lemma ClaimedAlone(id: string, r: Request, claimAt: int)
    requires r.maxAttempts >= 0
    ensures Execute(START, [DoEnqueue(id, r, 0), DoClaim(id, r.agent, claimAt)])
         == System(Queue(map[id := ClaimTask(NewTask(r, 0), r.agent, claimAt)], map[]), map[], map[], [Handout(id, 1)])
  {
    var enqueue, claim := DoEnqueue(id, r, 0), DoClaim(id, r.agent, claimAt);
    EnqueuedAlone(id, r);
    ExecuteGrows(START, [enqueue], claim);
    assert [enqueue] + [claim] == [enqueue, claim];
    var s := System(Queue(map[id := NewTask(r, 0)], map[]), map[], map[], []);
    assert IsNext(s.q, r.agent, id);
    assert s.q.tasks[id := ClaimTask(NewTask(r, 0), r.agent, claimAt)] == map[id := ClaimTask(NewTask(r, 0), r.agent, claimAt)];
  }

  lemma EnqueuedAlone(id: string, r: Request)
    ensures Execute(START, [DoEnqueue(id, r, 0)]) == System(Queue(map[id := NewTask(r, 0)], map[]), map[], map[], [])
  {
    ExecuteGrows(START, [], DoEnqueue(id, r, 0));
    assert [] + [DoEnqueue(id, r, 0)] == [DoEnqueue(id, r, 0)];
    assert Execute(START, []) == START;
  }

  /** Such runs exist: a worker that reports a failure late fails its completed task. */
  lemma CompletedTaskFails(id: string, r: Request, ticket: nat, reason: string)
    requires r.maxAttempts >= 0
    ensures var run := [DoEnqueue(id, r, 0), DoClaim(id, r.agent, 0), ReadForFail(ticket, id), DoComplete(id)];
            var before, after := Execute(START, run), Execute(START, run + [WriteFail(ticket, reason)]);
            && id in before.q.tasks && before.q.tasks[id].status.Completed?
            && id in after.q.tasks && after.q.tasks[id].status.Failed?
  {
    var two := [DoEnqueue(id, r, 0), DoClaim(id, r.agent, 0)];
    ClaimedAlone(id, r, 0);
    ExecuteGrows(START, two, ReadForFail(ticket, id));
    ExecuteGrows(START, two + [ReadForFail(ticket, id)], DoComplete(id));
    var run := two + [ReadForFail(ticket, id)] + [DoComplete(id)];
    assert run == [DoEnqueue(id, r, 0), DoClaim(id, r.agent, 0), ReadForFail(ticket, id), DoComplete(id)];
    ExecuteGrows(START, run, WriteFail(ticket, reason));
    CompletedIsUndoneExactlyWhen(Execute(START, run), WriteFail(ticket, reason), id);
  }

  // ---------- Stranded tasks ----------

  /** Pending with no attempts left: no agent can ever claim it. */
  ghost predicate Stranded(t: Task) {
    t.status.Pending? && t.attemptCount >= t.maxAttempts
  }

  /** With any number of reapers, a step strands a task exactly when it reaps a row that still counts
      an attempt left, of a task claimed meanwhile for the last time. */
  lemma StrandedExactlyWhen(s: System, a: Action, id: string)
    requires id in s.q.tasks && !Stranded(s.q.tasks[id])
    ensures id in Step(s, a).q.tasks
    ensures Stranded(Step(s, a).q.tasks[id]) <==>
              && a.ReapNext? && ScanOf(s, a.reaper) != []
              && var e, t := ScanOf(s, a.reaper)[0], s.q.tasks[id];
                 e.id == id && t.status.Claimed? && e.attempts < e.max && t.attemptCount >= t.maxAttempts
  {
  }

  /** No reaper but this one takes part. */
  ghost predicate OnlyReaper(schedule: seq<Action>, reaper: nat) {
    forall a :: a in schedule ==> ActsFor(a, reaper)
  }

  ghost predicate ActsFor(a: Action, reaper: nat) {
    a.DoScan? || a.ReapNext? ==> a.reaper == reaper
  }

  /** A scanned task has not been handed out again since. */
  ghost predicate EntryOk(q: Queue, e: Entry) {
    && e.id in q.tasks && !q.tasks[e.id].status.Pending?
    && q.tasks[e.id].attemptCount == e.attempts && q.tasks[e.id].maxAttempts == e.max
  }

  ghost predicate ScanOk(q: Queue, scan: seq<Entry>) {
    && (forall e :: e in scan ==> EntryOk(q, e))
    && (forall i, j :: 0 <= i < j < |scan| ==> scan[i].id != scan[j].id)
  }

  /** The row a step reaps is as it was scanned. */
  ghost predicate FreshRow(s: System, a: Action) {
    a.ReapNext? && ScanOf(s, a.reaper) != [] ==> EntryOk(s.q, ScanOf(s, a.reaper)[0])
  }

  lemma ScanEntriesAreOk(q: Queue, order: seq<string>, now: int)
    requires IsScan(q, order, now)
    ensures forall e :: e in Entries(q, order) ==> EntryOk(q, e)
    ensures forall i, j :: 0 <= i < j < |order| ==> Entries(q, order)[i].id != Entries(q, order)[j].id
  {
    forall e | e in Entries(q, order) ensures EntryOk(q, e) {
      var i :| 0 <= i < |order| && Entries(q, order)[i] == e;
      assert order[i] in order;
    }
  }

  lemma StepKeepsEntry(s: System, a: Action, e: Entry)
    requires EntryOk(s.q, e) && FreshRow(s, a)
    requires a.ReapNext? && ScanOf(s, a.reaper) != [] ==> ScanOf(s, a.reaper)[0].id != e.id
    ensures EntryOk(Step(s, a).q, e)
  {
  }

  lemma StepKeepsScan(s: System, a: Action, reaper: nat)
    requires ScanOk(s.q, ScanOf(s, reaper)) && ActsFor(a, reaper)
    ensures ScanOk(Step(s, a).q, ScanOf(Step(s, a), reaper))
  {
    var n, scan, left := Step(s, a), ScanOf(s, reaper), ScanOf(Step(s, a), reaper);
    if a.DoScan? && left != scan {
      ScanEntriesAreOk(s.q, a.order, a.now);
    } else {
      forall e | e in left ensures EntryOk(n.q, e) {
        var i :| 0 <= i < |left| && left[i] == e;
        assert e in scan;
        StepKeepsEntry(s, a, e);
      }
    }
  }

  ghost predicate IsStranded(s: System, id: string) {
    id in s.q.tasks && s.q.tasks[id].maxAttempts >= 0 && Stranded(s.q.tasks[id])
  }

  lemma StepStrandsNone(s: System, a: Action, id: string)
    requires FreshRow(s, a) && !IsStranded(s, id)
    requires id in s.q.tasks ==> TaskOk(s.q, id) && Moves(s.q.tasks[id], Step(s, a).q.tasks[id])
    ensures !IsStranded(Step(s, a), id)
  {
    if id in s.q.tasks && !Stranded(s.q.tasks[id]) {
      StrandedExactlyWhen(s, a, id);
    }
  }

  lemma {:induction false} OneReaperKeepsScan(schedule: seq<Action>, reaper: nat, id: string)
    requires OnlyReaper(schedule, reaper)
    ensures var s := Execute(START, schedule);
            ScanOk(s.q, ScanOf(s, reaper)) && !IsStranded(s, id)
    decreases |schedule|
  {
    if schedule != [] {
      var front, last := schedule[..|schedule| - 1], schedule[|schedule| - 1];
      assert last in schedule && forall a :: a in front ==> a in schedule;
      var s := Execute(START, front);
      OneReaperKeepsScan(front, reaper, id);
      ExecuteKeepsInv(START, front);
      StepKeepsScan(s, last, reaper);
      if id in s.q.tasks {
        assert TaskOk(s.q, id);
        StepMoves(s, last, id);
      }
      StepStrandsNone(s, last, id);
    }
  }

  /** With one reaper no task is ever stranded: a pending task has an attempt left, and can be claimed,
      exactly when its limit is not negative. */
  lemma OneReaperStrandsNone(schedule: seq<Action>, reaper: nat, id: string)
    requires OnlyReaper(schedule, reaper)
    ensures var q := Execute(START, schedule).q;
            id in q.tasks && q.tasks[id].status.Pending? ==>
              var t := q.tasks[id];
              && (t.attemptCount < t.maxAttempts <==> t.maxAttempts >= 0)
              && (IsEligible(t, t.agent) <==> t.maxAttempts >= 0)
  {
    OneReaperKeepsScan(schedule, reaper, id);
    ExecuteKeepsInv(START, schedule);
    if id in Execute(START, schedule).q.tasks {
      assert TaskOk(Execute(START, schedule).q, id);
    }
  }

  lemma ScanAlone(s: System, id: string, reaper: nat, now: int)
    requires s.q.tasks.Keys == {id} && IsExpired(s.q.tasks[id], now) && ScanOf(s, reaper) == []
    ensures Step(s, DoScan(reaper, [id], now)) == s.(scans := s.scans[reaper := [EntryFor(s.q, id)]])
  {
    assert IsScan(s.q, [id], now);
    assert Entries(s.q, [id]) == [EntryFor(s.q, id)];
  }

  /** Two reapers that scan the same expired claim do that: one requeues it, it is claimed for the last
      time, and the other requeues it again. */
  lemma TwoReapersStrandATask(id: string, r: Request, now: int)
    requires r.maxAttempts == 2 && r.timeoutSec <= now
    ensures var run := [DoEnqueue(id, r, 0), DoClaim(id, r.agent, 0), DoScan(0, [id], now), DoScan(1, [id], now),
                        ReapNext(0), DoClaim(id, r.agent, now), ReapNext(1)];
            var q := Execute(START, run).q;
            && id in q.tasks && Stranded(q.tasks[id]) && q.tasks[id].attemptCount == 2 && !q.tasks[id].deadLettered
            && forall agent :: !IsEligible(q.tasks[id], agent)
  {
    var two := [DoEnqueue(id, r, 0), DoClaim(id, r.agent, 0)];
    ClaimedAlone(id, r, 0);
    var s2 := Execute(START, two);
    var e := EntryFor(s2.q, id);
    ScanAlone(s2, id, 0, now);
    var s3 := Step(s2, DoScan(0, [id], now));
    ScanAlone(s3, id, 1, now);
    var s4 := Step(s3, DoScan(1, [id], now));
    assert s4.scans == map[0 := [e], 1 := [e]];
    var s5 := Step(s4, ReapNext(0));
    assert s5.q.tasks == map[id := Requeued(s2.q.tasks[id])] && IsNext(s5.q, r.agent, id);
    var s6 := Step(s5, DoClaim(id, r.agent, now));
    var s7 := Step(s6, ReapNext(1));
    assert Stranded(s7.q.tasks[id]);
    ExecuteGrows(START, two, DoScan(0, [id], now));
    var run3 := two + [DoScan(0, [id], now)];
    ExecuteGrows(START, run3, DoScan(1, [id], now));
    var run4 := run3 + [DoScan(1, [id], now)];
    ExecuteGrows(START, run4, ReapNext(0));
    var run5 := run4 + [ReapNext(0)];
    ExecuteGrows(START, run5, DoClaim(id, r.agent, now));
    var run6 := run5 + [DoClaim(id, r.agent, now)];
    ExecuteGrows(START, run6, ReapNext(1));
    assert run6 + [ReapNext(1)] == [DoEnqueue(id, r, 0), DoClaim(id, r.agent, 0), DoScan(0, [id], now), DoScan(1, [id], now),
                                    ReapNext(0), DoClaim(id, r.agent, now), ReapNext(1)];
  }
}
