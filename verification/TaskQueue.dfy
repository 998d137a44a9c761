/** The pull-based task queue (acpd/internal/store/tasks.go). Times are seconds. */
module TaskQueue {
  import opened Records
  import opened Lists

  datatype Status = Pending | Claimed | Completed | Failed

  datatype Task = Task(
    agent: string, status: Status, priority: int, lane: string, timeoutSec: int,
    attemptCount: int, maxAttempts: int, deadLettered: bool,
    claimedBy: Option<string>, claimedAt: Option<int>, lastHeartbeat: Option<int>,
    failedReason: Option<string>, createdAt: int)

  datatype DeadRow = DeadRow(reason: string, attemptCount: int, originalCreated: int)

  datatype Queue = Queue(tasks: map<string, Task>, dead: map<string, DeadRow>)

  datatype Request = Request(agent: string, priority: int, lane: string, timeoutSec: int, maxAttempts: int)

  function NewTask(r: Request, now: int): Task {
    Task(r.agent, Pending, r.priority, if r.lane == "" then "normal" else r.lane, r.timeoutSec,
         0, if r.maxAttempts == 0 then 3 else r.maxAttempts, false, None, None, None, None, now)
  }

  function Enqueue(q: Queue, id: string, r: Request, now: int): Queue {
    if id in q.tasks then q else q.(tasks := q.tasks[id := NewTask(r, now)])
  }

  predicate IsEligible(t: Task, agent: string) {
    t.agent == agent && t.status.Pending? && !t.deadLettered && t.attemptCount < t.maxAttempts
  }

  /** The task waits for this agent: pending, with an attempt left. */
  ghost predicate Waits(t: Task, agent: string) {
    t.agent == agent && t.status == Pending && t.deadLettered == false && t.maxAttempts > t.attemptCount
  }

  function Eligible(q: Queue, agent: string): set<string> {
    set id | id in q.tasks && IsEligible(q.tasks[id], agent)
  }

  function LaneRank(lane: string): int {
    if lane == "critical" then 0 else if lane == "normal" then 1 else if lane == "background" then 2 else 1
  }

  /** Lane first, then higher priority, then older. */
  predicate NoLater(a: Task, b: Task) {
    || LaneRank(a.lane) < LaneRank(b.lane)
    || (LaneRank(a.lane) == LaneRank(b.lane)
        && (a.priority > b.priority || (a.priority == b.priority && a.createdAt <= b.createdAt)))
  }

  /** Critical tasks before all others, background tasks after all others; among tasks of one urgency the
      higher priority first, and among those of one priority the older. */
  predicate AtLeastAsUrgent(a: Task, b: Task) {
    && (b.lane == "critical" ==> a.lane == "critical")
    && (a.lane == "background" ==> b.lane == "background")
    && ((a.lane == "critical" <==> b.lane == "critical") && (a.lane == "background" <==> b.lane == "background") ==>
          a.priority > b.priority || (a.priority == b.priority && a.createdAt <= b.createdAt))
  }

  lemma UrgencyDecides(a: Task, b: Task)
    ensures NoLater(a, b) <==> AtLeastAsUrgent(a, b)
  {
  }

  /** An eligible task that no eligible task precedes; ties are the database's choice. */
  predicate IsNext(q: Queue, agent: string, id: string) {
    id in Eligible(q, agent) && forall o :: o in Eligible(q, agent) ==> NoLater(q.tasks[id], q.tasks[o])
  }

  function ClaimTask(t: Task, agent: string, now: int): Task {
    t.(status := Claimed, claimedBy := Some(agent), claimedAt := Some(now), lastHeartbeat := Some(now), attemptCount := t.attemptCount + 1)
  }

  function Claim(q: Queue, id: string, agent: string, now: int): Queue
    requires id in q.tasks
  {
    q.(tasks := q.tasks[id := ClaimTask(q.tasks[id], agent, now)])
  }

  function Heartbeat(q: Queue, id: string, worker: string, now: int): Queue {
    if id in q.tasks && q.tasks[id].status.Claimed? && q.tasks[id].claimedBy == Some(worker)
    then q.(tasks := q.tasks[id := q.tasks[id].(lastHeartbeat := Some(now))]) else q
  }

  /** No guard on the status: any task can be completed. */
  function Complete(q: Queue, id: string): Queue {
    if id in q.tasks then q.(tasks := q.tasks[id := q.tasks[id].(status := Completed)]) else q
  }

  /** The attempt counts as read before the failure is written; a missing task reads as 0 and 0. */
  function ReadAttempts(q: Queue, id: string): (int, int) {
    if id in q.tasks then (q.tasks[id].attemptCount, q.tasks[id].maxAttempts) else (0, 0)
  }

  function DeadTask(t: Task, reason: string): Task {
    t.(status := Failed, failedReason := Some(reason), deadLettered := true)
  }

  function DeadLetter(q: Queue, id: string, reason: string): (Queue, bool) {
    if id !in q.tasks || id in q.dead then (q, false)
    else
      var t := q.tasks[id];
      (Queue(q.tasks[id := DeadTask(t, reason)], q.dead[id := DeadRow(reason, t.attemptCount, t.createdAt)]), true)
  }

  /** FailTask, given the counts read earlier. */
  function Fail(q: Queue, id: string, reason: string, attempts: int, max: int): (Queue, bool) {
    if attempts >= max then DeadLetter(q, id, reason)
    else if id in q.tasks then (q.(tasks := q.tasks[id := q.tasks[id].(status := Failed, failedReason := Some(reason))]), true)
    else (q, true)
  }

  predicate IsExpired(t: Task, now: int) {
    && t.status.Claimed? && !t.deadLettered
    && ((t.lastHeartbeat.Some? && t.lastHeartbeat.value + t.timeoutSec <= now)
        || (t.lastHeartbeat.None? && t.claimedAt.Some? && t.claimedAt.value + t.timeoutSec <= now))
  }

  function ExpiredIds(q: Queue, now: int): set<string> {
    set id | id in q.tasks && IsExpired(q.tasks[id], now)
  }

  /** A row of the reaper's scan. */
  datatype Entry = Entry(id: string, attempts: int, max: int, createdAt: int)

  function EntryFor(q: Queue, id: string): Entry
    requires id in q.tasks
  {
    Entry(id, q.tasks[id].attemptCount, q.tasks[id].maxAttempts, q.tasks[id].createdAt)
  }

  const EXHAUSTED := "max_attempts_exceeded"

  function Requeued(t: Task): Task {
    t.(status := Pending, claimedBy := None, claimedAt := None, lastHeartbeat := None)
  }

  /** What the reaper does with one scanned row: dead-letter without looking again, or requeue if
      the task is still claimed. */
  function Reap(q: Queue, e: Entry): Queue {
    if e.attempts >= e.max then
      Queue(if e.id in q.tasks then q.tasks[e.id := DeadTask(q.tasks[e.id], EXHAUSTED)] else q.tasks,
            if e.id in q.dead then q.dead else q.dead[e.id := DeadRow(EXHAUSTED, e.attempts, e.createdAt)])
    else if e.id in q.tasks && q.tasks[e.id].status.Claimed? then q.(tasks := q.tasks[e.id := Requeued(q.tasks[e.id])])
    else q
  }

  /** The ids of the expired claims, each once, in whichever order. */
  ghost predicate IsScan(q: Queue, order: seq<string>, now: int) {
    && (forall i, j :: 0 <= i < j < |order| ==> order[i] != order[j])
    && (forall id :: id in order <==> id in ExpiredIds(q, now))
  }

  function Entries(q: Queue, order: seq<string>): (r: seq<Entry>)
    requires forall id :: id in order ==> id in q.tasks
    ensures |r| == |order|
  {
    seq(|order|, i requires 0 <= i < |order| => EntryFor(q, order[i]))
  }

  function RowIds(rows: seq<Entry>): (r: seq<string>)
    ensures |r| == |rows|
  {
    seq(|rows|, i requires 0 <= i < |rows| => rows[i].id)
  }

  function ReapAll(q: Queue, entries: seq<Entry>): Queue
    decreases |entries|
  {
    if entries == [] then q else Reap(ReapAll(q, entries[..|entries| - 1]), entries[|entries| - 1])
  }

  /** What an undisturbed pass of the reaper makes of a task. */
  function AfterPass(t: Task, now: int): Task {
    if !IsExpired(t, now) then t
    else if t.attemptCount >= t.maxAttempts then DeadTask(t, EXHAUSTED)
    else Requeued(t)
  }

  predicate IsExhausted(t: Task, now: int) {
    IsExpired(t, now) && t.attemptCount >= t.maxAttempts
  }

  function ExhaustedIds(q: Queue, now: int): set<string> {
    set id | id in q.tasks && IsExhausted(q.tasks[id], now)
  }

  /** The dead-letter row of a task after an undisturbed pass; a row already there is kept. */
  function DeadRowAfterPass(q: Queue, id: string): DeadRow
    requires id in q.tasks || id in q.dead
  {
    if id in q.dead then q.dead[id] else DeadRow(EXHAUSTED, q.tasks[id].attemptCount, q.tasks[id].createdAt)
  }

  /** What an undisturbed pass does to the listed tasks of the queue. */
  ghost predicate PassedOver(q: Queue, ids: set<string>, now: int, after: Queue) {
    && after.tasks.Keys == q.tasks.Keys
    && (forall id :: id in q.tasks ==> after.tasks[id] == if id in ids then AfterPass(q.tasks[id], now) else q.tasks[id])
    && (forall id :: id in after.dead <==> id in q.dead || (id in ids && id in ExhaustedIds(q, now)))
    && (forall id :: id in after.dead ==> after.dead[id] == DeadRowAfterPass(q, id))
  }

  lemma ReapPassesOne(q: Queue, ids: set<string>, now: int, mid: Queue, id: string)
    requires PassedOver(q, ids, now, mid) && id in ExpiredIds(q, now) && id !in ids
    ensures PassedOver(q, ids + {id}, now, Reap(mid, EntryFor(q, id)))
  {
    var e := EntryFor(q, id);
    var t := mid.tasks[id];
    var after := Reap(mid, e);
    assert t == q.tasks[id] && (id in mid.dead <==> id in q.dead);
    if IsExhausted(t, now) {
      assert after.tasks == mid.tasks[id := DeadTask(t, EXHAUSTED)];
      assert after.dead == if id in mid.dead then mid.dead else mid.dead[id := DeadRow(EXHAUSTED, t.attemptCount, t.createdAt)];
    } else {
      assert after == mid.(tasks := mid.tasks[id := Requeued(t)]);
    }
    assert AfterPass(t, now) == after.tasks[id];
  }

  lemma OneMore(done: set<string>, counted: set<string>, id: string)
    requires id !in done
    ensures |(done + {id}) * counted| == |done * counted| + (if id in counted then 1 else 0)
  {
    assert (done + {id}) * counted == done * counted + (if id in counted then {id} else {});
  }

  /** The pass so far, and its counters. */
  ghost predicate Tallied(q: Queue, ids: set<string>, now: int, after: Queue, requeued: int, deadLettered: int) {
    && PassedOver(q, ids, now, after)
    && deadLettered == |ids * ExhaustedIds(q, now)| && requeued == |ids| - deadLettered
  }

  lemma ReapTallies(q: Queue, ids: set<string>, now: int, mid: Queue, id: string, requeued: int, deadLettered: int)
    requires Tallied(q, ids, now, mid, requeued, deadLettered) && id in ExpiredIds(q, now) && id !in ids
    ensures var e := EntryFor(q, id);
            if e.attempts >= e.max then Tallied(q, ids + {id}, now, Reap(mid, e), requeued, deadLettered + 1)
            else Tallied(q, ids + {id}, now, Reap(mid, e), requeued + 1, deadLettered)
  {
    ReapPassesOne(q, ids, now, mid, id);
    OneMore(ids, ExhaustedIds(q, now), id);
  }

  function CountExhausted(entries: seq<Entry>): nat
    decreases |entries|
  {
    if entries == [] then 0
    else
      var e := entries[|entries| - 1];
      CountExhausted(entries[..|entries| - 1]) + if e.attempts >= e.max then 1 else 0
  }

  /** Reaping these rows one by one amounts to one pass over these tasks. */
  ghost predicate ReapedAs(q: Queue, ids: set<string>, now: int, entries: seq<Entry>) {
    var deadLettered := CountExhausted(entries);
    Tallied(q, ids, now, ReapAll(q, entries), |entries| - deadLettered, deadLettered)
  }

  lemma ReapedAsGrows(q: Queue, ids: set<string>, now: int, front: seq<Entry>, id: string)
    requires ReapedAs(q, ids, now, front) && id in ExpiredIds(q, now) && id !in ids
    ensures ReapedAs(q, ids + {id}, now, front + [EntryFor(q, id)])
  {
    var n := CountExhausted(front);
    ReapTallies(q, ids, now, ReapAll(q, front), id, |front| - n, n);
    ReapAllGrows(q, front, EntryFor(q, id));
  }

  /** The reaper's scan and then its rows one by one, in whichever order, amount to one pass over
      all the expired claims, when nothing else happens in between. */
  lemma ReapingIsOnePass(q: Queue, order: seq<string>, now: int)
    requires IsScan(q, order, now)
    ensures ReapedAs(q, ExpiredIds(q, now), now, Entries(q, order))
  {
    ReapingPrefix(q, order, now);
    assert Elements(order) == ExpiredIds(q, now);
  }

  lemma {:induction false} ReapingPrefix(q: Queue, order: seq<string>, now: int)
    requires forall i, j :: 0 <= i < j < |order| ==> order[i] != order[j]
    requires forall id :: id in order ==> id in q.tasks && IsExpired(q.tasks[id], now)
    ensures ReapedAs(q, Elements(order), now, Entries(q, order))
    decreases |order|
  {
    if order == [] {
      NothingReaped(q, now);
      assert Elements(order) == {} && Entries(q, order) == [];
    } else {
      var front, id := order[..|order| - 1], order[|order| - 1];
      EntriesGrow(q, order);
      ElementsExtend(front, id);
      assert order == front + [id];
      ReapingPrefix(q, front, now);
      ReapedAsGrows(q, Elements(front), now, Entries(q, front), id);
    }
  }

  lemma NothingReaped(q: Queue, now: int)
    ensures ReapedAs(q, {}, now, [])
  {
    assert {} * ExhaustedIds(q, now) == {};
  }

  lemma EntriesGrow(q: Queue, order: seq<string>)
    requires order != [] && forall id :: id in order ==> id in q.tasks
    ensures Entries(q, order) == Entries(q, order[..|order| - 1]) + [EntryFor(q, order[|order| - 1])]
  {
  }

  lemma ReapAllGrows(q: Queue, entries: seq<Entry>, e: Entry)
    ensures ReapAll(q, entries + [e]) == Reap(ReapAll(q, entries), e)
    ensures CountExhausted(entries + [e]) == CountExhausted(entries) + (if e.attempts >= e.max then 1 else 0)
  {
    assert (entries + [e])[..|entries|] == entries;
  }

  /** A worker's heartbeat postpones the expiry of the task it holds to a full timeout later, and
      changes nothing for a task it does not hold. */
  lemma HeartbeatPostponesExpiry(q: Queue, id: string, worker: string, now: int, later: int)
    requires id in q.tasks && !q.tasks[id].deadLettered
    ensures q.tasks[id].status.Claimed? && q.tasks[id].claimedBy == Some(worker) ==>
              (id in ExpiredIds(Heartbeat(q, id, worker, now), later) <==> now + q.tasks[id].timeoutSec <= later)
    ensures !(q.tasks[id].status.Claimed? && q.tasks[id].claimedBy == Some(worker)) ==> Heartbeat(q, id, worker, now) == q
  {
  }

  lemma NoLaterIsTotal(a: Task, b: Task, c: Task)
    ensures NoLater(a, b) || NoLater(b, a)
    ensures NoLater(a, b) && NoLater(b, c) ==> NoLater(a, c)
  {
  }

  lemma {:induction false} FirstExists(tasks: map<string, Task>, ids: set<string>)
    requires |ids| > 0 && ids <= tasks.Keys
    ensures exists id :: id in ids && forall o :: o in ids ==> NoLater(tasks[id], tasks[o])
    decreases |ids|
  {
    var x := SomeElement(ids);
    var rest := ids - {x};
    assert ids == rest + {x};
    if rest != {} {
      FirstExists(tasks, rest);
      var m :| m in rest && forall o :: o in rest ==> NoLater(tasks[m], tasks[o]);
      var first := if NoLater(tasks[x], tasks[m]) then x else m;
      forall o | o in ids ensures NoLater(tasks[first], tasks[o]) {
        NoLaterIsTotal(tasks[x], tasks[m], tasks[o]);
      }
    }
  }

  /** The task is failed, marked, and copied with its reason and count; nothing else changes. */
  ghost predicate MovedToDead(tasks: map<string, Task>, dead: map<string, DeadRow>, id: string, reason: string,
                              tasksAfter: map<string, Task>, deadAfter: map<string, DeadRow>)
    requires id in tasks
  {
    && tasksAfter == tasks[id := tasks[id].(status := Failed, failedReason := Some(reason), deadLettered := true)]
    && deadAfter == dead[id := DeadRow(reason, tasks[id].attemptCount, tasks[id].createdAt)]
  }

  /** A claim that no heartbeat followed expires one timeout after it was made. */
  lemma ClaimExpiresExactlyWhen(t: Task, later: int)
    requires t.status == Claimed && !t.deadLettered && t.lastHeartbeat == None && t.claimedAt.Some?
    ensures IsExpired(t, later) <==> t.claimedAt.value + t.timeoutSec <= later
  {
  }

  class TaskStore {
    var tasks: map<string, Task>
    var dead: map<string, DeadRow>

    function View(): Queue
      reads this
    {
      Queue(tasks, dead)
    }

    constructor ()
      ensures View() == Queue(map[], map[])
    {
      tasks, dead := map[], map[];
    }

    method EnqueueTask(id: string, r: Request, now: int) returns (ok: bool)
      modifies this
      ensures ok == (id !in old(tasks)) && View() == Enqueue(old(View()), id, r, now)
      ensures dead == old(dead) && (!ok ==> tasks == old(tasks))
      ensures ok ==> tasks == old(tasks)[id := Task(
                r.agent, Pending, r.priority, if r.lane == "" then "normal" else r.lane, r.timeoutSec,
                0, if r.maxAttempts == 0 then 3 else r.maxAttempts, false, None, None, None, None, now)]
    {
      if id in tasks {
        return false;
      }
      var lane := r.lane;
      if lane == "" {
        lane := "normal";
      }
      var max := r.maxAttempts;
      if max == 0 {
        max := 3;
      }
      tasks := tasks[id := Task(r.agent, Pending, r.priority, lane, r.timeoutSec, 0, max, false, None, None, None, None, now)];
      return true;
    }

    /** Hands out a next task, if any is eligible for the agent. */
    method ClaimNextTask(agent: string, now: int) returns (claimed: Option<string>)
      modifies this
      ensures claimed.None? <==> Eligible(old(View()), agent) == {}
      ensures claimed.None? ==> View() == old(View())
      ensures claimed.Some? ==> IsNext(old(View()), agent, claimed.value)
                                && View() == Claim(old(View()), claimed.value, agent, now)
      ensures claimed.Some? <==> exists id :: id in old(tasks) && Waits(old(tasks)[id], agent)
      ensures claimed.Some? ==>
                var id := claimed.value;
                && id in old(tasks) && Waits(old(tasks)[id], agent)
                && (forall o :: o in old(tasks) && Waits(old(tasks)[o], agent) ==> AtLeastAsUrgent(old(tasks)[id], old(tasks)[o]))
                && dead == old(dead)
                && tasks == old(tasks)[id := old(tasks)[id].(
                     status := Claimed, claimedBy := Some(agent), claimedAt := Some(now), lastHeartbeat := Some(now),
                     attemptCount := old(tasks)[id].attemptCount + 1)]
    {
      var candidates := set id | id in tasks && IsEligible(tasks[id], agent);
      assert candidates == Eligible(View(), agent);
      assert forall id :: id in tasks && Waits(tasks[id], agent) ==> id in candidates;
      if candidates == {} {
        return None;
      }
      FirstExists(tasks, candidates);
      var id :| id in candidates && forall o :: o in candidates ==> NoLater(tasks[id], tasks[o]);
      assert Waits(tasks[id], agent);
      forall o | o in tasks && Waits(tasks[o], agent) ensures AtLeastAsUrgent(tasks[id], tasks[o]) {
        UrgencyDecides(tasks[id], tasks[o]);
      }
      if tasks[id].status.Pending? && !tasks[id].deadLettered {
        tasks := tasks[id := tasks[id].(status := Claimed, claimedBy := Some(agent), claimedAt := Some(now),
                                        lastHeartbeat := Some(now), attemptCount := tasks[id].attemptCount + 1)];
        return Some(id);
      }
      return None;
    }

    method HeartbeatTask(id: string, worker: string, now: int)
      modifies this
      ensures View() == Heartbeat(old(View()), id, worker, now) && dead == old(dead)
      ensures tasks == old(tasks)
              || (id in old(tasks) && old(tasks)[id].status == Claimed && old(tasks)[id].claimedBy == Some(worker)
                  && tasks == old(tasks)[id := old(tasks)[id].(lastHeartbeat := Some(now))])
    {
      if id in tasks && tasks[id].status.Claimed? && tasks[id].claimedBy == Some(worker) {
        tasks := tasks[id := tasks[id].(lastHeartbeat := Some(now))];
      }
    }

    method CompleteTask(id: string)
      modifies this
      ensures View() == Complete(old(View()), id) && dead == old(dead)
      ensures tasks == if id in old(tasks) then old(tasks)[id := old(tasks)[id].(status := Completed)] else old(tasks)
    {
      if id in tasks {
        tasks := tasks[id := tasks[id].(status := Completed)];
      }
    }

    method FailTask(id: string, reason: string) returns (ok: bool)
      modifies this
      ensures var (attempts, max) := ReadAttempts(old(View()), id);
              (View(), ok) == Fail(old(View()), id, reason, attempts, max)
      ensures id !in old(tasks) ==> !ok && tasks == old(tasks) && dead == old(dead)
      ensures id in old(tasks) && old(tasks)[id].attemptCount < old(tasks)[id].maxAttempts ==>
                ok && dead == old(dead) && tasks == old(tasks)[id := old(tasks)[id].(status := Failed, failedReason := Some(reason))]
      ensures id in old(tasks) && old(tasks)[id].attemptCount >= old(tasks)[id].maxAttempts ==>
                (ok <==> id !in old(dead)) && (ok ==> MovedToDead(old(tasks), old(dead), id, reason, tasks, dead))
                && (!ok ==> tasks == old(tasks) && dead == old(dead))
    {
      var attempts, max := 0, 0;
      if id in tasks {
        attempts, max := tasks[id].attemptCount, tasks[id].maxAttempts;
      }
      if attempts >= max {
        ok := DeadLetterTask(id, reason);
      } else {
        if id in tasks {
          tasks := tasks[id := tasks[id].(status := Failed, failedReason := Some(reason))];
        }
        ok := true;
      }
    }

    method DeadLetterTask(id: string, reason: string) returns (ok: bool)
      modifies this
      ensures (View(), ok) == DeadLetter(old(View()), id, reason)
      ensures (ok <==> id in old(tasks) && id !in old(dead)) && (!ok ==> tasks == old(tasks) && dead == old(dead))
      ensures ok ==> MovedToDead(old(tasks), old(dead), id, reason, tasks, dead)
    {
      if id !in tasks {
        return false;
      }
      var t := tasks[id];
      if id in dead {
        return false;
      }
      dead := dead[id := DeadRow(reason, t.attemptCount, t.createdAt)];
      tasks := tasks[id := t.(status := Failed, failedReason := Some(reason), deadLettered := true)];
      return true;
    }

    /** The reaper's work on one row of its scan. */
    method ReapTask(e: Entry) returns (exhausted: bool)
      modifies this
      ensures View() == Reap(old(View()), e) && exhausted == (e.attempts >= e.max)
      ensures exhausted && e.id in old(tasks) && e.id !in old(dead) ==>
                dead == old(dead)[e.id := DeadRow("max_attempts_exceeded", e.attempts, e.createdAt)]
                && tasks == old(tasks)[e.id := old(tasks)[e.id].(
                     status := Failed, deadLettered := true, failedReason := Some("max_attempts_exceeded"))]
      ensures !exhausted ==>
                dead == old(dead)
                && tasks == if e.id in old(tasks) && old(tasks)[e.id].status == Claimed
                            then old(tasks)[e.id := old(tasks)[e.id].(status := Pending, claimedBy := None, claimedAt := None, lastHeartbeat := None)]
                            else old(tasks)
    {
      exhausted := e.attempts >= e.max;
      if exhausted {
        if e.id !in dead {
          dead := dead[e.id := DeadRow(EXHAUSTED, e.attempts, e.createdAt)];
        }
        if e.id in tasks {
          tasks := tasks[e.id := tasks[e.id].(status := Failed, deadLettered := true, failedReason := Some(EXHAUSTED))];
        }
      } else if e.id in tasks && tasks[e.id].status.Claimed? {
        tasks := tasks[e.id := tasks[e.id].(status := Pending, claimedBy := None, claimedAt := None, lastHeartbeat := None)];
      }
    }

    /** The reaper's scan: a row for each expired claim. */
    method ScanExpired(now: int) returns (rows: seq<Entry>)
      ensures IsScan(View(), RowIds(rows), now) && rows == Entries(View(), RowIds(rows))
    {
      var left := set id | id in tasks && IsExpired(tasks[id], now);
      rows := [];
      ghost var order: seq<string> := [];
      while left != {}
        invariant left <= ExpiredIds(View(), now)
        invariant forall id :: id in order <==> id in ExpiredIds(View(), now) && id !in left
        invariant forall i, j :: 0 <= i < j < |order| ==> order[i] != order[j]
        invariant rows == Entries(View(), order) && RowIds(rows) == order
        decreases left
      {
        var id :| id in left;
        rows := rows + [Entry(id, tasks[id].attemptCount, tasks[id].maxAttempts, tasks[id].createdAt)];
        order := order + [id];
        left := left - {id};
      }
    }

    /** One undisturbed pass of the reaper: scan the expired claims, then requeue or dead-letter
        each of them. */
    method RequeueExpiredTasksWithDeadLetter(now: int) returns (requeued: nat, deadLettered: nat)
      modifies this
      ensures Tallied(old(View()), ExpiredIds(old(View()), now), now, View(), requeued, deadLettered)
    {
      ghost var before := View();
      var expired := ScanExpired(now);
      requeued, deadLettered := 0, 0;
      for i := 0 to |expired|
        invariant View() == ReapAll(before, expired[..i])
        invariant deadLettered == CountExhausted(expired[..i]) && requeued == i - deadLettered
      {
        var t := expired[i];
        assert expired[..i + 1][..i] == expired[..i];
        var exhausted := ReapTask(t);
        if exhausted {
          deadLettered := deadLettered + 1;
        } else {
          requeued := requeued + 1;
        }
      }
      assert expired[..|expired|] == expired;
      ReapingIsOnePass(before, RowIds(expired), now);
    }
  }

  /** A fresh task can be claimed by its agent exactly when its attempt limit is not negative. */
  lemma FreshTaskIsClaimableExactlyWhen(r: Request, now: int)
    ensures IsEligible(NewTask(r, now), r.agent) <==> r.maxAttempts >= 0
  {
  }

  // ---------- Draining the queue ----------

  datatype Claiming = Claiming(id: string, at: int)

  /** One agent claiming again and again, with no other steps in between. */
  function ClaimAll(q: Queue, agent: string, claims: seq<Claiming>): Queue
    decreases |claims|
  {
    if claims == [] then q
    else
      var before, c := ClaimAll(q, agent, claims[..|claims| - 1]), claims[|claims| - 1];
      if c.id in before.tasks then Claim(before, c.id, agent, c.at) else before
  }

  /** Each claim returned a next task of the queue as it then was. */
  ghost predicate Served(q: Queue, agent: string, claims: seq<Claiming>)
    decreases |claims|
  {
    claims != [] ==>
      Served(q, agent, claims[..|claims| - 1]) && IsNext(ClaimAll(q, agent, claims[..|claims| - 1]), agent, claims[|claims| - 1].id)
  }

  function IdsOf(claims: seq<Claiming>): set<string> {
    set c | c in claims :: c.id
  }

  predicate ComesBefore(q: Queue, a: string, b: string) {
    a in q.tasks && b in q.tasks && NoLater(q.tasks[a], q.tasks[b])
  }

  /** The claims so far: distinct, in order, taken from the eligible tasks, the others untouched. */
  ghost predicate Drained(q: Queue, agent: string, claims: seq<Claiming>, after: Queue) {
    && Eligible(after, agent) == Eligible(q, agent) - IdsOf(claims)
    && IdsOf(claims) <= Eligible(q, agent)
    && after.tasks.Keys == q.tasks.Keys
    && (forall id :: id in q.tasks && id !in IdsOf(claims) ==> after.tasks[id] == q.tasks[id])
    && InOrder(q, claims, Eligible(after, agent))
  }

  /** The claims are distinct and in order, and come before all that is left. */
  ghost predicate InOrder(q: Queue, claims: seq<Claiming>, left: set<string>) {
    && (forall i, j :: 0 <= i < j < |claims| ==> claims[i].id != claims[j].id && ComesBefore(q, claims[i].id, claims[j].id))
    && (forall i, o :: 0 <= i < |claims| && o in left ==> claims[i].id != o && ComesBefore(q, claims[i].id, o))
  }

  lemma InOrderGrows(q: Queue, front: seq<Claiming>, c: Claiming, left: set<string>)
    requires InOrder(q, front, left) && c.id in left
    requires forall o :: o in left ==> ComesBefore(q, c.id, o)
    ensures InOrder(q, front + [c], left - {c.id})
  {
  }

  lemma ClaimDrainsOne(q: Queue, agent: string, front: seq<Claiming>, c: Claiming, before: Queue)
    requires Drained(q, agent, front, before) && IsNext(before, agent, c.id)
    ensures Drained(q, agent, front + [c], Claim(before, c.id, agent, c.at))
  {
    var after := Claim(before, c.id, agent, c.at);
    IdsGrow(front, c);
    assert Eligible(after, agent) == Eligible(before, agent) - {c.id};
    forall o | o in Eligible(before, agent) ensures ComesBefore(q, c.id, o) {
      assert o in Eligible(q, agent) && o !in IdsOf(front) && before.tasks[o] == q.tasks[o];
    }
    InOrderGrows(q, front, c, Eligible(before, agent));
  }

  lemma IdsGrow(front: seq<Claiming>, c: Claiming)
    ensures IdsOf(front + [c]) == IdsOf(front) + {c.id}
  {
    assert forall x :: x in front + [c] <==> x in front || x == c;
    assert c in front + [c];
  }

  lemma ServedLast(q: Queue, agent: string, front: seq<Claiming>, c: Claiming)
    requires Served(q, agent, front + [c])
    ensures Served(q, agent, front) && IsNext(ClaimAll(q, agent, front), agent, c.id)
    ensures ClaimAll(q, agent, front + [c]) == Claim(ClaimAll(q, agent, front), c.id, agent, c.at)
  {
    assert (front + [c])[..|front|] == front;
  }

  lemma NothingDrained(q: Queue, agent: string)
    ensures Drained(q, agent, [], q)
  {
    assert IdsOf([]) == {};
  }

  lemma {:induction false} ServedDrains(q: Queue, agent: string, claims: seq<Claiming>)
    requires Served(q, agent, claims)
    ensures Drained(q, agent, claims, ClaimAll(q, agent, claims))
    decreases |claims|
  {
    if claims != [] {
      var front, c := claims[..|claims| - 1], claims[|claims| - 1];
      assert claims == front + [c];
      ServedLast(q, agent, front, c);
      ServedDrains(q, agent, front);
      ClaimDrainsOne(q, agent, front, c, ClaimAll(q, agent, front));
    } else {
      NothingDrained(q, agent);
    }
  }

  /** Claiming repeatedly, with no other steps, one agent gets its eligible tasks, each once, in
      order of lane, priority and age; and is told there is nothing left exactly when it has had
      all of them. */
  lemma RepeatedClaimsDrainInOrder(q: Queue, agent: string, claims: seq<Claiming>)
    requires Served(q, agent, claims)
    ensures IdsOf(claims) <= Eligible(q, agent)
    ensures forall i, j :: 0 <= i < j < |claims| ==>
              claims[i].id != claims[j].id && ComesBefore(q, claims[i].id, claims[j].id)
    ensures forall i, j :: 0 <= i < j < |claims| ==>
              claims[i].id in q.tasks && claims[j].id in q.tasks && AtLeastAsUrgent(q.tasks[claims[i].id], q.tasks[claims[j].id])
    ensures Eligible(ClaimAll(q, agent, claims), agent) == {} <==> IdsOf(claims) == Eligible(q, agent)
  {
    ServedDrains(q, agent, claims);
    forall i, j | 0 <= i < j < |claims|
      ensures claims[i].id in q.tasks && claims[j].id in q.tasks && AtLeastAsUrgent(q.tasks[claims[i].id], q.tasks[claims[j].id])
    {
      assert ComesBefore(q, claims[i].id, claims[j].id);
      UrgencyDecides(q.tasks[claims[i].id], q.tasks[claims[j].id]);
    }
    var all, had := Eligible(q, agent), IdsOf(claims);
    assert all == had + (all - had);
  }
}
