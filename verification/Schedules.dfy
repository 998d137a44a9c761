/** Completing the nodes of a dependency graph one by one, each after all its predecessors. */
module Schedules {
  import opened Lists

  /** `(y, x) in edges` says that y blocks x. */
  datatype Net<T> = Net(pending: set<T>, done: set<T>, edges: set<(T, T)>)

  /** A pending node, all of whose blockers are done. */
  predicate CanComplete<T>(net: Net<T>, x: T) {
    x in net.pending && forall e :: e in net.edges && e.1 == x ==> e.0 in net.done
  }

  function Complete<T>(net: Net<T>, x: T): Net<T> {
    Net(net.pending - {x}, net.done + {x}, net.edges)
  }

  function Run<T>(net: Net<T>, ids: seq<T>): Net<T>
    decreases |ids|
  {
    if ids == [] then net else Complete(Run(net, ids[..|ids| - 1]), ids[|ids| - 1])
  }

  /** Each node can be completed when its turn comes. */
  ghost predicate Legal<T>(net: Net<T>, ids: seq<T>)
    decreases |ids|
  {
    ids != [] ==> Legal(net, ids[..|ids| - 1]) && CanComplete(Run(net, ids[..|ids| - 1]), ids[|ids| - 1])
  }

  lemma {:induction false} LegalPrefix<T>(net: Net<T>, ids: seq<T>, m: nat)
    requires Legal(net, ids) && m <= |ids|
    ensures Legal(net, ids[..m])
    decreases |ids|
  {
    if m == |ids| {
      assert ids[..m] == ids;
    } else {
      LegalPrefix(net, ids[..|ids| - 1], m);
      assert ids[..|ids| - 1][..m] == ids[..m];
    }
  }

  lemma LegalExtends<T>(net: Net<T>, front: seq<T>, x: T)
    requires Legal(net, front) && CanComplete(Run(net, front), x)
    ensures Legal(net, front + [x]) && Run(net, front + [x]) == Complete(Run(net, front), x)
  {
    assert (front + [x])[..|front|] == front;
  }

  /** After a run the listed nodes, and no others, have moved from pending to done. */
  ghost predicate Moved<T>(net: Net<T>, ids: seq<T>, after: Net<T>) {
    && after == Net(net.pending - Elements(ids), net.done + Elements(ids), net.edges)
    && Elements(ids) <= net.pending && |Elements(ids)| == |ids|
  }

  lemma MovedExtends<T>(net: Net<T>, front: seq<T>, x: T, after: Net<T>)
    requires Moved(net, front, after) && x in after.pending
    ensures Moved(net, front + [x], Complete(after, x))
  {
    ElementsExtend(front, x);
    assert x !in Elements(front);
  }

  lemma {:induction false} RunEffect<T>(net: Net<T>, ids: seq<T>)
    requires Legal(net, ids)
    ensures Moved(net, ids, Run(net, ids))
    decreases |ids|
  {
    if ids != [] {
      var front, x := ids[..|ids| - 1], ids[|ids| - 1];
      RunEffect(net, front);
      MovedExtends(net, front, x, Run(net, front));
      assert ids == front + [x];
    }
  }

  lemma SubsetSize<T>(a: set<T>, b: set<T>)
    requires a <= b
    ensures |a| <= |b|
  {
    assert b == a + (b - a);
  }

  /** Each step completes another pending node, so no run outlasts the pending nodes it starts with. */
  lemma RunsTerminate<T>(net: Net<T>, ids: seq<T>)
    requires Legal(net, ids)
    ensures |ids| <= |net.pending| && |Run(net, ids).pending| == |net.pending| - |ids|
  {
    RunEffect(net, ids);
    SubsetSize(Elements(ids), net.pending);
  }

  /** Each predecessor of a completed node was done from the start or was completed earlier. */
  lemma PredecessorsComeFirst<T>(net: Net<T>, ids: seq<T>, i: nat, y: T)
    requires Legal(net, ids) && i < |ids| && (y, ids[i]) in net.edges
    ensures y in net.done || y in ids[..i]
  {
    LegalPrefix(net, ids, i + 1);
    assert ids[..i + 1][..i] == ids[..i];
    RunEffect(net, ids[..i]);
    assert (y, ids[i]).0 in Run(net, ids[..i]).done;
  }

  /** Every blocker of a pending node exists, and is pending or done. */
  ghost predicate Supported<T>(net: Net<T>) {
    forall e :: e in net.edges && e.1 in net.pending ==> e.0 in net.pending || e.0 in net.done
  }

  ghost predicate IsWalk<T>(net: Net<T>, walk: seq<T>) {
    && walk != []
    && (forall i :: 0 <= i < |walk| ==> walk[i] in net.pending)
    && (forall i :: 0 <= i < |walk| - 1 ==> (walk[i], walk[i + 1]) in net.edges)
  }

  /** A closed walk through pending nodes. */
  ghost predicate IsCycle<T>(net: Net<T>, walk: seq<T>) {
    IsWalk(net, walk) && |walk| >= 2 && walk[0] == walk[|walk| - 1]
  }

  ghost predicate Acyclic<T(!new)>(net: Net<T>) {
    forall walk :: !IsCycle(net, walk)
  }

  ghost predicate HasPredecessorIn<T>(net: Net<T>, x: T, s: set<T>) {
    exists y :: y in s && (y, x) in net.edges
  }

  /** When every node of a set has a predecessor in the set, one can walk back as long as one likes. */
  lemma {:induction false} WalkBack<T>(net: Net<T>, stuck: set<T>, n: nat) returns (walk: seq<T>)
    requires stuck != {} && stuck <= net.pending
    requires forall x :: x in stuck ==> HasPredecessorIn(net, x, stuck)
    ensures IsWalk(net, walk) && |walk| == n + 1 && forall i :: 0 <= i < |walk| ==> walk[i] in stuck
  {
    if n == 0 {
      var x :| x in stuck;
      walk := [x];
    } else {
      var rest := WalkBack(net, stuck, n - 1);
      assert HasPredecessorIn(net, rest[0], stuck);
      var y :| y in stuck && (y, rest[0]) in net.edges;
      walk := [y] + rest;
    }
  }

  lemma StuckMeansCycle<T(!new)>(net: Net<T>, stuck: set<T>)
    requires stuck != {} && stuck <= net.pending
    requires forall x :: x in stuck ==> HasPredecessorIn(net, x, stuck)
    ensures !Acyclic(net)
  {
    var walk := WalkBack(net, stuck, |stuck|);
    Pigeonhole(walk, stuck);
    var i, j :| 0 <= i < j < |walk| && walk[i] == walk[j];
    assert IsCycle(net, walk[i..j + 1]);
  }

  lemma {:induction false} FirstOccurrence<T>(xs: seq<T>, x: T) returns (f: nat)
    requires x in xs
    ensures f < |xs| && xs[f] == x && x !in xs[..f]
  {
    var front := xs[..|xs| - 1];
    if x in front {
      f := FirstOccurrence(front, x);
      assert front[..f] == xs[..f];
    } else {
      f := |xs| - 1;
    }
  }

  /** A walk that ends at a completed node starts at one completed before it. */
  lemma {:induction false} WalkFollowsRun<T>(net: Net<T>, ids: seq<T>, walk: seq<T>, j: nat)
    requires Legal(net, ids) && net.pending !! net.done
    requires IsWalk(net, walk) && |walk| >= 2 && j < |ids| && walk[|walk| - 1] == ids[j]
    ensures walk[0] in ids[..j]
    decreases |walk|
  {
    var m := |walk| - 2;
    PredecessorsComeFirst(net, ids, j, walk[m]);
    if m > 0 {
      var k :| 0 <= k < j && ids[k] == walk[m];
      WalkFollowsRun(net, ids, walk[..m + 1], k);
      assert ids[..k] <= ids[..j];
    }
  }

  lemma AllCompleteMeansAcyclic<T(!new)>(net: Net<T>, ids: seq<T>)
    requires Legal(net, ids) && net.pending !! net.done && Run(net, ids).pending == {}
    ensures Acyclic(net)
  {
    RunEffect(net, ids);
    forall walk | IsWalk(net, walk) && |walk| >= 2 ensures walk[0] != walk[|walk| - 1] {
      var last := walk[|walk| - 1];
      assert last in Elements(ids);
      var f := FirstOccurrence(ids, last);
      WalkFollowsRun(net, ids, walk, f);
    }
  }

  /** A run with nothing left to complete has completed every pending node exactly when every
      blocker of a pending node is pending or done and the pending part has no cycle. */
  lemma FinishedRunCompletesExactlyWhen<T(!new)>(net: Net<T>, ids: seq<T>)
    requires Legal(net, ids) && net.pending !! net.done
    requires forall x :: !CanComplete(Run(net, ids), x)
    ensures Run(net, ids).pending == {} <==> Supported(net) && Acyclic(net)
  {
    RunEffect(net, ids);
    var h := Run(net, ids);
    if h.pending == {} {
      forall e | e in net.edges && e.1 in net.pending ensures e.0 in net.pending || e.0 in net.done {
        assert e.1 in Elements(ids);
        var i :| 0 <= i < |ids| && ids[i] == e.1;
        assert (e.0, ids[i]) == e;
        PredecessorsComeFirst(net, ids, i, e.0);
        assert forall x :: x in ids[..i] ==> x in Elements(ids);
      }
      AllCompleteMeansAcyclic(net, ids);
    } else if Supported(net) {
      forall x | x in h.pending ensures HasPredecessorIn(net, x, h.pending) {
        assert !CanComplete(h, x);
        var e :| e in h.edges && e.1 == x && e.0 !in h.done;
        assert (e.0, x) == e;
      }
      StuckMeansCycle(net, h.pending);
    }
  }
}
