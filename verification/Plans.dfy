/** Plan graphs: which nodes are ready, in the two implementations (src/acp/plan.fard and
    acpd/internal/store/plan.go), and where repeatedly completing ready nodes leads. */
module Plans {
  import opened Schedules

  datatype Node = Node(id: string, title: string, agent: string, status: string, risk: string, outputSchema: string)

  datatype Edge = Edge(from: string, to: string, reason: string)

  datatype Graph = Graph(nodes: seq<Node>, edges: seq<Edge>)

  function Filter<T>(xs: seq<T>, p: T -> bool): seq<T> {
    if xs == [] then [] else (if p(xs[0]) then [xs[0]] else []) + Filter(xs[1..], p)
  }

  function Find(nodes: seq<Node>, id: string): seq<Node> {
    if nodes == [] then [] else if nodes[0].id == id then [nodes[0]] else Find(nodes[1..], id)
  }

  /** The first node with the blocker's id exists and is done. */
  predicate FirstIsDone(g: Graph, id: string) {
    var found := Find(g.nodes, id);
    found != [] && found[0].status == "done"
  }

  predicate IsReady(g: Graph, n: Node) {
    n.status == "pending" && forall e :: e in g.edges && e.to == n.id ==> FirstIsDone(g, e.from)
  }

  function ReadyNodes(g: Graph): seq<Node> {
    Filter(g.nodes, n => IsReady(g, n))
  }

  function MarkNode(g: Graph, id: string, status: string): (r: Graph)
    ensures |r.nodes| == |g.nodes|
  {
    g.(nodes := seq(|g.nodes|, i requires 0 <= i < |g.nodes| =>
      if g.nodes[i].id == id then g.nodes[i].(status := status) else g.nodes[i]))
  }

  /** Marking sets the status of the nodes with this id, and leaves all else as it is. */
  lemma MarkingSetsStatus(g: Graph, id: string, status: string, i: nat)
    requires i < |g.nodes|
    ensures var h := MarkNode(g, id, status);
            && h.edges == g.edges && |h.nodes| == |g.nodes|
            && h.nodes[i] == g.nodes[i].(status := h.nodes[i].status)
            && h.nodes[i].status == if g.nodes[i].id == id then status else g.nodes[i].status
  {
  }

  ghost predicate UniqueIds(g: Graph) {
    forall i, j :: 0 <= i < j < |g.nodes| ==> g.nodes[i].id != g.nodes[j].id
  }

  // ---------- The store's ready set ----------

  /** Some node with this id is done. */
  predicate AnyIsDone(nodes: seq<Node>, id: string) {
    exists n :: n in nodes && n.id == id && n.status == "done"
  }

  predicate StoreReady(g: Graph, n: Node) {
    n.status == "pending" && forall e :: e in g.edges && e.to == n.id ==> AnyIsDone(g.nodes, e.from)
  }

  function Readiness(g: Graph): Node -> bool {
    (n: Node) => StoreReady(g, n)
  }

  function FromsTo(edges: seq<Edge>, id: string): seq<string> {
    if edges == [] then []
    else
      var last := edges[|edges| - 1];
      FromsTo(edges[..|edges| - 1], id) + (if last.to == id then [last.from] else [])
  }

  lemma {:induction false} FromsToHasSources(edges: seq<Edge>, id: string, source: string)
    ensures source in FromsTo(edges, id) <==> exists e :: e in edges && e.to == id && e.from == source
    decreases |edges|
  {
    if edges != [] {
      var front, last := edges[..|edges| - 1], edges[|edges| - 1];
      FromsToHasSources(front, id, source);
      assert edges == front + [last];
      assert forall e :: e in edges <==> e in front || e == last;
    }
  }

  lemma {:induction false} FilterAppends<T>(a: seq<T>, b: seq<T>, p: T -> bool)
    ensures Filter(a + b, p) == Filter(a, p) + Filter(b, p)
  {
    if a == [] {
      assert a + b == b;
    } else {
      var c := a + b;
      assert c[0] == a[0] && c[1..] == a[1..] + b;
      FilterAppends(a[1..], b, p);
      var head := if p(a[0]) then [a[0]] else [];
      assert Filter(c, p) == head + (Filter(a[1..], p) + Filter(b, p));
    }
  }

  function Lookup(blockers: map<string, seq<string>>, id: string): seq<string> {
    if id in blockers then blockers[id] else []
  }

  /** The done set of a plan. */
  method DoneSet(nodes: seq<Node>) returns (done: map<string, bool>)
    ensures forall id :: id in done <==> AnyIsDone(nodes, id)
  {
    done := map[];
    for i := 0 to |nodes|
      invariant forall id :: id in done <==> AnyIsDone(nodes[..i], id)
    {
      var n := nodes[i];
      assert nodes[..i + 1] == nodes[..i] + [n];
      if n.status == "done" {
        assert n in nodes[..i + 1];
        done := done[n.id := true];
      }
    }
    assert nodes[..|nodes|] == nodes;
  }

  /** For each node id, the sources of the edges into it. */
  method BlockerMap(edges: seq<Edge>) returns (blockers: map<string, seq<string>>)
    ensures forall id :: Lookup(blockers, id) == FromsTo(edges, id)
  {
    blockers := map[];
    for i := 0 to |edges|
      invariant forall id :: Lookup(blockers, id) == FromsTo(edges[..i], id)
    {
      var e := edges[i];
      assert edges[..i + 1][..i] == edges[..i];
      blockers := blockers[e.to := Lookup(blockers, e.to) + [e.from]];
    }
    assert edges[..|edges|] == edges;
  }

  lemma BlockersDecideReadiness(g: Graph, n: Node, done: map<string, bool>, froms: seq<string>)
    requires forall id :: id in done <==> AnyIsDone(g.nodes, id)
    requires froms == FromsTo(g.edges, n.id) && n.status == "pending"
    ensures StoreReady(g, n) <==> forall source :: source in froms ==> source in done
  {
    forall source ensures source in froms <==> exists e :: e in g.edges && e.to == n.id && e.from == source {
      FromsToHasSources(g.edges, n.id, source);
    }
  }

  method AllDone(froms: seq<string>, done: map<string, bool>) returns (all: bool)
    ensures all <==> forall source :: source in froms ==> source in done
  {
    for j := 0 to |froms|
      invariant forall source :: source in froms[..j] ==> source in done
    {
      if froms[j] !in done {
        return false;
      }
      assert froms[..j + 1] == froms[..j] + [froms[j]];
    }
    assert froms[..|froms|] == froms;
    return true;
  }

  /** The store's implementation: a done set, a blocker map, then one pass over the nodes. */
  method StoreReadyNodes(p: Graph) returns (ready: seq<Node>)
    ensures ready == Filter(p.nodes, Readiness(p))
  {
    var done := DoneSet(p.nodes);
    var blockers := BlockerMap(p.edges);
    ready := [];
    for i := 0 to |p.nodes|
      invariant ready == Filter(p.nodes[..i], Readiness(p))
    {
      var n := p.nodes[i];
      assert p.nodes[..i + 1] == p.nodes[..i] + [n];
      FilterAppends(p.nodes[..i], [n], Readiness(p));
      if n.status == "pending" {
        var allDone := AllDone(Lookup(blockers, n.id), done);
        BlockersDecideReadiness(p, n, done, Lookup(blockers, n.id));
        if allDone {
          ready := ready + [n];
        }
      }
    }
    assert p.nodes[..|p.nodes|] == p.nodes;
  }

  lemma {:induction false} FindIsFirst(nodes: seq<Node>, id: string)
    ensures Find(nodes, id) != [] ==> Find(nodes, id)[0] in nodes && Find(nodes, id)[0].id == id
    ensures Find(nodes, id) == [] ==> forall n :: n in nodes ==> n.id != id
  {
    if nodes != [] && nodes[0].id != id {
      FindIsFirst(nodes[1..], id);
    }
  }

  lemma FirstDoneIsAnyDone(g: Graph, id: string)
    ensures FirstIsDone(g, id) ==> AnyIsDone(g.nodes, id)
    ensures UniqueIds(g) && AnyIsDone(g.nodes, id) ==> FirstIsDone(g, id)
  {
    FindIsFirst(g.nodes, id);
  }

  lemma {:induction false} FilterAgrees<T>(xs: seq<T>, p: T -> bool, q: T -> bool)
    requires forall x :: x in xs ==> p(x) == q(x)
    ensures Filter(xs, p) == Filter(xs, q)
  {
    if xs != [] {
      FilterAgrees(xs[1..], p, q);
    }
  }

  /** With unique ids the two implementations return the same list; and on any graph whatever the
      first calls ready, the second does. */
  lemma ReadySetsAgree(g: Graph)
    ensures forall n :: n in g.nodes && IsReady(g, n) ==> StoreReady(g, n)
    ensures UniqueIds(g) ==> ReadyNodes(g) == Filter(g.nodes, Readiness(g))
  {
    forall id: string
      ensures FirstIsDone(g, id) ==> AnyIsDone(g.nodes, id)
      ensures UniqueIds(g) && AnyIsDone(g.nodes, id) ==> FirstIsDone(g, id)
    {
      FirstDoneIsAnyDone(g, id);
    }
    if UniqueIds(g) {
      FilterAgrees(g.nodes, n => IsReady(g, n), Readiness(g));
    }
  }

  // ---------- Completing ready nodes ----------

  function WithStatus(g: Graph, status: string): set<string> {
    set n | n in g.nodes && n.status == status :: n.id
  }

  function Pending(g: Graph): set<string> {
    WithStatus(g, "pending")
  }

  function Done(g: Graph): set<string> {
    WithStatus(g, "done")
  }

  function Dependencies(g: Graph): set<(string, string)> {
    set e | e in g.edges :: (e.from, e.to)
  }

  /** The plan as a dependency graph. */
  function NetOf(g: Graph): Net<string> {
    Net(Pending(g), Done(g), Dependencies(g))
  }

  lemma {:induction false} FilterMembers<T>(xs: seq<T>, p: T -> bool, x: T)
    ensures x in Filter(xs, p) <==> x in xs && p(x)
  {
    if xs != [] {
      FilterMembers(xs[1..], p, x);
    }
  }

  /** Some ready node bears this id. */
  ghost predicate ReadyId(g: Graph, id: string) {
    exists n :: n in ReadyNodes(g) && n.id == id
  }

  lemma DependenciesHas(g: Graph, id: string)
    ensures (forall e :: e in g.edges && e.to == id ==> e.from in Done(g))
       <==> (forall d :: d in Dependencies(g) && d.1 == id ==> d.0 in Done(g))
  {
    if forall d :: d in Dependencies(g) && d.1 == id ==> d.0 in Done(g) {
      forall e | e in g.edges && e.to == id ensures e.from in Done(g) {
        assert (e.from, e.to) in Dependencies(g);
        assert (e.from, e.to).0 in Done(g);
      }
    }
  }

  lemma ReadyMeansCanComplete(g: Graph, id: string)
    requires UniqueIds(g)
    ensures CanComplete(NetOf(g), id) <==> ReadyId(g, id)
  {
    forall source: string ensures FirstIsDone(g, source) <==> source in Done(g) {
      FirstDoneIsAnyDone(g, source);
      assert AnyIsDone(g.nodes, source) <==> source in Done(g);
    }
    forall n ensures n in ReadyNodes(g) <==> n in g.nodes && IsReady(g, n) {
      FilterMembers(g.nodes, n => IsReady(g, n), n);
    }
    DependenciesHas(g, id);
    if CanComplete(NetOf(g), id) {
      var n :| n in g.nodes && n.status == "pending" && n.id == id;
      assert IsReady(g, n);
    }
  }

  lemma MarkKeepsOthers(g: Graph, id: string, status: string, x: string)
    requires UniqueIds(g) && id in Pending(g) && (status == "pending" || status == "done")
    ensures x in WithStatus(MarkNode(g, id, "done"), status)
       <==> if x == id then status == "done" else x in WithStatus(g, status)
  {
    var h := MarkNode(g, id, "done");
    var p :| p in g.nodes && p.id == id;
    var k :| 0 <= k < |g.nodes| && g.nodes[k] == p;
    assert h.nodes[k] in h.nodes && h.nodes[k].status == "done";
    if x in WithStatus(h, status) {
      var i :| 0 <= i < |h.nodes| && h.nodes[i].status == status && h.nodes[i].id == x;
      assert g.nodes[i] in g.nodes;
    }
    if x in WithStatus(g, status) && x != id {
      var i :| 0 <= i < |g.nodes| && g.nodes[i].status == status && g.nodes[i].id == x;
      assert h.nodes[i] in h.nodes;
    }
  }

  /** Marking a pending node done completes it, and it alone, in the dependency graph. */
  lemma MarkCompletes(g: Graph, id: string)
    requires UniqueIds(g) && id in Pending(g)
    ensures UniqueIds(MarkNode(g, id, "done"))
    ensures NetOf(MarkNode(g, id, "done")) == Complete(NetOf(g), id)
  {
    var h := MarkNode(g, id, "done");
    forall x ensures x in Pending(h) <==> x in Pending(g) - {id} {
      MarkKeepsOthers(g, id, "pending", x);
    }
    forall x ensures x in Done(h) <==> x in Done(g) + {id} {
      MarkKeepsOthers(g, id, "done", x);
    }
  }

  /** Marking the listed nodes done, one after another. */
  function MarkAll(g: Graph, ids: seq<string>): Graph
    decreases |ids|
  {
    if ids == [] then g else MarkNode(MarkAll(g, ids[..|ids| - 1]), ids[|ids| - 1], "done")
  }

  /** Each node is among the ready ones when it is marked. */
  ghost predicate MarksReady(g: Graph, ids: seq<string>)
    decreases |ids|
  {
    ids != [] ==> MarksReady(g, ids[..|ids| - 1]) && ReadyId(MarkAll(g, ids[..|ids| - 1]), ids[|ids| - 1])
  }

  lemma MarkingStep(g: Graph, id: string)
    requires UniqueIds(g) && ReadyId(g, id)
    ensures UniqueIds(MarkNode(g, id, "done")) && CanComplete(NetOf(g), id)
    ensures NetOf(MarkNode(g, id, "done")) == Complete(NetOf(g), id)
  {
    ReadyMeansCanComplete(g, id);
    MarkCompletes(g, id);
  }

  /** Marking ready nodes is a legal run of the dependency graph. */
  lemma {:induction false} MarkingIsLegalRun(g: Graph, ids: seq<string>)
    requires UniqueIds(g) && MarksReady(g, ids)
    ensures UniqueIds(MarkAll(g, ids))
    ensures Legal(NetOf(g), ids) && NetOf(MarkAll(g, ids)) == Run(NetOf(g), ids)
    decreases |ids|
  {
    if ids != [] {
      var m := |ids| - 1;
      var front, last := ids[..m], ids[m];
      MarkingIsLegalRun(g, front);
      var h := MarkAll(g, front);
      assert ids == front + [last];
      MarkingStep(h, last);
      LegalExtends(NetOf(g), front, last);
    }
  }

  lemma PendingIsNotDone(g: Graph)
    requires UniqueIds(g)
    ensures Pending(g) !! Done(g)
  {
    forall i, j | 0 <= i < |g.nodes| && 0 <= j < |g.nodes| && g.nodes[i].id == g.nodes[j].id ensures i == j {
    }
  }

  /** Repeatedly completing ready nodes ends: no run is longer than the pending nodes it starts
      from, and each step completes another of them. */
  lemma MarkingTerminates(g: Graph, ids: seq<string>)
    requires UniqueIds(g) && MarksReady(g, ids)
    ensures |ids| <= |Pending(g)| && |Pending(MarkAll(g, ids))| == |Pending(g)| - |ids|
  {
    MarkingIsLegalRun(g, ids);
    RunsTerminate(NetOf(g), ids);
  }

  /** No node is completed before its predecessors: each was done from the start or was completed
      earlier in the run. */
  lemma NoNodeBeforeItsPredecessors(g: Graph, ids: seq<string>, i: nat, e: Edge)
    requires UniqueIds(g) && MarksReady(g, ids) && i < |ids| && e in g.edges && e.to == ids[i]
    ensures e.from in Done(g) || e.from in ids[..i]
  {
    MarkingIsLegalRun(g, ids);
    assert (e.from, e.to) in Dependencies(g);
    PredecessorsComeFirst(NetOf(g), ids, i, e.from);
  }

  /** A run that has nothing ready left has completed every pending node exactly when every blocker
      of a pending node exists (pending or done) and the pending part has no cycle. */
  lemma FinishedPlanIsCompleteExactlyWhen(g: Graph, ids: seq<string>)
    requires UniqueIds(g) && MarksReady(g, ids) && ReadyNodes(MarkAll(g, ids)) == []
    ensures Pending(MarkAll(g, ids)) == {} <==> Supported(NetOf(g)) && Acyclic(NetOf(g))
  {
    MarkingIsLegalRun(g, ids);
    PendingIsNotDone(g);
    forall x ensures !CanComplete(Run(NetOf(g), ids), x) {
      ReadyMeansCanComplete(MarkAll(g, ids), x);
    }
    FinishedRunCompletesExactlyWhen(NetOf(g), ids);
  }

  /** Such a run exists from every plan, continuing any run already under way. */
  lemma {:induction false} MarkingCanFinish(g: Graph, ids: seq<string>) returns (all: seq<string>)
    requires UniqueIds(g) && MarksReady(g, ids)
    ensures MarksReady(g, all) && ids <= all && ReadyNodes(MarkAll(g, all)) == []
    decreases |Pending(g)| - |ids|
  {
    var ready := ReadyNodes(MarkAll(g, ids));
    if ready == [] {
      all := ids;
    } else {
      var more := ids + [ready[0].id];
      assert more[..|ids|] == ids && ready[0] in ready;
      MarkingTerminates(g, more);
      all := MarkingCanFinish(g, more);
    }
  }
}
