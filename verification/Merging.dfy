/** Merging the plans, timelines and artifacts of several frameworks, and splitting one framework
    out again (src/acp/merge.fard). */
module Merging {
  import opened Records
  import opened Plans

  datatype TimelineEvent = TimelineEvent(seqNo: int, kind: string, actor: string, summary: string)

  datatype ArtifactRef = ArtifactRef(digest: Digest, producer: string)

  datatype Ingested = Ingested(framework: string, plan: Graph, timeline: seq<TimelineEvent>, artifacts: seq<ArtifactRef>)

  datatype MergedNode = MergedNode(node: Node, originalId: Option<string>, framework: string)

  datatype MergedEdge = MergedEdge(edge: Edge, framework: Option<string>)

  datatype MergedGraph = MergedGraph(nodes: seq<MergedNode>, edges: seq<MergedEdge>)

  function Map<A, B>(xs: seq<A>, f: A -> B): (r: seq<B>)
    ensures |r| == |xs|
  {
    seq(|xs|, i requires 0 <= i < |xs| => f(xs[i]))
  }

  function FlatMap<A, B>(xs: seq<A>, f: A -> seq<B>): seq<B> {
    if xs == [] then [] else f(xs[0]) + FlatMap(xs[1..], f)
  }

  /** Appends each element unless one with its key is already there. */
  function KeepFirst<T, K(==)>(xs: seq<T>, key: T -> K): seq<T>
    decreases |xs|
  {
    if xs == [] then []
    else
      var acc, last := KeepFirst(xs[..|xs| - 1], key), xs[|xs| - 1];
      if exists i :: 0 <= i < |acc| && key(acc[i]) == key(last) then acc else acc + [last]
  }

  // ---------- Conflicts ----------

  datatype Tagged = Tagged(id: string, framework: string)

  datatype Conflict = Conflict(id: string, frameworks: seq<string>)

  function TaggedIds(r: Ingested): seq<Tagged> {
    Map(r.plan.nodes, (n: Node) => Tagged(n.id, r.framework))
  }

  function AllTagged(rs: seq<Ingested>): seq<Tagged> {
    FlatMap(rs, TaggedIds)
  }

  function Matches(all: seq<Tagged>, id: string): seq<Tagged> {
    Filter(all, (m: Tagged) => m.id == id)
  }

  function ConflictsAmong(list: seq<Tagged>, all: seq<Tagged>): seq<Conflict> {
    if list == [] then []
    else
      var matches := Matches(all, list[0].id);
      (if |matches| > 1 then [Conflict(list[0].id, Map(matches, (m: Tagged) => m.framework))] else [])
      + ConflictsAmong(list[1..], all)
  }

  function FindNodeConflicts(rs: seq<Ingested>): seq<Conflict> {
    ConflictsAmong(AllTagged(rs), AllTagged(rs))
  }

  function DedupeConflicts(conflicts: seq<Conflict>): seq<Conflict> {
    KeepFirst(conflicts, (c: Conflict) => c.id)
  }

  predicate HasConflicts(rs: seq<Ingested>) {
    DedupeConflicts(FindNodeConflicts(rs)) != []
  }

  // ---------- Merge and split ----------

  function Prefixed(framework: string, id: string): string {
    framework + "." + id
  }

  function MergeNode(n: Node, framework: string, prefix: bool): MergedNode {
    if prefix then MergedNode(n.(id := Prefixed(framework, n.id)), Some(n.id), framework)
    else MergedNode(n, None, framework)
  }

  function MergeEdge(e: Edge, framework: string, prefix: bool): MergedEdge {
    MergedEdge(if prefix then e.(from := Prefixed(framework, e.from), to := Prefixed(framework, e.to)) else e, Some(framework))
  }

  function NodesOf(r: Ingested, prefix: bool): (ns: seq<MergedNode>)
    ensures |ns| == |r.plan.nodes|
  {
    Map(r.plan.nodes, (n: Node) => MergeNode(n, r.framework, prefix))
  }

  function EdgesOf(r: Ingested, prefix: bool): (es: seq<MergedEdge>)
    ensures |es| == |r.plan.edges|
  {
    Map(r.plan.edges, (e: Edge) => MergeEdge(e, r.framework, prefix))
  }

  function MergePlans(rs: seq<Ingested>, crossEdges: seq<MergedEdge>): MergedGraph {
    var prefix := HasConflicts(rs);
    MergedGraph(FlatMap(rs, (r: Ingested) => NodesOf(r, prefix)), FlatMap(rs, (r: Ingested) => EdgesOf(r, prefix)) + crossEdges)
  }

  function IdSet(nodes: seq<MergedNode>): set<string> {
    set n | n in nodes :: n.node.id
  }

  function FrameworkSubgraph(g: MergedGraph, framework: string): MergedGraph {
    var nodes := Filter(g.nodes, (n: MergedNode) => n.framework == framework);
    var ids := IdSet(nodes);
    MergedGraph(nodes, Filter(g.edges, (e: MergedEdge) => e.edge.from in ids))
  }

  /** Undoes the prefix and drops the tags. */
  function RestoreNode(n: MergedNode): Node {
    if n.originalId.Some? then n.node.(id := n.originalId.value) else n.node
  }

  function Unprefixed(framework: string, id: string): string {
    if |framework| + 1 <= |id| then id[|framework| + 1..] else id
  }

  function RestoreEdge(e: MergedEdge, framework: string, prefix: bool): Edge {
    if prefix then Edge(Unprefixed(framework, e.edge.from), Unprefixed(framework, e.edge.to), e.edge.reason) else e.edge
  }

  function Restore(g: MergedGraph, framework: string, prefix: bool): Graph {
    Graph(Map(g.nodes, RestoreNode), Map(g.edges, (e: MergedEdge) => RestoreEdge(e, framework, prefix)))
  }

  /** One framework's plan, taken out of the merged graph and restored. */
  function Split(rs: seq<Ingested>, cross: seq<MergedEdge>, framework: string): Graph {
    Restore(FrameworkSubgraph(MergePlans(rs, cross), framework), framework, HasConflicts(rs))
  }

  /** The cross edges that leave a node of this plan. */
  function CrossFrom(rs: seq<Ingested>, cross: seq<MergedEdge>, r: Ingested): seq<MergedEdge> {
    Filter(cross, (e: MergedEdge) => e.edge.from in IdSet(NodesOf(r, HasConflicts(rs))))
  }

  ghost predicate DistinctNames(rs: seq<Ingested>) {
    forall i, j :: 0 <= i < j < |rs| ==> rs[i].framework != rs[j].framework
  }

  ghost predicate DotFree(name: string) {
    '.' !in name
  }

  ghost predicate WellNamed(rs: seq<Ingested>) {
    DistinctNames(rs) && forall r :: r in rs ==> DotFree(r.framework)
  }

  /** Every edge leaves a node of its own plan. */
  ghost predicate Closed(r: Ingested) {
    forall e :: e in r.plan.edges ==> exists n :: n in r.plan.nodes && n.id == e.from
  }

  lemma {:induction false} FlatMapMembers<A, B>(xs: seq<A>, f: A -> seq<B>, b: B)
    ensures b in FlatMap(xs, f) <==> exists x :: x in xs && b in f(x)
  {
    if xs != [] {
      FlatMapMembers(xs[1..], f, b);
      assert forall x :: x in xs <==> x == xs[0] || x in xs[1..];
    }
  }

  lemma {:induction false} FilterAllOrNone<T>(xs: seq<T>, p: T -> bool)
    ensures (forall x :: x in xs ==> p(x)) ==> Filter(xs, p) == xs
    ensures (forall x :: x in xs ==> !p(x)) ==> Filter(xs, p) == []
  {
    if xs != [] {
      FilterAllOrNone(xs[1..], p);
      assert xs == [xs[0]] + xs[1..];
    }
  }

  lemma {:induction false} FilterNothing<A, B>(xs: seq<A>, f: A -> seq<B>, p: B -> bool)
    requires forall x, b :: x in xs && b in f(x) ==> !p(b)
    ensures Filter(FlatMap(xs, f), p) == []
  {
    if xs != [] {
      FilterNothing(xs[1..], f, p);
      FilterAppends(f(xs[0]), FlatMap(xs[1..], f), p);
      FilterAllOrNone(f(xs[0]), p);
    }
  }

  /** A filter that keeps all of one part and nothing of the others returns that part. */
  lemma {:induction false} FilterPicksPart<A, B>(xs: seq<A>, f: A -> seq<B>, p: B -> bool, k: nat)
    requires k < |xs| && forall b :: b in f(xs[k]) ==> p(b)
    requires forall i, b :: 0 <= i < |xs| && i != k && b in f(xs[i]) ==> !p(b)
    ensures Filter(FlatMap(xs, f), p) == f(xs[k])
  {
    FilterAppends(f(xs[0]), FlatMap(xs[1..], f), p);
    FilterAllOrNone(f(xs[0]), p);
    if k == 0 {
      forall x, b | x in xs[1..] && b in f(x) ensures !p(b) {
        var i :| 0 <= i < |xs[1..]| && xs[1..][i] == x;
        assert xs[i + 1] == x;
      }
      FilterNothing(xs[1..], f, p);
    } else {
      FilterPicksPart(xs[1..], f, p, k - 1);
    }
  }

  /** With dot-free names, a prefixed id tells its framework. */
  lemma PrefixTellsFramework(f: string, x: string, g: string, y: string)
    requires DotFree(f) && DotFree(g) && Prefixed(f, x) == Prefixed(g, y)
    ensures f == g && x == y
  {
    var a, b := Prefixed(f, x), Prefixed(g, y);
    assert a[|f|] == '.' && b[|g|] == '.';
    assert forall i :: 0 <= i < |f| ==> a[i] == f[i] != '.';
    assert forall i :: 0 <= i < |g| ==> b[i] == g[i] != '.';
    assert f == a[..|f|] && g == b[..|g|];
    assert x == a[|f| + 1..] && y == b[|g| + 1..];
  }

  lemma FilterCountsTwo<T>(xs: seq<T>, p: T -> bool, i: nat, j: nat)
    requires i < j < |xs| && p(xs[i]) && p(xs[j])
    ensures |Filter(xs, p)| > 1
  {
    assert xs == xs[..j] + xs[j..];
    FilterAppends(xs[..j], xs[j..], p);
    FilterMembers(xs[..j], p, xs[i]);
    assert xs[..j][i] == xs[i];
    FilterMembers(xs[j..], p, xs[j]);
    assert xs[j..][0] == xs[j];
  }

  lemma {:induction false} FilterOfOne<T>(xs: seq<T>, p: T -> bool)
    requires |Filter(xs, p)| > 1
    ensures exists i, j :: 0 <= i < j < |xs| && p(xs[i]) && p(xs[j])
  {
    if p(xs[0]) {
      var m := Filter(xs[1..], p)[0];
      FilterMembers(xs[1..], p, m);
      var j :| 0 <= j < |xs[1..]| && xs[1..][j] == m;
      assert p(xs[0]) && p(xs[j + 1]);
    } else {
      FilterOfOne(xs[1..], p);
      var i, j :| 0 <= i < j < |xs[1..]| && p(xs[1..][i]) && p(xs[1..][j]);
      assert p(xs[i + 1]) && p(xs[j + 1]);
    }
  }

  ghost predicate IdRepeats(all: seq<Tagged>) {
    exists i, j :: 0 <= i < j < |all| && all[i].id == all[j].id
  }

  lemma {:induction false} ConflictsEmptyExactlyWhen(list: seq<Tagged>, all: seq<Tagged>)
    ensures ConflictsAmong(list, all) == [] <==> forall t :: t in list ==> |Matches(all, t.id)| <= 1
  {
    if list != [] {
      ConflictsEmptyExactlyWhen(list[1..], all);
      assert forall t :: t in list <==> t == list[0] || t in list[1..];
    }
  }

  lemma {:induction false} KeepFirstOfNothing<T, K>(xs: seq<T>, key: T -> K)
    ensures KeepFirst(xs, key) == [] <==> xs == []
  {
    if xs != [] {
      KeepFirstOfNothing(xs[..|xs| - 1], key);
    }
  }

  /** A conflict is reported exactly when some node id occurs twice among all the plans. */
  lemma ConflictsExactlyWhenIdsRepeat(rs: seq<Ingested>)
    ensures HasConflicts(rs) <==> IdRepeats(AllTagged(rs))
  {
    var all := AllTagged(rs);
    ConflictsEmptyExactlyWhen(all, all);
    KeepFirstOfNothing(FindNodeConflicts(rs), (c: Conflict) => c.id);
    if IdRepeats(all) {
      var i, j :| 0 <= i < j < |all| && all[i].id == all[j].id;
      FilterCountsTwo(all, (m: Tagged) => m.id == all[i].id, i, j);
      assert all[i] in all;
    }
    if HasConflicts(rs) {
      var t :| t in all && |Matches(all, t.id)| > 1;
      FilterOfOne(all, (m: Tagged) => m.id == t.id);
    }
  }

  /** The plan has a node with this id. */
  ghost predicate HasNode(r: Ingested, id: string) {
    exists n :: n in r.plan.nodes && n.id == id
  }

  lemma TaggedIdsAre(r: Ingested, t: Tagged)
    ensures t in TaggedIds(r) <==> t.framework == r.framework && HasNode(r, t.id)
  {
    if t in TaggedIds(r) {
      var i :| 0 <= i < |r.plan.nodes| && TaggedIds(r)[i] == t;
      assert r.plan.nodes[i] in r.plan.nodes;
    }
    if t.framework == r.framework && HasNode(r, t.id) {
      var n :| n in r.plan.nodes && n.id == t.id;
      var i :| 0 <= i < |r.plan.nodes| && r.plan.nodes[i] == n;
      assert TaggedIds(r)[i] == t;
    }
  }

  lemma AllTaggedAre(rs: seq<Ingested>, t: Tagged)
    ensures t in AllTagged(rs) <==> exists r :: r in rs && t.framework == r.framework && HasNode(r, t.id)
  {
    FlatMapMembers(rs, TaggedIds, t);
    forall r ensures t in TaggedIds(r) <==> t.framework == r.framework && HasNode(r, t.id) {
      TaggedIdsAre(r, t);
    }
  }

  lemma {:induction false} ConflictsAmongAre(list: seq<Tagged>, all: seq<Tagged>, c: Conflict)
    ensures c in ConflictsAmong(list, all) <==>
              exists t :: t in list && c.id == t.id && |Matches(all, t.id)| > 1
                          && c.frameworks == Map(Matches(all, t.id), (m: Tagged) => m.framework)
  {
    if list != [] {
      ConflictsAmongAre(list[1..], all, c);
      assert forall t :: t in list <==> t == list[0] || t in list[1..];
    }
  }

  lemma {:induction false} KeepFirstTakes<T, K>(xs: seq<T>, key: T -> K)
    ensures forall x :: x in KeepFirst(xs, key) ==> x in xs
    ensures forall i, j :: 0 <= i < j < |KeepFirst(xs, key)| ==> key(KeepFirst(xs, key)[i]) != key(KeepFirst(xs, key)[j])
    decreases |xs|
  {
    if xs != [] {
      var front, last := xs[..|xs| - 1], xs[|xs| - 1];
      KeepFirstTakes(front, key);
      assert xs == front + [last];
    }
  }

  /** The conflicts reported: each id at most once, with every framework that has a node of that id, two
      nodes at least. */
  lemma ConflictsName(rs: seq<Ingested>)
    ensures var cs := DedupeConflicts(FindNodeConflicts(rs));
            && (forall i, j :: 0 <= i < j < |cs| ==> cs[i].id != cs[j].id)
            && (forall c :: c in cs ==> |c.frameworks| > 1 && NamesFrameworks(rs, c))
  {
    var all, found := AllTagged(rs), FindNodeConflicts(rs);
    KeepFirstTakes(found, (c: Conflict) => c.id);
    forall c | c in DedupeConflicts(found) ensures |c.frameworks| > 1 && NamesFrameworks(rs, c) {
      ConflictsAmongAre(all, all, c);
      forall f ensures f in c.frameworks <==> exists r :: r in rs && r.framework == f && HasNode(r, c.id) {
        ConflictFrameworks(rs, c, f);
      }
    }
  }

  /** It lists exactly the frameworks whose plan has a node of its id. */
  ghost predicate NamesFrameworks(rs: seq<Ingested>, c: Conflict) {
    forall f :: f in c.frameworks <==> exists r :: r in rs && r.framework == f && HasNode(r, c.id)
  }

  lemma ConflictFrameworks(rs: seq<Ingested>, c: Conflict, f: string)
    requires c.frameworks == Map(Matches(AllTagged(rs), c.id), (m: Tagged) => m.framework)
    ensures f in c.frameworks <==> exists r :: r in rs && r.framework == f && HasNode(r, c.id)
  {
    var matches, t := Matches(AllTagged(rs), c.id), Tagged(c.id, f);
    FilterMembers(AllTagged(rs), (m: Tagged) => m.id == c.id, t);
    AllTaggedAre(rs, t);
    if f in c.frameworks {
      var i :| 0 <= i < |matches| && c.frameworks[i] == f;
      FilterMembers(AllTagged(rs), (m: Tagged) => m.id == c.id, matches[i]);
      assert matches[i] == t;
    }
    if t in matches {
      var i :| 0 <= i < |matches| && matches[i] == t;
      assert c.frameworks[i] == f;
    }
  }

  // ---------- Merge then split is the identity ----------

  lemma SubgraphNodes(rs: seq<Ingested>, cross: seq<MergedEdge>, k: nat)
    requires DistinctNames(rs) && k < |rs|
    ensures FrameworkSubgraph(MergePlans(rs, cross), rs[k].framework).nodes == NodesOf(rs[k], HasConflicts(rs))
  {
    var prefix := HasConflicts(rs);
    var f := (r: Ingested) => NodesOf(r, prefix);
    var p := (n: MergedNode) => n.framework == rs[k].framework;
    forall i, b | 0 <= i < |rs| && i != k && b in f(rs[i]) ensures !p(b) {
      assert rs[i].framework != rs[k].framework;
    }
    FilterPicksPart(rs, f, p, k);
  }

  /** What merging makes of a node and of an edge: with a conflict anywhere, ids get their framework's
      prefix, and the node keeps its own; each is tagged with its framework. */
  lemma MergingTags(n: Node, e: Edge, framework: string, prefix: bool)
    ensures var m := MergeNode(n, framework, prefix);
            && m.framework == framework && m.originalId == (if prefix then Some(n.id) else None)
            && m.node == n.(id := if prefix then framework + "." + n.id else n.id)
    ensures var m := MergeEdge(e, framework, prefix);
            && m.framework == Some(framework)
            && m.edge == Edge(if prefix then framework + "." + e.from else e.from, if prefix then framework + "." + e.to else e.to, e.reason)
  {
  }

  /** Ids of two plans never meet in the merged graph, prefixed or not. */
  lemma IdsStayApart(rs: seq<Ingested>, i: nat, k: nat, x: string, y: string)
    requires WellNamed(rs) && i < |rs| && k < |rs| && i != k
    requires exists n :: n in rs[i].plan.nodes && n.id == x
    requires exists n :: n in rs[k].plan.nodes && n.id == y
    ensures var prefix := HasConflicts(rs);
            prefix ==> Prefixed(rs[i].framework, x) != Prefixed(rs[k].framework, y)
    ensures !HasConflicts(rs) ==> x != y
  {
    if HasConflicts(rs) {
      if Prefixed(rs[i].framework, x) == Prefixed(rs[k].framework, y) {
        PrefixTellsFramework(rs[i].framework, x, rs[k].framework, y);
      }
    } else {
      ConflictsExactlyWhenIdsRepeat(rs);
      if i < k { TwoPlansRepeat(rs, i, k, x, y); } else { TwoPlansRepeat(rs, k, i, y, x); }
    }
  }

  lemma {:induction false} TwoPlansRepeat(rs: seq<Ingested>, i: nat, k: nat, x: string, y: string)
    requires i < k < |rs|
    requires exists n :: n in rs[i].plan.nodes && n.id == x
    requires exists n :: n in rs[k].plan.nodes && n.id == y
    ensures x == y ==> IdRepeats(AllTagged(rs))
  {
    if x == y {
      var first, rest := TaggedIds(rs[0]), AllTagged(rs[1..]);
      assert AllTagged(rs) == first + rest;
      if i == 0 {
        var a :| 0 <= a < |rs[0].plan.nodes| && rs[0].plan.nodes[a].id == x;
        var n :| n in rs[k].plan.nodes && n.id == y;
        var c :| 0 <= c < |rs[k].plan.nodes| && rs[k].plan.nodes[c] == n;
        var t := Tagged(y, rs[k].framework);
        assert TaggedIds(rs[k])[c] == t;
        assert rs[1..][k - 1] == rs[k];
        FlatMapMembers(rs[1..], TaggedIds, t);
        var b :| 0 <= b < |rest| && rest[b] == t;
        assert AllTagged(rs)[a].id == AllTagged(rs)[|first| + b].id;
      } else {
        TwoPlansRepeat(rs[1..], i - 1, k - 1, x, y);
        var a, b :| 0 <= a < b < |rest| && rest[a].id == rest[b].id;
        assert AllTagged(rs)[|first| + a].id == AllTagged(rs)[|first| + b].id;
      }
    }
  }

  lemma NodeIds(r: Ingested, prefix: bool, id: string)
    ensures id in IdSet(NodesOf(r, prefix))
       <==> exists n :: n in r.plan.nodes && id == if prefix then Prefixed(r.framework, n.id) else n.id
  {
    var ns := NodesOf(r, prefix);
    if id in IdSet(ns) {
      var m :| m in ns && m.node.id == id;
      var i :| 0 <= i < |ns| && ns[i] == m;
      assert r.plan.nodes[i] in r.plan.nodes;
    }
    if n :| n in r.plan.nodes && id == if prefix then Prefixed(r.framework, n.id) else n.id {
      var i :| 0 <= i < |r.plan.nodes| && r.plan.nodes[i] == n;
      assert ns[i] in ns;
    }
  }

  lemma SubgraphEdges(rs: seq<Ingested>, cross: seq<MergedEdge>, k: nat)
    requires WellNamed(rs) && k < |rs| && forall r :: r in rs ==> Closed(r)
    ensures FrameworkSubgraph(MergePlans(rs, cross), rs[k].framework).edges
         == EdgesOf(rs[k], HasConflicts(rs)) + CrossFrom(rs, cross, rs[k])
  {
    var prefix := HasConflicts(rs);
    SubgraphNodes(rs, cross, k);
    var ids := IdSet(NodesOf(rs[k], prefix));
    var f := (r: Ingested) => EdgesOf(r, prefix);
    var p := (e: MergedEdge) => e.edge.from in ids;
    forall b | b in f(rs[k]) ensures p(b) {
      var c :| 0 <= c < |rs[k].plan.edges| && b == MergeEdge(rs[k].plan.edges[c], rs[k].framework, prefix);
      assert rs[k] in rs && Closed(rs[k]);
      NodeIds(rs[k], prefix, b.edge.from);
    }
    forall i, b | 0 <= i < |rs| && i != k && b in f(rs[i]) ensures !p(b) {
      EdgesElsewhere(rs, i, k, b);
    }
    FilterPicksPart(rs, f, p, k);
    FilterAppends(FlatMap(rs, f), cross, p);
  }

  lemma EdgesElsewhere(rs: seq<Ingested>, i: nat, k: nat, b: MergedEdge)
    requires WellNamed(rs) && i < |rs| && k < |rs| && i != k && Closed(rs[i])
    requires b in EdgesOf(rs[i], HasConflicts(rs))
    ensures b.edge.from !in IdSet(NodesOf(rs[k], HasConflicts(rs)))
  {
    var prefix := HasConflicts(rs);
    var c :| 0 <= c < |rs[i].plan.edges| && b == MergeEdge(rs[i].plan.edges[c], rs[i].framework, prefix);
    var e := rs[i].plan.edges[c];
    assert e in rs[i].plan.edges;
    NodeIds(rs[k], prefix, b.edge.from);
    forall n | n in rs[k].plan.nodes ensures b.edge.from != if prefix then Prefixed(rs[k].framework, n.id) else n.id {
      IdsStayApart(rs, i, k, e.from, n.id);
    }
  }

  lemma UnprefixInverts(framework: string, id: string)
    ensures Unprefixed(framework, Prefixed(framework, id)) == id
  {
  }

  /** Stripping prefixes and tags gives back the plan that was merged, and then the edges after it. */
  lemma RestoreInverts(r: Ingested, prefix: bool, more: seq<MergedEdge>)
    ensures Restore(MergedGraph(NodesOf(r, prefix), EdgesOf(r, prefix) + more), r.framework, prefix)
         == Graph(r.plan.nodes, r.plan.edges + Map(more, (e: MergedEdge) => RestoreEdge(e, r.framework, prefix)))
  {
    var g := Restore(MergedGraph(NodesOf(r, prefix), EdgesOf(r, prefix) + more), r.framework, prefix);
    forall i | 0 <= i < |r.plan.nodes| ensures g.nodes[i] == r.plan.nodes[i] {
      assert g.nodes[i] == RestoreNode(MergeNode(r.plan.nodes[i], r.framework, prefix));
    }
    assert g.nodes == r.plan.nodes;
    forall i | 0 <= i < |r.plan.edges| ensures g.edges[i] == r.plan.edges[i] {
      UnprefixInverts(r.framework, r.plan.edges[i].from);
      UnprefixInverts(r.framework, r.plan.edges[i].to);
    }
    assert g.edges == r.plan.edges + Map(more, (e: MergedEdge) => RestoreEdge(e, r.framework, prefix));
  }

  /** Splitting a plan out of closed plans gives it back in order, followed by the cross edges that
      leave its nodes. */
  lemma SplitOfClosed(rs: seq<Ingested>, cross: seq<MergedEdge>, k: nat)
    requires WellNamed(rs) && k < |rs| && forall r :: r in rs ==> Closed(r)
    ensures Split(rs, cross, rs[k].framework)
         == Graph(rs[k].plan.nodes,
                  rs[k].plan.edges + Map(CrossFrom(rs, cross, rs[k]), (e: MergedEdge) => RestoreEdge(e, rs[k].framework, HasConflicts(rs))))
  {
    SubgraphNodes(rs, cross, k);
    SubgraphEdges(rs, cross, k);
    RestoreInverts(rs[k], HasConflicts(rs), CrossFrom(rs, cross, rs[k]));
  }

  lemma SplitIsClosed(rs: seq<Ingested>, cross: seq<MergedEdge>, k: nat)
    requires WellNamed(rs) && k < |rs| && Split(rs, cross, rs[k].framework) == rs[k].plan
    ensures Closed(rs[k])
  {
    var r, prefix := rs[k], HasConflicts(rs);
    var sub := FrameworkSubgraph(MergePlans(rs, cross), r.framework);
    SubgraphNodes(rs, cross, k);
    forall e | e in r.plan.edges ensures exists n :: n in r.plan.nodes && n.id == e.from {
      var c :| 0 <= c < |r.plan.edges| && r.plan.edges[c] == e;
      var m := sub.edges[c];
      assert e == RestoreEdge(m, r.framework, prefix);
      FilterMembers(MergePlans(rs, cross).edges, (x: MergedEdge) => x.edge.from in IdSet(sub.nodes), m);
      assert m in sub.edges;
      NodeIds(r, prefix, m.edge.from);
      var n :| n in r.plan.nodes && m.edge.from == if prefix then Prefixed(r.framework, n.id) else n.id;
      UnprefixInverts(r.framework, n.id);
    }
  }

  /** Merging plans under distinct dot-free names, with any cross edges, and splitting each out again
      gives every plan back, in order, exactly when every edge leaves a node of its own plan and no
      cross edge leaves a node of any plan. */
  lemma SplitUndoesMergeExactlyWhen(rs: seq<Ingested>, cross: seq<MergedEdge>)
    requires WellNamed(rs)
    ensures (forall r :: r in rs ==> Split(rs, cross, r.framework) == r.plan)
       <==> (forall r :: r in rs ==> Closed(r)) && (forall r :: r in rs ==> CrossFrom(rs, cross, r) == [])
  {
    if forall r :: r in rs ==> Closed(r) {
      forall k | 0 <= k < |rs| ensures Split(rs, cross, rs[k].framework) == rs[k].plan <==> CrossFrom(rs, cross, rs[k]) == [] {
        SplitOfClosed(rs, cross, k);
        assert CrossFrom(rs, cross, rs[k]) == [] ==>
                 rs[k].plan.edges + Map(CrossFrom(rs, cross, rs[k]), (e: MergedEdge) => RestoreEdge(e, rs[k].framework, HasConflicts(rs)))
                 == rs[k].plan.edges;
      }
    }
    forall k | 0 <= k < |rs| && Split(rs, cross, rs[k].framework) == rs[k].plan ensures Closed(rs[k]) {
      SplitIsClosed(rs, cross, k);
    }
  }

  // ---------- Merged ids ----------

  ghost predicate NoRepeats<T>(xs: seq<T>) {
    forall i, j :: 0 <= i < j < |xs| ==> xs[i] != xs[j]
  }

  function MergedIds(rs: seq<Ingested>, prefix: bool): seq<string> {
    FlatMap(rs, (r: Ingested) => Map(NodesOf(r, prefix), (n: MergedNode) => n.node.id))
  }

  lemma {:induction false} FlatMapThenMap<A, B, C>(xs: seq<A>, f: A -> seq<B>, h: B -> C, g: A -> seq<C>)
    requires forall x :: x in xs ==> g(x) == Map(f(x), h)
    ensures Map(FlatMap(xs, f), h) == FlatMap(xs, g)
  {
    if xs != [] {
      FlatMapThenMap(xs[1..], f, h, g);
      assert Map(f(xs[0]) + FlatMap(xs[1..], f), h) == Map(f(xs[0]), h) + Map(FlatMap(xs[1..], f), h);
    }
  }

  lemma PrefixedIdsOf(r: Ingested)
    requires UniqueIds(r.plan)
    ensures NoRepeats(Map(NodesOf(r, true), (n: MergedNode) => n.node.id))
  {
    var ids := Map(NodesOf(r, true), (n: MergedNode) => n.node.id);
    forall i, j | 0 <= i < j < |ids| ensures ids[i] != ids[j] {
      UnprefixInverts(r.framework, r.plan.nodes[i].id);
      UnprefixInverts(r.framework, r.plan.nodes[j].id);
    }
  }

  /** A prefixed id of one plan is not among those of plans under other names. */
  lemma PrefixedIdIsElsewhere(r: Ingested, c: nat, rest: seq<Ingested>, id: string)
    requires DotFree(r.framework) && c < |r.plan.nodes| && forall x :: x in rest ==> DotFree(x.framework) && x.framework != r.framework
    requires id in MergedIds(rest, true)
    ensures Prefixed(r.framework, r.plan.nodes[c].id) != id
  {
    var g := (x: Ingested) => Map(NodesOf(x, true), (n: MergedNode) => n.node.id);
    FlatMapMembers(rest, g, id);
    var x :| x in rest && id in g(x);
    var k :| 0 <= k < |x.plan.nodes| && id == Prefixed(x.framework, x.plan.nodes[k].id);
    if Prefixed(r.framework, r.plan.nodes[c].id) == id {
      PrefixTellsFramework(r.framework, r.plan.nodes[c].id, x.framework, x.plan.nodes[k].id);
    }
  }

  lemma {:induction false} PrefixedIdsApart(rs: seq<Ingested>)
    requires WellNamed(rs) && forall r :: r in rs ==> UniqueIds(r.plan)
    ensures NoRepeats(MergedIds(rs, true))
  {
    if rs != [] {
      var first, rest := Map(NodesOf(rs[0], true), (n: MergedNode) => n.node.id), MergedIds(rs[1..], true);
      PrefixedIdsApart(rs[1..]);
      assert rs[0] in rs;
      PrefixedIdsOf(rs[0]);
      forall x | x in rs[1..] ensures DotFree(x.framework) && x.framework != rs[0].framework {
        var k :| 0 <= k < |rs[1..]| && rs[1..][k] == x;
        assert rs[k + 1] == x;
      }
      forall i, j | 0 <= i < |first| && 0 <= j < |rest| ensures first[i] != rest[j] {
        PrefixedIdIsElsewhere(rs[0], i, rs[1..], rest[j]);
      }
      assert MergedIds(rs, true) == first + rest;
    }
  }

  /** Merged node ids are unique whenever each plan's are: by prefix when the plans clash, and
      because they do not clash otherwise. */
  lemma MergedIdsAreUnique(rs: seq<Ingested>, cross: seq<MergedEdge>)
    requires WellNamed(rs) && forall r :: r in rs ==> UniqueIds(r.plan)
    ensures NoRepeats(Map(MergePlans(rs, cross).nodes, (n: MergedNode) => n.node.id))
  {
    var prefix := HasConflicts(rs);
    var idOf := (n: MergedNode) => n.node.id;
    FlatMapThenMap(rs, (r: Ingested) => NodesOf(r, prefix), idOf,
                   (r: Ingested) => Map(NodesOf(r, prefix), (n: MergedNode) => n.node.id));
    if prefix {
      PrefixedIdsApart(rs);
    } else {
      ConflictsExactlyWhenIdsRepeat(rs);
      forall r: Ingested ensures Map(NodesOf(r, false), (n: MergedNode) => n.node.id) == Map(TaggedIds(r), (t: Tagged) => t.id) {
      }
      FlatMapThenMap(rs, TaggedIds, (t: Tagged) => t.id,
                     (r: Ingested) => Map(NodesOf(r, prefix), (n: MergedNode) => n.node.id));
    }
  }

  // ---------- Timelines and artifacts ----------

  datatype Resequenced = Resequenced(events: seq<TimelineEvent>, seqNo: int)

  function ReseqEvents(events: seq<TimelineEvent>, offset: int): Resequenced
    decreases |events|
  {
    if events == [] then Resequenced([], offset)
    else
      var acc := ReseqEvents(events[..|events| - 1], offset);
      Resequenced(acc.events + [events[|events| - 1].(seqNo := acc.seqNo + 1)], acc.seqNo + 1)
  }

  function FoldTimelines(rs: seq<Ingested>): Resequenced
    decreases |rs|
  {
    if rs == [] then Resequenced([], 0)
    else
      var acc := FoldTimelines(rs[..|rs| - 1]);
      var next := ReseqEvents(rs[|rs| - 1].timeline, acc.seqNo);
      Resequenced(acc.events + next.events, next.seqNo)
  }

  function MergeTimelines(rs: seq<Ingested>): seq<TimelineEvent> {
    FoldTimelines(rs).events
  }

  /** `out` is `events` numbered from `offset` + 1 on. */
  ghost predicate Numbered(out: Resequenced, events: seq<TimelineEvent>, offset: int) {
    && |out.events| == |events| && out.seqNo == offset + |events|
    && forall i :: 0 <= i < |events| ==> out.events[i] == events[i].(seqNo := offset + i + 1)
  }

  lemma {:induction false} ReseqNumbers(events: seq<TimelineEvent>, offset: int)
    ensures Numbered(ReseqEvents(events, offset), events, offset)
    decreases |events|
  {
    if events != [] {
      ReseqNumbers(events[..|events| - 1], offset);
    }
  }

  lemma {:induction false} FlatMapSnoc<A, B>(xs: seq<A>, f: A -> seq<B>)
    requires xs != []
    ensures FlatMap(xs, f) == FlatMap(xs[..|xs| - 1], f) + f(xs[|xs| - 1])
  {
    if |xs| > 1 {
      FlatMapSnoc(xs[1..], f);
      assert xs[1..][..|xs| - 2] == xs[..|xs| - 1][1..];
    }
  }

  /** The merged timeline holds every event of every framework, in input order, numbered 1 to n. */
  lemma {:induction false} MergedTimelineIsNumbered(rs: seq<Ingested>)
    ensures Numbered(FoldTimelines(rs), FlatMap(rs, (r: Ingested) => r.timeline), 0)
    ensures forall i :: 0 <= i < |MergeTimelines(rs)| ==> MergeTimelines(rs)[i].seqNo == i + 1
    decreases |rs|
  {
    if rs != [] {
      MergedTimelineIsNumbered(rs[..|rs| - 1]);
      FlatMapSnoc(rs, (r: Ingested) => r.timeline);
      ReseqNumbers(rs[|rs| - 1].timeline, FoldTimelines(rs[..|rs| - 1]).seqNo);
    }
  }

  function MergeArtifacts(rs: seq<Ingested>): seq<ArtifactRef> {
    KeepFirst(FlatMap(rs, (r: Ingested) => r.artifacts), (a: ArtifactRef) => a.digest)
  }

  /** No earlier element bears the key of element `i`. */
  ghost predicate IsFirst<T, K>(xs: seq<T>, key: T -> K, i: nat)
    requires i < |xs|
  {
    forall j :: 0 <= j < i ==> key(xs[j]) != key(xs[i])
  }

  ghost function Firsts<T, K>(xs: seq<T>, key: T -> K, n: nat): seq<T>
    requires n <= |xs|
  {
    if n == 0 then [] else Firsts(xs, key, n - 1) + (if IsFirst(xs, key, n - 1) then [xs[n - 1]] else [])
  }

  lemma {:induction false} FirstsIgnoreLater<T, K>(xs: seq<T>, key: T -> K, m: nat, n: nat)
    requires n <= m <= |xs|
    ensures Firsts(xs[..m], key, n) == Firsts(xs, key, n)
  {
    if n > 0 {
      FirstsIgnoreLater(xs, key, m, n - 1);
      assert IsFirst(xs[..m], key, n - 1) <==> IsFirst(xs, key, n - 1);
    }
  }

  lemma {:induction false} FirstsHaveAllKeys<T, K>(xs: seq<T>, key: T -> K, n: nat, k: K)
    requires n <= |xs|
    ensures (exists a :: a in Firsts(xs, key, n) && key(a) == k) <==> (exists j :: 0 <= j < n && key(xs[j]) == k)
  {
    if n > 0 {
      FirstsHaveAllKeys(xs, key, n - 1, k);
      var before, last := Firsts(xs, key, n - 1), xs[n - 1];
      if key(last) == k && !IsFirst(xs, key, n - 1) {
        var j :| 0 <= j < n - 1 && key(xs[j]) == key(xs[n - 1]);
        assert exists a :: a in before && key(a) == k;
      }
      assert forall a :: a in Firsts(xs, key, n) <==> a in before || (IsFirst(xs, key, n - 1) && a == last);
    }
  }

  lemma {:induction false} KeepFirstIsFirsts<T, K>(xs: seq<T>, key: T -> K)
    ensures KeepFirst(xs, key) == Firsts(xs, key, |xs|)
    decreases |xs|
  {
    if xs != [] {
      var m := |xs| - 1;
      KeepFirstIsFirsts(xs[..m], key);
      FirstsIgnoreLater(xs, key, m, m);
      FirstsHaveAllKeys(xs, key, m, key(xs[m]));
    }
  }

  /** The merged shelf is the artifacts that are the first to bear their digest, in input order. */
  lemma MergedArtifactsAreFirsts(rs: seq<Ingested>)
    ensures var all := FlatMap(rs, (r: Ingested) => r.artifacts);
            MergeArtifacts(rs) == Firsts(all, (a: ArtifactRef) => a.digest, |all|)
  {
    KeepFirstIsFirsts(FlatMap(rs, (r: Ingested) => r.artifacts), (a: ArtifactRef) => a.digest);
  }

  /** An edge that leaves no node of its plan is lost by the split. */
  lemma DanglingEdgeIsLost()
    ensures exists rs: seq<Ingested> :: WellNamed(rs) && |rs| == 1 && Split(rs, [], rs[0].framework) != rs[0].plan
  {
    var r := Ingested("f", Graph([], [Edge("a", "b", "")]), [], []);
    var rs := [r];
    assert r.plan.edges[0] in r.plan.edges;
    assert !Closed(r);
    SplitUndoesMergeExactlyWhen(rs, []);
    assert rs[0] in rs;
    assert forall x :: x in rs ==> x == rs[0];
    assert Split(rs, [], rs[0].framework) != rs[0].plan;
  }
}
