/** Transitive include edges with distances and path conditions (tools/codegraph/project_resolver.go). */
module IncludeGraph {
  import opened Reachability
  import opened Sorting
  import opened ConditionText

  type FileId = int

  /** An include with the file chosen for it, 0 when none fits; the choice itself is an input. */
  datatype Include = Include(file: FileId, target: FileId, condition: string)

  /** Direct includes in order, and the condition kept for each pair of files. */
  datatype Graph = Graph(direct: map<FileId, seq<FileId>>, conditions: map<(FileId, FileId), string>)

  function Succ(g: Graph, u: FileId): seq<FileId> {
    if u in g.direct then g.direct[u] else []
  }

  function EdgeCondition(g: Graph, u: FileId, v: FileId): string {
    if (u, v) in g.conditions then g.conditions[(u, v)] else ""
  }

  function Edge(g: Graph): (FileId, FileId) -> bool {
    (u, v) => v in Succ(g, u)
  }

  predicate Takes(i: Include, u: FileId, v: FileId) {
    i.file == u && i.target == v != 0
  }

  /** One of the first n includes takes `u` to `v`. */
  predicate Includes(includes: seq<Include>, n: nat, u: FileId, v: FileId)
    requires n <= |includes|
  {
    n > 0 && (Takes(includes[n - 1], u, v) || Includes(includes, n - 1, u, v))
  }

  /** The condition of the last one of them. */
  function LastCondition(includes: seq<Include>, n: nat, u: FileId, v: FileId): string
    requires n <= |includes|
  {
    if n == 0 then ""
    else if Takes(includes[n - 1], u, v) then includes[n - 1].condition
    else LastCondition(includes, n - 1, u, v)
  }

  /** A pair of files keeps the condition of its last include, and none when it has no include. */
  lemma {:induction false} LastConditionIs(includes: seq<Include>, n: nat, u: FileId, v: FileId, k: int)
    requires n <= |includes| && -1 <= k < n
    requires k >= 0 ==> includes[k].file == u && includes[k].target == v && v != 0
    requires forall j :: k < j < n ==> includes[j].file != u || includes[j].target != v || v == 0
    ensures LastCondition(includes, n, u, v) == if k < 0 then "" else includes[k].condition
    ensures Includes(includes, n, u, v) <==> k >= 0
  {
    if n > k + 1 {
      LastConditionIs(includes, n - 1, u, v, k);
    }
  }

  ghost predicate Collected(g: Graph, includes: seq<Include>, n: nat)
    requires n <= |includes|
  {
    forall u, v ::
      && (v in Succ(g, u) <==> Includes(includes, n, u, v))
      && EdgeCondition(g, u, v) == LastCondition(includes, n, u, v)
  }

  lemma CollectedAdd(g: Graph, includes: seq<Include>, n: nat)
    requires n < |includes| && Collected(g, includes, n)
    ensures var i := includes[n];
            Collected(if i.target == 0 then g
                      else Graph(g.direct[i.file := Succ(g, i.file) + [i.target]],
                                 g.conditions[(i.file, i.target) := i.condition]),
                      includes, n + 1)
  {
    var i := includes[n];
    if i.target != 0 {
      var g' := Graph(g.direct[i.file := Succ(g, i.file) + [i.target]],
                      g.conditions[(i.file, i.target) := i.condition]);
      forall u, v
        ensures v in Succ(g', u) <==> Includes(includes, n + 1, u, v)
        ensures EdgeCondition(g', u, v) == LastCondition(includes, n + 1, u, v)
      {
        assert v in Succ(g, u) <==> Includes(includes, n, u, v);
        assert EdgeCondition(g, u, v) == LastCondition(includes, n, u, v);
      }
    } else {
      forall u, v
        ensures v in Succ(g, u) <==> Includes(includes, n + 1, u, v)
        ensures EdgeCondition(g, u, v) == LastCondition(includes, n + 1, u, v)
      {
        assert v in Succ(g, u) <==> Includes(includes, n, u, v);
      }
    }
  }

  method DirectIncludes(includes: seq<Include>) returns (g: Graph)
    ensures Collected(g, includes, |includes|)
    ensures (forall k :: 0 <= k < |includes| ==> Balanced(includes[k].condition)) ==> BalancedGraph(g)
  {
    var direct: map<FileId, seq<FileId>> := map[];
    var conditions: map<(FileId, FileId), string> := map[];
    for n := 0 to |includes|
      invariant Collected(Graph(direct, conditions), includes, n)
      invariant (forall k :: 0 <= k < |includes| ==> Balanced(includes[k].condition)) ==>
                BalancedGraph(Graph(direct, conditions))
    {
      var i := includes[n];
      CollectedAdd(Graph(direct, conditions), includes, n);
      if i.target == 0 {
        continue;
      }
      direct := direct[i.file := (if i.file in direct then direct[i.file] else []) + [i.target]];
      conditions := conditions[(i.file, i.target) := i.condition];
    }
    g := Graph(direct, conditions);
  }

  /** joinConditions: the conjunction of two conditions, of which "" is always true. */
  function JoinConditions(left: string, right: string): string {
    if left == "" then right
    else if right == "" || right == left then left
    else Conjunction(left, right)
  }

  /** The condition gathered along a path. */
  ghost function Along(g: Graph, s: FileId, path: seq<FileId>): string
    decreases |path|
  {
    if path == [] then ""
    else
      var n := |path| - 1;
      JoinConditions(Along(g, s, path[..n]), EdgeCondition(g, Before(s, path), path[n]))
  }

  lemma JoinHolds(left: string, right: string, holds: string -> bool)
    requires Lawful(holds) && Balanced(left) && Balanced(right)
    ensures holds(JoinConditions(left, right)) == (holds(left) && holds(right)) && Balanced(JoinConditions(left, right))
  {
    BalancedConjunction(left, right);
  }

  /** Every condition has balanced parentheses, as conditions recorded from balanced #if expressions have. */
  ghost predicate BalancedGraph(g: Graph) {
    forall e :: e in g.conditions ==> Balanced(g.conditions[e])
  }

  lemma BalancedEdge(g: Graph, u: FileId, v: FileId)
    requires BalancedGraph(g)
    ensures Balanced(EdgeCondition(g, u, v))
  {
    PlainBalanced("", 0);
  }

  /** The condition of the k-th edge of a path. */
  ghost predicate EdgeHolds(g: Graph, s: FileId, path: seq<FileId>, k: nat, holds: string -> bool)
    requires k < |path|
  {
    holds(EdgeCondition(g, if k == 0 then s else path[k - 1], path[k]))
  }

  /** The gathered condition is the conjunction of the conditions of the edges on the path. */
  lemma {:induction false} AlongIsConjunction(g: Graph, s: FileId, path: seq<FileId>, holds: string -> bool)
    requires Lawful(holds) && BalancedGraph(g)
    ensures Balanced(Along(g, s, path))
    ensures holds(Along(g, s, path)) <==> forall k :: 0 <= k < |path| ==> EdgeHolds(g, s, path, k, holds)
    decreases |path|
  {
    if path == [] {
      PlainBalanced("", 0);
    } else {
      var n := |path| - 1;
      AlongIsConjunction(g, s, path[..n], holds);
      BalancedEdge(g, Before(s, path), path[n]);
      JoinHolds(Along(g, s, path[..n]), EdgeCondition(g, Before(s, path), path[n]), holds);
      assert EdgeHolds(g, s, path, n, holds) == holds(EdgeCondition(g, Before(s, path), path[n]));
      forall k | 0 <= k < n ensures EdgeHolds(g, s, path, k, holds) == EdgeHolds(g, s, path[..n], k, holds) {
      }
    }
  }

  // ----- the search from one file -----

  function Get(c: map<FileId, string>, v: FileId): string {
    if v in c then c[v] else ""
  }

  /** Each distance is the length of a walk that gathers the recorded condition. */
  ghost predicate Traced(g: Graph, s: FileId, d: map<FileId, nat>, c: map<FileId, string>,
                         p: map<FileId, seq<FileId>>) {
    && s in d && d[s] == 0 && d.Keys == p.Keys
    && forall v :: v in d ==> Walk(Edge(g), s, p[v], v) && |p[v]| == d[v] && Get(c, v) == Along(g, s, p[v])
  }

  /** The queue is ordered by distance, and no distance exceeds `base` by more than one. */
  ghost predicate Layered(d: map<FileId, nat>, queue: seq<FileId>, base: nat) {
    && (forall k :: 0 <= k < |queue| ==> queue[k] in d && base <= d[queue[k]])
    && (forall j, k :: 0 <= j < k < |queue| ==> d[queue[j]] <= d[queue[k]])
    && (forall v :: v in d ==> d[v] <= base + 1)
  }

  /** Every file outside `pending` has passed its distance on. */
  ghost predicate Expanded(g: Graph, d: map<FileId, nat>, pending: seq<FileId>) {
    forall u, v :: u in d && u !in pending && v in Succ(g, u) ==> v in d && d[v] <= d[u] + 1
  }

  lemma TracedAdd(g: Graph, s: FileId, d: map<FileId, nat>, c: map<FileId, string>, p: map<FileId, seq<FileId>>,
                  u: FileId, v: FileId)
    requires Traced(g, s, d, c, p) && u in d && v !in d && v in Succ(g, u)
    ensures Traced(g, s, d[v := d[u] + 1], c[v := JoinConditions(Get(c, u), EdgeCondition(g, u, v))],
                   p[v := p[u] + [v]])
  {
    WalkExtends(Edge(g), s, p[u], u, v);
    var path := p[u] + [v];
    assert path[..|p[u]|] == p[u] && Before(s, path) == u;
  }

  lemma LayeredAdd(d: map<FileId, nat>, queue: seq<FileId>, base: nat, v: FileId)
    requires Layered(d, queue, base) && v !in d
    ensures Layered(d[v := base + 1], queue + [v], base)
  {
    var d', q' := d[v := base + 1], queue + [v];
    forall k | 0 <= k < |q'| ensures q'[k] in d' && base <= d'[q'[k]] <= base + 1 {
      if k < |queue| {
        assert q'[k] == queue[k];
      }
    }
    forall j, k | 0 <= j < k < |q'| ensures d'[q'[j]] <= d'[q'[k]] {
      assert q'[j] == queue[j];
      if k < |queue| {
        assert q'[k] == queue[k];
      }
    }
  }

  lemma Pop(g: Graph, d: map<FileId, nat>, queue: seq<FileId>, base: nat)
    requires Layered(d, queue, base) && queue != [] && Expanded(g, d, queue)
    ensures Layered(d, queue[1..], d[queue[0]]) && Expanded(g, d, [queue[0]] + queue[1..])
  {
    assert [queue[0]] + queue[1..] == queue;
  }

  lemma Initially(g: Graph, s: FileId)
    ensures Traced(g, s, map[s := 0], map[], map[s := []]) && Layered(map[s := 0], [s], 0)
    ensures Expanded(g, map[s := 0], [s])
  {
  }

  lemma ExpandedAdd(g: Graph, d: map<FileId, nat>, u: FileId, queue: seq<FileId>, v: FileId, n: nat)
    requires Expanded(g, d, [u] + queue) && v !in d
    ensures Expanded(g, d[v := n], [u] + (queue + [v]))
  {
    var d' := d[v := n];
    forall x, y | x in d' && x !in [u] + (queue + [v]) && y in Succ(g, x) ensures y in d' && d'[y] <= d'[x] + 1 {
      assert v in [u] + (queue + [v]);
      assert x !in [u] + queue;
    }
  }

  lemma ExpandedDone(g: Graph, d: map<FileId, nat>, u: FileId, queue: seq<FileId>, base: nat)
    requires Expanded(g, d, [u] + queue) && Layered(d, queue, base) && u in d && d[u] == base
    requires forall v :: v in Succ(g, u) ==> v in d
    ensures Expanded(g, d, queue)
  {
  }

  /** Files that can be met from `s`. */
  ghost function Universe(g: Graph, s: FileId): set<FileId> {
    {s} + set u, k | u in g.direct && 0 <= k < |g.direct[u]| :: g.direct[u][k]
  }

  /** The distances are exactly the shortest walk lengths, each with the condition of one shortest walk. */
  ghost predicate Shortest(g: Graph, s: FileId, d: map<FileId, nat>, c: map<FileId, string>) {
    && (forall t :: t in d <==> Reaches(Edge(g), s, t))
    && (forall t, path :: t in d && Walk(Edge(g), s, path, t) ==> d[t] <= |path|)
    && (forall t :: t in d ==>
          exists path :: Walk(Edge(g), s, path, t) && |path| == d[t] && Get(c, t) == Along(g, s, path))
  }

  lemma {:induction false} WalkBound(g: Graph, s: FileId, d: map<FileId, nat>, path: seq<FileId>, t: FileId)
    requires Expanded(g, d, []) && s in d && d[s] == 0 && Walk(Edge(g), s, path, t)
    ensures t in d && d[t] <= |path|
    decreases |path|
  {
    if path != [] {
      WalkBound(g, s, d, path[..|path| - 1], Before(s, path));
    }
  }

  lemma ExpandedIsShortest(g: Graph, s: FileId, d: map<FileId, nat>, c: map<FileId, string>,
                           p: map<FileId, seq<FileId>>)
    requires Traced(g, s, d, c, p) && Expanded(g, d, [])
    ensures Shortest(g, s, d, c)
  {
    forall t, path | Walk(Edge(g), s, path, t) ensures t in d && d[t] <= |path| {
      WalkBound(g, s, d, path, t);
    }
    forall t | t in d ensures Reaches(Edge(g), s, t) {
      assert Walk(Edge(g), s, p[t], t);
    }
  }

  lemma Shrinks(universe: set<FileId>, known: set<FileId>, keys: set<FileId>)
    requires known <= keys <= universe
    ensures keys == known || |universe - keys| < |universe - known|
  {
    SubsetSize(universe - keys, universe - known);
  }

  /** The inner loop: the files that `current` includes. */
  method Expand(g: Graph, source: FileId, current: FileId, distance0: map<FileId, nat>,
                condition0: map<FileId, string>, queue0: seq<FileId>, ghost paths0: map<FileId, seq<FileId>>)
    returns (distance: map<FileId, nat>, condition: map<FileId, string>, queue: seq<FileId>,
             ghost paths: map<FileId, seq<FileId>>)
    requires Traced(g, source, distance0, condition0, paths0)
    requires current in distance0 && Layered(distance0, queue0, distance0[current])
    requires Expanded(g, distance0, [current] + queue0)
    ensures Traced(g, source, distance, condition, paths)
    ensures Layered(distance, queue, distance0[current]) && Expanded(g, distance, queue)
    ensures distance0.Keys <= distance.Keys <= distance0.Keys + Universe(g, source)
    ensures distance.Keys == distance0.Keys ==> queue == queue0
  {
    distance, condition, queue, paths := distance0, condition0, queue0, paths0;
    var next := Succ(g, current);
    for j := 0 to |next|
      invariant Traced(g, source, distance, condition, paths)
      invariant current in distance && distance[current] == distance0[current]
      invariant Layered(distance, queue, distance[current])
      invariant Expanded(g, distance, [current] + queue)
      invariant forall k :: 0 <= k < j ==> next[k] in distance
      invariant distance0.Keys <= distance.Keys <= distance0.Keys + Universe(g, source)
      invariant distance.Keys == distance0.Keys ==> queue == queue0
    {
      var candidateDistance := distance[current] + 1;
      if next[j] in distance && distance[next[j]] <= candidateDistance {
        continue;
      }
      TracedAdd(g, source, distance, condition, paths, current, next[j]);
      LayeredAdd(distance, queue, distance[current], next[j]);
      ExpandedAdd(g, distance, current, queue, next[j], candidateDistance);
      assert next[j] in Universe(g, source) by { assert current in g.direct && g.direct[current][j] == next[j]; }
      condition := condition[next[j] := JoinConditions(Get(condition, current), EdgeCondition(g, current, next[j]))];
      distance := distance[next[j] := candidateDistance];
      paths := paths[next[j] := paths[current] + [next[j]]];
      queue := queue + [next[j]];
    }
    ExpandedDone(g, distance, current, queue, distance[current]);
  }

  /** Breadth-first search. A file is met again only at no smaller distance, so each is queued once. */
  method IncludeDistances(g: Graph, source: FileId) returns (distance: map<FileId, nat>, condition: map<FileId, string>)
    ensures Shortest(g, source, distance, condition)
  {
    distance, condition := map[source := 0], map[];
    var queue := [source];
    ghost var paths: map<FileId, seq<FileId>> := map[source := []];
    ghost var base: nat := 0;
    ghost var universe := Universe(g, source);
    Initially(g, source);
    while |queue| > 0
      invariant Traced(g, source, distance, condition, paths)
      invariant Layered(distance, queue, base) && Expanded(g, distance, queue)
      invariant distance.Keys <= universe
      decreases |universe - distance.Keys|, |queue|
    {
      var current := queue[0];
      Pop(g, distance, queue, base);
      base := distance[current];
      ghost var known := distance.Keys;
      distance, condition, queue, paths := Expand(g, source, current, distance, condition, queue[1..], paths);
      Shrinks(universe, known, distance.Keys);
    }
    assert queue == [];
    ExpandedIsShortest(g, source, distance, condition, paths);
  }

  // ----- the rows written -----

  datatype Row = Row(file: FileId, target: FileId, distance: nat, condition: string)

  /** The row for a reachable file: the least number of steps, and the condition of one walk with that many. */
  ghost predicate IsRow(g: Graph, row: Row) {
    && row.target != row.file
    && (forall path :: Walk(Edge(g), row.file, path, row.target) ==> row.distance <= |path|)
    && exists path :: Walk(Edge(g), row.file, path, row.target) && |path| == row.distance
                      && row.condition == Along(g, row.file, path)
  }

  /** A row's condition holds exactly when every include on one shortest walk to its target does. */
  lemma RowMeaning(g: Graph, row: Row, holds: string -> bool) returns (path: seq<FileId>)
    requires IsRow(g, row) && Lawful(holds) && BalancedGraph(g)
    ensures Walk(Edge(g), row.file, path, row.target) && |path| == row.distance
    ensures holds(row.condition) <==> forall k :: 0 <= k < |path| ==> EdgeHolds(g, row.file, path, k, holds)
  {
    path :| Walk(Edge(g), row.file, path, row.target) && |path| == row.distance
            && row.condition == Along(g, row.file, path);
    AlongIsConjunction(g, row.file, path, holds);
  }

  /** Exactly one row for each other file that `source` reaches, by ascending target. */
  ghost predicate RowsOf(g: Graph, source: FileId, rows: seq<Row>) {
    && (forall k :: 0 <= k < |rows| ==> rows[k].file == source && IsRow(g, rows[k]))
    && (forall j, k :: 0 <= j < k < |rows| ==> rows[j].target < rows[k].target)
    && (forall t :: Reaches(Edge(g), source, t) && t != source ==> exists k :: 0 <= k < |rows| && rows[k].target == t)
  }

  lemma RowsComplete(g: Graph, source: FileId, distance: map<FileId, nat>, condition: map<FileId, string>,
                     targets: seq<FileId>, rows: seq<Row>)
    requires Shortest(g, source, distance, condition) && Ascending(targets)
    requires forall t :: t in targets <==> t in distance && t != source
    requires |rows| == |targets|
    requires forall k :: 0 <= k < |rows| ==>
               && targets[k] in distance
               && rows[k] == Row(source, targets[k], distance[targets[k]], Get(condition, targets[k]))
    ensures RowsOf(g, source, rows)
  {
    forall k | 0 <= k < |rows| ensures rows[k].file == source && IsRow(g, rows[k]) {
      assert targets[k] in targets;
    }
    forall t | Reaches(Edge(g), source, t) && t != source ensures exists k :: 0 <= k < |rows| && rows[k].target == t {
      assert t in targets;
      var k :| 0 <= k < |targets| && targets[k] == t;
      assert rows[k].target == t;
    }
  }

  method EdgesFrom(g: Graph, source: FileId) returns (rows: seq<Row>)
    ensures RowsOf(g, source, rows)
  {
    var distance, condition := IncludeDistances(g, source);
    var targets := SortSet(distance.Keys - {source});
    rows := [];
    for k := 0 to |targets|
      invariant |rows| == k
      invariant forall j :: 0 <= j < k ==>
                  && targets[j] in distance
                  && rows[j] == Row(source, targets[j], distance[targets[j]], Get(condition, targets[j]))
    {
      assert targets[k] in targets;
      rows := rows + [Row(source, targets[k], distance[targets[k]], Get(condition, targets[k]))];
    }
    RowsComplete(g, source, distance, condition, targets, rows);
  }

  /** The whole table: the rows of each file in turn. */
  method RebuildIncludeEdges(files: seq<FileId>, includes: seq<Include>) returns (g: Graph, rows: seq<seq<Row>>)
    ensures Collected(g, includes, |includes|)
    ensures |rows| == |files| && forall k :: 0 <= k < |files| ==> RowsOf(g, files[k], rows[k])
    ensures (forall k :: 0 <= k < |includes| ==> Balanced(includes[k].condition)) ==> BalancedGraph(g)
  {
    g := DirectIncludes(includes);
    rows := [];
    for k := 0 to |files|
      invariant |rows| == k && forall j :: 0 <= j < k ==> RowsOf(g, files[j], rows[j])
    {
      var more := EdgesFrom(g, files[k]);
      rows := rows + [more];
    }
  }
}
