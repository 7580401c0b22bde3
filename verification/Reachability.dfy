/** Walks in a directed graph, the reference against which every traversal in the
    project is judged, and the two counting facts their termination rests on. */
module Reachability {

  /** `path` lists the nodes visited after `s`; the walk ends in `t`. */
  ghost predicate Walk<T(!new)>(edge: (T, T) -> bool, s: T, path: seq<T>, t: T)
    decreases |path|
  {
    if path == [] then s == t
    else
      var n := |path| - 1;
      path[n] == t && edge(Before(s, path), t) && Walk(edge, s, path[..n], Before(s, path))
  }

  /** The node from which the last step of a nonempty walk is taken. */
  ghost function Before<T>(s: T, path: seq<T>): T
    requires path != []
  {
    if |path| == 1 then s else path[|path| - 2]
  }

  ghost predicate Reaches<T(!new)>(edge: (T, T) -> bool, s: T, t: T) {
    exists path :: Walk(edge, s, path, t)
  }

  /** The node before the k-th one. */
  ghost function Prior<T>(s: T, path: seq<T>, k: nat): T
    requires k < |path|
  {
    if k == 0 then s else path[k - 1]
  }

  /** Step by step: from `s` to the first node, from each node to the next, and `t` is the last. */
  ghost predicate Steps<T(!new)>(edge: (T, T) -> bool, s: T, path: seq<T>, t: T) {
    && (forall k :: 0 <= k < |path| ==> edge(Prior(s, path, k), path[k]))
    && t == if path == [] then s else path[|path| - 1]
  }

  lemma {:induction false} WalkIs<T(!new)>(edge: (T, T) -> bool, s: T, path: seq<T>, t: T)
    ensures Walk(edge, s, path, t) <==> Steps(edge, s, path, t)
    decreases |path|
  {
    if path != [] {
      var n := |path| - 1;
      var init := path[..n];
      WalkIs(edge, s, init, Before(s, path));
      assert forall k :: 0 <= k < n ==> Prior(s, init, k) == Prior(s, path, k) && init[k] == path[k];
      assert Before(s, path) == Prior(s, path, n);
    }
  }

  lemma WalkExtends<T(!new)>(edge: (T, T) -> bool, s: T, path: seq<T>, m: T, t: T)
    requires Walk(edge, s, path, m) && edge(m, t)
    ensures Walk(edge, s, path + [t], t)
  {
    assert (path + [t])[..|path|] == path;
    assert Before(s, path + [t]) == m;
  }

  lemma ReachesSelf<T(!new)>(edge: (T, T) -> bool, s: T)
    ensures Reaches(edge, s, s)
  {
    assert Walk(edge, s, [], s);
  }

  lemma ReachesExtends<T(!new)>(edge: (T, T) -> bool, s: T, m: T, t: T)
    requires Reaches(edge, s, m) && edge(m, t)
    ensures Reaches(edge, s, t)
  {
    var path :| Walk(edge, s, path, m);
    WalkExtends(edge, s, path, m, t);
  }

  lemma {:induction false} ClosedHoldsWalk<T(!new)>(edge: (T, T) -> bool, s: T, path: seq<T>, t: T, closed: set<T>)
    requires Walk(edge, s, path, t) && s in closed
    requires forall u, v :: u in closed && edge(u, v) ==> v in closed
    ensures t in closed
    decreases |path|
  {
    if path != [] {
      ClosedHoldsWalk(edge, s, path[..|path| - 1], Before(s, path), closed);
    }
  }

  /** A set that holds the source and every successor of its members holds all that is reachable. */
  lemma ClosedHoldsReachable<T(!new)>(edge: (T, T) -> bool, s: T, t: T, closed: set<T>)
    requires Reaches(edge, s, t) && s in closed
    requires forall u, v :: u in closed && edge(u, v) ==> v in closed
    ensures t in closed
  {
    var path :| Walk(edge, s, path, t);
    ClosedHoldsWalk(edge, s, path, t, closed);
  }

  lemma {:induction false} SubsetSize<T>(a: set<T>, b: set<T>)
    requires a <= b
    ensures |a| <= |b|
    ensures |a| == |b| ==> a == b
  {
    if a != {} {
      var x :| x in a;
      SubsetSize(a - {x}, b - {x});
    }
  }

  /** Offsets into a buffer of length n are at most n many. */
  lemma {:induction false} OffsetsBounded(a: set<int>, n: nat)
    requires forall p :: p in a ==> 0 <= p < n
    ensures |a| <= n
  {
    if n == 0 {
      assert forall p :: p !in a;
    } else {
      OffsetsBounded(a - {n - 1}, n - 1);
    }
  }

  lemma {:induction false} PrefixCounted(a: set<int>, n: nat)
    requires forall p :: 0 <= p < n ==> p in a
    ensures |a| >= n
  {
    if n > 0 {
      PrefixCounted(a - {n - 1}, n - 1);
    }
  }
}
