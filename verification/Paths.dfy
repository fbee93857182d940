/** Paths and reachability in a finite directed graph, given as its set of edges.
    Every traversal of the models is specified against these definitions. */
module Paths {

  type Graph<T(==)> = set<(T, T)>

  ghost predicate IsPath<T>(g: Graph<T>, p: seq<T>) {
    |p| > 0 && forall i | 0 <= i < |p| - 1 :: (p[i], p[i + 1]) in g
  }

  ghost predicate PathBetween<T>(g: Graph<T>, p: seq<T>, a: T, b: T) {
    IsPath(g, p) && p[0] == a && p[|p| - 1] == b
  }

  /** b can be reached from a along zero or more edges. */
  ghost predicate Reaches<T(!new)>(g: Graph<T>, a: T, b: T) {
    exists p: seq<T> :: PathBetween(g, p, a, b)
  }

  /** b can be reached from a along at least one edge. */
  ghost predicate ReachesVia<T(!new)>(g: Graph<T>, a: T, b: T) {
    exists p: seq<T> :: PathBetween(g, p, a, b) && |p| >= 2
  }

  ghost predicate Acyclic<T(!new)>(g: Graph<T>) {
    forall a :: !ReachesVia(g, a, a)
  }

  lemma ReachesSelf<T(!new)>(g: Graph<T>, a: T)
    ensures Reaches(g, a, a)
  {
    assert PathBetween(g, [a], a, a);
  }

  lemma ReachesJoin<T(!new)>(g: Graph<T>, a: T, b: T, c: T)
    requires Reaches(g, a, b) && Reaches(g, b, c)
    ensures Reaches(g, a, c)
    ensures ReachesVia(g, a, b) || ReachesVia(g, b, c) ==> ReachesVia(g, a, c)
  {
    var p :| PathBetween(g, p, a, b) && (ReachesVia(g, a, b) ==> |p| >= 2);
    var q :| PathBetween(g, q, b, c) && (ReachesVia(g, b, c) ==> |q| >= 2);
    var r := p + q[1..];
    assert PathBetween(g, r, a, c);
  }

  lemma EdgeReaches<T(!new)>(g: Graph<T>, a: T, b: T)
    requires (a, b) in g
    ensures ReachesVia(g, a, b) && Reaches(g, a, b)
  {
    assert PathBetween(g, [a, b], a, b);
  }

  /** A set closed under the edges keeps every path that starts in it. */
  lemma {:induction false} ClosedKeepsPath<T>(g: Graph<T>, s: set<T>, p: seq<T>)
    requires IsPath(g, p) && p[0] in s
    requires forall e | e in g && e.0 in s :: e.1 in s
    ensures p[|p| - 1] in s
  {
    if |p| > 1 {
      assert (p[0], p[1]) in g;
      ClosedKeepsPath(g, s, p[1..]);
    }
  }

  lemma ClosedKeepsReach<T(!new)>(g: Graph<T>, s: set<T>, a: T)
    requires a in s
    requires forall e | e in g && e.0 in s :: e.1 in s
    ensures forall b | Reaches(g, a, b) :: b in s
  {
    forall b | Reaches(g, a, b) ensures b in s {
      var p :| PathBetween(g, p, a, b);
      ClosedKeepsPath(g, s, p);
    }
  }

  /** Dual: a set closed under predecessors contains every node that reaches it. */
  lemma {:induction false} BackClosedKeepsPath<T>(g: Graph<T>, s: set<T>, p: seq<T>)
    requires IsPath(g, p) && p[|p| - 1] in s
    requires forall e | e in g && e.1 in s :: e.0 in s
    ensures p[0] in s
  {
    if |p| > 1 {
      assert (p[0], p[1]) in g;
      BackClosedKeepsPath(g, s, p[1..]);
    }
  }

  /** If every edge goes to a strictly smaller rank, there is no cycle. */
  lemma RankedIsAcyclic<T(!new)>(g: Graph<T>, rank: map<T, nat>)
    requires forall e | e in g :: e.0 in rank && e.1 in rank && rank[e.1] < rank[e.0]
    ensures Acyclic(g)
  {
    forall a | ReachesVia(g, a, a) ensures false {
      var p :| PathBetween(g, p, a, a) && |p| >= 2;
      RankDrops(g, rank, p);
    }
  }

  lemma {:induction false} RankDrops<T>(g: Graph<T>, rank: map<T, nat>, p: seq<T>)
    requires forall e | e in g :: e.0 in rank && e.1 in rank && rank[e.1] < rank[e.0]
    requires IsPath(g, p) && |p| >= 2
    ensures p[0] in rank && p[|p| - 1] in rank && rank[p[|p| - 1]] < rank[p[0]]
  {
    assert (p[0], p[1]) in g;
    if |p| > 2 {
      RankDrops(g, rank, p[1..]);
    }
  }

  /** A subgraph of an acyclic graph is acyclic. */
  lemma SubgraphAcyclic<T(!new)>(g: Graph<T>, h: Graph<T>)
    requires h <= g && Acyclic(g)
    ensures Acyclic(h)
  {
    forall a | ReachesVia(h, a, a) ensures false {
      var p :| PathBetween(h, p, a, a) && |p| >= 2;
      assert PathBetween(g, p, a, a);
      assert ReachesVia(g, a, a);
    }
  }

  ghost predicate HasSuccessor<T(!new)>(g: Graph<T>, t: set<T>, y: T) {
    exists z :: z in t && (y, z) in g
  }

  /** A nonempty set in which every node has a successor holds a cycle; `p` is a path inside it. */
  lemma {:induction false} NoSinkMeansCycle<T(!new)>(g: Graph<T>, t: set<T>, p: seq<T>) returns (x: T)
    requires IsPath(g, p) && forall y | y in p :: y in t
    requires forall y | y in t :: HasSuccessor(g, t, y)
    ensures x in t && ReachesVia(g, x, x)
    decreases t - (set y | y in p)
  {
    var last := p[|p| - 1];
    assert last in p && HasSuccessor(g, t, last);
    var z :| z in t && (last, z) in g;
    var longer := p + [z];
    if z in p {
      var i :| 0 <= i < |p| && p[i] == z;
      assert PathBetween(g, longer[i..], z, z);
      x := z;
    } else {
      assert z in longer && z !in (set y | y in p);
      assert forall y | y in p :: y in longer;
      assert forall y | y in longer :: y == z || y in p;
      assert z in t - (set y | y in p);
      x := NoSinkMeansCycle(g, t, longer);
    }
  }
}
