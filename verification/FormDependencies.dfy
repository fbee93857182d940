/** The cycle check of form schemas: a depth-first walk over field dependencies
    (asoud_erp/services/form_schema.py:338-362 for the columns of a table or the fields
    of a form, 437-450 for the fields of a form with their rules). */
module FormDependencies {
  import opened Paths

  type Key = string
  type Dependencies = map<Key, set<Key>>

  ghost function Edges(graph: Dependencies): (g: Graph<Key>)
  {
    set k, d | k in graph && d in graph[k] :: (k, d)
  }

  /** Every dependency names a field. */
  ghost predicate Closed(graph: Dependencies) {
    forall k, d | k in graph && d in graph[k] :: d in graph
  }

  /** The walk: `active` holds the fields whose visit is under way, `finished` those done.
      The two ghost fields remember the order in which they entered. */
  class Walk {
    const graph: Dependencies
    var active: set<Key>
    var finished: set<Key>
    ghost var stack: seq<Key>     // `active`, outermost visit first
    ghost var order: seq<Key>     // `finished`, first finished first

    constructor (graph: Dependencies)
      ensures this.graph == graph && Valid() && active == {} && finished == {} && stack == []
    {
      this.graph := graph;
      active, finished, stack, order := {}, {}, [], [];
    }

    ghost predicate Valid()
      reads this
    {
      && active == (set i | 0 <= i < |stack| :: stack[i])
      && finished == (set i | 0 <= i < |order| :: order[i])
      && active !! finished && active <= graph.Keys && finished <= graph.Keys
      && (forall i | 0 <= i < |stack| - 1 :: (stack[i], stack[i + 1]) in Edges(graph))
      && (forall i, d | 0 <= i < |order| && d in graph[order[i]] :: d in order[..i])
    }

    /** True when the visit completes; false stands for the raised error, and then the graph
        really has a cycle or names an unknown field. */
    method Visit(key: Key) returns (ok: bool)
      requires Valid()
      requires |stack| > 0 ==> (stack[|stack| - 1], key) in Edges(graph)
      modifies this
      ensures ok ==> Valid() && active == old(active) && stack == old(stack)
      ensures ok ==> key in finished && old(finished) <= finished
      ensures !ok ==> !Acyclic(Edges(graph)) || !Closed(graph) || key !in graph
      decreases graph.Keys - active
    {
      if key !in graph {
        return false;
      }
      if key in active {
        ghost var i :| 0 <= i < |stack| && stack[i] == key;
        assert PathBetween(Edges(graph), stack[i..] + [key], key, key);
        assert ReachesVia(Edges(graph), key, key);
        return false;
      }
      if key in finished {
        return true;
      }
      ghost var outer, done := stack, finished;
      active := active + {key};
      stack := stack + [key];
      assert stack[|stack| - 1] == key && stack[..|outer|] == outer;
      assert active == (set i | 0 <= i < |stack| :: stack[i]) by {
        assert forall i | 0 <= i < |outer| :: stack[i] == outer[i];
      }
      var deps := graph[key];
      while deps != {}
        invariant deps <= graph[key]
        invariant Valid() && stack == outer + [key] && active == old(active) + {key}
        invariant done <= finished
        invariant graph[key] - deps <= finished
        decreases deps
      {
        var dep :| dep in deps;
        assert (key, dep) in Edges(graph);
        ok := Visit(dep);
        if !ok {
          return false;
        }
        deps := deps - {dep};
      }
      Leave(outer, key);
      return true;
    }

    /** The end of a visit: `key` moves from the active to the finished fields. */
    method Leave(ghost outer: seq<Key>, key: Key)
      requires Valid() && stack == outer + [key] && key in graph && key !in outer
      requires graph[key] <= finished
      modifies this
      ensures Valid() && stack == outer && active == old(active) - {key}
      ensures finished == old(finished) + {key}
    {
      ghost var before := order;
      active := active - {key};
      stack := outer;
      finished := finished + {key};
      order := order + [key];
      assert forall i | 0 <= i < |before| :: order[i] == before[i] && order[..i] == before[..i];
      assert order[..|before|] == before;
      assert old(stack)[..|outer|] == outer;
      assert forall i | 0 <= i < |outer| :: old(stack)[i] == outer[i];
      assert finished == (set i | 0 <= i < |order| :: order[i]) by {
        assert order[|before|] == key;
      }
    }
  }

  /** A completed walk leaves a topological order, hence no cycle. */
  lemma OrderedIsAcyclic(graph: Dependencies, order: seq<Key>)
    requires graph.Keys <= (set i | 0 <= i < |order| :: order[i])
    requires forall i | 0 <= i < |order| :: order[i] in graph
    requires forall i, d | 0 <= i < |order| && d in graph[order[i]] :: d in order[..i]
    ensures Acyclic(Edges(graph)) && Closed(graph)
  {
    var rank: map<Key, nat> := map k | k in graph :: FirstIndex(order, k);
    forall k, d | k in graph && d in graph[k]
      ensures d in graph && rank[d] < rank[k]
    {
      var i := FirstIndex(order, k);
      assert d in order[..i];
      var j :| 0 <= j < i && order[j] == d;
    }
    RankedIsAcyclic(Edges(graph), rank);
  }

  ghost function FirstIndex(order: seq<Key>, k: Key): (i: nat)
    ensures k in order ==> i < |order| && order[i] == k && k !in order[..i]
    ensures forall j | 0 <= j < |order| && order[j] == k :: i <= j
  {
    if order == [] || order[0] == k then 0 else
      var i := 1 + FirstIndex(order[1..], k);
      assert i <= |order| ==> order[..i] == [order[0]] + order[1..][..i - 1];
      assert forall j | 1 <= j < |order| :: order[j] == order[1..][j - 1];
      i
  }

  /** The whole check: a schema is accepted exactly when its dependency graph is closed and
      has no cycle. The fields are taken in any order. */
  method AcceptsDependencies(graph: Dependencies) returns (ok: bool)
    ensures ok <==> Acyclic(Edges(graph)) && Closed(graph)
  {
    var walk := new Walk(graph);
    var todo := graph.Keys;
    while todo != {}
      invariant walk.Valid() && walk.stack == [] && walk.active == {} && walk.graph == graph
      invariant todo <= graph.Keys && graph.Keys - todo <= walk.finished
      invariant fresh(walk)
      decreases todo
    {
      var key :| key in todo;
      var visited := walk.Visit(key);
      if !visited {
        return false;
      }
      todo := todo - {key};
    }
    OrderedIsAcyclic(graph, walk.order);
    return true;
  }

  lemma OneEdgeIsNoCycle(graph: Dependencies, from: Key, to: Key)
    requires from != to && to in graph
    requires forall k, d | k in graph && d in graph[k] :: k == from && d == to
    ensures Acyclic(Edges(graph)) && Closed(graph)
  {
    RankedIsAcyclic(Edges(graph), map[from := 1, to := 0]);
  }

  lemma PairIsCycle(graph: Dependencies, a: Key, b: Key)
    requires a in graph && b in graph && b in graph[a] && a in graph[b]
    ensures !Acyclic(Edges(graph))
  {
    var g := Edges(graph);
    assert (a, b) in g && (b, a) in g;
    assert PathBetween(g, [a, b, a], a, a);
    assert ReachesVia(g, a, a);
  }
}
