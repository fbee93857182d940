/** The stages whose outputs an automatic action may use, and the type of an output followed
    through target stages (asoud_erp/services/automatic_action_metadata.py:116-158). */
module PriorStages {
  import opened Basics
  import opened Paths

  type StageId = string

  function Reversed(edges: seq<(StageId, StageId)>): (r: seq<(StageId, StageId)>)
    ensures |r| == |edges|
  {
    seq(|edges|, i requires 0 <= i < |edges| => (edges[i].1, edges[i].0))
  }

  function EdgeSet(edges: seq<(StageId, StageId)>): Graph<StageId> {
    set e | e in edges
  }

  /** The stages reached from `start` along at least one edge. */
  method Reachable(edges: seq<(StageId, StageId)>, start: StageId) returns (seen: set<StageId>)
    ensures forall n :: n in seen <==> ReachesVia(EdgeSet(edges), start, n)
  {
    ghost var g := EdgeSet(edges);
    ghost var targets := set e | e in edges :: e.1;
    seen := {};
    var pending := [start];
    while pending != []
      invariant seen <= targets
      invariant forall n | n in pending :: n == start || n in seen
      invariant forall n | n in seen :: ReachesVia(g, start, n)
      invariant forall e | e in g && (e.0 in seen || e.0 == start) :: e.1 in seen || e.0 in pending
      decreases targets - seen, |pending|
    {
      var current := pending[|pending| - 1];
      ghost var before := pending;
      pending := pending[..|pending| - 1];
      assert forall n | n in before :: n == current || n in pending;
      seen, pending := Expand(edges, start, current, seen, pending);
    }
    SeenIsAll(edges, start, seen);
  }

  /** The inner loop: the new neighbours of one stage are seen and pending. */
  method Expand(edges: seq<(StageId, StageId)>, ghost start: StageId, current: StageId, seen0: set<StageId>,
                pending0: seq<StageId>)
    returns (seen: set<StageId>, pending: seq<StageId>)
    requires current == start || ReachesVia(EdgeSet(edges), start, current)
    requires forall n | n in seen0 :: ReachesVia(EdgeSet(edges), start, n)
    ensures seen0 <= seen && forall n | n in seen :: ReachesVia(EdgeSet(edges), start, n)
    ensures forall e | e in edges && e.0 == current :: e.1 in seen
    ensures forall n :: n in pending <==> n in pending0 || (n in seen && n !in seen0)
    ensures seen <= seen0 + (set e | e in edges :: e.1)
    ensures seen == seen0 ==> pending == pending0
  {
    ghost var g := EdgeSet(edges);
    seen, pending := seen0, pending0;
    for i := 0 to |edges|
      invariant seen0 <= seen <= seen0 + (set e | e in edges :: e.1)
      invariant forall n | n in seen :: ReachesVia(g, start, n)
      invariant forall j | 0 <= j < i && edges[j].0 == current :: edges[j].1 in seen
      invariant forall n :: n in pending <==> n in pending0 || (n in seen && n !in seen0)
      invariant seen == seen0 ==> pending == pending0
    {
      var (source, dest) := edges[i];
      if source == current && dest !in seen {
        assert edges[i] in g;
        EdgeReaches(g, current, dest);
        if current != start {
          ViaReaches(g, start, current);
          ReachesJoin(g, start, current, dest);
        }
        seen := seen + {dest};
        pending := pending + [dest];
      }
    }
  }

  lemma ViaReaches(g: Graph<StageId>, a: StageId, b: StageId)
    requires ReachesVia(g, a, b)
    ensures Reaches(g, a, b)
  {
  }

  lemma SeenIsAll(edges: seq<(StageId, StageId)>, start: StageId, seen: set<StageId>)
    requires forall e | e in EdgeSet(edges) && (e.0 in seen || e.0 == start) :: e.1 in seen
    ensures forall n | ReachesVia(EdgeSet(edges), start, n) :: n in seen
  {
    var g := EdgeSet(edges);
    forall n | ReachesVia(g, start, n) ensures n in seen {
      var p :| PathBetween(g, p, start, n) && |p| >= 2;
      assert (p[0], p[1]) in g;
      ClosedKeepsPath(g, seen, p[1..]);
    }
  }

  /** Going backwards is going forwards over the reversed edges. */
  lemma BackwardsIsReversed(edges: seq<(StageId, StageId)>, a: StageId, b: StageId)
    ensures ReachesVia(EdgeSet(Reversed(edges)), a, b) <==> ReachesVia(EdgeSet(edges), b, a)
  {
    assert Reversed(Reversed(edges)) == edges;
    if ReachesVia(EdgeSet(Reversed(edges)), a, b) { ReversePath(Reversed(edges), a, b); }
    if ReachesVia(EdgeSet(edges), b, a) { ReversePath(edges, b, a); }
  }

  lemma ReversePath(edges: seq<(StageId, StageId)>, a: StageId, b: StageId)
    requires ReachesVia(EdgeSet(edges), a, b)
    ensures ReachesVia(EdgeSet(Reversed(edges)), b, a)
  {
    var g, h := EdgeSet(edges), EdgeSet(Reversed(edges));
    var p :| PathBetween(g, p, a, b) && |p| >= 2;
    var q := seq(|p|, i requires 0 <= i < |p| => p[|p| - 1 - i]);
    forall i | 0 <= i < |q| - 1 ensures (q[i], q[i + 1]) in h {
      var j := |p| - 2 - i;
      assert (p[j], p[j + 1]) in g;
      var k :| 0 <= k < |edges| && edges[k] == (p[j], p[j + 1]);
      assert Reversed(edges)[k] == (q[i], q[i + 1]);
    }
    assert PathBetween(h, q, b, a);
  }

  /** x comes before s: it leads to s and s does not lead back. */
  ghost predicate Prior(g: Graph<StageId>, x: StageId, s: StageId) {
    ReachesVia(g, x, s) && !ReachesVia(g, s, x) && x != s
  }

  method PriorStagesOf(edges: seq<(StageId, StageId)>, stage: StageId) returns (prior: set<StageId>)
    ensures forall x :: x in prior <==> Prior(EdgeSet(edges), x, stage)
  {
    var before := Reachable(Reversed(edges), stage);
    var after := Reachable(edges, stage);
    prior := before - after - {stage};
    forall x ensures x in before <==> ReachesVia(EdgeSet(edges), x, stage) {
      BackwardsIsReversed(edges, stage, x);
    }
  }

  lemma ViaJoin(g: Graph<StageId>, a: StageId, b: StageId, c: StageId)
    requires ReachesVia(g, a, b) && ReachesVia(g, b, c)
    ensures ReachesVia(g, a, c)
  {
    ViaReaches(g, a, b);
    ViaReaches(g, b, c);
    ReachesJoin(g, a, b, c);
  }

  /** On any graph, cycles included, "before" is a strict partial order. */
  lemma PriorIsStrictOrder(g: Graph<StageId>, x: StageId, y: StageId, z: StageId)
    ensures !Prior(g, x, x)
    ensures Prior(g, x, y) ==> !Prior(g, y, x)
    ensures Prior(g, x, y) && Prior(g, y, z) ==> Prior(g, x, z)
  {
    if Prior(g, x, y) && Prior(g, y, z) {
      ViaJoin(g, x, y, z);
      if ReachesVia(g, z, x) {
        ViaJoin(g, y, z, x);
      }
    }
  }

  /* ---------- the type of an output ---------- */

  datatype OutputType = NoOutput | Record(doctype: string, requestType: Option<string>)

  /** A stage as the recursion sees it: its output type is known, or it is that of its target. */
  datatype StageRow = Known(output: OutputType) | Follows(target: StageId)

  /** _output_type; None is the raised error: a stage seen before, or outside the workflow. */
  function OutputTypeOf(rows: map<StageId, StageRow>, name: StageId, visited: set<StageId>): Option<OutputType>
    decreases rows.Keys - visited
  {
    if name in visited || name !in rows then None else
      match rows[name]
      case Known(output) => Some(output)
      case Follows(target) => OutputTypeOf(rows, target, visited + {name})
  }

  /** Every target comes before the stage that uses it, as saving an action demands. */
  ghost predicate TargetsArePrior(g: Graph<StageId>, rows: map<StageId, StageRow>) {
    forall name | name in rows && rows[name].Follows? :: rows[name].target in rows && Prior(g, rows[name].target, name)
  }

  /** What following targets without any bookkeeping comes to. */
  ghost predicate Resolves(rows: map<StageId, StageRow>, chain: seq<StageId>, output: OutputType) {
    && chain != [] && (forall i | 0 <= i < |chain| :: chain[i] in rows)
    && (forall i | 0 <= i < |chain| - 1 :: rows[chain[i]] == Follows(chain[i + 1]))
    && rows[chain[|chain| - 1]] == Known(output)
  }

  /** With prior targets only, the recursion never meets a stage twice: it ends at a stage whose
      output is known and gives that output. */
  lemma {:induction false} OutputsResolve(g: Graph<StageId>, rows: map<StageId, StageRow>, name: StageId,
                                          visited: set<StageId>)
    returns (chain: seq<StageId>)
    requires TargetsArePrior(g, rows) && name in rows && name !in visited
    requires forall v | v in visited :: Prior(g, name, v)
    ensures OutputTypeOf(rows, name, visited).Some?
    ensures Resolves(rows, chain, OutputTypeOf(rows, name, visited).value) && chain[0] == name
    decreases rows.Keys - visited
  {
    match rows[name]
    case Known(_) => chain := [name];
    case Follows(target) =>
      forall v | v in visited + {name} ensures Prior(g, target, v) {
        if v != name { PriorIsStrictOrder(g, target, name, v); }
      }
      PriorIsStrictOrder(g, target, target, target);
      var rest := OutputsResolve(g, rows, target, visited + {name});
      chain := [name] + rest;
  }

  /** Targets that are the same from two places of a chain on stay the same. */
  lemma {:induction false} SameFrom(rows: map<StageId, StageRow>, chain: seq<StageId>, output: OutputType, i: nat,
                                    j: nat, k: nat)
    requires Resolves(rows, chain, output) && i <= j && j + k < |chain| && chain[i] == chain[j]
    ensures chain[i + k] == chain[j + k]
  {
    if k > 0 {
      SameFrom(rows, chain, output, i, j, k - 1);
      assert rows[chain[i + k - 1]] == Follows(chain[i + k]) && rows[chain[j + k - 1]] == Follows(chain[j + k]);
    }
  }

  lemma ChainIsSimple(rows: map<StageId, StageRow>, chain: seq<StageId>, output: OutputType)
    requires Resolves(rows, chain, output)
    ensures Distinct(chain)
  {
    forall i, j | 0 <= i < j < |chain| ensures chain[i] != chain[j] {
      if chain[i] == chain[j] {
        var k := |chain| - 1 - j;
        assert rows[chain[i + k]] == Follows(chain[i + k + 1]);
        SameFrom(rows, chain, output, i, j, k);
        assert false;
      }
    }
  }

  lemma {:induction false} FollowsChain(rows: map<StageId, StageRow>, chain: seq<StageId>, output: OutputType,
                                        visited: set<StageId>)
    requires Resolves(rows, chain, output) && Distinct(chain) && forall v | v in chain :: v !in visited
    ensures OutputTypeOf(rows, chain[0], visited) == Some(output)
    decreases |chain|
  {
    assert chain[0] in chain;
    if |chain| > 1 {
      assert rows[chain[0]] == Follows(chain[1]);
      var rest := chain[1..];
      forall v | v in rest ensures v !in visited + {chain[0]} {
        var k :| 0 <= k < |rest| && rest[k] == v;
        assert v == chain[k + 1];
      }
      FollowsChain(rows, rest, output, visited + {chain[0]});
    }
  }

  lemma {:induction false} OutputHasChain(rows: map<StageId, StageRow>, name: StageId, visited: set<StageId>)
    returns (chain: seq<StageId>)
    requires OutputTypeOf(rows, name, visited).Some?
    ensures Resolves(rows, chain, OutputTypeOf(rows, name, visited).value) && chain[0] == name
    decreases rows.Keys - visited
  {
    match rows[name]
    case Known(_) => chain := [name];
    case Follows(target) =>
      var rest := OutputHasChain(rows, target, visited + {name});
      chain := [name] + rest;
  }

  /** On any targets, the recursion answers exactly when following them ends, and with what they end in. */
  lemma OutputExactly(rows: map<StageId, StageRow>, name: StageId, output: OutputType)
    ensures OutputTypeOf(rows, name, {}) == Some(output)
            <==> exists chain :: Resolves(rows, chain, output) && chain[0] == name
  {
    if OutputTypeOf(rows, name, {}) == Some(output) {
      var chain := OutputHasChain(rows, name, {});
    }
    if chain :| Resolves(rows, chain, output) && chain[0] == name {
      ChainIsSimple(rows, chain, output);
      FollowsChain(rows, chain, output, {});
    }
  }
}
