/** The memoised, in-place evaluation of dependent fields (`compute`,
    asoud_erp/services/form_schema.py:792-842, 973-974), over any system of field equations.
    FormFields supplies the equations of a form. */
module FormEvaluation {
  import opened Basics
  import opened Paths
  import opened FormDependencies

  /** For each field, the fields it evaluates first (in order), and its value given the values
      of those. The outer None is a raised error, the inner one "the entry is removed". */
  datatype System<!V> = System(needs: map<Key, seq<Key>>, value: (Key, map<Key, V>) -> Option<Option<V>>)

  function Entry<V>(values: map<Key, V>, k: Key): Option<V> {
    if k in values then Some(values[k]) else None
  }

  function ReadSet<V>(sys: System<V>, key: Key): set<Key>
    requires key in sys.needs
  {
    set k | k in sys.needs[key]
  }

  ghost function ReadGraph<V>(sys: System<V>): Dependencies {
    map key | key in sys.needs :: ReadSet(sys, key)
  }

  ghost predicate AgreeOn<V>(a: map<Key, V>, b: map<Key, V>, keys: set<Key>) {
    forall k | k in keys :: Entry(a, k) == Entry(b, k)
  }

  /** An equation depends on the entries of the fields it reads and on nothing else. */
  ghost predicate Local<V(!new)>(sys: System<V>) {
    forall key, a, b | key in sys.needs && AgreeOn(a, b, ReadSet(sys, key)) ::
      sys.value(key, a) == sys.value(key, b)
  }

  /** `values` solves every equation and leaves the keys that are no fields alone. */
  ghost predicate IsSolution<V>(sys: System<V>, initial: map<Key, V>, values: map<Key, V>) {
    && (forall key | key in sys.needs :: sys.value(key, values) == Some(Entry(values, key)))
    && AgreeOutside(values, initial, sys.needs.Keys)
  }

  ghost predicate AgreeOutside<V>(a: map<Key, V>, b: map<Key, V>, keys: set<Key>) {
    forall k | k !in keys :: Entry(a, k) == Entry(b, k)
  }

  /** A set of fields that is settled: closed under reading, equal to what the equations say,
      and in agreement with every solution. */
  ghost predicate Settled<V(!new)>(sys: System<V>, initial: map<Key, V>, values: map<Key, V>, keys: set<Key>) {
    && keys <= sys.needs.Keys
    && (forall key | key in keys :: ReadSet(sys, key) <= keys)
    && (forall key | key in keys :: sys.value(key, values) == Some(Entry(values, key)))
    && (forall sol | IsSolution(sys, initial, sol) :: AgreeOn(sol, values, keys))
    && AgreeOutside(values, initial, keys)
  }

  function Store<V>(values: map<Key, V>, key: Key, entry: Option<V>): (r: map<Key, V>)
    ensures Entry(r, key) == entry && forall k | k != key :: Entry(r, k) == Entry(values, k)
  {
    match entry
    case None => values - {key}
    case Some(v) => values[key := v]
  }

  /** Evaluating one more field whose reads are settled keeps the rest settled. */
  lemma SettleOne<V(!new)>(sys: System<V>, initial: map<Key, V>, values: map<Key, V>, keys: set<Key>, key: Key,
                           entry: Option<V>)
    requires Local(sys) && Settled(sys, initial, values, keys)
    requires key in sys.needs && key !in keys && ReadSet(sys, key) <= keys
    requires sys.value(key, values) == Some(entry)
    ensures Settled(sys, initial, Store(values, key, entry), keys + {key})
  {
    var next := Store(values, key, entry);
    forall k | k in keys + {key} ensures sys.value(k, next) == Some(Entry(next, k)) {
      assert AgreeOn(next, values, ReadSet(sys, k));
    }
    forall sol | IsSolution(sys, initial, sol) ensures AgreeOn(sol, next, keys + {key}) {
      assert AgreeOn(sol, values, ReadSet(sys, key));
    }
  }

  /** Each field of `order` reads only fields that come before it. */
  ghost predicate Grounded<V>(sys: System<V>, order: seq<Key>) {
    forall i | 0 <= i < |order| ::
      order[i] in sys.needs && forall k | k in sys.needs[order[i]] :: k in order[..i]
  }

  /** `key` reads fields of such an order only, and its equation raises on the values they have. */
  ghost predicate FailsAfter<V>(sys: System<V>, order: seq<Key>, values: map<Key, V>, key: Key) {
    && Grounded(sys, order)
    && (forall k | k in order :: sys.value(k, values) == Some(Entry(values, k)))
    && key in sys.needs && (forall k | k in sys.needs[key] :: k in order) && sys.value(key, values) == None
  }

  /** A field that does not wait for a cycle raises an error. */
  ghost predicate GroundedFailure<V(!new)>(sys: System<V>) {
    exists order, values, key :: FailsAfter(sys, order, values, key)
  }

  /** Grounded fields have the same values in whatever solves their equations. */
  lemma {:induction false} GroundedValues<V(!new)>(sys: System<V>, order: seq<Key>, a: map<Key, V>, b: map<Key, V>,
                                                   n: nat)
    requires Local(sys) && Grounded(sys, order) && n <= |order|
    requires forall k | k in order :: sys.value(k, a) == Some(Entry(a, k)) && sys.value(k, b) == Some(Entry(b, k))
    ensures forall i | 0 <= i < n :: Entry(a, order[i]) == Entry(b, order[i])
  {
    if n > 0 {
      GroundedValues(sys, order, a, b, n - 1);
      var last := order[n - 1];
      assert AgreeOn(a, b, ReadSet(sys, last));
    }
  }

  lemma ReadsComeFirst<V>(sys: System<V>, order: seq<Key>, key: Key, read: Key)
    requires Grounded(sys, order) && key in order && key in sys.needs && read in sys.needs[key]
    ensures read in order && FirstIndex(order, read) < FirstIndex(order, key)
  {
    assert read in order[..FirstIndex(order, key)];
  }

  lemma FailureMeansUnsolvable<V(!new)>(sys: System<V>, initial: map<Key, V>)
    requires Local(sys) && GroundedFailure(sys)
    ensures forall sol :: !IsSolution(sys, initial, sol)
  {
    var order, values, key :| FailsAfter(sys, order, values, key);
    forall sol | IsSolution(sys, initial, sol) ensures false {
      GroundedValues(sys, order, sol, values, |order|);
      assert AgreeOn(sol, values, ReadSet(sys, key));
    }
  }

  datatype Outcome = Done | CycleError | Rejected

  class Evaluation<V(!new)> {
    const sys: System<V>
    const initial: map<Key, V>
    var values: map<Key, V>
    var calculated: set<Key>
    var evaluating: set<Key>
    ghost var stack: seq<Key>   // `evaluating`, outermost first
    ghost var order: seq<Key>   // `calculated`, first finished first

    constructor (sys: System<V>, initial: map<Key, V>)
      ensures this.sys == sys && this.initial == initial
      ensures Valid() && calculated == {} && stack == []
    {
      this.sys, this.initial := sys, initial;
      values, calculated, evaluating := initial, {}, {};
      stack, order := [], [];
    }

    ghost predicate Bookkeeping()
      reads this
    {
      && evaluating == (set i | 0 <= i < |stack| :: stack[i])
      && calculated == (set i | 0 <= i < |order| :: order[i])
      && evaluating !! calculated && evaluating <= sys.needs.Keys && calculated <= sys.needs.Keys
      && (forall i | 0 <= i < |stack| - 1 :: (stack[i], stack[i + 1]) in Edges(ReadGraph(sys)))
      && (forall i, d | 0 <= i < |order| && d in ReadGraph(sys)[order[i]] :: d in order[..i])
    }

    ghost predicate Valid()
      reads this
    {
      Bookkeeping() && Settled(sys, initial, values, calculated)
    }

    method Compute(key: Key) returns (outcome: Outcome)
      requires Local(sys) && Valid()
      requires |stack| > 0 ==> (stack[|stack| - 1], key) in Edges(ReadGraph(sys))
      modifies this
      ensures outcome.Done? ==> Valid() && evaluating == old(evaluating) && stack == old(stack)
      ensures outcome.Done? ==> key in calculated && old(calculated) <= calculated
      ensures outcome.CycleError? ==> !Acyclic(Edges(ReadGraph(sys)))
      ensures outcome.Rejected? ==> key !in sys.needs || !Closed(ReadGraph(sys))
                                    || GroundedFailure(sys)
      decreases sys.needs.Keys - evaluating
    {
      if key !in sys.needs {
        return Rejected;   // the KeyError of the field lookup
      }
      if key in calculated {
        return Done;
      }
      if key in evaluating {
        ghost var i :| 0 <= i < |stack| && stack[i] == key;
        assert PathBetween(Edges(ReadGraph(sys)), stack[i..] + [key], key, key);
        assert ReachesVia(Edges(ReadGraph(sys)), key, key);
        return CycleError;
      }
      ghost var outer, before := stack, calculated;
      Enter(key);
      var needed := sys.needs[key];
      for n := 0 to |needed|
        invariant Valid() && stack == outer + [key] && evaluating == old(evaluating) + {key}
        invariant before <= calculated
        invariant forall i | 0 <= i < n :: needed[i] in calculated
      {
        assert needed[n] in ReadGraph(sys)[key];
        assert (key, needed[n]) in Edges(ReadGraph(sys));
        outcome := Compute(needed[n]);
        if !outcome.Done? {
          assert needed[n] !in sys.needs ==> !Closed(ReadGraph(sys)) by {
            var graph := ReadGraph(sys);
            assert key in graph && needed[n] in graph[key];
            assert needed[n] in graph <==> needed[n] in sys.needs;
          }
          return;
        }
      }
      match sys.value(key, values)
      case None =>
        assert FailsAfter(sys, order, values, key);
        return Rejected;
      case Some(entry) =>
        Leave(outer, key, entry);
        return Done;
    }

    method Enter(key: Key)
      requires Valid() && key in sys.needs && key !in calculated && key !in evaluating
      requires |stack| > 0 ==> (stack[|stack| - 1], key) in Edges(ReadGraph(sys))
      modifies this`evaluating, this`stack
      ensures Valid() && stack == old(stack) + [key] && evaluating == old(evaluating) + {key}
    {
      ghost var outer := stack;
      evaluating := evaluating + {key};
      stack := stack + [key];
      assert evaluating == (set i | 0 <= i < |stack| :: stack[i]) by {
        assert forall i | 0 <= i < |outer| :: stack[i] == outer[i];
        assert stack[|outer|] == key;
      }
    }

    /** The end of a computation: the entry is stored or removed and the field is calculated. */
    method Leave(ghost outer: seq<Key>, key: Key, entry: Option<V>)
      requires Local(sys) && Valid() && stack == outer + [key] && key in sys.needs && key !in outer
      requires ReadSet(sys, key) <= calculated && sys.value(key, values) == Some(entry)
      modifies this
      ensures Valid() && stack == outer && evaluating == old(evaluating) - {key}
      ensures calculated == old(calculated) + {key}
      ensures values == Store(old(values), key, entry)
    {
      ghost var before := order;
      assert stack[|outer|] == key;
      SettleOne(sys, initial, values, calculated, key, entry);
      match entry {
        case None => values := values - {key};
        case Some(v) => values := values[key := v];
      }
      evaluating := evaluating - {key};
      stack := outer;
      calculated := calculated + {key};
      order := order + [key];
      assert forall i | 0 <= i < |outer| :: old(stack)[i] == outer[i];
      Finishing(before, outer, key);
    }
  }

  /** One more finished field, which leaves the stack. */
  lemma Finishing(order: seq<Key>, outer: seq<Key>, key: Key)
    ensures (set i | 0 <= i < |order| + 1 :: (order + [key])[i]) == (set i | 0 <= i < |order| :: order[i]) + {key}
    ensures (order + [key])[..|order|] == order
    ensures forall i | 0 <= i < |order| :: (order + [key])[i] == order[i] && (order + [key])[..i] == order[..i]
    ensures key !in outer ==>
      (set i | 0 <= i < |outer| + 1 :: (outer + [key])[i]) - {key} == (set i | 0 <= i < |outer| :: outer[i])
  {
    var longer, stack := order + [key], outer + [key];
    assert longer[|order|] == key && stack[|outer|] == key;
    assert forall i | 0 <= i < |order| :: longer[i] == order[i];
    assert forall i | 0 <= i < |outer| :: stack[i] == outer[i];
  }

  /** All fields, in listed order. The evaluation succeeds exactly when the fields it reads exist,
      nothing depends on itself and the equations have a solution; its result is then the only
      solution, whatever the order of the listing. */
  method EvaluateAll<V(!new)>(sys: System<V>, listing: seq<Key>, initial: map<Key, V>)
    returns (outcome: Outcome, values: map<Key, V>)
    requires Local(sys) && (set k | k in listing) == sys.needs.Keys
    ensures outcome.Done? <==> Acyclic(Edges(ReadGraph(sys))) && Closed(ReadGraph(sys))
                               && (exists sol :: IsSolution(sys, initial, sol))
    ensures outcome.Done? ==> IsSolution(sys, initial, values)
    ensures outcome.Done? ==> forall sol | IsSolution(sys, initial, sol) :: sol == values
    ensures outcome.Done? <==> Acyclic(Edges(ReadGraph(sys))) && Closed(ReadGraph(sys)) && !GroundedFailure(sys)
    ensures outcome.CycleError? ==> !Acyclic(Edges(ReadGraph(sys)))
    ensures outcome.Rejected? ==> !Closed(ReadGraph(sys)) || GroundedFailure(sys)
  {
    if GroundedFailure(sys) {
      FailureMeansUnsolvable(sys, initial);
    }
    var evaluation := new Evaluation(sys, initial);
    for n := 0 to |listing|
      invariant fresh(evaluation) && evaluation.sys == sys && evaluation.initial == initial
      invariant evaluation.Valid() && evaluation.stack == []
      invariant forall i | 0 <= i < n :: listing[i] in evaluation.calculated
    {
      outcome := evaluation.Compute(listing[n]);
      if !outcome.Done? {
        values := evaluation.values;
        return;
      }
    }
    assert evaluation.calculated == sys.needs.Keys;
    OrderedIsAcyclic(ReadGraph(sys), evaluation.order);
    outcome, values := Done, evaluation.values;
    SolutionsEqual(sys, initial, values);
  }

  lemma SolutionsEqual<V(!new)>(sys: System<V>, initial: map<Key, V>, values: map<Key, V>)
    requires Settled(sys, initial, values, sys.needs.Keys)
    ensures IsSolution(sys, initial, values)
    ensures forall sol | IsSolution(sys, initial, sol) :: sol == values
  {
    forall sol | IsSolution(sys, initial, sol) ensures sol == values {
      forall k ensures k in sol <==> k in values
        ensures k in sol ==> sol[k] == values[k]
      {
        assert Entry(sol, k) == Entry(values, k) by {
          if k !in sys.needs { assert Entry(sol, k) == Entry(initial, k); }
        }
      }
    }
  }
}
