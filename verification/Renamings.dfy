/** Finite renamings: one to one exactly when they have as many values as keys. */
module Renamings {

  predicate OneToOne(ids: map<string, string>) {
    forall a, b | a in ids && b in ids && ids[a] == ids[b] :: a == b
  }

  lemma OneToOneMore(ids: map<string, string>, k: string)
    requires k in ids
    ensures ids.Values == (ids - {k}).Values + {ids[k]}
    ensures OneToOne(ids) <==> OneToOne(ids - {k}) && ids[k] !in (ids - {k}).Values
  {
    var rest := ids - {k};
    assert forall x | x in rest :: x in ids && rest[x] == ids[x];
    forall v | v in ids.Values ensures v in rest.Values + {ids[k]} {
      var x :| x in ids && ids[x] == v;
      if x != k { assert x in rest && rest[x] == v; }
    }
    if ids[k] in rest.Values {
      var x :| x in rest && rest[x] == ids[k];
      assert x in ids && ids[x] == ids[k] && x != k;
    } else if OneToOne(rest) {
      forall a, b | a in ids && b in ids && ids[a] == ids[b] ensures a == b {
        assert a != k ==> a in rest && rest[a] in rest.Values;
        assert b != k ==> b in rest && rest[b] in rest.Values;
      }
    }
  }

  /** As many values as keys means that the renaming is one to one. */
  lemma {:induction false} CountValues(ids: map<string, string>)
    ensures |ids.Values| == |ids.Keys| <==> OneToOne(ids)
    ensures |ids.Values| <= |ids.Keys|
    decreases |ids|
  {
    if |ids.Keys| == 0 {
      assert ids.Values == {};
    } else {
      var k :| k in ids;
      CountValues(ids - {k});
      OneToOneMore(ids, k);
      assert (ids - {k}).Keys == ids.Keys - {k};
    }
  }
}
