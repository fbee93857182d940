/** The stored certificates, updated in place by submit and by the instance hook
    (asoud_erp/services/employment_certificate_workflow.py:29-138). */
module EmploymentCertificateStore {
  import opened Basics
  import opened EmploymentCertificate
  import opened EmploymentCertificateRuns

  class Store {
    var entries: map<Id, Entry>
    var requests: map<Id, Request>
    var instances: map<Id, Instance>
    var issued: nat

    ghost function Now(): State
      reads this
    {
      State(entries, requests, instances, issued)
    }

    /** _issue: the number is taken from the series before the text is rendered. */
    method Issue(d: Data, renders: bool) returns (ok: bool, done: Data)
      modifies this`issued
      ensures issued == old(issued) + 1
      ensures ok == renders && done == Issued(d, old(issued))
    {
      done := d.(status := Final, number := Some(issued));
      issued := issued + 1;
      ok := renders;
    }

    method StoreData(e: Id, d: Data)
      requires e in entries
      modifies this`entries
      ensures Now() == Put(old(Now()), e, d)
    {
      entries := entries[e := entries[e].(data := d)];
    }

    method Find(i: Id) returns (e: Option<Id>)
      requires Inv(Now())
      ensures e == EntryOf(Now(), i)
      ensures e.Some? ==> e.value in entries && i in instances
    {
      if i !in instances || instances[i].request == None {
        return None;
      }
      var r := instances[i].request.value;
      if r !in requests || requests[r].requestId == None {
        return None;
      }
      var company, id := requests[r].company, requests[r].requestId.value;
      if x :| x in entries && entries[x].company == company && entries[x].fingerprint == Some(id) {
        assert Matches(Now(), company, id, x);
        MatchIsUnique(Now(), company, id, x, EntryOf(Now(), i).value);
        e := Some(x);
      } else {
        assert forall x :: !Matches(Now(), company, id, x);
        e := None;
      }
    }

    /** A raised error leaves the series moved on; whoever catches it rolls back. */
    method OnInstanceUpdate(i: Id, renders: bool) returns (ok: bool)
      requires Inv(Now())
      modifies this
      ensures ok <==> Hook(old(Now()), i, renders).Some?
      ensures ok ==> Now() == Hook(old(Now()), i, renders).value
    {
      var found := Find(i);
      if found == None {
        return true;
      }
      var e, inst := found.value, instances[i];
      var d := entries[e].data;
      if d.status != Pending || d.instance != Some(i) || d.request != inst.request {
        return true;
      }
      if d.workflow != inst.definition {
        return false;
      }
      if inst.status == InstanceCompleted {
        ok, d := Issue(d, renders);
        if !ok {
          return false;
        }
      } else if inst.status == Running {
        return true;
      } else {
        d := d.(status := Ended(inst.status));
      }
      d := d.(revision := d.revision + 1);
      StoreData(e, d);
      ok := true;
    }

    /** create_request as seen from here: its own changes, with hooks firing in between. */
    method CreateRequest(inner: seq<Inner>, creates: bool) returns (ok: bool)
      requires Inv(Now())
      modifies this
      ensures ok <==> RunInner(old(Now()), inner).Some? && creates
      ensures ok ==> Now() == RunInner(old(Now()), inner).value && Inv(Now())
    {
      ghost var start := Now();
      for k := 0 to |inner|
        invariant RunInner(start, inner[..k]) == Some(Now()) && Inv(Now())
      {
        assert inner[..k + 1][..k] == inner[..k];
        InnerKeepsInv(Now(), inner[k]);
        var raised := false;
        match inner[k] {
          case World(r, i) => requests, instances := r, i;
          case Fires(i, renders) =>
            var fired := OnInstanceUpdate(i, renders);
            raised := !fired;
        }
        if raised {
          RunInnerStops(start, inner, k + 1);
          return false;
        }
      }
      assert inner[..|inner|] == inner;
      ok := creates;
    }

    method Submit(e: Id, revision: int, key: string, env: Surroundings) returns (reply: Reply)
      requires Inv(Now())
      modifies this
      ensures (Now(), reply) == EmploymentCertificate.Submit(old(Now()), e, revision, key, env)
      ensures Inv(Now())
    {
      if e !in entries || Blank(key) || |key| > 140 {
        return Refused;
      }
      var d := entries[e].data;
      if d.key == Some(key) {
        return Replayed;
      }
      if revision <= 0 || revision != d.revision || d.status != Draft
         || (d.workflow != "" && !env.ready) || (d.workflow == "" && env.oldDefinition) {
        return Refused;
      }
      var savedEntries, savedRequests, savedInstances, savedIssued := entries, requests, instances, issued;
      ghost var start := Now();
      var ok := Work(e, key, env);
      if !ok {
        entries, requests, instances, issued := savedEntries, savedRequests, savedInstances, savedIssued;
        return Refused;
      }
      CarryMoves(start, e, key, env);
      reply := Submitted;
    }

    /** The part of submit under the savepoint. */
    method Work(e: Id, key: string, env: Surroundings) returns (ok: bool)
      requires Inv(Now()) && e in entries && entries[e].data.status == Draft
      modifies this
      ensures ok <==> Carry(old(Now()), e, key, env).Some?
      ensures ok ==> Now() == Carry(old(Now()), e, key, env).value
    {
      var d := Prepared(entries[e].data, key);
      if d.workflow == "" {
        ok, d := Issue(d, env.renders);
        if ok {
          StoreData(e, d);
        }
      } else {
        ok := SendToWorkflow(e, d, key, env);
      }
    }

    method SendToWorkflow(e: Id, data: Data, key: string, env: Surroundings) returns (ok: bool)
      requires Inv(Now()) && e in entries && entries[e].data.status == Draft
      requires data == Prepared(entries[e].data, key) && data.workflow != ""
      modifies this
      ensures ok <==> Carry(old(Now()), e, key, env).Some?
      ensures ok ==> Now() == Carry(old(Now()), e, key, env).value
    {
      ghost var start := Now();
      entries := entries[e := entries[e].(data := data, fingerprint := Some(ForCertificate(e, key)))];
      StoredMoves(start, e, key);
      ok := CreateRequest(env.inner, env.creates);
      ghost var after := Now();
      CarryUnfolds(start, e, key, env, ok, after);
      if !ok || env.instance !in instances {
        return false;
      }
      LinkedMoves(start, e, key, env, after);
      StoreData(e, data.(request := Some(env.request), instance := Some(env.instance)));
      ok := OnInstanceUpdate(env.instance, env.renders);
    }
  }

  /** What is left of submit once create_request has returned or raised. */
  lemma CarryUnfolds(s: State, e: Id, key: string, env: Surroundings, ok: bool, after: State)
    requires Inv(s) && e in s.entries && s.entries[e].data.status == Draft && s.entries[e].data.workflow != ""
    requires ok <==> RunInner(Stored(s, e, key), env.inner).Some? && env.creates
    requires ok ==> RunInner(Stored(s, e, key), env.inner) == Some(after)
    ensures !ok || env.instance !in after.instances ==> Carry(s, e, key, env) == None
    ensures ok && env.instance in after.instances ==>
      e in after.entries
      && Carry(s, e, key, env)
         == Hook(Linked(after, e, Prepared(s.entries[e].data, key), env), env.instance, env.renders)
  {
    if ok {
      LinkedMoves(s, e, key, env, after);
    }
  }

  lemma InnerKeepsInv(s: State, inner: Inner)
    requires Inv(s)
    ensures InnerStep(s, inner).Some? ==> Inv(InnerStep(s, inner).value)
  {
    if InnerStep(s, inner).Some? {
      InnerStepMoves(s, inner);
    }
  }

  lemma {:induction false} RunInnerStops(s: State, inner: seq<Inner>, k: nat)
    requires k <= |inner| && RunInner(s, inner[..k]) == None
    ensures RunInner(s, inner) == None
  {
    if k < |inner| {
      assert inner[..k] == inner[..|inner| - 1][..k];
      RunInnerStops(s, inner[..|inner| - 1], k);
    } else {
      assert inner[..k] == inner;
    }
  }
}
