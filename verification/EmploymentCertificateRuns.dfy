/** Exactly-once issuance over any run of drafts, submits, replays and hooks
    (asoud_erp/services/employment_certificate_workflow.py:36-51, 54-138). */
module EmploymentCertificateRuns {
  import opened Basics
  import opened EmploymentCertificate

  /* ---------- one change ---------- */

  /** What may become of an entry: nothing, or a higher revision of a certificate that was not ended,
      with a number, if any, that was not taken before. */
  predicate EntryMoves(before: Data, after: Data, issuedBefore: nat) {
    before == after
    || (&& after.revision > before.revision
        && (before.status == Draft || before.status == Pending)
        && (after.status == Draft ==> before.status == Draft)
        && (before.status == Pending ==> after.status != Pending && after.key == before.key)
        && (after.status == Final ==> after.number.Some? && after.number.value >= issuedBefore))
  }

  ghost predicate Moves(s: State, t: State) {
    && s.entries.Keys <= t.entries.Keys && s.issued <= t.issued
    && (forall e | e in s.entries :: EntryMoves(s.entries[e].data, t.entries[e].data, s.issued))
    && (forall e | e in t.entries && e !in s.entries :: t.entries[e].data.status == Draft)
  }

  lemma MovesJoin(s: State, t: State, u: State)
    requires Moves(s, t) && Moves(t, u) && s.entries.Keys == t.entries.Keys
    ensures Moves(s, u)
  {
    forall e | e in s.entries ensures EntryMoves(s.entries[e].data, u.entries[e].data, s.issued) {
      assert EntryMoves(s.entries[e].data, t.entries[e].data, s.issued);
      assert EntryMoves(t.entries[e].data, u.entries[e].data, t.issued);
    }
  }

  /** A change of one entry keeps the invariant when its number, if new, is the next one. */
  lemma OneEntryChanges(s: State, t: State, e: Id)
    requires Inv(s) && e in t.entries && t.entries == s.entries[e := t.entries[e]]
    requires EntryOk(t, e) && s.issued <= t.issued
    requires e in s.entries ==> EntryMoves(s.entries[e].data, t.entries[e].data, s.issued)
    requires e !in s.entries ==> t.entries[e].data.status == Draft
    ensures Inv(t) && Moves(s, t)
  {
    forall x | x in t.entries ensures EntryOk(t, x) {
      if x != e { assert EntryOk(s, x); }
    }
    forall x | x in s.entries && x != e && s.entries[x].data.number.Some?
      ensures s.entries[x].data.number != t.entries[e].data.number
    {
      assert EntryOk(s, x);
    }
  }

  /* ---------- the hook ---------- */

  /** An instance of this workflow and request, which the certificate names, is completed. */
  predicate CompletedMatch(s: State, d: Data) {
    && d.instance.Some? && d.instance.value in s.instances
    && var inst := s.instances[d.instance.value];
       inst.status == InstanceCompleted && inst.request == d.request && inst.definition == d.workflow
  }

  lemma SettleMoves(s: State, e: Id, i: Id, renders: bool)
    requires Inv(s) && e in s.entries && i in s.instances && Settle(s, e, i, renders).Some?
    ensures Inv(Settle(s, e, i, renders).value) && Moves(s, Settle(s, e, i, renders).value)
  {
    assert EntryOk(s, e);
    OneEntryChanges(s, Settle(s, e, i, renders).value, e);
  }

  lemma HookMoves(s: State, i: Id, renders: bool)
    requires Inv(s) && Hook(s, i, renders).Some?
    ensures Inv(Hook(s, i, renders).value) && Moves(s, Hook(s, i, renders).value)
    ensures Hook(s, i, renders).value.entries.Keys == s.entries.Keys
  {
    if EntryOf(s, i).Some? {
      SettleMoves(s, EntryOf(s, i).value, i, renders);
    }
  }

  /** A hook changes only the pending certificate that waits for its instance, and does to it what
      happened to the instance; a number is given for a completed one only, and it is the next. */
  lemma HookFollowsInstance(s: State, i: Id, renders: bool, e: Id)
    requires Inv(s) && e in s.entries && Hook(s, i, renders).Some?
    requires Hook(s, i, renders).value.entries[e] != s.entries[e]
    ensures var before, after := s.entries[e].data, Hook(s, i, renders).value.entries[e].data;
      && before.status == Pending && before.instance == Some(i) && i in s.instances
      && s.instances[i].request == before.request && s.instances[i].definition == before.workflow
      && (after.status == Final <==> s.instances[i].status == InstanceCompleted)
      && (after.status == Rejected <==> s.instances[i].status == InstanceRejected)
      && (after.status == Cancelled <==> s.instances[i].status == InstanceCancelled)
      && (after.status == Failed <==> s.instances[i].status == InstanceFailed)
      && after.number == (if after.status == Final then Some(s.issued) else None)
      && after.revision == before.revision + 1
  {
    assert EntryOk(s, e);
  }

  /** The request of the instance leads to this certificate, which waits for the instance. */
  predicate Linking(s: State, e: Id, i: Id) {
    && e in s.entries && i in s.instances && s.instances[i].request.Some?
    && var r := s.instances[i].request.value;
       && r in s.requests && s.requests[r].requestId.Some?
       && Matches(s, s.requests[r].company, s.requests[r].requestId.value, e)
       && s.entries[e].data.status == Pending
       && s.entries[e].data.instance == Some(i) && s.entries[e].data.request == Some(r)
  }

  /** What a hook makes of the data of a certificate, or None for the error it raises. */
  function Outcome(d: Data, status: InstanceStatus, renders: bool, number: nat): Option<Data> {
    match status
    case Running => Some(d)
    case InstanceCompleted =>
      if renders then Some(d.(status := Final, number := Some(number), revision := d.revision + 1)) else None
    case InstanceRejected => Some(d.(status := Rejected, revision := d.revision + 1))
    case InstanceCancelled => Some(d.(status := Cancelled, revision := d.revision + 1))
    case InstanceFailed => Some(d.(status := Failed, revision := d.revision + 1))
  }

  /** The certificate that waits for an instance gets its end with one more revision, and stays pending
      exactly while the instance runs. The hook raises only for an instance of another workflow, or when a
      certificate cannot be rendered. */
  lemma HookOutcome(s: State, i: Id, renders: bool, e: Id)
    requires Inv(s) && Linking(s, e, i)
    ensures var d, inst := s.entries[e].data, s.instances[i];
      var after := if d.workflow == inst.definition then Outcome(d, inst.status, renders, s.issued) else None;
      if after == None then Hook(s, i, renders) == None
      else Hook(s, i, renders)
           == Some(State(s.entries[e := s.entries[e].(data := after.value)], s.requests, s.instances,
                         if inst.status == InstanceCompleted then s.issued + 1 else s.issued))
  {
    var r := s.instances[i].request.value;
    var found := EntryOf(s, i);
    MatchIsUnique(s, s.requests[r].company, s.requests[r].requestId.value, found.value, e);
    assert s.entries[e := s.entries[e].(data := s.entries[e].data)] == s.entries;
  }

  /** No other certificate is touched. */
  lemma HookSparesOthers(s: State, i: Id, renders: bool, e: Id)
    requires Inv(s) && e in s.entries && Hook(s, i, renders).Some? && !Linking(s, e, i)
    ensures e in Hook(s, i, renders).value.entries && Hook(s, i, renders).value.entries[e] == s.entries[e]
  {
  }

  /** A hook does nothing to an entry that has no instance yet. */
  lemma HookSparesUnlinked(s: State, i: Id, renders: bool, e: Id)
    requires e in s.entries && s.entries[e].data.instance == None && Hook(s, i, renders).Some?
    ensures e in Hook(s, i, renders).value.entries && Hook(s, i, renders).value.entries[e] == s.entries[e]
  {
  }

  /* ---------- inside create_request ---------- */

  lemma InnerStepMoves(s: State, inner: Inner)
    requires Inv(s) && InnerStep(s, inner).Some?
    ensures Inv(InnerStep(s, inner).value) && Moves(s, InnerStep(s, inner).value)
    ensures InnerStep(s, inner).value.entries.Keys == s.entries.Keys
  {
    match inner
    case World(_, _) =>
      var t := InnerStep(s, inner).value;
      forall e | e in t.entries ensures EntryOk(t, e) { assert EntryOk(s, e); }
    case Fires(i, renders) => HookMoves(s, i, renders);
  }

  /** Whatever hooks fire before the link is stored, the entry being submitted stays as it was: the
      data written afterwards overwrites nothing. */
  lemma {:induction false} InnerSparesSubmitted(s: State, inner: seq<Inner>, e: Id)
    requires Inv(s) && e in s.entries && s.entries[e].data.instance == None && RunInner(s, inner).Some?
    ensures Inv(RunInner(s, inner).value) && Moves(s, RunInner(s, inner).value)
    ensures RunInner(s, inner).value.entries.Keys == s.entries.Keys
    ensures RunInner(s, inner).value.entries[e] == s.entries[e]
  {
    if inner != [] {
      var before := RunInner(s, inner[..|inner| - 1]).value;
      var last := inner[|inner| - 1];
      InnerSparesSubmitted(s, inner[..|inner| - 1], e);
      InnerStepMoves(before, last);
      MovesJoin(s, before, InnerStep(before, last).value);
      if last.Fires? {
        HookSparesUnlinked(before, last.instance, last.renders, e);
      }
    }
  }

  /* ---------- submit ---------- */

  /** The entry as it is stored before create_request, and once its links are stored. */
  ghost function Stored(s: State, e: Id, key: string): State
    requires e in s.entries
  {
    var d := Prepared(s.entries[e].data, key);
    s.(entries := s.entries[e := s.entries[e].(data := d, fingerprint := Some(ForCertificate(e, key)))])
  }

  ghost function Linked(after: State, e: Id, d: Data, env: Surroundings): State
    requires e in after.entries
  {
    Put(after, e, d.(request := Some(env.request), instance := Some(env.instance)))
  }

  lemma StoredMoves(s: State, e: Id, key: string)
    requires Inv(s) && e in s.entries && s.entries[e].data.status == Draft
    ensures Inv(Stored(s, e, key)) && Moves(s, Stored(s, e, key))
  {
    assert EntryOk(s, e);
    OneEntryChanges(s, Stored(s, e, key), e);
  }

  lemma LinkedMoves(s: State, e: Id, key: string, env: Surroundings, after: State)
    requires Inv(s) && e in s.entries && s.entries[e].data.status == Draft
    requires RunInner(Stored(s, e, key), env.inner) == Some(after)
    ensures e in after.entries && after.entries[e] == Stored(s, e, key).entries[e]
    ensures after.entries.Keys == s.entries.Keys
    ensures var linked := Linked(after, e, Prepared(s.entries[e].data, key), env);
            Inv(linked) && Moves(s, linked)
  {
    var stored := Stored(s, e, key);
    StoredMoves(s, e, key);
    assert EntryOk(s, e);
    InnerSparesSubmitted(stored, env.inner, e);
    MovesJoin(s, stored, after);
    LinkKeeps(s, after, e, Prepared(s.entries[e].data, key), env);
  }

  lemma LinkKeeps(s: State, after: State, e: Id, d: Data, env: Surroundings)
    requires Inv(after) && e in s.entries && after.entries.Keys == s.entries.Keys && Moves(s, after)
    requires after.entries[e].data == d && d.status == Pending && s.entries[e].data.status == Draft
    requires s.entries[e].data.revision < d.revision
    ensures Inv(Linked(after, e, d, env)) && Moves(s, Linked(after, e, d, env))
  {
    var linked := Linked(after, e, d, env);
    forall x | x in linked.entries ensures EntryOk(linked, x) {
      assert EntryOk(after, x);
    }
    forall x | x in s.entries ensures EntryMoves(s.entries[x].data, linked.entries[x].data, s.issued) {
      assert EntryMoves(s.entries[x].data, after.entries[x].data, s.issued);
    }
  }

  /** A submit that goes through: the draft takes the key and leaves the draft state for good. */
  lemma CarryMoves(s: State, e: Id, key: string, env: Surroundings)
    requires Inv(s) && e in s.entries && s.entries[e].data.status == Draft
    requires Carry(s, e, key, env).Some?
    ensures var t := Carry(s, e, key, env).value;
            Inv(t) && Moves(s, t) && t.entries.Keys == s.entries.Keys
            && t.entries[e].data.key == Some(key) && t.entries[e].data.status != Draft
  {
    if s.entries[e].data.workflow == "" {
      assert EntryOk(s, e);
      OneEntryChanges(s, Carry(s, e, key, env).value, e);
    } else {
      var after := CarryIsHook(s, e, key, env);
      LinkedMoves(s, e, key, env, after);
      HookAfterLink(s, Linked(after, e, Prepared(s.entries[e].data, key), env), e, env.instance, env.renders);
    }
  }

  /** With a workflow, a submit that goes through ends in the hook on the linked entry. */
  lemma CarryIsHook(s: State, e: Id, key: string, env: Surroundings) returns (after: State)
    requires e in s.entries && s.entries[e].data.workflow != "" && Carry(s, e, key, env).Some?
    ensures RunInner(Stored(s, e, key), env.inner) == Some(after) && e in after.entries
    ensures Carry(s, e, key, env)
         == Hook(Linked(after, e, Prepared(s.entries[e].data, key), env), env.instance, env.renders)
  {
    after := RunInner(Stored(s, e, key), env.inner).value;
  }

  lemma HookAfterLink(s: State, linked: State, e: Id, i: Id, renders: bool)
    requires Inv(linked) && Moves(s, linked) && linked.entries.Keys == s.entries.Keys && e in s.entries
    requires linked.entries[e].data.status == Pending && Hook(linked, i, renders).Some?
    ensures var t := Hook(linked, i, renders).value;
            Inv(t) && Moves(s, t) && t.entries.Keys == s.entries.Keys
            && t.entries[e].data.key == linked.entries[e].data.key && t.entries[e].data.status != Draft
  {
    var t := Hook(linked, i, renders).value;
    HookMoves(linked, i, renders);
    MovesJoin(s, linked, t);
    assert EntryMoves(linked.entries[e].data, t.entries[e].data, linked.issued);
  }

  /** The certificate submitted gets a number at once only without a workflow, or when the instance
      it has just been linked to is already completed. */
  lemma SubmitIssuesRightly(s: State, e: Id, key: string, env: Surroundings)
    requires Inv(s) && e in s.entries && s.entries[e].data.status == Draft
    requires Carry(s, e, key, env).Some?
    ensures var d := Carry(s, e, key, env).value.entries[e].data;
            d.number.Some? ==> d.workflow == "" || CompletedMatch(Carry(s, e, key, env).value, d)
  {
    if s.entries[e].data.workflow != "" {
      var after := CarryIsHook(s, e, key, env);
      LinkedMoves(s, e, key, env, after);
      var linked := Linked(after, e, Prepared(s.entries[e].data, key), env);
      HookIssuesRightly(linked, env.instance, env.renders, e);
    }
  }

  lemma HookIssuesRightly(s: State, i: Id, renders: bool, e: Id)
    requires Inv(s) && e in s.entries && s.entries[e].data.status == Pending && Hook(s, i, renders).Some?
    ensures e in Hook(s, i, renders).value.entries
    ensures var d := Hook(s, i, renders).value.entries[e].data;
            d.number.Some? ==> CompletedMatch(Hook(s, i, renders).value, d)
  {
    assert EntryOk(s, e);
  }

  /** An end that came inside create_request, where the hook could not see the link, is caught up: the
      submit leaves the certificate as the hook would have. */
  lemma EarlyEndIsNotLost(s: State, e: Id, key: string, env: Surroundings, after: State)
    requires Inv(s) && e in s.entries && s.entries[e].data.status == Draft && s.entries[e].data.workflow != ""
    requires RunInner(Stored(s, e, key), env.inner) == Some(after) && env.creates
    requires env.instance in after.instances && env.request in after.requests
    requires after.instances[env.instance].request == Some(env.request)
    requires after.requests[env.request] == Request(s.entries[e].company, Some(ForCertificate(e, key)))
    ensures e in after.entries
    ensures var before, inst := s.entries[e].data, after.instances[env.instance];
      var d := before.(status := Pending, key := Some(key), revision := before.revision + 1,
                       request := Some(env.request), instance := Some(env.instance));
      var end := if inst.definition == d.workflow then Outcome(d, inst.status, env.renders, after.issued) else None;
      if end == None then Carry(s, e, key, env) == None
      else Carry(s, e, key, env).Some? && e in Carry(s, e, key, env).value.entries
           && Carry(s, e, key, env).value.entries[e].data == end.value
  {
    SubmitLinks(s, e, key, env, after);
    HookOutcome(Linked(after, e, Prepared(s.entries[e].data, key), env), env.instance, env.renders, e);
  }

  lemma SubmitLinks(s: State, e: Id, key: string, env: Surroundings, after: State)
    requires Inv(s) && e in s.entries && s.entries[e].data.status == Draft && s.entries[e].data.workflow != ""
    requires RunInner(Stored(s, e, key), env.inner) == Some(after) && env.creates
    requires env.instance in after.instances && env.request in after.requests
    requires after.instances[env.instance].request == Some(env.request)
    requires after.requests[env.request] == Request(s.entries[e].company, Some(ForCertificate(e, key)))
    ensures e in after.entries
    ensures var linked := Linked(after, e, Prepared(s.entries[e].data, key), env);
      && Inv(linked) && Linking(linked, e, env.instance)
      && Carry(s, e, key, env) == Hook(linked, env.instance, env.renders)
  {
    LinkedMoves(s, e, key, env, after);
    assert EntryOk(s, e);
  }

  /** A completion that happened inside create_request, where the hook could not see the link, is
      caught up: the submit ends with the certificate issued. */
  lemma EarlyCompletionIsNotLost(s: State, e: Id, key: string, env: Surroundings, after: State)
    requires Inv(s) && e in s.entries && s.entries[e].data.status == Draft && s.entries[e].data.workflow != ""
    requires RunInner(Stored(s, e, key), env.inner) == Some(after) && env.creates && env.renders
    requires env.instance in after.instances && env.request in after.requests
    requires after.instances[env.instance] == Instance(Some(env.request), s.entries[e].data.workflow, InstanceCompleted)
    requires after.requests[env.request] == Request(s.entries[e].company, Some(ForCertificate(e, key)))
    ensures Carry(s, e, key, env).Some? && Carry(s, e, key, env).value.entries[e].data.status == Final
    ensures Carry(s, e, key, env).value.entries[e].data.number == Some(after.issued)
  {
    LinkedMoves(s, e, key, env, after);
    var linked := Linked(after, e, Prepared(s.entries[e].data, key), env);
    FindsLinked(linked, e, env, s.entries[e].company, key);
    LinkedIsIssued(linked, e, env);
  }

  lemma LinkedIsIssued(linked: State, e: Id, env: Surroundings)
    requires e in linked.entries && env.instance in linked.instances && EntryOf(linked, env.instance) == Some(e)
    requires linked.entries[e].data.status == Pending && linked.entries[e].data.instance == Some(env.instance)
    requires linked.entries[e].data.request == linked.instances[env.instance].request
    requires linked.instances[env.instance].definition == linked.entries[e].data.workflow
    requires linked.instances[env.instance].status == InstanceCompleted && env.renders
    ensures Hook(linked, env.instance, env.renders).Some?
    ensures e in Hook(linked, env.instance, env.renders).value.entries
    ensures var d := Hook(linked, env.instance, env.renders).value.entries[e].data;
            d.status == Final && d.number == Some(linked.issued)
  {
  }

  lemma FindsLinked(linked: State, e: Id, env: Surroundings, company: string, key: string)
    requires Inv(linked) && Matches(linked, company, ForCertificate(e, key), e)
    requires env.instance in linked.instances && linked.instances[env.instance].request == Some(env.request)
    requires env.request in linked.requests
    requires linked.requests[env.request] == Request(company, Some(ForCertificate(e, key)))
    ensures EntryOf(linked, env.instance) == Some(e)
  {
    var found := EntryOf(linked, env.instance);
    MatchIsUnique(linked, company, ForCertificate(e, key), found.value, e);
  }

  /* ---------- any step, any run ---------- */

  lemma StepMoves(s: State, event: Event)
    requires Inv(s)
    ensures Inv(Step(s, event)) && Moves(s, Step(s, event))
  {
    match event
    case Create(e, company, workflow, revision) =>
      if e !in s.entries { OneEntryChanges(s, Step(s, event), e); }
    case Edit(e, workflow, revision) =>
      if EditDraft(s, e, workflow, revision) != s {
        assert EntryOk(s, e);
        OneEntryChanges(s, Step(s, event), e);
      }
    case Submission(e, revision, key, env) =>
      if Submit(s, e, revision, key, env).1 == Submitted { CarryMoves(s, e, key, env); }
    case Outside(inner) =>
      if InnerStep(s, inner).Some? { InnerStepMoves(s, inner); }
  }

  lemma {:induction false} RunInv(states: seq<State>, events: seq<Event>, k: nat)
    requires IsRun(states, events) && k < |states|
    ensures Inv(states[k])
  {
    if k > 0 {
      RunInv(states, events, k - 1);
      StepMoves(states[k - 1], events[k - 1]);
    }
  }

  /** Between any two points of a run: every change of a certificate raises its revision, and one that
      is issued, rejected, cancelled or failed never changes again. */
  lemma {:induction false} CertificatesOnlyMoveOn(states: seq<State>, events: seq<Event>, j: nat, k: nat, e: Id)
    requires IsRun(states, events) && j <= k < |states| && e in states[j].entries
    ensures Inv(states[j]) && e in states[k].entries
    ensures var before, after := states[j].entries[e].data, states[k].entries[e].data;
            && (before == after || before.revision < after.revision)
            && (before.status != Draft && before.status != Pending ==> after == before)
            && (before.status != Draft ==> after.status != Draft && after.key == before.key)
    decreases k - j
  {
    RunInv(states, events, j);
    if j < k {
      CertificatesOnlyMoveOn(states, events, j, k - 1, e);
      RunInv(states, events, k - 1);
      StepMoves(states[k - 1], events[k - 1]);
      assert EntryMoves(states[k - 1].entries[e].data, states[k].entries[e].data, states[k - 1].issued);
    }
  }

  /** Exactly once: whatever two points of a run show a number of a certificate, it is the same
      number, and no other certificate ever has it. */
  lemma NumberedOnce(states: seq<State>, events: seq<Event>, j: nat, k: nat, a: Id, b: Id)
    requires IsRun(states, events) && j <= k < |states|
    requires a in states[j].entries && states[j].entries[a].data.number.Some?
    requires b in states[k].entries && states[k].entries[b].data.number.Some?
    ensures a == b <==> states[j].entries[a].data.number == states[k].entries[b].data.number
  {
    CertificatesOnlyMoveOn(states, events, j, k, a);
    RunInv(states, events, k);
    assert EntryOk(states[j], a);
    assert states[k].entries[a].data == states[j].entries[a].data;
  }

  /** Sending an accepted submit again, at any later time, changes nothing. */
  lemma ReplayChangesNothing(states: seq<State>, events: seq<Event>, j: nat, k: nat, e: Id, revision: int, key: string,
                             env: Surroundings, again: int, otherEnv: Surroundings)
    requires IsRun(states, events) && j < k < |states|
    requires events[j] == Submission(e, revision, key, env)
    requires Submit(states[j], e, revision, key, env).1 == Submitted
    ensures Submit(states[k], e, again, key, otherEnv) == (states[k], Replayed)
  {
    RunInv(states, events, j);
    CarryMoves(states[j], e, key, env);
    CertificatesOnlyMoveOn(states, events, j + 1, k, e);
  }

  /* ---------- what is accepted ---------- */

  /** A submit is accepted for the current revision of a draft, with a key that says something, and with its
      workflow ready or, without one, no definition of the old kind; then the work must go through. A key
      that was accepted before is replayed. Anything else is refused and changes nothing. */
  lemma SubmitExactly(s: State, e: Id, revision: int, key: string, env: Surroundings)
    ensures var (t, reply) := Submit(s, e, revision, key, env);
      var named := e in s.entries && (exists c :: c in key && !IsSpace(c)) && |key| <= 140;
      && (reply == Replayed <==> named && s.entries[e].data.key == Some(key))
      && (reply == Submitted <==>
            && named && s.entries[e].data.key != Some(key)
            && s.entries[e].data.status == Draft && revision >= 1 && revision == s.entries[e].data.revision
            && (if s.entries[e].data.workflow == "" then !env.oldDefinition else env.ready)
            && Carry(s, e, key, env).Some?)
      && (if reply == Submitted then Carry(s, e, key, env) == Some(t) else t == s)
  {
  }

  /** Without a workflow the certificate is issued at once, with the next number, if it can be rendered. */
  lemma IssuedAtOnce(s: State, e: Id, key: string, env: Surroundings)
    requires e in s.entries && s.entries[e].data.workflow == ""
    ensures var d := s.entries[e].data;
      var final := d.(status := Final, key := Some(key), revision := d.revision + 1, number := Some(s.issued));
      Carry(s, e, key, env) == if !env.renders then None
        else Some(State(s.entries[e := s.entries[e].(data := final)], s.requests, s.instances, s.issued + 1))
  {
  }

  /** A draft is saved for the first time or for its current revision; nothing of an earlier submit stays. */
  lemma DraftsExactly(s: State, e: Id, company: string, workflow: string, revision: int)
    ensures Step(s, Create(e, company, workflow, revision)) ==
      if e in s.entries then s
      else s.(entries := s.entries[e := Entry(company, None, Data(Draft, workflow, None,
                                              if revision == 0 then 1 else revision, None, None, None))])
    ensures Step(s, Edit(e, workflow, revision)) ==
      if e in s.entries && s.entries[e].data.status == Draft && revision != 0 && revision == s.entries[e].data.revision
      then s.(entries := s.entries[e :=
             s.entries[e].(data := Data(Draft, workflow, None, revision + 1, None, None, None))])
      else s
  {
  }

  /** The event was accepted for this certificate and revision. */
  ghost predicate Accepted(s: State, event: Event, e: Id, revision: int) {
    match event
    case Edit(x, workflow, r) => x == e && r == revision && EditDraft(s, e, workflow, r) != s
    case Submission(x, r, key, env) => x == e && r == revision && Submit(s, e, r, key, env).1 == Submitted
    case _ => false
  }

  lemma AcceptedRaises(s: State, event: Event, e: Id, revision: int)
    requires Inv(s) && Accepted(s, event, e, revision)
    ensures e in s.entries && s.entries[e].data.revision == revision
    ensures e in Step(s, event).entries && Step(s, event).entries[e].data.revision > revision
  {
    StepMoves(s, event);
    if event.Submission? {
      CarryMoves(s, e, event.key, event.env);
      SubmitExactly(s, e, revision, event.key, event.env);
    }
    assert EntryMoves(s.entries[e].data, Step(s, event).entries[e].data, s.issued);
  }

  /** Nothing is overwritten unseen: of all edits and submits for one revision of a certificate, at most one
      is accepted in a run. */
  lemma OnePerRevision(states: seq<State>, events: seq<Event>, j: nat, k: nat, e: Id, revision: int)
    requires IsRun(states, events) && j < k < |events|
    requires Accepted(states[j], events[j], e, revision)
    ensures !Accepted(states[k], events[k], e, revision)
  {
    RunInv(states, events, j);
    RunInv(states, events, k);
    AcceptedRaises(states[j], events[j], e, revision);
    CertificatesOnlyMoveOn(states, events, j + 1, k, e);
    if Accepted(states[k], events[k], e, revision) {
      AcceptedRaises(states[k], events[k], e, revision);
    }
  }

  /** The world around the certificates changes without them, and a hook that raises leaves no trace. */
  lemma WorldOutcome(s: State, requests: map<Id, Request>, instances: map<Id, Instance>, i: Id, renders: bool)
    ensures Step(s, Outside(World(requests, instances))) == State(s.entries, requests, instances, s.issued)
    ensures Step(s, Outside(Fires(i, renders))) == match Hook(s, i, renders) case None => s case Some(t) => t
  {
  }

  /* ---------- where a number comes from ---------- */

  /** The certificate waits for an instance of its workflow and request that is completed. */
  predicate ReadyToIssue(s: State, e: Id) {
    e in s.entries && s.entries[e].data.status == Pending && CompletedMatch(s, s.entries[e].data)
  }

  /** The states in which a hook can fire during an event, those inside create_request included. */
  ghost predicate IsMoment(s: State, event: Event, w: State) {
    match event
    case Outside(_) => w == s
    case Submission(e, _, key, env) =>
      e in s.entries && (InnerMoment(Stored(s, e, key), env.inner, w) || LinkedMoment(s, e, key, env, w))
    case _ => false
  }

  ghost predicate InnerMoment(s: State, inner: seq<Inner>, w: State) {
    exists k :: 0 <= k <= |inner| && RunInner(s, inner[..k]) == Some(w)
  }

  ghost predicate LinkedMoment(s: State, e: Id, key: string, env: Surroundings, w: State)
    requires e in s.entries
  {
    var after := RunInner(Stored(s, e, key), env.inner);
    after.Some? && e in after.value.entries && w == Linked(after.value, e, Prepared(s.entries[e].data, key), env)
  }

  /** An event gives a certificate its number rightly: on submitting a draft without a workflow, or by
      a hook at a moment when the certificate waits for a completed instance. The number is the next. */
  ghost predicate RightlyNumbered(s: State, event: Event, e: Id) {
    var t := Step(s, event);
    && e in s.entries && e in t.entries && s.entries[e].data.number == None && t.entries[e].data.number.Some?
    && (if event.Submission? && event.entry == e && s.entries[e].data.workflow == ""
        then s.entries[e].data.status == Draft && t.entries[e].data.number == Some(s.issued)
        else exists w :: IsMoment(s, event, w) && ReadyToIssue(w, e) && t.entries[e].data.number == Some(w.issued))
  }

  lemma HookNumbersReady(s: State, i: Id, renders: bool, e: Id)
    requires Inv(s) && e in s.entries && Hook(s, i, renders).Some?
    requires Hook(s, i, renders).value.entries[e].data.number != s.entries[e].data.number
    ensures ReadyToIssue(s, e) && Hook(s, i, renders).value.entries[e].data.number == Some(s.issued)
  {
    HookFollowsInstance(s, i, renders, e);
  }

  lemma {:induction false} InnerKeepsKeys(s: State, inner: seq<Inner>)
    requires Inv(s) && RunInner(s, inner).Some?
    ensures Inv(RunInner(s, inner).value) && Moves(s, RunInner(s, inner).value)
    ensures RunInner(s, inner).value.entries.Keys == s.entries.Keys
  {
    if inner != [] {
      var before := RunInner(s, inner[..|inner| - 1]).value;
      InnerKeepsKeys(s, inner[..|inner| - 1]);
      InnerStepMoves(before, inner[|inner| - 1]);
      MovesJoin(s, before, RunInner(s, inner).value);
    }
  }

  /** Inside create_request, too, a number is given only to a certificate that is ready. */
  lemma {:induction false} InnerNumbersReady(s: State, inner: seq<Inner>, e: Id) returns (w: State)
    requires Inv(s) && RunInner(s, inner).Some? && e in s.entries && s.entries[e].data.number == None
    requires e in RunInner(s, inner).value.entries && RunInner(s, inner).value.entries[e].data.number.Some?
    ensures InnerMoment(s, inner, w) && ReadyToIssue(w, e)
    ensures RunInner(s, inner).value.entries[e].data.number == Some(w.issued)
  {
    var shorter := inner[..|inner| - 1];
    var before, last := RunInner(s, shorter).value, inner[|inner| - 1];
    InnerKeepsKeys(s, shorter);
    InnerStepMoves(before, last);
    if before.entries[e].data.number.Some? {
      w := InnerNumbersReady(s, shorter, e);
      MomentOfMore(s, inner, w);
      NumberStays(before, InnerStep(before, last).value, e);
    } else {
      HookNumbersReady(before, last.instance, last.renders, e);
      w := before;
      assert shorter[..|shorter|] == shorter;
      MomentOfMore(s, inner, w);
    }
  }

  lemma MomentOfMore(s: State, inner: seq<Inner>, w: State)
    requires inner != [] && InnerMoment(s, inner[..|inner| - 1], w)
    ensures InnerMoment(s, inner, w)
  {
    var shorter := inner[..|inner| - 1];
    var k :| 0 <= k <= |shorter| && RunInner(s, shorter[..k]) == Some(w);
    assert shorter[..k] == inner[..k];
  }

  lemma SubmissionNumbersRightly(s: State, e: Id, revision: int, key: string, env: Surroundings, x: Id)
    requires Inv(s) && x in s.entries && s.entries[x].data.number == None
    requires Submit(s, e, revision, key, env).1 == Submitted && s.entries[e].data.workflow != ""
    requires x in Submit(s, e, revision, key, env).0.entries
             && Submit(s, e, revision, key, env).0.entries[x].data.number.Some?
    ensures RightlyNumbered(s, Submission(e, revision, key, env), x)
  {
    var after := CarryIsHook(s, e, key, env);
    LinkedMoves(s, e, key, env, after);
    var linked := Linked(after, e, Prepared(s.entries[e].data, key), env);
    HookMoves(linked, env.instance, env.renders);
    if linked.entries[x].data.number == None {
      HookNumbersReady(linked, env.instance, env.renders, x);
      assert LinkedMoment(s, e, key, env, linked);
      assert IsMoment(s, Submission(e, revision, key, env), linked);
    } else {
      var w := NumberedInside(s, e, key, env, after, x);
      assert IsMoment(s, Submission(e, revision, key, env), w);
      NumberStays(linked, Submit(s, e, revision, key, env).0, x);
    }
  }

  lemma NumberStays(s: State, t: State, e: Id)
    requires Inv(s) && Moves(s, t) && e in s.entries && s.entries[e].data.number.Some?
    ensures e in t.entries && t.entries[e].data == s.entries[e].data
  {
    assert EntryOk(s, e);
    assert EntryMoves(s.entries[e].data, t.entries[e].data, s.issued);
  }

  lemma NumberedInside(s: State, e: Id, key: string, env: Surroundings, after: State, x: Id) returns (w: State)
    requires Inv(s) && e in s.entries && s.entries[e].data.status == Draft
    requires RunInner(Stored(s, e, key), env.inner) == Some(after) && e in after.entries
    requires x in s.entries && s.entries[x].data.number == None
    requires var linked := Linked(after, e, Prepared(s.entries[e].data, key), env);
             x in linked.entries && linked.entries[x].data.number.Some?
    ensures InnerMoment(Stored(s, e, key), env.inner, w) && ReadyToIssue(w, x)
    ensures Linked(after, e, Prepared(s.entries[e].data, key), env).entries[x].data.number == Some(w.issued)
  {
    StoredMoves(s, e, key);
    assert EntryOk(s, e);
    assert x != e;
    w := InnerNumbersReady(Stored(s, e, key), env.inner, x);
  }

  lemma StepNumbersRightly(s: State, event: Event, e: Id)
    requires Inv(s) && e in s.entries && s.entries[e].data.number == None
    requires e in Step(s, event).entries && Step(s, event).entries[e].data.number.Some?
    ensures RightlyNumbered(s, event, e)
  {
    match event
    case Submission(x, revision, key, env) =>
      if s.entries[x].data.workflow != "" {
        SubmissionNumbersRightly(s, x, revision, key, env, e);
      }
    case Outside(inner) =>
      HookNumbersReady(s, inner.instance, inner.renders, e);
      assert IsMoment(s, event, s);
    case _ =>
  }

  /** In any run, every number was given rightly at some event, and kept since. */
  lemma {:induction false} EveryNumberIsEarned(states: seq<State>, events: seq<Event>, k: nat, e: Id) returns (j: nat)
    requires IsRun(states, events) && k < |states|
    requires e in states[k].entries && states[k].entries[e].data.number.Some?
    ensures j < k && RightlyNumbered(states[j], events[j], e)
    ensures e in states[j + 1].entries && states[j + 1].entries[e].data == states[k].entries[e].data
  {
    assert k > 0;
    RunInv(states, events, k - 1);
    StepMoves(states[k - 1], events[k - 1]);
    if e in states[k - 1].entries && states[k - 1].entries[e].data.number.Some? {
      j := EveryNumberIsEarned(states, events, k - 1, e);
      NumberStays(states[k - 1], states[k], e);
    } else {
      j := k - 1;
      StepNumbersRightly(states[j], events[j], e);
    }
  }
}
