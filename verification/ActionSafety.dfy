/** What every run of the automatic-action protocol keeps, whatever the workers, the sweeper,
    duplicate jobs, crashes, people and clocks do. */
module ActionSafety {
  import opened Basics
  import opened ActionProtocol

  /* ---------- the invariant ---------- */

  /** The policy and the routes of a stage, which its receipts take over. */
  predicate TakenFrom(kind: StageKind, r: Receipt) {
    kind.Automatic? && r.policy == kind.policy && r.success == kind.success && r.error == kind.error
  }

  predicate SamePlan(r: Receipt, s: Receipt) {
    r.policy == s.policy && r.success == s.success && r.error == s.error
  }

  /** Receipts belong to automatic stages and existing instances, with the policy and routes of the stage. */
  ghost predicate Known(design: Design, db: Db) {
    forall k | k in db.receipts ::
      k.inst in db.instances && IsAutomatic(design, k.stage) && TakenFrom(design[k.stage].kind, db.receipts[k])
  }

  predicate BudgetKept(r: Receipt) {
    && r.attempts <= r.policy.extraAttempts + 1
    && (r.status.Pending? ==> r.attempts == 0)
    && (r.status.RetryPending? ==> 1 <= r.attempts <= r.policy.extraAttempts)
    && (r.status.Running? || r.status.Success() ==> r.attempts >= 1)
  }

  ghost predicate Budgets(db: Db) {
    forall k | k in db.receipts :: BudgetKept(db.receipts[k])
  }

  predicate Committed(db: Db, k: Key) {
    k in db.receipts && db.receipts[k].status.Success()
  }

  /** The committed effects are exactly those of the successful executions, once each, and each
      came with its success route. */
  ghost predicate Logs(db: Db) {
    && db.advances == db.effects
    && forall k :: multiset(db.effects)[k] == if Committed(db, k) then 1 else 0
  }

  predicate IsLive(db: Db, k: Key) {
    k in db.receipts && db.receipts[k].status.Live()
  }

  /** One trigger keeps at most one execution of an instance going. */
  ghost predicate OneLive(db: Db) {
    forall k, l | IsLive(db, k) && IsLive(db, l) && k.inst == l.inst && k.trigger == l.trigger :: k == l
  }

  ghost predicate Served(db: Db, inst: InstanceId, stage: StageId) {
    exists trigger :: IsLive(db, Key(inst, stage, trigger))
  }

  predicate WaitsAutomatically(design: Design, db: Db, inst: InstanceId) {
    && inst in db.instances && db.instances[inst].status.InProgress?
    && db.instances[inst].stage.Some? && IsAutomatic(design, db.instances[inst].stage.value)
  }

  /** No instance in progress waits at an automatic stage without a live execution of it. */
  ghost predicate NotStranded(design: Design, db: Db) {
    forall inst | WaitsAutomatically(design, db, inst) :: Served(db, inst, db.instances[inst].stage.value)
  }

  ghost predicate Inv(design: Design, db: Db) {
    Known(design, db) && Budgets(db) && Logs(db) && OneLive(db) && NotStranded(design, db)
  }

  /* ---------- what activating a stage does ---------- */

  predicate NoLive(db: Db, inst: InstanceId, trigger: Trigger) {
    forall k | k in db.receipts && k.inst == inst && k.trigger == trigger :: !db.receipts[k].status.Live()
  }

  /** The instance arrives at a stage that is not automatic, or at an automatic one together
      with a new execution; without a service user that execution and the instance have failed. */
  ghost predicate Arrives(design: Design, db: Db, d: Db, inst: InstanceId, trigger: Trigger) {
    && inst in db.instances && inst in d.instances && d.instances[inst].stage.Some?
    && d.effects == db.effects && d.advances == db.advances
    && d.instances == db.instances[inst := d.instances[inst]]
    && d.instances[inst].definition == db.instances[inst].definition
    && var stage := d.instances[inst].stage.value;
       var key := Key(inst, stage, trigger);
       if !IsAutomatic(design, stage) then d.receipts == db.receipts
       else
         && key !in db.receipts && key in d.receipts && d.receipts == db.receipts[key := d.receipts[key]]
         && TakenFrom(design[stage].kind, d.receipts[key]) && d.receipts[key].attempts == 0
         && (d.receipts[key].status.Pending? || (d.receipts[key].status.Failed? && d.instances[inst].status.Broken?))
  }

  lemma {:induction false} ActivateArrives(design: Design, db: Db, inst: InstanceId, stage: StageId, trigger: Trigger,
                                           env: Surroundings)
    requires inst in db.instances && NoLive(db, inst, trigger)
    requires Activate(design, db, inst, stage, trigger, env).Some?
    ensures Arrives(design, db, Activate(design, db, inst, stage, trigger, env).value, inst, trigger)
    decreases |env.conditions|
  {
    var moved := SetInstance(db, inst, db.instances[inst].(stage := Some(stage)));
    if design[stage].kind.Condition? {
      var kind := design[stage].kind;
      var next := if env.conditions[0] then kind.onTrue else kind.onFalse;
      ActivateArrives(design, moved, inst, next.value, trigger, env.(conditions := env.conditions[1..]));
    }
  }

  /** Where an activation ends up: conditions are followed one by one. */
  function Destination(design: Design, stage: StageId, conditions: seq<bool>): (d: Option<StageId>)
    ensures d.Some? ==> d.value in design && !design[d.value].kind.Condition?
    decreases |conditions|
  {
    if stage !in design then None
    else if !design[stage].kind.Condition? then Some(stage)
    else if conditions == [] then None
    else
      var kind := design[stage].kind;
      var next := if conditions[0] then kind.onTrue else kind.onFalse;
      if next == None then None else Destination(design, next.value, conditions[1..])
  }

  /** It ends up there, or raises; an End gives the instance its outcome. */
  lemma {:induction false} ActivateGoesTo(design: Design, db: Db, inst: InstanceId, stage: StageId, trigger: Trigger,
                                          env: Surroundings)
    requires inst in db.instances && NoLive(db, inst, trigger)
    requires Activate(design, db, inst, stage, trigger, env).Some?
    ensures var d := Activate(design, db, inst, stage, trigger, env).value;
      && inst in d.instances && d.instances[inst].stage == Destination(design, stage, env.conditions)
      && d.instances[inst].stage.Some? && d.instances[inst].stage.value in design
      && d.instances[inst].status ==
         (match design[d.instances[inst].stage.value].kind
          case End(outcome) => outcome
          case Automatic(_, _, _) => if env.serviceUser then db.instances[inst].status else Broken
          case _ => db.instances[inst].status)
    decreases |env.conditions|
  {
    if design[stage].kind.Condition? {
      var kind := design[stage].kind;
      var next := if env.conditions[0] then kind.onTrue else kind.onFalse;
      var moved := SetInstance(db, inst, db.instances[inst].(stage := Some(stage)));
      ActivateGoesTo(design, moved, inst, next.value, trigger, env.(conditions := env.conditions[1..]));
    }
  }

  /** Arriving keeps the invariant, also when the database was only whole up to the receipt of
      the stage that was left: `inst` itself may have been without a live execution. */
  ghost predicate InvExcept(design: Design, db: Db, inst: InstanceId) {
    && Known(design, db) && Budgets(db) && OneLive(db)
    && forall i | i != inst && WaitsAutomatically(design, db, i) :: Served(db, i, db.instances[i].stage.value)
  }

  lemma ArrivalKeeps(design: Design, db: Db, d: Db, inst: InstanceId, trigger: Trigger)
    requires ValidDesign(design) && InvExcept(design, db, inst) && NoLive(db, inst, trigger)
    requires Arrives(design, db, d, inst, trigger)
    ensures Known(design, d) && Budgets(d) && OneLive(d) && NotStranded(design, d)
    ensures forall k | k in db.receipts :: k in d.receipts && d.receipts[k] == db.receipts[k]
    ensures forall k :: Committed(d, k) == Committed(db, k)
  {
    ArrivalKeepsReceipts(design, db, d, inst, trigger);
    ArrivalServes(design, db, d, inst, trigger);
  }

  /** The receipts stay, and a new one is the only live one of its trigger. */
  lemma ArrivalKeepsReceipts(design: Design, db: Db, d: Db, inst: InstanceId, trigger: Trigger)
    requires ValidDesign(design) && InvExcept(design, db, inst) && NoLive(db, inst, trigger)
    requires Arrives(design, db, d, inst, trigger)
    ensures Known(design, d) && Budgets(d) && OneLive(d)
    ensures forall k | k in db.receipts :: k in d.receipts && d.receipts[k] == db.receipts[k]
    ensures forall k :: Committed(d, k) == Committed(db, k)
  {
    var key := Key(inst, d.instances[inst].stage.value, trigger);
    forall k ensures k in d.receipts ==> k == key || (k in db.receipts && d.receipts[k] == db.receipts[k])
      ensures k in db.receipts ==> k in d.receipts && d.receipts[k] == db.receipts[k]
    {
    }
    OneLiveMore(db, d, key);
  }

  lemma OneLiveMore(db: Db, d: Db, key: Key)
    requires OneLive(db) && NoLive(db, key.inst, key.trigger)
    requires forall k | k in d.receipts :: k == key || (k in db.receipts && d.receipts[k] == db.receipts[k])
    ensures OneLive(d)
  {
    forall k, l | IsLive(d, k) && IsLive(d, l) && k.inst == l.inst && k.trigger == l.trigger ensures k == l {
      assert k != key ==> IsLive(db, k);
      assert l != key ==> IsLive(db, l);
    }
  }

  lemma ArrivalServes(design: Design, db: Db, d: Db, inst: InstanceId, trigger: Trigger)
    requires InvExcept(design, db, inst) && Arrives(design, db, d, inst, trigger)
    requires forall k | k in db.receipts :: k in d.receipts && d.receipts[k] == db.receipts[k]
    ensures NotStranded(design, d)
  {
    forall i | WaitsAutomatically(design, d, i) ensures Served(d, i, d.instances[i].stage.value) {
      if i == inst {
        assert IsLive(d, Key(inst, d.instances[inst].stage.value, trigger));
      } else {
        var t :| IsLive(db, Key(i, db.instances[i].stage.value, t));
        assert IsLive(d, Key(i, d.instances[i].stage.value, t));
      }
    }
  }

  /* ---------- finishing ---------- */

  lemma SuccessKeeps(design: Design, db: Db, key: Key, env: Surroundings)
    requires ValidDesign(design) && InvExcept(design, db, key.inst)
    requires key in db.receipts && NoLive(db, key.inst, key.trigger)
    requires Finish(design, db, key, true, env).Some?
    ensures var d := Finish(design, db, key, true, env).value;
      && Known(design, d) && Budgets(d) && OneLive(d) && NotStranded(design, d)
      && d.effects == db.effects && d.advances == db.advances + [key]
      && (forall k | k in db.receipts :: k in d.receipts && d.receipts[k] == db.receipts[k])
      && (forall k :: Committed(d, k) == Committed(db, k))
  {
    var target := db.receipts[key].success.value;
    ActivateArrives(design, db, key.inst, target, key.trigger, env);
    ArrivalKeeps(design, db, Activate(design, db, key.inst, target, key.trigger, env).value, key.inst, key.trigger);
  }

  /** A final failure ends at the User Task of the error route, or with a failed instance. */
  lemma FinalFailureEnds(design: Design, db: Db, key: Key, env: Surroundings)
    requires key in db.receipts && key.inst in db.instances
    ensures var d := FinalFailure(design, db, key, env);
      && d.receipts == db.receipts && d.effects == db.effects && d.advances == db.advances
      && key.inst in d.instances && d.instances == db.instances[key.inst := d.instances[key.inst]]
      && var before, after := db.instances[key.inst], d.instances[key.inst];
         var error := db.receipts[key].error;
         if error.Some? && error.value in design && design[error.value].kind.UserTask?
            && design[error.value].definition == before.definition && !env.raises
         then after == before.(stage := error)
         else after == before.(status := Broken)
  {
  }

  lemma FinalFailureKeeps(design: Design, db: Db, key: Key, env: Surroundings)
    requires ValidDesign(design) && InvExcept(design, db, key.inst) && Logs(db) && key in db.receipts
    ensures Inv(design, FinalFailure(design, db, key, env))
  {
    FinalFailureEnds(design, db, key, env);
    var d := FinalFailure(design, db, key, env);
    assert forall k :: Committed(d, k) == Committed(db, k);
    forall i | WaitsAutomatically(design, d, i) ensures Served(d, i, d.instances[i].stage.value) {
      assert i != key.inst;
      var t :| IsLive(db, Key(i, db.instances[i].stage.value, t));
      assert IsLive(d, Key(i, d.instances[i].stage.value, t));
    }
  }

  /* ---------- one receipt changes ---------- */

  /** Storing a new state of one live receipt: only its own instance may then be unserved. */
  lemma ReceiptKeepsOthers(design: Design, db: Db, key: Key, r: Receipt)
    requires Inv(design, db) && IsLive(db, key) && BudgetKept(r) && SamePlan(r, db.receipts[key])
    ensures InvExcept(design, SetReceipt(db, key, r), key.inst)
    ensures !r.status.Live() ==> NoLive(SetReceipt(db, key, r), key.inst, key.trigger)
  {
    var d := SetReceipt(db, key, r);
    assert forall k | k != key :: IsLive(d, k) == IsLive(db, k);
    forall k | k in d.receipts && k.inst == key.inst && k.trigger == key.trigger && !r.status.Live()
      ensures !d.receipts[k].status.Live()
    {
      if IsLive(db, k) { assert k == key; }
    }
    forall i | i != key.inst && WaitsAutomatically(design, d, i)
      ensures Served(d, i, d.instances[i].stage.value)
    {
      var t :| IsLive(db, Key(i, db.instances[i].stage.value, t));
      assert IsLive(d, Key(i, d.instances[i].stage.value, t));
    }
  }

  /** While the receipt stays live, or its instance is elsewhere, nothing else is needed. */
  lemma ReceiptKeeps(design: Design, db: Db, key: Key, r: Receipt)
    requires Inv(design, db) && IsLive(db, key)
    requires BudgetKept(r) && SamePlan(r, db.receipts[key]) && !r.status.Success()
    ensures InvExcept(design, SetReceipt(db, key, r), key.inst) && Logs(SetReceipt(db, key, r))
    ensures r.status.Live() || !WaitsAt(db, key) ==> Inv(design, SetReceipt(db, key, r))
    ensures !r.status.Live() ==> NoLive(SetReceipt(db, key, r), key.inst, key.trigger)
  {
    ReceiptKeepsOthers(design, db, key, r);
    assert forall k :: Committed(SetReceipt(db, key, r), k) == Committed(db, k);
    if r.status.Live() || !WaitsAt(db, key) {
      StillServed(design, db, key, r);
    }
  }

  lemma StillServed(design: Design, db: Db, key: Key, r: Receipt)
    requires NotStranded(design, db) && (r.status.Live() || !WaitsAt(db, key))
    ensures var d := SetReceipt(db, key, r);
      WaitsAutomatically(design, d, key.inst) ==> Served(d, key.inst, d.instances[key.inst].stage.value)
  {
    var d := SetReceipt(db, key, r);
    if WaitsAutomatically(design, d, key.inst) {
      var stage := d.instances[key.inst].stage.value;
      var t :| IsLive(db, Key(key.inst, stage, t));
      assert IsLive(d, Key(key.inst, stage, t));
    }
  }

  lemma AfterFailureKeepsBudget(r: Receipt, transient: bool, now: int)
    requires BudgetKept(r) && r.status.Running?
    ensures BudgetKept(AfterFailure(r, transient, now)) && SamePlan(AfterFailure(r, transient, now), r)
    ensures AfterFailure(r, transient, now).status.RetryPending? || AfterFailure(r, transient, now).status.Failed?
  {
  }

  /* ---------- every step keeps the invariant ---------- */

  function AfterClaim(r: Receipt, now: int): Receipt {
    r.(attempts := r.attempts + 1, startedOn := now, status := Running)
  }

  lemma ClaimKeepsBudget(r: Receipt, now: int)
    requires BudgetKept(r) && (r.status.Pending? || r.status.RetryPending?)
    ensures BudgetKept(AfterClaim(r, now))
  {
  }

  lemma ClaimKeeps(design: Design, db: Db, key: Key, now: int)
    requires Inv(design, db)
    ensures Inv(design, Claim(db, key, now))
  {
    if CanClaim(db, key, now) {
      var r := AfterClaim(db.receipts[key], now);
      assert BudgetKept(r) by { ClaimKeepsBudget(db.receipts[key], now); }
      ReceiptKeeps(design, db, key, r);
      assert Claim(db, key, now) == SetReceipt(db, key, r);
    }
  }

  function Done(r: Receipt, work: Work, now: int): Receipt {
    r.(status := if work.channelErrors then CompletedWithErrors else Succeeded, completedOn := Some(now))
  }

  /** The logs grow by the one execution whose receipt becomes a success. */
  lemma LogsGrow(db: Db, d: Db, key: Key)
    requires Logs(db) && !Committed(db, key) && Committed(d, key)
    requires forall k | k != key :: Committed(d, k) == Committed(db, k)
    requires d.effects == db.effects + [key] && d.advances == db.advances + [key]
    ensures Logs(d)
  {
  }

  /** The receipt of a success, together with its effects. */
  lemma DoneKeepsOthers(design: Design, db: Db, key: Key, r: Receipt)
    requires Inv(design, db) && IsLive(db, key) && r.status.Success()
    requires BudgetKept(r) && SamePlan(r, db.receipts[key])
    ensures var d := SetReceipt(db.(effects := db.effects + [key]), key, r);
            InvExcept(design, d, key.inst) && NoLive(d, key.inst, key.trigger)
  {
    var d := SetReceipt(db.(effects := db.effects + [key]), key, r);
    ReceiptKeepsOthers(design, db, key, r);
    SameInstancesAndReceipts(design, SetReceipt(db, key, r), d, key);
  }

  /** Effects, receipt and route commit together, and only for an execution not yet committed. */
  lemma PerformKeeps(design: Design, db: Db, key: Key, work: Work, env: Surroundings)
    requires ValidDesign(design) && Inv(design, db) && MayExecute(db, key)
    requires Perform(design, db, key, work, env).Some?
    ensures Inv(design, Perform(design, db, key, work, env).value)
  {
    var r := Done(db.receipts[key], work, env.now);
    var d := SetReceipt(db.(effects := db.effects + [key]), key, r);
    DoneKeepsOthers(design, db, key, r);
    SuccessKeeps(design, d, key, env);
    var done := Perform(design, db, key, work, env).value;
    assert done == Finish(design, d, key, true, env).value;
    assert forall k | k != key :: Committed(d, k) == Committed(db, k);
    LogsGrow(db, done, key);
  }

  /** A successful execution sends its instance along the success route of its stage, within the
      instance's own definition. */
  lemma SuccessFollowsRoute(design: Design, db: Db, key: Key, work: Work, env: Surroundings)
    requires ValidDesign(design) && Inv(design, db) && MayExecute(db, key)
    requires Perform(design, db, key, work, env).Some?
    ensures var success, d := design[key.stage].kind.success, Perform(design, db, key, work, env).value;
      && success.Some? && success.value in design
      && design[success.value].definition == db.instances[key.inst].definition
      && key.inst in d.instances && d.instances[key.inst].stage == Destination(design, success.value, env.conditions)
  {
    var r := Done(db.receipts[key], work, env.now);
    var d := SetReceipt(db.(effects := db.effects + [key]), key, r);
    assert NoLive(d, key.inst, key.trigger) by {
      ReceiptKeepsOthers(design, db, key, r);
      assert NoLive(SetReceipt(db, key, r), key.inst, key.trigger);
    }
    ActivateGoesTo(design, d, key.inst, r.success.value, key.trigger, env);
  }

  lemma SameInstancesAndReceipts(design: Design, a: Db, b: Db, key: Key)
    requires a.receipts == b.receipts && a.instances == b.instances
    requires InvExcept(design, a, key.inst) && NoLive(a, key.inst, key.trigger)
    ensures InvExcept(design, b, key.inst) && NoLive(b, key.inst, key.trigger)
  {
    assert forall k :: IsLive(a, k) == IsLive(b, k);
    forall i | i != key.inst && WaitsAutomatically(design, b, i) ensures Served(b, i, b.instances[i].stage.value) {
      var t :| IsLive(a, Key(i, a.instances[i].stage.value, t));
      assert IsLive(b, Key(i, b.instances[i].stage.value, t));
    }
  }

  lemma ExecuteKeeps(design: Design, db: Db, key: Key, work: Work, env: Surroundings)
    requires ValidDesign(design) && Inv(design, db)
    ensures Inv(design, Execute(design, db, key, work, env).0)
  {
    if MayExecute(db, key) {
      if !WaitsAt(db, key) {
        ReceiptKeeps(design, db, key, db.receipts[key].(status := Cancelled));
      } else if Perform(design, db, key, work, env).Some? {
        PerformKeeps(design, db, key, work, env);
      }
    }
  }

  lemma RecordFailureKeeps(design: Design, db: Db, key: Key, transient: bool, env: Surroundings)
    requires ValidDesign(design) && Inv(design, db)
    ensures Inv(design, RecordFailure(design, db, key, transient, env))
  {
    if MayExecute(db, key) {
      var r := AfterFailure(db.receipts[key], transient, env.now);
      AfterFailureKeepsBudget(db.receipts[key], transient, env.now);
      ReceiptKeeps(design, db, key, r);
      if r.status.Failed? {
        FinalFailureKeeps(design, SetReceipt(db, key, r), key, env);
      }
    }
  }

  lemma SweepOneKeeps(design: Design, db: Db, row: Row)
    requires ValidDesign(design) && Inv(design, db)
    ensures Inv(design, SweepOne(design, db, row))
  {
    if SweepOne(design, db, row) != db {
      var r := AfterFailure(db.receipts[row.key], true, row.env.now);
      AfterFailureKeepsBudget(db.receipts[row.key], true, row.env.now);
      ReceiptKeeps(design, db, row.key, r);
      if r.status.Failed? && WaitsAt(db, row.key) {
        FinalFailureKeeps(design, SetReceipt(db, row.key, r), row.key, row.env);
      }
    }
  }

  lemma {:induction false} SweepKeeps(design: Design, db: Db, rows: seq<Row>)
    requires ValidDesign(design) && Inv(design, db)
    ensures Inv(design, Sweep(design, db, rows))
  {
    if rows != [] {
      SweepKeeps(design, db, rows[..|rows| - 1]);
      SweepOneKeeps(design, Sweep(design, db, rows[..|rows| - 1]), rows[|rows| - 1]);
    }
  }

  lemma ActivationKeeps(design: Design, db: Db, inst: InstanceId, stage: StageId, trigger: Trigger, env: Surroundings)
    requires ValidDesign(design) && InvExcept(design, db, inst) && Logs(db) && inst in db.instances
    requires Unused(db, inst, trigger) && Activate(design, db, inst, stage, trigger, env).Some?
    ensures Inv(design, Activate(design, db, inst, stage, trigger, env).value)
  {
    ActivateArrives(design, db, inst, stage, trigger, env);
    ArrivalKeeps(design, db, Activate(design, db, inst, stage, trigger, env).value, inst, trigger);
  }

  lemma PeopleKeep(design: Design, db: Db, inst: InstanceId, definition: string, task: string, stage: StageId,
                   status: InstanceStatus, env: Surroundings)
    requires ValidDesign(design) && Inv(design, db)
    ensures Inv(design, StartInstance(design, db, inst, definition, stage, env))
    ensures Inv(design, CompleteTask(design, db, inst, task, stage, env))
    ensures Inv(design, EndInstance(db, inst, status))
  {
    StartKeeps(design, db, inst, definition, stage, env);
    if CompleteTask(design, db, inst, task, stage, env) != db {
      ActivationKeeps(design, db, inst, stage, Task(task), env);
    }
    EndKeeps(design, db, inst, status);
  }

  lemma StartKeeps(design: Design, db: Db, inst: InstanceId, definition: string, stage: StageId, env: Surroundings)
    requires ValidDesign(design) && Inv(design, db)
    ensures Inv(design, StartInstance(design, db, inst, definition, stage, env))
  {
    if StartInstance(design, db, inst, definition, stage, env) != db {
      var d := SetInstance(db, inst, Instance(definition, InProgress, None));
      InstanceKeeps(design, db, inst, Instance(definition, InProgress, None));
      ActivationKeeps(design, d, inst, stage, Start, env);
    }
  }

  lemma EndKeeps(design: Design, db: Db, inst: InstanceId, status: InstanceStatus)
    requires ValidDesign(design) && Inv(design, db)
    ensures Inv(design, EndInstance(db, inst, status))
  {
    if inst in db.instances && !status.InProgress? {
      InstanceKeeps(design, db, inst, db.instances[inst].(status := status));
    }
  }

  /** Storing an instance that waits at no automatic stage. */
  lemma InstanceKeeps(design: Design, db: Db, inst: InstanceId, instance: Instance)
    requires Inv(design, db) && (instance.stage == None || !instance.status.InProgress?)
    ensures Inv(design, SetInstance(db, inst, instance)) && InvExcept(design, SetInstance(db, inst, instance), inst)
  {
    var d := SetInstance(db, inst, instance);
    assert forall k :: Committed(d, k) == Committed(db, k) && IsLive(d, k) == IsLive(db, k);
    forall i | WaitsAutomatically(design, d, i) ensures Served(d, i, d.instances[i].stage.value) {
      var t :| IsLive(db, Key(i, db.instances[i].stage.value, t));
      assert IsLive(d, Key(i, d.instances[i].stage.value, t));
    }
  }

  lemma NextKeeps(design: Design, s: Sys, step: Step)
    requires ValidDesign(design) && Inv(design, s.db)
    ensures Inv(design, Next(design, s, step).db)
  {
    match step
    case StartStep(inst, definition, first, env) => StartKeeps(design, s.db, inst, definition, first, env);
    case TaskStep(inst, task, next, env) => PeopleKeep(design, s.db, inst, "", task, next, Stopped, env);
    case EndStep(inst, status) => EndKeeps(design, s.db, inst, status);
    case ClaimStep(w, key, now) => ClaimKeeps(design, s.db, key, now);
    case ExecuteStep(w, work, env) =>
      if w in s.workers { ExecuteKeeps(design, s.db, s.workers[w].key, work, env); }
    case FailStep(w, env) =>
      if w in s.workers && s.workers[w].Failing? {
        RecordFailureKeeps(design, s.db, s.workers[w].key, s.workers[w].transient, env);
      }
    case CrashStep(w) =>
    case SweepStep(rows) => SweepKeeps(design, s.db, rows);
  }

  lemma {:induction false} RunKeeps(design: Design, steps: seq<Step>)
    requires ValidDesign(design)
    ensures Inv(design, Run(design, steps).db)
  {
    if steps != [] {
      RunKeeps(design, steps[..|steps| - 1]);
      NextKeeps(design, Run(design, steps[..|steps| - 1]), steps[|steps| - 1]);
    }
  }
}
