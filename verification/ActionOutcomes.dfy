/** What the transactions of a run leave behind, in terms of the design, the clock and what the action
    did (asoud_erp/services/automatic_action_runtime.py:386-571,
    asoud_erp/services/automatic_action_policy.py:258-261). */
module ActionOutcomes {
  import opened Basics
  import opened ActionProtocol
  import opened ActionSafety
  import opened ActionRuns

  /* ---------- the routes of the design ---------- */

  /** In every run a receipt holds the policy and the two routes that its stage has in the design. */
  lemma RoutesAreDesigned(design: Design, steps: seq<Step>, k: Key)
    requires ValidDesign(design) && k in Run(design, steps).db.receipts
    ensures IsAutomatic(design, k.stage)
    ensures var r, kind := Run(design, steps).db.receipts[k], design[k.stage].kind;
            r.success == kind.success && r.error == kind.error && r.policy == kind.policy
  {
    RunKeeps(design, steps);
  }

  /** Where an activation can arrive: conditions lead to a stage, and it can be entered. */
  predicate CanArrive(design: Design, db: Db, inst: InstanceId, stage: StageId, trigger: Trigger, env: Surroundings) {
    var destination := Destination(design, stage, env.conditions);
    && !env.raises && destination.Some?
    && !design[destination.value].kind.Wait?
    && (design[destination.value].kind.Automatic? ==>
          var key := Key(inst, destination.value, trigger); key in db.receipts ==> db.receipts[key].status.Live())
  }

  lemma {:induction false} ArrivesExactly(design: Design, db: Db, inst: InstanceId, stage: StageId, trigger: Trigger,
                                          env: Surroundings)
    requires inst in db.instances
    ensures Activate(design, db, inst, stage, trigger, env).Some? <==> CanArrive(design, db, inst, stage, trigger, env)
    decreases |env.conditions|
  {
    if stage in design && design[stage].kind.Condition? && env.conditions != [] {
      var kind := design[stage].kind;
      var next := if env.conditions[0] then kind.onTrue else kind.onFalse;
      var moved := SetInstance(db, inst, db.instances[inst].(stage := Some(stage)));
      if next.Some? {
        ArrivesExactly(design, moved, inst, next.value, trigger, env.(conditions := env.conditions[1..]));
      }
    }
  }

  /** The receipt of a new execution: it waits and is due at once, with the policy and the routes of its
      stage; without a service user it has failed, and the instance with it. */
  function NewReceipt(kind: StageKind, env: Surroundings): Receipt
    requires kind.Automatic?
  {
    var waiting := Receipt(Pending, 0, 0, Some(env.now), None, kind.success, kind.error, kind.policy);
    if env.serviceUser then waiting else waiting.(status := Failed, completedOn := Some(env.now))
  }

  /** An activation stores the one new receipt of the automatic stage it arrives at, and no other. */
  lemma {:induction false} ArrivalStores(design: Design, db: Db, inst: InstanceId, stage: StageId, trigger: Trigger,
                                         env: Surroundings)
    requires inst in db.instances && CanArrive(design, db, inst, stage, trigger, env)
    ensures var d := Activate(design, db, inst, stage, trigger, env);
      var destination := Destination(design, stage, env.conditions).value;
      && d.Some? && d.value.effects == db.effects && d.value.advances == db.advances
      && var key := Key(inst, destination, trigger);
         d.value.receipts ==
           if design[destination].kind.Automatic? && key !in db.receipts
           then db.receipts[key := NewReceipt(design[destination].kind, env)] else db.receipts
    decreases |env.conditions|
  {
    if design[stage].kind.Condition? {
      var kind := design[stage].kind;
      var next := if env.conditions[0] then kind.onTrue else kind.onFalse;
      var moved := SetInstance(db, inst, db.instances[inst].(stage := Some(stage)));
      ArrivalStores(design, moved, inst, next.value, trigger, env.(conditions := env.conditions[1..]));
    }
  }

  /** Activating a stage again while its execution is under way changes nothing. */
  lemma ScheduleTwice(design: Design, db: Db, key: Key, env: Surroundings, again: Surroundings)
    requires key.inst in db.instances && IsAutomatic(design, key.stage) && Schedule(design, db, key, env).Some?
    ensures var d := Schedule(design, db, key, env).value;
      && key.inst in d.instances && key in d.receipts
      && Schedule(design, d, key, again) == if d.receipts[key].status.Live() then Some(d) else None
  {
  }

  /* ---------- the claim ---------- */

  /** A worker's claim: a receipt that waits and is due gets one more attempt, and is otherwise left alone. */
  lemma ClaimOutcome(design: Design, s: Sys, w: nat, key: Key, now: int)
    requires w !in s.workers
    ensures var t := Next(design, s, ClaimStep(w, key, now));
      if key in s.db.receipts && s.db.receipts[key].status in {Pending, RetryPending}
         && (s.db.receipts[key].nextAttempt == None || s.db.receipts[key].nextAttempt.value <= now)
      then
        var r := s.db.receipts[key];
        && t.workers == s.workers[w := Claimed(key)]
        && var started := r.(attempts := r.attempts + 1, startedOn := now, status := Running);
           t.db == s.db.(receipts := s.db.receipts[key := started])
      else t == s
  {
  }

  /** When the last attempt of an execution was claimed. */
  function LastClaim(design: Design, steps: seq<Step>, k: Key): Option<int> {
    if steps == [] then None else
      var before := steps[..|steps| - 1];
      var step := steps[|steps| - 1];
      if step.ClaimStep? && ClaimedBy(Run(design, before), step) == Some(k) then Some(step.now)
      else LastClaim(design, before, k)
  }

  /** What a transaction other than a claim may do to a receipt: finish or interrupt the attempt that runs. */
  predicate Follows(r: Receipt, q: Receipt) {
    q == r || (r.status.Running? && !q.status.Running? && q.startedOn == r.startedOn && q.attempts == r.attempts)
  }

  ghost predicate AllFollow(db: Db, d: Db) {
    && (forall k | k in db.receipts :: k in d.receipts && Follows(db.receipts[k], d.receipts[k]))
    && (forall k | k in d.receipts && k !in db.receipts :: !d.receipts[k].status.Running?)
  }

  lemma AllFollowJoin(a: Db, b: Db, c: Db)
    requires AllFollow(a, b) && AllFollow(b, c)
    ensures AllFollow(a, c)
  {
  }

  lemma AfterFailureFollows(design: Design, db: Db, key: Key, transient: bool, env: Surroundings)
    requires MayExecute(db, key)
    ensures AllFollow(db, SetReceipt(db, key, AfterFailure(db.receipts[key], transient, env.now)))
    ensures var d := SetReceipt(db, key, AfterFailure(db.receipts[key], transient, env.now));
            AllFollow(db, FinalFailure(design, d, key, env))
  {
    FinalFailureEnds(design, SetReceipt(db, key, AfterFailure(db.receipts[key], transient, env.now)), key, env);
  }

  lemma ExecuteFollows(design: Design, db: Db, key: Key, work: Work, env: Surroundings)
    ensures AllFollow(db, Execute(design, db, key, work, env).0)
  {
    if MayExecute(db, key) && WaitsAt(db, key) && Perform(design, db, key, work, env).Some? {
      var r := Done(db.receipts[key], work, env.now);
      var d := SetReceipt(db.(effects := db.effects + [key]), key, r);
      ActivateKeepsReceipts(design, d, key.inst, r.success.value, key.trigger, env);
    }
  }

  lemma {:induction false} SweepFollows(design: Design, db: Db, rows: seq<Row>)
    ensures AllFollow(db, Sweep(design, db, rows))
  {
    if rows != [] {
      var before, row := Sweep(design, db, rows[..|rows| - 1]), rows[|rows| - 1];
      SweepFollows(design, db, rows[..|rows| - 1]);
      if MayExecute(before, row.key) {
        AfterFailureFollows(design, before, row.key, true, row.env);
      }
      AllFollowJoin(db, before, Sweep(design, db, rows));
    }
  }

  lemma ActivationFollows(design: Design, db: Db, inst: InstanceId, definition: string, task: string, stage: StageId,
                          env: Surroundings)
    ensures AllFollow(db, StartInstance(design, db, inst, definition, stage, env))
    ensures AllFollow(db, CompleteTask(design, db, inst, task, stage, env))
  {
    var d := SetInstance(db, inst, Instance(definition, InProgress, None));
    if Activate(design, d, inst, stage, Start, env).Some? {
      ActivateKeepsReceipts(design, d, inst, stage, Start, env);
    }
    if inst in db.instances && Activate(design, db, inst, stage, Task(task), env).Some? {
      ActivateKeepsReceipts(design, db, inst, stage, Task(task), env);
    }
  }

  lemma NextFollows(design: Design, s: Sys, step: Step)
    requires ClaimedBy(s, step) == None
    ensures AllFollow(s.db, Next(design, s, step).db)
  {
    match step
    case StartStep(inst, definition, first, env) => ActivationFollows(design, s.db, inst, definition, "", first, env);
    case TaskStep(inst, task, next, env) => ActivationFollows(design, s.db, inst, "", task, next, env);
    case ExecuteStep(w, work, env) =>
      if w in s.workers { ExecuteFollows(design, s.db, s.workers[w].key, work, env); }
    case FailStep(w, env) =>
      if w in s.workers && s.workers[w].Failing? && MayExecute(s.db, s.workers[w].key) {
        AfterFailureFollows(design, s.db, s.workers[w].key, s.workers[w].transient, env);
      }
    case SweepStep(rows) => SweepFollows(design, s.db, rows);
    case _ =>
  }

  /** A receipt that is not claimed in a step follows from what it was. */
  lemma UnclaimedFollows(design: Design, s: Sys, step: Step, k: Key)
    requires ClaimedBy(s, step) != Some(k)
    ensures var d := Next(design, s, step).db;
      && (k in s.db.receipts ==> k in d.receipts && Follows(s.db.receipts[k], d.receipts[k]))
      && (k in d.receipts && k !in s.db.receipts ==> !d.receipts[k].status.Running?)
  {
    if ClaimedBy(s, step) == None {
      NextFollows(design, s, step);
    }
  }

  /** The start in a running receipt is the time of its last claim. */
  lemma {:induction false} RunningSinceClaim(design: Design, steps: seq<Step>, k: Key)
    ensures var db := Run(design, steps).db;
      k in db.receipts && db.receipts[k].status.Running? ==>
        LastClaim(design, steps, k) == Some(db.receipts[k].startedOn)
  {
    if steps != [] {
      var before, step := steps[..|steps| - 1], steps[|steps| - 1];
      RunningSinceClaim(design, before, k);
      if ClaimedBy(Run(design, before), step) != Some(k) {
        UnclaimedFollows(design, Run(design, before), step, k);
      }
    }
  }

  /* ---------- attempts that still have time ---------- */

  /** A sweep never takes back an attempt that was claimed no longer ago than its timeout and a minute. */
  lemma YoungAttemptsAreLeft(design: Design, steps: seq<Step>, rows: seq<Row>, k: Key)
    requires ValidDesign(design)
    requires k in Run(design, steps).db.receipts && Run(design, steps).db.receipts[k].status.Running?
    ensures var claimed := LastClaim(design, steps, k);
      && claimed.Some? && IsAutomatic(design, k.stage)
      && ((forall row | row in rows && row.key == k ::
             row.env.now <= claimed.value + design[k.stage].kind.policy.timeoutSeconds + 60) ==>
          var d := Run(design, steps + [SweepStep(rows)]).db;
          k in d.receipts && d.receipts[k] == Run(design, steps).db.receipts[k])
  {
    var db := Run(design, steps).db;
    RunKeeps(design, steps);
    RunningSinceClaim(design, steps, k);
    assert (steps + [SweepStep(rows)])[..|steps|] == steps;
    SweepLeavesOrReleases(design, db, rows, k);
  }

  /* ---------- failures ---------- */

  /** The seconds to wait after the n-th attempt: they double from one attempt to the next, up to an hour. */
  function Backoff(p: Policy, n: nat): nat {
    if n <= 1 then p.retrySeconds else
      var twice := 2 * Backoff(p, n - 1);
      if twice <= 3600 then twice else 3600
  }

  lemma {:induction false} DelayIsBackoff(p: Policy, n: nat, transient: bool)
    requires ValidPolicy(p) && n >= 1
    ensures RetryDelay(p, n, transient) == if transient && n <= p.extraAttempts then Some(Backoff(p, n)) else None
    ensures Backoff(p, n) == Min(3600, p.retrySeconds * PowerOfTwo(n - 1))
  {
    if n > 1 {
      DelayIsBackoff(p, n - 1, transient);
      DoublesProduct(p.retrySeconds, PowerOfTwo(n - 2));
    }
  }

  lemma DoublesProduct(c: nat, x: nat)
    ensures c * (2 * x) == 2 * (c * x)
  {
  }

  /** The receipt of the n-th attempt after its failure. */
  predicate RecordedFailure(r: Receipt, q: Receipt, n: nat, transient: bool, now: int) {
    if transient && n <= r.policy.extraAttempts
    then q == r.(status := RetryPending, nextAttempt := Some(now + Backoff(r.policy, n)), completedOn := None)
    else q == r.(status := Failed, nextAttempt := None, completedOn := Some(now))
  }

  lemma AfterFailureRecords(r: Receipt, transient: bool, now: int)
    requires ValidPolicy(r.policy) && r.attempts >= 1
    ensures RecordedFailure(r, AfterFailure(r, transient, now), r.attempts, transient, now)
  {
    DelayIsBackoff(r.policy, r.attempts, transient);
  }

  /** Where a final failure leaves the instance: at the error User Task of the stage, or failed. */
  ghost predicate EndsFinally(design: Design, db: Db, d: Db, key: Key, env: Surroundings)
    requires IsAutomatic(design, key.stage) && key.inst in db.instances
  {
    d.instances == db.instances[key.inst :=
      if ErrorRouteUsable(design, db, key, env) then db.instances[key.inst].(stage := design[key.stage].kind.error)
      else db.instances[key.inst].(status := Broken)]
  }

  lemma FinalFailureByDesign(design: Design, db: Db, key: Key, env: Surroundings)
    requires Known(design, db) && key in db.receipts
    ensures EndsFinally(design, db, FinalFailure(design, db, key, env), key, env)
    ensures FinalFailure(design, db, key, env).receipts == db.receipts
    ensures FinalFailure(design, db, key, env).effects == db.effects
    ensures FinalFailure(design, db, key, env).advances == db.advances
  {
    FinalFailureEnds(design, db, key, env);
  }

  /** The failure of a worker, recorded in its own transaction: after the n-th attempt a transient error is
      tried again as long as the policy has further attempts, and any other failure is final. */
  lemma FailureOutcome(design: Design, steps: seq<Step>, w: nat, env: Surroundings)
    requires ValidDesign(design) && w in Run(design, steps).workers && Run(design, steps).workers[w].Failing?
    ensures var s, t := Run(design, steps), Run(design, steps + [FailStep(w, env)]);
      var key, transient := s.workers[w].key, s.workers[w].transient;
      && t.workers == s.workers - {w} && t.db.effects == s.db.effects && t.db.advances == s.db.advances
      && if key !in s.db.receipts || !s.db.receipts[key].status.Running? then t.db == s.db
         else
           var n := Starts(design, steps, key);
           && key in t.db.receipts && t.db.receipts == s.db.receipts[key := t.db.receipts[key]]
           && RecordedFailure(s.db.receipts[key], t.db.receipts[key], n, transient, env.now)
           && IsAutomatic(design, key.stage) && key.inst in s.db.instances
           && if transient && n <= design[key.stage].kind.policy.extraAttempts then t.db.instances == s.db.instances
              else EndsFinally(design, s.db, t.db, key, env)
  {
    var s := Run(design, steps);
    var key, transient := s.workers[w].key, s.workers[w].transient;
    RunKeeps(design, steps);
    assert (steps + [FailStep(w, env)])[..|steps|] == steps;
    StartsAreCounted(design, steps, key);
    if key in s.db.receipts && s.db.receipts[key].status.Running? {
      assert BudgetKept(s.db.receipts[key]);
      AfterFailureRecords(s.db.receipts[key], transient, env.now);
      RecordedByDesign(design, s.db, key, transient, env);
    }
  }

  lemma RecordedByDesign(design: Design, db: Db, key: Key, transient: bool, env: Surroundings)
    requires Known(design, db) && MayExecute(db, key)
    ensures var r := AfterFailure(db.receipts[key], transient, env.now);
      var d := RecordFailure(design, db, key, transient, env);
      && d.receipts == db.receipts[key := r] && d.effects == db.effects && d.advances == db.advances
      && if r.status.Failed? then EndsFinally(design, db, d, key, env) else d.instances == db.instances
  {
    var recorded := SetReceipt(db, key, AfterFailure(db.receipts[key], transient, env.now));
    FinalFailureByDesign(design, recorded, key, env);
  }

  /* ---------- the execution ---------- */

  /** The instance waits at the stage of the execution. */
  predicate Waiting(db: Db, key: Key)
    requires key.inst in db.instances
  {
    db.instances[key.inst].status == InProgress && db.instances[key.inst].stage == Some(key.stage)
  }

  /** The success route of the stage can be taken: an automatic stage is entered once in a chain. */
  predicate SuccessOpen(design: Design, db: Db, key: Key, env: Surroundings)
    requires IsAutomatic(design, key.stage) && key.inst in db.instances
  {
    var success := design[key.stage].kind.success;
    && success.Some? && success.value in design
    && design[success.value].definition == db.instances[key.inst].definition
    && !env.raises
    && var destination := Destination(design, success.value, env.conditions);
       destination.Some?
       && match design[destination.value].kind
          case Wait => false
          case Automatic(_, _, _) => Key(key.inst, destination.value, key.trigger) !in db.receipts
          case _ => true
  }

  lemma PerformsExactly(design: Design, db: Db, key: Key, work: Work, env: Surroundings)
    requires ValidDesign(design) && Inv(design, db) && MayExecute(db, key)
    ensures Perform(design, db, key, work, env).Some? <==> !work.raises && SuccessOpen(design, db, key, env)
  {
    if !work.raises {
      var r := Done(db.receipts[key], work, env.now);
      var d := SetReceipt(db.(effects := db.effects + [key]), key, r);
      if r.success.Some? && r.success.value in design {
        DoneKeepsOthers(design, db, key, r);
        ArrivesExactly(design, d, key.inst, r.success.value, key.trigger, env);
      }
    }
  }

  /** What a worker's main transaction comes to: nothing, if its attempt has ended otherwise; a cancelled
      receipt and no effects, if the instance has moved on; a rollback, if the action or its route raises;
      or the effects together with the receipt, whose status tells whether every notice went out. */
  ghost predicate ExecutedTo(design: Design, db: Db, d: Db, failing: bool, key: Key, work: Work, env: Surroundings) {
    if key !in db.receipts || !db.receipts[key].status.Running? then d == db && !failing
    else
      var r := db.receipts[key];
      && IsAutomatic(design, key.stage) && key.inst in db.instances
      && if !Waiting(db, key)
         then d == db.(receipts := db.receipts[key := r.(status := Cancelled)]) && !failing
         else if work.raises || !SuccessOpen(design, db, key, env) then d == db && failing
         else
           && !failing && key in d.receipts && d.effects == db.effects + [key]
           && d.receipts[key] == r.(status := if work.channelErrors then CompletedWithErrors else Succeeded,
                                    completedOn := Some(env.now))
           && key.inst in d.instances
           && var success := design[key.stage].kind.success.value;
              d.instances[key.inst].stage == Destination(design, success, env.conditions)
  }

  lemma ExecuteByDesign(design: Design, db: Db, key: Key, work: Work, env: Surroundings)
    requires ValidDesign(design) && Inv(design, db)
    ensures var (d, failing) := Execute(design, db, key, work, env);
            ExecutedTo(design, db, d, failing, key, work, env)
  {
    if MayExecute(db, key) && WaitsAt(db, key) {
      PerformsExactly(design, db, key, work, env);
      if Perform(design, db, key, work, env).Some? {
        PerformedReceipt(design, db, key, work, env);
        SuccessFollowsRoute(design, db, key, work, env);
      }
    }
  }

  /** In every run; a worker whose transaction was rolled back goes on to record the failure. */
  lemma ExecuteOutcome(design: Design, steps: seq<Step>, w: nat, work: Work, env: Surroundings)
    requires ValidDesign(design) && w in Run(design, steps).workers && Run(design, steps).workers[w].Claimed?
    ensures var s, t := Run(design, steps), Run(design, steps + [ExecuteStep(w, work, env)]);
      var key := s.workers[w].key;
      var failing := w in t.workers;
      && t.workers == (if failing then s.workers[w := Failing(key, work.transient)] else s.workers - {w})
      && ExecutedTo(design, s.db, t.db, failing, key, work, env)
  {
    RunKeeps(design, steps);
    assert (steps + [ExecuteStep(w, work, env)])[..|steps|] == steps;
    ExecuteByDesign(design, Run(design, steps).db, Run(design, steps).workers[w].key, work, env);
  }

  lemma PerformedReceipt(design: Design, db: Db, key: Key, work: Work, env: Surroundings)
    requires MayExecute(db, key) && Perform(design, db, key, work, env).Some?
    ensures var d := Perform(design, db, key, work, env).value;
      key in d.receipts && d.receipts[key] == Done(db.receipts[key], work, env.now) && d.effects == db.effects + [key]
  {
    var r := Done(db.receipts[key], work, env.now);
    var d := SetReceipt(db.(effects := db.effects + [key]), key, r);
    ActivateKeepsReceipts(design, d, key.inst, r.success.value, key.trigger, env);
  }

  /* ---------- retries wait ---------- */

  lemma {:induction false} WaitsUnclaimed(design: Design, steps: seq<Step>, i: nat, j: nat, k: Key)
    requires i <= j <= |steps| && k in Run(design, steps[..i]).db.receipts
    requires Run(design, steps[..i]).db.receipts[k].status.RetryPending?
    requires forall m {:trigger steps[m]} | i <= m < j :: ClaimedBy(Run(design, steps[..m]), steps[m]) != Some(k)
    ensures k in Run(design, steps[..j]).db.receipts
    ensures Run(design, steps[..j]).db.receipts[k] == Run(design, steps[..i]).db.receipts[k]
    decreases j - i
  {
    if i < j {
      WaitsUnclaimed(design, steps, i, j - 1, k);
      WaitsOneStep(design, steps, j - 1, k);
    }
  }

  lemma WaitsOneStep(design: Design, steps: seq<Step>, m: nat, k: Key)
    requires m < |steps| && ClaimedBy(Run(design, steps[..m]), steps[m]) != Some(k)
    requires k in Run(design, steps[..m]).db.receipts && Run(design, steps[..m]).db.receipts[k].status.RetryPending?
    ensures k in Run(design, steps[..m + 1]).db.receipts
    ensures Run(design, steps[..m + 1]).db.receipts[k] == Run(design, steps[..m]).db.receipts[k]
  {
    RunPrefix(design, steps, m);
    UnclaimedFollows(design, Run(design, steps[..m]), steps[m], k);
  }

  lemma RunPrefix(design: Design, steps: seq<Step>, j: nat)
    requires j < |steps|
    ensures Run(design, steps[..j + 1]) == Next(design, Run(design, steps[..j]), steps[j])
  {
    assert steps[..j + 1][..j] == steps[..j];
  }

  /** After a failure that is recorded, by whatever worker, the next attempt is not started before the
      backoff of the attempts made so far is over. */
  lemma RetriesWait(design: Design, steps: seq<Step>, i: nat, j: nat, w: nat, env: Surroundings, k: Key)
    requires ValidDesign(design) && i < j < |steps| && steps[i] == FailStep(w, env)
    requires var s := Run(design, steps[..i]);
      w in s.workers && s.workers[w] == Failing(k, true) && k in s.db.receipts && s.db.receipts[k].status.Running?
    requires forall m | i < m < j :: ClaimedBy(Run(design, steps[..m]), steps[m]) != Some(k)
    requires ClaimedBy(Run(design, steps[..j]), steps[j]) == Some(k)
    ensures IsAutomatic(design, k.stage) && steps[j].ClaimStep?
    ensures steps[j].now >= env.now + Backoff(design[k.stage].kind.policy, Starts(design, steps[..i], k))
  {
    var db := Run(design, steps[..i + 1]).db;
    FailedAt(design, steps, i, w, env, k);
    if db.receipts[k].status.RetryPending? {
      WaitsUnclaimed(design, steps, i + 1, j, k);
    } else {
      EndedStays(design, steps, i + 1, j, k);
    }
  }

  /** The receipt right after the failure is recorded. */
  lemma FailedAt(design: Design, steps: seq<Step>, i: nat, w: nat, env: Surroundings, k: Key)
    requires ValidDesign(design) && i < |steps| && steps[i] == FailStep(w, env)
    requires var s := Run(design, steps[..i]);
      w in s.workers && s.workers[w] == Failing(k, true) && k in s.db.receipts && s.db.receipts[k].status.Running?
    ensures IsAutomatic(design, k.stage) && k in Run(design, steps[..i + 1]).db.receipts
    ensures var q := Run(design, steps[..i + 1]).db.receipts[k];
      if q.status.RetryPending?
      then q.nextAttempt == Some(env.now + Backoff(design[k.stage].kind.policy, Starts(design, steps[..i], k)))
      else !q.status.Live()
  {
    RunKeeps(design, steps[..i]);
    FailureOutcome(design, steps[..i], w, env);
    assert steps[..i] + [FailStep(w, env)] == steps[..i + 1];
  }

  lemma EndedStays(design: Design, steps: seq<Step>, i: nat, j: nat, k: Key)
    requires i <= j <= |steps| && k in Run(design, steps[..i]).db.receipts
    requires !Run(design, steps[..i]).db.receipts[k].status.Live()
    ensures k in Run(design, steps[..j]).db.receipts && !Run(design, steps[..j]).db.receipts[k].status.Live()
  {
    assert steps[..i] + steps[i..j] == steps[..j];
    EndedReceiptsNeverChange(design, steps[..i], steps[i..j], k);
  }

  /* ---------- sweeps ---------- */

  /** A sweep is its rows one by one. */
  lemma {:induction false} SweepsJoin(design: Design, db: Db, a: seq<Row>, b: seq<Row>)
    ensures Sweep(design, db, a + b) == Sweep(design, Sweep(design, db, a), b)
  {
    if b == [] {
      assert a + b == a;
    } else {
      assert (a + b)[..|a + b| - 1] == a + b[..|b| - 1];
      SweepsJoin(design, db, a, b[..|b| - 1]);
    }
  }

  /** The attempt has had its timeout and a minute more, by the listed start and by the stored one. */
  predicate HadItsTime(r: Receipt, row: Row) {
    && row.env.now > row.startedOn + r.policy.timeoutSeconds + 60
    && row.env.now > r.startedOn + r.policy.timeoutSeconds + 60
  }

  lemma SweepOneByDesign(design: Design, db: Db, row: Row)
    requires Known(design, db) && MayExecute(db, row.key) && HadItsTime(db.receipts[row.key], row)
    ensures var r := AfterFailure(db.receipts[row.key], true, row.env.now);
      var d := SweepOne(design, db, row);
      && d.receipts == db.receipts[row.key := r] && d.effects == db.effects && d.advances == db.advances
      && if r.status.Failed? && Waiting(db, row.key) then EndsFinally(design, db, d, row.key, row.env)
         else d.instances == db.instances
  {
    var recorded := SetReceipt(db, row.key, AfterFailure(db.receipts[row.key], true, row.env.now));
    FinalFailureByDesign(design, recorded, row.key, row.env);
  }

  lemma SweepOneLeaves(design: Design, db: Db, row: Row)
    requires MayExecute(db, row.key) ==> !HadItsTime(db.receipts[row.key], row)
    ensures SweepOne(design, db, row) == db
  {
  }

  /** What a row of a sweep leaves behind after the n-th attempt. */
  ghost predicate SweptTo(design: Design, db: Db, d: Db, row: Row, n: nat) {
    var key := row.key;
    && d.effects == db.effects && d.advances == db.advances
    && if key !in db.receipts || !db.receipts[key].status.Running? || !HadItsTime(db.receipts[key], row) then d == db
       else
         && IsAutomatic(design, key.stage) && key.inst in db.instances
         && key in d.receipts && d.receipts == db.receipts[key := d.receipts[key]]
         && RecordedFailure(db.receipts[key], d.receipts[key], n, true, row.env.now)
         && if n > design[key.stage].kind.policy.extraAttempts && Waiting(db, key)
            then EndsFinally(design, db, d, key, row.env) else d.instances == db.instances
  }

  lemma SweepOneOutcome(design: Design, db: Db, row: Row)
    requires ValidDesign(design) && Inv(design, db)
    ensures var n := if row.key in db.receipts then db.receipts[row.key].attempts else 0;
            SweptTo(design, db, SweepOne(design, db, row), row, n)
  {
    if MayExecute(db, row.key) && HadItsTime(db.receipts[row.key], row) {
      assert BudgetKept(db.receipts[row.key]);
      AfterFailureRecords(db.receipts[row.key], true, row.env.now);
      SweepOneByDesign(design, db, row);
    } else {
      SweepOneLeaves(design, db, row);
    }
  }

  /** A row of a sweep fails an attempt that has had its time like a transient error would; if that is final,
      an instance that still waits takes the error route. Nothing else changes. */
  lemma SweepOutcome(design: Design, steps: seq<Step>, row: Row)
    requires ValidDesign(design)
    ensures var s, t := Run(design, steps), Run(design, steps + [SweepStep([row])]);
      t.workers == s.workers && SweptTo(design, s.db, t.db, row, Starts(design, steps, row.key))
  {
    RunKeeps(design, steps);
    assert (steps + [SweepStep([row])])[..|steps|] == steps;
    StartsAreCounted(design, steps, row.key);
    OneRowSweep(design, Run(design, steps).db, row);
    SweepOneOutcome(design, Run(design, steps).db, row);
  }

  lemma OneRowSweep(design: Design, db: Db, row: Row)
    ensures Sweep(design, db, [row]) == SweepOne(design, db, row)
  {
    assert [row][..0] == [];
  }

  /* ---------- what people do ---------- */

  /** The instance as it arrives: at the destination, with the outcome of an End, or failed at an automatic
      stage of a company without a service user. */
  ghost predicate Arrived(design: Design, before: Instance, after: Instance, stage: StageId, env: Surroundings) {
    var destination := Destination(design, stage, env.conditions);
    && destination.Some?
    && after.stage == destination && after.definition == before.definition
    && after.status == match design[destination.value].kind
                       case End(outcome) => outcome
                       case Automatic(_, _, _) => if env.serviceUser then before.status else Broken
                       case _ => before.status
  }

  lemma ArrivalByDesign(design: Design, db: Db, inst: InstanceId, stage: StageId, trigger: Trigger, env: Surroundings)
    requires inst in db.instances && NoLive(db, inst, trigger)
    ensures var d := Activate(design, db, inst, stage, trigger, env);
      if !CanArrive(design, db, inst, stage, trigger, env) then d == None
      else d.Some? && inst in d.value.instances
           && Arrived(design, db.instances[inst], d.value.instances[inst], stage, env)
           && d.value.instances == db.instances[inst := d.value.instances[inst]]
  {
    ArrivesExactly(design, db, inst, stage, trigger, env);
    if Activate(design, db, inst, stage, trigger, env).Some? {
      ActivateGoesTo(design, db, inst, stage, trigger, env);
      ActivateArrives(design, db, inst, stage, trigger, env);
    }
  }

  /** An instance is started once, under its definition and at the stage that its first one leads to;
      if that stage cannot be entered nothing is stored. */
  lemma StartOutcome(design: Design, s: Sys, inst: InstanceId, definition: string, first: StageId, env: Surroundings)
    ensures var t := Next(design, s, StartStep(inst, definition, first, env));
      if inst in s.db.instances || (exists k :: k in s.db.receipts && k.inst == inst && k.trigger == Start)
         || !CanArrive(design, s.db, inst, first, Start, env) then t == s
      else inst in t.db.instances && t.workers == s.workers
           && t.db.instances == s.db.instances[inst := t.db.instances[inst]]
           && Arrived(design, Instance(definition, InProgress, None), t.db.instances[inst], first, env)
  {
    var d := SetInstance(s.db, inst, Instance(definition, InProgress, None));
    if Unused(s.db, inst, Start) {
      ArrivalByDesign(design, d, inst, first, Start, env);
    }
  }

  /** Completing a task takes its instance to the stage that the next one leads to, or changes nothing. */
  lemma TaskOutcome(design: Design, s: Sys, inst: InstanceId, task: string, next: StageId, env: Surroundings)
    requires inst in s.db.instances
    ensures var t := Next(design, s, TaskStep(inst, task, next, env));
      if (exists k :: k in s.db.receipts && k.inst == inst && k.trigger == Task(task))
         || !CanArrive(design, s.db, inst, next, Task(task), env) then t == s
      else inst in t.db.instances && t.workers == s.workers
           && t.db.instances == s.db.instances[inst := t.db.instances[inst]]
           && Arrived(design, s.db.instances[inst], t.db.instances[inst], next, env)
  {
    if Unused(s.db, inst, Task(task)) {
      ArrivalByDesign(design, s.db, inst, next, Task(task), env);
    }
  }

  /** Every step but the claim of a worker and its own transactions leaves the workers alone, and a worker
      that dies leaves nothing else behind. */
  lemma OtherSteps(design: Design, s: Sys, step: Step, w: nat)
    ensures step.EndStep? && step.inst in s.db.instances && step.status != InProgress ==>
      Next(design, s, step)
      == s.(db := s.db.(instances := s.db.instances[step.inst := s.db.instances[step.inst].(status := step.status)]))
    ensures Next(design, s, CrashStep(w)) == Sys(s.db, s.workers - {w})
  {
  }
}
