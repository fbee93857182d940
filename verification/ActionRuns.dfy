/** Results about whole runs of the automatic-action protocol. */
module ActionRuns {
  import opened Basics
  import opened ActionProtocol
  import opened ActionSafety

  /* ---------- at most once, together ---------- */

  /** In every run an execution commits its effects and its success route at most once, the two
      together, and exactly when its receipt says success. */
  lemma EffectsOnceAndTogether(design: Design, steps: seq<Step>, k: Key)
    requires ValidDesign(design)
    ensures var db := Run(design, steps).db;
      multiset(db.effects)[k] == multiset(db.advances)[k] == if Committed(db, k) then 1 else 0
  {
    RunKeeps(design, steps);
  }

  /* ---------- receipts that have ended never change ---------- */

  lemma {:induction false} ActivateKeepsReceipts(design: Design, db: Db, inst: InstanceId, stage: StageId,
                                                 trigger: Trigger, env: Surroundings)
    requires inst in db.instances && Activate(design, db, inst, stage, trigger, env).Some?
    ensures var d := Activate(design, db, inst, stage, trigger, env).value;
      && d.effects == db.effects && d.advances == db.advances && d.instances.Keys == db.instances.Keys
      && forall k | k in db.receipts :: k in d.receipts && d.receipts[k] == db.receipts[k]
    ensures var d := Activate(design, db, inst, stage, trigger, env).value;
      && (forall k | k in d.receipts && k !in db.receipts ::
            d.receipts[k].attempts == 0 && !d.receipts[k].status.Running?)
      && (forall i | i in db.instances && i != inst :: d.instances[i] == db.instances[i])
    decreases |env.conditions|
  {
    if design[stage].kind.Condition? {
      var kind := design[stage].kind;
      var next := if env.conditions[0] then kind.onTrue else kind.onFalse;
      var moved := SetInstance(db, inst, db.instances[inst].(stage := Some(stage)));
      ActivateKeepsReceipts(design, moved, inst, next.value, trigger, env.(conditions := env.conditions[1..]));
    }
  }

  /** How one transaction may change the receipts and the effects: new executions are unstarted,
      ended ones stay as they are, effects are only appended. */
  ghost predicate Grows(db: Db, d: Db) {
    && (forall k | k in db.receipts ::
          k in d.receipts && (!db.receipts[k].status.Live() ==> d.receipts[k] == db.receipts[k]))
    && (forall k | k in d.receipts && k !in db.receipts :: d.receipts[k].attempts == 0)
    && db.effects <= d.effects
  }

  /** ... and their attempts: none but `claimed` has one more. */
  ghost predicate Counts(db: Db, d: Db, claimed: Option<Key>) {
    forall k | k in db.receipts && k in d.receipts ::
      d.receipts[k].attempts == db.receipts[k].attempts + (if claimed == Some(k) then 1 else 0)
  }

  lemma FinalFailureGrows(design: Design, db: Db, key: Key, env: Surroundings)
    requires key in db.receipts && key.inst in db.instances
    ensures Grows(db, FinalFailure(design, db, key, env)) && Counts(db, FinalFailure(design, db, key, env), None)
  {
    FinalFailureEnds(design, db, key, env);
  }

  lemma ExecuteGrows(design: Design, db: Db, key: Key, work: Work, env: Surroundings)
    ensures Grows(db, Execute(design, db, key, work, env).0) && Counts(db, Execute(design, db, key, work, env).0, None)
  {
    if MayExecute(db, key) && WaitsAt(db, key) && Perform(design, db, key, work, env).Some? {
      var r := Done(db.receipts[key], work, env.now);
      var d := SetReceipt(db.(effects := db.effects + [key]), key, r);
      ActivateKeepsReceipts(design, d, key.inst, r.success.value, key.trigger, env);
    }
  }

  lemma RecordFailureGrows(design: Design, db: Db, key: Key, transient: bool, env: Surroundings)
    ensures Grows(db, RecordFailure(design, db, key, transient, env))
    ensures Counts(db, RecordFailure(design, db, key, transient, env), None)
  {
    if MayExecute(db, key) {
      var recorded := SetReceipt(db, key, AfterFailure(db.receipts[key], transient, env.now));
      FinalFailureGrows(design, recorded, key, env);
    }
  }

  lemma SweepOneGrows(design: Design, db: Db, row: Row)
    ensures Grows(db, SweepOne(design, db, row)) && Counts(db, SweepOne(design, db, row), None)
  {
    if MayExecute(db, row.key) {
      var recorded := SetReceipt(db, row.key, AfterFailure(db.receipts[row.key], true, row.env.now));
      FinalFailureEnds(design, recorded, row.key, row.env);
    }
  }

  lemma {:induction false} SweepGrows(design: Design, db: Db, rows: seq<Row>)
    ensures Grows(db, Sweep(design, db, rows)) && Counts(db, Sweep(design, db, rows), None)
  {
    if rows != [] {
      SweepGrows(design, db, rows[..|rows| - 1]);
      SweepOneGrows(design, Sweep(design, db, rows[..|rows| - 1]), rows[|rows| - 1]);
    }
  }

  lemma StartGrows(design: Design, db: Db, inst: InstanceId, definition: string, task: string, stage: StageId,
                   env: Surroundings)
    ensures Grows(db, StartInstance(design, db, inst, definition, stage, env))
    ensures Counts(db, StartInstance(design, db, inst, definition, stage, env), None)
    ensures Grows(db, CompleteTask(design, db, inst, task, stage, env))
    ensures Counts(db, CompleteTask(design, db, inst, task, stage, env), None)
  {
    var d := SetInstance(db, inst, Instance(definition, InProgress, None));
    if Activate(design, d, inst, stage, Start, env).Some? {
      ActivateKeepsReceipts(design, d, inst, stage, Start, env);
    }
    if inst in db.instances && Activate(design, db, inst, stage, Task(task), env).Some? {
      ActivateKeepsReceipts(design, db, inst, stage, Task(task), env);
    }
  }

  /** The execution whose attempt a step starts. */
  function ClaimedBy(s: Sys, step: Step): Option<Key> {
    if step.ClaimStep? && step.worker !in s.workers && CanClaim(s.db, step.key, step.now) then Some(step.key) else None
  }

  lemma NextGrows(design: Design, s: Sys, step: Step)
    ensures Grows(s.db, Next(design, s, step).db) && Counts(s.db, Next(design, s, step).db, ClaimedBy(s, step))
  {
    match step
    case StartStep(inst, definition, first, env) => StartGrows(design, s.db, inst, definition, "", first, env);
    case TaskStep(inst, task, next, env) => StartGrows(design, s.db, inst, "", task, next, env);
    case ExecuteStep(w, work, env) =>
      if w in s.workers { ExecuteGrows(design, s.db, s.workers[w].key, work, env); }
    case FailStep(w, env) =>
      if w in s.workers && s.workers[w].Failing? {
        RecordFailureGrows(design, s.db, s.workers[w].key, s.workers[w].transient, env);
      }
    case SweepStep(rows) => SweepGrows(design, s.db, rows);
    case _ =>
  }

  /** Whatever happens later, a receipt that has ended keeps every field, and committed effects
      stay committed. */
  lemma {:induction false} EndedReceiptsNeverChange(design: Design, before: seq<Step>, later: seq<Step>, k: Key)
    requires k in Run(design, before).db.receipts && !Run(design, before).db.receipts[k].status.Live()
    ensures var now, then' := Run(design, before).db, Run(design, before + later).db;
      k in then'.receipts && then'.receipts[k] == now.receipts[k] && now.effects <= then'.effects
    decreases |later|
  {
    var all := before + later;
    if later == [] {
      assert all == before;
    } else {
      assert all[..|all| - 1] == before + later[..|later| - 1];
      EndedReceiptsNeverChange(design, before, later[..|later| - 1], k);
      NextGrows(design, Run(design, all[..|all| - 1]), all[|all| - 1]);
    }
  }

  /** A worker that comes late, after its execution ended or another attempt failed, does nothing. */
  lemma LateWorkersDoNothing(design: Design, db: Db, key: Key, work: Work, transient: bool, env: Surroundings)
    requires key in db.receipts && !db.receipts[key].status.Running?
    ensures Execute(design, db, key, work, env) == (db, false)
    ensures RecordFailure(design, db, key, transient, env) == db
  {
  }

  /** Once an execution has ended, no worker of any later time does anything to it, whatever it still
      holds: an old worker that comes back neither performs nor records. */
  lemma OldWorkersDoNothing(design: Design, before: seq<Step>, later: seq<Step>, k: Key, work: Work, transient: bool,
                            env: Surroundings)
    requires k in Run(design, before).db.receipts && !Run(design, before).db.receipts[k].status.Live()
    ensures var db := Run(design, before + later).db;
      Execute(design, db, k, work, env) == (db, false) && RecordFailure(design, db, k, transient, env) == db
  {
    EndedReceiptsNeverChange(design, before, later, k);
    LateWorkersDoNothing(design, Run(design, before + later).db, k, work, transient, env);
  }

  /* ---------- the retry budget ---------- */

  /** How often a run starts an attempt of an execution. */
  function Starts(design: Design, steps: seq<Step>, k: Key): nat {
    if steps == [] then 0 else
      var before := steps[..|steps| - 1];
      Starts(design, before, k) + (if ClaimedBy(Run(design, before), steps[|steps| - 1]) == Some(k) then 1 else 0)
  }

  lemma {:induction false} StartsAreCounted(design: Design, steps: seq<Step>, k: Key)
    ensures var db := Run(design, steps).db;
      Starts(design, steps, k) == if k in db.receipts then db.receipts[k].attempts else 0
  {
    if steps != [] {
      var before, step := steps[..|steps| - 1], steps[|steps| - 1];
      StartsAreCounted(design, before, k);
      NextGrows(design, Run(design, before), step);
    }
  }

  /** Workers may die at any point, yet no execution is started more often than its policy allows. */
  lemma StartsWithinBudget(design: Design, steps: seq<Step>, k: Key)
    requires ValidDesign(design)
    ensures Starts(design, steps, k) <= 6
    ensures k in Run(design, steps).db.receipts ==>
      Starts(design, steps, k) <= Run(design, steps).db.receipts[k].policy.extraAttempts + 1
      && BudgetKept(Run(design, steps).db.receipts[k])
  {
    RunKeeps(design, steps);
    StartsAreCounted(design, steps, k);
  }

  lemma {:induction false} PowersGrow(a: nat, b: nat)
    requires a <= b
    ensures PowerOfTwo(a) <= PowerOfTwo(b)
  {
    if a < b {
      PowersGrow(a, b - 1);
    }
  }

  lemma ProductsGrow(c: nat, x: nat, y: nat)
    requires x <= y
    ensures c * x <= c * y
  {
  }

  /** Delays do not shrink from attempt to attempt and stay between the policy and an hour; they
      end with the extra attempts. */
  lemma DelaysGrow(p: Policy, a: nat, b: nat)
    requires ValidPolicy(p) && 1 <= a <= b
    ensures RetryDelay(p, b, true).Some? <==> b <= p.extraAttempts
    ensures b <= p.extraAttempts ==>
      p.retrySeconds <= RetryDelay(p, a, true).value <= RetryDelay(p, b, true).value <= 3600
  {
    PowersGrow(a - 1, b - 1);
    ProductsGrow(p.retrySeconds, 1, PowerOfTwo(a - 1));
    ProductsGrow(p.retrySeconds, PowerOfTwo(a - 1), PowerOfTwo(b - 1));
  }

  /* ---------- chains end ---------- */

  ghost function Executions(db: Db, inst: InstanceId, trigger: Trigger): set<Key> {
    set k | k in db.receipts && k.inst == inst && k.trigger == trigger
  }

  /** A chain on one trigger has at most one execution per stage, so it ends. */
  lemma ChainsAreBounded(design: Design, steps: seq<Step>, inst: InstanceId, trigger: Trigger)
    requires ValidDesign(design)
    ensures |Executions(Run(design, steps).db, inst, trigger)| <= |design|
  {
    RunKeeps(design, steps);
    var keys := Executions(Run(design, steps).db, inst, trigger);
    var stages := set k | k in keys :: k.stage;
    assert stages <= design.Keys;
    KeysByStage(keys, inst, trigger);
    SubsetSize(stages, design.Keys);
  }

  lemma {:induction false} KeysByStage(keys: set<Key>, inst: InstanceId, trigger: Trigger)
    requires forall k | k in keys :: k.inst == inst && k.trigger == trigger
    ensures |set k | k in keys :: k.stage| == |keys|
  {
    if keys != {} {
      var k :| k in keys;
      KeysByStage(keys - {k}, inst, trigger);
      assert (set l | l in keys :: l.stage) == (set l | l in keys - {k} :: l.stage) + {k.stage};
      assert k.stage !in (set l | l in keys - {k} :: l.stage);
    }
  }

  /** How often a run starts an attempt of any execution of a chain. */
  function ChainStarts(design: Design, steps: seq<Step>, inst: InstanceId, trigger: Trigger): nat {
    if steps == [] then 0 else
      var before := steps[..|steps| - 1];
      var claimed := ClaimedBy(Run(design, before), steps[|steps| - 1]);
      ChainStarts(design, before, inst, trigger)
      + (if claimed.Some? && claimed.value.inst == inst && claimed.value.trigger == trigger then 1 else 0)
  }

  function StartsIn(design: Design, steps: seq<Step>, keys: set<Key>): nat {
    if steps == [] then 0 else
      var before := steps[..|steps| - 1];
      var claimed := ClaimedBy(Run(design, before), steps[|steps| - 1]);
      StartsIn(design, before, keys) + (if claimed.Some? && claimed.value in keys then 1 else 0)
  }

  lemma {:induction false} StartsSplit(design: Design, steps: seq<Step>, keys: set<Key>, k: Key)
    requires k in keys
    ensures StartsIn(design, steps, keys) == StartsIn(design, steps, keys - {k}) + Starts(design, steps, k)
  {
    if steps != [] {
      StartsSplit(design, steps[..|steps| - 1], keys, k);
    }
  }

  lemma {:induction false} StartsInBounded(design: Design, steps: seq<Step>, keys: set<Key>)
    requires ValidDesign(design)
    ensures StartsIn(design, steps, keys) <= 6 * |keys|
  {
    if keys == {} {
      NoStartsInNothing(design, steps);
    } else {
      var k :| k in keys;
      StartsSplit(design, steps, keys, k);
      StartsWithinBudget(design, steps, k);
      StartsInBounded(design, steps, keys - {k});
    }
  }

  lemma {:induction false} NoStartsInNothing(design: Design, steps: seq<Step>)
    ensures StartsIn(design, steps, {}) == 0
  {
    if steps != [] {
      NoStartsInNothing(design, steps[..|steps| - 1]);
    }
  }

  lemma {:induction false} ChainStartsAreListed(design: Design, steps: seq<Step>, inst: InstanceId, trigger: Trigger,
                                                keys: set<Key>)
    requires Executions(Run(design, steps).db, inst, trigger) <= keys
    ensures ChainStarts(design, steps, inst, trigger) <= StartsIn(design, steps, keys)
  {
    if steps != [] {
      var before, step := steps[..|steps| - 1], steps[|steps| - 1];
      NextGrows(design, Run(design, before), step);
      assert Executions(Run(design, before).db, inst, trigger) <= Executions(Run(design, steps).db, inst, trigger);
      ChainStartsAreListed(design, before, inst, trigger, keys);
    }
  }

  /** Whatever fails and is retried, one trigger starts at most six attempts per stage of the design. */
  lemma ChainStartsAreBounded(design: Design, steps: seq<Step>, inst: InstanceId, trigger: Trigger)
    requires ValidDesign(design)
    ensures ChainStarts(design, steps, inst, trigger) <= 6 * |design|
  {
    var keys := Executions(Run(design, steps).db, inst, trigger);
    ChainStartsAreListed(design, steps, inst, trigger, keys);
    StartsInBounded(design, steps, keys);
    ChainsAreBounded(design, steps, inst, trigger);
  }

  /* ---------- no stranded instance ---------- */

  /** In every run an instance in progress at an automatic stage has a live execution of it. */
  lemma NoInstanceIsStranded(design: Design, steps: seq<Step>, inst: InstanceId)
    requires ValidDesign(design) && WaitsAutomatically(design, Run(design, steps).db, inst)
    ensures Served(Run(design, steps).db, inst, Run(design, steps).db.instances[inst].stage.value)
  {
    RunKeeps(design, steps);
  }

  /* ---------- receipts of dead workers ---------- */

  /** The time of the execution is up, by the start that was listed and by the one in the receipt. */
  predicate Overdue(db: Db, row: Row) {
    && row.key in db.receipts && db.receipts[row.key].status.Running?
    && TimedOut(db.receipts[row.key], row.startedOn, row.env.now)
    && TimedOut(db.receipts[row.key], db.receipts[row.key].startedOn, row.env.now)
  }

  /** The receipt has failed, or can be claimed again within the hour. */
  predicate FailedOrDue(r: Receipt, now: int) {
    if r.status.Failed? then r.completedOn == Some(now)
    else r.status.RetryPending? && r.nextAttempt.Some? && r.nextAttempt.value <= now + 3600
  }

  /** One of the rows has recorded the interrupted attempt. */
  ghost predicate Released(db: Db, d: Db, rows: seq<Row>, key: Key)
    requires key in db.receipts && key in d.receipts
  {
    exists row :: row in rows && row.key == key && d.receipts[key] == AfterFailure(db.receipts[key], true, row.env.now)
  }

  lemma SweepOneRecords(design: Design, db: Db, row: Row, key: Key)
    requires key in db.receipts && key.inst in db.instances
    ensures var d := SweepOne(design, db, row);
      && key in d.receipts && key.inst in d.instances
      && d.receipts[key] == if row.key == key && Overdue(db, row) then AfterFailure(db.receipts[key], true, row.env.now)
                            else db.receipts[key]
  {
    if MayExecute(db, row.key) {
      var recorded := SetReceipt(db, row.key, AfterFailure(db.receipts[row.key], true, row.env.now));
      FinalFailureEnds(design, recorded, row.key, row.env);
    }
  }

  /** A sweep leaves a running receipt alone, if none of its rows is overdue, or releases it. */
  lemma {:induction false} SweepLeavesOrReleases(design: Design, db: Db, rows: seq<Row>, key: Key)
    requires MayExecute(db, key)
    ensures var d := Sweep(design, db, rows);
      && key in d.receipts && key.inst in d.instances
      && if exists row :: row in rows && row.key == key && Overdue(db, row) then Released(db, d, rows, key)
         else d.receipts[key] == db.receipts[key]
  {
    if rows != [] {
      var before, last := rows[..|rows| - 1], rows[|rows| - 1];
      assert forall row :: row in rows <==> row in before || row == last;
      SweepLeavesOrReleases(design, db, before, key);
      SweepOneRecords(design, Sweep(design, db, before), last, key);
    }
  }

  lemma InterruptedIsDue(r: Receipt, now: int)
    ensures FailedOrDue(AfterFailure(r, true, now), now)
  {
  }

  /** In every run, a sweep that lists a receipt whose worker has not come back in time releases it:
      it is no longer Running, but has failed or can be claimed again within the hour. */
  lemma DeadWorkersAreReplaced(design: Design, steps: seq<Step>, rows: seq<Row>, i: nat)
    requires ValidDesign(design) && i < |rows|
    requires Overdue(Run(design, steps).db, rows[i])
    ensures var db, d := Run(design, steps).db, Run(design, steps + [SweepStep(rows)]).db;
      && rows[i].key in d.receipts
      && exists row :: (
           && row in rows && row.key == rows[i].key
           && d.receipts[row.key] == AfterFailure(db.receipts[row.key], true, row.env.now)
           && FailedOrDue(d.receipts[row.key], row.env.now))
  {
    var db, key := Run(design, steps).db, rows[i].key;
    var all := steps + [SweepStep(rows)];
    assert all[..|all| - 1] == steps;
    assert rows[i] in rows;
    RunKeeps(design, steps);
    SweepLeavesOrReleases(design, db, rows, key);
    var row :| row in rows && row.key == key
               && Sweep(design, db, rows).receipts[key] == AfterFailure(db.receipts[key], true, row.env.now);
    InterruptedIsDue(db.receipts[key], row.env.now);
  }

  /* ---------- instances that have ended ---------- */

  predicate Ended(db: Db, inst: InstanceId) {
    inst in db.instances && !db.instances[inst].status.InProgress?
  }

  predicate FailsFinally(s: Sys, step: Step, inst: InstanceId) {
    && step.FailStep? && step.worker in s.workers && s.workers[step.worker].Failing?
    && var phase := s.workers[step.worker];
       phase.key.inst == inst && MayExecute(s.db, phase.key)
       && RetryDelay(s.db.receipts[phase.key].policy, s.db.receipts[phase.key].attempts, phase.transient) == None
  }

  /** The step serves an execution that the instance waits for. */
  ghost predicate StepWaits(s: Sys, step: Step, inst: InstanceId) {
    match step
    case ExecuteStep(w, _, _) => w in s.workers && s.workers[w].key.inst == inst && WaitsAt(s.db, s.workers[w].key)
    case FailStep(w, _) => w in s.workers && s.workers[w].key.inst == inst && WaitsAt(s.db, s.workers[w].key)
    case SweepStep(rows) => RowWaits(s.db, rows, inst)
    case _ => false
  }

  ghost predicate RowWaits(db: Db, rows: seq<Row>, inst: InstanceId) {
    exists i :: 0 <= i < |rows| && rows[i].key.inst == inst && WaitsAt(db, rows[i].key)
  }

  predicate OfWorkers(step: Step) {
    step.ClaimStep? || step.ExecuteStep? || step.FailStep? || step.CrashStep? || step.SweepStep?
  }

  /** Workers and sweeps move an instance only while it waits at the stage of the receipt they serve,
      except in the record of a final failure, which does not look at the instance again after the
      rollback. */
  lemma OnlyWaitingInstancesMove(design: Design, s: Sys, step: Step, inst: InstanceId)
    requires inst in s.db.instances && OfWorkers(step) && !StepWaits(s, step, inst)
    ensures inst in Next(design, s, step).db.instances
    ensures !FailsFinally(s, step, inst) ==> Next(design, s, step).db.instances[inst] == s.db.instances[inst]
  {
    match step
    case ExecuteStep(w, work, env) =>
      if w in s.workers && s.workers[w].Claimed? {
        ExecuteMovesWaiting(design, s.db, s.workers[w].key, work, env, inst);
      }
    case FailStep(w, env) =>
      if w in s.workers && s.workers[w].Failing? && MayExecute(s.db, s.workers[w].key) {
        var key := s.workers[w].key;
        var r := AfterFailure(s.db.receipts[key], s.workers[w].transient, env.now);
        FinalFailureEnds(design, SetReceipt(s.db, key, r), key, env);
      }
    case SweepStep(rows) => SweepMovesWaiting(design, s.db, rows, inst);
    case _ =>
  }

  lemma ExecuteMovesWaiting(design: Design, db: Db, key: Key, work: Work, env: Surroundings, inst: InstanceId)
    requires inst in db.instances && !(key.inst == inst && WaitsAt(db, key))
    ensures var d := Execute(design, db, key, work, env).0;
            inst in d.instances && d.instances[inst] == db.instances[inst]
  {
    if MayExecute(db, key) && WaitsAt(db, key) && Perform(design, db, key, work, env).Some? {
      var r := Done(db.receipts[key], work, env.now);
      var d := SetReceipt(db.(effects := db.effects + [key]), key, r);
      ActivateKeepsReceipts(design, d, key.inst, r.success.value, key.trigger, env);
    }
  }

  lemma SweepOneMovesWaiting(design: Design, db: Db, row: Row, inst: InstanceId)
    requires inst in db.instances && !(row.key.inst == inst && WaitsAt(db, row.key))
    ensures var d := SweepOne(design, db, row);
            inst in d.instances && d.instances[inst] == db.instances[inst]
  {
    if MayExecute(db, row.key) {
      var r := AfterFailure(db.receipts[row.key], true, row.env.now);
      FinalFailureEnds(design, SetReceipt(db, row.key, r), row.key, row.env);
    }
  }

  lemma {:induction false} SweepMovesWaiting(design: Design, db: Db, rows: seq<Row>, inst: InstanceId)
    requires inst in db.instances && !RowWaits(db, rows, inst)
    ensures inst in Sweep(design, db, rows).instances && Sweep(design, db, rows).instances[inst] == db.instances[inst]
  {
    if rows != [] {
      var before, last := rows[..|rows| - 1], rows[|rows| - 1];
      assert forall i | 0 <= i < |before| :: before[i] == rows[i];
      SweepMovesWaiting(design, db, before, inst);
      assert last == rows[|rows| - 1];
      SweepOneMovesWaiting(design, Sweep(design, db, before), last, inst);
    }
  }

  /** So an instance that has ended is left alone, with the same exception. */
  lemma EndedInstancesRest(design: Design, s: Sys, step: Step, inst: InstanceId)
    requires Ended(s.db, inst) && OfWorkers(step)
    ensures inst in Next(design, s, step).db.instances
    ensures !FailsFinally(s, step, inst) ==> Next(design, s, step).db.instances[inst] == s.db.instances[inst]
  {
    OnlyWaitingInstancesMove(design, s, step, inst);
  }

  /** The error route of the stage can be taken. */
  predicate ErrorRouteUsable(design: Design, db: Db, key: Key, env: Surroundings)
    requires IsAutomatic(design, key.stage) && key.inst in db.instances
  {
    var error := design[key.stage].kind.error;
    && error.Some? && error.value in design && design[error.value].kind.UserTask?
    && design[error.value].definition == db.instances[key.inst].definition && !env.raises
  }

  /** The exception, wherever the instance stands: a final failure changes it exactly when the error
      route leads somewhere else, or cannot be taken and the instance has not failed already. */
  lemma FinalFailureOfAnyInstance(design: Design, db: Db, key: Key, transient: bool, env: Surroundings)
    requires Known(design, db) && MayExecute(db, key)
    requires RetryDelay(db.receipts[key].policy, db.receipts[key].attempts, transient) == None
    ensures var before, after := db.instances[key.inst], RecordFailure(design, db, key, transient, env);
      && key.inst in after.instances
      && after.instances[key.inst] ==
         (if ErrorRouteUsable(design, db, key, env)
          then before.(stage := design[key.stage].kind.error) else before.(status := Broken))
      && (after.instances[key.inst] != before <==>
            if ErrorRouteUsable(design, db, key, env)
            then before.stage != design[key.stage].kind.error else !before.status.Broken?)
  {
    FinalFailureEnds(design, SetReceipt(db, key, AfterFailure(db.receipts[key], transient, env.now)), key, env);
  }

  /** In particular an ended instance changes its status exactly when the error route cannot be taken
      (and it was not failed already). */
  lemma FinalFailureOfEndedInstance(design: Design, db: Db, key: Key, transient: bool, env: Surroundings)
    requires Known(design, db) && MayExecute(db, key) && Ended(db, key.inst)
    requires RetryDelay(db.receipts[key].policy, db.receipts[key].attempts, transient) == None
    ensures var after := RecordFailure(design, db, key, transient, env);
      && key.inst in after.instances
      && (after.instances[key.inst].status != db.instances[key.inst].status <==>
            !db.instances[key.inst].status.Broken? && !ErrorRouteUsable(design, db, key, env))
  {
    FinalFailureOfAnyInstance(design, db, key, transient, env);
  }

  function LoneStage(stage: StageId, policy: Policy): Design {
    map[stage := Stage("", Automatic(policy, None, None))]
  }

  /** The lone stage after its start, with one receipt. */
  function LoneDb(policy: Policy, inst: InstanceId, stage: StageId, status: Status, attempts: nat): Db {
    Db(map[Key(inst, stage, Start) := Receipt(status, attempts, 0, Some(0), None, None, None, policy)],
       map[inst := Instance("", InProgress, Some(stage))], [], [])
  }

  const Calm: Surroundings := Surroundings(0, [], true, false)

  lemma LoneStart(policy: Policy, inst: InstanceId, stage: StageId)
    ensures Next(LoneStage(stage, policy), Initial, StartStep(inst, "", stage, Calm))
         == Sys(LoneDb(policy, inst, stage, Pending, 0), map[])
  {
  }

  lemma LoneAttempt(policy: Policy, inst: InstanceId, stage: StageId)
    ensures var design, key := LoneStage(stage, policy), Key(inst, stage, Start);
      var claimed := Sys(LoneDb(policy, inst, stage, Running, 1), map[0 := Claimed(key)]);
      && Next(design, Sys(LoneDb(policy, inst, stage, Pending, 0), map[]), ClaimStep(0, key, 0)) == claimed
      && Next(design, claimed, ExecuteStep(0, Work(true, false, false), Calm))
         == Sys(claimed.db, map[0 := Failing(key, false)])
  {
  }

  lemma LoneFailure(policy: Policy, inst: InstanceId, stage: StageId)
    ensures var stopped := EndInstance(LoneDb(policy, inst, stage, Running, 1), inst, Stopped);
      var failing := Sys(stopped, map[0 := Failing(Key(inst, stage, Start), false)]);
      var after := Next(LoneStage(stage, policy), failing, FailStep(0, Calm)).db;
      && inst in stopped.instances && stopped.instances[inst].status.Stopped?
      && inst in after.instances && after.instances[inst].status.Broken?
  {
  }

  /** A run in which an instance stopped by a person ends up failed: it is stopped after the
      worker's rollback and before the worker records the failure. */
  lemma StoppedInstanceCanFail(policy: Policy, inst: InstanceId, stage: StageId) returns (early: seq<Step>, last: Step)
    requires ValidPolicy(policy)
    ensures ValidDesign(LoneStage(stage, policy))
    ensures var before := Run(LoneStage(stage, policy), early).db;
      inst in before.instances && before.instances[inst].status.Stopped?
    ensures var after := Run(LoneStage(stage, policy), early + [last]).db;
      inst in after.instances && after.instances[inst].status.Broken?
  {
    var design, key := LoneStage(stage, policy), Key(inst, stage, Start);
    var a, b := StartStep(inst, "", stage, Calm), ClaimStep(0, key, 0);
    var c, d := ExecuteStep(0, Work(true, false, false), Calm), EndStep(inst, Stopped);
    LoneStart(policy, inst, stage);
    LoneAttempt(policy, inst, stage);
    LoneFailure(policy, inst, stage);
    RunOne(design, [], a);
    RunOne(design, [a], b);
    RunOne(design, [a, b], c);
    RunOne(design, [a, b, c], d);
    early, last := [a, b, c, d], FailStep(0, Calm);
    RunOne(design, early, last);
  }

  lemma RunOne(design: Design, steps: seq<Step>, step: Step)
    ensures Run(design, steps + [step]) == Next(design, Run(design, steps), step)
    ensures steps == [] ==> steps + [step] == [step]
    ensures |steps| == 1 ==> steps + [step] == [steps[0], step]
    ensures |steps| == 2 ==> steps + [step] == [steps[0], steps[1], step]
    ensures |steps| == 3 ==> steps + [step] == [steps[0], steps[1], steps[2], step]
  {
    assert (steps + [step])[..|steps|] == steps;
  }
}
