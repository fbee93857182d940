/** Durable automatic actions as a transition system
    (asoud_erp/services/automatic_action_runtime.py:386-587, with the stage activation of
    asoud_erp/api/v1/workflow_runtime.py:346-482 and retry_delay of
    asoud_erp/services/automatic_action_policy.py:247-261).

    A step is one database transaction over locked rows: what a process does between two
    commits. A process that dies inside a step leaves no trace of it. */
module ActionProtocol {
  import opened Basics

  type StageId = string
  type InstanceId = string

  /** What started a chain of stages: the start of the instance or a completed task. */
  datatype Trigger = Start | Task(name: string)

  /** The execution id is the SHA-256 of these three; two different triples never share it. */
  datatype Key = Key(inst: InstanceId, stage: StageId, trigger: Trigger)

  datatype Policy = Policy(extraAttempts: nat, retrySeconds: nat, timeoutSeconds: nat)

  /** The bounds normalize_action puts on every stored policy. */
  predicate ValidPolicy(p: Policy) {
    p.extraAttempts <= 5 && 30 <= p.retrySeconds <= 3600 && 10 <= p.timeoutSeconds <= 300
  }

  /** A setting of the execution policy as it is sent. */
  datatype Setting = Absent | Whole(value: int) | NotAnInteger

  function BoundedInt(s: Setting, default: nat, low: nat, high: nat): Option<nat> {
    match s
    case Absent => Some(default)
    case Whole(value) => if low <= value <= high then Some(value) else None
    case NotAnInteger => None
  }

  /** The execution part of normalize_action; None is the raised error. */
  function NormalizeExecution(extra: Setting, retry: Setting, timeout: Setting): Option<Policy> {
    var e, r, t := BoundedInt(extra, 0, 0, 5), BoundedInt(retry, 60, 30, 3600), BoundedInt(timeout, 120, 10, 300);
    if e.Some? && r.Some? && t.Some? then Some(Policy(e.value, r.value, t.value)) else None
  }

  /** The policies that can be stored are exactly the valid ones. */
  lemma StoredPolicies(p: Policy)
    ensures ValidPolicy(p) <==> exists extra, retry, timeout :: NormalizeExecution(extra, retry, timeout) == Some(p)
  {
    if ValidPolicy(p) {
      assert NormalizeExecution(Whole(p.extraAttempts), Whole(p.retrySeconds), Whole(p.timeoutSeconds)) == Some(p);
    }
  }

  datatype Status = Pending | Running | RetryPending | Succeeded | CompletedWithErrors | Failed | Cancelled {
    predicate Live() { Pending? || Running? || RetryPending? }
    predicate Success() { Succeeded? || CompletedWithErrors? }
  }

  datatype Receipt = Receipt(
    status: Status, attempts: nat, startedOn: int, nextAttempt: Option<int>, completedOn: Option<int>,
    success: Option<StageId>, error: Option<StageId>, policy: Policy)

  datatype InstanceStatus = InProgress | Completed | Rejected | Stopped | Broken

  /** `Stopped` is the status Cancelled and `Broken` the status Failed of an instance. */
  datatype Instance = Instance(definition: string, status: InstanceStatus, stage: Option<StageId>)

  datatype StageKind =
    | End(outcome: InstanceStatus)
    | Condition(onTrue: Option<StageId>, onFalse: Option<StageId>)
    | Automatic(policy: Policy, success: Option<StageId>, error: Option<StageId>)
    | UserTask
    | Approval
    | Wait
  datatype Stage = Stage(definition: string, kind: StageKind)
  type Design = map<StageId, Stage>

  predicate IsAutomatic(design: Design, stage: StageId) {
    stage in design && design[stage].kind.Automatic?
  }

  /** Stored designs: policies within their bounds, and an End never leaves an instance running. */
  ghost predicate ValidDesign(design: Design) {
    && (forall s | IsAutomatic(design, s) :: ValidPolicy(design[s].kind.policy))
    && (forall s | s in design && design[s].kind.End? :: !design[s].kind.outcome.InProgress?)
  }

  /** The database: `effects` logs the actions whose effects are committed, `advances` the
      executions that moved their instance along the success route. */
  datatype Db = Db(
    receipts: map<Key, Receipt>, instances: map<InstanceId, Instance>, effects: seq<Key>, advances: seq<Key>)

  /** What a transaction cannot determine itself: the clock, the results of the conditions it
      evaluates (when they run out, evaluating the next one raises), whether the company has a
      service user, and whether anything else raises while a stage is activated. */
  datatype Surroundings = Surroundings(now: int, conditions: seq<bool>, serviceUser: bool, raises: bool)

  /* ---------- activating a stage; None is a raised error ---------- */

  function SetInstance(db: Db, inst: InstanceId, instance: Instance): Db {
    db.(instances := db.instances[inst := instance])
  }

  function SetReceipt(db: Db, key: Key, receipt: Receipt): Db {
    db.(receipts := db.receipts[key := receipt])
  }

  function Schedule(design: Design, db: Db, key: Key, env: Surroundings): Option<Db>
    requires key.inst in db.instances && IsAutomatic(design, key.stage)
  {
    if key in db.receipts then
      if db.receipts[key].status.Live() then Some(db) else None
    else
      var kind := design[key.stage].kind;
      var instance := db.instances[key.inst].(stage := Some(key.stage));
      var receipt := Receipt(Pending, 0, 0, Some(env.now), None, kind.success, kind.error, kind.policy);
      if env.serviceUser then Some(SetReceipt(SetInstance(db, key.inst, instance), key, receipt))
      else Some(SetReceipt(SetInstance(db, key.inst, instance.(status := Broken)), key,
                           receipt.(status := Failed, completedOn := Some(env.now))))
  }

  function Activate(design: Design, db: Db, inst: InstanceId, stage: StageId, trigger: Trigger,
                    env: Surroundings): Option<Db>
    requires inst in db.instances
    decreases |env.conditions|
  {
    if stage !in design || env.raises then None else
      var moved := SetInstance(db, inst, db.instances[inst].(stage := Some(stage)));
      match design[stage].kind
      case End(outcome) => Some(SetInstance(moved, inst, moved.instances[inst].(status := outcome)))
      case Condition(onTrue, onFalse) =>
        if env.conditions == [] then None else
          var next := if env.conditions[0] then onTrue else onFalse;
          if next == None then None
          else Activate(design, moved, inst, next.value, trigger, env.(conditions := env.conditions[1..]))
      case Automatic(_, _, _) => Schedule(design, db, Key(inst, stage, trigger), env)
      case UserTask => Some(moved)
      case Approval => Some(moved)
      case Wait => None
  }

  /* ---------- finishing an execution ---------- */

  function Finish(design: Design, db: Db, key: Key, success: bool, env: Surroundings): Option<Db>
    requires key in db.receipts && key.inst in db.instances
  {
    var target := if success then db.receipts[key].success else db.receipts[key].error;
    if target.Some? then
      if target.value !in design
         || design[target.value].definition != db.instances[key.inst].definition
         || (!success && !design[target.value].kind.UserTask?) then None
      else match Activate(design, db, key.inst, target.value, key.trigger, env)
        case None => None
        case Some(d) => Some(if success then d.(advances := d.advances + [key]) else d)
    else if success then None
    else Some(SetInstance(db, key.inst, db.instances[key.inst].(status := Broken)))
  }

  /** The error route; when it cannot be taken the instance fails. */
  function FinalFailure(design: Design, db: Db, key: Key, env: Surroundings): Db
    requires key in db.receipts && key.inst in db.instances
  {
    match Finish(design, db, key, false, env)
    case Some(d) => d
    case None => SetInstance(db, key.inst, db.instances[key.inst].(status := Broken))
  }

  function PowerOfTwo(n: nat): (r: nat)
    ensures r >= 1
  {
    if n == 0 then 1 else 2 * PowerOfTwo(n - 1)
  }

  function Min(a: int, b: int): int { if a <= b then a else b }

  /** Seconds until the next attempt, or None when there is none. An attempt that failed has
      been counted, so `failedAttempt` is at least 1. */
  function RetryDelay(p: Policy, failedAttempt: nat, transient: bool): Option<int> {
    if !transient || failedAttempt > p.extraAttempts then None
    else Some(Min(3600, p.retrySeconds * PowerOfTwo(if failedAttempt == 0 then 0 else failedAttempt - 1)))
  }

  /* ---------- the transactions of a worker ---------- */

  predicate CanClaim(db: Db, key: Key, now: int) {
    && key in db.receipts
    && (db.receipts[key].status.Pending? || db.receipts[key].status.RetryPending?)
    && (db.receipts[key].nextAttempt.Some? ==> db.receipts[key].nextAttempt.value <= now)
  }

  /** Lines 475-486: the attempt is committed before any effect. */
  function Claim(db: Db, key: Key, now: int): Db {
    if !CanClaim(db, key, now) then db else
      var r := db.receipts[key];
      SetReceipt(db, key, r.(attempts := r.attempts + 1, startedOn := now, status := Running))
  }

  /** What performing the action comes to: an error, or effects of which some notifications may
      have failed. `transient` is the kind of an error, also of one raised after the effects. */
  datatype Work = Work(raises: bool, channelErrors: bool, transient: bool)

  predicate WaitsAt(db: Db, key: Key) {
    && key.inst in db.instances
    && db.instances[key.inst].status.InProgress? && db.instances[key.inst].stage == Some(key.stage)
  }

  predicate MayExecute(db: Db, key: Key) {
    key in db.receipts && db.receipts[key].status.Running? && key.inst in db.instances
  }

  /** The effects, the receipt and the next route of lines 496-508, which commit together. */
  function Perform(design: Design, db: Db, key: Key, work: Work, env: Surroundings): Option<Db>
    requires MayExecute(db, key)
  {
    if work.raises then None else
      var r := db.receipts[key].(status := if work.channelErrors then CompletedWithErrors else Succeeded,
                                 completedOn := Some(env.now));
      Finish(design, SetReceipt(db.(effects := db.effects + [key]), key, r), key, true, env)
  }

  /** Lines 487-508, 532. The flag says that an error was raised and rolled back, so the worker
      goes on to record the failure. */
  function Execute(design: Design, db: Db, key: Key, work: Work, env: Surroundings): (Db, bool) {
    if !MayExecute(db, key) then (db, false)
    else if !WaitsAt(db, key) then (SetReceipt(db, key, db.receipts[key].(status := Cancelled)), false)
    else match Perform(design, db, key, work, env)
      case Some(d) => (d, false)
      case None => (db, true)
  }

  /** The receipt after a failed attempt. */
  function AfterFailure(r: Receipt, transient: bool, now: int): Receipt {
    match RetryDelay(r.policy, r.attempts, transient)
    case Some(delay) => r.(status := RetryPending, nextAttempt := Some(now + delay), completedOn := None)
    case None => r.(status := Failed, nextAttempt := None, completedOn := Some(now))
  }

  /** Lines 513-532, in a transaction of its own after the rollback. */
  function RecordFailure(design: Design, db: Db, key: Key, transient: bool, env: Surroundings): Db {
    if !MayExecute(db, key) then db else
      var r := AfterFailure(db.receipts[key], transient, env.now);
      var recorded := SetReceipt(db, key, r);
      if r.status.Failed? then FinalFailure(design, recorded, key, env) else recorded
  }

  /* ---------- the sweeper ---------- */

  predicate TimedOut(r: Receipt, startedOn: int, now: int) {
    now - startedOn > r.policy.timeoutSeconds + 60
  }

  /** One row of the sweep: the receipt as it was listed, before it was locked. */
  datatype Row = Row(key: Key, startedOn: int, env: Surroundings)

  function SweepOne(design: Design, db: Db, row: Row): Db {
    if !MayExecute(db, row.key) || !TimedOut(db.receipts[row.key], row.startedOn, row.env.now)
       || !TimedOut(db.receipts[row.key], db.receipts[row.key].startedOn, row.env.now) then db
    else
      var r := AfterFailure(db.receipts[row.key], true, row.env.now);
      var recorded := SetReceipt(db, row.key, r);
      if r.status.Failed? && WaitsAt(db, row.key) then FinalFailure(design, recorded, row.key, row.env) else recorded
  }

  /** Lines 538-571: the rows of one sweep stay locked until its single commit. */
  function Sweep(design: Design, db: Db, rows: seq<Row>): Db {
    if rows == [] then db else SweepOne(design, Sweep(design, db, rows[..|rows| - 1]), rows[|rows| - 1])
  }

  /* ---------- what people do ---------- */

  predicate Unused(db: Db, inst: InstanceId, trigger: Trigger) {
    forall k | k in db.receipts :: !(k.inst == inst && k.trigger == trigger)
  }

  /** Starting an instance; if its first stage cannot be activated nothing is stored. */
  function StartInstance(design: Design, db: Db, inst: InstanceId, definition: string, first: StageId,
                         env: Surroundings): Db {
    if inst in db.instances || !Unused(db, inst, Start) then db else
      match Activate(design, SetInstance(db, inst, Instance(definition, InProgress, None)), inst, first, Start, env)
      case None => db
      case Some(d) => d
  }

  /** A completed task leads to a next stage. Each task is completed once, so its name triggers
      at most one chain. Nothing is assumed about where the instance stands. */
  function CompleteTask(design: Design, db: Db, inst: InstanceId, task: string, next: StageId, env: Surroundings): Db {
    if inst !in db.instances || !Unused(db, inst, Task(task)) then db else
      match Activate(design, db, inst, next, Task(task), env)
      case None => db
      case Some(d) => d
  }

  /** An instance is ended from outside. */
  function EndInstance(db: Db, inst: InstanceId, status: InstanceStatus): Db {
    if inst !in db.instances || status.InProgress? then db
    else SetInstance(db, inst, db.instances[inst].(status := status))
  }

  /* ---------- runs ---------- */

  /** A worker that is under way: between its claim and its work, or between its rollback and
      its record of the failure. */
  datatype Phase = Claimed(key: Key) | Failing(key: Key, transient: bool)

  datatype Sys = Sys(db: Db, workers: map<nat, Phase>)

  /** One transaction of some process, or the death of a worker. Any number of workers may run
      the same execution: jobs can be duplicated and late. */
  datatype Step =
    | StartStep(inst: InstanceId, definition: string, first: StageId, env: Surroundings)
    | TaskStep(inst: InstanceId, task: string, next: StageId, env: Surroundings)
    | EndStep(inst: InstanceId, status: InstanceStatus)
    | ClaimStep(worker: nat, key: Key, now: int)
    | ExecuteStep(worker: nat, work: Work, env: Surroundings)
    | FailStep(worker: nat, env: Surroundings)
    | CrashStep(worker: nat)
    | SweepStep(rows: seq<Row>)

  function Next(design: Design, s: Sys, step: Step): Sys {
    match step
    case StartStep(inst, definition, first, env) => s.(db := StartInstance(design, s.db, inst, definition, first, env))
    case TaskStep(inst, task, next, env) => s.(db := CompleteTask(design, s.db, inst, task, next, env))
    case EndStep(inst, status) => s.(db := EndInstance(s.db, inst, status))
    case ClaimStep(w, key, now) =>
      if w in s.workers || !CanClaim(s.db, key, now) then s
      else Sys(Claim(s.db, key, now), s.workers[w := Claimed(key)])
    case ExecuteStep(w, work, env) =>
      if w !in s.workers || !s.workers[w].Claimed? then s else
        var key := s.workers[w].key;
        var (db, failing) := Execute(design, s.db, key, work, env);
        Sys(db, if failing then s.workers[w := Failing(key, work.transient)] else s.workers - {w})
    case FailStep(w, env) =>
      if w !in s.workers || !s.workers[w].Failing? then s else
        Sys(RecordFailure(design, s.db, s.workers[w].key, s.workers[w].transient, env), s.workers - {w})
    case CrashStep(w) => s.(workers := s.workers - {w})
    case SweepStep(rows) => s.(db := Sweep(design, s.db, rows))
  }

  const Initial: Sys := Sys(Db(map[], map[], [], []), map[])

  function Run(design: Design, steps: seq<Step>): Sys {
    if steps == [] then Initial else Next(design, Run(design, steps[..|steps| - 1]), steps[|steps| - 1])
  }
}
