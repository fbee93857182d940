/** The runtime of automatic actions as it runs: fields assigned and saved one by one, with the
    commits and rollbacks of asoud_erp/services/automatic_action_runtime.py:386-571 and
    asoud_erp/api/v1/workflow_runtime.py:346-482. Every method is proved to be the step of
    ActionProtocol that the run-wide results are about. */
module ActionDatabase {
  import opened Basics
  import opened ActionProtocol

  class Database {
    const design: Design
    var receipts: map<Key, Receipt>
    var instances: map<InstanceId, Instance>
    var effects: seq<Key>
    var advances: seq<Key>

    constructor (design: Design)
      ensures this.design == design && State() == Initial.db
    {
      this.design := design;
      receipts, instances, effects, advances := map[], map[], [], [];
    }

    function State(): Db
      reads this
    {
      Db(receipts, instances, effects, advances)
    }

    method Rollback(saved: Db)
      modifies this
      ensures State() == saved
    {
      receipts, instances, effects, advances := saved.receipts, saved.instances, saved.effects, saved.advances;
    }

    method SaveInstance(inst: InstanceId, instance: Instance)
      modifies this`instances
      ensures State() == SetInstance(old(State()), inst, instance)
    {
      instances := instances[inst := instance];
    }

    method SaveReceipt(key: Key, receipt: Receipt)
      modifies this`receipts
      ensures State() == SetReceipt(old(State()), key, receipt)
    {
      receipts := receipts[key := receipt];
    }

    /** A false result is a raised error: what was written so far is left to the caller's rollback. */
    method ScheduleAction(key: Key, env: Surroundings) returns (ok: bool)
      requires key.inst in instances && IsAutomatic(design, key.stage)
      modifies this`receipts, this`instances
      ensures ok <==> Schedule(design, old(State()), key, env).Some?
      ensures ok ==> State() == Schedule(design, old(State()), key, env).value
    {
      if key in receipts {
        return receipts[key].status.Live();
      }
      var instance := instances[key.inst].(stage := Some(key.stage));
      SaveInstance(key.inst, instance);
      var kind := design[key.stage].kind;
      var receipt := Receipt(Pending, 0, 0, Some(env.now), None, kind.success, kind.error, kind.policy);
      SaveReceipt(key, receipt);
      if !env.serviceUser {
        receipt := receipt.(status := Failed, completedOn := Some(env.now));
        SaveReceipt(key, receipt);
        instance := instance.(status := Broken);
        SaveInstance(key.inst, instance);
      }
      return true;
    }

    method ActivateStage(inst: InstanceId, stage: StageId, trigger: Trigger, env: Surroundings) returns (ok: bool)
      requires inst in instances
      modifies this`receipts, this`instances
      ensures ok <==> Activate(design, old(State()), inst, stage, trigger, env).Some?
      ensures ok ==> State() == Activate(design, old(State()), inst, stage, trigger, env).value
      decreases |env.conditions|
    {
      if stage !in design || env.raises {
        return false;
      }
      var instance := instances[inst].(stage := Some(stage));
      match design[stage].kind {
        case End(outcome) =>
          instance := instance.(status := outcome);
          SaveInstance(inst, instance);
          ok := true;
        case Condition(onTrue, onFalse) =>
          if env.conditions == [] {
            return false;
          }
          var next := if env.conditions[0] then onTrue else onFalse;
          if next == None {
            return false;
          }
          SaveInstance(inst, instance);
          ok := ActivateStage(inst, next.value, trigger, env.(conditions := env.conditions[1..]));
        case Automatic(_, _, _) =>
          ok := ScheduleAction(Key(inst, stage, trigger), env);
        case UserTask =>
          SaveInstance(inst, instance);
          ok := true;
        case Approval =>
          SaveInstance(inst, instance);
          ok := true;
        case Wait =>
          ok := false;
      }
    }

    method FinishExecution(key: Key, success: bool, env: Surroundings) returns (ok: bool)
      requires key in receipts && key.inst in instances
      modifies this
      ensures ok <==> Finish(design, old(State()), key, success, env).Some?
      ensures ok ==> State() == Finish(design, old(State()), key, success, env).value
    {
      var target := if success then receipts[key].success else receipts[key].error;
      if target.Some? {
        if target.value !in design || design[target.value].definition != instances[key.inst].definition
           || (!success && !design[target.value].kind.UserTask?) {
          return false;
        }
        ok := ActivateStage(key.inst, target.value, key.trigger, env);
        if ok && success {
          advances := advances + [key];
        }
      } else {
        if success {
          return false;
        }
        SaveInstance(key.inst, instances[key.inst].(status := Broken));
        ok := true;
      }
    }

    /** The error route under its savepoint. */
    method FailFinally(key: Key, env: Surroundings)
      requires key in receipts && key.inst in instances
      modifies this
      ensures State() == FinalFailure(design, old(State()), key, env)
    {
      var savepoint := State();
      var ok := FinishExecution(key, false, env);
      if !ok {
        Rollback(savepoint);
        SaveInstance(key.inst, instances[key.inst].(status := Broken));
      }
    }

    /** Lines 475-486; true when the worker goes on. */
    method ClaimExecution(key: Key, now: int) returns (claimed: bool)
      modifies this`receipts
      ensures claimed <==> CanClaim(old(State()), key, now)
      ensures State() == Claim(old(State()), key, now)
    {
      if key !in receipts || !(receipts[key].status.Pending? || receipts[key].status.RetryPending?) {
        return false;
      }
      var receipt := receipts[key];
      if receipt.nextAttempt.Some? && receipt.nextAttempt.value > now {
        return false;
      }
      receipt := receipt.(attempts := receipt.attempts + 1);
      receipt := receipt.(startedOn := now);
      receipt := receipt.(status := Running);
      SaveReceipt(key, receipt);
      return true;
    }

    /** Lines 487-508: the effects and what follows from them, or a full rollback. */
    method ExecuteAction(key: Key, work: Work, env: Surroundings) returns (failing: bool)
      modifies this
      ensures (State(), failing) == Execute(design, old(State()), key, work, env)
    {
      if key !in receipts || !receipts[key].status.Running? || key.inst !in instances {
        return false;
      }
      var receipt := receipts[key];
      if !instances[key.inst].status.InProgress? || instances[key.inst].stage != Some(key.stage) {
        receipt := receipt.(status := Cancelled);
        SaveReceipt(key, receipt);
        return false;
      }
      var committed := State();
      var ok := !work.raises;
      if ok {
        effects := effects + [key];
        receipt := receipt.(status := if work.channelErrors then CompletedWithErrors else Succeeded);
        receipt := receipt.(completedOn := Some(env.now));
        SaveReceipt(key, receipt);
        ok := FinishExecution(key, true, env);
      }
      if !ok {
        Rollback(committed);
      }
      return !ok;
    }

    /** The receipt after a failed attempt, shared by the worker and the sweeper. */
    method StoreFailure(key: Key, transient: bool, now: int) returns (final: bool)
      requires key in receipts
      modifies this`receipts
      ensures State() == SetReceipt(old(State()), key, AfterFailure(old(receipts[key]), transient, now))
      ensures final <==> AfterFailure(old(receipts[key]), transient, now).status.Failed?
    {
      var receipt := receipts[key];
      var delay := RetryDelay(receipt.policy, receipt.attempts, transient);
      receipt := receipt.(status := if delay.Some? then RetryPending else Failed);
      receipt := receipt.(nextAttempt := if delay.Some? then Some(now + delay.value) else None);
      receipt := receipt.(completedOn := if delay.Some? then None else Some(now));
      SaveReceipt(key, receipt);
      return delay.None?;
    }

    /** Lines 513-531. */
    method RecordAttemptFailure(key: Key, transient: bool, env: Surroundings)
      modifies this
      ensures State() == RecordFailure(design, old(State()), key, transient, env)
    {
      if key !in receipts || !receipts[key].status.Running? || key.inst !in instances {
        return;
      }
      var final := StoreFailure(key, transient, env.now);
      if final {
        FailFinally(key, env);
      }
    }

    /** Lines 544-571: one sweep over the listed rows. */
    method Dispatch(rows: seq<Row>)
      modifies this
      ensures State() == Sweep(design, old(State()), rows)
    {
      for n := 0 to |rows|
        invariant State() == Sweep(design, old(State()), rows[..n])
      {
        assert rows[..n + 1][..n] == rows[..n];
        var row := rows[n];
        if row.key !in receipts || row.key.inst !in instances
           || !TimedOut(receipts[row.key], row.startedOn, row.env.now) {
          continue;
        }
        if !receipts[row.key].status.Running?
           || !TimedOut(receipts[row.key], receipts[row.key].startedOn, row.env.now) {
          continue;
        }
        var final := StoreFailure(row.key, true, row.env.now);
        var instance := instances[row.key.inst];
        if final && instance.status.InProgress? && instance.stage == Some(row.key.stage) {
          FailFinally(row.key, row.env);
        }
      }
      assert rows[..|rows|] == rows;
    }

    /** workflow_runtime.py:809-836. */
    method StartWorkflow(inst: InstanceId, definition: string, first: StageId, env: Surroundings)
      requires Unused(State(), inst, Start)
      modifies this
      ensures State() == StartInstance(design, old(State()), inst, definition, first, env)
    {
      if inst in instances {
        return;
      }
      var saved := State();
      SaveInstance(inst, Instance(definition, InProgress, None));
      var ok := ActivateStage(inst, first, Start, env);
      if !ok {
        Rollback(saved);
      }
    }
  }
}
