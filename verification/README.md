# Verification models of asoud_erp

These Dafny files model the parts of asoud_erp where a mistake is hard to spot, and prove
what they promise. Each file starts with the source it follows. Code that changes records step by
step is a class or a method with loops; code made of expressions is functions. Methods are proved
equal to a specification, and the results are lemmas about that specification.

* **Durable automatic actions** (`ActionProtocol`, `ActionSafety`, `ActionRuns`, `ActionOutcomes`,
  `ActionDatabase`).
  A transition system whose steps are the database transactions of workers, the sweeper and people.
  Workers may be many, late, duplicated or dead; a worker may come back after the sweeper re-queued
  its receipt and another worker started it again. `ActionDatabase` is the runtime field by field.
* **Form engine** (`FormDependencies`, `FormEvaluation`, `FormFields`, `FormExpression`, `FormParser`,
  `FormPrinting`, `FormReading`, `FormArithmetic`, `FormChain`, `FormComputed`). The cycle check of schemas,
  the memoised evaluation as
  the unique solution of field equations, and the two evaluators of formulas.
* **Solar Hijri dates** (`Jalali`, `Gregorian`). The Gregorian side is the calendar of section 3.2.1
  of ISO 8601:2004; the Jalali year is the one the code defines.
* **Workflow graphs** (`Paths`, `WorkflowContract`, `ActivationCounts`, `WorkflowTemplateCopy`, `PriorStages`) and
  **conditional visibility** (`WorkflowResponse`).
* **State kept over whole runs**: assignment history (`OrganizationContract`,
  `OrganizationAssignments`, `OrganizationHistory`) and numbered certificates
  (`EmploymentCertificate`, `EmploymentCertificateRuns`, `EmploymentCertificateStore`).
* **Money-like arithmetic and paging** (`Rounding`, `LeaveHours`, `LeaveAccount`, `LeaveOverdraft`,
  `DirectivePaging`).

`Basics`, `Json` and `Renamings` hold shared definitions. `dafny verify dfyconfig.toml` checks everything.

What the models take as given: clocks, results of conditions, the existence of a service user and
every call that may raise are parameters of a step and may take any value. A transaction either
commits or leaves no trace. SHA-256 digests of different inputs differ, so an execution is named by
the instance, stage and trigger it digests, and a certificate request by its entry and key. Numbers
are exact. Text is compared in ASCII.

Where the source does not do what its documentation or its own checks suggest, the models follow the code:

* `automatic_action_runtime.py:512-531`: the failure path does not look at the instance again after
  its rollback, unlike `dispatch`. `FinalFailureOfAnyInstance` and `FinalFailureOfEndedInstance` say
  exactly when that changes an instance that somebody moved on or ended in between;
  `StoppedInstanceCanFail` is such a run.
* `form_schema.py:343-344` against `378-450`: the link of a fetched field enters the first dependency
  graph only and rules enter the second one only, so a cycle through both passes the schema check
  (`FetchEscapesSchemaCheck`). Every submission then raises the evaluation's own cycle error,
  whatever its values (`SubmitFetchedForm`).
* `workflow_response.py:89-98`: the rounds need not reach a consistent assignment for rules that ask
  for an unset field in a ring; `Visibility` gives the exact condition. The stage editor
  (`workflow_stage_policy.py:104-107`, `196-210`) rejects self-references but not rings; for the rules
  it does save the rounds always settle (`SavedRulesConverge`), but on a hidden ring the values sent
  for hidden fields still decide what is shown (`RingsDecide`).
* `workflow_template_copy.py:18-23`: `rebind` renames every string that equals a stage name, also where
  the string is the action of a route. `SafeRenamingExactly` says which renamings keep every verdict.
  Generated names do (`GeneratedNamesAreSafe`): stages are named by hash, copies by hashes of twenty
  characters (`workflow_templates.py:65`), and no action word has more than eight.
* `leave_hours.py:68-137`: "exact" balances can go below zero by a fraction of a thousandth of a day
  (`OverdraftBound` has how far). `HourlyOverdraftExactly` and `DailyOverdraftExactly` say for which
  accounts the next leave can do so, and for which it cannot; `FixedDayOverdraftExactly` does for one company.
* `jalali.py:11-13`: day 30 of month 12 is accepted in every year (`ThirtiethOfEsfand`).

## Model

| member | source | states |
|---|---|---|
| `ActionRuns.EffectsOnceAndTogether` | asoud_erp/services/automatic_action_runtime.py:474-587 | In every run of workers, sweeps, duplicate jobs and crashes, an execution's effects and its success route are committed together, at most once, and exactly when its receipt says success |
| `ActionRuns.EndedReceiptsNeverChange` | asoud_erp/services/automatic_action_runtime.py:474-587 | Once a receipt has ended no later step changes any field of it, and committed effects stay committed |
| `ActionRuns.OldWorkersDoNothing` | asoud_erp/services/automatic_action_runtime.py:487-489 | Once an execution has ended, a worker that comes back at any later point of the run neither performs nor records anything, whatever happened in between |
| `ActionRuns.StartsAreCounted` | asoud_erp/services/automatic_action_runtime.py:480-486 | The stored attempt count is exactly the number of attempts a run started, crashes included |
| `ActionRuns.StartsWithinBudget` | asoud_erp/services/automatic_action_runtime.py:480-529 | No execution starts more than extra_attempts + 1 attempts (so at most six); Pending means none yet, Retry Pending between one and extra_attempts |
| `ActionRuns.DelaysGrow` | asoud_erp/services/automatic_action_policy.py:258-261 | Retry delays exist exactly for the extra attempts, never shrink, and lie between retry_seconds and 3600 |
| `ActionRuns.ChainsAreBounded` | asoud_erp/services/automatic_action_runtime.py:426-437 | One trigger of an instance has at most one execution per stage, so a chain of automatic stages ends |
| `ActionRuns.ChainStartsAreBounded` | asoud_erp/services/automatic_action_runtime.py:426-587 | Whatever fails and is retried, one trigger of an instance starts at most six attempts per stage of the design |
| `ActionProtocol.StoredPolicies` | asoud_erp/services/automatic_action_policy.py:247-256 | The execution policies that pass normalize_action are exactly those within the bounds, defaults included |
| `ActionRuns.NoInstanceIsStranded` | asoud_erp/services/automatic_action_runtime.py:386-571 | In every run an instance in progress at an automatic stage has a Pending, Running or Retry Pending execution of that stage |
| `ActionRuns.DeadWorkersAreReplaced` | asoud_erp/services/automatic_action_runtime.py:535-562 | In every run a sweep that lists a receipt whose worker has not come back in time releases it: it records the interrupted attempt, and the receipt has failed or can be claimed again within the hour |
| `ActionRuns.SweepLeavesOrReleases` | asoud_erp/services/automatic_action_runtime.py:544-562 | A sweep records the interrupted attempt of a running receipt, once, if one of its rows is overdue, and otherwise leaves the receipt as it was |
| `ActionRuns.OnlyWaitingInstancesMove` | asoud_erp/services/automatic_action_runtime.py:487-571 | Workers and sweeps change an instance only while it waits at the stage of the receipt they serve, except in the record of a final failure |
| `ActionRuns.EndedInstancesRest` | asoud_erp/services/automatic_action_runtime.py:487-571 | So they leave an ended instance alone, with that exception |
| `ActionRuns.FinalFailureOfAnyInstance` | asoud_erp/services/automatic_action_runtime.py:512-531 | The exception, wherever the instance stands: it is taken to the error User Task, or failed where that route cannot be taken; it stays as it is exactly when it was there already |
| `ActionRuns.FinalFailureOfEndedInstance` | asoud_erp/services/automatic_action_runtime.py:512-531 | An ended instance changes its status in that record exactly when the error route cannot be taken and it had not failed already |
| `ActionRuns.StoppedInstanceCanFail` | asoud_erp/services/automatic_action_runtime.py:512-531 | A concrete run in which a stopped instance ends up failed: it is stopped between the worker's rollback and its re-lock |
| `ActionSafety.ActivateArrives` | asoud_erp/api/v1/workflow_runtime.py:346-482 | Activating a stage leaves the instance at a stage that is not automatic, or at an automatic one with a fresh receipt; conditions are followed to their target |
| `ActionSafety.ActivateGoesTo` | asoud_erp/api/v1/workflow_runtime.py:346-428 | An activation ends at the stage that following the conditions one by one leads to; an End gives the instance its outcome |
| `ActionSafety.SuccessFollowsRoute` | asoud_erp/services/automatic_action_runtime.py:386-397 | A successful execution sends its instance along the success route of its stage, within its own definition |
| `ActionSafety.FinalFailureEnds` | asoud_erp/services/automatic_action_runtime.py:406-414 | A final failure moves the instance to the User Task of its error route, or fails it; nothing else changes |
| `ActionSafety.PerformKeeps` | asoud_erp/services/automatic_action_runtime.py:496-508 | The success transaction keeps the protocol invariant: logs match receipts, one live execution per trigger, budgets, nobody stranded |
| `ActionSafety.ExecuteKeeps` | asoud_erp/services/automatic_action_runtime.py:487-508 | So does a worker's main transaction in every branch: late, cancelled, successful or rolled back |
| `ActionSafety.RecordFailureKeeps` | asoud_erp/services/automatic_action_runtime.py:509-531 | So does the failure transaction after a rollback |
| `ActionSafety.SweepKeeps` | asoud_erp/services/automatic_action_runtime.py:535-571 | So does a sweep over any listed rows, stale ones included |
| `ActionSafety.NextKeeps` | asoud_erp/services/automatic_action_runtime.py:386-587 | So does every step of every process |
| `ActionSafety.RunKeeps` | asoud_erp/services/automatic_action_runtime.py:386-587 | The invariant holds after every run |
| `ActionOutcomes.RoutesAreDesigned` | asoud_erp/services/automatic_action_runtime.py:439-456 | In every run a receipt holds the policy and the success and error routes of its stage in the design |
| `ActionOutcomes.ArrivesExactly` | asoud_erp/api/v1/workflow_runtime.py:346-482 | A stage can be activated exactly when nothing raises, its conditions lead to a stage, that is no Wait, and no ended execution of an automatic stage on this trigger is there |
| `ActionOutcomes.ArrivalStores` | asoud_erp/services/automatic_action_runtime.py:426-471 | An activation stores exactly one new receipt, that of the automatic stage it arrives at: waiting and due at once, or failed without a service user |
| `ActionOutcomes.ScheduleTwice` | asoud_erp/services/automatic_action_runtime.py:431-437 | Activating a stage again changes nothing while its execution is under way, and raises once it has ended |
| `ActionOutcomes.ClaimOutcome` | asoud_erp/services/automatic_action_runtime.py:475-486 | A worker claims exactly the waiting receipts whose due time has come; any other is left alone |
| `ActionOutcomes.ExecuteOutcome` | asoud_erp/services/automatic_action_runtime.py:487-512 | In every run a worker's transaction does nothing to an attempt that has ended, cancels one whose instance moved on, rolls back when the action or its route raises, and otherwise commits the effects with the receipt and takes the instance along the success route of its stage |
| `ActionOutcomes.FailureOutcome` | asoud_erp/services/automatic_action_runtime.py:512-531 | In every run the failure of the n-th attempt is retried exactly when the error is transient and the policy has further attempts; otherwise it is final, and the instance goes to the error User Task of its stage or fails |
| `ActionOutcomes.SweepOutcome` | asoud_erp/services/automatic_action_runtime.py:544-570 | A row of a sweep fails exactly an attempt that has had its timeout and a minute; if that is final, an instance that still waits takes the error route |
| `ActionOutcomes.SweepsJoin` | asoud_erp/services/automatic_action_runtime.py:544-570 | A sweep is its rows one by one |
| `ActionOutcomes.RunningSinceClaim` | asoud_erp/services/automatic_action_runtime.py:480-482 | In every run the start in a running receipt is the time of its last claim |
| `ActionOutcomes.YoungAttemptsAreLeft` | asoud_erp/services/automatic_action_runtime.py:544-556 | In every run no sweep takes back an attempt that was claimed no longer ago than its timeout and a minute |
| `ActionOutcomes.DelayIsBackoff` | asoud_erp/services/automatic_action_policy.py:258-261 | The delay after the n-th attempt is the retry interval, doubled with every attempt up to an hour |
| `ActionOutcomes.RetriesWait` | asoud_erp/services/automatic_action_runtime.py:475-529 | In every run, after a recorded failure the next attempt starts no earlier than the backoff of the attempts made so far |
| `ActionOutcomes.StartOutcome` | asoud_erp/api/v1/workflow_runtime.py:809-836 | An instance is started once, under its definition and where its first stage leads to, or nothing is stored |
| `ActionOutcomes.TaskOutcome` | asoud_erp/api/v1/workflow_runtime.py:346-482 | Completing a task takes the instance where the next stage leads to, or changes nothing |
| `ActionDatabase.Database.ScheduleAction` | asoud_erp/services/automatic_action_runtime.py:426-471 | The stored state after schedule is the specified one: repeated activation raises, a missing service user fails receipt and instance |
| `ActionDatabase.Database.ActivateStage` | asoud_erp/api/v1/workflow_runtime.py:346-482 | Field by field, activation reaches the specified state or raises |
| `ActionDatabase.Database.FinishExecution` | asoud_erp/services/automatic_action_runtime.py:386-403 | _finish: the route of the outcome is followed, checked against definition and stage type |
| `ActionDatabase.Database.FailFinally` | asoud_erp/services/automatic_action_runtime.py:406-414 | _final_failure: error route under a savepoint, otherwise a failed instance |
| `ActionDatabase.Database.ClaimExecution` | asoud_erp/services/automatic_action_runtime.py:475-486 | The claim: only a due Pending or Retry Pending receipt, one more attempt, Running |
| `ActionDatabase.Database.ExecuteAction` | asoud_erp/services/automatic_action_runtime.py:487-512 | Effects, receipt and route together, or a full rollback |
| `ActionDatabase.Database.StoreFailure` | asoud_erp/services/automatic_action_runtime.py:519-529 | The receipt after a failed attempt: Retry Pending with its delay, or Failed |
| `ActionDatabase.Database.RecordAttemptFailure` | asoud_erp/services/automatic_action_runtime.py:513-531 | The failure of a worker is recorded only while the receipt is still Running |
| `ActionDatabase.Database.Dispatch` | asoud_erp/services/automatic_action_runtime.py:544-571 | The loop of the sweeper, row by row, equals the sweep the run-wide results are about |
| `ActionDatabase.Database.StartWorkflow` | asoud_erp/api/v1/workflow_runtime.py:809-836 | Starting an instance activates its first stage or stores nothing |
| `FormDependencies.Walk.Visit` | asoud_erp/services/form_schema.py:349-360 | The depth-first visit finishes everything it reaches, and raises only when there is a cycle or an unknown field |
| `FormDependencies.AcceptsDependencies` | asoud_erp/services/form_schema.py:338-362 | The walk accepts a dependency graph exactly when every dependency exists and there is no cycle, and terminates |
| `FormDependencies.OrderedIsAcyclic` | asoud_erp/services/form_schema.py:348-362 | An order in which every field comes after its dependencies excludes cycles |
| `FormEvaluation.SettleOne` | asoud_erp/services/form_schema.py:826-842 | Storing one field whose dependencies are settled disturbs none of the settled fields and stays in agreement with every solution |
| `FormEvaluation.Evaluation.Compute` | asoud_erp/services/form_schema.py:806-842 | The memoised recursion settles a field and all it needs; the cycle error means a real cycle, any other error that a field is missing or that a field which waits for no cycle raises |
| `FormEvaluation.EvaluateAll` | asoud_erp/services/form_schema.py:792-842 | Evaluating all fields succeeds exactly when dependencies exist, are acyclic and the equations have a solution, or, what is then the same, no field that waits for no cycle raises; the result is the only solution, whatever the listing order |
| `FormEvaluation.FailureMeansUnsolvable` | asoud_erp/services/form_schema.py:792-842 | If a field that reads only fields evaluable before it raises, the equations have no solution |
| `FormFields.FlagMeans` | asoud_erp/services/form_schema.py:491-499 | The first rule that applies and fires, or raises, decides a flag: a raised error goes up, a rule that fires sets it; where rules apply and none fires a field is hidden, and required or readonly as it is by itself |
| `FormFields.RuleMeans` | asoud_erp/services/form_schema.py:497 | A rule answers with its first condition that decides, a raised error included; if none does, it fires under and, not under or |
| `FormFields.EquationsAreLocal` | asoud_erp/services/form_schema.py:491-499 | Visibility, required and readonly rules, formulas and checks of a field read only the fields evaluated before it |
| `FormFields.ValidateValues` | asoud_erp/services/form_schema.py:783-842 | Submitted values are accepted exactly when the field equations have a solution over an acyclic form; hidden and Schedule fields are absent; accepted schemas without fetched fields never raise the cycle error, and unless a field that waits for no cycle raises first, an accepted schema raises it exactly when its read graph has a cycle |
| `FormFields.StoredFields` | asoud_erp/services/form_schema.py:806-842 | In an accepted submission a hidden field and a Schedule are absent, and any other field holds its checked value: of the linked record if it is fetched, of its formula if it is computed, the default if it is readonly, and the client's otherwise |
| `FormFields.ServerFieldsIgnored` | asoud_erp/services/form_schema.py:806-842 | What was sent for readonly, computed, fetched or hidden fields changes nothing about the solution |
| `FormFields.SubmitTwice` | asoud_erp/services/form_schema.py:783-842 | Two submissions that differ only in such fields are both accepted and store the same |
| `FormFields.FieldRaises` | asoud_erp/services/form_schema.py:491-499 | Only a rule, the formula or a check can make a field raise |
| `FormFields.ValidateSchema` | asoud_erp/services/form_schema.py:338-450 | A schema passes both walks exactly when both dependency graphs are closed and acyclic |
| `FormFields.AcceptedSchemaNeverCycles` | asoud_erp/services/form_schema.py:378-450 | Without fetch_from the schema check covers every dependency the evaluation follows, disabled rules included |
| `FormFields.AcceptedSchemaIsClosed` | asoud_erp/services/form_schema.py:338-450 | For an accepted schema every field the evaluation reads exists, fetched links included |
| `FormFields.FetchEscapesSchemaCheck` | asoud_erp/services/form_schema.py:343-344 | With fetch_from it does not: a schema both walks accept and whose read graph has a cycle |
| `FormFields.SubmitFetchedForm` | asoud_erp/services/form_schema.py:783-842 | Every submission of that accepted schema is refused with the cycle error of the evaluation, whatever the operators, formulas and checks answer or raise |
| `FormFields.FetchedFormIsStuck` | asoud_erp/services/form_schema.py:806-842 | In that schema no field gets a value first, so no check of it is ever reached |
| `FormExpression.SkipParse` | asoud_erp/services/form_schema.py:535-578 | Skip mode ends at exactly the token where execute mode ends and raises the same syntax errors; it can only miss arithmetic ones |
| `FormExpression.SkipIf` | asoud_erp/services/form_schema.py:611-619 | The same inside the three parts of an IF |
| `FormExpression.SkipMoreArgs` | asoud_erp/services/form_schema.py:632-640 | The same over the argument list of MAX and MIN |
| `FormParser.ExpressionParser.ParseExpr` | asoud_erp/services/form_schema.py:529-533 | The parser object moves pos to where the grammar ends and returns its value, or raises its error |
| `FormParser.ExpressionParser.ParseLevel` | asoud_erp/services/form_schema.py:535-578 | One level: operators are applied from left to right, a zero divisor raises unless skipped |
| `FormParser.ExpressionParser.ParseUnary` | asoud_erp/services/form_schema.py:580-588 | Signs bind to the operand that follows |
| `FormParser.ExpressionParser.ParsePrimary` | asoud_erp/services/form_schema.py:590-646 | Parentheses, numbers, names and calls |
| `FormParser.ExpressionParser.ParseIf` | asoud_erp/services/form_schema.py:611-619 | IF evaluates its condition and only the branch it selects |
| `FormParser.ExpressionParser.ParseRound` | asoud_erp/services/form_schema.py:620-631 | ROUND with its optional digits |
| `FormParser.ExpressionParser.ParseExtreme` | asoud_erp/services/form_schema.py:632-640 | MAX and MIN over one or more arguments |
| `FormPrinting.ParsePrint` | asoud_erp/services/form_schema.py:529-646 | Reading a printed tree at any level, followed by anything that does not extend it, gives the tree's value and leaves what follows |
| `FormPrinting.ParsePrinted` | asoud_erp/services/form_schema.py:529-646 | Round trip: the print of a tree, with the needed parentheses and any others, in any spelling of the function names, is read to its last token and gives the tree's meaning, errors included (precedence, left association, unary minus, percent) |
| `FormReading.ReadsExactly` | asoud_erp/services/form_schema.py:529-646 | A token list is read to its end with a value exactly when it is the print of a well-formed tree that has this value |
| `FormReading.AcceptedPrefix` | asoud_erp/services/form_schema.py:529-646 | Whatever prefix is accepted is the print of a tree, and the value given is the value of that tree |
| `FormReading.ReadOperand` | asoud_erp/services/form_schema.py:535-646 | The same at every binding level, in execute and in skip mode |
| `FormPrinting.IfIsTakenBranch` | asoud_erp/services/form_schema.py:611-619 | An IF has the value of its taken branch even if the other one divides by zero |
| `FormArithmetic.OperatorsMean` | asoud_erp/services/form_schema.py:551-578 | The operators between two numbers are arithmetic; division by zero is an error |
| `FormArithmetic.ComparisonsMean` | asoud_erp/services/form_schema.py:535-549 | Comparisons are one or zero |
| `FormArithmetic.OperatorsBind` | asoud_erp/services/form_schema.py:535-578 | Products bind before sums and sums before comparisons; equals go from left to right |
| `FormArithmetic.SignsBind` | asoud_erp/services/form_schema.py:580-588 | A sign belongs to the operand that follows it |
| `FormArithmetic.FunctionNames` | asoud_erp/services/form_schema.py:608-632 | The functions are known by their names in any mixture of capital and small letters |
| `FormArithmetic.NamesMean` | asoud_erp/services/form_schema.py:643-646 | A missing field counts as zero, one that is no number is an error |
| `FormArithmetic.ExtremeMeans` | asoud_erp/services/form_schema.py:638-640 | MAX and MIN give one of their arguments, and none is larger, or smaller |
| `FormArithmetic.ExtremumRead` | asoud_erp/services/form_schema.py:632-640 | Reading a MAX or MIN of any arguments fails exactly when reading an argument does, and otherwise gives the largest or smallest of their values |
| `FormArithmetic.ExtremeIsChoice` | asoud_erp/services/form_schema.py:611-640 | IF(x > y, x, y) reads like MAX(x, y), and IF(x > y, y, x) like MIN(x, y) |
| `FormArithmetic.RoundMeans` | asoud_erp/services/form_schema.py:620-631 | ROUND rounds to its second argument, whose decimals are cut off, or to integers |
| `Rounding.RoundedExactly` | asoud_erp/services/form_schema.py:629 | A rounded value is the closest multiple of its last decimal, ties away from zero |
| `FormChain.FoldProducts` | asoud_erp/services/form_schema.py:739-756 | First pass of the chain: after any number of operators the two stacks stand for the same result as the tokens left to the expression evaluator |
| `FormChain.AddUp` | asoud_erp/services/form_schema.py:757-762 | Second pass: the remaining sums from the left |
| `FormChain.Chain` | asoud_erp/services/form_schema.py:733-762 | For every list of operands and operators the chain gives the value, or the failure, of the expression evaluator on the infix form, which it reads to the end |
| `FormChain.BadOperandFails` | asoud_erp/services/form_schema.py:703 | An operand that is no number fails the expression evaluator wherever it stands |
| `FormComputed.ChainFormulaMeans` | asoud_erp/services/form_schema.py:703-762 | A chain formula has a value exactly when it has one operand more than operators and the expression evaluator reads its infix form over the stored values without an error; it is then that value, rounded to the precision of the formula |
| `FormComputed.AcceptedChains` | asoud_erp/services/form_schema.py:776-842 | In every accepted submission each visible chain formula holds its checked value over the values stored for its operands, and a hidden one is absent |
| `Jalali.JalaliToGregorian` | asoud_erp/services/jalali.py:4-42 | The result is a valid Gregorian date whose ordinal is the linear Jalali day count; it raises exactly for refused days and results outside Python's years |
| `Jalali.SplitYear` | asoud_erp/services/jalali.py:18-31 | The 400-, 100- and 4-year reductions are exact: year start plus day of year is the total |
| `Jalali.SplitMonth` | asoud_erp/services/jalali.py:33-41 | The month loop ends on a valid day and never runs past December |
| `Jalali.ClosedFormCountsYears` | asoud_erp/services/jalali.py:15 | The 33-year closed form counts the days of the years one by one, with eight leap years per cycle |
| `Jalali.NowruzOf1405` | asoud_erp/services/jalali.py:15 | The day count is anchored: 1 Farvardin 1405 is 21 March 2026 |
| `Jalali.ConversionIncreases` | asoud_erp/services/jalali.py:4-42 | Conversion preserves the order of valid dates, strictly and both ways |
| `Jalali.ConvertsOnce` | asoud_erp/services/jalali.py:4-42 | The stated result of a conversion is unique |
| `Jalali.ThirtiethOfEsfand` | asoud_erp/services/jalali.py:11-13 | Day 30 of month 12 converts to the next new year exactly in common years |
| `Jalali.NowruzInMarch` | asoud_erp/services/jalali.py:57-61 | Nowruz of year y falls between day 78 and day 81 of Gregorian year y + 621, over all of Python's years |
| `Jalali.GuessedYear` | asoud_erp/services/jalali.py:59-61 | The year guessed from the Gregorian year is right or exactly one too late, so one correction suffices |
| `Jalali.GregorianToJalali` | asoud_erp/services/jalali.py:57-68 | The result is the valid Jalali date with the same ordinal; it raises only before the first Nowruz of Python's dates |
| `Jalali.SplitJalaliYear` | asoud_erp/services/jalali.py:63-68 | The month loop of the inverse |
| `Jalali.RoundTripGregorian` | asoud_erp/services/jalali.py:4-68 | Gregorian to Jalali and back is the identity |
| `Jalali.RoundTripJalali` | asoud_erp/services/jalali.py:4-68 | Jalali to Gregorian and back is the identity exactly for valid dates from year -620 on; 30 Esfand of a common year comes back as the next Nowruz |
| `Jalali.CurrentJalaliYear` | asoud_erp/services/jalali.py:45-48 | The current year is the one whose Nowruz is the last one not after today |
| `Jalali.FiscalPeriod` | asoud_erp/services/jalali.py:51-54 | A fiscal period lasts exactly one Jalali year and meets the next one without a gap |
| `Gregorian.OrdinalOrders` | asoud_erp/services/jalali.py:42 | Ordinals determine and order Gregorian dates |
| `WorkflowContract.ActivationRequirements` | asoud_erp/services/workflow_contract.py:62-102 | No requirement is missing exactly when there is one Start, some End, no transition leaves the workflow, every stage is valid and executable, and every stage lies on a path from the Start to an End |
| `ActivationCounts.ActivatableByCount` | asoud_erp/services/workflow_contract.py:34-102 | A workflow may be activated exactly when it has one Start and some End, its transitions stay in it and hold objects, every stage is saved correctly, is no Wait and has the exits its kind needs, and lies on a path from the Start to an End |
| `ActivationCounts.RoutesByCount` | asoud_erp/services/workflow_contract.py:34-63 | Exits are counted over all transitions: one for a Start, none for an End, one per result for a Condition, and for the others one for the main action and at most one for each other allowed action, or a single exit without an action |
| `ActivationCounts.ActionMeans` | asoud_erp/services/workflow_contract.py:51-52 | The action of a transition is the text of its condition or, without one, its label; any other value is no action |
| `ActivationCounts.LowerSpells` | asoud_erp/services/workflow_contract.py:51-52 | Actions are compared letter by letter without regard to capitals |
| `ActivationCounts.CountOfMeans` | asoud_erp/services/workflow_contract.py:70-73 | One stage of a kind means exactly one place in the list |
| `WorkflowContract.MissingRequirements` | asoud_erp/services/workflow_contract.py:62-102 | Each requirement is listed, once, exactly when it is not met |
| `WorkflowContract.ReachedFrom` | asoud_erp/services/workflow_contract.py:87-93 | The worklist computes exactly the stages reachable from the start |
| `WorkflowContract.FinishingStages` | asoud_erp/services/workflow_contract.py:94-99 | The backward fixpoint computes exactly the stages from which an end can be reached |
| `WorkflowContract.ConditionDecides` | asoud_erp/services/workflow_contract.py:41-44 | The routes of a Condition are valid exactly when each has a result and each result selects one target |
| `WorkflowContract.TargetsCover` | asoud_erp/services/workflow_condition.py:23-32 | Every route with a result is chosen for one of the two results |
| `WorkflowTemplateCopy.GraphPlan` | asoud_erp/services/workflow_template_copy.py:26-60 | A plan is made exactly for bounded templates with distinct stages, a one-to-one renaming, one Start and some End, and inner edges; it is the renamed copy, row by row |
| `WorkflowTemplateCopy.RebindFixes` | asoud_erp/services/workflow_template_copy.py:18-23 | Rebinding leaves a configuration alone exactly when it holds no renamed string |
| `WorkflowTemplateCopy.RebindBack` | asoud_erp/services/workflow_template_copy.py:18-23 | Rebinding is undone by the inverse renaming |
| `WorkflowTemplateCopy.RebindStrings` | asoud_erp/services/workflow_template_copy.py:18-23 | The strings of a rebound configuration are the renamed ones |
| `WorkflowTemplateCopy.CopyNamesNoOldStage` | asoud_erp/services/workflow_template_copy.py:38-57 | When no new name is an old one, no stage, transition, configuration or condition of the copy names a stage of the template |
| `WorkflowTemplateCopy.RenamingKeepsReach` | asoud_erp/services/workflow_template_copy.py:50-57 | A one-to-one renaming keeps reachability in both directions |
| `WorkflowTemplateCopy.PlanKeepsStructure` | asoud_erp/services/workflow_template_copy.py:26-60 | The copy has the same Start and End count, no edge out of the workflow, and is connected exactly when the template is |
| `WorkflowTemplateCopy.PlanKeepsRoutes` | asoud_erp/services/workflow_template_copy.py:50-57 | Every copied stage has valid routes exactly when its original has: Start, End, Condition and Wait stages under any renaming, the others if the renaming is safe or keeps the actions of their own routes |
| `WorkflowTemplateCopy.SafeRenamingExactly` | asoud_erp/services/workflow_template_copy.py:18-23 | A renaming keeps the verdict on all routes of all stages exactly when it is safe: no name of a stage, old or new, is empty or, in lower case, an action word, unless only its case changes; every other renaming has routes that tell it |
| `WorkflowTemplateCopy.GeneratedNamesAreSafe` | asoud_erp/services/workflow_template_copy.py:18-23 | Names of nine or more characters make a safe renaming |
| `WorkflowTemplateCopy.PlanKeepsActivatable` | asoud_erp/services/workflow_template_copy.py:26-60 | Under a safe renaming the copy, with its stages configured again, meets the activation requirements exactly when the template does |
| `WorkflowTemplateCopy.FreshCopyIsNotActivatable` | asoud_erp/services/workflow_template_copy.py:38-48 | Before its stages are configured again a copy may not be activated |
| `WorkflowTemplateCopy.RoutesKeepConditions` | asoud_erp/services/workflow_template_copy.py:51-57 | Conditions are copied verbatim exactly when none holds a renamed string |
| `PriorStages.Reachable` | asoud_erp/services/automatic_action_metadata.py:124-135 | The worklist computes exactly the stages reached along one or more transitions |
| `PriorStages.BackwardsIsReversed` | asoud_erp/services/automatic_action_metadata.py:128-133 | Walking backwards is walking the reversed transitions |
| `PriorStages.PriorStagesOf` | asoud_erp/services/automatic_action_metadata.py:116-137 | The prior stages of a stage are exactly those that lead to it and are not led back to |
| `PriorStages.PriorIsStrictOrder` | asoud_erp/services/automatic_action_metadata.py:137 | On any graph, cycles included, that relation is a strict partial order |
| `PriorStages.OutputsResolve` | asoud_erp/services/automatic_action_metadata.py:140-158 | With prior target stages the recursion for the output type never meets a stage twice and ends at the known output the targets lead to |
| `WorkflowResponse.Visibility` | asoud_erp/services/workflow_response.py:89-98 | The n + 1 rounds end in an assignment where every rule is judged with hidden fields read as unset, exactly when no cycle of rules that depend on visibility refuses the value that was sent |
| `WorkflowResponse.AllSettled` | asoud_erp/services/workflow_response.py:92-97 | n rounds settle all n fields, one more each round |
| `WorkflowResponse.RoundsConverge` | asoud_erp/services/workflow_response.py:92-97 | Under that condition round n + 1 changes nothing |
| `WorkflowResponse.ConvergenceMeansAgreement` | asoud_erp/services/workflow_response.py:92-97 | If any round changes nothing, the condition holds |
| `WorkflowResponse.VisibilityIsUnique` | asoud_erp/services/workflow_response.py:89-98 | Without reference cycles there is exactly one consistent assignment, and the rounds find it |
| `WorkflowResponse.SavedRulesConverge` | asoud_erp/services/workflow_response.py:79-98 | With the rules the stage editor saves, rings included, the rounds end in the largest consistent assignment |
| `WorkflowResponse.RingOfUnsetRules` | asoud_erp/services/workflow_response.py:79-98 | Two fields each shown while the other is unset: the rounds do not settle |
| `WorkflowResponse.NormalizeFormResponse` | asoud_erp/services/workflow_response.py:108-140 | The stored response has every non-automatic field: hidden ones unset, visible required ones not empty; unknown or client-set automatic fields are refused |
| `WorkflowResponse.StoredAnswers` | asoud_erp/services/workflow_response.py:125-143 | Every required field that is shown was answered, and a shown field holds its converted answer or nothing |
| `WorkflowResponse.RefusedExactly` | asoud_erp/services/workflow_response.py:115-124 | A response is refused for an unknown field, or for an automatic one that a client sets without leave |
| `WorkflowResponse.StoredIgnoresHidden` | asoud_erp/services/workflow_response.py:125-138 | Two responses that differ only in fields their own answers hide are stored alike, if the rules refer to each other in no ring, or are saved rules whose rings are shown |
| `WorkflowResponse.RingsDecide` | asoud_erp/services/workflow_response.py:79-98 | With the rules the stage editor saves, what is sent for hidden fields never changes which fields are shown exactly when every field on a ring of references is shown |
| `WorkflowResponse.HiddenRingMatters` | asoud_erp/services/workflow_response.py:79-98 | A hidden ring is shown by a response that differs only in the hidden fields of the ring |
| `WorkflowResponse.AcyclicHidesSafely` | asoud_erp/services/workflow_response.py:79-98 | Without rings hidden values never change which fields are shown, whatever the rules ask for |
| `PriorStages.OutputExactly` | asoud_erp/services/automatic_action_metadata.py:140-158 | On any targets the recursion answers exactly when following them ends, and with the type they end in; otherwise it raises |
| `OrganizationContract.ValidateRows` | asoud_erp/services/organization_contract.py:10-57 | Rows are accepted exactly when each is valid (distinct occupants within capacity), codes and legacy employees are unique, parents exist and no position is above itself; they come back normalized |
| `OrganizationContract.WalkUp` | asoud_erp/services/organization_contract.py:47-56 | The walk to the root succeeds only for an existing parent and a code on no cycle, and fails only on a missing parent or a cycle |
| `OrganizationContract.CheckParents` | asoud_erp/services/organization_contract.py:47-56 | All walks succeed exactly when parents exist and there is no cycle |
| `OrganizationContract.CheckRows` | asoud_erp/services/organization_contract.py:14-46 | The first loop accepts exactly the rows that fit by themselves and with each other |
| `OrganizationContract.RowAccepted` | asoud_erp/services/organization_contract.py:16-41 | A row passes by itself exactly when, without spaces around them, its code and title and all its occupants say something, no occupant is named twice and the capacity is positive and suffices |
| `OrganizationContract.NormalizedKeeps` | asoud_erp/services/organization_contract.py:18-38 | Normalizing cuts spaces around texts; a row with occupants names no employee besides, one without has room for one and no history |
| `OrganizationContract.StripCuts` | asoud_erp/services/organization_contract.py:18-19 | Spaces are cut from both ends and nowhere else |
| `OrganizationAssignments.DeletableExactly` | asoud_erp/services/organization_assignments.py:5-20 | A position may be deleted exactly when it has no occupant, no history and no subordinate |
| `OrganizationAssignments.BuildHistory` | asoud_erp/services/organization_assignments.py:38-52 | The loops give the specified history: legacy conversion, closing, opening |
| `OrganizationAssignments.Reconcile` | asoud_erp/services/organization_assignments.py:23-54 | A save is accepted exactly when no held position is dropped and no row loses its assignments; then every row is completed in place, otherwise the refusal is the first one |
| `OrganizationHistory.OpenEntriesAreOccupants` | asoud_erp/services/organization_assignments.py:38-53 | After a save the open entries of a position are its occupants, once each |
| `OrganizationHistory.HistoryStep` | asoud_erp/services/organization_assignments.py:45-51 | A save keeps every entry in place, closes an open one, with the server's stamp, exactly when its holder left, and appends entries of newcomers only, with that stamp |
| `OrganizationHistory.LegacyStartStaysUnknown` | asoud_erp/services/organization_assignments.py:40-44 | An assignment from before there was a history is recorded with an unknown start, and closed only if its holder left |
| `OrganizationHistory.OldClientsKeepAssignments` | asoud_erp/services/organization_assignments.py:33-42 | A client of the old version is let through exactly where it leaves the assignment as it is stored |
| `OrganizationHistory.SentHistoriesNeverMatter` | asoud_erp/asoud_erp/doctype/asoud_organization_chart/asoud_organization_chart.py:21-30 | Over whole runs: with whatever other histories clients had sent, the same saves are accepted and the same charts stored |
| `OrganizationHistory.HistoryIsKept` | asoud_erp/asoud_erp/doctype/asoud_organization_chart/asoud_organization_chart.py:21-30 | Over any sequence of accepted saves, from an empty chart or one stored before histories were kept, a position with a history never disappears, and no entry is dropped, moved or altered except to close an open one |
| `OrganizationHistory.HeldPositionsStay` | asoud_erp/services/organization_assignments.py:28-32 | A save that drops a position that is held or reported to is not accepted |
| `OrganizationHistory.OccupantsAreOpenEntries` | asoud_erp/asoud_erp/doctype/asoud_organization_chart/asoud_organization_chart.py:21-30 | From the first save on, at every point of every such sequence, the open entries are the occupants, once each, also of positions held before any history was kept |
| `EmploymentCertificateRuns.NumberedOnce` | asoud_erp/services/employment_certificate_workflow.py:54-138 | Whatever two points of a run show a number of a certificate, it is the same number, and no other certificate ever has it |
| `EmploymentCertificateRuns.EveryNumberIsEarned` | asoud_erp/services/employment_certificate_workflow.py:54-138 | In any run every number was given at an event that submitted a draft without a workflow, or by a hook at a moment, inside create_request or not, when the certificate was Pending and its linked instance of the same request and workflow Completed; it is the next number and is kept since |
| `EmploymentCertificateRuns.CertificatesOnlyMoveOn` | asoud_erp/services/employment_certificate_workflow.py:54-138 | Over any run every change of a certificate raises its revision, Final and the other ends are absorbing, and nothing returns to Draft |
| `EmploymentCertificateRuns.ReplayChangesNothing` | asoud_erp/services/employment_certificate_workflow.py:68-69 | Submitting again with an accepted key, at any later time, changes nothing |
| `EmploymentCertificateRuns.HookFollowsInstance` | asoud_erp/services/employment_certificate_workflow.py:112-138 | A hook changes only the Pending certificate linked to its instance and ends it the way the instance ended; a number is given for a Completed instance only, and it is the next one |
| `EmploymentCertificateRuns.HookOutcome` | asoud_erp/services/employment_certificate_workflow.py:116-138 | The certificate that waits for an instance ends exactly as the instance did, with one more revision, and stays pending exactly while it runs; the hook raises only for another workflow or when rendering fails |
| `EmploymentCertificateRuns.HookSparesOthers` | asoud_erp/services/employment_certificate_workflow.py:116-129 | No other certificate is touched |
| `EmploymentCertificateRuns.SubmitIssuesRightly` | asoud_erp/services/employment_certificate_workflow.py:83-104 | A submit gives a number at once only without a workflow, or when the linked instance is already Completed |
| `EmploymentCertificateRuns.InnerSparesSubmitted` | asoud_erp/services/employment_certificate_workflow.py:92-102 | Whatever hooks fire inside create_request, the entry being submitted is untouched until its link is stored, so nothing is overwritten |
| `EmploymentCertificateRuns.EarlyCompletionIsNotLost` | asoud_erp/services/employment_certificate_workflow.py:99-104 | An instance completed inside create_request is caught up: the submit ends with the certificate issued |
| `EmploymentCertificateRuns.EarlyEndIsNotLost` | asoud_erp/services/employment_certificate_workflow.py:78-106 | Nor is any other end that came inside create_request: the submit leaves the certificate as the hook would have |
| `EmploymentCertificateRuns.SubmitExactly` | asoud_erp/services/employment_certificate_workflow.py:54-88 | A submit is accepted exactly for the current revision of a draft, with a key and a workflow as required; an accepted key is replayed; all else is refused and changes nothing |
| `EmploymentCertificateRuns.IssuedAtOnce` | asoud_erp/services/employment_certificate_workflow.py:80-84 | Without a workflow a certificate is issued at once with the next number |
| `EmploymentCertificateRuns.OnePerRevision` | asoud_erp/services/employment_certificate_workflow.py:69-75 | In every run at most one edit or submit is accepted for one revision of a certificate |
| `EmploymentCertificateRuns.DraftsExactly` | asoud_erp/api/v1/employment_certificates.py:592-650 | A draft is saved for the first time or for its current revision, and then nothing of an earlier submit stays |
| `EmploymentCertificateRuns.StepMoves` | asoud_erp/services/employment_certificate_workflow.py:36-138 | Every step of drafts, submits and hooks keeps numbers distinct and below the counter, and moves each certificate only forward |
| `EmploymentCertificateStore.Store.Issue` | asoud_erp/services/employment_certificate_workflow.py:36-51 | _issue takes the next number before it renders |
| `EmploymentCertificateStore.Store.OnInstanceUpdate` | asoud_erp/services/employment_certificate_workflow.py:112-138 | The hook, field by field, reaches the specified state or raises |
| `EmploymentCertificateStore.Store.CreateRequest` | asoud_erp/services/employment_certificate_workflow.py:99-100 | Hooks that fire in between act in order; the first that raises ends the call |
| `EmploymentCertificateStore.Store.Submit` | asoud_erp/services/employment_certificate_workflow.py:54-109 | submit replies and stores as specified; a raised error leaves the state as it was before |
| `LeaveAccount.OverdraftBound` | asoud_erp/services/request_native_documents.py:225-251 | For a paid type without negative balance no run of hourly and daily leaves takes the exact balance below -0.001 day, nor, with hourly leave only, to -0.0005505 |
| `LeaveAccount.PostingBound` | asoud_erp/services/leave_hours.py:92-104 | The check (four decimals against three) and the posting (six) together let the balance fall to less than 0.0005505 below zero |
| `LeaveAccount.PostedAmount` | asoud_erp/services/leave_hours.py:92-104 | The amount posted is the length of the leave in days, up to the rounding of the hours and of the amount; for whole multiples of three minutes to within half a millionth |
| `LeaveAccount.RefusalMeansShort` | asoud_erp/services/leave_hours.py:239-243 | An hourly leave is refused for want of balance only if it exceeds the exact balance less 0.00055 |
| `LeaveAccount.ApplicationRefusalMeansShort` | asoud_erp/services/leave_hours.py:246-254 | A daily leave is refused only if it exceeds the native figure or the exact balance less 0.001 |
| `LeaveAccount.ApplicationBound` | asoud_erp/services/leave_hours.py:246-254 | The overlay lets a daily leave take the balance to -0.001 at most, and to -0.0005 for whole thousandths of a day |
| `LeaveOverdraft.HourlyOverdraftExactly` | asoud_erp/services/request_native_documents.py:239-250 | No accepted hourly leave takes an account below zero exactly when its balance is at least its three-decimal rounding plus 0.00005, or that rounding is negative or at least 1.013 |
| `LeaveOverdraft.FixedDayOverdraftExactly` | asoud_erp/services/request_native_documents.py:239-250 | With the working hours of a company fixed, no accepted hourly leave takes an account below zero exactly when its balance covers the longest leave that is accepted |
| `LeaveOverdraft.EightHoursCoverThousandths` | asoud_erp/services/leave_hours.py:92-104 | With eight hours a day only a balance that is rounded up to thousandths can be overdrawn |
| `LeaveOverdraft.DailyOverdraftExactly` | asoud_erp/services/leave_balance.py:168-182 | No accepted daily leave in steps of n thousandths does exactly when no hourly leave was taken, or the balance is not rounded up to a length that is on offer and within the native figure |
| `LeaveOverdraft.AnyLengthOverdraftExactly` | asoud_erp/services/leave_balance.py:168-182 | If days could have any length, a nonnegative account would be safe exactly while no hourly leave is taken |
| `LeaveAccount.OverdraftHappens` | asoud_erp/services/request_native_documents.py:239-250 | An instance: one hour of an eight-hour day with 0.1245 day left |
| `LeaveAccount.PostedOnce` | asoud_erp/services/request_native_documents.py:226-230 | Over any run each request has at most one ledger entry, and amounts stay whole millionths |
| `LeaveAccount.RedispatchChangesNothing` | asoud_erp/services/request_native_documents.py:62-63 | Once a request is created, dispatching it again at any later point of a run changes nothing |
| `LeaveAccount.Records.CreateHourlyLedgerEntry` | asoud_erp/services/request_native_documents.py:225-251 | An existing entry is returned; otherwise the duration is recomputed, checked and posted |
| `LeaveAccount.Records.Dispatch` | asoud_erp/services/request_native_documents.py:47-98 | Created requests are left alone, failed ones tried again |
| `LeaveAccount.Records.Apply` | asoud_erp/services/leave_balance.py:156-182 | A daily application is refused exactly when the overlay or the native check refuses it |
| `LeaveAccount.Records.HourlyTaken` | asoud_erp/services/leave_balance.py:119-121 | The loop sums the posted amounts |
| `LeaveHours.ExactHours` | asoud_erp/services/leave_hours.py:92-94 | Stored hours are exact precisely for multiples of three minutes, so for every quarter of an hour |
| `LeaveHours.DurationExactly` | asoud_erp/services/leave_hours.py:112-137 | A leave is for at least fifteen minutes and, with other leaves of the day, no longer than the working day; each error arises exactly in its case |
| `LeaveOverdraft.TimesExactly` | asoud_erp/services/leave_hours.py:84-89 | Exactly the times of a day are read, two digits each, with at most one newline after them |
| `LeaveHours.RoundedTo4` | asoud_erp/services/leave_hours.py:68-72 | Rounding to four decimals errs by at most 0.00005, and by less when it rounds down |
| `LeaveHours.MillionthsAreExact` | asoud_erp/services/leave_balance.py:149-150 | Rounding the posted sum to six decimals changes nothing |
| `DirectivePaging.LimitBeforeMerge` | asoud_erp/services/directive_paging.py:10-32 | Cutting both tables to the first n rows before the merge leaves the first n rows of the merged history as they were |
| `DirectivePaging.QueryIsSlice` | asoud_erp/services/directive_paging.py:61-67 | With these limits the query returns the slice of the whole sorted history |
| `DirectivePaging.PageIsPiece` | asoud_erp/services/directive_paging.py:70-79 | A page is its piece of the history, and there is a next cursor exactly when rows are left |
| `DirectivePaging.FollowingListsAll` | asoud_erp/services/directive_paging.py:70-79 | Following the cursors from any place lists the rest of the history, every row once and in order, and stops |
| `DirectivePaging.HistoryIsComplete` | asoud_erp/services/directive_paging.py:8-32 | From the start, with pages of fifty, a client sees all rows of both tables, later ones first and at one time those with the higher name |
| `DirectivePaging.SortSorts` | asoud_erp/services/directive_paging.py:31 | The order of the history is strict when keys are distinct |

## Left out

- Frappe itself: permissions, notifications, e-mail, audit rows, file storage, HTML rendering and SQL text are abstract steps that succeed or raise. A notice that fails never matters to the modelled state.
- ActionDatabase.Database.ExecuteAction: `perform` and `validate_config` are one effect that commits with its receipt or raises; what the effect writes is not modelled.
- ActionSafety.ActivateArrives: the older system actions (`_run_system_action`) are not automatic stages here; they run inside the activation and lose the automatic trigger. Tasks, deadlines and assignees of a human stage are not modelled.
- ActionDatabase.Database.ActivateStage: the older system actions, and the tasks, deadlines, assignees and notices of a human stage, are left out as for ActivateArrives.
- ActionDatabase.Database.StartWorkflow: the checks, the request id and the activity row of the start endpoint; only the creation of the instance and its first activation are modelled.
- ActionSafety.NextKeeps: older system actions are no steps; completing a task is assumed to come with a task name that started no chain before; where the instance stands is left open. A workflow definition does not change while its instances run.
- ActionDatabase.Database.Dispatch: re-queuing jobs (`dispatch`, second half) needs no model, because any worker may start at any time; the page limit of 100 rows is any list of rows.
- ActionRuns.DelaysGrow: a failed attempt number of 0 does not occur, since an attempt is counted before it can fail.
- FormFields.ValidateValues: single operators, formulas and value checks are arbitrary functions of the listed fields; chain formulas are given by FormComputed. Expression and "if" formulas, which may read names that are not in `inputs`, nested table rows, `not_equal` and `time_after` comparisons after the evaluation, employee lookups and file budgets are not modelled.
- FormFields.EquationsAreLocal: that an operator, formula or check reads no more than it is given is assumed of these parameters.
- LeaveOverdraft.HourlyOverdraftExactly: working hours per day may be any positive number; FixedDayOverdraftExactly is for one given figure.
- FormFields.ValidateSchema: the shape checks of a schema other than its dependency graphs.
- FormParser.ExpressionParser.ParseExpr: tokenizing, Decimal's precision limits, and identifiers that Decimal reads as numbers (nan, inf, infinity). Tokens after a complete expression are left unread, as in the source.
- FormChain.Chain: operators other than the five of a chain, which raise.
- Jalali.JalaliToGregorian: arguments that `int` has to convert first.
- WorkflowContract.ActivationRequirements: the settings of a single stage (`_validate_saved_stage`) are one verdict per stage; labels are compared in lower case of ASCII; the order of the messages is not stated.
- WorkflowTemplateCopy.GraphPlan: titles, positions and subtypes are copied verbatim and not modelled; dictionaries keep the order of their entries.
- PriorStages.OutputsResolve: stages outside the workflow, and the operation kinds that have an output of their own, are one known output each.
- WorkflowResponse.NormalizeFormResponse: conversion by field type is an arbitrary function of key and value; values are compared structurally (Python also takes True for 1).
- OrganizationContract.ValidateRows: which error is raised; rows that are no objects, occupants that are no strings; duties, department ids and labels; whitespace outside ASCII.
- OrganizationHistory.HistoryIsKept: the separate reset endpoint, which empties a chart and its history on purpose, and the resolution of employee names before a save.
- EmploymentCertificateStore.Store.Submit: revisions stored as anything but numbers, rendering, letterheads and the values sent to the request; deadlocks end the whole transaction like any other raised error.
- EmploymentCertificateRuns.NumberedOnce: the number series is a counter whose increments are rolled back with the transaction.
- EmploymentCertificateStore.Store.CreateRequest: `create_request` may change requests and instances in any way and return any of them.
- LeaveAccount.OverdraftBound: one allocation period, the native remaining and consumption figures as one number, and the native check that a daily leave is within it, are taken as given; sums of floats are exact; requests of fewer than 15 minutes or more than a day are refused as in the source; other leaves of the same day do not count when an approved leave is posted.
- LeaveHours.ExactHours: digits other than ASCII ones in times, which the pattern also admits.
- DirectivePaging.HistoryIsComplete: rows whose time and name are equal across the two tables have no defined order in SQL; names stand for their place in the collation order; rows added between two pages; cursors as text.
- Sibling document workflows, contract templates, lookups, label tables, roles, seeds, setup reset and login: repeats of the above or plumbing.
