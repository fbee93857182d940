/** Issuing a numbered employment certificate through a request workflow
    (asoud_erp/services/employment_certificate_workflow.py:29-138, and the saving of drafts,
    asoud_erp/api/v1/employment_certificates.py:592-650). */
module EmploymentCertificate {
  import opened Basics

  type Id = string

  /** The id a certificate gives its request (a digest of both parts), or any other request id. */
  datatype RequestId = ForCertificate(entry: Id, key: string) | Foreign(text: string)

  datatype Status = Draft | Pending | Final | Rejected | Cancelled | Failed

  /** What values_json holds; `workflow` is "" when the template names none. */
  datatype Data = Data(status: Status, workflow: string, key: Option<string>, revision: int,
                       request: Option<Id>, instance: Option<Id>, number: Option<nat>)

  datatype Entry = Entry(company: string, fingerprint: Option<RequestId>, data: Data)

  datatype Request = Request(company: string, requestId: Option<RequestId>)

  datatype InstanceStatus = Running | InstanceCompleted | InstanceRejected | InstanceCancelled | InstanceFailed

  /** `request` is None for an instance that does not belong to a request. */
  datatype Instance = Instance(request: Option<Id>, definition: string, status: InstanceStatus)

  /** `issued` counts the numbers taken from the series: the next number is the count itself. */
  datatype State = State(entries: map<Id, Entry>, requests: map<Id, Request>, instances: map<Id, Instance>, issued: nat)

  function Put(s: State, e: Id, data: Data): State
    requires e in s.entries
  {
    s.(entries := s.entries[e := s.entries[e].(data := data)])
  }

  /* ---------- the hook ---------- */

  predicate Matches(s: State, company: string, id: RequestId, e: Id) {
    e in s.entries && s.entries[e].company == company && s.entries[e].fingerprint == Some(id)
  }

  /** The entry that the stored request id of an instance leads to. */
  ghost function EntryOf(s: State, i: Id): Option<Id> {
    if i !in s.instances || s.instances[i].request == None then None else
      var r := s.instances[i].request.value;
      if r !in s.requests || s.requests[r].requestId == None then None
      else if e :| Matches(s, s.requests[r].company, s.requests[r].requestId.value, e) then Some(e) else None
  }

  /** The instance is the one this certificate waits for. */
  predicate Awaits(s: State, e: Id, i: Id)
    requires e in s.entries && i in s.instances
  {
    var d := s.entries[e].data;
    d.status == Pending && d.instance == Some(i) && d.request == s.instances[i].request
  }

  function Issued(d: Data, number: nat): Data {
    d.(status := Final, number := Some(number))
  }

  function Ended(status: InstanceStatus): Status {
    match status
    case InstanceRejected => Rejected
    case InstanceCancelled => Cancelled
    case _ => Failed
  }

  /** on_instance_update on the entry found; None is a raised error. */
  function Settle(s: State, e: Id, i: Id, renders: bool): Option<State>
    requires e in s.entries && i in s.instances
  {
    var d, inst := s.entries[e].data, s.instances[i];
    if !Awaits(s, e, i) then Some(s)
    else if d.workflow != inst.definition then None
    else match inst.status
      case Running => Some(s)
      case InstanceCompleted =>
        if renders
        then Some(Put(s, e, Issued(d, s.issued).(revision := d.revision + 1)).(issued := s.issued + 1))
        else None
      case _ => Some(Put(s, e, d.(status := Ended(inst.status), revision := d.revision + 1)))
  }

  ghost function Hook(s: State, i: Id, renders: bool): Option<State> {
    var e := EntryOf(s, i);
    if e == None then Some(s) else Settle(s, e.value, i, renders)
  }

  /* ---------- submit ---------- */

  /** What may happen inside create_request: requests and instances change, and hooks fire. */
  datatype Inner = World(requests: map<Id, Request>, instances: map<Id, Instance>) | Fires(instance: Id, renders: bool)

  ghost function InnerStep(s: State, inner: Inner): Option<State> {
    match inner
    case World(requests, instances) => Some(s.(requests := requests, instances := instances))
    case Fires(i, renders) => Hook(s, i, renders)
  }

  ghost function RunInner(s: State, inner: seq<Inner>): Option<State> {
    if inner == [] then Some(s) else
      var before := RunInner(s, inner[..|inner| - 1]);
      if before == None then None else InnerStep(before.value, inner[|inner| - 1])
  }

  /** The surroundings of one submit: whether the workflow is ready, whether only a definition of the
      old kind exists, whether rendering succeeds, and what create_request does and returns. */
  datatype Surroundings = Surroundings(ready: bool, oldDefinition: bool, renders: bool,
                                       inner: seq<Inner>, creates: bool, request: Id, instance: Id)

  datatype Reply = Replayed | Submitted | Refused

  predicate Blank(s: string) {
    forall c | c in s :: IsSpace(c)
  }

  /** The checks before the savepoint. */
  predicate MaySubmit(s: State, e: Id, revision: int, env: Surroundings)
    requires e in s.entries
  {
    var d := s.entries[e].data;
    && revision > 0 && revision == d.revision && d.status == Draft
    && if d.workflow != "" then env.ready else !env.oldDefinition
  }

  function Prepared(d: Data, key: string): Data {
    d.(status := Pending, key := Some(key), revision := d.revision + 1)
  }

  /** The work after the savepoint; None is a raised error, which rolls back to it. */
  ghost function Carry(s: State, e: Id, key: string, env: Surroundings): Option<State>
    requires e in s.entries
  {
    var d := Prepared(s.entries[e].data, key);
    if d.workflow == "" then
      (if env.renders then Some(Put(s, e, Issued(d, s.issued)).(issued := s.issued + 1)) else None)
    else
      var entry := s.entries[e].(data := d, fingerprint := Some(ForCertificate(e, key)));
      var stored := s.(entries := s.entries[e := entry]);
      var after := RunInner(stored, env.inner);
      if after == None || !env.creates || e !in after.value.entries || env.instance !in after.value.instances then None
      else
        var linked := d.(request := Some(env.request), instance := Some(env.instance));
        Hook(Put(after.value, e, linked), env.instance, env.renders)
  }

  ghost function Submit(s: State, e: Id, revision: int, key: string, env: Surroundings): (State, Reply) {
    if e !in s.entries || Blank(key) || |key| > 140 then (s, Refused)
    else if s.entries[e].data.key == Some(key) then (s, Replayed)
    else if !MaySubmit(s, e, revision, env) then (s, Refused)
    else
      var done := Carry(s, e, key, env);
      if done == None then (s, Refused) else (done.value, Submitted)
  }

  /* ---------- drafts ---------- */

  function DraftData(workflow: string, revision: int): Data {
    Data(Draft, workflow, None, revision, None, None, None)
  }

  function NewDraft(s: State, e: Id, company: string, workflow: string, revision: int): State {
    if e in s.entries then s else
      s.(entries := s.entries[e := Entry(company, None, DraftData(workflow, if revision != 0 then revision else 1))])
  }

  function EditDraft(s: State, e: Id, workflow: string, revision: int): State {
    if e !in s.entries || s.entries[e].data.status != Draft
       || revision == 0 || revision != s.entries[e].data.revision then s
    else Put(s, e, DraftData(workflow, revision + 1))
  }

  /* ---------- events ---------- */

  datatype Event =
    | Create(entry: Id, company: string, workflow: string, revision: int)
    | Edit(entry: Id, workflow: string, revision: int)
    | Submission(entry: Id, revision: int, key: string, env: Surroundings)
    | Outside(inner: Inner)

  ghost function Step(s: State, event: Event): State {
    match event
    case Create(e, company, workflow, revision) => NewDraft(s, e, company, workflow, revision)
    case Edit(e, workflow, revision) => EditDraft(s, e, workflow, revision)
    case Submission(e, revision, key, env) => Submit(s, e, revision, key, env).0
    case Outside(inner) =>
      var after := InnerStep(s, inner);
      if after == None then s else after.value
  }

  ghost predicate IsRun(states: seq<State>, events: seq<Event>) {
    && |states| == |events| + 1
    && states[0].entries == map[]
    && forall k | 0 <= k < |events| :: states[k + 1] == Step(states[k], events[k])
  }

  /* ---------- the invariant ---------- */

  predicate EntryOk(s: State, e: Id)
    requires e in s.entries
  {
    var entry, d := s.entries[e], s.entries[e].data;
    && (entry.fingerprint.Some? ==> entry.fingerprint.value.ForCertificate? && entry.fingerprint.value.entry == e)
    && (d.status == Draft ==> d.request == None && d.instance == None)
    && (d.number.Some? <==> d.status == Final)
    && (d.number.Some? ==> d.number.value < s.issued)
  }

  ghost predicate NumbersDistinct(s: State) {
    forall a, b | a in s.entries && b in s.entries && a != b && s.entries[a].data.number.Some? ::
      s.entries[a].data.number != s.entries[b].data.number
  }

  ghost predicate Inv(s: State) {
    (forall e | e in s.entries :: EntryOk(s, e)) && NumbersDistinct(s)
  }

  /** At most one entry carries a request id. */
  lemma MatchIsUnique(s: State, company: string, id: RequestId, a: Id, b: Id)
    requires Inv(s) && Matches(s, company, id, a) && Matches(s, company, id, b)
    ensures a == b
  {
    assert EntryOk(s, a) && EntryOk(s, b);
  }
}
