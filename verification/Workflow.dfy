/** The tables of the evacuation workflow and what each service call does to them.
    A row's identity is its position: rows are only ever added. Every function
    here is one committed request; a refused request leaves the tables alone. */
module Workflow {
  import opened Options

  type Id = nat

  datatype PlanStatus = Draft | Approved | ReapprovalRequired | Superseded

  datatype Item = Item(community: Id, shelter: Option<Id>)

  datatype Plan = Plan(incident: Id, version: nat, status: PlanStatus, approvedBy: Option<string>, supersededBy: Option<Id>, items: seq<Item>)

  datatype Response = Pending | Evacuating | SupportRequested | Refused | Unreachable

  datatype Attempt = Attempt(incident: Id, plan: Id, community: Id, households: nat, confirmed: nat, channel: string, response: Response, followUp: Option<string>, recordedBy: Option<string>)

  datatype TaskStatus = Unassigned | Assigned | InProgress | InReview | Done | Cancelled

  datatype TaskKind = VerifyHousehold | VerifyRoute | AssistTransport | Verify | Other

  datatype Task = Task(incident: Id, community: Option<Id>, kind: TaskKind, priority: nat, status: TaskStatus, assignee: Option<string>, detail: Option<string>, dueAt: Option<nat>)

  datatype Report = Report(task: Id, incident: Id, constraints: nat, triggeredReplan: bool)

  datatype Event =
    | IncidentDeclared(incident: Id)
    | PlanDrafted(incident: Id, plan: Id, version: nat, items: nat)
    | PlanApproved(incident: Id, plan: Id, approver: string)
    | PlanReapprovalRequired(incident: Id, plan: Id)
    | ContactStarted(incident: Id, plan: Id, created: nat)
    | ContactRecorded(incident: Id, contact: Id, response: Response)
    | TaskCreated(incident: Id, task: Id)
    | TasksGenerated(incident: Id, count: nat)
    | TaskUpdated(incident: Id, task: Id)
    | ReportSubmitted(incident: Id, report: Id, constraints: nat, triggeredReplan: bool)

  datatype AuditRow = AuditRow(actor: string, event: Event)

  /** Communities map to their number of households, where known. */
  datatype Db = Db(
    incidents: nat, communities: map<Id, Option<nat>>, shelters: set<Id>,
    plans: seq<Plan>, attempts: seq<Attempt>, tasks: seq<Task>, reports: seq<Report>, audit: seq<AuditRow>)

  datatype Error = NotFound | DuplicateCommunity | UnknownCommunity | UnknownShelter | AlreadyApproved | PlanSuperseded | NoPlan | PlanNotApproved

  function Record(db: Db, actor: string, event: Event): Db {
    db.(audit := db.audit + [AuditRow(actor, event)])
  }

  // ---------- queries ----------

  /** Largest version of the incident's plans, zero if it has none. */
  function MaxVersion(plans: seq<Plan>, incident: Id): nat {
    if plans == [] then 0
    else
      var rest, last := MaxVersion(plans[..|plans| - 1], incident), plans[|plans| - 1];
      if last.incident == incident && last.version > rest then last.version else rest
  }

  /** The plan in force: of those not superseded, the one with the largest version. */
  function CurrentPlan(plans: seq<Plan>, incident: Id): (r: Option<Id>)
    ensures r.Some? ==> r.value < |plans| && plans[r.value].incident == incident && plans[r.value].status != Superseded
  {
    if plans == [] then None
    else
      var n := |plans| - 1;
      var rest, last := CurrentPlan(plans[..n], incident), plans[n];
      if last.incident == incident && last.status != Superseded && (rest.None? || plans[rest.value].version < last.version)
      then Some(n) else rest
  }

  function CommunitiesOf(items: seq<Item>): seq<Id> {
    if items == [] then [] else CommunitiesOf(items[..|items| - 1]) + [items[|items| - 1].community]
  }

  predicate Distinct(s: seq<Id>) {
    forall i, j :: 0 <= i < j < |s| ==> s[i] != s[j]
  }

  // ---------- plans ----------

  predicate UnknownPlace(db: Db, items: seq<Item>) {
    exists it :: it in items && it.community !in db.communities
  }

  predicate UnknownRefuge(db: Db, items: seq<Item>) {
    exists it :: it in items && it.shelter.Some? && it.shelter.value !in db.shelters
  }

  function ItemsError(db: Db, items: seq<Item>): Option<Error> {
    if !Distinct(CommunitiesOf(items)) then Some(DuplicateCommunity)
    else if UnknownPlace(db, items) then Some(UnknownCommunity)
    else if UnknownRefuge(db, items) then Some(UnknownShelter)
    else None
  }

  function Supersede(plans: seq<Plan>, previous: Option<Id>, successor: Id): (r: seq<Plan>)
    requires previous.Some? ==> previous.value < |plans|
    ensures |r| == |plans|
  {
    match previous
    case None => plans
    case Some(k) => plans[k := plans[k].(status := Superseded, supersededBy := Some(successor))]
  }

  function CreateError(db: Db, incident: Id, items: seq<Item>): Option<Error> {
    if incident >= db.incidents then Some(NotFound) else ItemsError(db, items)
  }

  function CreatePlan(db: Db, incident: Id, items: seq<Item>, actor: string): Db {
    if CreateError(db, incident, items).Some? then db
    else
      var version, id := MaxVersion(db.plans, incident) + 1, |db.plans|;
      var previous := CurrentPlan(db.plans, incident);
      var plan := Plan(incident, version, Draft, None, None, items);
      Record(db.(plans := Supersede(db.plans, previous, id) + [plan]), actor, PlanDrafted(incident, id, version, |items|))
  }

  function ApproveError(db: Db, plan: Id): Option<Error> {
    if plan >= |db.plans| then Some(NotFound)
    else if db.plans[plan].status == Approved then Some(AlreadyApproved)
    else if db.plans[plan].status == Superseded then Some(PlanSuperseded)
    else None
  }

  function ApprovePlan(db: Db, plan: Id, approver: string, actor: string): Db {
    if ApproveError(db, plan).Some? then db
    else
      var row := db.plans[plan];
      Record(db.(plans := db.plans[plan := row.(status := Approved, approvedBy := Some(approver))]), actor, PlanApproved(row.incident, plan, approver))
  }

  function MarkNeedsReapproval(db: Db, incident: Id, actor: string): Db {
    match CurrentPlan(db.plans, incident)
    case None => db
    case Some(k) =>
      if db.plans[k].status != Approved then db
      else Record(db.(plans := db.plans[k := db.plans[k].(status := ReapprovalRequired)]), actor, PlanReapprovalRequired(incident, k))
  }

  // ---------- contacts ----------

  function Contacted(db: Db, incident: Id, plan: Id): set<Id> {
    set a | a in db.attempts && a.incident == incident && a.plan == plan :: a.community
  }

  function Households(db: Db, community: Id): nat {
    if community in db.communities && db.communities[community].Some? then db.communities[community].value else 0
  }

  /** One attempt for each item whose community has none yet, in the plan's order. */
  function NewAttempts(db: Db, incident: Id, plan: Id, items: seq<Item>, existing: set<Id>, channel: string, note: Option<string>): seq<Attempt> {
    if items == [] then []
    else
      var before := NewAttempts(db, incident, plan, items[..|items| - 1], existing, channel, note);
      var community := items[|items| - 1].community;
      if community in existing then before
      else before + [Attempt(incident, plan, community, Households(db, community), 0, channel, Pending, note, None)]
  }

  function StartError(db: Db, incident: Id): Option<Error> {
    if incident >= db.incidents then Some(NotFound)
    else match CurrentPlan(db.plans, incident)
      case None => Some(NoPlan)
      case Some(k) => if db.plans[k].status != Approved then Some(PlanNotApproved) else None
  }

  function RoundFor(db: Db, incident: Id, channel: string, note: Option<string>): seq<Attempt>
    requires StartError(db, incident).None?
  {
    var k := CurrentPlan(db.plans, incident).value;
    NewAttempts(db, incident, k, db.plans[k].items, Contacted(db, incident, k), channel, note)
  }

  function StartRound(db: Db, incident: Id, channel: string, note: Option<string>, actor: string): Db {
    if StartError(db, incident).Some? then db
    else
      var created := RoundFor(db, incident, channel, note);
      Record(db.(attempts := db.attempts + created), actor, ContactStarted(incident, CurrentPlan(db.plans, incident).value, |created|))
  }

  function UpdateContact(db: Db, contact: Id, response: Response, confirmed: Option<nat>, followUp: Option<string>, actor: string): Db {
    if contact >= |db.attempts| then db
    else
      var a := db.attempts[contact];
      var b := a.(response := response, recordedBy := Some(actor),
                  confirmed := if confirmed.Some? then confirmed.value else a.confirmed,
                  followUp := if followUp.Some? then followUp else a.followUp);
      Record(db.(attempts := db.attempts[contact := b]), actor, ContactRecorded(a.incident, contact, response))
  }

  // ---------- field tasks and reports ----------

  function CreateTask(db: Db, incident: Id, community: Option<Id>, kind: TaskKind, priority: nat, assignee: Option<string>, detail: Option<string>, dueAt: Option<nat>, actor: string): Db {
    if incident >= db.incidents then db
    else
      var named := assignee.Some? && assignee.value != "";
      var task := Task(incident, community, kind, priority, if named then Assigned else Unassigned, assignee, detail, dueAt);
      Record(db.(tasks := db.tasks + [task]), actor, TaskCreated(incident, |db.tasks|))
  }

  predicate IsOpen(t: Task) {
    t.status != Done && t.status != Cancelled
  }

  /** Communities for which someone is already on the way. */
  function BeingVerified(tasks: seq<Task>, incident: Id): set<Option<Id>> {
    set t | t in tasks && t.incident == incident && t.kind == VerifyHousehold && IsOpen(t) :: t.community
  }

  /** The attempts without an answer, in the order of the table. */
  function Unanswered(attempts: seq<Attempt>, incident: Id): seq<Attempt> {
    if attempts == [] then []
    else
      var before, a := Unanswered(attempts[..|attempts| - 1], incident), attempts[|attempts| - 1];
      if a.incident == incident && a.response == Unreachable then before + [a] else before
  }

  function VerifyTask(a: Attempt): Task {
    Task(a.incident, Some(a.community), VerifyHousehold, 1, Unassigned, None, None, None)
  }

  function NewTasks(unanswered: seq<Attempt>, existing: set<Option<Id>>): seq<Task> {
    if unanswered == [] then []
    else
      var before, a := NewTasks(unanswered[..|unanswered| - 1], existing), unanswered[|unanswered| - 1];
      if Some(a.community) in existing then before else before + [VerifyTask(a)]
  }

  function TasksFromUnreachable(db: Db, incident: Id): seq<Task> {
    NewTasks(Unanswered(db.attempts, incident), BeingVerified(db.tasks, incident))
  }

  function CreateFromUnreachable(db: Db, incident: Id, actor: string): Db {
    if incident >= db.incidents then db
    else
      var created := TasksFromUnreachable(db, incident);
      if created == [] then db
      else Record(db.(tasks := db.tasks + created), actor, TasksGenerated(incident, |created|))
  }

  datatype TaskUpdate = TaskUpdate(status: Option<TaskStatus>, assignee: Option<string>, priority: Option<nat>, detail: Option<string>, dueAt: Option<nat>)

  function Updated(t: Task, u: TaskUpdate): Task {
    var set1 := t.(status := if u.status.Some? then u.status.value else t.status,
                   assignee := if u.assignee.Some? then u.assignee else t.assignee,
                   priority := if u.priority.Some? then u.priority.value else t.priority,
                   detail := if u.detail.Some? then u.detail else t.detail,
                   dueAt := if u.dueAt.Some? then u.dueAt else t.dueAt);
    if u.assignee.Some? && u.assignee.value != "" && u.status.None? && set1.status == Unassigned
    then set1.(status := Assigned) else set1
  }

  function UpdateTask(db: Db, task: Id, u: TaskUpdate, actor: string): Db {
    if task >= |db.tasks| || Updated(db.tasks[task], u) == db.tasks[task] then db
    else Record(db.(tasks := db.tasks[task := Updated(db.tasks[task], u)]), actor, TaskUpdated(db.tasks[task].incident, task))
  }

  predicate NeedsReplan(constraints: nat, requestReplan: bool) {
    requestReplan || constraints > 0
  }

  function SubmitReport(db: Db, task: Id, constraints: nat, requestReplan: bool, actor: string): Db {
    if task >= |db.tasks| then db
    else
      var t := db.tasks[task];
      var seen := if IsOpen(t) then db.(tasks := db.tasks[task := t.(status := InReview)]) else db;
      var marked := if NeedsReplan(constraints, requestReplan) then MarkNeedsReapproval(seen, t.incident, actor) else seen;
      var plan := CurrentPlan(marked.plans, t.incident);
      var triggered := NeedsReplan(constraints, requestReplan) && plan.Some? && marked.plans[plan.value].status == ReapprovalRequired;
      Record(marked.(reports := marked.reports + [Report(task, t.incident, constraints, triggered)]), actor,
             ReportSubmitted(t.incident, |db.reports|, constraints, triggered))
  }

  // ---------- runs ----------

  datatype Command =
    | Declare(actor: string)
    | Create(incident: Id, items: seq<Item>, actor: string)
    | Approve(plan: Id, approver: string, actor: string)
    | Start(incident: Id, channel: string, note: Option<string>, actor: string)
    | RecordContact(contact: Id, response: Response, confirmed: Option<nat>, followUp: Option<string>, actor: string)
    | AddTask(incident: Id, community: Option<Id>, kind: TaskKind, priority: nat, assignee: Option<string>, detail: Option<string>, dueAt: Option<nat>, actor: string)
    | Generate(incident: Id, actor: string)
    | ChangeTask(task: Id, update: TaskUpdate, actor: string)
    | Submit(task: Id, constraints: nat, requestReplan: bool, actor: string)

  function Apply(db: Db, c: Command): Db {
    match c
    case Declare(actor) => Record(db.(incidents := db.incidents + 1), actor, IncidentDeclared(db.incidents))
    case Create(incident, items, actor) => CreatePlan(db, incident, items, actor)
    case Approve(plan, approver, actor) => ApprovePlan(db, plan, approver, actor)
    case Start(incident, channel, note, actor) => StartRound(db, incident, channel, note, actor)
    case RecordContact(contact, response, confirmed, followUp, actor) => UpdateContact(db, contact, response, confirmed, followUp, actor)
    case AddTask(incident, community, kind, priority, assignee, detail, dueAt, actor) => CreateTask(db, incident, community, kind, priority, assignee, detail, dueAt, actor)
    case Generate(incident, actor) => CreateFromUnreachable(db, incident, actor)
    case ChangeTask(task, update, actor) => UpdateTask(db, task, update, actor)
    case Submit(task, constraints, requestReplan, actor) => SubmitReport(db, task, constraints, requestReplan, actor)
  }

  function Run(db: Db, commands: seq<Command>): Db {
    if commands == [] then db else Apply(Run(db, commands[..|commands| - 1]), commands[|commands| - 1])
  }

  function Empty(communities: map<Id, Option<nat>>, shelters: set<Id>): Db {
    Db(0, communities, shelters, [], [], [], [], [])
  }
}
