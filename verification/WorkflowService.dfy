/** The services over the stored rows. Each call is one request: it ends in the
    state its specification names, or answers an error and changes nothing. */
module WorkflowService {
  import opened FiniteSets
  import opened Options
  import opened Workflow
  import opened FieldTasks

  class Service {
    var incidents: nat
    var communities: map<Id, Option<nat>>
    var shelters: set<Id>
    var plans: seq<Plan>
    var attempts: seq<Attempt>
    var tasks: seq<Task>
    var reports: seq<Report>
    var audit: seq<AuditRow>

    /** The tables as a value. */
    ghost function Tables(): Db
      reads this
    {
      Db(incidents, communities, shelters, plans, attempts, tasks, reports, audit)
    }

    constructor (communities: map<Id, Option<nat>>, shelters: set<Id>)
      ensures Tables() == Empty(communities, shelters)
    {
      this.incidents, this.communities, this.shelters := 0, communities, shelters;
      plans, attempts, tasks, reports, audit := [], [], [], [], [];
    }

    /** The append-only log. */
    method Record(actor: string, event: Event)
      modifies this`audit
      ensures audit == old(audit) + [AuditRow(actor, event)]
    {
      audit := audit + [AuditRow(actor, event)];
    }

    method DeclareIncident(actor: string) returns (incident: Id)
      modifies this
      ensures Tables() == Apply(old(Tables()), Declare(actor)) && incident == old(incidents)
    {
      incident := incidents;
      incidents := incidents + 1;
      Record(actor, IncidentDeclared(incident));
    }

    // ---------- queries ----------

    method LargestVersion(incident: Id) returns (version: nat)
      ensures version == MaxVersion(plans, incident)
    {
      version := 0;
      for i := 0 to |plans|
        invariant version == MaxVersion(plans[..i], incident)
      {
        assert plans[..i + 1][..i] == plans[..i];
        if plans[i].incident == incident && plans[i].version > version {
          version := plans[i].version;
        }
      }
      assert plans[..|plans|] == plans;
    }

    method Current(incident: Id) returns (plan: Option<Id>)
      ensures plan == CurrentPlan(plans, incident)
    {
      plan := None;
      for i := 0 to |plans|
        invariant plan == CurrentPlan(plans[..i], incident)
      {
        assert plans[..i + 1][..i] == plans[..i];
        if plans[i].incident == incident && plans[i].status != Superseded
           && (plan.None? || plans[plan.value].version < plans[i].version) {
          plan := Some(i);
        }
      }
      assert plans[..|plans|] == plans;
    }

    // ---------- planning ----------

    static method IdsOf(items: seq<Item>) returns (communityIds: seq<Id>, shelterIds: seq<Id>)
      ensures communityIds == CommunitiesOf(items)
      ensures forall s :: s in shelterIds <==> exists it :: it in items && it.shelter == Some(s)
    {
      communityIds, shelterIds := [], [];
      for i := 0 to |items|
        invariant communityIds == CommunitiesOf(items[..i])
        invariant forall s :: s in shelterIds <==> exists it :: it in items[..i] && it.shelter == Some(s)
      {
        assert items[..i + 1][..i] == items[..i] && items[..i + 1] == items[..i] + [items[i]];
        communityIds := communityIds + [items[i].community];
        if items[i].shelter.Some? {
          shelterIds := shelterIds + [items[i].shelter.value];
        }
      }
      assert items[..|items|] == items;
    }

    /** Every community of the request once, known, and with a known shelter if any:
        the ids as a set, and what of it is missing from the tables. */
    method ValidateItems(items: seq<Item>) returns (error: Option<Error>)
      ensures error == ItemsError(Tables(), items)
    {
      var communityIds, shelterIds := IdsOf(items);
      var ids, shelterSet := ElementsOf(communityIds), ElementsOf(shelterIds);
      ErrorBySets(Tables(), items, ids, shelterSet);
      if |ids| != |communityIds| {
        return Some(DuplicateCommunity);
      }
      if ids - communities.Keys != {} {
        return Some(UnknownCommunity);
      }
      if shelterIds != [] {
        if shelterSet - shelters != {} {
          return Some(UnknownShelter);
        }
      } else {
        assert shelterSet == {};
      }
      return None;
    }

    method CreatePlan(incident: Id, items: seq<Item>, actor: string) returns (r: Result<Id, Error>)
      modifies this
      ensures Tables() == Workflow.CreatePlan(old(Tables()), incident, items, actor)
      ensures match CreateError(old(Tables()), incident, items)
              case Some(e) => r == Err(e)
              case None => r == Ok(|old(plans)|)
    {
      if incident >= incidents {
        return Err(NotFound);
      }
      var error := ValidateItems(items);
      if error.Some? {
        return Err(error.value);
      }
      var largest := LargestVersion(incident);
      var previous := Current(incident);
      var id := |plans|;
      plans := plans + [Plan(incident, largest + 1, Draft, None, None, items)];
      if previous.Some? && previous.value != id {
        plans := plans[previous.value := plans[previous.value].(status := Superseded, supersededBy := Some(id))];
      }
      Record(actor, PlanDrafted(incident, id, largest + 1, |items|));
      assert plans == Supersede(old(plans), previous, id) + [Plan(incident, largest + 1, Draft, None, None, items)];
      return Ok(id);
    }

    method ApprovePlan(plan: Id, approver: string, actor: string) returns (r: Result<Id, Error>)
      modifies this
      ensures Tables() == Workflow.ApprovePlan(old(Tables()), plan, approver, actor)
      ensures match ApproveError(old(Tables()), plan)
              case Some(e) => r == Err(e)
              case None => r == Ok(plan)
    {
      if plan >= |plans| {
        return Err(NotFound);
      }
      if plans[plan].status == Approved {
        return Err(AlreadyApproved);
      }
      if plans[plan].status == Superseded {
        return Err(PlanSuperseded);
      }
      plans := plans[plan := plans[plan].(status := Approved, approvedBy := Some(approver))];
      Record(actor, PlanApproved(plans[plan].incident, plan, approver));
      return Ok(plan);
    }

    method MarkNeedsReapproval(incident: Id, actor: string) returns (plan: Option<Id>)
      modifies this
      ensures Tables() == Workflow.MarkNeedsReapproval(old(Tables()), incident, actor)
      ensures plan == CurrentPlan(old(plans), incident)
    {
      plan := Current(incident);
      if plan.None? || plans[plan.value].status != Approved {
        return;
      }
      plans := plans[plan.value := plans[plan.value].(status := ReapprovalRequired)];
      Record(actor, PlanReapprovalRequired(incident, plan.value));
    }

    // ---------- contacts ----------

    method StartRound(incident: Id, channel: string, note: Option<string>, actor: string) returns (r: Result<seq<Attempt>, Error>)
      modifies this
      ensures Tables() == Workflow.StartRound(old(Tables()), incident, channel, note, actor)
      ensures match StartError(old(Tables()), incident)
              case Some(e) => r == Err(e)
              case None => r == Ok(RoundFor(old(Tables()), incident, channel, note))
    {
      if incident >= incidents {
        return Err(NotFound);
      }
      var plan := Current(incident);
      if plan.None? {
        return Err(NoPlan);
      }
      var k := plan.value;
      if plans[k].status != Approved {
        return Err(PlanNotApproved);
      }
      var existing := set a | a in attempts && a.incident == incident && a.plan == k :: a.community;
      var items, created: seq<Attempt> := plans[k].items, [];
      for i := 0 to |items|
        invariant Tables() == old(Tables()).(attempts := old(attempts) + created)
        invariant created == NewAttempts(old(Tables()), incident, k, items[..i], existing, channel, note)
      {
        assert items[..i + 1][..i] == items[..i];
        var community := items[i].community;
        if community in existing {
          continue;
        }
        var households := if community in communities && communities[community].Some? then communities[community].value else 0;
        var attempt := Attempt(incident, k, community, households, 0, channel, Pending, note, None);
        attempts := attempts + [attempt];
        created := created + [attempt];
      }
      assert items[..|items|] == items;
      Record(actor, ContactStarted(incident, k, |created|));
      return Ok(created);
    }

    method UpdateContact(contact: Id, response: Response, confirmed: Option<nat>, followUp: Option<string>, actor: string) returns (r: Result<Attempt, Error>)
      modifies this
      ensures Tables() == Workflow.UpdateContact(old(Tables()), contact, response, confirmed, followUp, actor)
      ensures if contact < |old(attempts)| then r == Ok(attempts[contact]) else r == Err(NotFound)
    {
      if contact >= |attempts| {
        return Err(NotFound);
      }
      var a := attempts[contact].(response := response);
      if confirmed.Some? {
        a := a.(confirmed := confirmed.value);
      }
      if followUp.Some? {
        a := a.(followUp := followUp);
      }
      a := a.(recordedBy := Some(actor));
      attempts := attempts[contact := a];
      Record(actor, ContactRecorded(a.incident, contact, response));
      return Ok(a);
    }

    // ---------- field work ----------

    method CreateTask(incident: Id, community: Option<Id>, kind: TaskKind, priority: nat, assignee: Option<string>, detail: Option<string>, dueAt: Option<nat>, actor: string) returns (r: Result<Id, Error>)
      modifies this
      ensures Tables() == Workflow.CreateTask(old(Tables()), incident, community, kind, priority, assignee, detail, dueAt, actor)
      ensures if incident < old(incidents) then r == Ok(|old(tasks)|) else r == Err(NotFound)
    {
      if incident >= incidents {
        return Err(NotFound);
      }
      var status := if assignee.Some? && assignee.value != "" then Assigned else Unassigned;
      var id := |tasks|;
      tasks := tasks + [Task(incident, community, kind, priority, status, assignee, detail, dueAt)];
      Record(actor, TaskCreated(incident, id));
      return Ok(id);
    }

    method CreateFromUnreachable(incident: Id, actor: string) returns (r: Result<seq<Task>, Error>)
      modifies this
      ensures Tables() == Workflow.CreateFromUnreachable(old(Tables()), incident, actor)
      ensures if incident < old(incidents) then r == Ok(TasksFromUnreachable(old(Tables()), incident)) else r == Err(NotFound)
    {
      if incident >= incidents {
        return Err(NotFound);
      }
      var unreachable := Unanswered(attempts, incident);
      if unreachable == [] {
        return Ok([]);
      }
      var existing := BeingVerified(tasks, incident);
      var created: seq<Task> := [];
      for i := 0 to |unreachable|
        invariant Tables() == old(Tables()).(tasks := old(tasks) + created)
        invariant created == NewTasks(unreachable[..i], existing)
      {
        assert unreachable[..i + 1][..i] == unreachable[..i];
        if Some(unreachable[i].community) in existing {
          continue;
        }
        var task := VerifyTask(unreachable[i]);
        tasks := tasks + [task];
        created := created + [task];
      }
      assert unreachable[..|unreachable|] == unreachable;
      if created != [] {
        Record(actor, TasksGenerated(incident, |created|));
      }
      return Ok(created);
    }

    /** Field by field: those the request gives and the task does not have yet. */
    static method Changes(task: Task, u: TaskUpdate) returns (t: Task, changed: bool)
      ensures t == Updated(task, u) && (changed <==> t != task)
    {
      t, changed := task, false;
      if u.status.Some? && u.status.value != t.status {
        t, changed := t.(status := u.status.value), true;
      }
      if u.assignee.Some? && u.assignee != t.assignee {
        t, changed := t.(assignee := u.assignee), true;
      }
      if u.priority.Some? && u.priority.value != t.priority {
        t, changed := t.(priority := u.priority.value), true;
      }
      if u.detail.Some? && u.detail != t.detail {
        t, changed := t.(detail := u.detail), true;
      }
      if u.dueAt.Some? && u.dueAt != t.dueAt {
        t, changed := t.(dueAt := u.dueAt), true;
      }
      if u.assignee.Some? && u.assignee.value != "" && u.status.None? && t.status == Unassigned {
        t, changed := t.(status := Assigned), true;
      }
    }

    method UpdateTask(task: Id, u: TaskUpdate, actor: string) returns (r: Result<Task, Error>)
      modifies this
      ensures Tables() == Workflow.UpdateTask(old(Tables()), task, u, actor)
      ensures if task < |old(tasks)| then r == Ok(tasks[task]) else r == Err(NotFound)
    {
      if task >= |tasks| {
        return Err(NotFound);
      }
      var t, changed := Changes(tasks[task], u);
      if changed {
        tasks := tasks[task := t];
        Record(actor, TaskUpdated(t.incident, task));
      }
      return Ok(t);
    }

    /** The plan in force is sent back for approval, if the report asks for it. */
    method Reconsider(incident: Id, needed: bool, actor: string) returns (triggered: bool)
      modifies this
      ensures Tables() == if needed then Workflow.MarkNeedsReapproval(old(Tables()), incident, actor) else old(Tables())
      ensures triggered <==> needed && CurrentPlan(plans, incident).Some? && plans[CurrentPlan(plans, incident).value].status == ReapprovalRequired
    {
      triggered := false;
      if needed {
        MarkKeepsCurrent(Tables(), incident, actor);
        var plan := MarkNeedsReapproval(incident, actor);
        triggered := plan.Some? && plans[plan.value].status == ReapprovalRequired;
      }
    }

    /** The report's row, and its task put under review unless closed. */
    method FileReport(task: Id, constraints: nat)
      requires task < |tasks|
      modifies this`tasks, this`reports
      ensures reports == old(reports) + [Report(task, old(tasks)[task].incident, constraints, false)]
      ensures tasks == if IsOpen(old(tasks)[task]) then old(tasks)[task := old(tasks)[task].(status := InReview)] else old(tasks)
    {
      var t := tasks[task];
      reports := reports + [Report(task, t.incident, constraints, false)];
      if t.status != Done && t.status != Cancelled {
        tasks := tasks[task := t.(status := InReview)];
      }
    }

    method SubmitReport(task: Id, constraints: nat, requestReplan: bool, actor: string) returns (r: Result<Report, Error>)
      modifies this
      ensures Tables() == Workflow.SubmitReport(old(Tables()), task, constraints, requestReplan, actor)
      ensures if task < |old(tasks)| then |reports| == |old(reports)| + 1 && r == Ok(reports[|old(reports)|]) else r == Err(NotFound)
    {
      if task >= |tasks| {
        return Err(NotFound);
      }
      hide CurrentPlan, Workflow.MarkNeedsReapproval, Workflow.SubmitReport;
      ghost var before := Tables();
      var t := tasks[task];
      var id := |reports|;
      FileReport(task, constraints);
      ghost var seen := before.(tasks := tasks);
      MarkTouches(Tables(), seen, t.incident, actor);
      var triggered := Reconsider(t.incident, requestReplan || constraints > 0, actor);
      reports := reports[id := reports[id].(triggeredReplan := triggered)];
      ghost var marked := Tables().(reports := before.reports);
      Submitted(before, task, constraints, requestReplan, actor, seen, marked, triggered);
      Record(actor, ReportSubmitted(t.incident, id, constraints, triggered));
      return Ok(reports[id]);
    }
  }

  lemma {:induction false} CommunityListed(items: seq<Item>, c: Id)
    ensures c in CommunitiesOf(items) <==> exists it :: it in items && it.community == c
    ensures |CommunitiesOf(items)| == |items|
  {
    if items != [] {
      var n := |items| - 1;
      CommunityListed(items[..n], c);
      assert items == items[..n] + [items[n]];
      assert items[n] in items;
    }
  }

  /** What is wrong with a plan's items, by the sets of their ids. */
  lemma ErrorBySets(db: Db, items: seq<Item>, ids: set<Id>, shelters: set<Id>)
    requires ids == ElementsOf(CommunitiesOf(items))
    requires forall s :: s in shelters <==> exists it :: it in items && it.shelter == Some(s)
    ensures ItemsError(db, items) ==
      if |ids| != |CommunitiesOf(items)| then Some(DuplicateCommunity)
      else if ids - db.communities.Keys != {} then Some(UnknownCommunity)
      else if shelters - db.shelters != {} then Some(UnknownShelter)
      else None
  {
    DistinctBySet(items, ids);
    UnknownBySet(db, items, ids);
    ShelterBySet(db, items, shelters);
    hide UnknownPlace, UnknownRefuge, Distinct, CommunitiesOf;
  }

  lemma DistinctBySet(items: seq<Item>, ids: set<Id>)
    requires ids == ElementsOf(CommunitiesOf(items))
    ensures |ids| == |CommunitiesOf(items)| <==> Distinct(CommunitiesOf(items))
  {
    var all := CommunitiesOf(items);
    DistinctExactly(all);
    assert NoRepeats(all) <==> Distinct(all);
  }

  lemma UnknownBySet(db: Db, items: seq<Item>, ids: set<Id>)
    requires ids == ElementsOf(CommunitiesOf(items))
    ensures UnknownPlace(db, items) <==> ids - db.communities.Keys != {}
  {
    if it :| it in items && it.community !in db.communities {
      CommunityListed(items, it.community);
      assert it.community in ids - db.communities.Keys;
    }
    if c :| c in ids - db.communities.Keys {
      CommunityListed(items, c);
    }
  }

  lemma ShelterBySet(db: Db, items: seq<Item>, shelters: set<Id>)
    requires forall s :: s in shelters <==> exists it :: it in items && it.shelter == Some(s)
    ensures UnknownRefuge(db, items) <==> shelters - db.shelters != {}
  {
    if it :| it in items && it.shelter.Some? && it.shelter.value !in db.shelters {
      assert it.shelter == Some(it.shelter.value);
      assert it.shelter.value in shelters - db.shelters;
    }
    if s :| s in shelters - db.shelters {
      var it :| it in items && it.shelter == Some(s);
    }
  }

  /** The specification of a report, step by step. */
  lemma Submitted(db: Db, task: Id, constraints: nat, requestReplan: bool, actor: string, seen: Db, marked: Db, triggered: bool)
    requires task < |db.tasks|
    requires var t := db.tasks[task];
      && seen == (if IsOpen(t) then db.(tasks := db.tasks[task := t.(status := InReview)]) else db)
      && marked == (if NeedsReplan(constraints, requestReplan) then Workflow.MarkNeedsReapproval(seen, t.incident, actor) else seen)
      && (triggered <==> NeedsReplan(constraints, requestReplan) && CurrentPlan(marked.plans, t.incident).Some?
                         && marked.plans[CurrentPlan(marked.plans, t.incident).value].status == ReapprovalRequired)
    ensures var t := db.tasks[task];
      Workflow.SubmitReport(db, task, constraints, requestReplan, actor)
      == marked.(reports := db.reports + [Report(task, t.incident, constraints, triggered)],
                 audit := marked.audit + [AuditRow(actor, ReportSubmitted(t.incident, |db.reports|, constraints, triggered))])
  {
    MarkTouches(seen, seen, db.tasks[task].incident, actor);
    hide CurrentPlan, Workflow.MarkNeedsReapproval;
  }

  /** Marking reads and writes only plans and the log. */
  lemma MarkTouches(db: Db, other: Db, incident: Id, actor: string)
    requires db.plans == other.plans && db.audit == other.audit
    ensures var a, b := Workflow.MarkNeedsReapproval(db, incident, actor), Workflow.MarkNeedsReapproval(other, incident, actor);
      a == db.(plans := b.plans, audit := b.audit) && b == other.(plans := b.plans, audit := b.audit) && |b.plans| == |other.plans|
  {
  }
}
