/** Residents are contacted only under the plan that is in force and approved,
    and never again after a report has closed it until someone approves anew. */
module ContactSafety {
  import opened Options
  import opened Workflow
  import opened PlanHistory

  /** What the log says: the plan under which the incident's residents may be contacted. */
  function ContactPlan(log: seq<AuditRow>, incident: Id): Option<Id> {
    if log == [] then None
    else
      var before := ContactPlan(log[..|log| - 1], incident);
      match log[|log| - 1].event
      case PlanDrafted(i, _, _, _) => if i == incident then None else before
      case PlanApproved(i, plan, _) => if i == incident then Some(plan) else before
      case PlanReapprovalRequired(i, _) => if i == incident then None else before
      case _ => before
  }

  /** What the tables say. */
  function InForce(plans: seq<Plan>, incident: Id): Option<Id> {
    var k := CurrentPlan(plans, incident);
    if k.Some? && plans[k.value].status == Approved then k else None
  }

  ghost predicate LogAgrees(db: Db) {
    forall i :: ContactPlan(db.audit, i) == InForce(db.plans, i)
  }

  /** Every contact round was started under the plan in force, and no report that
      found a constraint or called for a new approval left a plan in force. */
  ghost predicate SafeRow(log: seq<AuditRow>, k: int)
    requires 0 <= k < |log|
  {
    match log[k].event
    case ContactStarted(i, plan, _) => ContactPlan(log[..k], i) == Some(plan)
    case ReportSubmitted(i, _, constraints, triggered) => constraints > 0 || triggered ==> ContactPlan(log[..k], i) == None
    case _ => true
  }

  ghost predicate SafeLog(log: seq<AuditRow>) {
    forall k :: 0 <= k < |log| ==> SafeRow(log, k)
  }

  lemma OneMoreRow(log: seq<AuditRow>, row: AuditRow)
    requires SafeLog(log) && SafeRow(log + [row], |log|)
    ensures SafeLog(log + [row])
  {
    forall k | 0 <= k < |log + [row]|
      ensures SafeRow(log + [row], k)
    {
      assert k < |log| ==> SafeRow(log, k) && (log + [row])[..k] == log[..k];
    }
  }

  // ---------- plans ----------

  lemma OtherIncidents(plans: seq<Plan>, after: seq<Plan>, incident: Id, other: Id)
    requires HistoryOk(plans) && HistoryOk(after) && other != incident && |plans| <= |after|
    requires forall k :: 0 <= k < |plans| ==> after[k].incident == plans[k].incident
    requires forall k :: 0 <= k < |plans| && plans[k].incident != incident ==> after[k] == plans[k]
    requires forall k :: |plans| <= k < |after| ==> after[k].incident == incident
    ensures InForce(after, other) == InForce(plans, other)
  {
    var k := CurrentPlan(plans, other);
    if k.None? {
      CurrentIsNone(plans, other);
    } else {
      assert LinkOk(plans, k.value);
      CurrentIsLatest(after, other, k.value);
    }
  }

  lemma CreateAgrees(db: Db, incident: Id, items: seq<Item>, actor: string)
    requires HistoryOk(db.plans) && LogAgrees(db) && CreateError(db, incident, items).None?
    ensures LogAgrees(CreatePlan(db, incident, items, actor))
  {
    var after := CreatePlan(db, incident, items, actor);
    ApplyKeepsHistory(db, Create(incident, items, actor));
    assert after.audit[..|db.audit|] == db.audit;
    hide MaxVersion, ItemsError, HistoryOk;
    forall i
      ensures ContactPlan(after.audit, i) == InForce(after.plans, i)
    {
      assert ContactPlan(db.audit, i) == InForce(db.plans, i);
      if i == incident {
        assert IsLatest(after.plans, |db.plans|);
        CurrentIsLatest(after.plans, incident, |db.plans|);
      } else {
        OtherIncidents(db.plans, after.plans, incident, i);
      }
    }
  }

  /** Changing the status of the plan in force, with the event that says so. */
  lemma StatusAgrees(db: Db, k: Id, p: Plan, row: AuditRow)
    requires HistoryOk(db.plans) && LogAgrees(db) && k < |db.plans| && db.plans[k].status != Superseded
    requires HistoryOk(db.plans[k := p]) && p == db.plans[k].(status := p.status, approvedBy := p.approvedBy)
    requires (p.status == Approved && row.event.PlanApproved? && row.event == PlanApproved(p.incident, k, row.event.approver))
          || (p.status == ReapprovalRequired && row.event == PlanReapprovalRequired(p.incident, k))
    ensures LogAgrees(db.(plans := db.plans[k := p], audit := db.audit + [row]))
  {
    var plans, log := db.plans[k := p], db.audit + [row];
    assert log[..|db.audit|] == db.audit;
    assert LinkOk(db.plans, k) && IsLatest(plans, k);
    CurrentIsLatest(plans, p.incident, k);
    hide HistoryOk, LinkOk, IsLatest, CurrentPlan, InForce;
    StatusInForce(db, k, p);
    forall i
      ensures ContactPlan(log, i) == InForce(plans, i)
    {
      assert ContactPlan(db.audit, i) == InForce(db.plans, i);
    }
  }

  lemma StatusInForce(db: Db, k: Id, p: Plan)
    requires HistoryOk(db.plans) && k < |db.plans| && db.plans[k].status != Superseded
    requires HistoryOk(db.plans[k := p]) && p == db.plans[k].(status := p.status, approvedBy := p.approvedBy)
    requires CurrentPlan(db.plans[k := p], p.incident) == Some(k)
    ensures InForce(db.plans[k := p], p.incident) == if p.status == Approved then Some(k) else None
    ensures forall i :: i != p.incident ==> InForce(db.plans[k := p], i) == InForce(db.plans, i)
  {
    hide HistoryOk, CurrentPlan;
    forall i | i != p.incident
      ensures InForce(db.plans[k := p], i) == InForce(db.plans, i)
    {
      OtherIncidents(db.plans, db.plans[k := p], p.incident, i);
    }
  }

  /** Marking leaves no plan of the incident in force. */
  lemma MarkAgrees(db: Db, incident: Id, actor: string)
    requires HistoryOk(db.plans) && LogAgrees(db) && SafeLog(db.audit)
    ensures var after := MarkNeedsReapproval(db, incident, actor);
      HistoryOk(after.plans) && LogAgrees(after) && SafeLog(after.audit) && InForce(after.plans, incident) == None
  {
    MarkKeepsHistory(db, incident, actor);
    var after := MarkNeedsReapproval(db, incident, actor);
    var current := CurrentPlan(db.plans, incident);
    if current.Some? && db.plans[current.value].status == Approved {
      var k := current.value;
      var row := AuditRow(actor, PlanReapprovalRequired(incident, k));
      assert LinkOk(db.plans, k);
      StatusAgrees(db, k, db.plans[k].(status := ReapprovalRequired), row);
      OneMoreRow(db.audit, row);
      CurrentIsLatest(after.plans, incident, k);
    }
  }

  lemma QuietRow(db: Db, row: AuditRow)
    requires LogAgrees(db) && !row.event.PlanDrafted? && !row.event.PlanApproved? && !row.event.PlanReapprovalRequired?
    ensures LogAgrees(db.(audit := db.audit + [row]))
  {
    assert (db.audit + [row])[..|db.audit|] == db.audit;
    forall i
      ensures ContactPlan(db.audit + [row], i) == InForce(db.plans, i)
    {
      assert ContactPlan(db.audit, i) == InForce(db.plans, i);
    }
  }

  // ---------- every request ----------

  ghost predicate Safe(db: Db) {
    HistoryOk(db.plans) && LogAgrees(db) && SafeLog(db.audit)
  }

  lemma SubmitSafe(db: Db, task: Id, constraints: nat, requestReplan: bool, actor: string)
    requires Safe(db) && task < |db.tasks|
    ensures Safe(SubmitReport(db, task, constraints, requestReplan, actor))
    ensures NeedsReplan(constraints, requestReplan) ==>
              InForce(SubmitReport(db, task, constraints, requestReplan, actor).plans, db.tasks[task].incident) == None
  {
    var t := db.tasks[task];
    var seen := if IsOpen(t) then db.(tasks := db.tasks[task := t.(status := InReview)]) else db;
    assert Safe(seen);
    MarkAgrees(seen, t.incident, actor);
    var marked := if NeedsReplan(constraints, requestReplan) then MarkNeedsReapproval(seen, t.incident, actor) else seen;
    var after := SubmitReport(db, task, constraints, requestReplan, actor);
    var row := after.audit[|marked.audit|];
    QuietRow(marked, row);
    assert (marked.audit + [row])[..|marked.audit|] == marked.audit;
    assert ContactPlan(marked.audit, t.incident) == InForce(marked.plans, t.incident);
    OneMoreRow(marked.audit, row);
  }

  lemma ApplySafe(db: Db, c: Command)
    requires Safe(db)
    ensures Safe(Apply(db, c))
  {
    hide NewAttempts, NewTasks, Unanswered, HistoryOk, CommunitiesOf, MaxVersion, Households, ItemsError, LogAgrees, SafeLog, ContactPlan;
    var after := Apply(db, c);
    ApplyKeepsHistory(db, c);
    match c
    case Create(incident, items, actor) =>
      if CreateError(db, incident, items).None? {
        CreateAgrees(db, incident, items, actor);
        OneMoreRow(db.audit, after.audit[|db.audit|]);
      }
    case Approve(plan, approver, actor) =>
      if ApproveError(db, plan).None? {
        StatusAgrees(db, plan, db.plans[plan].(status := Approved, approvedBy := Some(approver)), after.audit[|db.audit|]);
        OneMoreRow(db.audit, after.audit[|db.audit|]);
      }
    case Start(incident, channel, note, actor) =>
      if StartError(db, incident).None? {
        StartSafe(db, incident, after.audit[|db.audit|]);
        SameTables(db.(audit := after.audit), after);
      }
    case Submit(task, constraints, requestReplan, actor) =>
      if task < |db.tasks| {
        SubmitSafe(db, task, constraints, requestReplan, actor);
      }
    case _ =>
      if after.audit != db.audit {
        QuietRow(db, after.audit[|db.audit|]);
        OneMoreRow(db.audit, after.audit[|db.audit|]);
        SameTables(db.(audit := after.audit), after);
      } else {
        SameTables(db, after);
      }
  }

  lemma SameTables(a: Db, b: Db)
    requires a.plans == b.plans && a.audit == b.audit
    ensures LogAgrees(a) ==> LogAgrees(b)
  {
  }

  lemma StartSafe(db: Db, incident: Id, row: AuditRow)
    requires Safe(db) && StartError(db, incident).None?
    requires row.event.ContactStarted? && row.event.incident == incident && row.event.plan == CurrentPlan(db.plans, incident).value
    ensures LogAgrees(db.(audit := db.audit + [row])) && SafeLog(db.audit + [row])
  {
    QuietRow(db, row);
    assert (db.audit + [row])[..|db.audit|] == db.audit;
    assert ContactPlan(db.audit, incident) == InForce(db.plans, incident);
    OneMoreRow(db.audit, row);
  }

  lemma {:induction false} RunSafe(start: Db, commands: seq<Command>)
    requires start.plans == [] && start.audit == []
    ensures Safe(Run(start, commands))
    decreases |commands|
  {
    if commands != [] {
      RunSafe(start, commands[..|commands| - 1]);
      ApplySafe(Run(start, commands[..|commands| - 1]), commands[|commands| - 1]);
    }
  }

  /** Between a moment without a plan in force and one with, somebody approved. */
  lemma {:induction false} ApprovedBetween(log: seq<AuditRow>, incident: Id, j: int, k: int)
    requires 0 <= j <= k <= |log| && ContactPlan(log[..j], incident) == None && ContactPlan(log[..k], incident).Some?
    ensures exists m :: j <= m < k && log[m].event.PlanApproved? && log[m].event.incident == incident
    decreases k
  {
    assert j < k;
    assert log[..k][..k - 1] == log[..k - 1];
    if !(log[k - 1].event.PlanApproved? && log[k - 1].event.incident == incident) {
      ApprovedBetween(log, incident, j, k - 1);
    }
  }

  /** In any run, a contact round that follows a report of an access constraint, or
      one that called for a new approval, has an approval between the two; and it runs under the plan in force. */
  lemma NoContactBeforeReapproval(start: Db, commands: seq<Command>, j: int, k: int)
    requires start.plans == [] && start.audit == []
    requires var log := Run(start, commands).audit;
      && 0 <= j < k < |log|
      && log[j].event.ReportSubmitted? && (log[j].event.constraints > 0 || log[j].event.triggeredReplan)
      && log[k].event.ContactStarted? && log[k].event.incident == log[j].event.incident
    ensures var log := Run(start, commands).audit;
      exists m :: j < m < k && log[m].event.PlanApproved? && log[m].event.incident == log[j].event.incident
  {
    var log := Run(start, commands).audit;
    RunSafe(start, commands);
    assert SafeRow(log, j) && SafeRow(log, k);
    ApprovedBetween(log, log[j].event.incident, j, k);
  }
}
