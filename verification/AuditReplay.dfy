/** The audit log tells the plans' whole story: folding it rebuilds the table,
    and it says at every moment whether residents may be contacted. */
module AuditReplay {
  import opened Options
  import opened Workflow
  import opened PlanHistory

  /** A plan as far as the log can tell it. */
  datatype Told = Told(incident: Id, version: nat, status: PlanStatus, approvedBy: Option<string>, supersededBy: Option<Id>)

  function Tell(p: Plan): Told {
    Told(p.incident, p.version, p.status, p.approvedBy, p.supersededBy)
  }

  function TellAll(plans: seq<Plan>): (r: seq<Told>)
    ensures |r| == |plans| && forall k :: 0 <= k < |r| ==> r[k] == Tell(plans[k])
  {
    seq(|plans|, k requires 0 <= k < |plans| => Tell(plans[k]))
  }

  /** A new version takes over from the one before it. */
  function TakeOver(told: seq<Told>, incident: Id, version: int, successor: Id): (r: seq<Told>)
    ensures |r| == |told|
    ensures forall k :: 0 <= k < |r| ==> r[k] == if told[k].incident == incident && told[k].version == version
                                                 then told[k].(status := Superseded, supersededBy := Some(successor)) else told[k]
  {
    seq(|told|, k requires 0 <= k < |told| =>
      if told[k].incident == incident && told[k].version == version
      then told[k].(status := Superseded, supersededBy := Some(successor)) else told[k])
  }

  function Retell(told: seq<Told>, e: Event): seq<Told> {
    match e
    case PlanDrafted(incident, plan, version, items) =>
      TakeOver(told, incident, version - 1, plan) + [Told(incident, version, Draft, None, None)]
    case PlanApproved(incident, plan, approver) =>
      if plan < |told| then told[plan := told[plan].(status := Approved, approvedBy := Some(approver))] else told
    case PlanReapprovalRequired(incident, plan) =>
      if plan < |told| then told[plan := told[plan].(status := ReapprovalRequired)] else told
    case _ => told
  }

  function Replay(log: seq<AuditRow>): seq<Told> {
    if log == [] then [] else Retell(Replay(log[..|log| - 1]), log[|log| - 1].event)
  }

  lemma ReplayOneMore(log: seq<AuditRow>, row: AuditRow)
    ensures Replay(log + [row]) == Retell(Replay(log), row.event)
  {
    assert (log + [row])[..|log|] == log;
  }

  ghost predicate Faithful(db: Db) {
    Replay(db.audit) == TellAll(db.plans)
  }

  lemma LatestHasMax(plans: seq<Plan>, last: int)
    requires VersionsOk(plans) && IsLatest(plans, last)
    ensures plans[last].version == MaxVersion(plans, plans[last].incident)
  {
    var incident := plans[last].incident;
    MaxIsCount(plans, incident);
    CountNext(plans, last);
    CountBounds(plans, incident, last + 1, |plans|);
    assert plans[..|plans|] == plans;
  }

  /** The version that a new plan takes over from is that of the plan in force. */
  lemma TakesOverCurrent(plans: seq<Plan>, incident: Id, k: int)
    requires HistoryOk(plans) && 0 <= k < |plans|
    ensures plans[k].incident == incident && plans[k].version == MaxVersion(plans, incident)
       <==> CurrentPlan(plans, incident) == Some(k)
  {
    if plans[k].incident == incident {
      var last := LatestFrom(plans, k);
      CurrentIsLatest(plans, incident, last);
      LatestHasMax(plans, last);
      VersionsAreExact(plans, incident, plans[k].version);
      hide HistoryOk, VersionsOk, MaxVersion, CurrentPlan, IsLatest, CountOf;
    }
  }

  lemma CreateTold(db: Db, incident: Id, items: seq<Item>, actor: string)
    requires HistoryOk(db.plans) && Faithful(db)
    ensures Faithful(CreatePlan(db, incident, items, actor))
  {
    hide MaxVersion, CurrentPlan, HistoryOk, CreateError, Replay;
    if CreateError(db, incident, items).None? {
      var after := CreatePlan(db, incident, items, actor);
      var version, id := MaxVersion(db.plans, incident) + 1, |db.plans|;
      var told := Told(incident, version, Draft, None, None);
      ReplayOneMore(db.audit, AuditRow(actor, PlanDrafted(incident, id, version, |items|)));
      forall k | 0 <= k < |db.plans|
        ensures TakeOver(TellAll(db.plans), incident, version - 1, id)[k] == Tell(after.plans[k])
      {
        TakesOverCurrent(db.plans, incident, k);
      }
      assert TellAll(after.plans) == TakeOver(TellAll(db.plans), incident, version - 1, id) + [told];
    }
  }

  lemma MarkTold(db: Db, incident: Id, actor: string)
    requires Faithful(db)
    ensures Faithful(MarkNeedsReapproval(db, incident, actor))
  {
    var current := CurrentPlan(db.plans, incident);
    if current.Some? {
      ReplayOneMore(db.audit, AuditRow(actor, PlanReapprovalRequired(incident, current.value)));
    }
  }

  lemma ApplyTold(db: Db, c: Command)
    requires HistoryOk(db.plans) && Faithful(db)
    ensures Faithful(Apply(db, c))
  {
    hide NewAttempts, NewTasks, Unanswered, HistoryOk, CommunitiesOf, CurrentPlan, MaxVersion, Households, ItemsError, Replay;
    match c
    case Create(incident, items, actor) =>
      CreateTold(db, incident, items, actor);
    case Submit(task, constraints, requestReplan, actor) =>
      if task < |db.tasks| {
        var t := db.tasks[task];
        var seen := if IsOpen(t) then db.(tasks := db.tasks[task := t.(status := InReview)]) else db;
        MarkTold(seen, t.incident, actor);
        var marked := if NeedsReplan(constraints, requestReplan) then MarkNeedsReapproval(seen, t.incident, actor) else seen;
        ReplayOneMore(marked.audit, Apply(db, c).audit[|marked.audit|]);
      }
    case _ =>
      if Apply(db, c).audit != db.audit {
        ReplayOneMore(db.audit, Apply(db, c).audit[|db.audit|]);
      }
  }

  /** After any run from empty tables, the log alone rebuilds every plan's
      incident, version, status, approver and successor. */
  lemma {:induction false} LogRebuildsPlans(start: Db, commands: seq<Command>)
    requires start.plans == [] && start.audit == []
    ensures HistoryOk(Run(start, commands).plans) && Faithful(Run(start, commands))
    decreases |commands|
  {
    if commands != [] {
      var before := Run(start, commands[..|commands| - 1]);
      LogRebuildsPlans(start, commands[..|commands| - 1]);
      ApplyTold(before, commands[|commands| - 1]);
    }
    RunKeepsHistory(start, commands);
  }
}
