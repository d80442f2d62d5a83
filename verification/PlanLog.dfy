/** What the log of a run says of drafts and approvals: which request each plan came
    from, and that approvals and the requests for new ones take turns. */
module PlanLog {
  import opened Options
  import opened Workflow
  import opened PlanHistory
  import opened AuditReplay
  import opened Requests

  /** Read against the rows before it, a row about a plan makes sense: a draft takes the
      next place, an approval ends a wait, and only an approved plan is sent back. */
  ghost predicate RowTells(log: seq<AuditRow>, k: int)
    requires 0 <= k < |log|
  {
    var told := Replay(log[..k]);
    match log[k].event
    case PlanDrafted(_, p, _, _) => p == |told|
    case PlanApproved(i, p, _) => p < |told| && told[p].incident == i && (told[p].status == Draft || told[p].status == ReapprovalRequired)
    case PlanReapprovalRequired(i, p) => p < |told| && told[p].incident == i && told[p].status == Approved
    case _ => true
  }

  ghost predicate LogTells(log: seq<AuditRow>) {
    forall k :: 0 <= k < |log| ==> RowTells(log, k)
  }

  lemma OneMoreTells(log: seq<AuditRow>, row: AuditRow)
    requires LogTells(log) && RowTells(log + [row], |log|)
    ensures LogTells(log + [row])
  {
    forall k | 0 <= k < |log + [row]|
      ensures RowTells(log + [row], k)
    {
      assert k < |log| ==> RowTells(log, k) && (log + [row])[..k] == log[..k];
    }
  }

  lemma MarkTells(db: Db, incident: Id, actor: string)
    requires Faithful(db) && LogTells(db.audit)
    ensures LogTells(MarkNeedsReapproval(db, incident, actor).audit)
  {
    var current := CurrentPlan(db.plans, incident);
    if current.Some? && db.plans[current.value].status == Approved {
      var row := AuditRow(actor, PlanReapprovalRequired(incident, current.value));
      assert (db.audit + [row])[..|db.audit|] == db.audit;
      OneMoreTells(db.audit, row);
    }
  }

  lemma ApplyTells(db: Db, c: Command)
    requires Faithful(db) && LogTells(db.audit)
    ensures LogTells(Apply(db, c).audit)
  {
    hide NewAttempts, NewTasks, Unanswered, CommunitiesOf, CurrentPlan, MaxVersion, Households, ItemsError, Replay, LogTells;
    var after := Apply(db, c);
    match c
    case Submit(task, constraints, requestReplan, actor) =>
      if task < |db.tasks| {
        var t := db.tasks[task];
        var seen := if IsOpen(t) then db.(tasks := db.tasks[task := t.(status := InReview)]) else db;
        MarkTells(seen, t.incident, actor);
        var marked := if NeedsReplan(constraints, requestReplan) then MarkNeedsReapproval(seen, t.incident, actor) else seen;
        OneMoreTells(marked.audit, after.audit[|marked.audit|]);
      }
    case _ =>
      if after.audit != db.audit {
        assert after.audit == db.audit + [after.audit[|db.audit|]];
        assert after.audit[..|db.audit|] == db.audit;
        OneMoreTells(db.audit, after.audit[|db.audit|]);
      }
  }

  lemma {:induction false} RunTells(start: Db, commands: seq<Command>)
    requires start.plans == [] && start.audit == []
    ensures LogTells(Run(start, commands).audit)
    decreases |commands|
  {
    if commands != [] {
      RunTells(start, commands[..|commands| - 1]);
      LogRebuildsPlans(start, commands[..|commands| - 1]);
      ApplyTells(Run(start, commands[..|commands| - 1]), commands[|commands| - 1]);
    }
  }

  // ---------- approvals take turns with requests for new ones ----------

  ghost predicate TellsStatus(log: seq<AuditRow>, k: int, plan: Id, status: PlanStatus)
    requires 0 <= k <= |log|
  {
    plan < |Replay(log[..k])| && Replay(log[..k])[plan].status == status
  }

  lemma TellsNext(log: seq<AuditRow>, k: int)
    requires 0 <= k < |log|
    ensures Replay(log[..k + 1]) == Retell(Replay(log[..k]), log[k].event)
  {
    assert log[..k + 1][..k] == log[..k];
  }

  /** While nobody sends it back, an approved plan can only be replaced. */
  lemma {:induction false} StaysApproved(log: seq<AuditRow>, plan: Id, j: int, k: int)
    requires 0 <= j <= k <= |log| && TellsStatus(log, j, plan, Approved)
    requires forall m :: j <= m < k ==> !(log[m].event.PlanReapprovalRequired? && log[m].event.plan == plan)
    ensures TellsStatus(log, k, plan, Approved) || TellsStatus(log, k, plan, Superseded)
    decreases k
  {
    if j < k {
      StaysApproved(log, plan, j, k - 1);
      TellsNext(log, k - 1);
      hide Replay;
    }
  }

  /** While nobody approves it, a plan sent back can only be replaced. */
  lemma {:induction false} StaysSentBack(log: seq<AuditRow>, plan: Id, j: int, k: int)
    requires 0 <= j <= k <= |log| && TellsStatus(log, j, plan, ReapprovalRequired)
    requires forall m :: j <= m < k ==> !(log[m].event.PlanApproved? && log[m].event.plan == plan)
    ensures TellsStatus(log, k, plan, ReapprovalRequired) || TellsStatus(log, k, plan, Superseded)
    decreases k
  {
    if j < k {
      StaysSentBack(log, plan, j, k - 1);
      TellsNext(log, k - 1);
      hide Replay;
    }
  }

  /** In any run, between two approvals of one plan it was sent back for approval. */
  lemma ReapprovalBetween(start: Db, commands: seq<Command>, j: int, k: int)
    requires start.plans == [] && start.audit == []
    requires var log := Run(start, commands).audit;
      0 <= j < k < |log| && log[j].event.PlanApproved? && log[k].event.PlanApproved? && log[j].event.plan == log[k].event.plan
    ensures var log := Run(start, commands).audit;
      exists m :: j < m < k && log[m].event.PlanReapprovalRequired? && log[m].event.plan == log[j].event.plan
  {
    var log := Run(start, commands).audit;
    var plan := log[j].event.plan;
    RunTells(start, commands);
    hide Run, Replay;
    assert RowTells(log, j) && RowTells(log, k);
    TellsNext(log, j);
    if forall m :: j < m < k ==> !(log[m].event.PlanReapprovalRequired? && log[m].event.plan == plan) {
      StaysApproved(log, plan, j + 1, k);
    }
  }

  /** And between two requests for a new approval of one plan it was approved. */
  lemma ApprovalBetween(start: Db, commands: seq<Command>, j: int, k: int)
    requires start.plans == [] && start.audit == []
    requires var log := Run(start, commands).audit;
      && 0 <= j < k < |log| && log[j].event.PlanReapprovalRequired? && log[k].event.PlanReapprovalRequired?
      && log[j].event.plan == log[k].event.plan
    ensures var log := Run(start, commands).audit;
      exists m :: j < m < k && log[m].event.PlanApproved? && log[m].event.plan == log[j].event.plan
  {
    var log := Run(start, commands).audit;
    var plan := log[j].event.plan;
    RunTells(start, commands);
    hide Run, Replay;
    assert RowTells(log, j) && RowTells(log, k);
    TellsNext(log, j);
    if forall m :: j < m < k ==> !(log[m].event.PlanApproved? && log[m].event.plan == plan) {
      StaysSentBack(log, plan, j + 1, k);
    }
  }

  // ---------- where a plan comes from ----------

  /** The request in place `n` is an acceptable one to draft, and its plan is plan `k`. */
  ghost predicate Drafts(start: Db, commands: seq<Command>, n: int, k: int)
    requires 0 <= n < |commands|
  {
    var before := Run(start, commands[..n]);
    commands[n].Create? && |before.plans| == k && Acceptable(before, commands[n].incident, commands[n].items)
  }

  /** The plan holds what that request asked for, and its row in the log names that plan. */
  ghost predicate HoldsRequest(start: Db, commands: seq<Command>, n: int, k: int)
    requires 0 <= n < |commands|
  {
    var c, db, row := commands[n], Run(start, commands), |Run(start, commands[..n]).audit|;
    && c.Create? && 0 <= k < |db.plans|
    && db.plans[k].items == c.items && db.plans[k].incident == c.incident
    && row < |db.audit| && db.audit[row] == AuditRow(c.actor, PlanDrafted(c.incident, k, db.plans[k].version, |c.items|))
  }

  /** Only an acceptable draft adds a plan. */
  lemma OnlyDraftsAdd(db: Db, c: Command)
    ensures |Apply(db, c).plans| == |db.plans| + (if c.Create? && Acceptable(db, c.incident, c.items) then 1 else 0)
  {
    hide NewAttempts, NewTasks, Unanswered, MaxVersion, CurrentPlan, ItemsError, Acceptable;
    match c
    case Create(incident, items, actor) => CreateEffects(db, incident, items, actor);
    case Submit(task, constraints, requestReplan, actor) => SubmitPlans(db, task, constraints, requestReplan, actor);
    case _ =>
  }

  /** In any run, every plan holds the items, in their order, of the accepted request
      whose row in the log names it, whatever was requested since. */
  lemma {:induction false} ItemsAsSubmitted(start: Db, commands: seq<Command>, k: int) returns (n: int)
    requires start.plans == [] && 0 <= k < |Run(start, commands).plans|
    ensures 0 <= n < |commands| && Drafts(start, commands, n, k) && HoldsRequest(start, commands, n, k)
    decreases |commands|
  {
    var l := |commands| - 1;
    var init, c := commands[..l], commands[l];
    var before := Run(start, init);
    OnlyDraftsAdd(before, c);
    ApplyExtends(before, c);
    if k < |before.plans| {
      n := ItemsAsSubmitted(start, init, k);
      assert commands[..n] == init[..n];
      hide Apply, Acceptable;
      assert PlanExtends(before.plans[k], Run(start, commands).plans[k]);
    } else {
      n := l;
      CreateEffects(before, c.incident, c.items, c.actor);
    }
  }

  lemma {:induction false} TellsMore(log: seq<AuditRow>, j: int, k: int)
    requires 0 <= j <= k <= |log|
    ensures |Replay(log[..j])| <= |Replay(log[..k])|
    decreases k
  {
    if j < k {
      TellsMore(log, j, k - 1);
      TellsNext(log, k - 1);
      hide Replay;
    }
  }

  /** No two rows of a run's log announce the same plan. */
  lemma OneRowPerDraft(start: Db, commands: seq<Command>, j: int, k: int)
    requires start.plans == [] && start.audit == []
    requires var log := Run(start, commands).audit;
      0 <= j < k < |log| && log[j].event.PlanDrafted? && log[k].event.PlanDrafted?
    ensures var log := Run(start, commands).audit; log[j].event.plan < log[k].event.plan
  {
    var log := Run(start, commands).audit;
    RunTells(start, commands);
    hide Run, Replay;
    assert RowTells(log, j) && RowTells(log, k);
    TellsNext(log, j);
    TellsMore(log, j + 1, k);
  }
}
