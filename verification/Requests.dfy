/** What each request may do to the tables, told row by row and without the queries
    that carry it out: when it is accepted, which rows it writes, what every other row keeps. */
module Requests {
  import opened Options
  import opened Workflow
  import opened PlanHistory
  import opened ContactRounds
  import opened WorkflowService

  /** The same tables but for the plans and the log. */
  ghost predicate OnlyPlans(db: Db, after: Db) {
    after == db.(plans := after.plans, audit := after.audit)
  }

  // ---------- drafting ----------

  /** A known incident, and every community once, on record, with a shelter on record if any. */
  ghost predicate Acceptable(db: Db, incident: Id, items: seq<Item>) {
    && incident < db.incidents
    && (forall i, j :: 0 <= i < j < |items| ==> items[i].community != items[j].community)
    && (forall it :: it in items ==> it.community in db.communities && (it.shelter.Some? ==> it.shelter.value in db.shelters))
  }

  lemma {:induction false} CommunityAt(items: seq<Item>)
    ensures |CommunitiesOf(items)| == |items| && forall i :: 0 <= i < |items| ==> CommunitiesOf(items)[i] == items[i].community
  {
    if items != [] {
      CommunityAt(items[..|items| - 1]);
    }
  }

  lemma AcceptedExactly(db: Db, incident: Id, items: seq<Item>)
    ensures CreateError(db, incident, items).None? <==> Acceptable(db, incident, items)
  {
    CommunityAt(items);
  }

  /** The new row: the items asked for, in their order, as a draft nobody has
      approved or replaced, under a version above all of its incident's. */
  ghost predicate NewDraft(before: seq<Plan>, p: Plan, incident: Id, items: seq<Item>) {
    && p.incident == incident && p.items == items
    && p.status == Draft && p.approvedBy.None? && p.supersededBy.None?
    && forall k :: 0 <= k < |before| && before[k].incident == incident ==> before[k].version < p.version
  }

  lemma {:induction false} VersionAbove(plans: seq<Plan>, incident: Id, k: int)
    requires 0 <= k < |plans| && plans[k].incident == incident
    ensures plans[k].version <= MaxVersion(plans, incident)
    decreases |plans|
  {
    if k < |plans| - 1 {
      VersionAbove(plans[..|plans| - 1], incident, k);
    }
  }

  /** A draft is accepted exactly when its request is acceptable, and then stores
      what was asked for; no other plan's items change. Refused, it changes nothing. */
  lemma CreateEffects(db: Db, incident: Id, items: seq<Item>, actor: string)
    ensures var after := CreatePlan(db, incident, items, actor);
      var id := |db.plans|;
      if Acceptable(db, incident, items) then
        && OnlyPlans(db, after) && |after.plans| == id + 1
        && NewDraft(db.plans, after.plans[id], incident, items)
        && (forall k :: 0 <= k < id ==> after.plans[k].items == db.plans[k].items && after.plans[k].approvedBy == db.plans[k].approvedBy)
        && after.audit == db.audit + [AuditRow(actor, PlanDrafted(incident, id, after.plans[id].version, |items|))]
      else after == db
  {
    AcceptedExactly(db, incident, items);
    hide CreateError, MaxVersion, CurrentPlan;
    forall k | 0 <= k < |db.plans| && db.plans[k].incident == incident
      ensures db.plans[k].version <= MaxVersion(db.plans, incident)
    {
      VersionAbove(db.plans, incident, k);
    }
  }

  /** Of the plans there were, exactly those of the incident still in force hand over to the new one. */
  lemma CreateHandsOver(db: Db, incident: Id, items: seq<Item>, actor: string, k: int)
    requires HistoryOk(db.plans) && Acceptable(db, incident, items) && 0 <= k < |db.plans|
    ensures var p, q := db.plans[k], CreatePlan(db, incident, items, actor).plans[k];
      q == if p.incident == incident && p.status != Superseded
           then p.(status := Superseded, supersededBy := Some(|db.plans|)) else p
  {
    AcceptedExactly(db, incident, items);
    hide CreateError, MaxVersion;
    if db.plans[k].incident == incident && db.plans[k].status != Superseded {
      assert LinkOk(db.plans, k);
      CurrentIsLatest(db.plans, incident, k);
    }
  }

  // ---------- approving ----------

  ghost predicate AwaitsApproval(db: Db, plan: Id) {
    plan < |db.plans| && (db.plans[plan].status == Draft || db.plans[plan].status == ReapprovalRequired)
  }

  /** Only a draft or a plan sent back can be approved, and it then bears the name the
      request gives, whoever sent it. Any other request is refused and changes nothing. */
  lemma ApproveEffects(db: Db, plan: Id, approver: string, actor: string)
    ensures var after := ApprovePlan(db, plan, approver, actor);
      if AwaitsApproval(db, plan) then
        && OnlyPlans(db, after) && |after.plans| == |db.plans|
        && after.plans[plan] == db.plans[plan].(status := Approved, approvedBy := Some(approver))
        && (forall k :: 0 <= k < |db.plans| && k != plan ==> after.plans[k] == db.plans[k])
        && after.audit == db.audit + [AuditRow(actor, PlanApproved(db.plans[plan].incident, plan, approver))]
      else after == db
    ensures ApproveError(db, plan).None? <==> AwaitsApproval(db, plan)
    ensures ApproveError(db, plan) == Some(NotFound) <==> plan >= |db.plans|
    ensures ApproveError(db, plan) == Some(AlreadyApproved) <==> plan < |db.plans| && db.plans[plan].status == Approved
    ensures ApproveError(db, plan) == Some(PlanSuperseded) <==> plan < |db.plans| && db.plans[plan].status == Superseded
  {
  }

  /** Sending back: the approved plan of the incident, if there is one, and no other;
      the name of who approved it stays. */
  lemma MarkEffects(db: Db, incident: Id, actor: string, k: int)
    requires HistoryOk(db.plans) && 0 <= k < |db.plans|
    ensures var p, q := db.plans[k], MarkNeedsReapproval(db, incident, actor).plans[k];
      q == if p.incident == incident && p.status == Approved then p.(status := ReapprovalRequired) else p
    ensures OnlyPlans(db, MarkNeedsReapproval(db, incident, actor)) && |MarkNeedsReapproval(db, incident, actor).plans| == |db.plans|
    ensures db.plans[k].incident == incident && db.plans[k].status == Approved ==>
      MarkNeedsReapproval(db, incident, actor).audit == db.audit + [AuditRow(actor, PlanReapprovalRequired(incident, k))]
  {
    if db.plans[k].incident == incident && db.plans[k].status == Approved {
      assert LinkOk(db.plans, k);
      CurrentIsLatest(db.plans, incident, k);
    }
  }

  lemma NothingToSendBack(db: Db, incident: Id, actor: string)
    requires forall k :: 0 <= k < |db.plans| && db.plans[k].incident == incident ==> db.plans[k].status != Approved
    ensures MarkNeedsReapproval(db, incident, actor) == db
  {
    hide CurrentPlan;
  }

  // ---------- the life of a plan ----------

  /** A request sends back the plans of the incident its task belongs to. */
  ghost predicate SendsBack(db: Db, c: Command, incident: Id) {
    c.Submit? && c.task < |db.tasks| && db.tasks[c.task].incident == incident && (c.requestReplan || c.constraints > 0)
  }

  /** What a request makes of one plan that was there before it. */
  ghost predicate Lives(db: Db, c: Command, k: int, p: Plan, q: Plan) {
    if c.Create? && Acceptable(db, c.incident, c.items) && p.incident == c.incident && p.status != Superseded then
      q == p.(status := Superseded, supersededBy := Some(|db.plans|))
    else if c.Approve? && c.plan == k && (p.status == Draft || p.status == ReapprovalRequired) then
      q == p.(status := Approved, approvedBy := Some(c.approver))
    else if SendsBack(db, c, p.incident) && p.status == Approved then
      q == p.(status := ReapprovalRequired)
    else q == p
  }

  /** A plan's life under every request: it waits until approved, is sent back only by
      a report of its incident, and ends, whatever it was, with the next draft. */
  lemma Lifecycle(db: Db, c: Command, k: int)
    requires HistoryOk(db.plans) && 0 <= k < |db.plans|
    ensures k < |Apply(db, c).plans| && Lives(db, c, k, db.plans[k], Apply(db, c).plans[k])
  {
    hide HistoryOk, MaxVersion, CurrentPlan, NewAttempts, NewTasks, Unanswered, ItemsError, CommunitiesOf;
    match c
    case Create(incident, items, actor) =>
      CreateEffects(db, incident, items, actor);
      if Acceptable(db, incident, items) {
        CreateHandsOver(db, incident, items, actor, k);
      }
    case Approve(plan, approver, actor) =>
      ApproveEffects(db, plan, approver, actor);
    case Submit(task, constraints, requestReplan, actor) =>
      SubmitPlans(db, task, constraints, requestReplan, actor);
      if task < |db.tasks| {
        MarkEffects(db, db.tasks[task].incident, actor, k);
      }
    case _ =>
  }

  /** A report touches plans only by sending back. */
  lemma SubmitPlans(db: Db, task: Id, constraints: nat, requestReplan: bool, actor: string)
    ensures SubmitReport(db, task, constraints, requestReplan, actor).plans ==
      if task < |db.tasks| && NeedsReplan(constraints, requestReplan) then MarkNeedsReapproval(db, db.tasks[task].incident, actor).plans else db.plans
  {
    hide CurrentPlan;
  }

  /** An approval stands: as long as the plan stays approved, no request puts another
      name on it or changes what was approved. */
  lemma ApprovalStands(db: Db, c: Command, k: int)
    requires HistoryOk(db.plans) && 0 <= k < |db.plans| && db.plans[k].status == Approved
    ensures k < |Apply(db, c).plans|
    ensures var q := Apply(db, c).plans[k];
      && (q.status == Approved ==> q == db.plans[k])
      && q.approvedBy == db.plans[k].approvedBy && q.items == db.plans[k].items
  {
    Lifecycle(db, c, k);
    hide Apply, HistoryOk;
  }

  // ---------- contacting residents ----------

  ghost predicate Callable(db: Db, incident: Id, k: int) {
    0 <= k < |db.plans| && db.plans[k].incident == incident && db.plans[k].status == Approved
  }

  /** Some attempt under the plan already names the community. */
  ghost predicate Called(attempts: seq<Attempt>, incident: Id, k: int, community: Id) {
    exists a :: a in attempts && a.incident == incident && a.plan == k && a.community == community
  }

  /** Earlier rows are for earlier items, each item at most once. */
  ghost predicate InItemsOrder(items: seq<Item>, rows: seq<Attempt>) {
    forall i, j, x, y | 0 <= i < j < |rows| && 0 <= x < |items| && 0 <= y < |items| ::
      items[x].community == rows[i].community && items[y].community == rows[j].community ==> x < y
  }

  /** The rows of a new round: one for each community of the items that had none, in the
      items' order, with its households on record and nothing answered yet. */
  ghost predicate RoundRows(db: Db, incident: Id, k: int, items: seq<Item>, channel: string, note: Option<string>, rows: seq<Attempt>) {
    && (forall a :: a in rows ==>
          && a.incident == incident && a.plan == k && a.channel == channel && a.followUp == note
          && a.confirmed == 0 && a.response == Pending && a.recordedBy.None?
          && (if a.community in db.communities && db.communities[a.community].Some?
              then Some(a.households) == db.communities[a.community] else a.households == 0))
    && (forall c :: (exists a :: a in rows && a.community == c) <==> c in CommunitiesOf(items) && !Called(db.attempts, incident, k, c))
    && InItemsOrder(items, rows)
  }

  /** Communities of a prefix come before the one left out. */
  ghost predicate AllBefore(items: seq<Item>, before: seq<Attempt>) {
    forall i :: 0 <= i < |before| ==> exists x :: 0 <= x < |items| - 1 && items[x].community == before[i].community
  }

  lemma ForEarlierItems(db: Db, incident: Id, k: Id, items: seq<Item>, existing: set<Id>, channel: string, note: Option<string>)
    requires items != []
    ensures AllBefore(items, NewAttempts(db, incident, k, items[..|items| - 1], existing, channel, note))
  {
    var init := items[..|items| - 1];
    NewAttemptsAre(db, incident, k, init, existing, channel, note);
    CommunityAt(init);
    hide NewAttempts, CommunitiesOf;
    var before := NewAttempts(db, incident, k, init, existing, channel, note);
    forall i | 0 <= i < |before|
      ensures exists x :: 0 <= x < |items| - 1 && items[x].community == before[i].community
    {
      assert before[i] in before && before[i].community in CommunitiesOf(init);
      var x :| 0 <= x < |init| && CommunitiesOf(init)[x] == before[i].community;
      assert items[x].community == init[x].community;
    }
  }

  lemma OneMoreRow(db: Db, incident: Id, k: Id, items: seq<Item>, existing: set<Id>, channel: string, note: Option<string>)
    requires items != []
    ensures var before, rows := NewAttempts(db, incident, k, items[..|items| - 1], existing, channel, note), NewAttempts(db, incident, k, items, existing, channel, note);
      if items[|items| - 1].community in existing then rows == before
      else |rows| == |before| + 1 && rows[..|before|] == before && rows[|before|].community == items[|items| - 1].community
  {
  }

  lemma OneMoreInOrder(items: seq<Item>, before: seq<Attempt>, rows: seq<Attempt>)
    requires items != [] && |rows| == |before| + 1 && rows[..|before|] == before && rows[|before|].community == items[|items| - 1].community
    requires AllBefore(items, before)
    requires forall i, j :: 0 <= i < j < |items| ==> items[i].community != items[j].community
    requires InItemsOrder(items[..|items| - 1], before)
    ensures InItemsOrder(items, rows)
  {
    var init := items[..|items| - 1];
    forall i, j, x, y | 0 <= i < j < |rows| && 0 <= x < |items| && 0 <= y < |items| && items[x].community == rows[i].community && items[y].community == rows[j].community
      ensures x < y
    {
      assert rows[i] == before[i];
      var w :| 0 <= w < |items| - 1 && items[w].community == before[i].community;
      assert w == x && init[x].community == before[i].community;
      if j < |before| {
        assert rows[j] == before[j];
        var v :| 0 <= v < |items| - 1 && items[v].community == before[j].community;
        assert v == y && init[y].community == before[j].community;
      }
    }
  }

  lemma NoMoreInOrder(items: seq<Item>, before: seq<Attempt>)
    requires items != [] && AllBefore(items, before)
    requires forall i, j :: 0 <= i < j < |items| ==> items[i].community != items[j].community
    requires InItemsOrder(items[..|items| - 1], before)
    ensures InItemsOrder(items, before)
  {
    var init := items[..|items| - 1];
    forall i, j, x, y | 0 <= i < j < |before| && 0 <= x < |items| && 0 <= y < |items| && items[x].community == before[i].community && items[y].community == before[j].community
      ensures x < y
    {
      var w :| 0 <= w < |items| - 1 && items[w].community == before[i].community;
      var v :| 0 <= v < |items| - 1 && items[v].community == before[j].community;
      assert w == x && v == y && init[x].community == before[i].community && init[y].community == before[j].community;
    }
  }

  lemma {:induction false} RowsInOrder(db: Db, incident: Id, k: Id, items: seq<Item>, existing: set<Id>, channel: string, note: Option<string>)
    requires forall i, j :: 0 <= i < j < |items| ==> items[i].community != items[j].community
    ensures InItemsOrder(items, NewAttempts(db, incident, k, items, existing, channel, note))
    decreases |items|
  {
    if items != [] {
      hide *;
      var init := items[..|items| - 1];
      RowsInOrder(db, incident, k, init, existing, channel, note);
      ForEarlierItems(db, incident, k, items, existing, channel, note);
      OneMoreRow(db, incident, k, items, existing, channel, note);
      var before, rows := NewAttempts(db, incident, k, init, existing, channel, note), NewAttempts(db, incident, k, items, existing, channel, note);
      if rows == before {
        NoMoreInOrder(items, before);
      } else {
        OneMoreInOrder(items, before, rows);
      }
    }
  }

  lemma {:induction false} HouseholdsOnRecord(db: Db, incident: Id, k: Id, items: seq<Item>, existing: set<Id>, channel: string, note: Option<string>)
    ensures forall a :: a in NewAttempts(db, incident, k, items, existing, channel, note) ==>
      && a.channel == channel && a.followUp == note && a.recordedBy.None?
      && a.households == (if a.community in db.communities && db.communities[a.community].Some? then db.communities[a.community].value else 0)
    decreases |items|
  {
    if items != [] {
      HouseholdsOnRecord(db, incident, k, items[..|items| - 1], existing, channel, note);
    }
  }

  lemma RoundIs(db: Db, incident: Id, k: Id, channel: string, note: Option<string>)
    requires k < |db.plans| && Distinct(CommunitiesOf(db.plans[k].items))
    ensures RoundRows(db, incident, k, db.plans[k].items, channel, note,
                      NewAttempts(db, incident, k, db.plans[k].items, Contacted(db, incident, k), channel, note))
  {
    var items, existing := db.plans[k].items, Contacted(db, incident, k);
    CommunityAt(items);
    RowsInOrder(db, incident, k, items, existing, channel, note);
    HouseholdsOnRecord(db, incident, k, items, existing, channel, note);
    NewAttemptsAre(db, incident, k, items, existing, channel, note);
    hide CommunitiesOf, NewAttempts, Distinct;
    assert forall c :: c in existing <==> Called(db.attempts, incident, k, c);
  }

  /** A round starts exactly when the incident has an approved plan, runs under that
      plan and adds the rows for it; refused, it changes nothing. */
  lemma StartEffects(db: Db, incident: Id, channel: string, note: Option<string>, actor: string, k: int)
    requires HistoryOk(db.plans) && incident < db.incidents && Callable(db, incident, k)
    ensures var after := StartRound(db, incident, channel, note, actor);
      var n := |db.attempts|;
      && after == db.(attempts := after.attempts, audit := after.audit) && db.attempts <= after.attempts
      && RoundRows(db, incident, k, db.plans[k].items, channel, note, after.attempts[n..])
      && after.audit == db.audit + [AuditRow(actor, ContactStarted(incident, k, |after.attempts| - n))]
  {
    assert LinkOk(db.plans, k) && PlanOk(db.plans[k]);
    CurrentIsLatest(db.plans, incident, k);
    RoundIs(db, incident, k, channel, note);
    hide RoundRows, NewAttempts, CurrentPlan, HistoryOk, Contacted;
    var after := StartRound(db, incident, channel, note, actor);
    assert after.attempts[|db.attempts|..] == RoundFor(db, incident, channel, note);
  }

  /** Why a round is refused: no such incident, no plan at all, or none approved. */
  lemma StartRefusedExactly(db: Db, incident: Id, channel: string, note: Option<string>, actor: string)
    requires HistoryOk(db.plans)
    ensures StartError(db, incident).None? <==> incident < db.incidents && exists k :: Callable(db, incident, k)
    ensures StartError(db, incident) == Some(NotFound) <==> incident >= db.incidents
    ensures StartError(db, incident) == Some(NoPlan) <==> incident < db.incidents && forall p :: p in db.plans ==> p.incident != incident
    ensures StartError(db, incident).Some? ==> StartRound(db, incident, channel, note, actor) == db
  {
    var current := CurrentPlan(db.plans, incident);
    if current.None? {
      CurrentIsNone(db.plans, incident);
    } else {
      assert db.plans[current.value] in db.plans;
      assert db.plans[current.value].status == Approved ==> Callable(db, incident, current.value);
    }
    if k :| Callable(db, incident, k) {
      assert LinkOk(db.plans, k);
      CurrentIsLatest(db.plans, incident, k);
    }
  }

  /** An answer is written into its own row: what the request leaves out is kept, and
      who recorded it is who sent it. */
  lemma AnswerEffects(db: Db, contact: Id, response: Response, confirmed: Option<nat>, followUp: Option<string>, actor: string)
    ensures var after := UpdateContact(db, contact, response, confirmed, followUp, actor);
      if contact < |db.attempts| then
        var a, b := db.attempts[contact], after.attempts[contact];
        && after == db.(attempts := db.attempts[contact := b], audit := db.audit + [AuditRow(actor, ContactRecorded(a.incident, contact, response))])
        && b == a.(response := response, recordedBy := Some(actor), confirmed := b.confirmed, followUp := b.followUp)
        && (confirmed.None? ==> b.confirmed == a.confirmed) && (confirmed.Some? ==> Some(b.confirmed) == confirmed)
        && (followUp.None? ==> b.followUp == a.followUp) && (followUp.Some? ==> b.followUp == followUp)
      else after == db
  {
  }

  // ---------- every request signs what it does ----------

  /** Whatever a request changes, it leaves one row, or two for a report, each in the name of who sent it. */
  lemma EveryChangeIsSigned(db: Db, c: Command)
    ensures var after := Apply(db, c);
      && db.audit <= after.audit && |after.audit| <= |db.audit| + (if c.Submit? then 2 else 1)
      && (forall k :: |db.audit| <= k < |after.audit| ==> after.audit[k].actor == c.actor)
      && (after.audit == db.audit ==> after == db)
  {
    hide NewAttempts, NewTasks, Unanswered, CommunitiesOf, CurrentPlan, MaxVersion, ItemsError, Updated, Supersede, SubmitReport;
    if c.Submit? {
      ReportIsSigned(db, c.task, c.constraints, c.requestReplan, c.actor);
    }
  }

  lemma ReportIsSigned(db: Db, task: Id, constraints: nat, requestReplan: bool, actor: string)
    ensures var after := SubmitReport(db, task, constraints, requestReplan, actor);
      && db.audit <= after.audit && |after.audit| <= |db.audit| + 2
      && (forall k :: |db.audit| <= k < |after.audit| ==> after.audit[k].actor == actor)
      && (after.audit == db.audit ==> after == db)
  {
    hide CurrentPlan;
  }

  /** Which tables a request may touch at all: the places on record never change, an
      incident is declared only as such, and each kind of row has its own requests. */
  lemma TablesTouched(db: Db, c: Command)
    ensures var after := Apply(db, c);
      && after.communities == db.communities && after.shelters == db.shelters
      && after.incidents == db.incidents + (if c.Declare? then 1 else 0)
      && (after.plans != db.plans ==> c.Create? || c.Approve? || c.Submit?)
      && (after.attempts != db.attempts ==> c.Start? || c.RecordContact?)
      && (after.tasks != db.tasks ==> c.AddTask? || c.Generate? || c.ChangeTask? || c.Submit?)
      && (after.reports != db.reports ==> c.Submit?)
      && (c.Declare? ==> after.audit == db.audit + [AuditRow(c.actor, IncidentDeclared(db.incidents))])
  {
    hide NewAttempts, NewTasks, Unanswered, CommunitiesOf, CurrentPlan, MaxVersion, ItemsError, Updated, Supersede;
  }
}
