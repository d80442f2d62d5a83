/** Plan versions over whole runs: one line of versions per incident, only its
    last plan in force, nothing superseded ever touched again. */
module PlanHistory {
  import opened Options
  import opened Workflow

  function CountOf(plans: seq<Plan>, incident: Id): nat {
    if plans == [] then 0
    else CountOf(plans[..|plans| - 1], incident) + if plans[|plans| - 1].incident == incident then 1 else 0
  }

  /** `j` is the next plan of the same incident after `k`. */
  ghost predicate IsNext(plans: seq<Plan>, k: int, j: int) {
    && 0 <= k < j < |plans| && plans[k].incident == plans[j].incident
    && forall m :: k < m < j ==> plans[m].incident != plans[k].incident
  }

  ghost predicate IsLatest(plans: seq<Plan>, k: int) {
    0 <= k < |plans| && forall m :: k < m < |plans| ==> plans[m].incident != plans[k].incident
  }

  ghost predicate VersionsOk(plans: seq<Plan>) {
    forall k :: 0 <= k < |plans| ==> plans[k].version == CountOf(plans[..k], plans[k].incident) + 1
  }

  ghost predicate LinkOk(plans: seq<Plan>, k: int)
    requires 0 <= k < |plans|
  {
    match plans[k].supersededBy
    case None => plans[k].status != Superseded && IsLatest(plans, k)
    case Some(j) => plans[k].status == Superseded && IsNext(plans, k, j)
  }

  /** An approval leaves a name, and only an approval does. */
  ghost predicate NameOk(p: Plan) {
    (p.status == Draft ==> p.approvedBy == None) && (p.status == Approved || p.status == ReapprovalRequired ==> p.approvedBy.Some?)
  }

  ghost predicate PlanOk(p: Plan) {
    NameOk(p) && Distinct(CommunitiesOf(p.items))
  }

  ghost predicate HistoryOk(plans: seq<Plan>) {
    && VersionsOk(plans)
    && (forall k :: 0 <= k < |plans| ==> LinkOk(plans, k))
    && (forall k :: 0 <= k < |plans| ==> PlanOk(plans[k]))
  }

  // ---------- reading a history ----------

  lemma {:induction false} CurrentIsLargest(plans: seq<Plan>, incident: Id)
    ensures match CurrentPlan(plans, incident)
            case None => forall j :: 0 <= j < |plans| && plans[j].incident == incident ==> plans[j].status == Superseded
            case Some(k) => forall j :: 0 <= j < |plans| && plans[j].incident == incident && plans[j].status != Superseded ==> plans[j].version <= plans[k].version
  {
    if plans != [] {
      var n := |plans| - 1;
      CurrentIsLargest(plans[..n], incident);
      assert forall j :: 0 <= j < n ==> plans[..n][j] == plans[j];
    }
  }

  /** The query for the plan in force returns the incident's latest plan. */
  lemma CurrentIsLatest(plans: seq<Plan>, incident: Id, k: int)
    requires HistoryOk(plans) && IsLatest(plans, k) && plans[k].incident == incident
    ensures CurrentPlan(plans, incident) == Some(k)
  {
    assert LinkOk(plans, k);
    CurrentIsLargest(plans, incident);
    var j := CurrentPlan(plans, incident).value;
    assert LinkOk(plans, j);
  }

  lemma CurrentIsNone(plans: seq<Plan>, incident: Id)
    requires HistoryOk(plans) && CurrentPlan(plans, incident) == None
    ensures forall j :: 0 <= j < |plans| ==> plans[j].incident != incident
    decreases |plans|
  {
    CurrentIsLargest(plans, incident);
    if j :| 0 <= j < |plans| && plans[j].incident == incident {
      var k := LatestFrom(plans, j);
      CurrentIsLatest(plans, incident, k);
    }
  }

  lemma LatestFrom(plans: seq<Plan>, j: int) returns (k: int)
    requires 0 <= j < |plans|
    ensures IsLatest(plans, k) && plans[k].incident == plans[j].incident && j <= k
    decreases |plans| - j
  {
    if m :| j < m < |plans| && plans[m].incident == plans[j].incident {
      k := LatestFrom(plans, m);
    } else {
      k := j;
    }
  }

  lemma {:induction false} CountBounds(plans: seq<Plan>, incident: Id, j: int, k: int)
    requires 0 <= j <= k <= |plans|
    ensures CountOf(plans[..j], incident) <= CountOf(plans[..k], incident)
    ensures (forall m :: j <= m < k ==> plans[m].incident != incident) ==> CountOf(plans[..j], incident) == CountOf(plans[..k], incident)
    decreases k
  {
    if j < k {
      CountBounds(plans, incident, j, k - 1);
      assert plans[..k][..k - 1] == plans[..k - 1];
    }
  }

  lemma CountNext(plans: seq<Plan>, k: int)
    requires 0 <= k < |plans|
    ensures CountOf(plans[..k + 1], plans[k].incident) == CountOf(plans[..k], plans[k].incident) + 1
  {
    assert plans[..k + 1][..k] == plans[..k];
  }

  /** The successor carries the next version. */
  lemma SuccessorIsNextVersion(plans: seq<Plan>, k: int)
    requires HistoryOk(plans) && 0 <= k < |plans| && plans[k].supersededBy.Some?
    ensures var j := plans[k].supersededBy.value;
      k < j < |plans| && plans[j].incident == plans[k].incident && plans[j].version == plans[k].version + 1
  {
    assert LinkOk(plans, k);
    var j := plans[k].supersededBy.value;
    CountNext(plans, k);
    CountBounds(plans, plans[k].incident, k + 1, j);
  }

  /** Versions are exactly 1..n, one plan each. */
  lemma VersionsAreExact(plans: seq<Plan>, incident: Id, v: int)
    requires VersionsOk(plans)
    ensures (exists k :: 0 <= k < |plans| && plans[k].incident == incident && plans[k].version == v) <==> 1 <= v <= CountOf(plans, incident)
    ensures forall j, k :: 0 <= j < k < |plans| && plans[j].incident == plans[k].incident ==> plans[j].version < plans[k].version
  {
    assert plans[..|plans|] == plans;
    forall j, k | 0 <= j < k < |plans| && plans[j].incident == plans[k].incident
      ensures plans[j].version < plans[k].version
    {
      CountNext(plans, j);
      CountBounds(plans, plans[j].incident, j + 1, k);
    }
    forall k | 0 <= k < |plans| && plans[k].incident == incident
      ensures 1 <= plans[k].version <= CountOf(plans, incident)
    {
      CountNext(plans, k);
      CountBounds(plans, incident, k + 1, |plans|);
    }
    if 1 <= v <= CountOf(plans, incident) {
      var k := HasVersion(plans, incident, v);
    }
  }

  lemma {:induction false} HasVersion(plans: seq<Plan>, incident: Id, v: int) returns (k: int)
    requires VersionsOk(plans) && 1 <= v <= CountOf(plans, incident)
    ensures 0 <= k < |plans| && plans[k].incident == incident && plans[k].version == v
    decreases |plans|
  {
    var n := |plans| - 1;
    if plans[n].incident == incident && v == CountOf(plans, incident) {
      k := n;
    } else {
      VersionsPrefix(plans, n);
      k := HasVersion(plans[..n], incident, v);
    }
  }

  lemma VersionsPrefix(plans: seq<Plan>, n: nat)
    requires VersionsOk(plans) && n <= |plans|
    ensures VersionsOk(plans[..n])
  {
    forall k | 0 <= k < n
      ensures plans[..n][k].version == CountOf(plans[..n][..k], plans[..n][k].incident) + 1
    {
      assert plans[..n][..k] == plans[..k];
    }
  }

  lemma {:induction false} MaxIsCount(plans: seq<Plan>, incident: Id)
    requires VersionsOk(plans)
    ensures MaxVersion(plans, incident) == CountOf(plans, incident)
    decreases |plans|
  {
    if plans != [] {
      var n := |plans| - 1;
      VersionsPrefix(plans, n);
      MaxIsCount(plans[..n], incident);
    }
  }

  // ---------- what every request keeps ----------

  /** The same plans, up to status, approver and successor. */
  ghost predicate SameShape(before: seq<Plan>, after: seq<Plan>) {
    |before| == |after| && forall k :: 0 <= k < |before| ==>
      after[k].incident == before[k].incident && after[k].version == before[k].version && after[k].items == before[k].items
  }

  lemma {:induction false} SameCounts(before: seq<Plan>, after: seq<Plan>, incident: Id)
    requires SameShape(before, after)
    ensures CountOf(before, incident) == CountOf(after, incident)
    decreases |before|
  {
    if before != [] {
      SameCounts(before[..|before| - 1], after[..|after| - 1], incident);
    }
  }

  lemma ShapeKeepsVersions(before: seq<Plan>, after: seq<Plan>)
    requires SameShape(before, after) && VersionsOk(before)
    ensures VersionsOk(after)
  {
    forall k | 0 <= k < |after|
      ensures after[k].version == CountOf(after[..k], after[k].incident) + 1
    {
      SameCounts(before[..k], after[..k], after[k].incident);
    }
  }

  /** Incidents and successors decide every link; statuses only by being superseded or not. */
  lemma LinkKept(before: seq<Plan>, after: seq<Plan>, k: int)
    requires SameShape(before, after) && 0 <= k < |before| && LinkOk(before, k)
    requires after[k].supersededBy == before[k].supersededBy
    requires after[k].status == Superseded <==> before[k].status == Superseded
    ensures LinkOk(after, k)
  {
  }

  /** A change of status among those in force, with the name that goes with it. */
  lemma StatusKeepsHistory(plans: seq<Plan>, k: nat, p: Plan)
    requires HistoryOk(plans) && k < |plans| && plans[k].status != Superseded
    requires p.status != Superseded && NameOk(p) && p == plans[k].(status := p.status, approvedBy := p.approvedBy)
    ensures HistoryOk(plans[k := p])
  {
    var after := plans[k := p];
    assert SameShape(plans, after);
    assert PlanOk(plans[k]);
    hide VersionsOk, LinkOk, SameShape, NameOk, Distinct, CommunitiesOf;
    ShapeKeepsVersions(plans, after);
    forall j | 0 <= j < |after|
      ensures LinkOk(after, j)
    {
      LinkKept(plans, after, j);
    }
  }

  lemma AppendKeepsVersions(plans: seq<Plan>, p: Plan)
    requires VersionsOk(plans) && p.version == CountOf(plans, p.incident) + 1
    ensures VersionsOk(plans + [p])
  {
    var after := plans + [p];
    forall k | 0 <= k < |after|
      ensures after[k].version == CountOf(after[..k], after[k].incident) + 1
    {
      assert k < |plans| ==> after[..k] == plans[..k];
      assert k == |plans| ==> after[..k] == plans;
    }
  }

  lemma CreateKeepsHistory(plans: seq<Plan>, incident: Id, items: seq<Item>)
    requires HistoryOk(plans) && Distinct(CommunitiesOf(items))
    ensures HistoryOk(Supersede(plans, CurrentPlan(plans, incident), |plans|) + [Plan(incident, MaxVersion(plans, incident) + 1, Draft, None, None, items)])
  {
    var p := Plan(incident, MaxVersion(plans, incident) + 1, Draft, None, None, items);
    CreateKeepsVersions(plans, incident, p);
    assert PlanOk(p);
    hide VersionsOk, LinkOk, Distinct, CommunitiesOf, CountOf, MaxVersion, CurrentPlan;
    forall k | 0 <= k <= |plans|
      ensures LinkOk(Supersede(plans, CurrentPlan(plans, incident), |plans|) + [p], k)
    {
      NewLink(plans, incident, p, k);
    }
    forall k | 0 <= k < |plans|
      ensures PlanOk(Supersede(plans, CurrentPlan(plans, incident), |plans|)[k])
    {
      assert PlanOk(plans[k]);
    }
  }

  lemma CreateKeepsVersions(plans: seq<Plan>, incident: Id, p: Plan)
    requires VersionsOk(plans) && p.incident == incident && p.version == MaxVersion(plans, incident) + 1
    ensures VersionsOk(Supersede(plans, CurrentPlan(plans, incident), |plans|) + [p])
  {
    hide VersionsOk, CountOf, MaxVersion, CurrentPlan;
    var handed := Supersede(plans, CurrentPlan(plans, incident), |plans|);
    MaxIsCount(plans, incident);
    ShapeKeepsVersions(plans, handed);
    SameCounts(plans, handed, incident);
    AppendKeepsVersions(handed, p);
  }

  /** Only the plan that was in force gets a successor: the new one. */
  lemma NewLink(plans: seq<Plan>, incident: Id, p: Plan, k: int)
    requires HistoryOk(plans) && p.incident == incident && p.supersededBy == None && p.status != Superseded
    requires 0 <= k <= |plans|
    ensures LinkOk(Supersede(plans, CurrentPlan(plans, incident), |plans|) + [p], k)
  {
    if k < |plans| {
      assert LinkOk(plans, k);
      if plans[k].supersededBy.None? && plans[k].incident == incident {
        CurrentIsLatest(plans, incident, k);
      } else {
        var after := Supersede(plans, CurrentPlan(plans, incident), |plans|) + [p];
        assert after[k] == plans[k];
      }
    }
  }

  lemma MarkKeepsHistory(db: Db, incident: Id, actor: string)
    requires HistoryOk(db.plans)
    ensures HistoryOk(MarkNeedsReapproval(db, incident, actor).plans)
  {
    var current := CurrentPlan(db.plans, incident);
    if current.Some? && db.plans[current.value].status == Approved {
      assert PlanOk(db.plans[current.value]);
      StatusKeepsHistory(db.plans, current.value, db.plans[current.value].(status := ReapprovalRequired));
    }
  }

  lemma ApplyKeepsHistory(db: Db, c: Command)
    requires HistoryOk(db.plans)
    ensures HistoryOk(Apply(db, c).plans)
  {
    hide NewAttempts, NewTasks, Unanswered, VersionsOk, LinkOk, CommunitiesOf, CurrentPlan, Households;
    match c
    case Create(incident, items, actor) =>
      if CreateError(db, incident, items).None? {
        CreateKeepsHistory(db.plans, incident, items);
      }
    case Approve(plan, approver, actor) =>
      if ApproveError(db, plan).None? {
        StatusKeepsHistory(db.plans, plan, db.plans[plan].(status := Approved, approvedBy := Some(approver)));
      }
    case Submit(task, constraints, requestReplan, actor) =>
      if task < |db.tasks| {
        var t := db.tasks[task];
        MarkKeepsHistory(if IsOpen(t) then db.(tasks := db.tasks[task := t.(status := InReview)]) else db, t.incident, actor);
      }
    case _ =>
  }

  /** In every state a run can reach, the history is in order. */
  lemma {:induction false} RunKeepsHistory(db: Db, commands: seq<Command>)
    requires HistoryOk(db.plans)
    ensures HistoryOk(Run(db, commands).plans)
    decreases |commands|
  {
    if commands != [] {
      RunKeepsHistory(db, commands[..|commands| - 1]);
      ApplyKeepsHistory(Run(db, commands[..|commands| - 1]), commands[|commands| - 1]);
    }
  }

  // ---------- what is never undone ----------

  /** Later tables keep every plan's content and place; a superseded plan is not
      touched again, an approval is never erased, and the audit log only grows. */
  ghost predicate Extends(before: Db, after: Db) {
    && |before.plans| <= |after.plans| && before.audit <= after.audit
    && forall k :: 0 <= k < |before.plans| ==> PlanExtends(before.plans[k], after.plans[k])
  }

  ghost predicate PlanExtends(p: Plan, q: Plan) {
    && q.incident == p.incident && q.version == p.version && q.items == p.items
    && (p.status == Superseded ==> q == p)
    && (p.approvedBy.Some? ==> q.approvedBy.Some?)
  }

  lemma ExtendsTransitive(a: Db, b: Db, c: Db)
    requires Extends(a, b) && Extends(b, c)
    ensures Extends(a, c)
  {
    forall k | 0 <= k < |a.plans|
      ensures PlanExtends(a.plans[k], c.plans[k])
    {
      assert PlanExtends(a.plans[k], b.plans[k]) && PlanExtends(b.plans[k], c.plans[k]);
    }
  }

  lemma ApplyExtends(db: Db, c: Command)
    ensures Extends(db, Apply(db, c))
  {
    hide MaxVersion, CountOf, CommunitiesOf, ItemsError, NewAttempts, NewTasks, Unanswered;
    match c
    case Create(incident, items, actor) =>
    case Submit(task, constraints, requestReplan, actor) =>
      if task < |db.tasks| {
        var t := db.tasks[task];
        MarkExtends(if IsOpen(t) then db.(tasks := db.tasks[task := t.(status := InReview)]) else db, t.incident, actor);
      }
    case _ =>
  }

  lemma MarkExtends(db: Db, incident: Id, actor: string)
    ensures Extends(db, MarkNeedsReapproval(db, incident, actor))
  {
  }

  /** Over any run: no plan disappears or is rewritten, and what was superseded stays as it was. */
  lemma {:induction false} RunExtends(db: Db, commands: seq<Command>)
    ensures Extends(db, Run(db, commands))
    decreases |commands|
  {
    if commands != [] {
      var before := Run(db, commands[..|commands| - 1]);
      RunExtends(db, commands[..|commands| - 1]);
      ApplyExtends(before, commands[|commands| - 1]);
      ExtendsTransitive(db, before, Run(db, commands));
    }
  }
}
