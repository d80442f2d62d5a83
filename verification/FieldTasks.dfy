/** Households nobody could reach become field tasks, and do not disappear. */
module FieldTasks {
  import opened Options
  import opened Workflow
  import opened PlanHistory
  import opened ContactRounds

  lemma {:induction false} UnansweredAre(attempts: seq<Attempt>, incident: Id)
    ensures forall a :: a in Unanswered(attempts, incident) <==> a in attempts && a.incident == incident && a.response == Unreachable
  {
    if attempts != [] {
      var n := |attempts| - 1;
      UnansweredAre(attempts[..n], incident);
      assert attempts == attempts[..n] + [attempts[n]];
    }
  }

  lemma {:induction false} NewTasksAre(unanswered: seq<Attempt>, existing: set<Option<Id>>)
    ensures forall t :: t in NewTasks(unanswered, existing) <==> exists a :: a in unanswered && Some(a.community) !in existing && t == VerifyTask(a)
  {
    if unanswered != [] {
      var n := |unanswered| - 1;
      NewTasksAre(unanswered[..n], existing);
      assert unanswered == unanswered[..n] + [unanswered[n]];
      forall t | t in NewTasks(unanswered, existing)
        ensures exists a :: a in unanswered && Some(a.community) !in existing && t == VerifyTask(a)
      {
        if t in NewTasks(unanswered[..n], existing) {
          var a :| a in unanswered[..n] && Some(a.community) !in existing && t == VerifyTask(a);
          assert a in unanswered;
        }
      }
      forall a | a in unanswered && Some(a.community) !in existing
        ensures VerifyTask(a) in NewTasks(unanswered, existing)
      {
        assert a in unanswered[..n] ==> VerifyTask(a) in NewTasks(unanswered[..n], existing);
      }
    }
  }

  ghost predicate OnTheWay(tasks: seq<Task>, incident: Id, community: Id) {
    exists t :: t in tasks && t.incident == incident && t.kind == VerifyHousehold && t.status != Done && t.status != Cancelled && t.community == Some(community)
  }

  /** An urgent, unassigned check on a community that did not answer and to which nobody was on the way. */
  ghost predicate IsCheck(db: Db, incident: Id, t: Task) {
    && t.incident == incident && t.kind == VerifyHousehold && t.priority == 1 && t.status == Unassigned && t.assignee.None?
    && exists a :: a in db.attempts && a.incident == incident && a.response == Unreachable
                   && t.community == Some(a.community) && !OnTheWay(db.tasks, incident, a.community)
  }

  /** Afterwards somebody is on the way to every community that did not answer; the
      tasks added are checks on those where nobody was, and asking again adds nothing. */
  lemma EveryoneIsVerified(db: Db, incident: Id, actor: string)
    requires incident < db.incidents
    ensures var after := CreateFromUnreachable(db, incident, actor);
      && db.tasks <= after.tasks
      && (forall a :: a in db.attempts && a.incident == incident && a.response == Unreachable ==> OnTheWay(after.tasks, incident, a.community))
      && TasksFromUnreachable(after, incident) == []
      && CreateFromUnreachable(after, incident, actor) == after
      && (forall k :: |db.tasks| <= k < |after.tasks| ==> IsCheck(db, incident, after.tasks[k]))
      && after == db.(tasks := after.tasks, audit := after.audit)
      && after.audit == (if after.tasks == db.tasks then db.audit
                         else db.audit + [AuditRow(actor, TasksGenerated(incident, |after.tasks| - |db.tasks|))])
  {
    var after := CreateFromUnreachable(db, incident, actor);
    var unanswered, existing := Unanswered(db.attempts, incident), BeingVerified(db.tasks, incident);
    UnansweredAre(db.attempts, incident);
    NewTasksAre(unanswered, existing);
    assert after.tasks == db.tasks + NewTasks(unanswered, existing);
    forall a | a in unanswered
      ensures OnTheWay(after.tasks, incident, a.community) && Some(a.community) in BeingVerified(after.tasks, incident)
    {
      if Some(a.community) in existing {
        var t :| t in db.tasks && t.incident == incident && t.kind == VerifyHousehold && IsOpen(t) && t.community == Some(a.community);
        assert t in after.tasks;
      } else {
        assert VerifyTask(a) in after.tasks;
      }
    }
    forall k | |db.tasks| <= k < |after.tasks|
      ensures IsCheck(db, incident, after.tasks[k])
    {
      var t := after.tasks[k];
      assert t in NewTasks(unanswered, existing);
      var a :| a in unanswered && Some(a.community) !in existing && t == VerifyTask(a);
      assert a in db.attempts && !OnTheWay(db.tasks, incident, a.community);
    }
    NothingNew(unanswered, BeingVerified(after.tasks, incident));
  }

  lemma {:induction false} NothingNew(unanswered: seq<Attempt>, existing: set<Option<Id>>)
    requires forall a :: a in unanswered ==> Some(a.community) in existing
    ensures NewTasks(unanswered, existing) == []
  {
    if unanswered != [] {
      NothingNew(unanswered[..|unanswered| - 1], existing);
    }
  }

  /** Two answers are missing from the same community, to which nobody is on the way. */
  ghost predicate AskedTwice(unanswered: seq<Attempt>, existing: set<Option<Id>>) {
    exists i, j :: 0 <= i < j < |unanswered| && unanswered[i].community == unanswered[j].community && Some(unanswered[i].community) !in existing
  }

  ghost predicate SentTwice(tasks: seq<Task>) {
    exists i, j :: 0 <= i < j < |tasks| && tasks[i].community == tasks[j].community
  }

  lemma SentTwiceMore(tasks: seq<Task>, t: Task)
    ensures SentTwice(tasks + [t]) <==> SentTwice(tasks) || exists x :: x in tasks && x.community == t.community
  {
    var all := tasks + [t];
    if i, j :| 0 <= i < j < |tasks| && tasks[i].community == tasks[j].community {
      assert all[i].community == all[j].community;
    }
    if x :| x in tasks && x.community == t.community {
      var i :| 0 <= i < |tasks| && tasks[i] == x;
      assert all[i].community == all[|tasks|].community;
    }
    if i, j :| 0 <= i < j < |all| && all[i].community == all[j].community {
      if j < |tasks| {
        assert tasks[i].community == tasks[j].community;
      } else {
        assert tasks[i] in tasks;
      }
    }
  }

  lemma AskedTwiceMore(u: seq<Attempt>, a: Attempt, existing: set<Option<Id>>)
    ensures AskedTwice(u + [a], existing) <==>
              AskedTwice(u, existing) || (Some(a.community) !in existing && exists x :: x in u && x.community == a.community)
  {
    var all := u + [a];
    if i, j :| 0 <= i < j < |u| && u[i].community == u[j].community && Some(u[i].community) !in existing {
      assert all[i].community == all[j].community;
    }
    if Some(a.community) !in existing {
      if x :| x in u && x.community == a.community {
        var i :| 0 <= i < |u| && u[i] == x;
        assert all[i].community == all[|u|].community;
      }
    }
    if i, j :| 0 <= i < j < |all| && all[i].community == all[j].community && Some(all[i].community) !in existing {
      if j < |u| {
        assert u[i].community == u[j].community;
      } else {
        assert u[i] in u;
      }
    }
  }

  /** One call sends two teams to one community exactly when two attempts there
      went unanswered and no team was on the way. */
  lemma {:induction false} DuplicatesExactly(unanswered: seq<Attempt>, existing: set<Option<Id>>)
    ensures SentTwice(NewTasks(unanswered, existing)) <==> AskedTwice(unanswered, existing)
  {
    if unanswered != [] {
      var n := |unanswered| - 1;
      var init, a := unanswered[..n], unanswered[n];
      DuplicatesExactly(init, existing);
      assert unanswered == init + [a];
      AskedTwiceMore(init, a, existing);
      if Some(a.community) !in existing {
        var before := NewTasks(init, existing);
        SentTwiceMore(before, VerifyTask(a));
        NewTasksAre(init, existing);
        if x :| x in init && x.community == a.community {
          assert VerifyTask(x) in before;
        }
        if t :| t in before && t.community == VerifyTask(a).community {
          var x :| x in init && Some(x.community) !in existing && t == VerifyTask(x);
          assert x.community == a.community;
        }
      }
    }
  }

  lemma {:induction false} UnansweredInOrder(attempts: seq<Attempt>, incident: Id, plan: Id)
    requires OnePerCommunity(attempts) && forall a :: a in attempts && a.incident == incident && a.response == Unreachable ==> a.plan == plan
    ensures forall i, j :: 0 <= i < j < |Unanswered(attempts, incident)| ==>
              Unanswered(attempts, incident)[i].community != Unanswered(attempts, incident)[j].community
    decreases |attempts|
  {
    if attempts != [] {
      var n := |attempts| - 1;
      UnansweredInOrder(attempts[..n], incident, plan);
      UnansweredAre(attempts[..n], incident);
      var before := Unanswered(attempts[..n], incident);
      forall i | 0 <= i < |before| && attempts[n].incident == incident && attempts[n].response == Unreachable
        ensures before[i].community != attempts[n].community
      {
        assert before[i] in before;
        var k :| 0 <= k < n && attempts[..n][k] == before[i];
        assert attempts[k].plan == attempts[n].plan;
      }
    }
  }

  /** While all unanswered attempts of an incident belong to one plan, no community is sent two teams. */
  lemma OnePlanOneTeam(db: Db, incident: Id, plan: Id)
    requires RoundsOk(db)
    requires forall a :: a in db.attempts && a.incident == incident && a.response == Unreachable ==> a.plan == plan
    ensures !SentTwice(TasksFromUnreachable(db, incident))
  {
    UnansweredInOrder(db.attempts, incident, plan);
    DuplicatesExactly(Unanswered(db.attempts, incident), BeingVerified(db.tasks, incident));
  }

  // ---------- a run that sends two ----------

  const ITEMS: seq<Item> := [Item(7, None)]

  /** A plan for one community is drafted, approved and acted on, and nobody answers. */
  function OneRound(plan: Id): seq<Command> {
    [Create(0, ITEMS, "a"), Approve(plan, "b", "b"), Start(0, "call", None, "a"), RecordContact(plan, Unreachable, None, None, "a")]
  }

  lemma RunMore(db: Db, commands: seq<Command>, c: Command)
    ensures Run(db, commands + [c]) == Apply(Run(db, commands), c)
  {
    assert (commands + [c])[..|commands|] == commands;
  }

  lemma RunFour(db: Db, commands: seq<Command>, c0: Command, c1: Command, c2: Command, c3: Command)
    ensures Run(db, commands + [c0, c1, c2, c3]) == Apply(Apply(Apply(Apply(Run(db, commands), c0), c1), c2), c3)
  {
    hide Apply, Run;
    RunMore(db, commands, c0);
    RunMore(db, commands + [c0], c1);
    RunMore(db, commands + [c0] + [c1], c2);
    RunMore(db, commands + [c0] + [c1] + [c2], c3);
    assert commands + [c0, c1, c2, c3] == commands + [c0] + [c1] + [c2] + [c3];
  }

  /** What a round of calls adds to tables in which nobody has been called under the coming plan. */
  lemma RoundAdds(db: Db, plan: Id)
    requires db.incidents == 1 && db.communities == map[7 := Some(3)] && plan == |db.plans| == |db.attempts| && db.tasks == []
    requires forall a :: a in db.attempts ==> a.plan < plan
    requires forall p :: p in db.plans ==> p.incident == 0
    requires forall k :: 0 <= k < |db.plans| && db.plans[k].status != Superseded ==> CurrentPlan(db.plans, 0) == Some(k)
    ensures var c := OneRound(plan);
      var after := Apply(Apply(Apply(Apply(db, c[0]), c[1]), c[2]), c[3]);
      && after.incidents == 1 && after.communities == db.communities && after.tasks == []
      && |after.plans| == plan + 1 && (forall p :: p in after.plans ==> p.incident == 0)
      && (forall k :: 0 <= k < |after.plans| && after.plans[k].status != Superseded ==> k == plan) && CurrentPlan(after.plans, 0) == Some(plan)
      && after.attempts == db.attempts + [Attempt(0, plan, 7, 3, 0, "call", Unreachable, None, Some("a"))]
  {
    var c := OneRound(plan);
    Drafted(db, plan);
    var db1 := Apply(db, c[0]);
    var db2 := Apply(db1, c[1]);
    OnlyLast(db2.plans, 0);
    hide CurrentPlan, MaxVersion, ItemsError;
    CalledOnce(db2, plan);
  }

  lemma OnlyLast(plans: seq<Plan>, incident: Id)
    requires plans != [] && plans[|plans| - 1].incident == incident && plans[|plans| - 1].status != Superseded
    requires forall k :: 0 <= k < |plans| - 1 ==> plans[k].status == Superseded
    ensures CurrentPlan(plans, incident) == Some(|plans| - 1)
  {
    var earlier := plans[..|plans| - 1];
    assert forall k :: 0 <= k < |earlier| ==> earlier[k].status == Superseded;
  }

  lemma Drafted(db: Db, plan: Id)
    requires db.incidents == 1 && db.communities == map[7 := Some(3)] && plan == |db.plans|
    requires forall p :: p in db.plans ==> p.incident == 0
    requires forall k :: 0 <= k < |db.plans| && db.plans[k].status != Superseded ==> CurrentPlan(db.plans, 0) == Some(k)
    ensures var after := Apply(db, Create(0, ITEMS, "a"));
      && after.incidents == 1 && after.communities == db.communities && after.attempts == db.attempts && after.tasks == db.tasks
      && |after.plans| == plan + 1 && after.plans[plan].items == ITEMS && after.plans[plan].status == Draft
      && (forall p :: p in after.plans ==> p.incident == 0)
      && forall k :: 0 <= k < plan ==> after.plans[k].status == Superseded
  {
    assert ITEMS[..0] == [] && CommunitiesOf(ITEMS) == [7];
    assert ItemsError(db, ITEMS).None?;
    hide MaxVersion, ItemsError, CurrentPlan, CommunitiesOf;
    var previous := CurrentPlan(db.plans, 0);
    var after := Apply(db, Create(0, ITEMS, "a"));
    var handed := Supersede(db.plans, previous, plan);
    forall k | 0 <= k < plan
      ensures handed[k].status == Superseded && handed[k].incident == 0
    {
      assert db.plans[k] in db.plans;
    }
    assert forall k :: 0 <= k < plan ==> after.plans[k] == handed[k];
  }

  lemma CalledOnce(db: Db, plan: Id)
    requires db.incidents == 1 && db.communities == map[7 := Some(3)] && |db.attempts| == plan < |db.plans|
    requires CurrentPlan(db.plans, 0) == Some(plan) && db.plans[plan].status == Approved && db.plans[plan].items == ITEMS
    requires forall a :: a in db.attempts ==> a.plan < plan
    ensures var after := Apply(Apply(db, Start(0, "call", None, "a")), RecordContact(plan, Unreachable, None, None, "a"));
      && after.incidents == db.incidents && after.communities == db.communities && after.tasks == db.tasks && after.plans == db.plans
      && after.attempts == db.attempts + [Attempt(0, plan, 7, 3, 0, "call", Unreachable, None, Some("a"))]
  {
    assert Contacted(db, 0, plan) == {};
    assert ITEMS[..0] == [];
    var pending := Attempt(0, plan, 7, 3, 0, "call", Pending, None, None);
    assert NewAttempts(db, 0, plan, ITEMS[..0], {}, "call", None) == [];
    assert RoundFor(db, 0, "call", None) == [pending];
    hide CurrentPlan, NewAttempts, Contacted;
    assert StartRound(db, 0, "call", None, "a").attempts == db.attempts + [pending];
  }

  /** A run of nine requests: a plan is acted on, replaced and acted on again, and the
      same community is silent both times. One more call then sends two teams there. */
  lemma TwoTeamsForOne() returns (start: Db, commands: seq<Command>)
    ensures start == Empty(map[7 := Some(3)], {}) && |commands| == 9
    ensures SentTwice(TasksFromUnreachable(Run(start, commands), 0))
  {
    start := Empty(map[7 := Some(3)], {});
    var first := [Declare("a")];
    var c, d := OneRound(0), OneRound(1);
    commands := first + c + d;
    var db0 := Run(start, first);
    assert first[..0] == [] && db0 == Apply(start, first[0]);
    var a0, a1 := Attempt(0, 0, 7, 3, 0, "call", Unreachable, None, Some("a")), Attempt(0, 1, 7, 3, 0, "call", Unreachable, None, Some("a"));
    RoundAdds(db0, 0);
    var db1 := Apply(Apply(Apply(Apply(db0, c[0]), c[1]), c[2]), c[3]);
    hide Apply;
    assert db1.attempts == [a0];
    RoundAdds(db1, 1);
    var db2 := Apply(Apply(Apply(Apply(db1, d[0]), d[1]), d[2]), d[3]);
    assert db2.attempts == [a0, a1];
    RunFour(start, first, c[0], c[1], c[2], c[3]);
    RunFour(start, first + c, d[0], d[1], d[2], d[3]);
    assert Run(start, commands) == db2;
    BothSilent(db2, a0, a1);
  }

  lemma BothSilent(db: Db, a0: Attempt, a1: Attempt)
    requires db.attempts == [a0, a1] && db.tasks == [] && a0.incident == 0 && a1.incident == 0 && a0.community == a1.community
    requires a0.response == Unreachable && a1.response == Unreachable
    ensures SentTwice(TasksFromUnreachable(db, 0))
  {
    var attempts := db.attempts;
    assert attempts[..1] == [a0] && [a0][..0] == [];
    assert Unanswered([a0], 0) == [a0];
    assert Unanswered(attempts, 0) == [a0, a1];
    assert attempts[0].community == attempts[1].community;
    DuplicatesExactly(attempts, BeingVerified(db.tasks, 0));
  }

  // ---------- reports and updates ----------

  /** A report puts its task under review unless the task is closed; it says it
      forced a new approval exactly when the plan in force now needs one. */
  lemma ReportEffects(db: Db, task: Id, constraints: nat, requestReplan: bool, actor: string)
    requires task < |db.tasks|
    ensures var after := SubmitReport(db, task, constraints, requestReplan, actor);
            var t := db.tasks[task];
            var k := CurrentPlan(after.plans, t.incident);
      && |after.tasks| == |db.tasks|
      && after.tasks[task].status == (if t.status == Done || t.status == Cancelled then t.status else InReview)
      && |after.reports| == |db.reports| + 1
      && (after.reports[|db.reports|].triggeredReplan <==>
            (requestReplan || constraints > 0) && k.Some? && after.plans[k.value].status == ReapprovalRequired)
      && (requestReplan || constraints > 0 ==> k.None? || after.plans[k.value].status != Approved)
      && k == CurrentPlan(db.plans, t.incident)
      && (forall j :: 0 <= j < |db.tasks| && j != task ==> after.tasks[j] == db.tasks[j])
      && after.tasks[task] == t.(status := after.tasks[task].status)
      && after.reports[..|db.reports|] == db.reports
      && after.reports[|db.reports|] == Report(task, t.incident, constraints, after.reports[|db.reports|].triggeredReplan)
      && after.attempts == db.attempts
      && |after.audit| > |db.audit| && after.audit[|after.audit| - 1] ==
           AuditRow(actor, ReportSubmitted(t.incident, |db.reports|, constraints, after.reports[|db.reports|].triggeredReplan))
  {
    MarkKeepsCurrent(db, db.tasks[task].incident, actor);
    var t := db.tasks[task];
    MarkKeepsCurrent(if IsOpen(t) then db.(tasks := db.tasks[task := t.(status := InReview)]) else db, t.incident, actor);
  }

  lemma {:induction false} CurrentSame(before: seq<Plan>, after: seq<Plan>, incident: Id)
    requires SameShape(before, after)
    requires forall k :: 0 <= k < |before| ==> (before[k].status == Superseded <==> after[k].status == Superseded)
    ensures CurrentPlan(before, incident) == CurrentPlan(after, incident)
    decreases |before|
  {
    if before != [] {
      CurrentSame(before[..|before| - 1], after[..|after| - 1], incident);
    }
  }

  lemma MarkKeepsCurrent(db: Db, incident: Id, actor: string)
    ensures CurrentPlan(MarkNeedsReapproval(db, incident, actor).plans, incident) == CurrentPlan(db.plans, incident)
  {
    CurrentSame(db.plans, MarkNeedsReapproval(db, incident, actor).plans, incident);
  }

  /** A new task is added at the end, assigned exactly when somebody is named, and
      otherwise as asked; nothing else changes but the log. */
  lemma CreateTaskEffects(db: Db, incident: Id, community: Option<Id>, kind: TaskKind, priority: nat, assignee: Option<string>, detail: Option<string>, dueAt: Option<nat>, actor: string)
    ensures var after := CreateTask(db, incident, community, kind, priority, assignee, detail, dueAt, actor);
      && db.tasks <= after.tasks && |after.tasks| == |db.tasks| + One(incident < db.incidents)
      && after == db.(tasks := after.tasks, audit := after.audit)
      && after.audit == db.audit + (if incident < db.incidents then [AuditRow(actor, TaskCreated(incident, |db.tasks|))] else [])
      && (forall k :: |db.tasks| <= k < |after.tasks| ==>
            var t := after.tasks[k];
            && (t.status == Assigned <==> assignee.Some? && assignee.value != "") && (t.status == Assigned || t.status == Unassigned)
            && IsOpen(t) && t.incident == incident && t.community == community && t.kind == kind && t.assignee == assignee
            && t.priority == priority && t.detail == detail && t.dueAt == dueAt)
      && (incident < db.incidents && kind == VerifyHousehold ==> community in BeingVerified(after.tasks, incident))
  {
    var after := CreateTask(db, incident, community, kind, priority, assignee, detail, dueAt, actor);
    if incident < db.incidents {
      assert after.tasks[|db.tasks|] in after.tasks;
    }
  }

  /** A value given replaces the one there; none given keeps it. */
  ghost predicate Takes<T>(given: Option<T>, before: T, after: T) {
    (given.Some? ==> after == given.value) && (given.None? ==> after == before)
  }

  /** What a request gives it sets and what it leaves out it keeps, but for one thing:
      naming someone takes an unassigned task out of the pool, unless the same request
      set its status. Repeating a request changes nothing. */
  lemma UpdateEffects(t: Task, u: TaskUpdate)
    ensures var v := Updated(t, u);
      && Takes(u.priority, t.priority, v.priority)
      && v.assignee == (if u.assignee.Some? then u.assignee else t.assignee)
      && v.detail == (if u.detail.Some? then u.detail else t.detail)
      && v.dueAt == (if u.dueAt.Some? then u.dueAt else t.dueAt)
      && v.kind == t.kind && v.incident == t.incident && v.community == t.community
    ensures var named := u.assignee.Some? && u.assignee.value != "";
      if named && u.status.None? && t.status == Unassigned then Updated(t, u).status == Assigned
      else Takes(u.status, t.status, Updated(t, u).status)
    ensures Updated(Updated(t, u), u) == Updated(t, u)
  {
  }

  /** Only the task asked for changes, and a row is logged exactly when it does. */
  lemma UpdateTouchesOne(db: Db, task: Id, u: TaskUpdate, actor: string)
    ensures var after := UpdateTask(db, task, u, actor);
      && after == db.(tasks := after.tasks, audit := after.audit) && |after.tasks| == |db.tasks|
      && (forall k :: 0 <= k < |db.tasks| && k != task ==> after.tasks[k] == db.tasks[k])
      && (task < |db.tasks| ==> after.tasks[task] == Updated(db.tasks[task], u))
      && (after.tasks == db.tasks ==> after == db)
      && (after.tasks != db.tasks ==> task < |db.tasks| && after.audit == db.audit + [AuditRow(actor, TaskUpdated(db.tasks[task].incident, task))])
  {
    hide Updated;
  }

  // ---------- the contact roll-up ----------

  datatype Rollup = Rollup(total: nat, pending: nat, evacuating: nat, supportRequested: nat, refused: nat, unreachable: nat, householdsTotal: nat, householdsConfirmed: nat, needsFieldVerification: nat)

  function HowMany(attempts: seq<Attempt>, r: Response): nat {
    if attempts == [] then 0
    else HowMany(attempts[..|attempts| - 1], r) + if attempts[|attempts| - 1].response == r then 1 else 0
  }

  function SumHouseholds(attempts: seq<Attempt>): nat {
    if attempts == [] then 0 else SumHouseholds(attempts[..|attempts| - 1]) + attempts[|attempts| - 1].households
  }

  function SumConfirmed(attempts: seq<Attempt>): nat {
    if attempts == [] then 0 else SumConfirmed(attempts[..|attempts| - 1]) + attempts[|attempts| - 1].confirmed
  }

  /** Every attempt is counted under exactly one answer; those without one are
      counted apart, and are the ones to verify on the spot. */
  method RollUp(attempts: seq<Attempt>) returns (r: Rollup)
    ensures r.total == |attempts| == r.pending + r.evacuating + r.supportRequested + r.refused + r.unreachable
    ensures r.pending == HowMany(attempts, Pending) && r.evacuating == HowMany(attempts, Evacuating)
    ensures r.supportRequested == HowMany(attempts, SupportRequested) && r.refused == HowMany(attempts, Refused)
    ensures r.needsFieldVerification == r.unreachable == HowMany(attempts, Unreachable)
    ensures r.householdsTotal == SumHouseholds(attempts) && r.householdsConfirmed == SumConfirmed(attempts)
  {
    var pending, evacuating, support, refused, unreachable, households, confirmed := 0, 0, 0, 0, 0, 0, 0;
    for i := 0 to |attempts|
      invariant i == pending + evacuating + support + refused + unreachable
      invariant pending == HowMany(attempts[..i], Pending) && evacuating == HowMany(attempts[..i], Evacuating)
      invariant support == HowMany(attempts[..i], SupportRequested) && refused == HowMany(attempts[..i], Refused)
      invariant unreachable == HowMany(attempts[..i], Unreachable)
      invariant households == SumHouseholds(attempts[..i]) && confirmed == SumConfirmed(attempts[..i])
    {
      assert attempts[..i + 1][..i] == attempts[..i];
      households := households + attempts[i].households;
      confirmed := confirmed + attempts[i].confirmed;
      match attempts[i].response {
        case Pending => pending := pending + 1;
        case Evacuating => evacuating := evacuating + 1;
        case SupportRequested => support := support + 1;
        case Refused => refused := refused + 1;
        case Unreachable => unreachable := unreachable + 1;
      }
    }
    assert attempts[..|attempts|] == attempts;
    r := Rollup(|attempts|, pending, evacuating, support, refused, unreachable, households, confirmed, unreachable);
  }

  function One(b: bool): int {
    if b then 1 else 0
  }

  /** What is counted over a list is counted over its parts, and over one attempt is that attempt's. */
  lemma {:induction false} CountsOfParts(a: seq<Attempt>, b: seq<Attempt>, r: Response, x: Attempt)
    ensures HowMany(a + b, r) == HowMany(a, r) + HowMany(b, r) && HowMany([x], r) == One(x.response == r)
    ensures SumHouseholds(a + b) == SumHouseholds(a) + SumHouseholds(b) && SumHouseholds([x]) == x.households
    ensures SumConfirmed(a + b) == SumConfirmed(a) + SumConfirmed(b) && SumConfirmed([x]) == x.confirmed
    decreases |b|
  {
    assert [x][..0] == [];
    if b == [] {
      assert a + b == a;
    } else {
      var n := |b| - 1;
      CountsOfParts(a, b[..n], r, x);
      assert (a + b)[..|a + b| - 1] == a + b[..n];
    }
  }

  lemma {:induction false} ReplacedCounts(attempts: seq<Attempt>, k: nat, b: Attempt, r: Response)
    requires k < |attempts|
    ensures HowMany(attempts[k := b], r) == HowMany(attempts, r) - One(attempts[k].response == r) + One(b.response == r)
    ensures SumConfirmed(attempts[k := b]) == SumConfirmed(attempts) - attempts[k].confirmed + b.confirmed
    ensures SumHouseholds(attempts[k := b]) == SumHouseholds(attempts) - attempts[k].households + b.households
    decreases |attempts|
  {
    var n := |attempts| - 1;
    if k == n {
      assert attempts[k := b][..n] == attempts[..n];
    } else {
      ReplacedCounts(attempts[..n], k, b, r);
      assert attempts[k := b][..n] == attempts[..n][k := b];
    }
  }

  /** Recording an answer moves one attempt from its old count to the new one and
      adjusts the confirmed households by the difference; the summary's totals stay. */
  lemma AnswerMovesOneCount(db: Db, contact: Id, response: Response, confirmed: Option<nat>, followUp: Option<string>, actor: string, r: Response)
    requires contact < |db.attempts|
    ensures var before, after := db.attempts, UpdateContact(db, contact, response, confirmed, followUp, actor).attempts;
      && |after| == |before| && SumHouseholds(after) == SumHouseholds(before)
      && HowMany(after, r) == HowMany(before, r) - One(before[contact].response == r) + One(response == r)
      && SumConfirmed(after) == SumConfirmed(before) + if confirmed.Some? then confirmed.value - before[contact].confirmed else 0
  {
    ReplacedCounts(db.attempts, contact, UpdateContact(db, contact, response, confirmed, followUp, actor).attempts[contact], r);
  }
}
