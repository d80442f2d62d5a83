/** Contact attempts over whole runs: one per plan and community, each under an
    approved plan that names the community, every one accounted for in the log. */
module ContactRounds {
  import opened Options
  import opened Workflow
  import opened PlanHistory

  ghost predicate AttemptOk(plans: seq<Plan>, a: Attempt) {
    && a.plan < |plans| && plans[a.plan].incident == a.incident && plans[a.plan].approvedBy.Some?
    && a.community in CommunitiesOf(plans[a.plan].items)
  }

  ghost predicate OnePerCommunity(attempts: seq<Attempt>) {
    forall j, k :: 0 <= j < k < |attempts| && attempts[j].plan == attempts[k].plan ==> attempts[j].community != attempts[k].community
  }

  function CountUnder(attempts: seq<Attempt>, plan: Id): nat {
    if attempts == [] then 0
    else CountUnder(attempts[..|attempts| - 1], plan) + if attempts[|attempts| - 1].plan == plan then 1 else 0
  }

  function Announced(log: seq<AuditRow>, plan: Id): nat {
    if log == [] then 0
    else
      var before := Announced(log[..|log| - 1], plan);
      match log[|log| - 1].event
      case ContactStarted(_, p, created) => if p == plan then before + created else before
      case _ => before
  }

  ghost predicate Accounted(db: Db) {
    forall p :: CountUnder(db.attempts, p) == Announced(db.audit, p)
  }

  ghost predicate RoundsOk(db: Db) {
    && (forall k :: 0 <= k < |db.attempts| ==> AttemptOk(db.plans, db.attempts[k]))
    && OnePerCommunity(db.attempts)
    && Accounted(db)
  }

  // ---------- one round ----------

  lemma {:induction false} NewAttemptsAre(db: Db, incident: Id, plan: Id, items: seq<Item>, existing: set<Id>, channel: string, note: Option<string>)
    ensures var r := NewAttempts(db, incident, plan, items, existing, channel, note);
      && (forall a :: a in r ==> a.incident == incident && a.plan == plan && a.community in CommunitiesOf(items) && a.community !in existing
                                 && a.response == Pending && a.confirmed == 0)
      && (forall c :: c in CommunitiesOf(items) ==> c in existing || exists a :: a in r && a.community == c)
    decreases |items|
  {
    if items != [] {
      var before := NewAttempts(db, incident, plan, items[..|items| - 1], existing, channel, note);
      NewAttemptsAre(db, incident, plan, items[..|items| - 1], existing, channel, note);
      var r := NewAttempts(db, incident, plan, items, existing, channel, note);
      assert forall a :: a in before ==> a in r;
      var community := items[|items| - 1].community;
      if community !in existing {
        assert r[|r| - 1].community == community;
      }
    }
  }

  lemma {:induction false} NewAttemptsDistinct(db: Db, incident: Id, plan: Id, items: seq<Item>, existing: set<Id>, channel: string, note: Option<string>)
    requires Distinct(CommunitiesOf(items))
    ensures OnePerCommunity(NewAttempts(db, incident, plan, items, existing, channel, note))
    decreases |items|
  {
    if items != [] {
      var init := items[..|items| - 1];
      var last := items[|items| - 1].community;
      DistinctInit(CommunitiesOf(init), last);
      NewAttemptsDistinct(db, incident, plan, init, existing, channel, note);
      NewAttemptsAre(db, incident, plan, init, existing, channel, note);
    }
  }

  lemma DistinctInit(s: seq<Id>, last: Id)
    requires Distinct(s + [last])
    ensures Distinct(s) && last !in s
  {
    forall i, j | 0 <= i < j < |s|
      ensures s[i] != s[j]
    {
      assert (s + [last])[i] != (s + [last])[j];
    }
    forall i | 0 <= i < |s|
      ensures s[i] != last
    {
      assert (s + [last])[i] != (s + [last])[|s|];
    }
  }

  /** After a round, the plan's communities are exactly the ones with an attempt under it. */
  lemma RoundCovers(db: Db, incident: Id, channel: string, note: Option<string>, actor: string)
    requires StartError(db, incident).None? && RoundsOk(db)
    ensures var k := CurrentPlan(db.plans, incident).value;
            var after := StartRound(db, incident, channel, note, actor);
            forall c :: c in CommunitiesOf(db.plans[k].items) <==> exists a :: a in after.attempts && a.plan == k && a.community == c
  {
    var k := CurrentPlan(db.plans, incident).value;
    var after := StartRound(db, incident, channel, note, actor);
    var created := RoundFor(db, incident, channel, note);
    NewAttemptsAre(db, incident, k, db.plans[k].items, Contacted(db, incident, k), channel, note);
    assert forall a :: a in created ==> a in after.attempts;
    forall c | c in CommunitiesOf(db.plans[k].items)
      ensures exists a :: a in after.attempts && a.plan == k && a.community == c
    {
      if c in Contacted(db, incident, k) {
        var a :| a in db.attempts && a.incident == incident && a.plan == k && a.community == c;
        assert a in after.attempts;
      }
    }
    forall a | a in after.attempts && a.plan == k
      ensures a.community in CommunitiesOf(db.plans[k].items)
    {
      if a in db.attempts {
        var j :| 0 <= j < |db.attempts| && db.attempts[j] == a;
        assert AttemptOk(db.plans, db.attempts[j]);
      }
    }
  }

  // ---------- every request ----------

  lemma {:induction false} CountAppend(attempts: seq<Attempt>, more: seq<Attempt>, plan: Id)
    ensures CountUnder(attempts + more, plan) == CountUnder(attempts, plan) + CountUnder(more, plan)
    decreases |more|
  {
    if more == [] {
      assert attempts + more == attempts;
    } else {
      var init := more[..|more| - 1];
      CountAppend(attempts, init, plan);
      assert (attempts + more)[..|attempts + more| - 1] == attempts + init;
    }
  }

  lemma {:induction false} CountUniform(more: seq<Attempt>, k: Id, plan: Id)
    requires forall a :: a in more ==> a.plan == k
    ensures CountUnder(more, plan) == if plan == k then |more| else 0
    decreases |more|
  {
    if more != [] {
      CountUniform(more[..|more| - 1], k, plan);
      assert more[|more| - 1] in more;
    }
  }

  lemma {:induction false} CountSamePlans(before: seq<Attempt>, after: seq<Attempt>, plan: Id)
    requires |before| == |after| && forall k :: 0 <= k < |before| ==> before[k].plan == after[k].plan
    ensures CountUnder(before, plan) == CountUnder(after, plan)
    decreases |before|
  {
    if before != [] {
      CountSamePlans(before[..|before| - 1], after[..|after| - 1], plan);
    }
  }

  lemma StartKeepsRounds(db: Db, incident: Id, channel: string, note: Option<string>, actor: string)
    requires HistoryOk(db.plans) && RoundsOk(db) && StartError(db, incident).None?
    ensures RoundsOk(StartRound(db, incident, channel, note, actor))
  {
    var after := StartRound(db, incident, channel, note, actor);
    var k := CurrentPlan(db.plans, incident).value;
    var created := RoundFor(db, incident, channel, note);
    assert PlanOk(db.plans[k]);
    NewAttemptsAre(db, incident, k, db.plans[k].items, Contacted(db, incident, k), channel, note);
    NewAttemptsDistinct(db, incident, k, db.plans[k].items, Contacted(db, incident, k), channel, note);
    hide NewAttempts, CommunitiesOf, CurrentPlan, HistoryOk, PlanOk, Contacted;
    assert db.plans[k].approvedBy.Some? && db.plans[k].incident == incident;
    NewPairs(db, incident, k, created);
    forall j | 0 <= j < |after.attempts|
      ensures AttemptOk(after.plans, after.attempts[j])
    {
      if j < |db.attempts| {
        assert AttemptOk(db.plans, db.attempts[j]);
      } else {
        assert created[j - |db.attempts|] in created;
      }
    }
    RoundAccounted(db, k, created, after.audit[|db.audit|]);
  }

  lemma RoundAccounted(db: Db, k: Id, created: seq<Attempt>, row: AuditRow)
    requires Accounted(db) && forall a :: a in created ==> a.plan == k
    requires row.event.ContactStarted? && row.event.plan == k && row.event.created == |created|
    ensures Accounted(db.(attempts := db.attempts + created, audit := db.audit + [row]))
  {
    var log := db.audit + [row];
    assert log[..|db.audit|] == db.audit;
    forall p
      ensures CountUnder(db.attempts + created, p) == Announced(log, p)
    {
      CountAppend(db.attempts, created, p);
      CountUniform(created, k, p);
      assert CountUnder(db.attempts, p) == Announced(db.audit, p);
    }
  }

  lemma NewPairs(db: Db, incident: Id, k: Id, created: seq<Attempt>)
    requires RoundsOk(db) && OnePerCommunity(created)
    requires k < |db.plans| && db.plans[k].incident == incident
    requires forall a :: a in created ==> a.plan == k && a.community !in Contacted(db, incident, k)
    ensures OnePerCommunity(db.attempts + created)
  {
    var all, n := db.attempts + created, |db.attempts|;
    forall i, j | 0 <= i < j < |all| && all[i].plan == all[j].plan
      ensures all[i].community != all[j].community
    {
      if i < n <= j {
        assert created[j - n] in created;
        assert AttemptOk(db.plans, db.attempts[i]);
        assert db.attempts[i] in db.attempts;
        assert all[i].community in Contacted(db, incident, k);
      } else if n <= i {
        assert created[i - n].plan == created[j - n].plan;
      }
    }
  }

  /** Requests that leave plans' content and the attempts' plans alone keep the rounds in order. */
  lemma OthersKeepRounds(db: Db, after: Db)
    requires RoundsOk(db) && Extends(db, after)
    requires |after.attempts| == |db.attempts|
    requires forall k :: 0 <= k < |db.attempts| ==>
      after.attempts[k].plan == db.attempts[k].plan && after.attempts[k].community == db.attempts[k].community && after.attempts[k].incident == db.attempts[k].incident
    requires forall p :: Announced(after.audit, p) == Announced(db.audit, p)
    ensures RoundsOk(after)
  {
    forall k | 0 <= k < |after.attempts|
      ensures AttemptOk(after.plans, after.attempts[k])
    {
      assert AttemptOk(db.plans, db.attempts[k]);
      assert PlanExtends(db.plans[db.attempts[k].plan], after.plans[db.attempts[k].plan]);
    }
    forall p
      ensures CountUnder(after.attempts, p) == Announced(after.audit, p)
    {
      CountSamePlans(db.attempts, after.attempts, p);
      assert CountUnder(db.attempts, p) == Announced(db.audit, p);
    }
  }

  /** No other request announces a round. */
  lemma {:induction false} QuietLog(before: seq<AuditRow>, after: seq<AuditRow>, p: Id)
    requires before <= after && forall k :: |before| <= k < |after| ==> !after[k].event.ContactStarted?
    ensures Announced(after, p) == Announced(before, p)
    decreases |after|
  {
    if |before| < |after| {
      QuietLog(before, after[..|after| - 1], p);
    } else {
      assert before == after;
    }
  }

  lemma ApplyKeepsRounds(db: Db, c: Command)
    requires HistoryOk(db.plans) && RoundsOk(db)
    ensures RoundsOk(Apply(db, c))
  {
    if c.Start? {
      if StartError(db, c.incident).None? {
        StartKeepsRounds(db, c.incident, c.channel, c.note, c.actor);
      }
    } else {
      var after := Apply(db, c);
      ApplyExtends(db, c);
      OnlyStartsAnnounce(db, c);
      forall p
        ensures Announced(after.audit, p) == Announced(db.audit, p)
      {
        QuietLog(db.audit, after.audit, p);
      }
      OthersKeepRounds(db, after);
    }
  }

  lemma OnlyStartsAnnounce(db: Db, c: Command)
    requires !c.Start?
    ensures var after := Apply(db, c);
      && db.audit <= after.audit
      && (forall k :: |db.audit| <= k < |after.audit| ==> !after.audit[k].event.ContactStarted?)
      && |after.attempts| == |db.attempts|
      && forall k :: 0 <= k < |db.attempts| ==>
           after.attempts[k].plan == db.attempts[k].plan && after.attempts[k].community == db.attempts[k].community && after.attempts[k].incident == db.attempts[k].incident
  {
    hide NewTasks, Unanswered, CommunitiesOf, CurrentPlan, MaxVersion, ItemsError;
  }

  /** Over any run: every attempt belongs to an approved plan naming its community,
      no pair of plan and community has two, and the log announced each of them. */
  lemma {:induction false} RunKeepsRounds(start: Db, commands: seq<Command>)
    requires start.plans == [] && start.attempts == [] && start.audit == []
    ensures RoundsOk(Run(start, commands))
    decreases |commands|
  {
    if commands != [] {
      RunKeepsRounds(start, commands[..|commands| - 1]);
      RunKeepsHistory(start, commands[..|commands| - 1]);
      ApplyKeepsRounds(Run(start, commands[..|commands| - 1]), commands[|commands| - 1]);
    }
  }
}
