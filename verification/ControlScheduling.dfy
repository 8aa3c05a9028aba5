/** Caps on running tasks and active runs, in every reachable state. */
module ControlScheduling {
  import opened Prelude
  import opened ControlPlane
  import opened ControlInvariant
  import opened ControlRuns

  lemma SubsetSize<T>(a: set<T>, b: set<T>)
    requires a <= b
    ensures |a| <= |b|
  {
    if a != {} {
      var x :| x in a;
      SubsetSize(a - {x}, b - {x});
    }
  }

  // ----- running tasks -----

  predicate TaskCapsHold(db: Db, maxActive: int) {
    && (maxActive > 0 ==> |RunningTasks(db)| <= maxActive)
    && forall r | r in db.runs && db.runs[r].maxInFlight > 0 :: |RunningTasksOf(db, r)| <= db.runs[r].maxInFlight
  }

  /** No run changes its limit, and no new run has running tasks. */
  predicate LimitsKept(db: Db, db': Db) {
    && (forall r | r in db.runs :: r in db'.runs && db'.runs[r].maxInFlight == db.runs[r].maxInFlight)
    && (forall t | t in RunningTasks(db') :: t in RunningTasks(db) && db'.tasks[t].run == db.tasks[t].run)
  }

  lemma OnlyAssignmentStartsTasks(db: Db, op: Op)
    requires Inv(db) && !op.AssignOp?
    ensures LimitsKept(db, Apply(db, op))
  {
    hide LimitsKept, Inv, Renew, RecordProgress, Complete, Abandon, Expire, CancelActiveAttempts, CancelRun,
        FinalizeRun, FinishCommit, CreateRun, StartRun, AdmitAll;
    match op
    case RenewOp(c, now, d) => CallsStartNothing(db, c, now, d, Counters(0, 0, 0));
    case ProgressOp(c, p, now) => CallsStartNothing(db, c, now, 0, p);
    case CompleteOp(c, r, g, k, now, wall) => ResultsStartNothing(db, c, r, g, k, now, wall);
    case AbandonOp(t, a, w, now, policy) => AbandonStartsNothing(db, t, a, w, now, policy);
    case ExpireOp(now, policy) => ExpiryStartsNothing(db, now, policy);
    case CancelAttemptsOp(r, wall) => CancelStartsNothing(db, r, wall);
    case CancelRunOp(r, wall) => CancelStartsNothing(db, r, wall);
    case FinalizeOp(r, wall) => CancelStartsNothing(db, r, wall);
    case FinishCommitOp(r, ok, wall) => RunsStartNothing(db, r, ok, wall, 0, "", {});
    case CreateRunOp(r, at, max, pool) => RunsStartNothing(db, r, false, at, max, pool, {});
    case StartRunOp(r, rows, limit) => PlanningStartsNothing(db, r, rows, limit);
    case AdmitOp(chosen, _) => RunsStartNothing(db, 0, false, 0, 0, "", chosen);
  }

  lemma CallsStartNothing(db: Db, c: Caller, now: Time, duration: int, p: Counters)
    ensures LimitsKept(db, Renew(db, c, now, duration)) && LimitsKept(db, RecordProgress(db, c, p, now))
  {
  }

  lemma ResultsStartNothing(db: Db, c: Caller, r: Report, digest: string, k: string, now: Time, wall: Time)
    ensures LimitsKept(db, Complete(db, c, r, digest, k, now, wall))
  {
    hide MayInsertAll, ArtifactsOf, FailureClassOf;
  }

  lemma AbandonStartsNothing(db: Db, t: Id, a: Id, worker: string, now: Time, policy: Policy)
    ensures LimitsKept(db, Abandon(db, t, a, worker, now, policy))
  {
    hide RetryDelay;
  }

  lemma ExpiryStartsNothing(db: Db, now: Time, policy: Policy)
    requires Inv(db)
    ensures LimitsKept(db, Expire(db, now, policy))
  {
    hide RetryDelay, LosesRun;
    assert forall t | t in db.tasks :: TaskOk(db, t);
  }

  lemma CancelStartsNothing(db: Db, run: Id, wall: Time)
    ensures LimitsKept(db, CancelActiveAttempts(db, run, wall))
    ensures LimitsKept(db, CancelRun(db, run, wall))
    ensures LimitsKept(db, FinalizeRun(db, run, wall))
  {
    hide CancelAttemptsOf;
  }

  lemma RunsStartNothing(db: Db, run: Id, ok: bool, at: Time, maxInFlight: int, pool: string, chosen: set<Id>)
    ensures LimitsKept(db, FinishCommit(db, run, ok, at))
    ensures LimitsKept(db, CreateRun(db, run, at, maxInFlight, pool))
    ensures LimitsKept(db, AdmitAll(db, chosen))
  {
  }

  lemma PlanningStartsNothing(db: Db, run: Id, rows: map<Id, int>, limit: int)
    ensures LimitsKept(db, StartRun(db, run, rows, limit))
  {
  }

  lemma CapsShrink(db: Db, db': Db, maxActive: int)
    requires TaskCapsHold(db, maxActive) && LimitsKept(db, db') && References(db)
    ensures TaskCapsHold(db', maxActive)
  {
    forall t | t in RunningTasks(db')
      ensures t in RunningTasks(db) && db'.tasks[t].run == db.tasks[t].run && db.tasks[t].run in db.runs
    {
    }
    SubsetSize(RunningTasks(db'), RunningTasks(db));
    forall r | r in db'.runs && db'.runs[r].maxInFlight > 0
      ensures |RunningTasksOf(db', r)| <= db'.runs[r].maxInFlight
    {
      forall t | t in RunningTasksOf(db', r)
        ensures t in RunningTasksOf(db, r)
      {
        assert t in RunningTasks(db');
      }
      SubsetSize(RunningTasksOf(db', r), RunningTasksOf(db, r));
      if r !in db.runs {
        assert forall t | t in db.tasks :: db.tasks[t].run != r;
        assert RunningTasksOf(db, r) == {};
      }
    }
  }

  lemma AssignWithinCaps(db: Db, t: Id, who: Assignee, now: Time, policy: Policy, pool: string)
    requires TaskCapsHold(db, policy.maxActiveTasks) && Eligible(db, t, now, policy, pool)
    ensures TaskCapsHold(Assign(db, Some(t), who, now, policy), policy.maxActiveTasks)
  {
    if Assigns(db, t, who) {
      var db' := Assign(db, Some(t), who, now, policy);
      assert RunningTasks(db') == RunningTasks(db) + {t};
      forall r | r in db'.runs
        ensures RunningTasksOf(db', r) == if r == db.tasks[t].run then RunningTasksOf(db, r) + {t}
            else RunningTasksOf(db, r)
      {
        forall u
          ensures u in RunningTasksOf(db', r) <==>
                  u in RunningTasksOf(db, r) || (u == t && r == db.tasks[t].run)
        {
        }
      }
    }
  }

  /** Every assignment of the run is made under the cap `maxActive`. */
  predicate CapIs(es: seq<Event>, maxActive: int) {
    forall i | 0 <= i < |es| && es[i].Write? && es[i].op.AssignOp? :: es[i].op.policy.maxActiveTasks == maxActive
  }

  lemma ExecWithinCaps(db: Db, e: Event, maxActive: int)
    requires Inv(db) && Legal(db, e) && TaskCapsHold(db, maxActive) && CapIs([e], maxActive)
    ensures TaskCapsHold(Exec(db, e), maxActive)
  {
    hide Apply, Assign, Eligible;
    if e.Write? && Leads(db.leader, e.instance, e.epoch, e.ms) {
      assert [e][0].op == e.op;
      if e.op.AssignOp? {
        assert Apply(db, e.op) == Assign(db, e.op.chosen, e.op.who, e.op.now, e.op.policy) by {
          ApplyAssign(db, e.op);
        }
        if e.op.chosen.Some? {
          AssignWithinCaps(db, e.op.chosen.value, e.op.who, e.op.now, e.op.policy, e.op.pool);
        } else {
          AssignNothing(db, e.op);
        }
      } else {
        OnlyAssignmentStartsTasks(db, e.op);
        CapsShrink(db, Apply(db, e.op), maxActive);
      }
    } else {
      CapsShrink(db, Exec(db, e), maxActive);
    }
  }

  lemma ApplyAssign(db: Db, op: Op)
    requires op.AssignOp?
    ensures Apply(db, op) == Assign(db, op.chosen, op.who, op.now, op.policy)
  {
  }

  lemma AssignNothing(db: Db, op: Op)
    requires op.AssignOp? && op.chosen.None?
    ensures Assign(db, op.chosen, op.who, op.now, op.policy) == db
  {
  }

  /** Neither the global cap nor any run's in-flight limit is ever exceeded. */
  lemma {:induction false} TaskCapsAlways(db: Db, es: seq<Event>, maxActive: int)
    requires Inv(db) && LegalRun(db, es) && TaskCapsHold(db, maxActive) && CapIs(es, maxActive)
    ensures TaskCapsHold(Execute(db, es), maxActive)
    decreases |es|
  {
    hide Inv, Exec, Legal, TaskCapsHold;
    if es != [] {
      assert CapIs([es[0]], maxActive);
      assert CapIs(es[1..], maxActive);
      ExecKeeps(db, es[0]);
      ExecWithinCaps(db, es[0], maxActive);
      TaskCapsAlways(Exec(db, es[0]), es[1..], maxActive);
    }
  }

  /**
   A poll with a fresh id and token that finds an eligible task assigns it: the worker
   holds a live lease, nothing else changes.
   */
  lemma EligibleIsAssigned(db: Db, t: Id, who: Assignee, now: Time, policy: Policy, pool: string)
    requires Inv(db) && Eligible(db, t, now, policy, pool)
    requires who.id !in db.attempts && forall a | a in db.attempts :: db.attempts[a].token != who.token
    ensures Assigns(db, t, who)
    ensures var db' := Assign(db, Some(t), who, now, policy);
            && IsCurrent(db', t, who.id)
            && db'.attempts.Keys == db.attempts.Keys + {who.id}
            && Holds(db', Caller(who.boot, t, who.id, who.token, who.worker), now)
            && db'.attempts[who.id].number == db.tasks[t].attemptCount + 1
            && (forall a | a in db.attempts :: db'.attempts[a] == db.attempts[a])
            && (forall u | u in db.tasks && u != t :: db'.tasks[u] == db.tasks[u])
            && db'.runs == db.runs
            && db'.artifacts == db.artifacts
  {
    assert TaskOk(db, t);
    forall a | a in db.attempts && db.attempts[a].task == t
      ensures db.attempts[a].number != db.tasks[t].attemptCount + 1 && db.attempts[a].status != Active
    {
      assert AttemptOk(db, a);
      assert db.attempts[a].number in Numbers(db, t);
    }
  }

  // ----- active runs -----

  predicate RunCapHolds(db: Db, limit: int) { limit > 0 ==> |ActiveRuns(db)| <= limit }

  /** Both admission paths are called with the limit `limit`. */
  predicate RunLimitIs(es: seq<Event>, limit: int) {
    forall i | 0 <= i < |es| && es[i].Write? ::
      && (es[i].op.StartRunOp? ==> es[i].op.limit == limit)
      && (es[i].op.AdmitOp? ==> es[i].op.limit == limit)
  }

  lemma OnlyAdmissionActivatesRuns(db: Db, op: Op)
    requires !op.StartRunOp? && !op.AdmitOp?
    ensures ActiveRuns(Apply(db, op)) <= ActiveRuns(db)
  {
  }

  lemma AdmitWithinCap(db: Db, chosen: set<Id>, limit: int)
    requires OldestWaiting(db, chosen, limit) && RunCapHolds(db, limit)
    ensures RunCapHolds(AdmitAll(db, chosen), limit)
    ensures ActiveRuns(AdmitAll(db, chosen)) == ActiveRuns(db) + chosen
  {
    assert ActiveRuns(AdmitAll(db, chosen)) == ActiveRuns(db) + chosen;
    assert ActiveRuns(db) !! chosen;
  }

  lemma StartWithinCap(db: Db, run: Id, rows: map<Id, int>, limit: int)
    requires RunCapHolds(db, limit)
    ensures RunCapHolds(StartRun(db, run, rows, limit), limit)
  {
    if rows != map[] && MayInsertTasks(db, run, rows) {
      var planned := InsertTasks(db, run, rows);
      assert ActiveRuns(planned) == ActiveRuns(db);
      if MayAdmit(planned, run, limit) {
        assert ActiveRuns(AdmitRun(planned, run)) == ActiveRuns(planned) + {run};
      }
    }
  }

  lemma ExecWithinRunCap(db: Db, e: Event, limit: int)
    requires Legal(db, e) && RunCapHolds(db, limit) && RunLimitIs([e], limit)
    ensures RunCapHolds(Exec(db, e), limit)
  {
    hide ActiveRuns, OldestWaiting, StartRun, AdmitAll;
    if e.Write? && Leads(db.leader, e.instance, e.epoch, e.ms) {
      assert [e][0].op == e.op;
      if e.op.StartRunOp? {
        StartWithinCap(db, e.op.run, e.op.rows, limit);
      } else if e.op.AdmitOp? {
        if limit > 0 {
          AdmitWithinCap(db, e.op.admitted, limit);
        }
      } else {
        OnlyAdmissionActivatesRuns(db, e.op);
        SubsetSize(ActiveRuns(Apply(db, e.op)), ActiveRuns(db));
      }
    } else {
      SameRunsActive(db, Exec(db, e));
    }
  }

  lemma SameRunsActive(db: Db, db': Db)
    requires db'.runs == db.runs
    ensures ActiveRuns(db') == ActiveRuns(db)
  {
  }

  /** RUNNING and COMMITTING runs never exceed the limit, on either admission path. */
  lemma {:induction false} RunCapAlways(db: Db, es: seq<Event>, limit: int)
    requires LegalRun(db, es) && RunCapHolds(db, limit) && RunLimitIs(es, limit)
    ensures RunCapHolds(Execute(db, es), limit)
    decreases |es|
  {
    hide Exec, Legal, RunCapHolds;
    if es != [] {
      assert RunLimitIs([es[0]], limit);
      assert RunLimitIs(es[1..], limit);
      ExecWithinRunCap(db, es[0], limit);
      RunCapAlways(Exec(db, es[0]), es[1..], limit);
    }
  }

  /** The answer of the read-only check made before a transaction is opened. */
  predicate Precheck(db: Db, limit: int) { |ActiveRuns(db)| < limit && WaitingRuns(db) != {} }

  /** The pre-check says no exactly when the transaction on the same state would admit nothing. */
  lemma PrecheckHidesNothing(db: Db, chosen: set<Id>, limit: int)
    requires limit > 0 && OldestWaiting(db, chosen, limit)
    ensures Precheck(db, limit) <==> chosen != {}
  {
  }
}
