/**
 The store of one master process: transactions that read and update the tables
 statement by statement, and the fence that process installed on its writer
 connection. Each is proved against the step function of the control plane.
 */
module ControlStore {
  import opened Prelude
  import opened ControlPlane
  import opened ControlSelection
  import opened ResultDigest
  import Trimming

  datatype StoreError =
    | AttemptFenced
    | StaleMaster
    | LeadershipHeld
    | NotLeader
    | InvalidArgument

  /** The tables shared by all masters. */
  class Database {
    var runs: map<Id, Run>
    var tasks: map<Id, Task>
    var attempts: map<Id, Attempt>
    var artifacts: set<Artifact>
    var leader: Leadership

    function Rows(): Db
      reads this
    {
      Db(runs, tasks, attempts, artifacts, leader)
    }
  }

  datatype Fence = Fence(instance: string, epoch: nat)

  /** No fence yet, or its master leads: the condition of the triggers. */
  predicate Passes(fence: Option<Fence>, l: Leadership, ms: int) {
    fence.None? || Leads(l, fence.value.instance, fence.value.epoch, ms)
  }

  /** What a write transaction does to the tables. */
  function Guarded(fence: Option<Fence>, ms: int, before: Db, after: Db): Db {
    if Passes(fence, before.leader, ms) then after else before
  }

  class Store {
    const db: Database
    var fence: Option<Fence>
    var maxActiveRuns: int

    constructor (database: Database)
      ensures db == database && fence == None && maxActiveRuns == 0
    {
      db := database;
      fence := None;
      maxActiveRuns := 0;
    }

    // ----- leadership -----

    method AcquireLeadership(instance: string, lease: int, ms: int) returns (r: Result<Leadership, StoreError>)
      modifies db
      ensures db.Rows() == Acquire(old(db.Rows()), instance, lease, ms)
      ensures r.Ok? <==> MayAcquire(old(db.leader), instance, lease, ms)
      ensures old(db.leader).active && old(db.leader).deadline > ms ==> r.Err? && db.leader == old(db.leader)
      ensures r.Ok? ==>
          r.value == db.leader && db.leader.instance == instance && db.leader.epoch == old(db.leader.epoch) + 1
    {
      if Trimming.TrimSpace(instance) == "" || lease <= 0 {
        return Err(InvalidArgument);
      }
      var l := db.leader;
      if l.active && l.deadline > ms {
        return Err(LeadershipHeld);
      }
      db.leader := Leadership(instance, l.epoch + 1, true, ms + Millis(lease));
      return Ok(db.leader);
    }

    method RenewLeadership(instance: string, epoch: nat, lease: int, ms: int) returns (r: Result<int, StoreError>)
      modifies db
      ensures db.Rows() == ControlPlane.RenewLeadership(old(db.Rows()), instance, epoch, lease, ms)
      ensures r.Ok? <==> Leads(old(db.leader), instance, epoch, ms)
      ensures r.Ok? ==> r.value == db.leader.deadline
    {
      var l := db.leader;
      if !(l.active && l.instance == instance && l.epoch == epoch && l.deadline > ms) {
        return Err(NotLeader);
      }
      db.leader := l.(deadline := ms + Millis(lease));
      return Ok(db.leader.deadline);
    }

    method ReleaseLeadership(instance: string, epoch: nat) returns (released: bool)
      modifies db
      ensures db.Rows() == Release(old(db.Rows()), instance, epoch)
      ensures released <==>
          old(db.leader).active && old(db.leader).instance == instance && old(db.leader).epoch == epoch
    {
      var l := db.leader;
      released := l.active && l.instance == instance && l.epoch == epoch;
      if released {
        db.leader := l.(active := false, deadline := 0);
      }
    }

    method AssertLeadership(instance: string, epoch: nat, ms: int) returns (ok: bool)
      ensures ok <==> Leads(db.leader, instance, epoch, ms)
    {
      var l := db.leader;
      ok := l.active && l.instance == instance && l.epoch == epoch && l.deadline > ms;
    }

    /** A fence that is already installed is kept: the triggers are created only if they do not exist. */
    method ActivateLeadershipFence(instance: string, epoch: nat, ms: int) returns (ok: bool)
      modifies this`fence
      ensures ok <==> Leads(db.leader, instance, epoch, ms)
      ensures fence == if ok && old(fence).None? then Some(Fence(instance, epoch)) else old(fence)
    {
      ok := AssertLeadership(instance, epoch, ms);
      if ok && fence.None? {
        fence := Some(Fence(instance, epoch));
      }
    }

    // ----- attempts -----

    method AssignNextPendingTask(who: Assignee, pool: string, now: Time, p: Policy, ms: int)
      returns (chosen: Option<Id>, leased: bool)
      modifies db
      ensures FirstEligible(old(db.Rows()), chosen, now, p, pool)
      ensures db.Rows() == Guarded(fence, ms, old(db.Rows()), Assign(old(db.Rows()), chosen, who, now, p))
      ensures leased <==>
          chosen.Some? && Assigns(old(db.Rows()), chosen.value, who) && Passes(fence, old(db.leader), ms)
    {
      hide FirstEligible;
      chosen := SelectNext(db.Rows(), now, p, pool);
      if chosen.None? {
        return chosen, false;
      }
      var t := chosen.value;
      ChosenExists(db.Rows(), t, now, p, pool);
      var task := db.tasks[t];
      var number := task.attemptCount + 1;
      if task.status != TaskStatus.Pending || task.current.Some? {
        return chosen, false;
      }
      var may := Passes(fence, db.leader, ms) && MayInsertAttempt(db.Rows(), who.id, t, number, who.token);
      if !may {
        return chosen, false;
      }
      db.tasks := db.tasks[t := task.(
        status := TaskStatus.Running, worker := Some(who.worker),
        startedAt := if task.startedAt.None? then Some(now) else task.startedAt,
        current := Some(who.id), attemptCount := number, nextEligible := None)];
      var epoch := if db.leader.active then Some(db.leader.epoch) else None;
      db.attempts := db.attempts[who.id := Attempt(
        t, number, who.worker, who.boot, who.token, Active, now,
        now + p.Normalized().duration, now, None, "", "", epoch)];
      return chosen, true;
    }

    method RenewTaskLease(c: Caller, now: Time, duration: int, ms: int) returns (r: Result<Time, StoreError>)
      modifies db
      ensures db.Rows() == Guarded(fence, ms, old(db.Rows()), Renew(old(db.Rows()), c, now, duration))
      ensures r.Ok? <==> Holds(old(db.Rows()), c, now) && Passes(fence, old(db.leader), ms)
      ensures r.Ok? ==> c.attempt in db.attempts && r.value == db.attempts[c.attempt].leaseDeadline
    {
      if !Holds(db.Rows(), c, now) {
        return Err(AttemptFenced);
      }
      if !Passes(fence, db.leader, ms) {
        return Err(StaleMaster);
      }
      var deadline := now + if duration <= 0 then 30 * SECOND else duration;
      db.attempts := db.attempts[c.attempt := db.attempts[c.attempt].(leaseDeadline := deadline, lastRenewed := now)];
      return Ok(deadline);
    }

    method UpdateTaskProgress(c: Caller, counters: Counters, now: Time, ms: int) returns (ok: bool)
      modifies db
      ensures db.Rows() == Guarded(fence, ms, old(db.Rows()), RecordProgress(old(db.Rows()), c, counters, now))
      ensures ok <==> Holds(old(db.Rows()), c, now) && Passes(fence, old(db.leader), ms)
    {
      ok := Holds(db.Rows(), c, now) && Passes(fence, db.leader, ms);
      if ok {
        db.tasks := db.tasks[c.task := db.tasks[c.task].(counters := counters)];
      }
    }

    /** The scan and the loop over its rows; the count is the number of attempts that expired. */
    method ExpireTaskAttempts(now: Time, policy: Policy, ms: int) returns (expired: nat)
      modifies db
      ensures db.Rows() == Guarded(fence, ms, old(db.Rows()), Expire(old(db.Rows()), now, policy))
      ensures Passes(fence, old(db.leader), ms) ==> expired == |ExpirableAttempts(old(db.Rows()), now)|
      ensures forall a | a in old(db.attempts) && old(db.attempts)[a].leaseDeadline > now ::
                a in db.attempts && db.attempts[a] == old(db.attempts)[a]
    {
      hide ExpireSet, Expirable;
      LiveAttemptsStay(db.Rows(), now, policy);
      var start := db.Rows();
      var items := SelectExpirable(start, now);
      if items == [] {
        NothingExpires(start, now, policy);
        return 0;
      }
      if !Passes(fence, db.leader, ms) {
        return 0;
      }
      var tx := start;
      expired := 0;
      NoneLost(start, now, policy);
      assert First(items, 0) == {};
      for i := 0 to |items|
        invariant db.Rows() == start && tx == ExpireSet(start, First(items, i), now, policy)
        invariant expired == i
      {
        ItemIsIntact(start, items, i, now, policy);
        tx := ExpireItem(tx, items[i], start.attempts[items[i]].task, start.attempts[items[i]].number,
                         start.tasks[start.attempts[items[i]].task].run, now, policy);
        expired := expired + 1;
        ExpireOneMore(start, items, i, now, policy);
      }
      DistinctSize(items, |items|);
      OtherTablesSame(start, First(items, |items|), now, policy);
      db.attempts, db.tasks, db.runs := tx.attempts, tx.tasks, tx.runs;
      assert db.Rows() == tx;
      assert tx == ExpireSet(start, ExpirableAttempts(start, now), now, policy);
      assert tx == Expire(start, now, policy);
    }

    method AbandonTaskAttempt(t: Id, a: Id, worker: string, now: Time, policy: Policy, ms: int) returns (ok: bool)
      modifies db
      ensures db.Rows() == Guarded(fence, ms, old(db.Rows()), Abandon(old(db.Rows()), t, a, worker, now, policy))
      ensures ok <==> Abandons(old(db.Rows()), t, a, worker) && Passes(fence, old(db.leader), ms)
    {
      hide RetryDelay;
      var tx := db.Rows();
      ok := Abandons(tx, t, a, worker) && Passes(fence, db.leader, ms);
      if !ok {
        return;
      }
      var number := tx.attempts[a].number;
      var run := tx.tasks[t].run;
      db.attempts := db.attempts[a := db.attempts[a].(
        status := AttemptStatus.Failed, finishedAt := Some(now), failureClass := "ASSIGNMENT_BUILD_FAILURE")];
      var task := db.tasks[t];
      if number >= policy.Normalized().maxAttempts {
        db.tasks := db.tasks[t := task.(
          status := TaskStatus.Quarantined, worker := None, current := None, finishedAt := Some(now),
          nextEligible := None)];
        if run in db.runs && db.runs[run].status == RunStatus.Running {
          db.runs := db.runs[run := db.runs[run].(status := RunStatus.Failed, finishedAt := Some(now))];
        }
      } else {
        db.tasks := db.tasks[t := task.(
          status := TaskStatus.Pending, worker := None, current := None,
          nextEligible := Some(now + RetryDelay(policy, number)))];
      }
    }

    /** The report of a worker: the answer is the verdict of the protocol, and only an accepted one changes rows. */
    method CompleteTaskAttempt(c: Caller, r: Report, classified: string, now: Time, wall: Time, ms: int)
      returns (out: Result<Outcome, StoreError>)
      modifies db
      ensures db.Rows() ==
          Guarded(fence, ms, old(db.Rows()), Complete(old(db.Rows()), c, r, ResultText(r), classified, now, wall))
      ensures out.Ok? ==> out.value == Judge(old(db.Rows()), c, r, ResultText(r), now)
      ensures out.Err? ==> !Passes(fence, old(db.leader), ms)
    {
      hide FinalStatus, ResultText;
      var digest := ResultText(r);
      if c.attempt !in db.attempts || db.attempts[c.attempt].task != c.task || c.task !in db.tasks
         || db.tasks[c.task].run !in db.runs {
        return Ok(Unknown);
      }
      var a, task := db.attempts[c.attempt], db.tasks[c.task];
      if a.worker != c.worker || a.boot != c.boot || a.token != c.token {
        return Ok(Outcome.Fenced);
      }
      if a.status == AttemptStatus.Canceled || a.status == Expired {
        return Ok(Outcome.Fenced);
      }
      if a.status == AttemptStatus.Succeeded || a.status == AttemptStatus.Failed {
        return Ok(if a.digest == digest then AlreadyAccepted(task.status) else Conflict);
      }
      if task.current != Some(c.attempt) || a.leaseDeadline <= now
         || task.status != TaskStatus.Running || db.runs[task.run].status != RunStatus.Running {
        return Ok(Outcome.Fenced);
      }
      var stored := db.artifacts;
      if r.strict && r.status == "SUCCEEDED" {
        if r.counters.bytesWritten > 0 && r.records == [] {
          return Ok(Rejected);
        }
        var ok;
        stored, ok := InsertArtifacts(db.artifacts, c, r.records, task.run, a.number);
        if !ok {
          return Ok(Rejected);
        }
      }
      var final := FinalStatus(r.status);
      if final.None? {
        return Ok(Rejected);
      }
      if !Passes(fence, db.leader, ms) {
        return Err(StaleMaster);
      }
      db.artifacts := stored;
      db.attempts := db.attempts[c.attempt := a.(
        status := AttemptResult(final.value), finishedAt := Some(wall),
        failureClass := FailureClassOf(r, classified), digest := digest)];
      db.tasks := db.tasks[c.task := task.(
        status := final.value, objects := r.objects, boundary := r.boundary, counters := r.counters,
        finishedAt := Some(wall), current := None)];
      return Ok(Accepted(final.value));
    }

    method CancelActiveAttempts(run: Id, wall: Time, ms: int) returns (ok: bool)
      modifies db
      ensures db.Rows() ==
          Guarded(fence, ms, old(db.Rows()), ControlPlane.CancelActiveAttempts(old(db.Rows()), run, wall))
    {
      ok := Passes(fence, db.leader, ms);
      if ok {
        db.attempts := CancelAttemptsOf(db.Rows(), run, wall);
      }
    }

    // ----- admission -----

    method SetMaxActiveRuns(limit: int)
      modifies this`maxActiveRuns
      ensures maxActiveRuns == limit
    {
      maxActiveRuns := limit;
    }

    method StartRunWithTasks(run: Id, rows: map<Id, int>, ms: int) returns (admitted: bool)
      modifies db
      ensures db.Rows() == Guarded(fence, ms, old(db.Rows()), StartRun(old(db.Rows()), run, rows, maxActiveRuns))
      ensures admitted <==> run in db.runs && db.runs != old(db.runs)
    {
      hide MayInsertTasks, ActiveRuns;
      if rows == map[] || !MayInsertTasks(db.Rows(), run, rows) || !Passes(fence, db.leader, ms) {
        return false;
      }
      db.tasks := InsertTasks(db.Rows(), run, rows).tasks;
      if maxActiveRuns > 0 && |ActiveRuns(db.Rows())| >= maxActiveRuns {
        return false;
      }
      if run !in db.runs || db.runs[run].status != RunStatus.Planning {
        return false;
      }
      assert db.runs[run].status == RunStatus.Planning;
      db.runs := db.runs[run := db.runs[run].(status := RunStatus.Running, finishedAt := None)];
      assert db.runs[run].status == RunStatus.Running;
      return true;
    }

    /** The read-only pre-check, the query with its limit, and the loop over the waiting ids. */
    method AdmitPendingRuns(ms: int) returns (ghost chosen: set<Id>, admitted: nat)
      modifies db
      ensures if maxActiveRuns <= 0 then chosen == {} else OldestWaiting(old(db.Rows()), chosen, maxActiveRuns)
      ensures db.Rows() == Guarded(fence, ms, old(db.Rows()), AdmitAll(old(db.Rows()), chosen))
      ensures Passes(fence, old(db.leader), ms) ==> admitted == |chosen|
    {
      hide OldestWaiting, ActiveRuns, WaitingRuns;
      chosen, admitted := {}, 0;
      var start := db.Rows();
      NothingAdmitted(start);
      if maxActiveRuns <= 0 {
        return;
      }
      var active := |ActiveRuns(start)|;
      if active >= maxActiveRuns || WaitingRuns(start) == {} {
        NothingWaits(start, maxActiveRuns);
        return;
      }
      var ids := SelectWaiting(start, maxActiveRuns - active);
      chosen := First(ids, |ids|);
      ChosenAreOldest(start, ids, maxActiveRuns);
      if !Passes(fence, db.leader, ms) {
        return;
      }
      for i := 0 to |ids|
        invariant db.Rows() == AdmitAll(start, First(ids, i))
        invariant admitted == i
      {
        IdIsWaiting(start, ids, i);
        if db.runs[ids[i]].status == RunStatus.Planning {
          db.runs := db.runs[ids[i] := db.runs[ids[i]].(status := RunStatus.Running, finishedAt := None)];
          admitted := admitted + 1;
        }
        AdmitOneMore(start, ids, i);
      }
      DistinctSize(ids, |ids|);
    }
  }
}
