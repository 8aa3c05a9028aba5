/**
 What each transaction does, said of the columns of the rows: when it takes
 effect, which rows it leaves, and that nothing happens otherwise.
 */
module ControlEffects {
  import opened Prelude
  import opened ControlPlane
  import opened ControlInvariant
  import opened ControlRuns
  import opened ControlTheorems
  import Trimming

  // ----- expiry -----

  /** An expiry pass spares every live lease: neither the attempt nor its task changes. */
  lemma LiveLeaseIsSpared(db: Db, now: Time, p: Policy, a: Id)
    requires Inv(db) && a in db.attempts && db.attempts[a].status == Active && db.attempts[a].leaseDeadline > now
    ensures var db' := Expire(db, now, p);
            var t := db.attempts[a].task;
            && a in db'.attempts
            && db'.attempts[a] == db.attempts[a]
            && t in db.tasks
            && t in db'.tasks
            && db'.tasks[t] == db.tasks[t]
  {
    hide AfterLoss, LosesRun, FailRun;
    assert AttemptOk(db, a);
    assert a !in ExpirableAttempts(db, now);
  }

  /** It ends every lapsed attempt that is current in a RUNNING task of a RUNNING run. */
  lemma LapsedLeaseExpires(db: Db, now: Time, p: Policy, a: Id)
    requires Inv(db) && a in db.attempts && db.attempts[a].status == Active && db.attempts[a].leaseDeadline <= now
    requires var t := db.attempts[a].task;
             && t in db.tasks
             && db.tasks[t].status == TaskStatus.Running
             && db.tasks[t].current == Some(a)
             && db.tasks[t].run in db.runs
             && db.runs[db.tasks[t].run].status == RunStatus.Running
    ensures var db' := Expire(db, now, p);
            && a in db'.attempts
            && db'.attempts[a] ==
                 db.attempts[a].(status := Expired, finishedAt := Some(now), failureClass := "LEASE_EXPIRED")
            && db'.tasks[db.attempts[a].task].status != TaskStatus.Running
  {
    hide RetryDelay, LosesRun, FailRun;
    assert a in ExpirableAttempts(db, now);
  }

  /** And it touches nothing else: attempts that are over, and tasks without a lapsed attempt. */
  lemma ExpiryTouchesLapsedOnly(db: Db, now: Time, p: Policy)
    requires Inv(db)
    ensures var db' := Expire(db, now, p);
            && db'.attempts.Keys == db.attempts.Keys
            && db'.tasks.Keys == db.tasks.Keys
            && (forall a | a in db.attempts &&
                (db.attempts[a].status != Active || db.attempts[a].leaseDeadline > now) ::
                  db'.attempts[a] == db.attempts[a])
            && (forall a | a in db.attempts && db.tasks[db.attempts[a].task].run in db.runs
                           && db.runs[db.tasks[db.attempts[a].task].run].status != RunStatus.Running ::
                  && db'.attempts[a] == db.attempts[a]
                  && db'.tasks[db.attempts[a].task] == db.tasks[db.attempts[a].task])
            && (forall t | t in db.tasks && db.tasks[t].status != TaskStatus.Running :: db'.tasks[t] == db.tasks[t])
            && db'.artifacts == db.artifacts
            && db'.leader == db.leader
  {
    hide AfterLoss, LosesRun, FailRun;
    assert forall t | t in db.tasks :: TaskOk(db, t);
    assert forall a | a in db.attempts :: AttemptOk(db, a);
  }

  /** A worker that holds its lease at `now` still holds it after an expiry pass at `now`. */
  lemma HolderSurvivesExpiry(db: Db, c: Caller, now: Time, p: Policy)
    requires Inv(db) && Holds(db, c, now)
    ensures Holds(Expire(db, now, p), c, now)
  {
    hide Expire;
    LiveLeaseIsSpared(db, now, p, c.attempt);
  }

  // ----- leadership -----

  /** A live leader is not deposed. */
  lemma LiveLeaderStays(db: Db, instance: string, lease: int, ms: int)
    requires db.leader.active && db.leader.deadline > ms
    ensures Acquire(db, instance, lease, ms) == db
  {
  }

  /** A released or lapsed leadership goes to whoever asks, under the next epoch. */
  lemma FreeLeadershipIsTaken(db: Db, instance: string, lease: int, ms: int)
    requires !db.leader.active || db.leader.deadline <= ms
    requires Trimming.TrimSpace(instance) != "" && lease > 0
    ensures Acquire(db, instance, lease, ms)
         == db.(leader := Leadership(instance, db.leader.epoch + 1, true, ms + Millis(lease)))
    ensures lease >= 1_000_000 ==> Leads(Acquire(db, instance, lease, ms).leader, instance, db.leader.epoch + 1, ms)
  {
  }

  lemma BlankCannotLead(db: Db, instance: string, lease: int, ms: int)
    requires Trimming.TrimSpace(instance) == "" || lease <= 0
    ensures Acquire(db, instance, lease, ms) == db
  {
  }

  /** The clock reading of a step, if it takes one. */
  function MsOf(e: Event): Option<int> {
    match e
    case Write(_, _, ms, _) => Some(ms)
    case AcquireLead(_, _, ms) => Some(ms)
    case RenewLead(_, _, _, ms) => Some(ms)
    case ReleaseLead(_, _) => None
  }

  /** Readings from `start` on and before `deadline`, one lease duration, and no release by the leader. */
  predicate Undisturbed(e: Event, l: Leadership, start: int, deadline: int, lease: int) {
    && (MsOf(e).Some? ==> start <= MsOf(e).value < deadline)
    && (e.RenewLead? ==> e.lease == lease)
    && !(e.ReleaseLead? && e.instance == l.instance && e.epoch == l.epoch)
  }

  predicate StillLeads(l: Leadership, l': Leadership) {
    l'.active && l'.instance == l.instance && l'.epoch == l.epoch && l'.deadline >= l.deadline
  }

  lemma ExecKeepsLeader(db: Db, e: Event, l: Leadership, start: int, lease: int)
    requires StillLeads(l, db.leader) && Undisturbed(e, l, start, l.deadline, lease)
    requires l.deadline <= start + Millis(lease)
    ensures StillLeads(l, Exec(db, e).leader)
  {
    hide Apply;
    if e.Write? {
      LeaderUntouched(db, e.op);
    }
  }

  lemma LeaderUntouched(db: Db, op: Op)
    ensures Apply(db, op).leader == db.leader
  {
  }

  /** Owner and epoch stay the same until the recorded deadline, or a release by the owner. */
  lemma {:induction false} LeaderHoldsUntilDeadline(db: Db, es: seq<Event>, l: Leadership, start: int, lease: int)
    requires StillLeads(l, db.leader) && l.deadline <= start + Millis(lease)
    requires forall i | 0 <= i < |es| :: Undisturbed(es[i], l, start, l.deadline, lease)
    ensures StillLeads(l, Execute(db, es).leader)
    decreases |es|
  {
    hide Exec, Undisturbed, StillLeads;
    if es != [] {
      ExecKeepsLeader(db, es[0], l, start, lease);
      assert forall i | 0 <= i < |es[1..]| :: es[1..][i] == es[i + 1];
      LeaderHoldsUntilDeadline(Exec(db, es[0]), es[1..], l, start, lease);
    }
  }

  /** Renewal and release take effect exactly for the owner; renewal only while the lease lives. */
  lemma LeaderCalls(db: Db, instance: string, epoch: nat, lease: int, ms: int)
    ensures var l := db.leader;
            RenewLeadership(db, instance, epoch, lease, ms).leader
            == if l.active && l.instance == instance && l.epoch == epoch && l.deadline > ms
               then Leadership(instance, epoch, true, ms + Millis(lease)) else l
    ensures var l := db.leader;
            Release(db, instance, epoch).leader
            == if l.active && l.instance == instance && l.epoch == epoch
                then Leadership(instance, epoch, false, 0) else l
  {
  }

  // ----- credentials -----

  /** The caller does not match the attempt row it names. */
  predicate Mismatched(db: Db, c: Caller) {
    c.attempt in db.attempts ==>
      var x := db.attempts[c.attempt];
      x.task != c.task || x.token != c.token || x.worker != c.worker || x.boot != c.boot
  }

  /** A call with a wrong task, token, worker or boot id changes nothing. */
  lemma WrongCredentialsChangeNothing(db: Db, c: Caller, now: Time, d: int, k: Counters, r: Report, digest: string,
                                      classified: string, wall: Time)
    requires Mismatched(db, c)
    ensures Renew(db, c, now, d) == db
    ensures RecordProgress(db, c, k, now) == db
    ensures Complete(db, c, r, digest, classified, now, wall) == db
  {
  }

  /** A live lease is renewed for the asked duration, 30 s by default, and nothing else changes. */
  lemma RenewalEffect(db: Db, c: Caller, now: Time, d: int)
    requires !Mismatched(db, c) && c.attempt in db.attempts && c.task in db.tasks
    ensures var x := db.attempts[c.attempt];
            Renew(db, c, now, d)
            == if && x.status == Active
                  && x.leaseDeadline > now
                  && db.tasks[c.task].status == TaskStatus.Running
                  && db.tasks[c.task].current == Some(c.attempt)
               then db.(attempts := db.attempts[c.attempt :=
                      x.(leaseDeadline := now + (if d <= 0 then 30_000_000_000 else d), lastRenewed := now)])
               else db
  {
  }

  /** The same condition for progress, which sets the counters of the task. */
  lemma ProgressEffect(db: Db, c: Caller, k: Counters, now: Time)
    requires !Mismatched(db, c) && c.attempt in db.attempts && c.task in db.tasks
    ensures var x := db.attempts[c.attempt];
            RecordProgress(db, c, k, now)
            == if && x.status == Active
                  && x.leaseDeadline > now
                  && db.tasks[c.task].status == TaskStatus.Running
                  && db.tasks[c.task].current == Some(c.attempt)
               then db.(tasks := db.tasks[c.task := db.tasks[c.task].(counters := k)])
               else db
  {
  }

  /** Abandonment takes effect exactly for the worker's own ACTIVE current attempt. */
  lemma AbandonmentIff(db: Db, t: Id, a: Id, worker: string, now: Time, p: Policy)
    ensures Abandon(db, t, a, worker, now, p) != db <==>
            && a in db.attempts
            && db.attempts[a].task == t
            && db.attempts[a].worker == worker
            && db.attempts[a].status == Active
            && t in db.tasks
            && db.tasks[t].status == TaskStatus.Running
            && db.tasks[t].current == Some(a)
  {
    hide AfterLoss, FailRun;
    if Abandons(db, t, a, worker) {
      var db' := Abandon(db, t, a, worker, now, p);
      assert db'.attempts[a].status == AttemptStatus.Failed;
    }
  }

  // ----- assignment and loss -----

  /**
   The rows after an assignment. The task keeps its first start, counts the
   attempt and loses its waiting time; the attempt is leased for the duration, 30 s
   by default, under the epoch of the leader.
   */
  lemma AssignmentEffect(db: Db, t: Id, who: Assignee, now: Time, p: Policy)
    requires Assigns(db, t, who)
    ensures var db' := Assign(db, Some(t), who, now, p);
            var was, task, a := db.tasks[t], db'.tasks[t], db'.attempts[who.id];
            && task.status == TaskStatus.Running
            && task.worker == Some(who.worker)
            && task.current == Some(who.id)
            && task.attemptCount == was.attemptCount + 1
            && task.nextEligible.None?
            && (task.startedAt == if was.startedAt.Some? then was.startedAt else Some(now))
            && task.run == was.run && task.index == was.index && task.finishedAt == was.finishedAt
            && task.counters == was.counters && task.objects == was.objects && task.boundary == was.boundary
            && a.task == t && a.number == was.attemptCount + 1
            && a.worker == who.worker && a.boot == who.boot && a.token == who.token
            && a.status == Active
            && a.assignedAt == now && a.lastRenewed == now
            && a.leaseDeadline == now + (if p.duration > 0 then p.duration else 30_000_000_000)
            && a.finishedAt.None? && a.failureClass == "" && a.digest == ""
            && (a.epoch == if db.leader.active then Some(db.leader.epoch) else None)
            && db'.leader == db.leader
            && db'.artifacts == db.artifacts
  {
  }

  /** A task that lost its attempt: waiting for the next one, or quarantined after the last, 3 by default. */
  predicate LostAttempt(was: Task, task: Task, now: Time, p: Policy) {
    && task.worker.None?
    && task.current.None?
    && task.attemptCount == was.attemptCount
    && task.startedAt == was.startedAt
    && task.counters == was.counters && task.objects == was.objects && task.boundary == was.boundary
    && if was.attemptCount < (if p.maxAttempts > 0 then p.maxAttempts else 3) then
         && task.status == TaskStatus.Pending
         && task.nextEligible == Some(now + RetryDelay(p, was.attemptCount))
         && task.finishedAt == was.finishedAt
       else
         && task.status == TaskStatus.Quarantined
         && task.nextEligible.None?
         && task.finishedAt == Some(now)
  }

  /** What expiry and abandonment do to the task. */
  lemma LossEffect(db: Db, a: Id, worker: string, now: Time, p: Policy)
    requires Inv(db) && a in db.attempts && db.attempts[a].status == Active
    requires var t := db.attempts[a].task;
             && db.tasks[t].status == TaskStatus.Running
             && db.tasks[t].current == Some(a)
             && db.tasks[t].run in db.runs
    ensures var t := db.attempts[a].task;
            db.runs[db.tasks[t].run].status == RunStatus.Running && db.attempts[a].leaseDeadline <= now ==>
              LostAttempt(db.tasks[t], Expire(db, now, p).tasks[t], now, p)
    ensures var t := db.attempts[a].task;
            db.attempts[a].worker == worker ==>
              var db' := Abandon(db, t, a, worker, now, p);
              && LostAttempt(db.tasks[t], db'.tasks[t], now, p)
              && db'.attempts[a] == db.attempts[a].(status := AttemptStatus.Failed, finishedAt := Some(now),
                                                    failureClass := "ASSIGNMENT_BUILD_FAILURE")
  {
    hide RetryDelay, LosesRun, FailRun;
    var t := db.attempts[a].task;
    assert TaskOk(db, t);
    assert db.runs[db.tasks[t].run].status == RunStatus.Running && db.attempts[a].leaseDeadline <= now ==>
        a in ExpirableAttempts(db, now);
  }

  // ----- reports -----

  /** The objects and file indices of the records are new and different from one another, and name this attempt. */
  predicate Insertable(present: set<Artifact>, attempt: Id, rs: seq<Record>, run: Id, number: nat) {
    && (forall i | 0 <= i < |rs| :: rs[i].run == run && rs[i].attemptNumber == number)
    && (forall i, x | 0 <= i < |rs| && x in present ::
          x.objectKey != rs[i].objectKey && (x.attempt == attempt ==> x.fileIndex != rs[i].fileIndex))
    && (forall i, j | 0 <= i < j < |rs| :: rs[i].objectKey != rs[j].objectKey && rs[i].fileIndex != rs[j].fileIndex)
  }

  lemma {:induction false} InsertableIff(present: set<Artifact>, c: Caller, rs: seq<Record>, run: Id, number: nat)
    ensures MayInsertAll(present, c, rs, run, number) <==> Insertable(present, c.attempt, rs, run, number)
    decreases |rs|
  {
    if rs != [] {
      var first, rest := Artifact(c.task, c.attempt, rs[0].fileIndex, rs[0].objectKey), rs[1..];
      InsertableIff(present + {first}, c, rest, run, number);
      InsertableCons(present, c, rs, run, number, first);
    }
  }

  lemma InsertableCons(present: set<Artifact>, c: Caller, rs: seq<Record>, run: Id, number: nat, first: Artifact)
    requires rs != [] && first == Artifact(c.task, c.attempt, rs[0].fileIndex, rs[0].objectKey)
    ensures Insertable(present, c.attempt, rs, run, number) <==>
            MayInsertArtifact(present, c, rs[0], run, number)
            && Insertable(present + {first}, c.attempt, rs[1..], run, number)
  {
    var rest := rs[1..];
    assert forall x | x in present :: x in present + {first};
    assert forall i | 0 < i < |rs| :: rs[i] == rest[i - 1];
    assert forall i | 0 <= i < |rest| :: rest[i] == rs[i + 1];
    assert first in present + {first};
    assert Insertable(present + {first}, c.attempt, rest, run, number) ==>
        forall j | 0 < j < |rs| :: rs[0].objectKey != rs[j].objectKey && rs[0].fileIndex != rs[j].fileIndex;
  }

  /** The attempt may still report: its lease lives, and it is current in a RUNNING task of a RUNNING run. */
  predicate MayReport(db: Db, c: Caller, now: Time) {
    && c.attempt in db.attempts
    && c.task in db.tasks
    && db.tasks[c.task].run in db.runs
    && !Mismatched(db, c)
    && db.attempts[c.attempt].status == Active
    && db.attempts[c.attempt].leaseDeadline > now
    && db.tasks[c.task].current == Some(c.attempt)
    && db.tasks[c.task].status == TaskStatus.Running
    && db.runs[db.tasks[c.task].run].status == RunStatus.Running
  }

  /** The report names a final status, and its records can be stored. */
  predicate ReportOk(db: Db, c: Caller, r: Report)
    requires c.attempt in db.attempts && c.task in db.tasks
  {
    && (r.status == "SUCCEEDED" || r.status == "FAILED" || r.status == "CANCELED")
    && (r.strict && r.status == "SUCCEEDED" ==>
          && (r.counters.bytesWritten > 0 ==> r.records != [])
          && Insertable(db.artifacts, c.attempt, r.records, db.tasks[c.task].run, db.attempts[c.attempt].number))
  }

  /** A report is accepted if and only if the attempt may still report and the report is in order. */
  lemma AcceptedIff(db: Db, c: Caller, r: Report, digest: string, now: Time)
    ensures Judge(db, c, r, digest, now).Accepted? <==> MayReport(db, c, now) && ReportOk(db, c, r)
  {
    hide MayInsertAll, Insertable;
    if c.attempt in db.attempts && c.task in db.tasks {
      InsertableIff(db.artifacts, c, r.records, db.tasks[c.task].run, db.attempts[c.attempt].number);
    }
  }

  /** Retries are answered by the digest, and the ended or expired are fenced. */
  lemma AnswersIff(db: Db, c: Caller, r: Report, digest: string, now: Time)
    requires c.attempt in db.attempts && c.task in db.tasks && db.tasks[c.task].run in db.runs && !Mismatched(db, c)
    ensures var s := db.attempts[c.attempt].status;
            var answer := Judge(db, c, r, digest, now);
            var over := s == AttemptStatus.Succeeded || s == AttemptStatus.Failed;
            && (answer == Conflict <==> over && db.attempts[c.attempt].digest != digest)
            && (answer.AlreadyAccepted? <==> over && db.attempts[c.attempt].digest == digest)
            && (answer == Fenced <==> !over && !MayReport(db, c, now))
  {
    hide MayInsertAll;
  }

  /** What an accepted report leaves behind, by the status it reports. */
  lemma AcceptedRows(db: Db, c: Caller, r: Report, digest: string, k: string, now: Time, wall: Time)
    requires Judge(db, c, r, digest, now).Accepted?
    ensures var db' := Complete(db, c, r, digest, k, now, wall);
            var t, a := db'.tasks[c.task], db'.attempts[c.attempt];
            && (r.status == "SUCCEEDED" ==> t.status == TaskStatus.Succeeded && a.status == AttemptStatus.Succeeded)
            && (r.status == "FAILED" ==> t.status == TaskStatus.Failed && a.status == AttemptStatus.Failed)
            && (r.status == "CANCELED" ==> t.status == TaskStatus.Canceled && a.status == AttemptStatus.Canceled)
            && t.counters == r.counters
            && t.objects == r.objects
            && t.boundary == r.boundary
            && t.current.None?
            && t.finishedAt == Some(wall)
            && a.finishedAt == Some(wall)
            && a.digest == digest
            && (a.failureClass != "" <==> r.status == "FAILED")
            && (r.status == "FAILED" && r.failureClass != "" ==> a.failureClass == r.failureClass)
            && (r.status == "FAILED" && r.failureClass == "" ==>
                  a.failureClass == if r.message.Some? && k != "" then k else "PERMANENT_TASK_FAILURE")
            && db'.runs == db.runs
            && db'.artifacts == db.artifacts + if r.strict && r.status == "SUCCEEDED"
                then ArtifactsOf(c, r.records) else {}
  {
    hide MayInsertAll, ArtifactsOf;
  }

  // ----- polls -----

  /** How many tasks of a run are RUNNING. */
  function Busy(db: Db, run: Id): nat {
    |set t | t in db.tasks.Keys && db.tasks[t].status == TaskStatus.Running && db.tasks[t].run == run|
  }

  /** How many tasks are RUNNING in all. */
  function BusyInAll(db: Db): nat { |set t | t in db.tasks.Keys && db.tasks[t].status == TaskStatus.Running| }

  lemma BusyIs(db: Db, run: Id)
    ensures Busy(db, run) == |RunningTasksOf(db, run)| && BusyInAll(db) == |RunningTasks(db)|
  {
    var busy := set t | t in db.tasks.Keys && db.tasks[t].status == TaskStatus.Running && db.tasks[t].run == run;
    forall t
      ensures t in busy <==> t in RunningTasksOf(db, run)
    {
      assert t in RunningTasks(db) <==> t in db.tasks && db.tasks[t].status == TaskStatus.Running;
    }
    assert busy == RunningTasksOf(db, run);
    var inAll := set t | t in db.tasks.Keys && db.tasks[t].status == TaskStatus.Running;
    assert inAll == RunningTasks(db);
  }

  /** A PENDING task of a RUNNING run that is due, has attempts left, fits both caps and is in the worker's pool. */
  predicate Due(db: Db, t: Id, now: Time, maxAttempts: int, maxActive: int, pool: string) {
    && t in db.tasks
    && db.tasks[t].status == TaskStatus.Pending
    && db.tasks[t].run in db.runs
    && db.runs[db.tasks[t].run].status == RunStatus.Running
    && (db.tasks[t].nextEligible.Some? ==> db.tasks[t].nextEligible.value <= now)
    && db.tasks[t].attemptCount < (if maxAttempts <= 0 then 3 else maxAttempts)
    && (maxActive > 0 ==> BusyInAll(db) < maxActive)
    && var run := db.runs[db.tasks[t].run];
    && (run.maxInFlight > 0 ==> Busy(db, db.tasks[t].run) < run.maxInFlight)
    && (pool != "" ==> pool == run.pool || (run.pool == "" && pool == "default"))
  }

  lemma DueIff(db: Db, t: Id, now: Time, p: Policy, pool: string)
    ensures Eligible(db, t, now, p, pool) <==> Due(db, t, now, p.maxAttempts, p.maxActiveTasks, pool)
  {
    hide Busy, BusyInAll, RunningTasks, RunningTasksOf;
    if t in db.tasks {
      BusyIs(db, db.tasks[t].run);
    }
  }

  /** The place of a task in the queue: its run's running tasks, the run's start, the run and the task index. */
  predicate NotLater(db: Db, t: Id, u: Id)
    requires t in db.tasks && db.tasks[t].run in db.runs && u in db.tasks && db.tasks[u].run in db.runs
  {
    var x, y := db.tasks[t], db.tasks[u];
    if Busy(db, x.run) != Busy(db, y.run) then Busy(db, x.run) < Busy(db, y.run)
    else if db.runs[x.run].startedAt != db.runs[y.run].startedAt
        then db.runs[x.run].startedAt < db.runs[y.run].startedAt
    else if x.run != y.run then x.run < y.run
    else x.index <= y.index
  }

  /** A poll takes a task that is due and comes first among those that are; it takes none only when none is due. */
  lemma PollTakesFirstDue(db: Db, chosen: Option<Id>, now: Time, p: Policy, pool: string)
    requires FirstEligible(db, chosen, now, p, pool)
    ensures chosen.None? ==> forall u :: !Due(db, u, now, p.maxAttempts, p.maxActiveTasks, pool)
    ensures chosen.Some? ==>
              && Due(db, chosen.value, now, p.maxAttempts, p.maxActiveTasks, pool)
              && forall u | Due(db, u, now, p.maxAttempts, p.maxActiveTasks, pool) :: NotLater(db, chosen.value, u)
  {
    hide Busy, BusyInAll, RunningTasks, RunningTasksOf, Eligible;
    forall u
      ensures Eligible(db, u, now, p, pool) <==> Due(db, u, now, p.maxAttempts, p.maxActiveTasks, pool)
    {
      DueIff(db, u, now, p, pool);
    }
    if chosen.Some? {
      forall u | Due(db, u, now, p.maxAttempts, p.maxActiveTasks, pool)
        ensures NotLater(db, chosen.value, u)
      {
        BusyIs(db, db.tasks[chosen.value].run);
        BusyIs(db, db.tasks[u].run);
        assert !Before(db, u, chosen.value);
      }
    }
  }

  // ----- admission -----

  /** A planned run with a task to do. */
  predicate Waits(db: Db, r: Id) {
    && r in db.runs
    && db.runs[r].status == RunStatus.Planning
    && exists t :: t in db.tasks && db.tasks[t].run == r && db.tasks[t].status == TaskStatus.Pending
  }

  /** RUNNING and COMMITTING runs. */
  function ActiveCount(db: Db): nat {
    |set r | r in db.runs.Keys && (db.runs[r].status == RunStatus.Running || db.runs[r].status == RunStatus.Committing)|
  }

  lemma ActiveCountIs(db: Db)
    ensures ActiveCount(db) == |ActiveRuns(db)|
  {
    var active := set r | r in db.runs.Keys
                        && (db.runs[r].status == RunStatus.Running || db.runs[r].status == RunStatus.Committing);
    forall r
      ensures r in active <==> r in ActiveRuns(db)
    {
      assert r in db.runs ==> (IsActiveRun(db.runs[r].status) <==> r in ActiveRuns(db));
    }
    assert active == ActiveRuns(db);
  }

  /** Admission makes exactly the chosen runs RUNNING: waiting ones, the oldest, and as many as fit. */
  lemma AdmissionEffect(db: Db, chosen: set<Id>, limit: int)
    requires limit > 0 && OldestWaiting(db, chosen, limit)
    ensures forall r | r in chosen :: Waits(db, r)
    ensures forall a, b | a in chosen && b !in chosen && Waits(db, b) ::
              db.runs[a].startedAt < db.runs[b].startedAt || (db.runs[a].startedAt == db.runs[b].startedAt && a < b)
    ensures forall b | Waits(db, b) && b !in chosen :: ActiveCount(db) + |chosen| >= limit
    ensures chosen != {} ==> ActiveCount(db) + |chosen| <= limit
    ensures var db' := AdmitAll(db, chosen);
            && db'.tasks == db.tasks
            && db'.attempts == db.attempts
            && db'.runs.Keys == db.runs.Keys
            && forall r | r in db.runs ::
                 db'.runs[r] == if r in chosen
                     then db.runs[r].(status := RunStatus.Running, finishedAt := None) else db.runs[r]
  {
    hide ActiveCount, ActiveRuns;
    ActiveCountIs(db);
    forall b | Waits(db, b) && b !in chosen
      ensures ActiveCount(db) + |chosen| >= limit
    {
      if |chosen| == |WaitingRuns(db)| {
        SameSizeSubset(chosen, WaitingRuns(db));
      }
    }
  }

  lemma SameSizeSubset(a: set<Id>, b: set<Id>)
    requires a <= b && |a| == |b|
    ensures a == b
  {
    assert b == a + (b - a);
    assert |b| == |a| + |b - a|;
  }

  /**
   Starting a run inserts its tasks as PENDING without attempts, and makes it RUNNING
   exactly if it was planned and there is room.
   */
  lemma StartEffect(db: Db, run: Id, rows: map<Id, int>, limit: int)
    requires rows != map[] && MayInsertTasks(db, run, rows)
    ensures var db' := StartRun(db, run, rows, limit);
            && db'.tasks.Keys == db.tasks.Keys + rows.Keys
            && (forall t | t in db.tasks :: db'.tasks[t] == db.tasks[t])
            && (forall t | t in rows ::
                  && db'.tasks[t].run == run
                  && db'.tasks[t].index == rows[t]
                  && db'.tasks[t].status == TaskStatus.Pending
                  && db'.tasks[t].attemptCount == 0
                  && db'.tasks[t].current.None?
                  && db'.tasks[t].nextEligible.None?)
            && db'.attempts == db.attempts
            && db'.runs == if db.runs[run].status == RunStatus.Planning && (limit > 0 ==> ActiveCount(db) < limit)
                           then db.runs[run := db.runs[run].(status := RunStatus.Running, finishedAt := None)]
                               else db.runs
  {
    hide ActiveCount, ActiveRuns;
    ActiveCountIs(db);
    SameRuns(db, InsertTasks(db, run, rows));
  }

  lemma SameRuns(db: Db, db': Db)
    requires db.runs == db'.runs
    ensures ActiveRuns(db) == ActiveRuns(db')
  {
  }

  // ----- the end of a run -----

  /** The row of a canceled task: ended now, with everything it did so far. */
  predicate CanceledTask(was: Task, task: Task, wall: Time) {
    && task.status == TaskStatus.Canceled
    && task.finishedAt == Some(wall)
    && (was.status == TaskStatus.Running ==> task.current.None?)
    && task.run == was.run && task.index == was.index
    && task.attemptCount == was.attemptCount
    && task.startedAt == was.startedAt
    && task.counters == was.counters && task.objects == was.objects && task.boundary == was.boundary
  }

  /**
   Cancelling an unfinished run cancels its unfinished tasks and ACTIVE attempts, and
   nothing of other runs changes.
   */
  lemma CancelEffect(db: Db, run: Id, wall: Time)
    requires Inv(db) && run in db.runs
    ensures var db' := CancelRun(db, run, wall);
            if db.runs[run].status == RunStatus.Planning || db.runs[run].status == RunStatus.Running then
              && db'.runs == db.runs[run := db.runs[run].(status := RunStatus.Canceled, finishedAt := Some(wall))]
              && (forall t | t in db.tasks && db.tasks[t].run == run && db.tasks[t].status.Finished() ::
                    db'.tasks[t] == db.tasks[t])
              && (forall t | t in db.tasks && db.tasks[t].run == run && !db.tasks[t].status.Finished() ::
                    CanceledTask(db.tasks[t], db'.tasks[t], wall))
              && (forall a | a in db.attempts && db.tasks[db.attempts[a].task].run == run ::
                    db'.attempts[a] ==
                    if db.attempts[a].status == Active
                    then db.attempts[a].(status := AttemptStatus.Canceled, finishedAt := Some(wall),
                                         failureClass := "CANCELED")
                    else db.attempts[a])
              && (forall t | t in db.tasks && db.tasks[t].run != run :: db'.tasks[t] == db.tasks[t])
              && (forall a | a in db.attempts && db.tasks[db.attempts[a].task].run != run ::
                    db'.attempts[a] == db.attempts[a])
            else db' == db
  {
  }

  /** A commit ends as it was decided, once, and only for a COMMITTING run. */
  lemma CommitEndEffect(db: Db, run: Id, published: bool, wall: Time)
    ensures var db' := FinishCommit(db, run, published, wall);
            if run in db.runs && db.runs[run].status == RunStatus.Committing then
              && db'.runs[run].status == (if published then RunStatus.Succeeded else RunStatus.Failed)
              && db'.runs[run].finishedAt == Some(wall)
              && db' == db.(runs := db.runs[run := db'.runs[run]])
              && (forall again: bool, later: Time :: FinishCommit(db', run, again, later) == db')
            else db' == db
  {
  }

  /** A new run is planned; an existing one is never overwritten. */
  lemma CreateEffect(db: Db, run: Id, startedAt: Time, maxInFlight: int, pool: string)
    ensures var db' := CreateRun(db, run, startedAt, maxInFlight, pool);
            && run in db'.runs
            && (forall r | r in db.runs :: r in db'.runs && db'.runs[r] == db.runs[r])
            && (run !in db.runs ==> db'.runs[run].status == RunStatus.Planning && db'.runs[run].startedAt == startedAt
                                    && db'.runs[run].maxInFlight == maxInFlight && db'.runs[run].pool == pool
                                    && db'.runs[run].finishedAt.None?)
            && db'.tasks == db.tasks
            && db'.attempts == db.attempts
  {
  }

  /** A task of the run. */
  predicate TaskOf(db: Db, run: Id, t: Id) { t in db.tasks && db.tasks[t].run == run }

  /** Some task of the run FAILED or is quarantined. */
  predicate Spoiled(db: Db, run: Id) {
    exists t | t in db.tasks :: TaskOf(db, run, t) && db.tasks[t].status in {TaskStatus.Failed, TaskStatus.Quarantined}
  }

  predicate AllSucceeded(db: Db, run: Id) {
    forall t | t in db.tasks && TaskOf(db, run, t) :: db.tasks[t].status == TaskStatus.Succeeded
  }

  lemma TasksOfIs(db: Db, run: Id)
    ensures forall t :: t in TasksOf(db, run) <==> TaskOf(db, run, t)
    ensures forall t | t in TasksOf(db, run) :: t in db.tasks
  {
  }

  /** A run fails with a failed or quarantined task, begins its commit when all tasks succeeded, and stays otherwise. */
  lemma FinalizeEffect(db: Db, run: Id, wall: Time, t: Id)
    requires run in db.runs && db.runs[run].status == RunStatus.Running && TaskOf(db, run, t)
    ensures var db' := FinalizeRun(db, run, wall);
            && db'.runs[run].status ==
                 (if Spoiled(db, run) then RunStatus.Failed
                  else if AllSucceeded(db, run) then RunStatus.Committing else RunStatus.Running)
            && (!Spoiled(db, run) ==> db'.tasks == db.tasks)
    ensures Spoiled(db, run) ==>
        forall u | u in db.tasks :: PendingIsCanceled(db, FinalizeRun(db, run, wall), run, u, wall)
  {
    hide TaskOf, TasksOf, CancelTask;
    TasksOfIs(db, run);
    assert t in TasksOf(db, run);
    var bad := exists u | u in TasksOf(db, run) ::
        db.tasks[u].status == TaskStatus.Failed || db.tasks[u].status == TaskStatus.Quarantined;
    assert Spoiled(db, run) <==> bad;
    var done := forall u | u in TasksOf(db, run) :: db.tasks[u].status == TaskStatus.Succeeded;
    assert AllSucceeded(db, run) <==> done;
    if Spoiled(db, run) {
      forall u | u in db.tasks
        ensures PendingIsCanceled(db, FinalizeRun(db, run, wall), run, u, wall)
      {
        CanceledRow(db.tasks[u], wall);
      }
    }
  }

  /** The run's PENDING tasks are canceled, the others stay as they are. */
  predicate PendingIsCanceled(db: Db, db': Db, run: Id, u: Id, wall: Time)
    requires u in db.tasks
  {
    && u in db'.tasks
    && if db.tasks[u].run == run && db.tasks[u].status == TaskStatus.Pending
       then CanceledTask(db.tasks[u], db'.tasks[u], wall) else db'.tasks[u] == db.tasks[u]
  }

  lemma CanceledRow(task: Task, wall: Time)
    ensures CanceledTask(task, CancelTask(task, wall), wall)
  {
  }
}
