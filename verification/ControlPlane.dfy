/**
 The durable control plane: runs, tasks, task attempts, accepted artifacts and
 the leadership row. Each transaction is one function from a database to a
 database; a transaction that is fenced, fails a constraint or selects nothing
 returns the database it was given.

 Identifiers are integers (their order stands for the order of the TEXT keys)
 and instants are integers. `now` arguments are the clock reading the caller
 passes; `wall` is the reading the transaction takes itself.
 */
module ControlPlane {
  import opened Prelude
  import Trimming

  type Id = int
  type Time = int

  datatype RunStatus = Planning | Running | Committing | Succeeded | Failed | Canceled

  datatype TaskStatus = Pending | Running | Succeeded | Failed | Canceled | Quarantined
  {
    predicate Finished() { !Pending? && !Running? }
  }

  datatype AttemptStatus = Active | Succeeded | Failed | Expired | Canceled

  datatype Run = Run(status: RunStatus, startedAt: Time, finishedAt: Option<Time>, maxInFlight: int, pool: string)

  datatype Counters = Counters(rows: int, bytesRead: int, bytesWritten: int)

  datatype Task = Task(
    run: Id,
    index: int,
    status: TaskStatus,
    worker: Option<string>,
    current: Option<Id>,
    attemptCount: nat,
    nextEligible: Option<Time>,
    startedAt: Option<Time>,
    finishedAt: Option<Time>,
    counters: Counters,
    objects: string,
    boundary: string)

  datatype Attempt = Attempt(
    task: Id,
    number: nat,
    worker: string,
    boot: string,
    token: string,
    status: AttemptStatus,
    assignedAt: Time,
    leaseDeadline: Time,
    lastRenewed: Time,
    finishedAt: Option<Time>,
    failureClass: string,
    digest: string,
    epoch: Option<nat>)

  datatype Artifact = Artifact(task: Id, attempt: Id, fileIndex: int, objectKey: string)

  /** The one row of master_leadership. */
  datatype Leadership = Leadership(instance: string, epoch: nat, active: bool, deadline: int)

  datatype Db = Db(
    runs: map<Id, Run>,
    tasks: map<Id, Task>,
    attempts: map<Id, Attempt>,
    artifacts: set<Artifact>,
    leader: Leadership)

  // ----- lease policy -----

  const SECOND: int := 1_000_000_000

  datatype Policy = Policy(duration: int, maxAttempts: int, maxActiveTasks: int, backoffBase: int, backoffMax: int)
  {
    function Normalized(): (p: Policy)
      ensures p.duration > 0 && p.maxAttempts > 0 && p.backoffBase > 0 && p.backoffMax > 0
    {
      Policy(
        if duration <= 0 then 30 * SECOND else duration,
        if maxAttempts <= 0 then 3 else maxAttempts,
        maxActiveTasks,
        if backoffBase <= 0 then SECOND else backoffBase,
        if backoffMax <= 0 then 30 * SECOND else backoffMax)
    }
  }

  /** The delay after `steps` doublings of `d`, cut off at `cap`; durations are 64-bit. */
  function Doubled(d: int, cap: int, steps: nat): int
    decreases steps
  {
    if steps == 0 then d
    else
      var twice := Wrap64(d * 2);
      if twice >= cap then cap else Doubled(twice, cap, steps - 1)
  }

  function RetryDelay(p: Policy, attempt: nat): int {
    var n := p.Normalized();
    Doubled(n.backoffBase, n.backoffMax, if attempt == 0 then 0 else attempt - 1)
  }

  // ----- assignment -----

  const DEFAULT_POOL := "default"

  function RunningTasks(db: Db): set<Id> { set t | t in db.tasks && db.tasks[t].status == TaskStatus.Running }

  function RunningTasksOf(db: Db, run: Id): set<Id> { set t | t in RunningTasks(db) && db.tasks[t].run == run }

  predicate Eligible(db: Db, t: Id, now: Time, policy: Policy, pool: string) {
    && t in db.tasks
    && var task := db.tasks[t];
    && task.run in db.runs
    && var run := db.runs[task.run];
    && task.status == TaskStatus.Pending
    && run.status == RunStatus.Running
    && (task.nextEligible.None? || task.nextEligible.value <= now)
    && task.attemptCount < policy.Normalized().maxAttempts
    && (run.maxInFlight <= 0 || |RunningTasksOf(db, task.run)| < run.maxInFlight)
    && (policy.maxActiveTasks <= 0 || |RunningTasks(db)| < policy.maxActiveTasks)
    && (pool == "" || (if run.pool == "" then DEFAULT_POOL else run.pool) == pool)
  }

  /** Fewest running tasks first, then the oldest run, then the task order within it. */
  predicate Before(db: Db, a: Id, b: Id)
    requires a in db.tasks && db.tasks[a].run in db.runs
    requires b in db.tasks && db.tasks[b].run in db.runs
  {
    var x, y := db.tasks[a], db.tasks[b];
    var i, j := |RunningTasksOf(db, x.run)|, |RunningTasksOf(db, y.run)|;
    var p, q := db.runs[x.run].startedAt, db.runs[y.run].startedAt;
    i < j || (i == j && (p < q || (p == q && (x.run < y.run || (x.run == y.run && x.index < y.index)))))
  }

  /** `chosen` is the first row of the eligible tasks, or None when there is none. */
  ghost predicate FirstEligible(db: Db, chosen: Option<Id>, now: Time, policy: Policy, pool: string) {
    match chosen
    case None => forall t :: !Eligible(db, t, now, policy, pool)
    case Some(t) =>
      && Eligible(db, t, now, policy, pool)
      && forall u | Eligible(db, u, now, policy, pool) :: !Before(db, u, t)
  }

  /** Primary key and UNIQUE constraints of task_attempts, and one ACTIVE attempt per task. */
  predicate MayInsertAttempt(db: Db, id: Id, t: Id, number: nat, token: string) {
    && id !in db.attempts
    && forall a | a in db.attempts ::
         && db.attempts[a].token != token
         && (db.attempts[a].task == t ==> db.attempts[a].number != number && db.attempts[a].status != Active)
  }

  datatype Assignee = Assignee(id: Id, token: string, boot: string, worker: string)

  predicate Assigns(db: Db, t: Id, who: Assignee) {
    && t in db.tasks
    && db.tasks[t].status == TaskStatus.Pending
    && db.tasks[t].current.None?
    && MayInsertAttempt(db, who.id, t, db.tasks[t].attemptCount + 1, who.token)
  }

  function Assign(db: Db, chosen: Option<Id>, who: Assignee, now: Time, policy: Policy): Db {
    if chosen.None? || !Assigns(db, chosen.value, who) then db
    else
      var t := chosen.value;
      var task := db.tasks[t];
      var number := task.attemptCount + 1;
      db.(
        tasks := db.tasks[t := task.(
          status := TaskStatus.Running,
          worker := Some(who.worker),
          startedAt := if task.startedAt.None? then Some(now) else task.startedAt,
          current := Some(who.id),
          attemptCount := number,
          nextEligible := None)],
        attempts := db.attempts[who.id := Attempt(
          t, number, who.worker, who.boot, who.token, Active, now,
          now + policy.Normalized().duration, now, None, "", "",
          if db.leader.active then Some(db.leader.epoch) else None)])
  }

  // ----- calls made in the name of an attempt -----

  /** Who the worker says it is. */
  datatype Caller = Caller(boot: string, task: Id, attempt: Id, token: string, worker: string)

  /** The attempt row exists, belongs to the task and carries these credentials. */
  predicate Authentic(db: Db, c: Caller) {
    && c.attempt in db.attempts
    && var a := db.attempts[c.attempt];
    && a.task == c.task
    && a.token == c.token
    && a.worker == c.worker
    && a.boot == c.boot
  }

  predicate IsCurrent(db: Db, t: Id, a: Id) {
    t in db.tasks && db.tasks[t].status == TaskStatus.Running && db.tasks[t].current == Some(a)
  }

  /** A live lease: the guard shared by renewal and progress. */
  predicate Holds(db: Db, c: Caller, now: Time) {
    && Authentic(db, c)
    && db.attempts[c.attempt].status == Active
    && db.attempts[c.attempt].leaseDeadline > now
    && IsCurrent(db, c.task, c.attempt)
  }

  function Renew(db: Db, c: Caller, now: Time, duration: int): Db {
    if !Holds(db, c, now) then db
    else
      var d := if duration <= 0 then 30 * SECOND else duration;
      db.(attempts := db.attempts[c.attempt := db.attempts[c.attempt].(leaseDeadline := now + d, lastRenewed := now)])
  }

  function RecordProgress(db: Db, c: Caller, p: Counters, now: Time): Db {
    if !Holds(db, c, now) then db else db.(tasks := db.tasks[c.task := db.tasks[c.task].(counters := p)])
  }

  // ----- expiry and abandonment -----

  predicate Expirable(db: Db, a: Id, now: Time) {
    && a in db.attempts
    && var x := db.attempts[a];
    && x.status == Active
    && x.leaseDeadline <= now
    && IsCurrent(db, x.task, a)
    && db.tasks[x.task].run in db.runs
    && db.runs[db.tasks[x.task].run].status == RunStatus.Running
  }

  function Quarantine(task: Task, now: Time): Task {
    task.(status := TaskStatus.Quarantined, worker := None, current := None, finishedAt := Some(now),
        nextEligible := None)
  }

  function Requeue(task: Task, next: Time): Task {
    task.(status := TaskStatus.Pending, worker := None, current := None, nextEligible := Some(next))
  }

  /** The task after its attempt number `number` ended without a result. */
  function AfterLoss(task: Task, number: nat, now: Time, policy: Policy): Task {
    if number >= policy.Normalized().maxAttempts then Quarantine(task, now)
    else Requeue(task, now + RetryDelay(policy, number))
  }

  function FailRun(run: Run, now: Time): Run {
    if run.status == RunStatus.Running then run.(status := RunStatus.Failed, finishedAt := Some(now)) else run
  }

  /** All attempts in `lost` expire at once. */
  function ExpireSet(db: Db, lost: set<Id>, now: Time, policy: Policy): Db {
    db.(
      attempts := map a | a in db.attempts ::
        if a in lost then db.attempts[a].(status := Expired, finishedAt := Some(now), failureClass := "LEASE_EXPIRED")
        else db.attempts[a],
      tasks := map t | t in db.tasks ::
        if LosesAttempt(db, t, lost) then
          AfterLoss(db.tasks[t], db.attempts[db.tasks[t].current.value].number, now, policy)
        else db.tasks[t],
      runs := map r | r in db.runs ::
        if LosesRun(db, r, lost, policy) then FailRun(db.runs[r], now) else db.runs[r])
  }

  predicate LosesAttempt(db: Db, t: Id, lost: set<Id>) {
    && t in db.tasks
    && db.tasks[t].current.Some?
    && db.tasks[t].current.value in lost
    && db.tasks[t].current.value in db.attempts
    && db.attempts[db.tasks[t].current.value].task == t
  }

  /** Some task of the run has used up its attempts. */
  predicate LosesRun(db: Db, r: Id, lost: set<Id>, policy: Policy) {
    exists a :: a in lost && Exhausts(db, a, r, policy)
  }

  predicate Exhausts(db: Db, a: Id, r: Id, policy: Policy) {
    && a in db.attempts
    && db.attempts[a].task in db.tasks
    && db.tasks[db.attempts[a].task].run == r
    && db.attempts[a].number >= policy.Normalized().maxAttempts
  }

  function ExpirableAttempts(db: Db, now: Time): set<Id> { set a | a in db.attempts && Expirable(db, a, now) }

  function Expire(db: Db, now: Time, policy: Policy): Db { ExpireSet(db, ExpirableAttempts(db, now), now, policy) }

  predicate Abandons(db: Db, t: Id, a: Id, worker: string) {
    && a in db.attempts
    && db.attempts[a].task == t
    && db.attempts[a].worker == worker
    && db.attempts[a].status == Active
    && IsCurrent(db, t, a)
  }

  function Abandon(db: Db, t: Id, a: Id, worker: string, now: Time, policy: Policy): Db {
    if !Abandons(db, t, a, worker) then db
    else
      var number := db.attempts[a].number;
      var run := db.tasks[t].run;
      db.(
        attempts := db.attempts[a := db.attempts[a].(
          status := AttemptStatus.Failed, finishedAt := Some(now), failureClass := "ASSIGNMENT_BUILD_FAILURE")],
        tasks := db.tasks[t := AfterLoss(db.tasks[t], number, now, policy)],
        runs := if number >= policy.Normalized().maxAttempts && run in db.runs
                then db.runs[run := FailRun(db.runs[run], now)] else db.runs)
  }

  // ----- results -----

  /** A file the worker says it wrote; `valid` is the record's own well-formedness check. */
  datatype Record = Record(fileIndex: int, objectKey: string, run: Id, task: Id, attempt: Id,
      attemptNumber: int, valid: bool)

  datatype Report = Report(
    status: string,
    message: Option<string>,
    objects: string,
    counters: Counters,
    boundary: string,
    failureClass: string,
    strict: bool,
    records: seq<Record>)

  datatype Outcome =
    | Accepted(final: TaskStatus)
    | AlreadyAccepted(final: TaskStatus)
    | Unknown
    | Fenced
    | Conflict
    | Rejected

  function FinalStatus(status: string): Option<TaskStatus> {
    if status == "SUCCEEDED" then Some(TaskStatus.Succeeded)
    else if status == "FAILED" then Some(TaskStatus.Failed)
    else if status == "CANCELED" then Some(TaskStatus.Canceled)
    else None
  }

  function ArtifactsOf(c: Caller, rs: seq<Record>): set<Artifact> {
    set i | 0 <= i < |rs| :: Artifact(c.task, c.attempt, rs[i].fileIndex, rs[i].objectKey)
  }

  /** The record describes this run and attempt, and its row breaks no UNIQUE constraint. */
  predicate MayInsertArtifact(present: set<Artifact>, c: Caller, r: Record, run: Id, number: nat) {
    && r.run == run
    && r.attemptNumber == number
    && forall x | x in present :: x.objectKey != r.objectKey && (x.attempt == c.attempt ==> x.fileIndex != r.fileIndex)
  }

  /** Inserting the records one after the other. */
  predicate MayInsertAll(present: set<Artifact>, c: Caller, rs: seq<Record>, run: Id, number: nat)
    decreases |rs|
  {
    rs == [] ||
    (&& MayInsertArtifact(present, c, rs[0], run, number)
     && MayInsertAll(present + {Artifact(c.task, c.attempt, rs[0].fileIndex, rs[0].objectKey)}, c, rs[1..], run,
         number))
  }

  predicate StoresArtifacts(r: Report) { r.strict && r.status == "SUCCEEDED" }

  /** What the master answers to a report; `digest` is the digest of the report. */
  function Judge(db: Db, c: Caller, r: Report, digest: string, now: Time): Outcome {
    if c.attempt !in db.attempts || db.attempts[c.attempt].task != c.task || c.task !in db.tasks
       || db.tasks[c.task].run !in db.runs then Unknown
    else
      var a := db.attempts[c.attempt];
      var task := db.tasks[c.task];
      if a.worker != c.worker || a.boot != c.boot || a.token != c.token then Fenced
      else if a.status == AttemptStatus.Canceled || a.status == Expired then Fenced
      else if a.status == AttemptStatus.Succeeded || a.status == AttemptStatus.Failed then
        if a.digest == digest then AlreadyAccepted(task.status) else Conflict
      else if task.current != Some(c.attempt) then Fenced
      else if a.leaseDeadline <= now then Fenced
      else if task.status != TaskStatus.Running || db.runs[task.run].status != RunStatus.Running then Fenced
      else if StoresArtifacts(r) && r.counters.bytesWritten > 0 && r.records == [] then Rejected
      else if StoresArtifacts(r) && !MayInsertAll(db.artifacts, c, r.records, task.run, a.number) then Rejected
      else if FinalStatus(r.status).None? then Rejected
      else Accepted(FinalStatus(r.status).value)
  }

  function AttemptResult(s: TaskStatus): AttemptStatus {
    if s == TaskStatus.Succeeded then AttemptStatus.Succeeded
    else if s == TaskStatus.Failed then AttemptStatus.Failed
    else AttemptStatus.Canceled
  }

  /** `classified` is the class found in the error message, or "". */
  function FailureClassOf(r: Report, classified: string): string {
    if r.status != "FAILED" then ""
    else if r.failureClass != "" then r.failureClass
    else if r.message.Some? && classified != "" then classified
    else "PERMANENT_TASK_FAILURE"
  }

  function Complete(db: Db, c: Caller, r: Report, digest: string, classified: string, now: Time, wall: Time): Db {
    var outcome := Judge(db, c, r, digest, now);
    if !outcome.Accepted? then db
    else
      db.(
        artifacts := if StoresArtifacts(r) then db.artifacts + ArtifactsOf(c, r.records) else db.artifacts,
        attempts := db.attempts[c.attempt := db.attempts[c.attempt].(
          status := AttemptResult(outcome.final), finishedAt := Some(wall),
          failureClass := FailureClassOf(r, classified), digest := digest)],
        tasks := db.tasks[c.task := db.tasks[c.task].(
          status := outcome.final, objects := r.objects, boundary := r.boundary,
          counters := r.counters, finishedAt := Some(wall), current := None)])
  }

  // ----- cancellation, finalisation, creation -----

  function CancelAttemptsOf(db: Db, run: Id, wall: Time): map<Id, Attempt> {
    map a | a in db.attempts ::
      if db.attempts[a].status == Active && db.attempts[a].task in db.tasks && db.tasks[db.attempts[a].task].run == run
      then db.attempts[a].(status := AttemptStatus.Canceled, finishedAt := Some(wall), failureClass := "CANCELED")
      else db.attempts[a]
  }

  function CancelActiveAttempts(db: Db, run: Id, wall: Time): Db { db.(attempts := CancelAttemptsOf(db, run, wall)) }

  function CancelTask(task: Task, wall: Time): Task {
    task.(status := TaskStatus.Canceled, finishedAt := Some(wall),
          current := if task.status == TaskStatus.Running then None else task.current)
  }

  function CancelRun(db: Db, run: Id, wall: Time): Db {
    if run !in db.runs ||
        (db.runs[run].status != RunStatus.Planning && db.runs[run].status != RunStatus.Running) then db
    else
      db.(
        attempts := CancelAttemptsOf(db, run, wall),
        tasks := map t | t in db.tasks ::
          if db.tasks[t].run == run && !db.tasks[t].status.Finished() then CancelTask(db.tasks[t], wall)
          else db.tasks[t],
        runs := db.runs[run := db.runs[run].(status := RunStatus.Canceled, finishedAt := Some(wall))])
  }

  function TasksOf(db: Db, run: Id): set<Id> { set t | t in db.tasks && db.tasks[t].run == run }

  /** Fails the run when a task failed; starts committing when all tasks succeeded. */
  function FinalizeRun(db: Db, run: Id, wall: Time): Db {
    if run !in db.runs || (db.runs[run].status != RunStatus.Planning && db.runs[run].status != RunStatus.Running)
       || TasksOf(db, run) == {} then db
    else if exists t | t in TasksOf(db, run) ::
        db.tasks[t].status == TaskStatus.Failed || db.tasks[t].status == TaskStatus.Quarantined then
      db.(
        runs := db.runs[run := db.runs[run].(status := RunStatus.Failed, finishedAt := Some(wall))],
        tasks := map t | t in db.tasks ::
          if db.tasks[t].run == run && db.tasks[t].status == TaskStatus.Pending
              then CancelTask(db.tasks[t], wall) else db.tasks[t])
    else if (forall t | t in TasksOf(db, run) :: db.tasks[t].status == TaskStatus.Succeeded) &&
        db.runs[run].status == RunStatus.Running then
      db.(runs := db.runs[run := db.runs[run].(status := RunStatus.Committing, finishedAt := None)])
    else db
  }

  /** The end of a commit, either way. */
  function FinishCommit(db: Db, run: Id, published: bool, wall: Time): Db {
    if run !in db.runs || db.runs[run].status != RunStatus.Committing then db
    else
      db.(runs := db.runs[run := db.runs[run].(
        status := if published then RunStatus.Succeeded else RunStatus.Failed, finishedAt := Some(wall))])
  }

  function CreateRun(db: Db, run: Id, startedAt: Time, maxInFlight: int, pool: string): Db {
    if run in db.runs then db
    else db.(runs := db.runs[run := Run(RunStatus.Planning, startedAt, None, maxInFlight, pool)])
  }

  function NewTask(run: Id, index: int): Task {
    Task(run, index, TaskStatus.Pending, None, None, 0, None, None, None, Counters(0, 0, 0), "[]", "")
  }

  // ----- admission -----

  predicate IsActiveRun(s: RunStatus) { s == RunStatus.Running || s == RunStatus.Committing }

  function ActiveRuns(db: Db): set<Id> { set r | r in db.runs && IsActiveRun(db.runs[r].status) }

  function AdmitRun(db: Db, run: Id): Db
    requires run in db.runs
  {
    db.(runs := db.runs[run := db.runs[run].(status := RunStatus.Running, finishedAt := None)])
  }

  predicate MayAdmit(db: Db, run: Id, limit: int) {
    && (limit <= 0 || |ActiveRuns(db)| < limit)
    && run in db.runs
    && db.runs[run].status == RunStatus.Planning
  }

  /** New task rows: no key or (run, index) twice, and the run exists. */
  predicate MayInsertTasks(db: Db, run: Id, rows: map<Id, int>) {
    && run in db.runs
    && rows.Keys !! db.tasks.Keys
    && (forall a, b | a in rows && b in rows && a != b :: rows[a] != rows[b])
    && (forall a, t | a in rows && t in db.tasks && db.tasks[t].run == run :: db.tasks[t].index != rows[a])
  }

  function InsertTasks(db: Db, run: Id, rows: map<Id, int>): Db {
    db.(tasks := db.tasks + map t | t in rows :: NewTask(run, rows[t]))
  }

  function StartRun(db: Db, run: Id, rows: map<Id, int>, limit: int): Db {
    if rows == map[] || !MayInsertTasks(db, run, rows) then db
    else
      var planned := InsertTasks(db, run, rows);
      if MayAdmit(planned, run, limit) then AdmitRun(planned, run) else planned
  }

  predicate IsWaiting(db: Db, r: Id) {
    r in db.runs && db.runs[r].status == RunStatus.Planning
    && exists t :: t in db.tasks && db.tasks[t].run == r && db.tasks[t].status == TaskStatus.Pending
  }

  function WaitingRuns(db: Db): set<Id> { set r | r in db.runs && IsWaiting(db, r) }

  predicate OlderRun(db: Db, a: Id, b: Id)
    requires a in db.runs && b in db.runs
  {
    db.runs[a].startedAt < db.runs[b].startedAt || (db.runs[a].startedAt == db.runs[b].startedAt && a < b)
  }

  /** Every run in `chosen` becomes RUNNING. */
  function AdmitAll(db: Db, chosen: set<Id>): Db {
    db.(runs := map r | r in db.runs ::
      if r in chosen then db.runs[r].(status := RunStatus.Running, finishedAt := None) else db.runs[r])
  }

  function Free(db: Db, limit: int): nat { if limit > |ActiveRuns(db)| then limit - |ActiveRuns(db)| else 0 }

  /** `chosen` holds the oldest waiting runs, as many as there is room for. */
  ghost predicate OldestWaiting(db: Db, chosen: set<Id>, limit: int) {
    && chosen <= WaitingRuns(db)
    && |chosen| == (if |WaitingRuns(db)| < Free(db, limit) then |WaitingRuns(db)| else Free(db, limit))
    && forall a, b | a in chosen && b in WaitingRuns(db) && b !in chosen :: OlderRun(db, a, b)
  }

  // ----- leadership -----

  /** Whole milliseconds of a duration, truncated toward zero. */
  function Millis(d: int): int { if d >= 0 then d / 1_000_000 else -(-d / 1_000_000) }

  predicate MayAcquire(l: Leadership, instance: string, lease: int, ms: int) {
    Trimming.TrimSpace(instance) != "" && lease > 0 && !(l.active && l.deadline > ms)
  }

  function Acquire(db: Db, instance: string, lease: int, ms: int): Db {
    if !MayAcquire(db.leader, instance, lease, ms) then db
    else db.(leader := Leadership(instance, db.leader.epoch + 1, true, ms + Millis(lease)))
  }

  /** The condition under which the master (instance, epoch) may act at time `ms`. */
  predicate Leads(l: Leadership, instance: string, epoch: nat, ms: int) {
    l.active && l.instance == instance && l.epoch == epoch && l.deadline > ms
  }

  function RenewLeadership(db: Db, instance: string, epoch: nat, lease: int, ms: int): Db {
    if Leads(db.leader, instance, epoch, ms) then db.(leader := db.leader.(deadline := ms + Millis(lease))) else db
  }

  function Release(db: Db, instance: string, epoch: nat): Db {
    if db.leader.active && db.leader.instance == instance && db.leader.epoch == epoch
    then db.(leader := db.leader.(active := false, deadline := 0)) else db
  }
}
