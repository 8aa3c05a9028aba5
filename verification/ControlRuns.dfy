/**
 Runs of the control plane: arbitrary interleavings of transactions by any
 number of masters. Fenced writes go through the leadership row.
 */
module ControlRuns {
  import opened Prelude
  import opened ControlPlane
  import opened ControlInvariant

  /** One transaction with the choices and clock readings it was made with. */
  datatype Op =
    | AssignOp(chosen: Option<Id>, who: Assignee, now: Time, policy: Policy, pool: string)
    | RenewOp(caller: Caller, now: Time, duration: int)
    | ProgressOp(caller: Caller, counters: Counters, now: Time)
    | CompleteOp(caller: Caller, report: Report, digest: string, classified: string, now: Time, wall: Time)
    | AbandonOp(task: Id, attempt: Id, worker: string, now: Time, policy: Policy)
    | ExpireOp(now: Time, policy: Policy)
    | CancelAttemptsOp(run: Id, wall: Time)
    | CancelRunOp(run: Id, wall: Time)
    | FinalizeOp(run: Id, wall: Time)
    | FinishCommitOp(run: Id, published: bool, wall: Time)
    | CreateRunOp(run: Id, startedAt: Time, maxInFlight: int, pool: string)
    | StartRunOp(run: Id, rows: map<Id, int>, limit: int)
    | AdmitOp(admitted: set<Id>, limit: int)

  function Apply(db: Db, op: Op): Db {
    match op
    case AssignOp(chosen, who, now, policy, _) => Assign(db, chosen, who, now, policy)
    case RenewOp(c, now, d) => Renew(db, c, now, d)
    case ProgressOp(c, p, now) => RecordProgress(db, c, p, now)
    case CompleteOp(c, r, g, k, now, wall) => Complete(db, c, r, g, k, now, wall)
    case AbandonOp(t, a, w, now, policy) => Abandon(db, t, a, w, now, policy)
    case ExpireOp(now, policy) => Expire(db, now, policy)
    case CancelAttemptsOp(r, wall) => CancelActiveAttempts(db, r, wall)
    case CancelRunOp(r, wall) => CancelRun(db, r, wall)
    case FinalizeOp(r, wall) => FinalizeRun(db, r, wall)
    case FinishCommitOp(r, ok, wall) => FinishCommit(db, r, ok, wall)
    case CreateRunOp(r, at, max, pool) => CreateRun(db, r, at, max, pool)
    case StartRunOp(r, rows, limit) => StartRun(db, r, rows, limit)
    case AdmitOp(chosen, _) => AdmitAll(db, chosen)
  }

  /** The rows a transaction picked are the ones its query selects. */
  ghost predicate Selects(db: Db, op: Op) {
    match op
    case AssignOp(chosen, _, now, policy, pool) => FirstEligible(db, chosen, now, policy, pool)
    case AdmitOp(chosen, limit) => if limit <= 0 then chosen == {} else OldestWaiting(db, chosen, limit)
    case _ => true
  }

  /** A step of the system: a transaction of a fenced master, or a leadership change. */
  datatype Event =
    | Write(instance: string, epoch: nat, ms: int, op: Op)
    | AcquireLead(instance: string, lease: int, ms: int)
    | RenewLead(instance: string, epoch: nat, lease: int, ms: int)
    | ReleaseLead(instance: string, epoch: nat)

  /** The fence triggers abort every statement of a master that does not lead. */
  function Exec(db: Db, e: Event): Db {
    match e
    case Write(instance, epoch, ms, op) => if Leads(db.leader, instance, epoch, ms) then Apply(db, op) else db
    case AcquireLead(instance, lease, ms) => Acquire(db, instance, lease, ms)
    case RenewLead(instance, epoch, lease, ms) => RenewLeadership(db, instance, epoch, lease, ms)
    case ReleaseLead(instance, epoch) => Release(db, instance, epoch)
  }

  ghost predicate Legal(db: Db, e: Event) { e.Write? ==> Selects(db, e.op) }

  function Execute(db: Db, es: seq<Event>): Db
    decreases |es|
  {
    if es == [] then db else Execute(Exec(db, es[0]), es[1..])
  }

  ghost predicate LegalRun(db: Db, es: seq<Event>)
    decreases |es|
  {
    es == [] || (Legal(db, es[0]) && LegalRun(Exec(db, es[0]), es[1..]))
  }

  const EMPTY := Db(map[], map[], map[], {}, Leadership("", 0, false, 0))

  // ----- what every step keeps -----

  lemma ApplyKeeps(db: Db, op: Op)
    requires Inv(db)
    ensures Inv(Apply(db, op))
  {
    hide Inv, Assign, Renew, RecordProgress, Complete, Abandon, Expire, CancelActiveAttempts, CancelRun,
        FinalizeRun, StartRun;
    match op
    case AssignOp(chosen, who, now, policy, _) => AssignKeeps(db, chosen, who, now, policy);
    case RenewOp(c, now, d) => RenewKeeps(db, c, now, d);
    case ProgressOp(c, p, now) => ProgressKeeps(db, c, p, now);
    case CompleteOp(c, r, g, k, now, wall) => CompleteKeeps(db, c, r, g, k, now, wall);
    case AbandonOp(t, a, w, now, policy) => AbandonKeeps(db, t, a, w, now, policy);
    case ExpireOp(now, policy) => ExpireKeeps(db, now, policy);
    case CancelAttemptsOp(r, wall) => CancelActiveKeeps(db, r, wall);
    case CancelRunOp(r, wall) => CancelRunKeeps(db, r, wall);
    case FinalizeOp(r, wall) => FinalizeKeeps(db, r, wall);
    case FinishCommitOp(r, ok, wall) => OtherTablesKeep(db, FinishCommit(db, r, ok, wall));
    case CreateRunOp(r, at, max, pool) => OtherTablesKeep(db, CreateRun(db, r, at, max, pool));
    case StartRunOp(r, rows, limit) => StartRunKeeps(db, r, rows, limit);
    case AdmitOp(chosen, _) => OtherTablesKeep(db, AdmitAll(db, chosen));
  }

  lemma ExecKeeps(db: Db, e: Event)
    requires Inv(db)
    ensures Inv(Exec(db, e))
  {
    hide Inv, Apply;
    if e.Write? {
      ApplyKeeps(db, e.op);
    } else {
      OtherTablesKeep(db, Exec(db, e));
    }
  }

  /** The invariant holds in every reachable state. */
  lemma {:induction false} InvAlways(db: Db, es: seq<Event>)
    requires Inv(db)
    ensures Inv(Execute(db, es))
    decreases |es|
  {
    hide Inv, Exec;
    if es != [] {
      ExecKeeps(db, es[0]);
      InvAlways(Exec(db, es[0]), es[1..]);
    }
  }

  // ----- how rows may change -----

  /** A finished task never changes again; no task changes owner or forgets attempts. */
  predicate TaskLater(x: Task, y: Task) {
    && y.run == x.run
    && y.index == x.index
    && x.attemptCount <= y.attemptCount
    && (x.status.Finished() ==> y == x)
  }

  /** An attempt keeps its identity, and once it is no longer ACTIVE its row is frozen. */
  predicate AttemptLater(x: Attempt, y: Attempt) {
    && y.task == x.task
    && y.number == x.number
    && y.worker == x.worker
    && y.boot == x.boot
    && y.token == x.token
    && y.assignedAt == x.assignedAt
    && y.epoch == x.epoch
    && (x.status != Active ==> y == x)
  }

  predicate TasksLater(db: Db, db': Db) {
    forall t | t in db.tasks :: t in db'.tasks && TaskLater(db.tasks[t], db'.tasks[t])
  }

  predicate AttemptsLater(db: Db, db': Db) {
    forall a | a in db.attempts :: a in db'.attempts && AttemptLater(db.attempts[a], db'.attempts[a])
  }

  predicate Later(db: Db, db': Db) {
    && TasksLater(db, db')
    && AttemptsLater(db, db')
    && db.leader.epoch <= db'.leader.epoch
  }

  lemma LaterTransitive(a: Db, b: Db, c: Db)
    requires Later(a, b) && Later(b, c)
    ensures Later(a, c)
  {
    forall t | t in a.tasks
      ensures t in c.tasks && TaskLater(a.tasks[t], c.tasks[t])
    {
      assert t in b.tasks && TaskLater(a.tasks[t], b.tasks[t]);
    }
    forall x | x in a.attempts
      ensures x in c.attempts && AttemptLater(a.attempts[x], c.attempts[x])
    {
      assert x in b.attempts && AttemptLater(a.attempts[x], b.attempts[x]);
    }
  }

  lemma ExpireLater(db: Db, now: Time, policy: Policy)
    requires Inv(db)
    ensures Later(db, Expire(db, now, policy))
  {
    forall t | t in db.tasks
      ensures TaskLater(db.tasks[t], Expire(db, now, policy).tasks[t])
    {
      assert TaskOk(db, t);
    }
  }

  lemma AssignLater(db: Db, chosen: Option<Id>, who: Assignee, now: Time, policy: Policy)
    ensures Later(db, Assign(db, chosen, who, now, policy))
  {
  }

  lemma RenewLater(db: Db, c: Caller, now: Time, duration: int)
    ensures Later(db, Renew(db, c, now, duration))
  {
  }

  lemma ProgressLater(db: Db, c: Caller, p: Counters, now: Time)
    ensures Later(db, RecordProgress(db, c, p, now))
  {
  }

  lemma CompleteLater(db: Db, c: Caller, r: Report, digest: string, classified: string, now: Time, wall: Time)
    ensures Later(db, Complete(db, c, r, digest, classified, now, wall))
  {
  }

  lemma AbandonLater(db: Db, t: Id, a: Id, worker: string, now: Time, policy: Policy)
    ensures Later(db, Abandon(db, t, a, worker, now, policy))
  {
  }

  lemma CancelLater(db: Db, run: Id, wall: Time)
    ensures Later(db, CancelActiveAttempts(db, run, wall))
    ensures Later(db, CancelRun(db, run, wall))
    ensures Later(db, FinalizeRun(db, run, wall))
  {
  }

  lemma StartLater(db: Db, run: Id, rows: map<Id, int>, limit: int)
    ensures Later(db, StartRun(db, run, rows, limit))
  {
  }

  lemma ApplyLater(db: Db, op: Op)
    requires Inv(db)
    ensures Later(db, Apply(db, op))
  {
    hide Inv, TaskLater, AttemptLater;
    hide Assign, Renew, RecordProgress, Complete, Abandon, Expire, CancelActiveAttempts, CancelRun, FinalizeRun,
        StartRun;
    LaterReflexive(db);
    match op
    case AssignOp(chosen, who, now, policy, _) => AssignLater(db, chosen, who, now, policy);
    case RenewOp(c, now, d) => RenewLater(db, c, now, d);
    case ProgressOp(c, p, now) => ProgressLater(db, c, p, now);
    case CompleteOp(c, r, g, k, now, wall) => CompleteLater(db, c, r, g, k, now, wall);
    case AbandonOp(t, a, w, now, policy) => AbandonLater(db, t, a, w, now, policy);
    case ExpireOp(now, policy) => ExpireLater(db, now, policy);
    case CancelAttemptsOp(r, wall) => CancelLater(db, r, wall);
    case CancelRunOp(r, wall) => CancelLater(db, r, wall);
    case FinalizeOp(r, wall) => CancelLater(db, r, wall);
    case StartRunOp(r, rows, limit) => StartLater(db, r, rows, limit);
    case _ =>
  }

  /** Every run only moves rows forward. */
  lemma {:induction false} RunLater(db: Db, es: seq<Event>)
    requires Inv(db)
    ensures Later(db, Execute(db, es)) && Inv(Execute(db, es))
    decreases |es|
  {
    hide Inv, Apply, TaskLater, AttemptLater;
    if es == [] {
      LaterReflexive(db);
    } else {
      var next := Exec(db, es[0]);
      ExecKeeps(db, es[0]);
      ExecLater(db, es[0]);
      RunLater(next, es[1..]);
      LaterTransitive(db, next, Execute(next, es[1..]));
    }
  }

  lemma LaterReflexive(db: Db)
    ensures Later(db, db)
  {
  }

  lemma ExecLater(db: Db, e: Event)
    requires Inv(db)
    ensures Later(db, Exec(db, e))
  {
    hide Inv, Apply;
    if e.Write? {
      ApplyLater(db, e.op);
    }
  }
}
