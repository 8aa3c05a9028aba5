/**
 The invariant of the attempt protocol and its preservation by every
 transaction, each from an arbitrary database that satisfies it.
 */
module ControlInvariant {
  import opened Prelude
  import opened ControlPlane

  /** The attempt numbers a task has used. */
  function Numbers(db: Db, t: Id): set<nat> {
    set a | a in db.attempts && db.attempts[a].task == t :: db.attempts[a].number
  }

  /** The set 1..n. */
  function UpTo(n: nat): (s: set<nat>)
    ensures forall k :: k in s <==> 1 <= k <= n
  {
    if n == 0 then {} else UpTo(n - 1) + {n}
  }

  predicate References(db: Db) {
    && (forall t | t in db.tasks :: db.tasks[t].run in db.runs)
    && (forall a | a in db.attempts :: db.attempts[a].task in db.tasks)
  }

  /** A RUNNING task points at its newest attempt; any other task points at none. */
  predicate TaskOk(db: Db, t: Id)
    requires t in db.tasks
  {
    var task := db.tasks[t];
    && Numbers(db, t) == UpTo(task.attemptCount)
    && (task.status == TaskStatus.Running <==> task.current.Some?)
    && (task.current.Some? ==>
          && task.current.value in db.attempts
          && db.attempts[task.current.value].task == t
          && db.attempts[task.current.value].number == task.attemptCount)
  }

  /** An ACTIVE attempt is its task's current one; a SUCCEEDED one is the newest of a SUCCEEDED task. */
  predicate AttemptOk(db: Db, a: Id)
    requires a in db.attempts && db.attempts[a].task in db.tasks
  {
    var x := db.attempts[a];
    var task := db.tasks[x.task];
    && (x.status == Active ==> task.current == Some(a))
    && (x.status == AttemptStatus.Succeeded ==> task.status == TaskStatus.Succeeded && x.number == task.attemptCount)
  }

  predicate DistinctNumbers(db: Db) {
    forall a, b | a in db.attempts && b in db.attempts && db.attempts[a].task == db.attempts[b].task
                  && db.attempts[a].number == db.attempts[b].number :: a == b
  }

  ghost predicate Inv(db: Db) {
    && References(db)
    && DistinctNumbers(db)
    && (forall t | t in db.tasks :: TaskOk(db, t))
    && (forall a | a in db.attempts :: AttemptOk(db, a))
  }

  // ----- what every transaction but assignment leaves alone -----

  /** The same attempt rows with the same identity. */
  predicate SameAttempts(db: Db, db': Db) {
    && db'.attempts.Keys == db.attempts.Keys
    && forall a | a in db.attempts ::
         && db'.attempts[a].task == db.attempts[a].task
         && db'.attempts[a].number == db.attempts[a].number
  }

  lemma SameNumbers(db: Db, db': Db, t: Id)
    requires SameAttempts(db, db')
    ensures Numbers(db', t) == Numbers(db, t)
  {
    forall n: nat
      ensures n in Numbers(db', t) <==> n in Numbers(db, t)
    {
      if n in Numbers(db, t) {
        var a :| a in db.attempts && db.attempts[a].task == t && db.attempts[a].number == n;
        assert a in db'.attempts && db'.attempts[a].number == n;
      }
      if n in Numbers(db', t) {
        var a :| a in db'.attempts && db'.attempts[a].task == t && db'.attempts[a].number == n;
        assert a in db.attempts && db.attempts[a].number == n;
      }
    }
  }

  /** How one task may move without a new attempt. */
  predicate TaskMoves(db: Db, db': Db, t: Id)
    requires t in db.tasks && t in db'.tasks
  {
    var x, y := db.tasks[t], db'.tasks[t];
    && y.run == x.run
    && y.attemptCount == x.attemptCount
    && (y.status == TaskStatus.Running <==> y.current.Some?)
    && (y.current.Some? ==> y.current == x.current)
  }

  /** A transaction that keeps attempt identities and re-establishes the pointers keeps the invariant. */
  lemma KeptBy(db: Db, db': Db)
    requires Inv(db) && SameAttempts(db, db')
    requires db'.runs.Keys == db.runs.Keys && db'.tasks.Keys == db.tasks.Keys
    requires forall t | t in db.tasks :: TaskMoves(db, db', t)
    requires forall a | a in db.attempts :: AttemptOk(db', a)
    ensures Inv(db')
  {
    forall t | t in db'.tasks
      ensures TaskOk(db', t)
    {
      assert TaskOk(db, t) && TaskMoves(db, db', t);
      SameNumbers(db, db', t);
      if db'.tasks[t].current.Some? {
        var a := db'.tasks[t].current.value;
        assert a in db.attempts && db'.attempts[a].task == db.attempts[a].task;
      }
    }
  }

  // ----- assignment -----

  lemma AssignNumbers(db: Db, t: Id, who: Assignee, now: Time, policy: Policy, u: Id)
    requires Inv(db) && Assigns(db, t, who) && u in db.tasks
    ensures var db' := Assign(db, Some(t), who, now, policy);
            Numbers(db', u) == if u == t then UpTo(db.tasks[t].attemptCount + 1) else UpTo(db.tasks[u].attemptCount)
  {
    var db' := Assign(db, Some(t), who, now, policy);
    var n := db.tasks[t].attemptCount + 1;
    assert TaskOk(db, u);
    forall k: nat
      ensures k in Numbers(db', u) <==> k in Numbers(db, u) || (u == t && k == n)
    {
      if k in Numbers(db, u) {
        var a :| a in db.attempts && db.attempts[a].task == u && db.attempts[a].number == k;
        assert a in db'.attempts && db'.attempts[a] == db.attempts[a];
      }
      if u == t && k == n {
        assert db'.attempts[who.id].number == k;
      }
    }
  }

  lemma AssignKeeps(db: Db, chosen: Option<Id>, who: Assignee, now: Time, policy: Policy)
    requires Inv(db)
    ensures Inv(Assign(db, chosen, who, now, policy))
  {
    if chosen.Some? && Assigns(db, chosen.value, who) {
      var t := chosen.value;
      var db' := Assign(db, chosen, who, now, policy);
      forall u | u in db'.tasks
        ensures TaskOk(db', u)
      {
        assert TaskOk(db, u);
        AssignNumbers(db, t, who, now, policy, u);
      }
      forall a | a in db'.attempts
        ensures AttemptOk(db', a)
      {
        if a != who.id {
          assert AttemptOk(db, a);
        }
      }
    }
  }

  // ----- calls of an attempt -----

  lemma RenewKeeps(db: Db, c: Caller, now: Time, duration: int)
    requires Inv(db)
    ensures Inv(Renew(db, c, now, duration))
  {
    var db' := Renew(db, c, now, duration);
    forall a | a in db.attempts
      ensures AttemptOk(db', a)
    {
      assert AttemptOk(db, a);
    }
    forall t | t in db.tasks
      ensures TaskMoves(db, db', t)
    {
      assert TaskOk(db, t);
    }
    KeptBy(db, db');
  }

  lemma ProgressKeeps(db: Db, c: Caller, p: Counters, now: Time)
    requires Inv(db)
    ensures Inv(RecordProgress(db, c, p, now))
  {
    var db' := RecordProgress(db, c, p, now);
    forall a | a in db.attempts
      ensures AttemptOk(db', a)
    {
      assert AttemptOk(db, a);
    }
    forall t | t in db.tasks
      ensures TaskMoves(db, db', t)
    {
      assert TaskOk(db, t);
    }
    KeptBy(db, db');
  }

  lemma CompleteKeeps(db: Db, c: Caller, r: Report, digest: string, classified: string, now: Time, wall: Time)
    requires Inv(db)
    ensures Inv(Complete(db, c, r, digest, classified, now, wall))
  {
    var db' := Complete(db, c, r, digest, classified, now, wall);
    if Judge(db, c, r, digest, now).Accepted? {
      assert TaskOk(db, c.task);
      forall a | a in db.attempts
        ensures AttemptOk(db', a)
      {
        assert AttemptOk(db, a);
      }
      forall t | t in db.tasks
        ensures TaskMoves(db, db', t)
      {
        assert TaskOk(db, t);
      }
      KeptBy(db, db');
    }
  }

  // ----- losing an attempt -----

  lemma AbandonKeeps(db: Db, t: Id, a: Id, worker: string, now: Time, policy: Policy)
    requires Inv(db)
    ensures Inv(Abandon(db, t, a, worker, now, policy))
  {
    var db' := Abandon(db, t, a, worker, now, policy);
    if Abandons(db, t, a, worker) {
      assert TaskOk(db, t);
      forall x | x in db.attempts
        ensures AttemptOk(db', x)
      {
        assert AttemptOk(db, x);
      }
      forall u | u in db.tasks
        ensures TaskMoves(db, db', u)
      {
        assert TaskOk(db, u);
      }
      KeptBy(db, db');
    }
  }

  lemma ExpireSetKeeps(db: Db, lost: set<Id>, now: Time, policy: Policy)
    requires Inv(db) && forall a | a in lost :: a in db.attempts && db.attempts[a].status == Active
    ensures Inv(ExpireSet(db, lost, now, policy))
  {
    var db' := ExpireSet(db, lost, now, policy);
    forall a | a in db.attempts
      ensures AttemptOk(db', a)
    {
      var t := db.attempts[a].task;
      assert AttemptOk(db, a) && TaskOk(db, t);
      if LosesAttempt(db, t, lost) {
        assert AttemptOk(db, db.tasks[t].current.value);
      }
    }
    forall t | t in db.tasks
      ensures TaskMoves(db, db', t)
    {
      assert TaskOk(db, t);
    }
    KeptBy(db, db');
  }

  lemma ExpireKeeps(db: Db, now: Time, policy: Policy)
    requires Inv(db)
    ensures Inv(Expire(db, now, policy))
  {
    ExpireSetKeeps(db, ExpirableAttempts(db, now), now, policy);
  }

  // ----- the other transactions -----

  lemma CancelActiveKeeps(db: Db, run: Id, wall: Time)
    requires Inv(db)
    ensures Inv(CancelActiveAttempts(db, run, wall))
  {
    var db' := CancelActiveAttempts(db, run, wall);
    forall a | a in db.attempts
      ensures AttemptOk(db', a)
    {
      assert AttemptOk(db, a);
    }
    forall t | t in db.tasks
      ensures TaskMoves(db, db', t)
    {
      assert TaskOk(db, t);
    }
    KeptBy(db, db');
  }

  lemma CancelRunKeeps(db: Db, run: Id, wall: Time)
    requires Inv(db)
    ensures Inv(CancelRun(db, run, wall))
  {
    var db' := CancelRun(db, run, wall);
    forall a | a in db.attempts
      ensures AttemptOk(db', a)
    {
      assert AttemptOk(db, a) && TaskOk(db, db.attempts[a].task);
    }
    forall t | t in db.tasks
      ensures TaskMoves(db, db', t)
    {
      assert TaskOk(db, t);
    }
    KeptBy(db, db');
  }

  lemma FinalizeKeeps(db: Db, run: Id, wall: Time)
    requires Inv(db)
    ensures Inv(FinalizeRun(db, run, wall))
  {
    var db' := FinalizeRun(db, run, wall);
    forall a | a in db.attempts
      ensures AttemptOk(db', a)
    {
      assert AttemptOk(db, a) && TaskOk(db, db.attempts[a].task);
    }
    forall t | t in db.tasks
      ensures TaskMoves(db, db', t)
    {
      assert TaskOk(db, t);
    }
    KeptBy(db, db');
  }

  /** Transactions that only touch runs, or the leadership row. */
  lemma OtherTablesKeep(db: Db, db': Db)
    requires Inv(db) && db'.tasks == db.tasks && db'.attempts == db.attempts && db.runs.Keys <= db'.runs.Keys
    ensures Inv(db')
  {
    forall t | t in db'.tasks
      ensures TaskOk(db', t)
    {
      assert TaskOk(db, t);
      SameNumbers(db, db', t);
    }
    forall a | a in db'.attempts
      ensures AttemptOk(db', a)
    {
      assert AttemptOk(db, a);
    }
  }

  lemma InsertTasksKeeps(db: Db, run: Id, rows: map<Id, int>)
    requires Inv(db) && MayInsertTasks(db, run, rows)
    ensures Inv(InsertTasks(db, run, rows))
  {
    var db' := InsertTasks(db, run, rows);
    forall t | t in db'.tasks
      ensures TaskOk(db', t)
    {
      SameNumbers(db, db', t);
      if t in rows {
        assert forall a | a in db.attempts :: db.attempts[a].task != t;
        assert Numbers(db, t) == {} == UpTo(0);
      } else {
        assert TaskOk(db, t);
      }
    }
    forall a | a in db'.attempts
      ensures AttemptOk(db', a)
    {
      assert AttemptOk(db, a);
    }
  }

  lemma StartRunKeeps(db: Db, run: Id, rows: map<Id, int>, limit: int)
    requires Inv(db)
    ensures Inv(StartRun(db, run, rows, limit))
  {
    if rows != map[] && MayInsertTasks(db, run, rows) {
      InsertTasksKeeps(db, run, rows);
      var planned := InsertTasks(db, run, rows);
      if MayAdmit(planned, run, limit) {
        OtherTablesKeep(planned, AdmitRun(planned, run));
      }
    }
  }
}
