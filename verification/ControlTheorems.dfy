/** Safety of attempts and results over whole runs. */
module ControlTheorems {
  import opened Prelude
  import opened ControlPlane
  import opened ControlInvariant
  import opened ControlRuns

  lemma EmptyIsOk()
    ensures Inv(EMPTY)
  {
  }

  /** In every reachable state: numbers are 1..count without gap or repetition, ACTIVE means current and newest. */
  lemma AttemptsAreNumbered(es: seq<Event>, t: Id, a: Id)
    requires t in Execute(EMPTY, es).tasks
    ensures var db := Execute(EMPTY, es);
            && Numbers(db, t) == UpTo(db.tasks[t].attemptCount)
            && (forall b | a in db.attempts && b in db.attempts && db.attempts[a].task == t == db.attempts[b].task
                  && db.attempts[a].number == db.attempts[b].number :: a == b)
            && (a in db.attempts && db.attempts[a].task == t && db.attempts[a].status == Active ==>
                  && db.tasks[t].current == Some(a)
                  && db.tasks[t].status == TaskStatus.Running
                  && db.attempts[a].number == db.tasks[t].attemptCount)
  {
    hide Execute;
    EmptyIsOk();
    InvAlways(EMPTY, es);
    var db := Execute(EMPTY, es);
    assert TaskOk(db, t);
    if a in db.attempts {
      assert AttemptOk(db, a);
    }
  }

  /** A finished task has the same row in every later state. */
  lemma FinishedTaskIsFrozen(db: Db, es: seq<Event>, t: Id)
    requires Inv(db) && t in db.tasks && db.tasks[t].status.Finished()
    ensures t in Execute(db, es).tasks && Execute(db, es).tasks[t] == db.tasks[t]
  {
    hide Execute, Inv;
    RunLater(db, es);
  }

  /** A call made in the name of attempt `a`. */
  predicate CallBy(op: Op, a: Id) {
    match op
    case RenewOp(c, _, _) => c.attempt == a
    case ProgressOp(c, _, _) => c.attempt == a
    case CompleteOp(c, _, _, _, _, _) => c.attempt == a
    case AbandonOp(_, b, _, _, _) => b == a
    case _ => false
  }

  predicate Superseded(db: Db, a: Id, b: Id) {
    && a in db.attempts
    && b in db.attempts
    && db.attempts[a].task == db.attempts[b].task
    && db.attempts[a].number < db.attempts[b].number
  }

  lemma SupersededIsFencedNow(db: Db, a: Id, b: Id, op: Op)
    requires Inv(db) && Superseded(db, a, b) && CallBy(op, a)
    ensures Apply(db, op) == db
  {
    var t := db.attempts[a].task;
    assert TaskOk(db, t) && AttemptOk(db, a) && AttemptOk(db, b);
    assert db.attempts[b].number in Numbers(db, t);
  }

  /** Once a newer attempt exists, no call of the older one ever changes a row again. */
  lemma SupersededIsFenced(db: Db, es: seq<Event>, a: Id, b: Id, op: Op)
    requires Inv(db) && Superseded(db, a, b) && CallBy(op, a)
    ensures Apply(Execute(db, es), op) == Execute(db, es)
  {
    hide Execute, Inv, Apply;
    RunLater(db, es);
    assert AttemptLater(db.attempts[a], Execute(db, es).attempts[a]);
    assert AttemptLater(db.attempts[b], Execute(db, es).attempts[b]);
    SupersededIsFencedNow(Execute(db, es), a, b, op);
  }

  /** A call of an attempt touches no row but its own attempt, its task and, when it gives up for good, its run. */
  lemma CallTouchesOwnRows(db: Db, op: Op, a: Id)
    requires Inv(db) && CallBy(op, a) && a in db.attempts
    ensures var db' := Apply(db, op);
            var t := db.attempts[a].task;
            && db'.attempts.Keys == db.attempts.Keys
            && db'.tasks.Keys == db.tasks.Keys
            && (forall b | b in db.attempts && b != a :: db'.attempts[b] == db.attempts[b])
            && (forall u | u in db.tasks && u != t :: db'.tasks[u] == db.tasks[u])
            && (forall r | r in db.runs && r != db.tasks[t].run :: r in db'.runs && db'.runs[r] == db.runs[r])
            && (db'.runs != db.runs ==> db'.tasks[t].status == TaskStatus.Quarantined)
            && db'.leader == db.leader
  {
    hide MayInsertAll, ArtifactsOf, FailureClassOf, RetryDelay, Inv;
    OwnTaskExists(db, a);
  }

  lemma OwnTaskExists(db: Db, a: Id)
    requires Inv(db) && a in db.attempts
    ensures db.attempts[a].task in db.tasks
  {
  }

  // ----- results -----

  /** At most one attempt of a task ever succeeds, and it is the last one. */
  lemma OneSuccess(db: Db, es: seq<Event>, a: Id, b: Id)
    requires Inv(db) && a in db.attempts && db.attempts[a].status == AttemptStatus.Succeeded
    requires b in Execute(db, es).attempts && Execute(db, es).attempts[b].status == AttemptStatus.Succeeded
    requires Execute(db, es).attempts[b].task == db.attempts[a].task
    ensures a == b
  {
    hide Execute;
    RunLater(db, es);
    var later := Execute(db, es);
    assert AttemptLater(db.attempts[a], later.attempts[a]);
    assert AttemptOk(later, a) && AttemptOk(later, b);
  }

  /**
   A report that was accepted as SUCCEEDED or FAILED stays settled: in every
   later state a report with the same digest is answered "already accepted",
   any other is a conflict, and neither changes a row.
   */
  lemma AcceptedReportIsSettled(db: Db, c: Caller, r: Report, digest: string, k: string, now: Time, wall: Time,
                                es: seq<Event>, r': Report, digest': string, k': string, now': Time, wall': Time)
    requires Inv(db)
    requires Judge(db, c, r, digest, now) == Accepted(TaskStatus.Succeeded) ||
        Judge(db, c, r, digest, now) == Accepted(TaskStatus.Failed)
    ensures var after := Execute(Complete(db, c, r, digest, k, now, wall), es);
            && Judge(after, c, r', digest', now') ==
                 (if digest' == digest then AlreadyAccepted(Judge(db, c, r, digest, now).final) else Conflict)
            && Complete(after, c, r', digest', k', now', wall') == after
  {
    hide Execute;
    var done := Complete(db, c, r, digest, k, now, wall);
    CompleteKeeps(db, c, r, digest, k, now, wall);
    RunLater(done, es);
    var after := Execute(done, es);
    assert AttemptLater(done.attempts[c.attempt], after.attempts[c.attempt]);
    assert TaskLater(done.tasks[c.task], after.tasks[c.task]);
  }

  /** A report accepted as CANCELED is fenced when it is repeated. */
  lemma CanceledReportIsFenced(db: Db, c: Caller, r: Report, digest: string, k: string, now: Time, wall: Time,
                               es: seq<Event>, now': Time)
    requires Inv(db) && Judge(db, c, r, digest, now) == Accepted(TaskStatus.Canceled)
    ensures Judge(Execute(Complete(db, c, r, digest, k, now, wall), es), c, r, digest, now') == Fenced
  {
    hide Execute;
    var done := Complete(db, c, r, digest, k, now, wall);
    CompleteKeeps(db, c, r, digest, k, now, wall);
    RunLater(done, es);
    var after := Execute(done, es);
    assert AttemptLater(done.attempts[c.attempt], after.attempts[c.attempt]);
    assert TaskLater(done.tasks[c.task], after.tasks[c.task]);
  }

  // ----- artifacts -----

  /** Artifacts belong to SUCCEEDED attempts, and no two rows share an object. */
  predicate ArtifactsOk(db: Db) {
    && (forall x | x in db.artifacts ::
          && x.attempt in db.attempts
          && db.attempts[x.attempt].task == x.task
          && db.attempts[x.attempt].status == AttemptStatus.Succeeded)
    && (forall x, y | x in db.artifacts && y in db.artifacts && x.objectKey == y.objectKey :: x == y)
  }

  function FileIndices(db: Db, a: Id): set<int> { set x | x in db.artifacts && x.attempt == a :: x.fileIndex }

  lemma {:induction false} InsertedKeysDistinct(present: set<Artifact>, c: Caller, rs: seq<Record>, run: Id,
      number: nat)
    requires MayInsertAll(present, c, rs, run, number)
    requires forall x, y | x in present && y in present && x.objectKey == y.objectKey :: x == y
    ensures forall x, y | x in present + ArtifactsOf(c, rs) && y in present + ArtifactsOf(c, rs) &&
        x.objectKey == y.objectKey :: x == y
    decreases |rs|
  {
    if rs != [] {
      var first := Artifact(c.task, c.attempt, rs[0].fileIndex, rs[0].objectKey);
      InsertedKeysDistinct(present + {first}, c, rs[1..], run, number);
      ArtifactsCons(c, rs);
      assert present + ArtifactsOf(c, rs) == present + {first} + ArtifactsOf(c, rs[1..]);
    } else {
      assert present + ArtifactsOf(c, rs) == present;
    }
  }

  lemma ArtifactsCons(c: Caller, rs: seq<Record>)
    requires rs != []
    ensures ArtifactsOf(c, rs) == {Artifact(c.task, c.attempt, rs[0].fileIndex, rs[0].objectKey)} +
        ArtifactsOf(c, rs[1..])
  {
    forall x
      ensures x in ArtifactsOf(c, rs) <==>
              x == Artifact(c.task, c.attempt, rs[0].fileIndex, rs[0].objectKey) || x in ArtifactsOf(c, rs[1..])
    {
      if x in ArtifactsOf(c, rs[1..]) {
        var i :| 0 <= i < |rs[1..]| && x == Artifact(c.task, c.attempt, rs[1..][i].fileIndex, rs[1..][i].objectKey);
        assert rs[i + 1] == rs[1..][i];
      }
      if x in ArtifactsOf(c, rs) {
        var i :| 0 <= i < |rs| && x == Artifact(c.task, c.attempt, rs[i].fileIndex, rs[i].objectKey);
        if i > 0 {
          assert rs[i] == rs[1..][i - 1];
        }
      }
    }
  }

  lemma CompleteKeepsArtifacts(db: Db, c: Caller, r: Report, digest: string, k: string, now: Time, wall: Time)
    requires ArtifactsOk(db)
    ensures ArtifactsOk(Complete(db, c, r, digest, k, now, wall))
  {
    var db' := Complete(db, c, r, digest, k, now, wall);
    if Judge(db, c, r, digest, now).Accepted? && StoresArtifacts(r) {
      InsertedKeysDistinct(db.artifacts, c, r.records, db.tasks[c.task].run, db.attempts[c.attempt].number);
    }
  }

  lemma ExecKeepsArtifacts(db: Db, e: Event)
    requires Inv(db) && ArtifactsOk(db)
    ensures ArtifactsOk(Exec(db, e))
  {
    hide Inv;
    ExecLater(db, e);
    if e.Write? && e.op.CompleteOp? {
      CompleteKeepsArtifacts(db, e.op.caller, e.op.report, e.op.digest, e.op.classified, e.op.now, e.op.wall);
    } else {
      assert forall x | x in db.artifacts :: AttemptLater(db.attempts[x.attempt], Exec(db, e).attempts[x.attempt]);
      assert Exec(db, e).artifacts == db.artifacts;
    }
  }

  /** No step adds an artifact to an attempt that is no longer ACTIVE. */
  lemma ExecKeepsIndices(db: Db, e: Event, a: Id)
    requires a in db.attempts && db.attempts[a].status != Active
    ensures FileIndices(Exec(db, e), a) == FileIndices(db, a)
  {
    if e.Write? && e.op.CompleteOp? {
      var db' := Exec(db, e);
      assert forall x | x in db'.artifacts && x.attempt == a :: x in db.artifacts;
      assert forall x | x in db.artifacts :: x in db'.artifacts;
    } else {
      assert Exec(db, e).artifacts == db.artifacts;
    }
  }

  lemma {:induction false} RunKeepsIndices(db: Db, es: seq<Event>, a: Id)
    requires Inv(db) && a in db.attempts && db.attempts[a].status != Active
    ensures FileIndices(Execute(db, es), a) == FileIndices(db, a)
    decreases |es|
  {
    hide Inv, Exec, FileIndices;
    if es != [] {
      ExecKeeps(db, es[0]);
      ExecLater(db, es[0]);
      assert AttemptLater(db.attempts[a], Exec(db, es[0]).attempts[a]);
      ExecKeepsIndices(db, es[0], a);
      RunKeepsIndices(Exec(db, es[0]), es[1..], a);
    }
  }

  /** The stored indices of an accepted strict report are those of its records, now and for ever. */
  lemma StoredIndices(db: Db, c: Caller, r: Report, digest: string, k: string, now: Time, wall: Time, es: seq<Event>)
    requires Inv(db) && ArtifactsOk(db) && r.strict
    requires Judge(db, c, r, digest, now) == Accepted(TaskStatus.Succeeded)
    ensures FileIndices(Execute(Complete(db, c, r, digest, k, now, wall), es), c.attempt)
         == set i | 0 <= i < |r.records| :: r.records[i].fileIndex
  {
    hide Execute;
    var done := Complete(db, c, r, digest, k, now, wall);
    CompleteKeeps(db, c, r, digest, k, now, wall);
    RunKeepsIndices(done, es, c.attempt);
    assert forall x | x in db.artifacts :: x.attempt != c.attempt;
    assert r.status == "SUCCEEDED";
    assert done.artifacts == db.artifacts + ArtifactsOf(c, r.records);
    forall n
      ensures n in FileIndices(done, c.attempt) <==> exists i | 0 <= i < |r.records| :: r.records[i].fileIndex == n
    {
      if i :| 0 <= i < |r.records| && r.records[i].fileIndex == n {
        assert Artifact(c.task, c.attempt, r.records[i].fileIndex, r.records[i].objectKey) in done.artifacts;
      }
    }
  }
}
