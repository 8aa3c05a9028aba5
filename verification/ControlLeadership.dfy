/** Leadership over whole runs, for any number of masters and any clock readings. */
module ControlLeadership {
  import opened Prelude
  import opened ControlPlane
  import opened ControlInvariant
  import opened ControlRuns
  import opened ControlTheorems

  /** The epoch never falls, and while it stays the same so does its owner. */
  predicate LeadLater(l: Leadership, l': Leadership) {
    l.epoch <= l'.epoch && (l.epoch == l'.epoch ==> l'.instance == l.instance && (l'.active ==> l.active))
  }

  lemma WritesLeaveLeadership(db: Db, op: Op)
    ensures Apply(db, op).leader == db.leader
  {
  }

  lemma ExecLeadLater(db: Db, e: Event)
    ensures LeadLater(db.leader, Exec(db, e).leader)
  {
    hide Apply;
    if e.Write? {
      WritesLeaveLeadership(db, e.op);
    }
  }

  /** Each epoch belongs to one instance, and a released epoch is never active again. */
  lemma {:induction false} EpochHasOneOwner(db: Db, es: seq<Event>)
    ensures LeadLater(db.leader, Execute(db, es).leader)
    decreases |es|
  {
    hide Exec;
    if es != [] {
      ExecLeadLater(db, es[0]);
      EpochHasOneOwner(Exec(db, es[0]), es[1..]);
    }
  }

  lemma {:induction false} ExecuteConcat(db: Db, es: seq<Event>, fs: seq<Event>)
    ensures Execute(db, es + fs) == Execute(Execute(db, es), fs)
    decreases |es|
  {
    hide Exec;
    if es == [] {
      assert es + fs == fs;
    } else {
      assert (es + fs)[1..] == es[1..] + fs;
      ExecuteConcat(Exec(db, es[0]), es[1..], fs);
    }
  }

  /** The state in which event `i` of a run takes place. */
  function StateAt(db: Db, es: seq<Event>, i: nat): Db
    requires i <= |es|
  {
    Execute(db, es[..i])
  }

  /** Event `i` is a write that the fence let through. */
  predicate AcceptedWrite(db: Db, es: seq<Event>, i: nat) {
    i < |es| && es[i].Write? && Leads(StateAt(db, es, i).leader, es[i].instance, es[i].epoch, es[i].ms)
  }

  lemma StatesInOrder(db: Db, es: seq<Event>, i: nat, j: nat)
    requires i <= j <= |es|
    ensures LeadLater(StateAt(db, es, i).leader, StateAt(db, es, j).leader)
  {
    hide Execute;
    assert es[..j] == es[..i] + es[i..j];
    ExecuteConcat(db, es[..i], es[i..j]);
    EpochHasOneOwner(StateAt(db, es, i), es[i..j]);
  }

  /** The epochs of accepted writes never decrease, and writes of one epoch come from one instance. */
  lemma AcceptedEpochsNeverDecrease(db: Db, es: seq<Event>, i: nat, j: nat)
    requires i <= j && AcceptedWrite(db, es, i) && AcceptedWrite(db, es, j)
    ensures es[i].epoch <= es[j].epoch
    ensures es[i].epoch == es[j].epoch ==> es[i].instance == es[j].instance
  {
    hide Execute, StateAt;
    StatesInOrder(db, es, i, j);
  }

  /** After a takeover nothing a master of a lower epoch does has any effect. */
  lemma DeposedMasterIsFenced(db: Db, es: seq<Event>, e: Event, ms: int)
    requires e.Write? || e.RenewLead? || e.ReleaseLead?
    requires e.epoch < db.leader.epoch
    ensures Exec(Execute(db, es), e) == Execute(db, es)
    ensures !Leads(Execute(db, es).leader, e.instance, e.epoch, ms)
  {
    hide Execute, Apply;
    EpochHasOneOwner(db, es);
  }

  /** The same holds for a master of the current epoch once it has released it. */
  lemma ReleasedMasterIsFenced(db: Db, es: seq<Event>, e: Event, ms: int)
    requires e.Write? || e.RenewLead? || e.ReleaseLead?
    requires e.epoch == db.leader.epoch && !db.leader.active
    ensures Exec(Execute(db, es), e) == Execute(db, es)
    ensures !Leads(Execute(db, es).leader, e.instance, e.epoch, ms)
  {
    hide Execute, Apply;
    EpochHasOneOwner(db, es);
  }

  // ----- the epoch stamped on attempts -----

  ghost predicate Stamped(db: Db) {
    && (forall a | a in db.attempts :: db.attempts[a].epoch.Some? && db.attempts[a].epoch.value <= db.leader.epoch)
    && (forall a, b | Superseded(db, a, b) :: db.attempts[a].epoch.value <= db.attempts[b].epoch.value)
  }

  lemma ExecStamped(db: Db, e: Event)
    requires Inv(db) && Stamped(db)
    ensures Stamped(Exec(db, e))
  {
    hide Inv;
    var db' := Exec(db, e);
    ExecLater(db, e);
    if e.Write? && Leads(db.leader, e.instance, e.epoch, e.ms) && e.op.AssignOp? && db' != db {
      forall a, b | Superseded(db', a, b)
        ensures db'.attempts[a].epoch.value <= db'.attempts[b].epoch.value
      {
        if a == e.op.who.id {
          NewestIsNotSuperseded(db, e.op.chosen.value, b);
          assert false;
        }
        if b != e.op.who.id {
          assert Superseded(db, a, b);
        }
      }
    } else {
      SameAttemptIds(db, e);
      StampedKept(db, db');
    }
  }

  lemma StampedKept(db: Db, db': Db)
    requires Stamped(db) && Later(db, db') && db'.attempts.Keys == db.attempts.Keys
    ensures Stamped(db')
  {
    assert forall a | a in db'.attempts :: AttemptLater(db.attempts[a], db'.attempts[a]);
    forall a, b | Superseded(db', a, b)
      ensures db'.attempts[a].epoch.value <= db'.attempts[b].epoch.value
    {
      assert Superseded(db, a, b);
    }
  }

  lemma SameAttemptIds(db: Db, e: Event)
    requires !(e.Write? && Leads(db.leader, e.instance, e.epoch, e.ms) && e.op.AssignOp? && Exec(db, e) != db)
    ensures Exec(db, e).attempts.Keys == db.attempts.Keys
  {
    if e.Write? && !e.op.AssignOp? {
      OthersInsertNothing(db, e.op);
    }
    hide Apply;
  }

  lemma OthersInsertNothing(db: Db, op: Op)
    requires !op.AssignOp?
    ensures Apply(db, op).attempts.Keys == db.attempts.Keys
  {
    hide MayInsertAll, ArtifactsOf, FailureClassOf, AfterLoss, LosesRun, RetryDelay, LosesAttempt, CancelTask,
        FailRun, MayInsertTasks;
  }

  lemma NewestIsNotSuperseded(db: Db, t: Id, b: Id)
    requires Inv(db) && t in db.tasks && b in db.attempts && db.attempts[b].task == t
    ensures db.attempts[b].number <= db.tasks[t].attemptCount
  {
    assert TaskOk(db, t);
    assert db.attempts[b].number in Numbers(db, t);
  }

  lemma {:induction false} StampedAlways(db: Db, es: seq<Event>)
    requires Inv(db) && Stamped(db)
    ensures Stamped(Execute(db, es))
    decreases |es|
  {
    hide Inv, Exec, Stamped;
    if es != [] {
      ExecKeeps(db, es[0]);
      ExecStamped(db, es[0]);
      StampedAlways(Exec(db, es[0]), es[1..]);
    }
  }

  /** The leader epochs stamped on successive attempts of a task never decrease. */
  lemma StampsNeverDecrease(es: seq<Event>, a: Id, b: Id)
    requires Superseded(Execute(EMPTY, es), a, b)
    ensures var db := Execute(EMPTY, es);
            && db.attempts[a].epoch.Some?
            && db.attempts[b].epoch.Some?
            && db.attempts[a].epoch.value <= db.attempts[b].epoch.value <= db.leader.epoch
  {
    hide Execute;
    EmptyIsOk();
    StampedAlways(EMPTY, es);
  }
}
