/** The queries of the control plane: loops over rows that find what a step function asks for. */
module ControlSelection {
  import opened Prelude
  import opened ControlPlane

  /** The first `n` ids of a query result. */
  function First(ids: seq<Id>, n: nat): set<Id>
    requires n <= |ids|
  {
    set i | 0 <= i < n :: ids[i]
  }

  predicate Distinct(ids: seq<Id>) { forall i, j | 0 <= i < j < |ids| :: ids[i] != ids[j] }

  lemma FirstMore(ids: seq<Id>, n: nat)
    requires n < |ids|
    ensures First(ids, n + 1) == First(ids, n) + {ids[n]}
  {
    forall x | x in First(ids, n + 1)
      ensures x in First(ids, n) + {ids[n]}
    {
      var i :| 0 <= i < n + 1 && ids[i] == x;
      assert i == n || x in First(ids, n);
    }
    forall x | x in First(ids, n) + {ids[n]}
      ensures x in First(ids, n + 1)
    {
      if x == ids[n] {
      } else {
        var i :| 0 <= i < n && ids[i] == x;
      }
    }
  }

  lemma {:induction false} DistinctSize(ids: seq<Id>, n: nat)
    requires Distinct(ids) && n <= |ids|
    ensures |First(ids, n)| == n
  {
    if n == 0 {
      assert First(ids, 0) == {};
    } else {
      DistinctSize(ids, n - 1);
      FirstMore(ids, n - 1);
      assert ids[n - 1] !in First(ids, n - 1);
    }
  }

  // ----- the next task -----

  lemma BeforeIsStrict(db: Db, a: Id, b: Id, c: Id)
    requires a in db.tasks && db.tasks[a].run in db.runs
    requires b in db.tasks && db.tasks[b].run in db.runs
    requires c in db.tasks && db.tasks[c].run in db.runs
    ensures !Before(db, a, a)
    ensures Before(db, a, b) && Before(db, b, c) ==> Before(db, a, c)
  {
    hide RunningTasksOf;
  }

  /** The first eligible task in scheduling order. */
  method SelectNext(db: Db, now: Time, p: Policy, pool: string) returns (best: Option<Id>)
    ensures FirstEligible(db, best, now, p, pool)
  {
    hide Eligible, Before;
    best := None;
    var todo := db.tasks.Keys;
    forall u | Eligible(db, u, now, p, pool)
      ensures u in todo
    {
      RowsExist(db, u, now, p, pool);
    }
    while todo != {}
      invariant todo <= db.tasks.Keys
      invariant best.Some? ==> Eligible(db, best.value, now, p, pool)
      invariant forall u | Eligible(db, u, now, p, pool) && u !in todo ::
                  best.Some? && EligibleRows(db, u, best.value) && !Before(db, u, best.value)
      decreases |todo|
    {
      ghost var some := Member(todo);
      var t :| t in todo;
      todo := todo - {t};
      if Eligible(db, t, now, p, pool) {
        RowsExist(db, t, now, p, pool);
        if best.None? {
          best := Some(t);
          BeforeIsStrict(db, t, t, t);
        } else {
          RowsExist(db, best.value, now, p, pool);
          if Before(db, t, best.value) {
            forall u | Eligible(db, u, now, p, pool) && u !in todo
              ensures EligibleRows(db, u, t) && !Before(db, u, t)
            {
              RowsExist(db, u, now, p, pool);
              BeforeIsStrict(db, u, t, best.value);
            }
            best := Some(t);
          }
        }
      }
    }
  }

  predicate EligibleRows(db: Db, a: Id, b: Id) {
    a in db.tasks && db.tasks[a].run in db.runs && b in db.tasks && db.tasks[b].run in db.runs
  }

  lemma RowsExist(db: Db, t: Id, now: Time, p: Policy, pool: string)
    requires Eligible(db, t, now, p, pool)
    ensures t in db.tasks && db.tasks[t].run in db.runs
  {
  }

  lemma ChosenExists(db: Db, t: Id, now: Time, p: Policy, pool: string)
    requires FirstEligible(db, Some(t), now, p, pool)
    ensures t in db.tasks
  {
  }

  // ----- lapsed leases -----

  lemma Lapsed(db: Db, now: Time)
    ensures forall a | a in ExpirableAttempts(db, now) ::
              a in db.attempts && db.attempts[a].status == Active && db.attempts[a].leaseDeadline <= now
  {
  }

  method SelectExpirable(db: Db, now: Time) returns (items: seq<Id>)
    ensures Distinct(items) && First(items, |items|) == ExpirableAttempts(db, now)
    ensures forall a | a in items ::
              a in db.attempts && db.attempts[a].status == Active && db.attempts[a].leaseDeadline <= now
  {
    hide Expirable;
    Lapsed(db, now);
    items := [];
    var todo := db.attempts.Keys;
    while todo != {}
      invariant todo <= db.attempts.Keys
      invariant Distinct(items)
      invariant forall i | 0 <= i < |items| :: items[i] !in todo && items[i] in ExpirableAttempts(db, now)
      invariant forall a | a in ExpirableAttempts(db, now) && a !in todo :: a in items
      decreases |todo|
    {
      ghost var some := Member(todo);
      var a :| a in todo;
      todo := todo - {a};
      if Expirable(db, a, now) {
        items := items + [a];
      }
    }
  }

  lemma LiveAttemptsStay(db: Db, now: Time, policy: Policy)
    ensures forall a | a in db.attempts && db.attempts[a].leaseDeadline > now ::
              a in Expire(db, now, policy).attempts && Expire(db, now, policy).attempts[a] == db.attempts[a]
  {
    hide AfterLoss, LosesRun, FailRun;
    Lapsed(db, now);
  }

  /** The three updates for one row of the scan, each guarded as the statements are. */
  function ExpireItem(db: Db, a: Id, t: Id, number: nat, run: Id, now: Time, policy: Policy): Db {
    if a !in db.attempts || db.attempts[a].status != Active then db
    else
      var expired := db.(attempts := db.attempts[a := db.attempts[a].(
        status := Expired, finishedAt := Some(now), failureClass := "LEASE_EXPIRED")]);
      if t !in db.tasks || db.tasks[t].current != Some(a) then expired
      else if number >= policy.Normalized().maxAttempts then
        expired.(
          tasks := db.tasks[t := Quarantine(db.tasks[t], now)],
          runs := if run in db.runs then db.runs[run := FailRun(db.runs[run], now)] else db.runs)
      else expired.(tasks := db.tasks[t := Requeue(db.tasks[t], now + RetryDelay(policy, number))])
  }

  lemma ItemIsIntact(db: Db, items: seq<Id>, i: nat, now: Time, policy: Policy)
    requires Distinct(items) && i < |items| && First(items, |items|) == ExpirableAttempts(db, now)
    ensures Expirable(db, items[i], now) && items[i] !in First(items, i)
    ensures items[i] in db.attempts && db.attempts[items[i]].task in db.tasks
  {
    assert items[i] in First(items, |items|);
  }

  /** Expiring one more attempt after a set of others is expiring all of them at once. */
  lemma ExpireItemIsSet(db: Db, lost: set<Id>, a: Id, now: Time, policy: Policy)
    requires Expirable(db, a, now) && a !in lost
    ensures var x := db.attempts[a];
            ExpireItem(ExpireSet(db, lost, now, policy), a, x.task, x.number, db.tasks[x.task].run, now, policy)
            == ExpireSet(db, lost + {a}, now, policy)
  {
    hide RetryDelay;
    var x := db.attempts[a];
    var t := x.task;
    var run := db.tasks[t].run;
    var one := ExpireItem(ExpireSet(db, lost, now, policy), a, t, x.number, run, now, policy);
    var all := ExpireSet(db, lost + {a}, now, policy);
    assert one.attempts == all.attempts;
    assert one.tasks == all.tasks;
    forall r | r in db.runs
      ensures LosesRun(db, r, lost + {a}, policy) <==> LosesRun(db, r, lost, policy) || Exhausts(db, a, r, policy)
    {
      if LosesRun(db, r, lost + {a}, policy) {
        var b :| b in lost + {a} && Exhausts(db, b, r, policy);
      }
      if LosesRun(db, r, lost, policy) {
        var b :| b in lost && Exhausts(db, b, r, policy);
        assert b in lost + {a};
      }
      if Exhausts(db, a, r, policy) {
        assert a in lost + {a};
      }
    }
    assert one.runs == all.runs;
  }

  lemma ExpireOneMore(db: Db, items: seq<Id>, i: nat, now: Time, policy: Policy)
    requires i < |items| && Expirable(db, items[i], now) && items[i] !in First(items, i)
    ensures var x := db.attempts[items[i]];
            ExpireItem(ExpireSet(db, First(items, i), now, policy), items[i], x.task, x.number,
                db.tasks[x.task].run, now, policy)
            == ExpireSet(db, First(items, i + 1), now, policy)
  {
    hide ExpireSet, ExpireItem;
    FirstMore(items, i);
    ExpireItemIsSet(db, First(items, i), items[i], now, policy);
  }

  lemma NoneLost(db: Db, now: Time, policy: Policy)
    ensures ExpireSet(db, {}, now, policy) == db
  {
    var out := ExpireSet(db, {}, now, policy);
    assert out.attempts == db.attempts && out.tasks == db.tasks && out.runs == db.runs;
  }

  lemma NothingExpires(db: Db, now: Time, policy: Policy)
    requires ExpirableAttempts(db, now) == {}
    ensures Expire(db, now, policy) == db
  {
    hide ExpireSet;
    NoneLost(db, now, policy);
  }

  /** The expiry step only touches these three tables. */
  lemma OtherTablesSame(db: Db, lost: set<Id>, now: Time, policy: Policy)
    ensures ExpireSet(db, lost, now, policy).artifacts == db.artifacts
    ensures ExpireSet(db, lost, now, policy).leader == db.leader
  {
  }

  // ----- artifact rows -----

  lemma ArtifactsMore(c: Caller, rs: seq<Record>, i: nat)
    requires i < |rs|
    ensures ArtifactsOf(c, rs[..i + 1])
         == ArtifactsOf(c, rs[..i]) + {Artifact(c.task, c.attempt, rs[i].fileIndex, rs[i].objectKey)}
  {
    var more, few := rs[..i + 1], rs[..i];
    forall x
      ensures x in ArtifactsOf(c, more) <==>
              x in ArtifactsOf(c, few) || x == Artifact(c.task, c.attempt, rs[i].fileIndex, rs[i].objectKey)
    {
      if x in ArtifactsOf(c, more) {
        var k :| 0 <= k < |more| && x == Artifact(c.task, c.attempt, more[k].fileIndex, more[k].objectKey);
        assert k == i || few[k] == more[k];
      }
      if x in ArtifactsOf(c, few) {
        var k :| 0 <= k < |few| && x == Artifact(c.task, c.attempt, few[k].fileIndex, few[k].objectKey);
        assert more[k] == few[k];
      }
      assert more[i] == rs[i];
    }
  }

  /** The records inserted one by one; any mismatch or duplicate ends the transaction. */
  method InsertArtifacts(present: set<Artifact>, c: Caller, rs: seq<Record>, run: Id, number: nat)
    returns (stored: set<Artifact>, ok: bool)
    ensures ok <==> MayInsertAll(present, c, rs, run, number)
    ensures ok ==> stored == present + ArtifactsOf(c, rs)
  {
    hide ArtifactsOf, MayInsertArtifact;
    stored := present;
    assert rs[0..] == rs;
    NoArtifacts(c, rs[..0]);
    for i := 0 to |rs|
      invariant MayInsertAll(present, c, rs, run, number) <==> MayInsertAll(stored, c, rs[i..], run, number)
      invariant stored == present + ArtifactsOf(c, rs[..i])
    {
      assert rs[i..][1..] == rs[i + 1..];
      if !MayInsertArtifact(stored, c, rs[i], run, number) {
        return stored, false;
      }
      ArtifactsMore(c, rs, i);
      stored := stored + {Artifact(c.task, c.attempt, rs[i].fileIndex, rs[i].objectKey)};
    }
    assert rs[..|rs|] == rs;
    return stored, true;
  }

  lemma NoArtifacts(c: Caller, rs: seq<Record>)
    requires rs == []
    ensures ArtifactsOf(c, rs) == {}
  {
  }

  // ----- waiting runs -----

  lemma NothingAdmitted(db: Db)
    ensures AdmitAll(db, {}) == db
  {
    assert AdmitAll(db, {}).runs == db.runs;
  }

  method Oldest(db: Db, rest: set<Id>) returns (r: Id)
    requires rest != {} && rest <= db.runs.Keys
    ensures r in rest && forall b | b in rest && b != r :: OlderRun(db, r, b)
  {
    ghost var some := Member(rest);
    r :| r in rest;
    var todo := rest - {r};
    while todo != {}
      invariant r in rest && todo <= rest
      invariant forall b | b in rest && b !in todo && b != r :: OlderRun(db, r, b)
      decreases |todo|
    {
      ghost var more := Member(todo);
      var b :| b in todo;
      todo := todo - {b};
      if OlderRun(db, b, r) {
        r := b;
      }
    }
  }

  /** The ids of the query with ORDER BY started_at, id and LIMIT n. */
  method SelectWaiting(db: Db, n: nat) returns (ids: seq<Id>)
    ensures Distinct(ids) && |ids| == (if |WaitingRuns(db)| < n then |WaitingRuns(db)| else n)
    ensures First(ids, |ids|) <= WaitingRuns(db)
    ensures forall a, b | a in First(ids, |ids|) && b in WaitingRuns(db) && b !in First(ids, |ids|) ::
        OlderRun(db, a, b)
  {
    hide IsWaiting, OlderRun;
    ids := [];
    var rest := WaitingRuns(db);
    while |ids| < n && rest != {}
      invariant Distinct(ids) && |ids| <= n && rest <= WaitingRuns(db)
      invariant |ids| + |rest| == |WaitingRuns(db)|
      invariant forall i | 0 <= i < |ids| :: ids[i] in WaitingRuns(db) && ids[i] !in rest
      invariant forall b | b in WaitingRuns(db) && b !in rest :: b in ids
      invariant forall i, b | 0 <= i < |ids| && b in rest :: OlderRun(db, ids[i], b)
    {
      var r := Oldest(db, rest);
      ids := ids + [r];
      rest := rest - {r};
    }
  }

  lemma NothingWaits(db: Db, limit: int)
    requires limit > 0 && (|ActiveRuns(db)| >= limit || WaitingRuns(db) == {})
    ensures OldestWaiting(db, {}, limit)
  {
  }

  lemma ChosenAreOldest(db: Db, ids: seq<Id>, limit: int)
    requires |ActiveRuns(db)| < limit && Distinct(ids)
    requires |ids| ==
        (if |WaitingRuns(db)| < limit - |ActiveRuns(db)| then |WaitingRuns(db)| else limit - |ActiveRuns(db)|)
    requires First(ids, |ids|) <= WaitingRuns(db)
    requires forall a, b | a in First(ids, |ids|) && b in WaitingRuns(db) && b !in First(ids, |ids|) ::
        OlderRun(db, a, b)
    ensures OldestWaiting(db, First(ids, |ids|), limit)
  {
    hide OlderRun, ActiveRuns, IsWaiting;
    DistinctSize(ids, |ids|);
  }

  lemma IdIsWaiting(db: Db, ids: seq<Id>, i: nat)
    requires i < |ids| && Distinct(ids) && First(ids, |ids|) <= WaitingRuns(db)
    ensures ids[i] in db.runs && db.runs[ids[i]].status == RunStatus.Planning
    ensures AdmitAll(db, First(ids, i)).runs[ids[i]] == db.runs[ids[i]]
  {
    assert ids[i] in First(ids, |ids|);
  }

  lemma AdmitOneMore(db: Db, ids: seq<Id>, i: nat)
    requires i < |ids| && ids[i] in db.runs && Distinct(ids)
    ensures var few := AdmitAll(db, First(ids, i));
            AdmitAll(db, First(ids, i + 1))
            == few.(runs := few.runs[ids[i] := few.runs[ids[i]].(status := RunStatus.Running, finishedAt := None)])
  {
    FirstMore(ids, i);
    var few := AdmitAll(db, First(ids, i));
    assert AdmitAll(db, First(ids, i + 1)).runs
        == few.runs[ids[i] := few.runs[ids[i]].(status := RunStatus.Running, finishedAt := None)];
  }
}
