/** Retries: the back-off between attempts, and the bound on their number. */
module ControlRetry {
  import opened Prelude
  import opened ControlPlane
  import opened ControlInvariant
  import opened ControlRuns
  import opened ControlTheorems

  // ----- the delay -----

  function Pow2(n: nat): (r: int)
    ensures r >= 1
  {
    if n == 0 then 1 else 2 * Pow2(n - 1)
  }

  function Min(a: int, b: int): int { if a <= b then a else b }

  /** The loop that doubles the delay. */
  method RetryBackoff(p: Policy, attempt: nat) returns (d: int)
    ensures d == RetryDelay(p, attempt)
  {
    var n := p.Normalized();
    d := n.backoffBase;
    var i := 1;
    while i < attempt
      invariant 1 <= i && (i <= attempt || i == 1)
      invariant RetryDelay(p, attempt) == Doubled(d, n.backoffMax, if attempt < i then 0 else attempt - i)
      decreases attempt - i
    {
      d := Wrap64(d * 2);
      if d >= n.backoffMax {
        return n.backoffMax;
      }
      i := i + 1;
    }
  }

  lemma Pow2Shift(d: int, n: nat)
    ensures 2 * d * Pow2(n) == d * Pow2(n + 1)
  {
  }

  lemma {:induction false} Pow2Grows(d: int, n: nat)
    requires d > 0
    ensures d * Pow2(n) >= d
  {
    if n > 0 {
      Pow2Grows(d, n - 1);
      Pow2Shift(d, n - 1);
    }
  }

  /** The first delay, and every later one below the maximum, can be doubled in 64 bits. */
  ghost predicate DoublesSafely(base: int, max: int) {
    base < TWO_63 / 2 && forall k: nat :: base * Pow2(k) < max ==> base * Pow2(k) < TWO_63 / 2
  }

  lemma Doubling(d: int)
    requires 0 < d < TWO_63
    ensures Wrap64(d * 2) == if d < TWO_63 / 2 then 2 * d else 2 * d - 2 * TWO_63
  {
  }

  lemma SafeAfterDoubling(d: int, max: int)
    requires 0 < d && 2 * d < max && DoublesSafely(d, max)
    ensures DoublesSafely(2 * d, max)
  {
    assert 2 * d == d * Pow2(1);
    forall k: nat | 2 * d * Pow2(k) < max
      ensures 2 * d * Pow2(k) < TWO_63 / 2
    {
      Pow2Shift(d, k);
      assert d * Pow2(k + 1) < max;
    }
  }

  lemma {:induction false} DoubledIsCapped(d: int, max: int, steps: nat)
    requires 0 < d <= max < TWO_63 && DoublesSafely(d, max)
    ensures Doubled(d, max, steps) == Min(d * Pow2(steps), max)
    decreases steps
  {
    if steps > 0 {
      hide Wrap64;
      Doubling(d);
      Pow2Shift(d, steps - 1);
      if 2 * d < max {
        SafeAfterDoubling(d, max);
        DoubledIsCapped(2 * d, max, steps - 1);
      } else {
        Pow2Grows(2 * d, steps - 1);
      }
    }
  }

  /** Where doubling is not safe, some number of attempts gives a negative delay. */
  lemma {:induction false} UnsafeGoesNegative(d: int, max: int, k: nat) returns (steps: nat)
    requires 0 < d <= max < TWO_63
    requires k == 0 || d * Pow2(k) < max
    requires d * Pow2(k) >= TWO_63 / 2
    ensures Doubled(d, max, steps) < 0
    decreases k
  {
    Doubling(d);
    if d >= TWO_63 / 2 {
      steps := 1;
    } else {
      Pow2Shift(d, k - 1);
      Pow2Grows(2 * d, k - 1);
      var rest := UnsafeGoesNegative(2 * d, max, k - 1);
      steps := rest + 1;
    }
  }

  /** The delay the design promises after attempt `n` ended. */
  function PromisedDelay(base: int, max: int, n: nat): int
    requires n >= 1
  {
    Min(base * Pow2(n - 1), max)
  }

  ghost predicate DelaysAsPromised(p: Policy) {
    var q := p.Normalized();
    forall n: nat | n >= 1 :: RetryDelay(p, n) == PromisedDelay(q.backoffBase, q.backoffMax, n)
  }

  /**
   The loop computes min(base * 2^(n-1), max) for every attempt exactly when
   base <= max and no delay it doubles has reached 2^62.
   */
  lemma DelayIff(p: Policy)
    requires p.backoffBase < TWO_63 && p.backoffMax < TWO_63
    ensures var q := p.Normalized();
            DelaysAsPromised(p) <==> q.backoffBase <= q.backoffMax && DoublesSafely(q.backoffBase, q.backoffMax)
  {
    var q := p.Normalized();
    var base, max := q.backoffBase, q.backoffMax;
    if base <= max && DoublesSafely(base, max) {
      forall n: nat | n >= 1
        ensures RetryDelay(p, n) == PromisedDelay(base, max, n)
      {
        DoubledIsCapped(base, max, n - 1);
      }
    } else if base > max {
      assert RetryDelay(p, 1) == base;
      assert PromisedDelay(base, max, 1) == max;
    } else {
      var k: nat :| (k == 0 || base * Pow2(k) < max) && base * Pow2(k) >= TWO_63 / 2;
      var steps := UnsafeGoesNegative(base, max, k);
      Pow2Grows(base, steps);
      assert RetryDelay(p, steps + 1) < 0 < PromisedDelay(base, max, steps + 1);
    }
  }

  /** In particular up to a maximum of 2^62 nanoseconds, about 146 years. */
  lemma DelayUpTo146Years(p: Policy)
    requires p.Normalized().backoffBase <= p.Normalized().backoffMax < TWO_63 / 2
    ensures DelaysAsPromised(p)
  {
    DelayIff(p);
  }

  // ----- spacing and number of attempts -----

  predicate LastOf(db: Db, a: Id, t: Id) {
    a in db.attempts && t in db.tasks && db.attempts[a].task == t && db.attempts[a].number == db.tasks[t].attemptCount
  }

  /** A task that waits for a retry may not be assigned before the delay after its last attempt. */
  predicate Waits(db: Db, p: Policy, a: Id, t: Id)
    requires a in db.attempts && t in db.tasks
  {
    && db.attempts[a].finishedAt.Some?
    && db.tasks[t].nextEligible.Some?
    && db.tasks[t].nextEligible.value >= db.attempts[a].finishedAt.value + RetryDelay(p, db.attempts[a].number)
  }

  /** Attempt `b` was assigned no sooner than the delay after attempt `a`. */
  predicate Apart(x: Attempt, y: Attempt, p: Policy) {
    x.finishedAt.Some? && y.assignedAt >= x.finishedAt.value + RetryDelay(p, x.number)
  }

  predicate Successive(db: Db, a: Id, b: Id) {
    && a in db.attempts
    && b in db.attempts
    && db.attempts[a].task == db.attempts[b].task
    && db.attempts[b].number == db.attempts[a].number + 1
  }

  ghost predicate Spaced(db: Db, p: Policy) {
    && (forall a, t | LastOf(db, a, t) && db.tasks[t].status == TaskStatus.Pending :: Waits(db, p, a, t))
    && (forall a, b | Successive(db, a, b) :: Apart(db.attempts[a], db.attempts[b], p))
    && (forall t | t in db.tasks :: db.tasks[t].attemptCount <= p.Normalized().maxAttempts)
  }

  /** No new attempt, and every task that waits for a retry was already waiting. */
  predicate NoRetryScheduled(db: Db, db': Db) {
    && db'.attempts.Keys == db.attempts.Keys
    && forall t | t in db'.tasks && t in db.tasks ::
         && db'.tasks[t].attemptCount == db.tasks[t].attemptCount
         && (db'.tasks[t].status == TaskStatus.Pending ==> db'.tasks[t] == db.tasks[t])
  }

  predicate NewTasksAreFresh(db: Db, db': Db) {
    forall t | t in db'.tasks && t !in db.tasks :: db'.tasks[t].attemptCount == 0
  }

  lemma LastOfPendingIsOver(db: Db, a: Id, t: Id)
    requires Inv(db) && LastOf(db, a, t) && db.tasks[t].status == TaskStatus.Pending
    ensures db.attempts[a].status != Active
  {
    assert TaskOk(db, t) && AttemptOk(db, a);
  }

  lemma SuccessorEnds(db: Db, a: Id, b: Id)
    requires Inv(db) && Successive(db, a, b)
    ensures db.attempts[a].status != Active
  {
    assert TaskOk(db, db.attempts[a].task) && AttemptOk(db, a);
    assert db.attempts[b].number in Numbers(db, db.attempts[a].task);
  }

  lemma SpacedKept(db: Db, db': Db, p: Policy)
    requires Inv(db) && Spaced(db, p) && Later(db, db') && NoRetryScheduled(db, db') && NewTasksAreFresh(db, db')
    ensures Spaced(db', p)
  {
    hide Inv, RetryDelay;
    forall a, t | LastOf(db', a, t) && db'.tasks[t].status == TaskStatus.Pending
      ensures Waits(db', p, a, t)
    {
      assert AttemptLater(db.attempts[a], db'.attempts[a]);
      NumbersBelong(db, a);
      assert LastOf(db, a, t);
      LastOfPendingIsOver(db, a, t);
    }
    forall a, b | Successive(db', a, b)
      ensures Apart(db'.attempts[a], db'.attempts[b], p)
    {
      assert AttemptLater(db.attempts[a], db'.attempts[a]) && AttemptLater(db.attempts[b], db'.attempts[b]);
      assert Successive(db, a, b);
      SuccessorEnds(db, a, b);
    }
  }

  lemma NumbersBelong(db: Db, a: Id)
    requires Inv(db) && a in db.attempts
    ensures db.attempts[a].task in db.tasks
    ensures 1 <= db.attempts[a].number <= db.tasks[db.attempts[a].task].attemptCount
  {
    var t := db.attempts[a].task;
    assert TaskOk(db, t);
    assert db.attempts[a].number in Numbers(db, t);
  }

  lemma AssignSpaced(db: Db, t: Id, who: Assignee, now: Time, p: Policy, pool: string)
    requires Inv(db) && Spaced(db, p) && Eligible(db, t, now, p, pool)
    ensures Spaced(Assign(db, Some(t), who, now, p), p)
  {
    hide RetryDelay, Inv;
    var db' := Assign(db, Some(t), who, now, p);
    if Assigns(db, t, who) {
      forall a, u | LastOf(db', a, u) && db'.tasks[u].status == TaskStatus.Pending
        ensures Waits(db', p, a, u)
      {
        assert LastOf(db, a, u);
      }
      forall a, b | Successive(db', a, b)
        ensures Apart(db'.attempts[a], db'.attempts[b], p)
      {
        if b == who.id {
          assert LastOf(db, a, t);
        } else if a == who.id {
          NumbersBelong(db, b);
          assert false;
        } else {
          assert Successive(db, a, b);
        }
      }
    }
  }

  /** Ending attempts by `AfterLoss` at `now`, whichever they are. */
  predicate LosesAt(db: Db, db': Db, now: Time, p: Policy) {
    && db'.attempts.Keys == db.attempts.Keys
    && db'.tasks.Keys == db.tasks.Keys
    && forall t | t in db.tasks ::
         db'.tasks[t] == db.tasks[t] || LostAt(db, db', t, now, p)
  }

  predicate LostAt(db: Db, db': Db, t: Id, now: Time, p: Policy)
    requires t in db.tasks && t in db'.tasks
  {
    && db.tasks[t].current.Some?
    && var a := db.tasks[t].current.value;
    && a in db.attempts
    && a in db'.attempts
    && db'.attempts[a].finishedAt == Some(now)
    && db'.tasks[t] == AfterLoss(db.tasks[t], db.attempts[a].number, now, p)
  }

  lemma LossSpaced(db: Db, db': Db, now: Time, p: Policy)
    requires Inv(db) && Spaced(db, p) && Later(db, db') && LosesAt(db, db', now, p)
    ensures Spaced(db', p)
  {
    hide RetryDelay;
    forall a, t | LastOf(db', a, t) && db'.tasks[t].status == TaskStatus.Pending
      ensures Waits(db', p, a, t)
    {
      assert AttemptLater(db.attempts[a], db'.attempts[a]);
      assert TaskOk(db, t);
      assert LastOf(db, a, t);
      if db'.tasks[t] == db.tasks[t] {
        LastOfPendingIsOver(db, a, t);
      } else {
        assert LostAt(db, db', t, now, p);
      }
    }
    forall a, b | Successive(db', a, b)
      ensures Apart(db'.attempts[a], db'.attempts[b], p)
    {
      assert AttemptLater(db.attempts[a], db'.attempts[a]) && AttemptLater(db.attempts[b], db'.attempts[b]);
      assert Successive(db, a, b);
      SuccessorEnds(db, a, b);
    }
  }

  lemma ExpireLoses(db: Db, now: Time, p: Policy)
    requires Inv(db)
    ensures LosesAt(db, Expire(db, now, p), now, p)
  {
    hide AfterLoss, LosesRun;
  }

  lemma AbandonLoses(db: Db, t: Id, a: Id, worker: string, now: Time, p: Policy)
    ensures LosesAt(db, Abandon(db, t, a, worker, now, p), now, p)
  {
    hide AfterLoss;
  }

  lemma OthersScheduleNothing(db: Db, op: Op)
    requires Inv(db) && !op.AssignOp? && !op.AbandonOp? && !op.ExpireOp?
    ensures NoRetryScheduled(db, Apply(db, op)) && NewTasksAreFresh(db, Apply(db, op))
  {
    hide Inv, MayInsertAll, ArtifactsOf, FailureClassOf;
  }

  /** Every assignment, expiry and abandonment of the run is made under policy `p`. */
  predicate PolicyIs(es: seq<Event>, p: Policy) {
    forall i | 0 <= i < |es| && es[i].Write? ::
      (es[i].op.AssignOp? || es[i].op.AbandonOp? || es[i].op.ExpireOp?) ==> es[i].op.policy == p
  }

  lemma ExecSpaced(db: Db, e: Event, p: Policy)
    requires Inv(db) && Legal(db, e) && Spaced(db, p) && PolicyIs([e], p)
    ensures Spaced(Exec(db, e), p)
  {
    hide Inv, Spaced, Eligible, Assign, Abandon, Expire, Later, Complete, CancelRun, FinalizeRun;
    ExecLater(db, e);
    if e.Write? && Leads(db.leader, e.instance, e.epoch, e.ms) {
      assert [e][0].op == e.op;
      match e.op
      case AssignOp(chosen, who, now, policy, pool) =>
        if chosen.Some? {
          AssignSpaced(db, chosen.value, who, now, p, pool);
        } else {
          NothingAssigned(db, who, now, p);
        }
      case AbandonOp(t, a, w, now, policy) =>
        AbandonLoses(db, t, a, w, now, p);
        LossSpaced(db, Exec(db, e), now, p);
      case ExpireOp(now, policy) =>
        ExpireLoses(db, now, p);
        LossSpaced(db, Exec(db, e), now, p);
      case _ =>
        OthersScheduleNothing(db, e.op);
        SpacedKept(db, Exec(db, e), p);
    } else {
      SpacedKept(db, Exec(db, e), p);
    }
  }

  lemma NothingAssigned(db: Db, who: Assignee, now: Time, p: Policy)
    ensures Assign(db, None, who, now, p) == db
  {
  }

  lemma {:induction false} SpacedAlways(db: Db, es: seq<Event>, p: Policy)
    requires Inv(db) && LegalRun(db, es) && Spaced(db, p) && PolicyIs(es, p)
    ensures Spaced(Execute(db, es), p)
    decreases |es|
  {
    hide Inv, Exec, Legal, Spaced;
    if es != [] {
      assert PolicyIs([es[0]], p);
      assert PolicyIs(es[1..], p);
      ExecKeeps(db, es[0]);
      ExecSpaced(db, es[0], p);
      SpacedAlways(Exec(db, es[0]), es[1..], p);
    }
  }

  function AttemptsOf(db: Db, t: Id): set<Id> { set a | a in db.attempts && db.attempts[a].task == t }

  /** Ids with distinct numbers in 1..n are at most n. */
  lemma {:induction false} CountByNumber(db: Db, ids: set<Id>, t: Id, n: nat)
    requires DistinctNumbers(db) && ids <= AttemptsOf(db, t)
    requires forall a | a in ids :: 1 <= db.attempts[a].number <= n
    ensures |ids| <= n
    decreases n
  {
    if a :| a in ids && db.attempts[a].number == n {
      CountByNumber(db, ids - {a}, t, n - 1);
    } else if n > 0 {
      CountByNumber(db, ids, t, n - 1);
    } else {
      assert forall a :: a !in ids;
    }
  }

  /** In every reachable state a task has had at most maxAttempts attempts. */
  lemma AttemptsAreBounded(es: seq<Event>, p: Policy, t: Id)
    requires LegalRun(EMPTY, es) && PolicyIs(es, p) && t in Execute(EMPTY, es).tasks
    ensures |AttemptsOf(Execute(EMPTY, es), t)| <= p.Normalized().maxAttempts
  {
    hide Execute, LegalRun, Inv;
    EmptyIsOk();
    InvAlways(EMPTY, es);
    SpacedAlways(EMPTY, es, p);
    var db := Execute(EMPTY, es);
    forall a | a in AttemptsOf(db, t)
      ensures 1 <= db.attempts[a].number <= db.tasks[t].attemptCount
    {
      NumbersBelong(db, a);
    }
    InvDistinct(db);
    CountByNumber(db, AttemptsOf(db, t), t, db.tasks[t].attemptCount);
  }

  lemma InvDistinct(db: Db)
    requires Inv(db)
    ensures DistinctNumbers(db)
  {
  }

  /** A retry is assigned no sooner than min(base * 2^(n-1), max) after attempt n ended. */
  lemma RetriesAreSpaced(es: seq<Event>, p: Policy, a: Id, b: Id)
    requires LegalRun(EMPTY, es) && PolicyIs(es, p) && Successive(Execute(EMPTY, es), a, b)
    requires p.Normalized().backoffBase <= p.Normalized().backoffMax < TWO_63
    requires DoublesSafely(p.Normalized().backoffBase, p.Normalized().backoffMax)
    ensures var db := Execute(EMPTY, es);
            var x, y, q := db.attempts[a], db.attempts[b], p.Normalized();
            && x.number >= 1
            && x.finishedAt.Some?
            && y.assignedAt >= x.finishedAt.value + PromisedDelay(q.backoffBase, q.backoffMax, x.number)
  {
    hide Execute, LegalRun, Inv, RetryDelay, DoublesSafely;
    EmptyIsOk();
    InvAlways(EMPTY, es);
    SpacedAlways(EMPTY, es, p);
    var db := Execute(EMPTY, es);
    NumbersBelong(db, a);
    DelayIff(p);
    assert Apart(db.attempts[a], db.attempts[b], p);
  }

  /** The last expiry quarantines the task and fails its run; an earlier one schedules a retry. */
  lemma LastExpiryQuarantines(db: Db, now: Time, p: Policy, a: Id)
    requires Inv(db) && Expirable(db, a, now)
    ensures var t := db.attempts[a].task;
            var db' := Expire(db, now, p);
            && db'.attempts[a].status == Expired
            && (if db.tasks[t].attemptCount >= p.Normalized().maxAttempts
                then db'.tasks[t].status == TaskStatus.Quarantined &&
                    db'.runs[db.tasks[t].run].status == RunStatus.Failed
                else db'.tasks[t].status == TaskStatus.Pending
                     && db'.tasks[t].nextEligible == Some(now + RetryDelay(p, db.tasks[t].attemptCount)))
  {
    hide RetryDelay;
    var t := db.attempts[a].task;
    assert TaskOk(db, t);
    assert a in ExpirableAttempts(db, now);
    if db.tasks[t].attemptCount >= p.Normalized().maxAttempts {
      assert Exhausts(db, a, db.tasks[t].run, p);
      assert LosesRun(db, db.tasks[t].run, ExpirableAttempts(db, now), p);
    }
  }

  /** A run that is not RUNNING is left as it is, and so is every run that loses no last attempt. */
  lemma ExpiryFailsOnlyExhaustedRuns(db: Db, now: Time, p: Policy, r: Id)
    requires Inv(db) && r in db.runs
    ensures Expire(db, now, p).runs[r] == db.runs[r] ||
            exists a :: Expirable(db, a, now) && Exhausts(db, a, r, p) &&
                Expire(db, now, p).tasks[db.attempts[a].task].status == TaskStatus.Quarantined
  {
    hide RetryDelay;
    if Expire(db, now, p).runs[r] != db.runs[r] {
      var a :| a in ExpirableAttempts(db, now) && Exhausts(db, a, r, p);
      assert TaskOk(db, db.attempts[a].task);
    }
  }

  lemma LastAbandonmentQuarantines(db: Db, t: Id, a: Id, worker: string, now: Time, p: Policy)
    requires Inv(db) && Abandons(db, t, a, worker)
    ensures var db' := Abandon(db, t, a, worker, now, p);
            var r := db.tasks[t].run;
            && db'.attempts[a].status == AttemptStatus.Failed
            && (if db.tasks[t].attemptCount >= p.Normalized().maxAttempts
                then && db'.tasks[t].status == TaskStatus.Quarantined
                     && db'.runs[r].status ==
                         (if db.runs[r].status == RunStatus.Running then RunStatus.Failed else db.runs[r].status)
                else && db'.runs == db.runs
                     && db'.tasks[t].status == TaskStatus.Pending
                     && db'.tasks[t].nextEligible == Some(now + RetryDelay(p, db.tasks[t].attemptCount)))
  {
    hide RetryDelay;
    assert TaskOk(db, t);
  }
}
