/** What claims, renewals and failures leave in the row of a COMMITTING run. */
module CommitEffects {
  import opened Prelude
  import opened ControlPlane
  import opened ControlRetry
  import opened CommitClaims

  /** COMMITTING and not given up. */
  predicate Publishable(row: CommitRow) {
    row.status == RunStatus.Committing && row.reconciliation in {Blank, PendingCommit, RetryRequired}
  }

  /** Somebody's claim has not run out. */
  predicate Claimed(row: CommitRow, now: Time) { row.token != "" && row.expires.Some? && now < row.expires.value }

  /** A publishable run that is due and not claimed is claimed; any other is left alone. */
  lemma ClaimEffect(row: CommitRow, token: string, now: Time, lease: int, p: CommitPolicy)
    ensures var due := row.nextEligible.Some? ==> row.nextEligible.value <= now;
            Next(row, Claim(token, now, lease), p) ==
            if Publishable(row) && due && !Claimed(row, now) then row.(token := token, expires := Some(now + lease))
            else row
  {
  }

  /** A renewal moves the expiry of a COMMITTING run whose claim it is and has not run out, and does nothing else. */
  lemma RenewalEffect(row: CommitRow, token: string, now: Time, lease: int, p: CommitPolicy)
    requires token != ""
    ensures Next(row, RenewClaim(token, now, lease), p) ==
            if row.status == RunStatus.Committing && row.token == token && Claimed(row, now)
            then row.(expires := Some(now + lease)) else row
  {
  }

  /** Only the holder releases, and then anyone may claim a run that is due. */
  lemma ReleaseEffect(row: CommitRow, token: string, other: string, now: Time, lease: int, p: CommitPolicy)
    ensures row.token != token ==> Next(row, ReleaseClaim(token), p) == row
    ensures row.token == token ==> !Claimed(Next(row, ReleaseClaim(token), p), now)
    ensures row.token == token && Publishable(row) && (row.nextEligible.Some? ==> row.nextEligible.value <= now) ==>
              Next(Next(row, ReleaseClaim(token), p), Claim(other, now, lease), p).token == other
  {
  }

  /**
   A failure of a COMMITTING run is counted. The run is tried again after the
   promised delay when the failure is retryable, needs no operator and is not the
   last; otherwise it FAILED, for good or for the operator.
   */
  lemma FailureEffect(row: CommitRow, retryable: bool, operatorAction: bool, now: Time, p: CommitPolicy)
    ensures row.status != RunStatus.Committing ==> Failure(row, retryable, operatorAction, now, p) == row
    ensures row.status == RunStatus.Committing ==>
              var most := if p.maxAttempts > 0 then p.maxAttempts else 5;
              var again := retryable && !operatorAction && row.failures + 1 < most;
              var row' := Failure(row, retryable, operatorAction, now, p);
              && row'.failures == row.failures + 1
              && row'.token == row.token && row'.expires == row.expires
              && row'.status == (if again then RunStatus.Committing else RunStatus.Failed)
              && row'.reconciliation ==
                  (if again then RetryRequired else if operatorAction then ActionRequired else Terminal)
              && row'.finishedAt == (if again then None else Some(now))
              && (!again ==> row'.nextEligible.None?)
              && (again && BackoffIsSafe(p) ==> row'.nextEligible == Some(now + DelayAfter(p, row.failures + 1)))
  {
    hide Backoff;
    if row.status == RunStatus.Committing && BackoffIsSafe(p) {
      BackoffIsCapped(p, row.failures + 1);
    }
  }

  /** The promised delay: the base, doubled for every further failure, at most the maximum; 1 s and 60 s by default. */
  function DelayAfter(p: CommitPolicy, n: nat): int
    requires n >= 1
  {
    PromisedDelay(if p.base > 0 then p.base else 1_000_000_000, if p.max > 0 then p.max else 60_000_000_000, n)
  }

  /** A commit begins for a RUNNING run with a clean slate, and publication ends a COMMITTING one; others are left. */
  lemma CommitStepsEffect(row: CommitRow, wall: Time, p: CommitPolicy)
    ensures Next(row, BeginCommit, p) ==
            if row.status == RunStatus.Running
            then CommitRow(RunStatus.Committing, PendingCommit, 0, None, row.token, row.expires, None) else row
    ensures Next(row, Publish(wall), p) ==
            if row.status == RunStatus.Committing
            then CommitRow(RunStatus.Succeeded, Complete, row.failures, None, row.token, row.expires,
                Some(wall)) else row
  {
  }

  /** So many retryable failures in a row. */
  function Failures(n: nat, now: Time): seq<Step> { seq(n, _ => Fail(true, false, now)) }

  /** A run that fails time and again fails for good with exactly the last of the permitted attempts. */
  lemma {:induction false} FailsAtLast(row: CommitRow, p: CommitPolicy, n: nat, now: Time)
    requires row.status == RunStatus.Committing && row.failures < p.Normalized().maxAttempts
    ensures After(row, Failures(n, now), p).status ==
            if row.failures + n < p.Normalized().maxAttempts then RunStatus.Committing else RunStatus.Failed
    decreases n
  {
    hide Backoff, BackoffIsSafe;
    if n > 0 {
      var ss := Failures(n, now);
      assert ss[1..] == Failures(n - 1, now);
      FailureEffect(row, true, false, now, p);
      var row' := Failure(row, true, false, now, p);
      if row'.status == RunStatus.Committing {
        FailsAtLast(row', p, n - 1, now);
      } else {
        FailedStays(row', p, n - 1, now);
      }
    }
  }

  lemma {:induction false} FailedStays(row: CommitRow, p: CommitPolicy, n: nat, now: Time)
    requires row.status == RunStatus.Failed
    ensures After(row, Failures(n, now), p) == row
    decreases n
  {
    hide Backoff;
    if n > 0 {
      assert Failures(n, now)[1..] == Failures(n - 1, now);
      FailedStays(row, p, n - 1, now);
    }
  }

  /** Nothing a claim, renewal, release or failure does reopens a run that is over. */
  lemma {:induction false} OverIsFinal(row: CommitRow, ss: seq<Step>, p: CommitPolicy)
    requires row.status in {RunStatus.Succeeded, RunStatus.Failed, RunStatus.Canceled}
    ensures After(row, ss, p).status == row.status && After(row, ss, p).failures == row.failures
    ensures After(row, ss, p).finishedAt == row.finishedAt
    decreases |ss|
  {
    hide Backoff;
    if ss != [] {
      OverIsFinal(Next(row, ss[0], p), ss[1..], p);
    }
  }
}
