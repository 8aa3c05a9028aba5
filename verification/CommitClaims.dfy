/** Claims on a COMMITTING run and the retries of its publication. */
module CommitClaims {
  import opened Prelude
  import opened ControlPlane
  import opened ControlRetry

  datatype Reconciliation = Blank | PendingCommit | RetryRequired | Terminal | ActionRequired | Complete

  /** The columns of a run row that decide who may publish it. */
  datatype CommitRow = CommitRow(
    status: RunStatus,
    reconciliation: Reconciliation,
    failures: nat,
    nextEligible: Option<Time>,
    token: string,
    expires: Option<Time>,
    finishedAt: Option<Time>)

  datatype CommitPolicy = CommitPolicy(maxAttempts: int, base: int, max: int)
  {
    function Normalized(): (p: CommitPolicy)
      ensures p.maxAttempts > 0 && p.base > 0 && p.max > 0
    {
      CommitPolicy(
        if maxAttempts <= 0 then 5 else maxAttempts,
        if base <= 0 then SECOND else base,
        if max <= 0 then 60 * SECOND else max)
    }
  }

  /** The delay after the n-th failure. */
  function Backoff(p: CommitPolicy, n: nat): int {
    var q := p.Normalized();
    Doubled(q.base, q.max, if n == 0 then 0 else n - 1)
  }

  predicate MayRetry(r: Reconciliation) { r == Blank || r == PendingCommit || r == RetryRequired }

  predicate MayClaim(row: CommitRow, now: Time) {
    && row.status == RunStatus.Committing
    && MayRetry(row.reconciliation)
    && (row.nextEligible.None? || row.nextEligible.value <= now)
    && (row.token == "" || row.expires.None? || row.expires.value <= now)
  }

  predicate MayRenew(row: CommitRow, token: string, now: Time) {
    row.status == RunStatus.Committing && row.token == token && row.expires.Some? && row.expires.value > now
  }

  datatype Step =
    | Claim(token: string, now: Time, lease: int)
    | RenewClaim(token: string, now: Time, lease: int)
    | ReleaseClaim(token: string)
    | Fail(retryable: bool, operatorAction: bool, now: Time)
    | BeginCommit
    | Publish(wall: Time)

  /** The row after a failure was recorded. */
  function Failure(row: CommitRow, retryable: bool, operatorAction: bool, now: Time, p: CommitPolicy): CommitRow {
    if row.status != RunStatus.Committing then row
    else
      var n := row.failures + 1;
      if !operatorAction && retryable && n < p.Normalized().maxAttempts then
        row.(reconciliation := RetryRequired, failures := n, nextEligible := Some(now + Backoff(p, n)),
            finishedAt := None)
      else
        row.(status := RunStatus.Failed, reconciliation := if operatorAction then ActionRequired else Terminal,
             failures := n, nextEligible := None, finishedAt := Some(now))
  }

  function Next(row: CommitRow, s: Step, p: CommitPolicy): CommitRow {
    match s
    case Claim(token, now, lease) =>
      if MayClaim(row, now) then row.(token := token, expires := Some(now + lease)) else row
    case RenewClaim(token, now, lease) =>
      if MayRenew(row, token, now) then row.(expires := Some(now + lease)) else row
    case ReleaseClaim(token) =>
      if row.token == token then row.(token := "", expires := None) else row
    case Fail(retryable, operatorAction, now) => Failure(row, retryable, operatorAction, now, p)
    case BeginCommit =>
      if row.status == RunStatus.Running
      then row.(status := RunStatus.Committing, reconciliation := PendingCommit, failures := 0,
          nextEligible := None, finishedAt := None)
      else row
    case Publish(wall) =>
      if row.status == RunStatus.Committing
      then row.(status := RunStatus.Succeeded, reconciliation := Complete, nextEligible := None,
          finishedAt := Some(wall))
      else row
  }

  function After(row: CommitRow, ss: seq<Step>, p: CommitPolicy): CommitRow
    decreases |ss|
  {
    if ss == [] then row else After(Next(row, ss[0], p), ss[1..], p)
  }

  /** Clock readings do not go back. */
  function Reading(s: Step, time: Time): Time {
    match s
    case Claim(_, now, _) => now
    case RenewClaim(_, now, _) => now
    case Fail(_, _, now) => now
    case _ => time
  }

  predicate Timed(time: Time, ss: seq<Step>)
    decreases |ss|
  {
    ss == [] || (time <= Reading(ss[0], time) && Timed(Reading(ss[0], time), ss[1..]))
  }

  // ----- exclusivity -----

  /** Token `k` is not used by anyone but its holder, who neither releases nor claims again; leases are `lease` long. */
  predicate HeldBy(ss: seq<Step>, k: string, lease: int) {
    forall i | 0 <= i < |ss| :: HolderKeeps(ss[i], k, lease)
  }

  predicate HolderKeeps(s: Step, k: string, lease: int) {
    && (s.Claim? || s.ReleaseClaim? ==> s.token != k)
    && (s.Claim? || s.RenewClaim? ==> s.lease == lease)
  }

  /** `k` holds the claim at least until `until`, or that moment is over. */
  predicate HoldsUntil(row: CommitRow, k: string, until: Time, lease: int, time: Time) {
    || until <= time
    || (row.token == k && row.expires.Some? && row.expires.value >= until && row.expires.value <= time + lease)
  }

  lemma NextHolds(row: CommitRow, s: Step, p: CommitPolicy, k: string, until: Time, lease: int, time: Time)
    requires HoldsUntil(row, k, until, lease, time) && HolderKeeps(s, k, lease) && time <= Reading(s, time) && k != ""
    ensures HoldsUntil(Next(row, s, p), k, until, lease, Reading(s, time))
    ensures s.Claim? && MayClaim(row, s.now) ==> s.now >= until
  {
    hide Backoff;
  }

  /**
   A token that claimed or renewed with expiry `until` is not overtaken: no
   other claim succeeds before `until` in any continuation.
   */
  lemma {:induction false} ClaimIsExclusive(row: CommitRow, ss: seq<Step>, i: nat, p: CommitPolicy, k: string,
      until: Time, lease: int, time: Time)
    requires k != "" && HoldsUntil(row, k, until, lease, time) && HeldBy(ss, k, lease) && Timed(time, ss)
    requires i < |ss| && ss[i].Claim? && MayClaim(After(row, ss[..i], p), ss[i].now)
    ensures ss[i].now >= until
    decreases |ss|
  {
    hide Next, HoldsUntil;
    assert HolderKeeps(ss[0], k, lease);
    NextHolds(row, ss[0], p, k, until, lease, time);
    if i > 0 {
      var rest := ss[1..];
      assert HeldBy(rest, k, lease);
      assert ss[..i][1..] == rest[..i - 1];
      ClaimIsExclusive(Next(row, ss[0], p), rest, i - 1, p, k, until, lease, Reading(ss[0], time));
    }
  }

  /** Successful claims and renewals establish the hold. */
  lemma ClaimHolds(row: CommitRow, s: Step, p: CommitPolicy)
    requires (s.Claim? && MayClaim(row, s.now)) || (s.RenewClaim? && MayRenew(row, s.token, s.now))
    ensures HoldsUntil(Next(row, s, p), s.token, s.now + s.lease, s.lease, s.now)
  {
  }

  // ----- expiry -----

  /** The claim of `k` is over at `time`. */
  predicate Over(row: CommitRow, k: string, time: Time) {
    row.token == k && row.expires.Some? ==> row.expires.value <= time
  }

  /** A claim that expired, or was lost, is never renewed again unless `k` claims anew. */
  lemma {:induction false} ExpiredClaimIsDead(row: CommitRow, ss: seq<Step>, p: CommitPolicy, k: string,
      over: Time, time: Time, now: Time, lease: int)
    requires Over(row, k, over) && over <= time && Timed(time, ss) && now >= over
    requires forall i | 0 <= i < |ss| && ss[i].Claim? :: ss[i].token != k
    ensures Over(After(row, ss, p), k, over)
    ensures Next(After(row, ss, p), RenewClaim(k, now, lease), p) == After(row, ss, p)
    decreases |ss|
  {
    if ss != [] {
      NextOver(row, ss[0], p, k, over, time);
      ExpiredClaimIsDead(Next(row, ss[0], p), ss[1..], p, k, over, Reading(ss[0], time), now, lease);
    }
  }

  lemma NextOver(row: CommitRow, s: Step, p: CommitPolicy, k: string, over: Time, time: Time)
    requires Over(row, k, over) && over <= time <= Reading(s, time) && (s.Claim? ==> s.token != k)
    ensures Over(Next(row, s, p), k, over)
  {
    hide Backoff;
  }

  // ----- bounded failures -----

  predicate FewFailures(row: CommitRow, p: CommitPolicy) {
    row.status == RunStatus.Committing ==> row.failures < p.Normalized().maxAttempts
  }

  /** A COMMITTING run always has fewer recorded failures than the maximum. */
  lemma {:induction false} FailuresAreBounded(row: CommitRow, ss: seq<Step>, p: CommitPolicy)
    requires FewFailures(row, p)
    ensures FewFailures(After(row, ss, p), p)
    decreases |ss|
  {
    hide Backoff;
    if ss != [] {
      FailuresAreBounded(Next(row, ss[0], p), ss[1..], p);
    }
  }

  // ----- back-off -----

  /** The exact condition for the capped doubling, as for task retries. */
  ghost predicate BackoffIsSafe(p: CommitPolicy) {
    p.Normalized().base <= p.Normalized().max < TWO_63 && DoublesSafely(p.Normalized().base, p.Normalized().max)
  }

  lemma BackoffIsCapped(p: CommitPolicy, n: nat)
    requires BackoffIsSafe(p) && n >= 1
    ensures Backoff(p, n) == PromisedDelay(p.Normalized().base, p.Normalized().max, n)
  {
    var q := p.Normalized();
    DoubledIsCapped(q.base, q.max, n - 1);
  }

  lemma {:induction false} PromisedGrows(base: int, max: int, m: nat, n: nat)
    requires 1 <= m <= n && base > 0
    ensures PromisedDelay(base, max, m) <= PromisedDelay(base, max, n)
    decreases n
  {
    if m < n {
      PromisedGrows(base, max, m, n - 1);
      Pow2Shift(base, n - 2);
      Pow2Grows(base, n - 2);
    }
  }

  /** After the n-th failure at `at`: the run is over, or it may not be claimed before the delay. */
  predicate BacksOff(row: CommitRow, p: CommitPolicy, at: Time, n: nat) {
    || row.status == RunStatus.Failed
    || row.status == RunStatus.Succeeded
    || (&& row.status == RunStatus.Committing
        && row.failures >= n
        && row.nextEligible.Some?
        && row.nextEligible.value >= at + Backoff(p, n))
  }

  lemma NextBacksOff(row: CommitRow, s: Step, p: CommitPolicy, at: Time, n: nat, time: Time)
    requires BackoffIsSafe(p) && n >= 1 && BacksOff(row, p, at, n) && at <= time <= Reading(s, time)
    ensures BacksOff(Next(row, s, p), p, at, n)
    ensures s.Claim? && MayClaim(row, s.now) ==> s.now >= at + Backoff(p, n)
  {
    hide Backoff, BackoffIsSafe;
    if s.Fail? && row.status == RunStatus.Committing {
      BackoffIsCapped(p, n);
      BackoffIsCapped(p, row.failures + 1);
      PromisedGrows(p.Normalized().base, p.Normalized().max, n, row.failures + 1);
    }
  }

  /** No claim succeeds sooner than min(base * 2^(n-1), max) after the n-th failure. */
  lemma {:induction false} ClaimsBackOff(row: CommitRow, ss: seq<Step>, i: nat, p: CommitPolicy, at: Time,
      n: nat, time: Time)
    requires BackoffIsSafe(p) && n >= 1 && BacksOff(row, p, at, n) && at <= time && Timed(time, ss)
    requires i < |ss| && ss[i].Claim? && MayClaim(After(row, ss[..i], p), ss[i].now)
    ensures ss[i].now >= at + PromisedDelay(p.Normalized().base, p.Normalized().max, n)
    decreases |ss|
  {
    hide Next, BacksOff, Backoff, BackoffIsSafe;
    NextBacksOff(row, ss[0], p, at, n, time);
    if i == 0 {
      BackoffIsCapped(p, n);
    } else {
      assert ss[..i][1..] == ss[1..][..i - 1];
      ClaimsBackOff(Next(row, ss[0], p), ss[1..], i - 1, p, at, n, Reading(ss[0], time));
    }
  }

  /** Recording a failure of a COMMITTING run starts the back-off. */
  lemma FailureBacksOff(row: CommitRow, retryable: bool, operatorAction: bool, now: Time, p: CommitPolicy)
    requires row.status == RunStatus.Committing
    ensures BacksOff(Failure(row, retryable, operatorAction, now, p), p, now, row.failures + 1)
  {
    hide Backoff;
  }

  // ----- the row in the store -----

  class RunCommit {
    var status: RunStatus
    var reconciliation: Reconciliation
    var failures: nat
    var nextEligible: Option<Time>
    var token: string
    var expires: Option<Time>
    var finishedAt: Option<Time>

    function Row(): CommitRow
      reads this
    {
      CommitRow(status, reconciliation, failures, nextEligible, token, expires, finishedAt)
    }

    method ClaimCommittingRun(claim: string, now: Time, lease: int) returns (claimed: bool)
      modifies this
      ensures Row() == Next(old(Row()), Claim(claim, now, lease), CommitPolicy(0, 0, 0))
      ensures claimed <==> MayClaim(old(Row()), now)
    {
      claimed := status == RunStatus.Committing
        && (reconciliation == Blank || reconciliation == PendingCommit || reconciliation == RetryRequired)
        && (nextEligible.None? || nextEligible.value <= now)
        && (token == "" || expires.None? || expires.value <= now);
      if claimed {
        token, expires := claim, Some(now + lease);
      }
    }

    method RenewCommitClaim(claim: string, now: Time, lease: int) returns (ok: bool)
      modifies this
      ensures Row() == Next(old(Row()), RenewClaim(claim, now, lease), CommitPolicy(0, 0, 0))
      ensures ok <==> MayRenew(old(Row()), claim, now)
    {
      ok := status == RunStatus.Committing && token == claim && expires.Some? && expires.value > now;
      if ok {
        expires := Some(now + lease);
      }
    }

    method ReleaseCommitClaim(claim: string)
      modifies this
      ensures Row() == Next(old(Row()), ReleaseClaim(claim), CommitPolicy(0, 0, 0))
    {
      if token == claim {
        token, expires := "", None;
      }
    }

    method RecordCommitReconciliationFailure(retryable: bool, operatorAction: bool, now: Time, p: CommitPolicy)
      modifies this
      ensures Row() == Next(old(Row()), Fail(retryable, operatorAction, now), p)
    {
      hide Backoff;
      if status != RunStatus.Committing {
        return;
      }
      var q := p.Normalized();
      var n := failures + 1;
      if operatorAction || !retryable || n >= q.maxAttempts {
        status, finishedAt, nextEligible := RunStatus.Failed, Some(now), None;
        reconciliation := if operatorAction then ActionRequired else Terminal;
      } else {
        var delay := CommitBackoff(p, n);
        reconciliation, nextEligible, finishedAt := RetryRequired, Some(now + delay), None;
      }
      failures := n;
    }
  }

  /** The doubling loop. */
  method CommitBackoff(p: CommitPolicy, n: nat) returns (delay: int)
    ensures delay == Backoff(p, n)
  {
    var q := p.Normalized();
    delay := q.base;
    var i := 1;
    while i < n
      invariant 1 <= i && (i <= n || i == 1)
      invariant Backoff(p, n) == Doubled(delay, q.max, if n < i then 0 else n - i)
      decreases n - i
    {
      delay := Wrap64(delay * 2);
      if delay >= q.max {
        delay := q.max;
        break;
      }
      i := i + 1;
    }
  }
}
