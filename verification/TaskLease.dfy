/** Task leases as the worker and the master see them. */
module TaskLease {
  import opened Prelude
  import opened ControlPlane
  import opened ControlInvariant
  import opened ControlRuns
  import opened ControlTheorems

  // ----- the worker's loop -----

  /** A third of the remaining time, between one and ten seconds, but never past the deadline. */
  function RenewalDelay(now: Time, deadline: Time): (delay: int)
    ensures now < deadline ==> now < now + delay <= deadline
    ensures deadline - now >= 3 * SECOND ==>
        delay == if deadline - now > 30 * SECOND then 10 * SECOND else (deadline - now) / 3
    ensures deadline - now < 3 * SECOND ==> delay == if deadline - now < SECOND then deadline - now else SECOND
  {
    var remaining := deadline - now;
    var third := if remaining >= 0 then remaining / 3 else -(-remaining / 3);
    var capped := if third > 10 * SECOND then 10 * SECOND else third;
    var interval := if capped < SECOND then SECOND else capped;
    if interval > remaining then remaining else interval
  }

  /** What one renewal call returned, with the clock reading after a failure. */
  datatype Reply = Renewed(deadlineMs: int) | Refused(retryable: bool, after: Time)

  /** What happens during one pass of the loop: the clock readings and the reply. */
  datatype Turn = Stopped(start: Time) | Woken(start: Time, woke: Time, reply: Reply)

  datatype End = Waiting | Quit | OwnershipLost

  /** What the loop did while it believed in `deadline`. */
  datatype Action = Sleep(from: Time, until: Time, deadline: Time) | Call(at: Time, deadline: Time)

  predicate ActsInTime(x: Action) {
    match x
    case Sleep(from, until, deadline) => from < until <= deadline
    case Call(at, deadline) => at < deadline
  }

  const MILLISECOND: int := 1_000_000

  /** The deadline the worker holds after a sequence of turns in which it did not stop. */
  function Believed(first: Time, turns: seq<Turn>): Time {
    if turns == [] then first
    else
      var last := turns[|turns| - 1];
      if last.Woken? && last.reply.Renewed? then last.reply.deadlineMs * MILLISECOND
      else Believed(first, turns[..|turns| - 1])
  }

  /** The worker gives up in this turn. */
  predicate LosesIn(turn: Turn, deadline: Time) {
    || turn.start >= deadline
    || (turn.Woken? && (turn.woke >= deadline
                        || (turn.reply.Refused? && (!turn.reply.retryable || turn.reply.after >= deadline))))
  }

  /** Turn `k` slept as planned, asked for a renewal in time and went on. */
  predicate Goes(first: Time, turns: seq<Turn>, log: seq<Action>, k: nat)
    requires k < |turns|
  {
    var deadline, turn := Believed(first, turns[..k]), turns[k];
    && turn.Woken?
    && !LosesIn(turn, deadline)
    && 2 * k + 1 < |log|
    && log[2 * k] == Sleep(turn.start, turn.start + RenewalDelay(turn.start, deadline), deadline)
    && log[2 * k + 1] == Call(turn.woke, deadline)
  }

  lemma GoesStays(first: Time, turns: seq<Turn>, log: seq<Action>, x: Action, k: nat)
    requires k < |turns| && Goes(first, turns, log, k)
    ensures Goes(first, turns, log + [x], k)
  {
    hide RenewalDelay, LosesIn, Believed;
  }

  /**
   The loop: every wake-up lies in (now, deadline], every call is made before
   the deadline, and ownership is given up in the first turn in which a reading
   reaches the deadline or the master refuses for good.
   */
  method MaintainTaskLease(deadlineMs: int, turns: seq<Turn>) returns (end: End, used: nat, log: seq<Action>)
    ensures used <= |turns|
    ensures forall k | 0 <= k < |log| :: ActsInTime(log[k])
    ensures forall k | 0 <= k < used - 1 :: Goes(deadlineMs * MILLISECOND, turns, log, k)
    ensures end == Waiting ==> used == |turns|
    ensures end == Waiting && used > 0 ==> Goes(deadlineMs * MILLISECOND, turns, log, used - 1)
    ensures end == OwnershipLost ==>
        used > 0 && LosesIn(turns[used - 1], Believed(deadlineMs * MILLISECOND, turns[..used - 1]))
    ensures end == Quit ==>
        used > 0 && turns[used - 1].Stopped? &&
            turns[used - 1].start < Believed(deadlineMs * MILLISECOND, turns[..used - 1])
  {
    hide RenewalDelay, Goes;
    var first := deadlineMs * MILLISECOND;
    var deadline := first;
    used, log := 0, [];
    while used < |turns|
      invariant used <= |turns| && |log| == 2 * used
      invariant deadline == Believed(first, turns[..used])
      invariant forall k | 0 <= k < |log| :: ActsInTime(log[k])
      invariant forall k | 0 <= k < used :: Goes(first, turns, log, k)
      decreases |turns| - used
    {
      var turn := turns[used];
      assert turns[..used + 1][..used] == turns[..used];
      if turn.start >= deadline {
        return OwnershipLost, used + 1, log;
      }
      var sleep := Sleep(turn.start, turn.start + RenewalDelay(turn.start, deadline), deadline);
      forall k | 0 <= k < used
        ensures Goes(first, turns, log + [sleep], k)
        ensures turn.Woken? ==> Goes(first, turns, log + [sleep] + [Call(turn.woke, deadline)], k)
      {
        GoesStays(first, turns, log, sleep, k);
        if turn.Woken? {
          GoesStays(first, turns, log + [sleep], Call(turn.woke, deadline), k);
        }
      }
      log := log + [sleep];
      if turn.Stopped? {
        return Quit, used + 1, log;
      }
      if turn.woke >= deadline {
        return OwnershipLost, used + 1, log;
      }
      log := log + [Call(turn.woke, deadline)];
      if turn.reply.Refused? && (!turn.reply.retryable || turn.reply.after >= deadline) {
        return OwnershipLost, used + 1, log;
      }
      ThisTurnGoes(first, turns, log, used, deadline);
      if turn.reply.Renewed? {
        deadline := turn.reply.deadlineMs * MILLISECOND;
      }
      used := used + 1;
    }
    return Waiting, used, log;
  }

  lemma ThisTurnGoes(first: Time, turns: seq<Turn>, log: seq<Action>, k: nat, deadline: Time)
    requires k < |turns| && turns[k].Woken? && deadline == Believed(first, turns[..k]) && !LosesIn(turns[k], deadline)
    requires 2 * k + 1 < |log|
    requires log[2 * k] == Sleep(turns[k].start, turns[k].start + RenewalDelay(turns[k].start, deadline), deadline)
    requires log[2 * k + 1] == Call(turns[k].woke, deadline)
    ensures Goes(first, turns, log, k)
  {
  }

  // ----- the worker beside the master -----

  /** The clock reading with which a transaction was made. */
  function Reading(op: Op): Option<Time> {
    match op
    case AssignOp(_, _, now, _, _) => Some(now)
    case RenewOp(_, now, _) => Some(now)
    case ProgressOp(_, _, now) => Some(now)
    case CompleteOp(_, _, _, _, now, _) => Some(now)
    case AbandonOp(_, _, _, now, _) => Some(now)
    case ExpireOp(now, _) => Some(now)
    case _ => None
  }

  function Later(time: Time, e: Event): Time {
    if e.Write? && Reading(e.op).Some? then Reading(e.op).value else time
  }

  /** Master time does not go back. */
  predicate Timed(time: Time, es: seq<Event>)
    decreases |es|
  {
    es == [] || (time <= Later(time, es[0]) && Timed(Later(time, es[0]), es[1..]))
  }

  /** Leases are given and renewed for `d`. */
  predicate LeasesFor(e: Event, d: int) {
    e.Write? ==>
      && (e.op.AssignOp? ==> e.op.policy.Normalized().duration == d)
      && (e.op.RenewOp? ==> (if e.op.duration <= 0 then 30 * SECOND else e.op.duration) == d)
  }

  /** Deadlines lie exactly one lease after the last renewal, which is in the past. */
  predicate Leased(db: Db, time: Time, d: int) {
    forall a | a in db.attempts ::
      db.attempts[a].leaseDeadline == db.attempts[a].lastRenewed + d && db.attempts[a].lastRenewed <= time
  }

  /** Only assignment and renewal touch lease columns. */
  predicate LeasesKept(db: Db, db': Db) {
    && db'.attempts.Keys == db.attempts.Keys
    && forall a | a in db.attempts ::
         db'.attempts[a].leaseDeadline == db.attempts[a].leaseDeadline &&
             db'.attempts[a].lastRenewed == db.attempts[a].lastRenewed
  }

  lemma OthersKeepLeases(db: Db, op: Op)
    requires !op.AssignOp? && !op.RenewOp?
    ensures LeasesKept(db, Apply(db, op))
  {
    hide AfterLoss, RetryDelay, MayInsertAll, ArtifactsOf, FailureClassOf, LosesRun, FailRun;
  }

  lemma ExecLeased(db: Db, e: Event, time: Time, d: int)
    requires Leased(db, time, d) && time <= Later(time, e) && LeasesFor(e, d)
    ensures Leased(Exec(db, e), Later(time, e), d)
    ensures forall a | a in db.attempts :: a in Exec(db, e).attempts
              && db.attempts[a].leaseDeadline <= Exec(db, e).attempts[a].leaseDeadline
  {
    if e.Write? && !e.op.AssignOp? && !e.op.RenewOp? {
      hide Apply;
      OthersKeepLeases(db, e.op);
    }
  }

  /** The answer a step sends to the worker of attempt `a`: its deadline in whole milliseconds. */
  function SentTo(db: Db, e: Event, a: Id): set<int> {
    var db' := Exec(db, e);
    if e.Write? && a in db'.attempts
       && (|| (e.op.AssignOp? && a !in db.attempts)
           || (e.op.RenewOp? && e.op.caller.attempt == a && Leads(db.leader, e.instance, e.epoch, e.ms) &&
               Holds(db, e.op.caller, e.op.now)))
    then {db'.attempts[a].leaseDeadline / MILLISECOND} else {}
  }

  /** Steps of the two together. A reply may be lost, or arrive late, or more than once. */
  datatype Happening = Master(event: Event) | Deliver(deadlineMs: int)

  datatype System = System(db: Db, sent: set<int>, believed: Option<Time>)

  function Advance(s: System, h: Happening, a: Id): System {
    match h
    case Master(e) => System(Exec(s.db, e), s.sent + SentTo(s.db, e, a), s.believed)
    case Deliver(v) => if v in s.sent then s.(believed := Some(v * MILLISECOND)) else s
  }

  function Evolve(s: System, hs: seq<Happening>, a: Id): System
    decreases |hs|
  {
    if hs == [] then s else Evolve(Advance(s, hs[0], a), hs[1..], a)
  }

  predicate Steady(hs: seq<Happening>, time: Time, d: int)
    decreases |hs|
  {
    hs == [] ||
    (match hs[0]
     case Master(e) => time <= Later(time, e) && LeasesFor(e, d) && Steady(hs[1..], Later(time, e), d)
     case Deliver(_) => Steady(hs[1..], time, d))
  }

  predicate WorkerBehind(s: System, a: Id) {
    && (forall v | v in s.sent :: a in s.db.attempts && v * MILLISECOND <= s.db.attempts[a].leaseDeadline)
    && (s.believed.Some? ==> a in s.db.attempts && s.believed.value <= s.db.attempts[a].leaseDeadline)
  }

  lemma AdvanceKeepsBehind(s: System, h: Happening, a: Id, time: Time, d: int)
    requires WorkerBehind(s, a) && Leased(s.db, time, d)
    requires h.Master? ==> time <= Later(time, h.event) && LeasesFor(h.event, d)
    ensures WorkerBehind(Advance(s, h, a), a)
  {
    hide Exec;
    if h.Master? {
      ExecLeased(s.db, h.event, time, d);
    }
  }

  /** The deadline the worker believes in never exceeds the one the master has on record. */
  lemma {:induction false} WorkerNeverAhead(s: System, hs: seq<Happening>, a: Id, time: Time, d: int)
    requires WorkerBehind(s, a) && Leased(s.db, time, d) && Steady(hs, time, d)
    ensures WorkerBehind(Evolve(s, hs, a), a)
    decreases |hs|
  {
    hide Exec, WorkerBehind, Leased, SentTo;
    if hs != [] {
      AdvanceKeepsBehind(s, hs[0], a, time, d);
      match hs[0]
      case Master(e) =>
        ExecLeased(s.db, e, time, d);
        WorkerNeverAhead(Advance(s, hs[0], a), hs[1..], a, Later(time, e), d);
      case Deliver(_) =>
        WorkerNeverAhead(Advance(s, hs[0], a), hs[1..], a, time, d);
    }
  }

  /** Started together from an empty database, the worker is never ahead. */
  lemma WorkerNeverAheadFromStart(hs: seq<Happening>, a: Id, time: Time, d: int)
    requires Steady(hs, time, d)
    ensures var s := Evolve(System(EMPTY, {}, None), hs, a);
            s.believed.Some? ==> a in s.db.attempts && s.believed.value <= s.db.attempts[a].leaseDeadline
  {
    hide Evolve, Steady;
    WorkerNeverAhead(System(EMPTY, {}, None), hs, a, time, d);
  }

  // ----- after the deadline -----

  predicate Lapsed(db: Db, a: Id, time: Time) { a in db.attempts && db.attempts[a].leaseDeadline <= time }

  lemma LapsedCallIsFenced(db: Db, op: Op, a: Id, time: Time)
    requires Lapsed(db, a, time) && CallBy(op, a) && !op.AbandonOp? && Reading(op).value >= time
    ensures Apply(db, op) == db
  {
  }

  lemma ExecKeepsLapsed(db: Db, e: Event, a: Id, time: Time)
    requires Lapsed(db, a, time) && time <= Later(time, e)
    ensures Lapsed(Exec(db, e), a, time)
  {
    if e.Write? && !e.op.AssignOp? && !e.op.RenewOp? {
      hide Apply;
      OthersKeepLeases(db, e.op);
    }
  }

  lemma {:induction false} LapsedForEver(db: Db, es: seq<Event>, a: Id, lapse: Time, time: Time)
    requires Lapsed(db, a, lapse) && lapse <= time && Timed(time, es)
    ensures Lapsed(Execute(db, es), a, lapse)
    decreases |es|
  {
    hide Exec, Lapsed;
    if es != [] {
      ExecKeepsLapsedAt(db, es[0], a, lapse, time);
      LapsedForEver(Exec(db, es[0]), es[1..], a, lapse, Later(time, es[0]));
    }
  }

  lemma ExecKeepsLapsedAt(db: Db, e: Event, a: Id, lapse: Time, time: Time)
    requires Lapsed(db, a, lapse) && lapse <= time <= Later(time, e)
    ensures Lapsed(Exec(db, e), a, lapse)
  {
    hide Exec, Lapsed;
    ExecKeepsLapsed(db, e, a, lapse);
  }

  /**
   Once its deadline has passed, no renewal, progress or new result of an
   attempt ever takes effect, whether or not the expiry scan has run.
   */
  lemma LapsedAttemptIsDead(db: Db, es: seq<Event>, a: Id, time: Time, op: Op)
    requires Lapsed(db, a, time) && Timed(time, es)
    requires CallBy(op, a) && !op.AbandonOp? && Reading(op).value >= time
    ensures Apply(Execute(db, es), op) == Execute(db, es)
  {
    hide Execute, Apply, Timed, Lapsed;
    LapsedForEver(db, es, a, time, time);
    LapsedCallIsFenced(Execute(db, es), op, a, time);
  }
}
