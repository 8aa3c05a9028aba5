/** Safety of object cleanup over every interleaving with the rest of the system. */
module ObjectCleanupSafety {
  import opened Prelude
  import opened ObjectCleanup

  const BATCH: nat := 500

  datatype Step =
    | DiscoverStep(found: Found, now: Time)
    | ClaimStep(id: CandidateId, token: string, now: Time, lease: int)
    | AuthorizeStep(attempt: CleanupId, token: string, now: Time)
    | FinishStep(attempt: CleanupId, token: string, result: DeleteResult, now: Time, retry: int, max: int, dryRun: bool)
    | ExpireStep(now: Time)
    | CancelStep(id: CandidateId)
    | PruneStep(gone: set<Id>, cutoff: Time)
    | OtherStep(tables: Tables)

  function Next(w: World, s: Step, retention: int): World {
    match s
    case DiscoverStep(f, now) => Discover(w, f, now, retention)
    case ClaimStep(id, token, now, lease) => Claim(w, id, token, now, lease)
    case AuthorizeStep(a, token, _) => Authorize(w, a, token)
    case FinishStep(a, token, result, now, retry, max, dryRun) => Finish(w, a, token, result, now, retry, max, dryRun)
    case ExpireStep(now) => ExpireCleanups(w, now)
    case CancelStep(id) => CancelCleanup(w, id)
    case PruneStep(gone, _) => Prune(w, gone)
    case OtherStep(tables) => w.(tables := tables)
  }

  /** Artifacts and uploads carry the run of their attempt. */
  predicate TablesOk(t: Tables) {
    && (forall k | k in t.artifacts :: AttemptOfRun(t, t.artifacts[k].attempt, t.artifacts[k].run))
    && (forall u | u in t.uploads :: AttemptOfRun(t, t.uploads[u].attempt, t.uploads[u].run))
    && (forall x | x in t.tasks :: t.tasks[x].run in t.runs)
  }

  /** What the rest of the system may do to the tables: settled runs and identities stay as they are. */
  predicate TablesMove(t: Tables, t': Tables) {
    && TablesOk(t')
    && (forall r | r in t.runs ::
        r in t'.runs && (Settled(t.runs[r].status) ==> SamePublication(t.runs[r], t'.runs[r])))
    && (forall x | x in t.tasks :: x in t'.tasks && t'.tasks[x].run == t.tasks[x].run)
    && (forall a | a in t.attempts :: a in t'.attempts && t'.attempts[a].task == t.attempts[a].task)
    && (forall k | k in t'.artifacts ::
        (k in t.artifacts && t.artifacts[k] == t'.artifacts[k]) || AcceptedNow(t, t'.artifacts[k].run))
  }

  predicate SamePublication(r: RunRow, r': RunRow) {
    r'.status == r.status && r'.commitId == r.commitId && r'.commitPhase == r.commitPhase
  }

  /** An artifact is accepted only while its run is not settled. */
  predicate AcceptedNow(t: Tables, run: Id) { run in t.runs ==> !Settled(t.runs[run].status) }

  ghost predicate Legal(w: World, s: Step) {
    match s
    case DiscoverStep(f, _) => Orphaned(w, f)
    case ClaimStep(id, _, now, _) => FirstClaimable(w, id, now)
    case PruneStep(gone, cutoff) => |gone| <= BATCH && forall a | a in gone :: Prunable(w, a, cutoff)
    case OtherStep(t) => TablesMove(w.tables, t)
    case _ => true
  }

  /** No claimable candidate has an earlier end of quarantine. */
  ghost predicate FirstClaimable(w: World, id: CandidateId, now: Time) {
    Claimable(w, id, now) &&
    forall x | Claimable(w, x, now) :: w.candidates[id].quarantineUntil <= w.candidates[x].quarantineUntil
  }

  function Reading(s: Step, time: Time): Time {
    match s
    case DiscoverStep(_, now) => now
    case ClaimStep(_, _, now, _) => now
    case AuthorizeStep(_, _, now) => now
    case FinishStep(_, _, _, now, _, _, _) => now
    case ExpireStep(now) => now
    case _ => time
  }

  function After(w: World, ss: seq<Step>, retention: int): World
    decreases |ss|
  {
    if ss == [] then w else After(Next(w, ss[0], retention), ss[1..], retention)
  }

  /** Legal steps with clock readings that do not go back. */
  ghost predicate LegalRun(w: World, ss: seq<Step>, time: Time, retention: int)
    decreases |ss|
  {
    ss == [] || (Legal(w, ss[0]) && time <= Reading(ss[0], time)
                 && LegalRun(Next(w, ss[0], retention), ss[1..], Reading(ss[0], time), retention))
  }

  // ----- the invariant -----

  predicate InProgress(s: CandidateStatus) { s == DeletePending || s == Deleting }

  /** The candidate's own run published, or began to. */
  predicate Publishing(r: RunRow) {
    r.status.Succeeded? || r.status.Committing? || r.commitId != "" || r.commitPhase != ""
  }

  /** The object is an accepted artifact of the candidate's run, and that run published or began a commit. */
  predicate InUse(t: Tables, id: CandidateId, c: Candidate) {
    && id.key in t.artifacts
    && t.artifacts[id.key].run == c.run
    && c.run in t.runs
    && Publishing(t.runs[c.run])
  }

  predicate CandidateOk(w: World, id: CandidateId, time: Time, retention: int)
    requires id in w.candidates
  {
    var c := w.candidates[id];
    && AttemptOfRun(w.tables, id.attempt, c.run)
    && c.run in w.tables.runs
    && (InProgress(c.status) <==> c.current.Some?)
    && (c.current.Some? ==>
          && c.current.value == CleanupId(id, c.count)
          && c.current.value in w.cleanups
          && w.cleanups[c.current.value].status == Held)
    && (if c.count == 0 then c.quarantineUntil == c.discoveredAt + Retention(retention)
        else c.discoveredAt + Retention(retention) <= time)
    && (c.status == Deleting ==> Settled(w.tables.runs[c.run].status) && !InUse(w.tables, id, c))
  }

  /** A held cleanup attempt is the current one of its candidate. */
  predicate CleanupOk(w: World, a: CleanupId)
    requires a in w.cleanups
  {
    && a.candidate in w.candidates
    && 1 <= a.number <= w.candidates[a.candidate].count
    && (w.cleanups[a].status == Held ==> w.candidates[a.candidate].current == Some(a))
  }

  ghost predicate Inv(w: World, time: Time, retention: int) {
    && TablesOk(w.tables)
    && (forall id | id in w.candidates :: CandidateOk(w, id, time, retention))
    && (forall a | a in w.cleanups :: CleanupOk(w, a))
  }

  // ----- preservation -----

  /** A step that leaves a candidate's rows alone keeps it. */
  lemma CandidateKept(w: World, w': World, id: CandidateId, time: Time, time': Time, retention: int)
    requires id in w.candidates && id in w'.candidates && CandidateOk(w, id, time, retention) && time <= time'
    requires w'.tables == w.tables && w'.candidates[id] == w.candidates[id]
    requires forall a | a in w.cleanups && a.candidate == id && w.cleanups[a].status == Held ::
        a in w'.cleanups && w'.cleanups[a].status == Held
    ensures CandidateOk(w', id, time', retention)
  {
    hide InUse, AttemptOfRun;
  }

  lemma NewCandidateOk(w: World, f: Found, now: Time, retention: int)
    requires TablesOk(w.tables) && Orphaned(w, f) && f.id !in w.candidates
    ensures CandidateOk(Discover(w, f, now, retention), f.id, now, retention)
  {
  }

  lemma DiscoverKeeps(w: World, f: Found, now: Time, time: Time, retention: int)
    requires Inv(w, time, retention) && Orphaned(w, f) && time <= now
    ensures Inv(Discover(w, f, now, retention), now, retention)
  {
    var w' := Discover(w, f, now, retention);
    forall id | id in w'.candidates
      ensures CandidateOk(w', id, now, retention)
    {
      hide CandidateOk, Orphaned;
      if id in w.candidates {
        CandidateKept(w, w', id, time, now, retention);
      } else {
        NewCandidateOk(w, f, now, retention);
      }
    }
    forall a | a in w'.cleanups
      ensures CleanupOk(w', a)
    {
      assert CleanupOk(w, a);
    }
  }

  /** A candidate that is blocked, or gets its next attempt. */
  lemma ClaimedIsOk(w: World, id: CandidateId, token: string, now: Time, lease: int, time: Time, retention: int)
    requires id in w.candidates && CandidateOk(w, id, time, retention) && time <= now
    ensures CandidateOk(Claim(w, id, token, now, lease), id, now, retention)
  {
    hide EvidenceOf, InUse, AttemptOfRun, MayInsertCleanup;
  }

  lemma ClaimedCleanupIsOk(w: World, id: CandidateId, token: string, now: Time, lease: int, a: CleanupId)
    requires a in Claim(w, id, token, now, lease).cleanups && (a in w.cleanups ==> CleanupOk(w, a))
    requires id in w.candidates && (w.candidates[id].current.Some? ==> !Claimable(w, id, now))
    ensures CleanupOk(Claim(w, id, token, now, lease), a)
  {
    hide EvidenceOf;
  }

  lemma ClaimKeeps(w: World, id: CandidateId, token: string, now: Time, lease: int, time: Time, retention: int)
    requires Inv(w, time, retention) && time <= now
    ensures Inv(Claim(w, id, token, now, lease), now, retention)
  {
    var w' := Claim(w, id, token, now, lease);
    if id !in w.candidates {
      KeptLater(w, time, now, retention);
    } else {
      ClaimFrame(w, id, token, now, lease);
      hide Claim, CandidateOk, CleanupOk, TablesOk;
      forall x | x in w'.candidates
        ensures CandidateOk(w', x, now, retention)
      {
        if x == id {
          ClaimedIsOk(w, id, token, now, lease, time, retention);
        } else {
          CandidateKept(w, w', x, time, now, retention);
        }
      }
      forall a | a in w'.cleanups
        ensures CleanupOk(w', a)
      {
        ClaimedCleanupIsOk(w, id, token, now, lease, a);
      }
    }
  }

  /** A claim touches one candidate and adds at most one attempt. */
  lemma ClaimFrame(w: World, id: CandidateId, token: string, now: Time, lease: int)
    ensures var w' := Claim(w, id, token, now, lease);
            && w'.tables == w.tables
            && w'.candidates.Keys == w.candidates.Keys
            && (forall x | x in w.candidates && x != id :: w'.candidates[x] == w.candidates[x])
            && (forall a | a in w.cleanups :: a in w'.cleanups && w'.cleanups[a] == w.cleanups[a])
  {
    hide EvidenceOf;
  }

  lemma KeptLater(w: World, time: Time, now: Time, retention: int)
    requires Inv(w, time, retention) && time <= now
    ensures Inv(w, now, retention)
  {
    forall id | id in w.candidates
      ensures CandidateOk(w, id, now, retention)
    {
      assert CandidateOk(w, id, time, retention);
    }
  }

  /** What the evidence rules out. */
  lemma UnreferencedIsNotInUse(t: Tables, id: CandidateId, c: Candidate)
    requires EvidenceOf(t, id, c).Some? && EvidenceOf(t, id, c).value.decision == Unreferenced
    ensures c.run in t.runs && Settled(t.runs[c.run].status) && !InUse(t, id, c)
    ensures !Contains(t.runs[c.run].intent, id.key)
  {
  }

  lemma AuthorizeKeeps(w: World, a: CleanupId, token: string, now: Time, time: Time, retention: int)
    requires Inv(w, time, retention) && time <= now
    ensures Inv(Authorize(w, a, token), now, retention)
  {
    hide EvidenceOf;
    var w' := Authorize(w, a, token);
    forall x | x in w'.candidates
      ensures CandidateOk(w', x, now, retention)
    {
      assert CandidateOk(w, x, time, retention);
      if Authorizes(w, a, token) && x == a.candidate {
        UnreferencedIsNotInUse(w.tables, x, w.candidates[x]);
      }
    }
    forall b | b in w'.cleanups
      ensures CleanupOk(w', b)
    {
      assert CleanupOk(w, b);
    }
  }

  lemma FinishKeeps(w: World, a: CleanupId, token: string, result: DeleteResult, now: Time, retry: int,
      max: int, dryRun: bool,
                    time: Time, retention: int)
    requires Inv(w, time, retention) && time <= now
    ensures Inv(Finish(w, a, token, result, now, retry, max, dryRun), now, retention)
  {
    hide InUse, AttemptOfRun, TablesOk;
    var w' := Finish(w, a, token, result, now, retry, max, dryRun);
    forall x | x in w'.candidates
      ensures CandidateOk(w', x, now, retention)
    {
      assert CandidateOk(w, x, time, retention);
      if x != a.candidate {
        CandidateKept(w, w', x, time, now, retention);
      }
    }
    forall b | b in w'.cleanups
      ensures CleanupOk(w', b)
    {
      assert CleanupOk(w, b);
    }
  }

  lemma ExpireKeeps(w: World, now: Time, time: Time, retention: int)
    requires Inv(w, time, retention) && time <= now
    ensures Inv(ExpireCleanups(w, now), now, retention)
  {
    var w' := ExpireCleanups(w, now);
    forall x | x in w'.candidates
      ensures CandidateOk(w', x, now, retention)
    {
      assert CandidateOk(w, x, time, retention);
    }
    forall b | b in w'.cleanups
      ensures CleanupOk(w', b)
    {
      assert CleanupOk(w, b) && CandidateOk(w, b.candidate, time, retention);
    }
  }

  lemma CancelKeeps(w: World, id: CandidateId, time: Time, retention: int)
    requires Inv(w, time, retention)
    ensures Inv(CancelCleanup(w, id), time, retention)
  {
    hide InUse, AttemptOfRun, TablesOk;
    var w' := CancelCleanup(w, id);
    forall x | x in w'.candidates
      ensures CandidateOk(w', x, time, retention)
    {
      assert CandidateOk(w, x, time, retention);
      if x != id {
        CandidateKept(w, w', x, time, time, retention);
      }
    }
    forall b | b in w'.cleanups
      ensures CleanupOk(w', b)
    {
      assert CleanupOk(w, b);
      if id in w.candidates {
        assert CandidateOk(w, id, time, retention);
      }
    }
  }

  lemma PruneKeeps(w: World, gone: set<Id>, cutoff: Time, time: Time, retention: int)
    requires Inv(w, time, retention) && forall a | a in gone :: Prunable(w, a, cutoff)
    ensures Inv(Prune(w, gone), time, retention)
  {
    hide Prunable;
    var w' := Prune(w, gone);
    forall x | x in w'.candidates
      ensures CandidateOk(w', x, time, retention)
    {
      assert CandidateOk(w, x, time, retention);
    }
    forall b | b in w'.cleanups
      ensures CleanupOk(w', b)
    {
      assert CleanupOk(w, b);
    }
  }

  lemma OtherKeeps(w: World, t: Tables, time: Time, retention: int)
    requires Inv(w, time, retention) && TablesMove(w.tables, t)
    ensures Inv(w.(tables := t), time, retention)
  {
    var w' := w.(tables := t);
    forall x | x in w'.candidates
      ensures CandidateOk(w', x, time, retention)
    {
      assert CandidateOk(w, x, time, retention);
    }
    forall b | b in w'.cleanups
      ensures CleanupOk(w', b)
    {
      assert CleanupOk(w, b);
    }
  }

  lemma NextKeeps(w: World, s: Step, time: Time, retention: int)
    requires Inv(w, time, retention) && Legal(w, s) && time <= Reading(s, time)
    ensures Inv(Next(w, s, retention), Reading(s, time), retention)
  {
    hide Inv, Discover, Claim, Authorize, Finish, ExpireCleanups, CancelCleanup, Prune;
    match s
    case DiscoverStep(f, now) => DiscoverKeeps(w, f, now, time, retention);
    case ClaimStep(id, token, now, lease) => ClaimKeeps(w, id, token, now, lease, time, retention);
    case AuthorizeStep(a, token, now) => AuthorizeKeeps(w, a, token, now, time, retention);
    case FinishStep(a, token, result, now, retry, max, dryRun) =>
      FinishKeeps(w, a, token, result, now, retry, max, dryRun, time, retention);
    case ExpireStep(now) => ExpireKeeps(w, now, time, retention);
    case CancelStep(id) => CancelKeeps(w, id, time, retention);
    case PruneStep(gone, cutoff) => PruneKeeps(w, gone, cutoff, time, retention);
    case OtherStep(t) => OtherKeeps(w, t, time, retention);
  }

  /** The time of the last reading. */
  function Clock(ss: seq<Step>, time: Time): Time
    decreases |ss|
  {
    if ss == [] then time else Clock(ss[1..], Reading(ss[0], time))
  }

  /** The invariant holds in every reachable state. */
  lemma {:induction false} InvAlways(w: World, ss: seq<Step>, time: Time, retention: int)
    requires Inv(w, time, retention) && LegalRun(w, ss, time, retention)
    ensures Inv(After(w, ss, retention), Clock(ss, time), retention)
    decreases |ss|
  {
    hide Inv, Next, Legal;
    if ss != [] {
      NextKeeps(w, ss[0], time, retention);
      InvAlways(Next(w, ss[0], retention), ss[1..], Reading(ss[0], time), retention);
    }
  }

  // ----- theorems -----

  /** The held attempts of a candidate. */
  function HeldAttempts(w: World, id: CandidateId): set<CleanupId> {
    set a | a in w.cleanups && a.candidate == id && w.cleanups[a].status == Held
  }

  /** A deletion is in progress exactly when there is one held attempt, which is the current one. */
  lemma OneHeldAttempt(w: World, ss: seq<Step>, time: Time, retention: int, id: CandidateId)
    requires Inv(w, time, retention) && LegalRun(w, ss, time, retention) && id in After(w, ss, retention).candidates
    ensures var w' := After(w, ss, retention);
            var c := w'.candidates[id];
            HeldAttempts(w', id) == (if InProgress(c.status) then {CleanupId(id, c.count)} else {})
            && (c.current == if InProgress(c.status) then Some(CleanupId(id, c.count)) else None)
  {
    hide After, LegalRun;
    InvAlways(w, ss, time, retention);
    var w' := After(w, ss, retention);
    assert CandidateOk(w', id, Clock(ss, time), retention);
    forall a | a in HeldAttempts(w', id)
      ensures w'.candidates[id].current == Some(a)
    {
      assert CleanupOk(w', a);
    }
  }

  lemma DeletedStays(w: World, s: Step, time: Time, retention: int, id: CandidateId)
    requires Inv(w, time, retention) && id in w.candidates && w.candidates[id].status == CandidateStatus.Deleted
    ensures id in Next(w, s, retention).candidates ==> Next(w, s, retention).candidates[id] == w.candidates[id]
  {
    hide EvidenceOf;
    assert CandidateOk(w, id, time, retention);
  }

  /** DELETED is final: the row never changes again, until retention removes it with its attempt. */
  lemma {:induction false} DeletedIsFinal(w: World, ss: seq<Step>, time: Time, retention: int, id: CandidateId)
    requires Inv(w, time, retention) && LegalRun(w, ss, time, retention)
    requires id in w.candidates && w.candidates[id].status == CandidateStatus.Deleted
    requires forall i | 0 <= i < |ss| :: ss[i].PruneStep? ==> id.attempt !in ss[i].gone
    ensures id in After(w, ss, retention).candidates && After(w, ss, retention).candidates[id] == w.candidates[id]
    decreases |ss|
  {
    hide Inv, Legal;
    if ss != [] {
      NextKeeps(w, ss[0], time, retention);
      DeletedStays(w, ss[0], time, retention, id);
      CandidatesStay(w, ss[0], retention, id);
      assert forall i | 0 <= i < |ss[1..]| :: ss[1..][i] == ss[i + 1];
      hide Next;
      DeletedIsFinal(Next(w, ss[0], retention), ss[1..], Reading(ss[0], time), retention, id);
    }
  }

  lemma CandidatesStay(w: World, s: Step, retention: int, id: CandidateId)
    requires id in w.candidates && (s.PruneStep? ==> id.attempt !in s.gone)
    ensures id in Next(w, s, retention).candidates
  {
    hide EvidenceOf;
  }

  /** Whatever the keys: not before the retention period is over, and not while its own run uses it. */
  lemma {:induction false} AuthorizedInOwnRun(w: World, ss: seq<Step>, time: Time, retention: int, i: nat)
    requires Inv(w, time, retention) && LegalRun(w, ss, time, retention)
    requires i < |ss| && ss[i].AuthorizeStep? && Authorizes(After(w, ss[..i], retention), ss[i].attempt, ss[i].token)
    ensures var at := After(w, ss[..i], retention);
            var id := ss[i].attempt.candidate;
            && id in at.candidates
            && at.candidates[id].discoveredAt + Retention(retention) <= ss[i].now
            && !InUse(at.tables, id, at.candidates[id])
    decreases |ss|
  {
    hide Inv, Legal, Authorizes;
    if i == 0 {
      AuthorizedNow(w, ss[0].attempt, ss[0].token, time, retention);
    } else {
      hide Next;
      NextKeeps(w, ss[0], time, retention);
      assert ss[..i][1..] == ss[1..][..i - 1];
      AuthorizedInOwnRun(Next(w, ss[0], retention), ss[1..], Reading(ss[0], time), retention, i - 1);
    }
  }

  lemma AuthorizedNow(w: World, a: CleanupId, token: string, time: Time, retention: int)
    requires Inv(w, time, retention) && Authorizes(w, a, token)
    ensures a.candidate in w.candidates
    ensures w.candidates[a.candidate].discoveredAt + Retention(retention) <= time
    ensures !InUse(w.tables, a.candidate, w.candidates[a.candidate])
  {
    hide EvidenceOf;
    assert CandidateOk(w, a.candidate, time, retention) && CleanupOk(w, a);
    UnreferencedIsNotInUse(w.tables, a.candidate, w.candidates[a.candidate]);
  }

  // ----- keys that name their run -----

  /** The object is an accepted artifact of some run that published or began a commit. */
  predicate UsedBySomeRun(t: Tables, key: string) {
    key in t.artifacts && t.artifacts[key].run in t.runs && Publishing(t.runs[t.artifacts[key].run])
  }

  /** Every artifact and upload belongs to the run that its key names. */
  predicate OwnedTables(t: Tables, owner: string -> Id) {
    && (forall k | k in t.artifacts :: t.artifacts[k].run == owner(k))
    && (forall u | u in t.uploads :: t.uploads[u].run == owner(t.uploads[u].key))
  }

  predicate Owned(w: World, owner: string -> Id) {
    OwnedTables(w.tables, owner) && forall id | id in w.candidates :: w.candidates[id].run == owner(id.key)
  }

  predicate OwnedRun(ss: seq<Step>, owner: string -> Id) {
    forall i | 0 <= i < |ss| && ss[i].OtherStep? :: OwnedTables(ss[i].tables, owner)
  }

  lemma NextOwned(w: World, s: Step, retention: int, owner: string -> Id)
    requires Owned(w, owner) && Legal(w, s) && (s.OtherStep? ==> OwnedTables(s.tables, owner))
    ensures Owned(Next(w, s, retention), owner)
  {
    hide EvidenceOf, Prunable, TablesMove, Retention;
  }

  lemma {:induction false} OwnedAlways(w: World, ss: seq<Step>, time: Time, retention: int, owner: string -> Id)
    requires Owned(w, owner) && LegalRun(w, ss, time, retention) && OwnedRun(ss, owner)
    ensures Owned(After(w, ss, retention), owner)
    decreases |ss|
  {
    hide Next, Legal, Owned, OwnedTables;
    if ss != [] {
      NextOwned(w, ss[0], retention, owner);
      assert forall i | 0 <= i < |ss[1..]| :: ss[1..][i] == ss[i + 1];
      OwnedAlways(Next(w, ss[0], retention), ss[1..], Reading(ss[0], time), retention, owner);
    }
  }

  lemma {:induction false} LegalPrefix(w: World, ss: seq<Step>, n: nat, time: Time, retention: int)
    requires n <= |ss| && LegalRun(w, ss, time, retention)
    ensures LegalRun(w, ss[..n], time, retention)
    decreases |ss|
  {
    hide Next, Legal;
    if n > 0 {
      assert ss[..n][1..] == ss[1..][..n - 1];
      LegalPrefix(Next(w, ss[0], retention), ss[1..], n - 1, Reading(ss[0], time), retention);
    }
  }

  lemma OwnedUse(w: World, owner: string -> Id, id: CandidateId)
    requires Owned(w, owner) && id in w.candidates
    ensures UsedBySomeRun(w.tables, id.key) ==> InUse(w.tables, id, w.candidates[id])
  {
  }

  /**
   No object is authorised for deletion before the retention period after its
   discovery is over, or while it is an accepted artifact of any run that
   published or began a commit.
   */
  lemma AuthorizedIsSafe(w: World, ss: seq<Step>, time: Time, retention: int, i: nat, owner: string -> Id)
    requires Inv(w, time, retention) && LegalRun(w, ss, time, retention) && Owned(w, owner) && OwnedRun(ss, owner)
    requires i < |ss| && ss[i].AuthorizeStep? && Authorizes(After(w, ss[..i], retention), ss[i].attempt, ss[i].token)
    ensures var at := After(w, ss[..i], retention);
            var id := ss[i].attempt.candidate;
            && id in at.candidates
            && at.candidates[id].discoveredAt + Retention(retention) <= ss[i].now
            && !UsedBySomeRun(at.tables, id.key)
  {
    hide Inv, After, LegalRun, Authorizes, Owned, InUse, UsedBySomeRun;
    AuthorizedInOwnRun(w, ss, time, retention, i);
    LegalPrefix(w, ss, i, time, retention);
    OwnedAlways(w, ss[..i], time, retention, owner);
    OwnedUse(After(w, ss[..i], retention), owner, ss[i].attempt.candidate);
  }

  /** And no run uses it for as long as the deletion is under way. */
  lemma DeletingIsNeverInUse(w: World, ss: seq<Step>, time: Time, retention: int, id: CandidateId, owner: string -> Id)
    requires Inv(w, time, retention) && LegalRun(w, ss, time, retention) && Owned(w, owner) && OwnedRun(ss, owner)
    requires id in After(w, ss, retention).candidates && After(w, ss, retention).candidates[id].status == Deleting
    ensures !UsedBySomeRun(After(w, ss, retention).tables, id.key)
  {
    hide After, LegalRun, Owned, UsedBySomeRun;
    InvAlways(w, ss, time, retention);
    assert CandidateOk(After(w, ss, retention), id, Clock(ss, time), retention);
    OwnedAlways(w, ss, time, retention, owner);
    OwnedUse(After(w, ss, retention), owner, id);
  }

  // ----- keys shared by runs -----

  /** The attempt holds the claim and the evidence is what it was when the candidate was claimed. */
  predicate ClaimStands(w: World, a: CleanupId, token: string) {
    && a.candidate in w.candidates
    && var c := w.candidates[a.candidate];
    && c.status == DeletePending
    && c.current == Some(a)
    && a in w.cleanups
    && w.cleanups[a].token == token
    && w.cleanups[a].status == Held
    && c.evidence.Some?
    && c.evidence == EvidenceOf(w.tables, a.candidate, c)
  }

  predicate OpenUpload(t: Tables, key: string) {
    exists u :: u in t.uploads && t.uploads[u].key == key && t.uploads[u].status == Open
  }

  /**
   The evidence looks at the candidate's run alone. While its claim stands, an
   object that a publishing run uses is authorised if and only if that run is
   another one, the candidate's run never began a commit, its attempt is over
   and nothing else of it mentions the object.
   */
  lemma UsedIsAuthorizedIff(w: World, a: CleanupId, token: string)
    requires ClaimStands(w, a, token) && UsedBySomeRun(w.tables, a.candidate.key)
    ensures var c := w.candidates[a.candidate];
            var run := w.tables.runs[c.run];
            Authorizes(w, a, token) <==>
              && w.tables.artifacts[a.candidate.key].run != c.run
              && run.Unpublished()
              && !w.tables.attempts[a.candidate.attempt].status.Active?
              && !Contains(run.intent, a.candidate.key)
              && !OpenUpload(w.tables, a.candidate.key)
              && run.registrations == 0
  {
    hide Contains;
  }

  const NOTHING := World(Tables(map[], map[], map[], map[], map[]), map[], map[])

  lemma NothingIsOk(time: Time, retention: int, owner: string -> Id)
    ensures Inv(NOTHING, time, retention) && Owned(NOTHING, owner)
  {
  }

  const SHARED := CandidateId(1, "k", "s")
  const CLEANUP := CleanupId(SHARED, 1)

  /** Run 1 was canceled with an upload under "k"; run 2 is still running, or has published an artifact under "k". */
  function SharedTables(published: bool): Tables {
    Tables(
      map[1 := RunRow(ControlPlane.RunStatus.Canceled, "", "", "", false, 0, Some(0)),
          2 := if published then RunRow(ControlPlane.RunStatus.Succeeded, "c", "COMPLETE", "", false, 0, Some(0))
               else RunRow(ControlPlane.RunStatus.Running, "", "", "", false, 0, None)],
      map[1 := TaskRow(1, "CANCELED"), 2 := TaskRow(2, "SUCCEEDED")],
      map[1 := AttemptRow(1, ControlPlane.AttemptStatus.Canceled),
          2 := AttemptRow(2, ControlPlane.AttemptStatus.Succeeded)],
      if published then map["k" := ArtifactRow(2, 2, 2, "s")] else map[],
      map[1 := UploadRow(1, 1, 1, "k", "s", Completed)])
  }

  function SharedCandidate(): Candidate { Candidate(1, 1, Quarantined, 0, 1, None, None, 0, None, false, None) }

  function SharedEvidence(): Evidence {
    Evidence(SHARED, ControlPlane.RunStatus.Canceled, "CANCELED", ControlPlane.AttemptStatus.Canceled, "", Unreferenced,
             true, false, false, false, false)
  }

  function SharedClaim(): World {
    World(
      SharedTables(true),
      map[SHARED := SharedCandidate().(status := DeletePending, decision := Some(Unreferenced),
          evidence := Some(SharedEvidence()),
                                       count := 1, current := Some(CLEANUP))],
      map[CLEANUP := Cleanup(Held, "t", 9)])
  }

  function SharedSteps(): seq<Step> {
    [OtherStep(SharedTables(false))] + ([DiscoverStep(Found(SHARED, 1, 1, 1), 0)]
    + ([OtherStep(SharedTables(true))] + [ClaimStep(SHARED, "t", 1, 8)]))
  }

  lemma SharedIsUnreferenced(c: Candidate)
    requires c.run == 1 && c.task == 1
    ensures EvidenceOf(SharedTables(true), SHARED, c) == Some(SharedEvidence())
  {
    assert !Contains("", "k");
  }

  /** One more step in front. */
  lemma StepFirst(w: World, s: Step, rest: seq<Step>, time: Time, retention: int, w': World)
    requires Legal(w, s) && time <= Reading(s, time) && Next(w, s, retention) == w'
    requires LegalRun(w', rest, Reading(s, time), retention)
    ensures LegalRun(w, [s] + rest, time, retention) && After(w, [s] + rest, retention) == After(w', rest, retention)
  {
    hide Next, Legal;
    assert ([s] + rest)[1..] == rest;
  }

  lemma SharedTablesBegin()
    ensures TablesMove(NOTHING.tables, SharedTables(false))
  {
  }

  lemma SharedTablesMove()
    ensures TablesMove(SharedTables(false), SharedTables(true))
  {
  }

  lemma SharedIsFound()
    ensures var w := World(SharedTables(false), map[], map[]);
            var f := Found(SHARED, 1, 1, 1);
            Orphaned(w, f) && Discover(w, f, 0, 1) == w.(candidates := map[SHARED := SharedCandidate()])
  {
    assert CanceledUpload(World(SharedTables(false), map[], map[]), SHARED, 1, 1, 1);
  }

  lemma SharedIsClaimed()
    ensures var w := World(SharedTables(true), map[SHARED := SharedCandidate()], map[]);
            FirstClaimable(w, SHARED, 1) && Claim(w, SHARED, "t", 1, 8) == SharedClaim()
  {
    hide EvidenceOf;
    SharedIsUnreferenced(SharedCandidate());
  }

  /** Where keys are shared, a legal run from nothing authorises the deletion of a published artifact. */
  lemma SharedKeyIsAuthorized()
    ensures LegalRun(NOTHING, SharedSteps(), 0, 1)
    ensures var w := After(NOTHING, SharedSteps(), 1);
            Authorizes(w, CLEANUP, "t") && UsedBySomeRun(w.tables, CLEANUP.candidate.key)
  {
    hide SharedTables, SharedCandidate, SharedClaim, Orphaned, FirstClaimable, Discover, Claim, TablesMove,
        SharedEvidence;
    var f := Found(SHARED, 1, 1, 1);
    var w1 := World(SharedTables(false), map[], map[]);
    var w2 := w1.(candidates := map[SHARED := SharedCandidate()]);
    var w3 := w2.(tables := SharedTables(true));
    SharedTablesBegin();
    SharedTablesMove();
    SharedIsFound();
    SharedIsClaimed();
    var s4 := ClaimStep(SHARED, "t", 1, 8);
    assert [s4] + [] == [s4];
    StepFirst(w3, s4, [], 0, 1, SharedClaim());
    StepFirst(w2, OtherStep(SharedTables(true)), [s4], 0, 1, w3);
    StepFirst(w1, DiscoverStep(f, 0), [OtherStep(SharedTables(true))] + [s4], 0, 1, w2);
    StepFirst(NOTHING, OtherStep(SharedTables(false)),
        [DiscoverStep(f, 0)] + ([OtherStep(SharedTables(true))] + [s4]), 0, 1, w1);
    SharedIsAuthorized();
  }

  lemma SharedIsAuthorized()
    ensures Authorizes(SharedClaim(), CLEANUP, "t") && UsedBySomeRun(SharedClaim().tables, CLEANUP.candidate.key)
  {
    hide EvidenceOf;
    SharedIsUnreferenced(SharedClaim().candidates[SHARED]);
  }

  /** Pruning keeps every attempt row that an undeleted candidate needs, and the candidate itself. */
  lemma PruningKeepsNeededAttempts(w: World, ss: seq<Step>, time: Time, retention: int, gone: set<Id>,
      cutoff: Time, id: CandidateId)
    requires Inv(w, time, retention) && LegalRun(w, ss, time, retention)
    requires forall a | a in gone :: Prunable(After(w, ss, retention), a, cutoff)
    requires id in After(w, ss, retention).candidates &&
        After(w, ss, retention).candidates[id].status != CandidateStatus.Deleted
    ensures var w' := Prune(After(w, ss, retention), gone);
            && id.attempt in w'.tables.attempts
            && id in w'.candidates
            && w'.candidates[id] == After(w, ss, retention).candidates[id]
  {
    hide After, LegalRun;
    InvAlways(w, ss, time, retention);
    var at := After(w, ss, retention);
    assert CandidateOk(at, id, Clock(ss, time), retention);
    assert id.attempt !in gone;
  }
}
