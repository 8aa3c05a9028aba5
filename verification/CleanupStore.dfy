/** The tables of object cleanup and their transactions, updated in place. */
module CleanupStore {
  import opened Prelude
  import opened ObjectCleanup
  import opened ObjectCleanupSafety

  // ----- discovery -----

  /** The rows of a query inserted one after the other. */
  function DiscoverAll(w: World, fs: seq<Found>, now: Time, retention: int): World {
    if fs == [] then w else Discover(DiscoverAll(w, fs[..|fs| - 1], now, retention), fs[|fs| - 1], now, retention)
  }

  /** Inserting never touches a candidate that is already there, and adds exactly the new ids. */
  lemma {:induction false} DiscoverAddsOnlyNew(w: World, fs: seq<Found>, now: Time, retention: int)
    ensures var w' := DiscoverAll(w, fs, now, retention);
            && w'.tables == w.tables
            && w'.cleanups == w.cleanups
            && (forall id | id in w.candidates :: id in w'.candidates && w'.candidates[id] == w.candidates[id])
            && (forall id | id in w'.candidates && id !in w.candidates ::
                  FoundIn(fs, id) && w'.candidates[id].status == Quarantined && w'.candidates[id].discoveredAt == now)
            && (forall i | 0 <= i < |fs| :: fs[i].id in w'.candidates)
    decreases |fs|
  {
    if fs != [] {
      var few := fs[..|fs| - 1];
      DiscoverAddsOnlyNew(w, few, now, retention);
      var mid, w' := DiscoverAll(w, few, now, retention), DiscoverAll(w, fs, now, retention);
      forall id | id in w'.candidates && id !in w.candidates
        ensures FoundIn(fs, id) && w'.candidates[id].status == Quarantined && w'.candidates[id].discoveredAt == now
      {
        if id in mid.candidates {
          assert FoundIn(few, id);
          var i :| 0 <= i < |few| && few[i].id == id;
          assert fs[i].id == id;
        } else {
          assert fs[|fs| - 1].id == id;
        }
      }
      assert forall i | 0 <= i < |few| :: few[i] == fs[i];
    }
  }

  predicate FoundIn(fs: seq<Found>, id: CandidateId) { exists i | 0 <= i < |fs| :: fs[i].id == id }

  lemma OrphanedStays(w: World, fs: seq<Found>, now: Time, retention: int, f: Found)
    requires Orphaned(w, f)
    ensures Orphaned(DiscoverAll(w, fs, now, retention), f)
  {
    DiscoverAddsOnlyNew(w, fs, now, retention);
  }

  /** One pass of discovery keeps the invariant of cleanup. */
  lemma {:induction false} DiscoverAllKeeps(w: World, fs: seq<Found>, now: Time, time: Time, retention: int)
    requires Inv(w, time, retention) && time <= now && forall i | 0 <= i < |fs| :: Orphaned(w, fs[i])
    ensures Inv(DiscoverAll(w, fs, now, retention), now, retention)
    decreases |fs|
  {
    hide Inv, Orphaned;
    if fs == [] {
      KeptLater(w, time, now, retention);
    } else {
      var few := fs[..|fs| - 1];
      DiscoverAllKeeps(w, few, now, time, retention);
      OrphanedStays(w, few, now, retention, fs[|fs| - 1]);
      DiscoverKeeps(DiscoverAll(w, few, now, retention), fs[|fs| - 1], now, now, retention);
    }
  }

  // ----- selection -----

  /** ORDER BY quarantine_until LIMIT 1. */
  method SelectClaimable(w: World, now: Time) returns (best: Option<CandidateId>)
    ensures best.Some? ==> FirstClaimable(w, best.value, now)
    ensures best.None? ==> forall id :: !Claimable(w, id, now)
  {
    best := None;
    var todo := w.candidates.Keys;
    while todo != {}
      invariant todo <= w.candidates.Keys
      invariant best.Some? ==> Claimable(w, best.value, now)
      invariant forall id | Claimable(w, id, now) && id !in todo ::
                  best.Some? && w.candidates[best.value].quarantineUntil <= w.candidates[id].quarantineUntil
      decreases |todo|
    {
      ghost var some := Member(todo);
      var id :| id in todo;
      todo := todo - {id};
      if Claimable(w, id, now) &&
          (best.None? || w.candidates[id].quarantineUntil < w.candidates[best.value].quarantineUntil) {
        best := Some(id);
      }
    }
  }

  // ----- retention -----

  function PrunableAttempts(w: World, cutoff: Time): set<Id> {
    set a | a in w.tables.attempts && Prunable(w, a, cutoff)
  }

  lemma NoneGone(w: World)
    ensures Prune(w, {}) == w
  {
    var p := Prune(w, {});
    assert p.tables.attempts == w.tables.attempts && p.tables.artifacts == w.tables.artifacts &&
        p.tables.uploads == w.tables.uploads;
    assert p.candidates == w.candidates && p.cleanups == w.cleanups;
  }

  lemma PruneTwice(w: World, a: set<Id>, b: set<Id>)
    ensures Prune(Prune(w, a), b) == Prune(w, a + b)
  {
    var p, q := Prune(Prune(w, a), b), Prune(w, a + b);
    assert p.tables.attempts == q.tables.attempts && p.tables.artifacts == q.tables.artifacts &&
        p.tables.uploads == q.tables.uploads;
    assert p.candidates == q.candidates && p.cleanups == q.cleanups;
  }

  /** Deleting a batch neither frees nor blocks any other row. */
  lemma PrunableStays(w: World, gone: set<Id>, cutoff: Time, a: Id, time: Time, retention: int)
    requires Inv(w, time, retention) && gone <= PrunableAttempts(w, cutoff)
    ensures Prunable(Prune(w, gone), a, cutoff) <==> Prunable(w, a, cutoff) && a !in gone
  {
    var w' := Prune(w, gone);
    forall u | u in w.tables.uploads && w.tables.uploads[u].status == Open
      ensures u in w'.tables.uploads
    {
      assert AttemptOfRun(w.tables, w.tables.uploads[u].attempt, w.tables.uploads[u].run);
      assert !Prunable(w, w.tables.uploads[u].attempt, cutoff);
    }
    forall c | c in w.candidates && w.candidates[c].status != CandidateStatus.Deleted
      ensures c in w'.candidates
    {
      assert CandidateOk(w, c, time, retention);
      assert !Prunable(w, c.attempt, cutoff);
    }
  }

  lemma PrunableAfter(w: World, gone: set<Id>, cutoff: Time, time: Time, retention: int)
    requires Inv(w, time, retention) && gone <= PrunableAttempts(w, cutoff)
    ensures PrunableAttempts(Prune(w, gone), cutoff) == PrunableAttempts(w, cutoff) - gone
  {
    hide Prunable, Inv;
    forall a
      ensures a in PrunableAttempts(Prune(w, gone), cutoff) <==> a in PrunableAttempts(w, cutoff) - gone
    {
      PrunableStays(w, gone, cutoff, a, time, retention);
    }
  }

  /** At most `n` elements of a set. */
  method Batch(s: set<Id>, n: nat) returns (b: set<Id>)
    ensures b <= s && |b| == if |s| < n then |s| else n
  {
    b := {};
    var rest := s;
    while |b| < n && rest != {}
      invariant b !! rest && b + rest == s && |b| + |rest| == |s| && |b| <= n
      decreases |rest|
    {
      ghost var some := Member(rest);
      var x :| x in rest;
      b, rest := b + {x}, rest - {x};
    }
  }

  class CleanupTables {
    var tables: Tables
    var candidates: map<CandidateId, Candidate>
    var cleanups: map<CleanupId, Cleanup>
    var retention: int

    function Now(): World
      reads this
    {
      World(tables, candidates, cleanups)
    }

    method DiscoverOrphanedObjects(found: seq<Found>, now: Time) returns (added: nat)
      modifies this`candidates
      ensures Now() == DiscoverAll(old(Now()), found, now, retention)
      ensures |candidates| == |old(candidates)| + added
    {
      added := 0;
      for i := 0 to |found|
        invariant Now() == DiscoverAll(old(Now()), found[..i], now, retention)
        invariant |candidates| == |old(candidates)| + added
      {
        assert found[..i + 1][..i] == found[..i];
        if found[i].id !in candidates {
          candidates := candidates[found[i].id := NewCandidate(found[i], now, retention)];
          added := added + 1;
        }
      }
      assert found[..|found|] == found;
    }

    method ClaimCanceledObjectCleanup(token: string, now: Time, lease: int)
        returns (chosen: Option<CandidateId>, ok: bool)
      modifies this`candidates, this`cleanups
      ensures chosen.Some? ==> FirstClaimable(old(Now()), chosen.value, now)
      ensures chosen.None? ==> forall id :: !Claimable(old(Now()), id, now)
      ensures Now() == if chosen.None? then old(Now()) else Claim(old(Now()), chosen.value, token, now, lease)
      ensures ok <==> chosen.Some? && chosen.value in candidates && InProgress(candidates[chosen.value].status)
                        && candidates[chosen.value].current.Some? && old(candidates) != candidates
    {
      hide EvidenceOf;
      ok := false;
      chosen := SelectClaimable(Now(), now);
      if chosen.None? {
        return;
      }
      var id := chosen.value;
      var c := candidates[id];
      var e := EvidenceOf(tables, id, c);
      if e.None? {
        return;
      }
      if e.value.decision != Unreferenced {
        candidates := candidates[id := Block(c, e.value)];
        return;
      }
      var next := CleanupId(id, c.count + 1);
      if !MayInsertCleanup(Now(), next, token) {
        return;
      }
      candidates := candidates[id := c.(
        status := DeletePending, decision := Some(Unreferenced), evidence := e,
        count := c.count + 1, current := Some(next))];
      cleanups := cleanups[next := Cleanup(Held, token, now + lease)];
      assert candidates[id] != old(candidates)[id];
      ok := true;
    }

    method AuthorizeCanceledObjectDelete(a: CleanupId, token: string) returns (ok: bool)
      modifies this`candidates
      ensures Now() == Authorize(old(Now()), a, token)
      ensures ok <==> Authorizes(old(Now()), a, token)
    {
      hide EvidenceOf;
      if a.candidate !in candidates || candidates[a.candidate].status != DeletePending ||
          candidates[a.candidate].current != Some(a) {
        return false;
      }
      if a !in cleanups || cleanups[a].token != token || cleanups[a].status != Held {
        return false;
      }
      var c := candidates[a.candidate];
      var e := EvidenceOf(tables, a.candidate, c);
      if e.None? || e.value.decision != Unreferenced || c.evidence != e {
        return false;
      }
      candidates := candidates[a.candidate := c.(status := Deleting)];
      return true;
    }

    method FinishCanceledObjectCleanup(a: CleanupId, token: string, result: DeleteResult, now: Time, retry: int,
        max: int, dryRun: bool)
      returns (ok: bool)
      modifies this`candidates, this`cleanups
      ensures Now() == Finish(old(Now()), a, token, result, now, retry, max, dryRun)
      ensures ok <==>
              && a in old(cleanups)
              && old(cleanups)[a].token == token
              && old(cleanups)[a].status == Held
              && a.candidate in old(candidates)
              && old(candidates)[a.candidate].current == Some(a)
    {
      if a !in cleanups || cleanups[a].token != token || cleanups[a].status != Held {
        return false;
      }
      var status, outcome, operator, again := CandidateStatus.Deleted, Done, false, false;
      if dryRun {
        status, outcome, again := Quarantined, Done, true;
      } else if result == Missing {
        status := CandidateStatus.Deleted;
      } else if result == Unsure {
        status, outcome, again := DeleteAmbiguous, Unclear, true;
      } else if result == Conflict {
        status, outcome, operator := OperatorReview, Lost, true;
      } else if result != DeleteResult.Deleted {
        status, outcome, again := DeleteFailed, Lost, true;
        if a.number >= max {
          status, operator, again := OperatorReview, true, false;
        }
      }
      if a.candidate !in candidates || candidates[a.candidate].current != Some(a) {
        return false;
      }
      var c := candidates[a.candidate];
      cleanups := cleanups[a := cleanups[a].(status := outcome)];
      candidates := candidates[a.candidate := c.(
        status := status, current := None, operatorAction := operator,
        quarantineUntil := if again then now + retry else c.quarantineUntil,
        deletedAt := if status == CandidateStatus.Deleted then Some(now) else c.deletedAt)];
      return true;
    }

    /** Two statements: the attempts first, then the candidates whose current attempt is now expired. */
    method ExpireCanceledObjectCleanupAttempts(now: Time)
      modifies this`candidates, this`cleanups
      ensures Now() == ExpireCleanups(old(Now()), now)
    {
      cleanups := map a | a in cleanups ::
          if TimesOut(cleanups[a], now) then cleanups[a].(status := TimedOut) else cleanups[a];
      candidates := map id | id in candidates ::
        if candidates[id].current.Some? && candidates[id].current.value in cleanups
           && candidates[id].current.value.candidate == id && cleanups[candidates[id].current.value].status == TimedOut
        then candidates[id].(status := DeleteAmbiguous, current := None) else candidates[id];
      assert Now().candidates == ExpireCleanups(old(Now()), now).candidates;
    }

    method CancelCanceledObjectCleanup(id: CandidateId) returns (ok: bool)
      modifies this`candidates, this`cleanups
      ensures Now() == CancelCleanup(old(Now()), id)
      ensures ok <==> id in old(candidates) && old(candidates)[id].status != CandidateStatus.Deleted
    {
      if id !in candidates || candidates[id].status == CandidateStatus.Deleted {
        return false;
      }
      var c := candidates[id];
      if c.current.Some? && c.current.value in cleanups && cleanups[c.current.value].status == Held {
        cleanups := cleanups[c.current.value := cleanups[c.current.value].(status := Withdrawn)];
      }
      candidates := candidates[id := c.(status := CanceledCleanup, current := None)];
      return true;
    }

    /** The batches of 500 together delete exactly the rows that were prunable at the start. */
    method PruneTaskAttempts(cutoff: Time, ghost time: Time) returns (pruned: nat)
      requires Inv(Now(), time, retention)
      modifies this`tables, this`candidates, this`cleanups
      ensures Now() == Prune(old(Now()), PrunableAttempts(old(Now()), cutoff))
      ensures pruned == |PrunableAttempts(old(Now()), cutoff)|
      ensures PrunableAttempts(Now(), cutoff) == {}
    {
      hide Prunable, Prune, Inv;
      pruned := 0;
      ghost var start, gone := Now(), {};
      NoneGone(start);
      var more := true;
      while more
        invariant gone <= PrunableAttempts(start, cutoff) && pruned == |gone|
        invariant Now() == Prune(start, gone)
        invariant PrunableAttempts(Now(), cutoff) == PrunableAttempts(start, cutoff) - gone
        invariant !more ==> gone == PrunableAttempts(start, cutoff)
        decreases more, |PrunableAttempts(Now(), cutoff)|
      {
        var left := PrunableAttempts(Now(), cutoff);
        var batch := Batch(left, BATCH);
        PruneTwice(start, gone, batch);
        gone := gone + batch;
        PrunableAfter(start, gone, cutoff, time, retention);
        var w := Prune(Now(), batch);
        tables, candidates, cleanups := w.tables, w.candidates, w.cleanups;
        pruned := pruned + |batch|;
        more := |batch| >= BATCH;
        WholeSet(batch, left, BATCH);
      }
    }
  }

  lemma WholeSet(b: set<Id>, s: set<Id>, n: nat)
    requires b <= s && |b| == if |s| < n then |s| else n
    ensures |b| < n ==> b == s
  {
    assert s == b + (s - b);
    assert |s| == |b| + |s - b|;
  }

  // ----- catalog registration attempts -----

  datatype RegistrationAttempt = RegistrationAttempt(registration: Id, number: nat, active: bool,
      finishedAt: Option<Time>)

  predicate Newer(rows: map<Id, RegistrationAttempt>, a: Id, b: Id) {
    && a in rows
    && b in rows
    && rows[b].registration == rows[a].registration
    && rows[b].number > rows[a].number
  }

  /** Finished before the cutoff, and not the latest attempt of its registration. */
  predicate Superseded(rows: map<Id, RegistrationAttempt>, a: Id, cutoff: Time) {
    && a in rows
    && !rows[a].active
    && rows[a].finishedAt.Some?
    && rows[a].finishedAt.value < cutoff
    && exists b :: b in rows && Newer(rows, a, b)
  }

  function SupersededRows(rows: map<Id, RegistrationAttempt>, cutoff: Time): set<Id> {
    set a | a in rows && Superseded(rows, a, cutoff)
  }

  predicate IsLatest(rows: map<Id, RegistrationAttempt>, m: Id) {
    m in rows && forall b | b in rows :: !Newer(rows, m, b)
  }

  function NewerRows(rows: map<Id, RegistrationAttempt>, a: Id): set<Id> { set b | b in rows && Newer(rows, a, b) }

  /** Above every attempt there is a latest one of its registration. */
  lemma {:induction false} LatestAbove(rows: map<Id, RegistrationAttempt>, a: Id) returns (m: Id)
    requires a in rows
    ensures IsLatest(rows, m) && rows[m].registration == rows[a].registration && rows[m].number >= rows[a].number
    decreases NewerRows(rows, a)
  {
    if b :| b in rows && Newer(rows, a, b) {
      assert b in NewerRows(rows, a) && b !in NewerRows(rows, b);
      assert NewerRows(rows, b) <= NewerRows(rows, a);
      m := LatestAbove(rows, b);
    } else {
      m := a;
    }
  }

  lemma SupersededStays(rows: map<Id, RegistrationAttempt>, gone: set<Id>, cutoff: Time, a: Id)
    requires gone <= SupersededRows(rows, cutoff)
    ensures Superseded(rows - gone, a, cutoff) <==> Superseded(rows, a, cutoff) && a !in gone
  {
    if Superseded(rows, a, cutoff) && a !in gone {
      var b :| b in rows && Newer(rows, a, b);
      var m := LatestAbove(rows, b);
      assert !Superseded(rows, m, cutoff);
      assert Newer(rows - gone, a, m);
    }
    if Superseded(rows - gone, a, cutoff) {
      var b :| b in rows - gone && Newer(rows - gone, a, b);
      assert Newer(rows, a, b);
    }
  }

  lemma SupersededAfter(rows: map<Id, RegistrationAttempt>, gone: set<Id>, cutoff: Time)
    requires gone <= SupersededRows(rows, cutoff)
    ensures SupersededRows(rows - gone, cutoff) == SupersededRows(rows, cutoff) - gone
  {
    hide Superseded;
    forall a
      ensures a in SupersededRows(rows - gone, cutoff) <==> a in SupersededRows(rows, cutoff) - gone
    {
      SupersededStays(rows, gone, cutoff, a);
      if Superseded(rows, a, cutoff) {
        SupersededIsRow(rows, a, cutoff);
      }
    }
  }

  lemma SupersededIsRow(rows: map<Id, RegistrationAttempt>, a: Id, cutoff: Time)
    requires Superseded(rows, a, cutoff)
    ensures a in rows
  {
  }

  /** The batches delete exactly the superseded rows, so the latest attempt of every registration is kept. */
  method PruneRegistrationAttempts(rows: map<Id, RegistrationAttempt>, cutoff: Time)
      returns (left: map<Id, RegistrationAttempt>, pruned: nat)
    ensures left == rows - SupersededRows(rows, cutoff)
    ensures pruned == |SupersededRows(rows, cutoff)|
    ensures forall m | IsLatest(rows, m) :: m in left
  {
    hide Superseded;
    left, pruned := rows, 0;
    ghost var gone: set<Id> := {};
    assert rows - gone == rows;
    var more := true;
    while more
      invariant gone <= SupersededRows(rows, cutoff) && pruned == |gone| && left == rows - gone
      invariant SupersededRows(left, cutoff) == SupersededRows(rows, cutoff) - gone
      invariant !more ==> gone == SupersededRows(rows, cutoff)
      decreases more, |SupersededRows(left, cutoff)|
    {
      var batch := Batch(SupersededRows(left, cutoff), BATCH);
      WholeSet(batch, SupersededRows(left, cutoff), BATCH);
      gone := gone + batch;
      SupersededAfter(rows, gone, cutoff);
      left := left - batch;
      assert left == rows - gone;
      pruned := pruned + |batch|;
      more := |batch| >= BATCH;
    }
    forall m | IsLatest(rows, m)
      ensures m in left
    {
      LatestIsKept(rows, m, cutoff);
    }
  }

  lemma LatestIsKept(rows: map<Id, RegistrationAttempt>, m: Id, cutoff: Time)
    requires IsLatest(rows, m)
    ensures !Superseded(rows, m, cutoff)
  {
  }
}
