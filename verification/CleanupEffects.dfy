/** What each transaction of object cleanup leaves in the rows. */
module CleanupEffects {
  import opened Prelude
  import opened ObjectCleanup
  import opened ObjectCleanupSafety
  import opened CleanupStore
  import ControlPlane

  // ----- the reference decision -----

  /** `part` occurs somewhere in the text. */
  ghost predicate Occurs(text: string, part: string) {
    exists i | 0 <= i <= |text| :: part <= text[i..]
  }

  lemma {:induction false} ContainsIff(text: string, part: string)
    ensures Contains(text, part) <==> Occurs(text, part)
  {
    if text != "" {
      ContainsIff(text[1..], part);
      assert text[0..] == text;
      if Contains(text[1..], part) {
        var i :| 0 <= i <= |text[1..]| && part <= text[1..][i..];
        assert text[i + 1..] == text[1..][i..];
      }
      if Occurs(text, part) {
        var i :| 0 <= i <= |text| && part <= text[i..];
        assert i > 0 ==> text[1..][i - 1..] == text[i..];
      }
    } else {
      assert text[0..] == text;
    }
  }

  /** SUCCEEDED, FAILED or CANCELED. */
  predicate RunIsOver(r: RunRow) {
    r.status in {RunStatus.Succeeded, RunStatus.Failed, RunStatus.Canceled}
  }

  /** FAILED or CANCELED with empty commit columns. */
  predicate NeverPublished(r: RunRow) {
    r.status in {RunStatus.Failed, RunStatus.Canceled} && r.commitId == "" && r.commitPhase == ""
  }

  predicate BeingUploaded(t: Tables, key: string) {
    exists u :: u in t.uploads && t.uploads[u].key == key && t.uploads[u].status != Completed &&
        t.uploads[u].status != Aborted
  }

  /** The object may be part of the dataset of a run that published, or tried to. */
  ghost predicate MayBePublished(t: Tables, id: CandidateId, run: Id)
    requires run in t.runs && id.attempt in t.attempts
  {
    || Occurs(t.runs[run].intent, id.key)
    || (&& !NeverPublished(t.runs[run])
        && (id.key in t.artifacts
            || t.attempts[id.attempt].status in {AttemptStatus.Active, AttemptStatus.Succeeded}))
  }

  /** The run or the attempt is still at work on it. */
  predicate AtWork(t: Tables, id: CandidateId, run: Id)
    requires run in t.runs && id.attempt in t.attempts
  {
    !RunIsOver(t.runs[run]) || t.attempts[id.attempt].status == AttemptStatus.Active
  }

  /** Each decision, by the rows. */
  lemma DecisionIff(t: Tables, id: CandidateId, c: Candidate)
    ensures EvidenceOf(t, id, c).Some? <==> c.run in t.runs && c.task in t.tasks && id.attempt in t.attempts
    ensures EvidenceOf(t, id, c).Some? ==>
              var d := EvidenceOf(t, id, c).value.decision;
              var free := !AtWork(t, id, c.run) && !MayBePublished(t, id, c.run);
              && (d == Referenced <==> !AtWork(t, id, c.run) && MayBePublished(t, id, c.run))
              && (d == ActiveUse <==> AtWork(t, id, c.run) || (free && BeingUploaded(t, id.key)))
              && (d == Ambiguous <==> free && !BeingUploaded(t, id.key)
                                      && NeverPublished(t.runs[c.run]) && t.runs[c.run].registrations > 0)
              && (d == Unreferenced <==> free && !BeingUploaded(t, id.key)
                                         && !(NeverPublished(t.runs[c.run]) && t.runs[c.run].registrations > 0))
  {
    hide Contains, Occurs;
    if c.run in t.runs && id.attempt in t.attempts {
      ContainsIff(t.runs[c.run].intent, id.key);
      assert BeingUploaded(t, id.key) <==>
             exists u :: u in t.uploads && t.uploads[u].key == id.key && t.uploads[u].status == Open;
    }
  }

  /** The evidence covers every column it was drawn from, so a change in any of them changes it. */
  lemma EvidenceColumns(t: Tables, id: CandidateId, c: Candidate)
    requires c.run in t.runs && c.task in t.tasks && id.attempt in t.attempts
    ensures EvidenceOf(t, id, c).Some?
    ensures var e := EvidenceOf(t, id, c).value;
            && e.candidate == id
            && e.run == t.runs[c.run].status
            && e.task == t.tasks[c.task].status
            && e.attempt == t.attempts[id.attempt].status
            && e.commitPhase == t.runs[c.run].commitPhase
            && (e.artifactReference <==> id.key in t.artifacts)
            && (e.activeMultipart <==> BeingUploaded(t, id.key))
            && (e.commitIdentity <==>
                  t.runs[c.run].commitId != "" || t.runs[c.run].commitPhase != "" ||
                      Occurs(t.runs[c.run].intent, id.key))
            && (e.registered <==> t.runs[c.run].registrations > 0)
            && e.configured == t.runs[c.run].configured
  {
    hide Contains, Occurs;
    ContainsIff(t.runs[c.run].intent, id.key);
    assert BeingUploaded(t, id.key) <==>
           exists u :: u in t.uploads && t.uploads[u].key == id.key && t.uploads[u].status == Open;
  }

  // ----- discovery -----

  /** A new candidate is quarantined for the retention time, a day by default, with nothing decided. */
  lemma DiscoveredRow(w: World, f: Found, now: Time, retention: int)
    requires f.id !in w.candidates
    ensures var c := Discover(w, f, now, retention).candidates[f.id];
            && c.run == f.run && c.task == f.task
            && c.status == Quarantined
            && c.discoveredAt == now
            && c.quarantineUntil == now + (if retention > 0 then retention else 24 * 3600 * 1_000_000_000)
            && c.decision.None? && c.evidence.None? && c.current.None? && c.deletedAt.None?
            && c.count == 0
            && !c.operatorAction
  {
  }

  /** The key is under no candidate yet. */
  predicate Unknown(w: World, key: string) { forall c | c in w.candidates :: c.key != key }

  /**
   Every artifact of a run that was never published and has no ACTIVE attempt and
   no upload under way is found, and so is every completed upload of an attempt
   that did not succeed, of a run that is over, when it is not an artifact.
   */
  lemma LeftBehindIsFound(w: World, f: Found)
    requires Unknown(w, f.id.key) && f.run in w.tables.runs
    requires || (&& f.id.key in w.tables.artifacts
                 && w.tables.artifacts[f.id.key] == ArtifactRow(f.run, f.task, f.id.attempt, f.id.sha)
                 && NeverPublished(w.tables.runs[f.run])
                 && (forall a | AttemptOfRun(w.tables, a, f.run) :: w.tables.attempts[a].status != AttemptStatus.Active)
                 && (forall u | u in w.tables.uploads && w.tables.uploads[u].run == f.run ::
                       w.tables.uploads[u].status in {Completed, Aborted}))
             || (&& f.upload in w.tables.uploads
                 && w.tables.uploads[f.upload] == UploadRow(f.run, f.task, f.id.attempt, f.id.key, f.id.sha, Completed)
                 && RunIsOver(w.tables.runs[f.run])
                 && f.id.attempt in w.tables.attempts
                 && w.tables.attempts[f.id.attempt].status in
                    {AttemptStatus.Failed, AttemptStatus.Expired, AttemptStatus.Canceled}
                 && f.id.key !in w.tables.artifacts)
    ensures Scanned(w, f)
  {
  }

  /**
   What is found is not known yet and not at work, and nothing but the intent of
   a commit can make it part of a dataset.
   */
  lemma FoundIsLeftBehind(w: World, f: Found)
    requires Scanned(w, f) && AttemptOfRun(w.tables, f.id.attempt, f.run)
    ensures Unknown(w, f.id.key) && f.run in w.tables.runs
    ensures !AtWork(w.tables, f.id, f.run)
    ensures MayBePublished(w.tables, f.id, f.run) ==> Occurs(w.tables.runs[f.run].intent, f.id.key)
    ensures NeverPublished(w.tables.runs[f.run]) || f.id.key !in w.tables.artifacts
    ensures f.id.key in w.tables.artifacts ==>
              && (forall a | AttemptOfRun(w.tables, a, f.run) :: w.tables.attempts[a].status != AttemptStatus.Active)
              && (forall u | u in w.tables.uploads && w.tables.uploads[u].run == f.run ::
                    w.tables.uploads[u].status in {Completed, Aborted})
  {
    hide Occurs;
  }

  // ----- claims -----

  /** Waiting for a first or another attempt, with its quarantine over. */
  predicate Ready(w: World, id: CandidateId, now: Time) {
    && id in w.candidates
    && w.candidates[id].status in {Quarantined, DeleteFailed, DeleteAmbiguous}
    && w.candidates[id].quarantineUntil <= now
    && w.candidates[id].current.None?
  }

  /**
   A claim of a ready candidate blocks it when the object may be in use, hands it
   to the operator when that is unclear, and opens the next attempt otherwise;
   a candidate that is not ready is left alone.
   */
  lemma ClaimEffect(w: World, id: CandidateId, token: string, now: Time, lease: int)
    ensures !Ready(w, id, now) ==> Claim(w, id, token, now, lease) == w
    ensures Ready(w, id, now) && EvidenceOf(w.tables, id, w.candidates[id]).Some? ==>
              var c, w' := w.candidates[id], Claim(w, id, token, now, lease);
              var d := EvidenceOf(w.tables, id, c).value.decision;
              var next := CleanupId(id, c.count + 1);
              && (d in {Referenced, ActiveUse} ==>
                    w'.cleanups == w.cleanups && w'.candidates[id].status == BlockedReferenced
                    && !w'.candidates[id].operatorAction && w'.candidates[id].decision == Some(d))
              && (d == Ambiguous ==>
                    w'.cleanups == w.cleanups && w'.candidates[id].status == BlockedAmbiguous
                    && w'.candidates[id].operatorAction && w'.candidates[id].decision == Some(d))
              && (d == Unreferenced && MayInsertCleanup(w, next, token) ==>
                    && w'.candidates[id].status == DeletePending
                    && w'.candidates[id].current == Some(next)
                    && w'.candidates[id].count == c.count + 1
                    && w'.candidates[id].evidence == EvidenceOf(w.tables, id, c)
                    && next in w'.cleanups
                    && w'.cleanups[next].status == Held
                    && w'.cleanups[next].token == token
                    && w'.cleanups[next].deadline == now + lease)
    ensures forall x | x in w.candidates && x != id :: x in Claim(w, id, token, now, lease).candidates
              && Claim(w, id, token, now, lease).candidates[x] == w.candidates[x]
  {
    hide EvidenceOf, MayInsertCleanup;
  }

  /** In a state of the protocol with a fresh token the next attempt can always be inserted. */
  lemma FreshTokenInserts(w: World, id: CandidateId, token: string, now: Time, time: Time, retention: int)
    requires Inv(w, time, retention) && Ready(w, id, now)
    requires forall x | x in w.cleanups :: w.cleanups[x].token != token
    ensures MayInsertCleanup(w, CleanupId(id, w.candidates[id].count + 1), token)
  {
    assert CandidateOk(w, id, time, retention);
    var next := CleanupId(id, w.candidates[id].count + 1);
    assert next !in w.cleanups;
  }

  /**
   Deletion is authorised if and only if the attempt is the held, current one with
   this token, and the evidence is the recorded one and finds no use; then the
   candidate is DELETING and nothing else changes.
   */
  lemma AuthorizationIff(w: World, a: CleanupId, token: string)
    ensures Authorize(w, a, token) != w <==>
            && MayFinish(w, a, token)
            && w.candidates[a.candidate].status == DeletePending
            && EvidenceOf(w.tables, a.candidate, w.candidates[a.candidate]).Some?
            && EvidenceOf(w.tables, a.candidate, w.candidates[a.candidate]).value.decision == Unreferenced
            && w.candidates[a.candidate].evidence == EvidenceOf(w.tables, a.candidate, w.candidates[a.candidate])
    ensures Authorize(w, a, token) != w ==>
              Authorize(w, a, token) ==
              w.(candidates := w.candidates[a.candidate := w.candidates[a.candidate].(status := Deleting)])
  {
    hide EvidenceOf;
    if Authorizes(w, a, token) {
      assert Authorize(w, a, token).candidates[a.candidate].status == Deleting;
    }
  }

  // ----- the end of an attempt -----

  /** The attempt is the current one, still held, and the token is right. */
  predicate MayFinish(w: World, a: CleanupId, token: string) {
    && a in w.cleanups
    && w.cleanups[a].token == token
    && w.cleanups[a].status == Held
    && a.candidate in w.candidates
    && w.candidates[a.candidate].current == Some(a)
  }

  /** Nothing changes without the right to finish. */
  lemma FinishRefused(w: World, a: CleanupId, token: string, result: DeleteResult, now: Time, retry: int, max: int,
      dryRun: bool)
    requires !MayFinish(w, a, token)
    ensures Finish(w, a, token, result, now, retry, max, dryRun) == w
  {
  }

  /**
   The candidate row by outcome. A deleted or missing object is DELETED; a dry
   run, an unclear outcome and a failure with attempts left are tried again after
   the retry time; a conflict and the last failure need the operator.
   */
  lemma FinishEffect(w: World, a: CleanupId, token: string, result: DeleteResult, now: Time, retry: int, max: int,
      dryRun: bool)
    requires MayFinish(w, a, token)
    ensures var w' := Finish(w, a, token, result, now, retry, max, dryRun);
            var was, c, x := w.candidates[a.candidate], w'.candidates[a.candidate], w'.cleanups[a];
            var gone := !dryRun && (result == DeleteResult.Deleted || result == Missing);
            var last := !dryRun && (result == Conflict || (result == Failure && a.number >= max));
            && (c.status == CandidateStatus.Deleted <==> gone)
            && (c.status == OperatorReview <==> last)
            && (c.status == Quarantined <==> dryRun)
            && (c.status == DeleteAmbiguous <==> !dryRun && result == Unsure)
            && (c.status == DeleteFailed <==> !dryRun && result == Failure && a.number < max)
            && (c.operatorAction <==> last)
            && c.current.None?
            && c.quarantineUntil == (if gone || last then was.quarantineUntil else now + retry)
            && c.deletedAt == (if gone then Some(now) else was.deletedAt)
            && (x.status == Done <==> dryRun || gone)
            && (x.status == Unclear <==> !dryRun && result == Unsure)
            && (x.status == Lost <==> !dryRun && (result == Conflict || result == Failure))
            && (forall y | y in w.cleanups && y != a :: w'.cleanups[y] == w.cleanups[y])
            && (forall y | y in w.candidates && y != a.candidate :: w'.candidates[y] == w.candidates[y])
  {
  }

  /** So an attempt that ended may be followed by another only after the retry time. */
  lemma RetryWaits(w: World, a: CleanupId, token: string, result: DeleteResult, now: Time, retry: int, max: int,
      dryRun: bool, later: Time)
    requires MayFinish(w, a, token)
    ensures Ready(Finish(w, a, token, result, now, retry, max, dryRun), a.candidate, later) ==>
              && later >= now + retry
              && (dryRun || result == Unsure || (result == Failure && a.number < max))
  {
    FinishEffect(w, a, token, result, now, retry, max, dryRun);
  }

  // ----- expiry and withdrawal -----

  /**
   Expiry spares an attempt whose lease has not run out, and its candidate; the others
   time out and become unclear.
   */
  lemma ExpiryEffect(w: World, now: Time, a: CleanupId)
    requires a in w.cleanups && w.cleanups[a].status == Held
    requires a.candidate in w.candidates && w.candidates[a.candidate].current == Some(a)
    ensures var w' := ExpireCleanups(w, now);
            if w.cleanups[a].deadline > now then
              w'.cleanups[a] == w.cleanups[a] && w'.candidates[a.candidate] == w.candidates[a.candidate]
            else
              && w'.cleanups[a].status == TimedOut
              && w'.candidates[a.candidate].status == DeleteAmbiguous
              && w'.candidates[a.candidate].current.None?
              && w'.candidates[a.candidate].quarantineUntil == w.candidates[a.candidate].quarantineUntil
              && w'.candidates[a.candidate].count == w.candidates[a.candidate].count
  {
  }

  /** Attempts that ended and candidates without an attempt stay. */
  lemma ExpirySpares(w: World, now: Time)
    ensures forall a | a in w.cleanups && w.cleanups[a].status != Held ::
              ExpireCleanups(w, now).cleanups[a] == w.cleanups[a]
    ensures forall id | id in w.candidates && w.candidates[id].current.None? ::
              ExpireCleanups(w, now).candidates[id] == w.candidates[id]
  {
  }

  /** Withdrawing a candidate that is not DELETED ends its attempt, and nobody may finish that attempt afterwards. */
  lemma WithdrawalEffect(w: World, id: CandidateId, a: CleanupId, token: string)
    requires id in w.candidates
    ensures var w' := CancelCleanup(w, id);
            if w.candidates[id].status == CandidateStatus.Deleted then w' == w
            else
              && w'.candidates[id].status == CanceledCleanup
              && w'.candidates[id].current.None?
              && (w.candidates[id].current == Some(a) && a in w.cleanups && w.cleanups[a].status == Held ==>
                    w'.cleanups[a].status == Withdrawn && !MayFinish(w', a, token))
              && (forall y | y in w.candidates && y != id :: w'.candidates[y] == w.candidates[y])
  {
  }

  // ----- retention -----

  /** Attempts that retention keeps, by the rows. */
  predicate Retained(w: World, a: Id, run: Id, cutoff: Time)
    requires a in w.tables.attempts && run in w.tables.runs
  {
    || w.tables.attempts[a].status == AttemptStatus.Active
    || w.tables.runs[run].status !in {RunStatus.Failed, RunStatus.Canceled}
    || w.tables.runs[run].finishedAt.None?
    || w.tables.runs[run].finishedAt.value >= cutoff
    || (exists c ::
        c in w.candidates && w.candidates[c].run == run && w.candidates[c].status != CandidateStatus.Deleted)
    || (exists u :: u in w.tables.uploads && w.tables.uploads[u].run == run
                    && w.tables.uploads[u].status != Completed && w.tables.uploads[u].status != Aborted)
  }

  /**
   Of the attempts with a run, those go that ended in a run that FAILED or was
   CANCELED before the cutoff, with nothing left to clean up or to upload.
   */
  lemma PrunableIff(w: World, a: Id, cutoff: Time)
    requires a in w.tables.attempts && w.tables.attempts[a].task in w.tables.tasks
    requires w.tables.tasks[w.tables.attempts[a].task].run in w.tables.runs
    ensures Prunable(w, a, cutoff) <==> !Retained(w, a, w.tables.tasks[w.tables.attempts[a].task].run, cutoff)
  {
    assert forall u | u in w.tables.uploads ::
        w.tables.uploads[u].status == Open <==>
        w.tables.uploads[u].status != Completed && w.tables.uploads[u].status != Aborted;
  }

  /** After a pass of retention exactly the retained attempts are left, with the artifacts and uploads of them. */
  lemma RetentionEffect(w: World, a: Id, cutoff: Time)
    requires a in w.tables.attempts && w.tables.attempts[a].task in w.tables.tasks
    requires w.tables.tasks[w.tables.attempts[a].task].run in w.tables.runs
    ensures var w' := Prune(w, PrunableAttempts(w, cutoff));
            var stays := Retained(w, a, w.tables.tasks[w.tables.attempts[a].task].run, cutoff);
            && (a in w'.tables.attempts <==> stays)
            && (stays ==> w'.tables.attempts[a] == w.tables.attempts[a])
            && (forall k | k in w.tables.artifacts && w.tables.artifacts[k].attempt == a ::
                  k in w'.tables.artifacts <==> stays)
            && (forall u | u in w.tables.uploads && w.tables.uploads[u].attempt == a ::
                  u in w'.tables.uploads <==> stays)
            && (forall c | c in w.candidates && c.attempt == a :: c in w'.candidates <==> stays)
            && w'.tables.runs == w.tables.runs
            && w'.tables.tasks == w.tables.tasks
  {
    hide Prunable, Retained;
    PrunableIff(w, a, cutoff);
  }
}
