/**
 Removal of objects that no published run refers to: candidates are quarantined
 on discovery, claimed by a cleanup attempt, authorised against fresh evidence
 and then deleted. Each transaction is a function from one state to the next.
 */
module ObjectCleanup {
  import opened Prelude
  import ControlPlane

  type Id = ControlPlane.Id
  type Time = ControlPlane.Time
  type RunStatus = ControlPlane.RunStatus
  type AttemptStatus = ControlPlane.AttemptStatus

  predicate Settled(s: RunStatus) { s.Succeeded? || s.Failed? || s.Canceled? }

  datatype RunRow = RunRow(
    status: RunStatus, commitId: string, commitPhase: string, intent: string, configured: bool,
    registrations: nat, finishedAt: Option<Time>)
  {
    /** FAILED or CANCELED without ever having begun a commit. */
    predicate Unpublished() { (status.Failed? || status.Canceled?) && commitId == "" && commitPhase == "" }
  }

  datatype TaskRow = TaskRow(run: Id, status: string)

  datatype AttemptRow = AttemptRow(task: Id, status: AttemptStatus)

  datatype ArtifactRow = ArtifactRow(run: Id, task: Id, attempt: Id, sha: string)

  datatype UploadStatus = Open | Completed | Aborted

  datatype UploadRow = UploadRow(run: Id, task: Id, attempt: Id, key: string, sha: string, status: UploadStatus)

  /** The tables that cleanup reads. Object keys of artifacts are unique. */
  datatype Tables = Tables(
    runs: map<Id, RunRow>,
    tasks: map<Id, TaskRow>,
    attempts: map<Id, AttemptRow>,
    artifacts: map<string, ArtifactRow>,
    uploads: map<Id, UploadRow>)

  /** Candidates are identified by a digest of these three. */
  datatype CandidateId = CandidateId(attempt: Id, key: string, sha: string)

  datatype CandidateStatus =
    | Quarantined
    | BlockedReferenced
    | BlockedAmbiguous
    | OperatorReview
    | DeletePending
    | Deleting
    | DeleteAmbiguous
    | Deleted
    | DeleteFailed
    | CanceledCleanup

  datatype Decision = ActiveUse | Referenced | Ambiguous | Unreferenced

  /** Everything the evidence digest covers. */
  datatype Evidence = Evidence(
    candidate: CandidateId, run: RunStatus, task: string, attempt: AttemptStatus, commitPhase: string,
    decision: Decision,
    artifactReference: bool, activeMultipart: bool, commitIdentity: bool, registered: bool, configured: bool)

  /** The n-th cleanup attempt of a candidate. */
  datatype CleanupId = CleanupId(candidate: CandidateId, number: nat)

  datatype Candidate = Candidate(
    run: Id,
    task: Id,
    status: CandidateStatus,
    discoveredAt: Time,
    quarantineUntil: Time,
    decision: Option<Decision>,
    evidence: Option<Evidence>,
    count: nat,
    current: Option<CleanupId>,
    operatorAction: bool,
    deletedAt: Option<Time>)

  datatype CleanupStatus = Held | Done | Lost | Unclear | Withdrawn | TimedOut

  datatype Cleanup = Cleanup(status: CleanupStatus, token: string, deadline: Time)

  datatype World = World(tables: Tables, candidates: map<CandidateId, Candidate>, cleanups: map<CleanupId, Cleanup>)

  const DAY: int := 86_400_000_000_000

  function Retention(configured: int): (r: int)
    ensures r > 0
  {
    if configured <= 0 then DAY else configured
  }

  // ----- discovery -----

  predicate AttemptOver(s: AttemptStatus) { s.Failed? || s.Expired? || s.Canceled? }

  predicate HasCandidate(w: World, key: string) { exists c :: c in w.candidates && c.key == key }

  /** An accepted artifact of a settled run that never began publication. */
  predicate UnpublishedArtifact(w: World, c: CandidateId, run: Id, task: Id) {
    && c.key in w.tables.artifacts
    && var x := w.tables.artifacts[c.key];
    && x.run == run && x.task == task && x.attempt == c.attempt && x.sha == c.sha
    && run in w.tables.runs
    && w.tables.runs[run].Unpublished()
    && (forall a | a in w.tables.attempts && w.tables.attempts[a].status.Active? ::
          !(w.tables.attempts[a].task in w.tables.tasks && w.tables.tasks[w.tables.attempts[a].task].run == run))
    && (forall u | u in w.tables.uploads && w.tables.uploads[u].run == run :: w.tables.uploads[u].status != Open)
  }

  predicate CompletedUpload(w: World, c: CandidateId, run: Id, task: Id, u: Id) {
    && u in w.tables.uploads
    && var m := w.tables.uploads[u];
    && m.run == run && m.task == task && m.attempt == c.attempt && m.key == c.key && m.sha == c.sha
    && m.status == Completed
    && run in w.tables.runs
    && c.attempt in w.tables.attempts
    && c.key !in w.tables.artifacts
  }

  /** A completed upload of an attempt that is over, never accepted, in a finished run. */
  predicate UnacceptedUpload(w: World, c: CandidateId, run: Id, task: Id, u: Id) {
    && CompletedUpload(w, c, run, task, u)
    && Settled(w.tables.runs[run].status)
    && AttemptOver(w.tables.attempts[c.attempt].status)
  }

  /** The same while a run is being canceled: its canceled attempts' uploads. */
  predicate CanceledUpload(w: World, c: CandidateId, run: Id, task: Id, u: Id) {
    && CompletedUpload(w, c, run, task, u)
    && w.tables.attempts[c.attempt].status.Canceled?
  }

  /** One row of a discovery query. */
  datatype Found = Found(id: CandidateId, run: Id, task: Id, upload: Id)

  /** The tables show the object to be left behind. */
  predicate Orphaned(w: World, f: Found) {
    || UnpublishedArtifact(w, f.id, f.run, f.task)
    || UnacceptedUpload(w, f.id, f.run, f.task, f.upload)
    || CanceledUpload(w, f.id, f.run, f.task, f.upload)
  }

  /** A row of the two scanning queries: orphaned, and not yet known under any candidate. */
  predicate Scanned(w: World, f: Found) {
    && !HasCandidate(w, f.id.key)
    && (UnpublishedArtifact(w, f.id, f.run, f.task) || UnacceptedUpload(w, f.id, f.run, f.task, f.upload))
  }

  function NewCandidate(f: Found, now: Time, retention: int): Candidate {
    Candidate(f.run, f.task, Quarantined, now, now + Retention(retention), None, None, 0, None, false, None)
  }

  /** INSERT OR IGNORE. */
  function Discover(w: World, f: Found, now: Time, retention: int): World {
    if f.id in w.candidates then w else w.(candidates := w.candidates[f.id := NewCandidate(f, now, retention)])
  }

  // ----- evidence -----

  predicate Contains(text: string, part: string) {
    part <= text || (text != "" && Contains(text[1..], part))
  }

  /** The evidence about a candidate, or None when one of its rows is missing. */
  function EvidenceOf(t: Tables, id: CandidateId, c: Candidate): Option<Evidence> {
    if c.run !in t.runs || c.task !in t.tasks || id.attempt !in t.attempts then None
    else
      var run, attempt := t.runs[c.run], t.attempts[id.attempt].status;
      var artifact := id.key in t.artifacts;
      var open := exists u :: u in t.uploads && t.uploads[u].key == id.key && t.uploads[u].status == Open;
      var intended := Contains(run.intent, id.key);
      var registered := run.registrations > 0;
      var decision :=
        if !Settled(run.status) || attempt.Active? then ActiveUse
        else if intended then Referenced
        else if !run.Unpublished() && (artifact || !AttemptOver(attempt)) then Referenced
        else if open then ActiveUse
        else if run.Unpublished() && registered then Ambiguous
        else Unreferenced;
      Some(Evidence(id, run.status, t.tasks[c.task].status, attempt, run.commitPhase, decision,
                    artifact, open, run.commitId != "" || run.commitPhase != "" || intended,
                    registered, run.configured))
  }

  // ----- claim, authorise, finish -----

  predicate Claimable(w: World, id: CandidateId, now: Time) {
    && id in w.candidates
    && var c := w.candidates[id];
    && (c.status == Quarantined || c.status == DeleteFailed || c.status == DeleteAmbiguous)
    && c.quarantineUntil <= now
    && c.current.None?
  }

  predicate MayInsertCleanup(w: World, id: CleanupId, token: string) {
    && id !in w.cleanups
    && forall x | x in w.cleanups ::
        w.cleanups[x].token != token && (x.candidate == id.candidate ==> w.cleanups[x].status != Held)
  }

  function Block(c: Candidate, e: Evidence): Candidate {
    var blocked := if e.decision == Referenced || e.decision == ActiveUse then BlockedReferenced else BlockedAmbiguous;
    c.(status := blocked, decision := Some(e.decision), evidence := Some(e),
        operatorAction := blocked == BlockedAmbiguous)
  }

  /** `id` is the row the claim query selected. */
  function Claim(w: World, id: CandidateId, token: string, now: Time, lease: int): World {
    if !Claimable(w, id, now) then w
    else
      var c := w.candidates[id];
      var e := EvidenceOf(w.tables, id, c);
      if e.None? then w
      else if e.value.decision != Unreferenced then w.(candidates := w.candidates[id := Block(c, e.value)])
      else
        var next := CleanupId(id, c.count + 1);
        if !MayInsertCleanup(w, next, token) then w
        else
          w.(
            candidates := w.candidates[id := c.(
              status := DeletePending, decision := Some(Unreferenced), evidence := e,
              count := c.count + 1, current := Some(next))],
            cleanups := w.cleanups[next := Cleanup(Held, token, now + lease)])
  }

  predicate Authorizes(w: World, a: CleanupId, token: string) {
    && a.candidate in w.candidates
    && var c := w.candidates[a.candidate];
    && c.status == DeletePending
    && c.current == Some(a)
    && a in w.cleanups
    && w.cleanups[a].token == token
    && w.cleanups[a].status == Held
    && var e := EvidenceOf(w.tables, a.candidate, c);
    && e.Some?
    && e.value.decision == Unreferenced
    && c.evidence == e
  }

  function Authorize(w: World, a: CleanupId, token: string): World {
    if !Authorizes(w, a, token) then w
    else w.(candidates := w.candidates[a.candidate := w.candidates[a.candidate].(status := Deleting)])
  }

  datatype DeleteResult = Deleted | Missing | Unsure | Conflict | Failure

  /** Candidate status, attempt status, operator flag, and whether a retry is scheduled. */
  function Conclusion(result: DeleteResult, dryRun: bool, number: nat, max: int)
    : (CandidateStatus, CleanupStatus, bool, bool)
  {
    if dryRun then (Quarantined, Done, false, true)
    else match result
      case Missing => (CandidateStatus.Deleted, Done, false, false)
      case Deleted => (CandidateStatus.Deleted, Done, false, false)
      case Unsure => (DeleteAmbiguous, Unclear, false, true)
      case Conflict => (OperatorReview, Lost, true, false)
      case Failure => if number >= max then (OperatorReview, Lost, true, false) else (DeleteFailed, Lost, false, true)
  }

  function Finish(w: World, a: CleanupId, token: string, result: DeleteResult, now: Time, retry: int, max: int,
      dryRun: bool): World {
    if a !in w.cleanups || w.cleanups[a].token != token || w.cleanups[a].status != Held
       || a.candidate !in w.candidates || w.candidates[a.candidate].current != Some(a) then w
    else
      var c := w.candidates[a.candidate];
      var (status, outcome, operator, again) := Conclusion(result, dryRun, a.number, max);
      w.(
        cleanups := w.cleanups[a := w.cleanups[a].(status := outcome)],
        candidates := w.candidates[a.candidate := c.(
          status := status, current := None, operatorAction := operator,
          quarantineUntil := if again then now + retry else c.quarantineUntil,
          deletedAt := if status == CandidateStatus.Deleted then Some(now) else c.deletedAt)])
  }

  predicate TimesOut(x: Cleanup, now: Time) { x.status == Held && x.deadline <= now }

  predicate CurrentTimedOut(w: World, c: Candidate, id: CandidateId, now: Time) {
    && c.current.Some?
    && c.current.value in w.cleanups
    && c.current.value.candidate == id
    && (TimesOut(w.cleanups[c.current.value], now) || w.cleanups[c.current.value].status == TimedOut)
  }

  function ExpireCleanups(w: World, now: Time): World {
    w.(
      cleanups := map a | a in w.cleanups ::
          if TimesOut(w.cleanups[a], now) then w.cleanups[a].(status := TimedOut) else w.cleanups[a],
      candidates := map id | id in w.candidates ::
        if CurrentTimedOut(w, w.candidates[id], id, now)
            then w.candidates[id].(status := DeleteAmbiguous, current := None)
        else w.candidates[id])
  }

  function CancelCleanup(w: World, id: CandidateId): World {
    if id !in w.candidates || w.candidates[id].status == CandidateStatus.Deleted then w
    else
      var c := w.candidates[id];
      w.(
        cleanups :=
          if c.current.Some? && c.current.value in w.cleanups && w.cleanups[c.current.value].status == Held
          then w.cleanups[c.current.value := w.cleanups[c.current.value].(status := Withdrawn)] else w.cleanups,
        candidates := w.candidates[id := c.(status := CanceledCleanup, current := None)])
  }

  // ----- retention of attempts -----

  predicate AttemptOfRun(t: Tables, a: Id, run: Id) {
    a in t.attempts && t.attempts[a].task in t.tasks && t.tasks[t.attempts[a].task].run == run
  }

  /** The rows one DELETE of old attempts may remove. */
  predicate Prunable(w: World, a: Id, cutoff: Time) {
    && a in w.tables.attempts
    && w.tables.attempts[a].task in w.tables.tasks
    && var run := w.tables.tasks[w.tables.attempts[a].task].run;
    && run in w.tables.runs
    && (w.tables.runs[run].status.Failed? || w.tables.runs[run].status.Canceled?)
    && w.tables.runs[run].finishedAt.Some?
    && w.tables.runs[run].finishedAt.value < cutoff
    && !w.tables.attempts[a].status.Active?
    && (forall c | c in w.candidates && w.candidates[c].run == run :: w.candidates[c].status == CandidateStatus.Deleted)
    && (forall u | u in w.tables.uploads && w.tables.uploads[u].run == run :: w.tables.uploads[u].status != Open)
  }

  /** Deleting attempts deletes their artifacts, uploads, candidates and the cleanups of those. */
  function Prune(w: World, gone: set<Id>): World {
    World(
      w.tables.(
        attempts := map a | a in w.tables.attempts && a !in gone :: w.tables.attempts[a],
        artifacts := map k | k in w.tables.artifacts && w.tables.artifacts[k].attempt !in gone :: w.tables.artifacts[k],
        uploads := map u | u in w.tables.uploads && w.tables.uploads[u].attempt !in gone :: w.tables.uploads[u]),
      map c | c in w.candidates && c.attempt !in gone :: w.candidates[c],
      map x | x in w.cleanups && x.candidate.attempt !in gone :: w.cleanups[x])
  }
}
