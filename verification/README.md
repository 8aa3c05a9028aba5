# O_Rabbit: verified model

O_Rabbit exports data with one active master and many workers. This project models
the parts that decide which work counts and which rows are read, and proves what
they promise over every input, every run or every reachable state:

* the durable control plane: attempts with leases and fencing tokens, retries and
  quarantine, admission of runs, master leadership with epochs and fences, commit
  claims, two-phase object cleanup and pruning of history, and the worker's lease loop;
* the nine-dialect SQL lexer, the read-only gate for queries and filters, and the
  statement built around accepted text;
* cursor ranges: splitting, chaining into tasks, the predicates, look-back;
* the Parquet output writers;
* type resolution for files and for overridden columns;
* the adaptive batch loop.

## How it is built

Each transaction is a function from a database to a database (`ControlPlane`,
`CommitClaims`, `ObjectCleanup`). Runs are arbitrary sequences of such steps by any
number of masters, with arbitrary clock readings and choices; what every step keeps is
proved step by step, and the theorems speak about every state a run can reach. The code
that works in place is a class or a loop beside it (`SqlLexer`, `SqlGate`,
`ControlStore`, `ControlSelection`, `LeadershipControl`, `CommitClaims`, `CleanupStore`,
`TaskLease`, `ParquetRolling`, `ParquetPartitioned`, `FileScan`, `AdaptiveBatch`), proved
to do what the step function says. What the step functions themselves mean is said a second
time without them, on the columns of the rows, the bytes of a text or the sizes of a file, and
proved equivalent (`ControlEffects`, `CommitEffects`, `CleanupEffects`, `SqlLiterals`,
`CursorMeaning`, `ParquetSizes`, `ParquetRecency`, `ColumnDecisions`, `FileKinds`).

Identifiers are integers, whose order stands for the order of text keys; instants and
durations are integers (nanoseconds, or milliseconds for leadership). Random ids and
tokens are arguments. SHA-256 digests are taken to be injective: a candidate or evidence
digest is the tuple it covers. Text is a sequence of bytes. Rational numbers are `real`.
64-bit wrap-around is written out where the source multiplies durations or sizes.

Where the source and its comments differ, the model follows the source:
`widerFallback` is documented to return a type at least as wide as the request and does
not for an unsigned request when data with negatives fits the signed kind of the same
width; the digest of a result is documented to make a different retry conflict and does
not for results with a boundary or with a NUL inside the message; the 2^53 guard of the
file scan does not see JSON numbers; a process keeps its first leadership fence; a repeated report
of a canceled attempt is fenced although identical reports are otherwise accepted; the
bounded overshoot of the rolling writer fails when the product of sizes leaves 64 bits.

## Model

| member | source | states |
|---|---|---|
| SqlConcat.ScanConcat | internal/connectors/sql_lexer.go:86-313 | The token at the front of a text is the same after any text is appended, provided no construct of the first text reaches into the second |
| SqlConcat.TokensConcat | internal/connectors/sql_lexer.go:73-313 | Lexing is compositional: the tokens of `r + t` are those of `r` followed by those of `t`, for every dialect that lexes `r`, when `r` does not end in a line comment, its brackets are settled and `t` may follow it |
| SqlResult.UnbalancedIff | internal/connectors/sql_lexer.go:73-128 | The flag `unbalanced` is set exactly when some closing parenthesis or bracket closes nothing or one is left open |
| SqlResult.LineCommentFlag | internal/connectors/sql_lexer.go:143-152 | The flag `lineComment` is set exactly when the text ends inside a line comment |
| SqlResult.SettledIfBalanced | internal/connectors/sql_lexer.go:200-242 | In balanced text the search for `]` never looks past the end of the text, so appended text cannot change how a bracket is read |
| SqlWrap.WrappedTokens | internal/connectors/query_mode.go:128-137 | Wrapping a text in parentheses adds one opening and one closing token and leaves the text's own tokens as they are |
| SqlWrap.WrappedTextIsOneGroup | internal/connectors/query_mode.go:128-137 | The final `)` is the one that closes the first `(`, whatever follows |
| SqlLexer.Lexer.ClosingBracket | internal/connectors/sql_lexer.go:232-242 | The cached offset always equals a fresh scan for the first `]` after the current position |
| SqlLexer.Lexer.SkipLineComment | internal/connectors/sql_lexer.go:143-152 | Moves to the end of the line and records the comment, with the end-of-text flag |
| SqlLexer.Lexer.SkipBlockComment | internal/connectors/sql_lexer.go:154-177 | Moves past the comment, nested or not, or reports it unterminated at the end of the text; executable comments are flagged |
| SqlLexer.Lexer.SkipQuoted | internal/connectors/sql_lexer.go:179-198 | Moves past the literal with doubled quotes and backslash escapes, or reports it unterminated |
| SqlLexer.Lexer.Bracket | internal/connectors/sql_lexer.go:200-230 | Reads a bracketed name, a plain subscript or a bare bracket exactly as the token says, keeping the depth |
| SqlLexer.Lexer.Dollar | internal/connectors/sql_lexer.go:245-263 | Reads a dollar-quoted literal up to the same tag, a lone `$`, or reports it unterminated |
| SqlLexer.Lexer.QQuote | internal/connectors/sql_lexer.go:295-313 | Reads Oracle's q-quoted literal up to the matching delimiter |
| SqlLexer.Lexer.ReadWord | internal/connectors/sql_lexer.go:265-293 | Reads a word, or the string literal a prefix such as `E` or `q` starts |
| SqlLexer.Lexer.Step | internal/connectors/sql_lexer.go:86-128 | Every step strictly advances, stays within the text, reads the token at the offset and updates the summary as that token demands |
| SqlLexer.StepsBounded | internal/connectors/sql_lexer.go:73-84 | Lexing takes at most as many steps as the text has bytes |
| SqlLexer.LexSql | internal/connectors/sql_lexer.go:73-84 | The loop gives the summary and the error of the token sequence |
| SqlLiterals.QuotedIsOneLiteral | internal/connectors/sql_lexer.go:179-198 | Round trip: for every body and dialect, the quoted body with its quotes doubled, and its backslashes where the dialect has them, scans as one literal of exactly that length |
| SqlLiterals.OpenNeverEnds | internal/connectors/sql_lexer.go:179-198 | The same body without the closing quote is unterminated |
| SqlLiterals.BracketNameIsOneLiteral | internal/connectors/sql_lexer.go:200-230 | A bracketed name with `]` doubled is one literal of exactly that length |
| SqlLiterals.BlockIsOneComment | internal/connectors/sql_lexer.go:154-177 | Every body without comment marks between `/*` and `*/` is one comment of exactly that length |
| SqlLiterals.NestedComment | internal/connectors/sql_lexer.go:154-177 | A comment inside a comment ends at the outer mark where the dialect nests comments, and at the first mark where it does not |
| SqlLiterals.LineIsOneComment | internal/connectors/sql_lexer.go:143-152 | A line comment ends exactly at the end of its line, for `-- `, `#` and `//` where the dialect has them |
| SqlLiterals.DollarIsOneLiteral | internal/connectors/sql_lexer.go:245-263 | A dollar-quoted body that does not hold its delimiter is one literal of exactly that length |
| SqlLiterals.EscapeStringIsOneLiteral | internal/connectors/sql_lexer.go:265-293 | The same round trip for `E` strings |
| SqlLiterals.QQuoteIsOneLiteral | internal/connectors/sql_lexer.go:295-313 | An Oracle q-quoted body without its closing delimiter and quote is one literal of exactly that length |
| SqlLiterals.SubscriptIsOneLiteral | internal/connectors/sql_lexer.go:200-230 | Without bracketed names, a bracket around a plain name is one token, and any other is a bare bracket |
| SqlLiterals.WordIsOneToken | internal/connectors/sql_lexer.go:265-293 | A word is one token of exactly its letters, digits, `_` and `$` |
| SqlLiterals.DashIff | internal/connectors/sql_lexer.go:130-141 | `--` starts a comment if and only if the dialect needs no space after it, or there is one, or the text ends |
| SqlLiterals.ExecutableIff | internal/connectors/sql_lexer.go:154-177 | A comment is flagged as executable if and only if the dialect runs such comments and the body starts with `!` or `M!` |
| SqlLiterals.DialectTable | internal/connectors/sql_lexer.go:29-39 | Which of the nine dialects has which syntax |
| ReadOnlySql.LexMeaning | internal/connectors/sql_lexer.go:73-128 | What the summary says of the tokens: the exact offset of the first separator, whether anything visible follows it, executable comments, first word, data-changing keyword, balance, line comment at the end |
| ReadOnlySql.ShapeIff | internal/connectors/query_mode.go:506-526 | A dialect passes a text if and only if it sees no executable comment, a separator only when it lexes the text and only blanks and comments follow, an error only of the kind that stops it from running, and, when it lexes, SELECT or WITH first, balanced groups and no data-changing keyword |
| ReadOnlySql.CutIff | internal/connectors/query_mode.go:475-504 | A text is cut to `v` if and only if every dialect sees one read-only statement, some dialect lexes it, those that do agree on the offset of the separator, and `v` is the trimmed text before it, or the whole text when there is none |
| ReadOnlySql.CutFixpointIff | internal/connectors/query_mode.go:475-504 | Cutting returns a text unchanged exactly when every dialect finds it harmless and some dialect can read it |
| SqlStatement.NormalizedIsHarmless | internal/connectors/query_mode.go:454-526 | In normalised text no dialect sees a top-level `;`, even one that stops on an error; each dialect that lexes it sees SELECT or WITH first, balanced groups and no data-changing keyword |
| SqlStatement.NormalizeIff | internal/connectors/query_mode.go:454-526 | Raw text is normalised to `v` exactly under the condition of CutIff on its trimmed text, with `v` harmless in every dialect and lexed by one |
| SqlStatement.SecondStatementIsRejected | internal/connectors/sql_lexer.go:98-99 | A visible token behind a separator in any dialect makes the query invalid: no second statement is ever dropped |
| SqlStatement.ChangingKeywordIsRejected | internal/connectors/query_mode.go:568-585 | Each of the eighteen data-changing keywords, in any letter case, outside subscripts and literals of some dialect that lexes the text, makes the query invalid |
| SqlStatement.OpenNameIsRejected | internal/connectors/sql_lexer.go:324-330 | A quoted or bracketed name that any dialect leaves open rejects query and filter |
| SqlStatement.OpenStringIsLeftToOthers | internal/connectors/sql_lexer.go:324-330 | A dialect that finds an open string, comment or dollar quote objects only to a separator or an executable comment before it |
| SqlStatement.SeparatorIsSemicolon | internal/connectors/sql_lexer.go:94-105 | The offset recorded for the end of the statement is that of a `;` of the text |
| SqlStatement.NormalizeIsIdempotent | internal/connectors/query_mode.go:454-504 | Normalising accepted text again returns the same text |
| SqlStatement.NormalFormIff | internal/connectors/query_mode.go:454-526 | A text is its own normal form if and only if it has no outer white space, every dialect finds it harmless and some dialect lexes it |
| SqlStatement.SelectIsAccepted | internal/connectors/query_mode.go:454-526 | The gate is not empty: the bare word SELECT passes all nine dialects |
| SqlStatement.FilterAcceptedIff | internal/connectors/query_mode.go:536-574 | A filter is accepted if and only if every dialect finds it harmless (no separator, comment or data-changing keyword, balanced) and some dialect lexes it |
| SqlStatement.QueryStaysOneGroup | internal/connectors/query_mode.go:128-137 | An accepted query, wrapped, stays one closed group for every dialect that lexes it, behind any text that leaves nothing open and before any text whatever |
| SqlStatement.FilterStaysOneGroup | internal/connectors/range_predicate.go:57-60 | An accepted filter in parentheses stays one closed group, so the cursor bounds after it stay outside |
| SqlStatement.StatementShape | internal/connectors/query_mode.go:188-232 | The whole cursor or count statement reads as its head, the query group, the alias and WHERE, the filter group and the tail |
| SqlStatement.HeadsLeaveNothingOpen | internal/connectors/range_predicate.go:104-118 | The heads of the row and count queries of all engines leave nothing open in any dialect |
| SqlGate.CutReadOnlyStatement | internal/connectors/query_mode.go:475-504 | The loop over the nine dialects agrees with the specification, including which error wins |
| SqlGate.NormalizeReadOnlyQuery | internal/connectors/query_mode.go:454-473 | Trims, cuts and returns harmless text or the first error |
| SqlGate.ValidateWhereClause | internal/connectors/query_mode.go:536-574 | The loop over the dialects accepts exactly the harmless filters |
| SqlGate.EndsInLineComment | internal/connectors/sql_lexer.go:334-341 | True exactly when some dialect ends inside a line comment |
| Trimming.TrimLeavesNoSpace | internal/connectors/query_mode.go:454-460 | Trimmed text neither starts nor ends with white space |
| Trimming.TrimIsMiddle | internal/connectors/query_mode.go:454-460 | Every text is its trimmed text between two runs of white-space code points: nothing else is removed |
| ControlPlane.Policy.Normalized | internal/db/attempts.go:75-89 | Every limit of a normalised lease policy is positive |
| ControlInvariant.AssignKeeps | internal/db/attempts.go:102-188 | Assignment keeps the invariant of attempts and tasks |
| ControlInvariant.ExpireKeeps | internal/db/attempts.go:219-283 | So does an expiry pass over any number of attempts |
| ControlInvariant.CompleteKeeps | internal/db/attempts.go:366-467 | So does a report |
| ControlInvariant.AbandonKeeps | internal/db/attempts.go:478-529 | So does abandonment |
| ControlRuns.InvAlways | internal/db/attempts.go:91-585 | The invariant holds in every state that any interleaving of transactions and leadership changes can reach |
| ControlRuns.RunLater | internal/db/attempts.go:91-585 | Along every run finished tasks and finished attempts never change, attempt identities never change, attempt counts and leader epochs never fall |
| ControlTheorems.AttemptsAreNumbered | internal/db/attempts.go:102-188 | In every reachable state the numbers of a task's attempts are exactly 1..attempt_count, each once, and an ACTIVE attempt is its RUNNING task's current and newest one |
| ControlTheorems.FinishedTaskIsFrozen | internal/db/attempts.go:219-529 | A finished task has the same row in every later state |
| ControlTheorems.SupersededIsFenced | internal/db/attempts.go:190-205 | Once a newer attempt of the task exists, no renewal, progress, result or abandonment in the name of an older one ever changes a row again |
| ControlTheorems.CallTouchesOwnRows | internal/db/attempts.go:366-545 | A call of an attempt changes no row but its attempt, its task and, when it quarantines, its run |
| ControlTheorems.OneSuccess | internal/db/attempts.go:366-467 | At most one attempt of a task ever succeeds |
| ControlTheorems.AcceptedReportIsSettled | internal/db/attempts.go:394-402 | In every later state a report with the digest of the accepted one is answered "already accepted" and any other digest is a conflict; neither changes a row |
| ControlTheorems.CanceledReportIsFenced | internal/db/attempts.go:391-393 | A repeated CANCELED report is fenced |
| ControlTheorems.ExecKeepsArtifacts | internal/db/attempts.go:416-434 | Artifacts belong to SUCCEEDED attempts and no object key is stored twice, after every step |
| ControlTheorems.StoredIndices | internal/db/attempts.go:419-434 | The stored file indices of an accepted report are those of its records, for ever |
| ControlEffects.LiveLeaseIsSpared | internal/db/attempts.go:219-283 | In every state that keeps the invariant an expiry pass leaves an ACTIVE attempt whose deadline lies ahead, and its task, as they are |
| ControlEffects.LapsedLeaseExpires | internal/db/attempts.go:219-283 | A lapsed ACTIVE attempt that is current in a RUNNING task of a RUNNING run becomes EXPIRED and its task stops running |
| ControlEffects.ExpiryTouchesLapsedOnly | internal/db/attempts.go:219-283 | Nothing else changes: attempts that are over or live, attempts and tasks of runs that are not RUNNING, tasks that do not run |
| ControlEffects.HolderSurvivesExpiry | internal/db/attempts.go:219-283 | A worker that holds its lease still holds it after an expiry pass at the same instant |
| ControlEffects.LiveLeaderStays | internal/db/leadership.go:49-75 | Nobody takes the leadership from an active leader whose deadline lies ahead |
| ControlEffects.FreeLeadershipIsTaken | internal/db/leadership.go:49-75 | A released or lapsed leadership goes to any instance with a name and a positive lease, under the next epoch |
| ControlEffects.BlankCannotLead | internal/db/leadership.go:49-54 | A blank instance or a lease that is not positive takes nothing |
| ControlEffects.LeaderHoldsUntilDeadline | internal/db/leadership.go:49-100 | Over every run of any masters, owner and epoch stay the same until the recorded deadline unless the owner releases |
| ControlEffects.LeaderCalls | internal/db/leadership.go:77-100 | Renewal and release change the row exactly for its owner and epoch, renewal only before the deadline |
| ControlEffects.WrongCredentialsChangeNothing | internal/db/attempts.go:190-545 | With a wrong task, token, worker or boot id renewal, progress and report all change nothing |
| ControlEffects.RenewalEffect | internal/db/attempts.go:190-205 | A renewal moves the deadline of a live current lease by the duration, 30 s by default, and does nothing otherwise |
| ControlEffects.ProgressEffect | internal/db/attempts.go:535-545 | Progress sets the counters under the same condition and does nothing otherwise |
| ControlEffects.AbandonmentIff | internal/db/attempts.go:478-529 | An abandonment takes effect if and only if it is for the worker's own ACTIVE current attempt |
| ControlEffects.AssignmentEffect | internal/db/attempts.go:102-188 | Every column of the task and attempt rows after an assignment: first start kept, attempt counted, lease of the configured duration, epoch of the leader |
| ControlEffects.LossEffect | internal/db/attempts.go:219-529 | Every column of a task after its attempt expired or was given up: PENDING after the delay, or QUARANTINED after the last attempt |
| ControlEffects.InsertableIff | internal/db/attempts.go:410-440 | Inserting the records one by one succeeds if and only if keys and indices are new and pairwise different and each record names this run and attempt |
| ControlEffects.AcceptedIff | internal/db/attempts.go:366-467 | A report is accepted if and only if the lease lives, the attempt is current in a RUNNING task of a RUNNING run, the status is final and the records can be stored |
| ControlEffects.AnswersIff | internal/db/attempts.go:366-467 | Conflict, repeated acceptance and fencing, each exactly by attempt status, digest and the right to report |
| ControlEffects.AcceptedRows | internal/db/attempts.go:366-467 | The task, attempt and artifact rows after an accepted report, for SUCCEEDED, FAILED and CANCELED: status, counters, objects, boundary, digest, failure class |
| ControlEffects.DueIff | internal/db/attempts.go:102-188 | A task is eligible exactly if it is PENDING in a RUNNING run, due, with attempts left, within both caps and in the pool |
| ControlEffects.PollTakesFirstDue | internal/db/attempts.go:102-188 | A poll takes a due task of a run with the fewest running tasks, then the oldest run, then the task order; none only when none is due |
| ControlEffects.AdmissionEffect | internal/db/run_admission.go:66-134 | Admission makes RUNNING exactly the oldest waiting runs, as many as there is room for, and leaves every other row |
| ControlEffects.StartEffect | internal/db/run_admission.go:17-61 | Starting inserts the tasks as PENDING without attempts and makes the run RUNNING exactly if it was planned and there is room |
| ControlEffects.CancelEffect | internal/db/store_runs.go:327-417 | Cancelling an unfinished run leaves it without unfinished task or ACTIVE attempt and changes nothing of other runs |
| ControlEffects.CommitEndEffect | internal/db/store_runs.go:531-585 | A commit ends as decided, once, and only for a COMMITTING run |
| ControlEffects.CreateEffect | internal/db/store_runs.go:147-172 | A new run is planned with its own settings; an existing one is never overwritten |
| ControlEffects.FinalizeEffect | internal/db/store_runs.go:419-497 | A run fails with a failed or quarantined task, starts its commit when all succeeded, and stays otherwise |
| TaskArtifacts.RecordsAcceptedIff | internal/db/attempts.go:344-358 | The sorted check passes if and only if the records belong to the attempt and their indices are 0..n-1, each once, in any order |
| TaskArtifacts.CheckRecords | internal/db/attempts.go:344-358 | The sorting and the loop decide exactly that |
| TaskArtifacts.StoredIndicesAreConsecutive | internal/db/attempts.go:344-434 | After an accepted report of n checked records the attempt has exactly the artifacts 0..n-1, for ever |
| ResultDigest.IdentifiedIff | internal/db/attempts.go:313-320 | A result is told from every other report by its digest text if and only if it has no boundary and no NUL before the last byte of its message (status and objects without NUL) |
| ResultDigest.PlainIsIdentified | internal/db/attempts.go:313-320 | A result without NUL and boundary is told from every other report, with no condition on the other |
| ResultDigest.RetryIsAnswered | internal/db/attempts.go:366-402 | In every later state an identical report is answered "already accepted" and, if the accepted one is unmistakable, a different report is a conflict; neither changes a row |
| ResultDigest.OthersRejectedIff | internal/db/attempts.go:366-402 | In every later state all different reports are rejected if and only if the accepted one is unmistakable |
| ResultDigest.ImpostorHasSameText | internal/db/attempts.go:313-320 | Every report that is not unmistakable, so every one with a boundary, shares its digest text with a different report |
| ControlScheduling.TaskCapsAlways | internal/db/attempts.go:123-160 | RUNNING tasks never exceed the global cap or their run's in-flight limit, in every reachable state |
| ControlScheduling.EligibleIsAssigned | internal/db/attempts.go:123-188 | A poll that finds an eligible task gives the worker a live lease on its next attempt and changes no other row |
| ControlScheduling.RunCapAlways | internal/db/run_admission.go:17-134 | RUNNING and COMMITTING runs never exceed the limit on either admission path, in every reachable state |
| ControlScheduling.AdmitWithinCap | internal/db/run_admission.go:83-134 | Admission adds exactly the chosen runs to the active ones and respects the cap |
| ControlScheduling.StartWithinCap | internal/db/run_admission.go:41-61 | Starting a run respects the cap |
| ControlScheduling.PrecheckHidesNothing | internal/db/run_admission.go:70-82 | On the same state the read-only pre-check says no exactly when the transaction would admit nothing |
| ControlRetry.RetryBackoff | internal/db/attempts.go:207-217 | The doubling loop computes the delay function, 64-bit wrap-around included |
| ControlRetry.DelayIff | internal/db/attempts.go:207-217 | The delay is min(base*2^(n-1), max) for every attempt if and only if base <= max and no delay that is doubled has reached 2^62 |
| ControlRetry.DelayUpTo146Years | cmd/master/config.go:42-44 | In particular for every accepted configuration with a maximum below 2^62 ns |
| ControlRetry.AttemptsAreBounded | internal/db/attempts.go:131-160 | A task receives at most MaxAttempts attempts in any run |
| ControlRetry.RetriesAreSpaced | internal/db/attempts.go:265-277 | A retry is never assigned sooner than min(base*2^(n-1), max) after attempt n ended, under the exact condition for that delay |
| ControlRetry.LastExpiryQuarantines | internal/db/attempts.go:249-277 | The expiry of the last allowed attempt quarantines the task and fails the run, an earlier one schedules the retry |
| ControlRetry.ExpiryFailsOnlyExhaustedRuns | internal/db/attempts.go:249-264 | An expiry pass changes a run only if one of its tasks was quarantined |
| ControlRetry.LastAbandonmentQuarantines | internal/db/attempts.go:478-529 | The same for abandonment, which fails only a RUNNING run |
| ControlLeadership.EpochHasOneOwner | internal/db/leadership.go:49-100 | Along every run the epoch never falls, each epoch has one owner, and a released epoch is never active again |
| ControlLeadership.AcceptedEpochsNeverDecrease | internal/db/leadership.go:134-149 | The epochs of accepted writes never decrease along a run, and writes of one epoch come from one instance |
| ControlLeadership.DeposedMasterIsFenced | internal/db/leadership.go:77-149 | After a takeover no renewal, release, assertion or write of a lower epoch ever has an effect |
| ControlLeadership.ReleasedMasterIsFenced | internal/db/leadership.go:89-112 | Nor of the same epoch once it was released |
| ControlLeadership.StampsNeverDecrease | internal/db/attempts.go:160-160 | The leader epochs stamped on successive attempts of a task never decrease |
| ControlSelection.SelectNext | internal/db/attempts.go:123-139 | The query returns the first eligible task in scheduling order, and none only when no task is eligible |
| ControlSelection.SelectExpirable | internal/db/attempts.go:230-248 | The scan returns exactly the attempts whose lease has lapsed, each once |
| ControlSelection.ExpireItemIsSet | internal/db/attempts.go:249-277 | Expiring attempts one after the other has the effect of expiring them all at once |
| ControlSelection.InsertArtifacts | internal/db/attempts.go:419-434 | The insert loop succeeds exactly when every record may be inserted in turn, and then stores exactly the records |
| ControlSelection.SelectWaiting | internal/db/run_admission.go:94-112 | The query returns the oldest waiting runs up to the limit, in no case fewer |
| ControlStore.Store.AssignNextPendingTask | internal/db/attempts.go:102-188 | Selects and leases the first eligible task under the fence |
| ControlStore.Store.RenewTaskLease | internal/db/attempts.go:190-205 | Extends a live lease and nothing else, or refuses without change |
| ControlStore.Store.UpdateTaskProgress | internal/db/attempts.go:535-545 | Records counters for a live lease, or refuses without change |
| ControlStore.Store.ExpireTaskAttempts | internal/db/attempts.go:219-283 | The loop expires exactly the lapsed attempts and counts them |
| ControlStore.Store.AbandonTaskAttempt | internal/db/attempts.go:478-529 | Gives an assignment up with the retry policy of expiry |
| ControlStore.Store.CompleteTaskAttempt | internal/db/attempts.go:366-467 | Answers as the protocol does; only an accepted report changes rows |
| ControlStore.Store.CancelActiveAttempts | internal/db/attempts.go:581-585 | Cancels the run's ACTIVE attempts and leaves its tasks as they are |
| ControlStore.Store.StartRunWithTasks | internal/db/run_admission.go:41-61 | Inserts the tasks and admits the run if there is room |
| ControlStore.Store.AdmitPendingRuns | internal/db/run_admission.go:66-134 | Admits exactly the oldest min(free, waiting) runs |
| ControlStore.Store.AcquireLeadership | internal/db/leadership.go:49-75 | Takes a free or lapsed leadership under the next epoch, or refuses without change |
| ControlStore.Store.RenewLeadership | internal/db/leadership.go:77-87 | Extends the lease of the current master only |
| ControlStore.Store.ReleaseLeadership | internal/db/leadership.go:89-100 | Releases the epoch of its owner only |
| ControlStore.Store.AssertLeadership | internal/db/leadership.go:102-112 | True exactly when the master leads |
| ControlStore.Store.ActivateLeadershipFence | internal/db/leadership.go:134-149 | Installs the fence of a leading master once; a fence that exists is kept |
| LeadershipControl.LeadershipController.New | internal/db/leadership.go:165-172 | Refuses a renewal interval that is not positive or not shorter than the lease |
| LeadershipControl.LeadershipController.Assert | internal/db/leadership.go:189-195 | True exactly when the process is ready and the row says it leads |
| LeadershipControl.LeadershipController.Tick | internal/db/leadership.go:197-229 | A failed renewal ends the loop as LOST and not ready; a successful one keeps the state and notes the deadline |
| LeadershipControl.LeadershipController.Stop | internal/db/leadership.go:237-247 | Ends not ready with the epoch released, as SHUTTING_DOWN, or as LOST when a renewal was in flight |
| LeadershipControl.LeadershipController.ReadyAgain | internal/db/leadership.go:174-195 | Setting ready after a takeover makes the local state LEADER and the assertion still fails |
| LeadershipControl.GuardedIsWrite | internal/db/leadership.go:134-149 | What a fenced transaction of the store does is the write event of that master, so the theorems about runs apply to it |
| LeadershipControl.FirstFenceStays | internal/db/leadership.go:134-149 | Once the row has a newer epoch than a process's fence, every write of that process is refused for ever |
| LeadershipControl.ReacquiredEpochCannotWrite | internal/db/leadership.go:134-149 | A process that takes leadership a second time cannot write |
| TaskLease.RenewalDelay | cmd/worker/task_lease.go:34-47 | Every wake-up lies after now and no later than the deadline |
| TaskLease.MaintainTaskLease | cmd/worker/task_lease.go:53-86 | The loop sleeps and calls only before the deadline it believes in, and gives up in the first turn that reaches it or that the master refuses for good |
| TaskLease.WorkerNeverAhead | cmd/worker/task_lease.go:53-86 | With lost, late or repeated replies, a fixed duration and master time that does not go back, the worker's deadline never exceeds the master's record |
| TaskLease.WorkerNeverAheadFromStart | internal/grpc/worker_rpcs.go:120-137 | The same for every joint run from an empty database |
| TaskLease.LapsedAttemptIsDead | internal/db/attempts.go:403-412 | Once the deadline has passed no renewal, progress or new result of the attempt ever takes effect, whether or not the scan has run |
| CommitClaims.ClaimIsExclusive | internal/db/commit_reconciliation.go:123-141 | No other token claims the run before the holder's expiry, in any continuation |
| CommitClaims.ClaimHolds | internal/db/commit_reconciliation.go:123-159 | A successful claim or renewal establishes that hold |
| CommitClaims.ExpiredClaimIsDead | internal/db/commit_reconciliation.go:145-159 | A claim that expired or was lost is never renewed |
| CommitClaims.FailuresAreBounded | internal/db/commit_reconciliation.go:50-118 | A COMMITTING run always has fewer recorded failures than MaxAttempts |
| CommitClaims.ClaimsBackOff | internal/db/commit_reconciliation.go:68-118 | No claim succeeds sooner than min(base*2^(n-1), max) after the n-th failure |
| CommitClaims.FailureBacksOff | internal/db/commit_reconciliation.go:68-118 | Recording a failure ends the run or starts that delay |
| CommitClaims.CommitBackoff | internal/db/commit_reconciliation.go:83-91 | The doubling loop computes the delay function |
| CommitEffects.ClaimEffect | internal/db/commit_reconciliation.go:123-141 | A claim takes exactly a COMMITTING run that is not given up, due and not claimed by an unexpired token |
| CommitEffects.RenewalEffect | internal/db/commit_reconciliation.go:145-159 | A renewal moves the expiry exactly for the holder of an unexpired claim |
| CommitEffects.ReleaseEffect | internal/db/commit_reconciliation.go:163-168 | Only the holder releases, and afterwards anyone may claim a run that is due |
| CommitEffects.FailureEffect | internal/db/commit_reconciliation.go:50-118 | The row after a failure: counted, and COMMITTING again after min(base*2^(n-1), max), or FAILED for good or for the operator |
| CommitEffects.CommitStepsEffect | internal/db/store_runs.go:419-585 | The row when a commit begins and when it is published |
| CommitEffects.FailsAtLast | internal/db/commit_reconciliation.go:50-118 | A run that keeps failing is COMMITTING until, and FAILED from, exactly the last permitted attempt |
| CommitEffects.OverIsFinal | internal/db/commit_reconciliation.go:50-168 | No sequence of claims, renewals, releases and failures reopens a run that is over |
| CommitClaims.RunCommit.ClaimCommittingRun | internal/db/commit_reconciliation.go:123-141 | The guarded update of the claim |
| CommitClaims.RunCommit.RenewCommitClaim | internal/db/commit_reconciliation.go:145-159 | The guarded extension of the claim |
| CommitClaims.RunCommit.ReleaseCommitClaim | internal/db/commit_reconciliation.go:163-168 | Clears the claim of its holder only |
| CommitClaims.RunCommit.RecordCommitReconciliationFailure | internal/db/commit_reconciliation.go:50-118 | Counts the failure and retries, fails or asks for the operator |
| ObjectCleanupSafety.UnreferencedIsNotInUse | internal/db/canceled_objects.go:267-315 | The decision UNREFERENCED rules out an unsettled run, a mention in the commit intent and an accepted artifact of a publishing run of the candidate |
| ObjectCleanupSafety.InvAlways | internal/db/canceled_objects.go:126-530 | The invariant of cleanup holds in every reachable state |
| ObjectCleanupSafety.OneHeldAttempt | internal/db/canceled_objects.go:317-530 | A candidate is DELETE_PENDING or DELETING exactly when it has one ACTIVE cleanup attempt, which is its current one |
| ObjectCleanupSafety.DeletedIsFinal | internal/db/canceled_objects.go:252-265 | DELETED never changes, until retention removes the row with its attempt |
| ObjectCleanupSafety.NothingIsOk | internal/db/canceled_objects.go:126-530 | The empty state satisfies the invariant and key ownership |
| ObjectCleanupSafety.OwnedAlways | internal/db/canceled_objects.go:126-216 | Where every artifact and upload belongs to the run its key names, every candidate does, in every reachable state |
| ObjectCleanupSafety.AuthorizedIsSafe | internal/db/canceled_objects.go:382-413 | No object is authorised before discovery plus retention, or while it is an accepted artifact of any run that published or began a commit |
| ObjectCleanupSafety.AuthorizedInOwnRun | internal/db/canceled_objects.go:382-413 | Without any assumption on keys: not before retention, and not while the candidate's own run uses the object |
| ObjectCleanupSafety.DeletingIsNeverInUse | internal/db/canceled_objects.go:382-413 | No such run uses it for as long as the deletion is under way |
| ObjectCleanupSafety.UsedIsAuthorizedIff | internal/db/canceled_objects.go:267-315 | While a claim stands, an object that a publishing run uses is authorised if and only if that run is another one, the candidate's run never began a commit, its attempt is over, and there is no intent mention, open upload or registration |
| ObjectCleanupSafety.SharedKeyIsAuthorized | internal/db/canceled_objects.go:267-315 | Where two runs share a key, a legal run from nothing ends with a published artifact authorised for deletion |
| ObjectKeys.KeyNamesRun | cmd/worker/task_execution.go:319-321 | Workers never share keys between runs: equal object keys were built for the same run |
| ObjectOwnership.FormatOwns | cmd/worker/task_execution.go:319-321 | Tables whose artifact and upload keys were built for their own runs satisfy key ownership |
| ObjectOwnership.AuthorizedByFormat | internal/db/canceled_objects.go:382-413 | From an empty system with such keys no object is authorised too early or while any publishing run uses it |
| ObjectCleanupSafety.PruningKeepsNeededAttempts | internal/db/retention.go:50-60 | Pruning never drops an attempt that an undeleted candidate needs, nor the candidate |
| CleanupStore.DiscoverAddsOnlyNew | internal/db/canceled_objects.go:126-141 | Discovery adds exactly the new ids, quarantined from now, and touches no existing candidate |
| CleanupStore.DiscoverAllKeeps | internal/db/canceled_objects.go:174-216 | A pass of discovery keeps the invariant of cleanup |
| CleanupStore.SelectClaimable | internal/db/canceled_objects.go:327-333 | The query returns a claimable candidate with the earliest end of quarantine, or none when there is none |
| CleanupEffects.ContainsIff | internal/db/canceled_objects.go:295 | The search for the key in the intent finds it exactly when it occurs somewhere |
| CleanupEffects.DecisionIff | internal/db/canceled_objects.go:267-315 | Each of the four decisions if and only if a condition on the rows of run, attempt, artifacts, uploads and registrations |
| CleanupEffects.EvidenceColumns | internal/db/canceled_objects.go:267-315 | The evidence covers the status of run, task and attempt, the commit columns, artifacts, uploads and registrations: a change in any of them changes it |
| CleanupEffects.DiscoveredRow | internal/db/canceled_objects.go:126-141 | A new candidate is QUARANTINED for the retention time, a day by default, with nothing decided |
| CleanupEffects.LeftBehindIsFound | internal/db/canceled_objects.go:142-172 | Every unknown object that the two scans are for is found |
| CleanupEffects.FoundIsLeftBehind | internal/db/canceled_objects.go:142-172 | What is found is unknown, not at work, and only the intent of a commit can make it part of a dataset |
| CleanupEffects.ClaimEffect | internal/db/canceled_objects.go:317-380 | A claim blocks, hands to the operator, or opens the next attempt with its deadline, by the decision; a candidate that is not ready is left alone |
| CleanupEffects.FreshTokenInserts | internal/db/canceled_objects.go:317-380 | In every state that keeps the invariant a fresh token is enough to open that attempt |
| CleanupEffects.AuthorizationIff | internal/db/canceled_objects.go:382-413 | Deletion is authorised if and only if the attempt is the held current one with this token and the evidence is unchanged and finds no use; only the status changes |
| CleanupEffects.FinishRefused | internal/db/canceled_objects.go:415-463 | Without the token, or when the attempt is over or not current, nothing changes |
| CleanupEffects.FinishEffect | internal/db/canceled_objects.go:415-463 | Candidate status, attempt status, operator flag, retry time and deletion time by outcome, dry run and number of attempts |
| CleanupEffects.RetryWaits | internal/db/canceled_objects.go:415-463 | After an attempt another one is possible only for a retryable outcome and only after the retry time |
| CleanupEffects.ExpiryEffect | internal/db/canceled_objects.go:482-530 | Expiry spares a live cleanup lease and its candidate, and makes a lapsed one EXPIRED and its candidate DELETE_AMBIGUOUS |
| CleanupEffects.ExpirySpares | internal/db/canceled_objects.go:482-530 | Attempts that are over and candidates without an attempt stay |
| CleanupEffects.WithdrawalEffect | internal/db/canceled_objects.go:252-265 | Withdrawing ends the attempt for good, and a DELETED candidate cannot be withdrawn |
| CleanupEffects.PrunableIff | internal/db/retention.go:50-60 | An attempt may be deleted if and only if it ended in a FAILED or CANCELED run before the cutoff with nothing left to clean up or upload |
| CleanupEffects.RetentionEffect | internal/db/retention.go:50-60 | After a pass exactly the retained attempts are left, with their artifacts, uploads and candidates |
| CleanupStore.CleanupTables.DiscoverOrphanedObjects | internal/db/canceled_objects.go:174-216 | The loop inserts the rows found and counts the new ones |
| CleanupStore.CleanupTables.ClaimCanceledObjectCleanup | internal/db/canceled_objects.go:317-380 | Claims the first candidate on UNREFERENCED evidence, blocks it on any other |
| CleanupStore.CleanupTables.AuthorizeCanceledObjectDelete | internal/db/canceled_objects.go:382-413 | Authorises exactly on a matching held attempt and unchanged evidence |
| CleanupStore.CleanupTables.FinishCanceledObjectCleanup | internal/db/canceled_objects.go:415-463 | Ends the attempt with the outcome's statuses and the next eligible time |
| CleanupStore.CleanupTables.ExpireCanceledObjectCleanupAttempts | internal/db/canceled_objects.go:465-530 | The two updates together expire lapsed attempts and free their candidates |
| CleanupStore.CleanupTables.CancelCanceledObjectCleanup | internal/db/canceled_objects.go:252-265 | Cancels the cleanup of any candidate that is not DELETED |
| CleanupStore.CleanupTables.PruneTaskAttempts | internal/db/retention.go:50-60 | The batches of 500 delete exactly the attempts that were prunable at the start |
| CleanupStore.PruneRegistrationAttempts | internal/db/retention.go:61-67 | The batches delete exactly the old superseded attempts; the latest of each registration is kept |
| DecimalText.IntRoundTrip | internal/connectors/source.go:1077-1083 | Decimal text of an integer reads back as that integer |
| DecimalText.ReadDigitsIff | internal/connectors/source.go:1077-1083 | Digits are read if and only if there is at least one and nothing else |
| DecimalText.LeadingZero | internal/connectors/source.go:1077-1083 | Leading zeros do not change the value |
| CursorRange.Int64IsLawful | internal/connectors/source.go:1015-1056 | int64 cursors: every value between two readable ones is written and read back |
| CursorRange.Uint64IsLawful | internal/connectors/source.go:1015-1061 | The same for uint64 cursors |
| CursorRange.SplitCursorRange | internal/connectors/source.go:910-967 | On a parsed range start <= end it never fails: 1..parts strictly increasing bounds that end at end; with width >= parts exactly parts pieces whose sizes differ by at most one; with fewer values pieces of two |
| CursorTasks.NewRangeSQL | internal/connectors/range_predicate.go:53-86 | The conjuncts admit exactly the values between the given bounds with their inclusivity; each placeholder refers to its own argument |
| CursorTasks.ChainTiles | internal/planner/autotune.go:374-395 | Chained pieces (previous, bound] read every planned value exactly once and no other value |
| CursorTasks.PlanCursorTasks | internal/planner/autotune.go:340-397 | The planned tasks tile (lower, max] or [lower, max]; planning fails only when the start or the maximum cannot be read; with both readable there is no task exactly when the start lies after the maximum |
| CursorTasks.LookbackInt64 | internal/connectors/source.go:864-877 | Integer look-back saturates at the smallest int64 instead of wrapping |
| CursorTasks.LookbackUint64 | internal/connectors/source.go:864-887 | Unsigned look-back saturates at zero |
| ParquetRolling.EightyPercent | cmd/worker/parquet_rolling.go:94-114 | The threshold for rolling is at least 80% of the target for every 64-bit target, wrap-around included |
| ParquetRolling.WrittenKeeps | cmd/worker/parquet_rolling.go:50-79 | A batch is appended whole; a file closed to make room for it has reached the threshold; finished files stay as they are |
| ParquetSizes.RollsIff | cmd/worker/parquet_rolling.go:94-114 | For sizes that do not wrap, a batch closes the open file if and only if the file has reached 80% of the target and with the predicted size of the batch would exceed 120% of it |
| ParquetSizes.KeptOpenIsBounded | cmd/worker/parquet_rolling.go:94-114 | A file that is kept open and compresses as predicted ends within 120% of the target, or within 80% plus one batch |
| ParquetSizes.WrappedProductKeepsOpen | cmd/worker/parquet_rolling.go:94-114 | Failing input: a product that wraps makes the prediction negative, and the file is kept |
| ParquetRolling.RollingWriter.Write | cmd/worker/parquet_rolling.go:50-79 | The writer's fields after a batch |
| ParquetRolling.RollingWriter.Close | cmd/worker/parquet_rolling.go:188-218 | Closing moves the open rows to a finished file |
| ParquetPartitioned.Split | internal/icebergpart/partitioner.go:90-131 | Each partition of a batch appears once, with exactly its rows in order |
| ParquetPartitioned.OpenFilesAreBounded | cmd/worker/parquet_partitioned.go:110-137 | At most maxOpen files are open at any time |
| ParquetPartitioned.PartitionedWriter.SlotFor | cmd/worker/parquet_partitioned.go:110-137 | The open list is the old one with the slot last, without its first entry exactly when the bound is reached; only that least recently used slot is finished, and no row is lost |
| ParquetRecency.OpenedIsMostRecent | cmd/worker/parquet_partitioned.go:110-137 | After any sequence of writes the partitions with an open file are the last maxOpen different ones written, in order of their last write |
| ParquetPartitioned.PartitionedWriter.Write | cmd/worker/parquet_partitioned.go:82-106 | Every slot holds exactly the rows of its partition so far, in input order |
| ParquetPartitioned.PartitionedWriter.Close | cmd/worker/parquet_partitioned.go:139-146 | The files of each partition concatenate to exactly its rows |
| ParquetPartitioned.PartitionedWriter.Files | cmd/worker/parquet_partitioned.go:155-161 | Files are listed by partition, none mixes partitions, rolled ones have reached the threshold |
| ParquetPartitioned.WriteTask | cmd/worker/parquet_partitioned.go:82-161 | For any batches and any bound on open files the output is that of an unbounded writer: per partition its rows in input order, no mixing, rolled files of at least 80% of the target |
| FileTypes.FoldDescribes | internal/arrowio/file_types.go:223-301 | The scan of any sequence of cells is described by which cells occur in it |
| FileKinds.IntegerTextIff | internal/arrowio/file_types.go:112-125 | A text is an integer cell if and only if, trimmed, it is the decimal text of an int64 or "-0"; integers out of range are text |
| FileKinds.MarkerIff | internal/arrowio/file_types.go:50-56 | The five markers of a missing value, in any letter case |
| FileKinds.TypeOfColumn | internal/arrowio/file_types.go:395-490 | The type of every column in full: the join of the kinds that occur, or the request if all cells fit, and NULL as asked or where a row lacks a value |
| FileScan.OrderDoesNotMatter | internal/arrowio/file_types.go:223-490 | The resolved type depends only on which rows occur, not on their order or number |
| FileScan.PermutationsAgree | internal/arrowio/file_types.go:223-490 | In particular it is the same for every permutation of the rows |
| FileScan.FloatsAreExact | internal/arrowio/file_types.go:371-391 | A detected float64 column of text cells and machine integers holds no integer beyond 2^53 |
| FileScan.FloatRoundsIff | internal/arrowio/file_types.go:371-391 | For every column: float64 with an integer beyond 2^53 if and only if it has such an integer beside fractions and nothing else, and the scan saw no magnitude beyond 2^53 |
| FileScan.MagnitudeIsSeen | internal/arrowio/file_types.go:689-705 | The scan sees every magnitude except that of JSON numbers |
| FileScan.NumbersAlwaysJoin | internal/arrowio/file_types.go:689-705 | JSON whole numbers and fractions always join to float64, whatever their size |
| FileScan.NumbersMayRound | internal/arrowio/file_types.go:689-705 | Such files exist for every integer beyond 2^53 |
| FileScan.NotNullIff | internal/arrowio/file_types.go:598-618 | An observed row hits the NOT NULL error if and only if the format is typed, the row holds a "no value" marker as text, the override names a NOT NULL type other than string that every cell fits, and no row lacks a value |
| FileScan.ObservedRowsHaveValues | internal/arrowio/file_types.go:598-618 | No observed row of a text file can hit the NOT NULL error |
| FileScan.MarkersMayHitNotNull | internal/arrowio/file_types.go:598-618 | For typed formats such rows exist |
| FileScan.EnterCells | internal/arrowio/file_types.go:223-234 | The loop over a row's cells updates exactly the columns of that row |
| FileScan.FileTypeScanner.Observe | internal/arrowio/file_types.go:223-301 | The scanner's columns are the fold of the cells seen so far |
| FileScan.FileTypeScanner.Resolved | internal/arrowio/file_types.go:395-490 | Every column gets the order-independent type, and no observed text row lacks a value in a NOT NULL column |
| ColumnResolution.NoProbeIsSafe | internal/arrowio/column_resolution.go:223-250 | When no range is asked for, the type bounds alone imply that every value fits the request |
| ColumnResolution.RangeIsSound | internal/arrowio/column_resolution.go:168-204 | The range decision chooses a type whose size holds every value |
| ColumnResolution.OverrideIsSound | internal/arrowio/column_resolution.go:157-267 | With exact facts, when the source type is not kept every value is represented exactly by the type used; where widening the scale gives up, exactly the values with no more decimal places than the type |
| ColumnResolution.IntegerRequestIsSound | internal/arrowio/column_resolution.go:157-204 | Integer requests are sound without exception |
| ColumnResolution.WideningMayGiveUp | internal/arrowio/column_resolution.go:260-264 | Past precision 38 the request is used although it does not hold every source value; the strict conversion then fails the run |
| ColumnResolution.WiderFallback | internal/arrowio/column_resolution.go:358-383 | Integers: the first candidate that holds the range, decimal(38,0) only when none does; decimals: the least larger precision that fits, and nothing only when none up to 38 does |
| ColumnResolution.FallbackIsFirst | internal/arrowio/column_resolution.go:358-374 | An integer fallback is the first candidate that fits; all before it do not |
| ColumnResolution.FallbackIsWiderIff | internal/arrowio/column_resolution.go:358-374 | An integer fallback covers the requested kind if and only if the request is signed, the data has no negatives, or the data does not fit the signed kind of the same width |
| ColumnResolution.FallbackMayBeNarrower | internal/arrowio/column_resolution.go:362-370 | A failing input: uint8 with values from -1 to 5 falls back to int8 |
| ColumnResolution.DefaultIsSound | internal/arrowio/column_resolution.go:98-108 | Without an override only uint64 is narrowed, and then every value fits int64 |
| ColumnDecisions.ProbedIff | internal/arrowio/column_resolution.go:223-251 | The range is read exactly where the source type has values out of size for the request, or says nothing about size; fractions exactly where the request would lose them |
| ColumnDecisions.FittingRequestIsUsed | internal/arrowio/column_resolution.go:157-204 | A request that needs no check, or whose values fit without a fraction, or that cannot be checked, is used: as it is, int64 for a fitting uint64, or with the decimal places of the source |
| ColumnDecisions.SourceIsKeptIff | internal/arrowio/column_resolution.go:168-204 | The source type is kept if and only if a needed check could not be made, found a fraction, or found a range that neither the request nor any wider type holds |
| ColumnDecisions.OtherwiseFirstWider | internal/arrowio/column_resolution.go:168-204 | Otherwise the first wider type that holds the range is used |
| ColumnDecisions.NullableIff | internal/arrowio/column_resolution.go:206-220 | A column with an override may be NULL if and only if that was asked, or it may hold NULLs and they were found or could not be looked for |
| ColumnDecisions.DefaultEntryIff | internal/arrowio/column_resolution.go:92-120 | Exactly which entry a column without an override gets |
| ColumnDecisions.StatsAreRead | internal/arrowio/column_resolution.go:92-120 | Facts count only if reading did not fail |
| ColumnDecisions.SmallValuesAreNarrowed | internal/arrowio/column_resolution.go:196-198 | An int64 column of small values requested as int32 becomes int32 |
| ColumnDecisions.KindRanges | internal/arrowio/column_resolution.go:308-322 | Each width is the square of the one before, and signed kinds are the unsigned ones shifted by half |
| ColumnResolution.NotNullIsSound | internal/arrowio/column_resolution.go:92-220 | A column that ends up NOT NULL, by override or from the catalog, has no NULL |
| ColumnResolution.FinalizeColumns | internal/arrowio/column_resolution.go:92-155 | Each column with a decision gets exactly its own, including the entry for a catalog-proven NOT NULL column without override |
| CursorOrder.DomainIsOrdered | internal/connectors/source.go:687-749 | In every domain comparison is a total preorder on the values the domain can read |
| CursorOrder.TextIsOrdered | internal/connectors/source.go:687-749 | Text and UUID cursors are ordered bytewise without outer white space |
| CursorOrder.EncodedIsReadable | internal/connectors/source.go:756-788 | Whatever a domain encodes it can read: always for integers, decimals and text, for calendar values in the years the library reads |
| CursorOrder.IntegersByValue | internal/connectors/source.go:687-749 | Encoded int64 values compare as the integers |
| CursorMeaning.TextOrderIff | internal/connectors/source.go:687-749 | Text comparison is the lexicographic order of bytes, and equal only for equal texts |
| CursorMeaning.OrderByValue | internal/connectors/source.go:687-749 | In every domain two readable cursors compare as their integers, instants, rational numbers or trimmed bytes do |
| CursorMeaning.EncodedKeepsValue | internal/connectors/source.go:756-788 | A discrete cursor is encoded if and only if it has a value in the domain, and the text reads back as that value |
| CursorMeaning.EncodedKeepsText | internal/connectors/source.go:756-788 | Decimal, text and UUID cursors keep their trimmed text, decimals with the same value |
| DateCursors.DaysGrow | internal/connectors/source.go:1031-1036 | Later days have larger day numbers, over the whole calendar |
| DateCursors.YearStartIs | internal/connectors/source.go:1031-1036 | The days before a year in closed form: 365 each, plus every fourth, minus every hundredth, plus every four-hundredth |
| DateCursors.CycleOfYears | internal/connectors/source.go:1031-1036 | 400 years have 146097 days, wherever they begin |
| DateCursors.NextDayNumber | internal/connectors/source.go:1031-1036 | The day after a day is a day and has the next number |
| DateCursors.ReadableIff | internal/connectors/source.go:1234-1253 | A date text can be read exactly when its year has four digits |
| DateCursors.TextsInOrderIff | internal/connectors/source.go:748-749 | Date texts are in the order of time exactly when the years have equally many digits or the earlier year is no larger than the first digits of the later one |
| DateCursors.DatesInOrderIff | internal/connectors/source.go:713-725 | Date cursors compare in the order of time if and only if the years meet that condition |
| DateCursors.FourDigitYearsAreInOrder | internal/connectors/source.go:713-725 | The years 0 to 9999 always meet it |
| DateCursors.LateYearsAreNot | internal/connectors/source.go:713-725 | The years 2000 to 9999 against 10000 to 19999 never do |
| AdaptiveBatch.NextSize | internal/arrowio/sql_to_arrow.go:476-500 | The next size is at least 1000, within the limit or not growing, and at most doubles or halves |
| AdaptiveBatch.NextIsNearest | internal/arrowio/sql_to_arrow.go:476-500 | The next size is the one nearest to 64 MiB a batch between half and twice the last size, at most the limit and at least 1000 |
| AdaptiveBatch.FirstBatchSize | internal/arrowio/sql_to_arrow.go:414-425 | The first batch has the configured size within 1000 and 10000, 50000 being the default limit |
| AdaptiveBatch.RowsToBatches | internal/arrowio/sql_to_arrow.go:400-556 | Batches concatenate to exactly the kept rows in order, each has between 1 and max(1000, limit) rows, all but the last have exactly the size that follows from the ones before, the count is their total and the cursor is the greatest encoded cursor over kept rows, in every domain |
| AdaptiveBatch.GreatestInteger | internal/arrowio/sql_to_arrow.go:535-537 | For int64 cursors it is the text of the greatest integer |
| AdaptiveBatch.OnlyCalendarsAreBounded | internal/arrowio/sql_to_arrow.go:400-556 | Only date and timestamp cursors need to lie in the years the library reads |

## Left out

- Process start-up, flags, logging, HTTP and gRPC servers, database drivers, catalog clients and object storage: input and output around the modelled decisions.
- Retry on a busy database, SQLite isolation and I/O errors: each transaction is one atomic step that either happens or does not.
- The text form of instants, dates and timestamps: instants are integers, so the order of timestamp text in queries is taken to be the order of instants; calendar cursors enter as a codec that writes back what it reads.
- Timestamp cursors outside the years 1678 to 2262: their nanosecond count wraps in 64 bits before it reaches the range arithmetic, and only the resulting integers are modelled; duration look-back for date and timestamp cursors is not modelled.
- Events, audit rows, warnings and their texts, row counters other than those named.
- The attempt status SUPERSEDED, which no transaction writes, and the older task transactions without leases.
- Operator recovery of failed runs, failing of abandoned planning runs, catalog registration and the multipart upload protocol: object cleanup sees their tables change under the stated rules only (settled runs stay settled, artifacts are accepted only while a run is unsettled, uploads carry the run of their attempt).
- CleanupStore.CleanupTables.DiscoverOrphanedObjects: does not model the limit of a discovery query and the order of its rows; any orphaned rows may be found.
- Detection of floats, booleans, dates and timestamps in text and the check whether a value fits a requested type: functions given to the model; integers are detected as the source does. Merging of decimal and array types of typed formats.
- Arrow building, Parquet encoding and compression: sizes are functions of the rows, and failures of the encoder are not modelled.
- Removal of files by Abort, and byte totals of the writers.
- ControlStore.Store.StartRunWithTasks: does not model the snapshot of the run's configuration, because it decides nothing here.
- ParquetPartitioned.PartitionedWriter.Write: does not model that slots are shared objects; a slot is a value in the map of slots.
- ObjectCleanupSafety.AuthorizedIsSafe: does not cover tables in which runs share object keys, which workers do not produce; what happens there is stated by UsedIsAuthorizedIff.
- CleanupStore.CleanupTables.PruneTaskAttempts: does not promise the exact set for tables that break the invariant of cleanup, which no reachable state does.
- CursorOrder.DomainIsOrdered: does not model the text grammars of timestamps and rational numbers and the other layouts of dates; reading them is a function of the library with the stated laws.
- CleanupStore.SelectClaimable: does not model the order of ids among candidates with the same end of quarantine.
- CursorTasks.NewRangeSQL: does not model decimal, string and UUID bounds, which are passed to the source as text.
- CursorTasks.PlanCursorTasks: does not model how the number of parts is derived from a chunk size, because that is floating-point tuning.
- AdaptiveBatch.RowsToBatches: does not model failures of the scan itself or of the connection.
- Performance, memory and fairness between workers.
