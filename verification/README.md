# A verified model of the interview platform's protocols

This project models, in Dafny, the parts of the backend where several actors change shared rows
at once, and proves what holds however their steps interleave.

**What is modelled**

- One *interview session*: a candidate submits and finishes, a slow model call is split over two
  transactions, a fallback and a recovery compete with it, `GET` sweeps the deadline, HR cancels.
  `SessionModel` holds the rows and transactions, `SessionInvariants` and `SessionEffects` what
  each step keeps and does, `SessionTheorems` the results over whole runs, `Interviewer` the
  simple sequential interviewer the runtime refines, `Projection` the candidate's view, and
  `SessionRuntime` the services themselves as in-place updates.
- One *application* with its rounds, invitations, credentials, sessions and decision:
  `LifecycleModel`, `LifecycleTheorems`, `AccessTheorems`, `LifecycleRuntime`, and `CurrentCv`.
- For each of these and the protocols below a module of *outcomes* (`SessionOutcomes`,
  `LifecycleOutcomes`, `CvOutcomes`, `QuestionSetOutcomes`, `NotificationOutcomes`,
  `IdempotencyOutcomes`, `SnapshotOutcomes`): when exactly each event is accepted in a reachable
  state, what it leaves in every row, and where answers, follow-ups, profiles, questions, decisions
  and ends of whole runs come from.
- The *claim / external call / fenced commit* protocol: once in general (`Fencing`), and as CV
  extraction (`CvExtraction`), question generation (`QuestionSets`, `QuestionSetRuntime`) and
  notification dispatch (`Notifications`), over the shared run records (`AiRuns`).
- *Idempotent execution* statement by statement (`Idempotency`), and the two normal forms behind
  request and input hashes (`CanonicalJson`, `RequestHash`).
- *Snapshots*: job, CVs and question sets changing independently until an interview copies from
  them (`Snapshots`, `SnapshotRuntime`).

  The smaller outcomes complete the account without rows of their own below: creations
  (`CreationOutcome` of CVs, notifications and question sets, `SessionOutcomes.StartOutcome`), the
  single statements of `execute` (`ExpiredRecordIsCleared`, `OtherRecordsStay`, `InsertOutcome`,
  `SaveOutcome`, `CleanupOutcome`, `ActionOutcome`), `SessionEventOutcome`, `NotesOutcome`,
  `UploadOutcome`, `IssueOutcome` and `AdmissionOutcome` of an application, `DispatchOutcome`,
  `DraftOutcome`, `SetEventOutcome` and the removal of a CV, `AiRuns.SettlingOutcome`; the remaining
  refusals (`StartRefusals`, `RoundRefusals`, `ApplicationRefusals`, `ApprovalRefusals`,
  `RetryRefusals`, `CvOutcomes.EditRefusals`); and the branches kept for rows that never occur
  (`DefensiveBranches`, `OpenRoundBlocks`, `SuccessClearsError`).

**Form.** A service that updates rows is a class whose fields are the columns; each method is
proved to leave exactly the rows that a function of the old rows describes, and to leave them
alone when it throws. The results are then lemmas about those functions, over every list of
events. Late, repeated, reordered and lost messages come from never removing an issued call: an
event may deliver any of them at any time, or never. What the code does once, the model does at most
once: an exchange writes its credential once and then saves once, a lobby visit saves once, a manual
question set draft inserts once, a statement of `execute` runs once, and a notification attempt
reports once (`Notifications.AcceptanceRestsOnOneReport` says exactly what would be lost otherwise).

**Assumptions**

- A transaction callback is one atomic step. Revoke and withdraw read the session without a lock,
  so this is an assumption about the database and not a consequence of the code's locking.
- A callback that throws changes nothing. Writes the code makes just before throwing are
  therefore lost, and the model loses them too (the expiry in `startInterview`, the deadline close
  in `submitAnswer` and `finishSession`, the supersede and the failure in
  `executeAiAndApplyResult`).
- Statements outside a transaction are separate steps: the token exchange, the lobby visit, the
  manual draft, every statement of `execute`.
- Every clock reading is a parameter; clocks need not agree or advance between steps.
- A row's id is its index in its table; a question's id is its position, which approved sets make
  1, 2, ..., n.
- Saving an entity writes back every column that differs from the row, as TypeORM's `save` does.
- Whether the query for the highest CV number sees deleted rows is a parameter, `seesDeleted`: the
  query itself does not say, and TypeORM's query builder passes rows with a delete date over unless
  told otherwise.
- Texts arrive trimmed. Ownership and permission checks have passed.

**Where the code falls short of what one might expect.** Each comes with its exact condition and
a concrete run or input.

- A racing token exchange revives a revoked invitation: every state of a run is tidy exactly when
  no entity read before a revocation is saved after it
  (`AccessTheorems.TidyThroughoutIffNothingStaleSaved`, run in `RacingExchangeRevives`).
- A lobby visit answered late takes back the extension of the cookie and can shut the candidate out
  of a running session: the cookie lasts through every later run exactly when no lobby visit that
  read it before has yet to save it at the start (`AccessTheorems.CookieLastsIffNoLobbyOutstanding`,
  run in `LateLobbyShutsOut`). A visit answered before the start does no harm
  (`CookieLastsAfterAnsweredVisits`, run in `AnsweredLobbyKeepsCookie`).
- Losing a successful action's result lets the action run twice: until the record expires somebody
  can enter again exactly when the result was lost and the record deleted
  (`Idempotency.SecondActionIffResultLost`, run in `LostResultRepeatsAction`).
- A request hash identifies its body exactly when no object is nested in it, so an approval and a
  rejection of one application share a hash (`RequestHash.HashIdentifiesIffFlat`,
  `DecisionBodiesCollide`).
- An input hash does not see what an object holds under the key `__proto__`; everything else it
  tells apart, but for key order, missing values and dates given as text
  (`CanonicalJson.CanonDecidesSame`, `ProtoFieldLost`).
- A manual profile edit survives every later run without a new claim or edit exactly when no
  extraction was under way when it was made (`CvExtraction.EditSurvivesIff`, run in
  `StaleEditOverwritten`).
- A generation that finds its source stale stays in GENERATING although the code means to mark it
  failed. Behind an updated job nothing but a failure report of its run ever gets the set out of it
  (`QuestionSets.StaleOutputLeavesSetGenerating`, `Snapshots.StuckGenerating`, run in
  `EditedMeanwhileRun`).
- The answer of a `GET` that has just closed or recovered the session is the full view exactly when
  no answer was stored before, so after a recovery it never is
  (`Projection.ReconcileViewAgreesIff`, run in `RecoveringPollRun`).
- Unless the search for the highest number sees deleted rows, deleting the newest CV ends all uploads:
  the next number is then in use, and the unique constraint refuses every later insert
  (`Snapshots.UploadGoesThroughIff`, `DeletedNewestEndsUploads`, run in `DeletedOnlyCvRun`).
- Deleting a CV looks at no status: it is the one thing that still moves the version of an
  application in a terminal status (`LifecycleTheorems.TerminalAbsorbing`, run in
  `RemovalMovesTerminalVersion`).

## Model

| member | source | states |
|---|---|---|
| `SessionTheorems.StepRefinesInterviewer` | nestjs-auth/src/modules/interview-runtime/services/follow-up-ai.service.ts:397-689 | every step of every actor is a step the sequential interviewer may take under the budgets, or no step at all |
| `SessionTheorems.RunRefinesInterviewer` | nestjs-auth/src/modules/interview-runtime/services/interview-session.service.ts:280-748 | from the start on, the states of any run, repeats taken together, are a whole interview of the sequential interviewer: it begins with the first main question, makes only its moves and ends where the run ends |
| `SessionTheorems.TurnsAreSequentialInterview` | nestjs-auth/src/modules/interview-runtime/services/interview-turn.service.ts:86-305 | in every reachable state the turns are main(1), its follow-ups 1..k1, main(2), ..., with each k within its question's limit and the total equal to `followUpsUsed` and within the interview's limit |
| `SessionTheorems.UniqueConstraintsHold` | nestjs-auth/src/modules/interview-runtime/services/follow-up-ai.service.ts:451-521 | no two turns share a sequence number or a (question, follow-up index) pair |
| `SessionTheorems.ContextIsExact` | nestjs-auth/src/modules/interview-runtime/services/follow-up-ai.service.ts:429-440 | when the fence of transaction 2 or of the fallback passes, everything captured before the external call is still what the rows say |
| `SessionTheorems.BudgetRecheckNeverFails` | nestjs-auth/src/modules/interview-runtime/services/follow-up-ai.service.ts:453-466 | once the fence has passed, the budget check inside transaction 2 cannot fail |
| `SessionTheorems.TimelyProposalIsAsked` | nestjs-auth/src/modules/interview-runtime/services/follow-up-ai.service.ts:451-521 | before the advance deadline the newest call's proposal is asked as the next follow-up under the turn just answered |
| `SessionTheorems.OtherOutcomesMoveOn` | nestjs-auth/src/modules/interview-runtime/services/follow-up-ai.service.ts:529-642 | any other outcome of the newest call opens the next main question or makes the session ready to finish |
| `SessionTheorems.ResolvedEpochIgnoresResult` | nestjs-auth/src/modules/interview-runtime/services/follow-up-ai.service.ts:429-449 | after an epoch is resolved its result never changes session, turns or answers, after any further steps |
| `SessionTheorems.EachEpochResolvedOnce` | nestjs-auth/src/modules/interview-runtime/services/interview-turn.service.ts:312-400 | in any run each ADVANCING epoch is left at most once, by apply, fallback, recovery or close |
| `Fencing.AtMostOneCommit` | nestjs-auth/src/modules/interview-runtime/services/follow-up-ai.service.ts:429-440 | of all holders of one token, at most one commits, for any protocol whose tokens never go back |
| `SessionInvariants.StepOk` | nestjs-auth/src/modules/interview-runtime/services/interview-session.service.ts:396-748 | submit, result, fallback, recovery, sweep, finish and cancel each keep the whole session invariant |
| `SessionEffects.StepEffect` | nestjs-auth/src/modules/interview-runtime/services/interview-turn.service.ts:195-279 | a step leaves the interview alone or takes exactly one version and lowers the measure |
| `SessionTheorems.VersionBounded` | nestjs-auth/src/modules/interview-runtime/services/interview-turn.service.ts:199-279 | the version never exceeds twice (questions plus follow-up budget) plus two |
| `SessionTheorems.RunsTerminate` | nestjs-auth/src/modules/interview-runtime/services/interview-turn.service.ts:86-305 | however many events arrive, a bounded number of them change the interview |
| `SessionTheorems.VersionCountsSteps` | nestjs-auth/src/modules/interview-runtime/services/interview-turn.service.ts:199-279 | the version counts the steps that changed the interview |
| `SessionTheorems.AdvanceDeadlineAhead` | nestjs-auth/src/modules/interview-runtime/services/follow-up-ai.service.ts:192-268 | with positive settings the advance deadline lies after now and not after the session deadline |
| `SessionTheorems.PollLeavesAdvancing` | nestjs-auth/src/modules/interview-runtime/services/interview-session.service.ts:418-474 | a poll at or after the advance deadline leaves ADVANCING, closing exactly when the session deadline has passed |
| `SessionTheorems.PollResolvesEpoch` | nestjs-auth/src/modules/interview-runtime/services/interview-session.service.ts:401-474 | the same epoch is resolved even with other steps between the unlocked read and the poll's transactions |
| `SessionTheorems.TurnLifecycle` | nestjs-auth/src/modules/interview-runtime/services/interview-turn.service.ts:100-174 | OPEN means current turn in AWAITING_ANSWER, CLOSED_UNANSWERED only last in a closed session, exactly one answer per submitted turn and none elsewhere |
| `SessionTheorems.ReadyMeansAllHandled` | nestjs-auth/src/modules/interview-runtime/services/interview-session.service.ts:692-725 | READY_TO_FINISH and ALL_QUESTIONS_ANSWERED mean every question was put once and responded to once |
| `SessionTheorems.RunsEvolve` | nestjs-auth/src/modules/ai/services/ai-run.service.ts:62-171 | a run that has left PROCESSING is never written again, over whole runs of a session |
| `SessionTheorems.ActiveRunDiscipline` | nestjs-auth/src/modules/interview-runtime/services/interview-turn.service.ts:325-341 | `completedAt` is set exactly outside PROCESSING; at most one PROCESSING run, none while an answer is awaited or the interview is ready to finish |
| `SessionOutcomes.AnswersAreSubmissions` | nestjs-auth/src/modules/interview-runtime/services/interview-turn.service.ts:130-174 | over any run the stored answers grow by exactly the accepted submissions, each with the turn, the text or skip, and the time it was sent with; earlier answers stay |
| `SessionOutcomes.EveryAnswerWasSent` | nestjs-auth/src/modules/interview-runtime/services/interview-turn.service.ts:155-170 | from the start of a session, answer j is what an accepted submission for turn j carried |
| `SessionOutcomes.SubmissionStored` | nestjs-auth/src/modules/interview-runtime/services/interview-session.service.ts:518-570 | a submission is stored exactly when it comes in time for the question awaiting it, with a skip or a text of 1 to 10000 characters |
| `SessionOutcomes.SubmissionMovesOn` | nestjs-auth/src/modules/interview-runtime/services/interview-turn.service.ts:176-279 | after it either one call is out, its deadline the settings from now but not after the session deadline, exactly when text, budgets and time allow a follow-up; or the next main question is open, or the interview ready to finish |
| `SessionOutcomes.SubmissionRefusals` | nestjs-auth/src/modules/interview-runtime/services/interview-session.service.ts:518-570 | each refusal of an answer exactly in its case; TURN_ALREADY_ANSWERED is never given |
| `SessionOutcomes.WhyNoCall` | nestjs-auth/src/modules/interview-runtime/services/follow-up-ai.service.ts:56-242 | each reason not to call the model exactly in its case, the first that applies |
| `SessionOutcomes.OverdueProposalIsDropped` | nestjs-auth/src/modules/interview-runtime/services/follow-up-ai.service.ts:441-449 | from the advance deadline on no proposal changes session, turns or answers, and one of the newest call leaves its run SUPERSEDED |
| `SessionOutcomes.LateResultOnlySupersedes` | nestjs-auth/src/modules/interview-runtime/services/follow-up-ai.service.ts:429-449 | a result not awaited any more does nothing but end its run SUPERSEDED |
| `SessionOutcomes.AwaitedResultOutcome` | nestjs-auth/src/modules/interview-runtime/services/follow-up-ai.service.ts:451-642 | an awaited result in time is asked as the next follow-up word for word, or moves the interview on, and settles its run as SUCCEEDED or FAILED with its code |
| `SessionOutcomes.FollowUpsAreProposals` | nestjs-auth/src/modules/interview-runtime/services/follow-up-ai.service.ts:470-521 | over any run the follow-ups asked are exactly the questions proposed in time, word for word and in order |
| `SessionOutcomes.RecoveryOutcome` | nestjs-auth/src/modules/interview-runtime/services/interview-turn.service.ts:312-420 | recovery acts exactly while ADVANCING from the advance deadline on, fails what is active with ADVANCING_RECOVERED, and moves on |
| `SessionOutcomes.ClosingOutcome` | nestjs-auth/src/modules/interview-runtime/services/interview-session.service.ts:650-740 | ALL_QUESTIONS_ANSWERED exactly for a finish at READY_TO_FINISH, SUBMITTED_EARLY for a confirmed one before, DEADLINE_REACHED for a sweep, HR_CANCELLED for a cancel, each with its status; only the session row and an open turn change |
| `SessionOutcomes.EndTellsTheEvent` | nestjs-auth/src/modules/interview-runtime/services/runtime-transition.service.ts:42-74 | over any run reason, status and time of the end are those of the first event that ends the session |
| `SessionOutcomes.FinishRefusals` | nestjs-auth/src/modules/interview-runtime/services/interview-session.service.ts:668-705 | each refusal of a finish exactly in its case |
| `SessionOutcomes.PollOutcome` | nestjs-auth/src/modules/interview-runtime/services/interview-session.service.ts:416-474 | an uninterrupted poll is the sweep when the deadline has passed, and otherwise the recovery |
| `Interviewer.NextKeepsBudget` | nestjs-auth/src/modules/interview-runtime/services/follow-up-ai.service.ts:135-190 | the reference interviewer never exceeds a budget and finishes only after the last question |
| `SessionModel.LatestTurn` | nestjs-auth/src/modules/interview-runtime/services/interview-turn.service.ts:343-347 | the turn recovery continues from has the highest sequence number |
| `Projection.ProgressBounded` | nestjs-auth/src/modules/interview-runtime/services/runtime-projection.service.ts:22-102 | completed main questions never exceed the total and equal it at READY_TO_FINISH |
| `Projection.ProgressCountsAnswers` | nestjs-auth/src/modules/interview-runtime/services/runtime-projection.service.ts:22-102 | the progress figures are the answers and the skips stored for main questions |
| `Projection.CanFinishExceptAdvancing` | nestjs-auth/src/modules/interview-runtime/services/interview-session.service.ts:668-725 | a confirmed finish before the deadline goes through exactly when the view offers it or the session is advancing, where it does not offer it |
| `Projection.ViewShowsTranscript` | nestjs-auth/src/modules/interview-runtime/services/runtime-projection.service.ts:22-102 | the view lists exactly the answered turns in the order asked, and an open turn exactly while an answer is awaited |
| `Projection.ReconcileViewAgreesIff` | nestjs-auth/src/modules/interview-runtime/services/interview-session.service.ts:423-480 | a `GET` that closes or recovers the session answers the full view exactly when no answer was stored before; otherwise progress and transcript are missing |
| `Projection.PollReconciles` | nestjs-auth/src/modules/interview-runtime/services/interview-session.service.ts:418-474 | an uninterrupted poll that changes anything does so by one of its two transactions |
| `Projection.RecoveringPollLosesProgress` | nestjs-auth/src/modules/interview-runtime/services/interview-session.service.ts:445-480 | the answer of a recovering poll is never the full view |
| `Projection.RecoveringPollRun` | nestjs-auth/src/modules/interview-runtime/services/interview-session.service.ts:445-480 | from the start: an answer, no result in time, and a recovering poll that shows no progress |
| `SessionRuntime.SessionRows.constructor` | nestjs-auth/src/modules/interview-runtime/services/interview-session.service.ts:280-327 | a started session has one open turn, version 1 and the deadline from its duration |
| `SessionRuntime.SessionRows.EvaluateEligibility` | nestjs-auth/src/modules/interview-runtime/services/follow-up-ai.service.ts:56-242 | the eight reasons not to call the model, in the service's order |
| `SessionRuntime.SessionRows.PrepareAdvancingRun` | nestjs-auth/src/modules/interview-runtime/services/follow-up-ai.service.ts:247-295 | the advance deadline capped by the session deadline, and a new run |
| `SessionRuntime.SessionRows.SubmitAnswer` | nestjs-auth/src/modules/interview-runtime/services/interview-session.service.ts:518-570 | transaction 1 with its errors; a late close is rolled back |
| `SessionRuntime.SessionRows.LeaveTurn` | nestjs-auth/src/modules/interview-runtime/services/interview-turn.service.ts:176-279 | after the answer either ADVANCING with a call, or the next main question |
| `SessionRuntime.SessionRows.OpenNextMainQuestion` | nestjs-auth/src/modules/interview-runtime/services/follow-up-ai.service.ts:647-689 | the next question opens or the session is ready to finish |
| `SessionRuntime.SessionRows.ApplyAiResult` | nestjs-auth/src/modules/interview-runtime/services/follow-up-ai.service.ts:397-568 | transaction 2: fence, deadline, follow-up or next main question, run settled |
| `SessionRuntime.SessionRows.ApplyFallbackNextMain` | nestjs-auth/src/modules/interview-runtime/services/follow-up-ai.service.ts:573-642 | the fallback behind the same fence |
| `SessionRuntime.SessionRows.FailActiveRuns` | nestjs-auth/src/modules/interview-runtime/services/interview-turn.service.ts:325-341 | every run still PROCESSING fails, no other run is touched |
| `SessionRuntime.SessionRows.RecoverStaleAdvancing` | nestjs-auth/src/modules/interview-runtime/services/interview-turn.service.ts:312-420 | recovery from the last turn, including the branch without turns |
| `SessionRuntime.SessionRows.CloseSession` | nestjs-auth/src/modules/interview-runtime/services/runtime-transition.service.ts:42-74 | open turn closed unanswered, status by reason, one version |
| `SessionRuntime.SessionRows.FinishSession` | nestjs-auth/src/modules/interview-runtime/services/interview-session.service.ts:650-740 | finish with its errors and the choice of end reason |
| `SessionRuntime.SessionRows.GetSession` | nestjs-auth/src/modules/interview-runtime/services/interview-session.service.ts:416-474 | the deadline sweep, then recovery |
| `AiRunService.AiRunTable.Start` | nestjs-auth/src/modules/ai/services/ai-run.service.ts:34-55 | a new PROCESSING row |
| `AiRunService.AiRunTable.Succeed` | nestjs-auth/src/modules/ai/services/ai-run.service.ts:62-99 | PROCESSING becomes SUCCEEDED; any other row stays |
| `AiRunService.AiRunTable.Fail` | nestjs-auth/src/modules/ai/services/ai-run.service.ts:106-140 | PROCESSING becomes FAILED with a code cut to 100 characters; any other row stays |
| `AiRunService.AiRunTable.Supersede` | nestjs-auth/src/modules/ai/services/ai-run.service.ts:146-171 | PROCESSING becomes SUPERSEDED; any other row stays |
| `AiRunService.AiRunTable.ActiveRuns` | nestjs-auth/src/modules/interview-runtime/services/interview-turn.service.ts:326-333 | exactly the rows in PROCESSING, each once |
| `AiRuns.SettleKeeps` | nestjs-auth/src/modules/ai/services/ai-run.service.ts:62-171 | settling never rewrites a row that was settled before, adds no active run, and leaves none if it was the newest |
| `LifecycleTheorems.StatusesAgree` | nestjs-auth/src/modules/interview-runtime/services/runtime-transition.service.ts:54-96 | INTERVIEWING exactly with an open interview, interview IN_PROGRESS exactly with a running session, INVITED without one, statuses equal otherwise |
| `LifecycleTheorems.OneOpenOneSession` | nestjs-auth/src/modules/interviews/services/interviews.service.ts:256-268 | never two open interviews, never two sessions across all rounds |
| `LifecycleTheorems.NoRoundAfterSession` | nestjs-auth/src/modules/interviews/services/interviews.service.ts:219-225 | once a round had a session no further round is ever created |
| `LifecycleTheorems.DecisionMatchesStatus` | nestjs-auth/src/modules/decisions/decisions.service.ts:113-260 | APPROVED or REJECTED exactly when the one decision row says so, resting on a closed session |
| `LifecycleTheorems.UnderReviewHasTranscript` | nestjs-auth/src/modules/interviews/services/interviews.service.ts:744-753 | UNDER_REVIEW means a closed session and no decision |
| `LifecycleTheorems.TimelyStartSucceeds` | nestjs-auth/src/modules/interview-runtime/services/interview-session.service.ts:240-343 | a start in time succeeds, with a deadline 10 to 90 minutes ahead and a cookie set to outlive it by half an hour |
| `LifecycleTheorems.CloseWritesFromInterviewing` | nestjs-auth/src/modules/interview-runtime/services/runtime-transition.service.ts:88-96 | the unconditional write of UNDER_REVIEW only ever replaces INTERVIEWING |
| `LifecycleTheorems.TerminalAbsorbing` | nestjs-auth/src/modules/applications/policies/application-terminal.policy.ts:5-13 | from a terminal status no run changes status, decision or any round, and the version moves once per deletion of a current CV and for nothing else |
| `LifecycleTheorems.RemovalMovesTerminalVersion` | nestjs-auth/src/modules/documents/services/cv-versions.service.ts:770-784 | a concrete run: the version of a withdrawn application moves when its CV is deleted |
| `LifecycleTheorems.StepOk` | nestjs-auth/src/modules/interviews/services/interviews.service.ts:185-1002 | create, start, close, expire, revoke, resend, withdraw, decide, CV upload and removal, and all requests keep the joint invariant |
| `LifecycleTheorems.StepGrows` | nestjs-auth/src/modules/interview-runtime/services/runtime-transition.service.ts:66-96 | rows and sessions never disappear and no status changes without its version |
| `LifecycleTheorems.StaleReadIsRefused` | nestjs-auth/src/modules/applications/applications.service.ts:448-453 | a client acting on an application read before a status change is refused, even if the status has changed back |
| `LifecycleTheorems.StaleInterviewReadIsRefused` | nestjs-auth/src/modules/interviews/services/interviews.service.ts:680-685 | the same for an interview read before a revoke or resend |
| `LifecycleRuntime.ApplicationRows.CreateInterview` | nestjs-auth/src/modules/interviews/services/interviews.service.ts:152-438 | creation with its checks of application, job, question set, CV and profile in order, the copied questions and the first invitation |
| `LifecycleRuntime.ApplicationRows.CopyQuestions` | nestjs-auth/src/modules/interviews/services/interviews.service.ts:376-392 | one question per item, without follow-ups where they are not allowed |
| `LifecycleRuntime.ApplicationRows.StartInterview` | nestjs-auth/src/modules/interview-runtime/services/interview-session.service.ts:194-364 | start, repeated start and late start; the late expiry is rolled back |
| `LifecycleRuntime.ApplicationRows.CloseSession` | nestjs-auth/src/modules/interview-runtime/services/runtime-transition.service.ts:26-126 | session, interview and application closed together without looking |
| `LifecycleRuntime.ApplicationRows.SweepDeadline` | nestjs-auth/src/modules/interview-runtime/services/interview-session.service.ts:418-443 | the deadline close that a `GET` commits |
| `LifecycleRuntime.ApplicationRows.FinishSession` | nestjs-auth/src/modules/interview-runtime/services/interview-session.service.ts:650-740 | finish closes all three, or fails and leaves them |
| `LifecycleRuntime.ApplicationRows.ExpireInterview` | nestjs-auth/src/modules/interviews/services/interview-lifecycle.service.ts:26-128 | expiry before start: invitations revoked, application back to SHORTLISTED |
| `LifecycleRuntime.ApplicationRows.RevokeInvitations` | nestjs-auth/src/modules/interviews/services/interviews.service.ts:727-742 | every live invitation and its live credentials, nothing else |
| `LifecycleRuntime.ApplicationRows.Revoke` | nestjs-auth/src/modules/interviews/services/interviews.service.ts:612-753 | revoke before and after the start |
| `LifecycleRuntime.ApplicationRows.ResendInvitation` | nestjs-auth/src/modules/interviews/services/interviews.service.ts:833-952 | a new invitation under a new version; without an email everything is rolled back |
| `LifecycleRuntime.ApplicationRows.Withdraw` | nestjs-auth/src/modules/applications/applications.service.ts:409-567 | every open interview is cancelled and the application withdrawn |
| `LifecycleRuntime.ApplicationRows.UpdateNotes` | nestjs-auth/src/modules/applications/applications.service.ts:323-383 | refused in a terminal status, otherwise one version |
| `LifecycleRuntime.ApplicationRows.Decide` | nestjs-auth/src/modules/decisions/decisions.service.ts:88-260 | the decision with all its checks in order, down to the latest HR review of the named session |
| `LifecycleModel.LatestHrReview` | nestjs-auth/src/modules/decisions/decisions.service.ts:215-223 | the stored HR review of the interview with the highest revision, if there is one |
| `LifecycleRuntime.ApplicationRows.UploadCv` | nestjs-auth/src/modules/documents/services/cv-versions.service.ts:238-285 | in SHORTLISTED only, and while the next number is free, the new CV becomes current with one version |
| `LifecycleRuntime.ApplicationRows.RemoveCv` | nestjs-auth/src/modules/documents/services/cv-versions.service.ts:747-784 | deletion in any status; the application is written exactly when the CV was current |
| `LifecycleRuntime.ApplicationRows.OpenInterviews` | nestjs-auth/src/modules/applications/applications.service.ts:482-487 | exactly the open interviews, each once |
| `LifecycleRuntime.ApplicationRows.ReadForExchange` | nestjs-auth/src/modules/interviews/services/candidate-access.service.ts:41-107 | the checks of an exchange and the expiry of its cookie |
| `LifecycleRuntime.ApplicationRows.WriteCredential` | nestjs-auth/src/modules/interviews/services/candidate-access.service.ts:109-116 | the credential is inserted, once, without another look at the invitation |
| `LifecycleRuntime.ApplicationRows.SaveRead` | nestjs-auth/src/modules/interviews/services/candidate-access.service.ts:118-120 | the invitation of an exchange that has written its credential, or the credential of a lobby visit, goes back as it was read, once |
| `LifecycleOutcomes.DecisionRestsOnLatestReview` | nestjs-auth/src/modules/decisions/decisions.service.ts:113-260 | over whole runs the decision on record was made under review, on a closed session, and on an HR review of it that no other HR review of the interview outdated |
| `LifecycleOutcomes.DecisionNeedsLatestReview` | nestjs-auth/src/modules/decisions/decisions.service.ts:195-225 | whatever changes an application by a decision meets every condition, the highest revision among them |
| `LifecycleOutcomes.DecisionOutcome` | nestjs-auth/src/modules/decisions/decisions.service.ts:113-260 | with revisions distinct, a decision goes through exactly at the named version, under review, undecided, with no open interview, on the named closed session and its latest HR review |
| `LifecycleOutcomes.DecisionRefusals` | nestjs-auth/src/modules/decisions/decisions.service.ts:113-225 | every refusal of a decision names something that is wrong |
| `LifecycleOutcomes.CreationOutcome` | nestjs-auth/src/modules/interviews/services/interviews.service.ts:152-438 | an interview is created exactly under all its conditions, with one question per item whose follow-up limit is kept where follow-ups are allowed and 0 elsewhere |
| `LifecycleOutcomes.CreationRefusals` | nestjs-auth/src/modules/interviews/services/interviews.service.ts:152-374 | every refusal names something that is wrong |
| `LifecycleOutcomes.StartOutcome` | nestjs-auth/src/modules/interview-runtime/services/interview-session.service.ts:240-343 | a start goes through exactly for an invited interview in time, and extends exactly the cookie used |
| `LifecycleOutcomes.ClosingOutcome` | nestjs-auth/src/modules/interview-runtime/services/runtime-transition.service.ts:26-126 | sweep and finish close session, interview and application together exactly when they end the session |
| `LifecycleOutcomes.ExpiryOutcome` | nestjs-auth/src/modules/interviews/services/interview-lifecycle.service.ts:26-128 | exactly an unstarted interview past its expiry expires; the application is shortlisted again |
| `LifecycleOutcomes.RevokeOutcome` | nestjs-auth/src/modules/interviews/services/interviews.service.ts:612-753 | before the start the application returns to SHORTLISTED, after it goes to UNDER_REVIEW; exactly the live invitations and their live cookies are revoked |
| `LifecycleOutcomes.ResendOutcome` | nestjs-auth/src/modules/interviews/services/interviews.service.ts:833-952 | exactly in time, at the named version and with an email: what was out is withdrawn and one invitation issued under the next version |
| `LifecycleOutcomes.WithdrawalOutcome` | nestjs-auth/src/modules/applications/applications.service.ts:409-567 | every open round is cancelled and no other touched; repeating it changes nothing |
| `LifecycleOutcomes.RemovalOutcome` | nestjs-auth/src/modules/documents/services/cv-versions.service.ts:747-784 | deleting the current CV makes the newest remaining one current with one version, deleting another leaves pointer and version |
| `LifecycleOutcomes.ExchangeOutcome` | nestjs-auth/src/modules/interviews/services/candidate-access.service.ts:41-107 | an exchange is let through exactly for the newest live, unexpired invitation of an open interview, with the expiry of its cookie |
| `LifecycleOutcomes.VisitOutcome` | nestjs-auth/src/modules/interviews/services/candidate-access.service.ts:122-216 | a lobby visit exactly for a live, unexpired cookie of such an invitation |
| `LifecycleOutcomes.SaveOutcome` | nestjs-auth/src/modules/interviews/services/candidate-access.service.ts:118-120 | what a request writes back: the invitation as live, or the cookie as live with the expiry it read |
| `AccessTheorems.InvitationVersionsUnique` | nestjs-auth/src/modules/interviews/services/interviews.service.ts:923-933 | invitation versions of an interview never repeat and never pass the interview's own |
| `AccessTheorems.NewestInvitationIsTheOffer` | nestjs-auth/src/modules/interviews/services/interviews.service.ts:885-933 | the newest invitation is live unless withdrawn, at the current version unless cancelled, and expires with the interview's invitation |
| `AccessTheorems.AcceptedIsNewest` | nestjs-auth/src/modules/interview-runtime/services/interview-session.service.ts:83-142 | whoever is let in holds a credential of the newest invitation of an interview not cancelled |
| `AccessTheorems.WithdrawnAccessNeverReturns` | nestjs-auth/src/modules/interviews/services/interviews.service.ts:901-921 | after revoke, resend or withdraw no earlier invitation or credential admits anybody again, whatever is saved over the revocation |
| `AccessTheorems.TidyMeansOneLive` | nestjs-auth/src/modules/interviews/services/interviews.service.ts:727-742 | in a tidy state at most one invitation is live, at the current version, and none of a cancelled interview |
| `AccessTheorems.TidyKeptIffNotStale` | nestjs-auth/src/modules/interviews/services/candidate-access.service.ts:109-120 | live credentials hang off live, current invitations, and a step keeps this exactly when it does not save an entity read before a revocation |
| `AccessTheorems.TidyThroughoutIffNothingStaleSaved` | nestjs-auth/src/modules/interviews/services/candidate-access.service.ts:109-120 | over whole runs every state is tidy exactly when nothing stale is saved |
| `AccessTheorems.NewApplicationStaysTidy` | nestjs-auth/src/modules/interviews/services/candidate-access.service.ts:109-120 | a run from a new application without a stale save ends tidy |
| `AccessTheorems.RacingExchangeRevives` | nestjs-auth/src/modules/interviews/services/candidate-access.service.ts:41-127 | a concrete run in which a cancelled interview ends with a live invitation and credential |
| `AccessTheorems.CookieLastsIffNoLobbyOutstanding` | nestjs-auth/src/modules/interviews/services/candidate-access.service.ts:218-220 | the cookie outlives the deadline by half an hour through every later run exactly when no lobby visit that read it before its extension has yet to save it |
| `AccessTheorems.CookieLastsAfterAnsweredVisits` | nestjs-auth/src/modules/interviews/services/candidate-access.service.ts:122-245 | it does when every lobby visit with the cookie was answered before the start |
| `AccessTheorems.AnsweredLobbyKeepsCookie` | nestjs-auth/src/modules/interview-runtime/services/interview-session.service.ts:329-344 | the ordinary flow as a run: exchange, lobby answered, start; the extension then stays whatever happens |
| `AccessTheorems.LateLobbyShutsOut` | nestjs-auth/src/modules/interviews/services/candidate-access.service.ts:218-220 | a concrete run in which the candidate can neither use the cookie nor exchange the invitation while the session runs |
| `Idempotency.AtMostOneKeepsOut` | nestjs-auth/src/platform/idempotency/idempotency.service.ts:115-143 | two requests are never both inside the action, or one inside after another's stored success, unless one record has expired |
| `Idempotency.NoEntryWhileKeptOut` | nestjs-auth/src/platform/idempotency/idempotency.service.ts:126-140 | no statement lets a request into the action while an unexpired record is held |
| `Idempotency.SuccessIsFinalUntilExpiry` | nestjs-auth/src/platform/idempotency/idempotency.service.ts:143-152 | over whole runs: after a stored success no action starts and the record stays, until it expires |
| `Idempotency.StoredSuccessAnswers` | nestjs-auth/src/platform/idempotency/idempotency.service.ts:80-108 | meanwhile the same request gets that result and a different one is refused |
| `Idempotency.ReplayIsFaithful` | nestjs-auth/src/platform/idempotency/idempotency.service.ts:102-108 | a replay is what the action of an unexpired record with the same hash returned |
| `Idempotency.FailureFreesKey` | nestjs-auth/src/platform/idempotency/idempotency.service.ts:153-164 | a failed action frees the key exactly when the delete goes through |
| `Idempotency.SecondActionIffResultLost` | nestjs-auth/src/platform/idempotency/idempotency.service.ts:146-164 | from the return of a successful action to the expiry of its record, over every run that ends its request: a second entry is possible exactly when the result was lost and the record deleted |
| `Idempotency.NobodyEntersUnlessDeleted` | nestjs-auth/src/platform/idempotency/idempotency.service.ts:146-164 | in no run does anybody enter before expiry unless the owner's delete went through |
| `Idempotency.NextInsertIffResultLost` | nestjs-auth/src/platform/idempotency/idempotency.service.ts:146-164 | the very next insert after each way the request can end |
| `Idempotency.LostResultRepeatsAction` | nestjs-auth/src/platform/idempotency/idempotency.service.ts:143-164 | the double execution as a concrete run |
| `Idempotency.AloneIsUninterrupted` | nestjs-auth/src/platform/idempotency/idempotency.service.ts:54-165 | the concurrent protocol without interference is the sequential one |
| `IdempotencyService.KeyTable.Execute` | nestjs-auth/src/platform/idempotency/idempotency.service.ts:54-165 | the service on its own, with and without a key, and with a save or a delete that fails |
| `IdempotencyOutcomes.RepeatAfterSuccess` | nestjs-auth/src/platform/idempotency/idempotency.service.ts:54-152 | an equal request after a stored success is answered with it until `ttl` has passed and a different one refused; from then on the next request acts |
| `IdempotencyOutcomes.RepeatAfterFailure` | nestjs-auth/src/platform/idempotency/idempotency.service.ts:153-165 | after a failed action the key is free if its record was deleted, and busy until expiry otherwise |
| `IdempotencyOutcomes.RepeatAfterLostResult` | nestjs-auth/src/platform/idempotency/idempotency.service.ts:143-165 | after a lost result the next request acts, waits or is answered, by what the database took |
| `IdempotencyOutcomes.RunningActionAnswers` | nestjs-auth/src/platform/idempotency/idempotency.service.ts:80-101 | while an action is running an equal request is told so and a different one refused |
| `IdempotencyOutcomes.PerformedIsReturned` | nestjs-auth/src/platform/idempotency/idempotency.service.ts:143-152 | in every reachable state whoever was answered with a result got what its own action returned |
| `CanonicalJson.CanonDecidesSame` | nestjs-auth/src/modules/ai/utils/input-hash.util.ts:9-28 | two inputs have one canonical form exactly when they are the same logical input, fields under `__proto__` aside |
| `CanonicalJson.CanonIdempotent` | nestjs-auth/src/modules/ai/utils/input-hash.util.ts:9-28 | canonicalizing twice is canonicalizing once |
| `CanonicalJson.KeyOrderIrrelevant` | nestjs-auth/src/modules/ai/utils/input-hash.util.ts:19-26 | reordering an object's keys does not change the canonical form |
| `CanonicalJson.ProtoFieldLost` | nestjs-auth/src/modules/ai/utils/input-hash.util.ts:21-24 | a field under `__proto__` leaves no trace in the canonical form |
| `CanonicalJson.Canonicalize` | nestjs-auth/src/modules/ai/utils/input-hash.util.ts:9-28 | the recursive procedure with its loops computes the canonical form |
| `CanonicalJson.CanonicalizeFields` | nestjs-auth/src/modules/ai/utils/input-hash.util.ts:19-26 | the object branch: a fresh record filled in sorted order of the keys |
| `RequestHash.HashDecides` | nestjs-auth/src/platform/idempotency/idempotency.service.ts:41-52 | two bodies are serialised alike exactly when they agree as far as their top-level key names let one see |
| `RequestHash.HashIdentifiesIffFlat` | nestjs-auth/src/platform/idempotency/idempotency.service.ts:43-44 | a body's serialisation identifies it exactly when no object is nested in it |
| `RequestHash.DecisionBodiesCollide` | nestjs-auth/src/modules/decisions/decisions.service.ts:79 | an approval and a rejection of one application are serialised alike |
| `CvExtraction.VersionClaimedOnce` | nestjs-auth/src/modules/documents/services/cv-extraction-state.service.ts:327-355 | a processing version is claimed by one run only |
| `CvExtraction.OneResultPerVersion` | nestjs-auth/src/modules/documents/services/cv-extraction-state.service.ts:400-412 | of all results delivered under one version at most one is applied |
| `CvExtraction.ActiveRunDiscipline` | nestjs-auth/src/modules/documents/services/cv-extraction-state.service.ts:312-325 | at most one extraction run is waited for, only while the CV is PROCESSING |
| `CvExtraction.ErrorCodeMeansFailure` | nestjs-auth/src/modules/documents/services/cv-extraction-state.service.ts:492-495 | an error code is stored exactly while the extraction stands as failed |
| `CvExtraction.ProcessingIsProtected` | nestjs-auth/src/modules/documents/services/cv-extraction-state.service.ts:278-310 | through any run of attempts while an extraction is not stale nobody claims, edits or approves |
| `CvExtraction.ClaimHoldsUntilStale` | nestjs-auth/src/modules/documents/services/cv-extraction-state.service.ts:250-330 | an accepted claim, or an edit of a CV whose extraction went stale, keeps every attempt off for the stale time from its own clock reading, and a retry gets in exactly after it |
| `CvExtraction.ApprovedIsFinal` | nestjs-auth/src/modules/documents/services/cv-versions.service.ts:546-551 | an approved profile and its version never change |
| `CvExtraction.ProfileVersionNamesProfile` | nestjs-auth/src/modules/documents/services/cv-versions.service.ts:578-580 | the profile version never falls and every change of the profile raises it |
| `CvExtraction.ApprovedHasSchema` | nestjs-auth/src/modules/documents/services/cv-versions.service.ts:697-702 | an approved profile has the expected schema |
| `CvExtraction.EditSurvivesIff` | nestjs-auth/src/modules/documents/services/cv-versions.service.ts:553-582 | an edit survives every later run without a new claim or edit exactly when no extraction was under way when it was made |
| `CvExtraction.ProfileStandsIff` | nestjs-auth/src/modules/documents/services/cv-versions.service.ts:578-582 | over any run the profile stands as written exactly when no edit was accepted and no result applied |
| `CvExtraction.StaleEditOverwritten` | nestjs-auth/src/modules/documents/services/cv-extraction-state.service.ts:414-422 | the overwritten edit as a concrete run |
| `CvOutcomes.ClaimOutcome` | nestjs-auth/src/modules/documents/services/cv-extraction-state.service.ts:66-378 | a claim goes through exactly for an open CV at the named version, the first time while PENDING and again once failed or stale; version, status and runs after it |
| `CvOutcomes.ResultOutcome` | nestjs-auth/src/modules/documents/services/cv-extraction-state.service.ts:383-527 | an awaited success becomes the profile, an awaited failure FAILED or NEEDS_MANUAL_INPUT as reported with its code, any other result only ends its run SUPERSEDED |
| `CvOutcomes.ProfileIsLastWritten` | nestjs-auth/src/modules/documents/services/cv-extraction-state.service.ts:414-430 | over any run the profile is, word for word, the one last edited in or extracted |
| `CvOutcomes.EditOutcome` | nestjs-auth/src/modules/documents/services/cv-versions.service.ts:491-605 | an edit goes through exactly for an open CV that nobody is extracting, at the named version, and is stored as it was sent |
| `CvOutcomes.ApprovalOutcome` | nestjs-auth/src/modules/documents/services/cv-versions.service.ts:610-730 | an approval exactly when, besides, there is a profile of the expected schema |
| `CvOutcomes.ClaimRefusals` | nestjs-auth/src/modules/documents/services/cv-extraction-state.service.ts:66-310 | each refusal of a claim exactly in its case |
| `CvExtractionService.CvRow.ClaimInitialExtraction` | nestjs-auth/src/modules/documents/services/cv-extraction-state.service.ts:66-202 | the first claim, under the version the CV already has |
| `CvExtractionService.CvRow.ClaimRetryExtraction` | nestjs-auth/src/modules/documents/services/cv-extraction-state.service.ts:207-378 | a retry claim: next version, a stale run superseded |
| `CvExtractionService.CvRow.CompleteExtraction` | nestjs-auth/src/modules/documents/services/cv-extraction-state.service.ts:383-457 | the fenced success |
| `CvExtractionService.CvRow.FailExtraction` | nestjs-auth/src/modules/documents/services/cv-extraction-state.service.ts:462-527 | the fenced failure, which does not look at approval |
| `CvExtractionService.CvRow.UpdateProfile` | nestjs-auth/src/modules/documents/services/cv-versions.service.ts:491-605 | the manual edit and its refusals |
| `CvExtractionService.CvRow.ApproveProfile` | nestjs-auth/src/modules/documents/services/cv-versions.service.ts:610-730 | the approval and its refusals |
| `QuestionSets.SortAndCheckIsPermutation` | nestjs-auth/src/modules/question-sets/question-sets.service.ts:415-426 | sort-and-check accepts exactly the permutations of 1..n |
| `QuestionSets.ApprovedIsContiguous` | nestjs-auth/src/modules/question-sets/question-sets.service.ts:627-656 | an approved set has 1 to 12 items at positions 1..n |
| `QuestionSets.ApprovedIsFinal` | nestjs-auth/src/modules/question-sets/question-sets.service.ts:386-398 | an approved set never changes, whatever arrives |
| `QuestionSets.VersionNamesItems` | nestjs-auth/src/modules/question-sets/question-sets.service.ts:400-405 | the version never falls, and items and approval change only with it |
| `QuestionSets.AppliedIsCurrent` | nestjs-auth/src/modules/question-sets/services/question-generation.service.ts:641-655 | only the run the set names, at its current generation, while generating, gets its output in |
| `QuestionSets.OneOutputPerGeneration` | nestjs-auth/src/modules/question-sets/services/question-generation.service.ts:452-489 | at most one output is applied per generation, across all retries |
| `QuestionSets.ActiveRunIsNamed` | nestjs-auth/src/modules/question-sets/services/question-generation.service.ts:452-488 | the only run waited for is the one the set names |
| `QuestionSets.StaleOutputLeavesSetGenerating` | nestjs-auth/src/modules/question-sets/services/question-generation.service.ts:657-720 | the current run's output leaves set and run GENERATING and PROCESSING exactly when its source is stale or it repeats a position; otherwise the set becomes a draft |
| `QuestionSets.CloneKeepsQuestions` | nestjs-auth/src/modules/question-sets/question-sets.service.ts:693-809 | a clone is a draft with the same origin and items |
| `QuestionPipeline.EveryApprovedItemWasAsked` | nestjs-auth/src/modules/interviews/services/interviews.service.ts:376-392 | an interview from an approved set that ends fully answered has asked each approved item once and got one response to it |
| `QuestionSetOutcomes.EditOutcome` | nestjs-auth/src/modules/question-sets/question-sets.service.ts:351-519 | an edit is accepted exactly for a draft at the named version with 1 to 12 inputs at positions 1 to n and known criteria, and leaves for each input, at its position, its text, its criterion and its follow-up settings |
| `QuestionSetOutcomes.EditedQuestionsWereAsked` | nestjs-auth/src/modules/interviews/services/interviews.service.ts:376-392 | an approved set last edited with these inputs: when the interview made from it ends fully answered, each input's text was put to the candidate once, answered once, and followed up only as the input allowed |
| `QuestionSetOutcomes.ApprovalOutcome` | nestjs-auth/src/modules/question-sets/question-sets.service.ts:524-688 | an approval exactly for a draft at the named version, fresh, shortlisted, with 1 to 12 items at positions 1 to n |
| `QuestionSetOutcomes.RetryOutcome` | nestjs-auth/src/modules/question-sets/services/question-generation.service.ts:335-519 | a retry exactly for a failed or stale generation of a fresh source; next generation, new run, the old one overtaken |
| `QuestionSetOutcomes.OutputOutcome` | nestjs-auth/src/modules/question-sets/services/question-generation.service.ts:618-790 | an awaited, fresh output without repeated positions becomes the items of a draft just as it came; an awaited failure is marked; anything else changes nothing |
| `QuestionSetOutcomes.EditRefusals` | nestjs-auth/src/modules/question-sets/question-sets.service.ts:386-451 | each refusal of an edit exactly in its case |
| `QuestionSetRuntime.QuestionSetRow.RetryGeneration` | nestjs-auth/src/modules/question-sets/services/question-generation.service.ts:335-519 | a retry claim and its refusals |
| `QuestionSetRuntime.QuestionSetRow.ApplyGenerated` | nestjs-auth/src/modules/question-sets/services/question-generation.service.ts:618-752 | the fenced output; late and stale results are rolled back |
| `QuestionSetRuntime.QuestionSetRow.MarkGenerationFailed` | nestjs-auth/src/modules/question-sets/services/question-generation.service.ts:757-790 | the run fails in any case, the set only under its fence |
| `QuestionSetRuntime.QuestionSetRow.UpdateItems` | nestjs-auth/src/modules/question-sets/question-sets.service.ts:351-519 | replacement of the items, accepted only for a permutation of 1..n with known criteria |
| `QuestionSetRuntime.QuestionSetRow.Approve` | nestjs-auth/src/modules/question-sets/question-sets.service.ts:524-688 | the approval and its refusals |
| `QuestionSetRuntime.QuestionSetRow.ClonedFrom` | nestjs-auth/src/modules/question-sets/question-sets.service.ts:693-768 | the copy, item by item |
| `QuestionSetRuntime.QuestionSetRow.CheckPositions` | nestjs-auth/src/modules/question-sets/question-sets.service.ts:649-656 | the loop accepts exactly the contiguous lists |
| `QuestionSetRuntime.QuestionSetRow.CheckCriteria` | nestjs-auth/src/modules/question-sets/question-sets.service.ts:428-451 | the loop accepts exactly the lists with known criteria |
| `Notifications.AcceptedIsAbsorbing` | nestjs-auth/src/modules/notifications/notification-dispatch.service.ts:70-81 | nothing about an accepted notification ever changes |
| `Notifications.PayloadKeptUntilAccepted` | nestjs-auth/src/modules/notifications/notification-dispatch.service.ts:287-292 | the payload is null exactly when accepted, so the claim never misses it |
| `Notifications.ColumnsAgree` | nestjs-auth/src/modules/notifications/notification-dispatch.service.ts:286-307 | acceptance time, message id, error code and last attempt agree with the status; DELIVERED and SUPPRESSED are never reached |
| `Notifications.OvertakenResultIgnored` | nestjs-auth/src/modules/notifications/notification-dispatch.service.ts:277-284 | a result for attempt k has no effect once attempt k+1 was claimed, nor ever after |
| `Notifications.AttemptClaimedOnce` | nestjs-auth/src/modules/notifications/notification-dispatch.service.ts:143-154 | no attempt number is handed out twice |
| `Notifications.AcceptanceRestsOnOneReport` | nestjs-auth/src/modules/notifications/notification-dispatch.service.ts:277-338 | the guard compares attempt numbers only: were attempts to report again, acceptance would last through a run exactly when no report in it is a failure of the latest attempt |
| `Notifications.LatestAttemptStillCounts` | nestjs-auth/src/modules/notifications/notification-dispatch.service.ts:104-141 | a notification given up meanwhile is still accepted by its latest attempt |
| `NotificationOutcomes.ClaimOutcome` | nestjs-auth/src/modules/notifications/notification-dispatch.service.ts:56-155 | accepted, under way, expired payload, unreadable payload, or the next attempt: each exactly in its case, and what it leaves |
| `NotificationOutcomes.ReportOutcome` | nestjs-auth/src/modules/notifications/notification-dispatch.service.ts:251-365 | only the latest attempt's first report counts: success with its message id, timeout, or failure with its code |
| `NotificationOutcomes.AcceptedByLatestSuccess` | nestjs-auth/src/modules/notifications/notification-dispatch.service.ts:277-300 | over any run a notification is accepted exactly when its then latest attempt reported a success, whose message id and time it keeps |
| `NotificationDispatch.NotificationRow.ClaimForDispatch` | nestjs-auth/src/modules/notifications/notification-dispatch.service.ts:56-155 | the claim and its five refusals |
| `NotificationDispatch.NotificationRow.FinalizeDispatchResult` | nestjs-auth/src/modules/notifications/notification-dispatch.service.ts:251-338 | the provider's result, behind the attempt number |
| `NotificationDispatch.NotificationRow.FinalizeFailed` | nestjs-auth/src/modules/notifications/notification-dispatch.service.ts:340-365 | a rendering failure, behind the attempt number |
| `Snapshots.SnapshotsAreFresh` | nestjs-auth/src/modules/interviews/services/interviews.service.ts:295-372 | at creation the copied profile is the current CV's approved profile and the copied job is the job |
| `Snapshots.StaleOnlyByCvOrJob` | nestjs-auth/src/modules/question-sets/question-sets.service.ts:846-876 | a set goes stale only by a new current CV or a job update; comparing profile versions decides nothing |
| `Snapshots.CurrentCvIsNewestActive` | nestjs-auth/src/modules/documents/services/cv-versions.service.ts:735-803 | the current CV is the newest one that is not deleted |
| `Snapshots.StaleForGood` | nestjs-auth/src/modules/jobs/jobs.service.ts:280-281 | a set made before a job update never becomes an interview again |
| `Snapshots.StuckGenerating` | nestjs-auth/src/modules/question-sets/services/question-generation.service.ts:444-450 | a generating set behind its job leaves GENERATING in a run exactly when its run's failure is reported; retries, outputs, edits and approvals never move it |
| `Snapshots.EditedMeanwhileRun` | nestjs-auth/src/modules/question-sets/services/question-generation.service.ts:679-692 | a concrete run: the job is edited before the output arrives, and the set ends GENERATING with its run PROCESSING |
| `Snapshots.LifecycleChecksTheSame` | nestjs-auth/src/modules/interviews/services/interviews.service.ts:234-328 | the set checks of the application model let through exactly the sets whose snapshots are fresh |
| `Snapshots.CvNumbersArePlaces` | nestjs-auth/src/modules/documents/services/cv-versions.service.ts:245-254 | CVs are numbered 1 to n in the order of upload, deleted ones included, so the unique constraint on application and version holds |
| `Snapshots.UploadGoesThroughIff` | nestjs-auth/src/modules/documents/services/cv-versions.service.ts:238-285 | an upload to a shortlisted application goes through exactly when the newest CV is not deleted or the search for the highest number sees deleted rows |
| `Snapshots.DeletedNewestEndsUploads` | nestjs-auth/src/database/migrations/1788650000000-CreateDocumentsAndCvVersions.ts:50 | after the newest CV is deleted no run without a search over deleted rows ever adds a CV |
| `Snapshots.DeletedOnlyCvRun` | nestjs-auth/src/modules/documents/services/cv-versions.service.ts:760-784 | a concrete run: the only CV is deleted and the next upload refused |
| `CurrentCv.HighestSeen` | nestjs-auth/src/modules/documents/services/cv-versions.service.ts:245-251 | the highest number among the rows seen, 0 without any |
| `SnapshotOutcomes.InterviewOutcome` | nestjs-auth/src/modules/interviews/services/interviews.service.ts:234-372 | an interview is made exactly from an approved set of an open job made from the current CV and the job as it is; the checks of profile and deletion never decide |
| `SnapshotOutcomes.GenerationOutcome` | nestjs-auth/src/modules/question-sets/services/question-generation.service.ts:95-290 | a generation starts exactly from the approved current CV, and takes down CV and job as they are |
| `SnapshotOutcomes.JobOutcome` | nestjs-auth/src/modules/jobs/jobs.service.ts:190-383 | an update goes through exactly at the named version, for a job not closed, without closing it or taking it back to DRAFT |
| `SnapshotOutcomes.UploadOutcome` | nestjs-auth/src/modules/documents/services/cv-versions.service.ts:238-285 | what an upload stores and its two refusals |
| `SnapshotRuntime.JobRow.Update` | nestjs-auth/src/modules/jobs/jobs.service.ts:190-306 | every accepted update moves the version by one |
| `SnapshotRuntime.JobRow.Close` | nestjs-auth/src/modules/jobs/jobs.service.ts:311-383 | closing moves the version by one |
| `SnapshotRuntime.CvRows.Upload` | nestjs-auth/src/modules/documents/services/cv-versions.service.ts:238-285 | refused outside SHORTLISTED and when the next number is in use, otherwise the new CV takes the next number and becomes current with one application version |
| `SnapshotRuntime.CvRows.Remove` | nestjs-auth/src/modules/documents/services/cv-versions.service.ts:735-803 | deleting the current CV makes the newest remaining one current and takes one application version; deleting another writes only its row |
| `SnapshotRuntime.CvRows.LatestActive` | nestjs-auth/src/modules/documents/services/cv-versions.service.ts:770-777 | the newest row that is not deleted |

## Left out

- Authentication, roles, permissions, controllers, validation decorators, response mapping, pagination and audit logging: no state of the protocols above.
- Writing HR reviews and interview summaries: a decision is given the stored reviews. A review checks the application's status outside its transaction, so nothing is claimed about reviews following a decision.
- Digests, encryption and random tokens: a hash is represented by the tree it is computed from, a payload by whether it can still be read.
- Prompts, evidence validators, email templates and storage: the model receives any accepted or rejected result.
- Soft deletion of applications, jobs and question sets; results are about rows that are not deleted. A question set's delete saves a previously read row outside a transaction.
- Isolation levels and lock ordering: replaced by atomic steps.
- Who may start, answer or finish: access is resolved before the transaction, so the lifecycle lets any such request arrive at any time, and `AccessTheorems` says separately who is let in.
- JSON text: serialised trees are compared in place of their text; numbers are integers; the order JavaScript gives integer-like keys, array bodies and scalar bodies of a request are not modelled.
- Competency, difficulty, evidence references and review notes of a question item, and a decision's reasons and messages: stored as given and read by nothing modelled here.
- The fields of a job snapshot's criteria: one content value stands for title, description, skills and criteria, although generation copies fewer fields of a criterion than a manual draft does.
- The second message of a resend or cancellation: only its notification row's dispatch is modelled.
