/**
 * The runtime services in the form they have: rows updated in place, step by step, each method
 * proved against the transaction it implements in `SessionModel`.
 */
module SessionRuntime {
  import opened Base
  import opened AiRuns
  import opened AiRunService
  import opened SessionModel

  /** One session: the fields of its row, its turn and answer tables, and the shared run table. */
  class SessionRows {
    const setup: Setup
    const runs: AiRunTable
    var status: SessionStatus
    var state: RuntimeState
    var deadlineAt: Time
    var endedAt: Option<Time>
    var endReason: Option<EndReason>
    var currentTurn: Option<nat>
    var followUpsUsed: nat
    var version: nat
    var advanceDeadlineAt: Option<Time>
    var turns: seq<Turn>
    var answers: seq<Answer>

    /** The rows as a value. */
    ghost function Rows(): Db
      reads this, runs
    {
      Db(Session(status, state, deadlineAt, endedAt, endReason, currentTurn, followUpsUsed, version, advanceDeadlineAt),
         turns, answers, runs.rows)
    }

    /** Starting an interview whose first question has been found. */
    constructor (setup: Setup, runs: AiRunTable, durationMs: int, now: Time)
      requires QuestionAt(setup.questions, 1).Some? && runs.rows == []
      ensures this.setup == setup && this.runs == runs
      ensures Begin(setup, durationMs, now) == Some(Rows())
    {
      this.setup := setup;
      this.runs := runs;
      status := InProgress;
      state := AwaitingAnswer;
      deadlineAt := now + durationMs;
      endedAt := None;
      endReason := None;
      followUpsUsed := 0;
      version := 1;
      advanceDeadlineAt := None;
      answers := [];
      var firstTurn := Turn(1, None, 1, Main, 0, setup.questions[0].text, Open, None, None);
      turns := [firstTurn];
      currentTurn := Some(0);
    }

    /** What the transaction remembers in order to roll back. */
    method Savepoint() returns (saved: Db)
      ensures saved == Rows()
    {
      saved := Db(Session(status, state, deadlineAt, endedAt, endReason, currentTurn, followUpsUsed, version,
                          advanceDeadlineAt),
                  turns, answers, runs.rows);
    }

    method Rollback(saved: Db)
      modifies this, runs
      ensures Rows() == saved
    {
      status, state, deadlineAt := saved.session.status, saved.session.state, saved.session.deadlineAt;
      endedAt, endReason, currentTurn := saved.session.endedAt, saved.session.endReason, saved.session.currentTurn;
      followUpsUsed, version := saved.session.followUpsUsed, saved.session.version;
      advanceDeadlineAt := saved.session.advanceDeadlineAt;
      turns, answers, runs.rows := saved.turns, saved.answers, saved.runs;
    }

    /** The checks in the order the service makes them; nothing is written. */
    method EvaluateEligibility(interview: Option<Setup>, turn: Turn, text: string, isSkipped: bool, now: Time) returns (e: Eligibility)
      ensures e == SessionModel.EvaluateEligibility(interview, Rows(), turn, text, isSkipped, now)
    {
      if interview.None? {
        return NoCall(InterviewNotFound);
      }
      if isSkipped || |text| == 0 {
        return NoCall(AnswerSkippedOrEmpty);
      }
      if status != InProgress {
        return NoCall(SessionNotInProgress);
      }
      var rootQuestion := QuestionAt(interview.value.questions, turn.root);
      if rootQuestion.None? {
        return NoCall(RootQuestionNotFound);
      }
      var q := rootQuestion.value;
      if !q.allowFollowUp || q.maxFollowUps <= 0 {
        return NoCall(FollowUpDisabled);
      }
      var followUpsInBranch := FollowUpsInBranch(turns, turn.root);
      var remainingRootBudget := q.maxFollowUps - followUpsInBranch;
      if remainingRootBudget <= 0 {
        return NoCall(RootBudgetExhausted);
      }
      var remainingSessionBudget := interview.value.maxFollowUpsTotal - followUpsUsed;
      if remainingSessionBudget <= 0 {
        return NoCall(SessionBudgetExhausted);
      }
      var msUntilDeadline := deadlineAt - now;
      if msUntilDeadline < interview.value.config.minRemainingMs {
        return NoCall(InsufficientTime);
      }
      return MayCall(q);
    }

    method PrepareAdvancingRun(now: Time) returns (deadline: Time, aiRunId: nat)
      modifies runs
      ensures deadline == AdvanceDeadline(setup.config, deadlineAt, now)
      ensures aiRunId == old(|runs.rows|) && runs.rows == Start(old(runs.rows))
    {
      deadline := now + setup.config.timeoutMs + setup.config.graceMs;
      if deadline > deadlineAt {
        deadline := deadlineAt;
      }
      aiRunId := runs.Start();
    }

    /** Opens the question after `currentPosition`; the caller clears the advance deadline and bumps the version. */
    method OpenNextMainQuestion(currentPosition: nat, lastSequenceNo: nat)
      modifies this
      ensures version == old(version) && advanceDeadlineAt == old(advanceDeadlineAt)
      ensures OpenNextMain(setup, old(Rows()), currentPosition, lastSequenceNo)
           == Rows().(session := Rows().session.(advanceDeadlineAt := None, version := version + 1))
    {
      var nextQuestion := QuestionAt(setup.questions, currentPosition + 1);
      if nextQuestion.Some? {
        var nextTurn := Turn(currentPosition + 1, None, lastSequenceNo + 1, Main, 0, nextQuestion.value.text, Open,
                             None, None);
        turns := turns + [nextTurn];
        currentTurn := Some(|turns| - 1);
        state := AwaitingAnswer;
      } else {
        currentTurn := None;
        state := ReadyToFinish;
      }
    }

    /** Transaction 1, with the checks of the session service in front and the rollback of its late close. */
    method SubmitAnswer(turnId: nat, text: string, isSkipped: bool, now: Time)
      returns (r: Result<Option<Call>, SessionError>)
      modifies this, runs
      ensures match SessionModel.SubmitAnswer(setup, old(Rows()), turnId, text, isSkipped, now)
        case Ok(submitted) => r == Ok(submitted.call) && Rows() == submitted.db
        case Err(error) => r == Err(error) && Rows() == old(Rows())
    {
      if status != InProgress {
        return Err(SessionClosed);
      }
      if now >= deadlineAt {
        var saved := Savepoint();
        CloseSession(DeadlineReached, now);
        Rollback(saved);
        return Err(SessionExpired);
      }
      if currentTurn.None? || currentTurn.value != turnId || turnId >= |turns| {
        return Err(TurnNotCurrent);
      }
      if turns[turnId].status != Open {
        return Err(TurnAlreadyAnswered);
      }
      var ok := CheckAnswer(text, isSkipped);
      if !ok {
        return Err(InvalidAnswer);
      }
      answers := answers + [Answer(turnId, if isSkipped then None else Some(text), isSkipped, now)];
      turns := turns[turnId := turns[turnId].(status := if isSkipped then Skipped else Answered, closedAt := Some(now))];
      assert Rows() == RecordAnswer(old(Rows()), turnId, text, isSkipped, now);
      var call := LeaveTurn(turnId, text, isSkipped, now);
      return Ok(call);
    }

    method CheckAnswer(text: string, isSkipped: bool) returns (ok: bool)
      ensures ok == ValidAnswer(text, isSkipped)
    {
      if isSkipped {
        if |text| > 0 {
          return false;
        }
      } else if |text| == 0 || |text| > MAX_ANSWER {
        return false;
      }
      return true;
    }

    /** The answer is stored: either an AI run is prepared, or the next main question opens. */
    method LeaveTurn(turnId: nat, text: string, isSkipped: bool, now: Time) returns (call: Option<Call>)
      requires turnId < |turns|
      modifies this, runs
      ensures var turn := old(turns)[turnId];
        match SessionModel.EvaluateEligibility(Some(setup), old(Rows()), turn, text, isSkipped, now)
        case MayCall(q) => Submitted(Rows(), call) == PrepareAdvancing(setup, old(Rows()), turnId, q, now)
        case NoCall(_) =>
          Submitted(Rows(), call)
          == Submitted(OpenNextMain(setup, old(Rows()), PositionOf(setup.questions, turn.root), turn.sequenceNo), None)
    {
      var turn := turns[turnId];
      var eligibility := EvaluateEligibility(Some(setup), turn, text, isSkipped, now);
      if eligibility.MayCall? {
        var deadline, aiRunId := PrepareAdvancingRun(now);
        currentTurn := None;
        state := Advancing;
        advanceDeadlineAt := Some(deadline);
        version := version + 1;
        return Some(Call(aiRunId, version, turnId, turn.sequenceNo, turn.root, eligibility.question.maxFollowUps,
                         setup.maxFollowUpsTotal));
      }
      var position := PositionOf(setup.questions, turn.root);
      OpenNextMainQuestion(position, turn.sequenceNo);
      advanceDeadlineAt := None;
      version := version + 1;
      return None;
    }

    method OpenFollowUp(call: Call, index: nat, question: string)
      modifies this
      ensures Rows() == old(Rows()).(
        turns := old(turns) + [FollowUpTurn(call, index, question)],
        session := old(Rows()).session.(currentTurn := Some(|old(turns)|), state := AwaitingAnswer,
          advanceDeadlineAt := None, followUpsUsed := old(followUpsUsed) + 1, version := old(version) + 1))
    {
      var nextSequenceNo := call.lastSequenceNo + 1;
      var followUpTurn := Turn(call.rootPosition, Some(call.parentTurn), nextSequenceNo, FollowUp, index, question, Open,
                               None, Some(call.run));
      turns := turns + [followUpTurn];
      currentTurn := Some(|turns| - 1);
      state := AwaitingAnswer;
      advanceDeadlineAt := None;
      followUpsUsed := followUpsUsed + 1;
      version := version + 1;
    }

    /** Transaction 2. */
    method ApplyAiResult(call: Call, ask: bool, question: string, now: Time)
      modifies this, runs
      ensures Rows() == SessionModel.ApplyAiResult(setup, old(Rows()), call, ask, question, now)
    {
      if status != InProgress || state != Advancing || version != call.expectedVersion {
        var _ := runs.Supersede(call.run, now);
        return;
      }
      if advanceDeadlineAt.Some? && now >= advanceDeadlineAt.value {
        var _ := runs.Supersede(call.run, now);
        return;
      }
      if ask && |question| > 0 {
        var followUpsInBranch := FollowUpsInBranch(turns, call.rootPosition);
        var rootBudgetOk := followUpsInBranch < call.rootMaxFollowUps;
        var sessionBudgetOk := followUpsUsed < call.maxFollowUpsTotal;
        if rootBudgetOk && sessionBudgetOk {
          OpenFollowUp(call, followUpsInBranch + 1, question);
          var _ := runs.Succeed(call.run, now);
          return;
        }
      }
      OpenNextMainQuestion(call.rootPosition, call.lastSequenceNo);
      advanceDeadlineAt := None;
      version := version + 1;
      var _ := runs.Succeed(call.run, now);
    }

    method ApplyFallbackNextMain(call: Call, code: string, now: Time)
      modifies this, runs
      ensures Rows() == ApplyFallback(setup, old(Rows()), call, code, now)
    {
      if status != InProgress || state != Advancing || version != call.expectedVersion {
        var _ := runs.Supersede(call.run, now);
        return;
      }
      OpenNextMainQuestion(call.rootPosition, call.lastSequenceNo);
      advanceDeadlineAt := None;
      version := version + 1;
      var _ := runs.Fail(call.run, code, now);
    }

    /** Fails every run still in `Processing`, one after the other. */
    method FailActiveRuns(now: Time)
      modifies runs
      ensures runs.rows == FailActive(old(runs.rows), RECOVERED, now)
    {
      var ids := runs.ActiveRuns();
      ghost var before := runs.rows;
      for k := 0 to |ids|
        invariant |runs.rows| == |before|
        invariant forall i :: 0 <= i < |before| ==>
          runs.rows[i] == if i in ids[..k] then AiRun(Failed, Some(now), Some(Truncate(RECOVERED))) else before[i]
      {
        assert ids[k] !in ids[..k];
        assert runs.rows[ids[k]] == before[ids[k]];
        var _ := runs.Fail(ids[k], RECOVERED, now);
        assert ids[..k + 1] == ids[..k] + [ids[k]];
      }
      assert ids[..|ids|] == ids;
      assert runs.rows == FailActive(before, RECOVERED, now);
    }

    method RecoverStaleAdvancing(now: Time)
      modifies this, runs
      ensures Rows() == SessionModel.RecoverStaleAdvancing(setup, old(Rows()), now)
    {
      FailActiveRuns(now);
      if turns == [] {
        state := ReadyToFinish;
        currentTurn := None;
        advanceDeadlineAt := None;
        version := version + 1;
        return;
      }
      var lastTurn := LatestTurn(turns);
      var position := PositionOf(setup.questions, lastTurn.root);
      OpenNextMainQuestion(position, lastTurn.sequenceNo);
      advanceDeadlineAt := None;
      version := version + 1;
    }

    /** Turn and session part of closing. */
    method CloseSession(reason: EndReason, now: Time)
      modifies this
      ensures Rows() == Close(old(Rows()), reason, now)
    {
      if currentTurn.Some? && currentTurn.value < |turns| && turns[currentTurn.value].status == Open {
        var turn := turns[currentTurn.value];
        turns := turns[currentTurn.value := turn.(status := ClosedUnanswered, closedAt := Some(now))];
      }
      var sessionStatus := Completed;
      if reason == DeadlineReached {
        sessionStatus := Expired;
      } else if reason == HrCancelled {
        sessionStatus := Cancelled;
      }
      status := sessionStatus;
      state := Closed;
      endedAt := Some(now);
      endReason := Some(reason);
      currentTurn := None;
      version := version + 1;
    }

    method FinishSession(confirmEarlyFinish: bool, now: Time) returns (r: Result<(), SessionError>)
      modifies this, runs
      ensures match Finish(old(Rows()), confirmEarlyFinish, now)
        case Ok(db) => r == Ok(()) && Rows() == db
        case Err(error) => r == Err(error) && Rows() == old(Rows())
    {
      if status != InProgress {
        return Err(SessionClosed);
      }
      if now >= deadlineAt {
        var saved := Savepoint();
        CloseSession(DeadlineReached, now);
        Rollback(saved);
        return Err(SessionExpired);
      }
      var hasRemainingQuestions := state != ReadyToFinish;
      if hasRemainingQuestions && !confirmEarlyFinish {
        return Err(ConfirmationRequired);
      }
      CloseSession(if hasRemainingQuestions then SubmittedEarly else AllQuestionsAnswered, now);
      return Ok(());
    }

    /** An uninterrupted `GET`: the deadline sweep, then recovery. */
    method GetSession(now: Time)
      modifies this, runs
      ensures Rows() == Poll(setup, old(Rows()), now)
    {
      if status == InProgress && now >= deadlineAt {
        CloseSession(DeadlineReached, now);
      }
      if status == InProgress && state == Advancing && advanceDeadlineAt.Some? && now >= advanceDeadlineAt.value {
        RecoverStaleAdvancing(now);
      }
    }
  }
}
