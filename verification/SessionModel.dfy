/**
 * The interview session on values: its rows and the transactions that change them
 * (nestjs-auth/src/modules/interview-runtime/services). Each transaction callback is one atomic
 * step; a callback that throws is an `Err` and stores nothing.
 */
module SessionModel {
  import opened Base
  import opened AiRuns

  /** An interview question; its position in the interview is its index plus one. */
  datatype Question = Question(text: string, allowFollowUp: bool, maxFollowUps: nat)

  datatype Config = Config(timeoutMs: int, graceMs: int, minRemainingMs: int)

  /** What is fixed when the interview is created. */
  datatype Setup = Setup(questions: seq<Question>, maxFollowUpsTotal: nat, config: Config)

  datatype TurnKind = Main | FollowUp
  datatype TurnStatus = Open | Answered | Skipped | ClosedUnanswered

  /** A turn row; its id is its index in the table, its root is the position of its main question. */
  datatype Turn = Turn(root: nat, parent: Option<nat>, sequenceNo: nat, kind: TurnKind, followUpIndex: nat,
                       text: string, status: TurnStatus, closedAt: Option<Time>, aiRun: Option<nat>)

  datatype Answer = Answer(turn: nat, text: Option<string>, isSkipped: bool, submittedAt: Time)

  datatype RuntimeState = AwaitingAnswer | Advancing | ReadyToFinish | Closed
  datatype SessionStatus = InProgress | Completed | Expired | Cancelled
  datatype EndReason = AllQuestionsAnswered | SubmittedEarly | DeadlineReached | HrCancelled

  datatype Session = Session(status: SessionStatus, state: RuntimeState, deadlineAt: Time,
                             endedAt: Option<Time>, endReason: Option<EndReason>, currentTurn: Option<nat>,
                             followUpsUsed: nat, version: nat, advanceDeadlineAt: Option<Time>)

  /** The rows of one session: its own row, its turns, their answers, and its AI runs. */
  datatype Db = Db(session: Session, turns: seq<Turn>, answers: seq<Answer>, runs: seq<AiRun>)

  /** What `submitAnswer` hands to the external call: the run, the fencing token, the captured context. */
  datatype Call = Call(run: nat, expectedVersion: nat, parentTurn: nat, lastSequenceNo: nat, rootPosition: nat,
                       rootMaxFollowUps: nat, maxFollowUpsTotal: nat)

  datatype SessionError = SessionClosed | SessionExpired | TurnNotCurrent | TurnAlreadyAnswered
                        | InvalidAnswer | ConfirmationRequired

  datatype Ineligible = InterviewNotFound | AnswerSkippedOrEmpty | SessionNotInProgress | RootQuestionNotFound | FollowUpDisabled
                      | RootBudgetExhausted | SessionBudgetExhausted | InsufficientTime

  datatype Eligibility = NoCall(reason: Ineligible) | MayCall(question: Question)

  datatype Submitted = Submitted(db: Db, call: Option<Call>)

  /** `question` is the text the model proposed, empty when it proposed none. */
  datatype Outcome = CallFailed(code: string) | Rejected(code: string) | Proposed(ask: bool, question: string)

  const MAX_ANSWER := 10000
  const RECOVERED := "ADVANCING_RECOVERED"

  /* ---------- lookups ---------- */

  function QuestionAt(questions: seq<Question>, position: nat): Option<Question> {
    if 1 <= position <= |questions| then Some(questions[position - 1]) else None
  }

  /** The position of a turn's main question; the services fall back to 1 when it is missing. */
  function PositionOf(questions: seq<Question>, root: nat): nat {
    if QuestionAt(questions, root).Some? then root else 1
  }

  function FollowUpsInBranch(turns: seq<Turn>, root: nat): nat {
    if turns == [] then 0
    else FollowUpsInBranch(turns[..|turns| - 1], root)
         + if turns[|turns| - 1].root == root && turns[|turns| - 1].kind == FollowUp then 1 else 0
  }

  /** The turn with the highest sequence number. */
  function LatestTurn(turns: seq<Turn>): (t: Turn)
    requires turns != []
    ensures t in turns && forall i :: 0 <= i < |turns| ==> turns[i].sequenceNo <= t.sequenceNo
  {
    if |turns| == 1 then turns[0]
    else
      var best := LatestTurn(turns[..|turns| - 1]);
      if turns[|turns| - 1].sequenceNo >= best.sequenceNo then turns[|turns| - 1] else best
  }

  /* ---------- opening the next main question ---------- */

  function MainTurn(q: Question, root: nat, sequenceNo: nat): Turn {
    Turn(root, None, sequenceNo, Main, 0, q.text, Open, None, None)
  }

  /** Opens the main question after `position`, or gets ready to finish; one version step. */
  function OpenNextMain(setup: Setup, db: Db, position: nat, lastSequenceNo: nat): Db {
    var s := db.session.(advanceDeadlineAt := None, version := db.session.version + 1);
    match QuestionAt(setup.questions, position + 1)
    case Some(q) =>
      db.(turns := db.turns + [MainTurn(q, position + 1, lastSequenceNo + 1)],
          session := s.(currentTurn := Some(|db.turns|), state := AwaitingAnswer))
    case None =>
      db.(session := s.(currentTurn := None, state := ReadyToFinish))
  }

  /* ---------- start ---------- */

  /** `None` when the interview has no question at position 1; the transaction is then rolled back. */
  function Begin(setup: Setup, durationMs: int, now: Time): Option<Db> {
    match QuestionAt(setup.questions, 1)
    case None => None
    case Some(q) =>
      Some(Db(Session(InProgress, AwaitingAnswer, now + durationMs, None, None, Some(0), 0, 1, None),
              [MainTurn(q, 1, 1)], [], []))
  }

  /* ---------- submit ---------- */

  predicate ValidAnswer(text: string, isSkipped: bool) {
    if isSkipped then text == "" else 0 < |text| <= MAX_ANSWER
  }

  /** `db` already holds the closed turn; the checks come in the order the service makes them. */
  function EvaluateEligibility(interview: Option<Setup>, db: Db, turn: Turn, text: string, isSkipped: bool, now: Time)
    : Eligibility
  {
    if interview.None? then NoCall(InterviewNotFound)
    else if isSkipped || text == "" then NoCall(AnswerSkippedOrEmpty)
    else if db.session.status != InProgress then NoCall(SessionNotInProgress)
    else match QuestionAt(interview.value.questions, turn.root)
      case None => NoCall(RootQuestionNotFound)
      case Some(q) =>
        if !q.allowFollowUp || q.maxFollowUps == 0 then NoCall(FollowUpDisabled)
        else if q.maxFollowUps <= FollowUpsInBranch(db.turns, turn.root) then NoCall(RootBudgetExhausted)
        else if interview.value.maxFollowUpsTotal <= db.session.followUpsUsed then NoCall(SessionBudgetExhausted)
        else if db.session.deadlineAt - now < interview.value.config.minRemainingMs then NoCall(InsufficientTime)
        else MayCall(q)
  }

  function AdvanceDeadline(config: Config, deadlineAt: Time, now: Time): Time {
    var calculated := now + config.timeoutMs + config.graceMs;
    if calculated > deadlineAt then deadlineAt else calculated
  }

  /** The turn is closed and its answer stored; nothing else has happened yet. */
  function RecordAnswer(db: Db, turnId: nat, text: string, isSkipped: bool, now: Time): Db
    requires turnId < |db.turns|
  {
    db.(turns := db.turns[turnId := db.turns[turnId].(status := if isSkipped then Skipped else Answered,
                                                      closedAt := Some(now))],
        answers := db.answers + [Answer(turnId, if isSkipped then None else Some(text), isSkipped, now)])
  }

  function PrepareAdvancing(setup: Setup, db: Db, turnId: nat, q: Question, now: Time): Submitted
    requires turnId < |db.turns|
  {
    var turn := db.turns[turnId];
    var version := db.session.version + 1;
    var s := db.session.(currentTurn := None, state := Advancing, version := version,
                         advanceDeadlineAt := Some(AdvanceDeadline(setup.config, db.session.deadlineAt, now)));
    Submitted(db.(session := s, runs := Start(db.runs)),
              Some(Call(|db.runs|, version, turnId, turn.sequenceNo, turn.root, q.maxFollowUps, setup.maxFollowUpsTotal)))
  }

  /** Transaction 1. Past the deadline the service closes the session and throws, so the close is lost. */
  function SubmitAnswer(setup: Setup, db: Db, turnId: nat, text: string, isSkipped: bool, now: Time)
    : Result<Submitted, SessionError>
  {
    if db.session.status != InProgress then Err(SessionClosed)
    else if now >= db.session.deadlineAt then Err(SessionExpired)
    else if db.session.currentTurn != Some(turnId) || turnId >= |db.turns| then Err(TurnNotCurrent)
    else if db.turns[turnId].status != Open then Err(TurnAlreadyAnswered)
    else if !ValidAnswer(text, isSkipped) then Err(InvalidAnswer)
    else
      var recorded := RecordAnswer(db, turnId, text, isSkipped, now);
      var turn := recorded.turns[turnId];
      match EvaluateEligibility(Some(setup), recorded, turn, text, isSkipped, now)
      case MayCall(q) => Ok(PrepareAdvancing(setup, recorded, turnId, q, now))
      case NoCall(_) => Ok(Submitted(OpenNextMain(setup, recorded, PositionOf(setup.questions, turn.root), turn.sequenceNo), None))
  }

  /* ---------- transaction 2 and its competitors ---------- */

  /** The fence every late result meets. */
  predicate GuardPasses(db: Db, call: Call) {
    db.session.status == InProgress && db.session.state == Advancing && db.session.version == call.expectedVersion
  }

  function FollowUpTurn(call: Call, index: nat, text: string): Turn {
    Turn(call.rootPosition, Some(call.parentTurn), call.lastSequenceNo + 1, FollowUp, index, text, Open, None,
         Some(call.run))
  }

  function ApplyAiResult(setup: Setup, db: Db, call: Call, ask: bool, question: string, now: Time): Db {
    if !GuardPasses(db, call) || (db.session.advanceDeadlineAt.Some? && now >= db.session.advanceDeadlineAt.value) then
      db.(runs := Supersede(db.runs, call.run, now))
    else
      var inBranch := FollowUpsInBranch(db.turns, call.rootPosition);
      if ask && question != "" && inBranch < call.rootMaxFollowUps && db.session.followUpsUsed < call.maxFollowUpsTotal then
        Db(db.session.(currentTurn := Some(|db.turns|), state := AwaitingAnswer, advanceDeadlineAt := None,
                       followUpsUsed := db.session.followUpsUsed + 1, version := db.session.version + 1),
           db.turns + [FollowUpTurn(call, inBranch + 1, question)],
           db.answers,
           Succeed(db.runs, call.run, now))
      else
        var next := OpenNextMain(setup, db, call.rootPosition, call.lastSequenceNo);
        next.(runs := Succeed(next.runs, call.run, now))
  }

  function ApplyFallback(setup: Setup, db: Db, call: Call, code: string, now: Time): Db {
    if !GuardPasses(db, call) then
      db.(runs := Supersede(db.runs, call.run, now))
    else
      var next := OpenNextMain(setup, db, call.rootPosition, call.lastSequenceNo);
      next.(runs := Fail(next.runs, call.run, code, now))
  }

  /** What arrives from outside, whenever it arrives. */
  function Deliver(setup: Setup, db: Db, call: Call, outcome: Outcome, now: Time): Db {
    match outcome
    case CallFailed(code) => ApplyFallback(setup, db, call, code, now)
    case Rejected(code) => ApplyFallback(setup, db, call, code, now)
    case Proposed(ask, question) => ApplyAiResult(setup, db, call, ask, question, now)
  }

  /* ---------- recovery, deadline, finish, cancel ---------- */

  predicate IsStale(db: Db, now: Time) {
    && db.session.status == InProgress && db.session.state == Advancing
    && db.session.advanceDeadlineAt.Some? && now >= db.session.advanceDeadlineAt.value
  }

  function RecoverStaleAdvancing(setup: Setup, db: Db, now: Time): Db {
    var settled := db.(runs := FailActive(db.runs, RECOVERED, now));
    if settled.turns == [] then
      settled.(session := settled.session.(state := ReadyToFinish, currentTurn := None, advanceDeadlineAt := None,
                                 version := settled.session.version + 1))
    else
      var last := LatestTurn(settled.turns);
      OpenNextMain(setup, settled, PositionOf(setup.questions, last.root), last.sequenceNo)
  }

  /** The second half of a `GET`: recovery, checked again under the lock. */
  function RecoverIfStale(setup: Setup, db: Db, now: Time): Db {
    if IsStale(db, now) then RecoverStaleAdvancing(setup, db, now) else db
  }

  function EndStatus(reason: EndReason): SessionStatus {
    match reason
    case DeadlineReached => Expired
    case HrCancelled => Cancelled
    case _ => Completed
  }

  /** Turn and session part of `closeSession`; `advanceDeadlineAt` and the runs are left as they are. */
  function Close(db: Db, reason: EndReason, now: Time): Db {
    var turns :=
      if db.session.currentTurn.Some? && db.session.currentTurn.value < |db.turns|
         && db.turns[db.session.currentTurn.value].status == Open
      then db.turns[db.session.currentTurn.value :=
             db.turns[db.session.currentTurn.value].(status := ClosedUnanswered, closedAt := Some(now))]
      else db.turns;
    db.(turns := turns,
        session := db.session.(status := EndStatus(reason), state := Closed, endedAt := Some(now),
                               endReason := Some(reason), currentTurn := None, version := db.session.version + 1))
  }

  /** The first half of a `GET`: the deadline sweep. */
  function SweepDeadline(db: Db, now: Time): Db {
    if db.session.status == InProgress && now >= db.session.deadlineAt then Close(db, DeadlineReached, now) else db
  }

  /** One uninterrupted `GET`. */
  function Poll(setup: Setup, db: Db, now: Time): Db {
    RecoverIfStale(setup, SweepDeadline(db, now), now)
  }

  function Finish(db: Db, confirmEarlyFinish: bool, now: Time): Result<Db, SessionError> {
    if db.session.status != InProgress then Err(SessionClosed)
    else if now >= db.session.deadlineAt then Err(SessionExpired)
    else if db.session.state != ReadyToFinish && !confirmEarlyFinish then Err(ConfirmationRequired)
    else Ok(Close(db, if db.session.state != ReadyToFinish then SubmittedEarly else AllQuestionsAnswered, now))
  }

  /** Revoke and withdraw close a running session the same way. */
  function CancelByHr(db: Db, now: Time): Db {
    if db.session.status == InProgress then Close(db, HrCancelled, now) else db
  }

  /* ---------- the session as a system ---------- */

  /**
   * The rows together with every external call ever issued. A call is never removed: its result
   * may be delivered late, reordered, several times, or never.
   */
  datatype System = System(db: Db, calls: seq<Call>)

  datatype Event =
    | SubmitEv(turnId: nat, text: string, isSkipped: bool, now: Time)
    | DeliverEv(call: nat, outcome: Outcome, now: Time)
    | RecoverEv(now: Time)
    | SweepEv(now: Time)
    | FinishEv(confirm: bool, now: Time)
    | CancelEv(now: Time)

  function Step(setup: Setup, s: System, e: Event): System {
    match e
    case SubmitEv(turnId, text, isSkipped, now) => (
      match SubmitAnswer(setup, s.db, turnId, text, isSkipped, now)
      case Err(_) => s
      case Ok(r) => System(r.db, if r.call.Some? then s.calls + [r.call.value] else s.calls))
    case DeliverEv(call, outcome, now) =>
      if call < |s.calls| then s.(db := Deliver(setup, s.db, s.calls[call], outcome, now)) else s
    case RecoverEv(now) => s.(db := RecoverIfStale(setup, s.db, now))
    case SweepEv(now) => s.(db := SweepDeadline(s.db, now))
    case FinishEv(confirm, now) => (
      match Finish(s.db, confirm, now)
      case Err(_) => s
      case Ok(db) => s.(db := db))
    case CancelEv(now) => s.(db := CancelByHr(s.db, now))
  }

  /** Every interleaving is a list of events. */
  function Run(setup: Setup, s: System, events: seq<Event>): System
    decreases |events|
  {
    if events == [] then s else Run(setup, Step(setup, s, events[0]), events[1..])
  }
}
