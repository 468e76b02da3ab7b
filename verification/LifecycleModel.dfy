/**
 * One application with its interviews, invitations, credentials, sessions and decision, and the
 * transactions that move them together. A transaction that throws is an `Err` and stores nothing.
 */
module LifecycleModel {
  import opened Base
  import S = SessionModel
  import CurrentCv

  datatype AppStatus = Shortlisted | Interviewing | UnderReview | Approved | Rejected | Withdrawn
  datatype InterviewStatus = Invited | InProgress | Completed | Expired | Cancelled

  /** Its id is its index in the interview's table. */
  datatype Invitation = Invitation(version: nat, expiresAt: Time, revokedAt: Option<Time>)
  datatype Credential = Credential(invitation: nat, expiresAt: Time, revokedAt: Option<Time>)

  datatype Interview = Interview(status: InterviewStatus, version: nat, invitationVersion: nat,
                                 invitationExpiresAt: Time, durationMinutes: nat, setup: S.Setup,
                                 invitations: seq<Invitation>, credentials: seq<Credential>,
                                 session: Option<S.System>)

  datatype DecisionOutcome = Approve | Reject
  datatype Decision = Decision(outcome: DecisionOutcome, basisInterview: nat, basisReview: nat)

  datatype Stage = HasRead | HasWritten | HasSaved

  /**
   * What a request outside a transaction has read, and how far it has come: an exchange writes a
   * credential once and then saves the invitation it read once, a lobby visit saves the credential
   * it read once. A request that dies on the way just takes no further step.
   */
  datatype Ticket =
    | Exchange(interview: nat, invitation: nat, cookieExpiresAt: Time, stage: Stage)
    | Lobby(interview: nat, invitation: nat, credential: nat, expiresAt: Time, saved: bool)

  /** `cvDeleted` has one entry per CV ever uploaded. */
  datatype World = World(status: AppStatus, version: nat, interviews: seq<Interview>, decisions: seq<Decision>,
                         tickets: seq<Ticket>, cvDeleted: seq<bool>, currentCv: Option<nat>)

  datatype LifecycleError =
    | InvalidExpiry | InvalidDuration | StateConflict | VersionConflict | JobNotOpen | NoEmail
    | InterviewAlreadyOpen | QuestionSetNotFound | QuestionSetForeign | QuestionSetNotApproved | QuestionSetStale
    | QuestionSetEmpty | InterviewNotFound | NotRevocable | CvNotFound | CvNumberTaken
    | AlreadyStarted | InvitationUnavailable | SessionNotStarted | NotDue | AlreadyDecided | Terminal
    | NotUnderReview | BasisNotFound | BasisNotTerminal | ReviewNotFound | ReviewNotLatest
    | RuntimeError(error: S.SessionError)

  type Outcome = Result<World, LifecycleError>

  /** The rows `createInterview` looks up; a deleted job or set counts as absent. */
  datatype JobRow = JobRow(isOpen: bool, version: nat)
  datatype SetRow = SetRow(ofApplication: bool, approved: bool, cv: nat, cvProfileVersion: nat, jobVersion: nat)
  datatype ProfileRow = ProfileRow(approved: bool, profileVersion: nat)

  /** `profile` is the current CV's; `items` are the question set's, in order of position. */
  datatype CreateInput = CreateInput(expiresAt: Time, durationMinutes: nat, expectedVersion: nat, job: Option<JobRow>,
                                     candidateHasEmail: bool, questionSet: Option<SetRow>, profile: Option<ProfileRow>,
                                     items: seq<S.Question>, maxFollowUpsTotal: nat, config: S.Config)

  /** An evaluation row; a session is known by its interview. */
  datatype Review = Review(interview: nat, session: nat, isHrReview: bool, revision: nat)

  /** What a decision names as its basis: an interview, its session, and a review among those stored. */
  datatype Basis = Basis(interview: nat, session: nat, review: nat, reviews: seq<Review>)

  const MINUTE := 60000
  const DAY := 24 * 60 * MINUTE

  predicate IsOpen(iv: Interview) {
    iv.status == Invited || iv.status == InProgress
  }

  predicate IsTerminal(status: AppStatus) {
    status == Approved || status == Rejected || status == Withdrawn
  }

  predicate HasOpen(interviews: seq<Interview>) {
    exists i :: 0 <= i < |interviews| && IsOpen(interviews[i])
  }

  predicate ExpiryInRange(expiresAt: Time, now: Time) {
    now + DAY - MINUTE <= expiresAt <= now + 14 * DAY + MINUTE
  }

  function SetInterview(w: World, i: nat, iv: Interview): World
    requires i < |w.interviews|
  {
    w.(interviews := w.interviews[i := iv])
  }

  /* ---------- invitations ---------- */

  function Revoked(revokedAt: Option<Time>, now: Time): Option<Time> {
    if revokedAt.None? then Some(now) else revokedAt
  }

  predicate InvitationLive(iv: Interview, j: nat) {
    j < |iv.invitations| && iv.invitations[j].revokedAt.None?
  }

  /** Every live invitation is revoked, and with it its own live credentials; the others are not looked at. */
  function RevokeAll(iv: Interview, now: Time): Interview {
    iv.(invitations := seq(|iv.invitations|, j requires 0 <= j < |iv.invitations| =>
          iv.invitations[j].(revokedAt := Revoked(iv.invitations[j].revokedAt, now))),
        credentials := seq(|iv.credentials|, c requires 0 <= c < |iv.credentials| =>
          if InvitationLive(iv, iv.credentials[c].invitation)
          then iv.credentials[c].(revokedAt := Revoked(iv.credentials[c].revokedAt, now))
          else iv.credentials[c]))
  }

  /** Cancelling by HR, whether through revoke or withdraw. */
  function CancelInterview(iv: Interview, now: Time): Interview {
    RevokeAll(iv, now).(status := Cancelled, version := iv.version + 1, invitationVersion := iv.invitationVersion + 1,
      session := if iv.session.Some?
                 then Some(iv.session.value.(db := S.CancelByHr(iv.session.value.db, now))) else None)
  }

  /* ---------- creating and starting ---------- */

  function InterviewQuestion(item: S.Question): S.Question {
    item.(maxFollowUps := if item.allowFollowUp then item.maxFollowUps else 0)
  }

  function NewInterview(input: CreateInput): Interview {
    Interview(Invited, 1, 1, input.expiresAt, input.durationMinutes,
              S.Setup(seq(|input.items|, k requires 0 <= k < |input.items| => InterviewQuestion(input.items[k])),
                      input.maxFollowUpsTotal, input.config),
              [Invitation(1, input.expiresAt, None)], [], None)
  }

  /** The question set must be approved and made from the current CV's approved profile and the job as it is. */
  function CheckSet(w: World, input: CreateInput): Option<LifecycleError>
    requires input.job.Some?
  {
    if input.questionSet.None? then Some(QuestionSetNotFound)
    else
      var qs := input.questionSet.value;
      if !qs.ofApplication then Some(QuestionSetForeign)
      else if !qs.approved then Some(QuestionSetNotApproved)
      else if w.currentCv != Some(qs.cv) then Some(QuestionSetStale)
      else if qs.cv >= |w.cvDeleted| || w.cvDeleted[qs.cv] || input.profile.None? then Some(QuestionSetStale)
      else if !input.profile.value.approved || input.profile.value.profileVersion != qs.cvProfileVersion
        then Some(QuestionSetStale)
      else if input.job.value.version != qs.jobVersion then Some(QuestionSetStale)
      else None
  }

  function CreateInterview(w: World, input: CreateInput, now: Time): Outcome {
    if !ExpiryInRange(input.expiresAt, now) then Err(InvalidExpiry)
    else if input.durationMinutes < 10 || input.durationMinutes > 90 then Err(InvalidDuration)
    else if w.status != Shortlisted then Err(StateConflict)
    else if w.version != input.expectedVersion then Err(VersionConflict)
    else if input.job.None? || !input.job.value.isOpen then Err(JobNotOpen)
    else if !input.candidateHasEmail then Err(NoEmail)
    else if HasOpen(w.interviews) then Err(InterviewAlreadyOpen)
    else if CheckSet(w, input).Some? then Err(CheckSet(w, input).value)
    else if |input.items| < 1 || |input.items| > 12 then Err(QuestionSetEmpty)
    else Ok(w.(interviews := w.interviews + [NewInterview(input)], status := Interviewing, version := w.version + 1))
  }

  /** The candidate's cookie is made to outlive the session by half an hour. */
  function ExtendCredential(credentials: seq<Credential>, c: nat, deadlineAt: Time): seq<Credential> {
    if c < |credentials| && credentials[c].expiresAt < deadlineAt + 30 * MINUTE
    then credentials[c := credentials[c].(expiresAt := deadlineAt + 30 * MINUTE)]
    else credentials
  }

  /** A late start writes an expiry and then throws, so nothing of it remains. */
  function StartInterview(w: World, i: nat, credential: nat, now: Time): Outcome {
    if i >= |w.interviews| then Err(InterviewNotFound)
    else
      var iv := w.interviews[i];
      if iv.session.Some? then Ok(w)
      else if iv.status != Invited then Err(AlreadyStarted)
      else if now > iv.invitationExpiresAt then Err(InvitationUnavailable)
      else match S.Begin(iv.setup, iv.durationMinutes * MINUTE, now)
        case None => Err(QuestionSetEmpty)
        case Some(db) =>
          Ok(SetInterview(w, i, iv.(session := Some(S.System(db, [])), status := InProgress, version := iv.version + 1,
            credentials := ExtendCredential(iv.credentials, credential, db.session.deadlineAt))))
  }

  /* ---------- the running session ---------- */

  /** Answers, results and recovery: only the session's own rows change. */
  function SessionStep(w: World, i: nat, e: S.Event): Outcome {
    if i >= |w.interviews| || w.interviews[i].session.None? then Err(SessionNotStarted)
    else if e.FinishEv? || e.SweepEv? || e.CancelEv? then Err(StateConflict)
    else Ok(SetInterview(w, i,
           w.interviews[i].(session := Some(S.Step(w.interviews[i].setup, w.interviews[i].session.value, e)))))
  }

  function InterviewEnd(reason: S.EndReason): InterviewStatus {
    match reason
    case DeadlineReached => Expired
    case HrCancelled => Cancelled
    case _ => Completed
  }

  /** The joint close; the application's present status is not looked at. */
  function CloseSession(w: World, i: nat, reason: S.EndReason, now: Time): World
    requires i < |w.interviews| && w.interviews[i].session.Some?
  {
    var iv := w.interviews[i];
    SetInterview(w, i, iv.(session := Some(iv.session.value.(db := S.Close(iv.session.value.db, reason, now))),
                           status := InterviewEnd(reason), version := iv.version + 1))
    .(status := UnderReview, version := w.version + 1)
  }

  function SweepDeadline(w: World, i: nat, now: Time): Outcome {
    if i >= |w.interviews| || w.interviews[i].session.None? then Err(SessionNotStarted)
    else
      var s := w.interviews[i].session.value.db.session;
      if s.status == S.InProgress && now >= s.deadlineAt then Ok(CloseSession(w, i, S.DeadlineReached, now)) else Err(NotDue)
  }

  function FinishSession(w: World, i: nat, confirmEarlyFinish: bool, now: Time): Outcome {
    if i >= |w.interviews| || w.interviews[i].session.None? then Err(SessionNotStarted)
    else match S.Finish(w.interviews[i].session.value.db, confirmEarlyFinish, now)
      case Err(e) => Err(RuntimeError(e))
      case Ok(db) => Ok(CloseSession(w, i, db.session.endReason.value, now))
  }

  /* ---------- ending it otherwise ---------- */

  function ExpireInterview(w: World, i: nat, now: Time): Outcome {
    if i >= |w.interviews| || w.interviews[i].status != Invited then Err(NotDue)
    else if w.interviews[i].invitationExpiresAt > now then Err(NotDue)
    else
      var iv := w.interviews[i];
      var w' := SetInterview(w, i, RevokeAll(iv, now).(status := Expired, version := iv.version + 1));
      Ok(if w.status == Interviewing then w'.(status := Shortlisted, version := w.version + 1) else w')
  }

  function Revoke(w: World, i: nat, expectedVersion: nat, now: Time): Outcome {
    if i >= |w.interviews| then Err(InterviewNotFound)
    else
      var iv := w.interviews[i];
      if !IsOpen(iv) then Err(NotRevocable)
      else if iv.version != expectedVersion then Err(VersionConflict)
      else
        var w' := SetInterview(w, i, CancelInterview(iv, now));
        Ok(if w.status == Interviewing
           then w'.(status := if iv.status == Invited then Shortlisted else UnderReview, version := w.version + 1)
           else w')
  }

  /** `hasEmail` is looked up last: without it everything is rolled back. */
  function ResendInvitation(w: World, i: nat, expectedVersion: nat, newExpiry: Option<Time>, hasEmail: bool, now: Time)
    : Outcome
  {
    if i >= |w.interviews| then Err(InterviewNotFound)
    else
      var iv := w.interviews[i];
      if iv.status != Invited then Err(NotRevocable)
      else if iv.invitationExpiresAt < now then Err(InvalidExpiry)
      else if iv.version != expectedVersion then Err(VersionConflict)
      else if newExpiry.Some? && !ExpiryInRange(newExpiry.value, now) then Err(InvalidExpiry)
      else if !hasEmail then Err(NoEmail)
      else
        var expiry := if newExpiry.Some? then newExpiry.value else iv.invitationExpiresAt;
        var revoked := RevokeAll(iv, now);
        Ok(SetInterview(w, i, revoked.(invitationExpiresAt := expiry, version := iv.version + 1,
          invitationVersion := iv.invitationVersion + 1,
          invitations := revoked.invitations + [Invitation(iv.invitationVersion + 1, expiry, None)])))
  }

  /** Every open interview, however many there are. */
  function CancelOpen(interviews: seq<Interview>, now: Time): (r: seq<Interview>)
    ensures |r| == |interviews|
  {
    seq(|interviews|, i requires 0 <= i < |interviews| =>
      if IsOpen(interviews[i]) then CancelInterview(interviews[i], now) else interviews[i])
  }

  function Withdraw(w: World, expectedVersion: nat, now: Time): Outcome {
    if w.version != expectedVersion then Err(VersionConflict)
    else if w.status == Withdrawn then Ok(w)
    else if w.status == Approved || w.status == Rejected then Err(StateConflict)
    else Ok(w.(interviews := CancelOpen(w.interviews, now), status := Withdrawn, version := w.version + 1))
  }

  function UpdateNotes(w: World, expectedVersion: nat): Outcome {
    if IsTerminal(w.status) then Err(Terminal)
    else if w.version != expectedVersion then Err(VersionConflict)
    else Ok(w.(version := w.version + 1))
  }

  /** The stored HR review of an interview with the highest revision. */
  function LatestHrReview(reviews: seq<Review>, interview: nat): (r: Option<nat>)
    ensures r.Some? ==> r.value < |reviews| && reviews[r.value].isHrReview && reviews[r.value].interview == interview
    ensures forall k :: 0 <= k < |reviews| && reviews[k].isHrReview && reviews[k].interview == interview ==>
      r.Some? && reviews[k].revision <= reviews[r.value].revision
  {
    if reviews == [] then None
    else
      var n := |reviews| - 1;
      var best := LatestHrReview(reviews[..n], interview);
      if reviews[n].isHrReview && reviews[n].interview == interview
         && (best.None? || reviews[best.value].revision <= reviews[n].revision)
      then Some(n) else best
  }

  predicate ReviewFound(basis: Basis) {
    && basis.review < |basis.reviews|
    && var r := basis.reviews[basis.review];
       r.isHrReview && r.interview == basis.interview && r.session == basis.session
  }

  function Decide(w: World, outcome: DecisionOutcome, expectedVersion: nat, basis: Basis): Outcome {
    if w.version != expectedVersion then Err(VersionConflict)
    else if w.decisions != [] then Err(AlreadyDecided)
    else if IsTerminal(w.status) then Err(Terminal)
    else if w.status != UnderReview then Err(NotUnderReview)
    else if HasOpen(w.interviews) then Err(InterviewAlreadyOpen)
    else if basis.interview >= |w.interviews| then Err(BasisNotFound)
    else
      var session := w.interviews[basis.interview].session;
      if basis.session != basis.interview || session.None? || session.value.db.session.status == S.InProgress
        then Err(BasisNotTerminal)
      else if !ReviewFound(basis) then Err(ReviewNotFound)
      else if LatestHrReview(basis.reviews, basis.interview) != Some(basis.review) then Err(ReviewNotLatest)
      else Ok(w.(decisions := w.decisions + [Decision(outcome, basis.interview, basis.review)],
                 status := if outcome == Approve then Approved else Rejected, version := w.version + 1))
  }

  /* ---------- the application's CVs ---------- */

  /** A CV's number is its place, so the next one may be in use once the newest CV is deleted. */
  function UploadCv(w: World, seesDeleted: bool): Outcome {
    var numbers := CurrentCv.Places(|w.cvDeleted|);
    if w.status != Shortlisted then Err(StateConflict)
    else if CurrentCv.HighestSeen(numbers, w.cvDeleted, seesDeleted) + 1 in numbers then Err(CvNumberTaken)
    else Ok(w.(cvDeleted := w.cvDeleted + [false], currentCv := Some(|w.cvDeleted|), version := w.version + 1))
  }

  /** Deleting looks at no status; if the CV was the current one the application row is written. */
  function RemoveCv(w: World, i: nat): Outcome {
    if i >= |w.cvDeleted| || w.cvDeleted[i] then Err(CvNotFound)
    else
      var deleted := w.cvDeleted[i := true];
      Ok(if w.currentCv == Some(i)
         then w.(cvDeleted := deleted, currentCv := CurrentCv.NewestActive(deleted), version := w.version + 1)
         else w.(cvDeleted := deleted))
  }

  /* ---------- requests outside transactions ---------- */

  function Later(a: Time, b: Time): Time {
    if a < b then b else a
  }

  /** Reading for an exchange; an expired invitation additionally triggers `ExpireInterview` as its own step. */
  function ReadForExchange(w: World, i: nat, j: nat, now: Time): Outcome {
    if i >= |w.interviews| || j >= |w.interviews[i].invitations| then Err(InvitationUnavailable)
    else
      var iv, inv := w.interviews[i], w.interviews[i].invitations[j];
      if inv.revokedAt.Some? || inv.expiresAt < now || inv.version != iv.invitationVersion || !IsOpen(iv)
      then Err(InvitationUnavailable)
      else Ok(w.(tickets := w.tickets + [Exchange(i, j,
             if iv.status == InProgress then Later(inv.expiresAt, now + DAY) else inv.expiresAt, HasRead)]))
  }

  /** What a cookie must satisfy to be let in. */
  predicate Accepts(iv: Interview, c: nat, now: Time) {
    && c < |iv.credentials|
    && var cred := iv.credentials[c];
       && cred.revokedAt.None? && !(cred.expiresAt < now)
       && InvitationLive(iv, cred.invitation)
       && iv.invitations[cred.invitation].version == iv.invitationVersion
  }

  function ReadForLobby(w: World, i: nat, c: nat, now: Time): Outcome {
    if i >= |w.interviews| || !Accepts(w.interviews[i], c, now) then Err(InvitationUnavailable)
    else
      var iv := w.interviews[i];
      var cred := iv.credentials[c];
      if iv.invitations[cred.invitation].expiresAt < now || !IsOpen(iv) then Err(InvitationUnavailable)
      else Ok(w.(tickets := w.tickets + [Lobby(i, cred.invitation, c, cred.expiresAt, false)]))
  }

  predicate CanWrite(ticket: Ticket) {
    ticket.Exchange? && ticket.stage == HasRead
  }

  predicate CanSave(ticket: Ticket) {
    match ticket
    case Exchange(_, _, _, stage) => stage == HasWritten
    case Lobby(_, _, _, _, saved) => !saved
  }

  function WriteCredential(w: World, t: nat): World {
    if t < |w.tickets| && CanWrite(w.tickets[t]) && w.tickets[t].interview < |w.interviews| then
      var ticket := w.tickets[t];
      var iv := w.interviews[ticket.interview];
      SetInterview(w, ticket.interview,
        iv.(credentials := iv.credentials + [Credential(ticket.invitation, ticket.cookieExpiresAt, None)]))
      .(tickets := w.tickets[t := ticket.(stage := HasWritten)])
    else w
  }

  /** Saving an entity writes every column that differs from the row, so `revokedAt` goes back to what was read. */
  function SavedInterview(iv: Interview, ticket: Ticket): Interview {
    match ticket
    case Exchange(_, j, _, _) =>
      if j < |iv.invitations| then iv.(invitations := iv.invitations[j := iv.invitations[j].(revokedAt := None)]) else iv
    case Lobby(_, _, c, expiresAt, _) =>
      if c < |iv.credentials|
      then iv.(credentials := iv.credentials[c := iv.credentials[c].(revokedAt := None, expiresAt := expiresAt)])
      else iv
  }

  function Finished(ticket: Ticket): Ticket {
    match ticket
    case Exchange(_, _, _, _) => ticket.(stage := HasSaved)
    case Lobby(_, _, _, _, _) => ticket.(saved := true)
  }

  /** The last thing a request does. */
  function SaveRead(w: World, t: nat): World {
    if t < |w.tickets| && CanSave(w.tickets[t]) && w.tickets[t].interview < |w.interviews| then
      var ticket := w.tickets[t];
      SetInterview(w, ticket.interview, SavedInterview(w.interviews[ticket.interview], ticket))
      .(tickets := w.tickets[t := Finished(ticket)])
    else w
  }

  /* ---------- the application as a system ---------- */

  datatype Event =
    | CreateEv(input: CreateInput, now: Time)
    | StartEv(i: nat, credential: nat, now: Time)
    | SessionEv(i: nat, e: S.Event)
    | SweepEv(i: nat, now: Time)
    | FinishEv(i: nat, confirm: bool, now: Time)
    | ExpireEv(i: nat, now: Time)
    | RevokeEv(i: nat, expectedVersion: nat, now: Time)
    | ResendEv(i: nat, expectedVersion: nat, newExpiry: Option<Time>, hasEmail: bool, now: Time)
    | WithdrawEv(expectedVersion: nat, now: Time)
    | NotesEv(expectedVersion: nat)
    | DecideEv(outcome: DecisionOutcome, expectedVersion: nat, basis: Basis)
    | UploadCvEv(seesDeleted: bool)
    | RemoveCvEv(cv: nat)
    | ReadExchangeEv(i: nat, j: nat, now: Time)
    | ReadLobbyEv(i: nat, c: nat, now: Time)
    | WriteCredentialEv(ticket: nat)
    | SaveReadEv(ticket: nat)

  function Attempt(w: World, e: Event): Outcome {
    match e
    case CreateEv(input, now) => CreateInterview(w, input, now)
    case StartEv(i, credential, now) => StartInterview(w, i, credential, now)
    case SessionEv(i, ev) => SessionStep(w, i, ev)
    case SweepEv(i, now) => SweepDeadline(w, i, now)
    case FinishEv(i, confirm, now) => FinishSession(w, i, confirm, now)
    case ExpireEv(i, now) => ExpireInterview(w, i, now)
    case RevokeEv(i, expectedVersion, now) => Revoke(w, i, expectedVersion, now)
    case ResendEv(i, expectedVersion, newExpiry, hasEmail, now) =>
      ResendInvitation(w, i, expectedVersion, newExpiry, hasEmail, now)
    case WithdrawEv(expectedVersion, now) => Withdraw(w, expectedVersion, now)
    case NotesEv(expectedVersion) => UpdateNotes(w, expectedVersion)
    case DecideEv(outcome, expectedVersion, basis) => Decide(w, outcome, expectedVersion, basis)
    case UploadCvEv(seesDeleted) => UploadCv(w, seesDeleted)
    case RemoveCvEv(cv) => RemoveCv(w, cv)
    case ReadExchangeEv(i, j, now) => ReadForExchange(w, i, j, now)
    case ReadLobbyEv(i, c, now) => ReadForLobby(w, i, c, now)
    case WriteCredentialEv(t) => Ok(WriteCredential(w, t))
    case SaveReadEv(t) => Ok(SaveRead(w, t))
  }

  function Step(w: World, e: Event): World {
    match Attempt(w, e)
    case Ok(w') => w'
    case Err(_) => w
  }

  function Run(w: World, events: seq<Event>): World
    decreases |events|
  {
    if events == [] then w else Run(Step(w, events[0]), events[1..])
  }

  /** A fresh application. */
  function NewApplication(): World {
    World(Shortlisted, 1, [], [], [], [], None)
  }
}
