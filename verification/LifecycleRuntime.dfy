/**
 * The interview and application services in the form they have: rows updated in place, one after
 * the other, each method proved against the transaction it implements in `LifecycleModel`.
 */
module LifecycleRuntime {
  import opened Base
  import opened LifecycleModel
  import S = SessionModel
  import CurrentCv

  type Reply = Result<(), LifecycleError>

  /** Success leaves the rows the transaction describes; an exception leaves them as they were. */
  predicate Follows(outcome: Outcome, before: World, after: World, r: Reply) {
    match outcome
    case Ok(w) => r == Ok(()) && after == w
    case Err(e) => r == Err(e) && after == before
  }

  predicate IsLiveOf(c: Credential, invitation: nat) {
    c.invitation == invitation && c.revokedAt.None?
  }

  class ApplicationRows {
    var status: AppStatus
    var version: nat
    var interviews: seq<Interview>
    var decisions: seq<Decision>
    var tickets: seq<Ticket>
    var cvDeleted: seq<bool>
    var currentCv: Option<nat>

    /** The rows as a value. */
    function Rows(): World
      reads this
    {
      World(status, version, interviews, decisions, tickets, cvDeleted, currentCv)
    }

    constructor ()
      ensures Rows() == NewApplication()
    {
      status, version, interviews, decisions, tickets := Shortlisted, 1, [], [], [];
      cvDeleted, currentCv := [], None;
    }

    method Rollback(saved: World)
      modifies this
      ensures Rows() == saved
    {
      status, version, interviews, decisions, tickets :=
        saved.status, saved.version, saved.interviews, saved.decisions, saved.tickets;
      cvDeleted, currentCv := saved.cvDeleted, saved.currentCv;
    }

    /** The ids of the interviews still open, in the order of the table. */
    method OpenInterviews() returns (ids: seq<nat>)
      ensures forall k :: 0 <= k < |ids| ==> ids[k] < |interviews| && IsOpen(interviews[ids[k]])
      ensures forall i :: 0 <= i < |interviews| && IsOpen(interviews[i]) ==> i in ids
      ensures forall j, k :: 0 <= j < k < |ids| ==> ids[j] < ids[k]
      ensures HasOpen(interviews) <==> ids != []
    {
      ids := [];
      for i := 0 to |interviews|
        invariant forall k :: 0 <= k < |ids| ==> ids[k] < i && IsOpen(interviews[ids[k]])
        invariant forall j :: 0 <= j < i && IsOpen(interviews[j]) ==> j in ids
        invariant forall j, k :: 0 <= j < k < |ids| ==> ids[j] < ids[k]
      {
        if interviews[i].status == Invited || interviews[i].status == InProgress {
          ids := ids + [i];
        }
      }
      assert ids != [] ==> IsOpen(interviews[ids[0]]);
    }

    method CreateInterview(input: CreateInput, now: Time) returns (r: Reply)
      modifies this
      ensures Follows(LifecycleModel.CreateInterview(old(Rows()), input, now), old(Rows()), Rows(), r)
    {
      var minExpiry, maxExpiry := now + DAY - MINUTE, now + 14 * DAY + MINUTE;
      if input.expiresAt < minExpiry || input.expiresAt > maxExpiry { return Err(InvalidExpiry); }
      if input.durationMinutes < 10 || input.durationMinutes > 90 { return Err(InvalidDuration); }
      if status != Shortlisted { return Err(StateConflict); }
      if version != input.expectedVersion { return Err(VersionConflict); }
      if input.job.None? || !input.job.value.isOpen { return Err(JobNotOpen); }
      if !input.candidateHasEmail { return Err(NoEmail); }
      var openIds := OpenInterviews();
      if openIds != [] { return Err(InterviewAlreadyOpen); }
      if input.questionSet.None? { return Err(QuestionSetNotFound); }
      var questionSet := input.questionSet.value;
      if !questionSet.ofApplication { return Err(QuestionSetForeign); }
      if !questionSet.approved { return Err(QuestionSetNotApproved); }
      if currentCv.None? || currentCv.value != questionSet.cv { return Err(QuestionSetStale); }
      if questionSet.cv >= |cvDeleted| || cvDeleted[questionSet.cv] || input.profile.None?
         || !input.profile.value.approved || input.profile.value.profileVersion != questionSet.cvProfileVersion {
        return Err(QuestionSetStale);
      }
      if input.job.value.version != questionSet.jobVersion { return Err(QuestionSetStale); }
      if |input.items| < 1 || |input.items| > 12 { return Err(QuestionSetEmpty); }
      var questions := CopyQuestions(input.items);
      var invitation := Invitation(1, input.expiresAt, None);
      var interview := Interview(Invited, 1, 1, input.expiresAt, input.durationMinutes,
                                 S.Setup(questions, input.maxFollowUpsTotal, input.config), [invitation], [], None);
      assert interview == NewInterview(input);
      interviews := interviews + [interview];
      status := Interviewing;
      version := version + 1;
      return Ok(());
    }

    /** One interview question for each item of the set. */
    method CopyQuestions(items: seq<S.Question>) returns (questions: seq<S.Question>)
      ensures |questions| == |items|
      ensures forall k :: 0 <= k < |items| ==> questions[k] == InterviewQuestion(items[k])
    {
      questions := [];
      for k := 0 to |items|
        invariant |questions| == k
        invariant forall j :: 0 <= j < k ==> questions[j] == InterviewQuestion(items[j])
      {
        var item := items[k];
        questions := questions
          + [S.Question(item.text, item.allowFollowUp, if item.allowFollowUp then item.maxFollowUps else 0)];
      }
    }

    method StartInterview(i: nat, credential: nat, now: Time) returns (r: Reply)
      modifies this
      ensures Follows(LifecycleModel.StartInterview(old(Rows()), i, credential, now), old(Rows()), Rows(), r)
    {
      if i >= |interviews| { return Err(InterviewNotFound); }
      var iv := interviews[i];
      if iv.session.Some? { return Ok(()); }
      if iv.status != Invited { return Err(AlreadyStarted); }
      if now > iv.invitationExpiresAt {
        var saved := Rows();
        interviews := interviews[i := iv.(status := Expired, version := iv.version + 1)];
        if status == Interviewing {
          status := Shortlisted;
          version := version + 1;
        }
        Rollback(saved);
        return Err(InvitationUnavailable);
      }
      var begun := S.Begin(iv.setup, iv.durationMinutes * MINUTE, now);
      if begun.None? { return Err(QuestionSetEmpty); }
      var deadlineAt := now + iv.durationMinutes * MINUTE;
      iv := iv.(session := Some(S.System(begun.value, [])));
      iv := iv.(status := InProgress, version := iv.version + 1);
      var graceExpiresAt := deadlineAt + 30 * MINUTE;
      if credential < |iv.credentials| && iv.credentials[credential].expiresAt < graceExpiresAt {
        iv := iv.(credentials := iv.credentials[credential := iv.credentials[credential].(expiresAt := graceExpiresAt)]);
      }
      interviews := interviews[i := iv];
      return Ok(());
    }

    /** Session, interview and application, in this order; nothing is checked. */
    method CloseSession(i: nat, reason: S.EndReason, now: Time)
      requires i < |interviews| && interviews[i].session.Some?
      modifies this
      ensures Rows() == LifecycleModel.CloseSession(old(Rows()), i, reason, now)
    {
      var interviewStatus := Completed;
      if reason == S.DeadlineReached {
        interviewStatus := Expired;
      } else if reason == S.HrCancelled {
        interviewStatus := Cancelled;
      }
      var sys := interviews[i].session.value;
      var iv := interviews[i].(session := Some(sys.(db := S.Close(sys.db, reason, now))));
      iv := iv.(status := interviewStatus, version := iv.version + 1);
      interviews := interviews[i := iv];
      status := UnderReview;
      version := version + 1;
    }

    method SweepDeadline(i: nat, now: Time) returns (r: Reply)
      modifies this
      ensures Follows(LifecycleModel.SweepDeadline(old(Rows()), i, now), old(Rows()), Rows(), r)
    {
      if i >= |interviews| || interviews[i].session.None? { return Err(SessionNotStarted); }
      var session := interviews[i].session.value.db.session;
      if session.status == S.InProgress && now >= session.deadlineAt {
        CloseSession(i, S.DeadlineReached, now);
        return Ok(());
      }
      return Err(NotDue);
    }

    method FinishSession(i: nat, confirmEarlyFinish: bool, now: Time) returns (r: Reply)
      modifies this
      ensures Follows(LifecycleModel.FinishSession(old(Rows()), i, confirmEarlyFinish, now), old(Rows()), Rows(), r)
    {
      if i >= |interviews| || interviews[i].session.None? { return Err(SessionNotStarted); }
      var session := interviews[i].session.value.db.session;
      if session.status != S.InProgress { return Err(RuntimeError(S.SessionClosed)); }
      if now >= session.deadlineAt {
        var saved := Rows();
        CloseSession(i, S.DeadlineReached, now);
        Rollback(saved);
        return Err(RuntimeError(S.SessionExpired));
      }
      var hasRemainingQuestions := session.state != S.ReadyToFinish;
      if hasRemainingQuestions && !confirmEarlyFinish { return Err(RuntimeError(S.ConfirmationRequired)); }
      CloseSession(i, if hasRemainingQuestions then S.SubmittedEarly else S.AllQuestionsAnswered, now);
      return Ok(());
    }

    /** Each live invitation, and with it the live credentials hanging off it. */
    method RevokeInvitations(i: nat, now: Time)
      requires i < |interviews|
      modifies this
      ensures Rows() == SetInterview(old(Rows()), i, RevokeAll(old(interviews)[i], now))
    {
      ghost var before := interviews[i];
      var invitations, credentials := interviews[i].invitations, interviews[i].credentials;
      for j := 0 to |invitations|
        invariant Rows() == old(Rows())
        invariant |invitations| == |before.invitations| && |credentials| == |before.credentials|
        invariant forall k :: 0 <= k < |invitations| ==>
          invitations[k] == (if k < j then RevokeAll(before, now).invitations[k] else before.invitations[k])
        invariant forall c :: 0 <= c < |credentials| ==>
          credentials[c]
          == (if before.credentials[c].invitation < j then RevokeAll(before, now).credentials[c]
              else before.credentials[c])
      {
        if invitations[j].revokedAt.None? {
          invitations := invitations[j := invitations[j].(revokedAt := Some(now))];
          credentials := RevokeCredentialsOf(credentials, j, now);
        }
      }
      interviews := interviews[i := interviews[i].(invitations := invitations, credentials := credentials)];
      LateCredentials(before, now);
      assert interviews[i] == RevokeAll(before, now);
    }

    method RevokeCredentialsOf(rows: seq<Credential>, invitation: nat, now: Time) returns (credentials: seq<Credential>)
      ensures |credentials| == |rows|
      ensures forall c :: 0 <= c < |rows| ==>
        credentials[c] == (if IsLiveOf(rows[c], invitation) then rows[c].(revokedAt := Some(now)) else rows[c])
    {
      credentials := rows;
      for c := 0 to |rows|
        invariant |credentials| == |rows|
        invariant forall k :: 0 <= k < |rows| ==>
          credentials[k] == (if k < c && IsLiveOf(rows[k], invitation) then rows[k].(revokedAt := Some(now)) else rows[k])
      {
        if IsLiveOf(rows[c], invitation) {
          credentials := credentials[c := rows[c].(revokedAt := Some(now))];
        }
      }
    }

    /** A credential of an invitation that does not exist is nobody's to revoke. */
    static lemma LateCredentials(iv: Interview, now: Time)
      ensures forall c :: 0 <= c < |iv.credentials| && iv.credentials[c].invitation >= |iv.invitations| ==>
        RevokeAll(iv, now).credentials[c] == iv.credentials[c]
    {
    }

    /** What is revoked depends on the invitations and credentials alone. */
    static lemma RevokeAllLocal(a: Interview, b: Interview, now: Time)
      requires a.invitations == b.invitations && a.credentials == b.credentials
      ensures RevokeAll(a, now).invitations == RevokeAll(b, now).invitations
      ensures RevokeAll(a, now).credentials == RevokeAll(b, now).credentials
    {
    }

    method ExpireInterview(i: nat, now: Time) returns (r: Reply)
      modifies this
      ensures Follows(LifecycleModel.ExpireInterview(old(Rows()), i, now), old(Rows()), Rows(), r)
    {
      if i >= |interviews| || interviews[i].status != Invited { return Err(NotDue); }
      if interviews[i].invitationExpiresAt > now { return Err(NotDue); }
      interviews := interviews[i := interviews[i].(status := Expired, version := interviews[i].version + 1)];
      RevokeAllLocal(old(interviews)[i], interviews[i], now);
      RevokeInvitations(i, now);
      if status == Interviewing {
        status := Shortlisted;
        version := version + 1;
      }
      return Ok(());
    }

    /** Status, versions, a running session, invitations: the part revoke and withdraw share. */
    method CancelInterview(i: nat, now: Time)
      requires i < |interviews|
      modifies this
      ensures Rows() == SetInterview(old(Rows()), i, LifecycleModel.CancelInterview(old(interviews)[i], now))
    {
      var iv := interviews[i];
      iv := iv.(status := Cancelled);
      iv := iv.(version := iv.version + 1);
      iv := iv.(invitationVersion := iv.invitationVersion + 1);
      if iv.session.Some? && iv.session.value.db.session.status == S.InProgress {
        iv := iv.(session := Some(iv.session.value.(db := S.Close(iv.session.value.db, S.HrCancelled, now))));
      }
      interviews := interviews[i := iv];
      RevokeAllLocal(old(interviews)[i], iv, now);
      RevokeInvitations(i, now);
    }

    method Revoke(i: nat, expectedVersion: nat, now: Time) returns (r: Reply)
      modifies this
      ensures Follows(LifecycleModel.Revoke(old(Rows()), i, expectedVersion, now), old(Rows()), Rows(), r)
    {
      if i >= |interviews| { return Err(InterviewNotFound); }
      var isBeforeStart := interviews[i].status == Invited;
      if interviews[i].status != Invited && interviews[i].status != InProgress { return Err(NotRevocable); }
      if interviews[i].version != expectedVersion { return Err(VersionConflict); }
      CancelInterview(i, now);
      if status == Interviewing {
        status := if isBeforeStart then Shortlisted else UnderReview;
        version := version + 1;
      }
      return Ok(());
    }

    method ResendInvitation(i: nat, expectedVersion: nat, newExpiry: Option<Time>, hasEmail: bool, now: Time)
      returns (r: Reply)
      modifies this
      ensures Follows(LifecycleModel.ResendInvitation(old(Rows()), i, expectedVersion, newExpiry, hasEmail, now),
                      old(Rows()), Rows(), r)
    {
      if i >= |interviews| { return Err(InterviewNotFound); }
      if interviews[i].status != Invited { return Err(NotRevocable); }
      if interviews[i].invitationExpiresAt < now { return Err(InvalidExpiry); }
      if interviews[i].version != expectedVersion { return Err(VersionConflict); }
      var saved := Rows();
      var iv := interviews[i];
      if newExpiry.Some? {
        if newExpiry.value < now + DAY - MINUTE || newExpiry.value > now + 14 * DAY + MINUTE {
          return Err(InvalidExpiry);
        }
        iv := iv.(invitationExpiresAt := newExpiry.value);
      }
      iv := iv.(version := iv.version + 1, invitationVersion := iv.invitationVersion + 1);
      interviews := interviews[i := iv];
      RevokeAllLocal(old(interviews)[i], iv, now);
      RevokeInvitations(i, now);
      var newInvitation := Invitation(iv.invitationVersion, iv.invitationExpiresAt, None);
      interviews := interviews[i := interviews[i].(invitations := interviews[i].invitations + [newInvitation])];
      if !hasEmail {
        Rollback(saved);
        return Err(NoEmail);
      }
      return Ok(());
    }

    method Withdraw(expectedVersion: nat, now: Time) returns (r: Reply)
      modifies this
      ensures Follows(LifecycleModel.Withdraw(old(Rows()), expectedVersion, now), old(Rows()), Rows(), r)
    {
      if version != expectedVersion { return Err(VersionConflict); }
      if status == Withdrawn { return Ok(()); }
      if status == Approved || status == Rejected { return Err(StateConflict); }
      var ids := OpenInterviews();
      ghost var before := interviews;
      for k := 0 to |ids|
        invariant |interviews| == |before|
        invariant status == old(status) && version == old(version)
        invariant decisions == old(decisions) && tickets == old(tickets)
        invariant cvDeleted == old(cvDeleted) && currentCv == old(currentCv)
        invariant forall i :: 0 <= i < |before| ==>
          interviews[i] == (if i in ids[..k] then LifecycleModel.CancelInterview(before[i], now) else before[i])
      {
        assert ids[k] !in ids[..k];
        CancelInterview(ids[k], now);
        assert ids[..k + 1] == ids[..k] + [ids[k]];
      }
      assert ids[..|ids|] == ids;
      assert interviews == CancelOpen(before, now);
      status := Withdrawn;
      version := version + 1;
      return Ok(());
    }

    method UpdateNotes(expectedVersion: nat) returns (r: Reply)
      modifies this
      ensures Follows(LifecycleModel.UpdateNotes(old(Rows()), expectedVersion), old(Rows()), Rows(), r)
    {
      if IsTerminal(status) { return Err(Terminal); }
      if version != expectedVersion { return Err(VersionConflict); }
      version := version + 1;
      return Ok(());
    }

    method Decide(outcome: DecisionOutcome, expectedVersion: nat, basis: Basis) returns (r: Reply)
      modifies this
      ensures Follows(LifecycleModel.Decide(old(Rows()), outcome, expectedVersion, basis), old(Rows()), Rows(), r)
    {
      if version != expectedVersion { return Err(VersionConflict); }
      if |decisions| > 0 { return Err(AlreadyDecided); }
      if IsTerminal(status) { return Err(Terminal); }
      if status != UnderReview { return Err(NotUnderReview); }
      var openIds := OpenInterviews();
      if |openIds| > 0 { return Err(InterviewAlreadyOpen); }
      if basis.interview >= |interviews| { return Err(BasisNotFound); }
      var basisSession := interviews[basis.interview].session;
      if basis.session != basis.interview || basisSession.None? { return Err(BasisNotTerminal); }
      var sessionStatus := basisSession.value.db.session.status;
      if sessionStatus != S.Completed && sessionStatus != S.Expired && sessionStatus != S.Cancelled {
        return Err(BasisNotTerminal);
      }
      if basis.review >= |basis.reviews| { return Err(ReviewNotFound); }
      var hrReview := basis.reviews[basis.review];
      if hrReview.interview != basis.interview || hrReview.session != basis.session || !hrReview.isHrReview {
        return Err(ReviewNotFound);
      }
      var latestHrReview := LatestHrReview(basis.reviews, basis.interview);
      if latestHrReview != Some(basis.review) { return Err(ReviewNotLatest); }
      decisions := decisions + [Decision(outcome, basis.interview, basis.review)];
      status := if outcome == Approve then Approved else Rejected;
      version := version + 1;
      return Ok(());
    }

    method UploadCv(seesDeleted: bool) returns (r: Reply)
      modifies this
      ensures Follows(LifecycleModel.UploadCv(old(Rows()), seesDeleted), old(Rows()), Rows(), r)
    {
      if status != Shortlisted { return Err(StateConflict); }
      var numbers := CurrentCv.Places(|cvDeleted|);
      var nextNumber := CurrentCv.HighestSeen(numbers, cvDeleted, seesDeleted) + 1;
      if nextNumber in numbers { return Err(CvNumberTaken); }
      cvDeleted := cvDeleted + [false];
      currentCv := Some(|cvDeleted| - 1);
      version := version + 1;
      return Ok(());
    }

    /** The newest CV that is not deleted, newest first. */
    method LatestActiveCv() returns (latest: Option<nat>)
      ensures latest == CurrentCv.NewestActive(cvDeleted)
    {
      var n: nat := |cvDeleted|;
      assert cvDeleted[..n] == cvDeleted;
      while n > 0
        invariant n <= |cvDeleted| && CurrentCv.NewestActive(cvDeleted) == CurrentCv.NewestActive(cvDeleted[..n])
      {
        assert cvDeleted[..n][..n - 1] == cvDeleted[..n - 1];
        if !cvDeleted[n - 1] {
          return Some(n - 1);
        }
        n := n - 1;
      }
      return None;
    }

    method RemoveCv(cv: nat) returns (r: Reply)
      modifies this
      ensures Follows(LifecycleModel.RemoveCv(old(Rows()), cv), old(Rows()), Rows(), r)
    {
      if cv >= |cvDeleted| || cvDeleted[cv] { return Err(CvNotFound); }
      cvDeleted := cvDeleted[cv := true];
      if currentCv == Some(cv) {
        currentCv := LatestActiveCv();
        version := version + 1;
      }
      return Ok(());
    }

    /** The first half of a token exchange: checks on what was read, outside any transaction. */
    method ReadForExchange(i: nat, j: nat, now: Time) returns (r: Reply)
      modifies this
      ensures Follows(LifecycleModel.ReadForExchange(old(Rows()), i, j, now), old(Rows()), Rows(), r)
    {
      if i >= |interviews| || j >= |interviews[i].invitations| { return Err(InvitationUnavailable); }
      var interview, invitation := interviews[i], interviews[i].invitations[j];
      if invitation.revokedAt.Some? || invitation.expiresAt < now { return Err(InvitationUnavailable); }
      if invitation.version != interview.invitationVersion { return Err(InvitationUnavailable); }
      if interview.status != Invited && interview.status != InProgress { return Err(InvitationUnavailable); }
      var cookieExpiresAt := invitation.expiresAt;
      if interview.status == InProgress {
        var resumeGrace := now + DAY;
        if cookieExpiresAt < resumeGrace { cookieExpiresAt := resumeGrace; }
      }
      tickets := tickets + [Exchange(i, j, cookieExpiresAt, HasRead)];
      return Ok(());
    }

    /** The first write of the exchange. */
    method WriteCredential(t: nat)
      modifies this
      ensures Rows() == LifecycleModel.WriteCredential(old(Rows()), t)
    {
      if t < |tickets| && CanWrite(tickets[t]) && tickets[t].interview < |interviews| {
        var ticket := tickets[t];
        var interview := interviews[ticket.interview];
        var credential := Credential(ticket.invitation, ticket.cookieExpiresAt, None);
        interviews := interviews[ticket.interview := interview.(credentials := interview.credentials + [credential])];
        tickets := tickets[t := ticket.(stage := HasWritten)];
      }
    }

    /** The second write of the exchange, or the one of a lobby visit: the entity goes back as it was read. */
    method SaveRead(t: nat)
      modifies this
      ensures Rows() == LifecycleModel.SaveRead(old(Rows()), t)
    {
      if t >= |tickets| || !CanSave(tickets[t]) || tickets[t].interview >= |interviews| { return; }
      var ticket := tickets[t];
      var interview := interviews[ticket.interview];
      match ticket
      case Exchange(_, j, _, _) =>
        tickets := tickets[t := ticket.(stage := HasSaved)];
        if j < |interview.invitations| {
          var invitation := interview.invitations[j].(revokedAt := None);
          interviews := interviews[ticket.interview := interview.(invitations := interview.invitations[j := invitation])];
        }
      case Lobby(_, _, c, expiresAt, _) =>
        tickets := tickets[t := ticket.(saved := true)];
        if c < |interview.credentials| {
          var credential := interview.credentials[c].(revokedAt := None, expiresAt := expiresAt);
          interviews := interviews[ticket.interview := interview.(credentials := interview.credentials[c := credential])];
        }
    }
  }
}
