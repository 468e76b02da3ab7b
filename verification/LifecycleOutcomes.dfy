/**
 * What each event on an application stores, written out: exactly when it is accepted, and then every
 * row it leaves. Refused events leave everything as it was.
 */
module LifecycleOutcomes {
  import opened Base
  import opened LifecycleModel
  import opened LifecycleTheorems
  import S = SessionModel
  import AccessTheorems
  import CurrentCv
  import SessionOutcomes

  /* ---------- creating ---------- */

  /** From about one day to about two weeks ahead, give or take a minute. */
  predicate ExpiryFits(expiresAt: Time, now: Time) {
    now + 86400000 - 60000 <= expiresAt <= now + 1209600000 + 60000
  }

  /** The set belongs to the application, is approved, and was made from its current CV and job as they are. */
  predicate SetFits(w: World, input: CreateInput) {
    && input.job.Some? && input.questionSet.Some? && input.profile.Some?
    && var qs := input.questionSet.value;
       && qs.ofApplication && qs.approved
       && w.currentCv == Some(qs.cv) && qs.cv < |w.cvDeleted| && !w.cvDeleted[qs.cv]
       && input.profile.value.approved && input.profile.value.profileVersion == qs.cvProfileVersion
       && input.job.value.version == qs.jobVersion
  }

  predicate IsCreatable(w: World, input: CreateInput, now: Time) {
    && ExpiryFits(input.expiresAt, now) && 10 <= input.durationMinutes <= 90
    && w.status == Shortlisted && w.version == input.expectedVersion
    && input.job.Some? && input.job.value.isOpen && input.candidateHasEmail
    && SetFits(w, input) && 1 <= |input.items| <= 12
  }

  /** An invited round with a first invitation, nobody admitted yet, and the set's items as its questions. */
  ghost predicate NewRound(iv: Interview, input: CreateInput) {
    && iv.status == Invited && iv.version == 1 && iv.session == None
    && iv.durationMinutes == input.durationMinutes
    && iv.invitationVersion == 1 && iv.invitationExpiresAt == input.expiresAt
    && iv.invitations == [Invitation(1, input.expiresAt, None)] && iv.credentials == []
    && iv.setup.maxFollowUpsTotal == input.maxFollowUpsTotal && iv.setup.config == input.config
    && |iv.setup.questions| == |input.items|
    && forall k :: 0 <= k < |input.items| ==>
         var q, item := iv.setup.questions[k], input.items[k];
         && q.text == item.text && q.allowFollowUp == item.allowFollowUp
         && q.maxFollowUps == if item.allowFollowUp then item.maxFollowUps else 0
  }

  lemma CreationOutcome(w: World, input: CreateInput, now: Time)
    requires Reachable(w)
    ensures var after := Step(w, CreateEv(input, now)); var n := |w.interviews|;
      if IsCreatable(w, input, now) then
        && |after.interviews| == n + 1 && NewRound(after.interviews[n], input)
        && after == w.(interviews := w.interviews + [after.interviews[n]], status := Interviewing, version := w.version + 1)
      else after == w
  {
    ReachableJoint(w);
  }

  /** Every refusal names something that is wrong. */
  predicate CreationLacks(w: World, input: CreateInput, now: Time, error: LifecycleError) {
    match error
    case InvalidExpiry => !ExpiryFits(input.expiresAt, now)
    case InvalidDuration => input.durationMinutes < 10 || 90 < input.durationMinutes
    case StateConflict => w.status != Shortlisted
    case VersionConflict => w.version != input.expectedVersion
    case JobNotOpen => input.job.None? || !input.job.value.isOpen
    case NoEmail => !input.candidateHasEmail
    case QuestionSetNotFound => input.questionSet.None?
    case QuestionSetForeign => input.questionSet.Some? && !input.questionSet.value.ofApplication
    case QuestionSetNotApproved => input.questionSet.Some? && !input.questionSet.value.approved
    case QuestionSetStale =>
      input.questionSet.Some? && input.questionSet.value.ofApplication && input.questionSet.value.approved && !SetFits(w, input)
    case QuestionSetEmpty => |input.items| == 0 || 12 < |input.items|
    case _ => false
  }

  lemma CreationRefusals(w: World, input: CreateInput, now: Time)
    requires Reachable(w)
    ensures CreateInterview(w, input, now).Err? ==> CreationLacks(w, input, now, CreateInterview(w, input, now).error)
  {
    ReachableJoint(w);
  }

  /** Checks kept for states that do not occur: with an open round nothing new is created and nothing decided. */
  lemma OpenRoundBlocks(w: World, input: CreateInput, outcome: DecisionOutcome, expectedVersion: nat, basis: Basis, now: Time)
    requires exists i :: 0 <= i < |w.interviews| && (w.interviews[i].status == Invited || w.interviews[i].status == InProgress)
    ensures CreateInterview(w, input, now).Err? && Decide(w, outcome, expectedVersion, basis).Err?
  {
  }

  /* ---------- starting ---------- */

  predicate IsStartable(w: World, i: nat, now: Time) {
    i < |w.interviews| && w.interviews[i].status == Invited && now <= w.interviews[i].invitationExpiresAt
  }

  /** The cookie used outlives the session's deadline by half an hour; the others stay as they are. */
  ghost predicate CookieExtended(before: seq<Credential>, after: seq<Credential>, c: nat, until: Time) {
    && |after| == |before|
    && forall k :: 0 <= k < |before| ==>
         after[k] == if k == c && before[k].expiresAt < until then before[k].(expiresAt := until) else before[k]
  }

  lemma StartOutcome(w: World, i: nat, c: nat, now: Time)
    requires Reachable(w)
    ensures var after := Step(w, StartEv(i, c, now));
      if IsStartable(w, i, now) then
        && |after.interviews| == |w.interviews|
        && var iv, started := w.interviews[i], after.interviews[i];
           var duration := iv.durationMinutes * 60000;
           && S.Begin(iv.setup, duration, now).Some?
           && started.(credentials := iv.credentials)
              == iv.(status := InProgress, version := iv.version + 1,
                     session := Some(S.System(S.Begin(iv.setup, duration, now).value, [])))
           && CookieExtended(iv.credentials, started.credentials, c, now + duration + 1800000)
           && after == w.(interviews := w.interviews[i := started])
      else after == w
  {
    ReachableJoint(w);
    if i < |w.interviews| { assert InterviewOk(w.interviews[i]); }
  }

  lemma StartRefusals(w: World, i: nat, c: nat, now: Time)
    requires Reachable(w)
    ensures var r := StartInterview(w, i, c, now);
      && (r == Err(InterviewNotFound) <==> |w.interviews| <= i)
      && (i < |w.interviews| ==>
            var iv := w.interviews[i];
            && (r == Err(AlreadyStarted) <==> iv.session.None? && iv.status != Invited)
            && (r == Err(InvitationUnavailable) <==> iv.status == Invited && iv.invitationExpiresAt < now)
            && (iv.session.Some? ==> r == Ok(w)))
  {
    ReachableJoint(w);
    if i < |w.interviews| { assert InterviewOk(w.interviews[i]); }
  }

  /* ---------- the running session ---------- */

  /** Answers, results and recovery reach the session's rows and nothing else. */
  lemma SessionEventOutcome(w: World, i: nat, e: S.Event)
    ensures Step(w, SessionEv(i, e)) ==
      if i < |w.interviews| && w.interviews[i].session.Some? && !e.FinishEv? && !e.SweepEv? && !e.CancelEv? then
        var iv := w.interviews[i];
        w.(interviews := w.interviews[i := iv.(session := Some(S.Step(iv.setup, iv.session.value, e)))])
      else w
  {
  }

  /** The session's own view of a closing request. */
  function SessionView(e: Event): S.Event
    requires e.SweepEv? || e.FinishEv?
  {
    if e.SweepEv? then S.SweepEv(e.now) else S.FinishEv(e.confirm, e.now)
  }

  predicate Ends(w: World, e: Event)
    requires e.SweepEv? || e.FinishEv?
  {
    && e.i < |w.interviews| && w.interviews[e.i].session.Some?
    && SessionOutcomes.EndBy(w.interviews[e.i].session.value, SessionView(e)).Some?
  }

  /** The interview and its application after the session's end. */
  function Ended(w: World, e: Event): World
    requires (e.SweepEv? || e.FinishEv?) && Ends(w, e)
  {
    var iv := w.interviews[e.i];
    w.(interviews := w.interviews[e.i := iv.(status := if e.SweepEv? then Expired else Completed, version := iv.version + 1,
                                            session := Some(S.Step(iv.setup, iv.session.value, SessionView(e))))],
       status := UnderReview, version := w.version + 1)
  }

  lemma SweepEnds(w: World, i: nat, now: Time)
    requires Reachable(w) && i < |w.interviews| && w.interviews[i].session.Some?
    ensures var e := SweepEv(i, now); Step(w, e) == if Ends(w, e) then Ended(w, e) else w
  {
    ReachableJoint(w);
    assert InterviewOk(w.interviews[i]);
    SessionStatusKnown(w.interviews[i]);
  }

  lemma FinishEnds(w: World, i: nat, confirm: bool, now: Time)
    requires Reachable(w) && i < |w.interviews| && w.interviews[i].session.Some?
    ensures var e := FinishEv(i, confirm, now); Step(w, e) == if Ends(w, e) then Ended(w, e) else w
  {
    ReachableJoint(w);
    assert InterviewOk(w.interviews[i]);
    SessionStatusKnown(w.interviews[i]);
  }

  /** A sweep or a finish closes the session, and with it the interview and the interviewing phase. */
  lemma ClosingOutcome(w: World, e: Event)
    requires Reachable(w) && (e.SweepEv? || e.FinishEv?)
    ensures Step(w, e) == if Ends(w, e) then Ended(w, e) else w
  {
    if e.i < |w.interviews| && w.interviews[e.i].session.Some? {
      match e
      case SweepEv(i, now) => SweepEnds(w, i, now);
      case FinishEv(i, confirm, now) => FinishEnds(w, i, confirm, now);
    }
  }

  lemma SessionStatusKnown(iv: Interview)
    requires InterviewOk(iv) && iv.session.Some?
    ensures iv.session.value.db.session.status == S.InProgress <==> iv.session.value.db.session.state != S.Closed
  {
    SessionOutcomes.StatusIsState(iv.setup, iv.session.value);
  }

  /* ---------- withdrawing invitations ---------- */

  /** Every live invitation is revoked now, with its own live cookies; nothing else about them changes. */
  ghost predicate InvitationsWithdrawn(a: Interview, invitations: seq<Invitation>, credentials: seq<Credential>, now: Time) {
    && |invitations| == |a.invitations| && |credentials| == |a.credentials|
    && (forall j :: 0 <= j < |invitations| ==>
          invitations[j] == if a.invitations[j].revokedAt.None? then a.invitations[j].(revokedAt := Some(now))
                            else a.invitations[j])
    && (forall c :: 0 <= c < |credentials| ==>
          var cookie := a.credentials[c];
          var withdrawn := cookie.invitation < |a.invitations| && a.invitations[cookie.invitation].revokedAt.None?;
          credentials[c] == if withdrawn && cookie.revokedAt.None? then cookie.(revokedAt := Some(now)) else cookie)
  }

  /** Cancelled by HR: invitations withdrawn, a running session closed, and both versions moved on. */
  ghost predicate CancelledFrom(a: Interview, b: Interview, now: Time) {
    && InvitationsWithdrawn(a, b.invitations, b.credentials, now)
    && b.(invitations := a.invitations, credentials := a.credentials)
       == a.(status := Cancelled, version := a.version + 1, invitationVersion := a.invitationVersion + 1,
             session := if a.session.Some? then Some(S.Step(a.setup, a.session.value, S.CancelEv(now))) else None)
  }

  lemma CancelCancels(iv: Interview, now: Time)
    ensures CancelledFrom(iv, CancelInterview(iv, now), now)
  {
  }

  /** An invitation nobody used in time: the round expires and the application is shortlisted again. */
  lemma ExpiryOutcome(w: World, i: nat, now: Time)
    requires Reachable(w)
    ensures var after := Step(w, ExpireEv(i, now));
      if i < |w.interviews| && w.interviews[i].status == Invited && w.interviews[i].invitationExpiresAt <= now then
        && |after.interviews| == |w.interviews|
        && var iv, b := w.interviews[i], after.interviews[i];
           && InvitationsWithdrawn(iv, b.invitations, b.credentials, now)
           && b.(invitations := iv.invitations, credentials := iv.credentials)
              == iv.(status := Expired, version := iv.version + 1)
           && after == w.(interviews := w.interviews[i := b], status := Shortlisted, version := w.version + 1)
      else after == w
  {
    ReachableJoint(w);
    if i < |w.interviews| && IsOpen(w.interviews[i]) { OpenIsLast(w, i); }
  }

  /** A revoke before the start returns the application to SHORTLISTED, one after it sends it to UNDER_REVIEW. */
  lemma RevokeOutcome(w: World, i: nat, expectedVersion: nat, now: Time)
    requires Reachable(w)
    ensures var after := Step(w, RevokeEv(i, expectedVersion, now));
      if i < |w.interviews| && IsOpen(w.interviews[i]) && w.interviews[i].version == expectedVersion then
        && |after.interviews| == |w.interviews|
        && CancelledFrom(w.interviews[i], after.interviews[i], now)
        && after == w.(interviews := w.interviews[i := after.interviews[i]], version := w.version + 1,
                       status := if w.interviews[i].session.None? then Shortlisted else UnderReview)
      else after == w
  {
    ReachableJoint(w);
    if i < |w.interviews| && IsOpen(w.interviews[i]) {
      OpenIsLast(w, i);
      assert InterviewOk(w.interviews[i]);
      CancelCancels(w.interviews[i], now);
    }
  }

  predicate IsResendable(w: World, i: nat, expectedVersion: nat, newExpiry: Option<Time>, hasEmail: bool, now: Time) {
    && i < |w.interviews| && w.interviews[i].status == Invited && w.interviews[i].version == expectedVersion
    && now <= w.interviews[i].invitationExpiresAt && hasEmail
    && (newExpiry.Some? ==> ExpiryFits(newExpiry.value, now))
  }

  /** A resend withdraws what was out and issues one invitation more, under the next version. */
  lemma ResendOutcome(w: World, i: nat, expectedVersion: nat, newExpiry: Option<Time>, hasEmail: bool, now: Time)
    ensures var after := Step(w, ResendEv(i, expectedVersion, newExpiry, hasEmail, now));
      if IsResendable(w, i, expectedVersion, newExpiry, hasEmail, now) then
        && |after.interviews| == |w.interviews|
        && var iv, b := w.interviews[i], after.interviews[i];
           var n, expiry := |iv.invitations|, if newExpiry.Some? then newExpiry.value else iv.invitationExpiresAt;
           && |b.invitations| == n + 1
           && InvitationsWithdrawn(iv, b.invitations[..n], b.credentials, now)
           && b.invitations[n] == Invitation(iv.invitationVersion + 1, expiry, None)
           && b.(invitations := iv.invitations, credentials := iv.credentials)
              == iv.(version := iv.version + 1, invitationVersion := iv.invitationVersion + 1, invitationExpiresAt := expiry)
           && after == w.(interviews := w.interviews[i := b])
      else after == w
  {
  }

  /** A withdrawal cancels every round that is open and leaves the others; repeating it changes nothing. */
  lemma WithdrawalOutcome(w: World, expectedVersion: nat, now: Time)
    ensures var after := Step(w, WithdrawEv(expectedVersion, now));
      if w.version == expectedVersion && w.status != Withdrawn && w.status != Approved && w.status != Rejected then
        && |after.interviews| == |w.interviews|
        && (forall i :: 0 <= i < |w.interviews| ==>
              if IsOpen(w.interviews[i]) then CancelledFrom(w.interviews[i], after.interviews[i], now)
              else after.interviews[i] == w.interviews[i])
        && after == w.(interviews := after.interviews, status := Withdrawn, version := w.version + 1)
      else after == w
  {
    forall i | 0 <= i < |w.interviews|
      ensures CancelledFrom(w.interviews[i], CancelInterview(w.interviews[i], now), now)
    {
      CancelCancels(w.interviews[i], now);
    }
  }

  /** What the remaining refusals say. */
  lemma RoundRefusals(w: World, i: nat, expectedVersion: nat, newExpiry: Option<Time>, hasEmail: bool, now: Time)
    ensures var revoke, resend := Revoke(w, i, expectedVersion, now),
                                  ResendInvitation(w, i, expectedVersion, newExpiry, hasEmail, now);
      && (revoke == Err(InterviewNotFound) <==> |w.interviews| <= i)
      && (resend == Err(InterviewNotFound) <==> |w.interviews| <= i)
      && (i < |w.interviews| ==>
            var iv := w.interviews[i];
            var open, timely := iv.status == Invited, now <= iv.invitationExpiresAt;
            var fits := newExpiry.Some? ==> ExpiryFits(newExpiry.value, now);
            && (revoke == Err(NotRevocable) <==> iv.status != Invited && iv.status != InProgress)
            && (revoke == Err(VersionConflict) <==> IsOpen(iv) && iv.version != expectedVersion)
            && (resend == Err(NotRevocable) <==> !open)
            && (resend == Err(VersionConflict) <==> open && timely && iv.version != expectedVersion)
            && (resend == Err(InvalidExpiry) <==> open && (!timely || (iv.version == expectedVersion && !fits)))
            && (resend == Err(NoEmail) <==> open && timely && iv.version == expectedVersion && fits && !hasEmail))
  {
  }

  lemma ApplicationRefusals(w: World, expectedVersion: nat, now: Time)
    ensures var withdrawal, notes := Withdraw(w, expectedVersion, now), UpdateNotes(w, expectedVersion);
      var decided := w.status == Approved || w.status == Rejected;
      && (withdrawal == Err(VersionConflict) <==> w.version != expectedVersion)
      && (withdrawal == Err(StateConflict) <==> w.version == expectedVersion && decided)
      && (notes == Err(Terminal) <==> decided || w.status == Withdrawn)
      && (notes == Err(VersionConflict) <==> !decided && w.status != Withdrawn && w.version != expectedVersion)
  {
  }

  lemma NotesOutcome(w: World, expectedVersion: nat)
    ensures Step(w, NotesEv(expectedVersion)) ==
      if w.status != Withdrawn && w.status != Approved && w.status != Rejected && w.version == expectedVersion
      then w.(version := w.version + 1) else w
  {
  }

  /* ---------- deciding ---------- */

  /** An HR review of this interview. */
  predicate IsHrReviewOf(review: Review, interview: nat) {
    review.isHrReview && review.interview == interview
  }

  /** The basis names a stored HR review of its interview and session that no other HR review of it outdates. */
  ghost predicate OnLatestReview(basis: Basis) {
    && basis.review < |basis.reviews|
    && IsHrReviewOf(basis.reviews[basis.review], basis.interview)
    && basis.reviews[basis.review].session == basis.session
    && forall k :: 0 <= k < |basis.reviews| && IsHrReviewOf(basis.reviews[k], basis.interview) ==>
         basis.reviews[k].revision <= basis.reviews[basis.review].revision
  }

  /** The unique constraint on interview, type and revision. */
  ghost predicate RevisionsDistinct(reviews: seq<Review>) {
    forall j, k :: 0 <= j < k < |reviews| && reviews[j].isHrReview && IsHrReviewOf(reviews[k], reviews[j].interview) ==>
      reviews[j].revision != reviews[k].revision
  }

  ghost predicate IsDecidable(w: World, expectedVersion: nat, basis: Basis) {
    && w.version == expectedVersion && w.status == UnderReview && w.decisions == []
    && (forall i :: 0 <= i < |w.interviews| ==> !IsOpen(w.interviews[i]))
    && basis.interview < |w.interviews| && basis.session == basis.interview
    && HasClosedSession(w.interviews[basis.interview])
    && OnLatestReview(basis)
  }

  lemma LatestIs(reviews: seq<Review>, interview: nat, k: nat)
    requires RevisionsDistinct(reviews) && k < |reviews| && IsHrReviewOf(reviews[k], interview)
    requires forall j :: 0 <= j < |reviews| && IsHrReviewOf(reviews[j], interview) ==> reviews[j].revision <= reviews[k].revision
    ensures LatestHrReview(reviews, interview) == Some(k)
  {
    var latest := LatestHrReview(reviews, interview).value;
    assert IsHrReviewOf(reviews[latest], interview);
    assert reviews[latest].revision == reviews[k].revision;
  }

  lemma ClosedWhenNotRunning(w: World, i: nat)
    requires Reachable(w) && i < |w.interviews| && w.interviews[i].session.Some?
    ensures HasClosedSession(w.interviews[i]) <==> w.interviews[i].session.value.db.session.status != S.InProgress
  {
    ReachableJoint(w);
    assert InterviewOk(w.interviews[i]);
    SessionStatusKnown(w.interviews[i]);
  }

  /** Whatever changes the application is a decision on the latest HR review of a closed session. */
  lemma DecisionNeedsLatestReview(w: World, e: Event)
    requires Reachable(w) && e.DecideEv? && Step(w, e) != w
    ensures IsDecidable(w, e.expectedVersion, e.basis)
    ensures Step(w, e) == w.(decisions := [Decision(e.outcome, e.basis.interview, e.basis.review)], version := w.version + 1,
                             status := if e.outcome == Approve then Approved else Rejected)
  {
    ClosedWhenNotRunning(w, e.basis.interview);
    var reviews, latest := e.basis.reviews, LatestHrReview(e.basis.reviews, e.basis.interview);
    forall k | 0 <= k < |reviews| && IsHrReviewOf(reviews[k], e.basis.interview)
      ensures reviews[k].revision <= reviews[e.basis.review].revision
    {
    }
  }

  /** With revisions counted up, a decision goes through exactly on those conditions. */
  lemma DecisionOutcome(w: World, e: Event)
    requires Reachable(w) && e.DecideEv? && RevisionsDistinct(e.basis.reviews)
    ensures Step(w, e) ==
      if IsDecidable(w, e.expectedVersion, e.basis) then
        w.(decisions := [Decision(e.outcome, e.basis.interview, e.basis.review)], version := w.version + 1,
           status := if e.outcome == Approve then Approved else Rejected)
      else w
  {
    if IsDecidable(w, e.expectedVersion, e.basis) {
      ClosedWhenNotRunning(w, e.basis.interview);
      LatestIs(e.basis.reviews, e.basis.interview, e.basis.review);
    } else if Step(w, e) != w {
      DecisionNeedsLatestReview(w, e);
    }
  }

  /** What is wrong when a decision is refused with this error. */
  ghost predicate DecisionLacks(w: World, expectedVersion: nat, basis: Basis, error: LifecycleError) {
    match error
    case VersionConflict => w.version != expectedVersion
    case AlreadyDecided => w.decisions != []
    case Terminal => w.status == Withdrawn
    case NotUnderReview => w.status == Shortlisted || w.status == Interviewing
    case BasisNotFound => |w.interviews| <= basis.interview
    case BasisNotTerminal =>
      basis.interview < |w.interviews|
      && (basis.session != basis.interview || !HasClosedSession(w.interviews[basis.interview]))
    case ReviewNotFound =>
      |basis.reviews| <= basis.review || !IsHrReviewOf(basis.reviews[basis.review], basis.interview)
      || basis.reviews[basis.review].session != basis.session
    case ReviewNotLatest =>
      && basis.review < |basis.reviews| && IsHrReviewOf(basis.reviews[basis.review], basis.interview)
      && exists k :: 0 <= k < |basis.reviews| && k != basis.review && IsHrReviewOf(basis.reviews[k], basis.interview)
                     && basis.reviews[basis.review].revision <= basis.reviews[k].revision
    case _ => false
  }

  lemma OutdatedBasis(w: World, outcome: DecisionOutcome, expectedVersion: nat, basis: Basis)
    requires Decide(w, outcome, expectedVersion, basis) == Err(ReviewNotLatest)
    ensures DecisionLacks(w, expectedVersion, basis, ReviewNotLatest)
  {
    var k := LatestHrReview(basis.reviews, basis.interview).value;
    assert k != basis.review && IsHrReviewOf(basis.reviews[k], basis.interview);
  }

  lemma StandingRefusals(w: World, outcome: DecisionOutcome, expectedVersion: nat, basis: Basis)
    requires Reachable(w) && Decide(w, outcome, expectedVersion, basis).Err?
    requires w.version != expectedVersion || w.status != UnderReview || basis.interview >= |w.interviews|
    ensures DecisionLacks(w, expectedVersion, basis, Decide(w, outcome, expectedVersion, basis).error)
  {
    ReachableJoint(w);
  }

  lemma DecisionRefusals(w: World, outcome: DecisionOutcome, expectedVersion: nat, basis: Basis)
    requires Reachable(w) && Decide(w, outcome, expectedVersion, basis).Err?
    ensures DecisionLacks(w, expectedVersion, basis, Decide(w, outcome, expectedVersion, basis).error)
  {
    if w.version != expectedVersion || w.status != UnderReview || basis.interview >= |w.interviews| {
      StandingRefusals(w, outcome, expectedVersion, basis);
    } else {
      NoneOpenUnderReview(w);
      if w.interviews[basis.interview].session.Some? { ClosedWhenNotRunning(w, basis.interview); }
      if Decide(w, outcome, expectedVersion, basis).error == ReviewNotLatest {
        OutdatedBasis(w, outcome, expectedVersion, basis);
      }
    }
  }

  lemma NoneOpenUnderReview(w: World)
    requires Reachable(w) && w.status == UnderReview
    ensures w.decisions == [] && !HasOpen(w.interviews)
  {
    ReachableJoint(w);
  }

  /** Event i of the run was the decision: under review, and on the latest HR review. */
  ghost predicate DecidesAt(events: seq<Event>, i: nat, d: Decision) {
    && i < |events| && events[i].DecideEv? && d == Decision(events[i].outcome, events[i].basis.interview, events[i].basis.review)
    && IsDecidable(Run(NewApplication(), events[..i]), events[i].expectedVersion, events[i].basis)
  }

  ghost predicate WasDecided(events: seq<Event>, d: Decision) {
    exists i: nat :: DecidesAt(events, i, d)
  }

  lemma OnlyDecisionsDecide(w: World, e: Event)
    requires !e.DecideEv?
    ensures Step(w, e).decisions == w.decisions
  {
  }

  /** Over whole runs: the decision on record was made under review, on what was then the latest HR review. */
  lemma {:induction false} DecisionRestsOnLatestReview(events: seq<Event>)
    ensures var w := Run(NewApplication(), events);
      && |w.decisions| <= 1
      && (w.decisions != [] ==> WasDecided(events, w.decisions[0]))
    decreases |events|
  {
    DecisionMatchesStatus(Run(NewApplication(), events));
    if events != [] && Run(NewApplication(), events).decisions != [] {
      var n := |events| - 1;
      var front, e := events[..n], events[n];
      var w := Run(NewApplication(), front);
      assert events == front + [e];
      RunAppend(NewApplication(), front, e);
      if e.DecideEv? && Step(w, e) != w {
        DecisionNeedsLatestReview(w, e);
        assert DecidesAt(events, n, Step(w, e).decisions[0]);
      } else {
        if !e.DecideEv? { OnlyDecisionsDecide(w, e); }
        DecisionRestsOnLatestReview(front);
        var i: nat :| DecidesAt(front, i, w.decisions[0]);
        assert front[..i] == events[..i];
        assert DecidesAt(events, i, w.decisions[0]);
      }
    }
  }

  /* ---------- CVs ---------- */

  lemma UploadOutcome(w: World, seesDeleted: bool)
    ensures var n := |w.cvDeleted|;
      Step(w, UploadCvEv(seesDeleted)) ==
        if w.status == Shortlisted && (seesDeleted || n == 0 || !w.cvDeleted[n - 1])
        then w.(cvDeleted := w.cvDeleted + [false], currentCv := Some(n), version := w.version + 1) else w
    ensures UploadCv(w, seesDeleted) == Err(StateConflict) <==> w.status != Shortlisted
  {
    CurrentCv.NumberFreeIff(w.cvDeleted, seesDeleted);
  }

  /** The newest CV that is left, if any. */
  ghost predicate IsNewestLeft(deleted: seq<bool>, cv: Option<nat>) {
    match cv
    case Some(k) => k < |deleted| && !deleted[k] && forall j :: k < j < |deleted| ==> deleted[j]
    case None => forall j :: 0 <= j < |deleted| ==> deleted[j]
  }

  lemma {:induction false} NewestLeft(deleted: seq<bool>)
    ensures IsNewestLeft(deleted, CurrentCv.NewestActive(deleted))
  {
    if deleted != [] && deleted[|deleted| - 1] {
      NewestLeft(deleted[..|deleted| - 1]);
    }
  }

  lemma RemovalOutcome(w: World, cv: nat)
    ensures var after := Step(w, RemoveCvEv(cv));
      if cv < |w.cvDeleted| && !w.cvDeleted[cv] then
        && after == w.(cvDeleted := w.cvDeleted[cv := true], currentCv := after.currentCv, version := after.version)
        && if w.currentCv == Some(cv) then IsNewestLeft(after.cvDeleted, after.currentCv) && after.version == w.version + 1
           else after.currentCv == w.currentCv && after.version == w.version
      else after == w
  {
    if cv < |w.cvDeleted| {
      NewestLeft(w.cvDeleted[cv := true]);
    }
  }

  /* ---------- requests outside transactions ---------- */

  /** The newest invitation, not withdrawn and not expired, of an open round. */
  predicate MayExchange(w: World, i: nat, j: nat, now: Time) {
    && i < |w.interviews| && IsOpen(w.interviews[i]) && j < |w.interviews[i].invitations|
    && var inv := w.interviews[i].invitations[j];
       inv.revokedAt.None? && now <= inv.expiresAt && inv.version == w.interviews[i].invitationVersion
  }

  /** An exchange notes what it read; its cookie lasts as long as the invitation, and a day more once started. */
  lemma ExchangeOutcome(w: World, i: nat, j: nat, now: Time)
    ensures Step(w, ReadExchangeEv(i, j, now)) ==
      if MayExchange(w, i, j, now) then
        var expiresAt := w.interviews[i].invitations[j].expiresAt;
        w.(tickets := w.tickets + [Exchange(i, j, if w.interviews[i].status == InProgress && expiresAt < now + 86400000
                                                  then now + 86400000 else expiresAt, HasRead)])
      else w
  {
  }

  predicate MayVisit(w: World, i: nat, c: nat, now: Time) {
    && i < |w.interviews| && c < |w.interviews[i].credentials|
    && w.interviews[i].credentials[c].revokedAt.None? && now <= w.interviews[i].credentials[c].expiresAt
    && MayExchange(w, i, w.interviews[i].credentials[c].invitation, now)
  }

  lemma VisitOutcome(w: World, i: nat, c: nat, now: Time)
    ensures Step(w, ReadLobbyEv(i, c, now)) ==
      if MayVisit(w, i, c, now) then
        var cookie := w.interviews[i].credentials[c];
        w.(tickets := w.tickets + [Lobby(i, cookie.invitation, c, cookie.expiresAt, false)])
      else w
  {
  }

  /** An exchange that has read issues its cookie, under the invitation it read. */
  lemma IssueOutcome(w: World, t: nat)
    requires Reachable(w)
    ensures t < |w.tickets| ==> w.tickets[t].interview < |w.interviews|
    ensures Step(w, WriteCredentialEv(t)) ==
      if t < |w.tickets| && w.tickets[t].Exchange? && w.tickets[t].stage == HasRead then
        var ticket := w.tickets[t];
        var iv := w.interviews[ticket.interview];
        w.(interviews := w.interviews[ticket.interview :=
             iv.(credentials := iv.credentials + [Credential(ticket.invitation, ticket.cookieExpiresAt, None)])],
           tickets := w.tickets[t := ticket.(stage := HasWritten)])
      else w
  {
    AccessTheorems.ReachableInv(w);
    if t < |w.tickets| { assert AccessTheorems.TicketOk(w.interviews, w.tickets[t]); }
  }

  /** The last write of a request puts back what it read: an invitation as live, a cookie as live with its old expiry. */
  lemma SaveOutcome(w: World, t: nat)
    requires Reachable(w)
    ensures t < |w.tickets| ==> AccessTheorems.TicketOk(w.interviews, w.tickets[t])
    ensures Step(w, SaveReadEv(t)) ==
      if t < |w.tickets| then
        var ticket := w.tickets[t];
        var iv := w.interviews[ticket.interview];
        match ticket
        case Exchange(i, j, _, stage) =>
          if stage == HasWritten then
            w.(interviews := w.interviews[i := iv.(invitations := iv.invitations[j := iv.invitations[j].(revokedAt := None)])],
               tickets := w.tickets[t := ticket.(stage := HasSaved)])
          else w
        case Lobby(i, _, c, expiresAt, saved) =>
          if saved then w
          else
            var cookie := iv.credentials[c].(revokedAt := None, expiresAt := expiresAt);
            w.(interviews := w.interviews[i := iv.(credentials := iv.credentials[c := cookie])],
               tickets := w.tickets[t := ticket.(saved := true)])
      else w
  {
    AccessTheorems.ReachableInv(w);
    if t < |w.tickets| { assert AccessTheorems.TicketOk(w.interviews, w.tickets[t]); }
  }

  /** Who is let in: a live, unexpired cookie of a live invitation at the interview's present version. */
  lemma AdmissionOutcome(iv: Interview, c: nat, now: Time)
    ensures Accepts(iv, c, now) <==>
      && c < |iv.credentials| && iv.credentials[c].revokedAt == None && now <= iv.credentials[c].expiresAt
      && iv.credentials[c].invitation < |iv.invitations|
      && iv.invitations[iv.credentials[c].invitation].revokedAt == None
      && iv.invitations[iv.credentials[c].invitation].version == iv.invitationVersion
  {
  }
}
