/** Application, interview and session agree in every reachable state, whatever order the actors come in. */
module LifecycleTheorems {
  import opened Base
  import opened LifecycleModel
  import S = SessionModel
  import SessionTheorems

  /** The interview status a session's own status stands for. */
  function StatusOf(status: S.SessionStatus): InterviewStatus {
    match status
    case InProgress => InterviewStatus.InProgress
    case Completed => InterviewStatus.Completed
    case Expired => InterviewStatus.Expired
    case Cancelled => InterviewStatus.Cancelled
  }

  /** The interview mirrors its session; without one it was never started. */
  ghost predicate InterviewOk(iv: Interview) {
    && 1 <= |iv.setup.questions| <= 12
    && 10 <= iv.durationMinutes <= 90
    && match iv.session
       case None => iv.status == Invited || iv.status == Expired || iv.status == Cancelled
       case Some(sys) =>
         && SessionTheorems.Reachable(iv.setup, sys)
         && iv.status == StatusOf(sys.db.session.status)
  }

  /** A round that is over and was never started. */
  predicate Unused(iv: Interview) {
    !IsOpen(iv) && iv.session.None?
  }

  ghost predicate RoundsOk(interviews: seq<Interview>) {
    && (forall i :: 0 <= i < |interviews| ==> InterviewOk(interviews[i]))
    && (forall i :: 0 <= i < |interviews| - 1 ==> Unused(interviews[i]))
  }

  /** What the application's status says about its last round and its decision. */
  ghost predicate StatusOk(status: AppStatus, interviews: seq<Interview>, decisions: seq<Decision>) {
    var n := |interviews|;
    && (decisions != [] ==> status == Approved || status == Rejected)
    && match status
       case Shortlisted => n > 0 ==> Unused(interviews[n - 1])
       case Interviewing => n > 0 && IsOpen(interviews[n - 1])
       case UnderReview => n > 0 && !IsOpen(interviews[n - 1]) && interviews[n - 1].session.Some?
       case Approved => n > 0 && !IsOpen(interviews[n - 1]) && interviews[n - 1].session.Some?
                        && |decisions| == 1 && decisions[0].outcome == Approve && decisions[0].basisInterview == n - 1
       case Rejected => n > 0 && !IsOpen(interviews[n - 1]) && interviews[n - 1].session.Some?
                        && |decisions| == 1 && decisions[0].outcome == Reject && decisions[0].basisInterview == n - 1
       case Withdrawn => n > 0 ==> !IsOpen(interviews[n - 1])
  }

  ghost predicate Joint(w: World) {
    RoundsOk(w.interviews) && StatusOk(w.status, w.interviews, w.decisions)
  }

  /* ---------- how one interview may change ---------- */

  lemma RoundsReplace(interviews: seq<Interview>, i: nat, iv: Interview)
    requires RoundsOk(interviews) && i < |interviews| && InterviewOk(iv)
    requires i < |interviews| - 1 ==> Unused(iv)
    ensures RoundsOk(interviews[i := iv])
  {
  }

  /** A change that keeps open-ness and session-ness goes unnoticed by the application. */
  lemma ReplaceKeeps(w: World, i: nat, iv: Interview)
    requires Joint(w) && i < |w.interviews| && InterviewOk(iv)
    requires IsOpen(iv) == IsOpen(w.interviews[i]) && iv.session.Some? == w.interviews[i].session.Some?
    ensures Joint(SetInterview(w, i, iv))
  {
    RoundsReplace(w.interviews, i, iv);
  }

  /** An open interview is the last one, and the application is interviewing. */
  lemma OpenIsLast(w: World, i: nat)
    requires Joint(w) && i < |w.interviews| && IsOpen(w.interviews[i])
    ensures i == |w.interviews| - 1 && w.status == Interviewing && w.decisions == []
  {
  }

  lemma RunningIsOpen(w: World, i: nat)
    requires Joint(w) && i < |w.interviews| && w.interviews[i].session.Some?
    requires w.interviews[i].session.value.db.session.status == S.InProgress
    ensures i == |w.interviews| - 1 && w.interviews[i].status == InProgress && w.status == Interviewing
  {
    assert InterviewOk(w.interviews[i]);
  }

  lemma CreateOk(w: World, input: CreateInput, now: Time)
    requires Joint(w) && CreateInterview(w, input, now).Ok?
    ensures Joint(CreateInterview(w, input, now).value)
  {
  }

  lemma StartOk(w: World, i: nat, credential: nat, now: Time)
    requires Joint(w) && StartInterview(w, i, credential, now).Ok?
    ensures Joint(StartInterview(w, i, credential, now).value)
  {
    var iv := w.interviews[i];
    if iv.session.None? {
      OpenIsLast(w, i);
      var sys := S.System(S.Begin(iv.setup, iv.durationMinutes * MINUTE, now).value, []);
      assert sys == S.Run(iv.setup, sys, []);
      assert SessionTheorems.Reachable(iv.setup, sys);
      ReplaceOpen(w, i, StartInterview(w, i, credential, now).value.interviews[i]);
    }
  }

  lemma ReplaceOpen(w: World, i: nat, iv: Interview)
    requires Joint(w) && i == |w.interviews| - 1 && w.status == Interviewing && InterviewOk(iv) && IsOpen(iv)
    ensures Joint(SetInterview(w, i, iv))
  {
    RoundsReplace(w.interviews, i, iv);
  }

  lemma SessionKeepsStatus(setup: S.Setup, sys: S.System, e: S.Event)
    requires !e.FinishEv? && !e.SweepEv? && !e.CancelEv?
    ensures S.Step(setup, sys, e).db.session.status == sys.db.session.status
  {
  }

  lemma SessionStepOk(w: World, i: nat, e: S.Event)
    requires Joint(w) && SessionStep(w, i, e).Ok?
    ensures Joint(SessionStep(w, i, e).value)
  {
    var iv := w.interviews[i];
    assert InterviewOk(iv);
    SessionTheorems.ReachableStep(iv.setup, iv.session.value, e);
    SessionKeepsStatus(iv.setup, iv.session.value, e);
    ReplaceKeeps(w, i, iv.(session := Some(S.Step(iv.setup, iv.session.value, e))));
  }

  /** Ending the last, open round, and moving the application on accordingly. */
  lemma EndRound(w: World, i: nat, iv: Interview, status: AppStatus, version: nat)
    requires Joint(w) && i == |w.interviews| - 1 && w.status == Interviewing && InterviewOk(iv) && !IsOpen(iv)
    requires status == if iv.session.Some? then UnderReview else Shortlisted
    ensures Joint(SetInterview(w, i, iv).(status := status, version := version))
  {
    RoundsReplace(w.interviews, i, iv);
  }

  /** `e` is the session's own view of the same close. */
  lemma CloseSessionOk(w: World, i: nat, reason: S.EndReason, now: Time, e: S.Event)
    requires Joint(w) && i < |w.interviews| && w.interviews[i].session.Some?
    requires var iv := w.interviews[i];
      && iv.session.value.db.session.status == S.InProgress
      && S.Step(iv.setup, iv.session.value, e).db == S.Close(iv.session.value.db, reason, now)
      && S.Step(iv.setup, iv.session.value, e).calls == iv.session.value.calls
    ensures Joint(CloseSession(w, i, reason, now))
  {
    var iv := w.interviews[i];
    RunningIsOpen(w, i);
    assert InterviewOk(iv);
    SessionTheorems.ReachableStep(iv.setup, iv.session.value, e);
    EndRound(w, i, CloseSession(w, i, reason, now).interviews[i], UnderReview, w.version + 1);
  }

  lemma SweepOk(w: World, i: nat, now: Time)
    requires Joint(w) && SweepDeadline(w, i, now).Ok?
    ensures Joint(SweepDeadline(w, i, now).value)
  {
    CloseSessionOk(w, i, S.DeadlineReached, now, S.SweepEv(now));
  }

  lemma FinishOk(w: World, i: nat, confirm: bool, now: Time)
    requires Joint(w) && FinishSession(w, i, confirm, now).Ok?
    ensures Joint(FinishSession(w, i, confirm, now).value)
  {
    var db := S.Finish(w.interviews[i].session.value.db, confirm, now).value;
    CloseSessionOk(w, i, db.session.endReason.value, now, S.FinishEv(confirm, now));
  }

  lemma CancelledInterviewOk(iv: Interview, now: Time)
    requires InterviewOk(iv) && IsOpen(iv)
    ensures InterviewOk(CancelInterview(iv, now))
  {
    if iv.session.Some? {
      SessionTheorems.ReachableStep(iv.setup, iv.session.value, S.CancelEv(now));
      assert S.Step(iv.setup, iv.session.value, S.CancelEv(now))
          == iv.session.value.(db := S.CancelByHr(iv.session.value.db, now));
    }
  }

  lemma ExpireOk(w: World, i: nat, now: Time)
    requires Joint(w) && ExpireInterview(w, i, now).Ok?
    ensures Joint(ExpireInterview(w, i, now).value)
  {
    OpenIsLast(w, i);
    assert InterviewOk(w.interviews[i]);
    EndRound(w, i, ExpireInterview(w, i, now).value.interviews[i], Shortlisted, w.version + 1);
  }

  lemma RevokeOk(w: World, i: nat, expectedVersion: nat, now: Time)
    requires Joint(w) && Revoke(w, i, expectedVersion, now).Ok?
    ensures Joint(Revoke(w, i, expectedVersion, now).value)
  {
    var iv := w.interviews[i];
    OpenIsLast(w, i);
    assert InterviewOk(iv);
    CancelledInterviewOk(iv, now);
    EndRound(w, i, CancelInterview(iv, now), if iv.status == Invited then Shortlisted else UnderReview, w.version + 1);
  }

  lemma WithdrawOk(w: World, expectedVersion: nat, now: Time)
    requires Joint(w) && Withdraw(w, expectedVersion, now).Ok?
    ensures Joint(Withdraw(w, expectedVersion, now).value)
  {
    if !IsTerminal(w.status) {
      var after := CancelOpen(w.interviews, now);
      forall i | 0 <= i < |after|
        ensures InterviewOk(after[i]) && !IsOpen(after[i])
      {
        assert InterviewOk(w.interviews[i]);
        if IsOpen(w.interviews[i]) { CancelledInterviewOk(w.interviews[i], now); }
      }
    }
  }

  lemma DecideOk(w: World, outcome: DecisionOutcome, expectedVersion: nat, basis: Basis)
    requires Joint(w) && Decide(w, outcome, expectedVersion, basis).Ok?
    ensures Joint(Decide(w, outcome, expectedVersion, basis).value)
  {
  }

  lemma ResendOk(w: World, i: nat, expectedVersion: nat, newExpiry: Option<Time>, hasEmail: bool, now: Time)
    requires Joint(w) && ResendInvitation(w, i, expectedVersion, newExpiry, hasEmail, now).Ok?
    ensures Joint(ResendInvitation(w, i, expectedVersion, newExpiry, hasEmail, now).value)
  {
    assert InterviewOk(w.interviews[i]);
    ReplaceKeeps(w, i, ResendInvitation(w, i, expectedVersion, newExpiry, hasEmail, now).value.interviews[i]);
  }

  /** Requests outside transactions touch invitations and credentials only. */
  lemma AccessChangeOk(w: World, i: nat, invitations: seq<Invitation>, credentials: seq<Credential>)
    requires Joint(w) && i < |w.interviews|
    ensures Joint(SetInterview(w, i, w.interviews[i].(invitations := invitations, credentials := credentials)))
  {
    assert InterviewOk(w.interviews[i]);
    ReplaceKeeps(w, i, w.interviews[i].(invitations := invitations, credentials := credentials));
  }

  lemma WriteCredentialOk(w: World, t: nat)
    requires Joint(w)
    ensures Joint(WriteCredential(w, t))
  {
    if WriteCredential(w, t) != w {
      var i := w.tickets[t].interview;
      AccessChangeOk(w, i, w.interviews[i].invitations, WriteCredential(w, t).interviews[i].credentials);
    }
  }

  lemma SaveReadOk(w: World, t: nat)
    requires Joint(w)
    ensures Joint(SaveRead(w, t))
  {
    if SaveRead(w, t) != w {
      var i := w.tickets[t].interview;
      var after := SaveRead(w, t).interviews[i];
      AccessChangeOk(w, i, after.invitations, after.credentials);
      assert after == w.interviews[i].(invitations := after.invitations, credentials := after.credentials);
    }
  }

  /** Reads, notes and CVs leave rounds, status and decision alone. */
  lemma ReadOk(w: World, e: Event)
    requires Joint(w) && (e.ReadExchangeEv? || e.ReadLobbyEv?)
    ensures Joint(Step(w, e))
  {
  }

  lemma ColumnsOk(w: World, e: Event)
    requires Joint(w) && (e.NotesEv? || e.UploadCvEv? || e.RemoveCvEv?)
    ensures Joint(Step(w, e))
  {
    var w' := Step(w, e);
    assert w'.interviews == w.interviews && w'.status == w.status && w'.decisions == w.decisions;
  }

  lemma RoundOk(w: World, e: Event)
    requires Joint(w) && Attempt(w, e).Ok?
    requires e.StartEv? || e.SessionEv? || e.SweepEv? || e.FinishEv? || e.ExpireEv? || e.RevokeEv? || e.ResendEv?
    ensures Joint(Step(w, e))
  {
    match e
    case StartEv(i, credential, now) => StartOk(w, i, credential, now);
    case SessionEv(i, ev) => SessionStepOk(w, i, ev);
    case SweepEv(i, now) => SweepOk(w, i, now);
    case FinishEv(i, confirm, now) => FinishOk(w, i, confirm, now);
    case ExpireEv(i, now) => ExpireOk(w, i, now);
    case RevokeEv(i, expectedVersion, now) => RevokeOk(w, i, expectedVersion, now);
    case ResendEv(i, expectedVersion, newExpiry, hasEmail, now) => ResendOk(w, i, expectedVersion, newExpiry, hasEmail, now);
  }

  /** Every step keeps application, interviews, sessions and decision in agreement. */
  lemma StepOk(w: World, e: Event)
    requires Joint(w)
    ensures Joint(Step(w, e))
  {
    if Attempt(w, e).Ok? {
      match e
      case CreateEv(input, now) => CreateOk(w, input, now);
      case WithdrawEv(expectedVersion, now) => WithdrawOk(w, expectedVersion, now);
      case DecideEv(outcome, expectedVersion, basis) => DecideOk(w, outcome, expectedVersion, basis);
      case WriteCredentialEv(t) => WriteCredentialOk(w, t);
      case SaveReadEv(t) => SaveReadOk(w, t);
      case NotesEv(_) => ColumnsOk(w, e);
      case UploadCvEv(_) => ColumnsOk(w, e);
      case RemoveCvEv(_) => ColumnsOk(w, e);
      case ReadExchangeEv(_, _, _) => ReadOk(w, e);
      case ReadLobbyEv(_, _, _) => ReadOk(w, e);
      case _ => RoundOk(w, e);
    }
  }

  lemma {:induction false} RunOk(w: World, events: seq<Event>)
    requires Joint(w)
    ensures Joint(Run(w, events))
    decreases |events|
  {
    if events != [] {
      StepOk(w, events[0]);
      RunOk(Step(w, events[0]), events[1..]);
    }
  }

  /* ---------- the main results ---------- */

  ghost predicate Reachable(w: World) {
    exists events: seq<Event> :: w == Run(NewApplication(), events)
  }

  lemma ReachableJoint(w: World)
    requires Reachable(w)
    ensures Joint(w)
  {
    var events :| w == Run(NewApplication(), events);
    RunOk(NewApplication(), events);
  }

  /** The three coupled statuses, in every reachable state. */
  lemma StatusesAgree(w: World, i: nat)
    requires Reachable(w) && i < |w.interviews|
    ensures w.status == Interviewing <==> HasOpen(w.interviews)
    ensures w.interviews[i].status == InProgress
        <==> w.interviews[i].session.Some? && w.interviews[i].session.value.db.session.status == S.InProgress
    ensures w.interviews[i].status == Invited ==> w.interviews[i].session.None?
    ensures w.interviews[i].session.Some? ==>
      w.interviews[i].status == StatusOf(w.interviews[i].session.value.db.session.status)
  {
    ReachableJoint(w);
    assert InterviewOk(w.interviews[i]);
    if w.status == Interviewing {
      assert IsOpen(w.interviews[|w.interviews| - 1]);
    }
  }

  /** Never two open interviews, and never two sessions across all rounds. */
  lemma OneOpenOneSession(w: World, i: nat, j: nat)
    requires Reachable(w) && i < j < |w.interviews|
    ensures !(IsOpen(w.interviews[i]) && IsOpen(w.interviews[j]))
    ensures !(w.interviews[i].session.Some? && w.interviews[j].session.Some?)
  {
    ReachableJoint(w);
    assert Unused(w.interviews[i]);
  }

  /** An application is approved or rejected exactly when one decision row with that outcome exists. */
  lemma DecisionMatchesStatus(w: World)
    requires Reachable(w)
    ensures |w.decisions| <= 1
    ensures w.status == Approved <==> |w.decisions| == 1 && w.decisions[0].outcome == Approve
    ensures w.status == Rejected <==> |w.decisions| == 1 && w.decisions[0].outcome == Reject
    ensures w.decisions != [] ==>
      && w.decisions[0].basisInterview < |w.interviews|
      && HasClosedSession(w.interviews[w.decisions[0].basisInterview])
  {
    ReachableJoint(w);
    if w.decisions != [] {
      var last := w.interviews[|w.interviews| - 1];
      assert InterviewOk(last);
      SessionTheorems.ReachableInv(last.setup, last.session.value);
    }
  }

  /**
   * A start in time never fails: there is a first question, the deadline lies the agreed 10 to 90
   * minutes ahead, and the cookie it came with outlives that deadline by half an hour.
   */
  lemma TimelyStartSucceeds(w: World, i: nat, c: nat, now: Time)
    requires Reachable(w) && i < |w.interviews| && w.interviews[i].status == Invited
    requires now <= w.interviews[i].invitationExpiresAt
    ensures StartInterview(w, i, c, now).Ok?
    ensures var iv, after := w.interviews[i], StartInterview(w, i, c, now).value.interviews[i];
      && after.session.Some? && after.status == InProgress
      && var deadlineAt := after.session.value.db.session.deadlineAt;
         && deadlineAt == now + iv.durationMinutes * MINUTE && now + 10 * MINUTE <= deadlineAt <= now + 90 * MINUTE
         && |after.credentials| == |iv.credentials|
         && (c < |iv.credentials| ==> deadlineAt + 30 * MINUTE <= after.credentials[c].expiresAt)
         && forall k :: 0 <= k < |iv.credentials| && k != c ==> after.credentials[k] == iv.credentials[k]
  {
    ReachableJoint(w);
    assert InterviewOk(w.interviews[i]);
  }

  predicate HasClosedSession(iv: Interview) {
    iv.session.Some? && iv.session.value.db.session.state == S.Closed
  }

  /** Under review means: there was a session, it is over, and nothing was decided. */
  lemma UnderReviewHasTranscript(w: World)
    requires Reachable(w) && w.status == UnderReview
    ensures w.decisions == []
    ensures exists i :: 0 <= i < |w.interviews| && HasClosedSession(w.interviews[i])
  {
    ReachableJoint(w);
    var last := w.interviews[|w.interviews| - 1];
    assert InterviewOk(last);
    SessionTheorems.ReachableInv(last.setup, last.session.value);
  }

  /** Why closing may write UNDER_REVIEW without looking: a session only runs while the application interviews. */
  lemma CloseWritesFromInterviewing(w: World, e: Event)
    requires Reachable(w) && (e.SweepEv? || e.FinishEv?) && Attempt(w, e).Ok?
    ensures w.status == Interviewing && Step(w, e).status == UnderReview
    ensures !HasOpen(Step(w, e).interviews)
  {
    ReachableJoint(w);
    RunningIsOpen(w, e.i);
    StepOk(w, e);
    var interviews := Step(w, e).interviews;
    forall k | 0 <= k < |interviews|
      ensures !IsOpen(interviews[k])
    {
    }
  }

  /** Status, decision and rounds stand still. */
  ghost predicate SameStanding(a: World, b: World) {
    && b.status == a.status && b.decisions == a.decisions
    && |b.interviews| == |a.interviews|
    && forall i :: 0 <= i < |a.interviews| ==>
         && b.interviews[i].status == a.interviews[i].status
         && b.interviews[i].version == a.interviews[i].version
         && b.interviews[i].invitationVersion == a.interviews[i].invitationVersion
  }

  /** Requests outside transactions touch no column of the application and none of these of an interview. */
  lemma RequestsStand(w: World, e: Event)
    requires e.ReadExchangeEv? || e.ReadLobbyEv? || e.WriteCredentialEv? || e.SaveReadEv?
    ensures SameStanding(w, Step(w, e)) && Step(w, e).version == w.version
  {
  }

  lemma CvsStand(w: World, e: Event)
    requires IsTerminal(w.status) && (e.UploadCvEv? || e.RemoveCvEv?)
    ensures SameStanding(w, Step(w, e)) && Step(w, e).version == w.version + RemovesCurrentCv(w, e)
  {
  }

  lemma TerminalStep(w: World, e: Event)
    requires Joint(w) && IsTerminal(w.status)
    ensures SameStanding(w, Step(w, e)) && Step(w, e).version == w.version + RemovesCurrentCv(w, e)
  {
    if e.ReadExchangeEv? || e.ReadLobbyEv? || e.WriteCredentialEv? || e.SaveReadEv? {
      RequestsStand(w, e);
    } else if e.UploadCvEv? || e.RemoveCvEv? {
      CvsStand(w, e);
    } else if e.SweepEv? || e.FinishEv? {
      TerminalRefusesClose(w, e);
    } else if e.StartEv? || e.ExpireEv? || e.RevokeEv? || e.ResendEv? {
      TerminalRefusesRound(w, e);
    }
  }

  /** No session runs any more. */
  lemma TerminalRefusesClose(w: World, e: Event)
    requires Joint(w) && IsTerminal(w.status) && (e.SweepEv? || e.FinishEv?)
    ensures Step(w, e) == w
  {
    if Attempt(w, e).Ok? {
      RunningIsOpen(w, e.i);
      assert false;
    }
  }

  /** No interview is open any more. */
  lemma TerminalRefusesRound(w: World, e: Event)
    requires Joint(w) && IsTerminal(w.status) && (e.StartEv? || e.ExpireEv? || e.RevokeEv? || e.ResendEv?)
    ensures Step(w, e) == w
  {
    if e.i < |w.interviews| && IsOpen(w.interviews[e.i]) {
      OpenIsLast(w, e.i);
      assert false;
    }
  }

  /** The one write that is left: deleting a CV looks at no status, and the current CV is a column of the application. */
  function RemovesCurrentCv(w: World, e: Event): nat {
    if e.RemoveCvEv? && RemoveCv(w, e.cv).Ok? && w.currentCv == Some(e.cv) then 1 else 0
  }

  /** How often a run deletes the CV that is current at that moment. */
  function CurrentCvRemovals(w: World, events: seq<Event>): nat
    decreases |events|
  {
    if events == [] then 0 else RemovesCurrentCv(w, events[0]) + CurrentCvRemovals(Step(w, events[0]), events[1..])
  }

  /**
   * Terminal statuses are absorbing over whole runs: status, decision and rounds stand still, and
   * the version moves once for each deletion of a current CV and for nothing else.
   */
  lemma {:induction false} TerminalAbsorbing(w: World, events: seq<Event>)
    requires Reachable(w) && IsTerminal(w.status)
    ensures SameStanding(w, Run(w, events))
    ensures Run(w, events).version == w.version + CurrentCvRemovals(w, events)
    decreases |events|
  {
    if events != [] {
      var next := Step(w, events[0]);
      ReachableJoint(w);
      TerminalStep(w, events[0]);
      ReachableNext(w, events[0]);
      TerminalAbsorbing(next, events[1..]);
    }
  }

  lemma {:induction false} RunAppend(w: World, events: seq<Event>, e: Event)
    ensures Run(w, events + [e]) == Step(Run(w, events), e)
    decreases |events|
  {
    if events == [] {
      assert events + [e] == [e];
      assert Run(w, [e]) == Run(Step(w, e), []);
    } else {
      assert (events + [e])[1..] == events[1..] + [e];
      RunAppend(Step(w, events[0]), events[1..], e);
    }
  }

  lemma RunThree(w: World, events: seq<Event>)
    requires |events| >= 3
    ensures Run(w, events) == Run(Step(Step(Step(w, events[0]), events[1]), events[2]), events[3..])
  {
    var a := Step(w, events[0]);
    var b := Step(a, events[1]);
    assert events[1..][1..] == events[2..] && events[2..][1..] == events[3..];
    assert Run(a, events[1..]) == Run(b, events[2..]);
    assert Run(b, events[2..]) == Run(Step(b, events[2]), events[3..]);
  }

  /** A withdrawn application whose CV is then deleted: the version has moved although nothing else has. */
  lemma RemovalMovesTerminalVersion()
    ensures var w := Run(NewApplication(), [UploadCvEv(false), WithdrawEv(2, 0), RemoveCvEv(0)]);
      w.status == Withdrawn && w.version == 4 && w.currentCv == None
  {
    var events := [UploadCvEv(false), WithdrawEv(2, 0), RemoveCvEv(0)];
    var w2 := Step(Step(NewApplication(), events[0]), events[1]);
    assert w2.status == Withdrawn && w2.version == 3 && w2.cvDeleted == [false] && w2.currentCv == Some(0);
    assert [false][0 := true] == [true] && [true][..0] == [];
    RunThree(NewApplication(), events);
    assert events[3..] == [];
  }

  lemma ReachableNext(w: World, e: Event)
    requires Reachable(w)
    ensures Reachable(Step(w, e))
  {
    var events :| w == Run(NewApplication(), events);
    RunAppend(NewApplication(), events, e);
  }

  /* ---------- what only ever grows ---------- */

  /** An interview's version stands still only while its status and its invitation version do. */
  ghost predicate InterviewGrows(a: Interview, b: Interview) {
    && (a.session.Some? ==> b.session.Some?)
    && a.version <= b.version
    && (a.version == b.version ==> a.status == b.status && a.invitationVersion == b.invitationVersion)
  }

  /** Rows are never deleted, no session ever disappears, and no status changes behind its version's back. */
  ghost predicate Grows(a: World, b: World) {
    && a.version <= b.version
    && (a.version == b.version ==> a.status == b.status && a.decisions == b.decisions)
    && |a.interviews| <= |b.interviews|
    && forall i :: 0 <= i < |a.interviews| ==> InterviewGrows(a.interviews[i], b.interviews[i])
  }

  lemma RoundGrows(w: World, e: Event)
    requires e.StartEv? || e.SessionEv? || e.SweepEv? || e.FinishEv? || e.ExpireEv? || e.RevokeEv? || e.ResendEv?
    ensures Grows(w, Step(w, e))
  {
  }

  lemma RequestGrows(w: World, e: Event)
    requires e.ReadExchangeEv? || e.ReadLobbyEv? || e.WriteCredentialEv? || e.SaveReadEv?
    ensures Grows(w, Step(w, e))
  {
  }

  lemma StepGrows(w: World, e: Event)
    ensures Grows(w, Step(w, e))
  {
    if e.StartEv? || e.SessionEv? || e.SweepEv? || e.FinishEv? || e.ExpireEv? || e.RevokeEv? || e.ResendEv? {
      RoundGrows(w, e);
    } else if e.ReadExchangeEv? || e.ReadLobbyEv? || e.WriteCredentialEv? || e.SaveReadEv? {
      RequestGrows(w, e);
    }
  }

  lemma {:induction false} RunGrows(w: World, events: seq<Event>)
    ensures Grows(w, Run(w, events))
    decreases |events|
  {
    if events != [] {
      StepGrows(w, events[0]);
      RunGrows(Step(w, events[0]), events[1..]);
    }
  }

  /** Once there has been a session there is never another round, so it stays the only one. */
  lemma NoRoundAfterSession(w: World, i: nat, events: seq<Event>)
    requires Reachable(w) && i < |w.interviews| && w.interviews[i].session.Some?
    ensures |Run(w, events).interviews| == |w.interviews| == i + 1
  {
    ReachableJoint(w);
    RunOk(w, events);
    RunGrows(w, events);
    assert InterviewGrows(w.interviews[i], Run(w, events).interviews[i]);
    assert i < |Run(w, events).interviews| - 1 ==> Unused(Run(w, events).interviews[i]);
  }

  /* ---------- optimistic concurrency ---------- */

  /**
   * A client that read the application and acts on what it saw is refused if the status has
   * changed since, by whatever steps, even if it has changed back in the meantime.
   */
  lemma StaleReadIsRefused(w: World, before: seq<Event>, after: seq<Event>, e: Event)
    requires var mid := Run(w, before); mid.status != w.status || mid.decisions != w.decisions
    requires match e
      case CreateEv(input, _) => input.expectedVersion == w.version
      case WithdrawEv(expectedVersion, _) => expectedVersion == w.version
      case NotesEv(expectedVersion) => expectedVersion == w.version
      case DecideEv(_, expectedVersion, _) => expectedVersion == w.version
      case _ => false
    ensures Attempt(Run(Run(w, before), after), e).Err?
  {
    RunGrows(w, before);
    RunGrows(Run(w, before), after);
  }

  /** The same for a client that read an interview: a revoke or a resend in between is noticed. */
  lemma StaleInterviewReadIsRefused(w: World, i: nat, before: seq<Event>, after: seq<Event>, e: Event)
    requires i < |w.interviews| && i < |Run(w, before).interviews|
    requires var x, y := w.interviews[i], Run(w, before).interviews[i];
      x.status != y.status || x.invitationVersion != y.invitationVersion
    requires match e
      case RevokeEv(k, expectedVersion, _) => k == i && expectedVersion == w.interviews[i].version
      case ResendEv(k, expectedVersion, _, _, _) => k == i && expectedVersion == w.interviews[i].version
      case _ => false
    ensures Attempt(Run(Run(w, before), after), e).Err?
  {
    RunGrows(w, before);
    RunGrows(Run(w, before), after);
  }
}
