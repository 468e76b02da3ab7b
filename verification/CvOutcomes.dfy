/** What each event on a CV stores, written out, and where the profile of a whole run comes from. */
module CvOutcomes {
  import opened Base
  import opened CvExtraction
  import R = AiRuns

  lemma CreationOutcome(number: nat, now: Time)
    ensures Uploaded(number, now) == Cv(number, Pending, 1, None, false, 1, None, now, false, [])
  {
  }

  /** An extraction is under way and its worker may still be at work. */
  predicate IsBusy(cv: Cv, staleMs: int, now: Time) {
    cv.extraction == Processing && now <= cv.updatedAt + staleMs
  }

  /** It failed, or it has been under way for longer than `staleMs`. */
  predicate IsDue(cv: Cv, staleMs: int, now: Time) {
    cv.extraction == Failed || cv.extraction == NeedsManualInput || (cv.extraction == Processing && cv.updatedAt + staleMs < now)
  }

  /** The row may be worked on at all. */
  predicate IsOpen(cv: Cv, shortlisted: bool) {
    !cv.deleted && shortlisted && !cv.approved
  }

  /* ---------- claims ---------- */

  predicate IsClaimable(cv: Cv, e: Event, staleMs: int)
    requires e.ClaimEv?
  {
    && IsOpen(cv, e.shortlisted) && cv.processingVersion == e.expectedVersion
    && if e.retry then IsDue(cv, staleMs, e.now) else cv.extraction == Pending
  }

  /** A claim starts a new run: under the present version the first time, under the next one for a retry. */
  lemma ClaimOutcome(staleMs: int, s: System, e: Event)
    requires Reachable(staleMs, s) && e.ClaimEv?
    ensures var after := Step(staleMs, s, e); var n := |s.cv.runs|;
      var version := s.cv.processingVersion + if e.retry then 1 else 0;
      if IsClaimable(s.cv, e, staleMs) then
        && after.cv.(runs := s.cv.runs)
           == s.cv.(extraction := Processing, processingVersion := version, errorCode := None, updatedAt := e.now)
        && after.claims == s.claims + [Claim(n, version)]
        && |after.cv.runs| == n + 1 && after.cv.runs[n] == R.AiRun(R.Processing, None, None)
        && (if e.retry then n > 0 && R.RunOvertaken(s.cv.runs, after.cv.runs[..n], n - 1, e.now) else n == 0)
      else after == s
  {
    ReachableInv(staleMs, s);
  }

  lemma ClaimRefusals(cv: Cv, shortlisted: bool, expected: nat, staleMs: int, now: Time)
    ensures var first, retry := ClaimInitial(cv, shortlisted, expected, now), ClaimRetry(cv, shortlisted, expected, staleMs, now);
      var open, named := IsOpen(cv, shortlisted), cv.processingVersion == expected;
      && (first == Err(NotFound) <==> cv.deleted) && (retry == Err(NotFound) <==> cv.deleted)
      && (first == Err(ApplicationStateConflict) <==> !cv.deleted && !shortlisted)
      && (retry == Err(ApplicationStateConflict) <==> !cv.deleted && !shortlisted)
      && (first == Err(AlreadyApproved) <==> !cv.deleted && shortlisted && cv.approved)
      && (retry == Err(AlreadyApproved) <==> !cv.deleted && shortlisted && cv.approved)
      && (first == Err(InProgress) <==> open && cv.extraction == Processing)
      && (first == Err(NotRetryable) <==> open && cv.extraction != Processing && cv.extraction != Pending)
      && (first == Err(VersionConflict) <==> open && cv.extraction == Pending && !named)
      && (retry == Err(VersionConflict) <==> open && !named)
      && (retry == Err(InProgress) <==> open && named && IsBusy(cv, staleMs, now))
      && (retry == Err(NotRetryable) <==> open && named && (cv.extraction == Pending || cv.extraction == Ready))
  {
  }

  /* ---------- results ---------- */

  /** The result belongs to the newest claim, which is still waited for. */
  predicate IsAwaited(s: System, k: nat) {
    k + 1 == |s.claims| && s.cv.extraction == Processing && !s.cv.deleted
  }

  /**
   * An awaited success becomes the profile, unless one was approved meanwhile; an awaited failure is
   * marked with its code, as FAILED or as NEEDS_MANUAL_INPUT as it was reported; any other result only
   * ends its run SUPERSEDED.
   */
  lemma ResultOutcome(staleMs: int, s: System, e: Event)
    requires Reachable(staleMs, s) && e.ResultEv? && e.claim < |s.claims|
    ensures var after := Step(staleMs, s, e);
      && after.claims == s.claims
      && (if IsAwaited(s, e.claim) && e.result.Extracted? && !s.cv.approved then
            && after.cv.(runs := s.cv.runs)
               == s.cv.(profile := Some(e.result.profile), profileVersion := s.cv.profileVersion + 1, extraction := Ready,
                        errorCode := None, updatedAt := e.now)
            && R.RunSucceeded(s.cv.runs, after.cv.runs, e.claim, e.now)
          else if IsAwaited(s, e.claim) && e.result.Broken? then
            && after.cv.(runs := s.cv.runs)
               == s.cv.(extraction := if e.result.needsManualInput then NeedsManualInput else Failed,
                        errorCode := Some(e.result.code), updatedAt := e.now)
            && R.RunFailed(s.cv.runs, after.cv.runs, e.claim, e.result.code, e.now)
          else
            after.cv.(runs := s.cv.runs) == s.cv && R.RunOvertaken(s.cv.runs, after.cv.runs, e.claim, e.now))
  {
    ReachableInv(staleMs, s);
  }

  /** A success that is applied leaves no error code, whatever stood there. */
  lemma SuccessClearsError(cv: Cv, claim: Claim, profile: Profile, now: Time)
    requires Complete(cv, claim, profile, now).extraction == Ready && cv.extraction == Processing
    ensures Complete(cv, claim, profile, now).errorCode == None
  {
  }

  /* ---------- edits, approvals, deletion ---------- */

  predicate IsEditable(cv: Cv, e: Event, staleMs: int)
    requires e.EditEv?
  {
    IsOpen(cv, e.shortlisted) && !IsBusy(cv, staleMs, e.now) && cv.profileVersion == e.expectedProfileVersion
  }

  predicate IsApprovable(cv: Cv, e: Event, staleMs: int)
    requires e.ApproveEv?
  {
    && IsOpen(cv, e.shortlisted) && !IsBusy(cv, staleMs, e.now) && cv.profileVersion == e.expectedProfileVersion
    && cv.profile.Some? && cv.profile.value.schemaVersion == "profile.v1"
  }

  lemma EditOutcome(staleMs: int, s: System, e: Event)
    requires e.EditEv?
    ensures Step(staleMs, s, e) ==
      if IsEditable(s.cv, e, staleMs)
      then s.(cv := s.cv.(profile := Some(e.profile), profileVersion := s.cv.profileVersion + 1, updatedAt := e.now)) else s
  {
  }

  lemma ApprovalOutcome(staleMs: int, s: System, e: Event)
    requires e.ApproveEv?
    ensures Step(staleMs, s, e) ==
      if IsApprovable(s.cv, e, staleMs)
      then s.(cv := s.cv.(approved := true, profileVersion := s.cv.profileVersion + 1, updatedAt := e.now)) else s
  {
  }

  lemma EditRefusals(cv: Cv, shortlisted: bool, expected: nat, profile: Profile, staleMs: int, now: Time)
    ensures var edit, approval := UpdateProfile(cv, shortlisted, expected, profile, staleMs, now),
                                  ApproveProfile(cv, shortlisted, expected, staleMs, now);
      var open, busy, named := IsOpen(cv, shortlisted), IsBusy(cv, staleMs, now), cv.profileVersion == expected;
      && (edit == Err(NotFound) <==> cv.deleted) && (approval == Err(NotFound) <==> cv.deleted)
      && (edit == Err(ApplicationStateConflict) <==> !cv.deleted && !shortlisted)
      && (approval == Err(ApplicationStateConflict) <==> !cv.deleted && !shortlisted)
      && (edit == Err(ProfileLocked) <==> !cv.deleted && shortlisted && cv.approved)
      && (approval == Err(ProfileLocked) <==> !cv.deleted && shortlisted && cv.approved)
      && (edit == Err(InProgress) <==> open && busy) && (approval == Err(InProgress) <==> open && busy)
      && (edit == Err(VersionConflict) <==> open && !busy && !named)
      && (approval == Err(VersionConflict) <==> open && !busy && !named)
      && var ready := cv.profile.Some? && cv.profile.value.schemaVersion == "profile.v1";
         approval == Err(ProfileNotReady) <==> open && !busy && named && !ready
  {
  }

  lemma RemovalOutcome(staleMs: int, s: System)
    ensures Step(staleMs, s, RemoveEv) == s.(cv := s.cv.(deleted := true))
  {
  }

  /* ---------- the profile over whole runs ---------- */

  /** The profile this event writes, if it writes one. */
  function ProfileFrom(staleMs: int, s: System, e: Event): Option<Profile> {
    match e
    case EditEv(_, _, profile, _) => if IsEditable(s.cv, e, staleMs) then Some(profile) else None
    case ResultEv(k, Extracted(profile), _) => if IsAwaited(s, k) && !s.cv.approved then Some(profile) else None
    case _ => None
  }

  /** The profile a run writes last; `before` if it writes none. */
  function LastProfile(staleMs: int, s: System, events: seq<Event>, before: Option<Profile>): Option<Profile>
    decreases |events|
  {
    if events == [] then before
    else
      var written := ProfileFrom(staleMs, s, events[0]);
      LastProfile(staleMs, Step(staleMs, s, events[0]), events[1..], if written.Some? then written else before)
  }

  lemma ProfileStep(staleMs: int, s: System, e: Event)
    requires Reachable(staleMs, s)
    ensures Step(staleMs, s, e).cv.profile
         == if ProfileFrom(staleMs, s, e).Some? then ProfileFrom(staleMs, s, e) else s.cv.profile
  {
    match e {
      case ClaimEv(_, _, _, _) => ClaimOutcome(staleMs, s, e);
      case ResultEv(k, _, _) => if k < |s.claims| { ResultOutcome(staleMs, s, e); }
      case EditEv(_, _, _, _) => EditOutcome(staleMs, s, e);
      case ApproveEv(_, _, _) => ApprovalOutcome(staleMs, s, e);
      case RemoveEv => RemovalOutcome(staleMs, s);
    }
  }

  /** Over any run the profile is, word for word, the one last edited in or extracted. */
  lemma {:induction false} ProfileIsLastWritten(staleMs: int, s: System, events: seq<Event>)
    requires Reachable(staleMs, s)
    ensures Run(staleMs, s, events).cv.profile == LastProfile(staleMs, s, events, s.cv.profile)
    decreases |events|
  {
    if events != [] {
      ProfileStep(staleMs, s, events[0]);
      ReachableNext(staleMs, s, events[0]);
      ProfileIsLastWritten(staleMs, Step(staleMs, s, events[0]), events[1..]);
    }
  }

  lemma ReachableNext(staleMs: int, s: System, e: Event)
    requires Reachable(staleMs, s)
    ensures Reachable(staleMs, Step(staleMs, s, e))
  {
    var number: nat, now, events :| s == Run(staleMs, System(Uploaded(number, now), []), events);
    RunAppend(staleMs, System(Uploaded(number, now), []), events, e);
  }

  lemma {:induction false} RunAppend(staleMs: int, s: System, events: seq<Event>, e: Event)
    ensures Run(staleMs, s, events + [e]) == Step(staleMs, Run(staleMs, s, events), e)
    decreases |events|
  {
    if events == [] {
      assert events + [e] == [e];
      assert Run(staleMs, s, [e]) == Run(staleMs, Step(staleMs, s, e), []);
    } else {
      assert (events + [e])[1..] == events[1..] + [e];
      RunAppend(staleMs, Step(staleMs, s, events[0]), events[1..], e);
    }
  }
}
