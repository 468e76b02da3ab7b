/**
 * Profile extraction of one CV: a claim under a processing version, an external call, a fenced
 * commit, and manual edits in between
 * (nestjs-auth/src/modules/documents/services/cv-extraction-state.service.ts and cv-versions.service.ts).
 */
module CvExtraction {
  import opened Base
  import R = AiRuns
  import Fencing

  datatype ExtractionStatus = Pending | Processing | Ready | Failed | NeedsManualInput

  datatype Profile = Profile(schemaVersion: string, content: string)

  /** The CV row, with the AI runs that belong to it; `number` is its version among the application's CVs. */
  datatype Cv = Cv(number: nat, extraction: ExtractionStatus, processingVersion: nat, profile: Option<Profile>,
                   approved: bool, profileVersion: nat, errorCode: Option<string>, updatedAt: Time, deleted: bool,
                   runs: seq<R.AiRun>)

  /** What a worker takes outside the transaction: its run, and the version it claimed. */
  datatype Claim = Claim(run: nat, version: nat)

  datatype CvError = NotFound | ApplicationStateConflict | AlreadyApproved | InProgress | NotRetryable
                   | VersionConflict | ProfileLocked | ProfileNotReady | DuplicateNumber

  datatype Claimed = Claimed(cv: Cv, claim: Claim)

  /** `failure` is the status the error was mapped to. */
  datatype WorkResult = Extracted(profile: Profile) | Broken(needsManualInput: bool, code: string)

  const PROFILE_SCHEMA := "profile.v1"

  function Uploaded(number: nat, now: Time): Cv {
    Cv(number, Pending, 1, None, false, 1, None, now, false, [])
  }

  predicate IsStale(cv: Cv, staleMs: int, now: Time) {
    cv.extraction == Processing && now - cv.updatedAt > staleMs
  }

  function StartClaim(cv: Cv, version: nat, runs: seq<R.AiRun>, now: Time): Claimed {
    Claimed(cv.(extraction := Processing, processingVersion := version, errorCode := None, updatedAt := now,
                runs := R.Start(runs)),
            Claim(|runs|, version))
  }

  function ClaimInitial(cv: Cv, shortlisted: bool, expectedVersion: nat, now: Time): Result<Claimed, CvError> {
    if cv.deleted then Err(NotFound)
    else if !shortlisted then Err(ApplicationStateConflict)
    else if cv.approved then Err(AlreadyApproved)
    else if cv.extraction == Processing then Err(InProgress)
    else if cv.extraction != Pending then Err(NotRetryable)
    else if cv.processingVersion != expectedVersion then Err(VersionConflict)
    else Ok(StartClaim(cv, cv.processingVersion, cv.runs, now))
  }

  /** The run of a stale claim is looked up by its status and superseded. */
  function SupersedeActive(runs: seq<R.AiRun>, now: Time): (r: seq<R.AiRun>)
    ensures |r| == |runs|
  {
    if exists i :: 0 <= i < |runs| && runs[i].status == R.Processing then R.Supersede(runs, FirstActive(runs), now)
    else runs
  }

  function FirstActive(runs: seq<R.AiRun>): (i: nat)
    requires exists i :: 0 <= i < |runs| && runs[i].status == R.Processing
    ensures i < |runs| && runs[i].status == R.Processing
    ensures forall j :: 0 <= j < i ==> runs[j].status != R.Processing
  {
    if runs[0].status == R.Processing then 0 else
      assert exists i :: 0 <= i < |runs[1..]| && runs[1..][i].status == R.Processing by {
        var i :| 0 <= i < |runs| && runs[i].status == R.Processing;
        assert runs[1..][i - 1] == runs[i];
      }
      FirstActive(runs[1..]) + 1
  }

  function ClaimRetry(cv: Cv, shortlisted: bool, expectedVersion: nat, staleMs: int, now: Time): Result<Claimed, CvError> {
    if cv.deleted then Err(NotFound)
    else if !shortlisted then Err(ApplicationStateConflict)
    else if cv.approved then Err(AlreadyApproved)
    else if cv.processingVersion != expectedVersion then Err(VersionConflict)
    else if cv.extraction == Failed || cv.extraction == NeedsManualInput then
      Ok(StartClaim(cv, cv.processingVersion + 1, cv.runs, now))
    else if IsStale(cv, staleMs, now) then
      Ok(StartClaim(cv, cv.processingVersion + 1, SupersedeActive(cv.runs, now), now))
    else if cv.extraction == Processing then Err(InProgress)
    else Err(NotRetryable)
  }

  function Complete(cv: Cv, claim: Claim, profile: Profile, now: Time): Cv {
    if cv.deleted || cv.processingVersion != claim.version || cv.extraction != Processing || cv.approved then
      cv.(runs := R.Supersede(cv.runs, claim.run, now))
    else
      cv.(profile := Some(profile), extraction := Ready, profileVersion := cv.profileVersion + 1, errorCode := None,
          updatedAt := now, runs := R.Succeed(cv.runs, claim.run, now))
  }

  /** A failure is also written over an approved profile's extraction status. */
  function Fail(cv: Cv, claim: Claim, needsManualInput: bool, code: string, now: Time): Cv {
    if cv.deleted || cv.processingVersion != claim.version || cv.extraction != Processing then
      cv.(runs := R.Supersede(cv.runs, claim.run, now))
    else
      cv.(extraction := if needsManualInput then NeedsManualInput else Failed, errorCode := Some(code), updatedAt := now,
          runs := R.Fail(cv.runs, claim.run, code, now))
  }

  function Deliver(cv: Cv, claim: Claim, result: WorkResult, now: Time): Cv {
    match result
    case Extracted(profile) => Complete(cv, claim, profile, now)
    case Broken(needsManualInput, code) => Fail(cv, claim, needsManualInput, code, now)
  }

  function UpdateProfile(cv: Cv, shortlisted: bool, expectedProfileVersion: nat, profile: Profile, staleMs: int, now: Time)
    : Result<Cv, CvError>
  {
    if cv.deleted then Err(NotFound)
    else if !shortlisted then Err(ApplicationStateConflict)
    else if cv.approved then Err(ProfileLocked)
    else if cv.extraction == Processing && !IsStale(cv, staleMs, now) then Err(InProgress)
    else if cv.profileVersion != expectedProfileVersion then Err(VersionConflict)
    else Ok(cv.(profile := Some(profile), profileVersion := cv.profileVersion + 1, updatedAt := now))
  }

  function ApproveProfile(cv: Cv, shortlisted: bool, expectedProfileVersion: nat, staleMs: int, now: Time)
    : Result<Cv, CvError>
  {
    if cv.deleted then Err(NotFound)
    else if !shortlisted then Err(ApplicationStateConflict)
    else if cv.approved then Err(ProfileLocked)
    else if cv.extraction == Processing && !IsStale(cv, staleMs, now) then Err(InProgress)
    else if cv.profileVersion != expectedProfileVersion then Err(VersionConflict)
    else if cv.profile.None? || cv.profile.value.schemaVersion != PROFILE_SCHEMA then Err(ProfileNotReady)
    else Ok(cv.(approved := true, profileVersion := cv.profileVersion + 1, updatedAt := now))
  }

  /* ---------- the CV as a system ---------- */

  /** Every claim ever made is remembered: its results may come late, several times, or never. */
  datatype System = System(cv: Cv, claims: seq<Claim>)

  datatype Event =
    | ClaimEv(retry: bool, shortlisted: bool, expectedVersion: nat, now: Time)
    | ResultEv(claim: nat, result: WorkResult, now: Time)
    | EditEv(shortlisted: bool, expectedProfileVersion: nat, profile: Profile, now: Time)
    | ApproveEv(shortlisted: bool, expectedProfileVersion: nat, now: Time)
    | RemoveEv

  function Step(staleMs: int, s: System, e: Event): System {
    match e
    case ClaimEv(retry, shortlisted, expected, now) => (
      match if retry then ClaimRetry(s.cv, shortlisted, expected, staleMs, now)
            else ClaimInitial(s.cv, shortlisted, expected, now)
      case Ok(c) => System(c.cv, s.claims + [c.claim])
      case Err(_) => s)
    case ResultEv(k, result, now) =>
      if k < |s.claims| then s.(cv := Deliver(s.cv, s.claims[k], result, now)) else s
    case EditEv(shortlisted, expected, profile, now) => (
      match UpdateProfile(s.cv, shortlisted, expected, profile, staleMs, now)
      case Ok(cv) => s.(cv := cv)
      case Err(_) => s)
    case ApproveEv(shortlisted, expected, now) => (
      match ApproveProfile(s.cv, shortlisted, expected, staleMs, now)
      case Ok(cv) => s.(cv := cv)
      case Err(_) => s)
    case RemoveEv => s.(cv := s.cv.(deleted := true))
  }

  function Run(staleMs: int, s: System, events: seq<Event>): System
    decreases |events|
  {
    if events == [] then s else Run(staleMs, Step(staleMs, s, events[0]), events[1..])
  }

  /* ---------- invariant ---------- */

  /** Claim k is the k-th claim, made under version k + 1 with run k; a run waits only while its claim is current. */
  ghost predicate Inv(s: System) {
    && (forall k :: 0 <= k < |s.claims| ==> s.claims[k] == Claim(k, k + 1))
    && |s.cv.runs| == |s.claims|
    && (s.cv.extraction == Pending <==> s.claims == [])
    && s.cv.processingVersion == (if s.claims == [] then 1 else |s.claims|)
    && R.WellFormed(s.cv.runs) && R.OnlyLastActive(s.cv.runs)
    && (s.cv.extraction != Processing ==> R.NoneActive(s.cv.runs))
    && (s.cv.errorCode.Some? <==> s.cv.extraction == Failed || s.cv.extraction == NeedsManualInput)
    && (s.cv.approved ==> s.cv.profile.Some? && s.cv.profile.value.schemaVersion == PROFILE_SCHEMA)
  }

  lemma SupersedeActiveOk(runs: seq<R.AiRun>, now: Time)
    requires R.WellFormed(runs) && R.OnlyLastActive(runs)
    ensures R.WellFormed(SupersedeActive(runs, now)) && R.NoneActive(SupersedeActive(runs, now))
    ensures R.Evolves(runs, SupersedeActive(runs, now))
  {
  }

  lemma ClaimOk(staleMs: int, s: System, e: Event)
    requires Inv(s) && e.ClaimEv?
    ensures Inv(Step(staleMs, s, e)) && R.Evolves(s.cv.runs, Step(staleMs, s, e).cv.runs)
  {
    SupersedeActiveOk(s.cv.runs, e.now);
  }

  lemma ResultOk(staleMs: int, s: System, e: Event)
    requires Inv(s) && e.ResultEv?
    ensures Inv(Step(staleMs, s, e)) && R.Evolves(s.cv.runs, Step(staleMs, s, e).cv.runs)
  {
    var k := e.claim;
    if k < |s.claims| {
      R.SettleKeeps(s.cv.runs, k, R.Superseded, s.cv.runs[k].errorCode, e.now);
      match e.result
      case Extracted(_) => R.SettleKeeps(s.cv.runs, k, R.Succeeded, None, e.now);
      case Broken(_, code) => R.SettleKeeps(s.cv.runs, k, R.Failed, Some(R.Truncate(code)), e.now);
    }
  }

  lemma StepOk(staleMs: int, s: System, e: Event)
    requires Inv(s)
    ensures Inv(Step(staleMs, s, e)) && R.Evolves(s.cv.runs, Step(staleMs, s, e).cv.runs)
  {
    match e
    case ClaimEv(_, _, _, _) => ClaimOk(staleMs, s, e);
    case ResultEv(_, _, _) => ResultOk(staleMs, s, e);
    case _ =>
  }

  lemma {:induction false} RunOk(staleMs: int, s: System, events: seq<Event>)
    requires Inv(s)
    ensures Inv(Run(staleMs, s, events)) && R.Evolves(s.cv.runs, Run(staleMs, s, events).cv.runs)
    decreases |events|
  {
    if events != [] {
      var next := Step(staleMs, s, events[0]);
      StepOk(staleMs, s, events[0]);
      RunOk(staleMs, next, events[1..]);
      R.EvolvesTransitive(s.cv.runs, next.cv.runs, Run(staleMs, s, events).cv.runs);
    }
  }

  ghost predicate Reachable(staleMs: int, s: System) {
    exists number: nat, now: Time, events: seq<Event> :: s == Run(staleMs, System(Uploaded(number, now), []), events)
  }

  lemma ReachableInv(staleMs: int, s: System)
    requires Reachable(staleMs, s)
    ensures Inv(s)
  {
    var number: nat, now, events :| s == Run(staleMs, System(Uploaded(number, now), []), events);
    RunOk(staleMs, System(Uploaded(number, now), []), events);
  }

  /* ---------- fencing ---------- */

  /** Every state of a run, in order. */
  function Trace(staleMs: int, s: System, events: seq<Event>): (r: seq<System>)
    ensures |r| == |events| + 1 && r[0] == s
    decreases |events|
  {
    [s] + if events == [] then [] else Trace(staleMs, Step(staleMs, s, events[0]), events[1..])
  }

  lemma {:induction false} TraceSteps(staleMs: int, s: System, events: seq<Event>, i: nat)
    requires Inv(s) && i < |events|
    ensures var t := Trace(staleMs, s, events); t[i + 1] == Step(staleMs, t[i], events[i]) && Inv(t[i])
    decreases |events|
  {
    StepOk(staleMs, s, events[0]);
    if i > 0 {
      TraceSteps(staleMs, Step(staleMs, s, events[0]), events[1..], i - 1);
    }
  }

  /** The row as a fence: the processing version is the token, open while its result is awaited. */
  function CvFence(s: System): Fencing.Fence {
    Fencing.Fence(|s.claims|, s.cv.extraction == Processing)
  }

  function Fences(trace: seq<System>): (r: seq<Fencing.Fence>)
    ensures |r| == |trace|
  {
    seq(|trace|, i requires 0 <= i < |trace| => CvFence(trace[i]))
  }

  lemma StepMoves(staleMs: int, s: System, e: Event)
    requires Inv(s)
    ensures Fencing.Moves(CvFence(s), CvFence(Step(staleMs, s, e)))
  {
  }

  lemma FencesAreTrace(staleMs: int, s: System, events: seq<Event>)
    requires Inv(s)
    ensures Fencing.IsTrace(Fences(Trace(staleMs, s, events)))
  {
    var t := Trace(staleMs, s, events);
    forall i | 0 <= i < |t| - 1
      ensures Fencing.Moves(Fences(t)[i], Fences(t)[i + 1])
    {
      TraceSteps(staleMs, s, events, i);
      StepMoves(staleMs, t[i], events[i]);
    }
  }

  /** A delivered result reached the CV row itself, and not just its own run. */
  predicate Applied(s: System, e: Event) {
    && e.ResultEv? && e.claim < |s.claims|
    && var after := Deliver(s.cv, s.claims[e.claim], e.result, e.now);
       after.(runs := s.cv.runs) != s.cv
  }

  lemma AppliedCommits(staleMs: int, s: System, e: Event)
    requires Inv(s) && Applied(s, e)
    ensures Fencing.Commits(CvFence(s), CvFence(Step(staleMs, s, e)), s.claims[e.claim].version)
  {
  }

  lemma AppliedAt(staleMs: int, s: System, events: seq<Event>, i: nat)
    requires Inv(s) && i < |events| && Applied(Trace(staleMs, s, events)[i], events[i])
    ensures var t := Trace(staleMs, s, events);
      Fencing.Commits(Fences(t)[i], Fences(t)[i + 1], t[i].claims[events[i].claim].version)
  {
    TraceSteps(staleMs, s, events, i);
    AppliedCommits(staleMs, Trace(staleMs, s, events)[i], events[i]);
  }

  /** Each processing version is claimed by one run only. */
  lemma VersionClaimedOnce(staleMs: int, s: System, i: nat, j: nat)
    requires Reachable(staleMs, s) && i < j < |s.claims|
    ensures s.claims[i].version < s.claims[j].version && s.claims[i].run != s.claims[j].run
  {
    ReachableInv(staleMs, s);
  }

  /** Of all results delivered in a run under one processing version, at most one is applied. */
  lemma OneResultPerVersion(staleMs: int, s: System, events: seq<Event>, i: nat, j: nat)
    requires Reachable(staleMs, s) && i < j < |events|
    requires var t := Trace(staleMs, s, events); Applied(t[i], events[i]) && Applied(t[j], events[j])
    ensures var t := Trace(staleMs, s, events);
      t[i].claims[events[i].claim].version != t[j].claims[events[j].claim].version
  {
    var t := Trace(staleMs, s, events);
    ReachableInv(staleMs, s);
    AppliedAt(staleMs, s, events, i);
    AppliedAt(staleMs, s, events, j);
    FencesAreTrace(staleMs, s, events);
    Fencing.AtMostOneCommit(Fences(t), t[i].claims[events[i].claim].version, i, j);
  }

  /** At most one extraction run is waited for, and only while the row says so. */
  lemma ActiveRunDiscipline(staleMs: int, s: System, i: nat, j: nat)
    requires Reachable(staleMs, s) && i < |s.cv.runs| && j < |s.cv.runs|
    ensures s.cv.runs[i].status == R.Processing ==> s.cv.extraction == Processing && i == |s.claims| - 1
    ensures s.cv.runs[i].status == R.Processing && s.cv.runs[j].status == R.Processing ==> i == j
  {
    ReachableInv(staleMs, s);
  }

  /** An error code is shown exactly while the last extraction stands as failed. */
  lemma ErrorCodeMeansFailure(staleMs: int, s: System)
    requires Reachable(staleMs, s)
    ensures s.cv.errorCode.Some? <==> s.cv.extraction == Failed || s.cv.extraction == NeedsManualInput
  {
    ReachableInv(staleMs, s);
  }

  lemma FreshStep(staleMs: int, s: System, e: Event)
    requires s.cv.extraction == Processing && !e.ResultEv? && !e.RemoveEv? && e.now - s.cv.updatedAt <= staleMs
    ensures Step(staleMs, s, e) == s
  {
    assert !IsStale(s.cv, staleMs, e.now);
  }

  /**
   * While an extraction is under way and not stale nobody else claims, edits or approves: through
   * any run of attempts within that time nothing changes until a result or a deletion comes.
   */
  lemma {:induction false} ProcessingIsProtected(staleMs: int, s: System, events: seq<Event>)
    requires s.cv.extraction == Processing
    requires forall i :: 0 <= i < |events| ==>
      !events[i].ResultEv? && !events[i].RemoveEv? && events[i].now - s.cv.updatedAt <= staleMs
    ensures Run(staleMs, s, events) == s
    decreases |events|
  {
    if events != [] {
      FreshStep(staleMs, s, events[0]);
      ProcessingIsProtected(staleMs, s, events[1..]);
    }
  }

  /** A claim and an edit both start that time anew. */
  lemma ClaimAndEditStartTheClock(staleMs: int, s: System, e: Event)
    requires (e.ClaimEv? || e.EditEv?) && Step(staleMs, s, e) != s
    ensures Step(staleMs, s, e).cv.updatedAt == e.now
    ensures e.ClaimEv? ==> Step(staleMs, s, e).cv.extraction == Processing
  {
  }

  /**
   * An accepted claim holds for `staleMs` from its own clock reading on: through any run of attempts
   * with clocks up to then, and with no result and no deletion, everything stays as the claim left
   * it, and a retry after the last of them goes through exactly when its clock is past that time. An
   * accepted edit of a CV whose extraction went stale keeps everybody off for as long again.
   */
  lemma {:induction false} ClaimHoldsUntilStale(staleMs: int, s: System, e: Event, events: seq<Event>, later: Time)
    requires e.ClaimEv? || (e.EditEv? && s.cv.extraction == Processing)
    requires Step(staleMs, s, e) != s
    requires forall i :: 0 <= i < |events| ==>
      !events[i].ResultEv? && !events[i].RemoveEv? && events[i].now <= e.now + staleMs
    ensures Run(staleMs, Step(staleMs, s, e), events) == Step(staleMs, s, e)
    ensures var cv := Run(staleMs, Step(staleMs, s, e), events).cv;
      ClaimRetry(cv, true, cv.processingVersion, staleMs, later).Ok? <==> later > e.now + staleMs
  {
    ClaimAndEditStartTheClock(staleMs, s, e);
    ProcessingIsProtected(staleMs, Step(staleMs, s, e), events);
  }

  /* ---------- the profile ---------- */

  /** Over whole runs, under any mix of claims, retries, late results and edits: an approved profile is final. */
  lemma {:induction false} ApprovedIsFinal(staleMs: int, s: System, events: seq<Event>)
    requires s.cv.approved
    ensures var cv := Run(staleMs, s, events).cv;
      cv.approved && cv.profile == s.cv.profile && cv.profileVersion == s.cv.profileVersion
    decreases |events|
  {
    if events != [] {
      ApprovedIsFinal(staleMs, Step(staleMs, s, events[0]), events[1..]);
    }
  }

  /** The profile version never falls, and names the profile: while it stands still so does the profile. */
  lemma {:induction false} ProfileVersionNamesProfile(staleMs: int, s: System, events: seq<Event>)
    ensures var cv := Run(staleMs, s, events).cv;
      && s.cv.profileVersion <= cv.profileVersion
      && (s.cv.profileVersion == cv.profileVersion ==> cv.profile == s.cv.profile && cv.approved == s.cv.approved)
    decreases |events|
  {
    if events != [] {
      ProfileVersionNamesProfile(staleMs, Step(staleMs, s, events[0]), events[1..]);
    }
  }

  /** What may be approved has the schema the rest of the system reads. */
  lemma ApprovedHasSchema(staleMs: int, s: System)
    requires Reachable(staleMs, s) && s.cv.approved
    ensures s.cv.profile.Some? && s.cv.profile.value.schemaVersion == PROFILE_SCHEMA
  {
    ReachableInv(staleMs, s);
  }

  /** The step writes a profile: an accepted edit, or the applied result of an extraction. */
  predicate WritesProfile(staleMs: int, s: System, e: Event) {
    match e
    case EditEv(shortlisted, expected, profile, now) =>
      UpdateProfile(s.cv, shortlisted, expected, profile, staleMs, now).Ok?
    case ResultEv(k, result, _) =>
      && k < |s.claims| && result.Extracted? && !s.cv.deleted && !s.cv.approved
      && s.cv.processingVersion == s.claims[k].version && s.cv.extraction == Processing
    case _ => false
  }

  predicate WrittenIn(staleMs: int, s: System, events: seq<Event>)
    decreases |events|
  {
    events != [] && (WritesProfile(staleMs, s, events[0]) || WrittenIn(staleMs, Step(staleMs, s, events[0]), events[1..]))
  }

  /** How often the profile was written: its version, less the one step that approving takes. */
  function Writings(cv: Cv): int {
    cv.profileVersion - if cv.approved then 1 else 0
  }

  lemma WritingsStep(staleMs: int, s: System, e: Event)
    ensures Writings(Step(staleMs, s, e).cv) == Writings(s.cv) + if WritesProfile(staleMs, s, e) then 1 else 0
    ensures !WritesProfile(staleMs, s, e) ==> Step(staleMs, s, e).cv.profile == s.cv.profile
  {
  }

  /** Over any run the profile is as it was, never written, exactly when no edit was accepted and no result applied. */
  lemma {:induction false} ProfileStandsIff(staleMs: int, s: System, events: seq<Event>)
    ensures Writings(s.cv) <= Writings(Run(staleMs, s, events).cv)
    ensures Writings(Run(staleMs, s, events).cv) == Writings(s.cv) <==> !WrittenIn(staleMs, s, events)
    ensures !WrittenIn(staleMs, s, events) ==> Run(staleMs, s, events).cv.profile == s.cv.profile
    decreases |events|
  {
    if events != [] {
      WritingsStep(staleMs, s, events[0]);
      ProfileStandsIff(staleMs, Step(staleMs, s, events[0]), events[1..]);
    }
  }

  /** Nobody asks for another extraction or edits again. */
  predicate NoNewWriter(events: seq<Event>) {
    forall i :: 0 <= i < |events| ==> !events[i].ClaimEv? && !events[i].EditEv?
  }

  predicate StandsAfter(staleMs: int, s: System, edit: Profile, events: seq<Event>) {
    Run(staleMs, s, events).cv.profile == Some(edit)
  }

  lemma {:induction false} NothingUnderWay(staleMs: int, s: System, events: seq<Event>)
    requires s.cv.extraction != Processing && NoNewWriter(events)
    ensures Run(staleMs, s, events).cv.profile == s.cv.profile
    decreases |events|
  {
    if events != [] {
      NothingUnderWay(staleMs, Step(staleMs, s, events[0]), events[1..]);
    }
  }

  /**
   * A manual edit may be made while an extraction is stale, and is then exposed to it: the edit
   * survives every later run in which nobody claims or edits again if and only if no extraction
   * was under way when it was made.
   */
  lemma EditSurvivesIff(staleMs: int, s: System, shortlisted: bool, expected: nat, edit: Profile, now: Time)
    requires Reachable(staleMs, s) && UpdateProfile(s.cv, shortlisted, expected, edit, staleMs, now).Ok?
    ensures var edited := Step(staleMs, s, EditEv(shortlisted, expected, edit, now));
      (forall events: seq<Event> :: NoNewWriter(events) ==> StandsAfter(staleMs, edited, edit, events))
      <==> s.cv.extraction != Processing
  {
    var edited := Step(staleMs, s, EditEv(shortlisted, expected, edit, now));
    ReachableInv(staleMs, s);
    if s.cv.extraction != Processing {
      forall events: seq<Event> | NoNewWriter(events)
        ensures StandsAfter(staleMs, edited, edit, events)
      {
        NothingUnderWay(staleMs, edited, events);
      }
    } else {
      var other := Profile(PROFILE_SCHEMA, edit.content + "!");
      var late := [ResultEv(|s.claims| - 1, Extracted(other), now)];
      assert Run(staleMs, edited, late) == Run(staleMs, Step(staleMs, edited, late[0]), []);
      assert other.content != edit.content;
      assert NoNewWriter(late) && !StandsAfter(staleMs, edited, edit, late);
    }
  }

  /** The overwritten edit as a concrete run: claim, wait until stale, edit, and the late result arrives. */
  lemma StaleEditOverwritten(edit: Profile, late: Profile)
    requires edit != late
    ensures var events := [ClaimEv(false, true, 1, 0), EditEv(true, 1, edit, 120001), ResultEv(0, Extracted(late), 120002)];
      Run(120000, System(Uploaded(1, 0), []), events).cv.profile == Some(late)
  {
    var s0 := System(Uploaded(1, 0), []);
    var s1 := Step(120000, s0, ClaimEv(false, true, 1, 0));
    var s2 := Step(120000, s1, EditEv(true, 1, edit, 120001));
    var s3 := Step(120000, s2, ResultEv(0, Extracted(late), 120002));
    assert s3.cv.profile == Some(late);
    var events := [ClaimEv(false, true, 1, 0), EditEv(true, 1, edit, 120001), ResultEv(0, Extracted(late), 120002)];
    assert Run(120000, s0, events) == Run(120000, s1, events[1..]);
    assert events[1..][1..] == events[2..] && Run(120000, s1, events[1..]) == Run(120000, s2, events[2..]);
    assert events[2..][1..] == [] && Run(120000, s2, events[2..]) == Run(120000, s3, []);
  }
}

/** The extraction state service and the profile operations, on the row in place. */
module CvExtractionService {
  import opened Base
  import opened CvExtraction
  import R = AiRuns
  import opened AiRunService

  class CvRow {
    const runs: AiRunTable
    const number: nat
    var extraction: ExtractionStatus
    var processingVersion: nat
    var profile: Option<Profile>
    var approved: bool
    var profileVersion: nat
    var errorCode: Option<string>
    var updatedAt: Time
    var deleted: bool

    /** The row as a value, with its runs. */
    ghost function Row(): Cv
      reads this, runs
    {
      Cv(number, extraction, processingVersion, profile, approved, profileVersion, errorCode, updatedAt, deleted, runs.rows)
    }

    constructor (runs: AiRunTable, number: nat, now: Time)
      requires runs.rows == []
      ensures this.runs == runs && Row() == Uploaded(number, now)
    {
      this.runs, this.number := runs, number;
      extraction, processingVersion, profile, approved, profileVersion := Pending, 1, None, false, 1;
      errorCode, updatedAt, deleted := None, now, false;
    }

    method ClaimInitialExtraction(shortlisted: bool, expectedVersion: nat, now: Time) returns (r: Result<Claim, CvError>)
      modifies this, runs
      ensures match ClaimInitial(old(Row()), shortlisted, expectedVersion, now)
        case Ok(c) => r == Ok(c.claim) && Row() == c.cv
        case Err(e) => r == Err(e) && Row() == old(Row())
    {
      if deleted { return Err(NotFound); }
      if !shortlisted { return Err(ApplicationStateConflict); }
      if approved { return Err(AlreadyApproved); }
      if extraction == Processing { return Err(InProgress); }
      if extraction != Pending { return Err(NotRetryable); }
      if processingVersion != expectedVersion { return Err(VersionConflict); }
      extraction := Processing;
      errorCode := None;
      updatedAt := now;
      var aiRun := runs.Start();
      return Ok(Claim(aiRun, processingVersion));
    }

    method ClaimRetryExtraction(shortlisted: bool, expectedVersion: nat, staleMs: int, now: Time)
      returns (r: Result<Claim, CvError>)
      modifies this, runs
      ensures match ClaimRetry(old(Row()), shortlisted, expectedVersion, staleMs, now)
        case Ok(c) => r == Ok(c.claim) && Row() == c.cv
        case Err(e) => r == Err(e) && Row() == old(Row())
    {
      if deleted { return Err(NotFound); }
      if !shortlisted { return Err(ApplicationStateConflict); }
      if approved { return Err(AlreadyApproved); }
      if processingVersion != expectedVersion { return Err(VersionConflict); }
      var isStale := extraction == Processing && now - updatedAt > staleMs;
      var canRetry := extraction == Failed || extraction == NeedsManualInput || isStale;
      if !canRetry {
        if extraction == Processing { return Err(InProgress); }
        return Err(NotRetryable);
      }
      if isStale {
        SupersedeActiveRun(now);
      }
      processingVersion := processingVersion + 1;
      extraction := Processing;
      errorCode := None;
      updatedAt := now;
      var aiRun := runs.Start();
      return Ok(Claim(aiRun, processingVersion));
    }

    method SupersedeActiveRun(now: Time)
      modifies runs
      ensures runs.rows == SupersedeActive(old(runs.rows), now)
    {
      var ids := runs.ActiveRuns();
      if ids != [] {
        assert runs.rows[ids[0]].status == R.Processing;
        assert FirstActive(runs.rows) in ids;
        var _ := runs.Supersede(ids[0], now);
      }
    }

    method CompleteExtraction(claim: Claim, data: Profile, now: Time) returns (superseded: bool)
      modifies this, runs
      ensures Row() == Complete(old(Row()), claim, data, now)
      ensures superseded <==> old(deleted || processingVersion != claim.version || extraction != Processing || approved)
    {
      if deleted || processingVersion != claim.version || extraction != Processing || approved {
        var _ := runs.Supersede(claim.run, now);
        return true;
      }
      profile := Some(data);
      extraction := Ready;
      profileVersion := profileVersion + 1;
      errorCode := None;
      updatedAt := now;
      var _ := runs.Succeed(claim.run, now);
      return false;
    }

    method FailExtraction(claim: Claim, needsManualInput: bool, code: string, now: Time) returns (superseded: bool)
      modifies this, runs
      ensures Row() == Fail(old(Row()), claim, needsManualInput, code, now)
      ensures superseded <==> old(deleted || processingVersion != claim.version || extraction != Processing)
    {
      if deleted || processingVersion != claim.version || extraction != Processing {
        var _ := runs.Supersede(claim.run, now);
        return true;
      }
      extraction := if needsManualInput then NeedsManualInput else Failed;
      errorCode := Some(code);
      updatedAt := now;
      var _ := runs.Fail(claim.run, code, now);
      return false;
    }

    method UpdateProfile(shortlisted: bool, expectedProfileVersion: nat, data: Profile, staleMs: int, now: Time)
      returns (r: Result<(), CvError>)
      modifies this
      ensures match CvExtraction.UpdateProfile(old(Row()), shortlisted, expectedProfileVersion, data, staleMs, now)
        case Ok(cv) => r == Ok(()) && Row() == cv
        case Err(e) => r == Err(e) && Row() == old(Row())
    {
      if deleted { return Err(NotFound); }
      if !shortlisted { return Err(ApplicationStateConflict); }
      if approved { return Err(ProfileLocked); }
      var isProcessingStale := now - updatedAt > staleMs;
      if extraction == Processing && !isProcessingStale { return Err(InProgress); }
      if profileVersion != expectedProfileVersion { return Err(VersionConflict); }
      profile := Some(data);
      profileVersion := profileVersion + 1;
      updatedAt := now;
      return Ok(());
    }

    method ApproveProfile(shortlisted: bool, expectedProfileVersion: nat, staleMs: int, now: Time)
      returns (r: Result<(), CvError>)
      modifies this
      ensures match CvExtraction.ApproveProfile(old(Row()), shortlisted, expectedProfileVersion, staleMs, now)
        case Ok(cv) => r == Ok(()) && Row() == cv
        case Err(e) => r == Err(e) && Row() == old(Row())
    {
      if deleted { return Err(NotFound); }
      if !shortlisted { return Err(ApplicationStateConflict); }
      if approved { return Err(ProfileLocked); }
      var isProcessingStale := now - updatedAt > staleMs;
      if extraction == Processing && !isProcessingStale { return Err(InProgress); }
      if profileVersion != expectedProfileVersion { return Err(VersionConflict); }
      if profile.None? || profile.value.schemaVersion != PROFILE_SCHEMA { return Err(ProfileNotReady); }
      approved := true;
      profileVersion := profileVersion + 1;
      updatedAt := now;
      return Ok(());
    }
  }
}
