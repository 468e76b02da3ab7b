/** What each event on job, CVs, question sets and interviews stores, written out. */
module SnapshotOutcomes {
  import opened Base
  import opened Snapshots
  import C = CvExtraction
  import Q = QuestionSets
  import R = AiRuns
  import CurrentCv
  import LifecycleOutcomes

  /* ---------- the job ---------- */

  /** A named version, a job that is not closed, and a status that neither closes it nor takes it back to DRAFT. */
  predicate IsUpdatable(job: Job, expectedVersion: nat, status: Option<JobStatus>) {
    && job.version == expectedVersion && job.status != Closed && status != Some(Closed)
    && (job.status == Open ==> status != Some(Draft))
  }

  lemma JobOutcome(job: Job, expectedVersion: nat, content: string, criteria: set<string>, status: Option<JobStatus>)
    ensures UpdateJob(job, expectedVersion, content, criteria, status) ==
      if IsUpdatable(job, expectedVersion, status)
      then Job(content, criteria, if status == None then job.status else status.value, job.version + 1) else job
    ensures CloseJob(job, expectedVersion) ==
      if job.version == expectedVersion && job.status != Closed
      then Job(job.content, job.criteria, Closed, job.version + 1) else job
  {
  }

  /* ---------- CVs ---------- */

  lemma NextNumber(staleMs: int, w: World, seesDeleted: bool)
    requires Reachable(staleMs, w)
    ensures var n, next := |w.cvs|, CurrentCv.HighestSeen(Numbers(w.cvs), Deleted(w.cvs), seesDeleted) + 1;
      && (next in Numbers(w.cvs) <==> !seesDeleted && n > 0 && w.cvs[n - 1].cv.deleted)
      && (next !in Numbers(w.cvs) ==> next == n + 1)
  {
    ReachableInv(staleMs, w);
    CurrentCv.NumberFreeIff(Deleted(w.cvs), seesDeleted);
  }

  lemma UploadOutcome(staleMs: int, w: World, shortlisted: bool, seesDeleted: bool, now: Time)
    requires Reachable(staleMs, w)
    ensures var n, r := |w.cvs|, Upload(CvsOf(w), shortlisted, seesDeleted, now);
      if !shortlisted then r == Err(C.ApplicationStateConflict)
      else if !seesDeleted && n > 0 && w.cvs[n - 1].cv.deleted then r == Err(C.DuplicateNumber)
      else
        var row := C.Cv(n + 1, C.Pending, 1, None, false, 1, None, now, false, []);
        r == Ok(CvTable(w.cvs + [C.System(row, [])], Some(n), w.applicationVersion + 1))
  {
    NextNumber(staleMs, w, seesDeleted);
  }

  lemma RemovalOutcome(staleMs: int, w: World, i: nat)
    ensures var after := Step(staleMs, w, RemoveCvEv(i));
      if i < |w.cvs| && !w.cvs[i].cv.deleted then
        && after == w.(cvs := w.cvs[i := w.cvs[i].(cv := w.cvs[i].cv.(deleted := true))], currentCv := after.currentCv,
                       applicationVersion := after.applicationVersion)
        && if w.currentCv == Some(i) then
             LifecycleOutcomes.IsNewestLeft(Deleted(after.cvs), after.currentCv)
             && after.applicationVersion == w.applicationVersion + 1
           else after.currentCv == w.currentCv && after.applicationVersion == w.applicationVersion
      else after == w
  {
    if i < |w.cvs| {
      LifecycleOutcomes.NewestLeft(Deleted(w.cvs[i := C.Step(staleMs, w.cvs[i], C.RemoveEv)]));
    }
  }

  /* ---------- question sets ---------- */

  /** A generation starts exactly from the approved current CV, and takes down CV and job as they are. */
  lemma GenerationOutcome(staleMs: int, w: World, shortlisted: bool, cv: nat, now: Time)
    requires Reachable(staleMs, w)
    ensures Step(staleMs, w, GenerateEv(shortlisted, cv, now)) ==
      if shortlisted && w.currentCv == Some(cv) && cv < |w.cvs| && w.cvs[cv].cv.approved && w.cvs[cv].cv.profile.Some? then
        var profile, job := w.cvs[cv].cv.profile.value, Q.JobSnapshot(w.job.content, w.job.criteria, w.job.version);
        var origin := Q.Origin(false, cv, w.cvs[cv].cv.profileVersion, w.job.version, profile, job);
        w.(sets := w.sets + [Q.System(Q.QuestionSet(origin, Q.Generating, 1, 1, Some(0), [], now,
                                                    [R.AiRun(R.Processing, None, None)]), [Q.Claim(0, 1)])])
      else w
  {
    assert R.Start([]) == [R.AiRun(R.Processing, None, None)];
    if w.currentCv == Some(cv) && cv < |w.cvs| {
      CurrentCvIsNewestActive(staleMs, w, cv);
    }
  }

  /** A manual draft notes the current CV, reads CV and job when it gets to them, and inserts what it read, once. */
  lemma DraftOutcome(staleMs: int, w: World, shortlisted: bool, cv: nat, m: nat, now: Time)
    ensures Step(staleMs, w, MakingEv(shortlisted, cv)) ==
      if shortlisted && w.currentCv == Some(cv) then w.(makings := w.makings + [Making(cv, None, 0, None, false)]) else w
    ensures m >= |w.makings| ==>
      && Step(staleMs, w, MakingReadsCvEv(m)) == w && Step(staleMs, w, MakingReadsJobEv(m)) == w
      && Step(staleMs, w, MakingInsertsEv(m, now)) == w
    ensures m < |w.makings| ==>
      var k := w.makings[m];
      var found := k.cv < |w.cvs| && w.cvs[k.cv].cv.approved && w.cvs[k.cv].cv.profile.Some? && !w.cvs[k.cv].cv.deleted;
      && Step(staleMs, w, MakingReadsCvEv(m)) ==
           (if found then
              w.(makings := w.makings[m := k.(profile := w.cvs[k.cv].cv.profile, profileVersion := w.cvs[k.cv].cv.profileVersion)])
            else w)
      && Step(staleMs, w, MakingReadsJobEv(m)) ==
           w.(makings := w.makings[m := k.(job := Some(Q.JobSnapshot(w.job.content, w.job.criteria, w.job.version)))])
      && Step(staleMs, w, MakingInsertsEv(m, now)) ==
           (if k.profile.Some? && k.job.Some? && !k.inserted then
              var origin := Q.Origin(true, k.cv, k.profileVersion, k.job.value.version, k.profile.value, k.job.value);
              w.(sets := w.sets + [Q.System(Q.QuestionSet(origin, Q.Draft, 1, 1, None, [], now, []), [])],
                 makings := w.makings[m := k.(inserted := true)])
            else w)
  {
  }

  /** A set is told what the application's rows say at that moment; a copy is one set more. */
  lemma SetEventOutcome(staleMs: int, w: World, i: nat, e: Q.Event, now: Time)
    ensures Step(staleMs, w, SetEv(i, e)) ==
      if i < |w.sets| then w.(sets := w.sets[i := Q.Step(staleMs, w.sets[i], WithSource(e, SourceOf(w, true)))]) else w
    ensures Step(staleMs, w, CloneEv(i, now)) ==
      if i < |w.sets| then w.(sets := w.sets + [Q.System(Q.Clone(w.sets[i].qs, now), [])]) else w
    ensures var source := SourceOf(w, true);
      && source.currentCv == w.currentCv && source.jobVersion == Some(w.job.version)
      && forall cv :: w.currentCv == Some(cv) && cv < |w.cvs| && w.cvs[cv].cv.approved && w.cvs[cv].cv.profile.Some? ==>
           source.approvedProfile == Some(w.cvs[cv].cv.profileVersion)
  {
  }

  /* ---------- interviews ---------- */

  /**
   * An interview is made exactly from an approved set of an open job that was made from the current
   * CV and from the job as it is; the further checks of profile and deletion never decide.
   */
  lemma InterviewOutcome(staleMs: int, w: World, i: nat)
    requires Reachable(staleMs, w)
    ensures Step(staleMs, w, CreateInterviewEv(i)) ==
      if && w.job.status == Open && i < |w.sets| && w.sets[i].qs.status == Q.Approved
         && w.currentCv == Some(w.sets[i].qs.origin.cv) && w.job.version == w.sets[i].qs.origin.jobVersion
      then
        var o := w.sets[i].qs.origin;
        w.(interviews := w.interviews + [Interview(i, o.cv, o.profileSnapshot, o.jobSnapshot)])
      else w
  {
    ReachableInv(staleMs, w);
    if i < |w.sets| {
      assert OriginOk(w, w.sets[i].qs.origin);
      CurrentCvIsNewestActive(staleMs, w, w.sets[i].qs.origin.cv);
    }
  }
}
