/**
 * Where an interview's snapshots come from: one application's job, its CVs and its question sets,
 * each changing on its own (jobs.service.ts, cv-versions.service.ts, question-sets.service.ts and
 * the guards of interviews.service.ts).
 */
module Snapshots {
  import opened Base
  import C = CvExtraction
  import Q = QuestionSets
  import L = LifecycleModel
  import CurrentCv

  datatype JobStatus = Draft | Open | Closed

  /** `content` stands for title, description, required skills and evaluation criteria. */
  datatype Job = Job(content: string, criteria: set<string>, status: JobStatus, version: nat)

  /** A manual draft in the making: it reads application, CV and job one after the other, unlocked, and then inserts once. */
  datatype Making = Making(cv: nat, profile: Option<C.Profile>, profileVersion: nat, job: Option<Q.JobSnapshot>,
                           inserted: bool)

  /** What `createInterview` copied. */
  datatype Interview = Interview(questionSet: nat, cv: nat, profileSnapshot: C.Profile, jobSnapshot: Q.JobSnapshot)

  datatype World = World(job: Job, cvs: seq<C.System>, currentCv: Option<nat>, applicationVersion: nat,
                         sets: seq<Q.System>, makings: seq<Making>, interviews: seq<Interview>)

  /** The CVs of the application, and the two columns of its row that uploading and deleting write. */
  datatype CvTable = CvTable(rows: seq<C.System>, currentCv: Option<nat>, applicationVersion: nat)

  function NewWorld(content: string, criteria: set<string>): World {
    World(Job(content, criteria, Draft, 1), [], None, 1, [], [], [])
  }

  function JobSnapshotOf(job: Job): Q.JobSnapshot {
    Q.JobSnapshot(job.content, job.criteria, job.version)
  }

  /* ---------- the job ---------- */

  /** Any accepted update moves the version by one, whether or not a field changed. */
  function UpdateJob(job: Job, expectedVersion: nat, content: string, criteria: set<string>, status: Option<JobStatus>): Job {
    if job.version != expectedVersion || job.status == Closed || status == Some(Closed)
       || (job.status == Open && status == Some(Draft))
    then job
    else Job(content, criteria, if status.Some? then status.value else job.status, job.version + 1)
  }

  function CloseJob(job: Job, expectedVersion: nat): Job {
    if job.version != expectedVersion || job.status == Closed then job
    else job.(status := Closed, version := job.version + 1)
  }

  /* ---------- the current CV ---------- */

  function Deleted(rows: seq<C.System>): (r: seq<bool>)
    ensures |r| == |rows|
  {
    seq(|rows|, i requires 0 <= i < |rows| => rows[i].cv.deleted)
  }

  function Numbers(rows: seq<C.System>): (r: seq<nat>)
    ensures |r| == |rows|
  {
    seq(|rows|, i requires 0 <= i < |rows| => rows[i].cv.number)
  }

  /** The new CV takes the next number, if the unique constraint lets it, and becomes the current one. */
  function Upload(t: CvTable, shortlisted: bool, seesDeleted: bool, now: Time): Result<CvTable, C.CvError> {
    var number := CurrentCv.HighestSeen(Numbers(t.rows), Deleted(t.rows), seesDeleted) + 1;
    if !shortlisted then Err(C.ApplicationStateConflict)
    else if number in Numbers(t.rows) then Err(C.DuplicateNumber)
    else Ok(CvTable(t.rows + [C.System(C.Uploaded(number, now), [])], Some(|t.rows|), t.applicationVersion + 1))
  }

  /** Only the deletion of the current CV writes the application. */
  function Remove(staleMs: int, t: CvTable, i: nat): Result<CvTable, C.CvError> {
    if i >= |t.rows| || t.rows[i].cv.deleted then Err(C.NotFound)
    else
      var rows := t.rows[i := C.Step(staleMs, t.rows[i], C.RemoveEv)];
      if t.currentCv == Some(i)
      then Ok(CvTable(rows, CurrentCv.NewestActive(Deleted(rows)), t.applicationVersion + 1))
      else Ok(t.(rows := rows))
  }

  function CvsOf(w: World): CvTable {
    CvTable(w.cvs, w.currentCv, w.applicationVersion)
  }

  function WithCvs(w: World, r: Result<CvTable, C.CvError>): World {
    match r
    case Ok(t) => w.(cvs := t.rows, currentCv := t.currentCv, applicationVersion := t.applicationVersion)
    case Err(_) => w
  }

  /* ---------- question sets ---------- */

  predicate IsApproved(w: World, cv: nat) {
    cv < |w.cvs| && w.cvs[cv].cv.approved && w.cvs[cv].cv.profile.Some?
  }

  function OriginOf(w: World, manual: bool, cv: nat): Q.Origin
    requires IsApproved(w, cv)
  {
    Q.Origin(manual, cv, w.cvs[cv].cv.profileVersion, w.job.version, w.cvs[cv].cv.profile.value, JobSnapshotOf(w.job))
  }

  /** Generation reads everything under locks in one transaction. */
  function GenerateDraft(w: World, shortlisted: bool, cv: nat, now: Time): World {
    if !shortlisted || w.currentCv != Some(cv) || !IsApproved(w, cv) || w.cvs[cv].cv.deleted then w
    else
      var c := Q.CreateByAi(OriginOf(w, false, cv), now);
      w.(sets := w.sets + [Q.System(c.qs, [c.claim])])
  }

  function MakingReadsCv(w: World, m: nat): World {
    if m < |w.makings| && IsApproved(w, w.makings[m].cv) && !w.cvs[w.makings[m].cv].cv.deleted then
      var cv := w.cvs[w.makings[m].cv].cv;
      w.(makings := w.makings[m := w.makings[m].(profile := cv.profile, profileVersion := cv.profileVersion)])
    else w
  }

  function MakingReadsJob(w: World, m: nat): World {
    if m < |w.makings| then w.(makings := w.makings[m := w.makings[m].(job := Some(JobSnapshotOf(w.job)))]) else w
  }

  function MakingInserts(w: World, m: nat, now: Time): World {
    if m < |w.makings| && w.makings[m].profile.Some? && w.makings[m].job.Some? && !w.makings[m].inserted then
      var k := w.makings[m];
      var origin := Q.Origin(true, k.cv, k.profileVersion, k.job.value.version, k.profile.value, k.job.value);
      w.(sets := w.sets + [Q.System(Q.CreateManually(origin, now), [])], makings := w.makings[m := k.(inserted := true)])
    else w
  }

  /** What `checkIfStale` is given at this moment. */
  function SourceOf(w: World, shortlisted: bool): Q.Source {
    Q.Source(shortlisted, w.currentCv,
             if w.currentCv.Some? && IsApproved(w, w.currentCv.value) then Some(w.cvs[w.currentCv.value].cv.profileVersion)
             else None,
             Some(w.job.version))
  }

  function WithSource(e: Q.Event, source: Q.Source): Q.Event {
    match e
    case RetryEv(expected, s, now) => Q.RetryEv(expected, source.(shortlisted := s.shortlisted), now)
    case OutputEv(k, output, s, now) => Q.OutputEv(k, output, source.(shortlisted := s.shortlisted), now)
    case ApproveEv(expected, s, now) => Q.ApproveEv(expected, source.(shortlisted := s.shortlisted), now)
    case EditEv(_, _, _) => e
  }

  /* ---------- creating an interview ---------- */

  /** The guards of `createInterview` that concern job, CV and question set. */
  predicate MayCreateInterview(w: World, i: nat) {
    && w.job.status == Open
    && i < |w.sets|
    && var qs := w.sets[i].qs;
       && qs.status == Q.Approved
       && w.currentCv == Some(qs.origin.cv)
       && qs.origin.cv < |w.cvs|
       && var cv := w.cvs[qs.origin.cv].cv;
          && !cv.deleted && cv.approved && cv.profileVersion == qs.origin.cvProfileVersion
          && w.job.version == qs.origin.jobVersion
  }

  function CreateInterview(w: World, i: nat): World {
    if !MayCreateInterview(w, i) then w
    else
      var o := w.sets[i].qs.origin;
      w.(interviews := w.interviews + [Interview(i, o.cv, o.profileSnapshot, o.jobSnapshot)])
  }

  /* ---------- all together ---------- */

  datatype Event =
    | UpdateJobEv(expectedVersion: nat, content: string, criteria: set<string>, status: Option<JobStatus>)
    | CloseJobEv(expectedVersion: nat)
    | UploadEv(shortlisted: bool, seesDeleted: bool, now: Time)
    | CvEv(i: nat, cvEvent: C.Event)
    | RemoveCvEv(i: nat)
    | GenerateEv(shortlisted: bool, cv: nat, now: Time)
    | MakingEv(shortlisted: bool, cv: nat)
    | MakingReadsCvEv(m: nat)
    | MakingReadsJobEv(m: nat)
    | MakingInsertsEv(m: nat, now: Time)
    | CloneEv(i: nat, now: Time)
    | SetEv(i: nat, setEvent: Q.Event)
    | CreateInterviewEv(i: nat)

  function Step(staleMs: int, w: World, e: Event): World {
    match e
    case UpdateJobEv(expected, content, criteria, status) => w.(job := UpdateJob(w.job, expected, content, criteria, status))
    case CloseJobEv(expected) => w.(job := CloseJob(w.job, expected))
    case UploadEv(shortlisted, seesDeleted, now) => WithCvs(w, Upload(CvsOf(w), shortlisted, seesDeleted, now))
    case CvEv(i, ce) => if i < |w.cvs| && !ce.RemoveEv? then w.(cvs := w.cvs[i := C.Step(staleMs, w.cvs[i], ce)]) else w
    case RemoveCvEv(i) => WithCvs(w, Remove(staleMs, CvsOf(w), i))
    case GenerateEv(shortlisted, cv, now) => GenerateDraft(w, shortlisted, cv, now)
    case MakingEv(shortlisted, cv) =>
      if shortlisted && w.currentCv == Some(cv) then w.(makings := w.makings + [Making(cv, None, 0, None, false)]) else w
    case MakingReadsCvEv(m) => MakingReadsCv(w, m)
    case MakingReadsJobEv(m) => MakingReadsJob(w, m)
    case MakingInsertsEv(m, now) => MakingInserts(w, m, now)
    case CloneEv(i, now) =>
      if i < |w.sets| then w.(sets := w.sets + [Q.System(Q.Clone(w.sets[i].qs, now), [])]) else w
    case SetEv(i, se) =>
      if i < |w.sets| then
        w.(sets := w.sets[i := Q.Step(staleMs, w.sets[i], WithSource(se, SourceOf(w, true)))])
      else w
    case CreateInterviewEv(i) => CreateInterview(w, i)
  }

  function Run(staleMs: int, w: World, events: seq<Event>): World
    decreases |events|
  {
    if events == [] then w else Run(staleMs, Step(staleMs, w, events[0]), events[1..])
  }

  /* ---------- invariant ---------- */

  /** A profile read from an approved CV is still that CV's profile. */
  ghost predicate ProfileOk(w: World, cv: nat, version: nat, profile: C.Profile) {
    cv < |w.cvs| && w.cvs[cv].cv.approved && w.cvs[cv].cv.profileVersion == version && w.cvs[cv].cv.profile == Some(profile)
  }

  /** A job snapshot is not ahead of the job, and at the job's own version it is the job. */
  ghost predicate JobOk(w: World, snapshot: Q.JobSnapshot) {
    snapshot.version <= w.job.version && (snapshot.version == w.job.version ==> snapshot == JobSnapshotOf(w.job))
  }

  ghost predicate OriginOk(w: World, o: Q.Origin) {
    ProfileOk(w, o.cv, o.cvProfileVersion, o.profileSnapshot) && JobOk(w, o.jobSnapshot) && o.jobVersion == o.jobSnapshot.version
  }

  ghost predicate MakingOk(w: World, m: Making) {
    && (m.profile.Some? ==> ProfileOk(w, m.cv, m.profileVersion, m.profile.value))
    && (m.job.Some? ==> JobOk(w, m.job.value))
  }

  ghost predicate Inv(w: World) {
    && (forall i :: 0 <= i < |w.sets| ==> OriginOk(w, w.sets[i].qs.origin))
    && (forall m :: 0 <= m < |w.makings| ==> MakingOk(w, w.makings[m]))
    && w.currentCv == CurrentCv.NewestActive(Deleted(w.cvs))
    && Numbers(w.cvs) == CurrentCv.Places(|w.cvs|)
  }

  /** CVs are only added, approved ones keep their profile, and the job's content moves only with its version. */
  ghost predicate Keeps(a: World, b: World) {
    && |a.cvs| <= |b.cvs|
    && (forall i :: 0 <= i < |a.cvs| && a.cvs[i].cv.approved ==>
          b.cvs[i].cv.approved && b.cvs[i].cv.profileVersion == a.cvs[i].cv.profileVersion
          && b.cvs[i].cv.profile == a.cvs[i].cv.profile)
    && a.job.version <= b.job.version
    && (a.job.version == b.job.version ==> JobSnapshotOf(a.job) == JobSnapshotOf(b.job))
  }

  lemma CvStepKeeps(staleMs: int, s: C.System, e: C.Event)
    ensures var after := C.Step(staleMs, s, e).cv;
      && (s.cv.approved ==> after.approved && after.profile == s.cv.profile && after.profileVersion == s.cv.profileVersion)
      && (after.deleted <==> s.cv.deleted || e.RemoveEv?)
      && after.number == s.cv.number
  {
  }

  lemma StepKeeps(staleMs: int, w: World, e: Event)
    ensures Keeps(w, Step(staleMs, w, e))
  {
    if e.CvEv? && e.i < |w.cvs| { CvStepKeeps(staleMs, w.cvs[e.i], e.cvEvent); }
    if e.RemoveCvEv? && e.i < |w.cvs| { CvStepKeeps(staleMs, w.cvs[e.i], C.RemoveEv); }
  }

  lemma OriginKept(a: World, b: World, o: Q.Origin)
    requires Keeps(a, b) && OriginOk(a, o)
    ensures OriginOk(b, o)
  {
  }

  lemma MakingKept(a: World, b: World, m: Making)
    requires Keeps(a, b) && MakingOk(a, m)
    ensures MakingOk(b, m)
  {
  }

  lemma UploadBecomesCurrent(t: CvTable, shortlisted: bool, seesDeleted: bool, now: Time)
    requires Upload(t, shortlisted, seesDeleted, now).Ok?
    ensures var t' := Upload(t, shortlisted, seesDeleted, now).value; t'.currentCv == CurrentCv.NewestActive(Deleted(t'.rows))
  {
    assert Deleted(Upload(t, shortlisted, seesDeleted, now).value.rows) == Deleted(t.rows) + [false];
  }

  lemma RemovePassesCurrentOn(staleMs: int, t: CvTable, i: nat)
    requires t.currentCv == CurrentCv.NewestActive(Deleted(t.rows)) && Remove(staleMs, t, i).Ok?
    ensures var t' := Remove(staleMs, t, i).value; t'.currentCv == CurrentCv.NewestActive(Deleted(t'.rows))
  {
    if t.currentCv != Some(i) {
      CvStepKeeps(staleMs, t.rows[i], C.RemoveEv);
      assert Deleted(Remove(staleMs, t, i).value.rows) == Deleted(t.rows)[i := true];
      CurrentCv.NewestAfterDelete(Deleted(t.rows), i);
    }
  }

  lemma OthersKeepDeleted(staleMs: int, rows: seq<C.System>, i: nat, e: C.Event)
    requires i < |rows| && !e.RemoveEv?
    ensures Deleted(rows[i := C.Step(staleMs, rows[i], e)]) == Deleted(rows)
  {
    CvStepKeeps(staleMs, rows[i], e);
  }

  lemma CurrentCvKept(staleMs: int, w: World, e: Event)
    requires w.currentCv == CurrentCv.NewestActive(Deleted(w.cvs))
    ensures Step(staleMs, w, e).currentCv == CurrentCv.NewestActive(Deleted(Step(staleMs, w, e).cvs))
  {
    if e.CvEv? && e.i < |w.cvs| && !e.cvEvent.RemoveEv? {
      OthersKeepDeleted(staleMs, w.cvs, e.i, e.cvEvent);
    } else if e.RemoveCvEv? && Remove(staleMs, CvsOf(w), e.i).Ok? {
      RemovePassesCurrentOn(staleMs, CvsOf(w), e.i);
    } else if e.UploadEv? && Upload(CvsOf(w), e.shortlisted, e.seesDeleted, e.now).Ok? {
      UploadBecomesCurrent(CvsOf(w), e.shortlisted, e.seesDeleted, e.now);
    }
  }

  lemma UploadNumbers(t: CvTable, shortlisted: bool, seesDeleted: bool, now: Time)
    requires Numbers(t.rows) == CurrentCv.Places(|t.rows|) && Upload(t, shortlisted, seesDeleted, now).Ok?
    ensures var rows := Upload(t, shortlisted, seesDeleted, now).value.rows; Numbers(rows) == CurrentCv.Places(|rows|)
  {
    CurrentCv.NumberFreeIff(Deleted(t.rows), seesDeleted);
    assert Numbers(Upload(t, shortlisted, seesDeleted, now).value.rows) == Numbers(t.rows) + [|t.rows| + 1];
  }

  lemma NumbersAfter(staleMs: int, rows: seq<C.System>, i: nat, e: C.Event)
    requires i < |rows|
    ensures Numbers(rows[i := C.Step(staleMs, rows[i], e)]) == Numbers(rows)
  {
    CvStepKeeps(staleMs, rows[i], e);
  }

  lemma NumbersKept(staleMs: int, w: World, e: Event)
    requires Numbers(w.cvs) == CurrentCv.Places(|w.cvs|)
    ensures var cvs := Step(staleMs, w, e).cvs; Numbers(cvs) == CurrentCv.Places(|cvs|)
  {
    if e.CvEv? && e.i < |w.cvs| {
      NumbersAfter(staleMs, w.cvs, e.i, e.cvEvent);
    } else if e.RemoveCvEv? && e.i < |w.cvs| {
      NumbersAfter(staleMs, w.cvs, e.i, C.RemoveEv);
    } else if e.UploadEv? && Upload(CvsOf(w), e.shortlisted, e.seesDeleted, e.now).Ok? {
      UploadNumbers(CvsOf(w), e.shortlisted, e.seesDeleted, e.now);
    }
  }

  lemma SetStepKeepsOrigin(staleMs: int, s: Q.System, e: Q.Event)
    ensures Q.Step(staleMs, s, e).qs.origin == s.qs.origin
  {
  }

  /** Where every set of the next state got its origin from. */
  lemma OriginsOk(staleMs: int, w: World, e: Event, i: nat)
    requires Inv(w) && i < |Step(staleMs, w, e).sets|
    ensures OriginOk(w, Step(staleMs, w, e).sets[i].qs.origin)
  {
    if i < |w.sets| {
      assert OriginOk(w, w.sets[i].qs.origin);
      if e.SetEv? && e.i == i {
        SetStepKeepsOrigin(staleMs, w.sets[i], WithSource(e.setEvent, SourceOf(w, true)));
      }
    } else if e.MakingInsertsEv? {
      assert MakingOk(w, w.makings[e.m]);
    } else if e.CloneEv? {
      assert OriginOk(w, w.sets[e.i].qs.origin);
    }
  }

  lemma MakingsOk(staleMs: int, w: World, e: Event, m: nat)
    requires Inv(w) && m < |Step(staleMs, w, e).makings|
    ensures MakingOk(w, Step(staleMs, w, e).makings[m])
  {
    if m < |w.makings| {
      assert MakingOk(w, w.makings[m]);
    }
  }

  lemma StepOk(staleMs: int, w: World, e: Event)
    requires Inv(w)
    ensures Inv(Step(staleMs, w, e))
  {
    var w' := Step(staleMs, w, e);
    StepKeeps(staleMs, w, e);
    CurrentCvKept(staleMs, w, e);
    NumbersKept(staleMs, w, e);
    forall i | 0 <= i < |w'.sets|
      ensures OriginOk(w', w'.sets[i].qs.origin)
    {
      OriginsOk(staleMs, w, e, i);
      OriginKept(w, w', w'.sets[i].qs.origin);
    }
    forall m | 0 <= m < |w'.makings|
      ensures MakingOk(w', w'.makings[m])
    {
      MakingsOk(staleMs, w, e, m);
      MakingKept(w, w', w'.makings[m]);
    }
  }

  lemma {:induction false} RunOk(staleMs: int, w: World, events: seq<Event>)
    requires Inv(w)
    ensures Inv(Run(staleMs, w, events))
    decreases |events|
  {
    if events != [] {
      StepOk(staleMs, w, events[0]);
      RunOk(staleMs, Step(staleMs, w, events[0]), events[1..]);
    }
  }

  ghost predicate Reachable(staleMs: int, w: World) {
    exists content: string, criteria: set<string>, events: seq<Event> :: w == Run(staleMs, NewWorld(content, criteria), events)
  }

  lemma ReachableInv(staleMs: int, w: World)
    requires Reachable(staleMs, w)
    ensures Inv(w)
  {
    var content, criteria, events :| w == Run(staleMs, NewWorld(content, criteria), events);
    RunOk(staleMs, NewWorld(content, criteria), events);
  }

  /* ---------- the main results ---------- */

  /**
   * Snapshot freshness: whatever happened to job, CVs and sets since the set was made, at the
   * moment an interview is created its copies are the approved profile of the application's
   * current CV and the job as it now stands.
   */
  lemma SnapshotsAreFresh(staleMs: int, w: World, i: nat)
    requires Reachable(staleMs, w) && MayCreateInterview(w, i)
    ensures var made := CreateInterview(w, i).interviews[|w.interviews|];
      && w.currentCv == Some(made.cv)
      && w.cvs[made.cv].cv.approved && w.cvs[made.cv].cv.profile == Some(made.profileSnapshot)
      && made.jobSnapshot == JobSnapshotOf(w.job)
  {
    ReachableInv(staleMs, w);
    assert OriginOk(w, w.sets[i].qs.origin);
  }

  /**
   * Because approved profiles are final, a set can only go stale by a new current CV or by a job
   * update: the comparison of profile versions decides nothing once the CV is the same.
   */
  lemma StaleOnlyByCvOrJob(staleMs: int, w: World, i: nat, shortlisted: bool)
    requires Reachable(staleMs, w) && i < |w.sets|
    ensures Q.CheckIfStale(w.sets[i].qs.origin, SourceOf(w, shortlisted))
        <==> w.currentCv != Some(w.sets[i].qs.origin.cv) || w.job.version != w.sets[i].qs.origin.jobVersion
  {
    ReachableInv(staleMs, w);
    assert OriginOk(w, w.sets[i].qs.origin);
  }

  /** The current CV is always the newest CV that is not deleted, and there is none only when all are. */
  lemma {:induction false} CurrentCvIsNewestActive(staleMs: int, w: World, k: nat)
    requires Reachable(staleMs, w) && k < |w.cvs|
    ensures w.currentCv == Some(k) <==>
      !w.cvs[k].cv.deleted && forall j :: k < j < |w.cvs| ==> w.cvs[j].cv.deleted
  {
    ReachableInv(staleMs, w);
    CurrentCv.NewestSpec(Deleted(w.cvs), k);
    assert forall j :: 0 <= j < |w.cvs| ==> Deleted(w.cvs)[j] == w.cvs[j].cv.deleted;
    assert (forall j :: k < j < |w.cvs| ==> Deleted(w.cvs)[j]) <==> (forall j :: k < j < |w.cvs| ==> w.cvs[j].cv.deleted);
  }

  /** CVs are numbered 1, 2, ..., n in the order of their upload, the deleted ones too. */
  lemma CvNumbersArePlaces(staleMs: int, w: World, k: nat)
    requires Reachable(staleMs, w) && k < |w.cvs|
    ensures w.cvs[k].cv.number == k + 1
  {
    ReachableInv(staleMs, w);
    assert Numbers(w.cvs)[k] == w.cvs[k].cv.number;
  }

  /**
   * An upload to a shortlisted application goes through exactly when the newest CV is not deleted, or
   * the search for the highest number sees deleted rows; otherwise the number it finds is in use.
   */
  lemma UploadGoesThroughIff(staleMs: int, w: World, seesDeleted: bool, now: Time)
    requires Reachable(staleMs, w)
    ensures Upload(CvsOf(w), true, seesDeleted, now).Ok?
        <==> seesDeleted || w.cvs == [] || !w.cvs[|w.cvs| - 1].cv.deleted
  {
    ReachableInv(staleMs, w);
    CurrentCv.NumberFreeIff(Deleted(w.cvs), seesDeleted);
  }

  predicate UploadSeesDeleted(e: Event) {
    e.UploadEv? && e.seesDeleted
  }

  /** Once the newest CV is deleted, an application gets no CV ever again while the search passes deleted rows over. */
  lemma {:induction false} DeletedNewestEndsUploads(staleMs: int, w: World, events: seq<Event>)
    requires Reachable(staleMs, w) && w.cvs != [] && w.cvs[|w.cvs| - 1].cv.deleted
    requires forall i :: 0 <= i < |events| ==> !UploadSeesDeleted(events[i])
    ensures |Run(staleMs, w, events).cvs| == |w.cvs|
    decreases |events|
  {
    if events != [] {
      var e, next := events[0], Step(staleMs, w, events[0]);
      var last := |w.cvs| - 1;
      if e.UploadEv? {
        assert !UploadSeesDeleted(events[0]);
        UploadGoesThroughIff(staleMs, w, false, e.now);
      } else if e.CvEv? && e.i == last {
        CvStepKeeps(staleMs, w.cvs[last], e.cvEvent);
      } else if e.RemoveCvEv? && e.i == last {
        CvStepKeeps(staleMs, w.cvs[last], C.RemoveEv);
      }
      ReachableNext(staleMs, w, e);
      DeletedNewestEndsUploads(staleMs, next, events[1..]);
    }
  }

  lemma FirstUpload(staleMs: int, content: string, criteria: set<string>)
    ensures Step(staleMs, NewWorld(content, criteria), UploadEv(true, false, 0))
         == NewWorld(content, criteria).(cvs := [C.System(C.Uploaded(1, 0), [])], currentCv := Some(0),
                                         applicationVersion := 2)
  {
    assert [] + [C.System(C.Uploaded(1, 0), [])] == [C.System(C.Uploaded(1, 0), [])];
  }

  /** What that CV leaves behind when it is deleted again. */
  function DeletedCv(): C.System {
    C.System(C.Uploaded(1, 0).(deleted := true), [])
  }

  lemma OnlyCvDeleted(staleMs: int, w: World)
    requires w.cvs == [C.System(C.Uploaded(1, 0), [])] && w.currentCv == Some(0)
    ensures Step(staleMs, w, RemoveCvEv(0))
         == w.(cvs := [DeletedCv()], currentCv := None, applicationVersion := w.applicationVersion + 1)
  {
    assert Deleted([DeletedCv()]) == [true] && [true][..0] == [];
    assert w.cvs[0 := DeletedCv()] == [DeletedCv()];
  }

  lemma NextUploadRefused(staleMs: int, w: World, now: Time)
    requires w.cvs == [DeletedCv()]
    ensures Step(staleMs, w, UploadEv(true, false, now)) == w
  {
    assert Deleted(w.cvs) == [true] && Numbers(w.cvs) == CurrentCv.Places(1);
    CurrentCv.NumberFreeIff([true], false);
  }

  /** The first CV is uploaded by mistake and deleted: the application stays without one. */
  lemma DeletedOnlyCvRun(staleMs: int)
    ensures var w := Run(staleMs, NewWorld("", {}), [UploadEv(true, false, 0), RemoveCvEv(0), UploadEv(true, false, 1)]);
      |w.cvs| == 1 && w.currentCv == None && w.applicationVersion == 3
  {
    var events := [UploadEv(true, false, 0), RemoveCvEv(0), UploadEv(true, false, 1)];
    var w1 := Step(staleMs, NewWorld("", {}), events[0]);
    FirstUpload(staleMs, "", {});
    OnlyCvDeleted(staleMs, w1);
    NextUploadRefused(staleMs, Step(staleMs, w1, events[1]), 1);
    RunOne(staleMs, NewWorld("", {}), events);
    RunOne(staleMs, w1, events[1..]);
    RunOne(staleMs, Step(staleMs, w1, events[1]), events[2..]);
    assert events[1..][1..] == events[2..] && events[2..][0] == events[2] && events[2..][1..] == [];
  }

  lemma {:induction false} RunAppend(staleMs: int, w: World, events: seq<Event>, e: Event)
    ensures Run(staleMs, w, events + [e]) == Step(staleMs, Run(staleMs, w, events), e)
    decreases |events|
  {
    if events == [] {
      assert events + [e] == [e];
      assert Run(staleMs, w, [e]) == Run(staleMs, Step(staleMs, w, e), []);
    } else {
      assert (events + [e])[1..] == events[1..] + [e];
      RunAppend(staleMs, Step(staleMs, w, events[0]), events[1..], e);
    }
  }

  lemma ReachableNext(staleMs: int, w: World, e: Event)
    requires Reachable(staleMs, w)
    ensures Reachable(staleMs, Step(staleMs, w, e))
  {
    var content, criteria, events :| w == Run(staleMs, NewWorld(content, criteria), events);
    RunAppend(staleMs, NewWorld(content, criteria), events, e);
  }

  /**
   * The question set checks of `createInterview`, given the rows of this world, let through exactly
   * the sets whose snapshots are fresh.
   */
  lemma LifecycleChecksTheSame(w: World, i: nat, a: L.World, input: L.CreateInput)
    requires i < |w.sets| && a.currentCv == w.currentCv && a.cvDeleted == Deleted(w.cvs)
    requires var qs := w.sets[i].qs;
      && input.job == Some(L.JobRow(w.job.status == Open, w.job.version))
      && input.questionSet == Some(L.SetRow(true, qs.status == Q.Approved, qs.origin.cv, qs.origin.cvProfileVersion,
                                            qs.origin.jobVersion))
      && (qs.origin.cv < |w.cvs| ==>
            input.profile == Some(L.ProfileRow(w.cvs[qs.origin.cv].cv.approved, w.cvs[qs.origin.cv].cv.profileVersion)))
    ensures input.job.value.isOpen && L.CheckSet(a, input) == None <==> MayCreateInterview(w, i)
  {
  }

  /**
   * A set approved earlier goes stale for good as soon as the job is touched: no later state lets
   * it become an interview again.
   */
  lemma StaleForGood(staleMs: int, w: World, i: nat, events: seq<Event>)
    requires Reachable(staleMs, w) && i < |w.sets| && w.sets[i].qs.origin.jobVersion < w.job.version
    ensures !MayCreateInterview(Run(staleMs, w, events), i)
  {
    RunMovesOn(staleMs, w, events, i);
  }

  lemma {:induction false} RunMovesOn(staleMs: int, w: World, events: seq<Event>, i: nat)
    requires i < |w.sets|
    ensures var w' := Run(staleMs, w, events);
      i < |w'.sets| && w'.sets[i].qs.origin == w.sets[i].qs.origin && w.job.version <= w'.job.version
    decreases |events|
  {
    if events != [] {
      var next := Step(staleMs, w, events[0]);
      StepKeeps(staleMs, w, events[0]);
      if events[0].SetEv? && events[0].i == i {
        SetStepKeepsOrigin(staleMs, w.sets[i], WithSource(events[0].setEvent, SourceOf(w, true)));
      }
      RunMovesOn(staleMs, next, events[1..], i);
    }
  }

  /* ---------- a generation whose source has moved on ---------- */

  /** The failure report of the run the set is waiting for. */
  predicate ReportsFailure(w: World, e: Event, i: nat) {
    && e.SetEv? && e.i == i && i < |w.sets| && e.setEvent.OutputEv? && e.setEvent.output.Broken?
    && e.setEvent.claim == |w.sets[i].claims| - 1
  }

  predicate FailureReported(staleMs: int, w: World, events: seq<Event>, i: nat)
    decreases |events|
  {
    events != [] && (ReportsFailure(w, events[0], i) || FailureReported(staleMs, Step(staleMs, w, events[0]), events[1..], i))
  }

  /** The set's claims are those of its generation; taken over whole runs of the world. */
  ghost predicate SetsOk(w: World) {
    forall i :: 0 <= i < |w.sets| ==> Q.Inv(w.sets[i])
  }

  lemma SetsStep(staleMs: int, w: World, e: Event)
    requires SetsOk(w)
    ensures SetsOk(Step(staleMs, w, e))
  {
    if e.SetEv? && e.i < |w.sets| {
      Q.StepOk(staleMs, w.sets[e.i], WithSource(e.setEvent, SourceOf(w, true)));
    }
  }

  lemma {:induction false} SetsRun(staleMs: int, w: World, events: seq<Event>)
    requires SetsOk(w)
    ensures SetsOk(Run(staleMs, w, events))
    decreases |events|
  {
    if events != [] {
      SetsStep(staleMs, w, events[0]);
      SetsRun(staleMs, Step(staleMs, w, events[0]), events[1..]);
    }
  }

  /** Behind its source, a generating or failed set refuses everything but the report of its run. */
  lemma StaleSetStep(staleMs: int, s: Q.System, e: Q.Event, w: World)
    requires Q.Inv(s) && s.qs.origin.jobVersion < w.job.version && (s.qs.status == Q.Generating || s.qs.status == Q.Failed)
    ensures var after := Q.Step(staleMs, s, WithSource(e, SourceOf(w, true)));
      if s.qs.status == Q.Generating && e.OutputEv? && e.output.Broken? && e.claim == |s.claims| - 1
      then after.qs.status == Q.Failed && after.claims == s.claims else after == s
  {
    var source := SourceOf(w, true);
    assert Q.CheckIfStale(s.qs.origin, source) && Q.CheckIfStale(s.qs.origin, source.(shortlisted := false));
    if e.OutputEv? && e.claim < |s.claims| && e.output.Broken? && !(s.qs.status == Q.Generating && e.claim == |s.claims| - 1) {
      Q.OldRunStays(s, e.claim, e.output.code, e.now);
    }
  }

  lemma {:induction false} StaleSetRun(staleMs: int, w: World, i: nat, events: seq<Event>)
    requires SetsOk(w) && i < |w.sets| && w.sets[i].qs.origin.jobVersion < w.job.version
    requires w.sets[i].qs.status == Q.Generating || w.sets[i].qs.status == Q.Failed
    ensures i < |Run(staleMs, w, events).sets|
    ensures w.sets[i].qs.status == Q.Failed ==> Run(staleMs, w, events).sets[i] == w.sets[i]
    ensures w.sets[i].qs.status == Q.Generating ==>
      && (FailureReported(staleMs, w, events, i) ==> Run(staleMs, w, events).sets[i].qs.status == Q.Failed)
      && (!FailureReported(staleMs, w, events, i) ==> Run(staleMs, w, events).sets[i] == w.sets[i])
    decreases |events|
  {
    if events != [] {
      var next := Step(staleMs, w, events[0]);
      SetsStep(staleMs, w, events[0]);
      StepKeeps(staleMs, w, events[0]);
      if events[0].SetEv? && events[0].i == i {
        StaleSetStep(staleMs, w.sets[i], events[0].setEvent, w);
        SetStepKeepsOrigin(staleMs, w.sets[i], WithSource(events[0].setEvent, SourceOf(w, true)));
      } else {
        assert next.sets[i] == w.sets[i];
      }
      StaleSetRun(staleMs, next, i, events[1..]);
    }
  }

  /**
   * Once the job has moved on under a generating set, no output, no retry, no edit and no approval
   * ever gets it out of GENERATING: it stays there, its run PROCESSING, through every run in which
   * its failure is not reported, and leaves exactly with that report.
   */
  lemma StuckGenerating(staleMs: int, w: World, i: nat, events: seq<Event>)
    requires Reachable(staleMs, w) && i < |w.sets| && w.sets[i].qs.status == Q.Generating
    requires w.sets[i].qs.origin.jobVersion < w.job.version
    ensures i < |Run(staleMs, w, events).sets|
    ensures Run(staleMs, w, events).sets[i].qs.status == Q.Generating <==> !FailureReported(staleMs, w, events, i)
    ensures !FailureReported(staleMs, w, events, i) ==> Run(staleMs, w, events).sets[i] == w.sets[i]
  {
    var content, criteria, before :| w == Run(staleMs, NewWorld(content, criteria), before);
    SetsRun(staleMs, NewWorld(content, criteria), before);
    StaleSetRun(staleMs, w, i, events);
  }

  /* ---------- the same as a concrete run ---------- */

  function AProfile(): C.Profile { C.Profile(C.PROFILE_SCHEMA, "profile") }

  /** Upload, extract, approve, generate, and then the job is edited before the output arrives. */
  function EditedMeanwhile(): seq<Event> {
    [UploadEv(true, false, 0), CvEv(0, C.ClaimEv(false, true, 1, 0)), CvEv(0, C.ResultEv(0, C.Extracted(AProfile()), 0)),
     CvEv(0, C.ApproveEv(true, 2, 0)), GenerateEv(true, 0, 0), UpdateJobEv(1, "new", {}, None),
     SetEv(0, Q.OutputEv(0, Q.Generated([Q.Item(1, "Why?", None, false, 0)]), Q.Source(true, None, None, None), 0))]
  }

  function ApprovedCv(): C.System {
    C.System(C.Cv(1, C.Ready, 1, Some(AProfile()), true, 3, None, 0, false, [C.R.AiRun(C.R.Succeeded, Some(0), None)]),
             [C.Claim(0, 1)])
  }

  function Made(): Q.System {
    var c := Q.CreateByAi(Q.Origin(false, 0, 3, 1, AProfile(), Q.JobSnapshot("old", {}, 1)), 0);
    Q.System(c.qs, [c.claim])
  }

  lemma CvApproved(w: World)
    requires w.cvs == [C.System(C.Uploaded(1, 0), [])]
    ensures Step(120000, Step(120000, Step(120000, w, EditedMeanwhile()[1]), EditedMeanwhile()[2]), EditedMeanwhile()[3])
         == w.(cvs := [ApprovedCv()])
  {
    var w2 := Step(120000, w, EditedMeanwhile()[1]);
    var run := C.R.AiRun(C.R.Processing, None, None);
    assert w2.cvs[0].cv.runs == [run] && w2.cvs[0].claims == [C.Claim(0, 1)];
    assert w2.cvs == [C.System(C.Cv(1, C.Processing, 1, None, false, 1, None, 0, false, [run]), [C.Claim(0, 1)])];
    var w3 := Step(120000, w2, EditedMeanwhile()[2]);
    assert w3.cvs[0].cv.runs == ApprovedCv().cv.runs;
    var w4 := Step(120000, w3, EditedMeanwhile()[3]);
    assert w4.cvs[0] == ApprovedCv();
    assert w4.cvs == [ApprovedCv()];
  }

  /** It ends with the set GENERATING and its run PROCESSING. */
  lemma EditedMeanwhileRun()
    ensures var w := Run(120000, NewWorld("old", {}), EditedMeanwhile());
      && |w.sets| == 1 && w.sets[0].qs.status == Q.Generating && w.sets[0].qs.items == []
      && w.sets[0].qs.runs == [C.R.AiRun(C.R.Processing, None, None)]
      && w.sets[0].qs.origin.jobVersion < w.job.version
  {
    var events := EditedMeanwhile();
    var w0 := NewWorld("old", {});
    var w1 := Step(120000, w0, events[0]);
    FirstUpload(120000, "old", {});
    var w2 := Step(120000, w1, events[1]);
    var w3 := Step(120000, w2, events[2]);
    var w4 := Step(120000, w3, events[3]);
    CvApproved(w1);
    var w5 := Step(120000, w4, events[4]);
    assert w5.sets[0] == Made();
    var w6 := Step(120000, w5, events[5]);
    assert w6.job == Job("new", {}, Draft, 2) && w6.sets == w5.sets;
    var w7 := Step(120000, w6, events[6]);
    assert w7 == w6;
    RunOne(120000, w0, events);
    RunOne(120000, w1, events[1..]);
    RunOne(120000, w2, events[2..]);
    RunOne(120000, w3, events[3..]);
    RunOne(120000, w4, events[4..]);
    RunOne(120000, w5, events[5..]);
    RunOne(120000, w6, events[6..]);
    Rests(events);
  }

  lemma RunOne(staleMs: int, w: World, events: seq<Event>)
    requires events != []
    ensures Run(staleMs, w, events) == Run(staleMs, Step(staleMs, w, events[0]), events[1..])
  {
  }

  lemma Rests(events: seq<Event>)
    requires |events| == 7
    ensures forall k :: 0 <= k < 7 ==> events[k..][1..] == events[k + 1..] && events[k..][0] == events[k]
    ensures events[0..] == events && events[7..] == []
  {
  }
}
