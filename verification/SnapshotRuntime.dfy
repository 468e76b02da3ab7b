/** The job service and the current-CV operations on rows in place. */
module SnapshotRuntime {
  import opened Base
  import opened Snapshots
  import C = CvExtraction
  import CurrentCv

  datatype JobError = VersionConflict | JobClosed | CloseNotAllowed | CannotReopenDraft

  class JobRow {
    var content: string
    var criteria: set<string>
    var status: JobStatus
    var version: nat

    ghost function Row(): Job
      reads this
    {
      Job(content, criteria, status, version)
    }

    constructor (content: string, criteria: set<string>)
      ensures Row() == NewWorld(content, criteria).job
    {
      this.content, this.criteria, status, version := content, criteria, Draft, 1;
    }

    /** Absent fields keep their value; the version moves in any case. */
    method Update(expectedVersion: nat, newContent: Option<string>, newCriteria: Option<set<string>>,
                  newStatus: Option<JobStatus>)
      returns (r: Result<(), JobError>)
      modifies this
      ensures Row() == UpdateJob(old(Row()), expectedVersion,
                                 if newContent.Some? then newContent.value else old(content),
                                 if newCriteria.Some? then newCriteria.value else old(criteria), newStatus)
      ensures r.Ok? <==> version == old(version) + 1
      ensures r.Err? <==> Row() == old(Row())
      ensures r == Err(VersionConflict) <==> old(version) != expectedVersion
      ensures r == Err(JobClosed) <==> old(version) == expectedVersion && old(status) == Closed
      ensures r == Err(CloseNotAllowed) <==>
        old(version) == expectedVersion && old(status) != Closed && newStatus == Some(Closed)
      ensures r == Err(CannotReopenDraft) <==>
        old(version) == expectedVersion && old(status) == Open && newStatus == Some(Draft)
    {
      if version != expectedVersion { return Err(VersionConflict); }
      if status == Closed { return Err(JobClosed); }
      if newStatus == Some(Closed) { return Err(CloseNotAllowed); }
      if status == Open && newStatus == Some(Draft) { return Err(CannotReopenDraft); }
      var previousVersion := version;
      if newContent.Some? && newContent.value != content { content := newContent.value; }
      if newCriteria.Some? { criteria := newCriteria.value; }
      if newStatus.Some? && newStatus.value != status { status := newStatus.value; }
      version := previousVersion + 1;
      return Ok(());
    }

    method Close(expectedVersion: nat) returns (r: Result<(), JobError>)
      modifies this
      ensures Row() == CloseJob(old(Row()), expectedVersion)
      ensures r.Ok? <==> version == old(version) + 1
      ensures r == Err(VersionConflict) <==> old(version) != expectedVersion
      ensures r == Err(JobClosed) <==> old(version) == expectedVersion && old(status) == Closed
    {
      if version != expectedVersion { return Err(VersionConflict); }
      if status == Closed { return Err(JobClosed); }
      status := Closed;
      version := version + 1;
      return Ok(());
    }
  }

  /** The CVs of one application, with the columns of its row they are current in. */
  class CvRows {
    var rows: seq<C.System>
    var currentCv: Option<nat>
    var applicationVersion: nat

    /** The rows as a value. */
    ghost function Table(): CvTable
      reads this
    {
      CvTable(rows, currentCv, applicationVersion)
    }

    constructor ()
      ensures Table() == CvTable([], None, 1)
    {
      rows, currentCv, applicationVersion := [], None, 1;
    }

    /** The insert is refused by the unique constraint on (application, version). */
    method Upload(shortlisted: bool, seesDeleted: bool, now: Time) returns (r: Result<(), C.CvError>)
      modifies this
      ensures match Snapshots.Upload(old(Table()), shortlisted, seesDeleted, now)
        case Ok(t) => r == Ok(()) && Table() == t
        case Err(e) => r == Err(e) && Table() == old(Table())
    {
      if !shortlisted { return Err(C.ApplicationStateConflict); }
      var nextNumber := CurrentCv.HighestSeen(Numbers(rows), Deleted(rows), seesDeleted) + 1;
      if nextNumber in Numbers(rows) { return Err(C.DuplicateNumber); }
      rows := rows + [C.System(C.Uploaded(nextNumber, now), [])];
      currentCv := Some(|rows| - 1);
      applicationVersion := applicationVersion + 1;
      return Ok(());
    }

    /** The newest row that is not deleted, newest first. */
    method LatestActive() returns (latest: Option<nat>)
      ensures latest == CurrentCv.NewestActive(Deleted(rows))
    {
      var n: nat := |rows|;
      assert Deleted(rows)[..n] == Deleted(rows);
      while n > 0
        invariant n <= |rows|
        invariant CurrentCv.NewestActive(Deleted(rows)) == CurrentCv.NewestActive(Deleted(rows)[..n])
      {
        assert Deleted(rows)[..n][..n - 1] == Deleted(rows)[..n - 1];
        if !rows[n - 1].cv.deleted {
          return Some(n - 1);
        }
        n := n - 1;
      }
      return None;
    }

    method Remove(staleMs: int, i: nat) returns (r: Result<(), C.CvError>)
      modifies this
      ensures match Snapshots.Remove(staleMs, old(Table()), i)
        case Ok(t) => r == Ok(()) && Table() == t
        case Err(e) => r == Err(e) && Table() == old(Table())
    {
      if i >= |rows| || rows[i].cv.deleted { return Err(C.NotFound); }
      rows := rows[i := rows[i].(cv := rows[i].cv.(deleted := true))];
      if currentCv == Some(i) {
        currentCv := LatestActive();
        applicationVersion := applicationVersion + 1;
      }
      return Ok(());
    }
  }
}
