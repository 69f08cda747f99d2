/** The job status tracker (packages/gwanli-core/src/lib/jobs.ts): one status record per job,
    rewritten whole on every status change. The status file is a field of the tracker; clock
    readings are parameters. */
module Jobs {
  import opened Wrappers

  datatype JobStatus = Start | Processing | End | Error

  datatype JobInfo = JobInfo(
    id: string,
    status: JobStatus,
    error: Option<string>,
    startTime: string,
    endTime: Option<string>)

  /** The status file: not there, not valid JSON, or a record. */
  datatype StatusFile = Missing | Garbled | Record(info: JobInfo)

  predicate IsTerminal(status: JobStatus) {
    status == End || status == Error
  }

  /** `getStartTime() || now`: the stored start time when the file reads back and holds a
      non-empty one (the empty string is falsy). */
  function StartTimeOf(file: StatusFile): (t: Option<string>)
    ensures t.Some? <==> file.Record? && file.info.startTime != ""
    ensures t.Some? ==> t.value == file.info.startTime
  {
    if file.Record? && file.info.startTime != "" then Some(file.info.startTime) else None
  }

  /** The record `updateStatus` writes. */
  function NextRecord(file: StatusFile, id: string, status: JobStatus, error: Option<string>, now: string): (info: JobInfo)
    ensures info.id == id && info.status == status && info.error == error
    ensures info.startTime == StartTimeOf(file).GetOr(now)
    ensures info.endTime.Some? <==> IsTerminal(status)
    ensures info.endTime.Some? ==> info.endTime.value == now
  {
    JobInfo(id, status, error, StartTimeOf(file).GetOr(now), if IsTerminal(status) then Some(now) else None)
  }

  /** One `updateStatus(status, error)` call made at clock reading `now`. */
  datatype Update = Update(status: JobStatus, error: Option<string>, now: string)

  /** The file after a sequence of `updateStatus` calls. */
  function Replay(file: StatusFile, id: string, updates: seq<Update>): (r: StatusFile)
    ensures updates != [] ==> r.Record? && r.info.id == id && r.info.status == updates[|updates| - 1].status
  {
    if updates == [] then file
    else
      var u := updates[|updates| - 1];
      Record(NextRecord(Replay(file, id, updates[..|updates| - 1]), id, u.status, u.error, u.now))
  }

  /** Once a non-empty start time is on file, no later update changes it. */
  lemma {:induction false} StartTimeNeverChanges(file: StatusFile, id: string, updates: seq<Update>)
    requires StartTimeOf(file).Some?
    ensures StartTimeOf(Replay(file, id, updates)) == StartTimeOf(file)
  {
    if updates != [] {
      StartTimeNeverChanges(file, id, updates[..|updates| - 1]);
    }
  }

  /** A job started at `now` keeps `now` as its start time through every later update. */
  lemma FirstWriteFixesStartTime(file: StatusFile, id: string, first: Update, updates: seq<Update>)
    requires StartTimeOf(file).None? && first.now != ""
    ensures var r := Replay(file, id, [first] + updates);
      r.Record? && r.info.startTime == first.now
  {
    var afterFirst := Replay(file, id, [first]);
    assert [first][..0] == [];
    assert afterFirst == Record(NextRecord(Replay(file, id, []), id, first.status, first.error, first.now));
    assert StartTimeOf(afterFirst) == Some(first.now);
    StartTimeNeverChanges(afterFirst, id, updates);
    ReplayAppend(file, id, [first], updates);
  }

  lemma {:induction false} ReplayAppend(file: StatusFile, id: string, a: seq<Update>, b: seq<Update>)
    ensures Replay(file, id, a + b) == Replay(Replay(file, id, a), id, b)
  {
    if b != [] {
      ReplayAppend(file, id, a, b[..|b| - 1]);
      assert (a + b)[..|a + b| - 1] == a + b[..|b| - 1];
    } else {
      assert a + b == a;
    }
  }

  /** No state is terminal: an ended job can be set back to PROCESSING, which drops its end
      time, and an earlier error is not kept. */
  lemma NoTerminalGuard(id: string, startTime: string, error: string, now: string)
    requires startTime != ""
    ensures var ended := Record(JobInfo(id, Error, Some(error), startTime, Some(now)));
      Replay(ended, id, [Update(Processing, None, now)])
        == Record(JobInfo(id, Processing, None, startTime, None))
  {
    assert [Update(Processing, None, now)][..0] == [];
  }

  class JobTracker {
    const jobId: string
    var file: StatusFile

    /** `jobId || Date.now().toString()`; `existing` is whatever status file the job directory
        already holds, and the constructor writes the START record over it. */
    constructor(jobId: Option<string>, clockMillis: string, existing: StatusFile, now: string)
      ensures this.jobId == (if jobId.Some? && jobId.value != "" then jobId.value else clockMillis)
      ensures file == Record(NextRecord(existing, this.jobId, Start, None, now))
    {
      this.jobId := if jobId.Some? && jobId.value != "" then jobId.value else clockMillis;
      file := existing;
      new;
      UpdateStatus(Start, None, now);
    }

    /** `updateStatus`: any status may follow any other; the whole record is rewritten. */
    method UpdateStatus(status: JobStatus, error: Option<string>, now: string)
      modifies this
      ensures file == Record(NextRecord(old(file), jobId, status, error, now))
    {
      var startTime := GetStartTime();
      var endTime := if IsTerminal(status) then Some(now) else None;
      file := Record(JobInfo(jobId, status, error, startTime.GetOr(now), endTime));
    }

    /** `getStatus`: `null` when the file is missing or does not parse. */
    method GetStatus() returns (info: Option<JobInfo>)
      ensures info.Some? <==> file.Record?
      ensures info.Some? ==> info.value == file.info
    {
      match file
      case Record(i) => info := Some(i);
      case _ => info := None;
    }

    /** `getStartTime`, with the caller's `||` folded in: a stored empty start time counts as
        none. */
    method GetStartTime() returns (t: Option<string>)
      ensures t == StartTimeOf(file)
    {
      var current := GetStatus();
      t := if current.Some? && current.value.startTime != "" then Some(current.value.startTime) else None;
    }
  }

  /** A tracker whose first update follows construction: the record it reads back is that
      update, and its start time is the constructor's clock reading on a fresh directory. */
  method TrackTwoSteps(jobId: Option<string>, clockMillis: string, start: string, later: string)
    returns (info: Option<JobInfo>)
    requires start != ""
    ensures info.Some? && info.value.status == End && info.value.startTime == start
    ensures info.value.endTime == Some(later) && info.value.error == None
  {
    var tracker := new JobTracker(jobId, clockMillis, Missing, start);
    tracker.UpdateStatus(End, None, later);
    info := tracker.GetStatus();
  }
}
