/** The transcode_jobs and videos tables. Each SQL statement is one function from the old
    rows to the new ones; the repository classes apply these functions in place. */
module JobTable {
  import opened Wrappers

  type JobId = nat
  type VideoId = nat
  type PresetId = nat

  datatype JobStatus = Pending | Processing | Completed | Failed | Cancelled

  /** A row of transcode_jobs, without the descriptive columns. `hasOutput` tells whether output_path
      is set. */
  datatype Job = Job(
    video: VideoId,
    preset: PresetId,
    status: JobStatus,
    progress: real,
    attempts: nat,
    maxAttempts: nat,
    hasOutput: bool,
    createdAt: nat)

  type Rows = map<JobId, Job>

  datatype VideoStatus = Uploading | Uploaded | Processing | Ready | Failed | Deleted

  /** A row of videos. `playlist` tells whether master_playlist holds a path. */
  datatype Video = Video(status: VideoStatus, deleted: bool, playlist: bool)

  type Videos = map<VideoId, Video>

  // ---------- statements on transcode_jobs ----------

  function Insert(rows: Rows, id: JobId, video: VideoId, preset: PresetId, maxAttempts: nat, now: nat): Rows {
    rows[id := Job(video, preset, Pending, 0.0, 0, maxAttempts, false, now)]
  }

  function Claim(rows: Rows, id: JobId): Rows
    requires id in rows
  {
    rows[id := rows[id].(status := JobStatus.Processing, attempts := rows[id].attempts + 1)]
  }

  /** The column's CHECK refuses a progress outside [0, 100]. */
  function UpdateProgress(rows: Rows, id: JobId, progress: real): Rows {
    if id in rows && 0.0 <= progress <= 100.0 then rows[id := rows[id].(progress := progress)] else rows
  }

  function Complete(rows: Rows, id: JobId): Rows {
    if id in rows then rows[id := rows[id].(status := Completed, progress := 100.0, hasOutput := true)] else rows
  }

  function Fail(rows: Rows, id: JobId): Rows {
    if id in rows then
      var row := rows[id];
      rows[id := row.(status := if row.attempts < row.maxAttempts then Pending else JobStatus.Failed)]
    else rows
  }

  /** The pending rows that no other transaction holds locked. */
  function Claimable(rows: Rows, locked: set<JobId>): set<JobId> {
    set id | id in rows && rows[id].status == Pending && id !in locked
  }

  /** What ORDER BY created_at LIMIT 1 may return. */
  ghost predicate IsNext(rows: Rows, locked: set<JobId>, id: JobId) {
    && id in Claimable(rows, locked)
    && forall other :: other in Claimable(rows, locked) ==> rows[id].createdAt <= rows[other].createdAt
  }

  function JobsOf(rows: Rows, video: VideoId): set<JobId> {
    set id | id in rows && rows[id].video == video
  }

  /** The rows AllCompleteForVideo counts, with the EXISTS conjunct as it is written. */
  function Outstanding(rows: Rows, video: VideoId): set<JobId> {
    set id | id in rows && rows[id].video == video && rows[id].status !in {Completed, Cancelled}
             && JobsOf(rows, video) != {}
  }

  function AllComplete(rows: Rows, video: VideoId): bool {
    |Outstanding(rows, video)| == 0
  }

  function CompletedJobs(rows: Rows, video: VideoId): set<JobId> {
    set id | id in rows && rows[id].video == video && rows[id].status == Completed
  }

  /** The jobs whose preset the master playlist looks up. */
  function Listable(rows: Rows, video: VideoId): set<JobId> {
    set id | id in CompletedJobs(rows, video) && rows[id].hasOutput
  }

  /** The EXISTS conjunct never changes the answer: a video without jobs counts as complete. */
  lemma ExistsIsRedundant(rows: Rows, video: VideoId)
    ensures AllComplete(rows, video) <==>
            forall id :: id in rows && rows[id].video == video ==> rows[id].status in {Completed, Cancelled}
    ensures JobsOf(rows, video) == {} ==> AllComplete(rows, video)
  {
    if AllComplete(rows, video) {
      forall id | id in rows && rows[id].video == video
        ensures rows[id].status in {Completed, Cancelled}
      {
        assert id in JobsOf(rows, video);
        assert id !in Outstanding(rows, video);
      }
    } else {
      var id :| id in Outstanding(rows, video);
    }
  }

  // ---------- statements on videos ----------

  function InsertVideo(videos: Videos, id: VideoId): Videos {
    videos[id := Video(Uploaded, false, false)]
  }

  /** No filter on deleted_at. */
  function UpdateStatus(videos: Videos, id: VideoId, status: VideoStatus): Videos {
    if id in videos then videos[id := videos[id].(status := status)] else videos
  }

  function SoftDelete(videos: Videos, id: VideoId): Videos {
    if id in videos && !videos[id].deleted then videos[id := videos[id].(status := Deleted, deleted := true)]
    else videos
  }

  function SetMasterPlaylist(videos: Videos, id: VideoId): Videos {
    if id in videos then videos[id := videos[id].(playlist := true)] else videos
  }

  predicate Visible(videos: Videos, id: VideoId) {
    id in videos && !videos[id].deleted
  }

  // ---------- the repositories ----------

  lemma {:induction false} Earliest(rows: Rows, ids: set<JobId>) returns (id: JobId)
    requires ids != {} && ids <= rows.Keys
    ensures id in ids && forall other :: other in ids ==> rows[id].createdAt <= rows[other].createdAt
    decreases |ids|
  {
    var some :| some in ids;
    id := some;
    var rest := ids - {some};
    if rest != {} {
      var best := Earliest(rows, rest);
      assert best in ids;
      if rows[best].createdAt < rows[some].createdAt {
        id := best;
      }
    }
    forall other | other in ids ensures rows[id].createdAt <= rows[other].createdAt {
      assert other == some || other in rest;
    }
  }

  /** At most the row `id` has changed. */
  ghost predicate OnlyRow<K, V>(before: map<K, V>, after: map<K, V>, id: K) {
    after.Keys == before.Keys && forall k :: k in before && k != id ==> after[k] == before[k]
  }

  class JobRepository {
    var rows: Rows

    constructor ()
      ensures rows == map[]
    {
      rows := map[];
    }

    method Create(id: JobId, video: VideoId, preset: PresetId, maxAttempts: nat, now: nat)
      requires id !in rows
      modifies this
      ensures rows == Insert(old(rows), id, video, preset, maxAttempts, now)
      ensures rows - {id} == old(rows) && id in Claimable(rows, {}) && rows[id].attempts == 0
      ensures !AllComplete(rows, video)
    {
      rows := rows[id := Job(video, preset, Pending, 0.0, 0, maxAttempts, false, now)];
      assert rows - {id} == old(rows);
      ExistsIsRedundant(rows, video);
    }

    /** `locked` are the rows other transactions hold, which SKIP LOCKED passes over. */
    method ClaimPending(locked: set<JobId>) returns (job: Option<JobId>)
      modifies this
      ensures job.None? <==> Claimable(old(rows), locked) == {}
      ensures job.None? ==> rows == old(rows)
      ensures job.Some? ==> IsNext(old(rows), locked, job.value) && rows == Claim(old(rows), job.value)
      ensures job.Some? ==> job.value in old(rows) && old(rows)[job.value].status == Pending && job.value !in locked
      ensures job.Some? ==>
        forall id :: id in old(rows) && old(rows)[id].status == Pending && id !in locked ==>
          old(rows)[job.value].createdAt <= old(rows)[id].createdAt
      ensures job.Some? ==> OnlyRow(old(rows), rows, job.value) && rows[job.value].status == JobStatus.Processing
      ensures job.Some? ==> rows[job.value].attempts == old(rows)[job.value].attempts + 1
    {
      var free := Claimable(rows, locked);
      if free == {} {
        return None;
      }
      ghost var earliest := Earliest(rows, free);
      var id :| id in free && forall other :: other in free ==> rows[id].createdAt <= rows[other].createdAt;
      rows := rows[id := rows[id].(status := JobStatus.Processing, attempts := rows[id].attempts + 1)];
      return Some(id);
    }

    method UpdateProgressOf(id: JobId, progress: real)
      modifies this
      ensures rows == UpdateProgress(old(rows), id, progress)
      ensures OnlyRow(old(rows), rows, id)
      ensures id in rows ==> rows[id] == old(rows)[id].(progress := rows[id].progress)
      ensures id in rows ==> rows[id].progress == if 0.0 <= progress <= 100.0 then progress else old(rows)[id].progress
    {
      if id in rows && 0.0 <= progress <= 100.0 {
        rows := rows[id := rows[id].(progress := progress)];
      }
    }

    method CompleteJob(id: JobId)
      modifies this
      ensures rows == Complete(old(rows), id)
      ensures OnlyRow(old(rows), rows, id)
      ensures id in rows ==> id in Listable(rows, rows[id].video) && rows[id].progress == 100.0
      ensures id in rows ==> rows[id].attempts == old(rows)[id].attempts && rows[id].video == old(rows)[id].video
    {
      if id in rows {
        rows := rows[id := rows[id].(status := Completed, progress := 100.0, hasOutput := true)];
      }
    }

    method FailJob(id: JobId)
      modifies this
      ensures rows == Fail(old(rows), id)
      ensures OnlyRow(old(rows), rows, id)
      ensures id in rows ==> rows[id] == old(rows)[id].(status := rows[id].status)
      ensures id in rows && rows[id].attempts < rows[id].maxAttempts ==> rows[id].status == Pending
      ensures id in rows && rows[id].attempts >= rows[id].maxAttempts ==> rows[id].status == JobStatus.Failed
    {
      if id in rows {
        var status := JobStatus.Failed;
        if rows[id].attempts < rows[id].maxAttempts {
          status := Pending;
        }
        rows := rows[id := rows[id].(status := status)];
      }
    }

    method AllCompleteForVideo(video: VideoId) returns (allDone: bool)
      ensures allDone <==>
              forall id :: id in rows && rows[id].video == video ==> rows[id].status in {Completed, Cancelled}
    {
      ExistsIsRedundant(rows, video);
      allDone := |Outstanding(rows, video)| == 0;
    }
  }

  class VideoRepository {
    var videos: Videos

    constructor ()
      ensures videos == map[]
    {
      videos := map[];
    }

    method Create(id: VideoId)
      requires id !in videos
      modifies this
      ensures videos == InsertVideo(old(videos), id)
      ensures videos - {id} == old(videos) && Visible(videos, id)
      ensures videos[id].status == Uploaded && !videos[id].playlist
    {
      videos := videos[id := Video(Uploaded, false, false)];
      assert videos - {id} == old(videos);
    }

    method SetStatus(id: VideoId, status: VideoStatus)
      modifies this
      ensures videos == UpdateStatus(old(videos), id, status)
      ensures OnlyRow(old(videos), videos, id)
      ensures id in videos ==> videos[id] == old(videos)[id].(status := status)
    {
      if id in videos {
        videos := videos[id := videos[id].(status := status)];
      }
    }

    method Remove(id: VideoId)
      modifies this
      ensures videos == SoftDelete(old(videos), id)
      ensures OnlyRow(old(videos), videos, id) && !Visible(videos, id)
      ensures SoftDelete(videos, id) == videos
      ensures old(Visible(videos, id)) ==> videos[id].deleted && videos[id].status == Deleted
      ensures old(id in videos && videos[id].deleted) ==> videos == old(videos)
    {
      if id in videos && !videos[id].deleted {
        videos := videos[id := videos[id].(status := Deleted, deleted := true)];
      }
    }

    method SetPlaylist(id: VideoId)
      modifies this
      ensures videos == SetMasterPlaylist(old(videos), id)
      ensures OnlyRow(old(videos), videos, id)
      ensures id in videos ==> videos[id] == old(videos)[id].(playlist := true)
    {
      if id in videos {
        videos := videos[id := videos[id].(playlist := true)];
      }
    }
  }
}
