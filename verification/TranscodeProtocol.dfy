/** The transcode job protocol: any number of workers and service calls share the two tables,
    and one action is one SQL statement, or one FFmpeg run, of one of them. A run is a
    sequence of actions in any interleaving. */
module TranscodeProtocol {
  import opened Wrappers
  import opened JobTable

  type WorkerId = nat
  type CallId = nat

  /** What happened to a statement: it took effect, it failed and changed nothing, or it took
      effect but the caller saw an error. */
  datatype Fate = Applied | Refused | Unacked

  /** The job struct a worker keeps after its claim. */
  datatype Held = Held(id: JobId, video: VideoId)

  /** A master playlist: the jobs it lists, and, as history that the file does not show, those it
      misses because the lookup of their preset failed. */
  datatype Playlist = Playlist(listed: set<JobId>, missed: set<JobId>)

  /** Where a worker is: the statement it will run next. */
  datatype Pc =
    | Idle
    | LoadingVideo(job: Held)
    | LoadingPreset(job: Held)
    | Rendering(job: Held, i: nat, n: nat)
    | Failing(job: Held)
    | Completing(job: Held)
    | Checking(video: VideoId)
    | Publishing(video: VideoId)
    | Listing(video: VideoId)
    | Looking(video: VideoId, todo: set<JobId>, built: Playlist)
    | Storing(video: VideoId)

  /** An Upload or Retranscode call that still has jobs to create and, if `mark`, the
      status `processing` to write afterwards. */
  datatype Call = Enqueue(video: VideoId, todo: seq<PresetId>, mark: bool)

  datatype State = State(
    rows: Rows,
    videos: Videos,
    files: map<VideoId, Playlist>,
    workers: map<WorkerId, Pc>,
    calls: map<CallId, Call>)

  datatype Action =
    // workers
    | Poll(w: WorkerId)
    | Claimed(w: WorkerId, locked: set<JobId>, id: JobId, acked: bool)
    | VideoLoaded(w: WorkerId, ok: bool)
    | PresetLoaded(w: WorkerId, ok: bool, resolutions: nat)
    | Report(w: WorkerId, percent: real, fate: Fate)
    | Rendered(w: WorkerId, ok: bool)
    | FailSent(w: WorkerId, fate: Fate)
    | CompleteSent(w: WorkerId, fate: Fate)
    | Checked(w: WorkerId, ok: bool)
    | Published(w: WorkerId, fate: Fate)
    | Listed(w: WorkerId, ok: bool)
    | LookedUp(w: WorkerId, id: JobId, ok: bool)
    | Put(w: WorkerId, fate: Fate)
    | Stored(w: WorkerId, fate: Fate)
    // service calls
    | Upload(c: CallId, video: VideoId, presets: seq<PresetId>)
    | Retranscode(c: CallId, video: VideoId, presets: seq<PresetId>)
    | CreateJob(c: CallId, id: JobId, maxAttempts: nat, now: nat, fate: Fate)
    | Mark(c: CallId, fate: Fate)
    | Delete(video: VideoId, fate: Fate)

  /** processJob's callback: the fraction of resolutions done plus this one's share. */
  function ScaledProgress(i: nat, n: nat, percent: real): (p: real)
    requires i < n
  {
    i as real / n as real + percent * (1.0 / n as real)
  }

  predicate At(s: State, w: WorkerId) { w in s.workers }

  /** Which actions may come next. Outcomes decided outside the system are left open. */
  ghost predicate Enabled(s: State, a: Action) {
    match a
    case Poll(w) => At(s, w) && s.workers[w].Idle?
    case Claimed(w, locked, id, _) => At(s, w) && s.workers[w].Idle? && IsNext(s.rows, locked, id)
    case VideoLoaded(w, ok) =>
      At(s, w) && s.workers[w].LoadingVideo? && (ok ==> Visible(s.videos, s.workers[w].job.video))
    case PresetLoaded(w, ok, n) => At(s, w) && s.workers[w].LoadingPreset? && (ok ==> n >= 1)
    case Report(w, percent, _) => At(s, w) && s.workers[w].Rendering? && 0.0 <= percent <= 100.0
    case Rendered(w, _) => At(s, w) && s.workers[w].Rendering?
    case FailSent(w, _) => At(s, w) && s.workers[w].Failing?
    case CompleteSent(w, _) => At(s, w) && s.workers[w].Completing?
    case Checked(w, _) => At(s, w) && s.workers[w].Checking?
    case Published(w, _) => At(s, w) && s.workers[w].Publishing?
    case Listed(w, _) => At(s, w) && s.workers[w].Listing?
    case LookedUp(w, id, _) => At(s, w) && s.workers[w].Looking? && id in s.workers[w].todo
    case Put(w, _) => At(s, w) && s.workers[w].Looking? && s.workers[w].todo == {}
    case Stored(w, _) => At(s, w) && s.workers[w].Storing?
    case Upload(c, v, _) => c !in s.calls && v !in s.videos
    case Retranscode(c, _, _) => c !in s.calls
    case CreateJob(c, id, maxAttempts, _, _) =>
      c in s.calls && s.calls[c].todo != [] && id !in s.rows && maxAttempts >= 1
    case Mark(c, _) => c in s.calls && s.calls[c].todo == []
    case Delete(_, _) => true
  }

  function Move(s: State, w: WorkerId, pc: Pc): State {
    s.(workers := s.workers[w := pc])
  }

  function Apply(s: State, a: Action): State
    requires Enabled(s, a)
  {
    match a
    case Poll(w) => s
    case Claimed(w, _, id, acked) =>
      var next := if acked then LoadingVideo(Held(id, s.rows[id].video)) else Idle;
      Move(s.(rows := Claim(s.rows, id)), w, next)
    case VideoLoaded(w, ok) =>
      Move(s, w, if ok then LoadingPreset(s.workers[w].job) else Failing(s.workers[w].job))
    case PresetLoaded(w, ok, n) =>
      Move(s, w, if ok then Rendering(s.workers[w].job, 0, n) else Failing(s.workers[w].job))
    case Report(w, percent, fate) =>
      var pc := s.workers[w];
      if fate.Refused? || pc.i >= pc.n then s
      else s.(rows := UpdateProgress(s.rows, pc.job.id, ScaledProgress(pc.i, pc.n, percent)))
    case Rendered(w, ok) =>
      var pc := s.workers[w];
      Move(s, w, if !ok then Failing(pc.job)
                 else if pc.i + 1 < pc.n then Rendering(pc.job, pc.i + 1, pc.n)
                 else Completing(pc.job))
    case FailSent(w, fate) =>
      var rows := if fate.Refused? then s.rows else Fail(s.rows, s.workers[w].job.id);
      Move(s.(rows := rows), w, Idle)
    case CompleteSent(w, fate) =>
      var rows := if fate.Refused? then s.rows else Complete(s.rows, s.workers[w].job.id);
      Move(s.(rows := rows), w, if fate.Applied? then Checking(s.workers[w].job.video) else Idle)
    case Checked(w, ok) =>
      var v := s.workers[w].video;
      Move(s, w, if ok && AllComplete(s.rows, v) then Publishing(v) else Idle)
    case Published(w, fate) =>
      var v := s.workers[w].video;
      var videos := if fate.Refused? then s.videos else UpdateStatus(s.videos, v, Ready);
      Move(s.(videos := videos), w, Listing(v))
    case Listed(w, ok) =>
      var v := s.workers[w].video;
      Move(s, w, if ok then Looking(v, Listable(s.rows, v), Playlist({}, {})) else Idle)
    case LookedUp(w, id, ok) =>
      var pc := s.workers[w];
      var built := if ok then pc.built.(listed := pc.built.listed + {id})
                   else pc.built.(missed := pc.built.missed + {id});
      Move(s, w, pc.(todo := pc.todo - {id}, built := built))
    case Put(w, fate) =>
      // an error is ignored, so an unacknowledged write is an applied one
      var pc := s.workers[w];
      var files := if fate.Refused? then s.files else s.files[pc.video := pc.built];
      Move(s.(files := files), w, Storing(pc.video))
    case Stored(w, fate) =>
      var v := s.workers[w].video;
      var videos := if fate.Refused? then s.videos else SetMasterPlaylist(s.videos, v);
      Move(s.(videos := videos), w, Idle)
    case Upload(c, v, presets) =>
      s.(videos := InsertVideo(s.videos, v), calls := s.calls[c := Enqueue(v, presets, |presets| > 0)])
    case Retranscode(c, v, presets) =>
      s.(calls := s.calls[c := Enqueue(v, presets, true)])
    case CreateJob(c, id, maxAttempts, now, fate) =>
      var call := s.calls[c];
      // the foreign key on video_id refuses a job without a video
      var inserts := !fate.Refused? && call.video in s.videos;
      var rows := if inserts then Insert(s.rows, id, call.video, call.todo[0], maxAttempts, now) else s.rows;
      var calls := if inserts && fate.Applied? then s.calls[c := call.(todo := call.todo[1..])] else s.calls - {c};
      s.(rows := rows, calls := calls)
    case Mark(c, fate) =>
      var call := s.calls[c];
      var videos := if call.mark && !fate.Refused?
                    then UpdateStatus(s.videos, call.video, VideoStatus.Processing) else s.videos;
      s.(videos := videos, calls := s.calls - {c})
    case Delete(v, fate) =>
      if fate.Refused? then s else s.(videos := SoftDelete(s.videos, v))
  }

  // ---------- runs ----------

  ghost predicate IsRun(s: State, run: seq<Action>)
    decreases |run|
  {
    run == [] || (Enabled(s, run[0]) && IsRun(Apply(s, run[0]), run[1..]))
  }

  ghost function Exec(s: State, run: seq<Action>): State
    requires IsRun(s, run)
    decreases |run|
  {
    if run == [] then s else Exec(Apply(s, run[0]), run[1..])
  }

  // ---------- what every run keeps ----------

  /** The job a worker holds between its claim and the statement that ends the attempt. */
  function Holds(pc: Pc): Option<Held> {
    match pc
    case LoadingVideo(j) => Some(j)
    case LoadingPreset(j) => Some(j)
    case Rendering(j, _, _) => Some(j)
    case Failing(j) => Some(j)
    case Completing(j) => Some(j)
    case _ => None
  }

  predicate HoldsJob(s: State, w: WorkerId, id: JobId) {
    w in s.workers && Holds(s.workers[w]).Some? && Holds(s.workers[w]).value.id == id
  }

  /** The retry bookkeeping of one row. */
  predicate RowOk(row: Job) {
    && row.attempts <= row.maxAttempts
    && (row.status == Pending ==> row.attempts < row.maxAttempts)
    && (row.status == JobStatus.Failed ==> row.attempts == row.maxAttempts)
    && 0.0 <= row.progress <= 100.0
    && (row.status == Completed ==> row.progress == 100.0 && row.hasOutput)
  }

  ghost predicate RowsOk(s: State) {
    forall id :: id in s.rows ==> RowOk(s.rows[id]) && s.rows[id].video in s.videos
  }

  /** A playlist lists completed jobs of its video only. */
  predicate PlaylistOk(rows: Rows, v: VideoId, p: Playlist) {
    p.listed + p.missed <= CompletedJobs(rows, v) && p.listed !! p.missed
  }

  predicate Finishing(pc: Pc) {
    pc.Checking? || pc.Publishing? || pc.Listing? || pc.Looking? || pc.Storing?
  }

  ghost predicate PcOk(s: State, pc: Pc) {
    && (Holds(pc).Some? ==>
        var j := Holds(pc).value;
        j.id in s.rows && s.rows[j.id].status == JobStatus.Processing && s.rows[j.id].video == j.video)
    && (pc.Rendering? ==> pc.i < pc.n)
    && (Finishing(pc) ==> CompletedJobs(s.rows, pc.video) != {})
    && (pc.Looking? ==>
          && pc.todo <= CompletedJobs(s.rows, pc.video) && PlaylistOk(s.rows, pc.video, pc.built)
          && pc.todo !! pc.built.listed + pc.built.missed)
  }

  ghost predicate Exclusive(s: State) {
    forall w1, w2, id :: HoldsJob(s, w1, id) && HoldsJob(s, w2, id) ==> w1 == w2
  }

  /** Every stored playlist belongs to a video and lists completed jobs of it only. */
  ghost predicate PlaylistsOk(s: State) {
    forall v :: v in s.files ==> v in s.videos && PlaylistOk(s.rows, v, s.files[v])
  }

  ghost predicate Inv(s: State) {
    && RowsOk(s)
    && (forall w :: w in s.workers ==> PcOk(s, s.workers[w]))
    && Exclusive(s)
    && PlaylistsOk(s)
  }

  /** Where a run may start: any consistent tables, also ones a crash left with `processing`
      rows that nobody holds, with all workers idle and no call under way. */
  ghost predicate Init(s: State) {
    && RowsOk(s)
    && PlaylistsOk(s)
    && (forall w :: w in s.workers ==> s.workers[w].Idle?)
    && s.calls == map[]
  }
}
