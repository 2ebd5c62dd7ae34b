/** Runs of the transcode protocol that show where its guarantees end. */
module PublicationRuns {
  import opened JobTable
  import opened TranscodeProtocol
  import opened Publication

  /** A run grows at its end. */
  lemma {:induction false} Then(s: State, run: seq<Action>, a: Action)
    requires IsRun(s, run) && Enabled(Exec(s, run), a)
    ensures IsRun(s, run + [a]) && Exec(s, run + [a]) == Apply(Exec(s, run), a)
    decreases |run|
  {
    if run == [] {
      assert [a][1..] == [];
    } else {
      Then(Apply(s, run[0]), run[1..], a);
      assert (run + [a])[1..] == run[1..] + [a];
    }
  }

  ghost predicate Reaches(s: State, t: State) {
    exists run :: IsRun(s, run) && Exec(s, run) == t
  }

  lemma Stay(s: State)
    ensures Reaches(s, s)
  {
    assert IsRun(s, []) && Exec(s, []) == s;
  }

  lemma Step(s: State, t: State, a: Action)
    requires Reaches(s, t) && Enabled(t, a)
    ensures Reaches(s, Apply(t, a))
  {
    var run :| IsRun(s, run) && Exec(s, run) == t;
    Then(s, run, a);
  }

  /** An idle worker claims a pending job of a visible video and loads the video. */
  lemma Fetch(s: State, t: State, w: WorkerId, id: JobId)
    requires Reaches(s, t) && w in t.workers && t.workers[w] == Idle
    requires IsNext(t.rows, {}, id) && Visible(t.videos, t.rows[id].video)
    ensures var h := Held(id, t.rows[id].video);
            Reaches(s, t.(rows := Claim(t.rows, id), workers := t.workers[w := LoadingPreset(h)]))
  {
    var h := Held(id, t.rows[id].video);
    Step(s, t, Claimed(w, {}, id, true));
    var t1 := t.(rows := Claim(t.rows, id), workers := t.workers[w := LoadingVideo(h)]);
    Step(s, t1, VideoLoaded(w, true));
    assert t1.workers[w := LoadingPreset(h)] == t.workers[w := LoadingPreset(h)];
  }

  /** It finds a preset with one resolution and renders that. */
  lemma Render(s: State, t: State, w: WorkerId, h: Held)
    requires Reaches(s, t) && w in t.workers && t.workers[w] == LoadingPreset(h)
    ensures Reaches(s, t.(workers := t.workers[w := Completing(h)]))
  {
    Step(s, t, PresetLoaded(w, true, 1));
    var t1 := t.(workers := t.workers[w := Rendering(h, 0, 1)]);
    Step(s, t1, Rendered(w, true));
    assert t1.workers[w := Completing(h)] == t.workers[w := Completing(h)];
  }

  function Worked(t: State, w: WorkerId, id: JobId): State
    requires id in t.rows
  {
    t.(rows := Complete(Claim(t.rows, id), id), workers := t.workers[w := Checking(t.rows[id].video)])
  }

  /** An idle worker takes a pending job of a visible video through to its Complete. */
  lemma Work(s: State, t: State, w: WorkerId, id: JobId)
    requires Reaches(s, t) && w in t.workers && t.workers[w] == Idle
    requires IsNext(t.rows, {}, id) && Visible(t.videos, t.rows[id].video)
    ensures Reaches(s, Worked(t, w, id))
  {
    var h := Held(id, t.rows[id].video);
    Fetch(s, t, w, id);
    var t1 := t.(rows := Claim(t.rows, id), workers := t.workers[w := LoadingPreset(h)]);
    Render(s, t1, w, h);
    var t2 := t1.(workers := t1.workers[w := Completing(h)]);
    Step(s, t2, CompleteSent(w, Applied));
    assert Apply(t2, CompleteSent(w, Applied)).workers == Worked(t, w, id).workers;
  }

  /** A worker that finds all jobs done goes on to write `ready`. */
  lemma Check(s: State, t: State, w: WorkerId, v: VideoId)
    requires Reaches(s, t) && w in t.workers && t.workers[w] == Checking(v) && Done(t, v)
    ensures Reaches(s, t.(workers := t.workers[w := Publishing(v)]))
  {
    Step(s, t, Checked(w, true));
  }

  lemma Publish(s: State, t: State, w: WorkerId, v: VideoId)
    requires Reaches(s, t) && w in t.workers && t.workers[w] == Publishing(v)
    ensures Reaches(s, t.(videos := UpdateStatus(t.videos, v, Ready), workers := t.workers[w := Listing(v)]))
  {
    Step(s, t, Published(w, Applied));
  }

  lemma MarkNow(s: State, t: State, c: CallId, v: VideoId)
    requires Reaches(s, t) && c in t.calls && t.calls[c] == Enqueue(v, [], true)
    ensures Reaches(s, t.(videos := UpdateStatus(t.videos, v, VideoStatus.Processing), calls := t.calls - {c}))
  {
    Step(s, t, Mark(c, Applied));
  }

  // ---------- the runs ----------

  /** Two idle workers and nothing else. */
  function Start(): State {
    Plain(map[], map[], map[0 := Idle, 1 := Idle], map[])
  }

  /** A state without playlists. */
  function Plain(rows: Rows, videos: Videos, workers: map<WorkerId, Pc>, calls: map<CallId, Call>): State {
    State(rows, videos, map[], workers, calls)
  }

  lemma StartIsInitial()
    ensures Init(Start())
  {
  }

  function New(at: nat): Job { Job(0, 7, Pending, 0.0, 0, 3, false, at) }

  function Finished(at: nat): Job { Job(0, 7, Completed, 100.0, 1, 3, true, at) }

  function Show(status: VideoStatus): Videos { map[0 := Video(status, false, false)] }

  /** A call creates its next job, with preset 7 and three attempts. */
  lemma CreateNow(s: State, t: State, c: CallId, id: JobId, now: nat)
    requires Reaches(s, t) && c in t.calls && t.calls[c].video == 0 && 0 in t.videos && id !in t.rows
    requires t.calls[c].todo != [] && t.calls[c].todo[0] == 7
    ensures var call := t.calls[c].(todo := t.calls[c].todo[1..]);
            Reaches(s, t.(rows := t.rows[id := New(now)], calls := t.calls[c := call]))
  {
    Step(s, t, CreateJob(c, id, 3, now, Applied));
  }

  /** An upload of video 0 that has created one job and is still to write `processing`. */
  lemma UploadOne()
    ensures Reaches(Start(), Plain(map[0 := New(0)], Show(Uploaded), Start().workers, map[0 := Enqueue(0, [], true)]))
  {
    var s := Start();
    Stay(s);
    Step(s, s, Upload(0, 0, [7]));
    var t := Plain(map[], Show(Uploaded), s.workers, map[0 := Enqueue(0, [7], true)]);
    CreateNow(s, t, 0, 0, 0);
    assert [7][1..] == [];
  }

  lemma UploadTwo()
    ensures Reaches(Start(), Plain(map[0 := New(0), 1 := New(1)], Show(Uploaded), Start().workers,
                                   map[0 := Enqueue(0, [], true)]))
  {
    var s := Start();
    Stay(s);
    Step(s, s, Upload(0, 0, [7, 7]));
    var t := Plain(map[], Show(Uploaded), s.workers, map[0 := Enqueue(0, [7, 7], true)]);
    CreateNow(s, t, 0, 0, 0);
    assert [7, 7][1..] == [7] && [7][1..] == [];
    var t' := Plain(map[0 := New(0)], Show(Uploaded), s.workers, map[0 := Enqueue(0, [7], true)]);
    CreateNow(s, t', 0, 1, 1);
  }

  /** Both workers have rendered and completed a job of the video. */
  function BothComplete(): State {
    Plain(map[0 := Finished(0), 1 := Finished(1)], Show(Uploaded), map[0 := Checking(0), 1 := Checking(0)],
          map[0 := Enqueue(0, [], true)])
  }

  lemma BothCompleteIsReached()
    ensures Reaches(Start(), BothComplete())
  {
    var s := Start();
    UploadTwo();
    var t := Plain(map[0 := New(0), 1 := New(1)], Show(Uploaded), s.workers, map[0 := Enqueue(0, [], true)]);
    Work(s, t, 0, 0);
    var t1 := Worked(t, 0, 0);
    assert t1.rows == map[0 := Finished(0), 1 := New(1)];
    Work(s, t1, 1, 1);
    var t2 := Worked(t1, 1, 1);
    assert t2.rows == map[0 := Finished(0), 1 := Finished(1)];
    assert t2.workers == map[0 := Checking(0), 1 := Checking(0)];
  }

  /** Publication is at least once, not exactly once: two workers can both see all jobs done. */
  lemma TwoWorkersPublish()
    ensures exists t :: Init(Start()) && Reaches(Start(), t)
                        && t.workers == map[0 := Publishing(0), 1 := Publishing(0)]
  {
    var s, t := Start(), BothComplete();
    StartIsInitial();
    BothCompleteIsReached();
    DoneMeans(t, 0);
    Check(s, t, 0, 0);
    var t1 := t.(workers := t.workers[0 := Publishing(0)]);
    Check(s, t1, 1, 0);
    var t2 := t1.(workers := t1.workers[1 := Publishing(0)]);
    assert t2.workers == map[0 := Publishing(0), 1 := Publishing(0)];
  }

  /** The video of a slow upload has been published by worker 0 already. */
  function Overtaken(): State {
    Plain(map[0 := Finished(0)], Show(Ready), map[0 := Listing(0), 1 := Idle], map[0 := Enqueue(0, [], true)])
  }

  lemma OvertakenIsReached()
    ensures Reaches(Start(), Overtaken())
  {
    var s := Start();
    UploadOne();
    var t := Plain(map[0 := New(0)], Show(Uploaded), s.workers, map[0 := Enqueue(0, [], true)]);
    Work(s, t, 0, 0);
    var t1 := Worked(t, 0, 0);
    assert t1.rows == map[0 := Finished(0)];
    DoneMeans(t1, 0);
    Check(s, t1, 0, 0);
    var t2 := t1.(workers := t1.workers[0 := Publishing(0)]);
    Publish(s, t2, 0, 0);
    assert t2.workers[0 := Listing(0)] == Overtaken().workers;
    assert UpdateStatus(t2.videos, 0, Ready) == Show(Ready);
  }

  /** Creation must be atomic: a worker that is done before Upload writes `processing` has its
      `ready` overwritten, and the video is stranded. */
  lemma SlowUploadStrands()
    ensures exists t :: Init(Start()) && Reaches(Start(), t) && t.calls == map[] && Stranded(t, 0)
  {
    var s, t := Start(), Overtaken();
    StartIsInitial();
    OvertakenIsReached();
    MarkNow(s, t, 0, 0);
    var u := t.(videos := UpdateStatus(t.videos, 0, VideoStatus.Processing), calls := t.calls - {0});
    assert u.calls == map[];
    assert 0 in JobsOf(u.rows, 0);
    DoneMeans(u, 0);
    assert Stranded(u, 0);
  }

  /** Video 0 uploaded and rendered, worker 0 past its check and about to write `ready`. */
  function Caught(): State {
    Plain(map[0 := Finished(0)], Show(VideoStatus.Processing), map[0 := Publishing(0), 1 := Idle], map[])
  }

  lemma CaughtIsReached()
    ensures Reaches(Start(), Caught())
  {
    var s := Start();
    UploadOne();
    var t := Plain(map[0 := New(0)], Show(Uploaded), s.workers, map[0 := Enqueue(0, [], true)]);
    MarkNow(s, t, 0, 0);
    var t1 := Plain(map[0 := New(0)], Show(VideoStatus.Processing), s.workers, map[]);
    assert t1.calls == t.calls - {0};
    Work(s, t1, 0, 0);
    var t2 := Worked(t1, 0, 0);
    assert t2.rows == map[0 := Finished(0)];
    DoneMeans(t2, 0);
    Check(s, t2, 0, 0);
    assert Caught() == t2.(workers := t2.workers[0 := Publishing(0)]);
  }

  lemma RetranscodedLate()
    ensures Reaches(Start(), Caught().(rows := map[0 := Finished(0), 5 := New(9)]))
  {
    var s, t := Start(), Caught();
    CaughtIsReached();
    Step(s, t, Retranscode(1, 0, [7]));
    var t1 := t.(calls := map[1 := Enqueue(0, [7], true)]);
    CreateNow(s, t1, 1, 5, 9);
    var t2 := t.(rows := map[0 := Finished(0), 5 := New(9)], calls := map[1 := Enqueue(0, [], true)]);
    assert [7][1..] == [] && t2.rows == t1.rows[5 := New(9)] && t2.calls == t1.calls[1 := Enqueue(0, [], true)];
    MarkNow(s, t2, 1, 0);
    assert t2.calls - {1} == map[];
    assert UpdateStatus(t2.videos, 0, VideoStatus.Processing) == t2.videos;
  }

  /** A retranscode between a worker's check and its write leaves a stale `ready`: the call is
      over, yet the video shows `ready` while its new job is pending. */
  lemma LateRetranscodeIsHidden()
    ensures exists t :: Init(Start()) && Reaches(Start(), t) && t.calls == map[]
                        && IsReady(t, 0) && !Done(t, 0)
  {
    var s := Start();
    StartIsInitial();
    RetranscodedLate();
    var t := Caught().(rows := map[0 := Finished(0), 5 := New(9)]);
    Publish(s, t, 0, 0);
    var u := t.(videos := UpdateStatus(t.videos, 0, Ready), workers := t.workers[0 := Listing(0)]);
    assert u.rows[5].status == Pending && u.rows[5].video == 0;
    DoneMeans(u, 0);
  }

  /** Video 0 is published, and worker 0 has still to look up the preset of its one job. */
  function Building(): State {
    Caught().(videos := Show(Ready), workers := map[0 := Looking(0, {0}, Playlist({}, {})), 1 := Idle])
  }

  lemma BuildingIsReached()
    ensures Reaches(Start(), Building())
  {
    var s, t := Start(), Caught();
    CaughtIsReached();
    Publish(s, t, 0, 0);
    var t1 := t.(videos := UpdateStatus(t.videos, 0, Ready), workers := t.workers[0 := Listing(0)]);
    assert UpdateStatus(t.videos, 0, Ready) == Show(Ready);
    Step(s, t1, Action.Listed(0, true));
    assert Listable(t1.rows, 0) == {0};
    assert Building() == Apply(t1, Action.Listed(0, true));
  }

  lemma LookUpNow(s: State, t: State, w: WorkerId, v: VideoId, id: JobId, ok: bool)
    requires Reaches(s, t) && w in t.workers && t.workers[w] == Looking(v, {id}, Playlist({}, {}))
    ensures var built := if ok then Playlist({id}, {}) else Playlist({}, {id});
            Reaches(s, t.(workers := t.workers[w := Looking(v, {}, built)]))
  {
    Step(s, t, LookedUp(w, id, ok));
    var none: set<JobId> := {};
    assert {id} - {id} == none && none + {id} == {id};
  }

  /** A worker that has looked up everything writes the playlist, or fails to, and stores its path. */
  lemma PutAndStore(s: State, t: State, w: WorkerId, v: VideoId, built: Playlist, fate: Fate)
    requires Reaches(s, t) && w in t.workers && t.workers[w] == Looking(v, {}, built) && v in t.videos
    ensures Reaches(s, t.(files := if fate.Refused? then t.files else t.files[v := built],
                          videos := SetMasterPlaylist(t.videos, v),
                          workers := t.workers[w := Idle]))
  {
    Step(s, t, Put(w, fate));
    var t1 := Apply(t, Put(w, fate));
    Step(s, t1, Stored(w, Applied));
    assert t1.workers[w := Idle] == t.workers[w := Idle];
  }

  /** One failed lookup is enough: a video shows `ready` and has a master playlist, which lacks
      its completed job. */
  lemma FailedLookupHidesJob()
    ensures exists t :: Reaches(Start(), t) && IsReady(t, 0) && t.videos[0].playlist
                        && 0 in t.files && t.files[0].listed == {} && CompletedJobs(t.rows, 0) == {0}
                        && t.workers == Start().workers
  {
    var s, t := Start(), Building();
    BuildingIsReached();
    LookUpNow(s, t, 0, 0, 0, false);
    var t1 := t.(workers := t.workers[0 := Looking(0, {}, Playlist({}, {0}))]);
    PutAndStore(s, t1, 0, 0, Playlist({}, {0}), Applied);
    assert t1.workers[0 := Idle] == s.workers;
  }

  /** A failed Put goes unnoticed: a video shows `ready` and its row names a playlist that was
      never written. */
  lemma FailedPutLeavesNoFile()
    ensures exists t :: Reaches(Start(), t) && IsReady(t, 0) && t.videos[0].playlist && 0 !in t.files
                        && t.workers == Start().workers
  {
    var s, t := Start(), Building();
    BuildingIsReached();
    LookUpNow(s, t, 0, 0, 0, true);
    var t1 := t.(workers := t.workers[0 := Looking(0, {}, Playlist({0}, {}))]);
    PutAndStore(s, t1, 0, 0, Playlist({0}, {}), Refused);
    assert t1.workers[0 := Idle] == s.workers;
  }

  /** A video deleted between a worker's check and its write ends up deleted with status `ready`. */
  lemma DeletedShowsReady()
    ensures exists t :: Reaches(Start(), t) && t.videos == map[0 := Video(Ready, true, false)]
  {
    var s, t := Start(), Caught();
    CaughtIsReached();
    Step(s, t, Delete(0, Applied));
    var t1 := t.(videos := map[0 := Video(Deleted, true, false)]);
    assert t1 == Apply(t, Delete(0, Applied));
    Publish(s, t1, 0, 0);
    assert UpdateStatus(t1.videos, 0, Ready) == map[0 := Video(Ready, true, false)];
  }
}
