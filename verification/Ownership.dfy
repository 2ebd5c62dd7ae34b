/** What holds in every run of the transcode protocol, whatever statements fail or lose their
    answer and however service calls interleave: exclusive ownership of claimed jobs, final rows
    that never change again, and the bound on retries. */
module Ownership {
  import opened Wrappers
  import opened JobTable
  import opened TranscodeProtocol

  /** Rows change only for the job a worker holds, for a claimed pending job, or by insertion. */
  lemma RowChange(s: State, a: Action, id: JobId)
    requires Inv(s) && Enabled(s, a) && id in s.rows
    ensures var s' := Apply(s, a);
            id in s'.rows && s'.rows[id].video == s.rows[id].video
    ensures var s' := Apply(s, a);
            s'.rows[id] != s.rows[id] ==>
              || (a.Claimed? && a.id == id && s.rows[id].status == Pending)
              || (WritesHeldRow(a) && HoldsJob(s, a.w, id))
  {
    if WritesHeldRow(a) {
      HeldRowWritten(s, a);
    } else if a.CreateJob? {
      assert a.id != id;
    }
  }

  predicate WritesHeldRow(a: Action) { a.Report? || a.FailSent? || a.CompleteSent? }

  lemma HeldRowWritten(s: State, a: Action)
    requires Inv(s) && Enabled(s, a) && WritesHeldRow(a)
    ensures var s', held := Apply(s, a), Holds(s.workers[a.w]);
            && held.Some? && held.value.id in s.rows && s.rows[held.value.id].status == JobStatus.Processing
            && s'.rows.Keys == s.rows.Keys
            && s'.rows[held.value.id].video == s.rows[held.value.id].video
            && forall id :: id in s.rows && id != held.value.id ==> s'.rows[id] == s.rows[id]
  {
    assert PcOk(s, s.workers[a.w]);
  }

  /** Final statuses are absorbing: no action changes any column of a finished row. */
  lemma FinishedRowIsFrozen(s: State, a: Action, id: JobId)
    requires Inv(s) && Enabled(s, a)
    requires id in s.rows && s.rows[id].status in {Completed, JobStatus.Failed, Cancelled}
    ensures var s' := Apply(s, a); id in s'.rows && s'.rows[id] == s.rows[id]
  {
    RowChange(s, a, id);
    if WritesHeldRow(a) {
      HeldRowWritten(s, a);
    }
  }

  lemma CompletedJobsGrow(s: State, a: Action, v: VideoId)
    requires Inv(s) && Enabled(s, a)
    ensures CompletedJobs(s.rows, v) <= CompletedJobs(Apply(s, a).rows, v)
  {
    forall id | id in CompletedJobs(s.rows, v) ensures id in CompletedJobs(Apply(s, a).rows, v) {
      FinishedRowIsFrozen(s, a, id);
    }
  }

  lemma RowStaysOk(s: State, a: Action, id: JobId)
    requires Inv(s) && Enabled(s, a) && id in s.rows
    ensures id in Apply(s, a).rows && RowOk(Apply(s, a).rows[id]) && Apply(s, a).rows[id].video in Apply(s, a).videos
  {
    RowChange(s, a, id);
    assert s.videos.Keys <= Apply(s, a).videos.Keys;
    if a.Report? {
      ReportedRowStaysOk(s, a, id);
    } else if WritesHeldRow(a) {
      HeldRowWritten(s, a);
    }
  }

  lemma ReportedRowStaysOk(s: State, a: Action, id: JobId)
    requires Inv(s) && Enabled(s, a) && a.Report? && id in s.rows
    ensures id in Apply(s, a).rows && RowOk(Apply(s, a).rows[id])
  {
    HeldRowWritten(s, a);
    if s.workers[a.w].i < s.workers[a.w].n {
      ScaledProgressIsPercentage(s.workers[a.w].i, s.workers[a.w].n, a.percent);
    }
  }

  /** The value processJob writes is the number of resolutions done plus FFmpeg's percentage of the
      current one, each divided by the number of resolutions; so it grows with the percentage. */
  lemma ScaledProgressIs(i: nat, n: nat, percent: real)
    requires i < n
    ensures ScaledProgress(i, n, percent) * n as real == i as real + percent
    ensures n == 1 ==> ScaledProgress(i, n, percent) == percent
    ensures forall more :: percent < more ==> ScaledProgress(i, n, percent) < ScaledProgress(i, n, more)
  {
    var d := n as real;
    assert (i as real / d) * d == i as real && (percent * (1.0 / d)) * d == percent;
    forall more | percent < more ensures ScaledProgress(i, n, percent) < ScaledProgress(i, n, more) {
      assert 1.0 / d > 0.0;
      assert (more - percent) * (1.0 / d) > 0.0;
    }
  }

  /** The value processJob writes stays a percentage, although the fraction of resolutions done
      is on a scale of 1 and FFmpeg's own progress on a scale of 100. */
  lemma ScaledProgressIsPercentage(i: nat, n: nat, percent: real)
    requires i < n && 0.0 <= percent <= 100.0
    ensures 0.0 <= ScaledProgress(i, n, percent) <= 100.0
  {
    var base, chunk := i as real / n as real, 1.0 / n as real;
    assert base + chunk == (i + 1) as real / n as real <= 1.0;
    assert 0.0 <= percent * chunk <= 100.0 * chunk;
    assert base <= 100.0 * base;
  }

  predicate Moves(a: Action, w: WorkerId) {
    HasWorker(a) && a.w == w && !a.Poll? && !a.Report?
  }

  /** An action moves one worker at most. */
  lemma OthersStay(s: State, a: Action, w: WorkerId)
    requires Enabled(s, a)
    ensures w in Apply(s, a).workers <==> w in s.workers
    ensures w in s.workers && !Moves(a, w) ==> Apply(s, a).workers[w] == s.workers[w]
  {
  }

  /** Nobody but its holder ends the processing of a job. */
  lemma HeldRowStays(s: State, a: Action, w: WorkerId)
    requires Inv(s) && Enabled(s, a) && w in s.workers && Holds(s.workers[w]).Some? && !Moves(a, w)
    ensures var j := Holds(s.workers[w]).value;
            var rows := Apply(s, a).rows;
            j.id in rows && rows[j.id].status == JobStatus.Processing && rows[j.id].video == j.video
  {
    var id := Holds(s.workers[w]).value.id;
    assert PcOk(s, s.workers[w]) && HoldsJob(s, w, id);
    RowChange(s, a, id);
    if WritesHeldRow(a) && HoldsJob(s, a.w, id) {
      assert a.w == w && a.Report?;
    }
  }

  /** A worker that stays where it is keeps its promise, whatever the others do. */
  lemma PcOkWhileWaiting(s: State, a: Action, w: WorkerId)
    requires Inv(s) && Enabled(s, a) && w in s.workers && w in Apply(s, a).workers
    requires Apply(s, a).workers[w] == s.workers[w] && !Moves(a, w)
    ensures PcOk(Apply(s, a), s.workers[w])
  {
    var pc := s.workers[w];
    if Holds(pc).Some? {
      HeldRowStays(s, a, w);
    } else if Finishing(pc) {
      CompletedJobsGrow(s, a, pc.video);
    }
    PcOkFrame(s, Apply(s, a), pc);
  }

  lemma PcOkFrame(s: State, s': State, pc: Pc)
    requires PcOk(s, pc)
    requires Holds(pc).Some? ==>
      var j := Holds(pc).value;
      j.id in s'.rows && s'.rows[j.id].status == JobStatus.Processing && s'.rows[j.id].video == j.video
    requires Finishing(pc) ==> CompletedJobs(s.rows, pc.video) <= CompletedJobs(s'.rows, pc.video)
    ensures PcOk(s', pc)
  {
  }

  predicate HasWorker(a: Action) {
    !a.Upload? && !a.Retranscode? && !a.CreateJob? && !a.Mark? && !a.Delete?
  }

  /** A worker that moves keeps its promise, too. */
  lemma PcOkAfterMove(s: State, a: Action)
    requires Inv(s) && Enabled(s, a) && HasWorker(a) && !a.Poll? && !a.Report?
    ensures PcOk(Apply(s, a), Apply(s, a).workers[a.w])
  {
    if a.CompleteSent? {
      PcOkAfterComplete(s, a);
    } else if a.VideoLoaded? || a.PresetLoaded? || a.Rendered? {
      HeldJobIsKept(s, a);
      HeldStaysOk(s, Apply(s, a), s.workers[a.w], Apply(s, a).workers[a.w]);
    } else if a.Listed? || a.LookedUp? {
      PcOkAfterListing(s, a);
    } else if !a.Claimed? && !a.FailSent? {
      NextStageIs(s, a);
      FinishingStaysOk(s, Apply(s, a), s.workers[a.w], Apply(s, a).workers[a.w]);
    }
  }

  lemma HeldJobIsKept(s: State, a: Action)
    requires Enabled(s, a) && (a.VideoLoaded? || a.PresetLoaded? || a.Rendered?)
    ensures var pc, pc' := s.workers[a.w], Apply(s, a).workers[a.w];
            && Apply(s, a).rows == s.rows
            && Holds(pc).Some? && Holds(pc') == Holds(pc) && (pc'.Rendering? ==> pc'.i < pc'.n)
  {
  }

  lemma HeldStaysOk(s: State, s': State, pc: Pc, pc': Pc)
    requires PcOk(s, pc) && s'.rows == s.rows
    requires Holds(pc).Some? && Holds(pc') == Holds(pc) && (pc'.Rendering? ==> pc'.i < pc'.n)
    ensures PcOk(s', pc')
  {
  }

  predicate Publishes(a: Action) {
    a.Checked? || a.Published? || a.Listed? || a.Put? || a.Stored?
  }

  /** Every step of a publication but those of the lookups ends it or goes on with the same video. */
  predicate SameVideo(pc: Pc, pc': Pc) {
    Finishing(pc) && (pc'.Idle? || (Finishing(pc') && !pc'.Looking? && pc'.video == pc.video))
  }

  lemma NextStageIs(s: State, a: Action)
    requires Enabled(s, a) && Publishes(a) && !a.Listed?
    ensures Apply(s, a).rows == s.rows && SameVideo(s.workers[a.w], Apply(s, a).workers[a.w])
  {
  }

  lemma FinishingStaysOk(s: State, s': State, pc: Pc, pc': Pc)
    requires PcOk(s, pc) && s'.rows == s.rows && SameVideo(pc, pc')
    ensures PcOk(s', pc')
  {
  }

  lemma PcOkAfterListing(s: State, a: Action)
    requires Inv(s) && Enabled(s, a) && (a.Listed? || a.LookedUp?)
    ensures PcOk(Apply(s, a), Apply(s, a).workers[a.w])
  {
    assert PcOk(s, s.workers[a.w]);
  }

  lemma PcOkAfterComplete(s: State, a: Action)
    requires Inv(s) && Enabled(s, a) && a.CompleteSent?
    ensures PcOk(Apply(s, a), Apply(s, a).workers[a.w])
  {
    var job := s.workers[a.w].job;
    assert PcOk(s, s.workers[a.w]);
    if a.fate.Applied? {
      assert job.id in CompletedJobs(Apply(s, a).rows, job.video);
    }
  }

  /** A worker's own promise survives whatever any worker does. */
  lemma PcStaysOk(s: State, a: Action, w: WorkerId)
    requires Inv(s) && Enabled(s, a) && w in Apply(s, a).workers
    ensures PcOk(Apply(s, a), Apply(s, a).workers[w])
  {
    OthersStay(s, a, w);
    if Moves(a, w) {
      PcOkAfterMove(s, a);
    } else {
      PcOkWhileWaiting(s, a, w);
    }
  }

  /** A worker comes to hold a job by claiming it, and in no other way. */
  lemma HeldBefore(s: State, a: Action, w: WorkerId, id: JobId)
    requires Inv(s) && Enabled(s, a) && HoldsJob(Apply(s, a), w, id)
    ensures HoldsJob(s, w, id) || (a.Claimed? && a.w == w && a.id == id)
  {
    OthersStay(s, a, w);
  }

  lemma PendingIsUnheld(s: State, w: WorkerId, id: JobId)
    requires Inv(s) && id in s.rows && s.rows[id].status == Pending
    ensures !HoldsJob(s, w, id)
  {
    if w in s.workers {
      assert PcOk(s, s.workers[w]);
    }
  }

  lemma ExclusiveStays(s: State, a: Action)
    requires Inv(s) && Enabled(s, a)
    ensures Exclusive(Apply(s, a))
  {
    var s' := Apply(s, a);
    forall w1, w2, id | HoldsJob(s', w1, id) && HoldsJob(s', w2, id) ensures w1 == w2 {
      HeldBefore(s, a, w1, id);
      HeldBefore(s, a, w2, id);
      if a.Claimed? && a.id == id {
        PendingIsUnheld(s, w1, id);
        PendingIsUnheld(s, w2, id);
      }
    }
  }

  lemma PlaylistsStayOk(s: State, a: Action)
    requires Inv(s) && Enabled(s, a)
    ensures PlaylistsOk(Apply(s, a))
  {
    var s' := Apply(s, a);
    forall v | v in s'.files ensures v in s'.videos && PlaylistOk(s'.rows, v, s'.files[v]) {
      CompletedJobsGrow(s, a, v);
      if a.Put? && s.workers[a.w].video == v {
        assert PcOk(s, s.workers[a.w]);
        var id :| id in CompletedJobs(s.rows, v);
      }
    }
  }

  lemma InvStep(s: State, a: Action)
    requires Inv(s) && Enabled(s, a)
    ensures Inv(Apply(s, a))
  {
    forall id | id in Apply(s, a).rows
      ensures RowOk(Apply(s, a).rows[id]) && Apply(s, a).rows[id].video in Apply(s, a).videos
    {
      if id in s.rows {
        RowStaysOk(s, a, id);
      }
    }
    forall w | w in Apply(s, a).workers ensures PcOk(Apply(s, a), Apply(s, a).workers[w]) {
      PcStaysOk(s, a, w);
    }
    ExclusiveStays(s, a);
    PlaylistsStayOk(s, a);
  }

  lemma {:induction false} InvRun(s: State, run: seq<Action>)
    requires Inv(s) && IsRun(s, run)
    ensures Inv(Exec(s, run))
    decreases |run|
  {
    if run != [] {
      InvStep(s, run[0]);
      InvRun(Apply(s, run[0]), run[1..]);
    }
  }

  // ---------- the results ----------

  /** In every reachable state no two workers hold the same job, and every held job is
      `processing`, so a claim hands each job to exactly one worker. */
  lemma ExclusiveOwnership(s: State, run: seq<Action>, w: WorkerId, id: JobId)
    requires Init(s) && IsRun(s, run)
    requires HoldsJob(Exec(s, run), w, id)
    ensures id in Exec(s, run).rows && Exec(s, run).rows[id].status == JobStatus.Processing
    ensures forall other :: HoldsJob(Exec(s, run), other, id) ==> other == w
  {
    InvRun(s, run);
    assert PcOk(Exec(s, run), Exec(s, run).workers[w]);
  }

  /** Once a reachable state has a job completed, failed or cancelled, its row is the same in
      every later state, although Complete and Fail carry no guard on the status. */
  lemma {:induction false} FinishedForever(s: State, run: seq<Action>, id: JobId)
    requires Inv(s) && IsRun(s, run)
    requires id in s.rows && s.rows[id].status in {Completed, JobStatus.Failed, Cancelled}
    ensures id in Exec(s, run).rows && Exec(s, run).rows[id] == s.rows[id]
    decreases |run|
  {
    if run != [] {
      InvStep(s, run[0]);
      FinishedRowIsFrozen(s, run[0], id);
      FinishedForever(Apply(s, run[0]), run[1..], id);
    }
  }

  /** The retry bookkeeping of every job in every reachable state. */
  lemma RetryBound(s: State, run: seq<Action>, id: JobId)
    requires Init(s) && IsRun(s, run) && id in Exec(s, run).rows
    ensures var row := Exec(s, run).rows[id];
            && row.attempts <= row.maxAttempts
            && (row.status == Pending ==> row.attempts < row.maxAttempts)
            && (row.status == JobStatus.Failed ==> row.attempts == row.maxAttempts)
            && 0.0 <= row.progress <= 100.0
            && (row.status == Completed ==> row.progress == 100.0 && row.hasOutput)
  {
    InvRun(s, run);
  }

  /** Whatever playlist is stored for a video was built from completed jobs of that video. */
  lemma PlaylistListsCompletedJobs(s: State, run: seq<Action>, v: VideoId)
    requires Init(s) && IsRun(s, run)
    requires v in Exec(s, run).files
    ensures v in Exec(s, run).videos
    ensures Exec(s, run).files[v].listed <= CompletedJobs(Exec(s, run).rows, v)
  {
    InvRun(s, run);
  }
}
