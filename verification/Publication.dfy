/** When a finished video is published. The worker that completes a job checks the other jobs of
    the video and then writes `ready` in a separate statement, while uploads and retranscodes
    create jobs first and write `processing` afterwards. */
module Publication {
  import opened Wrappers
  import opened JobTable
  import opened TranscodeProtocol
  import opened Ownership

  ghost predicate Done(s: State, v: VideoId) {
    AllComplete(s.rows, v)
  }

  predicate InZone(pc: Pc, v: VideoId) {
    (pc.Checking? || pc.Publishing?) && pc.video == v
  }

  /** Some worker is between its Complete and its write of `ready`. */
  ghost predicate Zone(s: State, v: VideoId) {
    exists w :: w in s.workers && InZone(s.workers[w], v)
  }

  ghost predicate ZoneOfOthers(s: State, v: VideoId, me: WorkerId) {
    exists w :: w in s.workers && w != me && InZone(s.workers[w], v)
  }

  predicate IsReady(s: State, v: VideoId) {
    v in s.videos && s.videos[v].status == Ready
  }

  /** The status is `ready`, or the video has been deleted meanwhile. */
  predicate Shown(s: State, v: VideoId) {
    IsReady(s, v) || (v in s.videos && s.videos[v].deleted)
  }

  /** A video whose jobs are all done is published, or about to be. */
  ghost predicate Promise(s: State, v: VideoId) {
    JobsOf(s.rows, v) != {} && Done(s, v) ==> Shown(s, v) || Zone(s, v)
  }

  /** All jobs of v other than `id` are done. */
  ghost predicate OthersDone(s: State, v: VideoId, id: JobId) {
    forall j :: j in s.rows && s.rows[j].video == v && j != id ==> s.rows[j].status in {Completed, Cancelled}
  }

  /** The four ways to lose the promise, each seen before the action: `processing` is written
      over a finished video that no worker is about to publish, or the last worker that would
      publish it stops because Complete reports an error that it did not have, the check fails
      or the write of `ready` fails. */
  ghost predicate Loses(s: State, a: Action, v: VideoId)
    requires Enabled(s, a)
  {
    match a
    case Mark(c, fate) =>
      && s.calls[c].video == v && s.calls[c].mark && !fate.Refused?
      && JobsOf(s.rows, v) != {} && Done(s, v) && v in s.videos && !s.videos[v].deleted && !Zone(s, v)
    case CompleteSent(w, fate) =>
      && fate.Unacked? && s.workers[w].job.video == v
      && OthersDone(s, v, s.workers[w].job.id) && !Shown(s, v) && !Zone(s, v)
    case Checked(w, ok) =>
      !ok && s.workers[w].video == v && Done(s, v) && !Shown(s, v) && !ZoneOfOthers(s, v, w)
    case Published(w, fate) =>
      fate.Refused? && s.workers[w].video == v && Done(s, v) && !Shown(s, v) && !ZoneOfOthers(s, v, w)
    case _ => false
  }

  // ---------- how one action changes the ingredients of the promise ----------

  /** `Done` in plain terms. */
  lemma DoneMeans(s: State, v: VideoId)
    ensures Done(s, v) <==>
            forall j :: j in s.rows && s.rows[j].video == v ==> s.rows[j].status in {Completed, Cancelled}
  {
    ExistsIsRedundant(s.rows, v);
  }

  ghost predicate Inserts(s: State, a: Action, v: VideoId)
    requires Enabled(s, a)
  {
    a.CreateJob? && !a.fate.Refused? && s.calls[a.c].video == v && v in s.videos
  }

  lemma DoneSurvives(s: State, a: Action, v: VideoId)
    requires Inv(s) && Enabled(s, a) && Done(s, v) && !Inserts(s, a, v)
    ensures Done(Apply(s, a), v)
  {
    var s' := Apply(s, a);
    DoneMeans(s, v);
    DoneMeans(s', v);
    forall j | j in s'.rows && s'.rows[j].video == v ensures s'.rows[j].status in {Completed, Cancelled} {
      if j in s.rows {
        RowChange(s, a, j);
        FinishedRowIsFrozen(s, a, j);
      }
    }
  }

  lemma InsertionUndoesDone(s: State, a: Action, v: VideoId)
    requires Inv(s) && Enabled(s, a) && Inserts(s, a, v)
    ensures !Done(Apply(s, a), v)
  {
    DoneMeans(Apply(s, a), v);
    assert Apply(s, a).rows[a.id].video == v;
  }

  /** A video becomes done by a Complete alone. */
  lemma DoneBefore(s: State, a: Action, v: VideoId)
    requires Inv(s) && Enabled(s, a) && Done(Apply(s, a), v) && !a.CompleteSent?
    ensures Done(s, v)
  {
    DoneMeans(s, v);
    DoneMeans(Apply(s, a), v);
    forall j | j in s.rows && s.rows[j].video == v ensures s.rows[j].status in {Completed, Cancelled} {
      RowChange(s, a, j);
    }
  }

  lemma JobsBefore(s: State, a: Action, v: VideoId)
    requires Inv(s) && Enabled(s, a) && JobsOf(Apply(s, a).rows, v) != {} && !Inserts(s, a, v)
    ensures JobsOf(s.rows, v) != {}
  {
    var j :| j in JobsOf(Apply(s, a).rows, v);
    assert j in JobsOf(s.rows, v) by {
      if j in s.rows { RowChange(s, a, j); }
    }
  }

  /** Complete makes the video done exactly if the job was the last one open. */
  lemma CompleteMakesDone(s: State, a: Action, v: VideoId)
    requires Inv(s) && Enabled(s, a) && a.CompleteSent? && !a.fate.Refused? && s.workers[a.w].job.video == v
    ensures Done(Apply(s, a), v) <==> OthersDone(s, v, s.workers[a.w].job.id)
    ensures JobsOf(Apply(s, a).rows, v) != {}
  {
    var id, s' := s.workers[a.w].job.id, Apply(s, a);
    assert PcOk(s, s.workers[a.w]);
    DoneMeans(s', v);
    assert id in JobsOf(s'.rows, v);
    assert forall j :: j in s.rows && j != id ==> s'.rows[j] == s.rows[j];
  }

  lemma ZoneFrame(s: State, a: Action, v: VideoId)
    requires Inv(s) && Enabled(s, a)
    requires !a.Checked? && !a.Published?
    ensures Zone(s, v) ==> Zone(Apply(s, a), v)
    ensures !(a.CompleteSent? && a.fate.Applied? && s.workers[a.w].job.video == v) && Zone(Apply(s, a), v) ==>
              Zone(s, v)
  {
    var s' := Apply(s, a);
    if Zone(s, v) {
      var w :| w in s.workers && InZone(s.workers[w], v);
      OthersStay(s, a, w);
      assert w in s'.workers && InZone(s'.workers[w], v);
    }
    if Zone(s', v) && !(a.CompleteSent? && a.fate.Applied? && s.workers[a.w].job.video == v) {
      var w :| w in s'.workers && InZone(s'.workers[w], v);
      OthersStay(s, a, w);
      assert w in s.workers && InZone(s.workers[w], v);
    }
  }

  lemma ZoneAfterCheck(s: State, a: Action, v: VideoId)
    requires Inv(s) && Enabled(s, a) && (a.Checked? || a.Published?)
    ensures Zone(Apply(s, a), v) <==>
            ZoneOfOthers(s, v, a.w) || (a.Checked? && a.ok && s.workers[a.w].video == v && Done(s, v))
  {
    var s' := Apply(s, a);
    if Zone(s', v) {
      var w :| w in s'.workers && InZone(s'.workers[w], v);
      if w != a.w { assert s.workers[w] == s'.workers[w]; }
    }
    if ZoneOfOthers(s, v, a.w) {
      var w :| w in s.workers && w != a.w && InZone(s.workers[w], v);
      assert s'.workers[w] == s.workers[w];
    }
    if a.Checked? && a.ok && s.workers[a.w].video == v && Done(s, v) {
      assert InZone(s'.workers[a.w], v);
    }
  }

  lemma ShownFrame(s: State, a: Action, v: VideoId)
    requires Inv(s) && Enabled(s, a)
    ensures Shown(s, v) && !(a.Mark? && s.calls[a.c].video == v) ==> Shown(Apply(s, a), v)
    ensures !Shown(s, v) && !a.Published? && !a.Delete? ==> !Shown(Apply(s, a), v)
  {
  }

  // ---------- the promise: exactly when it survives ----------

  lemma PromiseAtComplete(s: State, a: Action, v: VideoId)
    requires Inv(s) && Enabled(s, a) && Promise(s, v) && a.CompleteSent?
    ensures Promise(Apply(s, a), v) <==> !Loses(s, a, v)
  {
    var s' := Apply(s, a);
    ShownFrame(s, a, v);
    ZoneFrame(s, a, v);
    assert PcOk(s, s.workers[a.w]);
    if s.workers[a.w].job.video == v && !a.fate.Refused? {
      CompleteMakesDone(s, a, v);
      if a.fate.Applied? {
        assert InZone(s'.workers[a.w], v);
      }
    } else {
      DoneMeans(s, v);
      DoneMeans(s', v);
      forall j | j in s.rows && s.rows[j].video == v ensures s'.rows[j] == s.rows[j] {
      }
      if JobsOf(s'.rows, v) != {} { JobsBefore(s, a, v); }
    }
  }

  lemma PromiseAtCheck(s: State, a: Action, v: VideoId)
    requires Inv(s) && Enabled(s, a) && Promise(s, v) && (a.Checked? || a.Published?)
    ensures Promise(Apply(s, a), v) <==> !Loses(s, a, v)
  {
    var s' := Apply(s, a);
    assert s'.rows == s.rows;
    ZoneAfterCheck(s, a, v);
    assert Zone(s, v) <==> ZoneOfOthers(s, v, a.w) || InZone(s.workers[a.w], v);
    ShownFrame(s, a, v);
    if s.workers[a.w].video == v {
      assert PcOk(s, s.workers[a.w]);
      var id :| id in CompletedJobs(s.rows, v);
      assert id in JobsOf(s.rows, v) && v in s.videos;
    }
  }

  lemma PromiseElsewhere(s: State, a: Action, v: VideoId)
    requires Inv(s) && Enabled(s, a) && Promise(s, v)
    requires !a.CompleteSent? && !a.Checked? && !a.Published?
    ensures Promise(Apply(s, a), v) <==> !Loses(s, a, v)
  {
    var s' := Apply(s, a);
    ZoneFrame(s, a, v);
    ShownFrame(s, a, v);
    if Inserts(s, a, v) {
      InsertionUndoesDone(s, a, v);
    } else {
      if Done(s, v) { DoneSurvives(s, a, v); }
      if Done(s', v) { DoneBefore(s, a, v); }
      if JobsOf(s'.rows, v) != {} { JobsBefore(s, a, v); }
      if a.Mark? { assert s'.rows == s.rows; }
    }
  }

  /** For every state that keeps the promise and every action: the action keeps it if and only if
      it is not one of the four that lose it. */
  lemma PromiseKeptIff(s: State, a: Action, v: VideoId)
    requires Inv(s) && Enabled(s, a) && Promise(s, v)
    ensures Promise(Apply(s, a), v) <==> !Loses(s, a, v)
  {
    if a.CompleteSent? {
      PromiseAtComplete(s, a, v);
    } else if a.Checked? || a.Published? {
      PromiseAtCheck(s, a, v);
    } else {
      PromiseElsewhere(s, a, v);
    }
  }

  // ---------- quiescence implies published ----------

  /** The statements a publication rests on answer truthfully. */
  predicate Truthful(a: Action) {
    && !(a.CompleteSent? && a.fate.Unacked?)
    && !(a.Checked? && !a.ok)
    && !(a.Published? && a.fate.Refused?)
  }

  /** Every write of `processing` directly follows the creation of a job by the same call. */
  predicate CreatesAtomically(run: seq<Action>) {
    forall k :: 0 <= k < |run| && run[k].Mark? ==>
      k > 0 && run[k - 1].CreateJob? && run[k - 1].c == run[k].c && run[k - 1].fate.Applied?
  }

  lemma {:induction false} PromiseRun(s: State, run: seq<Action>, v: VideoId)
    requires Inv(s) && IsRun(s, run) && Promise(s, v)
    requires forall k :: 0 <= k < |run| ==> Truthful(run[k])
    requires run != [] && run[0].Mark? ==> !Done(s, s.calls[run[0].c].video)
    requires forall k :: 1 <= k < |run| && run[k].Mark? ==>
      run[k - 1].CreateJob? && run[k - 1].c == run[k].c && run[k - 1].fate.Applied?
    ensures Promise(Exec(s, run), v)
    decreases |run|
  {
    if run != [] {
      var a, rest := run[0], run[1..];
      var s' := Apply(s, a);
      PromiseKeptIff(s, a, v);
      InvStep(s, a);
      if rest != [] && rest[0].Mark? {
        assert run[1].Mark?;
        assert Enabled(s', rest[0]);
        InsertionUndoesDone(s, a, s.calls[a.c].video);
      }
      assert forall k :: 1 <= k < |rest| && rest[k].Mark? ==> run[k + 1].Mark? && rest[k - 1] == run[k];
      PromiseRun(s', rest, v);
    }
  }

  /** The last completer always publishes: if uploads and retranscodes create their jobs and
      write `processing` atomically and no statement of a publication fails, then in every
      interleaving a video that has jobs, all done, and no worker about to publish it, is
      `ready` (or deleted). */
  lemma QuiescenceImpliesPublished(s: State, run: seq<Action>, v: VideoId)
    requires Init(s) && IsRun(s, run) && v !in s.videos
    requires forall k :: 0 <= k < |run| ==> Truthful(run[k])
    requires CreatesAtomically(run)
    ensures var t := Exec(s, run);
            JobsOf(t.rows, v) != {} && Done(t, v) && !Zone(t, v) ==> Shown(t, v)
  {
    assert forall id :: id in JobsOf(s.rows, v) ==> s.rows[id].video in s.videos;
    PromiseRun(s, run, v);
  }

  // ---------- a `ready` that comes too early ----------

  /** A worker that is past its check and still to write `ready`. */
  ghost predicate AboutToPublish(s: State, v: VideoId) {
    exists w :: w in s.workers && s.workers[w] == Publishing(v)
  }

  /** `ready` will only be written while all jobs of the video are done. */
  ghost predicate WriteIsSound(s: State, v: VideoId) {
    AboutToPublish(s, v) ==> Done(s, v)
  }

  lemma AboutToPublishFrame(s: State, a: Action, v: VideoId)
    requires Inv(s) && Enabled(s, a) && AboutToPublish(Apply(s, a), v)
    ensures AboutToPublish(s, v) || (a.Checked? && Done(s, v) && Apply(s, a).rows == s.rows)
  {
    var w :| w in Apply(s, a).workers && Apply(s, a).workers[w] == Publishing(v);
    if !(a.Checked? && a.w == w) {
      assert s.workers[w] == Publishing(v);
    }
  }

  /** Over all actions, failures included, soundness of the coming write is lost if and only if
      a job is created for the video while a worker is between its check and its write. */
  lemma WriteSoundIff(s: State, a: Action, v: VideoId)
    requires Inv(s) && Enabled(s, a) && WriteIsSound(s, v)
    ensures WriteIsSound(Apply(s, a), v) <==> !(Inserts(s, a, v) && AboutToPublish(s, v))
  {
    var s' := Apply(s, a);
    if Inserts(s, a, v) {
      InsertionUndoesDone(s, a, v);
      assert s'.workers == s.workers;
    } else if AboutToPublish(s', v) {
      AboutToPublishFrame(s, a, v);
      DoneSurvives(s, a, v);
    }
  }

  /** `ready`, a coming `ready`, a playlist being built or one already stored. */
  ghost predicate Settled(s: State, v: VideoId) {
    IsReady(s, v) || HasPlaylist(s, v) || BeingPublished(s, v)
  }

  predicate HasPlaylist(s: State, v: VideoId) {
    (v in s.videos && s.videos[v].playlist) || v in s.files
  }

  ghost predicate BeingPublished(s: State, v: VideoId) {
    exists w :: w in s.workers && PublishesOrLists(s.workers[w], v)
  }

  predicate PublishesOrLists(pc: Pc, v: VideoId) {
    (pc.Publishing? || pc.Listing? || pc.Looking? || pc.Storing?) && pc.video == v
  }

  /** Every completed job of v is listed, missed or still to be looked up. */
  predicate Covers(rows: Rows, v: VideoId, todo: set<JobId>, p: Playlist) {
    todo + p.listed + p.missed == CompletedJobs(rows, v)
  }

  /** What a settled video shows is true: all its jobs are done, and the playlist stored, or
      about to be, lists its completed jobs but for those it missed. */
  ghost predicate Sound(s: State, v: VideoId) {
    && (Settled(s, v) ==> Done(s, v))
    && (v in s.files ==> Covers(s.rows, v, {}, s.files[v]))
    && BuildersCover(s, v)
  }

  ghost predicate BuildersCover(s: State, v: VideoId) {
    forall w :: w in s.workers && s.workers[w].Looking? && s.workers[w].video == v ==>
      Covers(s.rows, v, s.workers[w].todo, s.workers[w].built)
  }

  lemma CompletedJobsFixed(s: State, a: Action, v: VideoId)
    requires Inv(s) && Enabled(s, a) && Done(s, v) && !Inserts(s, a, v)
    ensures CompletedJobs(Apply(s, a).rows, v) == CompletedJobs(s.rows, v)
  {
    var s' := Apply(s, a);
    DoneMeans(s, v);
    CompletedJobsGrow(s, a, v);
    forall id | id in CompletedJobs(s'.rows, v) ensures id in CompletedJobs(s.rows, v) {
      if id in s.rows {
        RowChange(s, a, id);
        FinishedRowIsFrozen(s, a, id);
      }
    }
  }

  /** A video comes to be settled by a check alone. */
  lemma SettledBefore(s: State, a: Action, v: VideoId)
    requires Inv(s) && Enabled(s, a) && Settled(Apply(s, a), v)
    ensures Settled(s, v) || (a.Checked? && Done(s, v) && Apply(s, a).rows == s.rows)
  {
    if BeingPublished(Apply(s, a), v) {
      PublishedBefore(s, a, v);
    } else if IsReady(Apply(s, a), v) {
      ReadyBefore(s, a, v);
    } else {
      PlaylistBefore(s, a, v);
    }
  }

  lemma PublishedBefore(s: State, a: Action, v: VideoId)
    requires Enabled(s, a) && BeingPublished(Apply(s, a), v)
    ensures BeingPublished(s, v) || (a.Checked? && Done(s, v) && Apply(s, a).rows == s.rows)
  {
    var w :| w in Apply(s, a).workers && PublishesOrLists(Apply(s, a).workers[w], v);
    OthersStay(s, a, w);
    assert PublishesOrLists(s.workers[w], v) || a.Checked?;
  }

  lemma ReadyBefore(s: State, a: Action, v: VideoId)
    requires Enabled(s, a) && IsReady(Apply(s, a), v)
    ensures IsReady(s, v) || BeingPublished(s, v)
  {
    if a.Published? && s.workers[a.w].video == v {
      assert PublishesOrLists(s.workers[a.w], v);
    }
  }

  lemma PlaylistBefore(s: State, a: Action, v: VideoId)
    requires Enabled(s, a) && HasPlaylist(Apply(s, a), v)
    ensures HasPlaylist(s, v) || BeingPublished(s, v)
  {
    if (a.Put? || a.Stored?) && s.workers[a.w].video == v {
      assert PublishesOrLists(s.workers[a.w], v);
    }
  }

  lemma BuilderIsSettled(s: State, v: VideoId)
    ensures BuildersCover(s, v) || Settled(s, v)
    ensures v in s.files ==> Settled(s, v)
  {
    if !BuildersCover(s, v) {
      var w :| w in s.workers && s.workers[w].Looking? && s.workers[w].video == v
               && !Covers(s.rows, v, s.workers[w].todo, s.workers[w].built);
      assert PublishesOrLists(s.workers[w], v);
    }
  }

  /** Each lookup moves one job from the open ones to the listed or the missed ones. */
  lemma BuilderStays(s: State, a: Action, v: VideoId, w: WorkerId)
    requires Inv(s) && Enabled(s, a) && BuildersCover(s, v)
    requires CompletedJobs(Apply(s, a).rows, v) == CompletedJobs(s.rows, v)
    requires w in Apply(s, a).workers && Apply(s, a).workers[w].Looking? && Apply(s, a).workers[w].video == v
    ensures Covers(Apply(s, a).rows, v, Apply(s, a).workers[w].todo, Apply(s, a).workers[w].built)
  {
    OthersStay(s, a, w);
    if a.Listed? && a.w == w {
      assert Listable(s.rows, v) == CompletedJobs(s.rows, v);
    } else if a.LookedUp? && a.w == w {
      var pc := s.workers[w];
      assert Covers(s.rows, v, pc.todo, pc.built);
    } else {
      assert s.workers[w] == Apply(s, a).workers[w];
    }
  }

  lemma FileStays(s: State, a: Action, v: VideoId)
    requires Inv(s) && Enabled(s, a) && BuildersCover(s, v)
    requires v in s.files ==> Covers(s.rows, v, {}, s.files[v])
    requires CompletedJobs(Apply(s, a).rows, v) == CompletedJobs(s.rows, v)
    requires v in Apply(s, a).files
    ensures Covers(Apply(s, a).rows, v, {}, Apply(s, a).files[v])
  {
    if a.Put? && s.workers[a.w].video == v && !a.fate.Refused? {
      var pc := s.workers[a.w];
      assert Covers(s.rows, v, pc.todo, pc.built);
    }
  }

  lemma SoundStays(s: State, a: Action, v: VideoId)
    requires Inv(s) && Enabled(s, a) && Sound(s, v)
    requires !(Inserts(s, a, v) && Settled(s, v))
    ensures Sound(Apply(s, a), v)
  {
    var s' := Apply(s, a);
    if Settled(s', v) {
      SettledBefore(s, a, v);
      DoneSurvives(s, a, v);
      CompletedJobsFixed(s, a, v);
      forall w | w in s'.workers && s'.workers[w].Looking? && s'.workers[w].video == v
        ensures Covers(s'.rows, v, s'.workers[w].todo, s'.workers[w].built)
      {
        BuilderStays(s, a, v, w);
      }
      if v in s'.files {
        FileStays(s, a, v);
      }
    } else {
      BuilderIsSettled(s', v);
    }
  }

  /** Over all actions, failures included, soundness is lost if and only if a job is created for a
      video that is settled. */
  lemma SoundKeptIff(s: State, a: Action, v: VideoId)
    requires Inv(s) && Enabled(s, a) && Sound(s, v)
    ensures Sound(Apply(s, a), v) <==> !(Inserts(s, a, v) && Settled(s, v))
  {
    if Inserts(s, a, v) && Settled(s, v) {
      assert Apply(s, a).workers == s.workers && Apply(s, a).videos == s.videos && Apply(s, a).files == s.files;
      InsertionUndoesDone(s, a, v);
    } else {
      SoundStays(s, a, v);
    }
  }

  /** No job is created for v once it is settled. */
  ghost predicate NoLateJob(s: State, run: seq<Action>, v: VideoId)
    requires IsRun(s, run)
    decreases |run|
  {
    run != [] ==> !(Inserts(s, run[0], v) && Settled(s, v)) && NoLateJob(Apply(s, run[0]), run[1..], v)
  }

  /** Ready is sound: as long as no job is created for a video that is settled, in every
      interleaving and whatever statements fail, a video that shows `ready` has all its jobs
      done, and a stored master playlist lists its completed jobs but for those it missed. */
  lemma {:induction false} ReadyIsSound(s: State, run: seq<Action>, v: VideoId)
    requires Inv(s) && IsRun(s, run) && Sound(s, v) && NoLateJob(s, run, v)
    ensures Sound(Exec(s, run), v)
    ensures IsReady(Exec(s, run), v) ==> Done(Exec(s, run), v)
    decreases |run|
  {
    if run != [] {
      SoundKeptIff(s, run[0], v);
      InvStep(s, run[0]);
      ReadyIsSound(Apply(s, run[0]), run[1..], v);
    }
  }

  /** The jobs of a call are created one directly after the other, the first directly after the
      call has begun. */
  predicate Contiguous(before: Action, a: Action) {
    a.CreateJob? ==>
      || ((before.Upload? || before.Retranscode?) && before.c == a.c)
      || (before.CreateJob? && before.c == a.c && before.fate.Applied?)
  }

  predicate NoRetranscodeOf(run: seq<Action>, v: VideoId) {
    forall k :: 0 <= k < |run| && run[k].Retranscode? ==> run[k].video != v
  }

  /** A video that does not exist yet is not settled once it is uploaded. */
  lemma UploadedIsUnsettled(s: State, a: Action)
    requires Inv(s) && Enabled(s, a) && a.Upload?
    ensures !Settled(Apply(s, a), a.video)
  {
    var v, s' := a.video, Apply(s, a);
    assert CompletedJobs(s.rows, v) == {};
    forall w | w in s'.workers ensures !PublishesOrLists(s'.workers[w], v) {
      assert PcOk(s, s.workers[w]);
    }
  }

  /** The next job of an upload that is under way comes before anything is settled. */
  lemma NextJobIsEarly(s: State, a: Action, next: Action, v: VideoId)
    requires Inv(s) && Enabled(s, a) && Enabled(Apply(s, a), next) && Contiguous(a, next)
    requires a.Retranscode? ==> a.video != v
    requires a.CreateJob? && s.calls[a.c].video == v ==> !Settled(s, v)
    ensures next.CreateJob? && Apply(s, a).calls[next.c].video == v ==> !Settled(Apply(s, a), v)
  {
    if next.CreateJob? && Apply(s, a).calls[next.c].video == v {
      if a.Upload? {
        UploadedIsUnsettled(s, a);
      } else {
        assert Apply(s, a).workers == s.workers && Apply(s, a).videos == s.videos;
      }
    }
  }

  lemma {:induction false} AtomicJobsAreEarly(s: State, run: seq<Action>, v: VideoId)
    requires Inv(s) && IsRun(s, run) && NoRetranscodeOf(run, v)
    requires forall k :: 1 <= k < |run| ==> Contiguous(run[k - 1], run[k])
    requires run != [] && run[0].CreateJob? && s.calls[run[0].c].video == v ==> !Settled(s, v)
    ensures NoLateJob(s, run, v)
    decreases |run|
  {
    if run != [] {
      var a, rest := run[0], run[1..];
      InvStep(s, a);
      if rest != [] {
        assert rest[0] == run[1] && Enabled(Apply(s, a), rest[0]);
        NextJobIsEarly(s, a, rest[0], v);
      }
      assert forall k :: 1 <= k < |rest| ==> rest[k - 1] == run[k] && rest[k] == run[k + 1];
      assert forall k :: 0 <= k < |rest| ==> rest[k] == run[k + 1];
      AtomicJobsAreEarly(Apply(s, a), rest, v);
    }
  }

  /** Where jobs are created atomically and a video is not transcoded again, `ready` is sound over
      every run from the start, whatever statements fail. */
  lemma AtomicUploadIsSound(s: State, run: seq<Action>, v: VideoId)
    requires Init(s) && IsRun(s, run) && v !in s.videos && NoRetranscodeOf(run, v)
    requires forall k :: 1 <= k < |run| ==> Contiguous(run[k - 1], run[k])
    ensures Sound(Exec(s, run), v)
    ensures IsReady(Exec(s, run), v) ==> Done(Exec(s, run), v)
  {
    AtomicJobsAreEarly(s, run, v);
    ReadyIsSound(s, run, v);
  }

  /** A failed job blocks publication for ever: unless a worker is already past its check, no
      later action of any run writes `ready`. */
  lemma {:induction false} FailedJobBlocksReady(s: State, run: seq<Action>, v: VideoId, id: JobId)
    requires Inv(s) && IsRun(s, run)
    requires id in s.rows && s.rows[id].video == v && s.rows[id].status == JobStatus.Failed
    requires !AboutToPublish(s, v) && !IsReady(s, v)
    ensures !IsReady(Exec(s, run), v) && !AboutToPublish(Exec(s, run), v)
    decreases |run|
  {
    if run != [] {
      var a := run[0];
      InvStep(s, a);
      RowChange(s, a, id);
      FinishedRowIsFrozen(s, a, id);
      DoneMeans(s, v);
      if AboutToPublish(Apply(s, a), v) {
        AboutToPublishFrame(s, a, v);
      }
      FailedJobBlocksReady(Apply(s, a), run[1..], v, id);
    }
  }

  // ---------- what a lost promise means ----------

  /** A finished video that is not `ready`, with no worker about to publish it. */
  ghost predicate Stranded(s: State, v: VideoId) {
    JobsOf(s.rows, v) != {} && Done(s, v) && !IsReady(s, v) && !Zone(s, v)
  }

  lemma HeldJobIsOpen(s: State, v: VideoId)
    requires Inv(s)
    ensures forall w :: w in s.workers && Holds(s.workers[w]).Some? && Holds(s.workers[w]).value.video == v ==>
              !Done(s, v)
  {
    DoneMeans(s, v);
    forall w | w in s.workers && Holds(s.workers[w]).Some? && Holds(s.workers[w]).value.video == v
      ensures !Done(s, v)
    {
      assert PcOk(s, s.workers[w]);
    }
  }

  lemma StrandedStep(s: State, a: Action, v: VideoId)
    requires Inv(s) && Enabled(s, a) && Stranded(s, v) && !Inserts(s, a, v)
    ensures Stranded(Apply(s, a), v)
  {
    var s' := Apply(s, a);
    DoneSurvives(s, a, v);
    DoneMeans(s, v);
    var id :| id in JobsOf(s.rows, v);
    RowChange(s, a, id);
    assert id in JobsOf(s'.rows, v);
    if a.Checked? || a.Published? {
      assert Zone(s, v) <==> ZoneOfOthers(s, v, a.w) || InZone(s.workers[a.w], v);
      ZoneAfterCheck(s, a, v);
    } else {
      HeldJobIsOpen(s, v);
      ZoneFrame(s, a, v);
    }
  }

  ghost predicate NoNewJob(s: State, run: seq<Action>, v: VideoId)
    requires IsRun(s, run)
    decreases |run|
  {
    run != [] ==> !Inserts(s, run[0], v) && NoNewJob(Apply(s, run[0]), run[1..], v)
  }

  /** A stranded video never becomes `ready` by itself: it takes a new job. */
  lemma {:induction false} StrandedForever(s: State, run: seq<Action>, v: VideoId)
    requires Inv(s) && IsRun(s, run) && Stranded(s, v) && NoNewJob(s, run, v)
    ensures Stranded(Exec(s, run), v)
    decreases |run|
  {
    if run != [] {
      StrandedStep(s, run[0], v);
      InvStep(s, run[0]);
      StrandedForever(Apply(s, run[0]), run[1..], v);
    }
  }

  /** A Retranscode whose presets all turn out unknown creates no job, yet it writes
      `processing`: a published video that no worker is busy with is then stranded. */
  lemma RetranscodeOfNothingStrands(s: State, c: CallId, v: VideoId)
    requires Inv(s) && c !in s.calls && v in s.videos && !s.videos[v].deleted
    requires JobsOf(s.rows, v) != {} && Done(s, v) && !Zone(s, v)
    ensures var run := [Retranscode(c, v, []), Mark(c, Applied)];
            IsRun(s, run) && Stranded(Exec(s, run), v)
  {
    var run := [Retranscode(c, v, []), Mark(c, Applied)];
    var s1 := Apply(s, run[0]);
    assert run[1..] == [run[1]] && Enabled(s1, run[1]);
    var s2 := Apply(s1, run[1]);
    assert run[1..][1..] == [] && IsRun(s2, []);
    assert IsRun(s1, run[1..]) && Exec(s1, run[1..]) == s2;
    assert s2.workers == s.workers && s2.rows == s.rows;
    ZoneFrame(s, run[0], v);
    InvStep(s, run[0]);
    ZoneFrame(s1, run[1], v);
  }
}
