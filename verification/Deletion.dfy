/** What becomes of the status of a deleted video: UpdateStatus does not look at deleted_at, so a
    worker or a service call that is still under way can overwrite it. */
module Deletion {
  import opened Wrappers
  import opened JobTable
  import opened TranscodeProtocol
  import opened Ownership

  predicate IsDeleted(s: State, v: VideoId) {
    v in s.videos && s.videos[v].deleted
  }

  predicate ShowsDeleted(s: State, v: VideoId) {
    IsDeleted(s, v) && s.videos[v].status == Deleted
  }

  /** The two statements that write a status to v. */
  ghost predicate Overwrites(s: State, a: Action, v: VideoId)
    requires Enabled(s, a)
  {
    || (a.Published? && !a.fate.Refused? && s.workers[a.w].video == v)
    || (a.Mark? && !a.fate.Refused? && s.calls[a.c].video == v && s.calls[a.c].mark)
  }

  /** Deletion is for good, and a deleted video keeps its status unless it is overwritten. */
  lemma DeletedStep(s: State, a: Action, v: VideoId)
    requires Enabled(s, a) && IsDeleted(s, v)
    ensures var s' := Apply(s, a);
            && IsDeleted(s', v)
            && (ShowsDeleted(s', v) <==> ShowsDeleted(s, v) && !Overwrites(s, a, v))
  {
    if a.Published? || a.Stored? {
      DeletedWorkerStep(s, a, v);
    } else if a.Upload? || a.Mark? || a.Delete? {
      DeletedCallStep(s, a, v);
    } else {
      assert Apply(s, a).videos == s.videos;
    }
  }

  lemma DeletedWorkerStep(s: State, a: Action, v: VideoId)
    requires Enabled(s, a) && IsDeleted(s, v) && (a.Published? || a.Stored?)
    ensures IsDeleted(Apply(s, a), v)
    ensures ShowsDeleted(Apply(s, a), v) <==> ShowsDeleted(s, v) && !Overwrites(s, a, v)
  {
  }

  lemma DeletedCallStep(s: State, a: Action, v: VideoId)
    requires Enabled(s, a) && IsDeleted(s, v) && (a.Upload? || a.Mark? || a.Delete?)
    ensures IsDeleted(Apply(s, a), v)
    ensures ShowsDeleted(Apply(s, a), v) <==> ShowsDeleted(s, v) && !Overwrites(s, a, v)
  {
  }

  /** Nobody overwrites the status of v in the run. */
  ghost predicate NeverOverwrites(s: State, run: seq<Action>, v: VideoId)
    requires IsRun(s, run)
    decreases |run|
  {
    run != [] ==> !Overwrites(s, run[0], v) && NeverOverwrites(Apply(s, run[0]), run[1..], v)
  }

  /** Over every run: a deleted video stays hidden, and it still shows `deleted` at the end if and
      only if it did at the start and no worker published it and no call marked it in between. Once
      lost, the status does not come back, since SoftDelete does nothing to a deleted video. */
  lemma {:induction false} ShowsDeletedIff(s: State, run: seq<Action>, v: VideoId)
    requires IsRun(s, run) && IsDeleted(s, v)
    ensures var t := Exec(s, run);
            && IsDeleted(t, v) && !Visible(t.videos, v)
            && (ShowsDeleted(t, v) <==> ShowsDeleted(s, v) && NeverOverwrites(s, run, v))
    decreases |run|
  {
    if run != [] {
      DeletedStep(s, run[0], v);
      ShowsDeletedIff(Apply(s, run[0]), run[1..], v);
    }
  }

  // ---------- the jobs of a deleted video ----------

  /** A job of a deleted video that has not been completed, and that no worker has got any further with
      than looking for the video. */
  ghost predicate Doomed(s: State, v: VideoId, id: JobId) {
    && IsDeleted(s, v) && id in s.rows && s.rows[id].video == v && s.rows[id].status != Completed
    && forall w :: HoldsJob(s, w, id) ==> s.workers[w].LoadingVideo? || s.workers[w].Failing?
  }

  lemma DoomedStep(s: State, a: Action, v: VideoId, id: JobId)
    requires Inv(s) && Enabled(s, a) && Doomed(s, v, id)
    ensures Doomed(Apply(s, a), v, id)
  {
    var s' := Apply(s, a);
    DeletedStep(s, a, v);
    RowChange(s, a, id);
    forall w | HoldsJob(s', w, id) ensures s'.workers[w].LoadingVideo? || s'.workers[w].Failing? {
      HeldBefore(s, a, w, id);
      OthersStay(s, a, w);
      if Moves(a, w) && !a.Claimed? {
        assert PcOk(s, s.workers[w]);
      }
    }
  }

  /** Over every run, a job of a deleted video that no worker has found the video for is never
      completed, however often it is claimed. */
  lemma {:induction false} DoomedForever(s: State, run: seq<Action>, v: VideoId, id: JobId)
    requires Inv(s) && IsRun(s, run) && Doomed(s, v, id)
    ensures Doomed(Exec(s, run), v, id)
    decreases |run|
  {
    if run != [] {
      DoomedStep(s, run[0], v, id);
      InvStep(s, run[0]);
      DoomedForever(Apply(s, run[0]), run[1..], v, id);
    }
  }
}
