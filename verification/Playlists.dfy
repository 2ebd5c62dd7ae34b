/** What a published video's master playlist is worth: whether it lists every completed job, and
    whether the path in the video's row leads to it. */
module Playlists {
  import opened JobTable
  import opened TranscodeProtocol
  import opened Ownership
  import opened Publication

  // ---------- exactness ----------

  /** In every reachable state each completed job has an output, so none is passed over for the lack
      of one. */
  lemma NoCompletedJobIsSkipped(s: State, run: seq<Action>, v: VideoId)
    requires Init(s) && IsRun(s, run)
    ensures Listable(Exec(s, run).rows, v) == CompletedJobs(Exec(s, run).rows, v)
  {
    InvRun(s, run);
  }

  /** Over every run without late jobs, a stored playlist lists exactly the completed jobs if and
      only if no preset lookup failed while it was built. */
  lemma PlaylistIsExactIff(s: State, run: seq<Action>, v: VideoId)
    requires Inv(s) && IsRun(s, run) && Sound(s, v) && NoLateJob(s, run, v)
    requires v in Exec(s, run).files
    ensures var t := Exec(s, run);
            t.files[v].listed == CompletedJobs(t.rows, v) <==> t.files[v].missed == {}
  {
    InvRun(s, run);
    ReadyIsSound(s, run, v);
    var t := Exec(s, run);
    assert PlaylistOk(t.rows, v, t.files[v]) && Covers(t.rows, v, {}, t.files[v]);
    if t.files[v].missed != {} {
      var id :| id in t.files[v].missed;
      assert id in CompletedJobs(t.rows, v) && id !in t.files[v].listed;
    }
  }

  predicate Misses(a: Action) { a.LookedUp? && !a.ok }

  /** Neither a stored playlist nor one being built misses a job. */
  ghost predicate NothingMissed(s: State, v: VideoId) {
    && (v in s.files ==> s.files[v].missed == {})
    && (forall w :: w in s.workers && s.workers[w].Looking? && s.workers[w].video == v ==>
          s.workers[w].built.missed == {})
  }

  lemma NothingMissedStep(s: State, a: Action, v: VideoId)
    requires Inv(s) && Enabled(s, a) && NothingMissed(s, v) && !(Misses(a) && s.workers[a.w].video == v)
    ensures NothingMissed(Apply(s, a), v)
  {
    var s' := Apply(s, a);
    forall w | w in s'.workers && s'.workers[w].Looking? && s'.workers[w].video == v
      ensures s'.workers[w].built.missed == {}
    {
      OthersStay(s, a, w);
    }
  }

  /** No lookup for v fails. */
  ghost predicate LooksUpAll(s: State, run: seq<Action>, v: VideoId)
    requires IsRun(s, run)
    decreases |run|
  {
    run != [] ==>
      !(Misses(run[0]) && s.workers[run[0].w].video == v) && LooksUpAll(Apply(s, run[0]), run[1..], v)
  }

  lemma {:induction false} NothingMissedRun(s: State, run: seq<Action>, v: VideoId)
    requires Inv(s) && IsRun(s, run) && NothingMissed(s, v) && LooksUpAll(s, run, v)
    ensures NothingMissed(Exec(s, run), v)
    decreases |run|
  {
    if run != [] {
      NothingMissedStep(s, run[0], v);
      InvStep(s, run[0]);
      NothingMissedRun(Apply(s, run[0]), run[1..], v);
    }
  }

  /** In plain terms, for a video from its upload on: with its jobs created atomically, no second
      transcoding and no failed lookup, whatever else fails, a stored playlist lists exactly the
      completed jobs. */
  lemma PlaylistIsExact(s: State, run: seq<Action>, v: VideoId)
    requires Init(s) && IsRun(s, run) && v !in s.videos && NoRetranscodeOf(run, v)
    requires forall k :: 1 <= k < |run| ==> Contiguous(run[k - 1], run[k])
    requires LooksUpAll(s, run, v)
    ensures v in Exec(s, run).files ==> Exec(s, run).files[v].listed == CompletedJobs(Exec(s, run).rows, v)
  {
    NothingMissedRun(s, run, v);
    AtomicJobsAreEarly(s, run, v);
    if v in Exec(s, run).files {
      PlaylistIsExactIff(s, run, v);
    }
  }

  // ---------- the path in the row ----------

  /** Wherever the row of v names its playlist, or a worker is about to write that, there is one. */
  ghost predicate PathLeadsToFile(s: State, v: VideoId) {
    (v in s.videos && s.videos[v].playlist) || AboutToStore(s, v) ==> v in s.files
  }

  ghost predicate AboutToStore(s: State, v: VideoId) {
    exists w :: w in s.workers && s.workers[w] == Storing(v)
  }

  /** Over all actions: the path comes to lead nowhere if and only if the first Put of a playlist
      for the video fails, which nobody notices. */
  lemma PathLeadsToFileIff(s: State, a: Action, v: VideoId)
    requires Inv(s) && Enabled(s, a) && PathLeadsToFile(s, v)
    ensures PathLeadsToFile(Apply(s, a), v) <==>
            !(a.Put? && a.fate.Refused? && s.workers[a.w].video == v && v !in s.files)
  {
    var s' := Apply(s, a);
    if a.Put? && s.workers[a.w].video == v {
      assert s'.workers[a.w] == Storing(v);
    } else {
      if AboutToStore(s', v) {
        var w :| w in s'.workers && s'.workers[w] == Storing(v);
        OthersStay(s, a, w);
        assert s.workers[w] == Storing(v);
      }
      if a.Stored? && s.workers[a.w].video == v {
        assert AboutToStore(s, v);
      }
    }
  }

  predicate WritesFile(s: State, a: Action, v: VideoId)
    requires a.Put? ==> a.w in s.workers && s.workers[a.w].Looking?
  {
    a.Put? && !a.fate.Refused? && s.workers[a.w].video == v
  }

  ghost predicate NoFileWritten(s: State, run: seq<Action>, v: VideoId)
    requires IsRun(s, run)
    decreases |run|
  {
    run != [] ==> !WritesFile(s, run[0], v) && NoFileWritten(Apply(s, run[0]), run[1..], v)
  }

  /** A path and a file that are stored stay stored. */
  lemma {:induction false} StoredStays(s: State, run: seq<Action>, v: VideoId)
    requires IsRun(s, run)
    ensures v in s.files ==> v in Exec(s, run).files
    ensures v in s.videos && s.videos[v].playlist ==> v in Exec(s, run).videos && Exec(s, run).videos[v].playlist
    decreases |run|
  {
    if run != [] {
      StoredStays(Apply(s, run[0]), run[1..], v);
    }
  }

  /** Over every run, a path that leads nowhere does so at the end if and only if no later Put for
      the video has succeeded. */
  lemma {:induction false} LostPathStaysIff(s: State, run: seq<Action>, v: VideoId)
    requires IsRun(s, run) && v in s.videos && s.videos[v].playlist && v !in s.files
    ensures var t := Exec(s, run); v in t.videos && t.videos[v].playlist
    ensures v !in Exec(s, run).files <==> NoFileWritten(s, run, v)
    decreases |run|
  {
    if run != [] {
      if WritesFile(s, run[0], v) {
        StoredStays(Apply(s, run[0]), run[1..], v);
      } else {
        LostPathStaysIff(Apply(s, run[0]), run[1..], v);
      }
    }
  }
}
