/** What the workers have done for a job before its row says how the attempt ended, and which jobs a
    service call has created. */
module JobHistory {
  import opened Wrappers
  import opened JobTable
  import opened TranscodeProtocol
  import opened Ownership

  // ---------- the steps of an attempt ----------

  /** The steps of worker w since its last claim, the claim included. */
  function AttemptFrom(steps: seq<Action>, run: seq<Action>, w: WorkerId): seq<Action>
    decreases |run|
  {
    if run == [] then steps else AttemptFrom(Extend(steps, run[0], w), run[1..], w)
  }

  function Extend(steps: seq<Action>, a: Action, w: WorkerId): seq<Action> {
    if !Moves(a, w) then steps else if a.Claimed? then [a] else steps + [a]
  }

  function Attempt(run: seq<Action>, w: WorkerId): seq<Action> {
    AttemptFrom([], run, w)
  }

  /** The attempt began when w claimed the job and learnt of it. */
  predicate Begins(steps: seq<Action>, w: WorkerId, id: JobId) {
    steps != [] && steps[0].Claimed? && steps[0].w == w && steps[0].id == id && steps[0].acked
  }

  /** Video and preset were found, and `done` renderings succeeded of n, one after the other. */
  predicate Renders(steps: seq<Action>, w: WorkerId, id: JobId, done: nat, n: nat) {
    && Begins(steps, w, id) && |steps| == 3 + done
    && steps[1] == VideoLoaded(w, true) && steps[2] == PresetLoaded(w, true, n)
    && forall k :: 3 <= k < |steps| ==> steps[k] == Rendered(w, true)
  }

  /** Every resolution of the preset was rendered. */
  predicate RenderedAll(steps: seq<Action>, w: WorkerId, id: JobId) {
    |steps| > 3 && Renders(steps, w, id, |steps| - 3, |steps| - 3)
  }

  predicate IsFailure(a: Action) {
    (a.VideoLoaded? && !a.ok) || (a.PresetLoaded? && !a.ok) || (a.Rendered? && !a.ok)
  }

  /** The attempt has just failed. */
  predicate JustFailed(steps: seq<Action>, w: WorkerId, id: JobId) {
    Begins(steps, w, id) && |steps| >= 2 && IsFailure(steps[|steps| - 1]) && steps[|steps| - 1].w == w
  }

  /** What a worker has done since its claim explains where it stands. */
  ghost predicate Explains(steps: seq<Action>, w: WorkerId, pc: Pc) {
    match pc
    case LoadingVideo(j) => Begins(steps, w, j.id) && |steps| == 1
    case LoadingPreset(j) => Begins(steps, w, j.id) && |steps| == 2 && steps[1] == VideoLoaded(w, true)
    case Rendering(j, i, n) => i < n && Renders(steps, w, j.id, i, n)
    case Completing(j) => RenderedAll(steps, w, j.id)
    case Failing(j) => JustFailed(steps, w, j.id)
    case _ => true
  }

  /** After each failure the worker has nothing left to do for the job but to send Fail. */
  lemma FailureLeadsToFailing(s: State, a: Action)
    requires Enabled(s, a) && IsFailure(a)
    ensures Holds(s.workers[a.w]).Some? && Apply(s, a).workers[a.w] == Failing(Holds(s.workers[a.w]).value)
    ensures Apply(s, a).rows == s.rows
  {
  }

  lemma FailingSendsFail(s: State, a: Action)
    requires Enabled(s, a) && HasWorker(a) && s.workers[a.w].Failing?
    ensures a.FailSent?
  {
  }

  lemma ExplainsStep(s: State, a: Action, w: WorkerId, steps: seq<Action>)
    requires Enabled(s, a) && w in s.workers && Explains(steps, w, s.workers[w])
    ensures Explains(Extend(steps, a, w), w, Apply(s, a).workers[w])
  {
    OthersStay(s, a, w);
    if Moves(a, w) {
      if IsFailure(a) {
        FailureLeadsToFailing(s, a);
      } else if a.Rendered? {
        RenderingStep(s, a, steps);
      }
    }
  }

  lemma RenderingStep(s: State, a: Action, steps: seq<Action>)
    requires Enabled(s, a) && a.Rendered? && a.ok && Explains(steps, a.w, s.workers[a.w])
    ensures Explains(steps + [a], a.w, Apply(s, a).workers[a.w])
  {
    var pc := s.workers[a.w];
    assert Renders(steps + [a], a.w, pc.job.id, pc.i + 1, pc.n);
  }

  lemma {:induction false} ExplainsRun(s: State, run: seq<Action>, w: WorkerId, steps: seq<Action>)
    requires IsRun(s, run) && w in s.workers && Explains(steps, w, s.workers[w])
    ensures w in Exec(s, run).workers
    ensures Explains(AttemptFrom(steps, run, w), w, Exec(s, run).workers[w])
    decreases |run|
  {
    if run != [] {
      ExplainsStep(s, run[0], w, steps);
      OthersStay(s, run[0], w);
      ExplainsRun(Apply(s, run[0]), run[1..], w, Extend(steps, run[0], w));
    }
  }

  lemma {:induction false} WorkersStay(s: State, run: seq<Action>, w: WorkerId)
    requires IsRun(s, run) && w in Exec(s, run).workers
    ensures w in s.workers
    decreases |run|
  {
    if run != [] {
      WorkersStay(Apply(s, run[0]), run[1..], w);
      OthersStay(s, run[0], w);
    }
  }

  lemma ExplainedFromStart(s: State, run: seq<Action>, w: WorkerId)
    requires Init(s) && IsRun(s, run) && w in Exec(s, run).workers
    ensures Explains(Attempt(run, w), w, Exec(s, run).workers[w])
  {
    WorkersStay(s, run, w);
    ExplainsRun(s, run, w, []);
  }

  /** How one action changes the status of a row that is there. */
  lemma StatusChange(s: State, a: Action, id: JobId)
    requires Inv(s) && Enabled(s, a) && id in s.rows
    ensures id in Apply(s, a).rows
    ensures var row, row' := s.rows[id], Apply(s, a).rows[id];
            row'.status ==
            if a.Claimed? && a.id == id then JobStatus.Processing
            else if a.CompleteSent? && !a.fate.Refused? && HoldsJob(s, a.w, id) then Completed
            else if a.FailSent? && !a.fate.Refused? && HoldsJob(s, a.w, id) then
              if row.attempts < row.maxAttempts then Pending else JobStatus.Failed
            else row.status
  {
    if WritesHeldRow(a) {
      HeldRowWritten(s, a);
    }
  }

  /** In every run, a job becomes completed by the Complete of the worker that holds it and in no
      other way, and only after that worker, since it claimed the job, has found video and preset
      and has rendered every resolution, without a failure in between. */
  lemma CompletedMeansRendered(s: State, run: seq<Action>, a: Action, id: JobId)
    requires Init(s) && IsRun(s, run) && Enabled(Exec(s, run), a)
    requires id in Exec(s, run).rows && Exec(s, run).rows[id].status != Completed
    ensures id in Apply(Exec(s, run), a).rows
    ensures Apply(Exec(s, run), a).rows[id].status == Completed <==>
            a.CompleteSent? && !a.fate.Refused? && HoldsJob(Exec(s, run), a.w, id)
    ensures Apply(Exec(s, run), a).rows[id].status == Completed ==> RenderedAll(Attempt(run, a.w), a.w, id)
  {
    InvRun(s, run);
    StatusChange(Exec(s, run), a, id);
    if a.CompleteSent? {
      ExplainedFromStart(s, run, a.w);
    }
  }

  /** In every run, a job goes back to pending, or fails for good when its attempts are used up, by
      the Fail of the worker that holds it and in no other way, and only right after a failure. */
  lemma FailedMeansFailure(s: State, run: seq<Action>, a: Action, id: JobId)
    requires Init(s) && IsRun(s, run) && Enabled(Exec(s, run), a)
    requires id in Exec(s, run).rows && Exec(s, run).rows[id].status == JobStatus.Processing
    ensures id in Apply(Exec(s, run), a).rows
    ensures var row, status := Exec(s, run).rows[id], Apply(Exec(s, run), a).rows[id].status;
            && (status == Pending || status == JobStatus.Failed <==>
                a.FailSent? && !a.fate.Refused? && HoldsJob(Exec(s, run), a.w, id))
            && (status == Pending ==> row.attempts < row.maxAttempts)
            && (status == JobStatus.Failed ==> row.attempts >= row.maxAttempts)
            && (status != JobStatus.Processing && !a.CompleteSent? ==> JustFailed(Attempt(run, a.w), a.w, id))
  {
    InvRun(s, run);
    StatusChange(Exec(s, run), a, id);
    if a.FailSent? {
      ExplainedFromStart(s, run, a.w);
    }
  }

  /** A progress report, when it gets through, writes the job's share: with one resolution FFmpeg's
      own percentage. */
  lemma ReportIsWritten(s: State, a: Action)
    requires Inv(s) && Enabled(s, a) && a.Report? && !a.fate.Refused?
    ensures var pc := s.workers[a.w];
            && pc.job.id in Apply(s, a).rows && pc.i < pc.n
            && Apply(s, a).rows[pc.job.id].progress * pc.n as real == pc.i as real + a.percent
  {
    var pc := s.workers[a.w];
    assert PcOk(s, pc);
    ScaledProgressIsPercentage(pc.i, pc.n, a.percent);
    ScaledProgressIs(pc.i, pc.n, a.percent);
  }

  // ---------- the jobs of a call ----------

  function Presets(rows: Rows, ids: seq<JobId>): seq<PresetId>
    requires forall id :: id in ids ==> id in rows
  {
    if ids == [] then [] else [rows[ids[0]].preset] + Presets(rows, ids[1..])
  }

  /** The jobs that call c has created so far. */
  ghost function MadeFrom(s: State, run: seq<Action>, c: CallId, made: seq<JobId>): seq<JobId>
    requires IsRun(s, run)
    decreases |run|
  {
    if run == [] then made
    else MadeFrom(Apply(s, run[0]), run[1..], c, MadeBy(s, run[0], c, made))
  }

  ghost function MadeBy(s: State, a: Action, c: CallId, made: seq<JobId>): seq<JobId>
    requires Enabled(s, a)
  {
    if a.CreateJob? && a.c == c && !a.fate.Refused? && s.calls[c].video in s.videos then made + [a.id] else made
  }

  /** The jobs made are for the call's video, and have the first of its presets, in order. */
  ghost predicate Makes(s: State, c: CallId, v: VideoId, presets: seq<PresetId>, made: seq<JobId>) {
    && (forall id :: id in made ==> id in s.rows && s.rows[id].video == v)
    && (c in s.calls ==> s.calls[c].video == v && Presets(s.rows, made) + s.calls[c].todo == presets)
  }

  lemma {:induction false} PresetsStay(rows: Rows, rows': Rows, ids: seq<JobId>)
    requires forall id :: id in ids ==> id in rows && id in rows' && rows'[id].preset == rows[id].preset
    ensures Presets(rows', ids) == Presets(rows, ids)
  {
    if ids != [] {
      PresetsStay(rows, rows', ids[1..]);
    }
  }

  lemma {:induction false} PresetsOfSum(rows: Rows, ids: seq<JobId>, id: JobId)
    requires id in rows && forall x :: x in ids ==> x in rows
    ensures Presets(rows, ids + [id]) == Presets(rows, ids) + [rows[id].preset]
  {
    if ids == [] {
      assert ids + [id] == [id] && [id][1..] == [];
    } else {
      PresetsOfSum(rows, ids[1..], id);
      assert (ids + [id])[1..] == ids[1..] + [id];
    }
  }

  /** No action changes what video and preset a job is for. */
  lemma IdentityStays(s: State, a: Action, id: JobId)
    requires Enabled(s, a) && id in s.rows
    ensures id in Apply(s, a).rows
    ensures Apply(s, a).rows[id].video == s.rows[id].video && Apply(s, a).rows[id].preset == s.rows[id].preset
  {
  }

  lemma MakesStep(s: State, a: Action, c: CallId, v: VideoId, presets: seq<PresetId>, made: seq<JobId>)
    requires Enabled(s, a) && Makes(s, c, v, presets, made)
    requires !((a.Upload? || a.Retranscode?) && a.c == c)
    ensures Makes(Apply(s, a), c, v, presets, MadeBy(s, a, c, made))
  {
    var rows, rows' := s.rows, Apply(s, a).rows;
    forall id | id in made ensures id in rows' && rows'[id].video == v && rows'[id].preset == rows[id].preset {
      IdentityStays(s, a, id);
    }
    PresetsStay(rows, rows', made);
    if a.CreateJob? && a.c == c && a.fate.Applied? && s.calls[c].video in s.videos {
      PresetsOfSum(rows', made, a.id);
      NextOfTodo(Presets(rows, made), s.calls[c].todo);
    }
  }

  lemma NextOfTodo(done: seq<PresetId>, todo: seq<PresetId>)
    requires todo != []
    ensures (done + [todo[0]]) + todo[1..] == done + todo
  {
  }

  /** A call that has come to its end has created one job for each of its presets, in order, all for
      its video; until then the ones still to be created are the rest. `s` is the state right after
      the call has begun. */
  lemma {:induction false} CallCreatesItsJobs(s: State, run: seq<Action>, c: CallId, v: VideoId,
                                              presets: seq<PresetId>, made: seq<JobId>)
    requires IsRun(s, run) && Makes(s, c, v, presets, made)
    requires forall k :: 0 <= k < |run| && (run[k].Upload? || run[k].Retranscode?) ==> run[k].c != c
    ensures Makes(Exec(s, run), c, v, presets, MadeFrom(s, run, c, made))
    decreases |run|
  {
    if run != [] {
      MakesStep(s, run[0], c, v, presets, made);
      assert forall k :: 0 <= k < |run[1..]| ==> run[1..][k] == run[k + 1];
      CallCreatesItsJobs(Apply(s, run[0]), run[1..], c, v, presets, MadeBy(s, run[0], c, made));
    }
  }

  /** How a call begins, and that an upload without presets leaves its video `uploaded`. */
  lemma CallBegins(s: State, a: Action)
    requires Enabled(s, a) && (a.Upload? || a.Retranscode?)
    ensures Makes(Apply(s, a), a.c, a.video, a.presets, [])
    ensures Apply(s, a).calls[a.c].mark <==> a.Retranscode? || a.presets != []
    ensures a.Upload? && a.presets == [] && Enabled(Apply(s, a), Mark(a.c, Applied)) ==>
              Apply(Apply(s, a), Mark(a.c, Applied)).videos[a.video].status == Uploaded
  {
    assert [] + a.presets == a.presets;
  }
}
