/** The retry bound limits the work: how often jobs are claimed over a whole run, and why the
    workers cannot go on for ever without new jobs. */
module Termination {
  import opened JobTable
  import opened TranscodeProtocol
  import opened Ownership
  import opened Publication

  // ---------- sums over the rows and the workers ----------

  ghost function Sum(m: map<nat, nat>): nat
    decreases |m|
  {
    if m == map[] then 0
    else
      var k :| k in m;
      m[k] + Sum(m - {k})
  }

  /** The sum does not depend on the key that is taken out first. */
  lemma {:induction false} SumWithout(m: map<nat, nat>, k: nat)
    requires k in m
    ensures Sum(m) == m[k] + Sum(m - {k})
    decreases |m|
  {
    var c :| c in m && Sum(m) == m[c] + Sum(m - {c});
    if c != k {
      SumWithout(m - {c}, k);
      SumWithout(m - {k}, c);
      assert m - {c} - {k} == m - {k} - {c};
    }
  }

  lemma SumPut(m: map<nat, nat>, k: nat, x: nat)
    ensures k in m ==> Sum(m[k := x]) + m[k] == Sum(m) + x
    ensures k !in m ==> Sum(m[k := x]) == Sum(m) + x
  {
    SumWithout(m[k := x], k);
    if k in m {
      SumWithout(m, k);
      assert m[k := x] - {k} == m - {k};
    } else {
      assert m[k := x] - {k} == m;
    }
  }

  lemma {:induction false} SumMonotone(a: map<nat, nat>, b: map<nat, nat>)
    requires a.Keys == b.Keys
    requires forall k :: k in a ==> a[k] <= b[k]
    ensures Sum(a) <= Sum(b)
    decreases |a|
  {
    if a != map[] {
      var k :| k in a;
      SumWithout(a, k);
      SumWithout(b, k);
      SumMonotone(a - {k}, b - {k});
    } else {
      assert b == map[];
    }
  }

  // ---------- the bound on claims ----------

  function Attempts(rows: Rows): map<nat, nat> {
    map id | id in rows :: rows[id].attempts
  }

  function Allowed(rows: Rows): map<nat, nat> {
    map id | id in rows :: rows[id].maxAttempts
  }

  /** The claims a row still has to its name. */
  function Spare(row: Job): nat {
    if row.attempts <= row.maxAttempts then row.maxAttempts - row.attempts else 0
  }

  function Unspent(rows: Rows): map<nat, nat> {
    map id | id in rows :: Spare(rows[id])
  }

  function Claims(run: seq<Action>): nat {
    if run == [] then 0 else (if run[0].Claimed? then 1 else 0) + Claims(run[1..])
  }

  /** The three ways an action can change the bookkeeping of attempts: not at all, by a claim, or
      by a new job. */
  lemma AttemptsChange(s: State, a: Action)
    requires Inv(s) && Enabled(s, a)
    ensures var rows' := Apply(s, a).rows;
            if a.Claimed? then a.id in s.rows && rows' == Claim(s.rows, a.id)
            else if rows'.Keys == s.rows.Keys then
              forall id :: id in s.rows ==>
                rows'[id].attempts == s.rows[id].attempts && rows'[id].maxAttempts == s.rows[id].maxAttempts
            else
              a.CreateJob? && a.id !in s.rows
              && exists row: Job ::
                   row.attempts == 0 && row.maxAttempts == a.maxAttempts && rows' == s.rows[a.id := row]
  {
    var rows' := Apply(s, a).rows;
    if a.CreateJob? && a.id in rows' {
      assert rows' == s.rows[a.id := rows'[a.id]];
    }
  }

  lemma AttemptsStep(s: State, a: Action)
    requires Inv(s) && Enabled(s, a)
    ensures Sum(Attempts(Apply(s, a).rows)) == Sum(Attempts(s.rows)) + if a.Claimed? then 1 else 0
  {
    AttemptsChange(s, a);
    var rows, rows' := s.rows, Apply(s, a).rows;
    if a.Claimed? {
      SumOfPut(rows, a.id, rows'[a.id]);
    } else if rows'.Keys == rows.Keys {
      assert Attempts(rows') == Attempts(rows);
    } else {
      var row: Job :| row.attempts == 0 && row.maxAttempts == a.maxAttempts && rows' == rows[a.id := row];
      SumOfPut(rows, a.id, row);
    }
  }

  /** How one written row changes the sum. */
  lemma SumOfPut(rows: Rows, id: JobId, row: Job)
    ensures Sum(Attempts(rows[id := row])) ==
            Sum(Attempts(rows)) + row.attempts - if id in rows then rows[id].attempts else 0
  {
    SumPut(Attempts(rows), id, row.attempts);
    assert Attempts(rows[id := row]) == Attempts(rows)[id := row.attempts];
  }

  lemma UnspentOfPut(rows: Rows, id: JobId, row: Job)
    requires id in rows
    ensures Sum(Unspent(rows[id := row])) + Spare(rows[id]) == Sum(Unspent(rows)) + Spare(row)
  {
    SumPut(Unspent(rows), id, Spare(row));
    assert Unspent(rows[id := row]) == Unspent(rows)[id := Spare(row)];
  }

  lemma {:induction false} AttemptsCountClaims(s: State, run: seq<Action>)
    requires Inv(s) && IsRun(s, run)
    ensures Sum(Attempts(Exec(s, run).rows)) == Sum(Attempts(s.rows)) + Claims(run)
    decreases |run|
  {
    if run != [] {
      AttemptsStep(s, run[0]);
      InvStep(s, run[0]);
      AttemptsCountClaims(Apply(s, run[0]), run[1..]);
    }
  }

  /** Over any run, whatever fails, the jobs are claimed no more often than the sum of
      max_attempts over all jobs ever created. */
  lemma ClaimsAreBounded(s: State, run: seq<Action>)
    requires Init(s) && IsRun(s, run)
    ensures Claims(run) <= Sum(Allowed(Exec(s, run).rows))
  {
    InvRun(s, run);
    AttemptsCountClaims(s, run);
    SumMonotone(Attempts(Exec(s, run).rows), Allowed(Exec(s, run).rows));
  }

  // ---------- a decreasing measure ----------

  /** How many stages of processJob lie ahead; rendering all resolutions is one stage, and so is
      looking up all presets. */
  function Stages(pc: Pc): nat {
    match pc
    case Idle => 0
    case LoadingVideo(_) => 10
    case LoadingPreset(_) => 9
    case Rendering(_, _, _) => 8
    case Completing(_) => 7
    case Failing(_) => 6
    case Checking(_) => 5
    case Publishing(_) => 4
    case Listing(_) => 3
    case Looking(_, _, _) => 2
    case Storing(_) => 1
  }

  /** How many rounds of its stage a worker has before it. */
  function Rounds(pc: Pc): nat {
    match pc
    case Rendering(_, i, n) => if i <= n then n - i else 0
    case Looking(_, todo, _) => |todo|
    case _ => 0
  }

  function AllStages(s: State): map<nat, nat> {
    map w | w in s.workers :: Stages(s.workers[w])
  }

  function AllRounds(s: State): map<nat, nat> {
    map w | w in s.workers :: Rounds(s.workers[w])
  }

  /** A worker's action other than asking for a job in vain and reporting progress. */
  predicate IsWork(a: Action) {
    match a
    case Poll(_) => false
    case Report(_, _, _) => false
    case Upload(_, _, _) => false
    case Retranscode(_, _, _) => false
    case CreateJob(_, _, _, _, _) => false
    case Mark(_, _) => false
    case Delete(_, _) => false
    case _ => true
  }

  lemma SameSpare(rows: Rows, rows': Rows)
    requires rows'.Keys == rows.Keys
    requires forall id :: id in rows ==>
      rows'[id].attempts == rows[id].attempts && rows'[id].maxAttempts == rows[id].maxAttempts
    ensures Unspent(rows') == Unspent(rows)
  {
  }

  lemma UnspentStep(s: State, a: Action)
    requires Inv(s) && Enabled(s, a) && !a.CreateJob?
    ensures a.Claimed? ==> Sum(Unspent(Apply(s, a).rows)) < Sum(Unspent(s.rows))
    ensures !a.Claimed? ==> Sum(Unspent(Apply(s, a).rows)) == Sum(Unspent(s.rows))
  {
    AttemptsChange(s, a);
    var rows, rows' := s.rows, Apply(s, a).rows;
    if a.Claimed? {
      UnspentOfPut(rows, a.id, rows'[a.id]);
    } else {
      SameSpare(rows, rows');
    }
  }

  /** A worker's action moves that worker alone, and a stage or a round nearer to its next
      claim. */
  lemma PcStep(s: State, a: Action)
    requires Inv(s) && Enabled(s, a) && IsWork(a) && !a.Claimed?
    ensures var pc, pc' := s.workers[a.w], Apply(s, a).workers[a.w];
            || Stages(pc') < Stages(pc)
            || (Stages(pc') == Stages(pc) && Rounds(pc') < Rounds(pc))
    ensures Apply(s, a).workers == s.workers[a.w := Apply(s, a).workers[a.w]]
  {
    OneWorkerMoves(s, a);
    if Publishes(a) || a.LookedUp? {
      PublishingStep(s, a);
    } else {
      assert PcOk(s, s.workers[a.w]);
    }
  }

  lemma OneWorkerMoves(s: State, a: Action)
    requires Enabled(s, a) && IsWork(a)
    ensures a.w in s.workers && a.w in Apply(s, a).workers
    ensures Apply(s, a).workers == s.workers[a.w := Apply(s, a).workers[a.w]]
  {
  }

  lemma PublishingStep(s: State, a: Action)
    requires Enabled(s, a) && (Publishes(a) || a.LookedUp?)
    ensures var pc, pc' := s.workers[a.w], Apply(s, a).workers[a.w];
            Stages(pc') < Stages(pc) || (Stages(pc') == Stages(pc) && Rounds(pc') < Rounds(pc))
  {
  }

  lemma MeasuresFollow(s: State, s': State, w: WorkerId)
    requires w in s.workers && w in s'.workers && s'.workers == s.workers[w := s'.workers[w]]
    ensures Sum(AllStages(s')) + Stages(s.workers[w]) == Sum(AllStages(s)) + Stages(s'.workers[w])
    ensures Sum(AllRounds(s')) + Rounds(s.workers[w]) == Sum(AllRounds(s)) + Rounds(s'.workers[w])
  {
    var pc' := s'.workers[w];
    assert AllStages(s') == AllStages(s)[w := Stages(pc')];
    assert AllRounds(s') == AllRounds(s)[w := Rounds(pc')];
    SumPut(AllStages(s), w, Stages(pc'));
    SumPut(AllRounds(s), w, Rounds(pc'));
  }

  /** The claims left, then the stages ahead of all workers, then their rounds. */
  datatype Measure = Measure(unspent: nat, stages: nat, rounds: nat)

  ghost function MeasureOf(s: State): Measure {
    Measure(Sum(Unspent(s.rows)), Sum(AllStages(s)), Sum(AllRounds(s)))
  }

  /** The three numbers compared in this order. */
  predicate Below(m': Measure, m: Measure) {
    || m'.unspent < m.unspent
    || (m'.unspent == m.unspent && (m'.stages < m.stages || (m'.stages == m.stages && m'.rounds < m.rounds)))
  }

  /** The measure goes down with every piece of work. */
  ghost predicate Nearer(s': State, s: State) {
    Below(MeasureOf(s'), MeasureOf(s))
  }

  lemma WorkIsNearer(s: State, a: Action)
    requires Inv(s) && Enabled(s, a) && IsWork(a)
    ensures Inv(Apply(s, a)) && Nearer(Apply(s, a), s)
  {
    InvStep(s, a);
    UnspentStep(s, a);
    if !a.Claimed? {
      PcStep(s, a);
      MeasuresFollow(s, Apply(s, a), a.w);
    }
  }

  /** A step that is a worker's work, and one that is anything but the creation of a job. */
  ghost predicate Works(s: State, s': State) {
    exists a :: Enabled(s, a) && IsWork(a) && s' == Apply(s, a)
  }

  ghost predicate Goes(s: State, s': State) {
    exists a :: Enabled(s, a) && !a.CreateJob? && s' == Apply(s, a)
  }

  lemma WorkersStay(s: State, a: Action)
    requires Enabled(s, a) && !IsWork(a)
    ensures Apply(s, a).workers == s.workers
  {
  }

  /** Polls, reports and service calls bring the workers nothing to do, unless they create a job. */
  lemma GoesIsNoFurther(s: State, s': State)
    requires Inv(s) && Goes(s, s')
    ensures Inv(s') && (Nearer(s', s) || MeasureOf(s') == MeasureOf(s))
  {
    var a :| Enabled(s, a) && !a.CreateJob? && s' == Apply(s, a);
    if IsWork(a) {
      WorkIsNearer(s, a);
    } else {
      InvStep(s, a);
      UnspentStep(s, a);
      WorkersStay(s, a);
    }
  }

  ghost predicate WorksAt(schedule: nat -> State, i: nat) {
    Works(schedule(i), schedule(i + 1))
  }

  ghost predicate GoesAt(schedule: nat -> State, i: nat) {
    Goes(schedule(i), schedule(i + 1))
  }

  lemma {:induction false} InvAlong(schedule: nat -> State, k: nat, i: nat)
    requires Inv(schedule(k)) && k <= i
    requires forall j: nat :: k <= j ==> GoesAt(schedule, j)
    ensures Inv(schedule(i))
    decreases i - k
  {
    if k < i {
      InvAlong(schedule, k, i - 1);
      assert GoesAt(schedule, i - 1);
      GoesIsNoFurther(schedule(i - 1), schedule(i));
    }
  }

  /** A measure that never goes up, and down wherever `works` holds. */
  predicate StepsDown(m: nat -> Measure, works: nat -> bool, i: nat) {
    Below(m(i + 1), m(i)) || (m(i + 1) == m(i) && !works(i))
  }

  lemma {:induction false} NeverUp(m: nat -> Measure, works: nat -> bool, k: nat, i: nat)
    requires k <= i && forall j: nat :: k <= j ==> StepsDown(m, works, j)
    ensures Below(m(i), m(k)) || m(i) == m(k)
    decreases i - k
  {
    if k < i {
      NeverUp(m, works, k, i - 1);
      assert StepsDown(m, works, i - 1);
    }
  }

  /** It goes down finitely often. */
  lemma {:induction false} Descends(m: nat -> Measure, works: nat -> bool, k: nat)
    requires forall j: nat :: k <= j ==> StepsDown(m, works, j)
    ensures exists n: nat :: k <= n && NeverFrom(works, n)
    decreases m(k).unspent, m(k).stages, m(k).rounds
  {
    if !NeverFrom(works, k) {
      var i: nat :| k <= i && works(i);
      NeverUp(m, works, k, i);
      assert StepsDown(m, works, i);
      Descends(m, works, i + 1);
    }
  }

  ghost predicate NeverFrom(works: nat -> bool, n: nat) {
    forall i: nat :: n <= i ==> !works(i)
  }

  /** From this point on no step is work. */
  ghost predicate AtRestFrom(schedule: nat -> State, n: nat) {
    forall i: nat :: n <= i ==> !WorksAt(schedule, i)
  }

  lemma ScheduleStepsDown(schedule: nat -> State, i: nat)
    requires Inv(schedule(i)) && GoesAt(schedule, i)
    ensures var m', m := MeasureOf(schedule(i + 1)), MeasureOf(schedule(i));
            Below(m', m) || (m' == m && !WorksAt(schedule, i))
  {
    GoesIsNoFurther(schedule(i), schedule(i + 1));
    if WorksAt(schedule, i) {
      var a :| Enabled(schedule(i), a) && IsWork(a) && schedule(i + 1) == Apply(schedule(i), a);
      WorkIsNearer(schedule(i), a);
    }
  }

  /** Termination: once no more jobs are created, the workers' work comes to an end for good. In every
      infinite schedule from a reachable state, with any polls, reports and service calls in between,
      there is a point after which no step is work. */
  lemma WorkIsFinite(schedule: nat -> State, k: nat)
    requires Inv(schedule(k))
    requires forall j: nat :: k <= j ==> GoesAt(schedule, j)
    ensures exists n: nat :: k <= n && AtRestFrom(schedule, n)
  {
    var m, works := (i: nat) => MeasureOf(schedule(i)), (i: nat) => WorksAt(schedule, i);
    forall j: nat | k <= j ensures StepsDown(m, works, j) {
      InvAlong(schedule, k, j);
      ScheduleStepsDown(schedule, j);
    }
    Descends(m, works, k);
    var n: nat :| k <= n && NeverFrom(works, n);
    forall i: nat | n <= i ensures !WorksAt(schedule, i) {
      assert !works(i);
    }
    assert AtRestFrom(schedule, n);
  }

  /** So from no point on does a schedule consist of work alone. */
  lemma WorkersComeToRest(schedule: nat -> State, k: nat)
    requires Inv(schedule(k))
    ensures exists i: nat :: k <= i && !WorksAt(schedule, i)
  {
    if forall i: nat :: k <= i ==> GoesAt(schedule, i) {
      WorkIsFinite(schedule, k);
      var n: nat :| k <= n && AtRestFrom(schedule, n);
      assert !WorksAt(schedule, n);
    } else {
      var i: nat :| k <= i && !GoesAt(schedule, i);
      assert !WorksAt(schedule, i);
    }
  }

  // ---------- what is left at rest ----------

  ghost predicate HasWork(s: State) {
    exists a :: IsWork(a) && Enabled(s, a)
  }

  /** No worker can do any work, whatever its outcome. */
  ghost predicate AtRest(s: State) {
    !HasWork(s)
  }

  /** A worker in the middle of a job always has work. */
  lemma BusyHasWork(s: State, w: WorkerId)
    requires w in s.workers && !s.workers[w].Idle?
    ensures HasWork(s)
  {
    var a := match s.workers[w]
      case LoadingVideo(_) => VideoLoaded(w, false)
      case LoadingPreset(_) => PresetLoaded(w, false, 0)
      case Rendering(_, _, _) => Rendered(w, true)
      case Failing(_) => FailSent(w, Applied)
      case Completing(_) => CompleteSent(w, Applied)
      case Checking(_) => Checked(w, true)
      case Publishing(_) => Published(w, Applied)
      case Listing(_) => Action.Listed(w, true)
      case Looking(_, todo, _) =>
        if todo == {} then Put(w, Applied) else var id :| id in todo; LookedUp(w, id, true)
      case _ => Stored(w, Applied);
    assert IsWork(a) && Enabled(s, a);
  }

  /** An idle worker has work as long as a job is pending. */
  lemma PendingIsWork(s: State, w: WorkerId, id: JobId)
    requires w in s.workers && s.workers[w].Idle? && id in s.rows && s.rows[id].status == Pending
    ensures HasWork(s)
  {
    assert id in Claimable(s.rows, {});
    var next := Earliest(s.rows, Claimable(s.rows, {}));
    var a := Claimed(w, {}, next, true);
    assert IsWork(a) && Enabled(s, a);
  }

  /** Rest means that all workers are idle and, where there is a worker, no job is pending. */
  lemma RestIff(s: State)
    ensures AtRest(s) <==>
            && (forall w :: w in s.workers ==> s.workers[w].Idle?)
            && (s.workers != map[] ==> forall id :: id in s.rows ==> s.rows[id].status != Pending)
  {
    if AtRest(s) {
      forall w | w in s.workers ensures s.workers[w].Idle? {
        if !s.workers[w].Idle? {
          BusyHasWork(s, w);
        }
      }
      forall w, id | w in s.workers && id in s.rows ensures s.rows[id].status != Pending {
        if s.rows[id].status == Pending {
          PendingIsWork(s, w, id);
        }
      }
    }
  }

  /** What is left when the workers rest: with atomic job creation and truthful answers, every video
      that was uploaded during the run and has jobs is `ready` (or deleted), or one of its jobs has
      failed for good, or was left `processing` by a worker whose statement was lost. */
  lemma RestMeansPublished(s: State, run: seq<Action>, v: VideoId)
    requires Init(s) && IsRun(s, run) && v !in s.videos
    requires forall k :: 0 <= k < |run| ==> Truthful(run[k])
    requires CreatesAtomically(run)
    requires AtRest(Exec(s, run)) && Exec(s, run).workers != map[] && JobsOf(Exec(s, run).rows, v) != {}
    ensures var t := Exec(s, run);
            || Shown(t, v)
            || exists id :: id in JobsOf(t.rows, v) && t.rows[id].status in {JobStatus.Failed, JobStatus.Processing}
  {
    var t := Exec(s, run);
    RestIff(t);
    QuiescenceImpliesPublished(s, run, v);
    DoneMeans(t, v);
    if !Done(t, v) {
      var id :| id in t.rows && t.rows[id].video == v && t.rows[id].status !in {Completed, Cancelled};
      assert id in JobsOf(t.rows, v);
    }
  }
}
