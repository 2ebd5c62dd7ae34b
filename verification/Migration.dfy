/** The migration runner that starts with the server: it applies the embedded SQL files in order,
    each in a transaction that also records its name, and may fail at any point. */
module Migration {
  import opened Wrappers
  import opened Text

  const UP := "-- +goose Up"
  const DOWN := "-- +goose Down"

  // ---------- the Up section ----------

  /** A slice whose bounds are the wrong way round stops the program. */
  datatype Crash = Crash

  function ExtractUp(content: string): Result<string, Crash> {
    var up, down := Index(content, UP), Index(content, DOWN);
    if up == -1 then Success(content)
    else if down == -1 then Success(TrimSpace(content[up + |UP|..]))
    else if down < up + |UP| then Failure(Crash)
    else Success(TrimSpace(content[up + |UP|..down]))
  }

  lemma MarkersDoNotOverlap(content: string, up: int, down: int)
    requires OccursAt(content, UP, up) && OccursAt(content, DOWN, down)
    ensures down < up || up + |UP| <= down
  {
    assert forall k :: 0 <= k < |UP| ==> content[up + k] == content[up..up + |UP|][k] == UP[k];
    assert forall k :: 0 <= k < |DOWN| ==> content[down + k] == content[down..down + |DOWN|][k] == DOWN[k];
    assert content[down] == '-' && content[down + 3] == '+' && content[down + 10] == 'D';
    assert content[up + 9] == ' ' && content[up + 10] == 'U' && content[up + 11] == 'p';
    assert forall k :: up <= k < up + |UP| && k != up + 3 ==> content[k] == UP[k - up] != '+';
  }

  /** Extraction crashes exactly on files whose first Down marker precedes their first Up marker. */
  lemma CrashIff(content: string)
    ensures ExtractUp(content).Failure? <==>
            Index(content, UP) >= 0 && 0 <= Index(content, DOWN) < Index(content, UP)
  {
    var up, down := Index(content, UP), Index(content, DOWN);
    if up >= 0 && down >= 0 {
      MarkersDoNotOverlap(content, up, down);
    }
  }

  /** A well-formed file yields its Up section and nothing of its Down section. */
  lemma UpSectionOnly(pre: string, body: string, rest: string)
    requires var content := pre + UP + body + DOWN + rest;
             && Index(content, UP) == |pre|
             && Index(content, DOWN) == |pre| + |UP| + |body|
    ensures ExtractUp(pre + UP + body + DOWN + rest) == Success(TrimSpace(body))
  {
    var content := pre + UP + body + DOWN + rest;
    assert content[|pre| + |UP|..|pre| + |UP| + |body|] == body;
  }

  /** A text that neither starts nor ends with white space is cut off by no trimming. */
  lemma MarkerSurvivesTrim(s: string, marker: string, k: nat)
    requires Trimmed(marker) && OccursAt(s, marker, k)
    ensures Contains(TrimSpace(s), marker)
  {
    TrimCuts(s);
    var i: nat, j: nat :| CutsTo(s, i, j, TrimSpace(s));
    MarkerIsInside(s, marker, k, i, j);
    OccursInSlice(s, i, j, marker, k - i);
    assert OccursAt(TrimSpace(s), marker, k - i);
  }

  lemma MarkerIsInside(s: string, marker: string, k: nat, i: nat, j: nat)
    requires Trimmed(marker) && OccursAt(s, marker, k)
    requires i <= j <= |s| && AllSpace(s[..i]) && AllSpace(s[j..])
    ensures i <= k && k + |marker| <= j
  {
    var first, last := s[k], s[k + |marker| - 1];
    assert first == s[k..k + |marker|][0] && last == s[k..k + |marker|][|marker| - 1];
    NonSpaceIsInside(s, i, j, k);
    NonSpaceIsInside(s, i, j, k + |marker| - 1);
  }

  lemma MarkerWasThere(s: string, marker: string)
    requires Contains(TrimSpace(s), marker)
    ensures Contains(s, marker)
  {
    TrimCuts(s);
    var i: nat, j: nat :| CutsTo(s, i, j, TrimSpace(s));
    var k := Index(TrimSpace(s), marker);
    OccursInSlice(s, i, j, marker, k);
    assert OccursAt(s, marker, i + k);
  }

  /** The part of a file that runs: after the first Up marker and before the first Down marker,
      either of which may be missing, or all of it when there is no Up marker. */
  function RunsFrom(content: string): nat {
    if Contains(content, UP) then Index(content, UP) + |UP| else 0
  }

  function RunsTo(content: string): nat {
    if Contains(content, UP) && Contains(content, DOWN) then Index(content, DOWN) else |content|
  }

  /** For every marker text, the markers of this and of other tools alike: what is executed contains
      it if and only if it lies within the part of the file that runs. */
  lemma MarkerRunsIff(content: string, marker: string)
    requires ExtractUp(content).Success? && Trimmed(marker)
    ensures Contains(ExtractUp(content).value, marker) <==>
            exists k :: RunsFrom(content) <= k && k + |marker| <= RunsTo(content) && OccursAt(content, marker, k)
  {
    var lo, hi := RunsFrom(content), RunsTo(content);
    RunsIsASlice(content);
    SliceContainsIff(content, lo, hi, marker);
    var part := content[lo..hi];
    if Contains(part, marker) {
      MarkerSurvivesTrim(part, marker, Index(part, marker));
    }
    if Contains(TrimSpace(part), marker) {
      MarkerWasThere(part, marker);
    }
  }

  lemma SliceContainsIff(s: string, lo: nat, hi: nat, part: string)
    requires lo <= hi <= |s|
    ensures Contains(s[lo..hi], part) <==> exists k :: lo <= k && k + |part| <= hi && OccursAt(s, part, k)
  {
    if Contains(s[lo..hi], part) {
      var k := Index(s[lo..hi], part);
      OccursInSlice(s, lo, hi, part, k);
      assert OccursAt(s, part, lo + k);
    }
    if k :| lo <= k && k + |part| <= hi && OccursAt(s, part, k) {
      OccursInSlice(s, lo, hi, part, k - lo);
      assert OccursAt(s[lo..hi], part, k - lo);
    }
  }

  lemma RunsIsASlice(content: string)
    requires ExtractUp(content).Success?
    ensures RunsFrom(content) <= RunsTo(content) <= |content|
    ensures var part := content[RunsFrom(content)..RunsTo(content)];
            ExtractUp(content).value == if Contains(content, UP) then TrimSpace(part) else part
  {
    if Contains(content, UP) && !Contains(content, DOWN) {
      var start := RunsFrom(content);
      assert content[start..] == content[start..|content|];
    }
    assert content[0..|content|] == content;
  }

  /** So the runner's own Down marker is executed exactly when there is no Up marker. */
  lemma DownRunsIff(content: string)
    requires ExtractUp(content).Success?
    ensures Contains(ExtractUp(content).value, DOWN) <==> Contains(content, DOWN) && !Contains(content, UP)
  {
    MarkerRunsIff(content, DOWN);
    if Contains(content, DOWN) && !Contains(content, UP) {
      assert OccursAt(content, DOWN, Index(content, DOWN));
    }
  }

  const MIGRATE_DOWN := "-- +migrate Down"

  /** The Down marker of the other tool, which 00011 and 00012 carry, is executed wherever it stands
      in a file without the runner's Up marker, and in a file with one as long as it comes after that
      and before the runner's own Down marker. */
  lemma OtherDownRunsIff(content: string)
    requires ExtractUp(content).Success?
    ensures !Contains(content, UP) ==>
              (Contains(ExtractUp(content).value, MIGRATE_DOWN) <==> Contains(content, MIGRATE_DOWN))
    ensures Contains(content, UP) ==>
              (Contains(ExtractUp(content).value, MIGRATE_DOWN) <==>
               exists k :: Index(content, UP) + |UP| <= k && OccursAt(content, MIGRATE_DOWN, k)
                           && (Contains(content, DOWN) ==> k + |MIGRATE_DOWN| <= Index(content, DOWN)))
  {
    MarkerRunsIff(content, MIGRATE_DOWN);
    if Contains(content, MIGRATE_DOWN) {
      assert OccursAt(content, MIGRATE_DOWN, Index(content, MIGRATE_DOWN));
    }
  }

  /** A file shaped like 00011 and 00012 is executed with its Down section. */
  lemma OtherMarkersRunBoth(up: string, down: string)
    requires !Contains("-- +migrate Up" + up + MIGRATE_DOWN + down, UP)
    ensures var content := "-- +migrate Up" + up + MIGRATE_DOWN + down;
            ExtractUp(content) == Success(content) && Contains(content, MIGRATE_DOWN)
  {
    var front := "-- +migrate Up" + up;
    var content := front + MIGRATE_DOWN + down;
    OtherDownRunsIff(content);
    assert content[|front|..|front| + |MIGRATE_DOWN|] == MIGRATE_DOWN;
    assert OccursAt(content, MIGRATE_DOWN, |front|);
  }

  /** So is every such file whose two sections have no letter s, which the runner's Up marker has. */
  lemma SeedFileRunsBoth(up: string, down: string)
    requires HasNoS(up) && HasNoS(down)
    ensures var content := "-- +migrate Up" + up + MIGRATE_DOWN + down;
            ExtractUp(content) == Success(content) && Contains(content, MIGRATE_DOWN)
  {
    var tag := "-- +migrate Up";
    TagsHaveNoS(tag, MIGRATE_DOWN);
    NoSInSum(tag, up);
    NoSInSum(tag + up, MIGRATE_DOWN);
    NoSInSum(tag + up + MIGRATE_DOWN, down);
    UpHasAnS(tag + up + MIGRATE_DOWN + down);
    OtherMarkersRunBoth(up, down);
  }

  lemma TagsHaveNoS(up: string, down: string)
    requires up == "-- +migrate Up" && down == "-- +migrate Down"
    ensures HasNoS(up) && HasNoS(down)
  {
  }

  predicate HasNoS(s: string) { forall k :: 0 <= k < |s| ==> s[k] != 's' }

  lemma NoSInSum(a: string, b: string)
    ensures HasNoS(a) && HasNoS(b) ==> HasNoS(a + b)
  {
  }

  lemma UpHasAnS(content: string)
    ensures Contains(content, UP) ==> exists k :: 0 <= k < |content| && content[k] == 's'
  {
    if Contains(content, UP) {
      var i := Index(content, UP);
      assert content[i + 7] == content[i..i + |UP|][7] == UP[7] == 's';
    }
  }

  /** A file that stops the server. */
  lemma DownFirstCrashes(rest: string)
    ensures ExtractUp(DOWN + "\n" + UP + rest).Failure?
  {
    var content := DOWN + "\n" + UP + rest;
    assert content[..|DOWN|] == DOWN && content[0..|DOWN|] == content[..|DOWN|];
    assert OccursAt(content, DOWN, 0);
    assert content[|DOWN| + 1..|DOWN| + 1 + |UP|] == UP;
    assert OccursAt(content, UP, |DOWN| + 1);
    assert content[..|UP|] == DOWN[..|UP|];
    assert DOWN[..|UP|][10] == 'D' && UP[10] == 'U';
    assert !OccursAt(content, UP, 0);
    CrashIff(content);
  }

  // ---------- one run ----------

  datatype File = File(name: string, content: string)

  /** A row of schema_migrations with the SQL that its transaction executed. */
  datatype Entry = Entry(version: string, sql: string)

  /** What becomes of an attempt to apply a file: it commits, it fails before, or it commits and the
      answer to the commit is lost. */
  datatype Fate = Commits | Fails | CommitsUnseen

  datatype Outcome = Outcome(log: seq<Entry>, ok: bool)

  predicate Distinct(files: seq<File>) {
    forall i, j :: 0 <= i < j < |files| ==> files[i].name != files[j].name
  }

  function Versions(log: seq<Entry>): set<string> {
    set e | e in log :: e.version
  }

  /** The rest of a run; `applied` was read at its start. */
  function RunFrom(files: seq<File>, fates: seq<Fate>, applied: set<string>, log: seq<Entry>): Outcome
    requires |fates| == |files|
  {
    if files == [] then Outcome(log, true)
    else if files[0].name in applied then RunFrom(files[1..], fates[1..], applied, log)
    else
      match ExtractUp(files[0].content)
      case Failure(_) => Outcome(log, false)
      case Success(sql) =>
        if sql == "" then RunFrom(files[1..], fates[1..], applied, log)
        else
          match fates[0]
          case Fails => Outcome(log, false)
          case CommitsUnseen => Outcome(log + [Entry(files[0].name, sql)], false)
          case Commits => RunFrom(files[1..], fates[1..], applied, log + [Entry(files[0].name, sql)])
  }

  function Run(files: seq<File>, fates: seq<Fate>, log: seq<Entry>): Outcome
    requires |fates| == |files|
  {
    RunFrom(files, fates, Versions(log), log)
  }

  /** The migrations there are to apply, up to the first file on which extraction crashes. */
  function Eligible(files: seq<File>): seq<Entry> {
    if files == [] then []
    else
      match ExtractUp(files[0].content)
      case Failure(_) => []
      case Success(sql) => (if sql == "" then [] else [Entry(files[0].name, sql)]) + Eligible(files[1..])
  }

  predicate NoCrash(files: seq<File>) {
    files != [] ==> ExtractUp(files[0].content).Success? && NoCrash(files[1..])
  }

  predicate AllCommit(fates: seq<Fate>) {
    fates != [] ==> fates[0] == Commits && AllCommit(fates[1..])
  }

  lemma {:induction false} EligibleComesFromFiles(files: seq<File>, e: Entry)
    requires e in Eligible(files)
    ensures exists i :: 0 <= i < |files| && files[i].name == e.version
    decreases |files|
  {
    if files[0].name != e.version {
      assert e in Eligible(files[1..]);
      EligibleComesFromFiles(files[1..], e);
      var i :| 0 <= i < |files[1..]| && files[1..][i].name == e.version;
      assert files[i + 1].name == e.version;
    }
  }

  lemma FirstIsNotLater(files: seq<File>, k: nat)
    requires files != [] && Distinct(files) && k <= |Eligible(files[1..])|
    ensures files[0].name !in Versions(Eligible(files[1..])[..k])
  {
    forall e | e in Eligible(files[1..])[..k] ensures e.version != files[0].name {
      EligibleComesFromFiles(files[1..], e);
      var i :| 0 <= i < |files[1..]| && files[1..][i].name == e.version;
      assert files[i + 1].name == e.version;
    }
  }

  /** The files still to be looked at agree with `applied` on how many of them are done. */
  predicate Agrees(files: seq<File>, applied: set<string>, k: nat) {
    && k <= |Eligible(files)|
    && forall f :: f in files ==> (f.name in applied <==> f.name in Versions(Eligible(files)[..k]))
  }

  lemma AgreesOnRest(files: seq<File>, applied: set<string>, k: nat)
    requires files != [] && Distinct(files) && Agrees(files, applied, k)
    requires ExtractUp(files[0].content).Success?
    ensures var sql := ExtractUp(files[0].content).value;
            var rest := if sql != "" && k > 0 then k - 1 else k;
            && (files[0].name in applied <==> sql != "" && k > 0)
            && Agrees(files[1..], applied, rest)
    ensures Distinct(files[1..])
  {
    var sql := ExtractUp(files[0].content).value;
    var later, all := Eligible(files[1..]), Eligible(files);
    var rest := if sql != "" && k > 0 then k - 1 else k;
    if sql == "" {
      assert all == later;
      FirstIsNotLater(files, k);
    } else if k > 0 {
      assert all[..k] == [all[0]] + later[..k - 1];
      assert all[0] in all[..k];
    }
    forall f | f in files[1..] && !(sql != "" && k == 0)
      ensures f.name in applied <==> f.name in Versions(later[..rest])
    {
      assert f in files && f.name != files[0].name;
      if sql != "" {
        assert forall e :: e in all[..k] <==> e == all[0] || e in later[..k - 1];
      }
    }
  }

  /** What a rest of a run achieves that starts with the first k eligible migrations applied: it ends
      with the first k', and with all of them if nothing fails. */
  predicate Extends(files: seq<File>, fates: seq<Fate>, applied: set<string>, done: seq<Entry>, k: nat, k': nat)
    requires |fates| == |files| && k <= |Eligible(files)|
  {
    var out := RunFrom(files, fates, applied, done + Eligible(files)[..k]);
    && k <= k' <= |Eligible(files)|
    && out.log == done + Eligible(files)[..k']
    && (AllCommit(fates) ==> k' == |Eligible(files)| && (out.ok <==> NoCrash(files)))
    && (out.ok ==> k' == |Eligible(files)| && NoCrash(files))
  }

  ghost predicate RunExtendsFrom(files: seq<File>, fates: seq<Fate>, applied: set<string>, done: seq<Entry>, k: nat)
    requires |fates| == |files| && k <= |Eligible(files)|
  {
    exists k': nat :: Extends(files, fates, applied, done, k, k')
  }

  lemma EligibleCons(files: seq<File>, e: Entry)
    requires files != [] && ExtractUp(files[0].content) == Success(e.sql) && e.sql != "" && e.version == files[0].name
    ensures Eligible(files) == [e] + Eligible(files[1..])
  {
  }

  lemma TakeCons(done: seq<Entry>, e: Entry, later: seq<Entry>, k: nat)
    requires k <= |later|
    ensures done + ([e] + later)[..k + 1] == (done + [e]) + later[..k]
  {
  }

  /** There is nothing to look at, or extraction crashes. */
  lemma ExtendsToEnd(files: seq<File>, fates: seq<Fate>, applied: set<string>, done: seq<Entry>, k: nat)
    requires |fates| == |files| && Agrees(files, applied, k)
    requires files == [] || ExtractUp(files[0].content).Failure?
    ensures RunExtendsFrom(files, fates, applied, done, k)
  {
    assert Eligible(files) == [] && done + [] == done;
    if files != [] {
      assert files[0] in files && files[0].name !in applied;
    }
    assert Extends(files, fates, applied, done, k, k);
  }

  /** The attempt at the first file ends the run. */
  lemma ExtendsToFailure(files: seq<File>, fates: seq<Fate>, applied: set<string>, done: seq<Entry>)
    requires files != [] && |fates| == |files| && files[0].name !in applied && fates[0] != Commits
    requires ExtractUp(files[0].content).Success? && ExtractUp(files[0].content).value != ""
    ensures RunExtendsFrom(files, fates, applied, done, 0)
  {
    var e := Entry(files[0].name, ExtractUp(files[0].content).value);
    EligibleCons(files, e);
    assert (done + Eligible(files)[..0]) + [e] == done + Eligible(files)[..1];
    assert Extends(files, fates, applied, done, 0, if fates[0] == Fails then 0 else 1);
  }

  /** One run, wherever it fails, extends a prefix of the eligible migrations to a longer one, and a
      run in which nothing fails to the whole. */
  lemma {:induction false} RunExtends(files: seq<File>, fates: seq<Fate>, applied: set<string>, done: seq<Entry>,
                                      k: nat)
    requires |fates| == |files| && Distinct(files) && Agrees(files, applied, k)
    ensures RunExtendsFrom(files, fates, applied, done, k)
    decreases |files|, 1
  {
    if files == [] || ExtractUp(files[0].content).Failure? {
      ExtendsToEnd(files, fates, applied, done, k);
      return;
    }
    AgreesOnRest(files, applied, k);
    if ExtractUp(files[0].content).value == "" {
      ExtendsOverNothing(files, fates, applied, done, k);
    } else if k > 0 {
      ExtendsOverApplied(files, fates, applied, done, k);
    } else if fates[0] == Commits {
      ExtendsOverCommit(files, fates, applied, done);
    } else {
      ExtendsToFailure(files, fates, applied, done);
    }
  }

  /** The first file has no Up section. */
  lemma {:induction false} ExtendsOverNothing(files: seq<File>, fates: seq<Fate>, applied: set<string>,
                                              done: seq<Entry>, k: nat)
    requires files != [] && |fates| == |files| && files[0].name !in applied
    requires ExtractUp(files[0].content) == Success("")
    requires Distinct(files[1..]) && Agrees(files[1..], applied, k)
    ensures k <= |Eligible(files)| && RunExtendsFrom(files, fates, applied, done, k)
    decreases |files|, 0
  {
    assert Eligible(files) == Eligible(files[1..]);
    RunExtends(files[1..], fates[1..], applied, done, k);
    var k': nat :| Extends(files[1..], fates[1..], applied, done, k, k');
    assert Extends(files, fates, applied, done, k, k');
  }

  /** The first file is applied already. */
  lemma {:induction false} ExtendsOverApplied(files: seq<File>, fates: seq<Fate>, applied: set<string>,
                                              done: seq<Entry>, k: nat)
    requires files != [] && |fates| == |files| && files[0].name in applied && k > 0
    requires ExtractUp(files[0].content).Success? && ExtractUp(files[0].content).value != ""
    requires Distinct(files[1..]) && Agrees(files[1..], applied, k - 1)
    ensures k <= |Eligible(files)| && RunExtendsFrom(files, fates, applied, done, k)
    decreases |files|, 0
  {
    var e, later := Entry(files[0].name, ExtractUp(files[0].content).value), Eligible(files[1..]);
    EligibleCons(files, e);
    RunExtends(files[1..], fates[1..], applied, done + [e], k - 1);
    var m: nat :| Extends(files[1..], fates[1..], applied, done + [e], k - 1, m);
    TakeCons(done, e, later, k - 1);
    TakeCons(done, e, later, m);
    assert Extends(files, fates, applied, done, k, m + 1);
  }

  /** The first file is committed now. */
  lemma {:induction false} ExtendsOverCommit(files: seq<File>, fates: seq<Fate>, applied: set<string>, done: seq<Entry>)
    requires files != [] && |fates| == |files| && files[0].name !in applied && fates[0] == Commits
    requires ExtractUp(files[0].content).Success? && ExtractUp(files[0].content).value != ""
    requires Distinct(files[1..]) && Agrees(files[1..], applied, 0)
    ensures RunExtendsFrom(files, fates, applied, done, 0)
    decreases |files|, 0
  {
    var e, later := Entry(files[0].name, ExtractUp(files[0].content).value), Eligible(files[1..]);
    EligibleCons(files, e);
    RunExtends(files[1..], fates[1..], applied, done + [e], 0);
    var m: nat :| Extends(files[1..], fates[1..], applied, done + [e], 0, m);
    assert RunFrom(files, fates, applied, done) == RunFrom(files[1..], fates[1..], applied, done + [e]);
    TakeCons(done, e, later, m);
    assert done + Eligible(files)[..0] == done && (done + [e]) + later[..0] == done + [e];
    assert Extends(files, fates, applied, done, 0, m + 1);
  }

  // ---------- when a run succeeds ----------

  /** The run applies file i. */
  predicate Attempts(files: seq<File>, applied: set<string>, i: nat)
    requires i < |files|
  {
    files[i].name !in applied && ExtractUp(files[i].content).Success? && ExtractUp(files[i].content).value != ""
  }

  predicate CrashesAt(files: seq<File>, applied: set<string>, i: nat)
    requires i < |files|
  {
    files[i].name !in applied && ExtractUp(files[i].content).Failure?
  }

  /** Nothing goes wrong with the first n files. */
  predicate GoesWell(files: seq<File>, fates: seq<Fate>, applied: set<string>, n: nat)
    requires n <= |files| == |fates|
  {
    forall i :: 0 <= i < n ==>
      !CrashesAt(files, applied, i) && (Attempts(files, applied, i) ==> fates[i] == Commits)
  }

  /** What the run applies of these files, in order. */
  function Pending(files: seq<File>, applied: set<string>): seq<Entry> {
    if files == [] then []
    else
      (if Attempts(files, applied, 0) then [Entry(files[0].name, ExtractUp(files[0].content).value)] else [])
      + Pending(files[1..], applied)
  }

  /** File n is the first with which something goes wrong; there is none if n is their number. */
  predicate StopsAt(files: seq<File>, fates: seq<Fate>, applied: set<string>, n: nat)
    requires n <= |files| == |fates|
  {
    && GoesWell(files, fates, applied, n)
    && (n < |files| ==> CrashesAt(files, applied, n) || (Attempts(files, applied, n) && fates[n] != Commits))
  }

  /** What file n leaves behind although the run stops there: a commit that went through unseen. */
  function Unseen(files: seq<File>, fates: seq<Fate>, applied: set<string>, n: nat): seq<Entry>
    requires n <= |files| == |fates|
  {
    if n < |files| && Attempts(files, applied, n) && fates[n] == CommitsUnseen
    then [Entry(files[n].name, ExtractUp(files[n].content).value)] else []
  }

  lemma RestStops(files: seq<File>, fates: seq<Fate>, applied: set<string>, n: nat)
    requires 0 < n <= |files| == |fates| && StopsAt(files, fates, applied, n)
    ensures StopsAt(files[1..], fates[1..], applied, n - 1)
    ensures Unseen(files[1..], fates[1..], applied, n - 1) == Unseen(files, fates, applied, n)
    ensures !CrashesAt(files, applied, 0) && (Attempts(files, applied, 0) ==> fates[0] == Commits)
  {
    var files', fates' := files[1..], fates[1..];
    forall i | 0 <= i < n - 1
      ensures !CrashesAt(files', applied, i) && (Attempts(files', applied, i) ==> fates'[i] == Commits)
    {
      assert CrashesAt(files', applied, i) == CrashesAt(files, applied, i + 1);
      assert Attempts(files', applied, i) == Attempts(files, applied, i + 1);
    }
  }

  lemma PendingCons(files: seq<File>, applied: set<string>, n: nat)
    requires 0 < n <= |files|
    ensures Pending(files[..n], applied) ==
            (if Attempts(files, applied, 0) then [Entry(files[0].name, ExtractUp(files[0].content).value)] else [])
            + Pending(files[1..][..n - 1], applied)
  {
    assert files[..n][1..] == files[1..][..n - 1];
  }

  lemma RunGoesOn(files: seq<File>, fates: seq<Fate>, applied: set<string>, log: seq<Entry>)
    requires files != [] && |fates| == |files|
    requires !CrashesAt(files, applied, 0) && (Attempts(files, applied, 0) ==> fates[0] == Commits)
    ensures RunFrom(files, fates, applied, log) == RunFrom(files[1..], fates[1..], applied, log
            + if Attempts(files, applied, 0) then [Entry(files[0].name, ExtractUp(files[0].content).value)] else [])
  {
    assert log + [] == log;
  }

  /** A run, from any log, succeeds if nothing goes wrong and has then applied everything; otherwise it
      fails at the first file with which something goes wrong and has applied what came before, and that
      file only if its commit went through unseen. */
  lemma {:induction false} RunIs(files: seq<File>, fates: seq<Fate>, applied: set<string>, log: seq<Entry>, n: nat)
    requires n <= |files| == |fates| && StopsAt(files, fates, applied, n)
    ensures RunFrom(files, fates, applied, log) ==
            Outcome(log + Pending(files[..n], applied) + Unseen(files, fates, applied, n), n == |files|)
    decreases n
  {
    if n == 0 {
      assert files[..0] == [] && log + [] == log;
    } else {
      RestStops(files, fates, applied, n);
      RunGoesOn(files, fates, applied, log);
      PendingCons(files, applied, n);
      var rest := Pending(files[1..][..n - 1], applied);
      var first := if Attempts(files, applied, 0)
                   then [Entry(files[0].name, ExtractUp(files[0].content).value)] else [];
      RunIs(files[1..], fates[1..], applied, log + first, n - 1);
      assert (log + first) + rest == log + (first + rest);
    }
  }

  lemma FirstFailure(files: seq<File>, fates: seq<Fate>, applied: set<string>, m: nat) returns (n: nat)
    requires m <= |files| == |fates| && GoesWell(files, fates, applied, m)
    ensures n <= |files| && StopsAt(files, fates, applied, n)
    decreases |files| - m
  {
    if m == |files| || CrashesAt(files, applied, m) || (Attempts(files, applied, m) && fates[m] != Commits) {
      n := m;
    } else {
      n := FirstFailure(files, fates, applied, m + 1);
    }
  }

  /** A run, from any log, succeeds if and only if extraction crashes on none of the files that are not
      applied yet and every file that it attempts commits. */
  lemma RunSucceedsIff(files: seq<File>, fates: seq<Fate>, log: seq<Entry>)
    requires |fates| == |files|
    ensures Run(files, fates, log).ok <==> GoesWell(files, fates, Versions(log), |files|)
  {
    var n := FirstFailure(files, fates, Versions(log), 0);
    RunIs(files, fates, Versions(log), log, n);
  }

  // ---------- any number of runs ----------

  /** One start of the server: the files it has embedded, and what becomes of its attempts. */
  datatype Start = Start(files: seq<File>, fates: seq<Fate>)

  predicate IsStart(s: Start) { |s.fates| == |s.files| && Distinct(s.files) }

  /** The log after a number of starts. */
  function LogAfter(starts: seq<Start>): seq<Entry>
    requires forall s :: s in starts ==> IsStart(s)
  {
    if starts == [] then []
    else
      var last := starts[|starts| - 1];
      assert last in starts && IsStart(last);
      Run(last.files, last.fates, LogAfter(starts[..|starts| - 1])).log
  }

  /** Each release has the migrations of the release before, and may add some at the end. */
  predicate OnlyAppends(starts: seq<Start>) {
    forall i :: 1 <= i < |starts| ==> Eligible(starts[i - 1].files) <= Eligible(starts[i].files)
  }

  lemma {:induction false} VersionsAreDistinct(files: seq<File>)
    requires Distinct(files)
    ensures forall i, j :: 0 <= i < j < |Eligible(files)| ==> Eligible(files)[i].version != Eligible(files)[j].version
    decreases |files|
  {
    if files != [] && ExtractUp(files[0].content).Success? {
      VersionsAreDistinct(files[1..]);
      var later := Eligible(files[1..]);
      FirstIsNotLater(files, |later|);
      assert later[..|later|] == later;
      forall j | 0 <= j < |later| ensures later[j].version != files[0].name {
        assert later[j] in later;
      }
    }
  }

  /** A log that is a prefix of the eligible migrations agrees with the files. */
  lemma PrefixAgrees(files: seq<File>, log: seq<Entry>)
    requires log <= Eligible(files)
    ensures Agrees(files, Versions(log), |log|)
  {
    assert Eligible(files)[..|log|] == log;
  }

  /** A run from a log that is a prefix of the eligible migrations leaves one that is as long or
      longer. */
  lemma RunKeepsPrefix(files: seq<File>, fates: seq<Fate>, log: seq<Entry>)
    requires |fates| == |files| && Distinct(files) && log <= Eligible(files)
    ensures log <= Run(files, fates, log).log <= Eligible(files)
    ensures AllCommit(fates) ==>
              Run(files, fates, log).log == Eligible(files) && (Run(files, fates, log).ok <==> NoCrash(files))
    ensures Run(files, fates, log).ok ==> Run(files, fates, log).log == Eligible(files) && NoCrash(files)
  {
    PrefixAgrees(files, log);
    RunExtends(files, fates, Versions(log), [], |log|);
    var k: nat :| Extends(files, fates, Versions(log), [], |log|, k);
    assert [] + Eligible(files)[..|log|] == log;
    assert [] + Eligible(files)[..k] == Eligible(files)[..k];
  }

  /** Over any number of starts from an empty table, each failing wherever it may, the committed
      migrations are always a prefix of the files with an Up section, in order, and none is
      applied twice. */
  lemma {:induction false} LogIsAPrefix(starts: seq<Start>)
    requires starts != [] && (forall s :: s in starts ==> IsStart(s)) && OnlyAppends(starts)
    ensures var files := starts[|starts| - 1].files;
            LogAfter(starts) <= Eligible(files)
    ensures forall i, j :: 0 <= i < j < |LogAfter(starts)| ==>
              LogAfter(starts)[i].version != LogAfter(starts)[j].version
    decreases |starts|
  {
    var n := |starts| - 1;
    var init, last := starts[..n], starts[n];
    assert last in starts;
    if n > 0 {
      LogIsAPrefix(init);
      assert Eligible(starts[n - 1].files) <= Eligible(starts[n].files);
    }
    RunKeepsPrefix(last.files, last.fates, LogAfter(init));
    VersionsAreDistinct(last.files);
  }

  /** A start in which nothing fails commits all of them, and reports success unless extraction
      crashes; after that a further start changes nothing, whatever would fail. */
  lemma CleanStartCompletes(starts: seq<Start>, files: seq<File>, fates: seq<Fate>, later: seq<Fate>)
    requires (forall s :: s in starts ==> IsStart(s)) && OnlyAppends(starts)
    requires |fates| == |files| == |later| && Distinct(files)
    requires starts != [] ==> Eligible(starts[|starts| - 1].files) <= Eligible(files)
    requires AllCommit(fates)
    ensures var out := Run(files, fates, LogAfter(starts));
            && out.log == Eligible(files)
            && (out.ok <==> NoCrash(files))
            && Run(files, later, out.log).log == out.log
  {
    if starts != [] {
      LogIsAPrefix(starts);
    }
    RunKeepsPrefix(files, fates, LogAfter(starts));
    RunKeepsPrefix(files, later, Eligible(files));
  }

  // ---------- the runner ----------

  class Database {
    var log: seq<Entry>

    constructor ()
      ensures log == []
    {
      log := [];
    }
  }

  method Migrate(db: Database, files: seq<File>, fates: seq<Fate>) returns (ok: bool)
    requires |fates| == |files|
    modifies db
    ensures Outcome(db.log, ok) == Run(files, fates, old(db.log))
    ensures ok <==> GoesWell(files, fates, Versions(old(db.log)), |files|)
    ensures Distinct(files) && old(db.log) <= Eligible(files) ==> old(db.log) <= db.log <= Eligible(files)
    ensures Distinct(files) && old(db.log) <= Eligible(files) && ok ==> db.log == Eligible(files)
  {
    RunSucceedsIff(files, fates, db.log);
    if Distinct(files) && db.log <= Eligible(files) {
      RunKeepsPrefix(files, fates, db.log);
    }
    var applied := Versions(db.log);
    for i := 0 to |files|
      invariant RunFrom(files[i..], fates[i..], applied, db.log) == Run(files, fates, old(db.log))
    {
      var filename := files[i].name;
      assert files[i..][1..] == files[i + 1..] && fates[i..][1..] == fates[i + 1..];
      if filename in applied {
        continue;
      }
      var extracted := ExtractUp(files[i].content);
      if extracted.Failure? {
        return false;
      }
      var sql := extracted.value;
      if sql == "" {
        continue;
      }
      if fates[i] == Fails {
        return false;
      }
      db.log := db.log + [Entry(filename, sql)];
      if fates[i] == CommitsUnseen {
        return false;
      }
    }
    return true;
  }
}
