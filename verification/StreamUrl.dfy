/** The URL of the master playlist that the API hands out, and whether the media server accepts it. */
module StreamUrl {
  import opened Wrappers
  import opened Text
  import opened Uri
  import opened JobTable
  import opened MediaSigner
  import opened SignedManifest
  import opened SignedPlayback

  /** The columns of a preset that matter for signing. */
  datatype Security = Security(signed: bool, expirySeconds: int)

  const DEFAULT_EXPIRY := 3600

  function Expiry(p: Security): (e: int)
    ensures e > 0
  {
    if p.expirySeconds <= 0 then DEFAULT_EXPIRY else p.expirySeconds
  }

  /** The preset of the first completed job whose preset is found. */
  function Deciding(jobs: seq<Job>, presets: map<PresetId, Security>): Option<Security> {
    if jobs == [] then None
    else if jobs[0].status == Completed && jobs[0].preset in presets then Some(presets[jobs[0].preset])
    else Deciding(jobs[1..], presets)
  }

  predicate MustSign(jobs: seq<Job>, presets: map<PresetId, Security>) {
    Deciding(jobs, presets).Some? && Deciding(jobs, presets).value.signed
  }

  function SignedUrl(signer: Signer, path: string, p: Security, now: int): string {
    path + "?" + SignQuery(signer, path, Expiry(p), now)
  }

  /** `jobs` is nothing when they cannot be read, `presets` holds those whose lookup succeeds. */
  method StreamURL(signer: Option<Signer>, playlist: Option<string>, jobs: Option<seq<Job>>,
                   presets: map<PresetId, Security>, now: int) returns (url: string)
    ensures playlist.None? ==> url == ""
    ensures playlist.Some? ==>
              url == if signer.Some? && playlist.value != "" && jobs.Some? && MustSign(jobs.value, presets)
                     then SignedUrl(signer.value, playlist.value, Deciding(jobs.value, presets).value, now)
                     else playlist.value
  {
    if playlist.None? || playlist.value == "" {
      return "";
    }
    var path := playlist.value;
    if signer.None? || jobs.None? {
      return path;
    }
    for k := 0 to |jobs.value|
      invariant Deciding(jobs.value, presets) == Deciding(jobs.value[k..], presets)
    {
      var job := jobs.value[k];
      assert jobs.value[k..][1..] == jobs.value[k + 1..];
      if job.status != Completed || job.preset !in presets {
        continue;
      }
      var preset := presets[job.preset];
      if preset.signed {
        var expiry := preset.expirySeconds;
        if expiry <= 0 {
          expiry := DEFAULT_EXPIRY;
        }
        return path + "?" + SignQuery(signer.value, path, expiry, now);
      }
      break;
    }
    return path;
  }

  lemma {:induction false} DecidingIsFirst(jobs: seq<Job>, presets: map<PresetId, Security>)
    ensures var d := Deciding(jobs, presets);
            if d.Some? then
              exists k :: 0 <= k < |jobs| && jobs[k].status == Completed && jobs[k].preset in presets
                          && d.value == presets[jobs[k].preset]
                          && forall j :: 0 <= j < k ==> jobs[j].status != Completed || jobs[j].preset !in presets
            else forall j :: 0 <= j < |jobs| ==> jobs[j].status != Completed || jobs[j].preset !in presets
  {
    if jobs != [] && !(jobs[0].status == Completed && jobs[0].preset in presets) {
      var rest := jobs[1..];
      DecidingIsFirst(rest, presets);
      assert forall j :: 1 <= j < |jobs| ==> jobs[j] == rest[j - 1];
      if Deciding(jobs, presets).Some? {
        var k :| 0 <= k < |rest| && rest[k].status == Completed && rest[k].preset in presets
                 && Deciding(rest, presets).value == presets[rest[k].preset]
                 && forall j :: 0 <= j < k ==> rest[j].status != Completed || rest[j].preset !in presets;
        assert jobs[k + 1] == rest[k];
      }
    }
  }

  // ---------- the server's side ----------

  lemma UrlParts(path: string, q: string)
    requires Free(path, {'?', '#'}) && Free(q, {'?', '#'})
    ensures PathPart("/" + path + "?" + q) == "/" + path && QueryPart("/" + path + "?" + q) == Some(q)
    ensures PathPart("/" + path) == "/" + path && QueryPart("/" + path) == None
  {
    var p, url := "/" + path, "/" + path + "?" + q;
    assert Free(p, {'?', '#'});
    FirstOfIs(url, {'?', '#'}, |p|);
    FirstOfIs(p, {'?', '#'}, |p|);
    FirstOfIs(q, {'#'}, |q|);
    assert url[..|p|] == p && url[|p| + 1..] == q && q[..|q|] == q && p[..|p|] == p;
  }

  /** For every stored path: the server reads the signed path from the URL if and only if the path has
      no question mark, hash or percent sign. */
  lemma StreamPathIff(path: string, q: string)
    requires Free(q, {'?', '#'})
    ensures ServedPath(PathPart("/" + path + "?" + q)) == Some(path) <==> Free(path, {'?', '#', '%'})
  {
    var url := "/" + path + "?" + q;
    if Free(path, {'?', '#', '%'}) {
      UrlParts(path, q);
      ServedUndecoded("/" + path);
    } else {
      ShorterPath(path, q);
    }
  }

  lemma ShorterPath(path: string, q: string)
    requires !Free(path, {'?', '#', '%'}) && Free(q, {'?', '#'})
    ensures ServedPath(PathPart("/" + path + "?" + q)) != Some(path)
  {
    var url := "/" + path + "?" + q;
    var p := PathPart(url);
    assert url[0] == '/';
    if ServedPath(p) == Some(path) {
      DecodedServed(p, path);
      UnescapeShortens(p[1..]);
      if Free(path, {'?', '#'}) {
        UrlParts(path, q);
      } else {
        PathIsCut(path, q);
      }
    }
  }

  lemma PathIsCut(path: string, q: string)
    requires !Free(path, {'?', '#'})
    ensures |PathPart("/" + path + "?" + q)| < |path| + 1
  {
    var url := "/" + path + "?" + q;
    var k :| 0 <= k < |path| && path[k] in {'?', '#'};
    assert url[k + 1] == path[k];
  }

  // ---------- which preset the server goes by ----------

  predicate Completes(job: Job, table: map<PresetId, Security>) {
    job.status == Completed && job.preset in table
  }

  /** What the server's lookup may return: the preset of any completed job, since its LIMIT 1 has no
      ORDER BY, or nothing if there is none or, with `joined` false, if the query fails. */
  ghost predicate MayPick(jobs: seq<Job>, table: map<PresetId, Security>, joined: bool, pick: Option<Security>) {
    match pick
    case Some(p) => joined && exists k :: 0 <= k < |jobs| && Completes(jobs[k], table) && p == table[jobs[k].preset]
    case None => !joined || forall k :: 0 <= k < |jobs| ==> !Completes(jobs[k], table)
  }

  predicate Enforces(pick: Option<Security>) { pick.Some? && pick.value.signed }

  /** A completed job has a preset that insists on signing. */
  predicate Insists(jobs: seq<Job>, table: map<PresetId, Security>) {
    exists k :: 0 <= k < |jobs| && Completes(jobs[k], table) && table[jobs[k].preset].signed
  }

  lemma SomePickEnforcesIff(jobs: seq<Job>, table: map<PresetId, Security>, joined: bool)
    ensures (exists pick :: MayPick(jobs, table, joined, pick) && Enforces(pick)) <==> joined && Insists(jobs, table)
    ensures exists pick :: MayPick(jobs, table, joined, pick)
  {
    if joined && Insists(jobs, table) {
      var k :| 0 <= k < |jobs| && Completes(jobs[k], table) && table[jobs[k].preset].signed;
      assert MayPick(jobs, table, joined, Some(table[jobs[k].preset]));
    } else if k :| joined && 0 <= k < |jobs| && Completes(jobs[k], table) {
      assert MayPick(jobs, table, joined, Some(table[jobs[k].preset]));
    } else {
      assert MayPick(jobs, table, joined, None);
    }
  }

  /** The URL that StreamURL hands out for a stored path; `found` holds the presets that it finds. */
  function HandedOut(signer: Signer, path: string, jobs: seq<Job>, found: map<PresetId, Security>, now: int): string {
    if MustSign(jobs, found) then SignedUrl(signer, path, Deciding(jobs, found).value, now) else path
  }

  predicate Answers(signer: Signer, url: string, pick: Option<Security>, now: int, answer: Response) {
    Serve(signer, Enforces(pick), PathPart("/" + url), QueryPart("/" + url), now) == answer
  }

  /** The URL is signed and still valid. */
  predicate Fresh(jobs: seq<Job>, found: map<PresetId, Security>, signedAt: int, later: int) {
    MustSign(jobs, found) && later <= signedAt + Expiry(Deciding(jobs, found).value)
  }

  lemma AnswerIs(signer: Signer, path: string, jobs: seq<Job>, found: map<PresetId, Security>, signedAt: int,
                 pick: Option<Security>, later: int)
    requires Free(path, {'?', '#', '%'}) && !Contains(path, "..")
    requires MustSign(jobs, found) ==> signedAt + Expiry(Deciding(jobs, found).value) > 0
    ensures Answers(signer, HandedOut(signer, path, jobs, found, signedAt), pick, later,
                    if !Enforces(pick) || Fresh(jobs, found, signedAt, later) then Granted(path) else Forbidden)
  {
    if MustSign(jobs, found) {
      SignedUrlServes(signer, path, Deciding(jobs, found).value, signedAt, Enforces(pick), later);
    } else {
      PlainUrlServes(signer, path, Enforces(pick), later);
    }
  }

  /** The URL handed out works whichever preset the server picks if and only if the server's query
      fails, or no completed job has a preset that insists on signing, or the first completed job
      whose preset is found has such a preset and the URL has not expired. */
  lemma StreamUrlPlaysIff(signer: Signer, path: string, jobs: seq<Job>, found: map<PresetId, Security>,
                          table: map<PresetId, Security>, joined: bool, signedAt: int, later: int)
    requires Free(path, {'?', '#', '%'}) && !Contains(path, "..")
    requires MustSign(jobs, found) ==> signedAt + Expiry(Deciding(jobs, found).value) > 0
    ensures (forall pick :: MayPick(jobs, table, joined, pick) ==>
               Answers(signer, HandedOut(signer, path, jobs, found, signedAt), pick, later, Granted(path)))
            <==> !joined || !Insists(jobs, table) || Fresh(jobs, found, signedAt, later)
  {
    var url := HandedOut(signer, path, jobs, found, signedAt);
    SomePickEnforcesIff(jobs, table, joined);
    forall pick | MayPick(jobs, table, joined, pick)
      ensures Answers(signer, url, pick, later, Granted(path)) <==>
              !Enforces(pick) || Fresh(jobs, found, signedAt, later)
    {
      AnswerIs(signer, path, jobs, found, signedAt, pick, later);
    }
  }

  /** If all completed jobs agree on signing and every preset is found, the URL works until it expires. */
  lemma UniformPresetsPlay(signer: Signer, path: string, jobs: seq<Job>, table: map<PresetId, Security>, joined: bool,
                           signedAt: int, later: int)
    requires Free(path, {'?', '#', '%'}) && !Contains(path, "..") && 0 <= signedAt
    requires forall i, j :: 0 <= i < j < |jobs| && Completes(jobs[i], table) && Completes(jobs[j], table) ==>
      table[jobs[i].preset].signed == table[jobs[j].preset].signed
    requires MustSign(jobs, table) ==> later <= signedAt + Expiry(Deciding(jobs, table).value)
    ensures forall pick :: MayPick(jobs, table, joined, pick) ==>
      Answers(signer, HandedOut(signer, path, jobs, table, signedAt), pick, later, Granted(path))
  {
    DecidingIsFirst(jobs, table);
    if Insists(jobs, table) {
      var k :| 0 <= k < |jobs| && Completes(jobs[k], table) && table[jobs[k].preset].signed;
      assert MustSign(jobs, table);
    }
    StreamUrlPlaysIff(signer, path, jobs, table, table, joined, signedAt, later);
  }

  /** They need not agree: the first completed job's preset does not insist on signing, the second one's
      does. The URL handed out is not signed, and is refused when the server picks the second. */
  lemma MixedPresetsRefuse(signer: Signer, path: string, now: int)
    requires Free(path, {'?', '#', '%'}) && !Contains(path, "..")
    ensures var table := map[0 := Security(false, 0), 1 := Security(true, 0)];
            var jobs := [Job(0, 0, Completed, 100.0, 1, 3, true, 0), Job(0, 1, Completed, 100.0, 1, 3, true, 1)];
            && HandedOut(signer, path, jobs, table, now) == path
            && MayPick(jobs, table, true, Some(table[1]))
            && Answers(signer, path, Some(table[1]), now, Forbidden)
  {
    var table := map[0 := Security(false, 0), 1 := Security(true, 0)];
    var jobs := [Job(0, 0, Completed, 100.0, 1, 3, true, 0), Job(0, 1, Completed, 100.0, 1, 3, true, 1)];
    assert Completes(jobs[1], table) && table[1] == table[jobs[1].preset];
    assert Deciding(jobs, table) == Some(table[0]);
    AnswerIs(signer, path, jobs, table, now, Some(table[1]), now);
  }

  /** Signatures are checked at all if and only if the query works and a completed job has a preset that
      insists on them: otherwise every path without two dots in a row is granted to everybody. */
  lemma UnsignedIsRefusedIff(signer: Signer, path: string, jobs: seq<Job>, table: map<PresetId, Security>, joined: bool,
                             now: int)
    requires Free(path, {'?', '#', '%'}) && !Contains(path, "..")
    ensures (exists pick :: MayPick(jobs, table, joined, pick) && Answers(signer, path, pick, now, Forbidden)) <==>
            joined && Insists(jobs, table)
    ensures (exists pick :: MayPick(jobs, table, joined, pick) && !Answers(signer, path, pick, now, Granted(path))) <==>
            joined && Insists(jobs, table)
  {
    SomePickEnforcesIff(jobs, table, joined);
    forall pick
      ensures Answers(signer, path, pick, now, if Enforces(pick) then Forbidden else Granted(path))
    {
      PlainUrlServes(signer, path, Enforces(pick), now);
    }
  }

  lemma SignedUrlServes(signer: Signer, path: string, p: Security, signedAt: int, enforced: bool, later: int)
    requires Free(path, {'?', '#', '%'}) && !Contains(path, "..") && signedAt + Expiry(p) > 0
    ensures var url := "/" + SignedUrl(signer, path, p, signedAt);
            Serve(signer, enforced, PathPart(url), QueryPart(url), later) ==
            if !enforced || later <= signedAt + Expiry(p) then Granted(path) else Forbidden
  {
    SignedUrlParts(signer, path, p, signedAt);
    SignedQueryServes(signer, path, Expiry(p), signedAt, later);
    ServedUndecoded("/" + path);
  }

  /** A signed URL lasts as long as its preset says, or an hour where the preset says nothing. */
  lemma UrlLastsAsConfigured(signer: Signer, path: string, p: Security, signedAt: int, later: int)
    requires Free(path, {'?', '#', '%'}) && !Contains(path, "..") && signedAt >= 0
    ensures var url := "/" + SignedUrl(signer, path, p, signedAt);
            Serve(signer, true, PathPart(url), QueryPart(url), later) == Granted(path) <==>
            later <= signedAt + if p.expirySeconds > 0 then p.expirySeconds else 3600
  {
    SignedUrlServes(signer, path, p, signedAt, true, later);
  }

  lemma SignedUrlParts(signer: Signer, path: string, p: Security, signedAt: int)
    requires Free(path, {'?', '#'})
    ensures var url := "/" + SignedUrl(signer, path, p, signedAt);
            PathPart(url) == "/" + path && QueryPart(url) == Some(SignQuery(signer, path, Expiry(p), signedAt))
  {
    var q := SignQuery(signer, path, Expiry(p), signedAt);
    QueryShape(signer, path, Expiry(p), signedAt);
    UrlParts(path, q);
    assert "/" + (path + "?" + q) == "/" + path + "?" + q;
  }

  lemma PlainUrlServes(signer: Signer, path: string, enforced: bool, later: int)
    requires Free(path, {'?', '#', '%'}) && !Contains(path, "..")
    ensures var url := "/" + path;
            Serve(signer, enforced, PathPart(url), QueryPart(url), later) ==
            if enforced then Forbidden else Granted(path)
  {
    UrlParts(path, "");
    ServedUndecoded("/" + path);
    assert QueryGet("", "sig") == "";
  }
}
