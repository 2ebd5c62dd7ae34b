/** The master playlist of a video, and the paths on which playlist, transcoder and server agree. */
module MasterPlaylist {
  import opened Wrappers
  import opened Text
  import opened Uri
  import opened JobTable
  import MediaSigner
  import opened SignedManifest
  import opened SignedPlayback

  // ---------- building the playlist ----------

  datatype Resolution = Resolution(width: int, height: int)

  /** `legacy` holds the width and height columns from before presets had several resolutions. */
  datatype Preset = Preset(resolutions: seq<Resolution>, legacy: Resolution, bitrate: string)

  function Effective(p: Preset): (rs: seq<Resolution>)
    ensures rs != []
  {
    if p.resolutions == [] then [p.legacy] else p.resolutions
  }

  datatype Variant = Variant(bandwidth: int, width: int, height: int, uri: string)

  /** fmt.Sscanf with %d into a zero value. */
  function ScanInt(s: string): int {
    if s != "" && (s[0] == ' ' || s[0] == '\t') then ScanInt(s[1..])
    else if s != "" && s[0] == '-' then 0 - Number(LeadingDigits(s[1..]))
    else if s != "" && s[0] == '+' then Number(LeadingDigits(s[1..]))
    else Number(LeadingDigits(s))
  }

  function ParseBitrate(s: string): int {
    ScanInt(TrimSuffix(TrimSuffix(s, "k"), "K")) * 1000
  }

  /** What the playlist lists for a height: the folder is named after it. */
  function VariantUri(height: int): string {
    Itoa(height) + "/playlist.m3u8"
  }

  function VariantOf(p: Preset, r: Resolution): Variant {
    Variant(ParseBitrate(p.bitrate), r.width, r.height, VariantUri(r.height))
  }

  function VariantsOfPreset(p: Preset, rs: seq<Resolution>): (vs: seq<Variant>)
    ensures |vs| == |rs| && forall i :: 0 <= i < |rs| ==> vs[i] == VariantOf(p, rs[i])
  {
    if rs == [] then [] else VariantsOfPreset(p, rs[..|rs| - 1]) + [VariantOf(p, rs[|rs| - 1])]
  }

  predicate Contributes(job: Job, presets: map<PresetId, Preset>) {
    job.status == Completed && job.hasOutput && job.preset in presets
  }

  function VariantsOfJob(job: Job, presets: map<PresetId, Preset>): seq<Variant> {
    if Contributes(job, presets) then VariantsOfPreset(presets[job.preset], Effective(presets[job.preset])) else []
  }

  function FlatMap<T, U>(f: T -> seq<U>, xs: seq<T>): seq<U> {
    if xs == [] then [] else FlatMap(f, xs[..|xs| - 1]) + f(xs[|xs| - 1])
  }

  function Variants(jobs: seq<Job>, presets: map<PresetId, Preset>): seq<Variant> {
    FlatMap((job: Job) => VariantsOfJob(job, presets), jobs)
  }

  const HEADER := "#EXTM3U\n#EXT-X-VERSION:3\n"
  const STREAM_INF := "#EXT-X-STREAM-INF:BANDWIDTH="
  const RESOLUTION := ",RESOLUTION="

  function RenderVariant(v: Variant): string {
    STREAM_INF + Itoa(v.bandwidth) + RESOLUTION + Itoa(v.width) + "x" + Itoa(v.height) + "\n" + v.uri + "\n"
  }

  function RenderMany<T>(render: T -> string, xs: seq<T>): string {
    if xs == [] then "" else RenderMany(render, xs[..|xs| - 1]) + render(xs[|xs| - 1])
  }

  function RenderVariants(vs: seq<Variant>): string {
    RenderMany(RenderVariant, vs)
  }

  /** The variants of all completed jobs. The jobs come from GetByVideoID, the presets from one
      lookup each. */
  method CollectVariants(jobs: seq<Job>, presets: map<PresetId, Preset>) returns (variants: seq<Variant>)
    ensures variants == Variants(jobs, presets)
  {
    variants := [];
    for j := 0 to |jobs|
      invariant variants == Variants(jobs[..j], presets)
    {
      var job := jobs[j];
      assert jobs[..j + 1][..j] == jobs[..j];
      if job.status != Completed || !job.hasOutput || job.preset !in presets {
        assert VariantsOfJob(job, presets) == [];
        continue;
      }
      var preset := presets[job.preset];
      var more := PresetVariants(preset);
      variants := variants + more;
    }
    assert jobs[..|jobs|] == jobs;
  }

  /** The inner loop, over the resolutions of one preset. */
  method PresetVariants(preset: Preset) returns (variants: seq<Variant>)
    ensures variants == VariantsOfPreset(preset, Effective(preset))
    ensures |variants| == if preset.resolutions == [] then 1 else |preset.resolutions|
    ensures forall i :: 0 <= i < |variants| ==>
              var r := if preset.resolutions == [] then preset.legacy else preset.resolutions[i];
              && variants[i].width == r.width && variants[i].height == r.height
              && variants[i].bandwidth == ParseBitrate(preset.bitrate)
  {
    var bw := ParseBitrate(preset.bitrate);
    var resolutions := preset.resolutions;
    if |resolutions| == 0 {
      resolutions := [preset.legacy];
    }
    variants := [];
    for i := 0 to |resolutions|
      invariant variants == VariantsOfPreset(preset, resolutions[..i])
    {
      var res := resolutions[i];
      assert resolutions[..i + 1][..i] == resolutions[..i];
      variants := variants + [Variant(bw, res.width, res.height, VariantUri(res.height))];
    }
    assert resolutions[..|resolutions|] == resolutions;
  }

  lemma RenderOfAppend<T>(render: T -> string, xs: seq<T>, k: nat)
    requires k < |xs|
    ensures RenderMany(render, xs[..k + 1]) == RenderMany(render, xs[..k]) + render(xs[k])
  {
    assert xs[..k + 1][..k] == xs[..k];
  }

  method GenerateMasterPlaylist(jobs: seq<Job>, presets: map<PresetId, Preset>) returns (playlist: string)
    ensures playlist == HEADER + RenderVariants(Variants(jobs, presets))
    ensures ParseMaster(playlist) == Some(Variants(jobs, presets))
    ensures HasPrefix(playlist, "#EXTM3U\n")
  {
    var variants := CollectVariants(jobs, presets);
    var entries := "";
    for k := 0 to |variants|
      invariant entries == RenderMany(RenderVariant, variants[..k])
    {
      RenderOfAppend(RenderVariant, variants, k);
      entries := entries + RenderVariant(variants[k]);
    }
    assert variants[..|variants|] == variants;
    playlist := HEADER + entries;
    VariantsAreGood(jobs, presets);
    PlaylistIsParsed(variants);
  }

  // ---------- reading it back ----------

  /** A line without its newline, and the text after it. */
  function Cut(s: string, at: char): Option<(string, string)> {
    var i := FirstOf(s, {at});
    if i < |s| then Some((s[..i], s[i + 1..])) else None
  }

  /** One variant as section 4.3.4.2 of RFC 8216 lays it out: a tag with its attributes, and the URI
      on the next line. */
  function ParseVariant(s: string): Option<(Variant, string)> {
    if !HasPrefix(s, "#EXT-X-STREAM-INF:BANDWIDTH=") then None else
    var bandwidth := Cut(s[28..], ',');
    if bandwidth.None? || !HasPrefix(bandwidth.value.1, "RESOLUTION=") then None else
    var width := Cut(bandwidth.value.1[11..], 'x');
    if width.None? then None else
    var height := Cut(width.value.1, '\n');
    if height.None? then None else
    var uri := Cut(height.value.1, '\n');
    if uri.None? then None else
    Some((Variant(Atoi(bandwidth.value.0), Atoi(width.value.0), Atoi(height.value.0), uri.value.0), uri.value.1))
  }

  /** Items one after the other until the text is used up. */
  function ParseMany<T>(parse: string -> Option<(T, string)>, s: string): Option<seq<T>>
    decreases |s|
  {
    if s == "" then Some([]) else
    var first := parse(s);
    if first.None? || |first.value.1| >= |s| then None else
    var rest := ParseMany(parse, first.value.1);
    if rest.None? then None else Some([first.value.0] + rest.value)
  }

  function ParseMaster(s: string): Option<seq<Variant>> {
    if HasPrefix(s, "#EXTM3U\n#EXT-X-VERSION:3\n") then ParseMany(ParseVariant, s[|HEADER|..]) else None
  }

  lemma CutAt(s: string, at: char, rest: string)
    requires forall i :: 0 <= i < |s| ==> s[i] != at
    ensures Cut(s + [at] + rest, at) == Some((s, rest))
  {
    var all := s + [at] + rest;
    FirstOfIs(all, {at}, |s|);
    assert all[..|s|] == s && all[|s| + 1..] == rest;
  }

  predicate Good(v: Variant) { forall i :: 0 <= i < |v.uri| ==> v.uri[i] != '\n' }

  lemma FieldsAreParsed(b: string, w: string, h: string, uri: string, rest: string)
    requires Free(b, {','}) && Free(w, {'x'}) && Free(h, {'\n'}) && Free(uri, {'\n'})
    ensures var dimensions := w + ['x'] + (h + ['\n'] + (uri + ['\n'] + rest));
            var text := STREAM_INF + (b + [','] + (RESOLUTION[1..] + dimensions));
            ParseVariant(text) == Some((Variant(Atoi(b), Atoi(w), Atoi(h), uri), rest))
  {
    var afterH := uri + ['\n'] + rest;
    var afterW := h + ['\n'] + afterH;
    var afterR := w + ['x'] + afterW;
    var afterB := RESOLUTION[1..] + afterR;
    var text := b + [','] + afterB;
    var s := STREAM_INF + text;
    assert s[28..] == text && s[..28] == STREAM_INF;
    CutAt(b, ',', afterB);
    assert afterB[11..] == afterR && afterB[..11] == RESOLUTION[1..];
    CutAt(w, 'x', afterW);
    CutAt(h, '\n', afterH);
    CutAt(uri, '\n', rest);
  }

  lemma VariantIsParsed(v: Variant, rest: string)
    requires Good(v)
    ensures ParseVariant(RenderVariant(v) + rest) == Some((v, rest))
  {
    VariantText(v, rest);
    FieldsAreParsed(Itoa(v.bandwidth), Itoa(v.width), Itoa(v.height), v.uri, rest);
    AtoiOfItoa(v.bandwidth);
    AtoiOfItoa(v.width);
    AtoiOfItoa(v.height);
  }

  lemma VariantText(v: Variant, rest: string)
    ensures RenderVariant(v) + rest ==
            STREAM_INF + (Itoa(v.bandwidth) + [','] + (RESOLUTION[1..] + (Itoa(v.width) + ['x']
            + (Itoa(v.height) + ['\n'] + (v.uri + ['\n'] + rest)))))
  {
    assert RESOLUTION == [','] + RESOLUTION[1..];
    TextInPieces(STREAM_INF, Itoa(v.bandwidth), RESOLUTION[1..], Itoa(v.width), Itoa(v.height), v.uri, rest);
    assert Itoa(v.bandwidth) + RESOLUTION == Itoa(v.bandwidth) + [','] + RESOLUTION[1..];
  }

  lemma TextInPieces(tag: string, b: string, attr: string, w: string, h: string, uri: string, rest: string)
    ensures tag + b + ([','] + attr) + w + "x" + h + "\n" + uri + "\n" + rest ==
            tag + (b + [','] + (attr + (w + ['x'] + (h + ['\n'] + (uri + ['\n'] + rest)))))
  {
  }

  lemma {:induction false} RenderFromFront<T>(render: T -> string, xs: seq<T>)
    requires xs != []
    ensures RenderMany(render, xs) == render(xs[0]) + RenderMany(render, xs[1..])
    decreases |xs|
  {
    var n := |xs| - 1;
    if n > 0 {
      RenderFromFront(render, xs[..n]);
      assert xs[..n][1..] == xs[1..][..n - 1];
    } else {
      assert xs[..0] == [] && xs[1..] == [];
    }
  }

  /** Every item is read back from the front of any text. */
  ghost predicate ReadsBack<T(!new)>(parse: string -> Option<(T, string)>, render: T -> string, x: T) {
    render(x) != "" && forall rest :: parse(render(x) + rest) == Some((x, rest))
  }

  /** If every item is read back from the front of a text, so is a whole sequence. */
  lemma {:induction false} ManyAreParsed<T(!new)>(parse: string -> Option<(T, string)>, render: T -> string, xs: seq<T>)
    requires forall x :: x in xs ==> ReadsBack(parse, render, x)
    ensures ParseMany(parse, RenderMany(render, xs)) == Some(xs)
    decreases |xs|
  {
    if xs != [] {
      RenderFromFront(render, xs);
      var rest := RenderMany(render, xs[1..]);
      assert ReadsBack(parse, render, xs[0]);
      ManyAreParsed(parse, render, xs[1..]);
      assert [xs[0]] + xs[1..] == xs;
    }
  }

  lemma VariantReadsBack(v: Variant)
    requires Good(v)
    ensures ReadsBack(ParseVariant, RenderVariant, v)
  {
    forall rest ensures ParseVariant(RenderVariant(v) + rest) == Some((v, rest)) {
      VariantIsParsed(v, rest);
    }
  }

  /** Parsing the printed playlist recovers its variants, in order. */
  lemma PlaylistIsParsed(vs: seq<Variant>)
    requires forall k :: 0 <= k < |vs| ==> Good(vs[k])
    ensures ParseMaster(HEADER + RenderVariants(vs)) == Some(vs)
  {
    forall v | v in vs ensures ReadsBack(ParseVariant, RenderVariant, v) {
      VariantReadsBack(v);
    }
    ManyAreParsed(ParseVariant, RenderVariant, vs);
    assert (HEADER + RenderVariants(vs))[|HEADER|..] == RenderVariants(vs);
  }

  lemma NoNewline(h: string, file: string)
    requires Free(h, {'\n'}) && Free(file, {'\n'})
    ensures Free(h + "/" + file, {'\n'})
  {
  }

  lemma VariantIsGood(p: Preset, r: Resolution)
    ensures Good(VariantOf(p, r))
  {
    VariantUriIs(r.height);
    NoNewline(Itoa(r.height), "playlist.m3u8");
  }

  lemma VariantsAreGood(jobs: seq<Job>, presets: map<PresetId, Preset>)
    ensures forall k :: 0 <= k < |Variants(jobs, presets)| ==> Good(Variants(jobs, presets)[k])
  {
    var f := (job: Job) => VariantsOfJob(job, presets);
    FlatMapMembers(f, jobs);
    forall k | 0 <= k < |FlatMap(f, jobs)| ensures Good(FlatMap(f, jobs)[k]) {
      var v := FlatMap(f, jobs)[k];
      assert v in FlatMap(f, jobs);
      var j :| 0 <= j < |jobs| && v in f(jobs[j]);
      var p := presets[jobs[j].preset];
      var i :| 0 <= i < |Effective(p)| && v == VariantOf(p, Effective(p)[i]);
      VariantIsGood(p, Effective(p)[i]);
    }
  }

  // ---------- one variant for each completed job and resolution ----------

  function Total<T, U>(f: T -> seq<U>, xs: seq<T>): nat {
    if xs == [] then 0 else Total(f, xs[..|xs| - 1]) + |f(xs[|xs| - 1])|
  }

  lemma {:induction false} FlatMapMembers<T, U>(f: T -> seq<U>, xs: seq<T>)
    ensures |FlatMap(f, xs)| == Total(f, xs)
    ensures forall y :: y in FlatMap(f, xs) <==> exists j :: 0 <= j < |xs| && y in f(xs[j])
    decreases |xs|
  {
    if xs != [] {
      var n := |xs| - 1;
      FlatMapMembers(f, xs[..n]);
      assert forall j :: 0 <= j < n ==> xs[..n][j] == xs[j];
    }
  }

  /** The playlist has one variant for each resolution of each completed job that has an output and
      whose preset was found, and no others. */
  lemma OneVariantEach(jobs: seq<Job>, presets: map<PresetId, Preset>)
    ensures |Variants(jobs, presets)| ==
            Total((job: Job) => if Contributes(job, presets) then Effective(presets[job.preset]) else [], jobs)
    ensures forall v :: v in Variants(jobs, presets) <==>
              exists j :: 0 <= j < |jobs| && v in VariantsOfJob(jobs[j], presets)
    ensures forall j, v :: 0 <= j < |jobs| ==>
              (v in VariantsOfJob(jobs[j], presets) <==>
               && jobs[j].status == Completed && jobs[j].hasOutput && jobs[j].preset in presets
               && exists i :: 0 <= i < |Effective(presets[jobs[j].preset])|
                              && v == VariantOf(presets[jobs[j].preset], Effective(presets[jobs[j].preset])[i]))
  {
    var f := (job: Job) => VariantsOfJob(job, presets);
    var g := (job: Job) => if Contributes(job, presets) then Effective(presets[job.preset]) else [];
    FlatMapMembers(f, jobs);
    SameTotal(f, g, jobs);
    forall v
      ensures v in Variants(jobs, presets) <==> exists j :: 0 <= j < |jobs| && v in VariantsOfJob(jobs[j], presets)
    {
      assert forall j :: 0 <= j < |jobs| ==> f(jobs[j]) == VariantsOfJob(jobs[j], presets);
    }
  }

  lemma {:induction false} SameTotal<T(!new), U, V>(f: T -> seq<U>, g: T -> seq<V>, xs: seq<T>)
    requires forall x :: |f(x)| == |g(x)|
    ensures Total(f, xs) == Total(g, xs)
    decreases |xs|
  {
    if xs != [] {
      SameTotal(f, g, xs[..|xs| - 1]);
    }
  }

  // ---------- bit rates ----------

  predicate NoDigitFirst(unit: string) { unit != "" ==> !IsDigit(unit[0]) }

  lemma TrimKeepsNumber(d: string, unit: string, c: char)
    requires d != "" && AllDigits(d) && !IsDigit(c) && NoDigitFirst(unit)
    ensures exists u :: TrimSuffix(d + unit, [c]) == d + u && NoDigitFirst(u)
  {
    var s := d + unit;
    assert unit == "" ==> AllDigits(s);
    if HasSuffix(s, [c]) {
      assert s[|s| - 1..][0] == s[|s| - 1] == c;
      var u := unit[..|unit| - 1];
      assert s[..|s| - 1] == d + u && NoDigitFirst(u);
    } else {
      assert TrimSuffix(s, [c]) == d + unit && NoDigitFirst(unit);
    }
  }

  lemma ScanDigits(d: string, u: string)
    requires d != "" && AllDigits(d) && (u != "" ==> !IsDigit(u[0]))
    ensures ScanInt(d + u) == Number(d)
  {
    LeadingDigitsOf(d, u);
    assert (d + u)[0] == d[0];
  }

  /** A bit rate is read in kilobits whatever its unit: the suffix only ends the number. */
  lemma BitrateIsKilobits(n: nat, unit: string)
    requires NoDigitFirst(unit)
    ensures ParseBitrate(Decimal(n) + unit) == 1000 * n
  {
    var d := Decimal(n);
    TrimKeepsNumber(d, unit, 'k');
    var u :| TrimSuffix(d + unit, ['k']) == d + u && NoDigitFirst(u);
    TrimKeepsNumber(d, u, 'K');
    var u' :| TrimSuffix(d + u, ['K']) == d + u' && NoDigitFirst(u');
    ScanDigits(d, u');
  }

  /** What a bit rate means to FFmpeg: bits per second with an SI prefix. */
  function RateOf(n: nat, unit: string): Option<nat> {
    if unit == "" then Some(n)
    else if unit == "k" || unit == "K" then Some(1_000 * n)
    else if unit == "M" then Some(1_000_000 * n)
    else if unit == "G" then Some(1_000_000_000 * n)
    else None
  }

  /** The bandwidth advertised is the one the preset is encoded with if and only if the rate is given
      in kilobits, or is 0. */
  lemma BitrateIsRightIff(n: nat, unit: string)
    requires RateOf(n, unit).Some?
    ensures ParseBitrate(Decimal(n) + unit) == RateOf(n, unit).value <==> unit == "k" || unit == "K" || n == 0
  {
    KilobitsAreMeantIff(n, unit);
    BitrateIsKilobits(n, unit);
  }

  lemma KilobitsAreMeantIff(n: nat, unit: string)
    requires RateOf(n, unit).Some?
    ensures NoDigitFirst(unit)
    ensures RateOf(n, unit) == Some(1000 * n) <==> unit == "k" || unit == "K" || n == 0
  {
  }

  lemma FiveMegabits()
    ensures ParseBitrate("5M") == 5_000 && RateOf(5, "M") == Some(5_000_000)
  {
    assert "5" == Decimal(5);
    assert "5M" == Decimal(5) + "M";
    BitrateIsKilobits(5, "M");
  }

  // ---------- paths ----------

  predicate IsUuidChar(c: char) { '0' <= c <= '9' || 'a' <= c <= 'f' || c == '-' }

  /** The text of a UUID. */
  predicate IsUuid(id: string) {
    && |id| == 36
    && (forall i :: 0 <= i < 36 ==> IsUuidChar(id[i]))
    && (forall i :: 0 <= i < 36 ==> (id[i] == '-' <==> i in {8, 13, 18, 23}))
  }

  /** The first eight hexadecimal digits of a hash. */
  predicate IsHash8(h: string) {
    |h| == 8 && forall i :: 0 <= i < 8 ==> IsUuidChar(h[i]) && h[i] != '-'
  }

  function VideoOutputDir(hash8: string, id: string): string {
    "transcoded/" + hash8 + "_" + id
  }

  /** Where Transcode puts the media playlist of one resolution. */
  function RenditionPath(hash8: string, id: string, height: int): string {
    VideoOutputDir(hash8, id) + "/" + Itoa(height) + "/playlist.m3u8"
  }

  function MasterPath(hash8: string, id: string): string {
    VideoOutputDir(hash8, id) + "/playlist.m3u8"
  }

  /** videoIDRegex: transcoded/, eight hexadecimal digits, an underscore, 36 characters, a slash. */
  function VideoIdOf(path: string): Option<string> {
    if && "transcoded/" <= path && |path| > 56
       && (forall i :: 11 <= i < 19 ==> IsUuidChar(path[i]) && path[i] != '-')
       && path[19] == '_'
       && (forall i :: 20 <= i < 56 ==> IsUuidChar(path[i]))
       && path[56] == '/'
    then Some(path[20..56]) else None
  }

  lemma IdIsTaken(hash8: string, id: string, rest: string)
    requires IsHash8(hash8) && IsIdText(id)
    ensures VideoIdOf(VideoOutputDir(hash8, id) + "/" + rest) == Some(id)
  {
    var path := VideoOutputDir(hash8, id) + "/" + rest;
    assert forall i :: 11 <= i < 19 ==> path[i] == hash8[i - 11];
    assert forall i :: 20 <= i < 56 ==> path[i] == id[i - 20];
    assert path[..11] == "transcoded/";
    assert path[20..56] == id;
  }

  /** The server recovers the video from every path in its directory. */
  lemma VideoIdIsRecovered(hash8: string, id: string, rest: string)
    requires IsHash8(hash8) && IsUuid(id)
    ensures VideoIdOf(VideoOutputDir(hash8, id) + "/" + rest) == Some(id)
  {
    IdIsTaken(hash8, id, rest);
  }

  predicate IsIdText(id: string) { |id| == 36 && forall i :: 0 <= i < 36 ==> IsUuidChar(id[i]) }

  /** The exact shape of the paths from which the pattern takes an ID: the hash is not checked against
      the ID, nor are the places of the dashes. */
  lemma VideoIdIff(path: string, id: string)
    ensures VideoIdOf(path) == Some(id) <==>
            IsIdText(id) && exists hash8, rest :: IsHash8(hash8) && path == VideoOutputDir(hash8, id) + "/" + rest
  {
    if VideoIdOf(path) == Some(id) {
      var hash8, rest := path[11..19], path[57..];
      assert forall i :: 0 <= i < 36 ==> id[i] == path[20 + i];
      assert forall i :: 0 <= i < 8 ==> hash8[i] == path[11 + i];
      PathInPieces(path);
      assert path == VideoOutputDir(hash8, id) + "/" + rest;
    }
    if IsIdText(id) && exists hash8, rest :: IsHash8(hash8) && path == VideoOutputDir(hash8, id) + "/" + rest {
      var hash8, rest :| IsHash8(hash8) && path == VideoOutputDir(hash8, id) + "/" + rest;
      IdIsTaken(hash8, id, rest);
    }
  }

  lemma PathInPieces(path: string)
    requires "transcoded/" <= path && |path| > 56 && path[19] == '_' && path[56] == '/'
    ensures path == "transcoded/" + path[11..19] + "_" + path[20..56] + "/" + path[57..]
  {
    assert path[..11] == "transcoded/";
    assert path == path[..11] + path[11..19] + [path[19]] + path[20..56] + [path[56]] + path[57..];
  }

  /** The embed handler builds transcoded/<id>/<file>, without the hash: for no video is that a path
      in the directory of any video. */
  lemma EmbedPathMisses(id: string, file: string, hash8: string, other: string, rest: string)
    requires IsUuid(id) && IsUuid(other) && IsHash8(hash8)
    ensures "transcoded/" + id + "/" + file != VideoOutputDir(hash8, other) + "/" + rest
    ensures VideoIdOf("transcoded/" + id + "/" + file) == None
  {
    var embed, stored := "transcoded/" + id + "/" + file, VideoOutputDir(hash8, other) + "/" + rest;
    assert embed[19] == id[8] == '-';
    assert stored[19] == '_';
  }

  lemma PairOccurs(s: string, j: int)
    requires 0 <= j && j + 2 <= |s|
    ensures OccursAt(s, "//", j) <==> s[j] == '/' && s[j + 1] == '/'
    ensures OccursAt(s, "..", j) <==> s[j] == '.' && s[j + 1] == '.'
  {
    assert s[j..j + 2] == [s[j], s[j + 1]];
  }

  /** One folder under another, each a single segment, is a clean directory. */
  lemma FolderInFolder(top: string, leaf: string)
    requires top != "" && leaf != "" && Free(top, {'/', '?', '#', '%', '.'}) && Free(leaf, {'/', '?', '#', '%', '.'})
    ensures CleanDir(top + "/" + leaf) && Free(top + "/" + leaf, {'.'})
  {
    SingleSegment(leaf);
    SingleSegment(top);
    DotFreeJoin(top, leaf);
    var all := "/" + (top + "/" + leaf) + "/";
    var n, m := 1 + |top|, 2 + |top| + |leaf|;
    assert forall i :: 1 <= i < n ==> all[i] == top[i - 1];
    assert forall i :: n < i < m ==> all[i] == leaf[i - n - 1];
    assert |all| == m + 1;
    forall j ensures !OccursAt(all, "//", j) {
      if 0 <= j && j + 2 <= |all| {
        PairOccurs(all, j);
      }
    }
  }

  lemma OutputDirIsClean(hash8: string, id: string)
    requires IsHash8(hash8) && IsUuid(id)
    ensures CleanDir(VideoOutputDir(hash8, id)) && Free(VideoOutputDir(hash8, id), {'.'})
  {
    var leaf := hash8 + "_" + id;
    assert forall i :: 0 <= i < |leaf| ==> IsUuidChar(leaf[i]) || leaf[i] == '_';
    FolderInFolder("transcoded", leaf);
    assert VideoOutputDir(hash8, id) == "transcoded" + "/" + leaf;
  }

  lemma TwoSegmentsArePlain(h: string, file: string)
    requires h != "" && Free(h, {'/', '?', '#', '%', ':', '.'})
    requires !IsDots(file) && Free(file, {'/', '?', '#', '%', ':'})
    ensures Plain(h + "/" + file)
  {
    var ref := h + "/" + file;
    SingleSegment(h);
    SingleSegment(file);
    DotFreeJoin(h, file);
    FirstOfIs(ref, {':', '/', '?', '#'}, |h|);
    assert ref[0] == h[0];
    assert Free(ref, {'?', '#', '%', ':'});
    forall j ensures !OccursAt(ref, "://", j) {
      FirstChar(ref, "://", j);
    }
  }

  lemma VariantUriIsPlain(height: int)
    ensures Plain(VariantUri(height)) && VariantUri(height)[0] != '#' && Trimmed(VariantUri(height))
  {
    var h, file := Itoa(height), "playlist.m3u8";
    VariantUriIs(height);
    assert forall i :: 0 <= i < |h| ==> IsDigit(h[i]) || h[i] == '-';
    TwoSegmentsArePlain(h, file);
    TwoSegmentsAreTrimmed(h, file);
  }

  lemma VariantUriIs(height: int)
    ensures VariantUri(height) == Itoa(height) + "/" + "playlist.m3u8"
  {
  }

  lemma TwoSegmentsAreTrimmed(h: string, file: string)
    requires h != "" && file != "" && !IsSpace(h[0]) && h[0] != '#' && !IsSpace(file[|file| - 1])
    ensures Trimmed(h + "/" + file) && (h + "/" + file)[0] != '#'
  {
    var s := h + "/" + file;
    assert s[0] == h[0] && s[|s| - 1] == file[|file| - 1];
  }

  lemma MasterPathIs(hash8: string, id: string, height: int)
    ensures MasterPath(hash8, id) == VideoOutputDir(hash8, id) + "/" + "playlist.m3u8"
    ensures "/" + MasterPath(hash8, id) == "/" + VideoOutputDir(hash8, id) + "/" + "playlist.m3u8"
    ensures RenditionPath(hash8, id, height) == VideoOutputDir(hash8, id) + "/" + VariantUri(height)
    ensures "/" + RenditionPath(hash8, id, height) == "/" + VideoOutputDir(hash8, id) + "/" + VariantUri(height)
  {
    var dir := VideoOutputDir(hash8, id);
    assert dir + "/" + Itoa(height) + "/playlist.m3u8" == dir + "/" + (Itoa(height) + "/playlist.m3u8");
  }

  /** Playlist and transcoder agree: whoever resolves a variant of the master playlist against the
      playlist's own URL gets the media playlist in the directory that Transcode wrote. */
  lemma VariantLeadsToRendition(hash8: string, id: string, height: int, query: Option<string>)
    requires IsHash8(hash8) && IsUuid(id)
    ensures Resolve("/" + MasterPath(hash8, id), query, VariantUri(height))
         == Here("/" + RenditionPath(hash8, id, height), None)
  {
    OutputDirIsClean(hash8, id);
    VariantUriIsPlain(height);
    MasterPathIs(hash8, id, height);
    PlainIsResolved(VideoOutputDir(hash8, id), "playlist.m3u8", query, VariantUri(height));
  }

  /** So each variant names its own resolution and bit rate, and leads to what was rendered for it. */
  lemma VariantIsOfItsResolution(hash8: string, id: string, p: Preset, r: Resolution, query: Option<string>)
    requires IsHash8(hash8) && IsUuid(id)
    ensures var v := VariantOf(p, r);
            && v.width == r.width && v.height == r.height && v.bandwidth == ParseBitrate(p.bitrate)
            && Resolve("/" + MasterPath(hash8, id), query, v.uri)
               == Here("/" + VideoOutputDir(hash8, id) + "/" + Itoa(r.height) + "/playlist.m3u8", None)
  {
    VariantLeadsToRendition(hash8, id, r.height, query);
    assert "/" + RenditionPath(hash8, id, r.height)
        == "/" + VideoOutputDir(hash8, id) + "/" + Itoa(r.height) + "/playlist.m3u8";
  }

  /** Playlist and server agree: when the master playlist is served signed, the rewritten line of a
      variant gets the player that media playlist until the signature expires. */
  lemma SignedVariantPlays(signer: MediaSigner.Signer, hash8: string, id: string, height: int, query: Option<string>,
                           expirySeconds: int, signedAt: int, later: int)
    requires IsHash8(hash8) && IsUuid(id) && signedAt + expirySeconds > 0
    ensures var out := RewriteLine(signer, VariantUri(height), Dir(MasterPath(hash8, id)), expirySeconds, signedAt);
            var t := Resolve("/" + MasterPath(hash8, id), query, out);
            && t.Here?
            && Serve(signer, true, t.path, t.query, later) ==
               (if later <= signedAt + expirySeconds then Granted(RenditionPath(hash8, id, height)) else Forbidden)
            && VideoIdOf(RenditionPath(hash8, id, height)) == Some(id)
  {
    var dir, uri, name := VideoOutputDir(hash8, id), VariantUri(height), "playlist.m3u8";
    OutputDirIsClean(hash8, id);
    VariantUriIsPlain(height);
    TrimSpaceOfTrimmed(uri);
    RenditionHasNoDoubleDot(dir, height);
    MasterPathIs(hash8, id, height);
    SegmentLinePlays(signer, dir, name, query, uri, expirySeconds, signedAt, later);
    VideoIdIsRecovered(hash8, id, uri);
  }

  lemma RenditionHasNoDoubleDot(dir: string, height: int)
    requires Free(dir, {'.'})
    ensures !Contains(dir + "/" + VariantUri(height), "..")
  {
    var h, file := Itoa(height), "playlist.m3u8";
    var front := dir + "/" + h + "/";
    var path := dir + "/" + VariantUri(height);
    assert path == front + file;
    assert forall i :: 0 <= i < |front| ==> front[i] != '.';
    forall j ensures !OccursAt(path, "..", j) {
      if 0 <= j && j + 2 <= |path| {
        PairOccurs(path, j);
        assert j + 1 < |front| ==> path[j + 1] == front[j + 1];
        assert j >= |front| ==> path[j] == file[j - |front|] && path[j + 1] == file[j + 1 - |front|];
      }
    }
  }

  /** Renditions of one video share a directory exactly when their heights are equal, so two presets
      with a resolution of the same height overwrite each other's output. */
  lemma RenditionsCollideIff(hash8: string, id: string, height1: int, height2: int)
    ensures RenditionPath(hash8, id, height1) == RenditionPath(hash8, id, height2) <==> height1 == height2
  {
    var dir, h1, h2 := VideoOutputDir(hash8, id), Itoa(height1), Itoa(height2);
    var p1, p2 := RenditionPath(hash8, id, height1), RenditionPath(hash8, id, height2);
    if p1 == p2 {
      assert p1 == dir + "/" + h1 + "/playlist.m3u8" && p2 == dir + "/" + h2 + "/playlist.m3u8";
      assert |h1| == |h2|;
      assert p1[|dir| + 1..|dir| + 1 + |h1|] == h1 && p2[|dir| + 1..|dir| + 1 + |h2|] == h2;
      ItoaInjective(height1, height2);
    }
  }
}
