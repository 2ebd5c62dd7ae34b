/** Serving transcoded files: the signature check, and the rewriting of HLS manifests so that every
    URI in them carries a signature. A manifest is the sequence of its lines. */
module SignedManifest {
  import opened Wrappers
  import opened Text
  import opened Uri
  import opened MediaSigner

  // ---------- rewriting ----------

  function ResolveRelativePath(baseDir: string, ref: string): string {
    if HasPrefix(ref, "/") || Contains(ref, "://") then ref else baseDir + "/" + ref
  }

  /** A URI with a query appended. */
  function WithQuery(uri: string, query: string): string {
    uri + (if Contains(uri, "?") then "&" else "?") + query
  }

  const KEY_TAG := "#EXT-X-KEY"
  const URI_ATTR := "URI=\""

  /** The bounds of the quoted URI of a key line, if it has one. */
  function UriBounds(line: string): (r: Option<(nat, nat)>)
    ensures r.Some? ==> |URI_ATTR| <= r.value.0 <= r.value.1 < |line|
  {
    var at := Index(line, URI_ATTR);
    if at < 0 then None
    else
      var start := at + |URI_ATTR|;
      var length := Index(line[start..], "\"");
      if length < 0 then None else Some((start, start + length))
  }

  function RewriteKeyLine(signer: Signer, line: string, baseDir: string, expirySeconds: int, now: int): string {
    var b := UriBounds(line);
    if b.None? then line
    else
      var (start, end) := b.value;
      var raw := line[start..end];
      var q := SignQuery(signer, ResolveRelativePath(baseDir, raw), expirySeconds, now);
      line[..start] + WithQuery(raw, q) + line[end..]
  }

  predicate IsKeyLine(line: string) { HasPrefix(line, KEY_TAG) }

  predicate IsUriLine(line: string) { !HasPrefix(line, "#") && TrimSpace(line) != "" }

  function RewriteLine(signer: Signer, line: string, baseDir: string, expirySeconds: int, now: int): string {
    if IsKeyLine(line) then RewriteKeyLine(signer, line, baseDir, expirySeconds, now)
    else if IsUriLine(line) then
      WithQuery(line, SignQuery(signer, ResolveRelativePath(baseDir, TrimSpace(line)), expirySeconds, now))
    else line
  }

  /** Up to the last slash, for a path without empty or dot segments. */
  function Dir(path: string): string {
    var d := Folder(path);
    if d == "" then "." else d[..|d| - 1]
  }

  /** `clock` holds the time at which each line is signed. */
  method ServeSignedManifest(signer: Signer, lines: seq<string>, manifestPath: string, expirySeconds: int,
                             clock: seq<int>)
    returns (out: seq<string>)
    requires |clock| == |lines|
    ensures |out| == |lines|
    ensures forall i :: 0 <= i < |lines| ==>
              out[i] == RewriteLine(signer, lines[i], Dir(manifestPath), expirySeconds, clock[i])
    ensures forall i :: 0 <= i < |lines| ==> Erase(out[i]) == lines[i]
    ensures forall i :: 0 <= i < |lines| && HasPrefix(lines[i], "#") && !HasPrefix(lines[i], "#EXT-X-KEY") ==>
              out[i] == lines[i]
    ensures forall i :: 0 <= i < |lines| && TrimSpace(lines[i]) == "" ==> out[i] == lines[i]
  {
    var baseDir := Dir(manifestPath);
    out := [];
    for i := 0 to |lines|
      invariant |out| == i
      invariant forall j :: 0 <= j < i ==> out[j] == RewriteLine(signer, lines[j], baseDir, expirySeconds, clock[j])
    {
      var line := lines[i];
      if HasPrefix(line, KEY_TAG) {
        line := RewriteKeyLine(signer, line, baseDir, expirySeconds, clock[i]);
        out := out + [line];
        continue;
      }
      if !HasPrefix(line, "#") && TrimSpace(line) != "" {
        var segPath := ResolveRelativePath(baseDir, TrimSpace(line));
        var q := SignQuery(signer, segPath, expirySeconds, clock[i]);
        if Contains(line, "?") {
          out := out + [line + "&" + q];
        } else {
          out := out + [line + "?" + q];
        }
        continue;
      }
      out := out + [line];
    }
    forall i | 0 <= i < |lines| && TrimSpace(lines[i]) == "" ensures out[i] == lines[i] {
      KeyLineIsNotBlank(lines[i]);
    }
    forall i | 0 <= i < |lines| ensures Erase(out[i]) == lines[i] {
      RewritingIsErased(signer, lines[i], baseDir, expirySeconds, clock[i]);
    }
  }

  // ---------- erasing ----------

  function LastIndex(s: string, part: string): (r: int)
    ensures r >= 0 ==> OccursAt(s, part, r) && forall j :: r < j ==> !OccursAt(s, part, j)
    ensures r < 0 ==> r == -1 && forall j :: 0 <= j ==> !OccursAt(s, part, j)
  {
    LastIndexUpTo(s, part, |s|)
  }

  function LastIndexUpTo(s: string, part: string, i: nat): (r: int)
    requires i <= |s|
    ensures r >= 0 ==> OccursAt(s, part, r) && forall j :: r < j <= i ==> !OccursAt(s, part, j)
    ensures r < 0 ==> r == -1 && forall j :: 0 <= j <= i ==> !OccursAt(s, part, j)
  {
    if OccursAt(s, part, i) then i else if i == 0 then -1 else LastIndexUpTo(s, part, i - 1)
  }

  /** Deletes the last signature from a URI, with the `?` or `&` before it. */
  function EraseSignature(uri: string): string {
    var at := LastIndex(uri, "sig=");
    if at >= 1 then uri[..at - 1] else uri
  }

  function Erase(line: string): string {
    if IsKeyLine(line) then
      var b := UriBounds(line);
      if b.None? then line
      else line[..b.value.0] + EraseSignature(line[b.value.0..b.value.1]) + line[b.value.1..]
    else if IsUriLine(line) then EraseSignature(line)
    else line
  }

  /** No character that Erase or a reader of the URI would stumble over. */
  predicate QueryTail(s: string) { Free(s, {'s', '"', '?', '#'}) }

  lemma QueryTailJoin(s: string, t: string)
    requires QueryTail(s) && QueryTail(t)
    ensures QueryTail(s + t)
  {
  }

  lemma HexIsTail(sig: Hex)
    ensures QueryTail(sig)
  {
    assert forall i :: 0 <= i < |sig| ==> IsHex(sig[i]);
  }

  /** What SignQuery builds, as far as a rewritten manifest shows it. */
  predicate IsSignature(q: string) {
    && |q| > 4 && q[..4] == "sig="
    && (forall i :: 4 <= i < |q| ==> q[i] != 's')
    && Free(q, {'"', '?', '#'})
  }

  lemma IsSignatureOf(tail: string)
    requires tail != "" && QueryTail(tail)
    ensures IsSignature("sig=" + tail)
  {
    var key := "sig=";
    assert (key + tail)[..4] == key;
    assert forall i :: 4 <= i < |key + tail| ==> (key + tail)[i] == tail[i - 4];
  }

  lemma TailOf(sig: Hex, e: string)
    requires QueryTail(e)
    ensures QueryTail(sig + "&exp=" + e)
  {
    HexIsTail(sig);
    QueryTailJoin(sig, "&exp=");
    QueryTailJoin(sig + "&exp=", e);
  }

  /** The characters of a query that SignQuery builds. */
  lemma QueryShape(signer: Signer, path: string, expirySeconds: int, now: int)
    ensures IsSignature(SignQuery(signer, path, expirySeconds, now))
  {
    var (sig, exp) := Sign(signer, path, expirySeconds, now);
    var tail := sig + "&exp=" + Itoa(exp);
    TailOf(sig, Itoa(exp));
    IsSignatureOf(tail);
    assert SignQuery(signer, path, expirySeconds, now) == "sig=" + tail;
  }

  lemma SignatureIsErased(uri: string, q: string)
    requires IsSignature(q)
    ensures EraseSignature(WithQuery(uri, q)) == uri
  {
    var s, at := WithQuery(uri, q), |uri| + 1;
    assert s[at..] == q;
    assert s[at..at + 4] == q[..4];
    assert OccursAt(s, "sig=", at);
    assert forall j :: at < j < at + 4 ==> s[j] == q[j - at] == "sig="[j - at] != 's';
    assert forall j :: at + 4 <= j < |s| ==> s[j] == q[j - at] != 's';
    forall j | j > at ensures !OccursAt(s, "sig=", j) {
      FirstChar(s, "sig=", j);
    }
    assert s[..at - 1] == uri;
  }

  lemma KeyLineIsNoUriLine(line: string)
    ensures IsKeyLine(line) ==> !IsUriLine(line)
  {
    if IsKeyLine(line) {
      assert line[..1] == KEY_TAG[..1] == "#";
    }
  }

  lemma FirstChar(s: string, part: string, j: int)
    ensures part != "" && OccursAt(s, part, j) ==> s[j] == part[0]
  {
    if part != "" && OccursAt(s, part, j) {
      assert s[j] == s[j..j + |part|][0];
    }
  }

  lemma QuoteOccurs(s: string, k: int)
    requires 0 <= k < |s|
    ensures OccursAt(s, "\"", k) <==> s[k] == '"'
  {
    assert s[k..k + 1] == [s[k]];
  }

  /** The attribute that comes first in a line comes first in every line with the same start. */
  lemma AttributeStays(front: string, line: string, line': string)
    requires front <= line && front <= line'
    requires 0 <= Index(line, URI_ATTR) == |front| - |URI_ATTR|
    ensures Index(line', URI_ATTR) == |front| - |URI_ATTR|
  {
    var at := |front| - |URI_ATTR|;
    forall j | 0 <= j <= at ensures OccursAt(line', URI_ATTR, j) <==> OccursAt(line, URI_ATTR, j) {
      assert line'[j..j + |URI_ATTR|] == front[j..j + |URI_ATTR|] == line[j..j + |URI_ATTR|];
    }
    IndexOfFirst(line', URI_ATTR, at);
  }

  lemma QuoteAfter(uri: string, back: string)
    requires Free(uri, {'"'}) && back != "" && back[0] == '"'
    ensures Index(uri + back, "\"") == |uri|
  {
    var rest := uri + back;
    QuoteOccurs(rest, |uri|);
    forall j | 0 <= j < |uri| ensures !OccursAt(rest, "\"", j) {
      QuoteOccurs(rest, j);
    }
    IndexOfFirst(rest, "\"", |uri|);
  }

  lemma BoundsOf(line: string, front: string, uri: string, back: string)
    requires line == front + uri + back && |front| >= |URI_ATTR|
    requires Index(line, URI_ATTR) == |front| - |URI_ATTR|
    requires Free(uri, {'"'}) && back != "" && back[0] == '"'
    ensures UriBounds(line) == Some((|front|, |front| + |uri|))
  {
    assert line[|front|..] == uri + back;
    QuoteAfter(uri, back);
  }

  lemma TagStays(line: string, front: string, line': string)
    requires IsKeyLine(line) && OccursAt(line, URI_ATTR, |front| - |URI_ATTR|)
    requires front <= line && front <= line'
    ensures IsKeyLine(line')
  {
    KeyTagBeforeUri(line, |front| - |URI_ATTR|);
    assert line'[..|KEY_TAG|] == front[..|KEY_TAG|] == line[..|KEY_TAG|];
  }

  lemma BoundsMean(line: string)
    requires UriBounds(line).Some?
    ensures var (start, end) := UriBounds(line).value;
            && line[end] == '"'
            && Index(line, URI_ATTR) == start - |URI_ATTR|
  {
    var (start, end) := UriBounds(line).value;
    QuoteOccurs(line[start..], end - start);
  }

  lemma Replaced(line: string, front: string, uri: string, back: string)
    requires IsKeyLine(line) && front <= line && 0 <= Index(line, URI_ATTR) == |front| - |URI_ATTR|
    requires Free(uri, {'"'}) && back != "" && back[0] == '"'
    ensures var line' := front + uri + back;
            IsKeyLine(line') && UriBounds(line') == Some((|front|, |front| + |uri|))
  {
    var line' := front + uri + back;
    assert front <= line';
    TagStays(line, front, line');
    AttributeStays(front, line, line');
    BoundsOf(line', front, uri, back);
  }

  /** Replacing the URI of a key line by one without quotes leaves its bounds in place. */
  lemma BoundsStay(line: string, uri: string)
    requires IsKeyLine(line) && UriBounds(line).Some? && Free(uri, {'"'})
    ensures var (start, end) := UriBounds(line).value;
            var line' := line[..start] + uri + line[end..];
            IsKeyLine(line') && UriBounds(line') == Some((start, start + |uri|))
  {
    var (start, end) := UriBounds(line).value;
    BoundsMean(line);
    Replaced(line, line[..start], uri, line[end..]);
  }

  lemma KeyLineIsNotBlank(line: string)
    ensures IsKeyLine(line) ==> TrimSpace(line) != ""
  {
    if IsKeyLine(line) {
      assert line[0] == KEY_TAG[0] == '#';
      NonBlankIff(line);
    }
  }

  /** A key line as FFmpeg writes it: the quoted text after the first URI= is signed, and everything
      around it is kept. */
  lemma KeyLineIsRewritten(signer: Signer, attributes: string, raw: string, rest: string, baseDir: string,
                           expirySeconds: int, now: int)
    requires Free(raw, {'"'})
    requires var front := "#EXT-X-KEY" + attributes + "URI=\"";
             Index(front + raw + ("\"" + rest), "URI=\"") == |front| - 5
    ensures var front, back := "#EXT-X-KEY" + attributes + "URI=\"", "\"" + rest;
            var q := SignQuery(signer, ResolveRelativePath(baseDir, raw), expirySeconds, now);
            var line, line' := front + raw + back, front + WithQuery(raw, q) + back;
            RewriteLine(signer, line, baseDir, expirySeconds, now) == line'
  {
    var front, back := "#EXT-X-KEY" + attributes + "URI=\"", "\"" + rest;
    var line := front + raw + back;
    BoundsOf(line, front, raw, back);
    assert line[..|KEY_TAG|] == KEY_TAG;
    assert line[..|front|] == front && line[|front|..|front| + |raw|] == raw && line[|front| + |raw|..] == back;
  }

  lemma KeyTagBeforeUri(line: string, at: nat)
    requires IsKeyLine(line) && OccursAt(line, URI_ATTR, at)
    ensures at >= |KEY_TAG|
  {
    FirstChar(line, URI_ATTR, at);
    assert forall k :: 0 <= k < |KEY_TAG| ==> line[k] == KEY_TAG[k] != 'U';
  }

  lemma RawUriHasNoQuote(line: string)
    requires UriBounds(line).Some?
    ensures var (start, end) := UriBounds(line).value; Free(line[start..end], {'"'})
  {
    var (start, end) := UriBounds(line).value;
    var rest := line[start..];
    forall k | 0 <= k < end - start ensures rest[k] != '"' {
      QuoteOccurs(rest, k);
    }
    assert line[start..end] == rest[..end - start];
  }

  lemma EraseBetween(front: string, uri: string, back: string)
    requires IsKeyLine(front + uri + back)
    requires UriBounds(front + uri + back) == Some((|front|, |front| + |uri|))
    ensures Erase(front + uri + back) == front + EraseSignature(uri) + back
  {
    var line := front + uri + back;
    assert line[..|front|] == front;
    assert line[|front|..|front| + |uri|] == uri;
    assert line[|front| + |uri|..] == back;
  }

  lemma ReplacedUriIsErased(line: string, uri: string)
    requires IsKeyLine(line) && UriBounds(line).Some? && Free(uri, {'"'})
    ensures var (start, end) := UriBounds(line).value;
            Erase(line[..start] + uri + line[end..]) == line[..start] + EraseSignature(uri) + line[end..]
  {
    var (start, end) := UriBounds(line).value;
    BoundsStay(line, uri);
    EraseBetween(line[..start], uri, line[end..]);
  }

  lemma FreeWithQuery(uri: string, q: string)
    requires Free(uri, {'"'}) && IsSignature(q)
    ensures Free(WithQuery(uri, q), {'"'})
  {
  }

  lemma SignedUriHasNoQuote(line: string, start: nat, end: nat, q: string)
    requires UriBounds(line) == Some((start, end)) && IsSignature(q)
    ensures Free(WithQuery(line[start..end], q), {'"'})
  {
    RawUriHasNoQuote(line);
    FreeWithQuery(line[start..end], q);
  }

  lemma SignedUriIsErased(line: string, start: nat, end: nat, q: string)
    requires IsKeyLine(line) && UriBounds(line) == Some((start, end)) && IsSignature(q)
    ensures Erase(line[..start] + WithQuery(line[start..end], q) + line[end..]) == line
  {
    var raw, uri := line[start..end], WithQuery(line[start..end], q);
    SignedUriHasNoQuote(line, start, end, q);
    ReplacedUriIsErased(line, uri);
    assert EraseSignature(uri) == raw by { SignatureIsErased(raw, q); }
    CutTwice(line, start, end);
  }

  lemma CutTwice(s: string, i: nat, j: nat)
    requires i <= j <= |s|
    ensures s[..i] + s[i..j] + s[j..] == s
  {
  }

  lemma KeyLineIsErased(signer: Signer, line: string, baseDir: string, expirySeconds: int, now: int)
    requires IsKeyLine(line)
    ensures Erase(RewriteKeyLine(signer, line, baseDir, expirySeconds, now)) == line
  {
    var b := UriBounds(line);
    if b.Some? {
      var path := ResolveRelativePath(baseDir, line[b.value.0..b.value.1]);
      QueryShape(signer, path, expirySeconds, now);
      SignedUriIsErased(line, b.value.0, b.value.1, SignQuery(signer, path, expirySeconds, now));
    }
  }

  /** Rewriting is undone by erasing signatures: for every line, and with no knowledge but the
      rewritten line, erasing gives the line back. */
  lemma RewritingIsErased(signer: Signer, line: string, baseDir: string, expirySeconds: int, now: int)
    ensures Erase(RewriteLine(signer, line, baseDir, expirySeconds, now)) == line
  {
    if IsKeyLine(line) {
      KeyLineIsErased(signer, line, baseDir, expirySeconds, now);
    } else if IsUriLine(line) {
      var path := ResolveRelativePath(baseDir, TrimSpace(line));
      var q := SignQuery(signer, path, expirySeconds, now);
      QueryShape(signer, path, expirySeconds, now);
      SignatureIsErased(line, q);
      var line' := WithQuery(line, q);
      assert line'[0] == line[0];
      NonBlankStays(line, line');
    }
  }

  lemma NonBlankStays(line: string, line': string)
    requires line <= line' && TrimSpace(line) != ""
    ensures TrimSpace(line') != ""
  {
    NonBlankIff(line);
    NonBlankIff(line');
    var i :| 0 <= i < |line| && !IsSpace(line[i]);
    assert line'[i] == line[i];
  }
}
