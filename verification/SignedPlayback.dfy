/** A player that follows the URIs of a signed manifest: it resolves them as RFC 3986 prescribes,
    and the server checks the signature against the decoded path it is asked for. */
module SignedPlayback {
  import opened Wrappers
  import opened Text
  import opened Uri
  import opened MediaSigner
  import opened SignedManifest

  // ---------- the server ----------

  datatype Response = BadRequest | Forbidden | Granted(filePath: string)

  /** What stands for a pair of the query under this key: its value, unless the pair is malformed. */
  function PairGet(pair: string, key: string): Option<string> {
    var e := FirstOf(pair, {'='});
    var value := Unescape(if e < |pair| then pair[e + 1..] else "", true);
    if pair != "" && Free(pair, {';'}) && Unescape(pair[..e], true) == Some(key) then value else None
  }

  /** URL.Query().Get: the value of the first pair with this key, or nothing. */
  function QueryGet(query: string, key: string): string
    decreases |query|
  {
    var n := FirstOf(query, {'&'});
    var first := PairGet(query[..n], key);
    if first.Some? then first.value else if n < |query| then QueryGet(query[n + 1..], key) else ""
  }

  /** The path that Serve works with: decoded, and without its leading slash. A path that does not
      decode is refused before it gets there. */
  function ServedPath(path: string): Option<string> {
    var decoded := Unescape(path, false);
    if decoded.None? then None else Some(TrimPrefix(decoded.value, "/"))
  }

  /** The checks of Serve before the file is read; `enforced` is the preset's setting. */
  function Serve(signer: Signer, enforced: bool, path: string, query: Option<string>, now: int): Response {
    var q := if query.Some? then query.value else "";
    match ServedPath(path)
    case None => BadRequest
    case Some(filePath) =>
      if Contains(filePath, "..") then BadRequest
      else if enforced
              && (QueryGet(q, "sig") == "" || Atoi(QueryGet(q, "exp")) == 0
                  || !Verify(signer, filePath, QueryGet(q, "sig"), Atoi(QueryGet(q, "exp")), now))
      then Forbidden
      else Granted(filePath)
  }

  /** What a query carries of a signature. */
  function QuerySig(query: Option<string>): string { if query.Some? then QueryGet(query.value, "sig") else "" }

  function QueryExp(query: Option<string>): int { if query.Some? then Atoi(QueryGet(query.value, "exp")) else 0 }

  lemma NoQuery(key: string)
    ensures QueryGet("", key) == "" && Atoi("") == 0
  {
  }

  /** For every path, query and time: where signing is enforced, a path without two dots in a row is
      granted if and only if the query has a signature and an expiry, the expiry has not passed, and the
      signature is the MAC of that path with that expiry; otherwise it is forbidden. */
  lemma ServeIff(signer: Signer, path: string, query: Option<string>, now: int)
    ensures var p, sig, exp := ServedPath(path), QuerySig(query), QueryExp(query);
            Serve(signer, true, path, query, now) ==
            if p.None? || Contains(p.value, "..") then BadRequest
            else if sig != "" && exp != 0 && now <= exp && signer.mac(p.value + ":" + Itoa(exp)) == sig
            then Granted(p.value) else Forbidden
  {
    NoQuery("sig");
    NoQuery("exp");
  }

  /** A signature made for another path or another expiry is refused, unless the MAC collides. */
  lemma OtherSignatureIsRefused(signer: Signer, path: string, query: Option<string>, now: int,
                                signed: string, expirySeconds: int, signedAt: int)
    requires ServedPath(path).Some? && !Contains(ServedPath(path).value, "..")
    requires QuerySig(query) == Sign(signer, signed, expirySeconds, signedAt).0
    requires ServedPath(path).value != signed || QueryExp(query) != signedAt + expirySeconds
    requires var asked := Message(ServedPath(path).value, QueryExp(query));
             var message := Message(signed, signedAt + expirySeconds);
             signer.mac(asked) == signer.mac(message) ==> asked == message
    ensures Serve(signer, true, path, query, now) == Forbidden
  {
    ServeIff(signer, path, query, now);
    VerifyIff(signer, signed, expirySeconds, signedAt, ServedPath(path).value, QueryExp(query), now);
  }

  // ---------- the query as the server reads it ----------

  /** Characters that stand for themselves in the value of a query. */
  predicate QueryText(s: string) { Free(s, {'&', ';', '%', '+'}) }

  predicate QueryKey(s: string) { QueryText(s) && Free(s, {'='}) && s != "" }

  lemma PairIsRead(key: string, value: string, wanted: string)
    requires QueryKey(key) && QueryText(value)
    ensures FirstOf(key + "=" + value, {'&'}) == |key + "=" + value|
    ensures PairGet(key + "=" + value, wanted) == if key == wanted then Some(value) else None
  {
    var pair := key + "=" + value;
    FirstOfIs(pair, {'&'}, |pair|);
    FirstOfIs(pair, {'='}, |key|);
    NothingToUnescape(key, true);
    NothingToUnescape(value, true);
    assert pair[..|key|] == key && pair[|key| + 1..] == value;
  }

  /** Reading a query that starts with the pair key=value. */
  lemma FirstPair(key: string, value: string, rest: string, wanted: string)
    requires QueryKey(key) && QueryText(value)
    ensures QueryGet(key + "=" + value + "&" + rest, wanted) ==
            if key == wanted then value else QueryGet(rest, wanted)
  {
    var pair := key + "=" + value;
    var query := pair + "&" + rest;
    PairIsRead(key, value, wanted);
    FirstOfIs(query, {'&'}, |pair|);
    assert query[..|pair|] == pair && query[|pair| + 1..] == rest;
  }

  /** A pair with a semicolon or a broken escape is passed over. */
  lemma MalformedPair(pair: string, rest: string, wanted: string)
    requires Free(pair, {'&'})
    requires !Free(pair, {';'}) || Unescape(pair[..FirstOf(pair, {'='})], true).None?
    ensures QueryGet(pair + "&" + rest, wanted) == QueryGet(rest, wanted)
  {
    var query := pair + "&" + rest;
    FirstOfIs(query, {'&'}, |pair|);
    assert query[..|pair|] == pair && query[|pair| + 1..] == rest;
  }

  lemma LastPair(key: string, value: string)
    requires QueryKey(key) && QueryText(value)
    ensures QueryGet(key + "=" + value, key) == value
  {
    var pair := key + "=" + value;
    PairIsRead(key, value, key);
    assert pair[..|pair|] == pair;
  }

  lemma TwoPairs(key: string, value: string, key': string, value': string)
    requires QueryKey(key) && QueryText(value) && QueryKey(key') && QueryText(value') && key != key'
    ensures var q := key + "=" + value + "&" + (key' + "=" + value');
            QueryGet(q, key) == value && QueryGet(q, key') == value'
  {
    var last := key' + "=" + value';
    FirstPair(key, value, last, key);
    FirstPair(key, value, last, key');
    LastPair(key', value');
  }

  predicate Reads(q: string, sig: string, e: string) {
    QueryGet(q, "sig") == sig && QueryGet(q, "exp") == e
  }

  lemma SameReading(q: string, q': string, sig: string, e: string)
    requires q == q' && Reads(q', sig, e)
    ensures Reads(q, sig, e)
  {
  }

  lemma PairsText(sig: string, e: string)
    ensures "sig=" + sig + "&exp=" + e == "sig" + "=" + sig + "&" + ("exp" + "=" + e)
  {
  }

  lemma KeyedPairs(key: string, sig: string, key': string, e: string)
    requires key == "sig" && key' == "exp" && QueryText(sig) && QueryText(e)
    ensures Reads(key + "=" + sig + "&" + (key' + "=" + e), sig, e)
  {
    assert key[0] != key'[0];
    TwoPairs(key, sig, key', e);
  }

  lemma PairsAreRead(sig: string, e: string)
    requires QueryText(sig) && QueryText(e)
    ensures Reads("sig=" + sig + "&exp=" + e, sig, e)
  {
    PairsText(sig, e);
    KeyedPairs("sig", sig, "exp", e);
    SameReading("sig=" + sig + "&exp=" + e, "sig" + "=" + sig + "&" + ("exp" + "=" + e), sig, e);
  }

  lemma QueryIsRead(signer: Signer, path: string, expirySeconds: int, now: int)
    ensures var (sig, exp) := Sign(signer, path, expirySeconds, now);
            var q := SignQuery(signer, path, expirySeconds, now);
            QueryGet(q, "sig") == sig && QueryGet(q, "exp") == Itoa(exp)
  {
    var (sig, exp) := Sign(signer, path, expirySeconds, now);
    assert forall i :: 0 <= i < |sig| ==> IsHex(sig[i]);
    PairsAreRead(sig, Itoa(exp));
  }

  // ---------- plain relative references ----------

  /** A directory of the storage in canonical form: no empty or dot segment. */
  predicate CleanDir(dir: string) {
    PathLike(dir) && !Contains("/" + dir + "/", "//")
  }

  predicate PathLike(dir: string) {
    dir != "" && DotFree(dir) && Free(dir, {'?', '#', '%'})
  }

  predicate FileName(name: string) {
    name != "" && Free(name, {'/', '?', '#', '%'})
  }

  /** What a manifest may refer to so that its signature fits: no scheme, no leading slash, no dot
      segment, no query, no fragment and no percent sign. */
  predicate Plain(ref: string) {
    && ref != "" && ref[0] != '/'
    && !HasScheme(ref) && !Contains(ref, "://")
    && Free(ref, {'?', '#', '%'})
    && DotFree(ref)
  }

  /** Appending a query changes neither the scheme, the authority nor the path of a reference. */
  lemma QueryLeavesPath(ref: string, q: string)
    requires Free(q, {'?', '#'})
    ensures var out := WithQuery(ref, q);
            && (HasScheme(out) <==> HasScheme(ref))
            && ("//" <= out <==> "//" <= ref)
            && PathPart(out) == PathPart(ref)
            && (Free(ref, {'?', '#'}) ==> QueryPart(out) == Some(q))
  {
    var out, i, k := WithQuery(ref, q), FirstOf(ref, {':', '/', '?', '#'}), FirstOf(ref, {'?', '#'});
    ContainsChar(ref, '?');
    assert i == |ref| ==> out[i] == '?';
    assert k == |ref| ==> out[k] == '?';
    FirstOfIs(out, {':', '/', '?', '#'}, i);
    FirstOfIs(out, {'?', '#'}, k);
    assert out[..k] == ref[..k];
    if Free(ref, {'?', '#'}) {
      assert k == |ref| && out[k + 1..] == q;
      FirstOfIs(q, {'#'}, |q|);
      assert q[..|q|] == q;
    }
  }

  /** A reference that has a query keeps it: the signature becomes its last part. */
  lemma QueryIsAppended(ref: string, q: string)
    requires Free(ref, {'#'}) && Contains(ref, "?") && Free(q, {'?', '#'})
    ensures QueryPart(ref).Some? && QueryPart(WithQuery(ref, q)) == Some(QueryPart(ref).value + "&" + q)
  {
    var out, k := WithQuery(ref, q), FirstOf(ref, {'?', '#'});
    ContainsChar(ref, '?');
    FirstOfIs(out, {'?', '#'}, k);
    var tail := ref[k + 1..];
    assert out[k + 1..] == tail + "&" + q;
    FirstOfIs(tail, {'#'}, |tail|);
    FirstOfIs(tail + "&" + q, {'#'}, |tail| + 1 + |q|);
    assert tail[..|tail|] == tail;
    assert (tail + "&" + q)[..|tail| + 1 + |q|] == tail + "&" + q;
  }

  lemma FolderOf(dir: string, name: string)
    requires FileName(name)
    ensures Folder("/" + dir + "/" + name) == "/" + dir + "/"
    ensures dir != "" ==> Dir(dir + "/" + name) == dir
  {
    CutName("/" + dir + "/", name);
    CutName(dir + "/", name);
  }

  lemma {:induction false} CutName(d: string, name: string)
    requires d != "" && d[|d| - 1] == '/' && Free(name, {'/'})
    ensures Folder(d + name) == d
    decreases |name|
  {
    if name == "" {
      assert d + name == d;
    } else {
      var n := |name| - 1;
      CutName(d, name[..n]);
      assert (d + name)[..|d + name| - 1] == d + name[..n];
    }
  }

  /** Where a reference of the manifest dir/name leads once a query is appended. */
  function Followed(dir: string, name: string, baseQuery: Option<string>, ref: string, q: string): Target {
    Resolve("/" + dir + "/" + name, baseQuery, WithQuery(ref, q))
  }

  lemma RelativeIsMerged(dir: string, name: string, baseQuery: Option<string>, ref: string, q: string)
    requires FileName(name) && Free(q, {'?', '#'})
    requires !HasScheme(ref) && !("//" <= ref) && PathPart(ref) != "" && ref[0] != '/'
    ensures Followed(dir, name, baseQuery, ref, q)
         == Here(RemoveDots("/" + dir + "/" + PathPart(ref), ""), QueryPart(WithQuery(ref, q)))
  {
    QueryLeavesPath(ref, q);
    FolderOf(dir, name);
  }

  lemma PlainIsFollowed(dir: string, name: string, baseQuery: Option<string>, ref: string, q: string)
    requires PathLike(dir) && FileName(name) && Plain(ref) && Free(q, {'?', '#'})
    ensures Followed(dir, name, baseQuery, ref, q) == Here("/" + dir + "/" + ref, Some(q))
    ensures ResolveRelativePath(dir, ref) == dir + "/" + ref
  {
    FirstOfIs(ref, {'?', '#'}, |ref|);
    assert PathPart(ref) == ref;
    RelativeIsMerged(dir, name, baseQuery, ref, q);
    QueryLeavesPath(ref, q);
    PlainIsKept(dir, ref);
  }

  lemma PlainIsKept(dir: string, ref: string)
    requires DotFree(dir) && DotFree(ref)
    ensures RemoveDots("/" + dir + "/" + ref, "") == "/" + dir + "/" + ref
  {
    DotFreeJoin(dir, ref);
    var s := dir + "/" + ref;
    NothingToRemove(s, "");
    assert "/" + dir + "/" + ref == "/" + s;
    assert "" + "/" + s == "/" + s;
  }

  /** Without a query appended, a plain reference leads to the same path. */
  lemma PlainIsResolved(dir: string, name: string, baseQuery: Option<string>, ref: string)
    requires PathLike(dir) && FileName(name) && Plain(ref)
    ensures Resolve("/" + dir + "/" + name, baseQuery, ref) == Here("/" + dir + "/" + ref, None)
  {
    FirstOfIs(ref, {'?', '#'}, |ref|);
    assert PathPart(ref) == ref;
    FolderOf(dir, name);
    PlainIsKept(dir, ref);
  }

  /** The path of an absolute target, less its first slash, has no dot segments, and no characters
      that the path before the removal of dot segments did not have. */
  lemma ServerPath(s: string)
    ensures var p := RemoveDots("/" + s, "");
            && p != "" && p[0] == '/' && TrimPrefix(p, "/") == p[1..] && DotFree(p[1..])
            && (DotFree(s) ==> p[1..] == s)
            && (Free(s, {'?', '#'}) ==> Free(p[1..], {'?', '#'}))
  {
    DotsAreRemoved(s, "");
    if DotFree(s) {
      NothingToRemove(s, "");
      assert "" + "/" + s == "/" + s;
    }
    if Free(s, {'?', '#'}) {
      CharsStay("/" + s, "", {'?', '#'});
    }
  }

  // ---------- white space around a reference ----------

  lemma SpaceInFront(c: char, s: string)
    requires IsSpace(c) && DotFree(s)
    ensures DotFree([c] + s)
  {
    var n := FirstOf(s, {'/'});
    FirstOfIs([c] + s, {'/'}, n + 1);
    assert ([c] + s)[..n + 1] == [c] + s[..n];
    assert ([c] + s)[0] == c;
    assert n < |s| ==> ([c] + s)[n + 2..] == s[n + 1..];
  }

  lemma {:induction false} SpaceBehind(s: string, c: char)
    requires IsSpace(c) && DotFree(s)
    ensures DotFree(s + [c])
    decreases |s|
  {
    var n := FirstOf(s, {'/'});
    if n < |s| {
      FirstOfIs(s + [c], {'/'}, n);
      assert (s + [c])[..n] == s[..n] && (s + [c])[n + 1..] == s[n + 1..] + [c];
      SpaceBehind(s[n + 1..], c);
    } else {
      FirstOfIs(s + [c], {'/'}, |s| + 1);
      assert (s + [c])[..|s| + 1] == s + [c] && (s + [c])[|s|] == c;
    }
  }

  lemma {:induction false} SpacesInFront(a: string, s: string)
    requires AllSpace(a) && DotFree(s)
    ensures DotFree(a + s)
  {
    if a == "" {
      assert a + s == s;
    } else {
      SpacesInFront(a[1..], s);
      SpaceInFront(a[0], a[1..] + s);
      assert a + s == [a[0]] + (a[1..] + s);
    }
  }

  lemma {:induction false} SpacesBehind(s: string, b: string)
    requires AllSpace(b) && DotFree(s)
    ensures DotFree(s + b)
    decreases |b|
  {
    if b == "" {
      assert s + b == s;
    } else {
      var n := |b| - 1;
      SpacesBehind(s, b[..n]);
      SpaceBehind(s + b[..n], b[n]);
      assert s + b == s + b[..n] + [b[n]];
    }
  }

  /** White space around a path makes no segment a dot segment. */
  lemma PaddedIsDotFree(a: string, t: string, b: string)
    requires AllSpace(a) && AllSpace(b) && DotFree(t)
    ensures DotFree(a + t + b)
  {
    SpacesInFront(a, t);
    SpacesBehind(a + t, b);
  }

  lemma SpaceIsFree(a: string, t: string, b: string, chars: set<char>)
    requires AllSpace(a) && AllSpace(b) && forall c :: c in chars ==> !IsSpace(c)
    ensures Free(a + t + b, chars) <==> Free(t, chars)
  {
    var s := a + t + b;
    assert forall k :: 0 <= k < |a| ==> s[k] == a[k];
    assert forall k :: 0 <= k < |t| ==> s[|a| + k] == t[k];
    assert forall k :: |a| + |t| <= k < |s| ==> s[k] == b[k - |a| - |t|];
    assert forall k :: |a| <= k < |a| + |t| ==> s[k] == t[k - |a|];
  }

  lemma FirstIsNotSpace(a: string, t: string, b: string)
    requires AllSpace(a) && AllSpace(b) && a + t + b != "" && !IsSpace((a + t + b)[0])
    ensures a == "" && t != "" && t[0] == (a + t + b)[0]
  {
    FirstOfPadded(a, t, b);
  }

  lemma FirstOfPadded(a: string, t: string, b: string)
    requires a + t + b != ""
    ensures (a + t + b)[0] == if a != "" then a[0] else if t != "" then t[0] else b[0]
  {
  }

  // ---------- the path that is asked for ----------

  /** A player that follows `ref` with the query q appended asks for the path `signed`. */
  predicate AsksFor(dir: string, name: string, baseQuery: Option<string>, ref: string, q: string, signed: string) {
    var t := Followed(dir, name, baseQuery, ref, q);
    t.Here? && ServedPath(t.path) == Some(signed)
  }

  lemma FreeSuffix(prefix: string, s: string, chars: set<char>)
    ensures Free(prefix + s, chars) ==> Free(s, chars)
  {
    assert forall k :: 0 <= k < |s| ==> (prefix + s)[|prefix| + k] == s[k];
  }

  lemma SignedIsFree(dir: string, t: string, chars: set<char>)
    requires Free(ResolveRelativePath(dir, t), chars)
    ensures Free(t, chars)
  {
    FreeSuffix(dir + "/", t, chars);
  }

  function PathAsked(dir: string, name: string, ref: string): string {
    var p := PathPart(ref);
    if p == "" then "/" + dir + "/" + name
    else if p[0] == '/' then RemoveDots(p, "")
    else RemoveDots("/" + dir + "/" + p, "")
  }

  /** Where the undecoded path leads, in the three cases of section 5.2.2 of RFC 3986. */
  lemma FollowedPath(dir: string, name: string, baseQuery: Option<string>, ref: string, q: string)
    requires FileName(name) && Free(q, {'?', '#'})
    ensures var t := Followed(dir, name, baseQuery, ref, q);
            && (t.Here? <==> !HasScheme(ref) && !("//" <= ref))
            && (t.Here? ==> t.path == PathAsked(dir, name, ref))
  {
    QueryLeavesPath(ref, q);
    FolderOf(dir, name);
  }

  lemma ServedUndecoded(p: string)
    requires Free(p, {'%'}) && p != "" && p[0] == '/'
    ensures ServedPath(p) == Some(p[1..])
  {
    NothingToUnescape(p, false);
  }

  // ---------- references without percent signs ----------

  lemma SlashServed(line: string)
    requires line != "" && line[0] == '/' && Free(line, {'%'})
    ensures var r := RemoveDots(PathPart(line), "");
            && r != "" && ServedPath(r) == Some(r[1..]) && DotFree(r[1..]) && Free(r[1..], {'?', '#'})
            && (Free(line, {'?', '#'}) && DotFree(line[1..]) ==> r[1..] == line[1..])
  {
    var p := PathPart(line);
    assert p[0] == '/' && p == "/" + p[1..];
    ServerPath(p[1..]);
    CharsStay(p, "", {'%'});
    ServedUndecoded(RemoveDots(p, ""));
    if Free(line, {'?', '#'}) {
      FirstOfIs(line, {'?', '#'}, |line|);
      assert p == line;
    }
  }

  lemma SlashMisses(a: string, t: string, b: string, dir: string)
    requires AllSpace(a) && AllSpace(b)
    requires var line := a + t + b; line != "" && line[0] == '/' && !("//" <= line)
    requires Free(a + t + b, {'%'})
    ensures ServedPath(RemoveDots(PathPart(a + t + b), "")) != Some(ResolveRelativePath(dir, t))
  {
    FirstIsNotSpace(a, t, b);
    assert a + t + b == t + b;
    SlashServed(t + b);
    SlashIsStripped(t, b, RemoveDots(PathPart(t + b), "")[1..]);
  }

  lemma SlashIsStripped(t: string, b: string, served: string)
    requires t != "" && t[0] == '/' && AllSpace(b) && !("//" <= t + b)
    requires DotFree(served) && Free(served, {'?', '#'})
    requires Free(t + b, {'?', '#'}) && DotFree((t + b)[1..]) ==> served == (t + b)[1..]
    ensures served != t
  {
    if served == t {
      SpaceIsFree("", t, b, {'?', '#'});
      assert "" + t + b == t + b;
      AbsoluteIsDotFree(t, b);
    }
  }

  lemma AbsoluteIsDotFree(t: string, b: string)
    requires t != "" && t[0] == '/' && DotFree(t) && AllSpace(b)
    ensures DotFree((t + b)[1..])
  {
    assert t == "" + "/" + t[1..];
    DotFreeJoin("", t[1..]);
    SpacesBehind(t[1..], b);
    assert (t + b)[1..] == t[1..] + b;
  }

  lemma NoPathMisses(a: string, t: string, b: string, dir: string, name: string)
    requires AllSpace(a) && AllSpace(b) && PathPart(a + t + b) == ""
    requires PathLike(dir) && FileName(name)
    ensures ServedPath("/" + dir + "/" + name) != Some(ResolveRelativePath(dir, t))
  {
    var served, signed := dir + "/" + name, ResolveRelativePath(dir, t);
    ServedUndecoded("/" + dir + "/" + name);
    assert ("/" + dir + "/" + name)[1..] == served;
    if a + t + b == "" {
      assert t == "" && !OccursAt("", "://", 0);
      assert |signed| < |served|;
    } else {
      // the reference starts with a question mark or a hash, which the served path has not
      FirstIsNotSpace(a, t, b);
      assert signed[|signed| - |t|] == t[0] && t[0] in {'?', '#'};
      assert Free(served, {'?', '#'});
    }
  }

  /** If the path asked for is the signed one, the reference is relative, plain and not padded. */
  lemma RelativeIsPlain(a: string, t: string, b: string, dir: string)
    requires AllSpace(a) && AllSpace(b) && PathLike(dir)
    requires var line := a + t + b; PathPart(line) != "" && line[0] != '/' && Free(line, {'%'})
    requires ServedPath(RemoveDots("/" + dir + "/" + PathPart(a + t + b), "")) == Some(ResolveRelativePath(dir, t))
    ensures a == "" && b == "" && t[0] != '/' && !Contains(t, "://") && Free(t, {'?', '#', '%'}) && DotFree(t)
  {
    var line, signed := a + t + b, ResolveRelativePath(dir, t);
    var s := dir + "/" + PathPart(line);
    assert "/" + dir + "/" + PathPart(line) == "/" + s;
    ServerPath(s);
    CharsStay("/" + s, "", {'%'});
    ServedUndecoded(RemoveDots("/" + s, ""));
    assert Free(s, {'?', '#'}) && signed == RemoveDots("/" + s, "")[1..];
    SignedIsFree(dir, t, {'?', '#'});
    SpaceIsFree(a, t, b, {'?', '#'});
    SpaceIsFree(a, t, b, {'%'});
    FirstOfIs(line, {'?', '#'}, |line|);
    assert PathPart(line) == line;
    SignedIsDotFree(dir, t);
    PaddedIsDotFree(a, t, b);
    DotFreeJoin(dir, line);
    SameLength(dir, a, t, b);
  }

  lemma SignedIsDotFree(dir: string, t: string)
    requires DotFree(ResolveRelativePath(dir, t))
    ensures DotFree(t)
  {
    DotFreeJoin(dir, t);
  }

  lemma SameLength(dir: string, a: string, t: string, b: string)
    requires dir + "/" + (a + t + b) == ResolveRelativePath(dir, t)
    ensures a == "" && b == "" && !HasPrefix(t, "/") && !Contains(t, "://")
  {
    assert |dir + "/" + (a + t + b)| == |dir| + 1 + |a| + |t| + |b|;
  }

  lemma UndecodedIsPlain(dir: string, name: string, baseQuery: Option<string>, a: string, t: string, b: string,
                         q: string)
    requires PathLike(dir) && FileName(name) && Free(q, {'?', '#'}) && AllSpace(a) && AllSpace(b)
    requires Free(a + t + b, {'%'}) && AsksFor(dir, name, baseQuery, a + t + b, q, ResolveRelativePath(dir, t))
    ensures Plain(t) && a == "" && b == ""
  {
    var line := a + t + b;
    FollowedPath(dir, name, baseQuery, line, q);
    if PathPart(line) == "" {
      NoPathMisses(a, t, b, dir, name);
    } else if line[0] == '/' {
      SlashMisses(a, t, b, dir);
    } else {
      RelativeIsPlain(a, t, b, dir);
      assert line == t;
    }
  }

  // ---------- references with percent signs ----------

  lemma NonSpaceText(a: string, t: string, b: string, v: string)
    requires AllSpace(a) && AllSpace(b) && v != "" && NoStop(v) && Contains(a + t + b, v)
    ensures Contains(t, v)
  {
    var s, k := a + t + b, Index(a + t + b, v);
    assert s[k] == s[k..k + |v|][0] && s[k + |v| - 1] == s[k..k + |v|][|v| - 1];
    assert s[..|a|] == a && s[|a| + |t|..] == b;
    NonSpaceIsInside(s, |a|, |a| + |t|, k);
    NonSpaceIsInside(s, |a|, |a| + |t|, k + |v| - 1);
    OccursInSlice(s, |a|, |a| + |t|, v, k - |a|);
    assert s[|a|..|a| + |t|] == t;
    assert OccursAt(t, v, k - |a|);
  }

  lemma FreeHasNoPercent(s: string, v: string)
    requires Free(s, {'%'}) && !Free(v, {'%'})
    ensures !Contains(s, v)
  {
    OccurrenceChars(s, v);
  }

  lemma OccurrenceChars(s: string, v: string)
    ensures Contains(s, v) ==> forall x :: 0 <= x < |v| ==> v[x] == s[Index(s, v) + x]
  {
    if Contains(s, v) {
      var k := Index(s, v);
      assert forall x :: 0 <= x < |v| ==> s[k + x] == s[k..k + |v|][x] == v[x];
    }
  }

  /** An escape in the path asked for stands in the reference as well. */
  lemma EscapeIsFromRef(dir: string, line: string, p: string, v: string)
    requires PathLike(dir) && PathPart(line) != "" && NoStop(v) && !Free(v, {'%'})
    requires p == RemoveDots(if line[0] == '/' then PathPart(line) else "/" + dir + "/" + PathPart(line), "")
    requires Contains(p, v)
    ensures Contains(line, v)
  {
    assert v != "";
    FreeHasNoPercent("", v);
    if line[0] == '/' {
      SegmentTextStays(PathPart(line), "", v);
    } else {
      SegmentTextStays("/" + dir + "/" + PathPart(line), "", v);
      FreeHasNoPercent("/" + dir, v);
      InOneSide("/" + dir, PathPart(line), v);
    }
    PrefixOccurs(line, PathPart(line), v);
  }

  lemma SignedHasIt(dir: string, t: string, v: string)
    requires Contains(t, v)
    ensures Contains(ResolveRelativePath(dir, t), v)
  {
    var signed := ResolveRelativePath(dir, t);
    assert signed[|signed| - |t|..] == t;
    SuffixOccurs(signed, |signed| - |t|, v);
  }

  /** The path asked for starts with a slash, which decoding leaves alone. */
  lemma DecodedServed(p: string, signed: string)
    requires p != "" && p[0] == '/' && ServedPath(p) == Some(signed)
    ensures Unescape(p[1..], false) == Some(signed)
  {
    var rest := Unescape(p[1..], false).value;
    assert ("/" + rest)[1..] == rest;
  }

  lemma EscapedPathMisses(dir: string, a: string, t: string, b: string, p: string)
    requires PathLike(dir) && AllSpace(a) && AllSpace(b) && !Free(t, {'%'}) && PathPart(a + t + b) != ""
    requires var line := a + t + b;
             p == RemoveDots(if line[0] == '/' then PathPart(line) else "/" + dir + "/" + PathPart(line), "")
    requires p != "" && p[0] == '/'
    ensures ServedPath(p) != Some(ResolveRelativePath(dir, t))
  {
    var signed := ResolveRelativePath(dir, t);
    if ServedPath(p) == Some(signed) {
      DecodedServed(p, signed);
      forall v | Contains(p[1..], v) && NoStop(v) && !Free(v, {'%'}) ensures Contains(signed, v) {
        SuffixOccurs(p, 1, v);
        EscapeIsFromRef(dir, a + t + b, p, v);
        assert v != "";
        NonSpaceText(a, t, b, v);
        SignedHasIt(dir, t, v);
      }
      ContainsChar(t, '%');
      SignedHasIt(dir, t, "%");
      NotItsOwnDecoding(p[1..], signed, "%");
    }
  }

  lemma EscapedMisses(dir: string, name: string, baseQuery: Option<string>, a: string, t: string, b: string, q: string)
    requires PathLike(dir) && FileName(name) && Free(q, {'?', '#'}) && AllSpace(a) && AllSpace(b)
    requires !Free(t, {'%'})
    ensures !AsksFor(dir, name, baseQuery, a + t + b, q, ResolveRelativePath(dir, t))
  {
    var line := a + t + b;
    FollowedPath(dir, name, baseQuery, line, q);
    if PathPart(line) == "" {
      NoPathMisses(a, t, b, dir, name);
    } else {
      var p := PathPart(line);
      var input := if line[0] == '/' then p else "/" + dir + "/" + p;
      assert input == "/" + input[1..];
      ServerPath(input[1..]);
      EscapedPathMisses(dir, a, t, b, RemoveDots(input, ""));
    }
  }

  // ---------- the exact condition ----------

  lemma PlainAsksForSigned(dir: string, name: string, baseQuery: Option<string>, ref: string, q: string)
    requires PathLike(dir) && FileName(name) && Free(q, {'?', '#'}) && Plain(ref)
    ensures AsksFor(dir, name, baseQuery, ref, q, ResolveRelativePath(dir, ref))
  {
    PlainIsFollowed(dir, name, baseQuery, ref, q);
    assert Free("/" + dir + "/" + ref, {'%'});
    ServedUndecoded("/" + dir + "/" + ref);
    assert ("/" + dir + "/" + ref)[1..] == dir + "/" + ref;
  }

  /** For every reference t, written with any white space around it, in a manifest of a canonical
      directory: a player that follows it as it is written asks for the path signed for t if and only
      if t is plain and there is no white space around it. */
  lemma PaddedIff(dir: string, name: string, baseQuery: Option<string>, a: string, t: string, b: string, q: string)
    requires PathLike(dir) && FileName(name) && Free(q, {'?', '#'}) && AllSpace(a) && AllSpace(b)
    ensures AsksFor(dir, name, baseQuery, a + t + b, q, ResolveRelativePath(dir, t)) <==>
            Plain(t) && a == "" && b == ""
  {
    SpaceIsFree(a, t, b, {'%'});
    if Plain(t) && a == "" && b == "" {
      PlainAsksForSigned(dir, name, baseQuery, t, q);
      assert a + t + b == t;
    } else if !Free(t, {'%'}) {
      EscapedMisses(dir, name, baseQuery, a, t, b, q);
    } else if AsksFor(dir, name, baseQuery, a + t + b, q, ResolveRelativePath(dir, t)) {
      UndecodedIsPlain(dir, name, baseQuery, a, t, b, q);
    }
  }

  /** For a reference that is signed as it is written, as the URI of a key is. */
  lemma SignedPathIff(dir: string, name: string, baseQuery: Option<string>, ref: string, q: string)
    requires PathLike(dir) && FileName(name) && Free(q, {'?', '#'})
    ensures AsksFor(dir, name, baseQuery, ref, q, ResolveRelativePath(dir, ref)) <==> Plain(ref)
  {
    PaddedIff(dir, name, baseQuery, "", ref, "", q);
    assert "" + ref + "" == ref;
  }

  /** For a line, which is signed for its trimmed text and followed as it stands. */
  lemma SignedLineIff(dir: string, name: string, baseQuery: Option<string>, line: string, q: string)
    requires PathLike(dir) && FileName(name) && Free(q, {'?', '#'})
    ensures AsksFor(dir, name, baseQuery, line, q, ResolveRelativePath(dir, TrimSpace(line))) <==>
            Plain(TrimSpace(line)) && TrimSpace(line) == line
  {
    TrimCuts(line);
    var i: nat, j: nat :| CutsTo(line, i, j, TrimSpace(line));
    PaddedIff(dir, name, baseQuery, line[..i], TrimSpace(line), line[j..], q);
    assert line[..i] + TrimSpace(line) + line[j..] == line;
    assert TrimSpace(line) == line <==> line[..i] == "" && line[j..] == "";
  }

  // ---------- end to end ----------

  lemma SignedQueryServes(signer: Signer, path: string, expirySeconds: int, signedAt: int, later: int)
    requires signedAt + expirySeconds > 0 && Free(path, {'%'})
    ensures Serve(signer, true, "/" + path, Some(SignQuery(signer, path, expirySeconds, signedAt)), later) ==
            if Contains(path, "..") then BadRequest
            else if later <= signedAt + expirySeconds then Granted(path)
            else Forbidden
  {
    QueryIsRead(signer, path, expirySeconds, signedAt);
    AtoiOfItoa(signedAt + expirySeconds);
    ServedUndecoded("/" + path);
  }

  /** Every plain reference of a signed manifest works: at any time the player gets the file it
      refers to if and only if the signature has not expired, except that the server refuses a
      path with two dots in a row. The manifest may be signed at any time after 1970. */
  lemma SignedUriVerifies(signer: Signer, dir: string, name: string, baseQuery: Option<string>, ref: string,
                          expirySeconds: int, signedAt: int, later: int)
    requires CleanDir(dir) && FileName(name) && Plain(ref)
    requires signedAt + expirySeconds > 0
    ensures var q := SignQuery(signer, ResolveRelativePath(dir, ref), expirySeconds, signedAt);
            var t := Followed(dir, name, baseQuery, ref, q);
            t.Here? && Serve(signer, true, t.path, t.query, later) ==
                       if Contains(dir + "/" + ref, "..") then BadRequest
                       else if later <= signedAt + expirySeconds then Granted(dir + "/" + ref)
                       else Forbidden
  {
    var path := ResolveRelativePath(dir, ref);
    var q := SignQuery(signer, path, expirySeconds, signedAt);
    QueryShape(signer, path, expirySeconds, signedAt);
    PlainIsFollowed(dir, name, baseQuery, ref, q);
    assert "/" + dir + "/" + ref == "/" + path;
    SignedQueryServes(signer, path, expirySeconds, signedAt, later);
  }

  /** The same for a line of the manifest that is a segment or variant, as it is rewritten. */
  lemma SegmentLinePlays(signer: Signer, dir: string, name: string, baseQuery: Option<string>, line: string,
                         expirySeconds: int, signedAt: int, later: int)
    requires CleanDir(dir) && FileName(name) && Plain(line) && line[0] != '#' && TrimSpace(line) == line
    requires signedAt + expirySeconds > 0 && !Contains(dir + "/" + line, "..")
    ensures var out := RewriteLine(signer, line, Dir(dir + "/" + name), expirySeconds, signedAt);
            var t := Resolve("/" + dir + "/" + name, baseQuery, out);
            t.Here? && Serve(signer, true, t.path, t.query, later) ==
                       if later <= signedAt + expirySeconds then Granted(dir + "/" + line) else Forbidden
  {
    FolderOf(dir, name);
    assert !IsKeyLine(line) && IsUriLine(line);
    SignedUriVerifies(signer, dir, name, baseQuery, line, expirySeconds, signedAt, later);
  }

  /** And for the key file that a key line names. */
  lemma KeyLinePlays(signer: Signer, dir: string, name: string, baseQuery: Option<string>, line: string,
                     expirySeconds: int, signedAt: int, later: int)
    requires CleanDir(dir) && FileName(name) && IsKeyLine(line) && UriBounds(line).Some?
    requires var (start, end) := UriBounds(line).value;
             Plain(line[start..end]) && !Contains(dir + "/" + line[start..end], "..")
    requires signedAt + expirySeconds > 0
    ensures var (start, end) := UriBounds(line).value;
            var out := RewriteLine(signer, line, Dir(dir + "/" + name), expirySeconds, signedAt);
            UriBounds(out).Some? &&
            var (start', end') := UriBounds(out).value;
            var t := Resolve("/" + dir + "/" + name, baseQuery, out[start'..end']);
            t.Here? && Serve(signer, true, t.path, t.query, later) ==
                       if later <= signedAt + expirySeconds then Granted(dir + "/" + line[start..end]) else Forbidden
  {
    var (start, end) := UriBounds(line).value;
    var raw := line[start..end];
    FolderOf(dir, name);
    var path := ResolveRelativePath(dir, raw);
    var q := SignQuery(signer, path, expirySeconds, signedAt);
    QueryShape(signer, path, expirySeconds, signedAt);
    RawUriHasNoQuote(line);
    var uri := WithQuery(raw, q);
    BoundsStay(line, uri);
    assert (line[..start] + uri + line[end..])[start..start + |uri|] == uri;
    SignedUriVerifies(signer, dir, name, baseQuery, raw, expirySeconds, signedAt, later);
  }

  /** Whatever the player asks for, the appended signature is valid for it. */
  predicate Fits(signer: Signer, dir: string, name: string, baseQuery: Option<string>, ref: string, signed: string,
                 expirySeconds: int, signedAt: int, later: int)
  {
    var (sig, exp) := Sign(signer, signed, expirySeconds, signedAt);
    var t := Followed(dir, name, baseQuery, ref, SignQuery(signer, signed, expirySeconds, signedAt));
    t.Here? && ServedPath(t.path).Some? && Verify(signer, ServedPath(t.path).value, sig, exp, later)
  }

  /** The MAC does not collide on the message that was signed and the one that is checked. */
  predicate NoCollision(signer: Signer, dir: string, name: string, baseQuery: Option<string>, ref: string,
                        signed: string, expirySeconds: int, signedAt: int)
  {
    var t := Followed(dir, name, baseQuery, ref, SignQuery(signer, signed, expirySeconds, signedAt));
    t.Here? && ServedPath(t.path).Some? ==>
      var exp := signedAt + expirySeconds;
      var asked, message := Message(ServedPath(t.path).value, exp), Message(signed, exp);
      signer.mac(asked) == signer.mac(message) ==> asked == message
  }

  lemma FitsIffAsked(signer: Signer, dir: string, name: string, baseQuery: Option<string>, ref: string, signed: string,
                     expirySeconds: int, signedAt: int, later: int)
    requires NoCollision(signer, dir, name, baseQuery, ref, signed, expirySeconds, signedAt)
    ensures Fits(signer, dir, name, baseQuery, ref, signed, expirySeconds, signedAt, later) <==>
            AsksFor(dir, name, baseQuery, ref, SignQuery(signer, signed, expirySeconds, signedAt), signed)
            && later <= signedAt + expirySeconds
  {
    var (sig, exp) := Sign(signer, signed, expirySeconds, signedAt);
    var t := Followed(dir, name, baseQuery, ref, SignQuery(signer, signed, expirySeconds, signedAt));
    if t.Here? && ServedPath(t.path).Some? {
      VerifyIff(signer, signed, expirySeconds, signedAt, ServedPath(t.path).value, exp, later);
    }
  }

  /** For every URI line of a manifest, as it is rewritten: unless the MAC collides, its signature
      fits the request of a player that follows it if and only if its trimmed text is plain, it has no
      white space around it, and it has not expired. */
  lemma LineFitsIff(signer: Signer, dir: string, name: string, baseQuery: Option<string>, line: string,
                    expirySeconds: int, signedAt: int, later: int)
    requires PathLike(dir) && FileName(name) && IsUriLine(line)
    requires NoCollision(signer, dir, name, baseQuery, line, ResolveRelativePath(dir, TrimSpace(line)),
                         expirySeconds, signedAt)
    ensures var signed := ResolveRelativePath(dir, TrimSpace(line));
            && RewriteLine(signer, line, Dir(dir + "/" + name), expirySeconds, signedAt)
               == WithQuery(line, SignQuery(signer, signed, expirySeconds, signedAt))
            && (Fits(signer, dir, name, baseQuery, line, signed, expirySeconds, signedAt, later) <==>
                Plain(TrimSpace(line)) && TrimSpace(line) == line && later <= signedAt + expirySeconds)
  {
    var signed := ResolveRelativePath(dir, TrimSpace(line));
    FolderOf(dir, name);
    KeyLineIsNoUriLine(line);
    QueryShape(signer, signed, expirySeconds, signedAt);
    SignedLineIff(dir, name, baseQuery, line, SignQuery(signer, signed, expirySeconds, signedAt));
    FitsIffAsked(signer, dir, name, baseQuery, line, signed, expirySeconds, signedAt, later);
  }

  /** The same for every reference that is signed as it is written, such as the URI of a key line. */
  lemma OtherUrisFail(signer: Signer, dir: string, name: string, baseQuery: Option<string>, ref: string,
                      expirySeconds: int, signedAt: int, later: int)
    requires PathLike(dir) && FileName(name)
    requires NoCollision(signer, dir, name, baseQuery, ref, ResolveRelativePath(dir, ref), expirySeconds, signedAt)
    ensures Fits(signer, dir, name, baseQuery, ref, ResolveRelativePath(dir, ref), expirySeconds, signedAt, later) <==>
            Plain(ref) && later <= signedAt + expirySeconds
  {
    var signed := ResolveRelativePath(dir, ref);
    QueryShape(signer, signed, expirySeconds, signedAt);
    SignedPathIff(dir, name, baseQuery, ref, SignQuery(signer, signed, expirySeconds, signedAt));
    FitsIffAsked(signer, dir, name, baseQuery, ref, signed, expirySeconds, signedAt, later);
  }

  /** A percent sign is enough: a player that follows it does not ask for the signed path. */
  lemma EscapedSpaceMisses(dir: string, name: string, baseQuery: Option<string>, q: string)
    requires PathLike(dir) && FileName(name) && Free(q, {'?', '#'})
    ensures !AsksFor(dir, name, baseQuery, "a%20b.ts", q, ResolveRelativePath(dir, "a%20b.ts"))
  {
    assert "a%20b.ts"[1] == '%';
    SignedPathIff(dir, name, baseQuery, "a%20b.ts", q);
  }
}
