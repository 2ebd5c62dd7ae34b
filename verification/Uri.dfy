/** Resolving a URI reference against a base path, as sections 5.2.2 to 5.2.4 of RFC 3986 and the
    parsing expression of its appendix B prescribe, and decoding what is percent-encoded. */
module Uri {
  import opened Wrappers
  import opened Text

  predicate Free(s: string, chars: set<char>) {
    forall k :: 0 <= k < |s| ==> s[k] !in chars
  }

  /** A scheme is what precedes a colon that comes before any slash, question mark or hash. */
  predicate HasScheme(r: string) {
    var i := FirstOf(r, {':', '/', '?', '#'});
    0 < i < |r| && r[i] == ':'
  }

  /** Where a reference leads: to another authority, or to a path and query on this one. */
  datatype Target = Elsewhere | Here(path: string, query: Option<string>)

  function PathPart(r: string): (p: string)
    ensures p <= r && Free(p, {'?', '#'})
  {
    r[..FirstOf(r, {'?', '#'})]
  }

  function QueryPart(r: string): Option<string> {
    var i := FirstOf(r, {'?', '#'});
    if i < |r| && r[i] == '?' then Some(r[i + 1..][..FirstOf(r[i + 1..], {'#'})]) else None
  }

  /** The directory of a path: everything up to its last slash, the slash included. */
  function Folder(path: string): (d: string)
    ensures d <= path && (d != "" ==> d[|d| - 1] == '/')
    ensures Free(path[|d|..], {'/'})
  {
    if path == "" || path[|path| - 1] == '/' then path else Folder(path[..|path| - 1])
  }

  /** Section 5.2.4: drops the last segment and its slash from the output buffer. */
  function DropLast(output: string): (d: string)
    ensures d <= output
    ensures output != "" ==> |d| < |output|
  {
    if output == "" then ""
    else if output[|output| - 1] == '/' then output[..|output| - 1]
    else DropLast(output[..|output| - 1])
  }

  /** Section 5.2.4, remove_dot_segments. */
  function RemoveDots(input: string, output: string): string
    decreases |input|
  {
    if input == "" then output
    else if "../" <= input then RemoveDots(input[3..], output)
    else if "./" <= input then RemoveDots(input[2..], output)
    else if "/./" <= input then RemoveDots(input[2..], output)
    else if input == "/." then RemoveDots("/", output)
    else if "/../" <= input then RemoveDots(input[3..], DropLast(output))
    else if input == "/.." then RemoveDots("/", DropLast(output))
    else if input == "." || input == ".." then output
    else
      var n := 1 + FirstOf(input[1..], {'/'});
      RemoveDots(input[n..], output + input[..n])
  }

  /** Section 5.2.2, for a base with a path and a query. */
  function Resolve(basePath: string, baseQuery: Option<string>, r: string): Target {
    if HasScheme(r) || "//" <= r then Elsewhere
    else
      var path := PathPart(r);
      if path == "" then Here(basePath, if QueryPart(r).Some? then QueryPart(r) else baseQuery)
      else if path[0] == '/' then Here(RemoveDots(path, ""), QueryPart(r))
      else Here(RemoveDots(Folder(basePath) + path, ""), QueryPart(r))
  }

  // ---------- dot segments ----------

  predicate IsDots(segment: string) { segment == "." || segment == ".." }

  /** No segment between slashes is `.` or `..`. */
  predicate DotFree(s: string) {
    var n := FirstOf(s, {'/'});
    !IsDots(s[..n]) && (n < |s| ==> DotFree(s[n + 1..]))
  }

  lemma {:induction false} DotFreeJoin(s: string, t: string)
    ensures DotFree(s + "/" + t) <==> DotFree(s) && DotFree(t)
    decreases |s|
  {
    var all, n := s + "/" + t, FirstOf(s, {'/'});
    FirstOfIs(all, {'/'}, n);
    assert all[..n] == s[..n];
    if n < |s| {
      assert all[n + 1..] == s[n + 1..] + "/" + t;
      DotFreeJoin(s[n + 1..], t);
    } else {
      assert all[n + 1..] == t;
      assert s[..n] == s;
    }
  }

  lemma SingleSegment(s: string)
    requires Free(s, {'/'})
    ensures DotFree(s) <==> !IsDots(s)
  {
    FirstOfIs(s, {'/'}, |s|);
    assert s[..|s|] == s;
  }

  /** An output buffer of remove_dot_segments: empty, or a slash and dot-free segments. */
  predicate Buffer(o: string) { o != "" ==> o[0] == '/' && DotFree(o[1..]) }

  lemma BufferPush(o: string, segment: string)
    requires Buffer(o) && Free(segment, {'/'}) && !IsDots(segment)
    ensures Buffer(o + "/" + segment)
  {
    SingleSegment(segment);
    if o != "" {
      DotFreeJoin(o[1..], segment);
      assert (o + "/" + segment)[1..] == o[1..] + "/" + segment;
    } else {
      assert (o + "/" + segment)[1..] == segment;
    }
  }

  lemma {:induction false} DropLastCuts(o: string)
    requires o != "" && o[0] == '/'
    ensures o[|DropLast(o)|] == '/' && Free(o[|DropLast(o)| + 1..], {'/'})
    ensures DropLast(o) == o[..|DropLast(o)|]
    decreases |o|
  {
    var n := |o| - 1;
    if o[n] != '/' {
      DropLastCuts(o[..n]);
      var d := DropLast(o[..n]);
      assert o[..n][|d|] == o[|d|];
      forall k | |d| + 1 <= k < |o| ensures o[k] != '/' {
        if k < n { assert o[..n][|d| + 1..][k - |d| - 1] == o[k]; }
      }
    }
  }

  lemma BufferPop(o: string)
    requires Buffer(o)
    ensures Buffer(DropLast(o))
  {
    if o != "" && DropLast(o) != "" {
      DropLastCuts(o);
      var d := DropLast(o);
      var rest := o[|d| + 1..];
      assert o[1..] == d[1..] + "/" + rest;
      DotFreeJoin(d[1..], rest);
      assert d[0] == o[0];
    }
  }

  lemma DotsInFront(s: string)
    ensures "/./" <= "/" + s || "/" + s == "/." || "/../" <= "/" + s || "/" + s == "/.." ==>
            IsDots(s[..FirstOf(s, {'/'})])
  {
    var input := "/" + s;
    assert input[1..] == s;
    if "/./" <= input || input == "/." {
      FirstOfIs(s, {'/'}, 1);
    } else if "/../" <= input || input == "/.." {
      FirstOfIs(s, {'/'}, 2);
    }
  }

  /** What the step of remove_dot_segments does that moves a segment to the output. */
  lemma MoveSegment(s: string, o: string)
    requires !IsDots(s[..FirstOf(s, {'/'})])
    ensures var n := FirstOf(s, {'/'});
            RemoveDots("/" + s, o) == RemoveDots(s[n..], o + "/" + s[..n])
  {
    var n, input := FirstOf(s, {'/'}), "/" + s;
    DotsInFront(s);
    assert input[1..] == s;
    assert input[n + 1..] == s[n..] && input[..n + 1] == "/" + s[..n];
    assert o + ("/" + s[..n]) == o + "/" + s[..n];
  }

  /** A segment that is not the last, or the last one. */
  lemma MoveInner(s: string, o: string)
    requires var n := FirstOf(s, {'/'}); n < |s| && !IsDots(s[..n])
    ensures var n := FirstOf(s, {'/'});
            RemoveDots("/" + s, o) == RemoveDots("/" + s[n + 1..], o + "/" + s[..n])
  {
    MoveSegment(s, o);
    CutAtSlash("", s, FirstOf(s, {'/'}));
  }

  lemma MoveLast(s: string, o: string)
    requires FirstOf(s, {'/'}) == |s| && !IsDots(s)
    ensures RemoveDots("/" + s, o) == o + "/" + s
  {
    assert s[..|s|] == s && s[|s|..] == "";
    MoveSegment(s, o);
  }

  lemma CutAtSlash(o: string, s: string, n: nat)
    requires n < |s| && s[n] == '/'
    ensures s[n..] == "/" + s[n + 1..]
    ensures o + "/" + s[..n] + "/" + s[n + 1..] == o + "/" + s
  {
    assert s == s[..n] + "/" + s[n + 1..];
  }

  lemma SkipSegment(s: string, o: string)
    requires IsDots(s[..FirstOf(s, {'/'})])
    ensures var n := FirstOf(s, {'/'});
            RemoveDots("/" + s, o) ==
            RemoveDots("/" + if n < |s| then s[n + 1..] else "", if n == 1 then o else DropLast(o))
  {
    var n, input := FirstOf(s, {'/'}), "/" + s;
    if n < |s| {
      CutAtSlash("", s, n);
      assert input[n + 1..] == s[n..];
      assert input == "/" + s[..n] + "/" + s[n + 1..];
    } else {
      assert s == s[..n];
    }
  }

  /** A segment followed by two dots goes. */
  lemma ParentIsDropped(segment: string, rest: string, o: string)
    requires Free(segment, {'/'}) && !IsDots(segment)
    ensures RemoveDots("/" + segment + "/../" + rest, o) == RemoveDots("/" + rest, o)
  {
    var s := segment + "/" + ("../" + rest);
    FirstOfIs(s, {'/'}, |segment|);
    assert s[..|segment|] == segment && s[|segment| + 1..] == "../" + rest;
    assert "/" + segment + "/../" + rest == "/" + s;
    MoveInner(s, o);
    DotsGo("..", rest, o + "/" + segment);
    DropLastOf(o, segment);
    assert "/" + ("../" + rest) == "/" + (".." + "/" + rest);
  }

  /** A single dot goes. */
  lemma DotIsDropped(rest: string, o: string)
    ensures RemoveDots("/./" + rest, o) == RemoveDots("/" + rest, o)
  {
    DotsGo(".", rest, o);
    assert "/" + ("." + "/" + rest) == "/./" + rest;
  }

  lemma DotsGo(dots: string, rest: string, o: string)
    requires IsDots(dots)
    ensures RemoveDots("/" + (dots + "/" + rest), o) == RemoveDots("/" + rest, if dots == "." then o else DropLast(o))
  {
    var s := dots + "/" + rest;
    FirstOfIs(s, {'/'}, |dots|);
    assert s[..|dots|] == dots && s[|dots| + 1..] == rest;
    SkipSegment(s, o);
  }

  lemma {:induction false} DropLastOf(o: string, segment: string)
    requires Free(segment, {'/'})
    ensures DropLast(o + "/" + segment) == o
    decreases |segment|
  {
    if segment == "" {
      assert o + "/" + segment == o + "/";
    } else {
      var n := |segment| - 1;
      DropLastOf(o, segment[..n]);
      assert (o + "/" + segment)[..|o + "/" + segment| - 1] == o + "/" + segment[..n];
    }
  }

  /** Removing dot segments from an absolute path leaves a path without any. */
  lemma {:induction false} DotsAreRemoved(s: string, o: string)
    requires Buffer(o)
    ensures RemoveDots("/" + s, o) != "" && Buffer(RemoveDots("/" + s, o))
    decreases |s|
  {
    var n := FirstOf(s, {'/'});
    var rest := if n < |s| then s[n + 1..] else "";
    if IsDots(s[..n]) {
      SkipSegment(s, o);
      BufferPop(o);
      DotsAreRemoved(rest, if n == 1 then o else DropLast(o));
    } else {
      BufferPush(o, s[..n]);
      if n < |s| {
        MoveInner(s, o);
        DotsAreRemoved(rest, o + "/" + s[..n]);
      } else {
        assert s[..n] == s;
        MoveLast(s, o);
      }
    }
  }

  /** A path without dot segments is not changed. */
  lemma {:induction false} NothingToRemove(s: string, o: string)
    requires DotFree(s)
    ensures RemoveDots("/" + s, o) == o + "/" + s
    decreases |s|
  {
    var n := FirstOf(s, {'/'});
    if n < |s| {
      MoveInner(s, o);
      NothingToRemove(s[n + 1..], o + "/" + s[..n]);
      CutAtSlash(o, s, n);
    } else {
      assert s[..n] == s;
      MoveLast(s, o);
    }
  }

  /** Removing dot segments brings in no new characters. */
  lemma {:induction false} CharsStay(input: string, output: string, chars: set<char>)
    requires Free(input, chars) && Free(output, chars)
    ensures Free(RemoveDots(input, output), chars)
    decreases |input|
  {
    if input == "" {
    } else if "../" <= input {
      CharsStay(input[3..], output, chars);
    } else if "./" <= input || "/./" <= input {
      CharsStay(input[2..], output, chars);
    } else if input == "/." {
      assert input[0] == '/';
      CharsStay("/", output, chars);
    } else if "/../" <= input {
      CharsStay(input[3..], DropLast(output), chars);
    } else if input == "/.." {
      assert input[0] == '/';
      CharsStay("/", DropLast(output), chars);
    } else if input != "." && input != ".." {
      var n := 1 + FirstOf(input[1..], {'/'});
      CharsStay(input[n..], output + input[..n], chars);
    }
  }

  // ---------- percent-decoding ----------

  // As net/url does it for the path of a request and for its query.

  predicate IsHexDigit(c: char) { '0' <= c <= '9' || 'a' <= c <= 'f' || 'A' <= c <= 'F' }

  function HexValue(c: char): (n: nat)
    requires IsHexDigit(c)
    ensures n < 16
  {
    if c <= '9' then c as nat - '0' as nat
    else if c >= 'a' then c as nat - 'a' as nat + 10
    else c as nat - 'A' as nat + 10
  }

  /** In a query, a plus sign stands for a space. Nothing is returned for a percent sign that two
      hexadecimal digits do not follow. */
  function Unescape(s: string, inQuery: bool): Option<string> {
    if s == "" then Some("")
    else if s[0] == '%' then
      if |s| < 3 || !IsHexDigit(s[1]) || !IsHexDigit(s[2]) then None
      else
        var rest := Unescape(s[3..], inQuery);
        if rest.None? then None else Some([(16 * HexValue(s[1]) + HexValue(s[2])) as char] + rest.value)
    else
      var rest := Unescape(s[1..], inQuery);
      if rest.None? then None else Some([if inQuery && s[0] == '+' then ' ' else s[0]] + rest.value)
  }

  lemma {:induction false} NothingToUnescape(s: string, inQuery: bool)
    requires Free(s, {'%'}) && (inQuery ==> Free(s, {'+'}))
    ensures Unescape(s, inQuery) == Some(s)
  {
    if s != "" {
      NothingToUnescape(s[1..], inQuery);
      assert s[0] !in {'%'} && (inQuery ==> s[0] !in {'+'});
      assert [s[0]] + s[1..] == s;
    }
  }

  /** Decoding shortens whatever it changes. */
  lemma {:induction false} UnescapeShortens(s: string)
    requires Unescape(s, false).Some?
    ensures |Unescape(s, false).value| <= |s|
    ensures !Free(s, {'%'}) ==> |Unescape(s, false).value| < |s|
  {
    if s != "" {
      if s[0] == '%' {
        UnescapeShortens(s[3..]);
      } else {
        UnescapeShortens(s[1..]);
        assert !Free(s, {'%'}) ==> !Free(s[1..], {'%'});
      }
    }
  }

  // ---------- what decodes to a part of a decoded text ----------

  lemma {:induction false} PrefixSource(p: string, w: string)
    requires Unescape(p, false).Some? && w <= Unescape(p, false).value
    ensures exists n :: 0 <= n <= |p| && Unescape(p[..n], false) == Some(w)
    decreases |p|
  {
    if w == "" {
      assert Unescape(p[..0], false) == Some(w);
    } else {
      var step := if p[0] == '%' then 3 else 1;
      PrefixSource(p[step..], w[1..]);
      var m :| 0 <= m <= |p[step..]| && Unescape(p[step..][..m], false) == Some(w[1..]);
      var n := step + m;
      assert p[..n][step..] == p[step..][..m];
      assert p[..n][0] == p[0] && (step == 3 ==> p[..n][1] == p[1] && p[..n][2] == p[2]);
      assert w == [w[0]] + w[1..];
      assert Unescape(p[..n], false) == Some(w);
    }
  }

  /** Every part w of a decoded text comes from a part v of the text that decodes to it. */
  lemma {:induction false} Source(p: string, w: string, i: nat)
    requires Unescape(p, false).Some? && OccursAt(Unescape(p, false).value, w, i)
    ensures exists v :: Contains(p, v) && Unescape(v, false) == Some(w)
    decreases i
  {
    var d := Unescape(p, false).value;
    if i == 0 {
      assert d[0..|w|] == d[..|w|];
      PrefixSource(p, w);
      var n :| 0 <= n <= |p| && Unescape(p[..n], false) == Some(w);
      assert OccursAt(p, p[..n], 0);
    } else {
      var step := if p[0] == '%' then 3 else 1;
      var d' := Unescape(p[step..], false).value;
      assert d[i..i + |w|] == d'[i - 1..i - 1 + |w|];
      Source(p[step..], w, i - 1);
      var v :| Contains(p[step..], v) && Unescape(v, false) == Some(w);
      assert p[step..] == p[step..|p|];
      PartOccurs(p, step, |p|, v);
    }
  }

  /** Slashes and white space, none of which can be part of an escape. */
  predicate IsStop(c: char) { c == '/' || IsSpace(c) }

  predicate NoStop(s: string) { forall k :: 0 <= k < |s| ==> !IsStop(s[k]) }

  lemma {:induction false} SourceHasNoStop(v: string)
    requires Unescape(v, false).Some? && NoStop(Unescape(v, false).value)
    ensures NoStop(v)
  {
    if v != "" {
      var w, step := Unescape(v, false).value, if v[0] == '%' then 3 else 1;
      assert w[1..] == Unescape(v[step..], false).value;
      assert forall k :: 0 <= k < |w[1..]| ==> w[1..][k] == w[k + 1];
      SourceHasNoStop(v[step..]);
      assert !IsStop(w[0]) && forall k :: step <= k < |v| ==> v[k] == v[step..][k - step];
    }
  }

  /** Each escape in p that is not broken by a slash or white space stands in d as well. */
  ghost predicate EscapesReappear(p: string, d: string) {
    forall v :: Contains(p, v) && NoStop(v) && !Free(v, {'%'}) ==> Contains(d, v)
  }

  /** A text with a percent sign is not what a text decodes to whose escapes all reappear in it:
      whatever decodes to a part of it would be part of it as well, and longer. */
  lemma {:induction false} NotItsOwnDecoding(p: string, d: string, w: string)
    requires Unescape(p, false) == Some(d) && EscapesReappear(p, d)
    requires NoStop(w) && !Free(w, {'%'})
    ensures !Contains(d, w)
    decreases |d| - |w|
  {
    if Contains(d, w) {
      Source(p, w, Index(d, w));
      var v :| Contains(p, v) && Unescape(v, false) == Some(w);
      SourceHasNoStop(v);
      UnescapeShortens(v);
      if Free(v, {'%'}) {
        NothingToUnescape(v, false);
      }
      NotItsOwnDecoding(p, d, v);
      assert false;
    }
  }

  // ---------- removing dot segments ----------

  lemma InOneSide(a: string, b: string, v: string)
    requires v != "" && NoStop(v) && Contains(a + "/" + b, v)
    ensures Contains(a, v) || Contains(b, v)
  {
    var s, k := a + "/" + b, Index(a + "/" + b, v);
    forall y | k <= y < k + |v| ensures s[y] != '/' {
      assert s[y] == s[k..k + |v|][y - k] == v[y - k];
    }
    assert s[|a|] == '/';
    if k + |v| <= |a| {
      assert s[k..k + |v|] == a[k..k + |v|];
      assert OccursAt(a, v, k);
    } else if k > |a| {
      assert s[k..k + |v|] == b[k - |a| - 1..k - |a| - 1 + |v|];
      assert OccursAt(b, v, k - |a| - 1);
    }
  }

  lemma SuffixOccurs(s: string, n: nat, v: string)
    requires n <= |s| && Contains(s[n..], v)
    ensures Contains(s, v)
  {
    assert s[n..] == s[n..|s|];
    PartOccurs(s, n, |s|, v);
  }

  lemma PrefixOccurs(s: string, t: string, v: string)
    requires t <= s && Contains(t, v)
    ensures Contains(s, v)
  {
    assert t == s[0..|t|];
    PartOccurs(s, 0, |t|, v);
  }

  /** Removing dot segments brings in no text within a segment that was not there. */
  lemma {:induction false} SegmentTextStays(input: string, output: string, v: string)
    requires (input != "" ==> input[0] == '/') && v != "" && NoStop(v)
    requires Contains(RemoveDots(input, output), v)
    ensures Contains(input, v) || Contains(output, v)
    decreases |input|
  {
    if input == "" {
    } else if "/./" <= input {
      SegmentTextStays(input[2..], output, v);
      if Contains(input[2..], v) { SuffixOccurs(input, 2, v); }
    } else if input == "/." {
      SegmentTextStays("/", output, v);
      if Contains("/", v) { PrefixOccurs(input, "/", v); }
    } else if "/../" <= input {
      SegmentTextStays(input[3..], DropLast(output), v);
      if Contains(input[3..], v) { SuffixOccurs(input, 3, v); } else { PrefixOccurs(output, DropLast(output), v); }
    } else if input == "/.." {
      SegmentTextStays("/", DropLast(output), v);
      if Contains("/", v) { PrefixOccurs(input, "/", v); } else { PrefixOccurs(output, DropLast(output), v); }
    } else {
      SegmentMoves(input, output, v);
    }
  }

  lemma FirstSegmentMoves(input: string, output: string)
    requires input != "" && input[0] == '/'
    requires !("/./" <= input) && input != "/." && !("/../" <= input) && input != "/.."
    ensures var n := 1 + FirstOf(input[1..], {'/'});
            && RemoveDots(input, output) == RemoveDots(input[n..], output + input[..n])
            && (input[n..] != "" ==> input[n..][0] == '/')
  {
    var n := 1 + FirstOf(input[1..], {'/'});
    assert input[n..] != "" ==> input[n..][0] == input[1..][n - 1];
  }

  lemma {:induction false} SegmentMoves(input: string, output: string, v: string)
    requires input != "" && input[0] == '/' && v != "" && NoStop(v)
    requires !("/./" <= input) && input != "/." && !("/../" <= input) && input != "/.."
    requires Contains(RemoveDots(input, output), v)
    ensures Contains(input, v) || Contains(output, v)
    decreases |input|, 0
  {
    var n := 1 + FirstOf(input[1..], {'/'});
    FirstSegmentMoves(input, output);
    SegmentTextStays(input[n..], output + input[..n], v);
    MovedTextWasThere(input, output, n, v);
  }

  lemma MovedTextWasThere(input: string, output: string, n: nat, v: string)
    requires 1 <= n <= |input| && input[0] == '/' && v != "" && NoStop(v)
    requires Contains(input[n..], v) || Contains(output + input[..n], v)
    ensures Contains(input, v) || Contains(output, v)
  {
    if Contains(input[n..], v) {
      SuffixOccurs(input, n, v);
    } else {
      assert output + input[..n] == output + "/" + input[1..n];
      InOneSide(output, input[1..n], v);
      if Contains(input[1..n], v) {
        PartOccurs(input, 1, n, v);
      }
    }
  }
}
