/** What the transcoder learns from FFmpeg's stderr: a percentage for every progress line, and the
    last lines that are worth putting into an error message. */
module FfmpegProgress {
  import opened Wrappers
  import opened Text
  import opened LineScanner

  const TAIL_SIZE := 30

  // ---------- time=HH:MM:SS.ff ----------

  /** The four groups of the regular expression, each a non-empty string of digits. */
  datatype TimeMatch = TimeMatch(h: string, m: string, s: string, frac: string) {
    predicate Valid() {
      && h != "" && AllDigits(h)
      && m != "" && AllDigits(m)
      && s != "" && AllDigits(s)
      && frac != "" && AllDigits(frac)
    }

    function Text(): string { "time=" + (h + ":" + (m + ":" + (s + "." + frac))) }
  }

  /** Digits and the character after them, and the rest of the text. */
  function Field(s: string, end: char): Option<(string, string)> {
    var d := LeadingDigits(s);
    if d != "" && |d| < |s| && s[|d|] == end then Some((d, s[|d| + 1..])) else None
  }

  /** A match of the regular expression at the start of the text. */
  function MatchHere(text: string): (r: Option<TimeMatch>)
    ensures r.Some? ==> r.value.Valid()
  {
    if !HasPrefix(text, "time=") then None
    else
      var h := Field(text[5..], ':');
      if h.None? then None else
      var m := Field(h.value.1, ':');
      if m.None? then None else
      var s := Field(m.value.1, '.');
      if s.None? then None else
      var frac := LeadingDigits(s.value.1);
      if frac == "" then None else Some(TimeMatch(h.value.0, m.value.0, s.value.0, frac))
  }

  /** FindStringSubmatch: the leftmost match. */
  function FindTime(line: string): (r: Option<TimeMatch>)
    ensures r.Some? ==> r.value.Valid()
  {
    var here := MatchHere(line);
    if here.Some? || line == "" then here else FindTime(line[1..])
  }

  lemma FieldThen(d: string, end: char, rest: string)
    requires d != "" && AllDigits(d) && !IsDigit(end)
    ensures Field(d + [end] + rest, end) == Some((d, rest))
  {
    var s := d + [end] + rest;
    assert s == d + ([end] + rest);
    LeadingDigitsOf(d, [end] + rest);
    assert s[|d| + 1..] == rest;
  }

  lemma TextShape(t: TimeMatch, post: string)
    ensures t.Text() + post == "time=" + (t.h + [':'] + (t.m + [':'] + (t.s + ['.'] + (t.frac + post))))
  {
  }

  lemma TimeIsMatched(t: TimeMatch, post: string)
    requires t.Valid() && (post != "" ==> !IsDigit(post[0]))
    ensures MatchHere(t.Text() + post) == Some(t)
  {
    var afterS := t.frac + post;
    var afterM := t.s + ['.'] + afterS;
    var afterH := t.m + [':'] + afterM;
    var all := t.h + [':'] + afterH;
    TextShape(t, post);
    assert ("time=" + all)[5..] == all;
    FieldThen(t.h, ':', afterH);
    FieldThen(t.m, ':', afterM);
    FieldThen(t.s, '.', afterS);
    LeadingDigitsOf(t.frac, post);
  }

  lemma {:induction false} FirstMatchIsFound(pre: string, rest: string)
    requires MatchHere(rest).Some?
    requires forall k :: 0 <= k < |pre| ==> MatchHere((pre + rest)[k..]).None?
    ensures FindTime(pre + rest) == MatchHere(rest)
    decreases |pre|
  {
    var line := pre + rest;
    if pre == "" {
      assert line == rest;
    } else {
      assert line[0..] == line;
      var next := pre[1..] + rest;
      assert line[1..] == next;
      forall k | 0 <= k < |pre[1..]| ensures MatchHere(next[k..]).None? {
        assert next[k..] == line[k + 1..];
      }
      FirstMatchIsFound(pre[1..], rest);
    }
  }

  /** Printing and finding a time: a line that contains the text of a time, and no match before
      it, yields exactly that time. */
  lemma PrintedTimeIsFound(pre: string, t: TimeMatch, post: string)
    requires t.Valid() && (post != "" ==> !IsDigit(post[0]))
    requires forall k :: 0 <= k < |pre| ==> MatchHere((pre + (t.Text() + post))[k..]).None?
    ensures FindTime(pre + (t.Text() + post)) == Some(t)
  {
    TimeIsMatched(t, post);
    FirstMatchIsFound(pre, t.Text() + post);
  }

  // ---------- the percentage ----------

  function Pow10(k: nat): (p: nat)
    ensures p >= 1
  {
    if k == 0 then 1 else 10 * Pow10(k - 1)
  }

  lemma {:induction false} NumberBelowPow10(s: string)
    requires AllDigits(s)
    ensures Number(s) < Pow10(|s|)
  {
    if s != "" {
      NumberBelowPow10(s[..|s| - 1]);
    }
  }

  function Seconds(t: TimeMatch): real
    requires t.Valid()
  {
    Number(t.h) as real * 3600.0 + Number(t.m) as real * 60.0 + Number(t.s) as real
    + Number(t.frac) as real / Pow10(|t.frac|) as real
  }

  function Percent(t: TimeMatch, total: real): real
    requires t.Valid() && total > 0.0
  {
    Share(Seconds(t), total)
  }

  function Share(seconds: real, total: real): real
    requires total > 0.0
  {
    var p := seconds / total * 100.0;
    if p > 100.0 then 100.0 else p
  }

  /** What one line reports. */
  function LineReports(line: string, total: real): seq<real>
    requires total > 0.0
  {
    if TrimSpace(line) != "" && Contains(line, "time=") && FindTime(line).Some?
    then [Percent(FindTime(line).value, total)] else []
  }

  function Reports(lines: seq<string>, total: real): seq<real>
    requires total > 0.0
  {
    if lines == [] then []
    else Reports(lines[..|lines| - 1], total) + LineReports(lines[|lines| - 1], total)
  }

  /** The whole seconds of a time. */
  function WholeSeconds(t: TimeMatch): nat
    requires t.Valid()
  {
    Number(t.h) * 3600 + Number(t.m) * 60 + Number(t.s)
  }

  /** Every value handed to the progress callback is a percentage: the share of the duration that has
      passed up to its end, and 100 exactly from then on. */
  lemma PercentInRange(t: TimeMatch, total: real)
    requires t.Valid() && total > 0.0
    ensures 0.0 <= Percent(t, total) <= 100.0
    ensures Percent(t, total) == 100.0 <==> Seconds(t) >= total
    ensures Seconds(t) <= total ==> Percent(t, total) * total == 100.0 * Seconds(t)
  {
    NoNegativeTime(t);
    ShareOf(Seconds(t), Percent(t, total), total);
  }

  lemma NoNegativeTime(t: TimeMatch)
    requires t.Valid()
    ensures Seconds(t) >= 0.0
  {
    SecondsAre(t);
  }

  lemma ShareOf(x: real, p: real, total: real)
    requires x >= 0.0 && total > 0.0 && p == Share(x, total)
    ensures 0.0 <= p <= 100.0 && (p == 100.0 <==> x >= total) && (x <= total ==> p * total == 100.0 * x)
  {
    ShareIs(x, total);
  }

  lemma ShareIs(x: real, total: real)
    requires x >= 0.0 && total > 0.0
    ensures 0.0 <= Share(x, total) <= 100.0
    ensures Share(x, total) == 100.0 <==> x >= total
    ensures x <= total ==> Share(x, total) * total == 100.0 * x
  {
    RatioAgainstOne(x, total);
    var q := x / total;
    assert q * total == x;
    Reordered(q, total);
  }

  lemma Reordered(q: real, total: real)
    ensures (q * 100.0) * total == 100.0 * (q * total)
  {
  }

  /** The fraction of a second that the digits after the point denote. */
  function Fraction(t: TimeMatch): real
    requires t.Valid()
  {
    Number(t.frac) as real / Pow10(|t.frac|) as real
  }

  lemma FractionIs(t: TimeMatch)
    requires t.Valid()
    ensures 0.0 <= Fraction(t) < 1.0
    ensures Fraction(t) * Pow10(|t.frac|) as real == Number(t.frac) as real
  {
    NumberBelowPow10(t.frac);
    FractionBelowOne(Number(t.frac) as real, Pow10(|t.frac|) as real);
  }

  lemma FractionBelowOne(n: real, d: real)
    requires 0.0 <= n < d
    ensures 0.0 <= n / d < 1.0 && (n / d) * d == n
  {
  }

  /** A time is its whole seconds and the fraction that its last digits denote. */
  lemma SecondsAre(t: TimeMatch)
    requires t.Valid()
    ensures Seconds(t) == WholeSeconds(t) as real + Fraction(t) && Seconds(t) >= 0.0
    ensures Fraction(t) * Pow10(|t.frac|) as real == Number(t.frac) as real && 0.0 <= Fraction(t) < 1.0
  {
    FractionIs(t);
    AddUp(Number(t.h), Number(t.m), Number(t.s), Fraction(t));
  }

  lemma AddUp(h: nat, m: nat, s: nat, f: real)
    ensures h as real * 3600.0 + m as real * 60.0 + s as real + f == (h * 3600 + m * 60 + s) as real + f
  {
  }

  /** Up to the end of the video, a later time is a greater percentage. */
  lemma PercentGrows(t: TimeMatch, later: TimeMatch, total: real)
    requires t.Valid() && later.Valid() && total > 0.0
    requires Seconds(t) < Seconds(later) && Seconds(t) < total
    ensures Percent(t, total) < Percent(later, total)
  {
    NoNegativeTime(t);
    ShareGrows(Seconds(t), Seconds(later), total);
  }

  lemma ShareGrows(x: real, y: real, total: real)
    requires 0.0 <= x < y && x < total
    ensures Share(x, total) < Share(y, total)
  {
    ShareIs(x, total);
    ShareIs(y, total);
    if y < total {
      ScaledLess(Share(x, total), Share(y, total), total, x, y);
    }
  }

  lemma ScaledLess(p: real, q: real, total: real, x: real, y: real)
    requires total > 0.0 && p * total == 100.0 * x && q * total == 100.0 * y && x < y
    ensures p < q
  {
    if p >= q {
      ProductOfPositive(p - q, total);
    }
  }

  lemma ProductOfPositive(a: real, b: real)
    requires b > 0.0
    ensures a > 0.0 ==> a * b > 0.0
    ensures a >= 0.0 ==> a * b >= 0.0
  {
  }

  lemma RatioAgainstOne(x: real, total: real)
    requires x >= 0.0 && total > 0.0
    ensures x / total >= 0.0
    ensures x / total >= 1.0 <==> x >= total
  {
    var q := x / total;
    assert q * total == x;
    if q >= 1.0 {
      ProductOfPositive(q - 1.0, total);
    } else {
      ProductOfPositive(1.0 - q, total);
    }
  }

  lemma {:induction false} ReportsInRange(lines: seq<string>, total: real)
    requires total > 0.0
    ensures forall k :: 0 <= k < |Reports(lines, total)| ==> 0.0 <= Reports(lines, total)[k] <= 100.0
  {
    if lines != [] {
      var init, line := lines[..|lines| - 1], lines[|lines| - 1];
      ReportsInRange(init, total);
      if LineReports(line, total) != [] {
        PercentInRange(FindTime(line).value, total);
      }
    }
  }

  lemma TimeContains(pre: string, t: TimeMatch, post: string)
    ensures var line := pre + (t.Text() + post); Contains(line, "time=") && TrimSpace(line) != ""
  {
    var line, n := pre + (t.Text() + post), |pre|;
    var rest := t.h + ":" + (t.m + ":" + (t.s + "." + t.frac)) + post;
    assert line[n..n + 5] == "time=";
    assert OccursAt(line, "time=", n);
    assert line[n] == 't';
    NonBlankIff(line);
  }

  /** A stream of one line that prints a time, whatever ends the line, reports that time's percentage
      and nothing else. */
  lemma OneTimeIsReported(pre: string, t: TimeMatch, post: string, sep: string, total: real)
    requires t.Valid() && total > 0.0 && (post != "" ==> !IsDigit(post[0]))
    requires forall k :: 0 <= k < |pre| ==> MatchHere((pre + (t.Text() + post))[k..]).None?
    requires NoBreak(pre + (t.Text() + post)) && IsSep(sep)
    ensures Reports(Lines(pre + (t.Text() + post) + sep), total) == [Percent(t, total)]
  {
    var line := pre + (t.Text() + post);
    TimeContains(pre, t, post);
    PrintedTimeIsFound(pre, t, post);
    OneLine(line, sep);
    assert [line][..0] == [] && LineReports(line, total) == [Percent(t, total)];
  }

  lemma OneLine(line: string, sep: string)
    requires NoBreak(line) && line != "" && IsSep(sep)
    ensures Lines(line + sep) == [line]
  {
    var ps := [Piece(line, sep)];
    assert ps[1..] == [] && IsSplit(ps);
    assert Join(ps) == line + sep + Join([]) == line + sep;
    SplitIsUnique(ps);
  }

  // ---------- the tail ----------

  function Last<T>(n: nat, xs: seq<T>): seq<T> {
    if |xs| <= n then xs else xs[|xs| - n..]
  }

  lemma LastOfAppend<T>(n: nat, xs: seq<T>, x: T)
    requires n > 0
    ensures Last(n, xs + [x]) == (if |xs| >= n then Last(n, xs)[1..] else xs) + [x]
  {
  }

  /** The trimmed lines that are not blank. */
  function NonBlank(lines: seq<string>): seq<string> {
    if lines == [] then []
    else
      var t := TrimSpace(lines[|lines| - 1]);
      NonBlank(lines[..|lines| - 1]) + if t == "" then [] else [t]
  }

  function WithoutTime(lines: seq<string>): seq<string> {
    if lines == [] then []
    else
      var line := lines[|lines| - 1];
      WithoutTime(lines[..|lines| - 1]) + if Contains(line, "time=") then [] else [line]
  }

  /** What DrainStderr returns for the lines of a stream. */
  function Tail(lines: seq<string>): seq<string> {
    Last(TAIL_SIZE, NonBlank(lines))
  }

  /** The tail is what NonBlank ends with: 30 lines, or all of them when there are fewer. */
  lemma TailIsEnd(lines: seq<string>)
    ensures |Tail(lines)| == if |NonBlank(lines)| < 30 then |NonBlank(lines)| else 30
    ensures NonBlank(lines)[|NonBlank(lines)| - |Tail(lines)|..] == Tail(lines)
  {
  }

  /** Both filters look at each line by itself and keep the order. */
  lemma {:induction false} NonBlankOfSum(a: seq<string>, b: seq<string>)
    ensures NonBlank(a + b) == NonBlank(a) + NonBlank(b)
    decreases |b|
  {
    if b == [] {
      assert a + b == a;
    } else {
      NonBlankOfSum(a, b[..|b| - 1]);
      assert (a + b)[..|a + b| - 1] == a + b[..|b| - 1];
    }
  }

  lemma {:induction false} WithoutTimeOfSum(a: seq<string>, b: seq<string>)
    ensures WithoutTime(a + b) == WithoutTime(a) + WithoutTime(b)
    decreases |b|
  {
    if b == [] {
      assert a + b == a;
    } else {
      WithoutTimeOfSum(a, b[..|b| - 1]);
      assert (a + b)[..|a + b| - 1] == a + b[..|b| - 1];
    }
  }

  lemma FiltersOfOne(line: string)
    ensures NonBlank([line]) == if exists k :: 0 <= k < |line| && !IsSpace(line[k]) then [TrimSpace(line)] else []
    ensures WithoutTime([line]) == if Contains(line, "time=") then [] else [line]
  {
    NonBlankIff(line);
    assert [line][..0] == [];
  }

  /** Drop the oldest line when the tail is full, then append. */
  function Shift(tail: seq<string>, line: string): seq<string> {
    (if |tail| >= TAIL_SIZE then tail[1..] else tail) + [line]
  }

  lemma TailOfAppend(lines: seq<string>, line: string)
    ensures Tail(lines + [line]) ==
            if TrimSpace(line) == "" then Tail(lines) else Shift(Tail(lines), TrimSpace(line))
  {
    assert (lines + [line])[..|lines|] == lines;
    if TrimSpace(line) != "" {
      LastOfAppend(TAIL_SIZE, NonBlank(lines), TrimSpace(line));
    } else {
      assert NonBlank(lines + [line]) == NonBlank(lines) + [];
    }
  }

  lemma WithoutTimeOfAppend(lines: seq<string>, line: string)
    ensures WithoutTime(lines + [line]) ==
            if Contains(line, "time=") then WithoutTime(lines) else WithoutTime(lines) + [line]
  {
    assert (lines + [line])[..|lines|] == lines;
  }

  lemma ReportsOfAppend(lines: seq<string>, line: string, total: real)
    requires total > 0.0
    ensures Reports(lines + [line], total) ==
            if LineReports(line, total) == [] then Reports(lines, total)
            else Reports(lines, total) + LineReports(line, total)
  {
    assert (lines + [line])[..|lines|] == lines;
  }

  lemma Pass(seen: seq<string>, line: string, rest: seq<string>)
    ensures seen + ([line] + rest) == (seen + [line]) + rest
  {
  }

  /** Drains the stream and returns its last 30 non-blank lines, trimmed, in order. */
  method DrainStderr(chunks: seq<string>, eofWithLast: bool) returns (tail: seq<string>)
    ensures tail == Last(TAIL_SIZE, NonBlank(Lines(Concat(chunks))))
  {
    var scanner := new Scanner(chunks, eofWithLast);
    tail := [];
    ghost var all, seen := scanner.pending, [];
    while true
      invariant scanner.Valid() && fresh(scanner)
      invariant all == seen + scanner.pending
      invariant tail == Tail(seen)
      decreases |scanner.pending|
    {
      var ok, line := scanner.Scan();
      if !ok {
        break;
      }
      Pass(seen, line, scanner.pending);
      TailOfAppend(seen, line);
      seen := seen + [line];
      var trimmed := TrimSpace(line);
      if trimmed == "" {
        continue;
      }
      if |tail| >= TAIL_SIZE {
        tail := tail[1..];
      }
      tail := tail + [trimmed];
    }
    assert seen == all;
  }

  /** Reports a percentage for every progress line and returns what DrainStderr would return for
      the lines without `time=`. */
  method ParseProgress(chunks: seq<string>, eofWithLast: bool, total: real)
    returns (tail: seq<string>, reports: seq<real>)
    requires total > 0.0
    ensures tail == Tail(WithoutTime(Lines(Concat(chunks))))
    ensures reports == Reports(Lines(Concat(chunks)), total)
    ensures forall k :: 0 <= k < |reports| ==> 0.0 <= reports[k] <= 100.0
  {
    var scanner := new Scanner(chunks, eofWithLast);
    tail, reports := [], [];
    ghost var all, seen := scanner.pending, [];
    while true
      invariant scanner.Valid() && fresh(scanner)
      invariant all == seen + scanner.pending
      invariant tail == Tail(WithoutTime(seen))
      invariant reports == Reports(seen, total)
      decreases |scanner.pending|
    {
      var ok, line := scanner.Scan();
      if !ok {
        break;
      }
      Pass(seen, line, scanner.pending);
      WithoutTimeOfAppend(seen, line);
      TailOfAppend(WithoutTime(seen), line);
      ReportsOfAppend(seen, line, total);
      seen := seen + [line];
      var trimmed := TrimSpace(line);
      if trimmed == "" {
        continue;
      }
      if Contains(line, "time=") {
        var matched := FindTime(line);
        if matched.Some? {
          reports := reports + [Percent(matched.value, total)];
        }
        continue;
      }
      if |tail| >= TAIL_SIZE {
        tail := tail[1..];
      }
      tail := tail + [trimmed];
    }
    assert seen == all;
    ReportsInRange(all, total);
  }
}
