/** The string operations of the Go standard library that the modelled code calls. A string is
    the sequence of its bytes. */
module Text {

  // ---------- searching ----------

  predicate OccursAt(s: string, part: string, i: int) {
    0 <= i && i + |part| <= |s| && s[i..i + |part|] == part
  }

  function IndexFrom(s: string, part: string, i: nat): (r: int)
    requires i <= |s|
    ensures r >= 0 ==> i <= r && OccursAt(s, part, r) && forall j :: i <= j < r ==> !OccursAt(s, part, j)
    ensures r < 0 ==> r == -1 && forall j :: i <= j ==> !OccursAt(s, part, j)
    decreases |s| - i
  {
    if OccursAt(s, part, i) then i
    else if i == |s| then -1
    else IndexFrom(s, part, i + 1)
  }

  /** strings.Index: the first occurrence, or -1. */
  function Index(s: string, part: string): (r: int)
    ensures r >= 0 ==> OccursAt(s, part, r) && forall j :: 0 <= j < r ==> !OccursAt(s, part, j)
    ensures r < 0 ==> r == -1 && forall j :: !OccursAt(s, part, j)
  {
    IndexFrom(s, part, 0)
  }

  predicate Contains(s: string, part: string) {
    Index(s, part) >= 0
  }

  predicate HasPrefix(s: string, prefix: string) {
    prefix <= s
  }

  function TrimPrefix(s: string, prefix: string): string {
    if prefix <= s then s[|prefix|..] else s
  }

  predicate HasSuffix(s: string, suffix: string) {
    |suffix| <= |s| && s[|s| - |suffix|..] == suffix
  }

  function TrimSuffix(s: string, suffix: string): string {
    if HasSuffix(s, suffix) then s[..|s| - |suffix|] else s
  }

  lemma IndexOfFirst(s: string, part: string, i: int)
    requires OccursAt(s, part, i) && forall j :: 0 <= j < i ==> !OccursAt(s, part, j)
    ensures Index(s, part) == i
  {
  }

  lemma OccursInSlice(s: string, lo: nat, hi: nat, part: string, k: int)
    requires lo <= hi <= |s|
    ensures OccursAt(s[lo..hi], part, k) <==> 0 <= k && lo + k + |part| <= hi && OccursAt(s, part, lo + k)
  {
    if 0 <= k && lo + k + |part| <= hi {
      SliceOfSlice(s, lo, hi, k, k + |part|);
    }
  }

  lemma SliceOfSlice(s: string, lo: nat, hi: nat, i: nat, j: nat)
    requires lo <= hi <= |s| && i <= j <= hi - lo
    ensures s[lo..hi][i..j] == s[lo + i..lo + j]
  {
    assert forall k :: 0 <= k < j - i ==> s[lo..hi][i..j][k] == s[lo + i..lo + j][k];
  }

  lemma PartOccurs(s: string, lo: nat, hi: nat, part: string)
    requires lo <= hi <= |s| && Contains(s[lo..hi], part)
    ensures Contains(s, part)
  {
    var k := Index(s[lo..hi], part);
    OccursInSlice(s, lo, hi, part, k);
    assert OccursAt(s, part, lo + k);
  }

  lemma ContainsChar(s: string, c: char)
    ensures Contains(s, [c]) <==> exists k :: 0 <= k < |s| && s[k] == c
  {
    if Contains(s, [c]) {
      var i := Index(s, [c]);
      assert s[i..i + 1][0] == s[i];
    }
    if exists k :: 0 <= k < |s| && s[k] == c {
      var k :| 0 <= k < |s| && s[k] == c;
      assert s[k..k + 1] == [c];
      assert OccursAt(s, [c], k);
    }
  }

  /** The position of the first character of s that is in `stop`, or the length. */
  function FirstOf(s: string, stop: set<char>): (i: nat)
    ensures i <= |s|
    ensures forall k :: 0 <= k < i ==> s[k] !in stop
    ensures i < |s| ==> s[i] in stop
  {
    if s == "" || s[0] in stop then 0 else 1 + FirstOf(s[1..], stop)
  }

  lemma FirstOfIs(s: string, stop: set<char>, i: nat)
    requires i <= |s| && (forall k :: 0 <= k < i ==> s[k] !in stop) && (i < |s| ==> s[i] in stop)
    ensures FirstOf(s, stop) == i
  {
  }

  // ---------- white space ----------

  predicate IsSpace(c: char) {
    c in {' ', '\t', '\n', '\r', 11 as char, 12 as char}
  }

  function TrimLeft(s: string): (r: string)
    ensures r != "" ==> !IsSpace(r[0])
    ensures |r| <= |s|
  {
    if s != "" && IsSpace(s[0]) then TrimLeft(s[1..]) else s
  }

  function TrimRight(s: string): (r: string)
    ensures r != "" ==> !IsSpace(r[|r| - 1])
    ensures r <= s
  {
    if s != "" && IsSpace(s[|s| - 1]) then TrimRight(s[..|s| - 1]) else s
  }

  /** strings.TrimSpace, for the ASCII white space. */
  function TrimSpace(s: string): (r: string)
    ensures r != "" ==> !IsSpace(r[0]) && !IsSpace(r[|r| - 1])
  {
    TrimRight(TrimLeft(s))
  }

  predicate Trimmed(s: string) {
    s != "" && !IsSpace(s[0]) && !IsSpace(s[|s| - 1])
  }

  lemma TrimSpaceOfTrimmed(s: string)
    requires Trimmed(s)
    ensures TrimSpace(s) == s
  {
  }

  predicate AllSpace(s: string) { forall k :: 0 <= k < |s| ==> IsSpace(s[k]) }

  /** What TrimSpace takes off on either side is white space. */
  lemma {:induction false} TrimRightCuts(s: string)
    ensures TrimRight(s) <= s && AllSpace(s[|TrimRight(s)|..])
    decreases |s|
  {
    if s != "" && IsSpace(s[|s| - 1]) {
      var n := |s| - 1;
      TrimRightCuts(s[..n]);
      var m := |TrimRight(s)|;
      assert s[m..] == s[..n][m..] + [s[n]];
    }
  }

  lemma {:induction false} TrimLeftCuts(s: string)
    ensures var i := |s| - |TrimLeft(s)|; TrimLeft(s) == s[i..] && AllSpace(s[..i])
    decreases |s|
  {
    if s != "" && IsSpace(s[0]) {
      TrimLeftCuts(s[1..]);
      var i := |s| - |TrimLeft(s)|;
      assert s[..i] == [s[0]] + s[1..][..i - 1];
    }
  }

  /** t is s but for white space before position i and from position j on. */
  predicate CutsTo(s: string, i: nat, j: nat, t: string) {
    i <= j <= |s| && t == s[i..j] && AllSpace(s[..i]) && AllSpace(s[j..])
  }

  lemma TrimCuts(s: string)
    ensures exists i: nat, j: nat :: CutsTo(s, i, j, TrimSpace(s))
  {
    TrimLeftCuts(s);
    var left := TrimLeft(s);
    TrimRightCuts(left);
    var i := |s| - |left|;
    var j := i + |TrimRight(left)|;
    assert s[j..] == left[|TrimRight(left)|..];
    assert CutsTo(s, i, j, TrimSpace(s));
  }

  lemma NonSpaceIsInside(s: string, i: nat, j: nat, k: nat)
    requires i <= j <= |s| && AllSpace(s[..i]) && AllSpace(s[j..]) && k < |s| && !IsSpace(s[k])
    ensures i <= k < j
  {
    assert forall x :: 0 <= x < i ==> s[..i][x] == s[x];
    assert forall x :: j <= x < |s| ==> s[j..][x - j] == s[x];
  }

  lemma {:induction false} NonBlankIff(s: string)
    ensures TrimSpace(s) != "" <==> exists i :: 0 <= i < |s| && !IsSpace(s[i])
    decreases |s|
  {
    if s != "" && IsSpace(s[0]) {
      NonBlankIff(s[1..]);
      if exists i :: 0 <= i < |s| && !IsSpace(s[i]) {
        var i :| 0 <= i < |s| && !IsSpace(s[i]);
        assert s[1..][i - 1] == s[i];
      }
    } else if s != "" {
      FirstStays(s);
    }
  }

  lemma {:induction false} FirstStays(s: string)
    requires s != "" && !IsSpace(s[0])
    ensures TrimRight(s) != ""
    decreases |s|
  {
    if |s| > 1 && IsSpace(s[|s| - 1]) {
      FirstStays(s[..|s| - 1]);
    }
  }

  // ---------- decimal numbers ----------

  predicate IsDigit(c: char) { '0' <= c <= '9' }

  predicate AllDigits(s: string) { forall i :: 0 <= i < |s| ==> IsDigit(s[i]) }

  function DigitValue(c: char): nat
    requires IsDigit(c)
  {
    c as nat - '0' as nat
  }

  function DigitChar(d: nat): (c: char)
    requires d < 10
    ensures IsDigit(c) && DigitValue(c) == d
  {
    ('0' as nat + d) as char
  }

  /** The number a string of digits stands for. */
  function Number(s: string): nat
    requires AllDigits(s)
  {
    if s == "" then 0 else 10 * Number(s[..|s| - 1]) + DigitValue(s[|s| - 1])
  }

  /** The leading digits of a string: what a greedy \d+ takes. */
  function LeadingDigits(s: string): (d: string)
    ensures d <= s && AllDigits(d)
    ensures |d| < |s| ==> !IsDigit(s[|d|])
  {
    if s == "" || !IsDigit(s[0]) then "" else [s[0]] + LeadingDigits(s[1..])
  }

  lemma {:induction false} LeadingDigitsOf(d: string, rest: string)
    requires AllDigits(d) && (rest != "" ==> !IsDigit(rest[0]))
    ensures LeadingDigits(d + rest) == d
  {
    if d != "" {
      LeadingDigitsOf(d[1..], rest);
      assert (d + rest)[1..] == d[1..] + rest;
    } else {
      assert d + rest == rest;
    }
  }

  function Decimal(n: nat): (s: string)
    ensures s != "" && AllDigits(s) && Number(s) == n
  {
    if n < 10 then
      var s := [DigitChar(n)];
      assert s[..0] == "" && Number(s[..0]) == 0;
      s
    else
      var s := Decimal(n / 10) + [DigitChar(n % 10)];
      assert s[..|s| - 1] == Decimal(n / 10);
      s
  }

  /** strconv.Itoa and the verb %d. */
  function Itoa(n: int): (s: string)
    ensures s != ""
    ensures forall i :: 0 <= i < |s| ==> IsDigit(s[i]) || s[i] == '-'
  {
    if n < 0 then "-" + Decimal(-n) else Decimal(n)
  }

  /** strconv.ParseInt with its error ignored: what is no number reads as 0. */
  function Atoi(s: string): int {
    if s != "" && AllDigits(s) then Number(s)
    else if |s| > 1 && s[0] == '-' && AllDigits(s[1..]) then 0 - Number(s[1..])
    else if |s| > 1 && s[0] == '+' && AllDigits(s[1..]) then Number(s[1..])
    else 0
  }

  lemma AtoiOfItoa(n: int)
    ensures Atoi(Itoa(n)) == n
  {
    if n < 0 {
      assert Itoa(n)[0] == '-' && !AllDigits(Itoa(n));
      assert Itoa(n)[1..] == Decimal(-n);
    }
  }

  lemma ItoaInjective(m: int, n: int)
    requires Itoa(m) == Itoa(n)
    ensures m == n
  {
    AtoiOfItoa(m);
    AtoiOfItoa(n);
  }
}
