/** FFmpeg's stderr, split into lines. FFmpeg ends its progress lines with CR and other lines
    with LF or CRLF; scanCRLF is handed whatever part of the stream the buffer holds. */
module LineScanner {
  import opened Wrappers

  predicate IsBreak(c: char) { c == '\r' || c == '\n' }

  predicate NoBreak(s: string) { forall i :: 0 <= i < |s| ==> !IsBreak(s[i]) }

  // ---------- the reference splitter ----------

  /** A line and the separator that ended it, which is empty at the end of the stream. */
  datatype Piece = Piece(line: string, sep: string)

  /** The position of the first CR or LF, or the length. */
  function FirstBreak(s: string): (i: nat)
    ensures i <= |s| && NoBreak(s[..i])
    ensures i < |s| ==> IsBreak(s[i])
  {
    if s == "" || IsBreak(s[0]) then 0
    else
      var i := 1 + FirstBreak(s[1..]);
      assert s[..i] == [s[0]] + s[1..][..i - 1];
      i
  }

  /** The separator at a break: CRLF counts as one. */
  function SepAt(s: string, i: nat): (sep: string)
    requires i < |s| && IsBreak(s[i])
    ensures sep != "" && i + |sep| <= |s| && s[i..i + |sep|] == sep
  {
    if s[i] == '\r' && i + 1 < |s| && s[i + 1] == '\n' then "\r\n" else [s[i]]
  }

  function Pieces(s: string): seq<Piece>
    decreases |s|
  {
    var i := FirstBreak(s);
    if s == "" then []
    else if i == |s| then [Piece(s, "")]
    else
      var sep := SepAt(s, i);
      [Piece(s[..i], sep)] + Pieces(s[i + |sep|..])
  }

  function LinesOf(ps: seq<Piece>): (r: seq<string>)
    ensures |r| == |ps| && forall k :: 0 <= k < |ps| ==> r[k] == ps[k].line
  {
    if ps == [] then [] else [ps[0].line] + LinesOf(ps[1..])
  }

  /** The lines of a whole stream. */
  function Lines(s: string): seq<string> {
    LinesOf(Pieces(s))
  }

  function Join(ps: seq<Piece>): string {
    if ps == [] then "" else ps[0].line + ps[0].sep + Join(ps[1..])
  }

  predicate IsSep(sep: string) {
    sep == "" || sep == "\r" || sep == "\n" || sep == "\r\n"
  }

  /** One line of a decomposition of a stream at CRLF, lone CR and LF, and what follows it. */
  predicate PieceOk(p: Piece, rest: seq<Piece>) {
    && NoBreak(p.line)
    && IsSep(p.sep)
    && (p.sep == "" ==> rest == [] && p.line != "")
    && (p.sep == "\r" && rest != [] ==> !(rest[0].line == "" && rest[0].sep == "\n"))
  }

  /** A decomposition of a stream: no line contains a separator, only the last line may lack one
      and is then not empty, and no CRLF is taken apart. */
  predicate IsSplit(ps: seq<Piece>) {
    ps != [] ==> PieceOk(ps[0], ps[1..]) && IsSplit(ps[1..])
  }

  lemma StartsWithLf(ps: seq<Piece>)
    requires IsSplit(ps)
    ensures Join(ps) != "" && Join(ps)[0] == '\n' <==> ps != [] && ps[0].line == "" && ps[0].sep == "\n"
  {
    if ps != [] {
      if ps[0].line != "" {
        assert Join(ps)[0] == ps[0].line[0];
      } else {
        assert Join(ps)[0] == ps[0].sep[0];
      }
    }
  }

  lemma {:induction false} FirstBreakOf(line: string, tail: string)
    requires NoBreak(line) && (tail != "" ==> IsBreak(tail[0]))
    ensures FirstBreak(line + tail) == |line|
  {
    if line == "" {
      assert line + tail == tail;
    } else {
      FirstBreakOf(line[1..], tail);
      assert (line + tail)[1..] == line[1..] + tail;
    }
  }

  lemma CutAt(s: string, i: nat, sep: string)
    requires i + |sep| <= |s| && s[i..i + |sep|] == sep
    ensures s == s[..i] + sep + s[i + |sep|..]
  {
  }

  /** The first piece, when the stream has a break. */
  lemma FirstPiece(s: string)
    requires FirstBreak(s) < |s|
    ensures var i := FirstBreak(s);
            var sep := SepAt(s, i);
            var rest := s[i + |sep|..];
            && Pieces(s) == [Piece(s[..i], sep)] + Pieces(rest)
            && IsSep(sep) && sep != ""
            && s == s[..i] + sep + rest
            && (sep == "\r" && rest != "" ==> rest[0] != '\n')
  {
    CutAt(s, FirstBreak(s), SepAt(s, FirstBreak(s)));
  }

  /** Every stream is decomposed: the lines with their separators add up to it again. */
  lemma {:induction false} PiecesSplit(s: string)
    ensures IsSplit(Pieces(s)) && Join(Pieces(s)) == s
    decreases |s|
  {
    var i := FirstBreak(s);
    if s == "" {
    } else if i == |s| {
      var p := Piece(s, "");
      assert Pieces(s) == [p] && [p][1..] == [];
      assert s[..i] == s;
    } else {
      FirstPiece(s);
      var p, rest := Piece(s[..i], SepAt(s, i)), s[i + |SepAt(s, i)|..];
      PiecesSplit(rest);
      StartsWithLf(Pieces(rest));
      SplitCons(p, Pieces(rest));
    }
  }

  lemma SplitCons(p: Piece, ps: seq<Piece>)
    requires PieceOk(p, ps) && IsSplit(ps)
    ensures IsSplit([p] + ps) && Join([p] + ps) == p.line + p.sep + Join(ps)
  {
    assert ([p] + ps)[1..] == ps;
  }

  lemma SepOf(p: Piece, more: string)
    requires IsSep(p.sep) && p.sep != ""
    requires p.sep == "\r" && more != "" ==> more[0] != '\n'
    ensures var s, i := p.line + (p.sep + more), |p.line|;
            IsBreak(s[i]) && SepAt(s, i) == p.sep && s[..i] == p.line && s[i + |p.sep|..] == more
  {
    var s, i, tail := p.line + (p.sep + more), |p.line|, p.sep + more;
    assert s[i..] == tail;
    assert s[i] == tail[0];
    if |tail| > 1 { assert s[i + 1] == tail[1]; }
  }

  lemma PiecesOfFirst(p: Piece, rest: seq<Piece>)
    requires PieceOk(p, rest) && IsSplit(rest)
    ensures Pieces(p.line + p.sep + Join(rest)) == [p] + Pieces(Join(rest))
  {
    var more := Join(rest);
    var s := p.line + (p.sep + more);
    assert s == p.line + p.sep + more;
    FirstBreakOf(p.line, p.sep + more);
    if p.sep != "" {
      StartsWithLf(rest);
      SepOf(p, more);
    } else {
      assert s == p.line;
    }
  }

  lemma SplitOfFirst(p: Piece, rest: seq<Piece>)
    requires PieceOk(p, rest) && IsSplit(rest) && Pieces(Join(rest)) == rest
    ensures Pieces(Join([p] + rest)) == [p] + rest
  {
    SplitCons(p, rest);
    PiecesOfFirst(p, rest);
  }

  /** The decomposition is unique: the reference splitter gives the one there is. */
  lemma {:induction false} SplitIsUnique(ps: seq<Piece>)
    requires IsSplit(ps)
    ensures Pieces(Join(ps)) == ps
    decreases |ps|
  {
    if ps != [] {
      var p, rest := ps[0], ps[1..];
      SplitIsUnique(rest);
      SplitOfFirst(p, rest);
      assert ps == [p] + rest;
    }
  }

  // ---------- scanCRLF ----------

  /** What scanCRLF returns: how far to advance, and the line if there is one. */
  datatype Scanned = Scanned(advance: nat, line: Option<string>)

  function Split(data: string, atEOF: bool): Scanned {
    var i := FirstBreak(data);
    if i == |data| then
      if atEOF && data != "" then Scanned(|data|, Some(data)) else Scanned(0, None)
    else if data[i] == '\r' && i + 1 == |data| && !atEOF then Scanned(0, None)
    else Scanned(i + |SepAt(data, i)|, Some(data[..i]))
  }

  lemma FirstBreakAt(data: string, i: nat)
    requires i < |data| && NoBreak(data[..i]) && IsBreak(data[i])
    ensures FirstBreak(data) == i
  {
    FirstBreakOf(data[..i], data[i..]);
    assert data[..i] + data[i..] == data;
  }

  /** The bufio.SplitFunc. Its branch that trims a CR before an LF is never taken, since the loop
      stops at the CR. */
  method ScanCRLF(data: string, atEOF: bool) returns (r: Scanned)
    ensures r == Split(data, atEOF)
  {
    if atEOF && |data| == 0 {
      return Scanned(0, None);
    }
    var i := 0;
    while i < |data|
      invariant 0 <= i <= |data| && NoBreak(data[..i])
    {
      if data[i] == '\n' {
        FirstBreakAt(data, i);
        var end := i;
        if end > 0 && data[end - 1] == '\r' {
          end := end - 1;
        }
        assert i > 0 ==> data[i - 1] == data[..i][i - 1];
        return Scanned(i + 1, Some(data[..end]));
      }
      if data[i] == '\r' {
        FirstBreakAt(data, i);
        if i + 1 < |data| {
          if data[i + 1] == '\n' {
            return Scanned(i + 2, Some(data[..i]));
          }
          return Scanned(i + 1, Some(data[..i]));
        }
        if atEOF {
          return Scanned(|data|, Some(data[..i]));
        }
        return Scanned(0, None);
      }
      assert data[..i + 1] == data[..i] + [data[i]];
      i := i + 1;
    }
    assert data[..i] == data;
    FirstBreakOf(data, "");
    assert data + "" == data;
    if atEOF {
      return Scanned(|data|, Some(data));
    }
    return Scanned(0, None);
  }

  /** A line found in a partial buffer stays what it is, whatever follows: more data, or the end
      of the stream. */
  lemma LineIsFinal(data: string, more: string, atEOF: bool)
    requires Split(data, false).line.Some?
    ensures Split(data + more, atEOF) == Split(data, false)
    ensures Split(data, false).advance > 0
  {
    var i := FirstBreak(data);
    var all := data + more;
    assert all[..i] == data[..i];
    assert all[i] == data[i];
    FirstBreakAt(all, i);
    if i + 1 < |data| {
      assert all[i + 1] == data[i + 1];
    }
  }

  lemma LinesCons(p: Piece, ps: seq<Piece>)
    ensures LinesOf([p] + ps) == [p.line] + LinesOf(ps)
  {
    assert ([p] + ps)[1..] == ps;
  }

  /** The first line of a stream with a break, and what is left after it. */
  lemma FirstLine(s: string)
    requires FirstBreak(s) < |s|
    ensures var i := FirstBreak(s); Lines(s) == [s[..i]] + Lines(s[i + |SepAt(s, i)|..])
  {
    FirstPiece(s);
    var i := FirstBreak(s);
    LinesCons(Piece(s[..i], SepAt(s, i)), Pieces(s[i + |SepAt(s, i)|..]));
  }

  lemma LineIsFirst(data: string, more: string)
    requires Split(data, false).line.Some?
    ensures var r := Split(data, false);
            r.advance <= |data| && Lines(data + more) == [r.line.value] + Lines(data[r.advance..] + more)
  {
    var r := Split(data, false);
    LineIsFinal(data, more, true);
    SplitFindsBreak(data, more);
    FirstLineIsSplit(data + more);
    assert (data + more)[r.advance..] == data[r.advance..] + more;
  }

  /** At the end of the stream, scanCRLF finds its first line. */
  lemma FirstLineIsSplit(s: string)
    requires FirstBreak(s) < |s|
    ensures var r := Split(s, true);
            r.line.Some? && r.advance <= |s| && Lines(s) == [r.line.value] + Lines(s[r.advance..])
  {
    FirstLine(s);
  }

  lemma SplitFindsBreak(data: string, more: string)
    requires Split(data, false).line.Some?
    ensures FirstBreak(data + more) < |data + more|
  {
    var i := FirstBreak(data);
    assert (data + more)[i] == data[i];
    assert (data + more)[..i] == data[..i];
    FirstBreakAt(data + more, i);
  }

  lemma LastLineIsFirst(data: string)
    requires data != ""
    ensures var r := Split(data, true);
            r.line.Some? && r.advance <= |data| && Lines(data) == [r.line.value] + Lines(data[r.advance..])
  {
    if FirstBreak(data) == |data| {
      LinesCons(Piece(data, ""), []);
      assert Pieces(data) == [Piece(data, "")] + [];
      assert data[|data|..] == "" && Lines("") == [];
    } else {
      FirstLineIsSplit(data);
    }
  }

  /** What scanCRLF finds in the buffer is the next line of the stream. */
  lemma NextLine(data: string, more: string, atEOF: bool)
    requires atEOF ==> more == ""
    ensures var r := Split(data, atEOF);
            && r.advance <= |data|
            && (r.line.None? ==> r.advance == 0 && (atEOF ==> data == ""))
            && (r.line.Some? ==> Lines(data + more) == [r.line.value] + Lines(data[r.advance..] + more))
  {
    var r := Split(data, atEOF);
    if atEOF && data != "" {
      LastLineIsFirst(data);
      assert data + more == data && data[r.advance..] + more == data[r.advance..];
    } else if r.line.Some? {
      LineIsFirst(data, more);
    }
  }

  // ---------- the scanner that drives it ----------

  function Concat(chunks: seq<string>): string {
    if chunks == [] then "" else chunks[0] + Concat(chunks[1..])
  }

  /** bufio.Scanner over a reader: `chunks` is what its coming Read calls deliver, and the end of
      the stream comes with the last of them or in a Read of its own. */
  class Scanner {
    var buf: string
    var chunks: seq<string>
    var eof: bool
    const eofWithLast: bool
    ghost var pending: seq<string>  // the lines that are still to come

    constructor (chunks: seq<string>, eofWithLast: bool)
      ensures Valid() && pending == Lines(Concat(chunks))
    {
      buf := "";
      this.chunks := chunks;
      eof := false;
      this.eofWithLast := eofWithLast;
      pending := Lines(Concat(chunks));
      assert "" + Concat(chunks) == Concat(chunks);
    }

    ghost predicate Valid()
      reads this
    {
      (eof ==> chunks == []) && pending == Lines(buf + Concat(chunks))
    }

    /** One Read: more data, the end of the stream, or both. */
    method Fill()
      requires Valid() && !eof
      modifies this`buf, this`chunks, this`eof
      ensures Valid()
      ensures |chunks| < |old(chunks)| || (chunks == old(chunks) && eof)
    {
      if chunks == [] {
        eof := true;
      } else {
        assert buf + Concat(chunks) == buf + chunks[0] + Concat(chunks[1..]);
        buf := buf + chunks[0];
        chunks := chunks[1..];
        if chunks == [] && eofWithLast {
          eof := true;
        }
      }
    }

    /** Delivers the lines of the stream one by one, however it is cut into reads. */
    method Scan() returns (ok: bool, line: string)
      requires Valid()
      modifies this
      ensures Valid()
      ensures ok <==> old(pending) != []
      ensures ok ==> old(pending) == [line] + pending
      ensures !ok ==> pending == []
    {
      line := "";
      while true
        invariant Valid() && pending == old(pending)
        decreases |chunks|, !eof
      {
        if buf != "" || eof {
          var r := ScanCRLF(buf, eof);
          ghost var more := Concat(chunks);
          NextLine(buf, more, eof);
          buf := buf[r.advance..];
          if r.line.Some? {
            pending := Lines(buf + more);
            return true, r.line.value;
          }
        }
        if eof {
          buf := "";
          return false, line;
        }
        Fill();
      }
    }
  }
}
