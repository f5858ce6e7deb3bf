/** grep's search of a file through a window of 1024 bytes, against a search of the whole file. */
module Grep {
  import opened Types
  import opened Numerals

  const BUFSIZE := 1024
  const COLON: byte := 58
  // "file open failed", "file read failed", "file close failed"
  const OPEN_FAILED: seq<byte> := [102, 105, 108, 101, 32, 111, 112, 101, 110, 32, 102, 97, 105, 108, 101, 100, NEWLINE]
  const READ_FAILED: seq<byte> := [102, 105, 108, 101, 32, 114, 101, 97, 100, 32, 102, 97, 105, 108, 101, 100, NEWLINE]
  const CLOSE_FAILED: seq<byte> := [102, 105, 108, 101, 32, 99, 108, 111, 115, 101, 32, 102, 97, 105, 108, 101, 100, NEWLINE]

  // ----- the search of the whole file -----

  predicate MatchAt(line: seq<byte>, pattern: seq<byte>, i: nat) {
    i + |pattern| <= |line| && line[i..i + |pattern|] == pattern
  }

  /** A line holds the pattern somewhere; an empty pattern is nowhere. */
  predicate Contains(line: seq<byte>, pattern: seq<byte>) {
    pattern != [] && exists i: nat | i < |line| :: MatchAt(line, pattern, i)
  }

  /** A byte as the signed char that the pattern consists of. */
  function SignedChar(b: byte): int {
    if b < 0x80 then b else b - 0x100
  }

  /** The program sees the pattern: the bytes of the line are unsigned, so a first byte of 0x80 or more equals none. */
  predicate SeenAt(line: seq<byte>, pattern: seq<byte>, i: nat) {
    pattern != [] && SignedChar(pattern[0]) == pattern[0] && MatchAt(line, pattern, i)
  }

  predicate Seen(line: seq<byte>, pattern: seq<byte>) {
    exists i: nat | i < |line| :: SeenAt(line, pattern, i)
  }

  /** The pattern can match at all. */
  predicate Matchable(pattern: seq<byte>) {
    pattern == [] || pattern[0] < 0x80
  }

  lemma SeenIff(line: seq<byte>, pattern: seq<byte>)
    ensures Seen(line, pattern) <==> Contains(line, pattern) && Matchable(pattern)
  {
    if Contains(line, pattern) && Matchable(pattern) {
      var i: nat :| i < |line| && MatchAt(line, pattern, i);
      assert SeenAt(line, pattern, i);
    }
  }

  /** What is printed for a line. */
  function Report(pattern: seq<byte>, fname: seq<byte>, line: seq<byte>): seq<byte> {
    if Seen(line, pattern) then fname + [COLON] + line + [NEWLINE] else []
  }

  predicate OneLine(text: seq<byte>) {
    forall i | 0 <= i < |text| :: text[i] != NEWLINE
  }

  /** Where the first line ends. */
  function LineEnd(f: seq<byte>): (e: nat)
    ensures e <= |f| && forall i | 0 <= i < e :: f[i] != NEWLINE
    ensures e < |f| ==> f[e] == NEWLINE
  {
    if f == [] || f[0] == NEWLINE then 0 else 1 + LineEnd(f[1..])
  }

  lemma LineEndIs(f: seq<byte>, e: nat)
    requires e <= |f| && forall i | 0 <= i < e :: f[i] != NEWLINE
    requires e < |f| ==> f[e] == NEWLINE
    ensures LineEnd(f) == e
  {
  }

  /** What follows the first line, or some line that ends at e. */
  function After(f: seq<byte>, e: nat): (r: seq<byte>)
    ensures f != [] ==> |r| < |f|
  {
    if e < |f| then f[e + 1..] else []
  }

  /** The lines of a file; the last need not end in a newline. */
  function Lines(f: seq<byte>): seq<seq<byte>>
    decreases |f|
  {
    if f == [] then [] else [f[..LineEnd(f)]] + Lines(After(f, LineEnd(f)))
  }

  /** Lines put together again, each with its newline. */
  function Unlines(lines: seq<seq<byte>>): seq<byte> {
    if lines == [] then [] else lines[0] + [10] + Unlines(lines[1..])
  }

  lemma UnlinesFirst(line: seq<byte>, lines: seq<seq<byte>>)
    ensures Unlines([line] + lines) == line + [10] + Unlines(lines)
  {
    assert ([line] + lines)[1..] == lines;
  }

  /** The first line, and what follows it. */
  lemma FileIs(f: seq<byte>) returns (line: seq<byte>, rest: seq<byte>)
    requires f != []
    ensures line == f[..LineEnd(f)] && rest == After(f, LineEnd(f)) && |rest| < |f| && 10 !in line
    ensures (f == line && rest == []) || f == line + [10] + rest
  {
    var e := LineEnd(f);
    line, rest := f[..e], After(f, e);
  }

  /** A file with a newline at its end. */
  function Ended(f: seq<byte>): seq<byte> {
    if f == [] || f[|f| - 1] == 10 then f else f + [10]
  }

  lemma EndedAfter(line: seq<byte>, rest: seq<byte>)
    ensures Ended(line + [10] + rest) == line + [10] + Ended(rest)
  {
    var f := line + [10] + rest;
    if rest != [] {
      assert f[|f| - 1] == rest[|rest| - 1];
      assert line + [10] + (rest + [10]) == f + [10];
    }
  }

  /** The lines of a file are the file, whether or not the last one ends in a newline. */
  lemma {:induction false} LinesAreTheFile(f: seq<byte>)
    ensures Unlines(Lines(f)) == Ended(f)
    decreases |f|
  {
    if f != [] {
      var line, rest := FileIs(f);
      LinesAreTheFile(rest);
      UnlinesFirst(line, Lines(rest));
      if f == line && rest == [] {
        assert f[|f| - 1] in line;
        assert line + [10] + [] == f + [10];
      } else {
        EndedAfter(line, rest);
      }
    }
  }

  /** And hold no newline themselves. */
  lemma {:induction false} LinesAreLines(f: seq<byte>, i: nat)
    requires i < |Lines(f)|
    ensures 10 !in Lines(f)[i]
    decreases |f|
  {
    var line, rest := FileIs(f);
    if i > 0 {
      LinesAreLines(rest, i - 1);
    }
  }

  function Reports(pattern: seq<byte>, fname: seq<byte>, lines: seq<seq<byte>>): seq<byte> {
    if lines == [] then [] else Report(pattern, fname, lines[0]) + Reports(pattern, fname, lines[1..])
  }

  /** Lines of 1024 bytes or more are cut after every 1024 bytes. */
  function Piece(f: seq<byte>): (n: nat)
    ensures n <= |f| && n <= BUFSIZE
  {
    if LineEnd(f) < BUFSIZE then LineEnd(f) else BUFSIZE
  }

  /** What follows a piece of n bytes. */
  function Beyond(f: seq<byte>, n: nat): seq<byte>
    requires n <= |f|
  {
    if n < BUFSIZE then After(f, n) else f[n..]
  }

  function Pieces(f: seq<byte>): seq<seq<byte>>
    decreases |f|
  {
    if f == [] then [] else [f[..Piece(f)]] + Pieces(Beyond(f, Piece(f)))
  }

  /** What the program finds in a file. */
  function Found(pattern: seq<byte>, fname: seq<byte>, f: seq<byte>): seq<byte> {
    Reports(pattern, fname, Pieces(f))
  }

  lemma FoundPiece(pattern: seq<byte>, fname: seq<byte>, f: seq<byte>)
    ensures f != [] ==>
              Found(pattern, fname, f) == Report(pattern, fname, f[..Piece(f)]) + Found(pattern, fname, Beyond(f, Piece(f)))
  {
  }

  /** The first line of a window is known: it ends in the window, or the window is full, or the file ends. */
  predicate Cut(win: seq<byte>, e: nat, rest: seq<byte>) {
    && e <= |win| <= BUFSIZE && OneLine(win[..e])
    && if e < |win| then win[e] == NEWLINE else |win| == BUFSIZE || rest == []
  }

  /** What the search of the first line of a window leaves to find. */
  lemma FoundNext(pattern: seq<byte>, fname: seq<byte>, win: seq<byte>, e: nat, rest: seq<byte>)
    requires Cut(win, e, rest)
    ensures Found(pattern, fname, win + rest)
         == Report(pattern, fname, win[..e]) + Found(pattern, fname, After(win, e) + rest)
  {
    var f := win + rest;
    NothingInNothing(pattern, fname);
    FoundPiece(pattern, fname, f);
    FirstPiece(win, e, rest);
  }

  lemma FirstPiece(win: seq<byte>, e: nat, rest: seq<byte>)
    requires Cut(win, e, rest)
    ensures var f := win + rest; Piece(f) == e && f[..e] == win[..e] && Beyond(f, e) == After(win, e) + rest
  {
    var f := win + rest;
    assert forall i | 0 <= i < e :: f[i] == win[..e][i];
    if e < BUFSIZE {
      LineEndIs(f, e);
    }
  }

  /** All that the program has to know of what it is to find. */
  ghost predicate Law(found: seq<byte> -> seq<byte>, pattern: seq<byte>, fname: seq<byte>) {
    && found([]) == []
    && forall win, e: nat, rest {:trigger Cut(win, e, rest)} | Cut(win, e, rest) ::
         found(win + rest) == Report(pattern, fname, win[..e]) + found(After(win, e) + rest)
  }

  lemma Finder(pattern: seq<byte>, fname: seq<byte>, file: seq<byte>) returns (found: seq<byte> -> seq<byte>)
    ensures Law(found, pattern, fname) && found(file) == Found(pattern, fname, file)
  {
    NothingInNothing(pattern, fname);
    forall win, e: nat, rest | Cut(win, e, rest)
      ensures Found(pattern, fname, win + rest)
           == Report(pattern, fname, win[..e]) + Found(pattern, fname, After(win, e) + rest)
    {
      FoundNext(pattern, fname, win, e, rest);
    }
    found := f => Found(pattern, fname, f);
  }

  /** What is printed so far, and what is still to be found, make up what is to be printed. */
  predicate Owed(found: seq<byte> -> seq<byte>, win: seq<byte>, rest: seq<byte>, out: seq<byte>, goal: seq<byte>) {
    out + found(win + rest) == goal
  }

  /** The window after a line. */
  function Left(data: seq<byte>, end: nat, last: nat): seq<byte>
    requires end <= last < |data|
  {
    if end < last then data[end + 1..last] else []
  }

  lemma LineKept(was: seq<byte>, now: seq<byte>, start: nat, end: nat, last: nat)
    requires start <= end <= last < |was| && NUL !in was[start..last] && now == was[end := NUL]
    ensures was[start..last][..end - start] == now[start..end] && StringAt(now, start, end - start)
    ensures After(was[start..last], end - start) == Left(now, end, last) && NUL !in Left(now, end, last)
  {
  }

  lemma LineSearched(was: seq<byte>, now: seq<byte>, start: nat, end: nat, last: nat,
                     pattern: seq<byte>, fname: seq<byte>, found: seq<byte> -> seq<byte>,
                     rest: seq<byte>, out: seq<byte>, goal: seq<byte>)
    requires start <= end <= last < |was| && Cut(was[start..last], end - start, rest)
    requires NUL !in was[start..last] && now == was[end := NUL]
    requires Law(found, pattern, fname) && Owed(found, was[start..last], rest, out, goal)
    ensures StringAt(now, start, end - start) && NUL !in Left(now, end, last)
    ensures Owed(found, Left(now, end, last), rest, out + Report(pattern, fname, now[start..end]), goal)
  {
    LineKept(was, now, start, end, last);
  }

  lemma WindowFilled(data: seq<byte>, carried: seq<byte>, file: seq<byte>, was: nat, now: nat)
    requires was <= now <= |file| && |carried| + now - was <= |data|
    requires data[..|carried|] == carried && data[|carried|..|carried| + now - was] == file[was..now]
    requires NUL !in carried && NUL !in file
    ensures var win := data[..|carried| + now - was]; NUL !in win && win + file[now..] == carried + file[was..]
  {
  }

  lemma NothingInNothing(pattern: seq<byte>, fname: seq<byte>)
    ensures Report(pattern, fname, []) == [] && Found(pattern, fname, []) == []
  {
  }

  // ----- when the program finds what the search of the whole lines finds -----

  lemma LineGoesOn(f: seq<byte>)
    requires LineEnd(f) >= BUFSIZE
    ensures LineEnd(f[BUFSIZE..]) == LineEnd(f) - BUFSIZE
    ensures After(f[BUFSIZE..], LineEnd(f) - BUFSIZE) == After(f, LineEnd(f))
  {
    var g, e := f[BUFSIZE..], LineEnd(f) - BUFSIZE;
    assert forall i | 0 <= i < e :: g[i] == f[BUFSIZE + i];
    LineEndIs(g, e);
    assert e < |g| ==> g[e + 1..] == f[BUFSIZE + e + 1..];
  }

  /** An empty piece is never printed. */
  lemma FoundEmptyLine(pattern: seq<byte>, fname: seq<byte>, f: seq<byte>)
    requires LineEnd(f) == 0
    ensures Found(pattern, fname, f) == Found(pattern, fname, After(f, 0))
  {
  }

  /** A line of 1024 bytes leaves an empty piece behind. */
  lemma FoundShort(pattern: seq<byte>, fname: seq<byte>, f: seq<byte>)
    requires f != [] && LineEnd(f) <= BUFSIZE
    ensures Found(pattern, fname, f) == Report(pattern, fname, f[..LineEnd(f)]) + Found(pattern, fname, After(f, LineEnd(f)))
  {
    FoundPiece(pattern, fname, f);
    if LineEnd(f) == BUFSIZE {
      LineGoesOn(f);
      FoundEmptyLine(pattern, fname, f[BUFSIZE..]);
    }
  }

  lemma FoundLong(pattern: seq<byte>, fname: seq<byte>, f: seq<byte>)
    requires LineEnd(f) > BUFSIZE
    ensures Found(pattern, fname, f) == Report(pattern, fname, f[..BUFSIZE]) + Found(pattern, fname, f[BUFSIZE..])
  {
  }

  /** What is printed first, if anything, ends within 1024 bytes of its colon. */
  predicate StartsShort(fname: seq<byte>, out: seq<byte>) {
    out == [] || exists i | |fname| < i <= |fname| + 1 + BUFSIZE && i < |out| :: out[i] == NEWLINE
  }

  lemma {:induction false} FoundStartsShort(pattern: seq<byte>, fname: seq<byte>, f: seq<byte>)
    ensures StartsShort(fname, Found(pattern, fname, f))
    decreases |f|
  {
    if f != [] {
      var n, left := if LineEnd(f) <= BUFSIZE then LineEnd(f) else BUFSIZE, [];
      if LineEnd(f) <= BUFSIZE {
        FoundShort(pattern, fname, f);
        left := After(f, n);
      } else {
        FoundLong(pattern, fname, f);
        left := f[n..];
      }
      FoundStartsShort(pattern, fname, left);
      ReportStartsShort(pattern, fname, f[..n], Found(pattern, fname, left));
    }
  }

  lemma ReportStartsShort(pattern: seq<byte>, fname: seq<byte>, line: seq<byte>, more: seq<byte>)
    requires |line| <= BUFSIZE && StartsShort(fname, more)
    ensures StartsShort(fname, Report(pattern, fname, line) + more)
  {
    if Seen(line, pattern) {
      assert (Report(pattern, fname, line) + more)[|fname| + 1 + |line|] == NEWLINE;
    } else {
      assert [] + more == more;
    }
  }

  lemma LongReportDiffers(pattern: seq<byte>, fname: seq<byte>, line: seq<byte>, more: seq<byte>, out: seq<byte>)
    requires Seen(line, pattern) && |line| > BUFSIZE && OneLine(line) && StartsShort(fname, out)
    ensures out != Report(pattern, fname, line) + more
  {
  }

  lemma PartShowsNoMore(line: seq<byte>, part: seq<byte>, at: nat, pattern: seq<byte>)
    requires at + |part| <= |line| && part == line[at..at + |part|] && Seen(part, pattern)
    ensures Seen(line, pattern)
  {
    var i: nat :| i < |part| && SeenAt(part, pattern, i);
    forall j | 0 <= j < |pattern| ensures line[at + i + j] == pattern[j] {
      assert part[i..i + |pattern|][j] == part[i + j];
    }
    assert SeenAt(line, pattern, at + i);
  }

  predicate MatchesAreShort(pattern: seq<byte>, lines: seq<seq<byte>>) {
    forall i | 0 <= i < |lines| :: Seen(lines[i], pattern) ==> |lines[i]| <= BUFSIZE
  }

  lemma FirstOfLines(pattern: seq<byte>, fname: seq<byte>, line: seq<byte>, lines: seq<seq<byte>>)
    ensures Reports(pattern, fname, [line] + lines) == Report(pattern, fname, line) + Reports(pattern, fname, lines)
    ensures MatchesAreShort(pattern, [line] + lines)
       <==> (Seen(line, pattern) ==> |line| <= BUFSIZE) && MatchesAreShort(pattern, lines)
  {
  }

  lemma SamePrefix(p: seq<byte>, a: seq<byte>, b: seq<byte>)
    ensures p + a == p + b <==> a == b
  {
    if p + a == p + b {
      assert a == (p + a)[|p|..] && b == (p + b)[|p|..];
    }
  }

  /** Cutting the lines does no harm exactly if none in which the program sees the pattern is longer than 1024 bytes. */
  lemma {:induction false} PiecesShowLinesIff(pattern: seq<byte>, fname: seq<byte>, f: seq<byte>)
    ensures Found(pattern, fname, f) == Reports(pattern, fname, Lines(f)) <==> MatchesAreShort(pattern, Lines(f))
    decreases |f|
  {
    NothingInNothing(pattern, fname);
    if f != [] {
      var e := LineEnd(f);
      var line, left := f[..e], After(f, e);
      FirstOfLines(pattern, fname, line, Lines(left));
      if e <= BUFSIZE {
        PiecesShowLinesIff(pattern, fname, left);
        FoundShort(pattern, fname, f);
        SamePrefix(Report(pattern, fname, line), Found(pattern, fname, left), Reports(pattern, fname, Lines(left)));
      } else if Seen(line, pattern) {
        FoundStartsShort(pattern, fname, f);
        LongReportDiffers(pattern, fname, line, Reports(pattern, fname, Lines(left)), Found(pattern, fname, f));
      } else {
        LongLineHoldsNothing(pattern, fname, f);
        PiecesShowLinesIff(pattern, fname, f[BUFSIZE..]);
      }
    }
  }

  lemma FirstLine(f: seq<byte>, e: nat, line: seq<byte>, left: seq<byte>)
    requires f != [] && LineEnd(f) == e && line == f[..e] && left == After(f, e)
    ensures Lines(f) == [line] + Lines(left)
  {
  }

  lemma LinesLong(f: seq<byte>, line: seq<byte>, left: seq<byte>)
    requires LineEnd(f) > BUFSIZE && line == f[..LineEnd(f)] && left == After(f, LineEnd(f))
    ensures Lines(f) == [line] + Lines(left) && Lines(f[BUFSIZE..]) == [line[BUFSIZE..]] + Lines(left)
  {
    var e := LineEnd(f);
    FirstLine(f, e, line, left);
    LineGoesOn(f);
    assert line[BUFSIZE..] == f[BUFSIZE..][..e - BUFSIZE];
    FirstLine(f[BUFSIZE..], e - BUFSIZE, line[BUFSIZE..], left);
  }

  lemma LongLineHoldsNothing(pattern: seq<byte>, fname: seq<byte>, f: seq<byte>)
    requires LineEnd(f) > BUFSIZE && !Seen(f[..LineEnd(f)], pattern)
    ensures Found(pattern, fname, f) == Found(pattern, fname, f[BUFSIZE..])
    ensures Reports(pattern, fname, Lines(f)) == Reports(pattern, fname, Lines(f[BUFSIZE..]))
    ensures MatchesAreShort(pattern, Lines(f)) <==> MatchesAreShort(pattern, Lines(f[BUFSIZE..]))
  {
    var e := LineEnd(f);
    var line, left := f[..e], After(f, e);
    if Seen(line[..BUFSIZE], pattern) {
      PartShowsNoMore(line, line[..BUFSIZE], 0, pattern);
    }
    if Seen(line[BUFSIZE..], pattern) {
      PartShowsNoMore(line, line[BUFSIZE..], BUFSIZE, pattern);
    }
    assert line[..BUFSIZE] == f[..BUFSIZE];
    FoundLong(pattern, fname, f);
    LinesLong(f, line, left);
    FirstOfLines(pattern, fname, line, Lines(left));
    FirstOfLines(pattern, fname, line[BUFSIZE..], Lines(left));
  }

  /** The search of the whole lines. */
  function LineSearch(pattern: seq<byte>, fname: seq<byte>, lines: seq<seq<byte>>): seq<byte> {
    if lines == [] then []
    else (if Contains(lines[0], pattern) then fname + [COLON] + lines[0] + [NEWLINE] else []) + LineSearch(pattern, fname, lines[1..])
  }

  predicate NoneContains(pattern: seq<byte>, lines: seq<seq<byte>>) {
    forall i | 0 <= i < |lines| :: !Contains(lines[i], pattern)
  }

  predicate HoldersAreShort(pattern: seq<byte>, lines: seq<seq<byte>>) {
    forall i | 0 <= i < |lines| :: Contains(lines[i], pattern) ==> |lines[i]| <= 1024
  }

  lemma {:induction false} ReportsAreLineSearch(pattern: seq<byte>, fname: seq<byte>, lines: seq<seq<byte>>)
    ensures Matchable(pattern) ==> Reports(pattern, fname, lines) == LineSearch(pattern, fname, lines)
    ensures !Matchable(pattern) ==> Reports(pattern, fname, lines) == []
    ensures LineSearch(pattern, fname, lines) == [] <==> NoneContains(pattern, lines)
  {
    if lines != [] {
      SeenIff(lines[0], pattern);
      ReportsAreLineSearch(pattern, fname, lines[1..]);
      assert forall i | 1 <= i < |lines| :: lines[i] == lines[1..][i - 1];
    }
  }

  /**
   The program prints exactly the lines that hold the pattern, once each and in order, if and only if
   no line that holds it is longer than 1024 bytes, and no line holds it if it starts at 0x80 or above.
   */
  lemma {:induction false} FoundIsLineSearchIff(pattern: seq<byte>, fname: seq<byte>, f: seq<byte>)
    ensures Found(pattern, fname, f) == LineSearch(pattern, fname, Lines(f))
       <==> HoldersAreShort(pattern, Lines(f)) && (Matchable(pattern) || NoneContains(pattern, Lines(f)))
  {
    ReportsAreLineSearch(pattern, fname, Lines(f));
    if Matchable(pattern) {
      PiecesShowLinesIff(pattern, fname, f);
      forall i | 0 <= i < |Lines(f)| ensures Seen(Lines(f)[i], pattern) <==> Contains(Lines(f)[i], pattern) {
        SeenIff(Lines(f)[i], pattern);
      }
    } else {
      ReportsAreLineSearch(pattern, fname, Pieces(f));
    }
  }

  /** Searching the file "\xE9" for "\xE9" prints nothing. */
  lemma HighByteIsMissed(fname: seq<byte>)
    ensures Found([0xE9], fname, [0xE9]) == [] != LineSearch([0xE9], fname, Lines([0xE9]))
  {
    var e9: seq<byte> := [0xE9];
    ReportsAreLineSearch(e9, fname, Pieces(e9));
    LineEndIs(e9, 1);
    assert Lines(e9) == [e9] by {
      assert e9[..1] == e9;
    }
    assert MatchAt(e9, e9, 0);
    ReportsAreLineSearch(e9, fname, Lines(e9));
  }

  // ----- the program -----

  /** strcpy() of the string at an offset of a buffer down to its start. */
  method CarryDown(data: array<byte>, from: nat, ghost n: nat)
    requires StringAt(data[..], from, n)
    modifies data
    ensures data[..n] == old(data[from..from + n])
    ensures forall k | n < k < data.Length :: data[k] == old(data[k])
    ensures data[n] == NUL
  {
    var i := 0;
    while data[from + i] != NUL
      invariant 0 <= i <= n
      invariant forall k | 0 <= k < i :: data[k] == old(data[from + k])
      invariant forall k | i <= k < data.Length :: data[k] == old(data[k])
      decreases n - i
    {
      data[i] := data[from + i];
      i := i + 1;
    }
    data[i] := NUL;
  }

  /** What is left of the window is ended with a NUL and copied to its start. */
  method EndAndCarry(data: array<byte>, start: nat, end: nat)
    requires start <= end < data.Length && NUL !in data[start..end]
    modifies data
    ensures data[..end - start] == old(data[start..end])
    ensures data[data.Length - 1] == NUL || data[data.Length - 1] == old(data[data.Length - 1])
  {
    data[end] := NUL;
    assert data[start..end] == old(data[start..end]);
    CarryDown(data, start, end - start);
  }

  /** ece391_strncmp() of the string at an offset with the whole of another: 0 exactly for a match. */
  method Strncmp(data: array<byte>, at: nat, ghost m: nat, s: array<byte>, sLen: nat) returns (diff: int)
    requires StringAt(data[..], at, m) && StringAt(s[..], 0, sLen)
    ensures diff == 0 <==> sLen <= m && data[at..at + sLen] == s[..sLen]
  {
    if sLen == 0 {
      return 0;
    }
    var i, n := 0, sLen;
    while data[at + i] == s[i]
      invariant 0 <= i < sLen && n == sLen - i && i <= m
      invariant forall k | 0 <= k < i :: data[at + k] == s[k]
      decreases n
    {
      n := n - 1;
      if data[at + i] == NUL || n == 0 {
        return 0;
      }
      i := i + 1;
    }
    var a: int, b: int := data[at + i], s[i];
    diff := a - b;
    assert i < m ==> data[at..][i] == data[at + i];
  }

  /** The end of the line that starts at an offset, or of the window. */
  method FindEnd(data: array<byte>, start: nat, last: nat) returns (end: nat)
    requires start <= last <= data.Length
    ensures start <= end <= last && OneLine(data[start..end])
    ensures end < last ==> data[end] == NEWLINE
  {
    end := start;
    while end < last && data[end] != NEWLINE
      invariant start <= end <= last && OneLine(data[start..end])
    {
      end := end + 1;
    }
  }

  lemma SliceOfSlice(data: seq<byte>, start: nat, end: nat, at: nat, n: nat)
    requires start + at + n <= end <= |data|
    ensures data[start..end][at..at + n] == data[start + at..start + at + n]
  {
    var line, from := data[start..end], start + at;
    var a, b := line[at..at + n], data[from..from + n];
    forall j | 0 <= j < n ensures a[j] == b[j] {
      assert a[j] == line[at + j] == data[from + j];
    }
    assert a == b;
  }

  /** The two tests of one place in a line: the first bytes by themselves, and then the whole pattern. */
  method CheckAt(data: array<byte>, start: nat, end: nat, check: nat, s: array<byte>, sLen: nat) returns (hit: bool)
    requires start <= check < end && StringAt(data[..], start, end - start) && StringAt(s[..], 0, sLen)
    ensures hit <==> SeenAt(data[start..end], s[..sLen], check - start)
  {
    ghost var line, at := data[start..end], check - start;
    if sLen <= end - check {
      SliceOfSlice(data[..], start, end, at, sLen);
    }
    hit := false;
    if SignedChar(s[0]) == data[check] {
      var diff := Strncmp(data, check, end - check, s, sLen);
      hit := diff == 0;
    } else if sLen > 0 && SignedChar(s[0]) == s[0] && at + sLen <= |line| {
      assert line[at..at + sLen][0] == data[check];
    }
  }

  lemma SameSlice(data: seq<byte>, at: nat, file: seq<byte>, from: nat, n: nat)
    requires at + n <= |data| && from + n <= |file|
    requires forall k | at <= k < at + n :: data[k] == file[from + k - at]
    ensures data[at..at + n] == file[from..from + n]
  {
    var a, b := data[at..at + n], file[from..from + n];
    forall j | 0 <= j < n ensures a[j] == b[j] {
      assert a[j] == data[at + j] == file[from + (at + j) - at];
    }
    assert a == b;
  }

  /** Some of what is found, and the complaint about the read. */
  predicate CutShort(was: seq<byte>, found: seq<byte>, now: seq<byte>) {
    && |now| >= |READ_FAILED|
    && var printed := now[..|now| - |READ_FAILED|]; now == printed + READ_FAILED && was <= printed <= was + found
  }

  /** One run of the program on one file: what opening, reading and closing do, and what is printed. */
  class Session {
    const bytes: seq<byte>
    const opens: bool
    /** the number of the read that fails, if any */
    const failing: int
    const closes: bool
    var position: nat
    var readsDone: nat
    var out: seq<byte>

    constructor (file: seq<byte>, opensIt: bool, failingRead: int, closesIt: bool)
      ensures bytes == file && opens == opensIt && failing == failingRead && closes == closesIt
      ensures position == 0 && readsDone == 0 && out == []
    {
      bytes, opens, failing, closes := file, opensIt, failingRead, closesIt;
      position, readsDone, out := 0, 0, [];
    }

    function Rest(): seq<byte>
      requires position <= |bytes|
      reads this`position
    {
      bytes[position..]
    }

    /** A read fails, or is short only at the end of the file. */
    method Read(data: array<byte>, at: nat, n: nat) returns (cnt: int)
      requires position <= |bytes| && at + n <= data.Length
      modifies this`position, this`readsDone, data
      ensures old(position) <= position <= |bytes|
      ensures cnt == -1 ==> old(readsDone) == failing && position == old(position)
      ensures cnt != -1 ==>
                && cnt == position - old(position) == (if |old(Rest())| < n then |old(Rest())| else n)
                && data[at..at + cnt] == bytes[old(position)..position]
      ensures forall k | 0 <= k < at || at + n <= k < data.Length :: data[k] == old(data[k])
    {
      readsDone := readsDone + 1;
      if readsDone - 1 == failing {
        return -1;
      }
      var i := 0;
      while i < n && position < |bytes|
        invariant 0 <= i <= n && position == old(position) + i <= |bytes|
        invariant forall k | at <= k < at + i :: data[k] == bytes[old(position) + k - at]
        invariant forall k | 0 <= k < at || at + n <= k < data.Length :: data[k] == old(data[k])
      {
        data[at + i] := bytes[position];
        position, i := position + 1, i + 1;
      }
      cnt := i;
      SameSlice(data[..], at, bytes, old(position), cnt);
    }

    method Fdputs(text: seq<byte>)
      modifies this`out
      ensures out == old(out) + text
    {
      out := out + text;
    }

    /** ece391_fdputs() of the string at an offset. */
    method FdputsAt(data: array<byte>, at: nat, ghost m: nat)
      requires StringAt(data[..], at, m)
      modifies this`out
      ensures out == old(out) + data[at..at + m]
    {
      var len := Strlen(data, at, m);
      out := out + data[at..at + len];
    }

    /** The search of one line: it is printed once if it holds the pattern. */
    method SearchLine(data: array<byte>, start: nat, end: nat, s: array<byte>, sLen: nat, fname: seq<byte>)
      requires start <= end && StringAt(data[..], start, end - start) && StringAt(s[..], 0, sLen)
      modifies this`out
      ensures out == old(out) + Report(s[..sLen], fname, data[start..end])
    {
      ghost var line, pattern := data[start..end], s[..sLen];
      var check := start;
      while check < end
        invariant start <= check <= end && out == old(out)
        invariant forall i: nat | i < check - start :: !SeenAt(line, pattern, i)
      {
        var hit := CheckAt(data, start, end, check, s, sLen);
        if hit {
          Fdputs(fname);
          Fdputs([COLON]);
          FdputsAt(data, start, end - start);
          Fdputs([NEWLINE]);
          assert SeenAt(line, pattern, check - start);
          assert out == old(out) + (fname + [COLON] + line + [NEWLINE]);
          return;
        }
        check := check + 1;
      }
    }

    /** A line is ended with a NUL and searched. */
    method EndAndSearchLine(data: array<byte>, start: nat, end: nat, ghost last: nat, s: array<byte>, sLen: nat,
                            fname: seq<byte>, ghost found: seq<byte> -> seq<byte>,
                            ghost rest: seq<byte>, ghost goal: seq<byte>)
      requires data != s && start <= end <= last < data.Length && StringAt(s[..], 0, sLen)
      requires NUL !in data[start..last] && Cut(data[start..last], end - start, rest)
      requires Law(found, s[..sLen], fname) && Owed(found, data[start..last], rest, out, goal)
      modifies this`out, data
      ensures NUL !in Left(data[..], end, last) && Owed(found, Left(data[..], end, last), rest, out, goal)
      ensures old(out) <= out
      ensures data[data.Length - 1] == NUL || data[data.Length - 1] == old(data[data.Length - 1])
    {
      LineSearched(data[..], data[..][end := NUL], start, end, last, s[..sLen], fname, found, rest, out, goal);
      data[end] := NUL;
      SearchLine(data, start, end, s, sLen, fname);
    }

    /**
     The inner loop of do_one_file(): every whole line of the window is searched, and what is left
     over goes to its start. The window is full unless the file has ended.
     */
    method SearchWindow(data: array<byte>, size: nat, cnt: nat, s: array<byte>, sLen: nat, fname: seq<byte>,
                        ghost found: seq<byte> -> seq<byte>, ghost rest: seq<byte>, ghost goal: seq<byte>)
      returns (last: nat)
      requires data != s && data.Length == BUFSIZE + 1 && StringAt(s[..], 0, sLen)
      requires size <= BUFSIZE && NUL !in data[..size] && data[BUFSIZE] != NEWLINE
      requires (size == BUFSIZE || rest == []) && (cnt == 0 ==> rest == [])
      requires Law(found, s[..sLen], fname) && Owed(found, data[..size], rest, out, goal)
      modifies this`out, data
      ensures last < BUFSIZE && NUL !in data[..last] && data[BUFSIZE] != NEWLINE
      ensures cnt == 0 ==> last == 0
      ensures Owed(found, data[..last], rest, out, goal) && old(out) <= out
    {
      last := size;
      var start := 0;
      while true
        invariant last == size && (start < last || start == 0)
        invariant NUL !in data[start..last] && data[BUFSIZE] != NEWLINE
        invariant Owed(found, data[start..last], rest, out, goal) && old(out) <= out
        decreases size - start
      {
        var end := FindEnd(data, start, last);
        if data[end] != NEWLINE && cnt != 0 && start != 0 {
          EndAndCarry(data, start, end);
          last := last - start;
          return;
        }
        assert data[start..last][..end - start] == data[start..end];
        EndAndSearchLine(data, start, end, last, s, sLen, fname, found, rest, goal);
        start := end + 1;
        if start >= last {
          last := 0;
          assert data[..last] == [];
          return;
        }
      }
    }

    /** The outer loop of do_one_file(): the window is filled and searched until nothing is read. */
    method SearchFile(data: array<byte>, s: array<byte>, sLen: nat, fname: seq<byte>,
                      ghost found: seq<byte> -> seq<byte>, ghost goal: seq<byte>)
      returns (ok: bool)
      requires data != s && data.Length == BUFSIZE + 1 && StringAt(s[..], 0, sLen)
      requires position == 0 && NUL !in bytes && data[BUFSIZE] != NEWLINE
      requires Law(found, s[..sLen], fname) && goal == out + found(bytes)
      modifies this, data
      ensures ok ==> out == goal
      ensures !ok ==> failing >= 0 && old(out) <= out <= goal
    {
      var last: nat := 0;
      assert data[..last] + Rest() == bytes;
      while true
        invariant 0 <= position <= |bytes| && last < BUFSIZE
        invariant NUL !in data[..last] && data[BUFSIZE] != NEWLINE
        invariant Owed(found, data[..last], Rest(), out, goal) && old(out) <= out
        decreases |bytes| - position
      {
        ghost var carried, rest, was := data[..last], Rest(), position;
        var cnt := Read(data, last, BUFSIZE - last);
        if cnt == -1 {
          return false;
        }
        WindowFilled(data[..], carried, bytes, was, position);
        last := SearchWindow(data, last + cnt, cnt, s, sLen, fname, found, Rest(), goal);
        if cnt == 0 {
          assert data[..last] + Rest() == [];
          return true;
        }
      }
    }

    /**
     do_one_file(): what is found in the file is printed once and in order. A read that fails cuts
     the output short, and the file then stays open.
     */
    method DoOneFile(data: array<byte>, s: array<byte>, ghost n: nat, fname: seq<byte>) returns (r: int)
      requires data != s && data.Length == BUFSIZE + 1 && StringAt(s[..], 0, n)
      requires position == 0 && NUL !in bytes && data[BUFSIZE] != NEWLINE
      modifies this, data
      ensures !opens ==> r == -1 && out == old(out) + OPEN_FAILED
      ensures opens && failing < 0 ==>
                && r == (if closes then 0 else -1)
                && out == old(out) + Found(s[..n], fname, bytes) + if closes then [] else CLOSE_FAILED
      ensures opens && r == 0 ==> out == old(out) + Found(s[..n], fname, bytes)
      ensures opens && failing >= 0 && r == -1 ==>
                || out == old(out) + Found(s[..n], fname, bytes) + CLOSE_FAILED
                || CutShort(old(out), Found(s[..n], fname, bytes), out)
    {
      var sLen := Strlen(s, 0, n);
      if !opens {
        Fdputs(OPEN_FAILED);
        return -1;
      }
      ghost var found := Finder(s[..n], fname, bytes);
      var ok := SearchFile(data, s, sLen, fname, found, out + found(bytes));
      if !ok {
        ghost var printed := out;
        Fdputs(READ_FAILED);
        assert out[..|out| - |READ_FAILED|] == printed;
        return -1;
      }
      if !closes {
        Fdputs(CLOSE_FAILED);
        return -1;
      }
      r := 0;
    }
  }
}
