/** Command lines: execute() splits one in place into its arguments, and getargs() joins them again. */
module Arguments {
  import opened Types

  const SLASH: byte := 47
  const DOT: byte := 46
  const MAX_COMMAND := 1023
  const MAX_ARGS := 1024
  const NULL := -1

  // ----- splitting on values -----

  predicate Separates(c: byte) {
    c == SPACE || c == NEWLINE
  }

  function WordEnd(s: seq<byte>, i: nat): (e: nat)
    requires i <= |s|
    ensures i <= e <= |s|
    decreases |s| - i
  {
    if i == |s| || Separates(s[i]) then i else WordEnd(s, i + 1)
  }

  function SpaceEnd(s: seq<byte>, i: nat): (e: nat)
    requires i <= |s|
    ensures i <= e <= |s| && (e < |s| ==> s[e] != SPACE)
    decreases |s| - i
  {
    if i == |s| || s[i] != SPACE then i else SpaceEnd(s, i + 1)
  }

  /** Behind the separator at i, or at the end. */
  function Past(s: seq<byte>, i: nat): nat
    requires i <= |s|
  {
    if i < |s| then i + 1 else i
  }

  /** The arguments behind the first: a newline ends them only if no word comes right before it. */
  function ArgsFrom(s: seq<byte>, i: nat): seq<seq<byte>>
    requires i <= |s|
    decreases |s| - i
  {
    var j := SpaceEnd(s, i);
    if j == |s| || s[j] == NEWLINE then []
    else
      var e := WordEnd(s, j);
      [s[j..e]] + ArgsFrom(s, Past(s, e))
  }

  function Split(command: seq<byte>): (r: seq<seq<byte>>)
    ensures |r| >= 1
  {
    [command[..WordEnd(command, 0)]] + ArgsFrom(command, Past(command, WordEnd(command, 0)))
  }

  // ----- the words of a line, byte by byte -----

  /** A word that has been read from start to i, if it has any bytes. */
  function Closed(s: seq<byte>, start: nat, i: nat): seq<seq<byte>>
    requires start <= i <= |s|
  {
    if start < i then [s[start..i]] else []
  }

  /** The words of s[start..end], separated by spaces, when there is no space before i. */
  function Words(s: seq<byte>, start: nat, i: nat, end: nat): seq<seq<byte>>
    requires start <= i <= end <= |s|
    decreases end - i
  {
    if i == end then Closed(s, start, i)
    else if s[i] == SPACE then Closed(s, start, i) + Words(s, i + 1, i + 1, end)
    else Words(s, start, i + 1, end)
  }

  /** A line from i to the next newline, or to the end. */
  predicate LineTo(s: seq<byte>, i: nat, end: nat) {
    i <= end <= |s| && (forall k | i <= k < end :: s[k] != NEWLINE) && (end < |s| ==> s[end] == NEWLINE)
  }

  /** The splitter goes on behind the end of a line exactly if a word comes right before it. */
  predicate RunsOn(s: seq<byte>, i: nat, end: nat)
    requires i <= end <= |s|
  {
    i < end && s[end - 1] != SPACE
  }

  /** The arguments that it then takes from behind the line. */
  function RunOver(s: seq<byte>, i: nat, end: nat): seq<seq<byte>>
    requires i <= end <= |s|
  {
    if RunsOn(s, i, end) then ArgsFrom(s, Past(s, end)) else []
  }

  lemma {:induction false} WordsOfWord(s: seq<byte>, start: nat, i: nat, end: nat)
    requires start <= i && LineTo(s, i, end) && (start == i ==> i < end && s[i] != SPACE)
    ensures var e := WordEnd(s, i);
      && start < e <= end && (i < end && s[i] != SPACE ==> i < e && s[e - 1] != SPACE)
      && (e < end ==> s[e] == SPACE)
      && Words(s, start, i, end) == [s[start..e]] + if e < end then Words(s, e + 1, e + 1, end) else []
    decreases end - i
  {
    if i < end && s[i] != SPACE {
      WordsOfWord(s, start, i + 1, end);
    }
  }

  lemma ArgsWord(s: seq<byte>, i: nat)
    requires i < |s| && !Separates(s[i])
    ensures ArgsFrom(s, i) == [s[i..WordEnd(s, i)]] + ArgsFrom(s, Past(s, WordEnd(s, i)))
  {
  }

  lemma Prepend(w: seq<byte>, args: seq<seq<byte>>, words: seq<seq<byte>>, others: seq<seq<byte>>)
    requires args == words + others
    ensures [w] + args == [w] + words + others
  {
  }

  lemma WordStops(s: seq<byte>, i: nat, end: nat)
    requires LineTo(s, i, end) && i < end && s[i] != SPACE
    ensures var e := WordEnd(s, i);
      && i < e <= end && s[e - 1] != SPACE && (e < end ==> s[e] == SPACE)
      && RunOver(s, i, end) == if e < end then RunOver(s, e + 1, end) else ArgsFrom(s, Past(s, end))
  {
    WordsOfWord(s, i, i, end);
  }

  predicate Agrees(s: seq<byte>, i: nat, end: nat, others: seq<seq<byte>>)
    requires i <= end <= |s|
  {
    ArgsFrom(s, i) == Words(s, i, i, end) + others
  }

  lemma SpaceAgrees(s: seq<byte>, i: nat, end: nat, others: seq<seq<byte>>)
    requires i < end <= |s| && s[i] == SPACE && Agrees(s, i + 1, end, others)
    ensures Agrees(s, i, end, others)
  {
  }

  lemma WordAgrees(s: seq<byte>, i: nat, end: nat, others: seq<seq<byte>>)
    requires LineTo(s, i, end) && i < end && s[i] != SPACE
    requires WordEnd(s, i) < end ==> Agrees(s, WordEnd(s, i) + 1, end, others)
    requires WordEnd(s, i) >= end ==> others == ArgsFrom(s, Past(s, end))
    ensures Agrees(s, i, end, others)
  {
    WordsOfWord(s, i, i, end);
    ArgsWord(s, i);
    if WordEnd(s, i) < end {
      var j := WordEnd(s, i) + 1;
      Prepend(s[i..j - 1], ArgsFrom(s, j), Words(s, j, j, end), others);
    }
  }

  /** The arguments are the words of the line, and those of what follows it if the splitter goes on. */
  lemma {:induction false} ArgsAreWords(s: seq<byte>, i: nat, end: nat, others: seq<seq<byte>>)
    requires LineTo(s, i, end) && others == RunOver(s, i, end)
    ensures Agrees(s, i, end, others)
    decreases end - i
  {
    if i < end {
      if s[i] == SPACE {
        ArgsAreWords(s, i + 1, end, others);
        SpaceAgrees(s, i, end, others);
      } else {
        WordStops(s, i, end);
        if WordEnd(s, i) < end {
          ArgsAreWords(s, WordEnd(s, i) + 1, end, others);
        }
        WordAgrees(s, i, end, others);
      }
    }
  }

  /** The empty word that comes first if the command does not begin with a word. */
  function NoName(s: seq<byte>, end: nat): seq<seq<byte>>
    requires end <= |s|
  {
    if end > 0 && s[0] != SPACE then [] else [[]]
  }

  lemma NoWordFirst(s: seq<byte>)
    requires s == [] || Separates(s[0])
    ensures Split(s) == [[]] + ArgsFrom(s, Past(s, 0))
  {
    assert WordEnd(s, 0) == 0 && s[..0] == [];
  }

  lemma WordFirst(s: seq<byte>)
    requires s != [] && !Separates(s[0])
    ensures Split(s) == ArgsFrom(s, 0)
  {
    ArgsWord(s, 0);
    assert s[..WordEnd(s, 0)] == s[0..WordEnd(s, 0)];
  }

  lemma SpaceFirst(s: seq<byte>, end: nat)
    requires 0 < end <= |s| && s[0] == SPACE
    ensures Words(s, 0, 0, end) == Words(s, 1, 1, end)
  {
    assert [] + Words(s, 1, 1, end) == Words(s, 1, 1, end);
  }

  /** Only a space at the end of the first line keeps the splitter from going on behind it. */
  lemma SplitRunsOver(s: seq<byte>, end: nat)
    requires LineTo(s, 0, end)
    ensures var others := if end > 0 && s[end - 1] == SPACE then [] else ArgsFrom(s, Past(s, end));
      Split(s) == NoName(s, end) + Words(s, 0, 0, end) + others
  {
    if end == 0 {
      NoWordFirst(s);
      assert Words(s, 0, 0, end) == [];
    } else if s[0] == SPACE {
      NoWordFirst(s);
      SpaceFirst(s, end);
      ArgsAreWords(s, 1, end, RunOver(s, 1, end));
      Prepend([], ArgsFrom(s, 1), Words(s, 1, 1, end), RunOver(s, 1, end));
    } else {
      WordFirst(s);
      ArgsAreWords(s, 0, end, RunOver(s, 0, end));
      assert [] + Words(s, 0, 0, end) == Words(s, 0, 0, end);
    }
  }

  /** A command splits into the words of its first line if and only if that ends in a space, or the next
      one, if there is one, holds nothing but spaces. */
  lemma SplitsLineIff(s: seq<byte>, end: nat)
    requires LineTo(s, 0, end)
    ensures var j := SpaceEnd(s, Past(s, end));
      (Split(s) == NoName(s, end) + Words(s, 0, 0, end)) <==>
        ((end > 0 && s[end - 1] == SPACE) || j == |s| || s[j] == NEWLINE)
  {
    SplitRunsOver(s, end);
    var others := if end > 0 && s[end - 1] == SPACE then [] else ArgsFrom(s, Past(s, end));
    assert |Split(s)| == |NoName(s, end) + Words(s, 0, 0, end)| + |others|;
  }

  /** The command "\nf" has an empty first line, and the splitter takes "f" from behind it. */
  lemma EmptyLineRunsOver()
    ensures LineTo([NEWLINE, 102], 0, 0) && Split([NEWLINE, 102]) == [[], [102]]
  {
    var s: seq<byte> := [NEWLINE, 102];
    assert WordEnd(s, 0) == 0 && Past(s, 0) == SpaceEnd(s, 1) == 1;
    assert WordEnd(s, 2) == 2 && WordEnd(s, 1) == 2 && ArgsFrom(s, 2) == [];
    assert s[1..2] == [102] && ArgsFrom(s, 1) == [s[1..2]] + ArgsFrom(s, 2);
  }

  lemma SplitCommand(s: seq<byte>, end: nat)
    requires LineTo(s, 0, end) && (end == |s| || end == |s| - 1)
    ensures Split(s) == NoName(s, end) + Words(s, 0, 0, end)
  {
    SplitsLineIff(s, end);
  }

  // ----- joining -----

  /** A word: some bytes, and no separator among them. */
  predicate IsWord(w: seq<byte>) {
    w != [] && forall i | 0 <= i < |w| :: !Separates(w[i])
  }

  predicate AreWords(ws: seq<seq<byte>>) {
    forall i | 0 <= i < |ws| :: IsWord(ws[i])
  }

  function Join(ws: seq<seq<byte>>): seq<byte> {
    if ws == [] then [] else if |ws| == 1 then ws[0] else ws[0] + [SPACE] + Join(ws[1..])
  }

  lemma {:induction false} ArgsAreProper(s: seq<byte>, i: nat)
    requires i <= |s|
    ensures AreWords(ArgsFrom(s, i))
    decreases |s| - i
  {
    var j := SpaceEnd(s, i);
    if j < |s| && s[j] != NEWLINE {
      var e := WordEnd(s, j);
      WordIsProper(s, j);
      ArgsAreProper(s, Past(s, e));
    }
  }

  lemma {:induction false} WordIsProper(s: seq<byte>, j: nat)
    requires j <= |s|
    ensures forall k | j <= k < WordEnd(s, j) :: !Separates(s[k])
    decreases |s| - j
  {
    if j < |s| && !Separates(s[j]) {
      WordIsProper(s, j + 1);
    }
  }

  lemma {:induction false} WordEndIs(s: seq<byte>, i: nat, e: nat)
    requires i <= e <= |s| && (forall k | i <= k < e :: !Separates(s[k])) && (e < |s| ==> Separates(s[e]))
    ensures WordEnd(s, i) == e
    decreases e - i
  {
    if i < e {
      WordEndIs(s, i + 1, e);
    }
  }

  lemma JoinBegins(ws: seq<seq<byte>>, s: seq<byte>, i: nat)
    requires AreWords(ws) && ws != [] && i <= |s| && s[i..] == Join(ws)
    ensures var e := i + |ws[0]|;
      && e <= |s| && s[i..e] == ws[0] && (forall k | i <= k < e :: !Separates(s[k]))
      && (if |ws| == 1 then e == |s| else e < |s| && s[e] == SPACE && s[e + 1..] == Join(ws[1..]))
  {
  }

  lemma NothingJoined(s: seq<byte>, i: nat)
    requires i <= |s| && s[i..] == []
    ensures ArgsFrom(s, i) == []
  {
    assert i == |s| && SpaceEnd(s, i) == |s|;
  }

  /** The last word of a text. */
  lemma LastJoined(w: seq<byte>, s: seq<byte>, i: nat)
    requires IsWord(w) && i + |w| == |s| && s[i..] == w
    ensures ArgsFrom(s, i) == [w]
  {
    assert forall k | i <= k < |s| :: s[k] == w[k - i];
    WordEndIs(s, i, |s|);
    ArgsWord(s, i);
    assert s[i..|s|] == w;
  }

  /** A word with others behind it. */
  lemma FirstJoined(w: seq<byte>, rest: seq<seq<byte>>, s: seq<byte>, i: nat, e: nat)
    requires IsWord(w) && i + |w| == e < |s| && s[i..e] == w && s[e] == SPACE && ArgsFrom(s, e + 1) == rest
    ensures ArgsFrom(s, i) == [w] + rest
  {
    assert forall k | i <= k < e :: s[k] == s[i..e][k - i];
    WordEndIs(s, i, e);
    ArgsWord(s, i);
  }

  /** The first word, where it ends, and what follows it. */
  lemma FirstWord(ws: seq<seq<byte>>, s: seq<byte>, i: nat) returns (w: seq<byte>, rest: seq<seq<byte>>, e: nat)
    requires AreWords(ws) && ws != [] && i <= |s| && s[i..] == Join(ws)
    ensures ws == [w] + rest && |rest| < |ws| && IsWord(w) && AreWords(rest)
    ensures e == i + |w| && e <= |s| && s[i..e] == w
    ensures if rest == [] then s[i..] == w && e == |s| else e < |s| && s[e] == SPACE && s[e + 1..] == Join(rest)
  {
    JoinBegins(ws, s, i);
    w, rest, e := ws[0], ws[1..], i + |ws[0]|;
    assert forall k | 0 <= k < |rest| :: rest[k] == ws[k + 1];
    assert e == |s| ==> s[i..] == s[i..e];
  }

  /** Words that are joined by single spaces are split into the same words. */
  lemma {:induction false} JoinedSplits(ws: seq<seq<byte>>, s: seq<byte>, i: nat)
    requires AreWords(ws) && i <= |s| && s[i..] == Join(ws)
    ensures ArgsFrom(s, i) == ws
    decreases |ws|
  {
    if ws == [] {
      NothingJoined(s, i);
    } else {
      var w, rest, e := FirstWord(ws, s, i);
      if rest == [] {
        LastJoined(w, s, i);
      } else {
        JoinedSplits(rest, s, e + 1);
        FirstJoined(w, ArgsFrom(s, e + 1), s, i, e);
      }
    }
  }

  /** Whatever the command line was, joining its arguments and splitting them again changes nothing. */
  lemma SplitJoinSplit(s: seq<byte>, i: nat)
    requires i <= |s|
    ensures ArgsFrom(Join(ArgsFrom(s, i)), 0) == ArgsFrom(s, i)
  {
    ArgsAreProper(s, i);
    var joined := Join(ArgsFrom(s, i));
    assert joined[0..] == joined;
    JoinedSplits(ArgsFrom(s, i), joined, 0);
  }

  // ----- execute() -----

  /** The arguments of the new program. */
  function Argv(command: seq<byte>): (r: seq<seq<byte>>)
    ensures |r| == |Split(command)|
  {
    [[DOT, SLASH] + Split(command)[0]] + Split(command)[1..]
  }

  /** The text at an offset, and its terminating NUL. */
  predicate Holds(buf: seq<byte>, at: int, text: seq<byte>) {
    0 <= at && at + |text| < |buf| && buf[at..at + |text|] == text && buf[at + |text|] == NUL
  }

  /** The texts are stored at their offsets, none reaching beyond the scan. */
  predicate Stored(buf: seq<byte>, args: seq<int>, texts: seq<seq<byte>>, scan: nat) {
    && |texts| <= |args|
    && forall i | 0 <= i < |texts| :: Holds(buf, args[i], texts[i]) && args[i] + |texts[i]| <= scan
  }

  /** The command is still in place behind its first two bytes, from the scan on. */
  predicate Unread(buf: seq<byte>, command: seq<byte>, scan: nat) {
    && 2 <= scan <= 2 + |command| < |buf|
    && (forall k | scan <= k < 2 + |command| :: buf[k] == command[k - 2] != NUL)
    && buf[2 + |command|] == NUL
  }

  lemma StoredKept(was: seq<byte>, now: seq<byte>, args: seq<int>, texts: seq<seq<byte>>, scan: nat, p: nat)
    requires Stored(was, args, texts, scan) && scan <= p < |was| && now == was[p := NUL]
    ensures Stored(now, args, texts, p)
  {
  }

  method SkipWord(buf: array<byte>, from: nat, ghost command: seq<byte>) returns (scan: nat)
    requires Unread(buf[..], command, from)
    ensures scan == 2 + WordEnd(command, from - 2)
  {
    scan := from;
    while buf[scan] != NUL && buf[scan] != SPACE && buf[scan] != NEWLINE
      invariant from <= scan <= 2 + |command| && WordEnd(command, scan - 2) == WordEnd(command, from - 2)
      decreases 2 + |command| - scan
    {
      scan := scan + 1;
    }
  }

  method SkipSpaces(buf: array<byte>, from: nat, ghost command: seq<byte>) returns (scan: nat)
    requires Unread(buf[..], command, from)
    ensures scan == 2 + SpaceEnd(command, from - 2)
  {
    scan := from;
    while buf[scan] == SPACE
      invariant from <= scan <= 2 + |command| && SpaceEnd(command, scan - 2) == SpaceEnd(command, from - 2)
      decreases 2 + |command| - scan
    {
      scan := scan + 1;
    }
  }

  /** The command in the buffer, behind "./". */
  method Prefixed(command: seq<byte>) returns (buf: array<byte>)
    requires |command| <= MAX_COMMAND && NUL !in command
    ensures fresh(buf) && buf.Length == MAX_COMMAND + 3 && buf[0] == DOT && buf[1] == SLASH
    ensures Unread(buf[..], command, 2)
  {
    buf := new byte[MAX_COMMAND + 3](_ => 0);
    buf[0], buf[1] := DOT, SLASH;
    var i := 0;
    while i < |command|
      invariant 0 <= i <= |command| && buf[0] == DOT && buf[1] == SLASH
      invariant forall k | 0 <= k < i :: buf[k + 2] == command[k]
      invariant forall k | i + 2 <= k < buf.Length :: buf[k] == NUL
    {
      buf[i + 2] := command[i];
      i := i + 1;
    }
  }

  /** The word that has just been skipped is ended with a NUL and becomes the next argument. */
  method EndWord(buf: array<byte>, from: nat, at: nat, ghost command: seq<byte>, ghost args: seq<int>,
                 ghost texts: seq<seq<byte>>, ghost limit: nat)
    returns (scan: nat)
    requires Unread(buf[..], command, at) && Stored(buf[..], args, texts, limit) && limit <= from < at
    requires |texts| < |args| && args[|texts|] == from
    modifies buf
    ensures scan == 2 + Past(command, at - 2) && Unread(buf[..], command, scan)
    ensures Stored(buf[..], args, texts + [old(buf[from..at])], scan)
  {
    ghost var was, more := buf[..], texts + [buf[from..at]];
    scan := at;
    if buf[scan] != NUL {
      buf[scan] := NUL;
      scan := scan + 1;
    }
    UnreadKept(was, buf[..], command, at, scan);
    EndedWord(was, buf[..], args, texts, from, at, limit);
    StoredMonotone(buf[..], args, more, at, scan);
  }

  lemma UnreadKept(was: seq<byte>, now: seq<byte>, command: seq<byte>, at: nat, scan: nat)
    requires Unread(was, command, at) && now == was[at := NUL] && scan == 2 + Past(command, at - 2)
    ensures Unread(now, command, scan)
  {
    forall k | scan <= k < 2 + |command| ensures now[k] == command[k - 2] != NUL {
      assert was[k] == command[k - 2];
    }
  }

  lemma EndedWord(was: seq<byte>, now: seq<byte>, args: seq<int>, texts: seq<seq<byte>>, from: nat, at: nat, limit: nat)
    requires Stored(was, args, texts, limit) && limit <= from < at < |was| && now == was[at := NUL]
    requires |texts| < |args| && args[|texts|] == from
    ensures Stored(now, args, texts + [was[from..at]], at)
  {
  }

  lemma StoredMonotone(buf: seq<byte>, args: seq<int>, texts: seq<seq<byte>>, scan: nat, later: nat)
    requires Stored(buf, args, texts, scan) && scan <= later
    ensures Stored(buf, args, texts, later)
  {
  }

  lemma StoredBefore(buf: seq<byte>, was: seq<int>, now: seq<int>, texts: seq<seq<byte>>, scan: nat)
    requires Stored(buf, was, texts, scan) && |texts| < |was| && |now| == |was|
    requires forall i | 0 <= i < |texts| :: now[i] == was[i]
    ensures Stored(buf, now, texts, scan)
  {
  }

  lemma ArgvTakes(command: seq<byte>, texts: seq<seq<byte>>, i: nat)
    requires i <= |command| && Argv(command) == texts + ArgsFrom(command, i)
    ensures var j := SpaceEnd(command, i);
      if j == |command| || command[j] == NEWLINE then Argv(command) == texts
      else
        var e := WordEnd(command, j);
        && j < e && Argv(command) == texts + [command[j..e]] + ArgsFrom(command, Past(command, e))
  {
  }

  lemma ArgvBegins(command: seq<byte>)
    ensures var e := WordEnd(command, 0);
      Argv(command) == [[DOT, SLASH] + command[..e]] + ArgsFrom(command, Past(command, e))
  {
  }

  /** What the splitter keeps: the arguments so far and those still to come are all of them. */
  ghost predicate Splitting(buf: seq<byte>, args: seq<int>, command: seq<byte>, texts: seq<seq<byte>>, scan: nat) {
    && Unread(buf, command, scan) && Stored(buf, args, texts, scan)
    && 1 <= |texts| <= scan - 2
    && Argv(command) == texts + ArgsFrom(command, scan - 2)
  }

  lemma SplittingNext(buf: seq<byte>, args: seq<int>, command: seq<byte>, texts: seq<seq<byte>>, more: seq<seq<byte>>,
                      i: nat, j: nat, e: nat, scan: nat)
    requires i <= |command| && j == SpaceEnd(command, i) < |command| && command[j] != NEWLINE && e == WordEnd(command, j)
    requires Argv(command) == texts + ArgsFrom(command, i) && 1 <= |texts| <= i
    requires more == texts + [command[j..e]] && scan == 2 + Past(command, e)
    requires Unread(buf, command, scan) && Stored(buf, args, more, scan)
    ensures scan > i + 2 && Splitting(buf, args, command, more, scan)
  {
    ArgvTakes(command, texts, i);
  }

  lemma UnreadWord(buf: seq<byte>, command: seq<byte>, from: nat, scan: nat, end: nat)
    requires Unread(buf, command, from) && from <= scan <= end <= 2 + |command|
    ensures Unread(buf, command, scan) && Unread(buf, command, end) && buf[scan..end] == command[scan - 2..end - 2]
    ensures buf[scan] == if scan - 2 < |command| then command[scan - 2] else NUL
  {
  }

  lemma SpaceThenWord(s: seq<byte>, i: nat)
    requires i <= |s| && SpaceEnd(s, i) < |s| && s[SpaceEnd(s, i)] != NEWLINE
    ensures SpaceEnd(s, i) < WordEnd(s, SpaceEnd(s, i))
  {
  }

  /** The word at the scan becomes the next argument. */
  method TakeWord(buf: array<byte>, args: array<int>, nArg: nat, start: nat, ghost from: nat,
                  ghost command: seq<byte>, ghost texts: seq<seq<byte>>)
    returns (scan: nat)
    requires Splitting(buf[..], args[..], command, texts, from) && nArg == |texts| < args.Length
    requires start == 2 + SpaceEnd(command, from - 2) < 2 + |command| && command[start - 2] != NEWLINE
    modifies buf, args
    ensures var now := texts + [command[start - 2..WordEnd(command, start - 2)]];
      scan > from && Splitting(buf[..], args[..], command, now, scan)
  {
    UnreadWord(buf[..], command, from, start, 2 + WordEnd(command, start - 2));
    StoredBefore(buf[..], args[..], args[..][nArg := start], texts, from);
    args[nArg] := start;
    var end := SkipWord(buf, start, command);
    SpaceThenWord(command, from - 2);
    ghost var more := texts + [command[start - 2..end - 2]];
    assert more == texts + [buf[start..end]];
    scan := EndWord(buf, start, end, command, args[..], texts, from);
    SplittingNext(buf[..], args[..], command, texts, more, from - 2, start - 2, end - 2, scan);
  }

  /** The next argument, if there is one. */
  method NextArgument(buf: array<byte>, args: array<int>, nArg: nat, from: nat,
                      ghost command: seq<byte>, ghost texts: seq<seq<byte>>)
    returns (scan: nat, more: bool, ghost now: seq<seq<byte>>)
    requires Splitting(buf[..], args[..], command, texts, from) && nArg == |texts| < args.Length
    modifies buf, args
    ensures more ==> |now| == |texts| + 1 && scan > from && Splitting(buf[..], args[..], command, now, scan)
    ensures !more ==> now == texts == Argv(command) && Stored(buf[..], args[..], texts, scan)
  {
    scan := SkipSpaces(buf, from, command);
    now := texts;
    UnreadWord(buf[..], command, from, scan, scan);
    if buf[scan] == NUL || buf[scan] == NEWLINE {
      ArgvTakes(command, texts, from - 2);
      StoredKept(buf[..], buf[..][scan := NUL], args[..], texts, from, scan);
      buf[scan] := NUL;
      more := false;
    } else {
      now := texts + [command[scan - 2..WordEnd(command, scan - 2)]];
      scan := TakeWord(buf, args, nArg, scan, from, command, texts);
      more := true;
    }
  }

  lemma NothingBehind(command: seq<byte>, i: nat)
    requires i <= |command|
    ensures i == |command| ==> ArgsFrom(command, Past(command, i)) == []
  {
    if i == |command| {
      NothingJoined(command, i);
    }
  }

  /** "./" and the first word. */
  method FirstArgument(buf: array<byte>, args: array<int>, ghost command: seq<byte>)
    returns (scan: nat, more: bool, ghost texts: seq<seq<byte>>)
    requires Unread(buf[..], command, 2) && buf[0] == DOT && buf[1] == SLASH && args.Length > 0
    modifies buf, args
    ensures |texts| == 1
    ensures more ==> Splitting(buf[..], args[..], command, texts, scan)
    ensures !more ==> texts == Argv(command) && Stored(buf[..], args[..], texts, scan)
  {
    var end := SkipWord(buf, 2, command);
    UnreadWord(buf[..], command, 2, 2, end);
    args[0] := 0;
    more := buf[end] != NUL;
    texts := [[DOT, SLASH] + command[..end - 2]];
    assert buf[0..end] == [DOT, SLASH] + buf[2..end];
    assert command[0..end - 2] == command[..end - 2] && [] + [buf[0..end]] == texts;
    ArgvBegins(command);
    scan := EndWord(buf, 0, end, command, args[..], [], 0);
    NothingBehind(command, end - 2);
  }

  /**
   The argument splitting of execute(): each entry of args is the offset of an argument in the buffer,
   in order, and a NULL follows the last. A command of more than 1023 bytes is refused.
   */
  method SplitInPlace(command: seq<byte>) returns (ok: bool, buf: array<byte>, args: array<int>, nArg: nat)
    requires NUL !in command
    ensures ok <==> |command| <= 1023
    ensures ok ==>
              && args.Length == MAX_ARGS && nArg == |Argv(command)| < MAX_ARGS && args[nArg] == NULL
              && forall i | 0 <= i < nArg :: Holds(buf[..], args[i], Argv(command)[i])
  {
    args := new int[MAX_ARGS];
    nArg := 1;
    if MAX_COMMAND < |command| {
      ok, buf := false, new byte[0];
      return;
    }
    ok := true;
    buf := Prefixed(command);
    var scan, more: bool;
    ghost var texts;
    scan, more, texts := FirstArgument(buf, args, command);
    while more
      invariant nArg == |texts| < MAX_ARGS
      invariant if more then Splitting(buf[..], args[..], command, texts, scan) else
                  texts == Argv(command) && Stored(buf[..], args[..], texts, scan)
      decreases more, 2 + |command| - scan
    {
      scan, more, texts := NextArgument(buf, args, nArg, scan, command, texts);
      if more {
        nArg := nArg + 1;
      }
    }
    StoredBefore(buf[..], args[..], args[..][nArg := NULL], texts, scan);
    args[nArg] := NULL;
  }

  // ----- getargs() -----

  /** The arguments from idx on. */
  function From(argv: seq<seq<byte>>, idx: nat): seq<seq<byte>> {
    if idx < |argv| then argv[idx..] else []
  }

  /** A program that splits what getargs() gave it finds the words of its command line again. */
  lemma ArgumentsSurvive(command: seq<byte>)
    ensures ArgsFrom(Join(From(Argv(command), 1)), 0) == From(Argv(command), 1) == Split(command)[1..]
    ensures Argv(command)[0] == [46, 47] + Split(command)[0]
  {
    assert Argv(command)[1..] == Split(command)[1..];
    SplitJoinSplit(command, Past(command, WordEnd(command, 0)));
  }

  /** What is done makes up the whole once the arguments from idx on have joined it. */
  predicate Joining(whole: seq<byte>, done: seq<byte>, argv: seq<seq<byte>>, idx: nat) {
    whole == done + Join(From(argv, idx))
  }

  lemma JoinNext(whole: seq<byte>, done: seq<byte>, argv: seq<seq<byte>>, idx: nat)
    requires Joining(whole, done, argv, idx) && idx < |argv|
    ensures |whole| >= |done| + |argv[idx]|
    ensures idx + 1 == |argv| ==> Joining(whole, done + argv[idx], argv, idx + 1)
    ensures idx + 1 < |argv| ==> |whole| > |done| + |argv[idx]| && Joining(whole, done + argv[idx] + [SPACE], argv, idx + 1)
  {
  }

  /** How much of the buffer the arguments up to the k-th take. */
  function LengthTo(argv: seq<seq<byte>>, k: nat): nat
    requires 1 <= k < |argv|
  {
    |Join(argv[1..k + 1])|
  }

  /** Where the k-th argument goes: behind a space, unless it is the first. */
  function PlaceOf(argv: seq<seq<byte>>, k: nat): nat
    requires 1 <= k <= |argv|
  {
    if k == 1 then 0 else LengthTo(argv, k - 1) + 1
  }

  lemma {:induction false} JoinLast(ws: seq<seq<byte>>, w: seq<byte>)
    ensures |Join(ws + [w])| == |Join(ws)| + (if ws == [] then 0 else 1) + |w|
  {
    if ws == [] {
      assert ws + [w] == [w];
    } else {
      JoinLast(ws[1..], w);
      assert (ws + [w])[1..] == ws[1..] + [w];
    }
  }

  lemma LengthFrom(argv: seq<seq<byte>>, k: nat)
    requires 1 <= k < |argv|
    ensures LengthTo(argv, k) == PlaceOf(argv, k) + |argv[k]|
  {
    assert argv[1..k + 1] == argv[1..k] + [argv[k]];
    JoinLast(argv[1..k], argv[k]);
  }

  lemma {:induction false} LengthsGrow(argv: seq<seq<byte>>, j: nat, k: nat)
    requires 1 <= j < k < |argv|
    ensures LengthTo(argv, j) < LengthTo(argv, k)
  {
    LengthFrom(argv, k);
    if j < k - 1 {
      LengthsGrow(argv, j, k - 1);
    }
  }

  /** The arguments up to some k-th fill exactly what the caller gave, so that a NUL is stored behind it. */
  ghost predicate Spills(argv: seq<seq<byte>>, nbytes: int) {
    exists k | 1 <= k < |argv| :: LengthTo(argv, k) == nbytes
  }

  ghost predicate ShorterBefore(argv: seq<seq<byte>>, idx: nat, nbytes: int) {
    forall k | 1 <= k < idx && k < |argv| :: LengthTo(argv, k) < nbytes
  }

  lemma SpillsAt(argv: seq<seq<byte>>, idx: nat, nbytes: int)
    requires 1 <= idx < |argv| && ShorterBefore(argv, idx, nbytes) && LengthTo(argv, idx) >= nbytes
    ensures Spills(argv, nbytes) <==> LengthTo(argv, idx) == nbytes
  {
    forall k | idx < k < |argv| ensures LengthTo(argv, k) > nbytes {
      LengthsGrow(argv, idx, k);
    }
  }

  /** Behind what the caller gave, nothing changes but for the NUL that may be stored first. */
  predicate Behind(was: seq<byte>, now: seq<byte>, nbytes: int, spilled: bool) {
    && |now| == |was|
    && forall k | 0 <= k < |now| && k >= nbytes :: now[k] == if k == nbytes && spilled then NUL else was[k]
  }

  /** An argument and, unless it is the last, a space. */
  method AppendArgument(argv: seq<seq<byte>>, idx: nat, buf: array<byte>, at: nat, left: int,
                        ghost nbytes: int, ghost whole: seq<byte>)
    returns (ok: bool, end: nat)
    requires idx < |argv| && at + left == nbytes <= buf.Length && (|argv[idx]| == left ==> nbytes < buf.Length)
    requires at <= buf.Length && Joining(whole, buf[..at], argv, idx)
    modifies buf
    ensures ok <==> |argv[idx]| < left || (|argv[idx]| == left && idx + 1 == |argv|)
    ensures ok ==> end == at + |argv[idx]| + (if idx + 1 < |argv| then 1 else 0) && end <= nbytes
    ensures ok ==> Joining(whole, buf[..end], argv, idx + 1)
    ensures !ok ==> |whole| + 1 > nbytes
    ensures Behind(old(buf[..]), buf[..], nbytes, |argv[idx]| == left)
  {
    ghost var done := buf[..at];
    JoinNext(whole, done, argv, idx);
    var len := |argv[idx]|;
    if len > left {
      return false, at;
    }
    CopyString(buf, at, argv[idx]);
    end := at + len;
    assert buf[..end] == done + argv[idx];
    if idx + 1 < |argv| {
      if left - len < 1 {
        return false, end;
      }
      buf[end] := SPACE;
      end := end + 1;
      assert buf[..end] == done + argv[idx] + [SPACE];
    }
    ok := true;
  }

  /** What the loop of getargs() keeps: the arguments before idx are in place, and the last may have spilled. */
  ghost predicate Filling(argv: seq<seq<byte>>, was: seq<byte>, now: seq<byte>, idx: nat, at: nat, nbytes: int, spilled: bool) {
    && 1 <= idx && (idx <= |argv| || argv == []) && at <= |now| && (at > 0 ==> at <= nbytes)
    && Joining(Join(From(argv, 1)), now[..at], argv, idx)
    && (idx < |argv| ==> at == PlaceOf(argv, idx) && !spilled)
    && (if spilled then Spills(argv, nbytes) && at == nbytes else ShorterBefore(argv, idx, nbytes))
    && Behind(was, now, nbytes, spilled)
  }

  lemma BehindTwice(was: seq<byte>, mid: seq<byte>, now: seq<byte>, nbytes: int, spilled: bool)
    requires Behind(was, mid, nbytes, false) && Behind(mid, now, nbytes, spilled)
    ensures Behind(was, now, nbytes, spilled)
  {
  }

  /** One round of the loop of getargs(). */
  method Round(argv: seq<seq<byte>>, idx: nat, buf: array<byte>, at: nat, nbytes: int, ghost was: seq<byte>)
    returns (ok: bool, end: nat, ghost spilled: bool)
    requires nbytes <= buf.Length && (Spills(argv, nbytes) ==> nbytes < buf.Length)
    requires idx < |argv| && Filling(argv, was, buf[..], idx, at, nbytes, false)
    modifies buf
    ensures ok ==> Filling(argv, was, buf[..], idx + 1, end, nbytes, spilled)
    ensures !ok ==> |Join(From(argv, 1))| + 1 > nbytes && Behind(was, buf[..], nbytes, Spills(argv, nbytes))
  {
    LengthFrom(argv, idx);
    spilled := |argv[idx]| == nbytes - at;
    if LengthTo(argv, idx) >= nbytes {
      SpillsAt(argv, idx, nbytes);
    }
    ghost var mid := buf[..];
    ok, end := AppendArgument(argv, idx, buf, at, nbytes - at, nbytes, Join(From(argv, 1)));
    BehindTwice(was, mid, buf[..], nbytes, spilled);
  }

  /**
   getargs(): the arguments behind the first, joined by spaces and ended with a NUL, if that fits the
   buffer.  The copy of an argument may put its NUL one byte behind what the caller gave.
   */
  method Getargs(argv: seq<seq<byte>>, buf: array<byte>, nbytes: int) returns (r: int)
    requires nbytes <= buf.Length && (Spills(argv, nbytes) ==> nbytes < buf.Length)
    modifies buf
    ensures r == 0 || r == -1
    ensures r == 0 <==> |Join(From(argv, 1))| + 1 <= nbytes
    ensures r == 0 ==> Holds(buf[..], 0, Join(From(argv, 1)))
    ensures Behind(old(buf[..]), buf[..], nbytes, Spills(argv, nbytes))
  {
    var idx, at: nat, ok := 1, 0, true;
    ghost var spilled := false;
    while idx < |argv|
      invariant Filling(argv, old(buf[..]), buf[..], idx, at, nbytes, spilled)
    {
      ok, at, spilled := Round(argv, idx, buf, at, nbytes, old(buf[..]));
      if !ok {
        return -1;
      }
      idx := idx + 1;
    }
    r := EndText(argv, idx, buf, at, nbytes, old(buf[..]), spilled);
  }

  /** The NUL behind the last argument. */
  method EndText(argv: seq<seq<byte>>, ghost idx: nat, buf: array<byte>, at: nat, nbytes: int, ghost was: seq<byte>, ghost spilled: bool)
    returns (r: int)
    requires nbytes <= buf.Length && idx >= |argv| && Filling(argv, was, buf[..], idx, at, nbytes, spilled)
    modifies buf
    ensures r == 0 || r == -1
    ensures r == 0 <==> |Join(From(argv, 1))| + 1 <= nbytes
    ensures r == 0 ==> Holds(buf[..], 0, Join(From(argv, 1)))
    ensures Behind(was, buf[..], nbytes, Spills(argv, nbytes))
  {
    AllJoined(Join(From(argv, 1)), buf[..at], argv, idx);
    if nbytes - at < 1 {
      return -1;
    }
    buf[at] := NUL;
    assert buf[0..at] == Join(From(argv, 1));
    r := 0;
  }

  lemma AllJoined(whole: seq<byte>, done: seq<byte>, argv: seq<seq<byte>>, idx: nat)
    requires Joining(whole, done, argv, idx) && idx >= |argv|
    ensures whole == done
  {
  }

  /** ece391_strcpy() to an offset of the buffer. */
  method CopyString(buf: array<byte>, at: nat, text: seq<byte>)
    requires at + |text| < buf.Length
    modifies buf
    ensures buf[..at + |text|] == old(buf[..at]) + text && buf[at + |text|] == NUL
    ensures forall k | at + |text| < k < buf.Length :: buf[k] == old(buf[k])
  {
    var i := 0;
    while i < |text|
      invariant 0 <= i <= |text|
      invariant forall k | 0 <= k < |text| :: k < i ==> buf[at + k] == text[k]
      invariant forall k | 0 <= k < buf.Length && (k < at || k >= at + i) :: buf[k] == old(buf[k])
    {
      buf[at + i] := text[i];
      i := i + 1;
    }
    buf[at + i] := NUL;
  }
}
