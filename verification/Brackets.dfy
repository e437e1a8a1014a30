/** Matching brackets across lines, forwards and backwards. Strings and comments are assumed to have been
    removed from the lines. */
module Brackets {

  // ----- nesting levels -----

  function Delta(c: char, start: char, end: char): int {
    if c == start then 1 else if c == end then -1 else 0
  }

  /** Opening minus closing brackets among the first `i` characters. */
  function Level(text: string, start: char, end: char, i: nat): int
    requires i <= |text|
  {
    if i == 0 then 0 else Level(text, start, end, i - 1) + Delta(text[i - 1], start, end)
  }

  /** The bracket at `i` is opened there and closed at `j`: the text from `i` through `j` is balanced, and no
      shorter piece of it that begins at `i` is. */
  ghost predicate Matches(text: string, start: char, end: char, i: nat, j: nat) {
    && i < j < |text|
    && Level(text, start, end, j + 1) == Level(text, start, end, i)
    && Above(text, start, end, i, i + 1, j + 1)
  }

  /** Between `lo` and `hi` the level stays above that at `i`. */
  ghost predicate Above(text: string, start: char, end: char, i: nat, lo: int, hi: int) {
    i <= |text| && forall k | 0 <= k <= |text| && lo <= k < hi :: Level(text, start, end, k) > Level(text, start, end, i)
  }

  /** The level is the number of opening brackets less that of closing ones. */
  lemma {:induction false} LevelCounts(text: string, start: char, end: char, i: nat)
    requires start != end && i <= |text|
    ensures Level(text, start, end, i) + multiset(text[..i])[end] == multiset(text[..i])[start]
  {
    if i > 0 {
      LevelCounts(text, start, end, i - 1);
      assert text[..i] == text[..i - 1] + [text[i - 1]];
    }
  }

  /** In other words: from `i` through `j` there are as many closing brackets as opening ones, and in every
      shorter piece from `i` on there are fewer. */
  lemma MatchesCounts(text: string, start: char, end: char, i: nat, j: nat)
    requires start != end && i < j < |text|
    ensures Matches(text, start, end, i, j) <==>
            && multiset(text[i..j + 1])[start] == multiset(text[i..j + 1])[end]
            && forall k | i < k <= j :: multiset(text[i..k])[start] > multiset(text[i..k])[end]
  {
    hide Level;
    forall k | i <= k <= |text|
      ensures Level(text, start, end, k) + multiset(text[i..k])[end]
           == Level(text, start, end, i) + multiset(text[i..k])[start]
    {
      LevelCounts(text, start, end, k);
      LevelCounts(text, start, end, i);
      assert text[..k] == text[..i] + text[i..k];
    }
  }

  lemma MatchesBrackets(text: string, start: char, end: char, i: nat, j: nat)
    requires start != end && Matches(text, start, end, i, j)
    ensures text[i] == start && text[j] == end
  {
    assert Level(text, start, end, i + 1) > Level(text, start, end, i);
    assert Level(text, start, end, j) > Level(text, start, end, i);
  }

  /** A bracket has at most one match on either side. */
  lemma MatchIsUnique(text: string, start: char, end: char, i: nat, j: nat, i': nat, j': nat)
    requires Matches(text, start, end, i, j) && Matches(text, start, end, i', j')
    ensures i == i' <==> j == j'
  {
  }

  // ----- one line -----

  /** Scan a line for the character that closes an expression; `depth` brackets are open at `startpos`. The
      result is the position after it, or the depth at the end of the line. */
  method FindEndOfExpressionInLine(line: string, startpos: nat, depth: int, startchar: char, endchar: char)
      returns (endpos: int, numOpen: int)
    requires startpos <= |line| && startchar != endchar
    ensures endpos == -1 || startpos < endpos <= |line|
    ensures endpos == -1 ==>
      && numOpen == depth + Level(line, startchar, endchar, |line|) - Level(line, startchar, endchar, startpos)
      && NotClosedBefore(line, startpos, depth, startchar, endchar, |line| + 1)
    ensures endpos > -1 ==>
      && numOpen == 0 == depth + Level(line, startchar, endchar, endpos) - Level(line, startchar, endchar, startpos)
      && line[endpos - 1] == endchar && NotClosedBefore(line, startpos, depth, startchar, endchar, endpos)
  {
    var d := depth;
    for i := startpos to |line|
      invariant d == depth + Level(line, startchar, endchar, i) - Level(line, startchar, endchar, startpos)
      invariant NotClosedBefore(line, startpos, depth, startchar, endchar, i + 1)
    {
      if line[i] == startchar {
        d := d + 1;
      } else if line[i] == endchar {
        d := d - 1;
        if d == 0 {
          return i + 1, 0;
        }
      }
    }
    return -1, d;
  }

  /** No closing bracket before position `hi` brings the depth to zero. */
  ghost predicate NotClosedBefore(line: string, startpos: nat, depth: int, start: char, end: char, hi: int) {
    && startpos <= |line|
    && forall k | startpos < k < hi && k <= |line| && line[k - 1] == end ::
         depth + Level(line, start, end, k) - Level(line, start, end, startpos) != 0
  }

  /** Scan a line backwards from `endpos` for the character that opens an expression. The result is its
      position, or the depth at the beginning of the line. */
  method FindStartOfExpressionInLine(line: string, endpos: int, depth: int, startchar: char, endchar: char)
      returns (startpos: int, numOpen: int)
    requires -1 <= endpos < |line| && startchar != endchar
    ensures -1 <= startpos <= endpos
    ensures startpos == -1 ==>
      && numOpen == depth - Level(line, startchar, endchar, endpos + 1)
      && NotOpenedFrom(line, endpos, depth, startchar, endchar, 0)
    ensures startpos > -1 ==>
      && numOpen == 0 == depth + Level(line, startchar, endchar, startpos) - Level(line, startchar, endchar, endpos + 1)
      && line[startpos] == startchar && NotOpenedFrom(line, endpos, depth, startchar, endchar, startpos + 1)
  {
    var d := depth;
    for i := endpos + 1 downto 0
      invariant d == depth + Level(line, startchar, endchar, i) - Level(line, startchar, endchar, endpos + 1)
      invariant NotOpenedFrom(line, endpos, depth, startchar, endchar, i)
    {
      if line[i] == endchar {
        d := d + 1;
      } else if line[i] == startchar {
        d := d - 1;
        if d == 0 {
          return i, 0;
        }
      }
    }
    return -1, d;
  }

  /** No opening bracket at or after position `lo` brings the depth to zero. */
  ghost predicate NotOpenedFrom(line: string, endpos: int, depth: int, start: char, end: char, lo: int) {
    && -1 <= endpos < |line|
    && forall k | 0 <= k <= endpos && lo <= k && line[k] == start ::
         depth + Level(line, start, end, k) - Level(line, start, end, endpos + 1) != 0
  }

  /** Levels change by steps of one, so a line that is entered below the surface surfaces at a bracket. */
  lemma {:induction false} StaysAbove(line: string, startpos: nat, depth: int, start: char, end: char, hi: nat, k: nat)
    requires startpos <= k < hi && k <= |line| && start != end
    requires depth > 0 && NotClosedBefore(line, startpos, depth, start, end, hi)
    ensures depth + Level(line, start, end, k) - Level(line, start, end, startpos) > 0
    decreases k
  {
    if k > startpos {
      StaysAbove(line, startpos, depth, start, end, hi, k - 1);
    }
  }

  lemma {:induction false} StaysAboveBackwards(line: string, endpos: int, depth: int, start: char, end: char, lo: nat, k: nat)
    requires lo <= k <= endpos + 1 && start != end
    requires depth > 0 && NotOpenedFrom(line, endpos, depth, start, end, lo)
    ensures depth + Level(line, start, end, k) - Level(line, start, end, endpos + 1) > 0
    decreases endpos + 1 - k
  {
    if k <= endpos {
      StaysAboveBackwards(line, endpos, depth, start, end, lo, k + 1);
    }
  }

  // ----- many lines as one text -----

  function Join(lines: seq<string>): string {
    if lines == [] then "" else lines[0] + Join(lines[1..])
  }

  /** Where position `pos` of line `linenum` lies in the joined text. */
  function Offset(lines: seq<string>, linenum: nat, pos: nat): nat
    requires linenum <= |lines|
  {
    |Join(lines[..linenum])| + pos
  }

  lemma {:induction false} JoinParts(lines: seq<string>, l: nat)
    requires l < |lines|
    ensures Join(lines) == Join(lines[..l]) + lines[l] + Join(lines[l + 1..])
    ensures Join(lines[..l + 1]) == Join(lines[..l]) + lines[l]
  {
    if l == 0 {
      assert lines[..1] == [lines[0]];
    } else {
      JoinParts(lines[1..], l - 1);
      assert lines[1..][..l - 1] == lines[..l][1..] && lines[1..][..l] == lines[..l + 1][1..];
      assert lines[1..][l..] == lines[l + 1..];
      var rest := Join(lines[1..][..l - 1]);
      assert lines[0] + (rest + lines[l] + Join(lines[l + 1..])) == lines[0] + rest + lines[l] + Join(lines[l + 1..]);
      assert lines[0] + (rest + lines[l]) == lines[0] + rest + lines[l];
    }
  }

  lemma {:induction false} LevelAppend(a: string, b: string, c: string, start: char, end: char, k: nat)
    requires k <= |b|
    ensures Level(a + b + c, start, end, |a| + k)
         == Level(a + b + c, start, end, |a|) + Level(b, start, end, k)
  {
    if k > 0 {
      LevelAppend(a, b, c, start, end, k - 1);
      assert (a + b + c)[|a| + k - 1] == b[k - 1];
    }
  }

  /** The levels of a line are those of the text, counted from the beginning of the line. */
  lemma LevelInLine(lines: seq<string>, l: nat, start: char, end: char, k: nat)
    requires l < |lines| && k <= |lines[l]|
    ensures Offset(lines, l, k) <= |Join(lines)| && Offset(lines, l + 1, 0) == Offset(lines, l, |lines[l]|)
    ensures Level(Join(lines), start, end, Offset(lines, l, k))
         == Level(Join(lines), start, end, Offset(lines, l, 0)) + Level(lines[l], start, end, k)
    ensures k < |lines[l]| ==> Offset(lines, l, k) < |Join(lines)| && Join(lines)[Offset(lines, l, k)] == lines[l][k]
  {
    JoinParts(lines, l);
    LevelAppend(Join(lines[..l]), lines[l], Join(lines[l + 1..]), start, end, k);
  }

  /** An offset determines its line and position. */
  lemma {:induction false} OffsetsDiffer(lines: seq<string>, l: nat, p: nat, l': nat, p': nat)
    requires l < |lines| && p < |lines[l]| && l' < |lines| && p' < |lines[l']|
    requires Offset(lines, l, p) == Offset(lines, l', p')
    ensures l == l' && p == p'
  {
    if l < l' {
      OffsetGrows(lines, l + 1, l');
      JoinParts(lines, l);
    } else if l' < l {
      OffsetGrows(lines, l' + 1, l);
      JoinParts(lines, l');
    }
  }

  lemma {:induction false} OffsetGrows(lines: seq<string>, l: nat, l': nat)
    requires l <= l' <= |lines|
    ensures Offset(lines, l, 0) <= Offset(lines, l', 0)
    decreases l' - l
  {
    if l < l' {
      OffsetGrows(lines, l + 1, l');
      JoinParts(lines, l);
    }
  }

  // ----- forwards -----

  predicate IsOpening(c: char) {
    c in "({[<"
  }

  function ClosingOf(c: char): char {
    if c == '(' then ')' else if c == '[' then ']' else if c == '{' then '}' else '>'
  }

  function OpeningOf(c: char): char {
    if c == ')' then '(' else if c == ']' then '[' else if c == '}' then '{' else '<'
  }

  predicate IsClosing(c: char) {
    c in ")}]>"
  }

  /** From the bracket at `from` up to where `linenum` has been scanned to, nothing closes it. */
  ghost predicate Scanned(lines: seq<string>, from: nat, start: char, end: char, numOpen: int, upTo: nat) {
    && from < upTo <= |Join(lines)|
    && numOpen == Level(Join(lines), start, end, upTo) - Level(Join(lines), start, end, from)
    && Above(Join(lines), start, end, from, from + 1, upTo + 1)
  }

  lemma ScannedLine(lines: seq<string>, from: nat, start: char, end: char, numOpen: int, l: nat, p: nat, hi: nat)
    requires l < |lines| && p < hi <= |lines[l]| + 1 && start != end
    requires Scanned(lines, from, start, end, numOpen, Offset(lines, l, p))
    requires NotClosedBefore(lines[l], p, numOpen, start, end, hi)
    ensures Above(Join(lines), start, end, from, from + 1, Offset(lines, l, hi))
  {
    var text := Join(lines);
    LevelInLine(lines, l, start, end, p);
    assert numOpen > 0;
    forall k | 0 <= k <= |text| && from + 1 <= k < Offset(lines, l, hi)
      ensures Level(text, start, end, k) > Level(text, start, end, from)
    {
      if k > Offset(lines, l, p) {
        var q := k - Offset(lines, l, 0);
        LevelInLine(lines, l, start, end, q);
        StaysAbove(lines[l], p, numOpen, start, end, hi, q);
      }
    }
  }

  /** The first character scanned is the bracket itself. */
  lemma FirstCharacter(lines: seq<string>, l: nat, p: nat, start: char, end: char, hi: int)
    requires l < |lines| && p < |lines[l]| && lines[l][p] == start != end && p + 1 < hi <= |lines[l]| + 1
    requires NotClosedBefore(lines[l], p, 0, start, end, hi)
    ensures Scanned(lines, Offset(lines, l, p), start, end, 1, Offset(lines, l, p + 1))
    ensures NotClosedBefore(lines[l], p + 1, 1, start, end, hi)
  {
    LevelInLine(lines, l, start, end, p);
    LevelInLine(lines, l, start, end, p + 1);
  }

  /** What a search for the close of the bracket at (`l`, `p`) may answer: the position just past the bracket
      that matches it, or -1 if nothing does. Only an opening bracket has a close. */
  ghost predicate CloseResult(lines: seq<string>, l: nat, p: nat, endline: nat, endpos: int) {
    && l < |lines| && p < |lines[l]|
    && var c := lines[l][p];
    if endpos == -1 then
      endline == |lines|
      && (IsOpening(c) ==> forall j: nat :: !Matches(Join(lines), c, ClosingOf(c), Offset(lines, l, p), j))
    else
      && IsOpening(c) && l <= endline < |lines| && 0 < endpos <= |lines[endline]|
      && lines[endline][endpos - 1] == ClosingOf(c)
      && Matches(Join(lines), c, ClosingOf(c), Offset(lines, l, p), Offset(lines, endline, endpos - 1))
  }

  /** Find the close of the bracket at (`linenum`, `pos`). On success the result is the position just past
      the closing bracket; a failure is a position of -1, and means that there is no match. */
  method CloseExpression(lines: seq<string>, linenum: nat, pos: nat) returns (line: string, endline: nat, endpos: int)
    requires linenum < |lines| && pos < |lines[linenum]|
    ensures CloseResult(lines, linenum, pos, endline, endpos)
    ensures endpos != -1 ==> line == lines[endline]
    ensures endpos != -1 ==>
      && (lines[linenum][pos], line[endpos - 1]) in {('(', ')'), ('[', ']'), ('{', '}'), ('<', '>')}
      && Matches(Join(lines), lines[linenum][pos], line[endpos - 1],
                 Offset(lines, linenum, pos), Offset(lines, endline, endpos - 1))
    ensures endpos == -1 ==>
      forall end, j: nat | (lines[linenum][pos], end) in {('(', ')'), ('[', ']'), ('{', '}'), ('<', '>')} ::
        !Matches(Join(lines), lines[linenum][pos], end, Offset(lines, linenum, pos), j)
  {
    hide Join, NotClosedBefore, Scanned, Matches;
    line := lines[linenum];
    var startchar := line[pos];
    if !IsOpening(startchar) {
      return line, |lines|, -1;
    }
    var endchar := ClosingOf(startchar);
    var end, numOpen := FindEndOfExpressionInLine(line, pos, 0, startchar, endchar);
    ghost var from := Offset(lines, linenum, pos);
    FirstLine(lines, linenum, pos, startchar, endchar, end, numOpen);
    if end > -1 {
      return line, linenum, end;
    }
    var n := linenum;
    while n < |lines| - 1
      invariant linenum <= n < |lines|
      invariant Scanned(lines, from, startchar, endchar, numOpen, Offset(lines, n + 1, 0))
    {
      n := n + 1;
      line := lines[n];
      ghost var before := numOpen;
      end, numOpen := FindEndOfExpressionInLine(line, 0, numOpen, startchar, endchar);
      NextLine(lines, n, from, startchar, endchar, before, end, numOpen);
      if end > -1 {
        return line, n, end;
      }
    }
    AllScanned(lines, from, startchar, endchar, numOpen);
    return line, |lines|, -1;
  }

  lemma FirstLine(lines: seq<string>, l: nat, p: nat, start: char, end: char, endpos: int, numOpen: int)
    requires l < |lines| && p < |lines[l]| && lines[l][p] == start != end
    requires endpos == -1 ==>
      && numOpen == Level(lines[l], start, end, |lines[l]|) - Level(lines[l], start, end, p)
      && NotClosedBefore(lines[l], p, 0, start, end, |lines[l]| + 1)
    requires endpos != -1 ==>
      && p < endpos <= |lines[l]| && lines[l][endpos - 1] == end && NotClosedBefore(lines[l], p, 0, start, end, endpos)
      && 0 == Level(lines[l], start, end, endpos) - Level(lines[l], start, end, p)
    ensures endpos == -1 ==> Scanned(lines, Offset(lines, l, p), start, end, numOpen, Offset(lines, l + 1, 0))
    ensures endpos != -1 ==> Matches(Join(lines), start, end, Offset(lines, l, p), Offset(lines, l, endpos - 1))
  {
    var hi := if endpos == -1 then |lines[l]| + 1 else endpos;
    assert hi > p + 1;
    FirstCharacter(lines, l, p, start, end, hi);
    ScannedLine(lines, Offset(lines, l, p), start, end, 1, l, p + 1, hi);
    LevelInLine(lines, l, start, end, if endpos == -1 then |lines[l]| else endpos);
    LevelInLine(lines, l, start, end, p);
  }

  lemma NextLine(lines: seq<string>, l: nat, from: nat, start: char, end: char, before: int, endpos: int, numOpen: int)
    requires l < |lines| && start != end && Scanned(lines, from, start, end, before, Offset(lines, l, 0))
    requires endpos == -1 ==>
      && numOpen == before + Level(lines[l], start, end, |lines[l]|)
      && NotClosedBefore(lines[l], 0, before, start, end, |lines[l]| + 1)
    requires endpos != -1 ==>
      && 0 < endpos <= |lines[l]| && lines[l][endpos - 1] == end && NotClosedBefore(lines[l], 0, before, start, end, endpos)
      && 0 == before + Level(lines[l], start, end, endpos)
    ensures endpos == -1 ==> Scanned(lines, from, start, end, numOpen, Offset(lines, l + 1, 0))
    ensures endpos != -1 ==> Matches(Join(lines), start, end, from, Offset(lines, l, endpos - 1))
  {
    var hi := if endpos == -1 then |lines[l]| + 1 else endpos;
    ScannedLine(lines, from, start, end, before, l, 0, hi);
    LevelInLine(lines, l, start, end, if endpos == -1 then |lines[l]| else endpos);
  }

  lemma OffsetEnd(lines: seq<string>)
    ensures Offset(lines, |lines|, 0) == |Join(lines)|
  {
    hide Join;
    assert lines[..|lines|] == lines;
  }

  lemma AllScanned(lines: seq<string>, from: nat, start: char, end: char, numOpen: int)
    requires Scanned(lines, from, start, end, numOpen, Offset(lines, |lines|, 0))
    ensures forall j :: !Matches(Join(lines), start, end, from, j)
  {
    hide Join, Level, Above, Matches, Offset;
    OffsetEnd(lines);
    NothingCloses(Join(lines), start, end, from);
  }

  lemma NothingCloses(text: string, start: char, end: char, from: nat)
    requires Above(text, start, end, from, from + 1, |text| + 1)
    ensures forall j: nat :: !Matches(text, start, end, from, j)
  {
    hide Level;
    forall j: nat ensures !Matches(text, start, end, from, j) {
      if from < j < |text| {
        assert Level(text, start, end, j + 1) > Level(text, start, end, from);
      }
    }
  }

  // ----- backwards -----

  /** From the bracket at `to` down to where the text has been scanned to, nothing opens it. */
  ghost predicate ScannedBack(lines: seq<string>, to: nat, start: char, end: char, numOpen: int, downTo: nat) {
    && downTo <= to < |Join(lines)|
    && numOpen == Level(Join(lines), start, end, downTo) - Level(Join(lines), start, end, to + 1)
    && AboveEnd(Join(lines), start, end, to, downTo)
  }

  ghost predicate AboveEnd(text: string, start: char, end: char, to: nat, lo: nat) {
    to < |text| && forall k | lo <= k <= to :: Level(text, start, end, k) > Level(text, start, end, to + 1)
  }

  lemma MatchFromEnd(text: string, start: char, end: char, i: nat, j: nat)
    requires i < j < |text| && AboveEnd(text, start, end, j, i + 1)
    requires Level(text, start, end, i) == Level(text, start, end, j + 1)
    ensures Matches(text, start, end, i, j)
  {
  }

  lemma ScannedBackLine(lines: seq<string>, to: nat, start: char, end: char, numOpen: int, l: nat, p: int, lo: nat)
    requires l < |lines| && -1 <= p < |lines[l]| && lo <= p + 1 && start != end
    requires ScannedBack(lines, to, start, end, numOpen, Offset(lines, l, p + 1))
    requires NotOpenedFrom(lines[l], p, numOpen, start, end, lo)
    ensures AboveEnd(Join(lines), start, end, to, Offset(lines, l, lo))
  {
    var text := Join(lines);
    LevelInLine(lines, l, start, end, p + 1);
    assert numOpen > 0;
    forall k | Offset(lines, l, lo) <= k <= to ensures Level(text, start, end, k) > Level(text, start, end, to + 1) {
      if k < Offset(lines, l, p + 1) {
        var q := k - Offset(lines, l, 0);
        LevelInLine(lines, l, start, end, q);
        StaysAboveBackwards(lines[l], p, numOpen, start, end, lo, q);
      }
    }
  }

  lemma LastCharacter(lines: seq<string>, l: nat, p: nat, start: char, end: char, lo: nat)
    requires l < |lines| && p < |lines[l]| && lines[l][p] == end != start && lo <= p
    requires NotOpenedFrom(lines[l], p, 0, start, end, lo)
    ensures ScannedBack(lines, Offset(lines, l, p), start, end, 1, Offset(lines, l, p))
    ensures NotOpenedFrom(lines[l], p - 1, 1, start, end, lo)
  {
    LevelInLine(lines, l, start, end, p);
    LevelInLine(lines, l, start, end, p + 1);
  }

  /** What a search for the opening of the bracket at (`l`, `p`) may answer: the position of the bracket that
      matches it, or -1 if nothing does. Only a closing bracket has an opening. */
  ghost predicate OpenResult(lines: seq<string>, l: nat, p: nat, startline: nat, startpos: int) {
    && l < |lines| && p < |lines[l]|
    && var c := lines[l][p];
    if startpos == -1 then
      startline == 0
      && (IsClosing(c) ==> forall i: nat :: !Matches(Join(lines), OpeningOf(c), c, i, Offset(lines, l, p)))
    else
      && IsClosing(c) && startline <= l && 0 <= startpos < |lines[startline]|
      && lines[startline][startpos] == OpeningOf(c)
      && Matches(Join(lines), OpeningOf(c), c, Offset(lines, startline, startpos), Offset(lines, l, p))
  }

  /** Find the opening of the bracket at (`linenum`, `pos`). On success the result is the position of the
      opening bracket itself; a failure is a position of -1, and means that there is no match. */
  method ReverseCloseExpression(lines: seq<string>, linenum: nat, pos: nat)
      returns (line: string, startline: nat, startpos: int)
    requires linenum < |lines| && pos < |lines[linenum]|
    ensures OpenResult(lines, linenum, pos, startline, startpos)
    ensures startpos != -1 ==> line == lines[startline]
    ensures startpos != -1 ==>
      && (line[startpos], lines[linenum][pos]) in {('(', ')'), ('[', ']'), ('{', '}'), ('<', '>')}
      && Matches(Join(lines), line[startpos], lines[linenum][pos],
                 Offset(lines, startline, startpos), Offset(lines, linenum, pos))
    ensures startpos == -1 ==>
      forall start, i: nat | (start, lines[linenum][pos]) in {('(', ')'), ('[', ']'), ('{', '}'), ('<', '>')} ::
        !Matches(Join(lines), start, lines[linenum][pos], i, Offset(lines, linenum, pos))
  {
    hide Level, Join, NotOpenedFrom, ScannedBack, Matches;
    line := lines[linenum];
    var endchar := line[pos];
    if !IsClosing(endchar) {
      return line, 0, -1;
    }
    var startchar := OpeningOf(endchar);
    var start, numOpen := FindStartOfExpressionInLine(line, pos, 0, startchar, endchar);
    ghost var to := Offset(lines, linenum, pos);
    LastLine(lines, linenum, pos, startchar, endchar, start, numOpen);
    if start > -1 {
      return line, linenum, start;
    }
    var n := linenum;
    while n > 0
      invariant n <= linenum
      invariant ScannedBack(lines, to, startchar, endchar, numOpen, Offset(lines, n, 0))
    {
      n := n - 1;
      line := lines[n];
      ghost var before := numOpen;
      start, numOpen := FindStartOfExpressionInLine(line, |line| - 1, numOpen, startchar, endchar);
      PreviousLine(lines, n, to, startchar, endchar, before, start, numOpen);
      if start > -1 {
        return line, n, start;
      }
    }
    AllScannedBack(lines, to, startchar, endchar, numOpen);
    return line, 0, -1;
  }

  lemma LastLine(lines: seq<string>, l: nat, p: nat, start: char, end: char, startpos: int, numOpen: int)
    requires l < |lines| && p < |lines[l]| && lines[l][p] == end != start
    requires startpos == -1 ==>
      && numOpen == -Level(lines[l], start, end, p + 1) && NotOpenedFrom(lines[l], p, 0, start, end, 0)
    requires startpos != -1 ==>
      && 0 <= startpos <= p && lines[l][startpos] == start && NotOpenedFrom(lines[l], p, 0, start, end, startpos + 1)
      && 0 == Level(lines[l], start, end, startpos) - Level(lines[l], start, end, p + 1)
    ensures startpos == -1 ==> ScannedBack(lines, Offset(lines, l, p), start, end, numOpen, Offset(lines, l, 0))
    ensures startpos != -1 ==> Matches(Join(lines), start, end, Offset(lines, l, startpos), Offset(lines, l, p))
  {
    LastCharacter(lines, l, p, start, end, startpos + 1);
    ScannedBackLine(lines, Offset(lines, l, p), start, end, 1, l, p - 1, startpos + 1);
    LevelInLine(lines, l, start, end, if startpos == -1 then 0 else startpos);
    LevelInLine(lines, l, start, end, p + 1);
    if startpos != -1 {
      MatchFromEnd(Join(lines), start, end, Offset(lines, l, startpos), Offset(lines, l, p));
    }
  }

  lemma PreviousLine(lines: seq<string>, l: nat, to: nat, start: char, end: char, before: int, startpos: int, numOpen: int)
    requires l < |lines| && start != end && ScannedBack(lines, to, start, end, before, Offset(lines, l + 1, 0))
    requires startpos == -1 ==>
      && numOpen == before - Level(lines[l], start, end, |lines[l]|)
      && NotOpenedFrom(lines[l], |lines[l]| - 1, before, start, end, 0)
    requires startpos != -1 ==>
      && 0 <= startpos < |lines[l]| && lines[l][startpos] == start
      && NotOpenedFrom(lines[l], |lines[l]| - 1, before, start, end, startpos + 1)
      && 0 == before + Level(lines[l], start, end, startpos) - Level(lines[l], start, end, |lines[l]|)
    ensures startpos == -1 ==> ScannedBack(lines, to, start, end, numOpen, Offset(lines, l, 0))
    ensures startpos != -1 ==> Matches(Join(lines), start, end, Offset(lines, l, startpos), to)
  {
    LevelInLine(lines, l, start, end, |lines[l]|);
    ScannedBackLine(lines, to, start, end, before, l, |lines[l]| - 1, startpos + 1);
    LevelInLine(lines, l, start, end, if startpos == -1 then 0 else startpos);
    if startpos != -1 {
      MatchFromEnd(Join(lines), start, end, Offset(lines, l, startpos), to);
    }
  }

  lemma AllScannedBack(lines: seq<string>, to: nat, start: char, end: char, numOpen: int)
    requires ScannedBack(lines, to, start, end, numOpen, Offset(lines, 0, 0))
    ensures forall i :: !Matches(Join(lines), start, end, i, to)
  {
    hide Level;
    var text := Join(lines);
    forall i: nat ensures !Matches(text, start, end, i, to) {
      if i < to {
        assert Level(text, start, end, i) > Level(text, start, end, to + 1);
      }
    }
  }

  // ----- both ways -----

  /** From the close that one search finds, the other leads back to the bracket. */
  lemma CloseThenOpen(lines: seq<string>, l: nat, p: nat, endline: nat, endpos: int, l': nat, p': int)
    requires CloseResult(lines, l, p, endline, endpos) && endpos != -1
    requires OpenResult(lines, endline, endpos - 1, l', p')
    ensures l' == l && p' == p
  {
    hide Matches, Join;
    var c, at, to := lines[l][p], Offset(lines, l, p), Offset(lines, endline, endpos - 1);
    assert OpeningOf(ClosingOf(c)) == c;
    MatchIsUnique(Join(lines), c, ClosingOf(c), at, to, Offset(lines, l', p'), to);
    OffsetsDiffer(lines, l, p, l', p');
  }

  /** From the opening that one search finds, the other leads back to just past the bracket. */
  lemma OpenThenClose(lines: seq<string>, l: nat, p: nat, startline: nat, startpos: int, l': nat, p': int)
    requires OpenResult(lines, l, p, startline, startpos) && startpos != -1
    requires CloseResult(lines, startline, startpos, l', p')
    ensures l' == l && p' == p + 1
  {
    hide Matches, Join;
    var c, at, from := lines[l][p], Offset(lines, l, p), Offset(lines, startline, startpos);
    assert ClosingOf(OpeningOf(c)) == c;
    MatchIsUnique(Join(lines), OpeningOf(c), c, from, at, from, Offset(lines, l', p' - 1));
    OffsetsDiffer(lines, l, p, l', p' - 1);
  }

  /** A line of its own has the offsets of its positions. */
  lemma OneLine(text: string, p: nat)
    ensures Join([text]) == text && Offset([text], 0, p) == p
  {
    assert [text][..0] == [];
  }

  /** The joined text holds each bracket at its offset. */
  lemma InJoined(lines: seq<string>, l: nat, p: nat)
    requires l < |lines| && p < |lines[l]|
    ensures Offset(lines, l, p) < |Join(lines)| && Join(lines)[Offset(lines, l, p)] == lines[l][p]
  {
    LevelInLine(lines, l, '(', ')', p);
  }

  /** Searching line by line for a close finds what one search of the joined text finds. */
  lemma ClosesAsJoined(lines: seq<string>, l: nat, p: nat, endline: nat, endpos: int, joinedline: nat, joined: int)
    requires CloseResult(lines, l, p, endline, endpos)
    requires CloseResult([Join(lines)], 0, Offset(lines, l, p), joinedline, joined)
    ensures joined == if endpos == -1 then -1 else Offset(lines, endline, endpos)
  {
    hide Matches, Join;
    var c, t, i := lines[l][p], Join(lines), Offset(lines, l, p);
    InJoined(lines, l, p);
    OneLine(t, i);
    if joined != -1 {
      OneLine(t, joined - 1);
      if endpos != -1 {
        MatchIsUnique(t, c, ClosingOf(c), i, Offset(lines, endline, endpos - 1), i, joined - 1);
      }
    }
  }

  /** The same for openings. */
  lemma OpensAsJoined(lines: seq<string>, l: nat, p: nat, startline: nat, startpos: int, joinedline: nat, joined: int)
    requires OpenResult(lines, l, p, startline, startpos)
    requires OpenResult([Join(lines)], 0, Offset(lines, l, p), joinedline, joined)
    ensures joined == if startpos == -1 then -1 else Offset(lines, startline, startpos)
  {
    hide Matches, Join;
    var c, t, j := lines[l][p], Join(lines), Offset(lines, l, p);
    InJoined(lines, l, p);
    OneLine(t, j);
    if joined != -1 {
      OneLine(t, joined);
      if startpos != -1 {
        MatchIsUnique(t, OpeningOf(c), c, Offset(lines, startline, startpos), j, joined, j);
      }
    }
  }
}
