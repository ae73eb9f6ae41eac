/** How the action's reader splits text into rows: at line feeds, and at the other line boundaries. */
module DiffPyRows {
  import opened Text
  import opened DiffPy

  /** No line boundary anywhere. */
  predicate BreakFree(line: string) {
    BreakAt(line) == |line|
  }

  /** No line boundary but the carriage return that may end the line. */
  predicate PlainLine(line: string) {
    BreakFree(Chomp(line))
  }

  predicate PlainLines(lines: seq<string>) {
    forall l | l in lines :: PlainLine(l)
  }

  /** Rows that splitting and joining leave alone. */
  predicate Clean(rows: seq<string>) {
    forall r | r in rows :: r != "" && BreakFree(r)
  }

  predicate EndsLine(text: string) {
    text != "" && text[0] in {'\n', '\r'}
  }

  lemma BreakLenBefore(s: string, rest: string)
    requires s != "" && BreakLen(s) == 0 && (rest == "" || BreakLen(rest) == 1 || EndsLine(rest))
    ensures BreakLen(s + rest) == 0
  {
    var all := s + rest;
    assert all[0] == s[0] && (rest != "" ==> all[|s|] == rest[0]);
    assert forall i | 0 <= i < |s| :: all[i] == s[i];
  }

  /** The first boundary of a row and what follows it, when that starts with a boundary. */
  lemma {:induction false} BreakAtRow(row: string, rest: string)
    requires BreakFree(row) && rest != "" && (BreakLen(rest) == 1 || EndsLine(rest))
    ensures BreakAt(row + rest) == |row|
  {
    if row == "" {
      assert row + rest == rest;
    } else {
      BreakLenBefore(row, rest);
      assert (row + rest)[1..] == row[1..] + rest;
      BreakAtRow(row[1..], rest);
    }
  }

  /** A row ends where a boundary comes next. */
  lemma SplitRow(row: string, next: string)
    requires BreakFree(row) && BreakLen(next) > 0 && (BreakLen(next) == 1 || EndsLine(next))
    ensures SplitLines(row + next) == [row] + SplitLines(next[BreakLen(next)..])
  {
    BreakAtRow(row, next);
    AfterThatRow(row, next);
    FirstRowIs(row + next, row, next[BreakLen(next)..]);
  }

  lemma AfterThatRow(row: string, next: string)
    requires BreakAt(row + next) == |row|
    ensures AfterRow(row + next) == next[BreakLen(next)..] && (row + next)[..|row|] == row
  {
    assert (row + next)[|row|..] == next;
    assert (row + next)[|row| + BreakLen(next)..] == next[BreakLen(next)..];
  }

  lemma FirstRowIs(text: string, row: string, rest: string)
    requires text != "" && text[..BreakAt(text)] == row && AfterRow(text) == rest
    ensures SplitLines(text) == [row] + SplitLines(rest)
  {
  }

  lemma OneByteBreak(c: char, rest: string)
    requires c as int in {10, 11, 12, 28, 29, 30}
    ensures BreakLen([c] + rest) == 1 && ([c] + rest)[1..] == rest
  {
  }

  lemma CrLfBreak(rest: string)
    ensures BreakLen("\r\n" + rest) == 2 && ("\r\n" + rest)[2..] == rest
  {
  }

  lemma SplitLast(row: string)
    requires BreakFree(row) && row != ""
    ensures SplitLines(row) == [row]
  {
    assert row[..|row|] == row && row[|row|..] == "";
    FirstRowIs(row, row, "");
  }

  /** A plain line is read without the carriage return that ends it, as the scanner's parser reads it. */
  lemma SplitLine(line: string, rest: string)
    requires PlainLine(line)
    ensures SplitLines(line + "\n" + rest) == [Chomp(line)] + SplitLines(rest)
  {
    if Chomp(line) == line {
      OneByteBreak('\n', rest);
      SplitRow(line, ['\n'] + rest);
      assert line + "\n" + rest == line + (['\n'] + rest);
    } else {
      CrLfBreak(rest);
      SplitRow(Chomp(line), "\r\n" + rest);
      CrLfSplits(line, rest);
    }
  }

  lemma CrLfSplits(line: string, rest: string)
    requires Chomp(line) != line
    ensures line + "\n" + rest == Chomp(line) + ("\r\n" + rest)
  {
    assert line == Chomp(line) + "\r";
  }

  /** On plain lines the reader's rows are the parser's lines. */
  lemma {:induction false} SplitUnlines(lines: seq<string>)
    requires PlainLines(lines)
    ensures SplitLines(Unlines(lines)) == Chomped(lines)
  {
    if lines != [] {
      assert lines[0] in lines && forall l | l in lines[1..] :: l in lines;
      SplitUnlines(lines[1..]);
      SplitLine(lines[0], Unlines(lines[1..]));
    }
  }

  lemma {:induction false} SplitJoin(rows: seq<string>)
    requires Clean(rows)
    ensures SplitLines(Join(rows)) == rows
  {
    if |rows| == 1 {
      assert rows[0] in rows && rows == [rows[0]];
      SplitLast(rows[0]);
    } else if |rows| > 1 {
      assert rows[0] in rows && forall r | r in rows[1..] :: r in rows;
      SplitJoin(rows[1..]);
      OneByteBreak('\n', Join(rows[1..]));
      SplitRow(rows[0], ['\n'] + Join(rows[1..]));
      JoinSplits(rows);
    }
  }

  lemma JoinSplits(rows: seq<string>)
    requires |rows| > 1
    ensures Join(rows) == rows[0] + (['\n'] + Join(rows[1..])) && rows == [rows[0]] + rows[1..]
  {
  }

  // ---------------------------------------------------------------- text that starts without a boundary

  predicate PrintableChar(c: char) {
    c == '\t' || 32 <= c as int < 127
  }

  predicate Printable(s: string) {
    forall c | c in s :: PrintableChar(c)
  }

  lemma {:induction false} BreakAfter(s: string, rest: string)
    requires Printable(s)
    ensures BreakAt(s + rest) == |s| + BreakAt(rest)
  {
    if s == "" {
      assert s + rest == rest;
    } else {
      assert s[0] in s && forall c | c in s[1..] :: c in s;
      assert (s + rest)[1..] == s[1..] + rest && (s + rest)[0] == s[0];
      BreakAfter(s[1..], rest);
    }
  }

  /** The first row of a text that starts with printable ASCII starts with it. */
  lemma FirstRow(s: string, rest: string)
    requires Printable(s) && s != ""
    ensures SplitLines(s + rest) != [] && s <= SplitLines(s + rest)[0]
  {
    BreakAfter(s, rest);
    assert (s + rest)[..|s|] == s;
  }
}
