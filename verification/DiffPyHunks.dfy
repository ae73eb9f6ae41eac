/** What the action's reader makes of the lines of printed hunks. */
module DiffPyHunks {
  import opened Options
  import opened Text
  import opened GitDiff
  import opened DiffPy
  import opened DiffPyRows
  import opened DiffParse
  import Trip = DiffRoundTrip

  // ---------------------------------------------------------------- hunk headers

  lemma {:induction false} DigitRunReads(digits: string, rest: string)
    requires AllDigits(digits) && (rest == "" || !IsDigit(rest[0]))
    ensures DigitRun(digits + rest) == digits
  {
    if digits == "" {
      assert digits + rest == rest;
    } else {
      assert digits[0] in digits && forall c | c in digits[1..] :: c in digits;
      assert (digits + rest)[1..] == digits[1..] + rest;
      DigitRunReads(digits[1..], rest);
      assert digits == [digits[0]] + digits[1..];
    }
  }

  lemma AfterCountReads(count: string, rest: string)
    requires rest != "" && !IsDigit(rest[0]) && rest[0] != ','
    requires AllDigits(count)
    ensures AfterCount(rest) == rest
    ensures count != "" ==> AfterCount([','] + count + rest) == rest
  {
    DigitRunReads(count, rest);
    var all := [','] + count + rest;
    assert all[1..] == count + rest;
    assert all[1 + |count|..] == rest;
  }

  lemma SpanReads(start: nat, count: nat, close: string, rest: string)
    requires close != "" && !IsDigit(close[0]) && close[0] != ','
    ensures SpanMatch(Span(start, count) + (close + rest), close) == Some((start, rest))
  {
    DecimalParses(start);
    var tail := close + rest;
    var after := if count == 1 then tail else [','] + Decimal(count) + tail;
    var all := Span(start, count) + tail;
    assert all == Decimal(start) + after;
    DigitRunReads(Decimal(start), after);
    assert all[|Decimal(start)|..] == after;
    AfterCountReads(Decimal(count), tail);
    assert tail[|close|..] == rest;
  }

  lemma HeaderShape(from: string, to: string, tail: string)
    ensures HUNK + ((" -" + from + " ") + ['+'] + (to + [' '] + HUNK + tail)) ==
            "@@ -" + (from + (" +" + (to + (" @@" + tail))))
  {
  }

  /** A hunk header names its first new line, whatever follows the closing "@@". */
  lemma SpansRead(h: Hunk, tail: string)
    ensures HunkMatch(HUNK + HunkSpans(h, tail)) == Some(h.newStart)
  {
    var from, to := Span(h.oldStart, |h.removed|), Span(h.newStart, |h.added|);
    HeaderShape(from, to, tail);
    var spans := to + (" @@" + tail);
    SpanReads(h.newStart, |h.added|, " @@", tail);
    SpanReads(h.oldStart, |h.removed|, " +", spans);
    assert ("@@ -" + (from + (" +" + spans)))[4..] == from + (" +" + spans);
  }

  lemma HeaderReads(h: Hunk)
    ensures HunkMatch(Chomp(HunkHeader(h))) == Some(h.newStart)
  {
    var heading := if h.heading == "" then "" else " " + h.heading;
    Trip.ChompSpans(h, heading);
    SpansRead(h, Chomp(heading));
  }

  // ---------------------------------------------------------------- counting

  lemma {:induction false} CountConcat(c: Count, a: seq<Row>, b: seq<Row>)
    ensures CountRows(c, a + b) == CountRows(CountRows(c, a), b)
  {
    if b == [] {
      assert a + b == a;
    } else {
      assert (a + b)[..|a + b| - 1] == a + b[..|b| - 1];
      CountConcat(c, a, b[..|b| - 1]);
    }
  }

  lemma CountOne(c: Count, row: Row)
    ensures CountRows(c, [row]) == CountRow(c, row)
  {
    assert [row][..0] == [];
  }

  /** Removed lines that look like a file header. */
  function Dashes(removed: seq<string>): nat {
    if removed == [] then 0 else Dashes(removed[..|removed| - 1]) + if "--" <= removed[|removed| - 1] then 1 else 0
  }

  /** The lines counted as added from line `n` on: those that do not look like a file header. */
  function Counted(added: seq<string>, n: nat): set<nat> {
    if added == [] then {}
    else Counted(added[..|added| - 1], n) + if "++" <= added[|added| - 1] then {} else {n + |added| - 1}
  }

  function RemovedRow(line: string): Row {
    if "--" <= line then OtherRow else MinusRow
  }

  function AddedRow(line: string): Row {
    if "++" <= line then OtherRow else PlusRow
  }

  ghost predicate AreRemoved(rows: seq<Row>, removed: seq<string>) {
    |rows| == |removed| && forall i | 0 <= i < |rows| :: rows[i] == RemovedRow(removed[i])
  }

  ghost predicate AreAdded(rows: seq<Row>, added: seq<string>) {
    |rows| == |added| && forall i | 0 <= i < |rows| :: rows[i] == AddedRow(added[i])
  }

  lemma NotAHunk(row: string)
    requires row != "" && row[0] != '@'
    ensures HunkMatch(row) == None
  {
    assert "@@ -"[0] == '@';
  }

  lemma MarkedRow(line: string)
    ensures RowOf(['-'] + line) == RemovedRow(line) && RowOf(['+'] + line) == AddedRow(line)
  {
    NotAHunk(['-'] + line);
    NotAHunk(['+'] + line);
    assert (['-'] + line)[1..] == line && (['+'] + line)[1..] == line;
    assert "---" <= ['-'] + line <==> "--" <= line;
    assert "+++" <= ['+'] + line <==> "++" <= line;
  }

  lemma ChompKeepsMarks(line: string)
    ensures RemovedRow(Chomp(line)) == RemovedRow(line) && AddedRow(Chomp(line)) == AddedRow(line)
  {
  }

  lemma MarkedRows(lines: seq<string>)
    ensures AreRemoved(RowsOf(Chomped(Marked('-', lines))), lines) && AreAdded(RowsOf(Chomped(Marked('+', lines))), lines)
  {
    forall i | 0 <= i < |lines|
      ensures RowOf(Chomp(Marked('-', lines)[i])) == RemovedRow(lines[i]) && RowOf(Chomp(Marked('+', lines)[i])) == AddedRow(lines[i])
    {
      Trip.ChompMarked('-', lines[i]);
      Trip.ChompMarked('+', lines[i]);
      MarkedRow(Chomp(lines[i]));
      ChompKeepsMarks(lines[i]);
    }
  }

  lemma {:induction false} RemovedCounts(c: Count, rows: seq<Row>, removed: seq<string>)
    requires AreRemoved(rows, removed)
    ensures CountRows(c, rows) == if c.line > 0 then c.(line := c.line + Dashes(removed)) else c
  {
    if removed != [] {
      RemovedCounts(c, rows[..|rows| - 1], removed[..|removed| - 1]);
    }
  }

  lemma {:induction false} AddedCounts(c: Count, rows: seq<Row>, added: seq<string>)
    requires AreAdded(rows, added) && (added == [] || c.line > 0)
    ensures CountRows(c, rows) == Count(c.added + Counted(added, c.line), c.line + |added|)
  {
    if added != [] {
      AddedCounts(c, rows[..|rows| - 1], added[..|added| - 1]);
    }
  }

  function NoteRows(noNewline: bool): seq<Row> {
    if noNewline then [OtherRow] else []
  }

  lemma NotedRows(noNewline: bool)
    ensures RowsOf(Chomped(Noted(noNewline))) == NoteRows(noNewline)
  {
    if noNewline {
      assert NO_NEWLINE[0] == BACKSLASH && Chomp(NO_NEWLINE) == NO_NEWLINE;
      ChompedOne(NO_NEWLINE);
      NotAHunk(NO_NEWLINE);
    }
  }

  lemma NoteCounts(c: Count, noNewline: bool)
    ensures CountRows(c, NoteRows(noNewline)) == if noNewline && c.line > 0 then c.(line := c.line + 1) else c
  {
    CountOne(c, OtherRow);
  }

  /** How far the reader's count is off when it reaches the added lines. */
  function Shift(h: Hunk): nat {
    Dashes(h.removed) + if h.oldNoNewline then 1 else 0
  }

  function CountedIn(h: Hunk): set<nat> {
    Counted(h.added, h.newStart + Shift(h))
  }

  lemma {:induction false} RowsConcat(a: seq<string>, b: seq<string>)
    ensures RowsOf(a + b) == RowsOf(a) + RowsOf(b)
  {
    if b == [] {
      assert a + b == a;
    } else {
      assert (a + b)[..|a + b| - 1] == a + b[..|b| - 1];
      RowsConcat(a, b[..|b| - 1]);
    }
  }

  lemma ChompedRowsConcat(a: seq<string>, b: seq<string>)
    ensures RowsOf(Chomped(a + b)) == RowsOf(Chomped(a)) + RowsOf(Chomped(b))
  {
    ChompedConcat(a, b);
    RowsConcat(Chomped(a), Chomped(b));
  }

  /** What the reader counts in the rows of one printed hunk. */
  lemma HunkCounts(c: Count, h: Hunk)
    requires ValidHunk(h)
    ensures CountRows(c, RowsOf(Chomped(HunkBlock(h)))).added == c.added + CountedIn(h)
  {
    HunkRows(h);
    var removed, added := RowsOf(Chomped(Marked('-', h.removed))), RowsOf(Chomped(Marked('+', h.added)));
    MarkedRows(h.removed);
    MarkedRows(h.added);
    PartsCount(c, h, removed, added);
  }

  lemma HunkRows(h: Hunk)
    ensures RowsOf(Chomped(HunkBlock(h))) ==
            [HunkRow(h.newStart)] + (RowsOf(Chomped(Marked('-', h.removed))) + NoteRows(h.oldNoNewline)
                                     + RowsOf(Chomped(Marked('+', h.added))) + NoteRows(h.newNoNewline))
  {
    HeaderReads(h);
    HeadRow(HunkHeader(h), h.newStart, HunkBody(h));
    NotedRows(h.oldNoNewline);
    NotedRows(h.newNoNewline);
    BodyRows(Marked('-', h.removed), Noted(h.oldNoNewline), Marked('+', h.added), Noted(h.newNoNewline));
  }

  lemma HeadRow(header: string, start: nat, body: seq<string>)
    requires HunkMatch(Chomp(header)) == Some(start)
    ensures RowsOf(Chomped([header] + body)) == [HunkRow(start)] + RowsOf(Chomped(body))
  {
    ChompedOne(header);
    ChompedConcat([header], body);
    FirstKind(Chomp(header), HunkRow(start), Chomped(body));
  }

  lemma FirstKind(row: string, kind: Row, rows: seq<string>)
    requires RowOf(row) == kind
    ensures RowsOf([row] + rows) == [kind] + RowsOf(rows)
  {
    RowsConcat([row], rows);
  }

  lemma BodyRows(removed: seq<string>, oldNote: seq<string>, added: seq<string>, newNote: seq<string>)
    ensures RowsOf(Chomped(removed + oldNote + added + newNote)) ==
            RowsOf(Chomped(removed)) + RowsOf(Chomped(oldNote)) + RowsOf(Chomped(added)) + RowsOf(Chomped(newNote))
  {
    ChompedRowsConcat(removed + oldNote + added, newNote);
    ChompedRowsConcat(removed + oldNote, added);
    ChompedRowsConcat(removed, oldNote);
  }

  lemma FiveParts(c: Count, start: nat, removed: seq<Row>, oldNote: seq<Row>, added: seq<Row>, newNote: seq<Row>)
    ensures CountRows(c, [HunkRow(start)] + (removed + oldNote + added + newNote)) ==
            CountRows(CountRows(CountRows(CountRows(Count(c.added, start), removed), oldNote), added), newNote)
  {
    var c0 := Count(c.added, start);
    CountOne(c, HunkRow(start));
    CountConcat(c, [HunkRow(start)], removed + oldNote + added + newNote);
    CountConcat(c0, removed + oldNote + added, newNote);
    CountConcat(c0, removed + oldNote, added);
    CountConcat(c0, removed, oldNote);
  }

  lemma PartsCount(c: Count, h: Hunk, removed: seq<Row>, added: seq<Row>)
    requires ValidHunk(h) && AreRemoved(removed, h.removed) && AreAdded(added, h.added)
    ensures CountRows(c, [HunkRow(h.newStart)] + (removed + NoteRows(h.oldNoNewline) + added + NoteRows(h.newNoNewline))).added ==
            c.added + CountedIn(h)
  {
    var c0 := Count(c.added, h.newStart);
    FiveParts(c, h.newStart, removed, NoteRows(h.oldNoNewline), added, NoteRows(h.newNoNewline));
    RemovedCounts(c0, removed, h.removed);
    var c1 := CountRows(c0, removed);
    NoteCounts(c1, h.oldNoNewline);
    var c2 := CountRows(c1, NoteRows(h.oldNoNewline));
    AddedCounts(c2, added, h.added);
    NoteCounts(CountRows(c2, added), h.newNoNewline);
    if h.added == [] {
      assert Counted(h.added, c2.line) == {};
    }
  }

  // ---------------------------------------------------------------- agreement, hunk by hunk

  /** The new-side lines of a hunk. */
  function NewLines(h: Hunk): set<nat> {
    Numbers(h.newStart, |h.added|)
  }

  /** Nothing is added, or no changed line looks like a file header and no note stands before added lines. */
  predicate ReadsWell(h: Hunk) {
    h.added == [] || (Shift(h) == 0 && forall l | l in h.added :: !("++" <= l))
  }

  lemma {:induction false} CountedAt(added: seq<string>, n: nat, k: nat)
    ensures k in Counted(added, n) <==> n <= k < n + |added| && !("++" <= added[k - n])
  {
    if added != [] {
      CountedAt(added[..|added| - 1], n, k);
    }
  }

  lemma CountedExactly(h: Hunk)
    ensures CountedIn(h) == NewLines(h) <==> ReadsWell(h)
  {
    var n := h.newStart + Shift(h);
    if ReadsWell(h) {
      forall k: nat ensures k in CountedIn(h) <==> k in NewLines(h) {
        CountedAt(h.added, n, k);
        if h.newStart <= k < h.newStart + |h.added| {
          assert h.added[k - n] in h.added;
        }
      }
    } else if Shift(h) > 0 {
      CountedAt(h.added, n, h.newStart);
      assert h.newStart in NewLines(h);
    } else {
      var i :| 0 <= i < |h.added| && "++" <= h.added[i];
      CountedAt(h.added, n, n + i);
      assert n + i in NewLines(h);
    }
  }

  lemma PlainHunkCounts(h: Hunk)
    requires ValidHunk(h) && PlainLines(HunkBlock(h))
    ensures Added(SplitLines(Unlines(HunkBlock(h)))) == CountedIn(h)
  {
    AddedInPlain(HunkBlock(h));
    HunkCounts(Count({}, 0), h);
  }

  lemma AddedInPlain(lines: seq<string>)
    requires PlainLines(lines)
    ensures Added(SplitLines(Unlines(lines))) == CountRows(Count({}, 0), RowsOf(Chomped(lines))).added
  {
    SplitUnlines(lines);
  }

  /** The reader counts exactly the new lines of a printed hunk of plain lines if and only if the hunk reads well. */
  lemma PlainHunkReadExactly(h: Hunk)
    requires ValidHunk(h) && PlainLines(HunkBlock(h))
    ensures Added(SplitLines(Unlines(HunkBlock(h)))) == NewLines(h) <==> ReadsWell(h)
  {
    PlainHunkCounts(h);
    CountedExactly(h);
  }
}
