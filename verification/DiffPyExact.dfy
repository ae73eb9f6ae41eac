/** Exactly when the action's reader counts the new lines of a printed hunk, whatever its lines hold. */
module DiffPyExact {
  import opened Text
  import opened DiffParse
  import opened GitDiff
  import opened DiffPy
  import opened DiffPyRows
  import opened DiffPyHunks

  // ---------------------------------------------------------------- rows after a header

  predicate NoHeader(rows: seq<Row>) {
    forall r | r in rows :: !r.HunkRow?
  }

  /** The rows that move the reader's line on: all but the removed ones. */
  function Moving(rows: seq<Row>): seq<Row> {
    if rows == [] then []
    else Moving(rows[..|rows| - 1]) + if rows[|rows| - 1].MinusRow? then [] else [rows[|rows| - 1]]
  }

  /** Removed rows aside, the first `k` rows add a line and no later one does. */
  predicate AddsFirst(rows: seq<Row>, k: nat) {
    k <= |Moving(rows)| && forall i | 0 <= i < |Moving(rows)| :: Moving(rows)[i].PlusRow? <==> i < k
  }

  lemma {:induction false} CountedFrom(rows: seq<Row>, n: nat, m: nat)
    requires n > 0 && NoHeader(rows)
    ensures var c := CountRows(Count({}, n), rows);
            && c.line == n + |Moving(rows)|
            && (m in c.added <==> n <= m < n + |Moving(rows)| && Moving(rows)[m - n].PlusRow?)
  {
    if rows != [] {
      var most, last := rows[..|rows| - 1], rows[|rows| - 1];
      assert last in rows && forall r | r in most :: r in rows;
      CountedFrom(most, n, m);
    }
  }

  /** Before any header, at line zero, other rows do not move the reader on. */
  lemma {:induction false} CountedFromZero(rows: seq<Row>)
    requires NoHeader(rows)
    ensures CountRows(Count({}, 0), rows).added == {} <==> AddsFirst(rows, 0)
    ensures AddsFirst(rows, 0) ==> CountRows(Count({}, 0), rows).line == 0
  {
    if rows != [] {
      var most, last := rows[..|rows| - 1], rows[|rows| - 1];
      assert last in rows && forall r | r in most :: r in rows;
      CountedFromZero(most);
      MovingLast(most, last);
      assert rows == most + [last];
      assert CountRows(Count({}, 0), most).added <= CountRows(Count({}, 0), rows).added;
    }
  }

  lemma MovingLast(rows: seq<Row>, last: Row)
    ensures AddsFirst(rows + [last], 0) <==> AddsFirst(rows, 0) && !last.PlusRow?
  {
    var all, before := rows + [last], Moving(rows);
    assert all[..|rows|] == rows;
    if last.PlusRow? {
      assert Moving(all)[|before|] == last;
    } else {
      assert forall i | 0 <= i < |before| :: Moving(all)[i] == before[i];
    }
  }

  /** From line `n` on, the rows count exactly the next `k` lines if and only if they add first. */
  lemma CountsExactly(rows: seq<Row>, n: nat, k: nat)
    requires NoHeader(rows) && (n > 0 || k == 0)
    ensures CountRows(Count({}, n), rows).added == Numbers(n, k) <==> AddsFirst(rows, k)
  {
    if n == 0 {
      CountedFromZero(rows);
    } else {
      var counted, moving := CountRows(Count({}, n), rows).added, Moving(rows);
      if AddsFirst(rows, k) {
        forall m: nat ensures m in counted <==> m in Numbers(n, k) {
          CountedFrom(rows, n, m);
        }
      }
      if counted == Numbers(n, k) {
        forall i: nat ensures i < |moving| && moving[i].PlusRow? <==> i < k {
          CountedFrom(rows, n, n + i);
          assert n + i in Numbers(n, k) <==> i < k;
        }
        if k > 0 {
          CountedFrom(rows, n, n + k - 1);
          assert n + k - 1 in Numbers(n, k);
        }
      }
    }
  }

  // ---------------------------------------------------------------- rows with headers among them

  /** Rows without a header, and the line at which the header before them starts. */
  datatype Restart = Restart(start: nat, rows: seq<Row>)

  function Restarts(start: nat, rows: seq<Row>): (r: seq<Restart>)
    ensures r != []
  {
    if rows == [] then [Restart(start, [])]
    else
      var most, last := Restarts(start, rows[..|rows| - 1]), rows[|rows| - 1];
      if last.HunkRow? then most + [Restart(last.start, [])] else Extended(most, last)
  }

  function Extended(runs: seq<Restart>, row: Row): (r: seq<Restart>)
    requires runs != []
    ensures |r| == |runs|
  {
    var run := runs[|runs| - 1];
    runs[|runs| - 1 := Restart(run.start, run.rows + [row])]
  }

  function LastRun(runs: seq<Restart>): Restart
    requires runs != []
  {
    runs[|runs| - 1]
  }

  function CountRun(run: Restart): Count {
    CountRows(Count({}, run.start), run.rows)
  }

  ghost predicate SomeRunCounts(runs: seq<Restart>, m: nat) {
    exists i :: 0 <= i < |runs| && m in CountRun(runs[i]).added
  }

  /** Each header starts the count anew, and what was counted before it stays. */
  lemma {:induction false} RestartsCount(start: nat, rows: seq<Row>, m: nat)
    ensures var c, runs := CountRows(Count({}, start), rows), Restarts(start, rows);
            c.line == CountRun(LastRun(runs)).line && (m in c.added <==> SomeRunCounts(runs, m))
  {
    if rows == [] {
      assert CountRun(Restart(start, [])) == Count({}, start);
    } else {
      var most, last := rows[..|rows| - 1], rows[|rows| - 1];
      RestartsCount(start, most, m);
      if last.HunkRow? {
        NewRun(Restarts(start, most), last.start, m);
      } else {
        LongerRun(Restarts(start, most), last, m);
        RowCounts(CountRows(Count({}, start), most), CountRun(LastRun(Restarts(start, most))), last, m);
      }
    }
  }

  lemma RowCounts(c: Count, d: Count, row: Row, m: nat)
    requires c.line == d.line && !row.HunkRow?
    ensures CountRow(c, row).line == CountRow(d, row).line
    ensures m in CountRow(c, row).added <==> m in c.added || (row.PlusRow? && m == c.line)
    ensures m in CountRow(d, row).added <==> m in d.added || (row.PlusRow? && m == d.line)
  {
  }

  lemma NewRun(runs: seq<Restart>, start: nat, m: nat)
    ensures SomeRunCounts(runs + [Restart(start, [])], m) <==> SomeRunCounts(runs, m)
    ensures CountRun(LastRun(runs + [Restart(start, [])])).line == start
  {
    var all := runs + [Restart(start, [])];
    if i :| 0 <= i < |runs| && m in CountRun(runs[i]).added {
      assert all[i] == runs[i];
    }
  }

  lemma LongerRun(runs: seq<Restart>, row: Row, m: nat)
    requires runs != []
    ensures CountRun(LastRun(Extended(runs, row))) == CountRow(CountRun(LastRun(runs)), row)
    ensures SomeRunCounts(Extended(runs, row), m) <==>
            SomeRunCounts(runs, m) || m in CountRow(CountRun(LastRun(runs)), row).added
  {
    var all, n := Extended(runs, row), |runs| - 1;
    var run := runs[n];
    assert (run.rows + [row])[..|run.rows|] == run.rows;
    assert CountRun(all[n]) == CountRow(CountRun(run), row);
    assert m in CountRun(run).added && !row.HunkRow? ==> m in CountRun(all[n]).added;
    if i :| 0 <= i < |runs| && m in CountRun(runs[i]).added {
      assert i < n ==> all[i] == runs[i];
      assert i == n ==> m in CountRun(all[n]).added;
    }
    if i :| 0 <= i < |all| && m in CountRun(all[i]).added {
      assert i < n ==> all[i] == runs[i];
    }
  }

  lemma {:induction false} RunsHaveNoHeader(start: nat, rows: seq<Row>)
    ensures forall i | 0 <= i < |Restarts(start, rows)| :: NoHeader(Restarts(start, rows)[i].rows)
  {
    if rows != [] {
      RunsHaveNoHeader(start, rows[..|rows| - 1]);
    }
  }

  /** Every line the run adds is one of the `k` from `n` on. */
  predicate AddsOnly(run: Restart, n: nat, k: nat) {
    if run.start == 0 then AddsFirst(run.rows, 0)
    else forall i | 0 <= i < |Moving(run.rows)| && Moving(run.rows)[i].PlusRow? :: n <= run.start + i < n + k
  }

  /** Removed rows aside, the run has an added row as far from its start as the line `m` is. */
  predicate AddsLine(run: Restart, m: nat) {
    run.start <= m < run.start + |Moving(run.rows)| && Moving(run.rows)[m - run.start].PlusRow?
  }

  /** No run adds another line than the `k` from `n` on, and each of these is added by some run. */
  ghost predicate AddsExactly(runs: seq<Restart>, n: nat, k: nat) {
    && (forall i | 0 <= i < |runs| :: AddsOnly(runs[i], n, k))
    && forall m: nat | n <= m < n + k :: SomeRunAdds(runs, m)
  }

  ghost predicate SomeRunAdds(runs: seq<Restart>, m: nat) {
    exists i :: 0 <= i < |runs| && AddsLine(runs[i], m)
  }

  lemma RunAdds(run: Restart, n: nat, k: nat)
    requires NoHeader(run.rows) && (n > 0 || k == 0)
    ensures AddsOnly(run, n, k) <==> CountRun(run).added <= Numbers(n, k)
    ensures AddsOnly(run, n, k) ==> forall m: nat | n <= m < n + k :: AddsLine(run, m) <==> m in CountRun(run).added
  {
    if run.start == 0 {
      CountedFromZero(run.rows);
      ZeroIsCounted(run.rows);
    } else {
      forall m: nat ensures m in CountRun(run).added <==> AddsLine(run, m) {
        CountedFrom(run.rows, run.start, m);
      }
      if CountRun(run).added <= Numbers(n, k) {
        forall i | 0 <= i < |Moving(run.rows)| && Moving(run.rows)[i].PlusRow? ensures n <= run.start + i < n + k {
          assert AddsLine(run, run.start + i);
          assert run.start + i in Numbers(n, k);
        }
      }
    }
  }

  /** At line zero the first added row counts line zero. */
  lemma {:induction false} ZeroIsCounted(rows: seq<Row>)
    requires NoHeader(rows)
    ensures CountRows(Count({}, 0), rows).added != {} ==> 0 in CountRows(Count({}, 0), rows).added
  {
    if rows != [] {
      var most, last := rows[..|rows| - 1], rows[|rows| - 1];
      assert last in rows && forall r | r in most :: r in rows;
      ZeroIsCounted(most);
      CountedFromZero(most);
    }
  }

  lemma RestartsExactly(start: nat, rows: seq<Row>, n: nat, k: nat)
    requires n > 0 || k == 0
    ensures CountRows(Count({}, start), rows).added == Numbers(n, k) <==> AddsExactly(Restarts(start, rows), n, k)
  {
    var runs, counted := Restarts(start, rows), CountRows(Count({}, start), rows).added;
    RunsHaveNoHeader(start, rows);
    forall i | 0 <= i < |runs|
      ensures AddsOnly(runs[i], n, k) <==> CountRun(runs[i]).added <= Numbers(n, k)
      ensures AddsOnly(runs[i], n, k) ==> forall m: nat | n <= m < n + k :: AddsLine(runs[i], m) <==> m in CountRun(runs[i]).added
    {
      RunAdds(runs[i], n, k);
    }
    forall m: nat ensures m in counted <==> SomeRunCounts(runs, m) {
      RestartsCount(start, rows, m);
    }
    RunsExactly(runs, counted, n, k);
  }

  lemma RunsExactly(runs: seq<Restart>, counted: set<nat>, n: nat, k: nat)
    requires forall i | 0 <= i < |runs| :: AddsOnly(runs[i], n, k) <==> CountRun(runs[i]).added <= Numbers(n, k)
    requires forall i | 0 <= i < |runs| && AddsOnly(runs[i], n, k) ::
               forall m: nat | n <= m < n + k :: AddsLine(runs[i], m) <==> m in CountRun(runs[i]).added
    requires forall m: nat :: m in counted <==> SomeRunCounts(runs, m)
    ensures counted == Numbers(n, k) <==> AddsExactly(runs, n, k)
  {
    if counted == Numbers(n, k) {
      forall i | 0 <= i < |runs| ensures AddsOnly(runs[i], n, k) {
        forall m: nat | m in CountRun(runs[i]).added ensures m in Numbers(n, k) {
          assert SomeRunCounts(runs, m);
        }
      }
      forall m: nat | n <= m < n + k ensures SomeRunAdds(runs, m) {
        RunsAgree(runs, m, n, k);
      }
    }
    if AddsExactly(runs, n, k) {
      forall m: nat ensures m in counted <==> m in Numbers(n, k) {
        if n <= m < n + k {
          RunsAgree(runs, m, n, k);
        }
      }
    }
  }

  lemma RunsAgree(runs: seq<Restart>, m: nat, n: nat, k: nat)
    requires n <= m < n + k && forall i | 0 <= i < |runs| :: AddsOnly(runs[i], n, k)
    requires forall i | 0 <= i < |runs| && AddsOnly(runs[i], n, k) ::
               forall m: nat | n <= m < n + k :: AddsLine(runs[i], m) <==> m in CountRun(runs[i]).added
    ensures SomeRunAdds(runs, m) <==> SomeRunCounts(runs, m)
  {
    forall i | 0 <= i < |runs| ensures AddsLine(runs[i], m) <==> m in CountRun(runs[i]).added {
      assert AddsOnly(runs[i], n, k);
    }
  }

  // ---------------------------------------------------------------- any hunk

  /** The rows the reader splits a printed hunk into. */
  function ReaderRows(h: Hunk): seq<Row> {
    RowsOf(SplitLines(Unlines(HunkBlock(h))))
  }

  /** Those after the header. */
  function BodyRows(h: Hunk): seq<Row> {
    if ReaderRows(h) == [] then [] else ReaderRows(h)[1..]
  }

  lemma SpansPrintable(h: Hunk)
    ensures Printable(HUNK + HunkSpans(h, ""))
  {
    SpanPrintable(h.oldStart, |h.removed|);
    SpanPrintable(h.newStart, |h.added|);
  }

  lemma SpanPrintable(start: nat, count: nat)
    ensures Printable(Span(start, count))
  {
    DigitsPrintable(Decimal(start));
    DigitsPrintable(Decimal(count));
  }

  lemma DigitsPrintable(s: string)
    requires AllDigits(s)
    ensures Printable(s)
  {
    forall c | c in s ensures PrintableChar(c) {
      assert IsDigit(c);
    }
  }

  lemma SpansThenTail(h: Hunk, tail: string)
    ensures HunkSpans(h, tail) == HunkSpans(h, "") + tail
  {
  }

  lemma BlockText(h: Hunk)
    ensures exists rest :: Unlines(HunkBlock(h)) == HUNK + HunkSpans(h, "") + rest
  {
    var heading := if h.heading == "" then "" else " " + h.heading;
    SpansThenTail(h, heading);
    HeadText(HUNK, HunkSpans(h, ""), heading, HunkBody(h));
  }

  lemma HeadText(mark: string, spans: string, tail: string, body: seq<string>)
    ensures Unlines([mark + (spans + tail)] + body) == mark + spans + (tail + "\n" + Unlines(body))
  {
    assert ([mark + (spans + tail)] + body)[1..] == body;
  }

  /** Whatever the heading holds, the first row is the hunk header. */
  lemma HeaderFirst(h: Hunk)
    ensures ReaderRows(h) != [] && ReaderRows(h)[0] == HunkRow(h.newStart)
  {
    var spans := HUNK + HunkSpans(h, "");
    BlockText(h);
    var rest :| Unlines(HunkBlock(h)) == spans + rest;
    SpansPrintable(h);
    FirstRow(spans, rest);
    HeaderRow(h, SplitLines(spans + rest)[0]);
  }

  lemma HeaderRow(h: Hunk, row: string)
    requires HUNK + HunkSpans(h, "") <= row
    ensures RowOf(row) == HunkRow(h.newStart)
  {
    var tail := row[|HUNK + HunkSpans(h, "")|..];
    SpansThenTail(h, tail);
    assert row == HUNK + HunkSpans(h, tail);
    SpansRead(h, tail);
  }

  /** The reader counts exactly the new lines of a printed hunk if and only if no run of rows from a header to the
      next adds another line, and each new line is added by some run. Rows are what the reader splits the text into:
      a line holding a line boundary of its own is several, and any of them can be a header. */
  lemma HunkReadExactly(h: Hunk)
    requires ValidHunk(h)
    ensures Added(SplitLines(Unlines(HunkBlock(h)))) == NewLines(h) <==>
            AddsExactly(Restarts(h.newStart, BodyRows(h)), h.newStart, |h.added|)
  {
    HeaderFirst(h);
    AfterHeader(ReaderRows(h), h.newStart);
    RestartsExactly(h.newStart, BodyRows(h), h.newStart, |h.added|);
  }

  /** When no row after the header is one, that means: removed rows aside, the rows start with as many added ones as
      the hunk adds and hold no other. */
  lemma OneHeaderReadExactly(h: Hunk)
    requires ValidHunk(h) && NoHeader(BodyRows(h))
    ensures Added(SplitLines(Unlines(HunkBlock(h)))) == NewLines(h) <==> AddsFirst(BodyRows(h), |h.added|)
  {
    HeaderFirst(h);
    AfterHeader(ReaderRows(h), h.newStart);
    CountsExactly(BodyRows(h), h.newStart, |h.added|);
  }

  lemma AfterHeader(rows: seq<Row>, start: nat)
    requires rows != [] && rows[0] == HunkRow(start)
    ensures CountRows(Count({}, 0), rows) == CountRows(Count({}, start), rows[1..])
  {
    assert rows == [rows[0]] + rows[1..];
    CountConcat(Count({}, 0), [rows[0]], rows[1..]);
    CountOne(Count({}, 0), rows[0]);
  }

  // ---------------------------------------------------------------- inputs on which the reader is off

  const FORM_FEED: char := 12 as char

  lemma PrintableIsPlain(s: string)
    requires Printable(s)
    ensures BreakFree(s) && Chomp(s) == s
  {
    BreakAfter(s, "");
    assert s + "" == s;
    if s != "" {
      assert s[|s| - 1] in s;
    }
  }

  lemma TwoLines(a: string, b: string)
    requires Printable(a) && Printable(b)
    ensures SplitLines(a + "\n" + (b + "\n")) == [a, b]
  {
    PrintableIsPlain(a);
    PrintableIsPlain(b);
    SplitLine(b, "");
    assert b + "\n" + "" == b + "\n";
    SplitLine(a, b + "\n");
  }

  lemma BrokenLine(a: string, b: string, c: string, d: string)
    requires Printable(a) && Printable(b) && Printable(c) && Printable(d)
    ensures SplitLines(a + "\n" + (b + ([FORM_FEED] + (c + "\n" + (d + "\n"))))) == [a, b, c, d]
  {
    TwoLines(c, d);
    var next := c + "\n" + (d + "\n");
    BrokenRow(b, next, [c, d]);
    PrintableIsPlain(a);
    SplitLine(a, b + ([FORM_FEED] + next));
  }

  lemma BrokenRow(b: string, next: string, rows: seq<string>)
    requires Printable(b) && SplitLines(next) == rows
    ensures SplitLines(b + ([FORM_FEED] + next)) == [b] + rows
  {
    PrintableIsPlain(b);
    OneByteBreak(FORM_FEED, next);
    SplitRow(b, [FORM_FEED] + next);
  }

  /** Two added lines, the first with a form feed in it, as text. */
  lemma BrokenText(header: string, x: string, y: string, z: string)
    ensures Unlines([header, ['+'] + (x + [FORM_FEED] + y), ['+'] + z]) ==
            header + "\n" + ((['+'] + x) + ([FORM_FEED] + (y + "\n" + ((['+'] + z) + "\n"))))
  {
    var broken, last := ['+'] + (x + [FORM_FEED] + y), ['+'] + z;
    assert [header, broken, last][1..] == [broken, last] && [broken, last][1..] == [last] && [last][1..] == [];
    assert Unlines([last]) == last + "\n";
    assert broken + "\n" + (last + "\n") == (['+'] + x) + ([FORM_FEED] + (y + "\n" + (last + "\n")));
  }

  lemma FourRows(rows: seq<Row>, n: nat)
    requires n > 0 && |rows| == 4 && rows[0] == HunkRow(n) && rows[1] == PlusRow && rows[2] == OtherRow && rows[3] == PlusRow
    ensures CountRows(Count({}, 0), rows).added == {n, n + 2}
  {
    CountedStep(Count({}, 0), rows, 0);
    CountedStep(Count({}, 0), rows, 1);
    CountedStep(Count({}, 0), rows, 2);
    CountedStep(Count({}, 0), rows, 3);
    assert rows[..0] == [] && rows[..4] == rows;
  }

  lemma CountedStep(c: Count, rows: seq<Row>, i: nat)
    requires i < |rows|
    ensures CountRows(c, rows[..i + 1]) == CountRow(CountRows(c, rows[..i]), rows[i])
  {
    assert rows[..i + 1][..i] == rows[..i];
  }

  lemma BrokenSplits(header: string, x: string, y: string, z: string)
    requires Printable(header) && Printable(x) && Printable(y) && Printable(z)
    ensures SplitLines(Unlines([header, ['+'] + (x + [FORM_FEED] + y), ['+'] + z])) == [header, ['+'] + x, y, ['+'] + z]
  {
    BrokenText(header, x, y, z);
    BrokenLine(header, ['+'] + x, y, ['+'] + z);
  }

  lemma BrokenAdded(header: string, x: string, y: string, z: string, n: nat)
    requires RowOf(header) == HunkRow(n) && n > 0
    requires !("++" <= x) && !("++" <= z) && y != "" && y[0] !in {'+', '-', '@'}
    ensures Added([header, ['+'] + x, y, ['+'] + z]) == {n, n + 2}
  {
    MarkedRow(x);
    MarkedRow(z);
    NotAHunk(y);
    var rows := [header, ['+'] + x, y, ['+'] + z];
    FourRows(RowsOf(rows), n);
  }

  lemma SimpleHeader(h: Hunk)
    requires h.heading == ""
    ensures Printable(HunkHeader(h)) && RowOf(HunkHeader(h)) == HunkRow(h.newStart)
  {
    SpansPrintable(h);
    HeaderRow(h, HunkHeader(h));
  }

  lemma OnlyAdded(h: Hunk)
    requires h.removed == [] && !h.oldNoNewline && !h.newNoNewline
    ensures HunkBlock(h) == [HunkHeader(h)] + Marked('+', h.added)
  {
  }

  /** Two added lines, the first with a form feed in it. */
  predicate IsBroken(h: Hunk, x: string, y: string, z: string) {
    && h.newStart > 0 && h.heading == "" && h.removed == [] && !h.oldNoNewline && !h.newNoNewline
    && h.added == [x + [FORM_FEED] + y, z]
    && Printable(x) && Printable(y) && Printable(z)
    && x != "" && x[0] !in {'+', '-', '@'} && y != "" && y[0] !in {'+', '-', '@'} && z != "" && z[0] !in {'+', '-', '@'}
  }

  lemma NotPlusPlus(line: string)
    requires line != "" && line[0] != '+'
    ensures !("++" <= line)
  {
    assert "++"[0] == '+';
  }

  /** The rest of the broken line is a row of its own, so the line after it is counted one too far. */
  lemma FormFeedShifts(h: Hunk, x: string, y: string, z: string)
    requires IsBroken(h, x, y, z)
    ensures Added(SplitLines(Unlines(HunkBlock(h)))) == {h.newStart, h.newStart + 2}
  {
    SimpleHeader(h);
    OnlyAdded(h);
    var header := HunkHeader(h);
    TwoMarked(header, x + [FORM_FEED] + y, z);
    BrokenSplits(header, x, y, z);
    NotPlusPlus(x);
    NotPlusPlus(z);
    BrokenAdded(header, x, y, z, h.newStart);
  }

  lemma TwoMarked(header: string, a: string, b: string)
    ensures [header] + Marked('+', [a, b]) == [header, ['+'] + a, ['+'] + b]
  {
  }

  /** No line of such a hunk looks like a file header. */
  lemma BrokenReadsWell(h: Hunk, x: string, y: string, z: string)
    requires IsBroken(h, x, y, z)
    ensures ReadsWell(h) && NewLines(h) == {h.newStart, h.newStart + 1}
  {
    assert (x + [FORM_FEED] + y)[0] == x[0];
    NotPlusPlus(x + [FORM_FEED] + y);
    NotPlusPlus(z);
  }

  /** A hunk that reads well line by line and is counted wrong. */
  lemma FormFeedMiscounts()
    ensures var h := Hunk(1, [], false, 2, ["a" + [FORM_FEED] + "b", "c"], false, "");
            ReadsWell(h) && NewLines(h) == {2, 3} && Added(SplitLines(Unlines(HunkBlock(h)))) == {2, 4}
  {
    var h := Hunk(1, [], false, 2, ["a" + [FORM_FEED] + "b", "c"], false, "");
    assert IsBroken(h, "a", "b", "c");
    FormFeedShifts(h, "a", "b", "c");
    BrokenReadsWell(h, "a", "b", "c");
  }

  lemma OneMarked(header: string, line: string)
    requires Printable(header) && Printable(line)
    ensures PlainLines([header] + Marked('+', [line]))
  {
    PrintableIsPlain(header);
    PrintableIsPlain(['+'] + line);
  }

  lemma NoneCounted(h: Hunk, line: string)
    requires h.added == [line] && "++" <= line
    ensures CountedIn(h) == {}
  {
    forall k: nat ensures k !in CountedIn(h) {
      CountedAt(h.added, h.newStart + Shift(h), k);
    }
  }

  /** A line that starts with two plus signs is never counted. */
  lemma PlusPlusIsLost(h: Hunk, line: string)
    requires ValidHunk(h) && h.heading == "" && h.removed == [] && !h.oldNoNewline && !h.newNoNewline
    requires h.added == [line] && Printable(line) && "++" <= line
    ensures Added(SplitLines(Unlines(HunkBlock(h)))) == {}
  {
    SimpleHeader(h);
    OnlyAdded(h);
    OneMarked(HunkHeader(h), line);
    PlainHunkCounts(h);
    NoneCounted(h, line);
  }

  lemma PlusPlusMiscounts()
    ensures var h := Hunk(1, [], false, 2, ["++x"], false, "");
            NewLines(h) == {2} && Added(SplitLines(Unlines(HunkBlock(h)))) == {}
  {
    PlusPlusIsLost(Hunk(1, [], false, 2, ["++x"], false, ""), "++x");
  }
}
