/** Parsing what git prints: paths, new-side ranges and removed lines are read back, whatever the body looks
    like, with three exceptions that are stated exactly. */
module DiffRoundTrip {
  import opened Options
  import opened Text
  import opened Utf8
  import opened DiffParse
  import opened GitDiff
  import opened DiffQuoting

  // ---------------------------------------------------------------- what a diff says

  function HunkRange(h: Hunk): seq<Range> {
    NewRange(h.newStart, |h.added|)
  }

  function NewRange(start: nat, count: nat): seq<Range> {
    if count == 0 then [] else [Range(start, start + count - 1)]
  }

  function RangesOf(hunks: seq<Hunk>): seq<Range> {
    if hunks == [] then [] else RangesOf(hunks[..|hunks| - 1]) + HunkRange(hunks[|hunks| - 1])
  }

  function RemovedOf(hunks: seq<Hunk>): seq<string> {
    if hunks == [] then [] else RemovedOf(hunks[..|hunks| - 1]) + hunks[|hunks| - 1].removed
  }

  function FileOf(c: Change): FileDiff {
    FileDiff(c.newPath, RangesOf(c.hunks), RemovedOf(c.hunks))
  }

  /** The file sections a list of changes describes: one for each file with hunks. */
  function FilesOf(changes: seq<Change>): seq<FileDiff> {
    if changes == [] then []
    else FilesOf(changes[..|changes| - 1]) + if changes[|changes| - 1].hunks == [] then [] else [FileOf(changes[|changes| - 1])]
  }

  /** What the parser makes of a file: white space ending an unquoted path, what is not UTF-8 in a quoted one,
      and a carriage return ending a removed line are lost. */
  function SeenFile(c: Change, high: bool): FileDiff {
    FileDiff(SeenPath(c.newPath, high), RangesOf(c.hunks), Chomped(RemovedOf(c.hunks)))
  }

  function SeenFiles(changes: seq<Change>, high: bool): seq<FileDiff> {
    if changes == [] then []
    else
      SeenFiles(changes[..|changes| - 1], high) +
      if changes[|changes| - 1].hunks == [] then [] else [SeenFile(changes[|changes| - 1], high)]
  }

  // ---------------------------------------------------------------- printed lines are lines

  /** No line feed or carriage return. */
  predicate Unbroken(s: string) {
    '\n' !in s && '\r' !in s
  }

  lemma EscapeUnbroken(c: char, high: bool)
    requires c as int < 256
    ensures Unbroken(QuoteByte(c, high))
  {
    EscapeShape(c);
  }

  lemma {:induction false} QuoteBodyUnbroken(path: string, high: bool)
    requires Bytes(path)
    ensures Unbroken(QuoteBody(path, high))
  {
    if path != "" {
      BodySplits(path, high, "");
      EscapeUnbroken(path[0], high);
      QuoteBodyUnbroken(path[1..], high);
    }
  }

  lemma NamedUnbroken(side: string, path: Option<string>, high: bool)
    requires ValidPath(path) && side in {OLD_SIDE, NEW_SIDE}
    ensures Unbroken(Named(side, path, high))
  {
    if path.Some? {
      assert Bytes(side + path.value);
      QuoteBodyUnbroken(side + path.value, high);
      if !NeedsQuote(side + path.value, high) {
        assert NeedsEscape('\n', high) && NeedsEscape('\r', high);
      }
    }
  }

  lemma DigitsUnbroken(s: string)
    requires AllDigits(s)
    ensures Unbroken(s)
  {
    forall c | c in s ensures c != '\n' && c != '\r' {
      assert IsDigit(c);
    }
  }

  lemma HeaderOneLine(h: Hunk)
    requires ValidHunk(h)
    ensures OneLine(HunkHeader(h))
  {
    DigitsUnbroken(Decimal(h.oldStart));
    DigitsUnbroken(Decimal(|h.removed|));
    DigitsUnbroken(Decimal(h.newStart));
    DigitsUnbroken(Decimal(|h.added|));
  }

  lemma MarkedOneLine(mark: char, lines: seq<string>)
    requires AllOneLine(lines) && mark != '\n'
    ensures AllOneLine(Marked(mark, lines))
  {
    forall l | l in Marked(mark, lines) ensures OneLine(l) {
      var i :| 0 <= i < |lines| && Marked(mark, lines)[i] == l;
      assert lines[i] in lines;
    }
  }

  lemma HunkOneLine(h: Hunk)
    requires ValidHunk(h)
    ensures OneLine(HunkHeader(h)) && AllOneLine(HunkBody(h))
  {
    HeaderOneLine(h);
    MarkedOneLine('-', h.removed);
    MarkedOneLine('+', h.added);
  }

  lemma {:induction false} HunksOneLine(hunks: seq<Hunk>)
    requires ValidHunks(hunks)
    ensures AllOneLine(HunkLines(hunks))
  {
    if hunks != [] {
      HunksOneLine(hunks[..|hunks| - 1]);
      HunkOneLine(hunks[|hunks| - 1]);
    }
  }

  lemma FileOneLine(c: Change, high: bool)
    requires ValidChange(c)
    ensures AllOneLine(FileLines(c, high)) && OneLine(SECTION + c.names)
  {
    HunksOneLine(c.hunks);
    PathsOneLine(c, high);
    HeadersOneLine(c);
    OneLineConcat(c.headers, PathLines(c, high), HunkLines(c.hunks));
  }

  lemma HeadersOneLine(c: Change)
    requires ValidChange(c)
    ensures AllOneLine(c.headers) && OneLine(SECTION + c.names)
  {
  }

  lemma PathsOneLine(c: Change, high: bool)
    requires ValidChange(c)
    ensures AllOneLine(PathLines(c, high))
  {
    NamedUnbroken(OLD_SIDE, c.oldPath, high);
    NamedUnbroken(NEW_SIDE, c.newPath, high);
  }

  lemma OneLineConcat(a: seq<string>, b: seq<string>, c: seq<string>)
    requires AllOneLine(a) && AllOneLine(b) && AllOneLine(c)
    ensures AllOneLine(a + b + c)
  {
  }

  lemma {:induction false} DiffOneLine(changes: seq<Change>, high: bool)
    requires ValidChanges(changes)
    ensures AllOneLine(DiffLines(changes, high))
  {
    if changes != [] {
      DiffOneLine(changes[..|changes| - 1], high);
      FileOneLine(changes[|changes| - 1], high);
    }
  }

  // ---------------------------------------------------------------- hunks

  /** Text without the marks that end the parts of a hunk header. */
  predicate Plain(s: string) {
    '+' !in s && ' ' !in s && '@' !in s
  }

  lemma DigitsPlain(s: string)
    requires AllDigits(s)
    ensures Plain(s) && ',' !in s
  {
    forall c | c in s ensures c != '+' && c != ' ' && c != '@' && c != ',' {
      assert IsDigit(c);
    }
  }

  lemma SpanPlain(start: nat, count: nat)
    ensures Plain(Span(start, count))
  {
    DigitsPlain(Decimal(start));
    DigitsPlain(Decimal(count));
  }

  /** The new side of a hunk header is found, whatever its heading. */
  lemma SpecReads(before: string, spec: string, close: string, tail: string)
    requires '+' !in before && '+' !in close && Plain(spec)
    ensures NewSpec(before + ['+'] + (spec + [' '] + close + tail)) == Some(spec)
  {
    var most := spec + [' '] + close;
    IndexAfter(before, '+', most + tail);
    UntilPrefix(most, tail, '+');
    var rest := close + Until(tail, '+');
    IndexAfter(spec, ' ', rest);
    assert most + Until(tail, '+') == spec + [' '] + rest;
    NoIndex(spec, '@');
  }

  lemma NumberReads(n: nat)
    requires n <= USIZE_MAX
    ensures ParseUsize(Trim(Decimal(n))) == Some(n) && ',' !in Decimal(n)
  {
    DecimalParses(n);
    DigitsPlain(Decimal(n));
    DigitsTrim(Decimal(n));
  }

  lemma SpanReads(start: nat, count: nat)
    requires start + count <= USIZE_MAX
    ensures SpecRange(Span(start, count)) == if count == 0 then None else Some(Range(start, start + count - 1))
  {
    NumberReads(start);
    NumberReads(count);
    if count == 1 {
      OneNumber(Decimal(start), start);
    } else {
      TwoNumbers(Decimal(start), start, Decimal(count), count);
    }
  }

  lemma OneNumber(text: string, start: nat)
    requires ',' !in text && ParseUsize(Trim(text)) == Some(start) && start < USIZE_MAX
    ensures SpecRange(text) == Some(Range(start, start))
  {
    NoIndex(text, ',');
  }

  lemma TwoNumbers(first: string, start: nat, second: string, count: nat)
    requires ',' !in first && ParseUsize(Trim(first)) == Some(start)
    requires ',' !in second && ParseUsize(Trim(second)) == Some(count) && start + count <= USIZE_MAX
    ensures SpecRange(first + [','] + second) == if count == 0 then None else Some(Range(start, start + count - 1))
  {
    IndexAfter(first, ',', second);
    NoIndex(second, ',');
  }

  lemma RangeReads(before: string, start: nat, count: nat, tail: string)
    requires '+' !in before && start + count <= USIZE_MAX
    ensures NewHunkRange(before + ['+'] + (Span(start, count) + [' '] + HUNK + tail)) ==
            if count == 0 then None else Some(Range(start, start + count - 1))
  {
    SpanPlain(start, count);
    SpecReads(before, Span(start, count), HUNK, tail);
    SpanReads(start, count);
  }

  lemma {:induction false} RangesConcat(a: seq<string>, b: seq<string>)
    ensures Ranges(a + b) == Ranges(a) + Ranges(b)
  {
    if b == [] {
      assert a + b == a;
    } else {
      assert (a + b)[..|a + b| - 1] == a + b[..|b| - 1];
      RangesConcat(a, b[..|b| - 1]);
    }
  }

  lemma {:induction false} RemovedConcat(a: seq<string>, b: seq<string>)
    ensures Removed(a + b) == Removed(a) + Removed(b)
  {
    if b == [] {
      assert a + b == a;
    } else {
      assert (a + b)[..|a + b| - 1] == a + b[..|b| - 1];
      RemovedConcat(a, b[..|b| - 1]);
    }
  }

  lemma ReadOne(line: string)
    ensures Ranges([line]) == RangeIn(line) && Removed([line]) == RemovedIn(line)
  {
    assert [line][..0] == [];
  }

  /** A body line, whatever it looks like, is at most a removed line. */
  lemma MarkReads(mark: char, line: string)
    requires mark in {'-', '+', BACKSLASH}
    ensures Ranges([[mark] + line]) == []
    ensures Removed([[mark] + line]) == if mark == '-' then [line] else []
  {
    ReadOne([mark] + line);
    assert ([mark] + line)[0] == mark && HUNK[0] == '@';
    assert ([mark] + line)[1..] == line;
  }

  lemma ChompMarked(mark: char, line: string)
    requires mark in {'-', '+'}
    ensures Chomp([mark] + line) == [mark] + Chomp(line)
  {
  }

  lemma {:induction false} MarkedReads(mark: char, lines: seq<string>)
    requires mark in {'-', '+'}
    ensures Ranges(Chomped(Marked(mark, lines))) == []
    ensures Removed(Chomped(Marked(mark, lines))) == if mark == '-' then Chomped(lines) else []
    decreases |lines|
  {
    if lines != [] {
      MarkedReads(mark, lines[1..]);
      ChompMarked(mark, lines[0]);
      MarkReads(mark, Chomp(lines[0]));
      ChompedOne([mark] + lines[0]);
      ConcatReads([[mark] + lines[0]], Marked(mark, lines[1..]));
    }
  }

  lemma NotedReads(noNewline: bool)
    ensures Ranges(Chomped(Noted(noNewline))) == [] && Removed(Chomped(Noted(noNewline))) == []
  {
    if noNewline {
      assert Chomp(NO_NEWLINE) == NO_NEWLINE && NO_NEWLINE == [BACKSLASH] + NO_NEWLINE[1..];
      ChompedOne(NO_NEWLINE);
      MarkReads(BACKSLASH, NO_NEWLINE[1..]);
    }
  }

  lemma ChompAppend(s: string, t: string)
    requires s != "" && s[|s| - 1] != '\r'
    ensures Chomp(s + t) == s + Chomp(t)
  {
  }

  lemma SpansThenTail(before: string, spec: string, tail: string)
    ensures before + ['+'] + (spec + [' '] + HUNK + tail) == before + ['+'] + (spec + [' '] + HUNK) + tail
  {
  }

  /** A carriage return ending the heading is not part of what the header says. */
  lemma ChompSpans(h: Hunk, tail: string)
    ensures Chomp(HUNK + HunkSpans(h, tail)) == HUNK + HunkSpans(h, Chomp(tail))
  {
    var before, spec := " -" + Span(h.oldStart, |h.removed|) + " ", Span(h.newStart, |h.added|);
    SpansThenTail(before, spec, tail);
    SpansThenTail(before, spec, Chomp(tail));
    var start := HUNK + (before + ['+'] + (spec + [' '] + HUNK));
    assert start[|start| - 1] == '@';
    ChompAppend(start, tail);
  }

  lemma SpansRead(h: Hunk, tail: string)
    requires h.newStart + |h.added| <= USIZE_MAX
    ensures RangeIn(HUNK + HunkSpans(h, tail)) == HunkRange(h) && RemovedIn(HUNK + HunkSpans(h, tail)) == []
  {
    SpansFormat(h, tail);
    FormatReads(HUNK + HunkSpans(h, tail), h.newStart, |h.added|);
  }

  /** A hunk header that gives this new side. */
  ghost predicate HeaderOf(line: string, start: nat, count: nat) {
    exists before, tail :: '+' !in before && line == HUNK + (before + ['+'] + (Span(start, count) + [' '] + HUNK + tail))
  }

  lemma SpansFormat(h: Hunk, tail: string)
    ensures HeaderOf(HUNK + HunkSpans(h, tail), h.newStart, |h.added|)
  {
    var before := SpansStart(h, tail);
  }

  lemma FormatReads(line: string, start: nat, count: nat)
    requires HeaderOf(line, start, count) && start + count <= USIZE_MAX
    ensures RangeIn(line) == NewRange(start, count) && RemovedIn(line) == []
  {
    var before, tail :| '+' !in before && line == HUNK + (before + ['+'] + (Span(start, count) + [' '] + HUNK + tail));
    LineReads(before, line, start, count, tail);
  }

  lemma SpansStart(h: Hunk, tail: string) returns (before: string)
    ensures '+' !in before && HunkSpans(h, tail) == before + ['+'] + (Span(h.newStart, |h.added|) + [' '] + HUNK + tail)
  {
    SpanPlain(h.oldStart, |h.removed|);
    before := " -" + Span(h.oldStart, |h.removed|) + " ";
  }

  lemma LineReads(before: string, line: string, start: nat, count: nat, tail: string)
    requires '+' !in before && start + count <= USIZE_MAX
    requires line == HUNK + (before + ['+'] + (Span(start, count) + [' '] + HUNK + tail))
    ensures RangeIn(line) == (if count == 0 then [] else [Range(start, start + count - 1)]) && RemovedIn(line) == []
  {
    RangeReads(before, start, count, tail);
    RestRead(before + ['+'] + (Span(start, count) + [' '] + HUNK + tail));
  }

  lemma RestRead(rest: string)
    ensures RangeIn(HUNK + rest) == if NewHunkRange(rest).Some? then [NewHunkRange(rest).value] else []
    ensures RemovedIn(HUNK + rest) == []
  {
    assert (HUNK + rest)[2..] == rest;
  }

  lemma HeaderReads(h: Hunk)
    requires h.newStart + |h.added| <= USIZE_MAX
    ensures Ranges([Chomp(HunkHeader(h))]) == HunkRange(h) && Removed([Chomp(HunkHeader(h))]) == []
  {
    var heading := if h.heading == "" then "" else " " + h.heading;
    ChompSpans(h, heading);
    SpansRead(h, Chomp(heading));
    ReadOne(HUNK + HunkSpans(h, Chomp(heading)));
  }

  lemma HunkReads(h: Hunk)
    requires ValidHunk(h)
    ensures var lines := Chomped(HunkBlock(h)); Ranges(lines) == HunkRange(h) && Removed(lines) == Chomped(h.removed)
  {
    HeaderReads(h);
    BodyReads(h);
    ChompedOne(HunkHeader(h));
    ConcatReads([HunkHeader(h)], HunkBody(h));
  }

  lemma BodyReads(h: Hunk)
    ensures Ranges(Chomped(HunkBody(h))) == [] && Removed(Chomped(HunkBody(h))) == Chomped(h.removed)
  {
    MarkedReads('-', h.removed);
    MarkedReads('+', h.added);
    NotedReads(h.oldNoNewline);
    NotedReads(h.newNoNewline);
    ConcatReads(Marked('-', h.removed), Noted(h.oldNoNewline));
    ConcatReads(Marked('-', h.removed) + Noted(h.oldNoNewline), Marked('+', h.added));
    ConcatReads(Marked('-', h.removed) + Noted(h.oldNoNewline) + Marked('+', h.added), Noted(h.newNoNewline));
  }

  lemma ConcatReads(a: seq<string>, b: seq<string>)
    ensures Ranges(Chomped(a + b)) == Ranges(Chomped(a)) + Ranges(Chomped(b))
    ensures Removed(Chomped(a + b)) == Removed(Chomped(a)) + Removed(Chomped(b))
  {
    ChompedConcat(a, b);
    RangesConcat(Chomped(a), Chomped(b));
    RemovedConcat(Chomped(a), Chomped(b));
  }

  lemma {:induction false} HunksRead(hunks: seq<Hunk>)
    requires ValidHunks(hunks)
    ensures var lines := Chomped(HunkLines(hunks));
            Ranges(lines) == RangesOf(hunks) && Removed(lines) == Chomped(RemovedOf(hunks))
  {
    if hunks != [] {
      var before, h := hunks[..|hunks| - 1], hunks[|hunks| - 1];
      HunksRead(before);
      HunkReads(h);
      ConcatReads(HunkLines(before), HunkBlock(h));
      ChompedConcat(RemovedOf(before), h.removed);
    }
  }

  // ---------------------------------------------------------------- files

  /** A line that starts neither a file section nor its body. */
  predicate Inner(line: string) {
    !(SECTION <= line)
  }

  lemma SectionsSnoc(lines: seq<string>, line: string, before: seq<seq<string>>, body: seq<string>)
    requires Sections(lines) == before + [body] && Inner(line)
    ensures Sections(lines + [line]) == before + [body + [line]]
  {
    assert (lines + [line])[..|lines|] == lines;
    assert (before + [body])[..|before|] == before;
  }

  lemma {:induction false} SectionsConcat(lines: seq<string>, head: string, body: seq<string>)
    requires SECTION <= head && forall l | l in body :: Inner(l)
    ensures Sections(lines + [head] + body) == Sections(lines) + [body]
  {
    if body == [] {
      assert lines + [head] + body == lines + [head];
      assert (lines + [head])[..|lines|] == lines;
    } else {
      var most, last := body[..|body| - 1], body[|body| - 1];
      assert body == most + [last];
      SectionsConcat(lines, head, most);
      SectionsSnoc(lines + [head] + most, last, Sections(lines), most);
      assert lines + [head] + body == lines + [head] + most + [last];
    }
  }

  lemma {:induction false} FromNewPathSkips(headers: seq<string>, rest: seq<string>)
    requires forall l | l in headers :: !(NEW_PATH <= l)
    ensures FromNewPath(headers + rest) == FromNewPath(rest)
  {
    if headers == [] {
      assert headers + rest == rest;
    } else {
      assert headers[0] in headers && (headers + rest)[0] == headers[0];
      assert (headers + rest)[1..] == headers[1..] + rest;
      assert forall l | l in headers[1..] :: l in headers;
      FromNewPathSkips(headers[1..], rest);
    }
  }

  lemma PrefixOfChomp(prefix: string, line: string)
    requires prefix <= Chomp(line)
    ensures prefix <= line
  {
  }

  lemma BlockInner(h: Hunk)
    ensures forall l | l in HunkBlock(h) :: Inner(l)
  {
    assert HunkHeader(h)[0] == '@' && NO_NEWLINE[0] == BACKSLASH && SECTION[0] == 'd';
    forall l | l in HunkBody(h) ensures Inner(l) {
      assert l[0] in {'-', '+', BACKSLASH};
    }
  }

  lemma {:induction false} HunkLinesInner(hunks: seq<Hunk>)
    ensures forall l | l in HunkLines(hunks) :: Inner(l)
  {
    if hunks != [] {
      HunkLinesInner(hunks[..|hunks| - 1]);
      BlockInner(hunks[|hunks| - 1]);
    }
  }

  lemma PathLinesInner(c: Change, high: bool)
    ensures forall l | l in PathLines(c, high) :: Inner(l)
  {
    assert OLD_PATH[0] == '-' && NEW_PATH[0] == '+' && SECTION[0] == 'd';
  }

  lemma FileLinesInner(c: Change, high: bool)
    requires ValidChange(c)
    ensures forall l | l in FileLines(c, high) :: Inner(l)
  {
    HunkLinesInner(c.hunks);
    PathLinesInner(c, high);
    forall l | l in c.headers ensures Inner(l) {
      assert ValidHeader(l);
    }
  }

  lemma ChompedInner(lines: seq<string>)
    requires forall l | l in lines :: Inner(l)
    ensures forall l | l in Chomped(lines) :: Inner(l)
  {
    forall i | 0 <= i < |lines| ensures Inner(Chomped(lines)[i]) {
      assert Inner(lines[i]);
      if SECTION <= Chomp(lines[i]) {
        PrefixOfChomp(SECTION, lines[i]);
      }
    }
  }

  lemma PathLinesRead(c: Change, high: bool)
    requires ValidChange(c)
    ensures var line := NEW_PATH + Named(NEW_SIDE, c.newPath, high);
            && Chomp(line) == line && NEW_PATH <= line
            && NewFilePath(TrimStart(line[|NEW_PATH|..])) == SeenPath(c.newPath, high)
  {
    NamedUnbroken(NEW_SIDE, c.newPath, high);
    PathReads(c.newPath, high);
    var line := NEW_PATH + Named(NEW_SIDE, c.newPath, high);
    assert line[|NEW_PATH|..] == Named(NEW_SIDE, c.newPath, high);
    assert Unbroken(line);
    assert line[|line| - 1] in line;
  }

  lemma ChompedHeaders(headers: seq<string>)
    requires forall l | l in headers :: ValidHeader(l)
    ensures forall l | l in Chomped(headers) :: !(NEW_PATH <= l)
  {
    forall i | 0 <= i < |headers| ensures !(NEW_PATH <= Chomped(headers)[i]) {
      assert headers[i] in headers && ValidHeader(headers[i]) && NEW_PATH[0] == '+';
      if NEW_PATH <= Chomp(headers[i]) {
        PrefixOfChomp(NEW_PATH, headers[i]);
      }
    }
  }

  lemma SectionReads(headers: seq<string>, newLine: string, lines: seq<string>)
    requires forall l | l in headers :: !(NEW_PATH <= l)
    requires NEW_PATH <= newLine
    ensures SectionDiff(headers) == None
    ensures SectionDiff(headers + ([newLine] + lines)) ==
            Some(FileDiff(NewFilePath(TrimStart(newLine[|NEW_PATH|..])), Ranges(lines), Removed(lines)))
  {
    FromNewPathSkips(headers, []);
    assert headers + [] == headers;
    FromNewPathSkips(headers, [newLine] + lines);
    assert ([newLine] + lines)[1..] == lines;
  }

  lemma OldPathSkipped(c: Change, high: bool)
    ensures !(NEW_PATH <= Chomp(OLD_PATH + Named(OLD_SIDE, c.oldPath, high)))
  {
    var line := OLD_PATH + Named(OLD_SIDE, c.oldPath, high);
    assert line[0] == '-' && NEW_PATH[0] == '+';
    if NEW_PATH <= Chomp(line) {
      PrefixOfChomp(NEW_PATH, line);
    }
  }

  lemma FileReads(c: Change, high: bool)
    requires ValidChange(c)
    ensures SectionDiff(Chomped(FileLines(c, high))) == if c.hunks == [] then None else Some(SeenFile(c, high))
  {
    ChompedHeaders(c.headers);
    if c.hunks == [] {
      SectionReads(Chomped(c.headers), NEW_PATH, []);
    } else {
      TextFileReads(c, high);
    }
  }

  lemma TextFileReads(c: Change, high: bool)
    requires ValidChange(c) && c.hunks != []
    ensures SectionDiff(Chomped(FileLines(c, high))) == Some(SeenFile(c, high))
  {
    var oldLine, newLine := Chomp(OLD_PATH + Named(OLD_SIDE, c.oldPath, high)), NEW_PATH + Named(NEW_SIDE, c.newPath, high);
    FileLinesShape(c, high);
    ChompedHeaders(c.headers);
    OldPathSkipped(c, high);
    PathLinesRead(c, high);
    HunksRead(c.hunks);
    SkippedThenRead(Chomped(c.headers), oldLine, newLine, Chomped(HunkLines(c.hunks)));
  }

  lemma SkippedThenRead(headers: seq<string>, oldLine: string, newLine: string, lines: seq<string>)
    requires (forall l | l in headers :: !(NEW_PATH <= l)) && !(NEW_PATH <= oldLine) && NEW_PATH <= newLine
    ensures SectionDiff((headers + [oldLine]) + ([newLine] + lines)) ==
            Some(FileDiff(NewFilePath(TrimStart(newLine[|NEW_PATH|..])), Ranges(lines), Removed(lines)))
  {
    SectionReads(headers + [oldLine], newLine, lines);
  }

  lemma FileLinesShape(c: Change, high: bool)
    requires ValidChange(c) && c.hunks != []
    ensures var oldLine, newLine := OLD_PATH + Named(OLD_SIDE, c.oldPath, high), NEW_PATH + Named(NEW_SIDE, c.newPath, high);
            Chomped(FileLines(c, high)) ==
            (Chomped(c.headers) + [Chomp(oldLine)]) + ([newLine] + Chomped(HunkLines(c.hunks)))
  {
    PathLinesRead(c, high);
    ChompedFile(c.headers, OLD_PATH + Named(OLD_SIDE, c.oldPath, high), NEW_PATH + Named(NEW_SIDE, c.newPath, high), HunkLines(c.hunks));
  }

  lemma ChompedFile(headers: seq<string>, oldLine: string, newLine: string, lines: seq<string>)
    requires Chomp(newLine) == newLine
    ensures Chomped(headers + [oldLine, newLine] + lines) == (Chomped(headers) + [Chomp(oldLine)]) + ([newLine] + Chomped(lines))
  {
    var before := Chomped(headers);
    ChompedConcat(headers + [oldLine, newLine], lines);
    ChompedConcat(headers, [oldLine, newLine]);
    ChompedTwo(oldLine, newLine);
    Regroup(before, Chomp(oldLine), newLine, Chomped(lines));
  }

  lemma Regroup<T>(a: seq<T>, x: T, y: T, b: seq<T>)
    ensures a + [x, y] + b == (a + [x]) + ([y] + b)
  {
  }

  lemma ChompedTwo(a: string, b: string)
    ensures Chomped([a, b]) == [Chomp(a), Chomp(b)]
  {
    ChompedOne(b);
    assert [a, b][1..] == [b];
  }

  lemma BlockReads(lines: seq<string>, c: Change, high: bool)
    requires ValidChange(c)
    ensures Sections(Chomped(lines + FileBlock(c, high))) == Sections(Chomped(lines)) + [Chomped(FileLines(c, high))]
  {
    FileLinesInner(c, high);
    ChompedInner(FileLines(c, high));
    BlockSplits(lines, SECTION + c.names, FileLines(c, high));
  }

  lemma BlockSplits(lines: seq<string>, head: string, body: seq<string>)
    requires SECTION <= head && forall l | l in Chomped(body) :: Inner(l)
    ensures Sections(Chomped(lines + ([head] + body))) == Sections(Chomped(lines)) + [Chomped(body)]
  {
    ChompedBlock(lines, head, body);
    ChompedSection(head);
    SectionsConcat(Chomped(lines), Chomp(head), Chomped(body));
  }

  lemma ChompedSection(head: string)
    requires SECTION <= head
    ensures SECTION <= Chomp(head)
  {
    assert SECTION[|SECTION| - 1] != '\r';
  }

  lemma ChompedBlock(lines: seq<string>, head: string, body: seq<string>)
    ensures Chomped(lines + ([head] + body)) == Chomped(lines) + [Chomp(head)] + Chomped(body)
  {
    ChompedConcat(lines, [head] + body);
    ChompedConcat([head], body);
    ChompedOne(head);
  }

  lemma {:induction false} FilesRead(changes: seq<Change>, high: bool)
    requires ValidChanges(changes)
    ensures FileDiffs(Sections(Chomped(DiffLines(changes, high)))) == SeenFiles(changes, high)
  {
    if changes != [] {
      var before, c := changes[..|changes| - 1], changes[|changes| - 1];
      assert c in changes && forall b | b in before :: b in changes;
      FilesRead(before, high);
      FileReads(c, high);
      BlockReads(DiffLines(before, high), c, high);
      FileDiffsSnoc(Sections(Chomped(DiffLines(before, high))), Chomped(FileLines(c, high)));
    }
  }

  lemma FileDiffsSnoc(sections: seq<seq<string>>, s: seq<string>)
    ensures FileDiffs(sections + [s]) ==
            FileDiffs(sections) + if SectionDiff(s).Some? then [SectionDiff(s).value] else []
  {
    assert (sections + [s])[..|sections|] == sections;
  }

  // ---------------------------------------------------------------- main results

  /** What the parser makes of anything git prints. */
  lemma PrintedParses(changes: seq<Change>, high: bool)
    requires ValidChanges(changes)
    ensures Parsed(Printed(changes, high)) == SeenFiles(changes, high)
  {
    DiffOneLine(changes, high);
    LinesOfUnlines(DiffLines(changes, high));
    FilesRead(changes, high);
  }

  predicate EndsInCarriageReturn(line: string) {
    line != "" && line[|line| - 1] == '\r'
  }

  /** No unquoted path ends in white space, every quoted one is well-formed UTF-8, and no removed line ends in a
      carriage return. */
  predicate Survives(c: Change, high: bool) {
    PathSurvives(c.newPath, high) && forall l | l in RemovedOf(c.hunks) :: !EndsInCarriageReturn(l)
  }

  lemma ChompedSame(lines: seq<string>)
    ensures Chomped(lines) == lines <==> forall l | l in lines :: !EndsInCarriageReturn(l)
  {
    if Chomped(lines) == lines {
      forall l | l in lines ensures !EndsInCarriageReturn(l) {
        var i :| 0 <= i < |lines| && lines[i] == l;
        assert Chomped(lines)[i] == Chomp(l);
      }
    }
    if forall l | l in lines :: !EndsInCarriageReturn(l) {
      forall i | 0 <= i < |lines| ensures Chomped(lines)[i] == lines[i] {
        assert !EndsInCarriageReturn(lines[i]);
      }
    }
  }

  lemma SeenExactly(c: Change, high: bool)
    ensures SeenFile(c, high) == FileOf(c) <==> Survives(c, high)
  {
    SurvivesExactly(c.newPath, high);
    ChompedSame(RemovedOf(c.hunks));
  }

  predicate AllSurvive(changes: seq<Change>, high: bool) {
    forall c | c in changes && c.hunks != [] :: Survives(c, high)
  }

  lemma AllSurviveSnoc(changes: seq<Change>, c: Change, high: bool)
    ensures AllSurvive(changes + [c], high) <==> AllSurvive(changes, high) && (c.hunks != [] ==> Survives(c, high))
  {
    if AllSurvive(changes + [c], high) {
      assert c in changes + [c];
      assert forall b | b in changes :: b in changes + [c];
    }
  }

  lemma {:induction false} SeenFilesExactly(changes: seq<Change>, high: bool)
    ensures |SeenFiles(changes, high)| == |FilesOf(changes)|
    ensures SeenFiles(changes, high) == FilesOf(changes) <==> AllSurvive(changes, high)
  {
    if changes != [] {
      var before, c := changes[..|changes| - 1], changes[|changes| - 1];
      SeenFilesExactly(before, high);
      assert changes == before + [c];
      AllSurviveSnoc(before, c, high);
      if c.hunks == [] {
        assert SeenFiles(changes, high) == SeenFiles(before, high) && FilesOf(changes) == FilesOf(before);
      } else {
        SeenExactly(c, high);
        SnocEqual(SeenFiles(before, high), SeenFile(c, high), FilesOf(before), FileOf(c));
      }
    }
  }

  lemma SnocEqual<T>(a: seq<T>, x: T, b: seq<T>, y: T)
    requires |a| == |b|
    ensures a + [x] == b + [y] <==> a == b && x == y
  {
    if a + [x] == b + [y] {
      assert (a + [x])[..|a|] == a && (b + [y])[..|b|] == b;
      assert (a + [x])[|a|] == x && (b + [y])[|b|] == y;
    }
  }

  /** Parsing a printed diff gives back its paths, ranges and removed lines exactly when no unquoted path ends
      in white space, every quoted path is well-formed UTF-8 and no removed line ends in a carriage return. */
  lemma RoundTripExactly(changes: seq<Change>, high: bool)
    requires ValidChanges(changes)
    ensures Parsed(Printed(changes, high)) == FilesOf(changes) <==> AllSurvive(changes, high)
  {
    PrintedParses(changes, high);
    SeenFilesExactly(changes, high);
  }

  lemma OneFileFails(c: Change, high: bool)
    requires ValidChange(c) && c.hunks != [] && !Survives(c, high)
    ensures ValidChanges([c]) && Parsed(Printed([c], high)) != FilesOf([c])
  {
    assert c in [c];
    RoundTripExactly([c], high);
  }

  /** The round trip fails on a removed line that is only a carriage return. */
  lemma CarriageReturnIsLost()
    ensures var c := Change("a/x b/x", [], Some("x"), Some("x"), [Hunk(1, ["\r"], false, 0, [], false, "")]);
            ValidChanges([c]) && Parsed(Printed([c], false)) != FilesOf([c])
  {
    var h := Hunk(1, ["\r"], false, 0, [], false, "");
    assert RemovedOf([h]) == ["\r"] by {
      assert [h][..0] == [];
    }
    assert EndsInCarriageReturn("\r") && "\r" in RemovedOf([h]);
    OneFileFails(Change("a/x b/x", [], Some("x"), Some("x"), [h]), false);
  }

  /** The round trip fails on a path that ends in a space. */
  lemma SpaceIsLost()
    ensures var c := Change("a/x  b/x ", [], Some("x "), Some("x "), [Hunk(1, ["y"], false, 0, [], false, "")]);
            ValidChanges([c]) && Parsed(Printed([c], false)) != FilesOf([c])
  {
    assert SpaceAtEnd("x ") == 1;
    OneFileFails(Change("a/x  b/x ", [], Some("x "), Some("x "), [Hunk(1, ["y"], false, 0, [], false, "")]), false);
  }

  /** The round trip fails on a path that is not UTF-8. */
  lemma BytesAreLost()
    ensures var path := [0xFF as char] + ".py";
            var c := Change("a b", [], Some(path), Some(path), [Hunk(1, ["y"], false, 0, [], false, "")]);
            ValidChanges([c]) && Parsed(Printed([c], true)) != FilesOf([c])
  {
    var path := [0xFF as char] + ".py";
    assert path[0] in path && NeedsEscape(path[0], true);
    assert FirstChunk(path) == Broken(1);
    OneFileFails(Change("a b", [], Some(path), Some(path), [Hunk(1, ["y"], false, 0, [], false, "")]), true);
  }
}
