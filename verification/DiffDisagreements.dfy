/** Inputs on which the scanner's parser and the action's reader disagree, inputs on which they agree although the
    reader credits lines to the wrong files, and why line boundaries inside lines are left out of the condition. */
module DiffDisagreements {
  import opened Options
  import opened Text
  import opened DiffParse
  import opened GitDiff
  import opened Utf8
  import opened DiffPy
  import opened DiffPyRows
  import opened DiffPyHunks
  import opened DiffPyExact
  import opened DiffReading
  import opened DiffAgreement
  import opened DiffParsersAgree
  import opened DiffCounting
  import opened DiffCredits
  import opened DiffQuoting

  predicate AllPrintable(lines: seq<string>) {
    forall l | l in lines :: Printable(l)
  }

  /** A file with one hunk, all printable. */
  predicate Small(c: Change, path: string, removed: seq<string>, added: seq<string>) {
    && c == Change(path, [], Some(path), Some(path),
                   [Hunk(if removed == [] then 0 else 1, removed, false, if added == [] then 0 else 1, added, false, "")])
    && path != "" && path != NO_FILE && Printable(path) && AllPrintable(removed) && AllPrintable(added) && |added| <= 1
  }

  lemma PrintableLine(s: string)
    requires Printable(s)
    ensures OneLine(s) && Bytes(s)
  {
    assert !PrintableChar('\n');
  }

  lemma SmallIsValid(c: Change, path: string, removed: seq<string>, added: seq<string>)
    requires Small(c, path, removed, added)
    ensures ValidChange(c) && Ordered(c.hunks) && (AddsLines(c) <==> added != [])
    ensures added == [] ==> NewLinesOf(c.hunks) == {}
    ensures added != [] ==> NewLinesOf(c.hunks) == {1}
  {
    PrintableLine(path);
    forall l | l in removed + added ensures OneLine(l) {
      PrintableLine(l);
    }
    assert c.hunks[0] in c.hunks && c.hunks[..0] == [];
    assert forall l | l in removed || l in added :: l in removed + added;
  }

  lemma {:induction false} QuotedPrintable(path: string, high: bool)
    requires Printable(path)
    ensures Printable(QuoteBody(path, high))
  {
    if path != "" {
      assert path[0] in path && forall c | c in path[1..] :: c in path;
      QuotedPrintable(path[1..], high);
    }
  }

  lemma NamedPrintable(side: string, path: string, high: bool)
    requires Printable(path) && side in {OLD_SIDE, NEW_SIDE}
    ensures Printable(Named(side, Some(path), high))
  {
    assert Printable(side + path);
    QuotedPrintable(side + path, high);
  }

  lemma MarkedPrintable(mark: char, lines: seq<string>)
    requires PrintableChar(mark) && AllPrintable(lines)
    ensures PlainLines(Marked(mark, lines))
  {
    forall i | 0 <= i < |lines| ensures PlainLine(Marked(mark, lines)[i]) {
      assert lines[i] in lines;
      PrintableIsPlain([mark] + lines[i]);
    }
  }

  lemma SmallHunkIsPlain(h: Hunk)
    requires h.heading == "" && !h.oldNoNewline && !h.newNoNewline && AllPrintable(h.removed) && AllPrintable(h.added)
    ensures PlainLines(HunkBlock(h))
  {
    SimpleHeader(h);
    OnePlain(HunkHeader(h));
    MarkedPrintable('-', h.removed);
    MarkedPrintable('+', h.added);
    PlainThree(HunkHeader(h), Marked('-', h.removed), Marked('+', h.added));
  }

  lemma PlainThree(header: string, removed: seq<string>, added: seq<string>)
    requires PlainLines([header]) && PlainLines(removed) && PlainLines(added)
    ensures PlainLines([header] + (removed + [] + added + []))
  {
    PlainConcat(removed, added);
    PlainConcat([header], removed + added);
    assert removed + [] + added + [] == removed + added;
  }

  lemma PlainConcat(a: seq<string>, b: seq<string>)
    requires PlainLines(a) && PlainLines(b)
    ensures PlainLines(a + b)
  {
  }

  lemma OnePlain(line: string)
    requires Printable(line)
    ensures PlainLines([line])
  {
    PrintableIsPlain(line);
  }

  lemma SmallIsPlain(c: Change, path: string, removed: seq<string>, added: seq<string>, high: bool)
    requires Small(c, path, removed, added)
    ensures PlainLines(FileBlock(c, high))
  {
    NamedPrintable(OLD_SIDE, path, high);
    NamedPrintable(NEW_SIDE, path, high);
    var oldRow, newRow := OLD_PATH + Named(OLD_SIDE, c.oldPath, high), NEW_PATH + Named(NEW_SIDE, c.newPath, high);
    OnePlain(SECTION + path);
    OnePlain(oldRow);
    OnePlain(newRow);
    SmallHunkIsPlain(c.hunks[0]);
    OneHunk(c.hunks);
    Grouped(SECTION + path, oldRow, newRow, HunkBlock(c.hunks[0]));
    PlainConcat([SECTION + path], [oldRow]);
    PlainConcat([SECTION + path] + [oldRow], [newRow]);
    PlainConcat([SECTION + path] + [oldRow] + [newRow], HunkBlock(c.hunks[0]));
  }

  lemma OneHunk(hunks: seq<Hunk>)
    requires |hunks| == 1
    ensures HunkLines(hunks) == HunkBlock(hunks[0])
  {
    assert hunks[..0] == [];
    assert [] + HunkBlock(hunks[0]) == HunkBlock(hunks[0]);
  }

  lemma Grouped(section: string, oldRow: string, newRow: string, rows: seq<string>)
    ensures [section] + ([] + [oldRow, newRow] + rows) == [section] + [oldRow] + [newRow] + rows
  {
  }

  lemma {:induction false} AllPlain(changes: seq<Change>, high: bool)
    requires forall c | c in changes :: PlainLines(FileBlock(c, high))
    ensures PlainDiff(changes, high)
  {
    if changes != [] {
      assert changes[|changes| - 1] in changes && forall c | c in changes[..|changes| - 1] :: c in changes;
      AllPlain(changes[..|changes| - 1], high);
      PlainConcat(DiffLines(changes[..|changes| - 1], high), FileBlock(changes[|changes| - 1], high));
    }
  }

  lemma SmallDisagrees(c: Change, path: string, line: string, high: bool)
    requires Small(c, path, [], [line]) && !NeedsQuote(path, high) && (' ' in path || "++" <= line)
    ensures ValidChanges([c]) && !AgreeEverywhere([c], high)
  {
    SmallIsValid(c, path, [], [line]);
    SmallIsPlain(c, path, [], [line], high);
    AllPlain([c], high);
    ParsersAgreeExactly([c], high);
    NotBoth(c, c.hunks[0], path, line, high);
  }

  lemma NotBoth(c: Change, h: Hunk, path: string, line: string, high: bool)
    requires c.newPath == Some(path) && h in c.hunks && line in h.added && (' ' in path || "++" <= line)
    ensures AddsLines(c) && !(EveryHunkReadsWell([c]) && ReadsPath(c.newPath, high))
  {
    if EveryHunkReadsWell([c]) {
      assert c in [c] && ReadsWell(h);
    }
  }

  /** They disagree on a path with a space: the reader keeps the tab git prints after it. */
  lemma SpacePathDisagrees()
    ensures var c := Change("x y", [], Some("x y"), Some("x y"), [Hunk(0, [], false, 1, ["z"], false, "")]);
            ValidChanges([c]) && !AgreeEverywhere([c], false)
  {
    var path := "x y";
    var c := Change(path, [], Some(path), Some(path), [Hunk(0, [], false, 1, ["z"], false, "")]);
    assert path[1] == ' ' && !NeedsQuote(path, false);
    SmallDisagrees(c, path, "z", false);
  }

  /** They disagree on an added line that starts with two plus signs. */
  lemma PlusPlusDisagrees()
    ensures var c := Change("x", [], Some("x"), Some("x"), [Hunk(0, [], false, 1, ["++z"], false, "")]);
            ValidChanges([c]) && !AgreeEverywhere([c], false)
  {
    var c := Change("x", [], Some("x"), Some("x"), [Hunk(0, [], false, 1, ["++z"], false, "")]);
    assert !NeedsQuote("x", false);
    SmallDisagrees(c, "x", "++z", false);
  }

  // ---------------------------------------------------------------- quoted paths

  /** The lines the reader counts in a file with a quoted path go to the file before it. */
  lemma QuotedGoesToFileBefore(r: Reading, c: Change, high: bool, path: string)
    requires Clean(r.patch) && Clean(Chomped(FileBlock(c, high))) && ValidChange(c) && NamesNoFiles(c.hunks)
    requires c.newPath.Some? && NeedsQuote(c.newPath.value, high) && Creditable(r.current)
    ensures ReadLines(ReadRows(r, Chomped(FileBlock(c, high))), path) ==
            ReadLines(r, path) + if path == r.current then CountedInAll(c.hunks) else {}
  {
    BlockReads(r, c, path, high);
  }

  // ---------------------------------------------------------------- credits that swap

  predicate IsName(path: string) {
    path != "" && path != NO_FILE
  }

  /** Printed without quotes, and no tab. */
  predicate Plain(path: string) {
    Printable(path) && !NeedsQuote(path, true)
  }

  lemma {:induction false} PrintableDecodes(s: string)
    requires Printable(s)
    ensures Lossy(s) == s
  {
    if s != "" {
      assert s[0] in s && forall c | c in s[1..] :: c in s;
      PrintableDecodes(s[1..]);
      LossyAscii(s[0], s[1..]);
      assert s == [s[0]] + s[1..];
    }
  }

  lemma TabbedPath(path: string, high: bool)
    requires Plain(path)
    ensures !NeedsQuote(path, high) && NeedsQuote(path + "\t", high) && Lossy(path + "\t") == path + "\t"
  {
    assert (path + "\t")[|path|] == '\t' && NeedsEscape('\t', high);
    PrintableDecodes(path + "\t");
  }

  ghost predicate Good(c: Change, high: bool) {
    ValidChange(c) && PlainLines(FileBlock(c, high)) && Ordered(c.hunks) && forall h | h in c.hunks :: ReadsWell(h)
  }

  ghost predicate AllGood(changes: seq<Change>) {
    forall c, high: bool | c in changes :: Good(c, high)
  }

  /** A file with one new line or none. */
  ghost predicate Gains(c: Change, path: string, gains: bool) {
    (AddsLines(c) <==> gains) && NewLinesOf(c.hunks) == (if gains then {1} else {}) && c.hunks != [] && c.newPath == Some(path)
  }

  lemma LosingFile(before: seq<Change>, path: string) returns (c: Change)
    requires AllGood(before) && Printable(path) && IsName(path)
    ensures AllGood(before + [c]) && Gains(c, path, false)
  {
    c := Change(path, [], Some(path), Some(path), [Hunk(1, ["x"], false, 0, [], false, "")]);
    SmallIsValid(c, path, ["x"], []);
    forall high: bool ensures Good(c, high) {
      SmallIsPlain(c, path, ["x"], [], high);
    }
  }

  lemma GainingFile(before: seq<Change>, path: string) returns (c: Change)
    requires AllGood(before) && Printable(path) && IsName(path)
    ensures AllGood(before + [c]) && Gains(c, path, true)
  {
    c := Change(path, [], Some(path), Some(path), [Hunk(0, [], false, 1, ["y"], false, "")]);
    SmallIsValid(c, path, [], ["y"]);
    forall high: bool ensures Good(c, high) {
      SmallIsPlain(c, path, [], ["y"], high);
    }
  }

  /** Two files that lose a line, and after each one that gains a line. */
  ghost predicate Four(changes: seq<Change>, p: string, q': string, q: string, p': string) {
    && |changes| == 4 && (forall i | 0 <= i < 4 :: changes[i].hunks != [])
    && changes[0].newPath == Some(p) && changes[1].newPath == Some(q')
    && changes[2].newPath == Some(q) && changes[3].newPath == Some(p')
  }

  ghost predicate EverySecondGains(changes: seq<Change>) {
    forall i | 0 <= i < |changes| ::
      (AddsLines(changes[i]) <==> i in {1, 3}) && NewLinesOf(changes[i].hunks) == if i in {1, 3} then {1} else {}
  }

  lemma GoodIsValid(changes: seq<Change>, high: bool)
    requires AllGood(changes)
    ensures ValidChanges(changes) && PlainDiff(changes, high) && EveryHunkReadsWell(changes)
    ensures forall c | c in changes :: Ordered(c.hunks)
  {
    forall c | c in changes
      ensures ValidChange(c) && PlainLines(FileBlock(c, high)) && Ordered(c.hunks) && forall h | h in c.hunks :: ReadsWell(h)
    {
      assert Good(c, high);
    }
    AllPlain(changes, high);
  }

  /** The files that gain lines have quoted paths, so they are credited to the files before them. */
  ghost predicate Swapped(changes: seq<Change>, high: bool, p: string, q: string) {
    && |changes| == 4 && Creditable(p) && Creditable(q) && p != q
    && CreditedAt(changes, high, 1) == p && CreditedAt(changes, high, 3) == q
    && SeenPath(changes[1].newPath, high) == Some(q) && SeenPath(changes[3].newPath, high) == Some(p)
  }

  lemma TabsDiffer(p: string, q: string)
    requires p != q
    ensures p + "\t" != q + "\t"
  {
    assert (p + "\t")[..|p + "\t"| - 1] == p && (q + "\t")[..|q + "\t"| - 1] == q;
  }

  lemma Tabbed(path: string)
    ensures IsName(path + "\t")
  {
    assert (path + "\t")[|path|] == '\t' && NO_FILE[|NO_FILE| - 1] == 'l';
  }

  lemma CreditsAlong(changes: seq<Change>, high: bool)
    requires |changes| == 4 && forall c | c in changes :: c.hunks != []
    requires ReaderPath(changes[0].newPath, high).Some? && ReaderPath(changes[1].newPath, high).None?
    requires ReaderPath(changes[2].newPath, high).Some? && ReaderPath(changes[3].newPath, high).None?
    ensures CreditedAt(changes, high, 1) == ReaderPath(changes[0].newPath, high).value
    ensures CreditedAt(changes, high, 3) == ReaderPath(changes[2].newPath, high).value
  {
    assert CreditedAt(changes, high, 0) == ReaderPath(changes[0].newPath, high).value;
    assert CreditedAt(changes, high, 2) == ReaderPath(changes[2].newPath, high).value;
  }

  lemma FourSwapped(changes: seq<Change>, high: bool, p: string, q: string)
    requires Four(changes, p, q + "\t", q, p + "\t") && p != q && ' ' in p && ' ' in q && Plain(p) && Plain(q)
    ensures Swapped(changes, high, p + "\t", q + "\t")
  {
    TabsDiffer(p, q);
    Tabbed(p);
    Tabbed(q);
    TabbedPath(p, high);
    TabbedPath(q, high);
    CreditsAlong(changes, high);
  }

  /** All four paths can be printed. */
  ghost predicate AllNamed(changes: seq<Change>) {
    forall c | c in changes :: c.newPath.Some? && IsName(c.newPath.value)
  }

  lemma FourNamed(changes: seq<Change>, p: string, q': string, q: string, p': string)
    requires Four(changes, p, q', q, p') && IsName(p) && IsName(q') && IsName(q) && IsName(p')
    ensures AllNamed(changes)
  {
  }

  lemma SwappedConventional(changes: seq<Change>, high: bool, p: string, q: string)
    requires EverySecondGains(changes) && Swapped(changes, high, p, q) && forall c | c in changes :: Ordered(c.hunks)
    requires AllNamed(changes)
    ensures Conventional(changes, high)
  {
  }

  lemma SwappedCredits(changes: seq<Change>, high: bool, p: string, q: string, path: string, k: nat)
    requires EverySecondGains(changes) && Swapped(changes, high, p, q)
    ensures CreditHas(changes, high, path, k) <==> k == 1 && path in {p, q}
  {
    assert CreditGets(changes, high, p, 1, 1) && CreditGets(changes, high, q, 1, 3);
  }

  lemma SwappedParsed(changes: seq<Change>, high: bool, p: string, q: string, path: string, k: nat)
    requires EverySecondGains(changes) && Swapped(changes, high, p, q)
    ensures ParserHas(changes, high, path, k) <==> k == 1 && path in {p, q}
  {
    assert ParserGets(changes, high, q, 1, 1) && ParserGets(changes, high, p, 1, 3);
  }

  lemma SwappedMatch(changes: seq<Change>, high: bool, p: string, q: string)
    requires EverySecondGains(changes) && Swapped(changes, high, p, q)
    ensures CreditsMatch(changes, high)
  {
    forall path, k: nat ensures CreditHas(changes, high, path, k) <==> ParserHas(changes, high, path, k) {
      SwappedCredits(changes, high, p, q, path, k);
      SwappedParsed(changes, high, p, q, path, k);
    }
  }

  lemma SwappingFiles(p: string, q: string) returns (changes: seq<Change>)
    requires p != q && ' ' in p && ' ' in q && Plain(p) && Plain(q) && NO_FILE !in {p, q}
    ensures AllGood(changes) && EverySecondGains(changes) && Four(changes, p, q + "\t", q, p + "\t")
  {
    Tabbed(p);
    Tabbed(q);
    var c0 := LosingFile([], p);
    var c1 := GainingFile([] + [c0], q + "\t");
    var c2 := LosingFile([] + [c0] + [c1], q);
    var c3 := GainingFile([] + [c0] + [c1] + [c2], p + "\t");
    changes := [] + [c0] + [c1] + [c2] + [c3];
  }

  /** Some file's lines go to another path than its own. */
  ghost predicate Misattributed(changes: seq<Change>, high: bool) {
    exists i :: 0 <= i < |changes| && AddsLines(changes[i]) && SeenPath(changes[i].newPath, high) != Some(CreditedAt(changes, high, i))
  }

  /** A diff on which the programs agree although the reader credits the lines of each file that gains some to the
      other one's path: with such tabs the condition is not file by file. */
  lemma CreditsCanSwap(p: string, q: string, high: bool) returns (changes: seq<Change>)
    requires p != q && ' ' in p && ' ' in q && Plain(p) && Plain(q) && NO_FILE !in {p, q}
    ensures ValidChanges(changes) && AgreeEverywhere(changes, high)
    ensures Misattributed(changes, high)
  {
    changes := SwappingFiles(p, q);
    FourSwapped(changes, high, p, q);
    Tabbed(p);
    Tabbed(q);
    FourNamed(changes, p, q + "\t", q, p + "\t");
    SwappedAgree(changes, high, p + "\t", q + "\t");
  }

  lemma SwappedAgree(changes: seq<Change>, high: bool, p: string, q: string)
    requires AllGood(changes) && EverySecondGains(changes) && Swapped(changes, high, p, q)
    requires AllNamed(changes)
    ensures ValidChanges(changes) && AgreeEverywhere(changes, high) && Misattributed(changes, high)
  {
    assert AddsLines(changes[1]);
    GoodIsValid(changes, high);
    SwappedConventional(changes, high, p, q);
    SwappedMatch(changes, high, p, q);
    ProgramsAgreeExactly(changes, high);
  }

  // ---------------------------------------------------------------- line boundaries inside lines

  lemma LastRows(c: string, d: string, e: string, f: string)
    requires Printable(c) && Printable(d) && Printable(e) && Printable(f)
    ensures SplitLines(c + ([FORM_FEED] + (d + "\n" + (e + "\n" + (f + "\n"))))) == [c, d, e, f]
  {
    TwoLines(e, f);
    LineThen(d, e + "\n" + (f + "\n"), [e, f]);
    BrokenRow(c, d + "\n" + (e + "\n" + (f + "\n")), [d, e, f]);
  }

  lemma LineThen(line: string, next: string, rows: seq<string>)
    requires Printable(line) && SplitLines(next) == rows
    ensures SplitLines(line + "\n" + next) == [line] + rows
  {
    PrintableIsPlain(line);
    SplitLine(line, next);
  }

  lemma FirstRows(a: string, b: string, next: string, rows: seq<string>)
    requires Printable(a) && Printable(b) && SplitLines(next) == rows
    ensures SplitLines(a + "\n" + (b + ([FORM_FEED] + next))) == [a, b] + rows
  {
    BrokenRow(b, next, rows);
    LineThen(a, b + ([FORM_FEED] + next), [b] + rows);
  }

  predicate AreSix(rows: seq<string>, a: string, b: string, c: string, d: string, e: string, f: string) {
    |rows| == 6 && rows[0] == a && rows[1] == b && rows[2] == c && rows[3] == d && rows[4] == e && rows[5] == f
  }

  lemma SixAre(rows: seq<string>, a: string, b: string, c: string, d: string, e: string, f: string)
    requires rows == [a, b, c, d, e, f]
    ensures AreSix(rows, a, b, c, d, e, f)
  {
  }

  lemma SixRows(a: string, b: string, c: string, d: string, e: string, f: string)
    requires Printable(a) && Printable(b) && Printable(c) && Printable(d) && Printable(e) && Printable(f)
    ensures SplitLines(a + "\n" + (b + ([FORM_FEED] + (c + ([FORM_FEED] + (d + "\n" + (e + "\n" + (f + "\n")))))))) == [a, b, c, d, e, f]
  {
    LastRows(c, d, e, f);
    FirstRows(a, b, c + ([FORM_FEED] + (d + "\n" + (e + "\n" + (f + "\n")))), [c, d, e, f]);
  }

  lemma SixText(a: string, x: string, y: string, z: string, e: string, w: string)
    ensures Unlines([a, ['+'] + (x + [FORM_FEED] + y + [FORM_FEED] + z), e, w]) ==
            a + "\n" + ((['+'] + x) + ([FORM_FEED] + (y + ([FORM_FEED] + (z + "\n" + (e + "\n" + (w + "\n")))))))
  {
    var broken := ['+'] + (x + [FORM_FEED] + y + [FORM_FEED] + z);
    var rest := e + "\n" + (w + "\n");
    assert [a, broken, e, w][1..] == [broken, e, w] && [broken, e, w][1..] == [e, w] && [e, w][1..] == [w] && [w][1..] == [];
    assert Unlines([w]) == w + "\n" && Unlines([e, w]) == rest;
    assert broken + "\n" + rest == (['+'] + x) + ([FORM_FEED] + (y + ([FORM_FEED] + (z + "\n" + rest))));
  }

  lemma SixCount(rows: seq<Row>)
    requires |rows| == 6 && rows[0] == HunkRow(1) && rows[1] == PlusRow && rows[2] == OtherRow && rows[3] == PlusRow
    requires rows[4] == HunkRow(3) && rows[5] == OtherRow
    ensures CountRows(Count({}, 0), rows).added == {1, 3} && CountRows(Count({}, 0), rows[..4]).added == {1, 3}
  {
    CountedStep(Count({}, 0), rows, 0);
    CountedStep(Count({}, 0), rows, 1);
    CountedStep(Count({}, 0), rows, 2);
    CountedStep(Count({}, 0), rows, 3);
    CountedStep(Count({}, 0), rows, 4);
    CountedStep(Count({}, 0), rows, 5);
    assert rows[..0] == [] && rows[..6] == rows;
  }

  lemma PlusKind(row: string, x: string)
    requires row == ['+'] + x && x != "" && x[0] != '+'
    ensures RowOf(row) == PlusRow
  {
    MarkedRow(x);
    NotPlusPlus(x);
  }

  lemma PlusPlusKind(row: string, x: string)
    requires row == ['+'] + x && "++" <= x
    ensures RowOf(row) == OtherRow
  {
    MarkedRow(x);
  }

  lemma OtherKind(row: string)
    requires row != "" && row[0] !in {'+', '-', '@'}
    ensures RowOf(row) == OtherRow
  {
    NotAHunk(row);
  }

  lemma SixKinds(rows: seq<string>, x: string, z: string, w: string)
    requires |rows| == 6 && RowOf(rows[0]) == HunkRow(1) && RowOf(rows[4]) == HunkRow(3)
    requires rows[1] == ['+'] + x && rows[3] == ['+'] + z && rows[5] == ['+'] + w
    requires x != "" && x[0] != '+' && z != "" && z[0] != '+' && "++" <= w
    requires rows[2] != "" && rows[2][0] !in {'+', '-', '@'}
    ensures Added(rows) == {1, 3}
  {
    PlusKind(rows[1], x);
    OtherKind(rows[2]);
    PlusKind(rows[3], z);
    PlusPlusKind(rows[5], w);
    SixAdded(rows);
  }

  lemma SixAdded(rows: seq<string>)
    requires |rows| == 6 && RowOf(rows[0]) == HunkRow(1) && RowOf(rows[1]) == PlusRow && RowOf(rows[2]) == OtherRow
    requires RowOf(rows[3]) == PlusRow && RowOf(rows[4]) == HunkRow(3) && RowOf(rows[5]) == OtherRow
    ensures Added(rows) == {1, 3}
  {
    SixCount(RowsOf(rows));
  }

  /** Two hunks in order, the first with form feeds in its only line, the second with a line that is not counted. */
  predicate Cancelling(h: Hunk, g: Hunk, x: string, y: string, z: string, w: string) {
    && h == Hunk(0, [], false, 1, [x + [FORM_FEED] + y + [FORM_FEED] + (['+'] + z)], false, "")
    && g == Hunk(1, [], false, 3, [w], false, "")
    && Printable(x) && Printable(y) && Printable(z) && Printable(w)
    && x != "" && x[0] != '+' && y != "" && y[0] !in {'+', '-', '@'} && z != "" && z[0] != '+' && "++" <= w
  }

  /** Errors of two hunks of one file can cancel out when a line holds line boundaries: the first counts a line
      too many, the second one too few, and together they are right. */
  lemma ErrorsCancel(h: Hunk, g: Hunk, x: string, y: string, z: string, w: string)
    requires Cancelling(h, g, x, y, z, w)
    ensures Ordered([h, g]) && Added(SplitLines(Unlines(HunkBlock(h) + HunkBlock(g)))) == NewLines(h) + NewLines(g)
    ensures Added(SplitLines(Unlines(HunkBlock(g)))) != NewLines(g)
  {
    CancellingCounts(h, g, x, y, z, w);
    CancellingNumbers(h, g, x, y, z, w);
    SecondMisses(g, w);
  }

  lemma CancellingCounts(h: Hunk, g: Hunk, x: string, y: string, z: string, w: string)
    requires Cancelling(h, g, x, y, z, w)
    ensures Added(SplitLines(Unlines(HunkBlock(h) + HunkBlock(g)))) == {1, 3}
  {
    CancellingRows(h, g, x, y, z, w);
    HeaderKind(HunkHeader(h), h);
    HeaderKind(HunkHeader(g), g);
    CancellingAdds(SplitLines(Unlines(HunkBlock(h) + HunkBlock(g))), HunkHeader(h), x, y, z, HunkHeader(g), w);
  }

  lemma SecondMisses(g: Hunk, w: string)
    requires ValidHunk(g) && g == Hunk(1, [], false, 3, [w], false, "") && Printable(w) && "++" <= w
    ensures Added(SplitLines(Unlines(HunkBlock(g)))) != NewLines(g)
  {
    PlusPlusIsLost(g, w);
    assert 3 in NewLines(g);
  }

  lemma HeaderKind(row: string, h: Hunk)
    requires row == HunkHeader(h) && h.heading == ""
    ensures RowOf(row) == HunkRow(h.newStart)
  {
    SimpleHeader(h);
  }

  lemma CancellingAdds(rows: seq<string>, first: string, x: string, y: string, z: string, second: string, w: string)
    requires RowOf(first) == HunkRow(1) && RowOf(second) == HunkRow(3)
    requires AreSix(rows, first, ['+'] + x, y, ['+'] + z, second, ['+'] + w)
    requires x != "" && x[0] != '+' && y != "" && y[0] !in {'+', '-', '@'} && z != "" && z[0] != '+' && "++" <= w
    ensures Added(rows) == {1, 3}
  {
    SixKinds(rows, x, z, w);
  }

  lemma CancellingRows(h: Hunk, g: Hunk, x: string, y: string, z: string, w: string)
    requires Cancelling(h, g, x, y, z, w)
    ensures AreSix(SplitLines(Unlines(HunkBlock(h) + HunkBlock(g))), HunkHeader(h), ['+'] + x, y, ['+'] + z, HunkHeader(g), ['+'] + w)
  {
    SimpleHeader(h);
    SimpleHeader(g);
    OnlyAdded(h);
    OnlyAdded(g);
    CancellingText(HunkHeader(h), x, y, z, HunkHeader(g), w, h.added, g.added);
  }

  lemma CancellingNumbers(h: Hunk, g: Hunk, x: string, y: string, z: string, w: string)
    requires Cancelling(h, g, x, y, z, w)
    ensures Ordered([h, g]) && NewLines(h) + NewLines(g) == {1, 3} && NewLines(g) != {} && ValidHunk(g)
  {
    assert 3 in NewLines(g);
    forall l | l in g.added ensures OneLine(l) {
      assert l == w && !PrintableChar('\n');
    }
  }

  lemma CancellingText(first: string, x: string, y: string, z: string, second: string, w: string, a: seq<string>, b: seq<string>)
    requires Printable(first) && Printable(second) && Printable(x) && Printable(y) && Printable(z) && Printable(w)
    requires a == [x + [FORM_FEED] + y + [FORM_FEED] + (['+'] + z)] && b == [w]
    ensures AreSix(SplitLines(Unlines(([first] + Marked('+', a)) + ([second] + Marked('+', b)))),
                   first, ['+'] + x, y, ['+'] + z, second, ['+'] + w)
  {
    var lines := [first, ['+'] + (x + [FORM_FEED] + y + [FORM_FEED] + (['+'] + z)), second, ['+'] + w];
    assert ([first] + Marked('+', a)) + ([second] + Marked('+', b)) == lines;
    SixText(first, x, y, ['+'] + z, second, ['+'] + w);
    SixRows(first, ['+'] + x, y, ['+'] + z, second, ['+'] + w);
    SixAre(SplitLines(Unlines(([first] + Marked('+', a)) + ([second] + Marked('+', b)))),
           first, ['+'] + x, y, ['+'] + z, second, ['+'] + w);
  }

  /** There are such hunks. */
  lemma CancellingHunks()
    ensures Cancelling(Hunk(0, [], false, 1, ["a" + [FORM_FEED] + "x" + [FORM_FEED] + (['+'] + "b")], false, ""),
                       Hunk(1, [], false, 3, ["++c"], false, ""), "a", "x", "b", "++c")
  {
  }
}
