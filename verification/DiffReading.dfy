/** What the action's reader credits to each file of a printed diff. */
module DiffReading {
  import opened Options
  import opened Text
  import opened DiffParse
  import opened GitDiff
  import opened DiffQuoting
  import opened DiffPy
  import opened DiffPyRows
  import opened DiffPyHunks
  import Trip = DiffRoundTrip

  /** The lines a reader has for a path, or would have if the diff ended here. */
  function ReadLines(r: Reading, path: string): set<nat> {
    LinesOf(Finished(r), path)
  }

  predicate Creditable(path: string) {
    path != "" && path != NO_FILE
  }

  // ---------------------------------------------------------------- rows

  predicate NoFile(rows: seq<string>) {
    forall r | r in rows :: FileMatch(r) == None
  }

  predicate NoPlus(rows: seq<Row>) {
    forall r | r in rows :: !r.PlusRow?
  }

  /** Wherever the reader stands, these rows add exactly these lines. */
  ghost predicate Adds(rows: seq<string>, added: set<nat>) {
    forall c: Count :: CountRows(c, RowsOf(rows)).added == c.added + added
  }

  lemma AddsConcat(a: seq<string>, b: seq<string>, x: set<nat>, y: set<nat>)
    requires Adds(a, x) && Adds(b, y)
    ensures Adds(a + b, x + y)
  {
    RowsConcat(a, b);
    forall c: Count ensures CountRows(c, RowsOf(a + b)).added == c.added + (x + y) {
      CountConcat(c, RowsOf(a), RowsOf(b));
      assert CountRows(CountRows(c, RowsOf(a)), RowsOf(b)).added == CountRows(c, RowsOf(a)).added + y;
    }
  }

  lemma {:induction false} NothingCounted(c: Count, rows: seq<Row>)
    requires NoPlus(rows)
    ensures CountRows(c, rows).added == c.added
  {
    if rows != [] {
      NothingCounted(c, rows[..|rows| - 1]);
    }
  }

  lemma QuietAdds(rows: seq<string>)
    requires NoPlus(RowsOf(rows))
    ensures Adds(rows, {})
  {
    forall c: Count ensures CountRows(c, RowsOf(rows)).added == c.added + {} {
      NothingCounted(c, RowsOf(rows));
    }
  }

  lemma AddedAfter(patch: seq<string>, rows: seq<string>, added: set<nat>)
    requires Adds(rows, added)
    ensures Added(patch + rows) == Added(patch) + added
  {
    RowsConcat(patch, rows);
    CountConcat(Count({}, 0), RowsOf(patch), RowsOf(rows));
  }

  lemma {:induction false} ReadConcat(r: Reading, a: seq<string>, b: seq<string>)
    ensures ReadRows(r, a + b) == ReadRows(ReadRows(r, a), b)
  {
    if b == [] {
      assert a + b == a;
    } else {
      assert (a + b)[..|a + b| - 1] == a + b[..|b| - 1];
      ReadConcat(r, a, b[..|b| - 1]);
    }
  }

  lemma {:induction false} ReadPatch(r: Reading, rows: seq<string>)
    requires NoFile(rows)
    ensures ReadRows(r, rows) == if r.current == "" then r else r.(patch := r.patch + rows)
  {
    if rows == [] {
      assert r.patch + rows == r.patch;
    } else {
      var most, last := rows[..|rows| - 1], rows[|rows| - 1];
      assert last in rows && forall x | x in most :: x in rows;
      ReadPatch(r, most);
      assert r.patch + rows == r.patch + most + [last];
    }
  }

  lemma ReadLinesAre(r: Reading, path: string)
    requires Clean(r.patch)
    ensures ReadLines(r, path) == LinesOf(r.files, path) + if path == r.current && Creditable(path) then Added(r.patch) else {}
  {
    SplitJoin(r.patch);
  }

  lemma CleanConcat(a: seq<string>, b: seq<string>)
    requires Clean(a) && Clean(b)
    ensures Clean(a + b)
  {
  }

  /** Rows that name no file are credited to the file before them. */
  lemma PatchRows(r: Reading, rows: seq<string>, added: set<nat>, path: string)
    requires Clean(r.patch) && Clean(rows) && NoFile(rows) && Adds(rows, added)
    ensures Clean(ReadRows(r, rows).patch) && ReadRows(r, rows).current == r.current
    ensures ReadLines(ReadRows(r, rows), path) ==
            ReadLines(r, path) + if path == r.current && Creditable(path) then added else {}
  {
    ReadPatch(r, rows);
    if r.current != "" {
      CleanConcat(r.patch, rows);
      AddedAfter(r.patch, rows, added);
      ReadLinesAre(r, path);
      ReadLinesAre(r.(patch := r.patch + rows), path);
    }
  }

  /** A file row and the rows after it are credited to the file it names. */
  lemma FileRows(r: Reading, row: string, file: string, rows: seq<string>, path: string)
    requires FileMatch(row) == Some(file) && Creditable(file)
    requires Clean(rows) && NoFile(rows)
    ensures Clean(ReadRows(r, [row] + rows).patch)
    ensures ReadLines(ReadRows(r, [row] + rows), path) == ReadLines(r, path) + if path == file then Added(rows) else {}
  {
    ReadConcat(r, [row], rows);
    var begun := Reading(Finished(r), file, []);
    assert ReadRows(r, [row]) == begun by {
      assert [row][..0] == [];
    }
    ReadPatch(begun, rows);
    assert [] + rows == rows;
    ReadLinesAre(Reading(Finished(r), file, rows), path);
  }

  // ---------------------------------------------------------------- printed hunks

  /** No added line is read as the path line of a file. */
  predicate NamesNoFile(h: Hunk) {
    forall l | l in h.added :: !("++ b/" <= l)
  }

  function CountedInAll(hunks: seq<Hunk>): set<nat> {
    if hunks == [] then {} else CountedInAll(hunks[..|hunks| - 1]) + CountedIn(hunks[|hunks| - 1])
  }

  lemma HunkAdds(h: Hunk)
    requires ValidHunk(h)
    ensures Adds(Chomped(HunkBlock(h)), CountedIn(h))
  {
    forall c: Count ensures CountRows(c, RowsOf(Chomped(HunkBlock(h)))).added == c.added + CountedIn(h) {
      HunkCounts(c, h);
    }
  }

  lemma {:induction false} HunksAdd(hunks: seq<Hunk>)
    requires ValidHunks(hunks)
    ensures Adds(Chomped(HunkLines(hunks)), CountedInAll(hunks))
  {
    if hunks == [] {
      QuietAdds([]);
    } else {
      var before, h := hunks[..|hunks| - 1], hunks[|hunks| - 1];
      HunksAdd(before);
      HunkAdds(h);
      ChompedConcat(HunkLines(before), HunkBlock(h));
      AddsConcat(Chomped(HunkLines(before)), Chomped(HunkBlock(h)), CountedInAll(before), CountedIn(h));
    }
  }

  lemma NotPlus(row: string)
    requires row == "" || row[0] != '+'
    ensures FileMatch(row) == None && !RowOf(row).PlusRow?
  {
    assert NEW_FILE[0] == '+';
  }

  lemma PrefixTail(a: string, b: string)
    requires a <= b && a != ""
    ensures a[1..] <= b[1..]
  {
  }

  lemma FileRowTail(line: string)
    ensures NEW_FILE <= ['+'] + line ==> "++ b/" <= line
  {
    assert NEW_FILE[1..] == "++ b/" && (['+'] + line)[1..] == line;
    if NEW_FILE <= ['+'] + line {
      PrefixTail(NEW_FILE, ['+'] + line);
    }
  }

  lemma AddedNoFile(line: string)
    requires !("++ b/" <= line)
    ensures FileMatch(['+'] + line) == None
  {
    FileRowTail(line);
  }

  lemma PlusNoFile(lines: seq<string>)
    requires forall l | l in lines :: !("++ b/" <= l)
    ensures NoFile(Chomped(Marked('+', lines)))
  {
    forall i | 0 <= i < |lines| ensures FileMatch(Chomp(Marked('+', lines)[i])) == None {
      assert lines[i] in lines;
      Trip.ChompMarked('+', lines[i]);
      AddedNoFile(Chomp(lines[i]));
    }
  }

  lemma MinusNoFile(lines: seq<string>)
    ensures NoFile(Chomped(Marked('-', lines)))
  {
    forall i | 0 <= i < |lines| ensures FileMatch(Chomp(Marked('-', lines)[i])) == None {
      NotPlus(Chomp(Marked('-', lines)[i]));
    }
  }

  lemma OneNoFile(line: string)
    requires line != "" && line[0] != '+'
    ensures NoFile(Chomped([line]))
  {
    ChompedOne(line);
    NotPlus(Chomp(line));
  }

  lemma NoFileConcat(a: seq<string>, b: seq<string>)
    requires NoFile(Chomped(a)) && NoFile(Chomped(b))
    ensures NoFile(Chomped(a + b))
  {
    ChompedConcat(a, b);
  }

  lemma NotedNoFile(noNewline: bool)
    ensures NoFile(Chomped(Noted(noNewline)))
  {
    assert NO_NEWLINE[0] == BACKSLASH;
    OneNoFile(NO_NEWLINE);
  }

  lemma BlockNoFile(h: Hunk)
    requires NamesNoFile(h)
    ensures NoFile(Chomped(HunkBlock(h)))
  {
    assert HunkHeader(h)[0] == '@';
    OneNoFile(HunkHeader(h));
    MinusNoFile(h.removed);
    PlusNoFile(h.added);
    NotedNoFile(h.oldNoNewline);
    NotedNoFile(h.newNoNewline);
    NoFileConcat(Marked('-', h.removed), Noted(h.oldNoNewline));
    NoFileConcat(Marked('-', h.removed) + Noted(h.oldNoNewline), Marked('+', h.added));
    NoFileConcat(Marked('-', h.removed) + Noted(h.oldNoNewline) + Marked('+', h.added), Noted(h.newNoNewline));
    NoFileConcat([HunkHeader(h)], HunkBody(h));
  }

  predicate NamesNoFiles(hunks: seq<Hunk>) {
    forall h | h in hunks :: NamesNoFile(h)
  }

  lemma {:induction false} HunksNoFile(hunks: seq<Hunk>)
    requires NamesNoFiles(hunks)
    ensures NoFile(Chomped(HunkLines(hunks)))
  {
    if hunks != [] {
      var before, h := hunks[..|hunks| - 1], hunks[|hunks| - 1];
      HunksNoFile(before);
      BlockNoFile(h);
      NoFileConcat(HunkLines(before), HunkBlock(h));
    }
  }

  // ---------------------------------------------------------------- printed files

  /** What a file block starts with: everything before its new-path row. */
  function Head(c: Change, high: bool): seq<string> {
    [SECTION + c.names] + c.headers + if c.hunks == [] then [] else [OLD_PATH + Named(OLD_SIDE, c.oldPath, high)]
  }

  lemma HeadQuiet(c: Change, high: bool)
    requires ValidChange(c)
    ensures NoFile(Chomped(Head(c, high))) && NoPlus(RowsOf(Chomped(Head(c, high))))
  {
    var rows := Head(c, high);
    assert SECTION[0] == 'd' && OLD_PATH[0] == '-';
    forall i | 0 <= i < |rows| ensures FileMatch(Chomp(rows[i])) == None && !RowOf(Chomp(rows[i])).PlusRow? {
      if 1 <= i <= |c.headers| {
        assert rows[i] == c.headers[i - 1] && ValidHeader(rows[i]);
      }
      NotPlus(Chomp(rows[i]));
    }
  }

  function NewRow(c: Change, high: bool): string {
    NEW_PATH + Named(NEW_SIDE, c.newPath, high)
  }

  lemma BlockShape(c: Change, high: bool)
    ensures FileBlock(c, high) == Head(c, high) + if c.hunks == [] then [] else [NewRow(c, high)] + HunkLines(c.hunks)
  {
    Regroup(SECTION + c.names, c.headers, OLD_PATH + Named(OLD_SIDE, c.oldPath, high), NewRow(c, high), HunkLines(c.hunks));
  }

  lemma Regroup(section: string, headers: seq<string>, oldRow: string, newRow: string, rows: seq<string>)
    ensures [section] + (headers + [oldRow, newRow] + rows) == ([section] + headers + [oldRow]) + ([newRow] + rows)
    ensures [section] + headers == ([section] + headers + []) + []
  {
  }

  /** The path the reader takes from a file's new-path row: git's quotes hide it, and its tab becomes part of it. */
  function ReaderPath(path: Option<string>, high: bool): Option<string> {
    match path
    case None => None
    case Some(p) =>
      if NeedsQuote(p, high) || p == "" then None
      else if ' ' in p then Some(p + "\t")
      else Some(p)
  }

  lemma ReaderPathNotEmpty(path: Option<string>, high: bool)
    ensures ReaderPath(path, high).Some? ==> ReaderPath(path, high).value != ""
  {
  }

  lemma NewRowReads(c: Change, high: bool)
    requires ValidPath(c.newPath)
    ensures FileMatch(NewRow(c, high)) == ReaderPath(c.newPath, high)
    ensures !RowOf(NewRow(c, high)).PlusRow? && Chomp(NewRow(c, high)) == NewRow(c, high)
  {
    assert "+++" <= NewRow(c, high);
    Trip.NamedUnbroken(NEW_SIDE, c.newPath, high);
    var row := NewRow(c, high);
    assert row[|row| - 1] in row;
    match c.newPath
    case None => assert row[4] == '/' && NEW_FILE[4] == 'b';
    case Some(path) =>
      SideNeedsNoQuote(path, high);
      if NeedsQuote(path, high) {
        assert row[4] == QUOTE && NEW_FILE[4] == 'b';
      } else {
        PlainRowReads(path, high);
      }
  }

  lemma PlainRowReads(path: string, high: bool)
    requires !NeedsQuote(path, high) && !NeedsQuote(NEW_SIDE + path, high)
    ensures FileMatch(NEW_PATH + Named(NEW_SIDE, Some(path), high)) == ReaderPath(Some(path), high)
  {
    var tab := if ' ' in NEW_SIDE + path then "\t" else "";
    var row := NEW_PATH + Named(NEW_SIDE, Some(path), high);
    assert Named(NEW_SIDE, Some(path), high) == NEW_SIDE + path + tab;
    assert NEW_PATH + NEW_SIDE == NEW_FILE;
    assert row == NEW_FILE + (path + tab);
    assert row[|NEW_FILE|..] == path + tab;
    assert '\n' !in path + tab by {
      assert NeedsEscape('\n', high);
    }
    if ' ' in path {
      assert ' ' in NEW_SIDE + path;
    } else {
      assert ' ' !in NEW_SIDE + path && path + tab == path;
    }
  }

  /** The reader takes a path as it is exactly when git prints it without quotes and it has no space; it finds
      no path at all in a quoted one. */
  lemma ReaderPathExactly(path: string, high: bool)
    requires path != "" && Bytes(path)
    ensures var row := NEW_PATH + Named(NEW_SIDE, Some(path), high);
            && (FileMatch(row) == Some(path) <==> !NeedsQuote(path, high) && ' ' !in path)
            && (FileMatch(row) == None <==> NeedsQuote(path, high))
  {
    NewRowReads(Change("", [], None, Some(path), []), high);
    assert |path + "\t"| == |path| + 1;
  }

  lemma BlockAdds(c: Change, high: bool)
    requires ValidChange(c)
    ensures Adds(Chomped(FileBlock(c, high)), CountedInAll(c.hunks))
  {
    var head, tail := Head(c, high), [NewRow(c, high)] + HunkLines(c.hunks);
    BlockShape(c, high);
    HeadAdds(c, high);
    if c.hunks == [] {
      assert head + [] == head;
    } else {
      TailAdds(c, high);
      AddsJoin(FileBlock(c, high), head, tail, CountedInAll(c.hunks));
    }
  }

  lemma AddsJoin(lines: seq<string>, a: seq<string>, b: seq<string>, added: set<nat>)
    requires lines == a + b && Adds(Chomped(a), {}) && Adds(Chomped(b), added)
    ensures Adds(Chomped(lines), added)
  {
    ChompedConcat(a, b);
    AddsConcat(Chomped(a), Chomped(b), {}, added);
    assert {} + added == added;
  }

  lemma HeadAdds(c: Change, high: bool)
    requires ValidChange(c)
    ensures Adds(Chomped(Head(c, high)), {})
  {
    HeadQuiet(c, high);
    QuietAdds(Chomped(Head(c, high)));
  }

  lemma TailAdds(c: Change, high: bool)
    requires ValidChange(c)
    ensures Adds(Chomped([NewRow(c, high)] + HunkLines(c.hunks)), CountedInAll(c.hunks))
  {
    var row := [NewRow(c, high)];
    NewRowReads(c, high);
    ChompedOne(NewRow(c, high));
    QuietAdds(row);
    HunksAdd(c.hunks);
    ChompedConcat(row, HunkLines(c.hunks));
    AddsConcat(row, Chomped(HunkLines(c.hunks)), {}, CountedInAll(c.hunks));
    assert {} + CountedInAll(c.hunks) == CountedInAll(c.hunks);
  }

  /** The file a block's hunks are credited to: the one its path row names, or the file before. */
  function Credited(current: string, c: Change, high: bool): string {
    if c.hunks == [] || ReaderPath(c.newPath, high) == None then current else ReaderPath(c.newPath, high).value
  }

  /** These rows credit these lines to `file`. */
  ghost predicate Credits(r: Reading, rows: seq<string>, file: string, added: set<nat>, path: string) {
    var r' := ReadRows(r, rows);
    && Clean(r'.patch) && r'.current == file
    && ReadLines(r', path) == ReadLines(r, path) + if path == file && Creditable(path) then added else {}
  }

  /** Reading one file block credits what its hunks count to that file. In particular the lines of a file with a
      quoted path go to the file before it. */
  lemma BlockReads(r: Reading, c: Change, path: string, high: bool)
    requires Clean(r.patch) && Clean(Chomped(FileBlock(c, high))) && ValidChange(c) && NamesNoFiles(c.hunks)
    requires Credited(r.current, c, high) != NO_FILE
    ensures Credits(r, Chomped(FileBlock(c, high)), Credited(r.current, c, high), CountedInAll(c.hunks), path)
  {
    var rows := Chomped(FileBlock(c, high));
    if c.hunks == [] || ReaderPath(c.newPath, high) == None {
      BlockParts(c, high);
      BlockAdds(c, high);
      SameFileReads(r, rows, CountedInAll(c.hunks), path);
    } else {
      var head, row, hunks := FileFacts(c, high);
      NewFileReads(r, rows, head, row, ReaderPath(c.newPath, high).value, hunks, CountedInAll(c.hunks), path);
    }
  }

  lemma SameFileReads(r: Reading, rows: seq<string>, added: set<nat>, path: string)
    requires Clean(r.patch) && Clean(rows) && NoFile(rows) && Adds(rows, added)
    ensures Credits(r, rows, r.current, added, path)
  {
    PatchRows(r, rows, added, path);
  }

  lemma NewFileReads(r: Reading, block: seq<string>, head: seq<string>, row: string, file: string, rows: seq<string>,
                     added: set<nat>, path: string)
    requires block == head + ([row] + rows) && Clean(r.patch) && Clean(block)
    requires NoFile(head) && NoPlus(RowsOf(head)) && NoFile(rows) && Added(rows) == added
    requires FileMatch(row) == Some(file) && Creditable(file)
    ensures Credits(r, block, file, added, path)
  {
    HeadThenFile(r, block, head, row, file, rows, path);
  }

  lemma BlockParts(c: Change, high: bool)
    requires ValidChange(c) && NamesNoFiles(c.hunks)
    ensures var head := Chomped(Head(c, high));
            && NoFile(head) && NoPlus(RowsOf(head)) && NoFile(Chomped(HunkLines(c.hunks)))
            && Chomped(FileBlock(c, high)) ==
               head + if c.hunks == [] then [] else [NewRow(c, high)] + Chomped(HunkLines(c.hunks))
    ensures c.hunks == [] || ReaderPath(c.newPath, high) == None ==> NoFile(Chomped(FileBlock(c, high)))
  {
    BlockShape(c, high);
    HeadQuiet(c, high);
    HunksNoFile(c.hunks);
    NewRowReads(c, high);
    if c.hunks != [] {
      ChompedConcat(Head(c, high), [NewRow(c, high)] + HunkLines(c.hunks));
      ChompedConcat([NewRow(c, high)], HunkLines(c.hunks));
      ChompedOne(NewRow(c, high));
    } else {
      assert Head(c, high) + [] == Head(c, high) && Chomped(Head(c, high)) + [] == Chomped(Head(c, high));
    }
  }

  lemma FileFacts(c: Change, high: bool) returns (head: seq<string>, row: string, rows: seq<string>)
    requires ValidChange(c) && NamesNoFiles(c.hunks) && c.hunks != [] && ReaderPath(c.newPath, high).Some?
    ensures FileMatch(row) == ReaderPath(c.newPath, high) && ReaderPath(c.newPath, high).value != ""
    ensures Chomped(FileBlock(c, high)) == head + ([row] + rows)
    ensures NoFile(head) && NoPlus(RowsOf(head)) && NoFile(rows) && Added(rows) == CountedInAll(c.hunks)
  {
    NewRowReads(c, high);
    ReaderPathNotEmpty(c.newPath, high);
    BlockParts(c, high);
    AddedInHunks(c.hunks);
    head, row, rows := Chomped(Head(c, high)), NewRow(c, high), Chomped(HunkLines(c.hunks));
  }

  lemma AddedInHunks(hunks: seq<Hunk>)
    requires ValidHunks(hunks)
    ensures Added(Chomped(HunkLines(hunks))) == CountedInAll(hunks)
  {
    HunksAdd(hunks);
    AddedAfter([], Chomped(HunkLines(hunks)), CountedInAll(hunks));
    assert [] + Chomped(HunkLines(hunks)) == Chomped(HunkLines(hunks));
  }

  lemma HeadThenFile(r: Reading, block: seq<string>, head: seq<string>, row: string, file: string, rows: seq<string>, path: string)
    requires block == head + ([row] + rows) && Clean(r.patch) && Clean(block)
    requires NoFile(head) && NoPlus(RowsOf(head)) && NoFile(rows)
    requires FileMatch(row) == Some(file) && Creditable(file)
    ensures var r' := ReadRows(r, block);
            && Clean(r'.patch) && r'.current == file
            && ReadLines(r', path) == ReadLines(r, path) + if path == file then Added(rows) else {}
  {
    CleanParts(block, head, row, rows);
    QuietAdds(head);
    PatchRows(r, head, {}, path);
    ReadConcat(r, head, [row] + rows);
    FileRows(ReadRows(r, head), row, file, rows, path);
    CurrentIs(ReadRows(r, head), row, file, rows);
  }

  lemma CleanParts(block: seq<string>, head: seq<string>, row: string, rows: seq<string>)
    requires block == head + ([row] + rows) && Clean(block)
    ensures Clean(head) && Clean(rows)
  {
    assert forall x | x in head || x in rows :: x in block;
  }

  lemma CurrentIs(r: Reading, row: string, file: string, rows: seq<string>)
    requires FileMatch(row) == Some(file) && NoFile(rows)
    ensures ReadRows(r, [row] + rows).current == file
  {
    ReadConcat(r, [row], rows);
    assert [row][..0] == [];
    ReadPatch(ReadRows(r, [row]), rows);
  }

  // ---------------------------------------------------------------- printed diffs

  predicate PlainDiff(changes: seq<Change>, high: bool) {
    PlainLines(DiffLines(changes, high))
  }

  lemma {:induction false} LinesNotEmpty(changes: seq<Change>, high: bool)
    requires ValidChanges(changes)
    ensures forall l | l in Chomped(DiffLines(changes, high)) :: l != ""
  {
    if changes != [] {
      var before, c := changes[..|changes| - 1], changes[|changes| - 1];
      LinesNotEmpty(before, high);
      BlockNotEmpty(c, high);
      ChompedConcat(DiffLines(before, high), FileBlock(c, high));
    }
  }

  lemma ChompNotEmpty(line: string)
    requires line != "" && line[0] != '\r'
    ensures Chomp(line) != ""
  {
  }

  lemma BlockNotEmpty(c: Change, high: bool)
    requires ValidChange(c)
    ensures forall l | l in Chomped(FileBlock(c, high)) :: l != ""
  {
    var lines := FileBlock(c, high);
    HunkLinesStart(c.hunks);
    assert SECTION[0] == 'd' && OLD_PATH[0] == '-' && NEW_PATH[0] == '+';
    forall l | l in lines ensures l != "" && l[0] != '\r' {
      if l in c.headers {
        assert ValidHeader(l);
      }
    }
    forall i | 0 <= i < |lines| ensures Chomped(lines)[i] != "" {
      assert lines[i] in lines;
      ChompNotEmpty(lines[i]);
    }
  }

  predicate Starts(lines: seq<string>) {
    forall l | l in lines :: l != "" && l[0] != '\r'
  }

  lemma StartsConcat(a: seq<string>, b: seq<string>)
    requires Starts(a) && Starts(b)
    ensures Starts(a + b)
  {
  }

  lemma HunkStarts(h: Hunk)
    ensures Starts(HunkBlock(h))
  {
    assert NO_NEWLINE[0] == BACKSLASH && HunkHeader(h)[0] == '@';
    StartsConcat(Marked('-', h.removed), Noted(h.oldNoNewline));
    StartsConcat(Marked('-', h.removed) + Noted(h.oldNoNewline), Marked('+', h.added));
    StartsConcat(Marked('-', h.removed) + Noted(h.oldNoNewline) + Marked('+', h.added), Noted(h.newNoNewline));
    StartsConcat([HunkHeader(h)], HunkBody(h));
  }

  lemma {:induction false} HunkLinesStart(hunks: seq<Hunk>)
    ensures Starts(HunkLines(hunks))
  {
    if hunks != [] {
      HunkLinesStart(hunks[..|hunks| - 1]);
      HunkStarts(hunks[|hunks| - 1]);
    }
  }

  lemma RowsClean(changes: seq<Change>, high: bool)
    requires ValidChanges(changes) && PlainDiff(changes, high)
    ensures Clean(Chomped(DiffLines(changes, high)))
  {
    var lines := DiffLines(changes, high);
    LinesNotEmpty(changes, high);
    forall i | 0 <= i < |lines| ensures Chomped(lines)[i] != "" && BreakFree(Chomped(lines)[i]) {
      assert lines[i] in lines && Chomped(lines)[i] in Chomped(lines);
    }
  }
}
