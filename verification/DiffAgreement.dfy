/** When the scanner's diff parser and the action's diff reader see the same added lines. */
module DiffAgreement {
  import opened Options
  import opened Text
  import opened DiffParse
  import opened GitDiff
  import opened DiffQuoting
  import opened DiffPy
  import opened DiffPyRows
  import opened DiffPyHunks
  import opened DiffReading
  import Trip = DiffRoundTrip

  // ---------------------------------------------------------------- the parser's side

  function RangeLines(ranges: seq<Range>): set<nat> {
    if ranges == [] then {}
    else
      var r := ranges[|ranges| - 1];
      RangeLines(ranges[..|ranges| - 1]) + Numbers(r.first, if r.last < r.first then 0 else r.last - r.first + 1)
  }

  /** The new-side lines the parsed files give for a path. */
  function ParsedLines(files: seq<FileDiff>, path: string): set<nat> {
    if files == [] then {}
    else
      var f := files[|files| - 1];
      ParsedLines(files[..|files| - 1], path) + if f.path == Some(path) then RangeLines(f.ranges) else {}
  }

  function NewLinesOf(hunks: seq<Hunk>): set<nat> {
    if hunks == [] then {} else NewLinesOf(hunks[..|hunks| - 1]) + NewLines(hunks[|hunks| - 1])
  }

  lemma {:induction false} HunkRangeLines(hunks: seq<Hunk>)
    ensures RangeLines(Trip.RangesOf(hunks)) == NewLinesOf(hunks)
  {
    if hunks != [] {
      var before, h := hunks[..|hunks| - 1], hunks[|hunks| - 1];
      HunkRangeLines(before);
      var ranges := Trip.RangesOf(before);
      if h.added == [] {
        assert ranges + Trip.HunkRange(h) == ranges;
        assert NewLines(h) == {};
      } else {
        assert (ranges + Trip.HunkRange(h))[..|ranges|] == ranges;
      }
    }
  }

  lemma ParsedSnoc(files: seq<FileDiff>, f: FileDiff, path: string)
    ensures ParsedLines(files + [f], path) == ParsedLines(files, path) + if f.path == Some(path) then RangeLines(f.ranges) else {}
  {
    assert (files + [f])[..|files|] == files;
  }

  /** File `i` gives the parser line `k` of `path`. */
  predicate ParserGets(changes: seq<Change>, high: bool, path: string, k: nat, i: nat) {
    i < |changes| && SeenPath(changes[i].newPath, high) == Some(path) && k in NewLinesOf(changes[i].hunks)
  }

  /** The lines a list of changes adds to a path, as the parser sees it. */
  function NewLinesIn(changes: seq<Change>, high: bool, path: string): set<nat> {
    if changes == [] then {}
    else
      var c := changes[|changes| - 1];
      NewLinesIn(changes[..|changes| - 1], high, path) + if SeenPath(c.newPath, high) == Some(path) then NewLinesOf(c.hunks) else {}
  }

  lemma {:induction false} ParsedLinesAre(changes: seq<Change>, high: bool, path: string)
    ensures ParsedLines(Trip.SeenFiles(changes, high), path) == NewLinesIn(changes, high, path)
  {
    if changes != [] {
      var before, c := changes[..|changes| - 1], changes[|changes| - 1];
      ParsedLinesAre(before, high, path);
      if c.hunks == [] {
        assert Trip.SeenFiles(changes, high) == Trip.SeenFiles(before, high);
      } else {
        HunkRangeLines(c.hunks);
        ParsedSnoc(Trip.SeenFiles(before, high), Trip.SeenFile(c, high), path);
      }
    }
  }

  lemma {:induction false} NewLinesGiven(changes: seq<Change>, high: bool, path: string, k: nat)
    ensures k in NewLinesIn(changes, high, path) <==> exists i :: ParserGets(changes, high, path, k, i)
  {
    if changes != [] {
      var n := |changes| - 1;
      NewLinesGiven(changes[..n], high, path, k);
      forall i: nat | i < n ensures ParserGets(changes[..n], high, path, k, i) <==> ParserGets(changes, high, path, k, i) {
      }
      assert ParserGets(changes, high, path, k, n) <==>
             SeenPath(changes[n].newPath, high) == Some(path) && k in NewLinesOf(changes[n].hunks);
    }
  }

  lemma ParserGetsExactly(changes: seq<Change>, high: bool, path: string, k: nat)
    ensures k in ParsedLines(Trip.SeenFiles(changes, high), path) <==> exists i :: ParserGets(changes, high, path, k, i)
  {
    ParsedLinesAre(changes, high, path);
    NewLinesGiven(changes, high, path, k);
  }

  // ---------------------------------------------------------------- the reader's side

  /** The file the hunks of change `i` are credited to. */
  function CreditedAt(changes: seq<Change>, high: bool, i: nat): string
    requires i < |changes|
  {
    Credited(if i == 0 then "" else CreditedAt(changes, high, i - 1), changes[i], high)
  }

  /** Change `i` gives the reader line `k` of `path`. */
  predicate ReaderGets(changes: seq<Change>, high: bool, path: string, k: nat, i: nat) {
    i < |changes| && CreditedAt(changes, high, i) == path && k in CountedInAll(changes[i].hunks)
  }

  /** No path is printed as the missing file. */
  predicate Relative(changes: seq<Change>) {
    forall c | c in changes :: c.newPath != Some(NO_FILE)
  }

  predicate NoFileNamed(changes: seq<Change>) {
    forall c | c in changes :: NamesNoFiles(c.hunks)
  }

  lemma {:induction false} CreditedBefore(changes: seq<Change>, c: Change, high: bool, i: nat)
    requires i < |changes|
    ensures CreditedAt(changes + [c], high, i) == CreditedAt(changes, high, i)
  {
    if i > 0 {
      CreditedBefore(changes, c, high, i - 1);
    }
  }

  lemma {:induction false} CreditedIsPath(changes: seq<Change>, high: bool, i: nat)
    requires i < |changes| && Relative(changes)
    ensures CreditedAt(changes, high, i) != NO_FILE
  {
    assert changes[i] in changes;
    if i > 0 {
      CreditedIsPath(changes, high, i - 1);
    }
    NotNoFile(changes[i].newPath, high);
  }

  lemma NotNoFile(path: Option<string>, high: bool)
    requires path != Some(NO_FILE)
    ensures ReaderPath(path, high) != Some(NO_FILE)
  {
    if path.Some? {
      var tabbed := path.value + "\t";
      assert tabbed[|tabbed| - 1] == '\t' && NO_FILE[|NO_FILE| - 1] == 'l';
    }
  }

  predicate Readable(changes: seq<Change>, high: bool) {
    ValidChanges(changes) && Relative(changes) && NoFileNamed(changes)
  }

  ghost predicate ReaderAt(changes: seq<Change>, high: bool, path: string, k: nat, r: Reading) {
    && Clean(r.patch)
    && r.current == (if changes == [] then "" else CreditedAt(changes, high, |changes| - 1))
    && (k in ReadLines(r, path) <==> Creditable(path) && exists i :: ReaderGets(changes, high, path, k, i))
  }

  /** What the reader has after a printed diff, line by line. */
  lemma {:induction false} ReaderGetsExactly(changes: seq<Change>, high: bool, path: string, k: nat)
    requires Readable(changes, high) && Clean(Chomped(DiffLines(changes, high)))
    ensures ReaderAt(changes, high, path, k, ReadRows(NOTHING, Chomped(DiffLines(changes, high))))
  {
    if changes == [] {
      ReadLinesAre(NOTHING, path);
    } else {
      var n := |changes| - 1;
      var before, c := changes[..n], changes[n];
      assert changes == before + [c];
      ReadableBefore(before, c, high);
      DiffSplits(changes, high);
      ReaderGetsExactly(before, high, path, k);
      LastBlock(ReadRows(NOTHING, Chomped(DiffLines(before, high))), before, c, high, path, k);
    }
  }

  lemma ReadableBefore(before: seq<Change>, c: Change, high: bool)
    requires Readable(before + [c], high)
    ensures Readable(before, high)
  {
    assert forall b | b in before :: b in before + [c];
  }

  lemma LastBlock(r: Reading, before: seq<Change>, c: Change, high: bool, path: string, k: nat)
    requires Readable(before + [c], high) && Clean(Chomped(FileBlock(c, high)))
    requires ReaderAt(before, high, path, k, r)
    ensures ReaderAt(before + [c], high, path, k, ReadRows(r, Chomped(FileBlock(c, high))))
  {
    assert c in before + [c];
    CreditedIsPath(before + [c], high, |before|);
    LastCredited(before, c, high);
    BlockReads(r, c, path, high);
    ReaderNext(r, ReadRows(r, Chomped(FileBlock(c, high))), before, c, high, path, k);
  }

  lemma ReaderNext(r: Reading, r': Reading, before: seq<Change>, c: Change, high: bool, path: string, k: nat)
    requires ReaderAt(before, high, path, k, r)
    requires Clean(r'.patch) && r'.current == Credited(r.current, c, high)
    requires ReadLines(r', path) == ReadLines(r, path) + if path == r'.current && Creditable(path) then CountedInAll(c.hunks) else {}
    ensures ReaderAt(before + [c], high, path, k, r')
  {
    LastCredited(before, c, high);
    GetsSnoc(before, c, high, path, k);
  }

  lemma LastCredited(before: seq<Change>, c: Change, high: bool)
    ensures CreditedAt(before + [c], high, |before|) ==
            Credited(if before == [] then "" else CreditedAt(before, high, |before| - 1), c, high)
  {
    if before != [] {
      CreditedBefore(before, c, high, |before| - 1);
    }
  }

  lemma GetsSnoc(before: seq<Change>, c: Change, high: bool, path: string, k: nat)
    ensures (exists i :: ReaderGets(before + [c], high, path, k, i)) <==>
            (exists i :: ReaderGets(before, high, path, k, i)) || ReaderGets(before + [c], high, path, k, |before|)
  {
    forall i: nat | i < |before| ensures ReaderGets(before + [c], high, path, k, i) <==> ReaderGets(before, high, path, k, i) {
      CreditedBefore(before, c, high, i);
    }
  }

  lemma DiffSplits(changes: seq<Change>, high: bool)
    requires changes != [] && Clean(Chomped(DiffLines(changes, high)))
    ensures var before, c := changes[..|changes| - 1], changes[|changes| - 1];
            && Chomped(DiffLines(changes, high)) == Chomped(DiffLines(before, high)) + Chomped(FileBlock(c, high))
            && Clean(Chomped(DiffLines(before, high))) && Clean(Chomped(FileBlock(c, high)))
            && ReadRows(NOTHING, Chomped(DiffLines(changes, high))) ==
               ReadRows(ReadRows(NOTHING, Chomped(DiffLines(before, high))), Chomped(FileBlock(c, high)))
  {
    var before, c := changes[..|changes| - 1], changes[|changes| - 1];
    Splits(DiffLines(changes, high), DiffLines(before, high), FileBlock(c, high));
  }

  lemma Splits(lines: seq<string>, before: seq<string>, block: seq<string>)
    requires lines == before + block && Clean(Chomped(lines))
    ensures Chomped(lines) == Chomped(before) + Chomped(block) && Clean(Chomped(before)) && Clean(Chomped(block))
    ensures ReadRows(NOTHING, Chomped(lines)) == ReadRows(ReadRows(NOTHING, Chomped(before)), Chomped(block))
  {
    ChompedConcat(before, block);
    CleanHalves(Chomped(before), Chomped(block));
    ReadConcat(NOTHING, Chomped(before), Chomped(block));
  }

  lemma CleanHalves(a: seq<string>, b: seq<string>)
    requires Clean(a + b)
    ensures Clean(a) && Clean(b)
  {
    assert forall x | x in a || x in b :: x in a + b;
  }

  // ---------------------------------------------------------------- hunks in order

  /** New-side ranges in order and apart, as git prints them. */
  predicate Ordered(hunks: seq<Hunk>) {
    forall i, j | 0 <= i < j < |hunks| :: hunks[i].newStart + |hunks[i].added| <= hunks[j].newStart
  }

  lemma {:induction false} CountedInSome(hunks: seq<Hunk>, k: nat)
    ensures k in CountedInAll(hunks) <==> exists i :: 0 <= i < |hunks| && k in CountedIn(hunks[i])
    ensures k in NewLinesOf(hunks) <==> exists i :: 0 <= i < |hunks| && k in NewLines(hunks[i])
  {
    if hunks != [] {
      var n := |hunks| - 1;
      CountedInSome(hunks[..n], k);
      assert forall i | 0 <= i < n :: hunks[..n][i] == hunks[i];
    }
  }

  lemma CountedFrom(h: Hunk, k: nat)
    requires k in CountedIn(h)
    ensures k >= h.newStart && h.added != []
  {
    CountedAt(h.added, h.newStart + Shift(h), k);
  }

  /** A hunk that reads badly misses one of its lines. */
  lemma MissedLine(h: Hunk) returns (k: nat)
    requires !ReadsWell(h)
    ensures k in NewLines(h) && k !in CountedIn(h)
  {
    var n := h.newStart + Shift(h);
    if Shift(h) > 0 {
      k := h.newStart;
      CountedAt(h.added, n, k);
    } else {
      var i :| 0 <= i < |h.added| && "++" <= h.added[i];
      k := n + i;
      CountedAt(h.added, n, k);
    }
  }

  /** Up to the first hunk that reads badly nothing makes up for its missed line, and nothing after it can. */
  lemma {:induction false} AllReadWell(hunks: seq<Hunk>, n: nat)
    requires Ordered(hunks) && n <= |hunks| && CountedInAll(hunks) == NewLinesOf(hunks)
    ensures forall i | 0 <= i < n :: ReadsWell(hunks[i])
  {
    if n > 0 {
      AllReadWell(hunks, n - 1);
      var h := hunks[n - 1];
      if !ReadsWell(h) {
        var k := MissedLine(h);
        forall i | 0 <= i < |hunks| ensures k !in CountedIn(hunks[i]) {
          NotMadeUp(hunks, n - 1, i, k);
        }
        CountedInSome(hunks, k);
      }
    }
  }

  lemma NotMadeUp(hunks: seq<Hunk>, j: nat, i: nat, k: nat)
    requires Ordered(hunks) && j < |hunks| && i < |hunks| && k in NewLines(hunks[j]) && k !in CountedIn(hunks[j])
    requires i < j ==> ReadsWell(hunks[i])
    ensures k !in CountedIn(hunks[i])
  {
    if i < j {
      CountedExactly(hunks[i]);
    } else if i > j && k in CountedIn(hunks[i]) {
      CountedFrom(hunks[i], k);
    }
  }

  lemma {:induction false} HunksReadWell(hunks: seq<Hunk>)
    requires forall h | h in hunks :: ReadsWell(h)
    ensures CountedInAll(hunks) == NewLinesOf(hunks)
  {
    if hunks != [] {
      HunksReadWell(hunks[..|hunks| - 1]);
      CountedExactly(hunks[|hunks| - 1]);
    }
  }

  /** Within one file the reader's lines are the new lines if and only if every hunk reads well. */
  lemma HunksAgreeExactly(hunks: seq<Hunk>)
    requires Ordered(hunks)
    ensures CountedInAll(hunks) == NewLinesOf(hunks) <==> forall h | h in hunks :: ReadsWell(h)
  {
    if CountedInAll(hunks) == NewLinesOf(hunks) {
      AllReadWell(hunks, |hunks|);
    }
    if forall h | h in hunks :: ReadsWell(h) {
      HunksReadWell(hunks);
    }
  }
}
