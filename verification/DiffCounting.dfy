/** The reader never has more lines than the diff has added rows, so it cannot agree with the parser on a diff
    that holds an added line it does not count. */
module DiffCounting {
  import opened Text
  import opened GitDiff
  import opened DiffQuoting
  import opened DiffPy
  import opened DiffPyRows
  import opened DiffPyHunks
  import opened DiffReading
  import opened DiffAgreement
  import opened DiffParsersAgree
  import Recency
  import Trip = DiffRoundTrip

  datatype Pair = Pair(path: string, line: nat)

  /** All that the reader has. */
  ghost function Pairs(files: Files): set<Pair> {
    set p, k | p in files && k in files[p] :: Pair(p, k)
  }

  ghost function PairsAt(path: string, lines: set<nat>): set<Pair> {
    set k | k in lines :: Pair(path, k)
  }

  lemma {:induction false} PairsAtSize(path: string, lines: set<nat>)
    ensures |PairsAt(path, lines)| == |lines|
    decreases |lines|
  {
    if lines != {} {
      var k :| k in lines;
      PairsAtSize(path, lines - {k});
      assert PairsAt(path, lines) == PairsAt(path, lines - {k}) + {Pair(path, k)};
    }
  }

  // ---------------------------------------------------------------- what the reader can have

  function Pluses(rows: seq<Row>): nat {
    if rows == [] then 0 else Pluses(rows[..|rows| - 1]) + if rows[|rows| - 1].PlusRow? then 1 else 0
  }

  lemma {:induction false} PlusesConcat(a: seq<Row>, b: seq<Row>)
    ensures Pluses(a + b) == Pluses(a) + Pluses(b)
  {
    if b == [] {
      assert a + b == a;
    } else {
      assert (a + b)[..|a + b| - 1] == a + b[..|b| - 1];
      PlusesConcat(a, b[..|b| - 1]);
    }
  }

  lemma {:induction false} CountBound(c: Count, rows: seq<Row>)
    ensures |CountRows(c, rows).added| <= |c.added| + Pluses(rows)
  {
    if rows != [] {
      CountBound(c, rows[..|rows| - 1]);
    }
  }

  lemma PatchBound(files: Files, path: string, patch: seq<string>)
    requires Clean(patch)
    ensures |Pairs(WithPatch(files, path, Join(patch)))| <= |Pairs(files)| + Pluses(RowsOf(patch))
  {
    SplitJoin(patch);
    var added := Added(patch);
    CountBound(Count({}, 0), RowsOf(patch));
    PairsAtSize(path, added);
    Recency.SubsetSize(Pairs(WithPatch(files, path, Join(patch))), Pairs(files) + PairsAt(path, added));
  }

  lemma {:induction false} ReadBound(rows: seq<string>)
    requires Clean(rows)
    ensures var r := ReadRows(NOTHING, rows);
            Clean(r.patch) && |Pairs(r.files)| + Pluses(RowsOf(r.patch)) <= Pluses(RowsOf(rows))
  {
    if rows == [] {
      assert Pairs(map[]) == {};
    } else {
      var most, last := rows[..|rows| - 1], rows[|rows| - 1];
      assert rows == most + [last] && last in rows && forall x | x in most :: x in rows;
      ReadBound(most);
      RowsConcat(most, [last]);
      PlusesConcat(RowsOf(most), RowsOf([last]));
      StepBound(ReadRows(NOTHING, most), last);
    }
  }

  lemma StepBound(r: Reading, row: string)
    requires Clean(r.patch) && Clean([row])
    ensures var r' := ReadRow(r, row);
            && Clean(r'.patch)
            && |Pairs(r'.files)| + Pluses(RowsOf(r'.patch)) <=
               |Pairs(r.files)| + Pluses(RowsOf(r.patch)) + Pluses(RowsOf([row]))
  {
    var file := FileMatch(row);
    if file.Some? {
      PatchBound(r.files, r.current, r.patch);
    } else if r.current != "" {
      PatchGrows(r.patch, row);
    }
  }

  lemma PatchGrows(patch: seq<string>, row: string)
    requires Clean(patch) && Clean([row])
    ensures Clean(patch + [row]) && Pluses(RowsOf(patch + [row])) == Pluses(RowsOf(patch)) + Pluses(RowsOf([row]))
  {
    CleanConcat(patch, [row]);
    RowsConcat(patch, [row]);
    PlusesConcat(RowsOf(patch), RowsOf([row]));
  }

  // ---------------------------------------------------------------- how many added rows a diff has

  /** The added lines that are read as added. */
  function Proper(added: seq<string>): nat {
    if added == [] then 0 else Proper(added[..|added| - 1]) + if "++" <= added[|added| - 1] then 0 else 1
  }

  function ProperIn(hunks: seq<Hunk>): nat {
    if hunks == [] then 0 else ProperIn(hunks[..|hunks| - 1]) + Proper(hunks[|hunks| - 1].added)
  }

  function AddedTo(hunks: seq<Hunk>): nat {
    if hunks == [] then 0 else AddedTo(hunks[..|hunks| - 1]) + |hunks[|hunks| - 1].added|
  }

  function AllProper(changes: seq<Change>): nat {
    if changes == [] then 0 else AllProper(changes[..|changes| - 1]) + ProperIn(changes[|changes| - 1].hunks)
  }

  function AllAdded(changes: seq<Change>): nat {
    if changes == [] then 0 else AllAdded(changes[..|changes| - 1]) + AddedTo(changes[|changes| - 1].hunks)
  }

  lemma {:induction false} QuietPluses(rows: seq<Row>)
    requires NoPlus(rows)
    ensures Pluses(rows) == 0
  {
    if rows != [] {
      QuietPluses(rows[..|rows| - 1]);
    }
  }

  lemma {:induction false} AddedPluses(rows: seq<Row>, added: seq<string>)
    requires AreAdded(rows, added)
    ensures Pluses(rows) == Proper(added)
  {
    if added != [] {
      AddedPluses(rows[..|rows| - 1], added[..|added| - 1]);
    }
  }

  /** These lines are read as rows of which `n` add a line. */
  ghost predicate HasPluses(lines: seq<string>, n: nat) {
    forall rows | rows == RowsOf(Chomped(lines)) :: Pluses(rows) == n
  }

  lemma PlusesOf(lines: seq<string>, n: nat)
    requires HasPluses(lines, n)
    ensures Pluses(RowsOf(Chomped(lines))) == n
  {
  }

  lemma HasConcat(a: seq<string>, b: seq<string>, x: nat, y: nat)
    requires HasPluses(a, x) && HasPluses(b, y)
    ensures HasPluses(a + b, x + y)
  {
    ChompedRowsConcat(a, b);
    PlusesConcat(RowsOf(Chomped(a)), RowsOf(Chomped(b)));
  }

  lemma QuietHas(lines: seq<string>)
    requires NoPlus(RowsOf(Chomped(lines)))
    ensures HasPluses(lines, 0)
  {
    QuietPluses(RowsOf(Chomped(lines)));
  }

  lemma HunkPluses(h: Hunk)
    ensures HasPluses(HunkBlock(h), Proper(h.added))
  {
    HunkRows(h);
    MarkedRows(h.removed);
    MarkedRows(h.added);
    PartsPluses(h, RowsOf(Chomped(Marked('-', h.removed))), RowsOf(Chomped(Marked('+', h.added))));
  }

  lemma PartsPluses(h: Hunk, removed: seq<Row>, added: seq<Row>)
    requires AreRemoved(removed, h.removed) && AreAdded(added, h.added)
    ensures Pluses([HunkRow(h.newStart)] + (removed + NoteRows(h.oldNoNewline) + added + NoteRows(h.newNoNewline))) ==
            Proper(h.added)
  {
    QuietPluses([HunkRow(h.newStart)]);
    QuietPluses(removed);
    QuietPluses(NoteRows(h.oldNoNewline));
    QuietPluses(NoteRows(h.newNoNewline));
    AddedPluses(added, h.added);
    PlusesConcat([HunkRow(h.newStart)], removed + NoteRows(h.oldNoNewline) + added + NoteRows(h.newNoNewline));
    PlusesConcat(removed + NoteRows(h.oldNoNewline) + added, NoteRows(h.newNoNewline));
    PlusesConcat(removed + NoteRows(h.oldNoNewline), added);
    PlusesConcat(removed, NoteRows(h.oldNoNewline));
  }

  function Concat(blocks: seq<seq<string>>): seq<string> {
    if blocks == [] then [] else Concat(blocks[..|blocks| - 1]) + blocks[|blocks| - 1]
  }

  function Sum(ns: seq<nat>): nat {
    if ns == [] then 0 else Sum(ns[..|ns| - 1]) + ns[|ns| - 1]
  }

  lemma {:induction false} ConcatPluses(blocks: seq<seq<string>>, ns: seq<nat>)
    requires |blocks| == |ns| && forall i | 0 <= i < |ns| :: HasPluses(blocks[i], ns[i])
    ensures HasPluses(Concat(blocks), Sum(ns))
  {
    if blocks == [] {
      QuietHas([]);
    } else {
      var n := |ns| - 1;
      ConcatPluses(blocks[..n], ns[..n]);
      HasConcat(Concat(blocks[..n]), blocks[n], Sum(ns[..n]), ns[n]);
    }
  }

  function HunkBlocks(hunks: seq<Hunk>): seq<seq<string>> {
    seq(|hunks|, i requires 0 <= i < |hunks| => HunkBlock(hunks[i]))
  }

  lemma {:induction false} HunkLinesAre(hunks: seq<Hunk>)
    ensures Concat(HunkBlocks(hunks)) == HunkLines(hunks)
  {
    if hunks != [] {
      HunkLinesAre(hunks[..|hunks| - 1]);
      assert HunkBlocks(hunks)[..|hunks| - 1] == HunkBlocks(hunks[..|hunks| - 1]);
    }
  }

  function ProperEach(hunks: seq<Hunk>): (r: seq<nat>)
    ensures |r| == |hunks| && forall i | 0 <= i < |r| :: r[i] == Proper(hunks[i].added)
    ensures Sum(r) == ProperIn(hunks)
  {
    if hunks == [] then [] else ProperEach(hunks[..|hunks| - 1]) + [Proper(hunks[|hunks| - 1].added)]
  }

  lemma HunksPluses(hunks: seq<Hunk>)
    ensures HasPluses(HunkLines(hunks), ProperIn(hunks))
  {
    forall i | 0 <= i < |hunks| ensures HasPluses(HunkBlocks(hunks)[i], ProperEach(hunks)[i]) {
      HunkPluses(hunks[i]);
    }
    ConcatPluses(HunkBlocks(hunks), ProperEach(hunks));
    HunkLinesAre(hunks);
  }

  lemma BlockPluses(c: Change, high: bool)
    requires ValidChange(c)
    ensures HasPluses(FileBlock(c, high), ProperIn(c.hunks))
  {
    BlockShape(c, high);
    HeadPluses(c, high);
    if c.hunks != [] {
      TailPluses(c, high);
      HasJoin(FileBlock(c, high), Head(c, high), [NewRow(c, high)] + HunkLines(c.hunks), ProperIn(c.hunks));
    }
  }

  lemma HasJoin(lines: seq<string>, a: seq<string>, b: seq<string>, n: nat)
    requires lines == a + b && HasPluses(a, 0) && HasPluses(b, n)
    ensures HasPluses(lines, n)
  {
    HasConcat(a, b, 0, n);
  }

  lemma HeadPluses(c: Change, high: bool)
    requires ValidChange(c)
    ensures HasPluses(Head(c, high), 0)
  {
    HeadQuiet(c, high);
    QuietHas(Head(c, high));
  }

  lemma TailPluses(c: Change, high: bool)
    requires ValidChange(c)
    ensures HasPluses([NewRow(c, high)] + HunkLines(c.hunks), ProperIn(c.hunks))
  {
    NewRowReads(c, high);
    ChompedOne(NewRow(c, high));
    QuietHas([NewRow(c, high)]);
    HunksPluses(c.hunks);
    HasConcat([NewRow(c, high)], HunkLines(c.hunks), 0, ProperIn(c.hunks));
  }

  function FileBlocks(changes: seq<Change>, high: bool): seq<seq<string>> {
    seq(|changes|, i requires 0 <= i < |changes| => FileBlock(changes[i], high))
  }

  lemma {:induction false} DiffLinesAre(changes: seq<Change>, high: bool)
    ensures Concat(FileBlocks(changes, high)) == DiffLines(changes, high)
  {
    if changes != [] {
      DiffLinesAre(changes[..|changes| - 1], high);
      assert FileBlocks(changes, high)[..|changes| - 1] == FileBlocks(changes[..|changes| - 1], high);
    }
  }

  function ProperPer(changes: seq<Change>): (r: seq<nat>)
    ensures |r| == |changes| && forall i | 0 <= i < |r| :: r[i] == ProperIn(changes[i].hunks)
    ensures Sum(r) == AllProper(changes)
  {
    if changes == [] then [] else ProperPer(changes[..|changes| - 1]) + [ProperIn(changes[|changes| - 1].hunks)]
  }

  lemma DiffPluses(changes: seq<Change>, high: bool)
    requires ValidChanges(changes)
    ensures HasPluses(DiffLines(changes, high), AllProper(changes))
  {
    forall i | 0 <= i < |changes| ensures HasPluses(FileBlocks(changes, high)[i], ProperPer(changes)[i]) {
      assert changes[i] in changes;
      BlockPluses(changes[i], high);
    }
    ConcatPluses(FileBlocks(changes, high), ProperPer(changes));
    DiffLinesAre(changes, high);
  }

  // ---------------------------------------------------------------- how many lines the parser has

  /** Above every line a hunk can have. */
  const END := USIZE_MAX + 1

  ghost function Below(lines: set<nat>, t: nat): set<nat> {
    set k | k in lines && k < t
  }

  /** How many of `count` numbers from `first` on are below `t`. */
  function Low(first: nat, count: nat, t: nat): nat {
    if t <= first then 0 else if t - first < count then t - first else count
  }

  lemma {:induction false} NumbersSize(first: nat, count: nat)
    ensures |Numbers(first, count)| == count
  {
    if count > 0 {
      NumbersSize(first, count - 1);
    }
  }

  lemma LowSize(first: nat, count: nat, t: nat)
    ensures |Below(Numbers(first, count), t)| == Low(first, count, t)
  {
    assert Below(Numbers(first, count), t) == Numbers(first, Low(first, count, t));
    NumbersSize(first, Low(first, count, t));
  }

  function LowTo(hunks: seq<Hunk>, t: nat): nat {
    if hunks == [] then 0
    else LowTo(hunks[..|hunks| - 1], t) + Low(hunks[|hunks| - 1].newStart, |hunks[|hunks| - 1].added|, t)
  }

  function LowAll(changes: seq<Change>, t: nat): nat {
    if changes == [] then 0 else LowAll(changes[..|changes| - 1], t) + LowTo(changes[|changes| - 1].hunks, t)
  }

  lemma {:induction false} LowToEnd(hunks: seq<Hunk>)
    requires ValidHunks(hunks)
    ensures LowTo(hunks, END) == AddedTo(hunks)
  {
    if hunks != [] {
      assert hunks[|hunks| - 1] in hunks && forall h | h in hunks[..|hunks| - 1] :: h in hunks;
      LowToEnd(hunks[..|hunks| - 1]);
    }
  }

  lemma {:induction false} LowAllEnd(changes: seq<Change>)
    requires ValidChanges(changes)
    ensures LowAll(changes, END) == AllAdded(changes)
  {
    if changes != [] {
      assert changes[|changes| - 1] in changes && forall c | c in changes[..|changes| - 1] :: c in changes;
      LowAllEnd(changes[..|changes| - 1]);
      LowToEnd(changes[|changes| - 1].hunks);
    }
  }

  /** All that the parser has below `t`. */
  ghost function NewPairs(changes: seq<Change>, high: bool, t: nat): set<Pair> {
    if changes == [] then {}
    else NewPairs(changes[..|changes| - 1], high, t) + PairsOf(changes[|changes| - 1], high, t)
  }

  ghost function PairsOf(c: Change, high: bool, t: nat): set<Pair> {
    if c.newPath.Some? then PairsAt(SeenPath(c.newPath, high).value, Below(NewLinesOf(c.hunks), t)) else {}
  }

  lemma {:induction false} NewLinesSize(hunks: seq<Hunk>, t: nat)
    requires Ordered(hunks)
    ensures |Below(NewLinesOf(hunks), t)| == LowTo(hunks, t)
  {
    if hunks != [] {
      var n := |hunks| - 1;
      NewLinesSize(hunks[..n], t);
      LowSize(hunks[n].newStart, |hunks[n].added|, t);
      forall k: nat | k in NewLinesOf(hunks[..n]) ensures k !in NewLines(hunks[n]) {
        CountedInSome(hunks[..n], k);
      }
      BelowUnion(NewLinesOf(hunks[..n]), NewLines(hunks[n]), t);
    }
  }

  lemma BelowUnion(a: set<nat>, b: set<nat>, t: nat)
    requires forall k | k in a :: k !in b
    ensures |Below(a + b, t)| == |Below(a, t)| + |Below(b, t)|
  {
    assert Below(a + b, t) == Below(a, t) + Below(b, t);
  }

  lemma UnionSize<T>(a: set<T>, b: set<T>)
    requires forall x | x in a :: x !in b
    ensures |a + b| == |a| + |b|
  {
  }

  lemma {:induction false} NewPairsGiven(changes: seq<Change>, high: bool, t: nat, p: Pair)
    ensures p in NewPairs(changes, high, t) <==> p.line < t && exists i :: ParserGets(changes, high, p.path, p.line, i)
  {
    if changes != [] {
      var n := |changes| - 1;
      NewPairsGiven(changes[..n], high, t, p);
      assert forall i: nat | i < n :: ParserGets(changes[..n], high, p.path, p.line, i) <==> ParserGets(changes, high, p.path, p.line, i);
      PairsOfGiven(changes, high, t, p);
    }
  }

  lemma PairsOfGiven(changes: seq<Change>, high: bool, t: nat, p: Pair)
    requires changes != []
    ensures p in PairsOf(changes[|changes| - 1], high, t) <==>
            p.line < t && ParserGets(changes, high, p.path, p.line, |changes| - 1)
  {
    var c := changes[|changes| - 1];
    if c.newPath.Some? && p.line in Below(NewLinesOf(c.hunks), t) {
      assert Pair(SeenPath(c.newPath, high).value, p.line) in PairsOf(c, high, t);
    }
  }

  lemma {:induction false} NewPairsSize(changes: seq<Change>, high: bool, t: nat)
    requires Conventional(changes, high)
    ensures |NewPairs(changes, high, t)| == LowAll(changes, t)
  {
    if changes != [] {
      var n := |changes| - 1;
      var before, c := changes[..n], changes[n];
      assert c in changes && forall b | b in before :: b in changes;
      NewPairsSize(before, high, t);
      PairsOfSize(c, high, t);
      LastIsApart(changes, high, t);
      UnionSize(NewPairs(before, high, t), PairsOf(c, high, t));
    }
  }

  lemma PairsOfSize(c: Change, high: bool, t: nat)
    requires Ordered(c.hunks) && (AddsLines(c) ==> c.newPath.Some?)
    ensures |PairsOf(c, high, t)| == LowTo(c.hunks, t)
  {
    NewLinesSize(c.hunks, t);
    if c.newPath.Some? {
      PairsAtSize(SeenPath(c.newPath, high).value, Below(NewLinesOf(c.hunks), t));
    } else {
      NothingNew(c);
      assert Below({}, t) == {};
    }
  }

  lemma NothingNew(c: Change)
    requires !AddsLines(c)
    ensures NewLinesOf(c.hunks) == {}
  {
    forall k: nat ensures k !in NewLinesOf(c.hunks) {
      if k in NewLinesOf(c.hunks) {
        GivesLines(c, k);
      }
    }
  }

  lemma LastIsApart(changes: seq<Change>, high: bool, t: nat)
    requires changes != [] && Conventional(changes, high)
    ensures var n := |changes| - 1; forall p | p in NewPairs(changes[..n], high, t) :: p !in PairsOf(changes[n], high, t)
  {
    var n := |changes| - 1;
    forall p | p in NewPairs(changes[..n], high, t) ensures p !in PairsOf(changes[n], high, t) {
      NewPairsGiven(changes[..n], high, t, p);
      var i: nat :| ParserGets(changes[..n], high, p.path, p.line, i);
      GivesLines(changes[i], p.line);
      if p in PairsOf(changes[n], high, t) {
        PairsOfGiven(changes, high, t, p);
        GivesLines(changes[n], p.line);
      }
    }
  }

  // ---------------------------------------------------------------- agreement leaves no line uncounted

  lemma {:induction false} ProperBound(added: seq<string>)
    ensures Proper(added) <= |added|
    ensures Proper(added) == |added| ==> forall l | l in added :: !("++" <= l)
  {
    if added != [] {
      ProperBound(added[..|added| - 1]);
      assert added == added[..|added| - 1] + [added[|added| - 1]];
    }
  }

  predicate NoPlusPlus(hunks: seq<Hunk>) {
    forall h, l | h in hunks && l in h.added :: !("++" <= l)
  }

  lemma {:induction false} ProperInBound(hunks: seq<Hunk>)
    ensures ProperIn(hunks) <= AddedTo(hunks)
    ensures ProperIn(hunks) == AddedTo(hunks) ==> NoPlusPlus(hunks)
  {
    if hunks != [] {
      ProperInBound(hunks[..|hunks| - 1]);
      ProperBound(hunks[|hunks| - 1].added);
      assert hunks == hunks[..|hunks| - 1] + [hunks[|hunks| - 1]];
    }
  }

  lemma {:induction false} AllProperBound(changes: seq<Change>)
    ensures AllProper(changes) <= AllAdded(changes)
    ensures AllProper(changes) == AllAdded(changes) ==> forall c | c in changes :: NoPlusPlus(c.hunks)
  {
    if changes != [] {
      AllProperBound(changes[..|changes| - 1]);
      ProperInBound(changes[|changes| - 1].hunks);
      assert changes == changes[..|changes| - 1] + [changes[|changes| - 1]];
    }
  }

  lemma ReaderHasAll(changes: seq<Change>, high: bool)
    requires ValidChanges(changes) && AgreeEverywhere(changes, high)
    ensures NewPairs(changes, high, END) <= Pairs(Changed(Printed(changes, high)))
  {
    Trip.PrintedParses(changes, high);
    forall p | p in NewPairs(changes, high, END) ensures p in Pairs(Changed(Printed(changes, high))) {
      NewPairsGiven(changes, high, END, p);
      ParserGetsExactly(changes, high, p.path, p.line);
      assert AgreeOn(changes, high, p.path);
    }
  }

  lemma ReaderBound(changes: seq<Change>, high: bool)
    requires ValidChanges(changes) && PlainDiff(changes, high)
    ensures |Pairs(Changed(Printed(changes, high)))| <= AllProper(changes)
  {
    var rows := Chomped(DiffLines(changes, high));
    SplitUnlines(DiffLines(changes, high));
    RowsClean(changes, high);
    ReadBound(rows);
    var r := ReadRows(NOTHING, rows);
    PatchBound(r.files, r.current, r.patch);
    DiffPluses(changes, high);
    PlusesOf(DiffLines(changes, high), AllProper(changes));
  }

  /** Where the two programs agree, no added line starts with two plus signs. */
  lemma AgreementCountsAll(changes: seq<Change>, high: bool)
    requires ValidChanges(changes) && Conventional(changes, high) && PlainDiff(changes, high) && AgreeEverywhere(changes, high)
    ensures forall c | c in changes :: NoPlusPlus(c.hunks)
  {
    ReaderHasAll(changes, high);
    Recency.SubsetSize(NewPairs(changes, high, END), Pairs(Changed(Printed(changes, high))));
    NewPairsSize(changes, high, END);
    LowAllEnd(changes);
    ReaderBound(changes, high);
    AllProperBound(changes);
  }

  lemma PlusPlusNamesFiles(line: string)
    ensures "++ b/" <= line ==> "++" <= line
  {
    if "++ b/" <= line {
      assert "++ b/"[..2] == "++" && line[..5] == "++ b/" && line[..5][..2] == line[..2];
    }
  }

  lemma NoPlusPlusNamesNone(hunks: seq<Hunk>)
    requires NoPlusPlus(hunks)
    ensures NamesNoFiles(hunks)
  {
    forall h, l | h in hunks && l in h.added ensures !("++ b/" <= l) {
      PlusPlusNamesFiles(l);
    }
  }
}
