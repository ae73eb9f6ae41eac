/** The scanner's parser and the action's reader on a printed diff: which lines each gives to which path, and which
    paths the reader credits with the right files. */
module DiffParsersAgree {
  import opened Options
  import opened Text
  import opened DiffParse
  import opened GitDiff
  import opened Utf8
  import opened DiffQuoting
  import opened DiffPy
  import opened DiffPyRows
  import opened DiffPyHunks
  import opened DiffReading
  import opened DiffAgreement
  import Trip = DiffRoundTrip

  predicate AddsLines(c: Change) {
    exists h :: h in c.hunks && h.added != []
  }

  /** What git prints: hunks in order; a file that gains lines exists, and appears once under the path the parser
      sees. */
  predicate Conventional(changes: seq<Change>, high: bool) {
    && Relative(changes)
    && (forall c | c in changes :: Ordered(c.hunks))
    && (forall c | c in changes && AddsLines(c) :: c.newPath.Some? && c.newPath.value != "")
    && (forall i, j | 0 <= i < j < |changes| && AddsLines(changes[i]) && AddsLines(changes[j]) ::
          SeenPath(changes[i].newPath, high) != SeenPath(changes[j].newPath, high))
  }

  /** Both programs read the path the same way: it is not quoted, no tab is printed after it, and it does not end in
      white space. */
  predicate ReadsPath(path: Option<string>, high: bool) {
    path.Some? && !NeedsQuote(path.value, high) && ' ' !in path.value && SpaceAtEnd(path.value) == 0
  }

  predicate EveryHunkReadsWell(changes: seq<Change>) {
    forall c, h | c in changes && h in c.hunks :: ReadsWell(h)
  }

  /** The reader's lines of a path are the parser's. */
  predicate AgreeOn(changes: seq<Change>, high: bool, path: string) {
    LinesOf(Changed(Printed(changes, high)), path) == ParsedLines(Parsed(Printed(changes, high)), path)
  }

  // ---------------------------------------------------------------- one change

  lemma GivesLines(c: Change, k: nat)
    requires k in CountedInAll(c.hunks) || k in NewLinesOf(c.hunks)
    ensures AddsLines(c)
  {
    CountedInSome(c.hunks, k);
    if k in CountedInAll(c.hunks) {
      var i :| 0 <= i < |c.hunks| && k in CountedIn(c.hunks[i]);
      CountedFrom(c.hunks[i], k);
      assert c.hunks[i] in c.hunks;
    } else {
      var i :| 0 <= i < |c.hunks| && k in NewLines(c.hunks[i]);
      assert c.hunks[i] in c.hunks;
    }
  }

  lemma SomeNewLine(c: Change) returns (k: nat)
    requires AddsLines(c)
    ensures k in NewLinesOf(c.hunks)
  {
    var h :| h in c.hunks && h.added != [];
    var i :| 0 <= i < |c.hunks| && c.hunks[i] == h;
    k := h.newStart;
    CountedInSome(c.hunks, k);
    assert k in NewLines(c.hunks[i]);
  }

  // ---------------------------------------------------------------- all changes

  ghost predicate ReaderHas(changes: seq<Change>, high: bool, path: string, k: nat) {
    Creditable(path) && exists i :: ReaderGets(changes, high, path, k, i)
  }

  ghost predicate ParserHas(changes: seq<Change>, high: bool, path: string, k: nat) {
    exists i :: ParserGets(changes, high, path, k, i)
  }

  ghost predicate SameLines(changes: seq<Change>, high: bool, path: string) {
    forall k: nat :: ReaderHas(changes, high, path, k) <==> ParserHas(changes, high, path, k)
  }

  ghost predicate Agree(changes: seq<Change>, high: bool) {
    forall path :: SameLines(changes, high, path)
  }

  /** The two programs give every path the same lines. */
  ghost predicate AgreeEverywhere(changes: seq<Change>, high: bool) {
    forall path :: AgreeOn(changes, high, path)
  }

  lemma ReaderLineMeans(changes: seq<Change>, high: bool, path: string, k: nat)
    requires Readable(changes, high) && PlainDiff(changes, high)
    ensures k in LinesOf(Changed(Printed(changes, high)), path) <==> ReaderHas(changes, high, path, k)
  {
    SplitUnlines(DiffLines(changes, high));
    RowsClean(changes, high);
    ReaderGetsExactly(changes, high, path, k);
  }

  lemma ParserLineMeans(changes: seq<Change>, high: bool, path: string, k: nat)
    requires ValidChanges(changes)
    ensures k in ParsedLines(Parsed(Printed(changes, high)), path) <==> ParserHas(changes, high, path, k)
  {
    Trip.PrintedParses(changes, high);
    ParserGetsExactly(changes, high, path, k);
  }

  lemma AgreeOnMeans(changes: seq<Change>, high: bool, path: string)
    requires Readable(changes, high) && PlainDiff(changes, high)
    ensures AgreeOn(changes, high, path) <==> SameLines(changes, high, path)
  {
    forall k: nat
      ensures k in LinesOf(Changed(Printed(changes, high)), path) <==> ReaderHas(changes, high, path, k)
      ensures k in ParsedLines(Parsed(Printed(changes, high)), path) <==> ParserHas(changes, high, path, k)
    {
      ReaderLineMeans(changes, high, path, k);
      ParserLineMeans(changes, high, path, k);
    }
  }

  lemma AgreeMeans(changes: seq<Change>, high: bool)
    requires Readable(changes, high) && PlainDiff(changes, high)
    ensures AgreeEverywhere(changes, high) <==> Agree(changes, high)
  {
    forall path ensures AgreeOn(changes, high, path) <==> SameLines(changes, high, path) {
      AgreeOnMeans(changes, high, path);
    }
  }

  // ---------------------------------------------------------------- credits

  /** Change `i` is credited to `path` and has its new line `k`. */
  predicate CreditGets(changes: seq<Change>, high: bool, path: string, k: nat, i: nat) {
    i < |changes| && CreditedAt(changes, high, i) == path && k in NewLinesOf(changes[i].hunks)
  }

  ghost predicate CreditHas(changes: seq<Change>, high: bool, path: string, k: nat) {
    Creditable(path) && exists i :: CreditGets(changes, high, path, k, i)
  }

  /** The files credited to a path have together exactly the new lines of the file with that path. */
  ghost predicate CreditsMatch(changes: seq<Change>, high: bool) {
    forall path, k: nat :: CreditHas(changes, high, path, k) <==> ParserHas(changes, high, path, k)
  }

  /** Where every hunk reads well, only the credits matter. */
  lemma WellReadAgree(changes: seq<Change>, high: bool)
    requires EveryHunkReadsWell(changes)
    ensures Agree(changes, high) <==> CreditsMatch(changes, high)
  {
    forall path, k: nat ensures ReaderHas(changes, high, path, k) <==> CreditHas(changes, high, path, k) {
      forall i: nat ensures ReaderGets(changes, high, path, k, i) <==> CreditGets(changes, high, path, k, i) {
        if i < |changes| {
          assert changes[i] in changes;
          HunksReadWell(changes[i].hunks);
        }
      }
    }
    CreditsAre(changes, high);
  }

  lemma CreditsAre(changes: seq<Change>, high: bool)
    requires forall path, k: nat :: ReaderHas(changes, high, path, k) <==> CreditHas(changes, high, path, k)
    ensures Agree(changes, high) <==> CreditsMatch(changes, high)
  {
    if CreditsMatch(changes, high) {
      forall path ensures SameLines(changes, high, path) {
        forall k: nat ensures ReaderHas(changes, high, path, k) <==> ParserHas(changes, high, path, k) {
          assert CreditHas(changes, high, path, k) <==> ParserHas(changes, high, path, k);
        }
      }
    }
    if Agree(changes, high) {
      forall path, k: nat ensures CreditHas(changes, high, path, k) <==> ParserHas(changes, high, path, k) {
        assert SameLines(changes, high, path);
        assert ReaderHas(changes, high, path, k) <==> ParserHas(changes, high, path, k);
      }
    }
  }

  // ---------------------------------------------------------------- credits file by file

  /** No file that gains lines has a quoted path that the parser sees end in a tab: the tab git prints after another
      path could make the two the same. */
  predicate NoTabs(changes: seq<Change>, high: bool) {
    forall c | c in changes && AddsLines(c) && c.newPath.Some? && NeedsQuote(c.newPath.value, high) ::
      !EndsInTab(Lossy(c.newPath.value))
  }

  predicate EndsInTab(s: string) {
    s != "" && s[|s| - 1] == '\t'
  }

  lemma {:induction false} TrimmedTwice(s: string)
    ensures TrimEnd(TrimEnd(s)) == TrimEnd(s) && TrimEnd(s) <= s
    decreases |s|
  {
    var n := SpaceAtEnd(s);
    if n > 0 {
      TrimmedTwice(s[..|s| - n]);
    }
  }

  /** Decoding does not hide that a path needs quotes. */
  lemma DecodedNeedsQuote(s: string, high: bool)
    requires NeedsQuote(s, high)
    ensures NeedsQuote(Lossy(s), high)
  {
    var c :| c in s && NeedsEscape(c, high);
    DecodedEscape(s, c, high);
  }

  lemma {:induction false} DecodedEscape(s: string, c: char, high: bool)
    requires c in s && NeedsEscape(c, high)
    ensures exists d :: d in Lossy(s) && NeedsEscape(d, high)
    decreases |s|
  {
    var chunk := FirstChunk(s);
    var start, rest := s[..chunk.len], s[chunk.len..];
    assert s == start + rest;
    if c in start {
      ChunkBytes(s, c);
      var d := if chunk.Valid? then c else REPLACEMENT[0];
      assert d in (if chunk.Valid? then start else REPLACEMENT);
      assert d in Lossy(s);
    } else {
      DecodedEscape(rest, c, high);
      var d :| d in Lossy(rest) && NeedsEscape(d, high);
      assert d in Lossy(s);
    }
  }

  /** A broken chunk holds no ASCII byte. */
  lemma ChunkBytes(s: string, c: char)
    requires s != "" && c in s[..FirstChunk(s).len]
    ensures FirstChunk(s).Broken? ==> c as int >= 128
  {
  }

  lemma {:induction false} CreditedIsUnquoted(changes: seq<Change>, high: bool, i: nat)
    requires i < |changes| && CreditedAt(changes, high, i) != ""
    ensures var path := CreditedAt(changes, high, i);
            (!NeedsQuote(path, high) && ' ' !in path) || EndsInTab(path)
  {
    var c := changes[i];
    if c.hunks == [] || ReaderPath(c.newPath, high) == None {
      CreditedIsUnquoted(changes, high, i - 1);
    } else if ' ' in c.newPath.value {
      assert (c.newPath.value + "\t")[|c.newPath.value|] == '\t';
    }
  }

  lemma OwnCredit(changes: seq<Change>, high: bool, i: nat)
    requires Conventional(changes, high) && i < |changes| && AddsLines(changes[i]) && !NeedsQuote(changes[i].newPath.value, high)
    ensures var path := changes[i].newPath.value;
            && CreditedAt(changes, high, i) == (if ' ' in path then path + "\t" else path)
            && SeenPath(changes[i].newPath, high) == Some(TrimEnd(path))
            && Creditable(CreditedAt(changes, high, i))
  {
    assert changes[i] in changes;
    var path := changes[i].newPath.value;
    assert (path + "\t")[|path|] == '\t' && NO_FILE[|NO_FILE| - 1] == 'l';
  }

  lemma UnquotedEnd(path: string, high: bool)
    requires !NeedsQuote(path, high)
    ensures !NeedsQuote(TrimEnd(path), high) && !EndsInTab(TrimEnd(path))
  {
    TrimmedTwice(path);
    assert NeedsEscape('\t', high);
    assert forall c | c in TrimEnd(path) :: c in path;
  }

  /** What a file that gains lines is seen as is free of quotes and of a tab at its end, or needs quotes. */
  lemma SeenEnds(changes: seq<Change>, high: bool, i: nat)
    requires Conventional(changes, high) && NoTabs(changes, high) && i < |changes| && AddsLines(changes[i])
    ensures var path := SeenPath(changes[i].newPath, high);
            path.Some? && !EndsInTab(path.value) && (NeedsQuote(path.value, high) <==> NeedsQuote(changes[i].newPath.value, high))
  {
    assert changes[i] in changes;
    if NeedsQuote(changes[i].newPath.value, high) {
      DecodedNeedsQuote(changes[i].newPath.value, high);
    } else {
      UnquotedEnd(changes[i].newPath.value, high);
    }
  }

  lemma MatchingReadsPath(changes: seq<Change>, high: bool, i: nat)
    requires Conventional(changes, high) && NoTabs(changes, high) && CreditsMatch(changes, high)
    requires i < |changes| && AddsLines(changes[i])
    ensures ReadsPath(changes[i].newPath, high)
  {
    assert changes[i] in changes;
    var k := SomeNewLine(changes[i]);
    SeenEnds(changes, high, i);
    if NeedsQuote(changes[i].newPath.value, high) {
      var path := SeenPath(changes[i].newPath, high).value;
      assert ParserGets(changes, high, path, k, i);
      assert CreditHas(changes, high, path, k);
      var d: nat :| CreditGets(changes, high, path, k, d);
      CreditedIsUnquoted(changes, high, d);
    } else {
      CreditIsSeen(changes, high, i, k);
    }
  }

  lemma CreditIsSeen(changes: seq<Change>, high: bool, i: nat, k: nat)
    requires Conventional(changes, high) && NoTabs(changes, high) && CreditsMatch(changes, high)
    requires i < |changes| && AddsLines(changes[i]) && !NeedsQuote(changes[i].newPath.value, high)
    requires k in NewLinesOf(changes[i].hunks)
    ensures ' ' !in changes[i].newPath.value && SpaceAtEnd(changes[i].newPath.value) == 0
  {
    var path, credit := changes[i].newPath.value, CreditedAt(changes, high, i);
    OwnCredit(changes, high, i);
    assert CreditGets(changes, high, credit, k, i);
    assert CreditHas(changes, high, credit, k) && ParserHas(changes, high, credit, k);
    var j: nat :| ParserGets(changes, high, credit, k, j);
    GivesLines(changes[j], k);
    SeenEnds(changes, high, j);
    if ' ' !in path {
      assert changes[j] in changes;
      OwnCredit(changes, high, j);
      TrimmedTwice(changes[j].newPath.value);
      TrimEndKeepsSide(path);
    }
  }

  /** Without such tabs, the credits match exactly when both programs read the path of every file that gains lines. */
  lemma CreditsFileByFile(changes: seq<Change>, high: bool)
    requires Conventional(changes, high) && NoTabs(changes, high)
    ensures CreditsMatch(changes, high) <==> forall c | c in changes && AddsLines(c) :: ReadsPath(c.newPath, high)
  {
    if CreditsMatch(changes, high) {
      forall c | c in changes && AddsLines(c) ensures ReadsPath(c.newPath, high) {
        var i :| 0 <= i < |changes| && changes[i] == c;
        MatchingReadsPath(changes, high, i);
      }
    }
    if forall c | c in changes && AddsLines(c) :: ReadsPath(c.newPath, high) {
      forall path, k: nat ensures CreditHas(changes, high, path, k) <==> ParserHas(changes, high, path, k) {
        forall i: nat ensures CreditGets(changes, high, path, k, i) <==> ParserGets(changes, high, path, k, i) {
          SameCredit(changes, high, path, k, i);
        }
        if i: nat :| CreditGets(changes, high, path, k, i) {
          GivesLines(changes[i], k);
          assert changes[i] in changes;
          OwnCredit(changes, high, i);
        }
      }
    }
  }

  lemma SameCredit(changes: seq<Change>, high: bool, path: string, k: nat, i: nat)
    requires Conventional(changes, high)
    requires forall c | c in changes && AddsLines(c) :: ReadsPath(c.newPath, high)
    ensures CreditGets(changes, high, path, k, i) <==> ParserGets(changes, high, path, k, i)
  {
    if i < |changes| && k in NewLinesOf(changes[i].hunks) {
      GivesLines(changes[i], k);
      assert changes[i] in changes;
      OwnCredit(changes, high, i);
    }
  }
}
