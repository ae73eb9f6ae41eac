/** Exactly when the scanner's parser and the action's reader agree on a printed diff. */
module DiffCredits {
  import opened Text
  import opened GitDiff
  import opened DiffQuoting
  import opened DiffPyHunks
  import opened DiffReading
  import opened DiffAgreement
  import opened DiffParsersAgree
  import opened DiffCounting
  import Recency

  // ---------------------------------------------------------------- how many low lines the reader has

  /** All that the reader has below `t`. */
  ghost function ReadPairs(changes: seq<Change>, high: bool, t: nat): set<Pair> {
    if changes == [] then {}
    else
      var n := |changes| - 1;
      ReadPairs(changes[..n], high, t) + PairsAt(CreditedAt(changes, high, n), Below(CountedInAll(changes[n].hunks), t))
  }

  lemma {:induction false} ReadPairsHold(changes: seq<Change>, high: bool, t: nat, path: string, k: nat, i: nat)
    requires ReaderGets(changes, high, path, k, i) && k < t
    ensures Pair(path, k) in ReadPairs(changes, high, t)
  {
    var n := |changes| - 1;
    if i < n {
      assert changes == changes[..n] + [changes[n]];
      CreditedBefore(changes[..n], changes[n], high, i);
      ReadPairsHold(changes[..n], high, t, path, k, i);
    } else {
      assert Pair(path, k) in PairsAt(CreditedAt(changes, high, n), Below(CountedInAll(changes[n].hunks), t));
    }
  }

  /** At most the lines of the hunks where the reader counts them. */
  function LowRead(hunks: seq<Hunk>, t: nat): nat {
    if hunks == [] then 0
    else
      var h := hunks[|hunks| - 1];
      LowRead(hunks[..|hunks| - 1], t) + Low(h.newStart + Shift(h), |h.added|, t)
  }

  function LowReadAll(changes: seq<Change>, t: nat): nat {
    if changes == [] then 0 else LowReadAll(changes[..|changes| - 1], t) + LowRead(changes[|changes| - 1].hunks, t)
  }

  lemma HunkBound(h: Hunk, t: nat)
    ensures |Below(CountedIn(h), t)| <= Low(h.newStart + Shift(h), |h.added|, t)
  {
    var all := Numbers(h.newStart + Shift(h), |h.added|);
    forall k | k in Below(CountedIn(h), t) ensures k in Below(all, t) {
      CountedAt(h.added, h.newStart + Shift(h), k);
    }
    LowSize(h.newStart + Shift(h), |h.added|, t);
    Recency.SubsetSize(Below(CountedIn(h), t), Below(all, t));
  }

  lemma {:induction false} HunksBound(hunks: seq<Hunk>, t: nat)
    ensures |Below(CountedInAll(hunks), t)| <= LowRead(hunks, t)
  {
    if hunks != [] {
      var before, h := hunks[..|hunks| - 1], hunks[|hunks| - 1];
      HunksBound(before, t);
      HunkBound(h, t);
      assert Below(CountedInAll(hunks), t) == Below(CountedInAll(before), t) + Below(CountedIn(h), t);
    }
  }

  lemma {:induction false} ReadPairsBound(changes: seq<Change>, high: bool, t: nat)
    ensures |ReadPairs(changes, high, t)| <= LowReadAll(changes, t)
  {
    if changes != [] {
      var n := |changes| - 1;
      ReadPairsBound(changes[..n], high, t);
      HunksBound(changes[n].hunks, t);
      PairsAtSize(CreditedAt(changes, high, n), Below(CountedInAll(changes[n].hunks), t));
    }
  }

  lemma {:induction false} ShiftLoses(hunks: seq<Hunk>, t: nat)
    ensures LowRead(hunks, t) <= LowTo(hunks, t)
    ensures forall h | h in hunks && Low(h.newStart + Shift(h), |h.added|, t) < Low(h.newStart, |h.added|, t) ::
              LowRead(hunks, t) < LowTo(hunks, t)
  {
    if hunks != [] {
      ShiftLoses(hunks[..|hunks| - 1], t);
      assert hunks == hunks[..|hunks| - 1] + [hunks[|hunks| - 1]];
    }
  }

  lemma {:induction false} ShiftLosesAny(changes: seq<Change>, t: nat)
    ensures LowReadAll(changes, t) <= LowAll(changes, t)
    ensures forall c | c in changes && LowRead(c.hunks, t) < LowTo(c.hunks, t) :: LowReadAll(changes, t) < LowAll(changes, t)
  {
    if changes != [] {
      ShiftLosesAny(changes[..|changes| - 1], t);
      ShiftLoses(changes[|changes| - 1].hunks, t);
      assert changes == changes[..|changes| - 1] + [changes[|changes| - 1]];
    }
  }

  lemma AgreeingBound(changes: seq<Change>, high: bool, t: nat)
    requires Conventional(changes, high) && Agree(changes, high)
    ensures LowAll(changes, t) <= LowReadAll(changes, t)
  {
    forall p | p in NewPairs(changes, high, t) ensures p in ReadPairs(changes, high, t) {
      NewPairsGiven(changes, high, t, p);
      assert SameLines(changes, high, p.path);
      assert ParserHas(changes, high, p.path, p.line) && ReaderHas(changes, high, p.path, p.line);
      var i: nat :| ReaderGets(changes, high, p.path, p.line, i);
      ReadPairsHold(changes, high, t, p.path, p.line, i);
    }
    Recency.SubsetSize(NewPairs(changes, high, t), ReadPairs(changes, high, t));
    NewPairsSize(changes, high, t);
    ReadPairsBound(changes, high, t);
  }

  /** Where the two programs agree, no hunk is counted too high, in whatever files the lines end up: the reader would
      have too few lines below the first line of such a hunk's second. */
  lemma AgreeingHunks(changes: seq<Change>, high: bool)
    requires Conventional(changes, high) && Agree(changes, high) && forall c | c in changes :: NoPlusPlus(c.hunks)
    ensures EveryHunkReadsWell(changes)
  {
    forall c, h | c in changes && h in c.hunks ensures ReadsWell(h) {
      if !ReadsWell(h) {
        var t := h.newStart + 1;
        AgreeingBound(changes, high, t);
        ShiftLoses(c.hunks, t);
        ShiftLosesAny(changes, t);
      }
    }
  }

  // ---------------------------------------------------------------- main results

  lemma WellReadNoPlusPlus(changes: seq<Change>)
    requires EveryHunkReadsWell(changes)
    ensures forall c | c in changes :: NoPlusPlus(c.hunks)
  {
    forall c, h, l | c in changes && h in c.hunks && l in h.added ensures !("++" <= l) {
      assert ReadsWell(h);
    }
  }

  lemma NamesNone(changes: seq<Change>)
    requires forall c | c in changes :: NoPlusPlus(c.hunks)
    ensures NoFileNamed(changes)
  {
    forall c | c in changes ensures NamesNoFiles(c.hunks) {
      NoPlusPlusNamesNone(c.hunks);
    }
  }

  /** The two programs agree on every path of a printed diff of plain lines if and only if every hunk reads well and
      the files credited to a path have together the new lines of the file with that path. */
  lemma ProgramsAgreeExactly(changes: seq<Change>, high: bool)
    requires ValidChanges(changes) && Conventional(changes, high) && PlainDiff(changes, high)
    ensures AgreeEverywhere(changes, high) <==> EveryHunkReadsWell(changes) && CreditsMatch(changes, high)
  {
    if AgreeEverywhere(changes, high) {
      AgreementCountsAll(changes, high);
      NamesNone(changes);
      AgreeMeans(changes, high);
      AgreeingHunks(changes, high);
      WellReadAgree(changes, high);
    } else if EveryHunkReadsWell(changes) {
      WellReadNoPlusPlus(changes);
      NamesNone(changes);
      AgreeMeans(changes, high);
      WellReadAgree(changes, high);
    }
  }

  /** File by file, unless a quoted path ends in a tab: they agree if and only if both read the path of every file that
      gains lines, and every hunk. */
  lemma ParsersAgreeExactly(changes: seq<Change>, high: bool)
    requires ValidChanges(changes) && Conventional(changes, high) && PlainDiff(changes, high) && NoTabs(changes, high)
    ensures AgreeEverywhere(changes, high) <==>
            EveryHunkReadsWell(changes) && forall c | c in changes && AddsLines(c) :: ReadsPath(c.newPath, high)
  {
    ProgramsAgreeExactly(changes, high);
    CreditsFileByFile(changes, high);
  }
}
