/** The baseline store on disk and the map of branches it stands for. `ViewOf` reads the one as the other; a
    commit is `Replace` on the map, whatever layout the files are in. */
module Baselines {
  import opened Options
  import opened Findings
  import opened Tallies
  import opened Aging
  import opened Recency

  /** Cap on the branches kept. */
  const MAX_BRANCHES: nat := 12

  type Branch = Name

  datatype BranchEntry = BranchEntry(updated: nat, inline: Option<BranchData>)

  type Index = map<Branch, BranchEntry>
  type Files = map<Branch, BranchData>

  /** What is on disk: `baselines.json`, `last-scan.json`, and the files under `baselines/`. */
  datatype Disk = Disk(index: Option<Index>, legacy: Option<Index>, files: Files)

  function LoadIndex(disk: Disk): Index {
    match disk.index
    case Some(index) => index
    case None => match disk.legacy { case Some(legacy) => legacy case None => map[] }
  }

  function LoadFile(files: Files, branch: Branch): BranchData {
    if branch in files then files[branch] else NO_DATA
  }

  function LoadEntry(files: Files, branch: Branch, entry: BranchEntry): BranchData {
    match entry.inline
    case Some(inline) => inline
    case None => LoadFile(files, branch)
  }

  function LoadBranch(disk: Disk, index: Index, branch: Branch): Option<BranchData> {
    if branch in index then Some(LoadEntry(disk.files, branch, index[branch])) else None
  }

  function OrNoData(data: Option<BranchData>): BranchData {
    match data case Some(d) => d case None => NO_DATA
  }

  // ---------------------------------------------------------------- the abstract store

  datatype Baseline = Baseline(updated: nat, data: BranchData)

  type View = map<Branch, Baseline>

  /** The store as its readers see it. */
  function ViewOf(disk: Disk): View {
    var index := LoadIndex(disk);
    map b | b in index :: Baseline(index[b].updated, LoadEntry(disk.files, b, index[b]))
  }

  function ViewStamps(view: View): Stamps {
    map b | b in view :: view[b].updated
  }

  function IndexStamps(index: Index): Stamps {
    map b | b in index :: index[b].updated
  }

  ghost function Prune(view: View): View {
    view - Stale(ViewStamps(view), MAX_BRANCHES)
  }

  /** Replace one branch, then prune. */
  ghost function Replace(view: View, branch: Branch, data: BranchData, now: nat): View {
    Prune(view[branch := Baseline(now, data)])
  }

  function DataIn(view: View, branch: Branch): BranchData {
    if branch in view then view[branch].data else NO_DATA
  }

  // ---------------------------------------------------------------- what is read from which file

  /** The data `files` and `index` hold for a branch: inline when it is there, else in the branch's file, else none. */
  predicate Holds(index: Index, files: Files, branch: Branch, data: BranchData) {
    && branch in index
    && (index[branch].inline.Some? ==> data == index[branch].inline.value)
    && (index[branch].inline.None? && branch in files ==> data == files[branch])
    && (index[branch].inline.None? && branch !in files ==> data.prints == map[] && data.history == map[])
  }

  /** With an index file the store is what it lists, whatever an earlier release left behind; without one it is what
      the file of the earlier release lists, and without either there is no branch. */
  lemma StoreReads(store: Store, branch: Branch)
    ensures var index := store.index;
            index.Some? ==>
              && store.BranchUpdated(branch) == (if branch in index.value then Some(index.value[branch].updated) else None)
              && store.BranchState(branch).1 == (branch in index.value)
              && (branch in index.value ==>
                    Holds(index.value, store.files, branch, BranchData(store.BranchState(branch).0, store.LoadResolvedHistory(branch))))
    ensures var legacy := store.legacy;
            store.index.None? && legacy.Some? ==>
              && store.BranchUpdated(branch) == (if branch in legacy.value then Some(legacy.value[branch].updated) else None)
              && store.BranchState(branch).1 == (branch in legacy.value)
              && (branch in legacy.value ==>
                    Holds(legacy.value, store.files, branch, BranchData(store.BranchState(branch).0, store.LoadResolvedHistory(branch))))
    ensures (if store.index.Some? then branch !in store.index.value else store.legacy.None? || branch !in store.legacy.value) ==>
              store.BranchUpdated(branch) == None && store.BranchState(branch) == (map[], false) && store.LoadResolvedHistory(branch) == map[]
  {
  }

  /** The first commit over the file of an earlier release moves it over: every other branch the new index lists was
      in that file, with the stamp and the data it has now, and only branches with twelve newer ones are gone. */
  lemma LegacySurvives(before: Disk, after: Disk, branch: Branch, data: BranchData, now: nat, b: Branch, kept: BranchData)
    requires before.index.None? && before.legacy.Some? && after.index.Some? && after.legacy.None? && b != branch
    requires ViewOf(after) == Replace(ViewOf(before), branch, data, now)
    ensures b in after.index.value ==> b in before.legacy.value && after.index.value[b].updated == before.legacy.value[b].updated
    ensures b in after.index.value && Holds(before.legacy.value, before.files, b, kept) ==> Holds(after.index.value, after.files, b, kept)
    ensures b in before.legacy.value && b !in after.index.value ==>
              |NewerThan(ViewStamps(ViewOf(before)[branch := Baseline(now, data)]), b)| >= 12
  {
    var replaced := ViewOf(before)[branch := Baseline(now, data)];
    assert ViewOf(after).Keys == after.index.value.Keys;
    if b in after.index.value {
      assert ViewOf(after)[b] == ViewOf(before)[b];
    }
    if b in before.legacy.value && b !in after.index.value {
      assert b in replaced && b in Stale(ViewStamps(replaced), MAX_BRANCHES);
    }
  }

  // ---------------------------------------------------------------- pruning

  /** The branches of an index, oldest first. */
  method SortByRecency(stamps: Stamps) returns (byRecency: seq<Branch>)
    ensures Lists(stamps, byRecency)
  {
    byRecency := [];
    var todo := stamps.Keys;
    while todo != {}
      invariant todo <= stamps.Keys && Sorted(stamps, byRecency)
      invariant forall b | b in stamps :: b in byRecency <==> b !in todo
    {
      var b :| b in todo;
      InsertSorts(stamps, byRecency, b);
      byRecency := Insert(stamps, byRecency, b);
      todo := todo - {b};
    }
  }

  /** The branches updated after `b`, or at the same time and later in the byte order of names. */
  function UsedAfter(index: Index, b: Branch): set<Branch>
    requires b in index
  {
    set c | c in index && (index[c].updated > index[b].updated || (index[c].updated == index[b].updated && Before(b, c)))
  }

  lemma StaleMeans(index: Index)
    ensures forall b :: b in Stale(IndexStamps(index), MAX_BRANCHES) <==> b in index && |UsedAfter(index, b)| >= 12
  {
    forall b | b in index ensures NewerThan(IndexStamps(index), b) == UsedAfter(index, b) {
    }
  }

  lemma StaleListed(index: Index, stale: seq<Branch>)
    requires (set b | b in stale) == Stale(IndexStamps(index), MAX_BRANCHES)
    ensures forall b | b in index :: b in stale <==> |UsedAfter(index, b)| >= 12
  {
    StaleMeans(index);
    assert forall b :: b in stale <==> b in set x | x in stale;
  }

  /** Removes exactly the stale entries and lists them. */
  method PruneBranches(index: Index) returns (kept: Index, stale: seq<Branch>)
    ensures kept == index - Stale(IndexStamps(index), MAX_BRANCHES)
    ensures (set b | b in stale) == Stale(IndexStamps(index), MAX_BRANCHES)
    ensures forall b | b in index :: b in stale <==> |UsedAfter(index, b)| >= 12
  {
    var stamps := IndexStamps(index);
    assert stamps.Keys == index.Keys && |stamps| == |index|;
    var byRecency := SortByRecency(stamps);
    StaleIsPrefix(stamps, byRecency, MAX_BRANCHES);
    if |index| <= MAX_BRANCHES {
      StaleListed(index, []);
      return index, [];
    }
    stale := byRecency[..|index| - MAX_BRANCHES];
    StaleListed(index, stale);
    kept := RemoveEntries(index, stale);
  }

  method RemoveEntries(index: Index, stale: seq<Branch>) returns (kept: Index)
    ensures kept == index - set b | b in stale
  {
    kept := index;
    for i := 0 to |stale|
      invariant kept == index - set b | b in stale[..i]
    {
      assert stale[..i + 1] == stale[..i] + [stale[i]];
      kept := kept - {stale[i]};
    }
    assert stale[..|stale|] == stale;
  }

  /** The index a commit writes: legacy data moved out, the branch stamped, stale branches dropped. */
  ghost function NextIndex(index: Index, branch: Branch, now: nat): Index {
    var stamped := Stamped(index, branch, now);
    stamped - Stale(IndexStamps(stamped), MAX_BRANCHES)
  }

  function Stamped(index: Index, branch: Branch, now: nat): Index {
    (map b | b in index :: BranchEntry(index[b].updated, None))[branch := BranchEntry(now, None)]
  }

  ghost function StaleOnCommit(index: Index, branch: Branch, now: nat): set<Branch> {
    Stale(IndexStamps(Stamped(index, branch, now)), MAX_BRANCHES)
  }

  /** When the files hold the right data for every surviving branch, writing the index completes the commit. */
  lemma IndexCompletes(index: Index, view: View, branch: Branch, data: BranchData, now: nat, files: Files, legacy: Option<Index>)
    requires IndexStamps(index) == ViewStamps(view)
    requires HoldsSurvivors(files, index, view, branch, data, now)
    ensures ViewOf(Disk(Some(NextIndex(index, branch, now)), legacy, files)) == Replace(view, branch, data, now)
  {
    StampedLikeView(index, view, branch, data, now);
    var next, replaced := NextIndex(index, branch, now), Replace(view, branch, data, now);
    NextKeys(index, view, branch, data, now);
    forall b | b in next ensures Baseline(next[b].updated, LoadFile(files, b)) == replaced[b] {
      assert b == branch || b in view;
    }
  }

  lemma NextKeys(index: Index, view: View, branch: Branch, data: BranchData, now: nat)
    requires IndexStamps(index) == ViewStamps(view)
    ensures NextIndex(index, branch, now).Keys == Replace(view, branch, data, now).Keys
  {
    StampedLikeView(index, view, branch, data, now);
    assert IndexStamps(Stamped(index, branch, now)).Keys == Stamped(index, branch, now).Keys;
    assert ViewStamps(view[branch := Baseline(now, data)]).Keys == view[branch := Baseline(now, data)].Keys;
  }

  lemma StampedLikeView(index: Index, view: View, branch: Branch, data: BranchData, now: nat)
    requires IndexStamps(index) == ViewStamps(view)
    ensures IndexStamps(Stamped(index, branch, now)) == ViewStamps(view[branch := Baseline(now, data)])
    ensures index.Keys == view.Keys && forall b | b in index :: index[b].updated == view[b].updated
  {
    var stamps := IndexStamps(index);
    assert index.Keys == stamps.Keys == view.Keys;
    forall b | b in index ensures index[b].updated == view[b].updated {
      assert stamps[b] == ViewStamps(view)[b];
    }
    assert IndexStamps(Stamped(index, branch, now)) == stamps[branch := now];
    assert ViewStamps(view[branch := Baseline(now, data)]) == stamps[branch := now];
  }

  ghost predicate HoldsSurvivors(files: Files, index: Index, view: View, branch: Branch, data: BranchData, now: nat) {
    forall b | b in NextIndex(index, branch, now) && (b == branch || b in view) ::
      LoadFile(files, b) == if b == branch then data else view[b].data
  }

  // ---------------------------------------------------------------- the store

  /** Every listed branch but those to do has its data in a file of its own, and the other files are as before. */
  ghost predicate MovedBut(before: Files, files: Files, loaded: Index, todo: set<Branch>) {
    && (forall b | b in loaded && b !in todo :: LoadFile(files, b) == LoadEntry(before, b, loaded[b]))
    && (forall b | b !in loaded || b in todo :: (b in files <==> b in before) && LoadFile(files, b) == LoadFile(before, b))
  }

  lemma MovedNext(before: Files, mid: Files, after: Files, loaded: Index, todo: set<Branch>, b: Branch)
    requires MovedBut(before, mid, loaded, todo) && b in todo && b in loaded
    requires LoadFile(after, b) == LoadEntry(mid, b, loaded[b])
    requires forall c | c != b :: (c in after <==> c in mid) && LoadFile(after, c) == LoadFile(mid, c)
    ensures MovedBut(before, after, loaded, todo - {b})
  {
  }

  class Store {
    var index: Option<Index>
    var legacy: Option<Index>
    var files: Files

    constructor (disk: Disk)
      ensures Contents() == disk
    {
      index, legacy, files := disk.index, disk.legacy, disk.files;
    }

    function Contents(): Disk
      reads this
    {
      Disk(index, legacy, files)
    }

    function View(): View
      reads this
    {
      ViewOf(Contents())
    }

    /** The stamp the abstract store holds for a branch. */
    function BranchUpdated(branch: Branch): (r: Option<nat>)
      reads this
      ensures r == if branch in View() then Some(View()[branch].updated) else None
    {
      var loaded := LoadIndex(Contents());
      if branch in loaded then Some(loaded[branch].updated) else None
    }

    /** The prints the abstract store holds for a branch, and whether it holds the branch. */
    function BranchState(branch: Branch): (r: (Aged, bool))
      reads this
      ensures r == (DataIn(View(), branch).prints, branch in View())
    {
      match LoadBranch(Contents(), LoadIndex(Contents()), branch)
      case Some(data) => (data.prints, true)
      case None => (map[], false)
    }

    function LoadResolvedHistory(branch: Branch): (r: History)
      reads this
      ensures r == DataIn(View(), branch).history
    {
      OrNoData(LoadBranch(Contents(), LoadIndex(Contents()), branch)).history
    }

    method WriteBranch(branch: Branch, data: BranchData)
      modifies this`files
      ensures files == old(files)[branch := data]
    {
      files := files[branch := data];
    }

    /** On the abstract store this is `Replace`: the branch gets the data and the stamp, then stale ones go. Files of
        stale branches are gone afterwards, and files of branches the index never knew stay. */
    method Commit(loaded: Index, branch: Branch, data: BranchData, now: nat, previous: Option<BranchData>)
      requires loaded == LoadIndex(Contents()) && previous == LoadBranch(Contents(), loaded, branch)
      modifies this
      ensures View() == Replace(old(View()), branch, data, now)
      ensures index == Some(NextIndex(loaded, branch, now)) && legacy == None
      ensures old(index).None? && old(legacy).Some? ==> forall b, kept | b in index.value && b != branch ::
                Holds(old(legacy).value, old(files), b, kept) ==> Holds(index.value, files, b, kept)
      ensures forall b | b in StaleOnCommit(loaded, branch, now) :: b !in files
      ensures forall b | b !in loaded && b != branch && b !in StaleOnCommit(loaded, branch, now) ::
                (b in files <==> b in old(files)) && LoadFile(files, b) == LoadFile(old(files), b)
    {
      ghost var view := View();
      var next := WriteFiles(loaded, branch, data, now, previous);
      index := Some(next);
      assert IndexStamps(loaded) == ViewStamps(view);
      IndexCompletes(loaded, view, branch, data, now, files, legacy);
      legacy := None;
      if old(index).None? && old(legacy).Some? {
        forall b, kept | b in index.value && b != branch
          ensures Holds(old(legacy).value, old(files), b, kept) ==> Holds(index.value, files, b, kept)
        {
          LegacySurvives(old(Contents()), Contents(), branch, data, now, b, kept);
        }
      }
    }

    /** Everything a commit does before it writes the index. */
    method WriteFiles(loaded: Index, branch: Branch, data: BranchData, now: nat, previous: Option<BranchData>) returns (next: Index)
      requires loaded == LoadIndex(Contents()) && previous == LoadBranch(Contents(), loaded, branch)
      modifies this`files
      ensures next == NextIndex(loaded, branch, now)
      ensures HoldsSurvivors(files, loaded, old(View()), branch, data, now)
      ensures forall b | b in StaleOnCommit(loaded, branch, now) :: b !in files
      ensures forall b | b !in loaded && b != branch && b !in StaleOnCommit(loaded, branch, now) ::
                (b in files <==> b in old(files)) && LoadFile(files, b) == LoadFile(old(files), b)
    {
      next := MoveInlineOut(loaded);
      WriteIfChanged(branch, data, previous);
      next := DropStale(next[branch := BranchEntry(now, None)]);
    }

    /** Afterwards the file holds the data, written or not. */
    method WriteIfChanged(branch: Branch, data: BranchData, previous: Option<BranchData>)
      requires previous == Some(data) && branch in files ==> files[branch] == data
      modifies this`files
      ensures files == old(files)[branch := data]
    {
      if previous != Some(data) || branch !in files {
        WriteBranch(branch, data);
      }
    }

    /** Prune the index, and remove the files of the branches it loses. */
    method DropStale(stamped: Index) returns (kept: Index)
      modifies this`files
      ensures kept == stamped - Stale(IndexStamps(stamped), MAX_BRANCHES)
      ensures files == old(files) - Stale(IndexStamps(stamped), MAX_BRANCHES)
    {
      var stale;
      kept, stale := PruneBranches(stamped);
      RemoveFiles(stale);
    }

    /** Give every branch whose data is still inline a file of its own. */
    method MoveInlineOut(loaded: Index) returns (next: Index)
      modifies this`files
      ensures next == map b | b in loaded :: BranchEntry(loaded[b].updated, None)
      ensures forall b | b in loaded :: LoadFile(files, b) == LoadEntry(old(files), b, loaded[b])
      ensures forall b | b !in loaded :: (b in files <==> b in old(files)) && LoadFile(files, b) == LoadFile(old(files), b)
    {
      next := loaded;
      var todo := loaded.Keys;
      while todo != {}
        invariant todo <= loaded.Keys
        invariant next.Keys == loaded.Keys
        invariant forall b | b in loaded :: next[b] == if b in todo then loaded[b] else BranchEntry(loaded[b].updated, None)
        invariant MovedBut(old(files), files, loaded, todo)
      {
        var b :| b in todo;
        ghost var before := files;
        MoveOneOut(b, loaded[b]);
        MovedNext(old(files), before, files, loaded, todo, b);
        next, todo := next[b := BranchEntry(loaded[b].updated, None)], todo - {b};
      }
    }

    method MoveOneOut(b: Branch, entry: BranchEntry)
      modifies this`files
      ensures LoadFile(files, b) == LoadEntry(old(files), b, entry)
      ensures forall c | c != b :: (c in files <==> c in old(files)) && LoadFile(files, c) == LoadFile(old(files), c)
    {
      if entry.inline.Some? {
        WriteBranch(b, entry.inline.value);
      }
    }

    method RemoveFiles(stale: seq<Branch>)
      modifies this`files
      ensures files == old(files) - set b | b in stale
    {
      for i := 0 to |stale|
        invariant files == old(files) - set b | b in stale[..i]
      {
        assert stale[..i + 1] == stale[..i] + [stale[i]];
        files := files - {stale[i]};
      }
      assert stale[..|stale|] == stale;
    }

    /** A scan's locked read-age-write. */
    method UpdateFingerprints(branch: Branch, current: Prints, now: nat, ignore: set<Key>)
      returns (resolved: TallyMap, reintroduced: TallyMap)
      modifies this
      ensures var scan := Scan(current, now, ignore);
              var data := DataIn(old(View()), branch);
              && View() == Replace(old(View()), branch, AfterScan(data, scan), now)
              && resolved == Tally(AgeData(data, scan).resolved)
              && reintroduced == Tally(AgeData(data, scan).reintroduced)
      ensures index.Some? && legacy == None
    {
      var loaded := LoadIndex(Contents());
      var previous := LoadBranch(Contents(), loaded, branch);
      var data := OrNoData(previous);
      var aging := AgeScan(data.prints, current, data.history, now, ignore);
      resolved, reintroduced := aging.resolved, aging.reintroduced;
      Commit(loaded, branch, BranchData(aging.aged, aging.history), now, previous);
    }

    /** Compare and set on the stamp: either the whole replacement or no change at all. */
    method SaveIfCurrent(branch: Branch, data: BranchData, now: nat, expected: nat) returns (saved: bool)
      modifies this
      ensures saved <==> branch in old(View()) && old(View())[branch].updated == expected
      ensures View() == if saved then Replace(old(View()), branch, data, now) else old(View())
      ensures !saved ==> Contents() == old(Contents())
    {
      var loaded := LoadIndex(Contents());
      if branch !in loaded || loaded[branch].updated != expected {
        return false;
      }
      var previous := LoadBranch(Contents(), loaded, branch);
      Commit(loaded, branch, data, now, previous);
      saved := true;
    }
  }
}
