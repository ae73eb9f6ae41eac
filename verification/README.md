# Sensez: a verified model of its stateful core

Sensez scans code and reports findings. This project models the stateful code around the scan and proves what
it keeps. Everything is Dafny 4.11; `dafny verify dfyconfig.toml` checks it all.

* **The finding-lifecycle store** (`Findings`, `Tallies`, `Aging`, `Ledger`, `AgeFacts`, `LedgerRuns`, `Recency`,
  `Baselines`, `BranchRuns`). Each scan of a branch is compared with the branch's last baseline: vanished
  findings are banked as resolved, returning ones are counted as reintroduced. Baselines live in an index file
  and one file per branch, next to data in an older inline layout. The loops of `age` and the store's methods
  are methods and a class, proved against `Aging.Age` and against one abstract operation, "replace this
  branch, then prune"; `AgeFacts` and `Baselines.StoreReads` say what both mean on the scan's input and on the files.
* **Concurrent writers** (`Protocol`, `Serializability`, `ConcurrentLedger`, `RecaptureRuns`, `LoneRecapture`). Scans read, age and write under a
  lock; background recaptures read without it, in several steps, and write only if the branch still carries
  the stamp they started from. The model is a state machine over visible file operations of any number of
  threads and processes: a commit writes branch files, removes stale ones, writes the index and drops the
  legacy file in separate steps, and every read of a recapture can fall between them.
* **The language server's scan scheduler** (`Schedule`, `Scheduler`, `LspServer`). `LspServer.Scans` is the
  object whose methods handle notifications and completed scans; it follows the state machine `Scheduler`,
  about which the invariants are proved. Scans in flight may complete in any order with any outcome.
* **The stop-hook gate** (`Selection`, `GateReport`, `Gate`, `EdgeMemory`, `ScopeRuns`, `GateRuns`, `GateRepeats`). The state file with its
  expiring scopes and the recall, suppress, remember triage refine a rising-edge detector on each scope's own
  visits. Repeat suppression is an arbitrary filter on the report.
* **Unified diffs** (`Text`, `Utf8`, `Encoding`, `DiffFormats`, `DiffParse`, `GitDiff`, `DiffQuoting`, `DiffRoundTrip`, `DiffPy`,
  `DiffPyRows`, `DiffPyHunks`, `DiffPyExact`, `DiffReading`, `DiffAgreement`, `DiffParsersAgree`, `DiffCounting`,
  `DiffCredits`, `DiffDisagreements`). The scanner's parser and the action's reader, both as loops proved against functions, and
  a printer of git's layout for diffs without context lines (the "Diff -u or -U Output Format" of the
  POSIX.1-2017 `diff` utility, with git's C-style path quoting). Text is a sequence of UTF-8 bytes; `Utf8` is
  Rust's lossy decoding, with well-formedness as table 3-7 of the Unicode Standard defines it.
* **Caches** (`VectorCache`, `SystemCache`, `SemanticCache`, `Session`). The two embedding caches and the
  bounded set of parse states.

Assumptions, each a precondition where it is used: clock readings drawn by different operations differ; file
names are injective in branch names (files are keyed by branch); a finding key belongs to one pillar; a content
key determines its text; generations stay below 2^64 - 1. Nested workspaces may report the same files; only
`Scheduler.ClientShowsLastAccepted` asks that they do not.

Some properties one would expect are false of the code. For each there is an input and the exact condition:

* Parsing a printed diff loses a carriage return that ends a removed line, because `str::lines` strips it
  (`DiffRoundTrip.CarriageReturnIsLost`), white space that ends an unquoted path, because the path is trimmed
  (`DiffRoundTrip.SpaceIsLost`), and the bytes of a quoted path that are not UTF-8, because the path is decoded
  lossily (`DiffRoundTrip.BytesAreLost`). `DiffRoundTrip.RoundTripExactly`: the round trip succeeds if and only
  if none of the three happens.
* The action's reader does not count the new lines of every printed hunk. It splits text at form feeds, vertical
  tabs, lone carriage returns and Unicode separators as well, so a line can be several rows
  (`DiffPyExact.FormFeedMiscounts`), and it takes a changed line that starts with "++" or "--" for a file header
  (`DiffPyExact.PlusPlusMiscounts`). `DiffPyExact.HunkReadExactly`: cut the rows after the header at every row that
  is a header itself, each of which starts the count anew at its own line; the reader counts the new lines if and only
  if no piece adds a row whose distance from the piece's start, removed rows aside, leads outside the hunk, and each
  new line is reached by an added row of some piece. `DiffPyExact.OneHeaderReadExactly` is the case without inner
  headers, and `DiffPyHunks.PlainHunkReadExactly` says the same line by line when no line holds a boundary of its own;
  a carriage return before the line feed is not one.
* The two programs disagree on a path with a space, because the reader keeps the tab git prints after it
  (`DiffDisagreements.SpacePathDisagrees`), on a line that starts with "++"
  (`DiffDisagreements.PlusPlusDisagrees`), on white space that ends a path, and on a quoted path: the reader finds none
  there (`DiffReading.ReaderPathExactly`), and the file's lines go to the file before it
  (`DiffDisagreements.QuotedGoesToFileBefore`). `DiffCredits.ProgramsAgreeExactly`: on what git prints with plain lines
  they agree on every path if and only if every hunk reads well and the files credited to a path have together the new
  lines of the file with that path. A file's lines can be credited to another path and still be made up for
  (`DiffDisagreements.CreditsCanSwap`), but only if a quoted path ends in a tab; otherwise the condition is file by
  file (`DiffCredits.ParsersAgreeExactly`). With boundaries inside lines the errors of two hunks of one file can cancel
  out (`DiffDisagreements.ErrorsCancel`), so there the condition is no longer hunk by hunk.
* The client does not always show what the last scan of a workspace found. With nested workspaces, clearing a file for
  one hides what the other found there (`Scheduler.ClearingHides`). `Scheduler.LastWordIsShown` says what is shown.

A stale branch is one with twelve newer branches, equal stamps being ordered by name as the stable sort does.

## Model

| member | source | states |
|---|---|---|
| Aging.AgeScan | src/brainz/aging.rs:32-100 | The loops over pillars and prints compute the specified aging: carried entries, history, and tallies of exactly the charges for vanished and returned findings |
| Aging.CarryForward | src/brainz/aging.rs:51-73 | One pillar's walk charges the first print of each returning key once, takes its record out of the history and keeps first sightings |
| Aging.BankGone | src/brainz/aging.rs:74-91 | Vanished, not ignored findings are charged with their age and banked, in any order of the previous entries |
| AgeFacts.AgedEntries | src/brainz/aging.rs:51-72 | A scanned pillar carries exactly the reported findings, each with the title and detector of the last print of its key and its first sighting kept or started now |
| AgeFacts.HistoryRecords | src/brainz/aging.rs:43-91 | A reported finding has no record, a vanished one a record of its detector and of now, any other keeps its record for thirty days |
| AgeFacts.ResolvedByDetector | src/brainz/aging.rs:74-81 | Per detector: the number of vanished findings whose entry has it, and the sum of the times since their first sightings |
| AgeFacts.ReintroducedByDetector | src/brainz/aging.rs:53-62 | Per detector: the number of returned findings it printed first, and the sum of the times their fixes held |
| Tallies.TallyIsExact | src/brainz/aging.rs:58-90 | A per-detector tally map adds up to the number of charges and their seconds |
| Ledger.AgeMeaning | src/brainz/aging.rs:32-100 | Finding by finding: what is carried, what the history holds, how many are counted as resolved and as reintroduced |
| LedgerRuns.StepBalances | src/brainz/aging.rs:43-92 | Any scan conserves the ledger, and keys carried and keys in the history stay disjoint |
| LedgerRuns.LedgerBalances | src/brainz/aging.rs:43-92 | Over any run from empty: resolved = reintroduced + size of the history + expired records |
| LedgerRuns.TimeTelescopes | src/brainz/aging.rs:56-90 | For a finding never ignored and never expired, all seconds charged to it add up to last transition minus first sighting |
| Recency.PruneAsYouGo | src/brainz/store_baselines.rs:206-225 | Pruning after every write keeps the same names as ranking all names ever written once |
| Recency.TopSize | src/brainz/store_baselines.rs:206-225 | Pruning keeps exactly the cap, or everything when there is less |
| Recency.BeforeExactly | src/brainz/store_baselines.rs:210-215 | Branches with equal stamps are ordered by the bytes of their names |
| Baselines.PruneBranches | src/brainz/store_baselines.rs:206-225 | Sorting and dropping the oldest drops exactly the branches with twelve newer ones |
| Baselines.StoreReads | src/brainz/store_baselines.rs:53-98 | On the files themselves: the index file decides when it exists, else the file of an earlier release; a branch reads as its inline data, else as its own file, else as nothing |
| Baselines.LegacySurvives | src/brainz/store_baselines.rs:159-198 | After the first commit over the file of an earlier release every other branch that is left has the stamp and data it had there, and only branches with twelve newer ones are gone |
| Baselines.Store.BranchUpdated | src/brainz/store_baselines.rs:69-74 | Reads the stamp of the abstract store |
| Baselines.Store.BranchState | src/brainz/store_baselines.rs:85-90 | Reads the fingerprints of the abstract store and whether there is a baseline |
| Baselines.Store.LoadResolvedHistory | src/brainz/store_baselines.rs:94-98 | Reads the history of the abstract store |
| Baselines.Store.Commit | src/brainz/store_baselines.rs:159-198 | For any mix of inline, moved-out, orphan and missing files, and with skipped writes, a commit is "replace this branch, then prune"; files of dropped branches are removed, others kept |
| Baselines.Store.WriteIfChanged | src/brainz/store_baselines.rs:173-179 | Skipping the write of unchanged data leaves the same files as writing it |
| Baselines.Store.MoveInlineOut | src/brainz/store_baselines.rs:168-172 | Legacy inline data ends up in branch files without changing what any branch reads as |
| Baselines.Store.UpdateFingerprints | src/brainz/store_baselines.rs:138-156 | A scan replaces its branch by the aging of what the store held, and returns its tallies |
| Baselines.Store.SaveIfCurrent | src/brainz/store_baselines.rs:122-136 | Writes exactly when the branch still carries the expected stamp, and otherwise changes nothing |
| BranchRuns.SurvivorsAreMostRecent | src/brainz/store_baselines.rs:206-225 | After any run of writes the index holds exactly the twelve best stamps of all branches ever written |
| BranchRuns.StoreSize | src/brainz/store_baselines.rs:206-225 | The index holds min(12, branches ever written) branches |
| BranchRuns.SurvivesIff | src/brainz/store_baselines.rs:206-225 | A branch survives if and only if fewer than twelve other branches were written after it |
| BranchRuns.BranchesDoNotInterfere | src/brainz/store_baselines.rs:138-156 | A survivor's data is the fold of aging over its own scans since it was last absent |
| Serializability.ReadIsSerial | src/brainz/recapture.rs:57-89 | Each unlocked read of a branch whose stamp is current reads the serial store, even between two writes of another commit |
| Serializability.RecaptureIsCurrent | src/brainz/store_baselines.rs:122-136 | When the stamp matches under the lock, what the recapture aged is what the store holds |
| Serializability.IndexStep | src/brainz/store_baselines.rs:187-198 | The index write is where a commit takes effect; the invariant of all threads survives it |
| Serializability.NextHolds | src/brainz/recapture.rs:61-105 | Every step of every thread keeps the invariant tying disk, threads, baselines and clock readings to the serial store |
| Serializability.Serializable | src/brainz/recording.rs:38-60 | In every interleaving each committed write is the aging of the state committed just before it, and while no commit runs the files read as the committed writes in order |
| RecaptureRuns.CommitsAreOwn | src/brainz/recapture.rs:61-105 | In every interleaving each committed write is the scan its own thread started with, or holds exactly the report its own thread was handed at its rescan, after its start and before its lock, aged at its own reading |
| RecaptureRuns.BaselineIsOwn | src/brainz/recording.rs:51-60 | The baseline a scan leaves to its process has its own branch and reading |
| LoneRecapture.RecaptureAlone | src/brainz/recapture.rs:61-109 | A recapture nobody gets in the way of commits exactly the aging of its report and leaves the new stamp as its baseline when its stamp is current and there are findings; with another stamp it only renews its baseline, and otherwise it changes nothing |
| LoneRecapture.ReadsEnd | src/brainz/recapture.rs:61-83 | Every read brings a recapture on, whatever it finds |
| ConcurrentLedger.EveryInterleavingBalances | src/brainz/recapture.rs:61-117 | The ledger of a branch balances over the scans committed for it in any interleaving of any processes |
| LspServer.Scans.MarkDirty | src/lsp/schedule.rs:18-39 | Marking a workspace computes the specified new state and generation to scan |
| LspServer.Scans.TakePending | src/lsp/schedule.rs:42-54 | Takes the first waiting workspace in path order while there is capacity; takes none exactly when none may run |
| Schedule.LaunchExactly | src/lsp/schedule.rs:42-54 | A launch takes a waiting workspace while fewer than two run, and only marks it as running |
| LspServer.PathBeforeExactly | src/lsp/schedule.rs:42-54 | Path order compares component by component |
| LspServer.Scans.Queue | src/lsp/server.rs:70-77 | One change notification is one step of the machine, with the scan it spawns |
| LspServer.Scans.RootForPath | src/lsp/server.rs:100-106 | Finds the deepest workspace above a path, however far below it the path is, and none only when no workspace is above it |
| LspServer.Scans.RescanAffected | src/lsp/server.rs:87-98 | Queues, in path order, exactly the workspaces of the paths that can alter a scan |
| LspServer.Scans.LaunchPending | src/lsp/server.rs:108-114 | Launches until nothing that waits may run |
| LspServer.Scans.HandleNotification | src/lsp/server.rs:117-139 | Every notification is one turn of the machine, over exactly the affected workspaces |
| LspServer.Scans.ApplyResult | src/lsp/server.rs:166-203 | A stale result sends nothing; any other sends exactly its notice and then either the failure, or the cleared and found files in URI order, the health and the idle state; replaying all messages gives the machine's client |
| LspServer.ReportsMean | src/lsp/server.rs:177-203 | Message by message: the notice, health and error texts of the result and no others, one final status, the files found, and the files no longer found as empty |
| LspServer.Scans.HandleCompleted | src/lsp/server.rs:52-55 | A completed scan and the launches after it are one turn of the machine |
| LspServer.Scans.Open | src/lsp/server.rs:42-45 | The initial scans are one turn of the machine |
| Scheduler.TurnKeeps | src/lsp/server.rs:34-59 | The scheduler invariant after every turn: at most two scans, one in flight per running root, pending iff out of date, nothing idle waits while there is capacity |
| Scheduler.RunKeeps | src/lsp/server.rs:34-59 | The invariant holds in every state of every run, nested workspaces included; scans started never outnumber change notifications, even counting the work left |
| Scheduler.PublishedIsCurrent | src/lsp/server.rs:174-198 | A scan that completes without failure publishes if and only if no change of its root came after its launch; then it ran under the settings in force, and the client shows its files, the files it no longer names as empty and all others as before. An overtaken one changes nothing the client shows |
| Scheduler.ClientShowsLastAccepted | src/lsp/server.rs:175-198 | After any run in which workspaces report different files the client shows each root's last accepted result, cleared files as empty |
| Scheduler.LastWordIsShown | src/lsp/server.rs:190-198 | Even with nested roots that report the same files, the client shows of every file what was last said of it by an accepted result that names it or whose root's result before did |
| Scheduler.ClearingHides | src/lsp/server.rs:190-198 | A run of two nested workspaces after which the client shows nothing for a file in which the inner one's last accepted result has findings |
| Scheduler.CompletedKeeps | src/lsp/server.rs:52-55 | Every completed scan lowers the work left by exactly one |
| Scheduler.MarkKeeps | src/lsp/schedule.rs:18-39 | Every change notification raises the work left by at most one and keeps the invariant |
| Scheduler.CanComplete | src/lsp/server.rs:52-55 | Any scan in flight can complete with any outcome |
| Scheduler.WorkOrFresh | src/lsp/schedule.rs:32-53 | Work is left exactly while a scan is in flight; without work every root's applied generation is its current one |
| Scheduler.Drains | src/lsp/server.rs:108-114 | Once changes stop, the machine drains in exactly as many completions as there is work, and is then up to date |
| GateReport.LockstepIsFilter | src/brainz/fingerprint.rs:81-95 | Walking findings in lockstep with their prints is filtering by identity |
| GateReport.RetainByFingerprint | src/brainz/fingerprint.rs:81-95 | The counting loop keeps the findings whose print satisfies the predicate, and those without a print |
| GateReport.RetainUnseen | src/brainz/gate_memory.rs:20-59 | Prunes exactly the findings whose identity is blocked, in every pillar, and returns how many remain |
| GateReport.UnseenInOrder | src/brainz/gate_memory.rs:20-59 | The findings that are not blocked stay, in their order |
| GateReport.RetainedInOrder | src/brainz/fingerprint.rs:81-95 | Items whose print passes, and those without a print, stay in their order |
| GateReport.IdentitiesExactly | src/brainz/gate_memory.rs:8-17 | A report's identities are those of the findings of all five kinds |
| GateReport.UnseenIdentities | src/brainz/gate_memory.rs:8-17 | A pruned report has the identities of the report minus the blocked ones |
| Gate.ScopeState.Recall | src/mcp/gate_state.rs:81-95 | Blocked findings that are gone become fixed, fixed ones that are back are returned, blocked ones are pruned from the report |
| Gate.ScopeState.Triage | src/mcp/gate.rs:111-126 | Recall, suppress, remember, in that order, as the specified transition, with the number of deferred findings |
| Gate.GateFile.Update | src/mcp/gate_state.rs:28-64 | Idle scopes expire, the visiting scope's state is found or fresh, and the transition is persisted |
| EdgeMemory.MemoryFits | src/mcp/gate_state.rs:81-101 | After each visit blocked findings are present, fixed ones absent, and no blocked finding is reported |
| EdgeMemory.BlockedExactly | src/mcp/gate_state.rs:81-101 | Blocked if and only if reported and present ever since |
| EdgeMemory.ResolvedExactly | src/mcp/gate_state.rs:81-101 | Remembered as fixed if and only if reported, present until it went missing, and missing since |
| EdgeMemory.ReintroducedExactly | src/mcp/gate_state.rs:90-94 | Flagged if and only if it is back after being reported and fixed |
| EdgeMemory.ReportedOnce | src/mcp/gate_state.rs:81-101 | Under any deferral a finding is reported at most once between two of its absences |
| EdgeMemory.RisingEdge | src/mcp/gate_state.rs:81-101 | Without deferral a visit reports current minus previous, and flags those of them seen before |
| ScopeRuns.ScopeIsolation | src/mcp/gate_state.rs:28-64 | With a clock that never goes back a visit is answered from its scope's own visits since its restart, for any use of the state |
| ScopeRuns.RestartsExactly | src/mcp/gate_state.rs:48-55 | A scope restarts exactly when its own idle gap reaches seven days |
| GateRuns.TriageIsEdgeMemory | src/mcp/gate.rs:111-126 | The persisted memory of a scope is the edge memory of what its visits found and reported |
| GateRuns.GateRemembersItsScope | src/mcp/gate.rs:111-126 | Over all scopes and under any deferral, what is flagged and what is not reported again, exactly by the scope's own visits |
| GateRuns.GateIsEdgeDetector | src/mcp/gate.rs:111-126 | Over all scopes and expiries, without deferral, the gate reports exactly the rising edge of each scope |
| GateRepeats.GateSuppressesRepeats | src/mcp/gate.rs:117-121 | Over all scopes and expiries, a visit's report and deferred count are suppression's answer to its own answer at the scope's last visit on that branch since the restart, or to none, the unseen report, the limit and the time |
| DiffParse.ParseUnified | src/diff/parse.rs:16-26 | The line loop splits a diff into file sections and parses each, as the function `Parsed` |
| DiffParse.ParseSection | src/diff/parse.rs:28-44 | The section loop finds the path line and collects ranges and removed lines |
| DiffParse.Unquote | src/diff/parse.rs:59-90 | The byte loop undoes the escapes as the recursive definition does, and decodes the bytes lossily |
| Text.LinesExactly | src/diff/parse.rs:18 | Which lines any text has: a line feed, with a carriage return before it or not, ends one, and what follows the last one is a line as it is |
| DiffFormats.BeforeSections | src/diff/parse.rs:17-24 | Lines before the first file section belong to no file |
| DiffFormats.RangeExactly | src/diff/parse.rs:93-103 | The range taken from any line, as a grammar: the text after the first plus sign up to a plus sign, a space or "@", a start and an optional count |
| DiffFormats.PathFieldExactly | src/diff/parse.rs:47-56 | A path field without quotes ends at a tab, names no file if it is "/dev/null", and loses "b/" |
| DiffFormats.LetterEscape | src/diff/parse.rs:76-83 | The byte each escape letter stands for; other bytes stand for themselves |
| DiffFormats.OctalEscape | src/diff/parse.rs:66-75 | One to three octal digits stand for the byte of that value, or a question mark |
| Encoding.ValidExactly | src/diff/parse.rs:89 | What lossy decoding keeps are the encodings of Unicode scalar values |
| Encoding.BrokenIsLongest | src/diff/parse.rs:89 | What it replaces is as long as the start of an encoding can be, or one byte |
| Encoding.SpaceExactly | src/diff/parse.rs:50 | What trimming takes off are the characters with the property White_Space |
| Utf8.LossyExactly | src/diff/parse.rs:89 | Lossy decoding leaves bytes alone if and only if they are well-formed UTF-8 |
| Utf8.LossyIsWellFormed | src/diff/parse.rs:89 | What lossy decoding gives is always well-formed |
| DiffQuoting.QuotingRoundTrip | src/diff/parse.rs:59-90 | Quoting any byte string and reading it up to the closing quote gives its lossy decoding, and gives it back if and only if it is well-formed UTF-8 |
| DiffQuoting.PathReads | src/diff/parse.rs:47-56 | The path line git prints is read as the path, decoded lossily when quoted and without white space at its end when not |
| DiffRoundTrip.HunkReads | src/diff/parse.rs:93-103 | A printed hunk gives its new-side range and its removed lines, whatever its heading and body look like |
| DiffRoundTrip.PrintedParses | src/diff/parse.rs:16-56 | What the parser makes of anything git prints |
| DiffRoundTrip.RoundTripExactly | src/diff/parse.rs:16-56 | Parsing a printed diff gives back paths, ranges and removed lines if and only if no unquoted path ends in white space, every quoted path is well-formed UTF-8 and no removed line ends in a carriage return |
| DiffRoundTrip.CarriageReturnIsLost | src/diff/parse.rs:18-24 | An input on which the round trip loses a carriage return |
| DiffRoundTrip.SpaceIsLost | src/diff/parse.rs:47-50 | An input on which the round trip loses a path's last space |
| DiffRoundTrip.BytesAreLost | src/diff/parse.rs:89 | An input on which the round trip replaces a byte of a path |
| DiffPy.AddedLines | action/sensez_action/diff.py:63-78 | The row loop computes the added lines of a patch, in order |
| DiffFormats.HunkMatchExactly | action/sensez_action/diff.py:31 | Which rows are hunk headers and the line they name, as a grammar |
| DiffFormats.FileMatchExactly | action/sensez_action/diff.py:32 | Which rows name a file, and which |
| Encoding.BoundaryExactly | action/sensez_action/diff.py:50 | The row boundaries: carriage return and line feed, or one of ten characters |
| Encoding.FirstRowExactly | action/sensez_action/diff.py:50 | A row reaches up to the first boundary, and the rows go on after it |
| DiffPy.ChangedLinesFromGitDiff | action/sensez_action/diff.py:46-60 | The row loop collects the added lines of each file, each in order |
| DiffPy.ChangedLineIndex.AddPatch | action/sensez_action/diff.py:21-25 | A patch adds its lines to its file, and nothing when there is no file or no line |
| DiffPy.ChangedLineIndex.Freeze | action/sensez_action/diff.py:27-28 | Every file's lines, in increasing order |
| DiffPyRows.SplitUnlines | action/sensez_action/diff.py:50 | On lines without boundaries of their own the reader's rows are the parser's lines, carriage returns before line feeds included |
| DiffPyHunks.HunkCounts | action/sensez_action/diff.py:63-78 | Which lines the reader counts in the rows of a printed hunk of plain lines, wherever it stands |
| DiffPyHunks.PlainHunkReadExactly | action/sensez_action/diff.py:63-78 | In the text of a printed hunk of plain lines the reader counts the new lines if and only if nothing is added, or no removed or added line looks like a file header and no note stands before the added lines |
| DiffPyExact.HunkReadExactly | action/sensez_action/diff.py:63-78 | In the text of any printed hunk, whatever boundaries and headers its lines hold, the reader counts the new lines if and only if no run of rows from one header to the next adds another line, and each new line is added by some run |
| DiffPyExact.OneHeaderReadExactly | action/sensez_action/diff.py:63-78 | When no later row is a header: if and only if, removed rows aside, the rows after the header start with as many added ones as the hunk adds and hold no other |
| DiffPyExact.FormFeedMiscounts | action/sensez_action/diff.py:66 | A hunk that reads well line by line and is counted wrong because of a form feed |
| DiffPyExact.PlusPlusMiscounts | action/sensez_action/diff.py:71 | A hunk whose only added line is not counted |
| DiffReading.ReaderPathExactly | action/sensez_action/diff.py:32 | The reader takes a path as it is if and only if it is neither quoted nor holds a space, and finds none if and only if it is quoted |
| DiffReading.BlockReads | action/sensez_action/diff.py:50-59 | Each file block credits what its hunks count to the file its path row names, or to the file before when it names none |
| DiffAgreement.HunksAgreeExactly | action/sensez_action/diff.py:63-78 | Within one file whose hunks are in order the counted lines are the new lines if and only if every hunk reads well: a missed line is never made up for |
| DiffCounting.AgreementCountsAll | action/sensez_action/diff.py:71 | Where the two programs agree no added line starts with "++", because the reader never has more lines than the diff has added rows |
| DiffCredits.ProgramsAgreeExactly | action/sensez_action/diff.py:46-78 | On what git prints with plain lines, the reader's lines of every path are the union of the parser's ranges for it if and only if every hunk reads well and the files credited to a path have together the new lines of the file with that path |
| DiffCredits.AgreeingHunks | action/sensez_action/diff.py:63-78 | Where the two agree every hunk reads well, in whatever files the lines end up: below the line a misread hunk skips the reader would have too few |
| DiffParsersAgree.CreditsFileByFile | action/sensez_action/diff.py:50-59 | Unless a quoted path ends in a tab, each path is credited with its own new lines if and only if both programs read the path of every file that gains lines |
| DiffCredits.ParsersAgreeExactly | action/sensez_action/diff.py:46-78 | File by file, unless a quoted path ends in a tab: the two agree if and only if both read the path of every file that gains lines, and every hunk |
| DiffDisagreements.SpacePathDisagrees | action/sensez_action/diff.py:32 | A diff with a space in its path on which the two disagree |
| DiffDisagreements.PlusPlusDisagrees | action/sensez_action/diff.py:71 | A diff with a line that starts with "++" on which the two disagree |
| DiffDisagreements.QuotedGoesToFileBefore | action/sensez_action/diff.py:50-59 | The lines of a file with a quoted path are credited to the file before it |
| DiffDisagreements.CreditsCanSwap | action/sensez_action/diff.py:50-59 | A diff on which the two agree although the lines of files with quoted paths go to each other's paths |
| DiffDisagreements.ErrorsCancel | action/sensez_action/diff.py:63-78 | Two hunks of one file, the second misread, whose counted lines together are right because the first holds line boundaries |
| VectorCache.WantedOnce | src/eyez/cache.rs:110-113 | Wanted items have distinct keys, exactly those asked for, each the first of its key |
| VectorCache.WantedInOrder | src/eyez/cache.rs:110-113 | Wanted items are those at which a key first occurs, in the order of the input |
| SystemCache.Cache.Refresh | src/eyez/cache.rs:93-154 | The loops rebuild the index as specified, give the embedder exactly the missing texts, and leave the index empty when it fails |
| SystemCache.WarmIsCold | src/eyez/cache.rs:93-154 | From any coherent cache a refresh gives the documents and vectors of a refresh from empty, and leaves the cache coherent |
| SystemCache.RefreshListsOnce | src/eyez/cache.rs:130-152 | One vector per document, each wanted key exactly once |
| VectorCache.MissingExactly | src/eyez/cache.rs:115-119 | Exactly the wanted items whose key has no vector are embedded |
| VectorCache.MissingInOrder | src/eyez/cache.rs:115-120 | The items to embed are in the order of the wanted ones |
| VectorCache.FilledExactly | src/eyez/cache.rs:129-131 | Each embedded item gets its own vector, and every other key keeps what it had |
| SystemCache.HaveExactly | src/eyez/cache.rs:103-107 | Documents and vectors are paired as far as both go; of several vectors for a key the last counts |
| SystemCache.RefreshMeans | src/eyez/cache.rs:93-154 | From any coherent cache a refresh lists the given documents, of several with one key the first, in their order, each with the embedding of its own text |
| SystemCache.SecondRefreshAsksNothing | src/eyez/cache.rs:93-154 | Refreshing again with the same documents embeds nothing |
| SemanticCache.SemanticVectors.Vectors | src/eyez/semantic_cache.rs:34-102 | One vector per input and the persisted cache, as specified; nothing is persisted when the model is missing or fails |
| SemanticCache.ReusableExactly | src/eyez/semantic_cache.rs:35-42 | A cache of this schema and model gives every key its last vector, any other nothing |
| SemanticCache.EveryInputItsOwn | src/eyez/semantic_cache.rs:34-102 | Every input gets the embedding of its own text, even when keys repeat |
| SemanticCache.PersistsWantedKeys | src/eyez/semantic_cache.rs:87-100 | Exactly the distinct wanted keys are persisted, each once |
| Session.AnalysisSession.Workspace | src/pipeline_session.rs:55-79 | A held workspace returns the same state object; a new one replaces the least recently used when four are held |
| Session.HeldIsTop | src/pipeline_session.rs:55-79 | After any accesses the session holds the four best last uses |
| Session.HoldsTheLastUsed | src/pipeline_session.rs:55-79 | The session holds min(4, distinct) workspaces, each used after every workspace it does not hold |

## Left out

- Files, locks and git: reads and writes are atomic and succeed, locks are granted, JSON and postcard round-trip; fsync, crash recovery, failed writes, failed serialization and the fallback to a fresh state are not modelled.
- Scanning, fingerprint hashing, diagnostics, settings and the choice of files that affect a scan: parameters.
- Time, process scheduling and thread identity: the clock reading of each operation is a parameter.
- `src/mcp/repeats.rs`: any function from its memory, the report, the limit and the time that only drops findings.
- Triage labels, events, session counters, regression labels and the text of the gate's decision.
- The conditions under which a recapture starts (interval, modification times, branch of the work tree) and why it gives up: a recapture may start and give up at any time.
- Starvation: a workspace late in path order can wait for ever while others keep changing.
- `partition_by_fingerprint`, `detector_counts` and the key builders of `src/brainz/fingerprint.rs`: each follows from its own definition.
- LspServer.Scans.ApplyResult: the wording of the log message around the error text is not modelled.
- LSP plumbing: requests other than the rescan command, shutdown, and the end of the loop when a message cannot be sent or a URI does not parse.
- Scheduler.Drains: says nothing about turns other than completed scans, which are the only ones left once changes stop.
- GateReport.RetainUnseen: the glossary in the report's metadata, which is computed anew from the pruned report, is not part of the model.
- Decoding git's output: the parser's input is a Rust string, so what is proved of text that is not well-formed UTF-8 says nothing about the program.
- DiffCounting.AgreementCountsAll: lines hold no boundary but a carriage return at their end; with one, a part of a line can be an added row that the hunk does not have.
- DiffCredits.ProgramsAgreeExactly: each path that gains lines is seen once, hunks are in order, and lines hold no boundary but a carriage return at their end; with inner boundaries a part of a line can be any row, a path row included, and the errors of two hunks can cancel out (`DiffDisagreements.ErrorsCancel`).
- DiffCredits.ParsersAgreeExactly: quoted paths that end in a tab are left to `DiffCredits.ProgramsAgreeExactly`, because there the condition is not file by file (`DiffDisagreements.CreditsCanSwap`).
- DiffPy.ChangedLinesFromGitDiff: the reader's `\d` matches ASCII digits only, and `changed_lines_from_files`, for GitHub's file list, is not modelled.
- DiffRoundTrip.RoundTripExactly: hunks count lines from one and end below 2^64; a start and count whose sum is larger overflows in the program, which the model computes with wrap-around.
- SystemCache.Cache.Refresh: vectors are sequences of reals that are never computed with; persisting and loading the cache file are not modelled.
- Session.AnalysisSession.Workspace: the mutexes of the session and of a state, and parsing without a cache when one is poisoned.
- `src/diff` above the parser (touch filter, full files, signatures), configuration, reports, profiles and the command line.
