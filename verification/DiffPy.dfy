/** The action's own diff reader: which new-side lines each file of a diff adds. */
module DiffPy {
  import opened Options
  import opened Text

  const NEW_FILE := "+++ b/"
  const NO_FILE := "/dev/null"

  // ---------------------------------------------------------------- lines

  /** How many bytes of line boundary `s` starts with. Besides line feed and carriage return these are
      vertical tab, form feed, the file, group and record separators, U+0085, U+2028 and U+2029. */
  function BreakLen(s: string): (n: nat)
    ensures n <= |s|
  {
    if s == "" then 0
    else
      var c := s[0] as int;
      if |s| > 1 && s[0] == '\r' && s[1] == '\n' then 2
      else if 10 <= c <= 13 || 28 <= c <= 30 then 1
      else if |s| > 1 && c == 0xC2 && s[1] as int == 0x85 then 2
      else if |s| > 2 && c == 0xE2 && s[1] as int == 0x80 && s[2] as int in {0xA8, 0xA9} then 3
      else 0
  }

  /** Where the first line boundary is, or the end. */
  function BreakAt(s: string): (i: nat)
    ensures i <= |s|
    ensures i < |s| ==> BreakLen(s[i..]) > 0
  {
    if s == "" || BreakLen(s) > 0 then 0
    else
      var i := 1 + BreakAt(s[1..]);
      assert s[i..] == s[1..][i - 1..];
      i
  }

  /** What follows the first row and its boundary. */
  function AfterRow(text: string): (rest: string)
    ensures |rest| <= |text| && (text != "" ==> |rest| < |text|)
  {
    var i := BreakAt(text);
    text[i + BreakLen(text[i..])..]
  }

  function SplitLines(text: string): seq<string>
    decreases |text|
  {
    if text == "" then [] else [text[..BreakAt(text)]] + SplitLines(AfterRow(text))
  }

  function Join(rows: seq<string>): string {
    if rows == [] then "" else if |rows| == 1 then rows[0] else rows[0] + "\n" + Join(rows[1..])
  }

  // ---------------------------------------------------------------- patterns

  /** The path of a new-path row. */
  function FileMatch(row: string): Option<string> {
    if NEW_FILE <= row && |row| > |NEW_FILE| && '\n' !in row[|NEW_FILE|..] then Some(row[|NEW_FILE|..]) else None
  }

  function DigitRun(s: string): (digits: string)
    ensures AllDigits(digits) && digits <= s
  {
    if s == "" || !IsDigit(s[0]) then "" else [s[0]] + DigitRun(s[1..])
  }

  /** What follows an optional comma and count. */
  function AfterCount(s: string): string {
    if "," <= s && DigitRun(s[1..]) != "" then s[1 + |DigitRun(s[1..])|..] else s
  }

  /** A number, an optional count, and the given text; the number and what follows. */
  function SpanMatch(s: string, close: string): Option<(nat, string)> {
    var digits := DigitRun(s);
    if digits == "" then None
    else
      var rest := StripPrefix(AfterCount(s[|digits|..]), close);
      if rest.None? then None else Some((DigitsValue(digits), rest.value))
  }

  /** The first new line of a hunk row. */
  function HunkMatch(row: string): Option<nat> {
    var spans := StripPrefix(row, "@@ -");
    var from := if spans.None? then None else SpanMatch(spans.value, " +");
    var to := if from.None? then None else SpanMatch(from.value.1, " @@");
    if to.None? then None else Some(to.value.0)
  }

  // ---------------------------------------------------------------- added lines

  datatype Row = HunkRow(start: nat) | PlusRow | MinusRow | OtherRow

  /** How a row of a patch is read; rows that look like a file header are neither added nor removed. */
  function RowOf(row: string): Row {
    if HunkMatch(row).Some? then HunkRow(HunkMatch(row).value)
    else if "+" <= row && !("+++" <= row) then PlusRow
    else if "-" <= row && !("---" <= row) then MinusRow
    else OtherRow
  }

  function RowsOf(rows: seq<string>): (r: seq<Row>)
    ensures |r| == |rows| && forall i | 0 <= i < |r| :: r[i] == RowOf(rows[i])
  {
    if rows == [] then [] else RowsOf(rows[..|rows| - 1]) + [RowOf(rows[|rows| - 1])]
  }

  datatype Count = Count(added: set<nat>, line: nat)

  function CountRow(c: Count, row: Row): Count {
    match row
    case HunkRow(start) => c.(line := start)
    case PlusRow => Count(c.added + {c.line}, c.line + 1)
    case MinusRow => c
    case OtherRow => if c.line != 0 then c.(line := c.line + 1) else c
  }

  function CountRows(c: Count, rows: seq<Row>): Count {
    if rows == [] then c else CountRow(CountRows(c, rows[..|rows| - 1]), rows[|rows| - 1])
  }

  /** The lines a patch adds. */
  function Added(rows: seq<string>): set<nat> {
    CountRows(Count({}, 0), RowsOf(rows)).added
  }

  predicate Increasing(t: seq<nat>) {
    forall i, j | 0 <= i < j < |t| :: t[i] < t[j]
  }

  /** The lines of a set in order. */
  ghost predicate IsSorted(t: seq<nat>, lines: set<nat>) {
    Increasing(t) && forall n :: n in t <==> n in lines
  }

  method Sort(lines: set<nat>) returns (t: seq<nat>)
    ensures IsSorted(t, lines)
  {
    t := [];
    var rest := lines;
    while rest != {}
      invariant rest <= lines && IsSorted(t, lines - rest)
      invariant forall m, n | m in t && n in rest :: m < n
      decreases |rest|
    {
      var least := Least(rest);
      var was := t;
      assert forall i | 0 <= i < |was| :: was[i] in was;
      rest := rest - {least};
      t := t + [least];
      assert forall n :: n in t <==> n in was || n == least;
    }
  }

  method Least(lines: set<nat>) returns (least: nat)
    requires lines != {}
    ensures least in lines && forall n | n in lines :: least <= n
  {
    least :| least in lines;
    var rest := lines - {least};
    while rest != {}
      invariant rest <= lines && least in lines && forall n | n in lines && n !in rest :: least <= n
      decreases |rest|
    {
      var n :| n in rest;
      rest := rest - {n};
      least := if n < least then n else least;
    }
  }

  method AddedLines(patch: string) returns (sorted: seq<nat>)
    ensures IsSorted(sorted, Added(SplitLines(patch)))
  {
    var result: set<nat> := {};
    var newLine := 0;
    var rows := SplitLines(patch);
    for i := 0 to |rows|
      invariant CountRows(Count({}, 0), RowsOf(rows[..i])) == Count(result, newLine)
    {
      assert rows[..i + 1][..i] == rows[..i];
      assert RowsOf(rows[..i + 1])[..i] == RowsOf(rows[..i]);
      result, newLine := ReadPatchRow(rows[i], result, newLine);
    }
    assert rows[..|rows|] == rows;
    sorted := Sort(result);
  }

  method ReadPatchRow(row: string, added: set<nat>, line: nat) returns (result: set<nat>, newLine: nat)
    ensures Count(result, newLine) == CountRow(Count(added, line), RowOf(row))
  {
    result, newLine := added, line;
    var hunk := HunkMatch(row);
    if hunk.Some? {
      newLine := hunk.value;
    } else if "+" <= row && !("+++" <= row) {
      result := result + {newLine};
      newLine := newLine + 1;
    } else if "-" <= row && !("---" <= row) {
    } else if newLine != 0 {
      newLine := newLine + 1;
    }
  }

  // ---------------------------------------------------------------- files

  type Files = map<string, set<nat>>

  function LinesOf(files: Files, path: string): set<nat> {
    if path in files then files[path] else {}
  }

  function WithPatch(files: Files, path: string, patch: string): Files {
    var added := Added(SplitLines(patch));
    if path == "" || path == NO_FILE || added == {} then files else files[path := LinesOf(files, path) + added]
  }

  datatype Reading = Reading(files: Files, current: string, patch: seq<string>)

  function ReadRow(r: Reading, row: string): Reading {
    var file := FileMatch(row);
    if file.Some? then Reading(WithPatch(r.files, r.current, Join(r.patch)), file.value, [])
    else if r.current != "" then r.(patch := r.patch + [row])
    else r
  }

  function ReadRows(r: Reading, rows: seq<string>): Reading {
    if rows == [] then r else ReadRow(ReadRows(r, rows[..|rows| - 1]), rows[|rows| - 1])
  }

  function Finished(r: Reading): Files {
    WithPatch(r.files, r.current, Join(r.patch))
  }

  const NOTHING := Reading(map[], "", [])

  /** The added lines of each file of a diff. */
  function Changed(text: string): Files {
    Finished(ReadRows(NOTHING, SplitLines(text)))
  }

  class ChangedLineIndex {
    var files: Files

    constructor ()
      ensures files == map[]
    {
      files := map[];
    }

    /** Adds the lines a patch adds to a file; a patch of no file is dropped, and one that adds none leaves no entry. */
    method AddPatch(path: string, patch: string)
      modifies this
      ensures files == WithPatch(old(files), path, patch)
      ensures path == "" || path == "/dev/null" || Added(SplitLines(patch)) == {} ==> files == old(files)
      ensures path != "" && path != "/dev/null" && Added(SplitLines(patch)) != {} ==>
                files.Keys == old(files).Keys + {path}
                && files[path] == (if path in old(files) then old(files)[path] else {}) + Added(SplitLines(patch))
                && forall p | p in old(files) && p != path :: files[p] == old(files)[p]
    {
      if path == "" || path == NO_FILE {
        return;
      }
      var added := AddedLines(patch);
      AddAll(path, added);
      assert SetOf(added) == Added(SplitLines(patch));
      assert added != [] ==> added[0] in SetOf(added);
    }

    method AddAll(path: string, added: seq<nat>)
      modifies this
      ensures files == if added == [] then old(files) else old(files)[path := LinesOf(old(files), path) + SetOf(added)]
    {
      ghost var have := LinesOf(files, path);
      for i := 0 to |added|
        invariant i == 0 ==> files == old(files)
        invariant i > 0 ==> files == old(files)[path := have + SetOf(added[..i])]
      {
        SetOfSnoc(added, i);
        assert LinesOf(files, path) + {added[i]} == have + SetOf(added[..i + 1]);
        files := files[path := (if path in files then files[path] else {}) + {added[i]}];
      }
      assert added[..|added|] == added;
    }

    /** Every file's lines in order. */
    method Freeze() returns (frozen: map<string, seq<nat>>)
      ensures IsFrozen(frozen, files)
    {
      frozen := map[];
      var rest := files.Keys;
      while rest != {}
        invariant rest <= files.Keys && frozen.Keys == files.Keys - rest
        invariant forall p | p in frozen :: IsSorted(frozen[p], files[p])
        decreases |rest|
      {
        var p :| p in rest;
        rest := rest - {p};
        var lines := Sort(files[p]);
        frozen := frozen[p := lines];
      }
    }
  }

  function SetOf(t: seq<nat>): set<nat> {
    set n | n in t
  }

  lemma SetOfSnoc(t: seq<nat>, i: nat)
    requires i < |t|
    ensures SetOf(t[..i + 1]) == SetOf(t[..i]) + {t[i]}
  {
    assert t[..i + 1] == t[..i] + [t[i]];
  }

  ghost predicate IsFrozen(frozen: map<string, seq<nat>>, files: Files) {
    frozen.Keys == files.Keys && forall p | p in frozen :: IsSorted(frozen[p], files[p])
  }

  method ChangedLinesFromGitDiff(text: string) returns (changed: map<string, seq<nat>>)
    ensures IsFrozen(changed, Changed(text))
  {
    var index := new ChangedLineIndex();
    var currentFile, currentPatch := "", [];
    var rows := SplitLines(text);
    for i := 0 to |rows|
      invariant ReadRows(NOTHING, rows[..i]) == Reading(index.files, currentFile, currentPatch)
    {
      assert rows[..i + 1][..i] == rows[..i];
      var file := FileMatch(rows[i]);
      if file.Some? {
        index.AddPatch(currentFile, Join(currentPatch));
        currentFile, currentPatch := file.value, [];
      } else if currentFile != "" {
        currentPatch := currentPatch + [rows[i]];
      }
    }
    assert rows[..|rows|] == rows;
    index.AddPatch(currentFile, Join(currentPatch));
    changed := index.Freeze();
  }
}
