/** How git prints a diff with no context lines: the format of "diff -U0" with one section per file and
    C-style quoting of unusual paths. */
module GitDiff {
  import opened Options
  import opened Text
  import opened DiffParse

  const OLD_SIDE := "a/"
  const OLD_PATH := "--- "
  const NO_NEWLINE := "\\ No newline at end of file"

  /** A change of consecutive lines: `removed` at `oldStart` became `added` at `newStart`. */
  datatype Hunk = Hunk(
    oldStart: nat,
    removed: seq<string>,
    oldNoNewline: bool,
    newStart: nat,
    added: seq<string>,
    newNoNewline: bool,
    heading: string)

  /** A changed file: what follows "diff --git", the extended header lines, the paths unless the file was
      created or deleted, and its hunks, none when only its name or mode changed or it is binary. */
  datatype Change = Change(
    names: string,
    headers: seq<string>,
    oldPath: Option<string>,
    newPath: Option<string>,
    hunks: seq<Hunk>)

  // ---------------------------------------------------------------- paths

  /** Control bytes, quotes and backslashes are escaped; bytes of non-ASCII characters only if `high`. */
  predicate NeedsEscape(c: char, high: bool) {
    c as int < 32 || c as int == 127 || c == QUOTE || c == BACKSLASH || (high && c as int >= 128)
  }

  predicate NeedsQuote(path: string, high: bool) {
    exists c :: c in path && NeedsEscape(c, high)
  }

  function OctalDigit(n: nat): char
    requires n < 8
  {
    (48 + n) as char
  }

  function ThreeDigits(n: nat): string {
    [OctalDigit(n / 64 % 8), OctalDigit(n / 8 % 8), OctalDigit(n % 8)]
  }

  function Escape(c: char): string {
    match c
    case '\"' => "\\\""
    case '\\' => "\\\\"
    case '\n' => "\\n"
    case '\t' => "\\t"
    case '\r' => "\\r"
    case _ =>
      if c as int == 7 then "\\a"
      else if c as int == 8 then "\\b"
      else if c as int == 11 then "\\v"
      else if c as int == 12 then "\\f"
      else [BACKSLASH] + ThreeDigits(c as int)
  }

  function QuoteByte(c: char, high: bool): string {
    if NeedsEscape(c, high) then Escape(c) else [c]
  }

  function QuoteBody(path: string, high: bool): string {
    if path == "" then "" else QuoteByte(path[0], high) + QuoteBody(path[1..], high)
  }

  function Quoted(path: string, high: bool): string {
    if NeedsQuote(path, high) then [QUOTE] + QuoteBody(path, high) + [QUOTE] else path
  }

  /** The name after "---" or "+++"; a tab follows one with a space in it. */
  function Named(side: string, path: Option<string>, high: bool): string {
    match path
    case None => DEV_NULL
    case Some(p) =>
      var name := Quoted(side + p, high);
      if ' ' in name then name + "\t" else name
  }

  // ---------------------------------------------------------------- hunks and files

  function Span(start: nat, count: nat): string {
    if count == 1 then Decimal(start) else Decimal(start) + [','] + Decimal(count)
  }

  /** A hunk header after its "@@", with the given text after the closing "@@". */
  function HunkSpans(h: Hunk, tail: string): string {
    (" -" + Span(h.oldStart, |h.removed|) + " ") + ['+'] + (Span(h.newStart, |h.added|) + [' '] + HUNK + tail)
  }

  function HunkHeader(h: Hunk): string {
    HUNK + HunkSpans(h, if h.heading == "" then "" else " " + h.heading)
  }

  function Marked(mark: char, lines: seq<string>): (r: seq<string>)
    ensures |r| == |lines| && forall i | 0 <= i < |r| :: r[i] == [mark] + lines[i]
  {
    if lines == [] then [] else [[mark] + lines[0]] + Marked(mark, lines[1..])
  }

  function Noted(noNewline: bool): seq<string> {
    if noNewline then [NO_NEWLINE] else []
  }

  function HunkBody(h: Hunk): seq<string> {
    Marked('-', h.removed) + Noted(h.oldNoNewline) + Marked('+', h.added) + Noted(h.newNoNewline)
  }

  function HunkBlock(h: Hunk): seq<string> {
    [HunkHeader(h)] + HunkBody(h)
  }

  function HunkLines(hunks: seq<Hunk>): seq<string> {
    if hunks == [] then [] else HunkLines(hunks[..|hunks| - 1]) + HunkBlock(hunks[|hunks| - 1])
  }

  function PathLines(c: Change, high: bool): seq<string> {
    [OLD_PATH + Named(OLD_SIDE, c.oldPath, high), NEW_PATH + Named(NEW_SIDE, c.newPath, high)]
  }

  /** What follows the "diff --git" line of a file. */
  function FileLines(c: Change, high: bool): seq<string> {
    if c.hunks == [] then c.headers else c.headers + PathLines(c, high) + HunkLines(c.hunks)
  }

  function FileBlock(c: Change, high: bool): seq<string> {
    [SECTION + c.names] + FileLines(c, high)
  }

  function DiffLines(changes: seq<Change>, high: bool): seq<string> {
    if changes == [] then [] else DiffLines(changes[..|changes| - 1], high) + FileBlock(changes[|changes| - 1], high)
  }

  function Printed(changes: seq<Change>, high: bool): string {
    Unlines(DiffLines(changes, high))
  }

  // ---------------------------------------------------------------- what can be printed

  predicate Bytes(s: string) {
    forall c | c in s :: c as int < 256
  }

  predicate IsLetter(c: char) {
    'a' <= c <= 'z' || 'A' <= c <= 'Z'
  }

  /** An extended header line: a mode, a rename, an index, a note on binary files. */
  predicate ValidHeader(line: string) {
    OneLine(line) && line != "" && IsLetter(line[0]) && !(SECTION <= line)
  }

  /** Lines hold no line feed, count from one, and their numbers fit a machine word. */
  predicate ValidHunk(h: Hunk) {
    && AllOneLine(h.removed) && AllOneLine(h.added) && OneLine(h.heading)
    && (h.added != [] ==> h.newStart > 0)
    && h.newStart + |h.added| <= USIZE_MAX
  }

  predicate ValidHunks(hunks: seq<Hunk>) {
    forall h | h in hunks :: ValidHunk(h)
  }

  predicate ValidPath(path: Option<string>) {
    path.Some? ==> Bytes(path.value)
  }

  predicate ValidChange(c: Change) {
    && OneLine(c.names)
    && (forall l | l in c.headers :: ValidHeader(l))
    && ValidPath(c.oldPath) && ValidPath(c.newPath)
    && ValidHunks(c.hunks)
  }

  predicate ValidChanges(changes: seq<Change>) {
    forall c | c in changes :: ValidChange(c)
  }
}
