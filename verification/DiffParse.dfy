/** Parsing unified diffs: `Parsed` is the list of file sections a text holds, and the loops compute it. */
module DiffParse {
  import opened Options
  import opened Text
  import opened Utf8

  const SECTION := "diff --git "
  const NEW_PATH := "+++ "
  const HUNK := "@@"
  const DEV_NULL := "/dev/null"
  const NEW_SIDE := "b/"

  datatype Range = Range(first: nat, last: nat)

  /** A section has no path when its new side is "/dev/null". */
  datatype FileDiff = FileDiff(path: Option<string>, ranges: seq<Range>, removed: seq<string>)

  // ---------------------------------------------------------------- quoted paths

  predicate IsOctal(c: char) {
    '0' <= c <= '7'
  }

  /** The octal digits `s` starts with, at most `most`. */
  function OctalPrefix(s: string, most: nat): (digits: string)
    ensures digits <= s && |digits| <= most && forall c | c in digits :: IsOctal(c)
  {
    if s == "" || most == 0 || !IsOctal(s[0]) then "" else [s[0]] + OctalPrefix(s[1..], most - 1)
  }

  function OctalValue(digits: string): nat
    requires forall c | c in digits :: IsOctal(c)
  {
    if digits == "" then 0
    else
      var last := digits[|digits| - 1];
      assert last in digits && IsOctal(last);
      OctalValue(digits[..|digits| - 1]) * 8 + (last as int - 48)
  }

  /** The byte an octal escape stands for, or a question mark when it does not fit. */
  function OctalByte(value: nat): char {
    if value <= 0xFF then value as char else '?'
  }

  /** The byte a letter after a backslash stands for. */
  function Unescape(c: char): char {
    match c
    case 'n' => '\n'
    case 't' => '\t'
    case 'r' => '\r'
    case 'a' => 7 as char
    case 'b' => 8 as char
    case 'f' => 12 as char
    case 'v' => 11 as char
    case _ => c
  }

  /** The bytes of a quoted path body, up to its closing quote. */
  function UnquotedBytes(quoted: string): string
    decreases |quoted|
  {
    if quoted == "" || quoted[0] == QUOTE then ""
    else if quoted[0] != BACKSLASH then [quoted[0]] + UnquotedBytes(quoted[1..])
    else if |quoted| == 1 then ""
    else
      var digits := OctalPrefix(quoted[1..], 3);
      if digits != "" then [OctalByte(OctalValue(digits))] + UnquotedBytes(quoted[1 + |digits|..])
      else [Unescape(quoted[1])] + UnquotedBytes(quoted[2..])
  }

  lemma TakesOctal(quoted: string, start: nat, end: nat, max: nat)
    requires start < end < |quoted| && IsOctal(quoted[end]) && max > 0
    requires forall c | c in quoted[start..end] :: IsOctal(c)
    ensures forall c | c in quoted[start..end + 1] :: IsOctal(c)
    ensures OctalValue(quoted[start..end + 1]) == OctalValue(quoted[start..end]) * 8 + (quoted[end] as int - 48)
    ensures quoted[start..end] + OctalPrefix(quoted[end..], max) == quoted[start..end + 1] + OctalPrefix(quoted[end + 1..], max - 1)
  {
    var digits := quoted[start..end + 1];
    assert digits == quoted[start..end] + [quoted[end]] && digits[..|digits| - 1] == quoted[start..end];
    assert quoted[end..][1..] == quoted[end + 1..];
    assert OctalPrefix(quoted[end..], max) == [quoted[end]] + OctalPrefix(quoted[end + 1..], max - 1);
  }

  lemma StopsOctal(quoted: string, end: nat, max: nat)
    requires end <= |quoted| && (end < |quoted| ==> !IsOctal(quoted[end]))
    ensures OctalPrefix(quoted[end..], max) == ""
  {
  }

  /** Reads the octal escape whose first digit is at `start`. */
  method TakeOctal(quoted: string, start: nat) returns (value: nat, end: nat)
    requires start < |quoted| && IsOctal(quoted[start])
    ensures start < end <= |quoted|
    ensures quoted[start..end] == OctalPrefix(quoted[start..], 3) && value == OctalValue(quoted[start..end])
  {
    value, end := quoted[start] as int - 48, start + 1;
    for digit := 0 to 2
      invariant start < end <= |quoted| && forall c | c in quoted[start..end] :: IsOctal(c)
      invariant value == OctalValue(quoted[start..end])
      invariant OctalPrefix(quoted[start..], 3) == quoted[start..end] + OctalPrefix(quoted[end..], 2 - digit)
    {
      if end < |quoted| && IsOctal(quoted[end]) {
        TakesOctal(quoted, start, end, 2 - digit);
        value, end := value * 8 + (quoted[end] as int - 48), end + 1;
      } else {
        StopsOctal(quoted, end, 2 - digit);
        StopsOctal(quoted, end, 1 - digit);
      }
    }
  }

  /** A quoted path body as text: bytes that are not UTF-8 are replaced. */
  function Unquoted(quoted: string): string {
    Lossy(UnquotedBytes(quoted))
  }

  method Unquote(quoted: string) returns (path: string)
    ensures path == Unquoted(quoted)
  {
    var bytes, i := "", 0;
    while i < |quoted| && quoted[i] != QUOTE
      invariant i <= |quoted|
      invariant UnquotedBytes(quoted) == bytes + UnquotedBytes(quoted[i..])
    {
      if quoted[i] == BACKSLASH && i + 1 == |quoted| {
        i := i + 1;
      } else {
        var byte, end := TakeByte(quoted, i);
        bytes, i := bytes + [byte], end;
      }
    }
    assert UnquotedBytes(quoted[i..]) == "" && bytes + "" == bytes;
    path := Lossy(bytes);
  }

  /** Reads one byte, plain or escaped. */
  method TakeByte(quoted: string, i: nat) returns (byte: char, end: nat)
    requires i < |quoted| && quoted[i] != QUOTE && (quoted[i] == BACKSLASH ==> i + 1 < |quoted|)
    ensures i < end <= |quoted|
    ensures UnquotedBytes(quoted[i..]) == [byte] + UnquotedBytes(quoted[end..])
  {
    if quoted[i] != BACKSLASH {
      UnquotedByte(quoted, i);
      byte, end := quoted[i], i + 1;
    } else if IsOctal(quoted[i + 1]) {
      var value;
      value, end := TakeOctal(quoted, i + 1);
      UnquotedOctal(quoted, i, end);
      byte := OctalByte(value);
    } else {
      UnquotedEscape(quoted, i);
      byte, end := Unescape(quoted[i + 1]), i + 2;
    }
  }

  lemma UnquotedByte(quoted: string, i: nat)
    requires i < |quoted| && quoted[i] != BACKSLASH && quoted[i] != QUOTE
    ensures UnquotedBytes(quoted[i..]) == [quoted[i]] + UnquotedBytes(quoted[i + 1..])
  {
    assert quoted[i..][1..] == quoted[i + 1..];
  }

  lemma UnquotedEscape(quoted: string, i: nat)
    requires i + 1 < |quoted| && quoted[i] == BACKSLASH && !IsOctal(quoted[i + 1])
    ensures UnquotedBytes(quoted[i..]) == [Unescape(quoted[i + 1])] + UnquotedBytes(quoted[i + 2..])
  {
    assert quoted[i..][2..] == quoted[i + 2..];
  }

  lemma UnquotedOctal(quoted: string, i: nat, end: nat)
    requires i + 1 < end <= |quoted| && quoted[i] == BACKSLASH && quoted[i + 1..end] == OctalPrefix(quoted[i + 1..], 3)
    ensures UnquotedBytes(quoted[i..]) == [OctalByte(OctalValue(quoted[i + 1..end]))] + UnquotedBytes(quoted[end..])
  {
    assert quoted[i..][1..] == quoted[i + 1..];
    assert quoted[i..][end - i..] == quoted[end..];
  }

  // ---------------------------------------------------------------- the new path

  /** What follows "+++ ", without leading white space, as the path it names. */
  function NewFilePath(field: string): Option<string> {
    var path := if "\"" <= field then Unquoted(field[1..]) else Trim(Until(field, '\t'));
    if path == DEV_NULL then None
    else if NEW_SIDE <= path then Some(path[|NEW_SIDE|..])
    else Some(path)
  }

  // ---------------------------------------------------------------- hunk headers

  /** The text of the new side of a hunk header. */
  function NewSpec(rest: string): Option<string> {
    var plus := After(rest, '+');
    if plus.None? then None else Some(Until(Until(Until(plus.value, '+'), ' '), '@'))
  }

  /** A start and a count that is one if missing; none for a hunk that only deletes. Line numbers are
      machine words. */
  function SpecRange(spec: string): Option<Range> {
    var start := ParseUsize(Trim(Until(spec, ',')));
    var tail := After(spec, ',');
    var count := if tail.None? then Some(1) else ParseUsize(Trim(Until(tail.value, ',')));
    if start.None? || count.None? || count.value == 0 then None
    else Some(Range(start.value, (start.value + count.value - 1) % (USIZE_MAX + 1)))
  }

  /** The new side of a hunk header, after its "@@". */
  function NewHunkRange(rest: string): Option<Range> {
    var spec := NewSpec(rest);
    if spec.None? then None else SpecRange(spec.value)
  }

  // ---------------------------------------------------------------- sections

  /** The file sections of a diff, each without its "diff --git" line; lines before the first belong to none. */
  function Sections(lines: seq<string>): seq<seq<string>> {
    if lines == [] then []
    else
      var sections, line := Sections(lines[..|lines| - 1]), lines[|lines| - 1];
      if SECTION <= line then sections + [[]]
      else if sections == [] then []
      else sections[..|sections| - 1] + [sections[|sections| - 1] + [line]]
  }

  /** The section from its new-path line on. */
  function FromNewPath(section: seq<string>): seq<string> {
    if section == [] || NEW_PATH <= section[0] then section else FromNewPath(section[1..])
  }

  function RangeIn(line: string): seq<Range> {
    if !(HUNK <= line) then []
    else match NewHunkRange(line[2..])
      case None => []
      case Some(range) => [range]
  }

  function RemovedIn(line: string): seq<string> {
    if !(HUNK <= line) && "-" <= line then [line[1..]] else []
  }

  function Ranges(lines: seq<string>): seq<Range> {
    if lines == [] then [] else Ranges(lines[..|lines| - 1]) + RangeIn(lines[|lines| - 1])
  }

  function Removed(lines: seq<string>): seq<string> {
    if lines == [] then [] else Removed(lines[..|lines| - 1]) + RemovedIn(lines[|lines| - 1])
  }

  function SectionDiff(section: seq<string>): Option<FileDiff> {
    var lines := FromNewPath(section);
    if lines == [] || !(NEW_PATH <= lines[0]) then None
    else Some(FileDiff(NewFilePath(TrimStart(lines[0][|NEW_PATH|..])), Ranges(lines[1..]), Removed(lines[1..])))
  }

  function FileDiffs(sections: seq<seq<string>>): seq<FileDiff> {
    if sections == [] then []
    else
      var before, file := FileDiffs(sections[..|sections| - 1]), SectionDiff(sections[|sections| - 1]);
      if file.Some? then before + [file.value] else before
  }

  /** The file diffs a diff text holds. */
  function Parsed(text: string): seq<FileDiff> {
    FileDiffs(Sections(Lines(text)))
  }

  method ParseUnified(text: string) returns (files: seq<FileDiff>)
    ensures files == Parsed(text)
  {
    var lines := Lines(text);
    var sections: seq<seq<string>> := [];
    for i := 0 to |lines|
      invariant sections == Sections(lines[..i])
    {
      assert lines[..i + 1][..i] == lines[..i];
      if SECTION <= lines[i] {
        sections := sections + [[]];
      } else if sections != [] {
        var last := |sections| - 1;
        sections := sections[last := sections[last] + [lines[i]]];
      }
    }
    assert lines[..|lines|] == lines;
    files := [];
    for i := 0 to |sections|
      invariant files == FileDiffs(sections[..i])
    {
      assert sections[..i + 1][..i] == sections[..i];
      var file := ParseSection(sections[i]);
      if file.Some? {
        files := files + [file.value];
      }
    }
    assert sections[..|sections|] == sections;
  }

  method ParseSection(section: seq<string>) returns (file: Option<FileDiff>)
    ensures file == SectionDiff(section)
  {
    var i := 0;
    while i < |section| && !(NEW_PATH <= section[i])
      invariant i <= |section|
      invariant FromNewPath(section) == FromNewPath(section[i..])
    {
      assert section[i..][1..] == section[i + 1..];
      i := i + 1;
    }
    if i == |section| {
      return None;
    }
    var path := ParseNewFilePath(TrimStart(section[i][|NEW_PATH|..]));
    var ranges, removed := ParseHunks(section[i + 1..]);
    file := Some(FileDiff(path, ranges, removed));
  }

  method ParseHunks(lines: seq<string>) returns (ranges: seq<Range>, removed: seq<string>)
    ensures ranges == Ranges(lines) && removed == Removed(lines)
  {
    ranges, removed := [], [];
    for j := 0 to |lines|
      invariant ranges == Ranges(lines[..j]) && removed == Removed(lines[..j])
    {
      assert lines[..j + 1][..j] == lines[..j];
      var range, gone := ParseHunkLine(lines[j]);
      ranges, removed := ranges + range, removed + gone;
    }
    assert lines[..|lines|] == lines;
  }

  method ParseHunkLine(line: string) returns (range: seq<Range>, removed: seq<string>)
    ensures range == RangeIn(line) && removed == RemovedIn(line)
  {
    range, removed := [], [];
    var hunk, gone := StripPrefix(line, HUNK), StripPrefix(line, "-");
    if hunk.Some? {
      var r := NewHunkRange(hunk.value);
      if r.Some? {
        range := [r.value];
      }
    } else if gone.Some? {
      removed := [gone.value];
    }
  }

  method ParseNewFilePath(field: string) returns (path: Option<string>)
    ensures path == NewFilePath(field)
  {
    var name;
    var quoted := StripPrefix(field, "\"");
    if quoted.Some? {
      name := Unquote(quoted.value);
    } else {
      name := Trim(Until(field, '\t'));
    }
    if name == DEV_NULL {
      return None;
    }
    var stripped := StripPrefix(name, NEW_SIDE);
    return Some(if stripped.Some? then stripped.value else name);
  }
}
