/** Text as a sequence of UTF-8 bytes, one `char` below 256 for each, and the string operations diff parsing
    is made of. */
module Text {
  import opened Options

  const BACKSLASH := '\\'
  const QUOTE := '\"'

  function StripPrefix(s: string, prefix: string): (r: Option<string>)
    ensures r.Some? <==> prefix <= s
    ensures r.Some? ==> s == prefix + r.value
  {
    if prefix <= s then Some(s[|prefix|..]) else None
  }

  /** Where `c` first occurs, or the end. */
  function IndexOf(s: string, c: char): (i: nat)
    ensures i <= |s| && (i < |s| ==> s[i] == c)
    ensures forall j | 0 <= j < i :: s[j] != c
  {
    if s == "" || s[0] == c then 0 else 1 + IndexOf(s[1..], c)
  }

  /** The part before the first `c`. */
  function Until(s: string, c: char): string {
    s[..IndexOf(s, c)]
  }

  /** The part after the first `c`, if there is one. */
  function After(s: string, c: char): Option<string> {
    var i := IndexOf(s, c);
    if i < |s| then Some(s[i + 1..]) else None
  }

  lemma {:induction false} IndexAfter(s: string, c: char, rest: string)
    requires c !in s
    ensures IndexOf(s + [c] + rest, c) == |s|
    ensures Until(s + [c] + rest, c) == s && After(s + [c] + rest, c) == Some(rest)
  {
    var all := s + [c] + rest;
    assert all[|s|] == c;
    assert forall j | 0 <= j < |s| :: all[j] == s[j];
    assert all[|s| + 1..] == rest;
  }

  lemma NoIndex(s: string, c: char)
    requires c !in s
    ensures Until(s, c) == s && After(s, c) == None
  {
  }

  // ---------------------------------------------------------------- lines

  /** A line without the carriage return that may end it. */
  function Chomp(line: string): string {
    if line != "" && line[|line| - 1] == '\r' then line[..|line| - 1] else line
  }

  /** The lines of a text: a line ends at a line feed, with or without a carriage return before it. */
  function Lines(text: string): seq<string>
    decreases |text|
  {
    var i := IndexOf(text, '\n');
    if text == "" then []
    else if i == |text| then [text]
    else [Chomp(text[..i])] + Lines(text[i + 1..])
  }

  /** Text made of lines, each ended by a line feed. */
  function Unlines(lines: seq<string>): string {
    if lines == [] then "" else lines[0] + "\n" + Unlines(lines[1..])
  }

  predicate OneLine(line: string) {
    '\n' !in line
  }

  predicate AllOneLine(lines: seq<string>) {
    forall l | l in lines :: OneLine(l)
  }

  function Chomped(lines: seq<string>): (r: seq<string>)
    ensures |r| == |lines| && forall i | 0 <= i < |r| :: r[i] == Chomp(lines[i])
  {
    if lines == [] then [] else [Chomp(lines[0])] + Chomped(lines[1..])
  }

  lemma {:induction false} LinesOfUnlines(lines: seq<string>)
    requires AllOneLine(lines)
    ensures Lines(Unlines(lines)) == Chomped(lines)
  {
    if lines != [] {
      var rest := Unlines(lines[1..]);
      assert lines[0] in lines;
      IndexAfter(lines[0], '\n', rest);
      assert Unlines(lines) == lines[0] + ['\n'] + rest;
      LinesOfUnlines(lines[1..]);
    }
  }

  /** Every text is lines ended by line feeds and a rest without one; the rest is a line as it is, if it is anything. */
  lemma {:induction false} LinesExactly(lines: seq<string>, rest: string)
    requires AllOneLine(lines) && OneLine(rest)
    ensures Lines(Unlines(lines) + rest) == Chomped(lines) + if rest == "" then [] else [rest]
  {
    if lines == [] {
      assert Unlines(lines) + rest == rest;
      NoIndex(rest, '\n');
    } else {
      var more := Unlines(lines[1..]) + rest;
      assert lines[0] in lines && forall l | l in lines[1..] :: l in lines;
      assert Unlines(lines) + rest == lines[0] + ['\n'] + more;
      FirstLine(lines[0], more);
      LinesExactly(lines[1..], rest);
    }
  }

  lemma FirstLine(line: string, more: string)
    requires OneLine(line)
    ensures Lines(line + ['\n'] + more) == [Chomp(line)] + Lines(more)
  {
    IndexAfter(line, '\n', more);
  }

  lemma ChompedConcat(a: seq<string>, b: seq<string>)
    ensures Chomped(a + b) == Chomped(a) + Chomped(b)
  {
  }

  lemma ChompedOne(a: string)
    ensures Chomped([a]) == [Chomp(a)]
  {
  }

  // ---------------------------------------------------------------- white space

  predicate AsciiSpace(c: char) {
    c == ' ' || 9 <= c as int <= 13
  }

  /** Two bytes that encode a white-space character: U+0085 or U+00A0. */
  predicate Space2(a: char, b: char) {
    a as int == 0xC2 && b as int in {0x85, 0xA0}
  }

  /** Three bytes that encode a white-space character: U+1680, U+2000 to U+200A, U+2028, U+2029, U+202F,
      U+205F or U+3000. */
  predicate Space3(a: char, b: char, c: char) {
    var x, y, z := a as int, b as int, c as int;
    || (x == 0xE1 && y == 0x9A && z == 0x80)
    || (x == 0xE2 && y == 0x80 && (0x80 <= z <= 0x8A || z in {0xA8, 0xA9, 0xAF}))
    || (x == 0xE2 && y == 0x81 && z == 0x9F)
    || (x == 0xE3 && y == 0x80 && z == 0x80)
  }

  /** How many bytes of white space `s` ends in: the length of its last character, if that is white space. */
  function SpaceAtEnd(s: string): (n: nat)
    ensures n <= |s|
  {
    var k := |s|;
    if k >= 1 && AsciiSpace(s[k - 1]) then 1
    else if k >= 2 && Space2(s[k - 2], s[k - 1]) then 2
    else if k >= 3 && Space3(s[k - 3], s[k - 2], s[k - 1]) then 3
    else 0
  }

  function SpaceAtStart(s: string): (n: nat)
    ensures n <= |s|
  {
    var k := |s|;
    if k >= 1 && AsciiSpace(s[0]) then 1
    else if k >= 2 && Space2(s[0], s[1]) then 2
    else if k >= 3 && Space3(s[0], s[1], s[2]) then 3
    else 0
  }

  function TrimEnd(s: string): string
    decreases |s|
  {
    var n := SpaceAtEnd(s);
    if n == 0 then s else TrimEnd(s[..|s| - n])
  }

  function TrimStart(s: string): string
    decreases |s|
  {
    var n := SpaceAtStart(s);
    if n == 0 then s else TrimStart(s[n..])
  }

  function Trim(s: string): string {
    TrimEnd(TrimStart(s))
  }

  // ---------------------------------------------------------------- numbers

  /** `count` numbers from `first` on. */
  function Numbers(first: nat, count: nat): (r: set<nat>)
    ensures forall k :: k in r <==> first <= k < first + count
  {
    if count == 0 then {} else Numbers(first, count - 1) + {first + count - 1}
  }

  const USIZE_MAX: nat := 0xFFFF_FFFF_FFFF_FFFF

  predicate IsDigit(c: char) {
    '0' <= c <= '9'
  }

  predicate AllDigits(s: string) {
    forall c | c in s :: IsDigit(c)
  }

  function Decimal(n: nat): (s: string)
    ensures s != "" && AllDigits(s)
  {
    var last := (48 + n % 10) as char;
    if n < 10 then [last] else Decimal(n / 10) + [last]
  }

  function DigitsValue(s: string): nat
    requires AllDigits(s)
  {
    if s == "" then 0
    else
      var last := s[|s| - 1];
      assert last in s && IsDigit(last);
      DigitsValue(s[..|s| - 1]) * 10 + (last as int - 48)
  }

  function ParseUsize(s: string): Option<nat> {
    if s != "" && AllDigits(s) && DigitsValue(s) <= USIZE_MAX then Some(DigitsValue(s)) else None
  }

  lemma {:induction false} DecimalParses(n: nat)
    ensures DigitsValue(Decimal(n)) == n
    ensures n <= USIZE_MAX ==> ParseUsize(Decimal(n)) == Some(n)
  {
    if n >= 10 {
      DecimalParses(n / 10);
      assert Decimal(n)[..|Decimal(n)| - 1] == Decimal(n / 10);
    }
  }

  lemma DigitsTrim(s: string)
    requires s != "" && AllDigits(s)
    ensures Trim(s) == s
  {
    assert s[0] in s && s[|s| - 1] in s;
  }
}
