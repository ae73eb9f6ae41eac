/** What the two diff programs take from a line, for every line: hunk headers, path lines and escapes as grammars. */
module DiffFormats {
  import opened Options
  import opened Text
  import opened Utf8
  import opened DiffParse
  import opened DiffPy
  import opened DiffPyHunks

  predicate Digits(s: string) {
    s != "" && AllDigits(s)
  }

  // ---------------------------------------------------------------- the reader's patterns

  /** A number with an optional count: the digits, or the digits, a comma and digits. */
  predicate IsSpan(span: string, digits: string, count: string) {
    Digits(digits) && AllDigits(count) && span == if count == "" then digits else digits + "," + count
  }

  lemma {:induction false} DigitRunEnds(s: string)
    ensures var digits := DigitRun(s); digits <= s && (|digits| < |s| ==> !IsDigit(s[|digits|]))
  {
    if s != "" && IsDigit(s[0]) {
      DigitRunEnds(s[1..]);
    }
  }

  /** A span is read greedily, but what closes it is no digit and no comma, so it is read in one way only. */
  lemma SpanExactly(s: string, close: string, n: nat, rest: string)
    requires close != "" && !IsDigit(close[0]) && close[0] != ','
    ensures SpanMatch(s, close) == Some((n, rest)) <==>
            exists span, digits, count :: IsSpan(span, digits, count) && s == span + (close + rest) && n == DigitsValue(digits)
  {
    if SpanMatch(s, close) == Some((n, rest)) {
      SpanSplits(s, close, n, rest);
    }
    if span, digits, count :| IsSpan(span, digits, count) && s == span + (close + rest) && n == DigitsValue(digits) {
      SpanIsRead(span, digits, count, close, rest);
    }
  }

  lemma SpanIsRead(span: string, digits: string, count: string, close: string, rest: string)
    requires close != "" && !IsDigit(close[0]) && close[0] != ',' && IsSpan(span, digits, count)
    ensures SpanMatch(span + (close + rest), close) == Some((DigitsValue(digits), rest))
  {
    var tail := close + rest;
    var after := if count == "" then tail else [','] + count + tail;
    assert span + tail == digits + after;
    DigitRunReads(digits, after);
    assert (digits + after)[|digits|..] == after;
    AfterCountReads(count, tail);
    assert tail[|close|..] == rest;
  }

  lemma SpanSplits(s: string, close: string, n: nat, rest: string)
    requires SpanMatch(s, close) == Some((n, rest))
    ensures exists span, digits, count :: IsSpan(span, digits, count) && s == span + (close + rest) && n == DigitsValue(digits)
  {
    var digits := DigitRun(s);
    var after := s[|digits|..];
    var count := CountSplits(after);
    SpanJoins(s, digits, count, AfterCount(after));
    assert IsSpan(if count == "" then digits else digits + "," + count, digits, count);
  }

  lemma CountSplits(s: string) returns (count: string)
    ensures AllDigits(count) && s == (if count == "" then "" else "," + count) + AfterCount(s)
  {
    if "," <= s && DigitRun(s[1..]) != "" {
      count := DigitRun(s[1..]);
      assert s == "," + count + s[1 + |count|..];
    } else {
      count := "";
      assert s == "" + s;
    }
  }

  lemma SpanJoins(s: string, digits: string, count: string, tail: string)
    requires digits <= s && s[|digits|..] == (if count == "" then "" else "," + count) + tail
    ensures s == (if count == "" then digits else digits + "," + count) + tail
  {
    assert s == digits + s[|digits|..];
    if count == "" {
      assert "" + tail == tail;
    } else {
      Regroup(digits, "," + count, tail);
      Regroup(digits, ",", count);
    }
  }

  lemma Regroup(a: string, b: string, c: string)
    ensures a + (b + c) == (a + b) + c
  {
  }

  /** A hunk row for the reader: two minus and plus spans between "@@" signs, the second one's number the first new line. */
  ghost predicate IsHunkRow(row: string, n: nat) {
    exists from, fromDigits, fromCount, to, toDigits, toCount, tail ::
      && IsSpan(from, fromDigits, fromCount) && IsSpan(to, toDigits, toCount)
      && row == "@@ -" + (from + (" +" + (to + (" @@" + tail)))) && n == DigitsValue(toDigits)
  }

  lemma HunkMatchExactly(row: string, n: nat)
    ensures HunkMatch(row) == Some(n) <==> IsHunkRow(row, n)
  {
    if HunkMatch(row) == Some(n) {
      HunkSplits(row, n);
    }
    if IsHunkRow(row, n) {
      HunkIsRead(row, n);
    }
  }

  lemma HunkSplits(row: string, n: nat)
    requires HunkMatch(row) == Some(n)
    ensures IsHunkRow(row, n)
  {
    var spans := StripPrefix(row, "@@ -").value;
    var from := SpanMatch(spans, " +").value;
    var to := SpanMatch(from.1, " @@").value;
    SpanSplits(spans, " +", from.0, from.1);
    SpanSplits(from.1, " @@", to.0, to.1);
    var f, fd, fc :| IsSpan(f, fd, fc) && spans == f + (" +" + from.1) && from.0 == DigitsValue(fd);
    var t, td, tc :| IsSpan(t, td, tc) && from.1 == t + (" @@" + to.1) && to.0 == DigitsValue(td);
    assert row == "@@ -" + (f + (" +" + (t + (" @@" + to.1))));
  }

  lemma HunkIsRead(row: string, n: nat)
    requires IsHunkRow(row, n)
    ensures HunkMatch(row) == Some(n)
  {
    var f, fd, fc, t, td, tc, tail :|
      && IsSpan(f, fd, fc) && IsSpan(t, td, tc)
      && row == "@@ -" + (f + (" +" + (t + (" @@" + tail)))) && n == DigitsValue(td);
    var spans := f + (" +" + (t + (" @@" + tail)));
    assert row[4..] == spans && StripPrefix(row, "@@ -") == Some(spans);
    SpanIsRead(f, fd, fc, " +", t + (" @@" + tail));
    SpanIsRead(t, td, tc, " @@", tail);
  }

  /** A path row for the reader: what follows "+++ b/", if that is anything. */
  lemma FileMatchExactly(row: string, path: string)
    ensures FileMatch(row) == Some(path) <==> row == "+++ b/" + path && path != "" && '\n' !in path
  {
  }

  // ---------------------------------------------------------------- the parser's hunk headers

  /** `p` is what `s` holds before the first `c`. */
  predicate Before(s: string, c: char, p: string) {
    p <= s && c !in p && (|p| < |s| ==> s[|p|] == c)
  }

  lemma UntilIsBefore(s: string, c: char)
    ensures Before(s, c, Until(s, c)) && (c in s <==> |Until(s, c)| < |s|)
    ensures c in s ==> After(s, c) == Some(s[|Until(s, c)| + 1..])
    ensures c !in s ==> After(s, c) == None && Until(s, c) == s
  {
    assert forall x | x in Until(s, c) :: x != c;
  }

  lemma BeforeIsUntil(s: string, c: char, p: string)
    requires Before(s, c, p)
    ensures p == Until(s, c)
  {
    UntilIsBefore(s, c);
    var q := Until(s, c);
    assert forall i | 0 <= i < |q| :: s[i] == q[i] && q[i] != c;
    assert forall i | 0 <= i < |p| :: s[i] == p[i] && p[i] != c;
    assert |p| == |q|;
  }

  /** A hunk line for the parser: "@@", and after the first plus sign a spec up to the next plus sign, space or "@". */
  predicate IsHunkLine(line: string, before: string, spec: string, after: string) {
    && line == "@@" + (before + "+" + (spec + after)) && '+' !in before
    && '+' !in spec && ' ' !in spec && '@' !in spec
    && (after == "" || after[0] in {'+', ' ', '@'})
  }

  /** A start, and after a comma a count that is one if missing. */
  predicate AreParts(spec: string, start: string, count: string) {
    if ',' in spec then Before(spec, ',', start) && |start| < |spec| && Before(spec[|start| + 1..], ',', count)
    else start == spec && count == "1"
  }

  /** Both are numbers, with white space around them at most, and the count is not zero. */
  predicate IsRange(start: string, count: string, range: Range) {
    && IsNumber(Trim(start)) && IsNumber(Trim(count)) && DigitsValue(Trim(count)) > 0
    && range == Range(DigitsValue(Trim(start)), (DigitsValue(Trim(start)) + DigitsValue(Trim(count)) - 1) % 0x1_0000_0000_0000_0000)
  }

  /** A number that fits 64 bits. */
  predicate IsNumber(s: string) {
    Digits(s) && DigitsValue(s) <= 0xFFFF_FFFF_FFFF_FFFF
  }

  ghost predicate HasRange(spec: string, range: Range) {
    exists start, count :: AreParts(spec, start, count) && IsRange(start, count, range)
  }

  lemma RangeOfSpec(spec: string, range: Range)
    ensures SpecRange(spec) == Some(range) <==> HasRange(spec, range)
  {
    var start, count := Parts(spec);
    if HasRange(spec, range) {
      var s, c :| AreParts(spec, s, c) && IsRange(s, c, range);
      OneParts(spec, start, count, s, c);
    }
    PartsGive(spec, start, count, range);
  }

  lemma Parts(spec: string) returns (start: string, count: string)
    ensures AreParts(spec, start, count)
  {
    UntilIsBefore(spec, ',');
    start, count := Until(spec, ','), "1";
    if ',' in spec {
      UntilIsBefore(spec[|start| + 1..], ',');
      count := Until(spec[|start| + 1..], ',');
    }
  }

  lemma OneParts(spec: string, start: string, count: string, s: string, c: string)
    requires AreParts(spec, start, count) && AreParts(spec, s, c)
    ensures s == start && c == count
  {
    if ',' in spec {
      BeforeIsUntil(spec, ',', start);
      BeforeIsUntil(spec, ',', s);
      BeforeIsUntil(spec[|start| + 1..], ',', count);
      BeforeIsUntil(spec[|start| + 1..], ',', c);
    }
  }

  lemma PartsGive(spec: string, start: string, count: string, range: Range)
    requires AreParts(spec, start, count)
    ensures SpecRange(spec) == Some(range) <==> IsRange(start, count, range)
  {
    OneIsOne();
    UntilIsBefore(spec, ',');
    if ',' in spec {
      BeforeIsUntil(spec, ',', start);
      BeforeIsUntil(spec[|start| + 1..], ',', count);
    }
  }

  lemma OneIsOne()
    ensures Trim("1") == "1" && IsNumber("1") && DigitsValue("1") == 1
  {
    DigitsTrim("1");
    assert "1"[..0] == "";
  }

  lemma SpecUntil(plus: string, spec: string)
    ensures Until(Until(Until(plus, '+'), ' '), '@') == spec <==>
            && spec <= plus && '+' !in spec && ' ' !in spec && '@' !in spec
            && (|spec| < |plus| ==> plus[|spec|] in {'+', ' ', '@'})
  {
    var a := Until(plus, '+');
    var b := Until(a, ' ');
    UntilIsBefore(plus, '+');
    UntilIsBefore(a, ' ');
    UntilIsBefore(b, '@');
    if spec <= plus && '+' !in spec && ' ' !in spec && '@' !in spec && (|spec| < |plus| ==> plus[|spec|] in {'+', ' ', '@'}) {
      NoLonger(plus, '+', spec);
      NoLonger(a, ' ', spec);
      NoLonger(b, '@', spec);
      assert |spec| == |Until(b, '@')|;
    }
  }

  /** What holds no `c` is not longer than what stands before the first one. */
  lemma NoLonger(s: string, c: char, p: string)
    requires p <= s && c !in p
    ensures p <= Until(s, c)
  {
    UntilIsBefore(s, c);
    assert forall i | 0 <= i < |p| :: s[i] == p[i] && p[i] != c;
  }

  /** The range the parser takes from a line, if any, for every line. */
  lemma RangeExactly(line: string, range: Range)
    ensures RangeIn(line) == [range] <==>
            exists before, spec, after :: IsHunkLine(line, before, spec, after) && HasRange(spec, range)
    ensures |RangeIn(line)| <= 1
  {
    if RangeIn(line) == [range] {
      LineSplits(line, range);
    }
    if before, spec, after :| IsHunkLine(line, before, spec, after) && HasRange(spec, range) {
      LineIsRead(line, before, spec, after, range);
    }
  }

  lemma LineSplits(line: string, range: Range)
    requires RangeIn(line) == [range]
    ensures exists before, spec, after :: IsHunkLine(line, before, spec, after) && HasRange(spec, range)
  {
    var rest := line[2..];
    var before, plus := AtPlus(rest);
    var spec := NewSpec(rest).value;
    SpecUntil(plus, spec);
    RangeOfSpec(spec, range);
    LineJoins(line, before, plus, spec);
  }

  lemma AtPlus(rest: string) returns (before: string, plus: string)
    requires After(rest, '+').Some?
    ensures '+' !in before && rest == before + "+" + plus && After(rest, '+') == Some(plus)
  {
    UntilIsBefore(rest, '+');
    before, plus := Until(rest, '+'), After(rest, '+').value;
  }

  lemma LineJoins(line: string, before: string, plus: string, spec: string)
    requires "@@" <= line && line[2..] == before + "+" + plus && '+' !in before
    requires spec <= plus && '+' !in spec && ' ' !in spec && '@' !in spec && (|spec| < |plus| ==> plus[|spec|] in {'+', ' ', '@'})
    ensures IsHunkLine(line, before, spec, plus[|spec|..])
  {
    assert plus == spec + plus[|spec|..];
    assert line == "@@" + line[2..];
    assert line == "@@" + (before + "+" + (spec + plus[|spec|..]));
  }

  lemma LineIsRead(line: string, before: string, spec: string, after: string, range: Range)
    requires IsHunkLine(line, before, spec, after) && HasRange(spec, range)
    ensures RangeIn(line) == [range]
  {
    var rest, plus := before + "+" + (spec + after), spec + after;
    assert line[2..] == rest;
    IndexAfter(before, '+', plus);
    SpecUntil(plus, spec);
    RangeOfSpec(spec, range);
  }

  /** A path field without quotes: up to a tab, no path for "/dev/null", and without "b/" in front if it has that. */
  lemma PathFieldExactly(name: string, tail: string)
    requires Trim(name) == name && '\t' !in name && !("\"" <= name) && (tail == "" || tail[0] == '\t')
    requires !("\"" <= name + tail)
    ensures NewFilePath(name + tail) == if name == "/dev/null" then None else if "b/" <= name then Some(name[2..]) else Some(name)
  {
    BeforeIsUntil(name + tail, '\t', name);
  }

  /** Lines before the first section belong to no file. */
  lemma {:induction false} BeforeSections(lines: seq<string>)
    requires forall i | 0 <= i < |lines| :: !("diff --git " <= lines[i])
    ensures Sections(lines) == []
  {
    if lines != [] {
      BeforeSections(lines[..|lines| - 1]);
    }
  }

  // ---------------------------------------------------------------- escapes

  /** A byte of a quoted path stands for itself; the path ends at a quote, or where the text does. */
  lemma PlainByte(c: char, rest: string)
    ensures c != '\"' && c != '\\' ==> UnquotedBytes([c] + rest) == [c] + UnquotedBytes(rest)
    ensures UnquotedBytes("\"" + rest) == "" && UnquotedBytes("\\") == "" && UnquotedBytes("") == ""
  {
    assert ([c] + rest)[1..] == rest;
  }

  /** A backslash and a letter stand for a control byte, any other byte but an octal digit for itself. */
  lemma LetterEscape(c: char, rest: string)
    requires !('0' <= c <= '7')
    ensures UnquotedBytes(['\\', c] + rest) ==
            [if c == 'a' then 7 as char else if c == 'b' then 8 as char else if c == 't' then 9 as char else if c == 'n' then 10 as char
             else if c == 'v' then 11 as char else if c == 'f' then 12 as char else if c == 'r' then 13 as char else c] + UnquotedBytes(rest)
  {
    assert (['\\', c] + rest)[2..] == rest && (['\\', c] + rest)[1..] == [c] + rest;
  }

  /** A backslash and one to three octal digits, as many as there are, stand for the byte of that value, or for a
      question mark when there is none. */
  lemma OctalEscape(digits: string, rest: string)
    requires 1 <= |digits| <= 3 && (forall d | d in digits :: '0' <= d <= '7')
    requires |digits| < 3 && rest != "" ==> !('0' <= rest[0] <= '7')
    ensures var d := seq(3, i requires 0 <= i < 3 => if i < 3 - |digits| then 0 else digits[i - 3 + |digits|] as int - 48);
            var value := d[0] * 64 + d[1] * 8 + d[2];
            UnquotedBytes(['\\'] + digits + rest) == [if 0 <= value < 256 then value as char else '?'] + UnquotedBytes(rest)
  {
    var all := ['\\'] + digits + rest;
    assert all[1..] == digits + rest && all[1 + |digits|..] == rest;
    TakesAll(digits, rest, 3);
    OctalDigits(digits);
  }

  lemma {:induction false} TakesAll(digits: string, rest: string, most: nat)
    requires |digits| <= most && (forall d | d in digits :: IsOctal(d))
    requires |digits| < most && rest != "" ==> !IsOctal(rest[0])
    ensures OctalPrefix(digits + rest, most) == digits
  {
    if digits == "" {
      assert digits + rest == rest;
    } else {
      assert digits[0] in digits && forall d | d in digits[1..] :: d in digits;
      assert (digits + rest)[1..] == digits[1..] + rest;
      TakesAll(digits[1..], rest, most - 1);
    }
  }

  lemma OctalDigits(digits: string)
    requires 1 <= |digits| <= 3 && forall d | d in digits :: IsOctal(d)
    ensures OctalValue(digits) == if |digits| == 1 then digits[0] as int - 48
                                  else if |digits| == 2 then (digits[0] as int - 48) * 8 + (digits[1] as int - 48)
                                  else (digits[0] as int - 48) * 64 + (digits[1] as int - 48) * 8 + (digits[2] as int - 48)
  {
    assert digits[..|digits| - 1][..0] == "";
    if |digits| > 1 {
      assert digits[..|digits| - 1][|digits| - 2] == digits[|digits| - 2];
      assert OctalValue(digits[..1]) == digits[0] as int - 48 by {
        assert digits[..1][..0] == "" && digits[..1][0] == digits[0];
      }
      assert |digits| == 3 ==> digits[..2][..1] == digits[..1];
    }
  }
}
