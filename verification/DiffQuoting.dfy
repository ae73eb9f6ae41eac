/** Paths survive being printed by git and read back. */
module DiffQuoting {
  import opened Options
  import opened Text
  import opened Utf8
  import opened DiffParse
  import opened GitDiff

  lemma OctalOfThree(a: nat, b: nat, c: nat, rest: string)
    requires a < 8 && b < 8 && c < 8
    ensures var digits := [OctalDigit(a), OctalDigit(b), OctalDigit(c)];
            OctalPrefix(digits + rest, 3) == digits && OctalValue(digits) == a * 64 + b * 8 + c
  {
    var x, y, z := OctalDigit(a), OctalDigit(b), OctalDigit(c);
    assert ([x, y, z] + rest)[1..] == [y, z] + rest;
    assert ([y, z] + rest)[1..] == [z] + rest;
    assert ([z] + rest)[1..] == rest;
    assert OctalPrefix([z] + rest, 1) == [z] + OctalPrefix(rest, 0) == [z];
    assert OctalPrefix([y, z] + rest, 2) == [y] + [z];
    assert [x, y, z][..2] == [x, y] && [x, y][..1] == [x] && [x][..0] == "";
    assert OctalValue([x]) == a;
    assert OctalValue([x, y]) == a * 8 + b;
  }

  lemma LetterReads(x: char, rest: string)
    requires !IsOctal(x)
    ensures UnquotedBytes([BACKSLASH, x] + rest) == [Unescape(x)] + UnquotedBytes(rest)
  {
    var all := [BACKSLASH, x] + rest;
    assert all[2..] == rest && all[1] == x;
    assert OctalPrefix(all[1..], 3) == "";
  }

  lemma OctalReads(digits: string, n: nat, rest: string)
    requires n < 256 && digits != "" && OctalPrefix(digits + rest, 3) == digits && OctalValue(digits) == n
    ensures UnquotedBytes([BACKSLASH] + digits + rest) == [n as char] + UnquotedBytes(rest)
  {
    var all := [BACKSLASH] + digits + rest;
    assert all[1..] == digits + rest;
    assert all[1 + |digits|..] == rest;
  }

  predicate HasLetter(c: char) {
    c in {QUOTE, BACKSLASH, '\n', '\t', '\r'} || c as int in {7, 8, 11, 12}
  }

  lemma EscapeShape(c: char)
    ensures HasLetter(c) ==> exists x :: Escape(c) == [BACKSLASH, x] && Unescape(x) == c && !IsOctal(x)
    ensures !HasLetter(c) ==> Escape(c) == [BACKSLASH] + ThreeDigits(c as int)
  {
    if HasLetter(c) {
      assert Escape(c) == [BACKSLASH, Escape(c)[1]];
    }
  }

  /** One escaped byte is read back as itself, whatever follows. */
  lemma EscapeReads(c: char, rest: string)
    requires c as int < 256
    ensures UnquotedBytes(Escape(c) + rest) == [c] + UnquotedBytes(rest)
  {
    EscapeShape(c);
    if HasLetter(c) {
      var x :| Escape(c) == [BACKSLASH, x] && Unescape(x) == c && !IsOctal(x);
      LetterReads(x, rest);
    } else {
      ThreeDigitsRead(c as int, rest);
    }
  }

  lemma ThreeDigitsRead(n: nat, rest: string)
    requires n < 256
    ensures UnquotedBytes([BACKSLASH] + ThreeDigits(n) + rest) == [n as char] + UnquotedBytes(rest)
  {
    OctalOfThree(n / 64 % 8, n / 8 % 8, n % 8, rest);
    OctalReads(ThreeDigits(n), n, rest);
  }

  lemma ByteReads(c: char, high: bool, rest: string)
    requires c as int < 256
    ensures UnquotedBytes(QuoteByte(c, high) + rest) == [c] + UnquotedBytes(rest)
  {
    if NeedsEscape(c, high) {
      EscapeReads(c, rest);
    } else {
      assert ([c] + rest)[1..] == rest;
    }
  }

  /** Escaping any bytes, then undoing the escapes, is the identity; nothing after the last quote is looked at. */
  lemma {:induction false} EscapesRoundTrip(path: string, high: bool, rest: string)
    requires Bytes(path)
    ensures UnquotedBytes(QuoteBody(path, high) + [QUOTE] + rest) == path
  {
    if path == "" {
      assert (QuoteBody(path, high) + [QUOTE] + rest)[0] == QUOTE;
    } else {
      BodySplits(path, high, rest);
      EscapesRoundTrip(path[1..], high, rest);
      ByteReads(path[0], high, QuoteBody(path[1..], high) + [QUOTE] + rest);
    }
  }

  /** Reading a quoted path gives it back exactly when it is well-formed UTF-8; otherwise what is not is replaced. */
  lemma QuotingRoundTrip(path: string, high: bool, rest: string)
    requires Bytes(path)
    ensures Unquoted(QuoteBody(path, high) + [QUOTE] + rest) == Lossy(path)
    ensures Unquoted(QuoteBody(path, high) + [QUOTE] + rest) == path <==> WellFormed(path)
  {
    EscapesRoundTrip(path, high, rest);
    LossyExactly(path);
  }

  lemma BodySplits(path: string, high: bool, rest: string)
    requires Bytes(path) && path != ""
    ensures Bytes(path[1..]) && path[0] as int < 256 && path == [path[0]] + path[1..]
    ensures QuoteBody(path, high) + [QUOTE] + rest == QuoteByte(path[0], high) + (QuoteBody(path[1..], high) + [QUOTE] + rest)
  {
    assert path[0] in path && forall b | b in path[1..] :: b in path;
    Regroup(QuoteByte(path[0], high), QuoteBody(path[1..], high), [QUOTE], rest);
  }

  lemma Regroup(a: string, b: string, c: string, d: string)
    ensures a + b + c + d == a + (b + c + d)
  {
  }

  // ---------------------------------------------------------------- the new path

  lemma UntilPrefix(s: string, t: string, c: char)
    requires c !in s
    ensures Until(s + t, c) == s + Until(t, c)
    ensures After(s + t, c) == After(t, c)
  {
    var k := IndexOf(t, c);
    IndexPast(s, t, c);
    assert (s + t)[..|s| + k] == s + t[..k];
    if k < |t| {
      assert (s + t)[|s| + k + 1..] == t[k + 1..];
    }
  }

  lemma {:induction false} IndexPast(s: string, t: string, c: char)
    requires c !in s
    ensures IndexOf(s + t, c) == |s| + IndexOf(t, c)
  {
    if s == "" {
      assert s + t == t;
    } else {
      assert (s + t)[1..] == s[1..] + t;
      IndexPast(s[1..], t, c);
    }
  }

  /** Trimming never touches the side a path starts with. */
  lemma {:induction false} TrimEndKeepsSide(path: string)
    ensures TrimEnd(NEW_SIDE + path) == NEW_SIDE + TrimEnd(path)
    ensures |TrimEnd(path)| <= |path| && (TrimEnd(path) == path <==> SpaceAtEnd(path) == 0)
    decreases |path|
  {
    var n := SpaceAtEnd(path);
    assert SpaceAtEnd(NEW_SIDE + path) == n;
    if n > 0 {
      TrimEndKeepsSide(path[..|path| - n]);
      assert (NEW_SIDE + path)[..|NEW_SIDE + path| - n] == NEW_SIDE + path[..|path| - n];
    }
  }

  /** What the parser makes of a new path. */
  function SeenPath(path: Option<string>, high: bool): Option<string> {
    match path
    case None => None
    case Some(p) => Some(if NeedsQuote(p, high) then Lossy(p) else TrimEnd(p))
  }

  /** A quoted path survives exactly when it is well-formed UTF-8, any other one when it does not end in
      white space. */
  predicate PathSurvives(path: Option<string>, high: bool) {
    path.Some? ==> if NeedsQuote(path.value, high) then WellFormed(path.value) else SpaceAtEnd(path.value) == 0
  }

  lemma SurvivesExactly(path: Option<string>, high: bool)
    ensures SeenPath(path, high) == path <==> PathSurvives(path, high)
  {
    if path.Some? {
      TrimEndKeepsSide(path.value);
      LossyExactly(path.value);
    }
  }

  lemma SideNeedsNoQuote(path: string, high: bool)
    ensures NeedsQuote(NEW_SIDE + path, high) <==> NeedsQuote(path, high)
  {
    if NeedsQuote(path, high) {
      var c :| c in path && NeedsEscape(c, high);
      assert c in NEW_SIDE + path;
    }
  }

  /** The path line git prints is read as the path, with what is not UTF-8 replaced when it is quoted and
      without white space at its end when it is not. */
  lemma PathReads(path: Option<string>, high: bool)
    requires ValidPath(path)
    ensures NewFilePath(TrimStart(Named(NEW_SIDE, path, high))) == SeenPath(path, high)
  {
    match path
    case None => DevNullReads(high);
    case Some(p) =>
      SideNeedsNoQuote(p, high);
      var tab := if ' ' in Quoted(NEW_SIDE + p, high) then "\t" else "";
      if NeedsQuote(p, high) {
        QuotedReads(p, high, tab);
        assert Named(NEW_SIDE, path, high) == Quoted(NEW_SIDE + p, high) + tab;
      } else {
        PlainReads(p, high, tab);
        assert Named(NEW_SIDE, path, high) == NEW_SIDE + p + tab;
      }
  }

  lemma DevNullReads(high: bool)
    ensures NewFilePath(TrimStart(Named(NEW_SIDE, None, high))) == None
  {
    DevNullPlain();
    assert Named(NEW_SIDE, None, high) == DEV_NULL && !("\"" <= DEV_NULL);
  }

  lemma DevNullPlain()
    ensures TrimStart(DEV_NULL) == DEV_NULL && TrimEnd(DEV_NULL) == DEV_NULL && Until(DEV_NULL, '\t') == DEV_NULL
  {
    var s := DEV_NULL;
    assert SpaceAtStart(s) == 0 && SpaceAtEnd(s) == 0;
    assert '\t' !in s;
  }

  lemma SideIsStripped(p: string)
    ensures var path := NEW_SIDE + p; path != DEV_NULL && NEW_SIDE <= path && path[|NEW_SIDE|..] == p
  {
    assert (NEW_SIDE + p)[0] == 'b' && DEV_NULL[0] == '/';
  }

  lemma LossySide(p: string)
    ensures Lossy(NEW_SIDE + p) == NEW_SIDE + Lossy(p)
  {
    assert NEW_SIDE == ['b', '/'];
    assert NEW_SIDE + p == ['b'] + (['/'] + p);
    LossyAscii('b', ['/'] + p);
    LossyAscii('/', p);
  }

  lemma QuotedReads(p: string, high: bool, tab: string)
    requires Bytes(p) && NeedsQuote(NEW_SIDE + p, high)
    ensures NewFilePath(TrimStart(Quoted(NEW_SIDE + p, high) + tab)) == Some(Lossy(p))
  {
    var name := NEW_SIDE + p;
    var rest := QuoteBody(name, high) + [QUOTE] + tab;
    assert Quoted(name, high) + tab == [QUOTE] + rest;
    QuotingRoundTrip(name, high, tab);
    LossySide(p);
    QuotedFieldReads(rest, Lossy(p));
  }

  lemma QuotedFieldReads(rest: string, path: string)
    requires Unquoted(rest) == NEW_SIDE + path
    ensures NewFilePath(TrimStart([QUOTE] + rest)) == Some(path)
  {
    var field := [QUOTE] + rest;
    assert field[0] == QUOTE && TrimStart(field) == field && "\"" <= field;
    assert field[1..] == rest;
    SideIsStripped(path);
  }

  lemma PlainReads(p: string, high: bool, tab: string)
    requires !NeedsQuote(p, high) && (tab == "" || tab == "\t")
    ensures NewFilePath(TrimStart(NEW_SIDE + p + tab)) == Some(TrimEnd(p))
  {
    var field := NEW_SIDE + p + tab;
    assert field[0] == 'b' && TrimStart(field) == field;
    assert '\t' !in NEW_SIDE + p by {
      assert NeedsEscape('\t', high);
    }
    UntilPrefix(NEW_SIDE + p, tab, '\t');
    assert Until(field, '\t') == NEW_SIDE + p;
    assert TrimStart(NEW_SIDE + p) == NEW_SIDE + p;
    TrimEndKeepsSide(p);
    SideIsStripped(TrimEnd(p));
  }
}
