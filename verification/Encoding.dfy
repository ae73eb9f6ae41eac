/** Which bytes stand for which characters: the chunks of lossy decoding, white space and line boundaries, told by the
    code points that are encoded. */
module Encoding {
  import opened Utf8
  import opened Text
  import opened DiffPy

  /** Unicode scalar values. */
  predicate Scalar(cp: nat) {
    cp < 0xD800 || 0xE000 <= cp < 0x11_0000
  }

  function Byte(n: nat): char
    requires n < 256
  {
    n as char
  }

  /** The UTF-8 encoding of a scalar value. */
  function Encode(cp: nat): string
    requires Scalar(cp)
  {
    if cp < 0x80 then [Byte(cp)]
    else if cp < 0x800 then [Byte(0xC0 + cp / 64), Byte(0x80 + cp % 64)]
    else if cp < 0x1_0000 then [Byte(0xE0 + cp / 4096), Byte(0x80 + cp / 64 % 64), Byte(0x80 + cp % 64)]
    else [Byte(0xF0 + cp / 262144), Byte(0x80 + cp / 4096 % 64), Byte(0x80 + cp / 64 % 64), Byte(0x80 + cp % 64)]
  }

  // ---------------------------------------------------------------- chunks

  /** The scalar value whose encoding a valid chunk is. */
  function Decoded(s: string): (cp: nat)
    requires s != "" && FirstChunk(s).Valid?
  {
    var b := s[0] as int;
    if b < 0x80 then b
    else if b < 0xE0 then (b - 0xC0) * 64 + (s[1] as int - 0x80)
    else if b < 0xF0 then (b - 0xE0) * 4096 + (s[1] as int - 0x80) * 64 + (s[2] as int - 0x80)
    else (b - 0xF0) * 262144 + (s[1] as int - 0x80) * 4096 + (s[2] as int - 0x80) * 64 + (s[3] as int - 0x80)
  }

  lemma ValidDecodes(s: string)
    requires s != "" && FirstChunk(s).Valid?
    ensures Scalar(Decoded(s)) && Encode(Decoded(s)) == s[..FirstChunk(s).len]
  {
    var b := s[0] as int;
    if b < 0x80 {
    } else if b < 0xE0 {
      TwoBytes(b - 0xC0, s[1] as int - 0x80);
    } else if b < 0xF0 {
      ThreeBytes(b - 0xE0, s[1] as int - 0x80, s[2] as int - 0x80);
    } else {
      FourBytes(b - 0xF0, s[1] as int - 0x80, s[2] as int - 0x80, s[3] as int - 0x80);
    }
  }

  lemma TwoBytes(x: nat, y: nat)
    requires 2 <= x < 32 && y < 64
    ensures Scalar(x * 64 + y) && Encode(x * 64 + y) == [Byte(0xC0 + x), Byte(0x80 + y)]
  {
  }

  lemma ThreeBytes(x: nat, y: nat, z: nat)
    requires x < 16 && y < 64 && z < 64 && (x == 0 ==> y >= 32) && (x == 13 ==> y < 32)
    ensures var cp := x * 4096 + y * 64 + z; Scalar(cp) && Encode(cp) == [Byte(0xE0 + x), Byte(0x80 + y), Byte(0x80 + z)]
  {
    var cp := x * 4096 + y * 64 + z;
    assert cp / 64 == x * 64 + y && cp / 4096 == x;
  }

  lemma FourBytes(x: nat, y: nat, z: nat, w: nat)
    requires x < 5 && y < 64 && z < 64 && w < 64 && (x == 0 ==> y >= 16) && (x == 4 ==> y < 16)
    ensures var cp := x * 262144 + y * 4096 + z * 64 + w;
            Scalar(cp) && Encode(cp) == [Byte(0xF0 + x), Byte(0x80 + y), Byte(0x80 + z), Byte(0x80 + w)]
  {
    var cp := x * 262144 + y * 4096 + z * 64 + w;
    assert cp / 64 == x * 4096 + y * 64 + z && cp / 4096 == x * 64 + y && cp / 262144 == x;
  }

  lemma EncodedIsValid(cp: nat, s: string)
    requires Scalar(cp) && Encode(cp) <= s
    ensures s != "" && FirstChunk(s) == Valid(|Encode(cp)|)
  {
    EncodeShape(cp);
    ShapeIsValid(Encode(cp), s);
  }

  /** A lead byte and as many bytes after it as it asks for, the second one in its range. */
  predicate Shaped(e: string) {
    && e != "" && Width(e[0] as int) == |e|
    && (|e| > 1 ==> Second(e[0] as int, e[1] as int))
    && (|e| > 2 ==> 0x80 <= e[2] as int <= 0xBF) && (|e| > 3 ==> 0x80 <= e[3] as int <= 0xBF)
  }

  lemma EncodeShape(cp: nat)
    requires Scalar(cp)
    ensures Shaped(Encode(cp))
  {
    if cp >= 0x1_0000 {
      LongShape(cp);
    } else if cp >= 0x800 {
      assert cp / 4096 == 0 ==> cp / 64 >= 32;
      assert cp / 4096 == 13 ==> cp / 64 % 64 < 32;
    }
  }

  lemma LongShape(cp: nat)
    requires 0x1_0000 <= cp < 0x11_0000
    ensures Shaped(Encode(cp))
  {
    assert cp / 262144 == 0 ==> cp / 4096 >= 16;
    assert cp / 262144 == 4 ==> cp / 4096 % 64 < 16;
  }

  lemma ShapeIsValid(e: string, s: string)
    requires Shaped(e) && e <= s
    ensures FirstChunk(s) == Valid(|e|)
  {
    assert forall i | 0 <= i < |e| :: s[i] == e[i];
  }

  /** A valid chunk is the encoding of one scalar value. */
  lemma ValidExactly(s: string, n: nat)
    requires s != ""
    ensures FirstChunk(s) == Valid(n) <==> exists cp :: Scalar(cp) && Encode(cp) <= s && n == |Encode(cp)|
  {
    if FirstChunk(s) == Valid(n) {
      ValidDecodes(s);
      assert s[..n] <= s;
    }
    if cp :| Scalar(cp) && Encode(cp) <= s && n == |Encode(cp)| {
      EncodedIsValid(cp, s);
    }
  }

  /** Some encoding starts with these bytes. */
  ghost predicate Starts(bytes: string) {
    exists cp :: Scalar(cp) && bytes <= Encode(cp)
  }

  lemma TwoStart(s: string)
    requires |s| >= 2 && Width(s[0] as int) >= 3 && Second(s[0] as int, s[1] as int)
    ensures Starts(s[..2])
  {
    var x, y := s[0] as int, s[1] as int - 0x80;
    if x < 0xF0 {
      ThreeBytes(x - 0xE0, y, 0);
      assert s[..2] <= Encode((x - 0xE0) * 4096 + y * 64);
    } else {
      FourBytes(x - 0xF0, y, 0, 0);
      assert s[..2] <= Encode((x - 0xF0) * 262144 + y * 4096);
    }
  }

  lemma ThreeStart(s: string)
    requires |s| >= 3 && Width(s[0] as int) == 4 && Second(s[0] as int, s[1] as int) && Continues(s, 2)
    ensures Starts(s[..3])
  {
    var x, y, z := s[0] as int - 0xF0, s[1] as int - 0x80, s[2] as int - 0x80;
    FourBytes(x, y, z, 0);
    assert s[..3] <= Encode(x * 262144 + y * 4096 + z * 64);
  }

  lemma NoLongerStart(s: string, k: nat)
    requires s != "" && FirstChunk(s).Broken? && FirstChunk(s).len < k <= |s|
    ensures !Starts(s[..k])
  {
    if cp: nat :| Scalar(cp) && s[..k] <= Encode(cp) {
      EncodedIsValid(cp, Encode(cp));
      SharedStart(s, Encode(cp), k);
    }
  }

  lemma SharedStart(s: string, e: string, k: nat)
    requires s != "" && e != "" && FirstChunk(e) == Valid(|e|) && k <= |s| && s[..k] <= e
    ensures FirstChunk(s).Valid? || FirstChunk(s).len >= k
  {
    assert forall i | 0 <= i < k :: e[i] == s[..k][i] == s[i];
  }

  /** What has to be replaced is as long as it can be: the longest start of some encoding, or one byte. */
  lemma BrokenIsLongest(s: string)
    requires s != "" && FirstChunk(s).Broken?
    ensures FirstChunk(s).len == 1 || Starts(s[..FirstChunk(s).len])
    ensures forall k: nat | FirstChunk(s).len < k <= |s| :: !Starts(s[..k])
    ensures REPLACEMENT == Encode(0xFFFD)
  {
    if FirstChunk(s).len == 2 {
      TwoStart(s);
    } else if FirstChunk(s).len == 3 {
      ThreeStart(s);
    }
    forall k: nat | FirstChunk(s).len < k <= |s| ensures !Starts(s[..k]) {
      NoLongerStart(s, k);
    }
  }

  // ---------------------------------------------------------------- white space and line boundaries

  /** The code points with the property White_Space. */
  predicate WhiteSpace(cp: nat) {
    9 <= cp <= 13 || cp == 32 || cp == 0x85 || cp == 0xA0 || cp == 0x1680 || 0x2000 <= cp <= 0x200A
    || cp in {0x2028, 0x2029, 0x202F, 0x205F, 0x3000}
  }

  ghost predicate IsWhite(bytes: string) {
    exists cp :: WhiteSpace(cp) && Scalar(cp) && bytes == Encode(cp)
  }

  /** The bytes of white space that `s` starts or ends in are those of one white-space character. */
  lemma SpaceExactly(s: string, n: nat)
    requires 0 < n <= |s|
    ensures SpaceAtStart(s) == n <==> IsWhite(s[..n])
    ensures SpaceAtEnd(s) == n <==> IsWhite(s[|s| - n..])
  {
    if SpaceAtStart(s) == n {
      WhiteBytes(s[..n]);
    } else {
      WhiteIsSpace(s, n);
    }
    if SpaceAtEnd(s) == n {
      WhiteBytes(s[|s| - n..]);
    } else {
      WhiteEnds(s, n);
    }
  }

  lemma WhiteEnds(s: string, n: nat)
    requires 0 < n <= |s|
    ensures IsWhite(s[|s| - n..]) ==> SpaceAtEnd(s) == n
  {
    if IsWhite(s[|s| - n..]) {
      var cp :| WhiteSpace(cp) && Scalar(cp) && s[|s| - n..] == Encode(cp);
      EndsIn(cp, s);
    }
  }

  lemma EndsIn(cp: nat, s: string)
    requires WhiteSpace(cp) && |Encode(cp)| <= |s| && s[|s| - |Encode(cp)|..] == Encode(cp)
    ensures SpaceAtEnd(s) == |Encode(cp)|
  {
    var e := Encode(cp);
    assert forall i | 0 <= i < |e| :: s[|s| - |e| + i] == e[i];
    if cp >= 0x800 {
      assert cp / 4096 in {1, 2, 3} && (cp / 64 % 64, cp % 64) == ((cp - cp / 4096 * 4096) / 64, cp % 64);
    }
  }

  lemma WhiteIsSpace(s: string, n: nat)
    requires 0 < n <= |s|
    ensures IsWhite(s[..n]) ==> SpaceAtStart(s) == n
  {
    if IsWhite(s[..n]) {
      var cp :| WhiteSpace(cp) && Scalar(cp) && s[..n] == Encode(cp);
      SpaceOf(cp, s);
    }
  }

  lemma SpaceOf(cp: nat, s: string)
    requires WhiteSpace(cp) && Encode(cp) <= s
    ensures SpaceAtStart(s) == |Encode(cp)|
  {
    var e := Encode(cp);
    assert forall i | 0 <= i < |e| :: s[i] == e[i];
    if cp >= 0x800 {
      assert cp / 4096 in {1, 2, 3} && (cp / 64 % 64, cp % 64) == ((cp - cp / 4096 * 4096) / 64, cp % 64);
    }
  }

  lemma WhiteBytes(e: string)
    requires (|e| == 1 && AsciiSpace(e[0])) || (|e| == 2 && Space2(e[0], e[1])) || (|e| == 3 && Space3(e[0], e[1], e[2]))
    ensures IsWhite(e)
  {
    if |e| == 1 {
      assert e == Encode(e[0] as int);
    } else if |e| == 2 {
      assert e == Encode(e[1] as int);
    } else {
      var x, y, z := e[0] as int - 0xE0, e[1] as int - 0x80, e[2] as int - 0x80;
      ThreeBytes(x, y, z);
      assert e == Encode(x * 4096 + y * 64 + z);
    }
  }

  /** The code points at which a text is split into rows. */
  predicate LineBoundary(cp: nat) {
    10 <= cp <= 13 || 28 <= cp <= 30 || cp in {0x85, 0x2028, 0x2029}
  }

  ghost predicate IsBoundary(bytes: string) {
    exists cp :: LineBoundary(cp) && Scalar(cp) && bytes == Encode(cp)
  }

  /** A boundary is a carriage return and a line feed, or else one of these characters. */
  lemma BoundaryExactly(s: string, n: nat)
    requires 0 < n <= |s|
    ensures BreakLen(s) == n <==> if "\r\n" <= s then n == 2 else IsBoundary(s[..n])
  {
    if !("\r\n" <= s) && BreakLen(s) == n {
      BoundaryBytes(s[..n]);
    }
    if IsBoundary(s[..n]) {
      var cp :| LineBoundary(cp) && Scalar(cp) && s[..n] == Encode(cp);
      assert forall i | 0 <= i < n :: s[i] == s[..n][i];
    }
  }

  lemma BoundaryBytes(e: string)
    requires (|e| == 1 && (10 <= e[0] as int <= 13 || 28 <= e[0] as int <= 30)) || (|e| == 2 && e[0] as int == 0xC2 && e[1] as int == 0x85)
             || (|e| == 3 && e[0] as int == 0xE2 && e[1] as int == 0x80 && e[2] as int in {0xA8, 0xA9})
    ensures IsBoundary(e)
  {
    if |e| == 1 {
      assert e == Encode(e[0] as int);
    } else if |e| == 2 {
      assert e == Encode(0x85);
    } else {
      assert e == Encode(if e[2] as int == 0xA8 then 0x2028 else 0x2029);
    }
  }

  predicate BoundaryAt(text: string, i: nat)
    requires i <= |text|
  {
    BreakLen(text[i..]) > 0
  }

  /** A row reaches up to the first boundary, and the rows go on after it. */
  lemma FirstRowExactly(text: string, n: nat)
    requires n <= |text| && (n < |text| ==> BoundaryAt(text, n)) && forall i | 0 <= i < n :: !BoundaryAt(text, i)
    ensures text != "" ==> SplitLines(text) == [text[..n]] + SplitLines(text[n + BreakLen(text[n..])..])
    ensures text == "" ==> SplitLines(text) == []
  {
    BreakAtIs(text, n);
    RowsFrom(text, n);
    RestFrom(text, n);
  }

  lemma RowsFrom(text: string, n: nat)
    requires BreakAt(text) == n
    ensures text != "" ==> SplitLines(text) == [text[..n]] + SplitLines(AfterRow(text))
  {
  }

  lemma RestFrom(text: string, n: nat)
    requires BreakAt(text) == n
    ensures AfterRow(text) == text[n + BreakLen(text[n..])..]
  {
  }

  lemma {:induction false} BreakAtIs(text: string, n: nat)
    requires n <= |text| && (n < |text| ==> BoundaryAt(text, n)) && forall i | 0 <= i < n :: !BoundaryAt(text, i)
    ensures BreakAt(text) == n
  {
    assert text[0..] == text;
    if n > 0 {
      assert !BoundaryAt(text, 0);
      forall i | 0 <= i < |text| ensures BoundaryAt(text[1..], i) == BoundaryAt(text, i + 1) {
        assert text[1..][i..] == text[i + 1..];
      }
      BreakAtIs(text[1..], n - 1);
    } else if text != "" {
      assert BoundaryAt(text, 0);
    }
  }
}
