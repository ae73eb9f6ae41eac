/** Decoding bytes as UTF-8: Unicode's well-formed sequences, and replacement of everything else. */
module Utf8 {
  /** U+FFFD, the replacement character. */
  const REPLACEMENT: string := [0xEF as char, 0xBF as char, 0xBD as char]

  /** The first bytes of a string: a well-formed character, or the longest start of one that has to be replaced. */
  datatype Chunk = Valid(len: nat) | Broken(len: nat)

  predicate Continues(s: string, i: nat) {
    i < |s| && 0x80 <= s[i] as int <= 0xBF
  }

  /** Whether the byte after the lead byte `b` may be `c`: no overlong form, no surrogate, nothing above U+10FFFF. */
  predicate Second(b: int, c: int) {
    if b == 0xE0 then 0xA0 <= c <= 0xBF
    else if b == 0xED then 0x80 <= c <= 0x9F
    else if b == 0xF0 then 0x90 <= c <= 0xBF
    else if b == 0xF4 then 0x80 <= c <= 0x8F
    else 0x80 <= c <= 0xBF
  }

  /** How many bytes a character with this lead byte has; none when no character starts with it. */
  function Width(b: int): nat {
    if 0 <= b < 0x80 then 1
    else if 0xC2 <= b <= 0xDF then 2
    else if 0xE0 <= b <= 0xEF then 3
    else if 0xF0 <= b <= 0xF4 then 4
    else 0
  }

  function FirstChunk(s: string): (c: Chunk)
    requires s != ""
    ensures 0 < c.len <= |s|
  {
    var b := s[0] as int;
    var width := Width(b);
    if width == 1 then Valid(1)
    else if width == 0 || |s| < 2 || !Second(b, s[1] as int) then Broken(1)
    else if width == 2 then Valid(2)
    else if !Continues(s, 2) then Broken(2)
    else if width == 3 then Valid(3)
    else if !Continues(s, 3) then Broken(3)
    else Valid(4)
  }

  predicate WellFormed(s: string) {
    s == "" || (FirstChunk(s).Valid? && WellFormed(s[FirstChunk(s).len..]))
  }

  /** Decoding that never fails: every broken chunk becomes one replacement character. */
  function Lossy(s: string): string {
    if s == "" then ""
    else
      var c := FirstChunk(s);
      (if c.Valid? then s[..c.len] else REPLACEMENT) + Lossy(s[c.len..])
  }

  /** The replacement character is a valid chunk, so no broken chunk is replaced by itself. */
  lemma ReplacementIsValid(s: string)
    requires REPLACEMENT <= s
    ensures FirstChunk(s) == Valid(3)
  {
    assert s[0] == REPLACEMENT[0] && s[1] == REPLACEMENT[1] && s[2] == REPLACEMENT[2];
  }

  /** Decoding leaves a string alone exactly when it is well-formed. */
  lemma {:induction false} LossyExactly(s: string)
    ensures Lossy(s) == s <==> WellFormed(s)
  {
    if s != "" {
      var c := FirstChunk(s);
      var rest := s[c.len..];
      if c.Valid? {
        LossyExactly(rest);
        assert s == s[..c.len] + rest;
        assert (s[..c.len] + Lossy(rest))[c.len..] == Lossy(rest);
      } else {
        assert REPLACEMENT <= Lossy(s);
        if REPLACEMENT <= s {
          ReplacementIsValid(s);
        }
      }
    }
  }

  /** Decoding gives a well-formed string, so decoding twice is decoding once. */
  lemma {:induction false} LossyIsWellFormed(s: string)
    ensures WellFormed(Lossy(s))
  {
    if s != "" {
      var c := FirstChunk(s);
      LossyIsWellFormed(s[c.len..]);
      if c.Valid? {
        ChunkStays(s, Lossy(s[c.len..]));
      } else {
        ChunkStays(REPLACEMENT, Lossy(s[c.len..]));
      }
    }
  }

  /** A valid chunk is one whatever follows it. */
  lemma ChunkStays(s: string, rest: string)
    requires s != "" && FirstChunk(s).Valid?
    ensures var len := FirstChunk(s).len; WellFormed(s[..len] + rest) <==> WellFormed(rest)
  {
    var len := FirstChunk(s).len;
    var all := s[..len] + rest;
    assert forall i | 0 <= i < len :: all[i] == s[i];
    assert FirstChunk(all) == Valid(len);
    assert all[len..] == rest;
  }

  /** ASCII text decodes to itself, whatever follows. */
  lemma LossyAscii(c: char, s: string)
    requires c as int < 0x80
    ensures Lossy([c] + s) == [c] + Lossy(s)
    ensures WellFormed([c] + s) <==> WellFormed(s)
  {
    assert ([c] + s)[1..] == s && ([c] + s)[..1] == [c];
  }
}
