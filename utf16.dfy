/**
 * UTF-16 encoding form (Unicode Standard, section 3.9, definition D91): a scalar value
 * above U+FFFF takes a surrogate pair, every other one a single code unit. Text lengths
 * and cursor positions of the editor are counted in these units.
 */
module Utf16 {

  type CodeUnit = x: int | 0 <= x < 0x1_0000

  predicate IsHighSurrogate(u: CodeUnit) { 0xD800 <= u < 0xDC00 }
  predicate IsLowSurrogate(u: CodeUnit) { 0xDC00 <= u < 0xE000 }

  /** Number of code units `c` occupies. */
  function UnitCount(c: char): nat
  {
    if c as int > 0xFFFF then 2 else 1
  }

  /** `s.encode_utf16().count()` */
  function Length(s: string): nat
  {
    if s == [] then 0 else UnitCount(s[0]) + Length(s[1..])
  }

  function EncodeChar(c: char): (r: seq<CodeUnit>)
    ensures |r| == UnitCount(c)
  {
    if c as int <= 0xFFFF then [c as int]
    else
      var v := c as int - 0x1_0000;
      [0xD800 + v / 0x400, 0xDC00 + v % 0x400]
  }

  function Encode(s: string): seq<CodeUnit>
  {
    if s == [] then [] else EncodeChar(s[0]) + Encode(s[1..])
  }

  const REPLACEMENT: char := 0xFFFD as char

  /**
   * Lossy decoding: a well-formed surrogate pair gives its scalar value, a lone surrogate
   * gives U+FFFD.
   */
  function Decode(units: seq<CodeUnit>): string
    decreases |units|
  {
    if units == [] then []
    else if IsHighSurrogate(units[0]) && |units| > 1 && IsLowSurrogate(units[1]) then
      var v: int := 0x1_0000 + (units[0] as int - 0xD800) * 0x400 + (units[1] as int - 0xDC00);
      [v as char] + Decode(units[2..])
    else if IsHighSurrogate(units[0]) || IsLowSurrogate(units[0]) then
      [REPLACEMENT] + Decode(units[1..])
    else
      [units[0] as char] + Decode(units[1..])
  }

  /** The encoding counts exactly `Length(s)` code units. */
  lemma {:induction false} EncodeLength(s: string)
    ensures |Encode(s)| == Length(s)
  {
    if s != [] {
      EncodeLength(s[1..]);
    }
  }

  /** Decoding what was encoded gives back the string. */
  lemma {:induction false} DecodeEncode(s: string)
    ensures Decode(Encode(s)) == s
  {
    if s != [] {
      var c := s[0];
      DecodeEncode(s[1..]);
      var e := EncodeChar(c);
      assert Encode(s) == e + Encode(s[1..]);
      if c as int <= 0xFFFF {
        assert !IsHighSurrogate(e[0]) && !IsLowSurrogate(e[0]);
        assert (e + Encode(s[1..]))[1..] == Encode(s[1..]);
      } else {
        var v := c as int - 0x1_0000;
        assert IsHighSurrogate(e[0]) && IsLowSurrogate(e[1]);
        assert 0x1_0000 + (e[0] as int - 0xD800) * 0x400 + (e[1] as int - 0xDC00) == c as int;
        assert (e + Encode(s[1..]))[2..] == Encode(s[1..]);
      }
    }
  }

}
