/**
 * `WebUtility.UrlDecode`: `+` becomes a space and `%` followed by two hex
 * digits becomes the byte they denote (section 2.1 of RFC 3986); any other
 * character, including a `%` not followed by two hex digits, is kept.
 * A decoded byte becomes the character with that code, which is exact for
 * ASCII; assembling multi-byte UTF-8 sequences is not modelled.
 */
module UrlDecoding {

  /** The value of a hex digit, or -1. */
  function HexValue(c: char): int
  {
    if '0' <= c <= '9' then c as int - '0' as int
    else if 'a' <= c <= 'f' then c as int - 'a' as int + 10
    else if 'A' <= c <= 'F' then c as int - 'A' as int + 10
    else -1
  }

  predicate IsHex(c: char) { HexValue(c) >= 0 }

  function UrlDecode(s: string): (r: string)
    ensures |r| <= |s|
  {
    if s == [] then []
    else if s[0] == '+' then [' '] + UrlDecode(s[1..])
    else if s[0] == '%' && |s| >= 3 && IsHex(s[1]) && IsHex(s[2]) then
      [(HexValue(s[1]) * 16 + HexValue(s[2])) as char] + UrlDecode(s[3..])
    else [s[0]] + UrlDecode(s[1..])
  }

  /** The hex digit for `d`, in upper or lower case. */
  function HexDigit(d: int, upper: bool): (c: char)
    requires 0 <= d < 16
    ensures IsHex(c) && HexValue(c) == d
  {
    if d < 10 then ('0' as int + d) as char
    else if upper then ('A' as int + d - 10) as char
    else ('a' as int + d - 10) as char
  }

  /**
   * A form encoder that `UrlDecode` inverts: space as `+`; `%`, `+` and every
   * character below 256 that `escape` picks as `%` and two hex digits, in the
   * case `upper` chooses; every other character as it is.
   */
  function UrlEncode(s: string, escape: char -> bool, upper: bool): string
  {
    if s == [] then []
    else
      var c := s[0];
      var rest := UrlEncode(s[1..], escape, upper);
      if c == ' ' then "+" + rest
      else if c == '%' || c == '+' || (escape(c) && c as int < 256) then
        [ '%', HexDigit(c as int / 16, upper), HexDigit(c as int % 16, upper)] + rest
      else [c] + rest
  }

  /** The smallest choice: escape only what must be escaped. */
  predicate EscapeNone(c: char) { false }

  /** Decoding inverts encoding, whichever characters are escaped and in whichever hex case. */
  lemma {:induction false} DecodeEncode(s: string, escape: char -> bool, upper: bool)
    ensures UrlDecode(UrlEncode(s, escape, upper)) == s
  {
    if s != [] {
      DecodeEncode(s[1..], escape, upper);
      var c := s[0];
      var rest := UrlEncode(s[1..], escape, upper);
      var e := UrlEncode(s, escape, upper);
      if c == ' ' {
        assert e[1..] == rest;
      } else if c == '%' || c == '+' || (escape(c) && c as int < 256) {
        assert e[3..] == rest;
        assert HexValue(e[1]) * 16 + HexValue(e[2]) == c as int;
      } else {
        assert e[1..] == rest;
      }
    }
  }

  /** A name with neither `%` nor `+` is left as it is. */
  lemma {:induction false} DecodePlain(s: string)
    requires forall i :: 0 <= i < |s| ==> s[i] != '%' && s[i] != '+'
    ensures UrlDecode(s) == s
  {
    if s != [] {
      DecodePlain(s[1..]);
    }
  }

  lemma DecodeExample()
    ensures UrlDecode("a%20b") == "a b"
  {
    var s := "a%20b";
    assert s[1..][3..] == "b";
    assert UrlDecode("b") == "b";
  }
}
