/** The three string built-ins of JavaScript that the dashboard's filter uses:
    `String.prototype.trim`, `String.prototype.toLowerCase` and
    `String.prototype.includes`. Strings are sequences of Unicode code points. */
module JsString {

  /** ECMAScript's WhiteSpace and LineTerminator code points, the characters
      that `trim` removes: TAB, LF, VT, FF, CR, SPACE, NO-BREAK SPACE, the other
      space separators (category Zs), LINE SEPARATOR, PARAGRAPH SEPARATOR and
      the ZERO WIDTH NO-BREAK SPACE. */
  predicate IsWhitespace(c: char) {
    var n := c as int;
    (0x09 <= n <= 0x0D) || n == 0x20 || n == 0xA0 || n == 0x1680
    || (0x2000 <= n <= 0x200A) || n == 0x2028 || n == 0x2029
    || n == 0x202F || n == 0x205F || n == 0x3000 || n == 0xFEFF
  }

  predicate AllWhitespace(s: string) {
    forall k :: 0 <= k < |s| ==> IsWhitespace(s[k])
  }

  /** `s` with its leading whitespace removed. */
  function TrimStart(s: string): (r: string)
    ensures |r| <= |s| && r == s[|s| - |r|..]
    ensures AllWhitespace(s[..|s| - |r|])
    ensures r == [] || !IsWhitespace(r[0])
  {
    if s != [] && IsWhitespace(s[0]) then
      var r := TrimStart(s[1..]);
      assert s[1..][|s| - 1 - |r|..] == s[|s| - |r|..];
      var cut := s[..|s| - |r|];
      assert AllWhitespace(cut) by {
        forall k | 0 <= k < |cut| ensures IsWhitespace(cut[k]) {
          if k > 0 {
            assert cut[k] == s[1..][..|s| - 1 - |r|][k - 1];
          }
        }
      }
      r
    else
      s
  }

  /** `s` with its trailing whitespace removed. */
  function TrimEnd(s: string): (r: string)
    ensures |r| <= |s| && r == s[..|r|]
    ensures AllWhitespace(s[|r|..])
    ensures r == [] || !IsWhitespace(r[|r| - 1])
  {
    if s != [] && IsWhitespace(s[|s| - 1]) then
      var r := TrimEnd(s[..|s| - 1]);
      assert s[..|s| - 1][..|r|] == s[..|r|];
      var cut := s[|r|..];
      assert AllWhitespace(cut) by {
        forall k | 0 <= k < |cut| ensures IsWhitespace(cut[k]) {
          if k < |s| - 1 - |r| {
            assert cut[k] == s[..|s| - 1][|r|..][k];
          }
        }
      }
      r
    else
      s
  }

  /** How many whitespace characters `s` starts with. */
  function LeadingWhitespace(s: string): (n: nat)
    ensures n <= |s| && AllWhitespace(s[..n])
    ensures n == |s| || !IsWhitespace(s[n])
  {
    |s| - |TrimStart(s)|
  }

  /** `s.trim()`: what is left of `s` once the whitespace at both of its ends
      is cut off; it is an infix of `s` that neither starts nor ends with
      whitespace, and it is empty exactly when `s` is all whitespace. */
  function Trim(s: string): (r: string)
    ensures |r| <= |s| - LeadingWhitespace(s)
    ensures r == s[LeadingWhitespace(s)..][..|r|]
    ensures AllWhitespace(s[LeadingWhitespace(s)..][|r|..])
    ensures r == [] || (!IsWhitespace(r[0]) && !IsWhitespace(r[|r| - 1]))
    ensures r == [] <==> AllWhitespace(s)
  {
    TrimEnd(TrimStart(s))
  }

  predicate IsAsciiUpper(c: char) {
    'A' <= c <= 'Z'
  }

  /** The ASCII part of `toLowerCase` on one character. */
  function ToLowerChar(c: char): char {
    if IsAsciiUpper(c) then (c as int + 32) as char else c
  }

  /** `s.toLowerCase()`, restricted to the ASCII letters. */
  function ToLower(s: string): (r: string)
    ensures |r| == |s|
    ensures forall k :: 0 <= k < |r| ==> !IsAsciiUpper(r[k])
    ensures forall k :: 0 <= k < |s| && !IsAsciiUpper(s[k]) ==> r[k] == s[k]
    ensures forall k :: 0 <= k < |s| && IsAsciiUpper(s[k]) ==>
      'a' <= r[k] <= 'z' && r[k] as int - s[k] as int == 32
  {
    seq(|s|, k requires 0 <= k < |s| => ToLowerChar(s[k]))
  }

  /** `needle` occurs in `hay` starting at position `i`. */
  predicate OccursAt(hay: string, needle: string, i: int) {
    0 <= i && i + |needle| <= |hay| && hay[i..i + |needle|] == needle
  }

  /** An occurrence in the tail of `hay` is one in `hay`, a position further. */
  lemma OccursAtTail(hay: string, needle: string, i: int)
    requires hay != [] && 0 <= i
    ensures OccursAt(hay[1..], needle, i) <==> OccursAt(hay, needle, i + 1)
  {
    if i + |needle| < |hay| {
      assert hay[1..][i..i + |needle|] == hay[i + 1..i + 1 + |needle|];
    }
  }

  /** `hay.includes(needle)`: some position of `hay` starts an occurrence of
      `needle`; the empty string occurs in every string. */
  function Includes(hay: string, needle: string): (r: bool)
    ensures r <==> exists i :: OccursAt(hay, needle, i)
  {
    if |needle| > |hay| then
      false
    else if hay[..|needle|] == needle then
      assert OccursAt(hay, needle, 0);
      true
    else
      var r := Includes(hay[1..], needle);
      if r then
        var i :| OccursAt(hay[1..], needle, i);
        OccursAtTail(hay, needle, i);
        r
      else
        assert forall i :: !OccursAt(hay, needle, i) by {
          forall i ensures !OccursAt(hay, needle, i) {
            if i > 0 {
              OccursAtTail(hay, needle, i - 1);
            }
          }
        }
        r
  }

  /** A needle with an ASCII upper-case letter never occurs in a lower-cased
      string. */
  lemma UpperNeverInLower(hay: string, needle: string, k: int)
    requires 0 <= k < |needle| && IsAsciiUpper(needle[k])
    ensures !Includes(ToLower(hay), needle)
  {
    var h := ToLower(hay);
    forall i | 0 <= i && i + |needle| <= |h|
      ensures !OccursAt(h, needle, i)
    {
      assert h[i..i + |needle|][k] == h[i + k];
    }
  }
}
