/**
 * The pieces of JavaScript's string semantics the browser script relies on:
 * the white-space class shared by the regular-expression escape `\s` and by
 * `String.prototype.trim`, trimming itself, and `length`, which counts UTF-16
 * code units rather than characters.
 */
module JsString {

  /** The Unicode "Space_Separator" (Zs) code points. */
  const SpaceSeparators: set<char> := {
    ' ', '\U{00A0}', '\U{1680}',
    '\U{2000}', '\U{2001}', '\U{2002}', '\U{2003}', '\U{2004}', '\U{2005}',
    '\U{2006}', '\U{2007}', '\U{2008}', '\U{2009}', '\U{200A}',
    '\U{202F}', '\U{205F}', '\U{3000}'}

  /** ECMAScript LineTerminator (section 12.3 of ECMA-262): LF, CR, LS, PS. */
  const LineTerminators: set<char> := {'\n', '\r', '\U{2028}', '\U{2029}'}

  /** What `\s` and `trim` treat as white space. */
  predicate IsWhite(c: char) {
    || c == '\t' || c == '\n' || c == '\U{000B}' || c == '\U{000C}' || c == '\r' || c == ' '
    || c == '\U{00A0}' || c == '\U{1680}' || ('\U{2000}' <= c <= '\U{200A}')
    || c == '\U{2028}' || c == '\U{2029}' || c == '\U{202F}' || c == '\U{205F}'
    || c == '\U{3000}' || c == '\U{FEFF}'
  }

  /**
   * The white-space set is ECMAScript WhiteSpace (section 12.2 of ECMA-262:
   * TAB, VT, FF, ZWNBSP and the Zs category) together with LineTerminator.
   */
  lemma IsWhiteIsStandardSet(c: char)
    ensures IsWhite(c) <==> c in {'\t', '\U{000B}', '\U{000C}', '\U{FEFF}'} + SpaceSeparators + LineTerminators
  {
  }

  predicate NoWhite(s: string) {
    forall k :: 0 <= k < |s| ==> !IsWhite(s[k])
  }

  predicate AllWhite(s: string) {
    forall k :: 0 <= k < |s| ==> IsWhite(s[k])
  }

  /** The number of white-space characters `s` starts with. */
  function LeadingWhite(s: string): (n: nat)
    ensures n <= |s|
    ensures forall k :: 0 <= k < n ==> IsWhite(s[k])
    ensures n < |s| ==> !IsWhite(s[n])
  {
    if |s| == 0 || !IsWhite(s[0]) then 0 else 1 + LeadingWhite(s[1..])
  }

  /** The number of white-space characters `s` ends with. */
  function TrailingWhite(s: string): (n: nat)
    ensures n <= |s|
    ensures forall k :: |s| - n <= k < |s| ==> IsWhite(s[k])
    ensures n < |s| ==> !IsWhite(s[|s| - n - 1])
  {
    if |s| == 0 || !IsWhite(s[|s| - 1]) then 0 else 1 + TrailingWhite(s[..|s| - 1])
  }

  /**
   * What `String.prototype.trim` promises: `r` is the slice `s[a..b]` with only white
   * space outside it, and the slice neither starts nor ends with white space.
   */
  predicate IsTrimOf(r: string, s: string) {
    exists a, b :: 0 <= a <= b <= |s| && r == s[a..b] && TrimBounds(s, a, b)
  }

  predicate TrimBounds(s: string, a: int, b: int)
    requires 0 <= a <= b <= |s|
  {
    && (forall k :: 0 <= k < a ==> IsWhite(s[k]))
    && (forall k :: b <= k < |s| ==> IsWhite(s[k]))
    && (a < b ==> !IsWhite(s[a]) && !IsWhite(s[b - 1]))
  }

  function Trim(s: string): (r: string)
    ensures IsTrimOf(r, s)
  {
    var a := LeadingWhite(s);
    if a == |s| then
      assert TrimBounds(s, a, a);
      ""
    else
      var b := |s| - TrailingWhite(s);
      assert TrimBounds(s, a, b);
      s[a..b]
  }

  /** The trimmed form is unique: any slice meeting the description of trimming is the result of `Trim`. */
  lemma TrimIsUnique(r: string, s: string)
    requires IsTrimOf(r, s)
    ensures r == Trim(s)
  {
  }

  /** Trimming twice changes nothing. */
  lemma TrimIdempotent(s: string)
    ensures Trim(Trim(s)) == Trim(s)
  {
  }

  /** A string trims to the empty string exactly when it is all white space. */
  lemma TrimEmptyIffAllWhite(s: string)
    ensures Trim(s) == "" <==> AllWhite(s)
  {
  }

  /** The number of UTF-16 code units JavaScript's `length` reports: code points above U+FFFF take two. */
  function Utf16Length(s: string): (n: nat)
    ensures |s| <= n <= 2 * |s|
  {
    if |s| == 0 then 0 else (if s[0] as int >= 0x1_0000 then 2 else 1) + Utf16Length(s[1..])
  }

  /** One character is one code unit, or two (a surrogate pair) above U+FFFF. */
  lemma Utf16LengthOfChar(c: char)
    ensures Utf16Length([c]) == if c as int >= 0x1_0000 then 2 else 1
  {
  }

  /** `length` of a concatenation is the sum of the lengths; with `Utf16LengthOfChar` this fixes the count of every string. */
  lemma {:induction false} Utf16LengthAppend(a: string, c: string)
    ensures Utf16Length(a + c) == Utf16Length(a) + Utf16Length(c)
    decreases |a|
  {
    if |a| > 0 {
      assert (a + c)[1..] == a[1..] + c;
      Utf16LengthAppend(a[1..], c);
    } else {
      assert a + c == c;
    }
  }

  /** For text in the Basic Multilingual Plane, `length` is the number of characters. */
  lemma {:induction false} Utf16LengthOfBmp(s: string)
    requires forall k :: 0 <= k < |s| ==> s[k] as int < 0x1_0000
    ensures Utf16Length(s) == |s|
  {
    if |s| > 0 {
      assert forall k :: 0 <= k < |s| - 1 ==> s[1..][k] == s[k + 1];
      Utf16LengthOfBmp(s[1..]);
    }
  }
}
