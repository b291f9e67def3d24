/**
 * Character-level helpers standing in for Python's `str.upper`, `str.lower`,
 * `str.isalpha` and `str.strip`. Only the ASCII behaviour of those methods is
 * modelled: letters are `A`-`Z` and `a`-`z`, and case mapping never changes a
 * string's length.
 */
module Text {

  predicate IsUpperLetter(c: char) { 'A' <= c <= 'Z' }

  predicate IsLowerLetter(c: char) { 'a' <= c <= 'z' }

  /** `c.isalpha()` restricted to ASCII. */
  predicate IsAlphaChar(c: char) { IsUpperLetter(c) || IsLowerLetter(c) }

  /** `c.isspace()` restricted to ASCII: space, \t, \n, \v, \f, \r and \x1c-\x1f. */
  predicate IsSpace(c: char) {
    c == ' ' || (9 <= c as int <= 13) || (28 <= c as int <= 31)
  }

  function UpperChar(c: char): (r: char)
    ensures IsLowerLetter(c) ==> IsUpperLetter(r) && r as int == c as int - 32
    ensures !IsLowerLetter(c) ==> r == c
  {
    if IsLowerLetter(c) then (c as int - 32) as char else c
  }

  function LowerChar(c: char): (r: char)
    ensures IsUpperLetter(c) ==> IsLowerLetter(r) && r as int == c as int + 32
    ensures !IsUpperLetter(c) ==> r == c
  {
    if IsUpperLetter(c) then (c as int + 32) as char else c
  }

  /** `s.upper()`: every character case-mapped, length kept. */
  function Upper(s: string): (r: string)
    ensures |r| == |s|
    ensures forall i :: 0 <= i < |s| ==> r[i] == UpperChar(s[i])
  {
    if |s| == 0 then [] else [UpperChar(s[0])] + Upper(s[1..])
  }

  /** `s.lower()`: every character case-mapped, length kept. */
  function Lower(s: string): (r: string)
    ensures |r| == |s|
    ensures forall i :: 0 <= i < |s| ==> r[i] == LowerChar(s[i])
  {
    if |s| == 0 then [] else [LowerChar(s[0])] + Lower(s[1..])
  }

  /** `s.isalpha()`: non-empty and alphabetic throughout. */
  predicate IsAlpha(s: string) {
    |s| > 0 && AllAlpha(s)
  }

  predicate AllAlpha(s: string) {
    |s| == 0 || (IsAlphaChar(s[0]) && AllAlpha(s[1..]))
  }

  lemma {:induction false} AllAlphaIff(s: string)
    ensures AllAlpha(s) <==> forall i :: 0 <= i < |s| ==> IsAlphaChar(s[i])
  {
    if |s| > 0 {
      AllAlphaIff(s[1..]);
      assert forall i :: 1 <= i < |s| ==> s[i] == s[1..][i - 1];
    }
  }

  /** `set(s)`: the characters occurring in `s`. */
  function CharSet(s: string): (r: set<char>)
    ensures forall c :: c in r <==> c in s
  {
    set i | 0 <= i < |s| :: s[i]
  }

  /** Number of occurrences of `c` in `s`. */
  function Count(s: string, c: char): (n: nat)
    ensures n <= |s|
    ensures n > 0 <==> c in s
  {
    if |s| == 0 then 0 else (if s[0] == c then 1 else 0) + Count(s[1..], c)
  }

  /** Number of whitespace characters at the start of `s`. */
  function LeadingSpace(s: string): (n: nat)
    ensures n <= |s|
  {
    if |s| > 0 && IsSpace(s[0]) then 1 + LeadingSpace(s[1..]) else 0
  }

  lemma {:induction false} LeadingSpaceIsSpace(s: string)
    ensures forall k :: 0 <= k < LeadingSpace(s) ==> IsSpace(s[k])
    ensures LeadingSpace(s) < |s| ==> !IsSpace(s[LeadingSpace(s)])
  {
    if |s| > 0 && IsSpace(s[0]) {
      LeadingSpaceIsSpace(s[1..]);
    }
  }

  /** Number of whitespace characters at the end of `s`. */
  function TrailingSpace(s: string): (n: nat)
    ensures n <= |s|
  {
    if |s| > 0 && IsSpace(s[|s| - 1]) then 1 + TrailingSpace(s[..|s| - 1]) else 0
  }

  lemma {:induction false} TrailingSpaceIsSpace(s: string)
    ensures forall k :: |s| - TrailingSpace(s) <= k < |s| ==> IsSpace(s[k])
    ensures TrailingSpace(s) < |s| ==> !IsSpace(s[|s| - TrailingSpace(s) - 1])
  {
    if |s| > 0 && IsSpace(s[|s| - 1]) {
      TrailingSpaceIsSpace(s[..|s| - 1]);
    }
  }

  /** Everything of `s` outside the slice `s[i..j]` is whitespace. */
  predicate TrimmedAt(s: string, i: int, j: int)
    requires 0 <= i <= j <= |s|
  {
    (forall k :: 0 <= k < i ==> IsSpace(s[k])) && (forall k :: j <= k < |s| ==> IsSpace(s[k]))
  }

  /** `s.strip()`: whitespace removed from both ends (see `StripRemovesOnlySpace`). */
  function Strip(s: string): (r: string)
    ensures |r| <= |s|
  {
    var i := LeadingSpace(s);
    var j := |s| - TrailingSpace(s);
    if i < j then s[i..j] else []
  }

  /**
   * `Strip` returns a slice of its input that neither starts nor ends with
   * whitespace, and everything cut off is whitespace.
   */
  lemma StripRemovesOnlySpace(s: string)
    ensures exists i, j :: 0 <= i <= j <= |s| && Strip(s) == s[i..j] && TrimmedAt(s, i, j)
    ensures |Strip(s)| > 0 ==> !IsSpace(Strip(s)[0]) && !IsSpace(Strip(s)[|Strip(s)| - 1])
  {
    LeadingSpaceIsSpace(s);
    TrailingSpaceIsSpace(s);
    var i := LeadingSpace(s);
    var j := |s| - TrailingSpace(s);
    if i < j {
      assert TrimmedAt(s, i, j);
    } else {
      assert Strip(s) == s[i..i];
      assert TrimmedAt(s, i, i);
    }
  }

  /** The word a dictionary line holds: `line.strip().lower()`. */
  function LineWord(line: string): string {
    Lower(Strip(line))
  }

  lemma UpperLowerChar(c: char)
    ensures UpperChar(UpperChar(c)) == UpperChar(c)
    ensures LowerChar(LowerChar(c)) == LowerChar(c)
    ensures LowerChar(UpperChar(c)) == LowerChar(c)
    ensures UpperChar(LowerChar(c)) == UpperChar(c)
  {
  }

  /** A lower-cased string is its own lower-case form. */
  lemma LowerIsIdempotent(s: string)
    ensures Lower(Lower(s)) == Lower(s)
  {
    forall i | 0 <= i < |s| ensures Lower(Lower(s))[i] == Lower(s)[i] {
      UpperLowerChar(s[i]);
    }
  }

  /** Lower-casing commutes with taking a prefix. */
  lemma LowerPrefix(s: string, k: int)
    requires 0 <= k <= |s|
    ensures Lower(s)[..k] == Lower(s[..k])
  {
    forall i | 0 <= i < k ensures Lower(s)[..k][i] == Lower(s[..k])[i] {
      assert s[..k][i] == s[i];
    }
  }

  lemma UpperOfLower(s: string)
    ensures Upper(Lower(s)) == Upper(s)
    ensures Lower(Upper(s)) == Lower(s)
    ensures Upper(Upper(s)) == Upper(s)
  {
    forall i | 0 <= i < |s| ensures Upper(Lower(s))[i] == Upper(s)[i] && Lower(Upper(s))[i] == Lower(s)[i] && Upper(Upper(s))[i] == Upper(s)[i] {
      UpperLowerChar(s[i]);
    }
  }
}
