/**
 * The two string operations the row filter relies on: lower-casing and the
 * substring test of Python's `in` operator on strings. Lower-casing is
 * modelled on ASCII letters only; every other character is left unchanged.
 */
module Text {

  predicate IsUpper(c: char) {
    'A' <= c <= 'Z'
  }

  predicate IsLower(c: char) {
    'a' <= c <= 'z'
  }

  /** ASCII lower-casing of one character. */
  function LowerChar(c: char): (r: char)
    ensures !IsUpper(r)
    ensures !IsUpper(c) ==> r == c
    ensures IsUpper(c) ==> IsLower(r)
    ensures IsUpper(c) ==> r as int - 'a' as int == c as int - 'A' as int
    ensures IsUpper(c) ==> UpperChar(r) == c
  {
    if IsUpper(c) then (c as int + 32) as char else c
  }

  /** ASCII upper-casing of one character: used to state case-insensitivity. */
  function UpperChar(c: char): (r: char)
    ensures !IsLower(r)
    ensures !IsLower(c) ==> r == c
    ensures IsLower(c) ==> IsUpper(r)
  {
    if IsLower(c) then (c as int - 32) as char else c
  }

  /** Character-wise lower-casing of a string, as `str.lower()` does on ASCII text. */
  function Lower(s: string): (r: string)
    ensures |r| == |s|
    ensures forall i | 0 <= i < |s| :: r[i] == LowerChar(s[i])
  {
    if s == [] then [] else [LowerChar(s[0])] + Lower(s[1..])
  }

  /** Character-wise upper-casing of a string. */
  function Upper(s: string): (r: string)
    ensures |r| == |s|
    ensures forall i | 0 <= i < |s| :: r[i] == UpperChar(s[i])
  {
    if s == [] then [] else [UpperChar(s[0])] + Upper(s[1..])
  }

  /** Lower-casing twice is lower-casing once. */
  lemma LowerIdempotent(s: string)
    ensures Lower(Lower(s)) == Lower(s)
  {
    var l := Lower(s);
    assert forall i | 0 <= i < |s| :: Lower(l)[i] == LowerChar(LowerChar(s[i])) == LowerChar(s[i]);
  }

  /** Upper-casing a string first does not change its lower-cased form. */
  lemma LowerOfUpper(s: string)
    ensures Lower(Upper(s)) == Lower(s)
  {
    var u := Upper(s);
    forall i | 0 <= i < |s|
      ensures Lower(u)[i] == Lower(s)[i]
    {
      assert Lower(u)[i] == LowerChar(UpperChar(s[i]));
    }
  }

  /** `t` occurs in `s` at position `i`. */
  predicate OccursAt(t: string, s: string, i: int) {
    0 <= i && i + |t| <= |s| && s[i..i + |t|] == t
  }

  /** Python's `t in s` for strings: `t` is a contiguous slice of `s`. */
  predicate IsSubstring(t: string, s: string)
    ensures IsSubstring(t, s) ==> |t| <= |s|
    ensures t == "" ==> IsSubstring(t, s)
  {
    assert t == "" ==> OccursAt(t, s, 0);
    exists i | 0 <= i <= |s| - |t| :: OccursAt(t, s, i)
  }

  /**
   * The substring test, as a scan over every start position. Returns as
   * soon as an occurrence is found.
   */
  method Contains(s: string, t: string) returns (found: bool)
    ensures found <==> IsSubstring(t, s)
  {
    if |t| > |s| {
      return false;
    }
    var i := 0;
    while i <= |s| - |t|
      invariant 0 <= i <= |s| - |t| + 1
      invariant forall j | 0 <= j < i :: !OccursAt(t, s, j)
    {
      if s[i..i + |t|] == t {
        assert OccursAt(t, s, i);
        return true;
      }
      i := i + 1;
    }
    return false;
  }
}
