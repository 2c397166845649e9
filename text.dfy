/** Case handling for SKUs and name filters, restricted to ASCII letters:
    every other character is left as it is. */
module Text {

  function UpperChar(c: char): char
  {
    if 'a' <= c <= 'z' then (c as int - 32) as char else c
  }

  function LowerChar(c: char): char
  {
    if 'A' <= c <= 'Z' then (c as int + 32) as char else c
  }

  /** `str.upper()` on ASCII text. */
  function Upper(s: string): (r: string)
    ensures |r| == |s|
    ensures IsUpper(r)
  {
    seq(|s|, i requires 0 <= i < |s| => UpperChar(s[i]))
  }

  function Lower(s: string): (r: string)
    ensures |r| == |s|
  {
    seq(|s|, i requires 0 <= i < |s| => LowerChar(s[i]))
  }

  /** No lower-case ASCII letter occurs in `s`. */
  predicate IsUpper(s: string)
  {
    forall i :: 0 <= i < |s| ==> !('a' <= s[i] <= 'z')
  }

  /** Upper-casing an already upper-case string changes nothing. */
  lemma UpperFixesUpper(s: string)
    requires IsUpper(s)
    ensures Upper(s) == s
  {
  }

  /** Two spellings of the same text that differ only in the case of their
      letters upper-case alike. */
  lemma CaseVariantsUpperAlike(s: string, t: string)
    requires Lower(s) == Lower(t)
    ensures Upper(s) == Upper(t)
  {
    assert |s| == |t|;
    forall i | 0 <= i < |s|
      ensures Upper(s)[i] == Upper(t)[i]
    {
      assert Lower(s)[i] == Lower(t)[i];
    }
  }

  /** A stored (upper-case) SKU equals the upper-cased form of every
      re-submission of it in any letter case. */
  lemma ResubmittedSkuMatches(stored: string, submitted: string)
    requires IsUpper(stored) && Lower(submitted) == Lower(stored)
    ensures Upper(submitted) == stored
  {
    CaseVariantsUpperAlike(submitted, stored);
    UpperFixesUpper(stored);
  }

  /** `pattern` occurs in `text` starting at position `i`. */
  predicate OccursAt(text: string, pattern: string, i: nat)
  {
    i + |pattern| <= |text| && text[i..i + |pattern|] == pattern
  }

  /** `ILIKE '%pattern%'`: `pattern` occurs in `text` ignoring ASCII case. */
  predicate ContainsIgnoringCase(text: string, pattern: string)
  {
    exists i: nat :: i <= |text| && OccursAt(Lower(text), Lower(pattern), i)
  }
}
