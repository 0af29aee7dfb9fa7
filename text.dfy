/** The two string operations the climate adapter applies to mode names:
    lower-casing (`str.lower`) and capitalization (`str.capitalize`: first
    character upper case, every other character lower case). Case mapping
    is ASCII only. */
module Text {

  function LowerChar(c: char): char {
    if 'A' <= c <= 'Z' then (c as int + 32) as char else c
  }

  function UpperChar(c: char): char {
    if 'a' <= c <= 'z' then (c as int - 32) as char else c
  }

  /** `str.lower`: every character lower-cased, length kept. */
  function Lower(s: string): (r: string)
    ensures |r| == |s|
    ensures forall i :: 0 <= i < |s| ==> r[i] == LowerChar(s[i])
  {
    if s == [] then [] else [LowerChar(s[0])] + Lower(s[1..])
  }

  /** `str.capitalize`: the first character upper-cased, the rest lower-cased. */
  function Capitalize(s: string): (r: string)
    ensures |r| == |s|
    ensures |s| > 0 ==> r[0] == UpperChar(s[0])
    ensures forall i :: 1 <= i < |s| ==> r[i] == LowerChar(s[i])
  {
    if s == [] then [] else [UpperChar(s[0])] + Lower(s[1..])
  }

  /** Lower-casing a capitalized string loses nothing that lower-casing the
      original keeps. */
  lemma LowerOfCapitalize(s: string)
    ensures Lower(Capitalize(s)) == Lower(s)
  {
  }

  /** Capitalizing only looks at the lower-cased string. */
  lemma CapitalizeOfLower(s: string)
    ensures Capitalize(Lower(s)) == Capitalize(s)
  {
  }

  /** Two strings capitalize alike exactly when they lower-case alike: a test
      on the capitalized form (`mode == 'Off'`) is a case-insensitive test. */
  lemma CapitalizeEqualIffLowerEqual(s: string, t: string)
    ensures Capitalize(s) == Capitalize(t) <==> Lower(s) == Lower(t)
  {
    LowerOfCapitalize(s);
    LowerOfCapitalize(t);
    CapitalizeOfLower(s);
    CapitalizeOfLower(t);
  }
}
