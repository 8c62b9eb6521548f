/** What the components take from strings: lower case, trimming, runs of one character. */
module Text {

  /** Lower case, character by character. */
  function Lowered(lower: char -> string, s: string): string {
    if s == "" then "" else lower(s[0]) + Lowered(lower, s[1..])
  }

  function TrimStart(isBlank: char -> bool, s: string): (r: string)
    ensures r != "" ==> !isBlank(r[0])
    ensures |r| <= |s| && r == s[|s| - |r|..]
  {
    if s != "" && isBlank(s[0]) then TrimStart(isBlank, s[1..]) else s
  }

  function TrimEnd(isBlank: char -> bool, s: string): (r: string)
    ensures r != "" ==> !isBlank(r[|r| - 1])
    ensures r <= s
  {
    if s != "" && isBlank(s[|s| - 1]) then TrimEnd(isBlank, s[..|s| - 1]) else s
  }

  /** A text that neither begins nor ends with a blank is left alone. */
  function Trim(isBlank: char -> bool, s: string): (r: string)
    ensures r == s <==> s == "" || (!isBlank(s[0]) && !isBlank(s[|s| - 1]))
    ensures r != "" ==> !isBlank(r[0]) && !isBlank(r[|r| - 1])
  {
    TrimEnd(isBlank, TrimStart(isBlank, s))
  }

  lemma {:induction false} LoweredIsSame(lower: char -> string, s: string)
    requires forall c :: c in s ==> lower(c) == [c]
    ensures Lowered(lower, s) == s
  {
    if s != "" {
      assert s[0] in s && forall c :: c in s[1..] ==> c in s;
      LoweredIsSame(lower, s[1..]);
    }
  }
}
