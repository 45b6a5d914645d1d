/** The string operations the application applies to form fields and file
    names: Python's `str.strip()`, `str.lower()` and `str.endswith`. */
module Text {

  /** Python's `str.isspace` for one character: the characters `str.strip()`
      removes when called without arguments. */
  predicate IsSpace(c: char)
    ensures c == ' ' || c == '\t' || c == '\n' || c == '\r' ==> IsSpace(c)
    ensures ('A' <= c <= 'Z' || 'a' <= c <= 'z' || '0' <= c <= '9' || c == '.') ==> !IsSpace(c)
  {
    || c == ' '
    || '\t' <= c <= '\r'
    || '\U{1c}' <= c <= '\U{1f}'
    || c == '\U{85}' || c == '\U{a0}' || c == '\U{1680}'
    || '\U{2000}' <= c <= '\U{200a}'
    || c == '\U{2028}' || c == '\U{2029}' || c == '\U{202f}' || c == '\U{205f}' || c == '\U{3000}'
  }

  /** Removes the leading whitespace. */
  function TrimStart(s: string): (r: string)
    ensures |r| <= |s| && r == s[|s| - |r|..]
    ensures forall k :: 0 <= k < |s| - |r| ==> IsSpace(s[k])
    ensures r == [] || !IsSpace(r[0])
  {
    if s != [] && IsSpace(s[0]) then TrimStart(s[1..]) else s
  }

  /** Removes the trailing whitespace. */
  function TrimEnd(s: string): (r: string)
    ensures |r| <= |s| && r == s[..|r|]
    ensures forall k :: |r| <= k < |s| ==> IsSpace(s[k])
    ensures r == [] || !IsSpace(r[|r| - 1])
  {
    if s != [] && IsSpace(s[|s| - 1]) then TrimEnd(s[..|s| - 1]) else s
  }

  /** `s.strip()`: the result is a contiguous piece of `s` that neither starts
      nor ends with whitespace, and everything cut off around it is whitespace. */
  function Strip(s: string): (r: string)
    ensures |r| <= |TrimStart(s)| <= |s|
    ensures r == [] || (!IsSpace(r[0]) && !IsSpace(r[|r| - 1]))
    ensures r == s[|s| - |TrimStart(s)|..][..|r|]
    ensures forall k :: 0 <= k < |s| - |TrimStart(s)| ==> IsSpace(s[k])
    ensures forall k :: |s| - |TrimStart(s)| + |r| <= k < |s| ==> IsSpace(s[k])
  {
    TrimEnd(TrimStart(s))
  }

  /** `str.lower()` on one character. Only the ASCII capitals are mapped: the
      application compares lowered text with ASCII literals only (`na`,
      `.csv`, `.xls`, `.xlsx`), and no other character lowers to one of
      their characters. */
  function LowerChar(c: char): (r: char)
    ensures !('A' <= r <= 'Z')
    ensures 'A' <= c <= 'Z' ==> r as int == c as int + 32
    ensures !('A' <= c <= 'Z') ==> r == c
  {
    if 'A' <= c <= 'Z' then (c as int + 32) as char else c
  }

  /** `str.upper()` on one character, ASCII letters only. */
  function UpperChar(c: char): char {
    if 'a' <= c <= 'z' then (c as int - 32) as char else c
  }

  function Lower(s: string): (r: string)
    ensures |r| == |s|
    ensures forall i :: 0 <= i < |r| ==> r[i] == LowerChar(s[i]) && !('A' <= r[i] <= 'Z')
  {
    seq(|s|, i requires 0 <= i < |s| => LowerChar(s[i]))
  }

  function Upper(s: string): (r: string)
    ensures |r| == |s|
  {
    seq(|s|, i requires 0 <= i < |s| => UpperChar(s[i]))
  }

  /** `s.endswith(suffix)`. */
  predicate EndsWith(s: string, suffix: string)
    ensures EndsWith(s, suffix) <==>
      |suffix| <= |s| && forall k :: 0 <= k < |suffix| ==> s[|s| - |suffix| + k] == suffix[k]
  {
    |suffix| <= |s| && s[|s| - |suffix|..] == suffix
  }

  /** A reference definition of a case-insensitive suffix test that does not
      go through `Lower`: character by character, lowered, against a suffix
      written in lower case. */
  predicate EndsWithIgnoringCase(s: string, suffix: string) {
    |suffix| <= |s| && forall k :: 0 <= k < |suffix| ==> LowerChar(s[|s| - |suffix| + k]) == suffix[k]
  }

  /** Lowering then testing the suffix is the case-insensitive suffix test. */
  lemma LowerEndsWith(s: string, suffix: string)
    ensures EndsWith(Lower(s), suffix) <==> EndsWithIgnoringCase(s, suffix)
  {
  }

  /** Upper-casing a string does not change what it lowers to. */
  lemma LowerOfUpper(s: string)
    ensures Lower(Upper(s)) == Lower(s)
  {
  }

  /** The four spellings that lower to `na`. */
  lemma LowerIsNa(t: string)
    ensures Lower(t) == "na" <==> t in {"na", "nA", "Na", "NA"}
  {
    if |t| == 2 {
      assert Lower(t) == [LowerChar(t[0]), LowerChar(t[1])];
      assert t == [t[0], t[1]];
    }
  }

  /** The missing-value token of the manual form: a field whose
      `strip().lower()` is `"na"`. */
  predicate IsNaToken(v: string)
    ensures IsNaToken(v) <==> Strip(v) in {"na", "nA", "Na", "NA"}
  {
    LowerIsNa(Strip(v));
    Lower(Strip(v)) == "na"
  }

  /** The token test spelled out: after trimming, exactly the two letters
      n and a, each in either case. */
  lemma NaTokenCases(v: string)
    ensures IsNaToken(v) <==>
      (|Strip(v)| == 2 && Strip(v)[0] in {'n', 'N'} && Strip(v)[1] in {'a', 'A'})
  {
    var t := Strip(v);
    if |t| == 2 {
      assert Lower(t) == [LowerChar(t[0]), LowerChar(t[1])];
    }
  }

  /** ` NA `, with spaces around it, is the missing token. */
  lemma SpacedUpperNaIsToken()
    ensures IsNaToken(" NA ")
  {
    assert " NA "[1..] == "NA ";
    assert "NA "[..2] == "NA";
    assert !IsSpace('N') && !IsSpace('A');
    assert TrimStart(" NA ") == "NA ";
    assert TrimEnd("NA ") == "NA";
    NaTokenCases(" NA ");
  }

  /** `nan` is not the missing token: it is left for coercion. */
  lemma NanIsNotToken()
    ensures !IsNaToken("nan")
  {
    assert !IsSpace('n');
    assert |Strip("nan")| == 3;
  }
}
