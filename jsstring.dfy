/** The JavaScript string built-ins the program relies on: ASCII case
    mapping (`toUpperCase`/`toLowerCase`), `trim`, and the
    `s.charAt(0).toUpperCase() + s.slice(1)` idiom. */
module JsString {
  import opened Wrappers

  /** `s.indexOf(c)` for one character: the first position holding `c`, or
      none when `c` does not occur (where JavaScript returns -1). */
  function IndexOf(s: string, c: char): (r: Option<nat>)
    ensures r.Some? <==> c in s
    ensures r.None? ==> forall k :: 0 <= k < |s| ==> s[k] != c
    ensures r.Some? ==> r.value < |s| && s[r.value] == c && forall k :: 0 <= k < r.value ==> s[k] != c
  {
    if s == [] then None
    else if s[0] == c then Some(0)
    else match IndexOf(s[1..], c)
      case None => None
      case Some(i) => Some(i + 1)
  }

  /** An ASCII upper-case letter, the class `[A-Z]`. */
  predicate IsUpper(c: char) { 'A' <= c <= 'Z' }

  /** An ASCII lower-case letter. */
  predicate IsLower(c: char) { 'a' <= c <= 'z' }

  /** `toUpperCase` of one character, restricted to ASCII letters. */
  function ToUpper(c: char): char
  {
    if IsLower(c) then (c as int - 32) as char else c
  }

  /** `toLowerCase` of one character, restricted to ASCII letters. */
  function ToLower(c: char): char
  {
    if IsUpper(c) then (c as int + 32) as char else c
  }

  /** Facts about the ASCII case mappings: each is idempotent, upper-casing
      ignores a prior lower-casing, and neither creates or removes a space. */
  lemma CaseMappingFacts(c: char)
    ensures ToUpper(ToUpper(c)) == ToUpper(c) && ToLower(ToLower(c)) == ToLower(c)
    ensures ToUpper(ToLower(c)) == ToUpper(c)
    ensures (ToUpper(c) == ' ' <==> c == ' ') && (ToLower(c) == ' ' <==> c == ' ')
  {
  }

  /** `String.prototype.toLowerCase`, character by character. */
  function LowerCase(s: string): string
  {
    seq(|s|, i requires 0 <= i < |s| => ToLower(s[i]))
  }

  /** `w.charAt(0).toUpperCase() + w.slice(1)`: `charAt(0)` of the empty
      string is the empty string, so the empty word stays empty. */
  function CapitalizeFirst(w: string): string
  {
    if w == "" then "" else [ToUpper(w[0])] + w[1..]
  }

  /** Capitalising a lower-case word upper-cases its first letter only:
      the length is kept and lower-casing gives the word back. */
  lemma CapitalizeFirstLowerCase(w: string)
    requires w != "" && forall i :: 0 <= i < |w| ==> IsLower(w[i])
    ensures |CapitalizeFirst(w)| == |w|
    ensures IsUpper(CapitalizeFirst(w)[0]) && CapitalizeFirst(w)[0] == ToUpper(w[0])
    ensures CapitalizeFirst(w)[1..] == w[1..]
    ensures LowerCase(CapitalizeFirst(w)) == w
  {
  }

  /** The characters `String.prototype.trim` removes: ECMAScript WhiteSpace
      (tab, vertical tab, form feed, space, no-break space, byte order mark
      and the Unicode space separators) and LineTerminator. */
  predicate IsWhitespace(c: char)
  {
    || c == '\t' || c == '\n' || c == '\U{000B}' || c == '\U{000C}' || c == '\r' || c == ' '
    || c == '\U{00A0}' || c == '\U{1680}' || ('\U{2000}' <= c <= '\U{200A}')
    || c == '\U{2028}' || c == '\U{2029}' || c == '\U{202F}' || c == '\U{205F}'
    || c == '\U{3000}' || c == '\U{FEFF}'
  }

  /** Every character of `s` is whitespace. */
  predicate AllWhitespace(s: string)
  {
    All(s, IsWhitespace)
  }

  /** `String.prototype.trim`. */
  function Trim(s: string): string
  {
    Strip(s, IsWhitespace)
  }

  // ---------------------------------------------------------------------
  // Trimming by an arbitrary character class. The proofs are stated for
  // any class `p`, so they hold of `trim` without unfolding the long
  // whitespace disjunction.
  // ---------------------------------------------------------------------

  /** Every character of `s` satisfies `p`. */
  predicate All(s: string, p: char -> bool)
  {
    forall i :: 0 <= i < |s| ==> p(s[i])
  }

  /** The end of the run of characters in `p` that starts at `i`
      (`trimStart` for whitespace, as an index). */
  function SkipFrom(s: string, p: char -> bool, i: nat): (e: nat)
    requires i <= |s|
    ensures i <= e <= |s|
    ensures forall k :: i <= k < e ==> p(s[k])
    ensures e == |s| || !p(s[e])
    decreases |s| - i
  {
    if i < |s| && p(s[i]) then SkipFrom(s, p, i + 1) else i
  }

  /** The start of the run of characters in `p` that ends at `j`, going
      back no further than `lo` (`trimEnd` for whitespace, as an index). */
  function SkipBackTo(s: string, p: char -> bool, lo: nat, j: nat): (e: nat)
    requires lo <= j <= |s|
    ensures lo <= e <= j
    ensures forall k :: e <= k < j ==> p(s[k])
    ensures e == lo || !p(s[e - 1])
    decreases j
  {
    if lo < j && p(s[j - 1]) then SkipBackTo(s, p, lo, j - 1) else j
  }

  /** `r` is `s[i..j]`, and only characters in `p` lie outside that slice. */
  ghost predicate IsStripAt(s: string, r: string, i: int, j: int, p: char -> bool)
  {
    && 0 <= i <= j <= |s| && r == s[i..j]
    && (forall k :: 0 <= k < i ==> p(s[k]))
    && (forall k :: j <= k < |s| ==> p(s[k]))
  }

  /** Drops the characters in `p` from both ends: the result is a slice of
      `s` with only such characters outside it, and it neither starts nor
      ends with one. */
  function Strip(s: string, p: char -> bool): (r: string)
    ensures exists i, j :: IsStripAt(s, r, i, j, p)
    ensures r == "" || (!p(r[0]) && !p(r[|r| - 1]))
  {
    var i := SkipFrom(s, p, 0);
    var j := SkipBackTo(s, p, i, |s|);
    assert IsStripAt(s, s[i..j], i, j, p);
    s[i..j]
  }

  /** Stripping leaves nothing exactly when every character is in `p`; for
      whitespace, `!s.trim()` holds exactly when `s` is blank. */
  lemma StripEmptyIffAll(s: string, p: char -> bool)
    ensures Strip(s, p) == "" <==> All(s, p)
  {
    var r := Strip(s, p);
    var i, j :| IsStripAt(s, r, i, j, p);
    if r != "" {
      assert s[i] == r[0];
    }
  }

  /** Stripping a string that neither starts nor ends with a character in
      `p` changes nothing. */
  lemma StripKeepsStripped(s: string, p: char -> bool)
    requires s == "" || (!p(s[0]) && !p(s[|s| - 1]))
    ensures Strip(s, p) == s
  {
    assert s[0..|s|] == s;
  }

  /** One character in `p` in front of a stripped string is stripped away. */
  lemma StripDropsLeading(c: char, s: string, p: char -> bool)
    requires p(c) && s != "" && !p(s[0]) && !p(s[|s| - 1])
    ensures Strip([c] + s, p) == s
  {
    var t := [c] + s;
    assert SkipFrom(t, p, 0) == SkipFrom(t, p, 1) == 1;
    assert SkipBackTo(t, p, 1, |t|) == |t|;
    assert t[1..|t|] == s;
  }
}
