/** Whitespace trimming as done by ECMAScript's `String.prototype.trim`
    (section 22.1.3.32 of ECMA-262): strip every leading and trailing code
    point that is WhiteSpace (section 12.2) or a LineTerminator (section 12.3). */
module Text {

  /** WhiteSpace and LineTerminator code points of ECMA-262, with the Unicode
      "Space_Separator" (Zs) category written out. All of them lie in the
      Basic Multilingual Plane. */
  predicate IsWhiteSpace(c: char)
    ensures IsWhiteSpace(c) ==> c as int < 0x1_0000
  {
    // LineTerminator: LF, CR, LINE SEPARATOR, PARAGRAPH SEPARATOR
    c == '\n' || c == '\r' || c == '\U{2028}' || c == '\U{2029}' ||
    // WhiteSpace: TAB, VT, FF, ZWNBSP
    c == '\t' || c == '\U{000B}' || c == '\U{000C}' || c == '\U{FEFF}' ||
    // Zs: SPACE, NO-BREAK SPACE, OGHAM SPACE MARK, EN QUAD .. HAIR SPACE,
    // NARROW NO-BREAK SPACE, MEDIUM MATHEMATICAL SPACE, IDEOGRAPHIC SPACE
    c == ' ' || c == '\U{00A0}' || c == '\U{1680}' ||
    ('\U{2000}' <= c <= '\U{200A}') ||
    c == '\U{202F}' || c == '\U{205F}' || c == '\U{3000}'
  }

  /** True when `s[lo..hi]` is made of whitespace only. */
  ghost predicate WhiteSpaceBetween(s: string, lo: int, hi: int)
  {
    forall k :: lo <= k < hi && 0 <= k < |s| ==> IsWhiteSpace(s[k])
  }

  /** The first index at or after `i` that does not hold whitespace
      (or `|s|` when there is none). */
  function SkipLeading(s: string, i: nat): (r: nat)
    requires i <= |s|
    ensures i <= r <= |s|
    ensures WhiteSpaceBetween(s, i, r)
    ensures r < |s| ==> !IsWhiteSpace(s[r])
    decreases |s| - i
  {
    if i < |s| && IsWhiteSpace(s[i]) then SkipLeading(s, i + 1) else i
  }

  /** The smallest index between `lo` and `j` such that only whitespace
      lies from it up to `j`. */
  function SkipTrailing(s: string, lo: nat, j: nat): (r: nat)
    requires lo <= j <= |s|
    ensures lo <= r <= j
    ensures WhiteSpaceBetween(s, r, j)
    ensures r > lo ==> !IsWhiteSpace(s[r - 1])
  {
    if j > lo && IsWhiteSpace(s[j - 1]) then SkipTrailing(s, lo, j - 1) else j
  }

  /** `String.prototype.trim`: whitespace removed from both ends. The result
      is empty exactly when `s` is all whitespace, and otherwise begins and
      ends with a character that is not whitespace. */
  function Trim(s: string): (r: string)
    ensures |r| <= |s|
    ensures r == [] <==> WhiteSpaceBetween(s, 0, |s|)
    ensures r != [] ==> !IsWhiteSpace(r[0]) && !IsWhiteSpace(r[|r| - 1])
  {
    var i := SkipLeading(s, 0);
    var j := SkipTrailing(s, i, |s|);
    assert i == j ==> WhiteSpaceBetween(s, 0, |s|);
    s[i..j]
  }

  /** The trimmed string is fixed by where the non-whitespace core of `s`
      begins and ends: whenever only whitespace lies before `i` and from `j`
      on, and `s[i..j]` neither begins nor ends with whitespace, trimming
      yields exactly `s[i..j]`. */
  lemma TrimIsCore(s: string, i: nat, j: nat)
    requires i <= j <= |s|
    requires WhiteSpaceBetween(s, 0, i) && WhiteSpaceBetween(s, j, |s|)
    requires i < j ==> !IsWhiteSpace(s[i]) && !IsWhiteSpace(s[j - 1])
    ensures Trim(s) == s[i..j]
  {
    // The contracts of SkipLeading and SkipTrailing pin both indices down.
  }

  /** Trimming a string that already has no whitespace at either end gives
      the string back. */
  lemma TrimKeepsTrimmed(s: string)
    requires s == [] || (!IsWhiteSpace(s[0]) && !IsWhiteSpace(s[|s| - 1]))
    ensures Trim(s) == s
  {
    TrimIsCore(s, 0, |s|);
  }

  /** Trimming twice is the same as trimming once. */
  lemma TrimIdempotent(s: string)
    ensures Trim(Trim(s)) == Trim(s)
  {
    TrimKeepsTrimmed(Trim(s));
  }
}
