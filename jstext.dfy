/**
 * The string operations of ECMAScript that the modelled code relies on:
 * `String.prototype.trim` and the white-space set it removes.
 */
module JsText {

  /** ECMAScript WhiteSpace and LineTerminator code points: what `trim` strips. */
  predicate IsJsWhitespace(c: char) {
    || c == '\t' || c == '\U{000B}' || c == '\U{000C}' || c == ' '
    || c == '\U{00A0}' || c == '\U{FEFF}' || c == '\U{1680}'
    || ('\U{2000}' <= c <= '\U{200A}')
    || c == '\U{202F}' || c == '\U{205F}' || c == '\U{3000}'
    || c == '\n' || c == '\r' || c == '\U{2028}' || c == '\U{2029}'
  }

  /** The first index from `i` on that does not hold white space (or `|s|`). */
  function SkipSpace(s: string, i: nat): (j: nat)
    requires i <= |s|
    ensures i <= j <= |s|
    decreases |s| - i
  {
    if i < |s| && IsJsWhitespace(s[i]) then SkipSpace(s, i + 1) else i
  }

  /** `SkipSpace` passes over white space only and stops at the first other character. */
  lemma {:induction false} SkipSpaceSpec(s: string, i: nat)
    requires i <= |s|
    ensures forall k | i <= k < SkipSpace(s, i) :: IsJsWhitespace(s[k])
    ensures SkipSpace(s, i) < |s| ==> !IsJsWhitespace(s[SkipSpace(s, i)])
    decreases |s| - i
  {
    if i < |s| && IsJsWhitespace(s[i]) {
      SkipSpaceSpec(s, i + 1);
    }
  }

  /** Going back from `j` but not below `lo`: the end of the text before the trailing white space. */
  function BackSpace(s: string, lo: nat, j: nat): (k: nat)
    requires lo <= j <= |s|
    ensures lo <= k <= j
    decreases j
  {
    if j > lo && IsJsWhitespace(s[j - 1]) then BackSpace(s, lo, j - 1) else j
  }

  /** `BackSpace` passes back over white space only and stops after the last other character. */
  lemma {:induction false} BackSpaceSpec(s: string, lo: nat, j: nat)
    requires lo <= j <= |s|
    ensures forall m | BackSpace(s, lo, j) <= m < j :: IsJsWhitespace(s[m])
    ensures BackSpace(s, lo, j) > lo ==> !IsJsWhitespace(s[BackSpace(s, lo, j) - 1])
    decreases j
  {
    if j > lo && IsJsWhitespace(s[j - 1]) {
      BackSpaceSpec(s, lo, j - 1);
    }
  }

  /** Number of white-space characters `trim` removes at the front. */
  function LeadingSpace(s: string): (n: nat)
    ensures n <= |s|
  {
    SkipSpace(s, 0)
  }

  /** `s.trim()`: white space removed at both ends. */
  function Trim(s: string): (r: string)
    ensures |r| <= |s|
  {
    var a := SkipSpace(s, 0);
    s[a..BackSpace(s, a, |s|)]
  }

  /**
   * What `trim` leaves: a slice of `s` after its leading white space;
   * everything removed is white space and the slice neither starts nor ends
   * with white space.
   */
  lemma TrimSpec(s: string)
    ensures LeadingSpace(s) + |Trim(s)| <= |s|
    ensures Trim(s) == s[LeadingSpace(s)..LeadingSpace(s) + |Trim(s)|]
    ensures forall k | 0 <= k < LeadingSpace(s) :: IsJsWhitespace(s[k])
    ensures forall k | LeadingSpace(s) + |Trim(s)| <= k < |s| :: IsJsWhitespace(s[k])
    ensures Trim(s) != [] ==> !IsJsWhitespace(Trim(s)[0]) && !IsJsWhitespace(Trim(s)[|Trim(s)| - 1])
  {
    var a := SkipSpace(s, 0);
    SkipSpaceSpec(s, 0);
    BackSpaceSpec(s, a, |s|);
  }

  /** A string with no white space at either end is left unchanged by `trim`. */
  lemma TrimUnchanged(s: string)
    requires s != [] ==> !IsJsWhitespace(s[0]) && !IsJsWhitespace(s[|s| - 1])
    ensures Trim(s) == s
  {
  }

  /** Trimming twice is trimming once. */
  lemma TrimIdempotent(s: string)
    ensures Trim(Trim(s)) == Trim(s)
  {
    TrimSpec(s);
    TrimUnchanged(Trim(s));
  }
}
