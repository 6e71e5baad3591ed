/** The optional-value type shared by the other modules. */
module Wrappers {

  /** A value that may be absent: a DOM attribute that `getAttribute` returns as
      `null`, a `FormData` entry that does not exist, a search that found nothing. */
  datatype Option<+T> = None | Some(value: T)
}

/**
  The JavaScript string operations the two scripts rely on: the white-space class
  shared by the regular-expression escape `\s` and `String.prototype.trim`, and `trim`
  itself. A `char` is a Unicode scalar value, and the model reads each one as a
  single UTF-16 code unit of the JavaScript string. That reading is exact for
  strings whose characters are all at most U+FFFF; strings with characters
  outside the Basic Multilingual Plane, which JavaScript counts as two code
  units each, are outside the model.
 */
module Text {

  /** ECMAScript WhiteSpace and LineTerminator code points: the set that both `\s`
      and `trim` use (tab, line feed, vertical tab, form feed, carriage return,
      space, no-break space, the Unicode space separators, the line and paragraph
      separators and the byte order mark). Every one of them is a single UTF-16
      code unit. */
  predicate IsWhitespace(c: char) {
    var n := c as int;
    || 0x9 <= n <= 0xD
    || n == 0x20
    || n == 0xA0
    || n == 0x1680
    || 0x2000 <= n <= 0x200A
    || n == 0x2028 || n == 0x2029
    || n == 0x202F
    || n == 0x205F
    || n == 0x3000
    || n == 0xFEFF
  }

  predicate NoWhitespace(s: string) {
    forall i :: 0 <= i < |s| ==> !IsWhitespace(s[i])
  }

  predicate AllWhitespace(s: string) {
    forall i :: 0 <= i < |s| ==> IsWhitespace(s[i])
  }

  /** The first index at or after `i` whose character is not white space, or
      `|s|` when only white space follows. */
  function SkipLeading(s: string, i: nat): (k: nat)
    requires i <= |s|
    ensures i <= k <= |s|
    ensures forall j :: i <= j < k ==> IsWhitespace(s[j])
    ensures k < |s| ==> !IsWhitespace(s[k])
    decreases |s| - i
  {
    if i < |s| && IsWhitespace(s[i]) then SkipLeading(s, i + 1) else i
  }

  /** The end of `s[lo..j]` once its trailing white space is dropped: every
      character from the result up to `j` is white space, and the one before
      the result, if it lies at or after `lo`, is not. */
  function SkipTrailing(s: string, lo: nat, j: nat): (k: nat)
    requires lo <= j <= |s|
    ensures lo <= k <= j
    ensures forall m :: k <= m < j ==> IsWhitespace(s[m])
    ensures k > lo ==> !IsWhitespace(s[k - 1])
    decreases j
  {
    if j > lo && IsWhitespace(s[j - 1]) then SkipTrailing(s, lo, j - 1) else j
  }

  /** Where the trimmed string starts in `s`. */
  function Lead(s: string): nat
    ensures Lead(s) <= |s|
  {
    SkipLeading(s, 0)
  }

  /** `String.prototype.trim`: the slice of `s` left after dropping white space
      at both ends. Everything dropped is white space, what is kept neither
      starts nor ends with white space, and it is empty exactly when `s` is all
      white space. */
  function Trim(s: string): (r: string)
    ensures Lead(s) + |r| <= |s| && r == s[Lead(s)..Lead(s) + |r|]
    ensures forall i :: 0 <= i < Lead(s) ==> IsWhitespace(s[i])
    ensures forall i :: Lead(s) + |r| <= i < |s| ==> IsWhitespace(s[i])
    ensures r == [] || (!IsWhitespace(r[0]) && !IsWhitespace(r[|r| - 1]))
    ensures r == [] <==> AllWhitespace(s)
    ensures NoWhitespace(s) ==> r == s
  {
    var lo := SkipLeading(s, 0);
    var hi := SkipTrailing(s, lo, |s|);
    TrimFacts(s, lo, hi);
    s[lo..hi]
  }

  lemma TrimFacts(s: string, lo: nat, hi: nat)
    requires lo == SkipLeading(s, 0) && hi == SkipTrailing(s, lo, |s|)
    ensures lo == hi <==> AllWhitespace(s)
    ensures NoWhitespace(s) ==> lo == 0 && hi == |s|
  {
    if AllWhitespace(s) {
      assert lo == |s|;
    }
    if NoWhitespace(s) && |s| > 0 {
      assert !IsWhitespace(s[|s| - 1]);
    }
  }

  /** Trimming twice is trimming once. */
  lemma TrimIdempotent(s: string)
    ensures Trim(Trim(s)) == Trim(s)
  {
    var r := Trim(s);
    if r != [] {
      assert SkipLeading(r, 0) == 0;
      assert SkipTrailing(r, 0, |r|) == |r|;
    }
  }
}
