/** Character-level operations the service borrows from Python's `str` and `re`.

    Python's `str.lower()`, `\w`, `\d` and `str.strip()` follow the Unicode
    character database, which matters for Norwegian show names (æ, ø, å).
    Rather than fix one table, the model takes these classes as parameters:
    a `CharModel` gives per-character case folding and the three character
    classes, and every property that depends on what they are says so in its
    `requires`. */
module Text {

  /** The character facts the service relies on. */
  datatype CharModel = CharModel(
    lower: char -> char,     // simple lower-case mapping of one character
    isAlnum: char -> bool,   // letters and digits (Python `str.isalnum`)
    isDigit: char -> bool,   // decimal digits, regex `\d`
    isSpace: char -> bool)   // white space removed by `str.strip()`

  /** Facts true of Unicode that the slug lemmas need: every digit is
      alphanumeric, the underscore is not, and lower-casing a lower-case
      character changes nothing. */
  ghost predicate WellBehaved(cm: CharModel)
  {
    && (forall c :: cm.isDigit(c) ==> cm.isAlnum(c))
    && !cm.isAlnum('_')
    && (forall c :: cm.lower(cm.lower(c)) == cm.lower(c))
  }

  /** `s.lower()`, character by character. */
  function LowerAll(cm: CharModel, s: string): (r: string)
    ensures |r| == |s|
    ensures forall i :: 0 <= i < |s| ==> r[i] == cm.lower(s[i])
  {
    if s == [] then [] else [cm.lower(s[0])] + LowerAll(cm, s[1..])
  }

  /** The index of the first character at or after `i` that is not white
      space (`|s|` when there is none). */
  function SkipSpaces(cm: CharModel, s: string, i: nat): (j: nat)
    requires i <= |s|
    ensures i <= j <= |s|
    ensures forall k :: i <= k < j ==> cm.isSpace(s[k])
    ensures j < |s| ==> !cm.isSpace(s[j])
    decreases |s| - i
  {
    if i < |s| && cm.isSpace(s[i]) then SkipSpaces(cm, s, i + 1) else i
  }

  /** The end of `s[lo..j]` once its trailing white space is dropped. */
  function SkipSpacesBack(cm: CharModel, s: string, lo: nat, j: nat): (i: nat)
    requires lo <= j <= |s|
    ensures lo <= i <= j
    ensures forall k :: i <= k < j ==> cm.isSpace(s[k])
    ensures lo < i ==> !cm.isSpace(s[i - 1])
    decreases j - lo
  {
    if lo < j && cm.isSpace(s[j - 1]) then SkipSpacesBack(cm, s, lo, j - 1) else j
  }

  /** `s.strip()`: the infix left after removing white space at both
      ends. */
  function Strip(cm: CharModel, s: string): (r: string)
  {
    var start := SkipSpaces(cm, s, 0);
    s[start..SkipSpacesBack(cm, s, start, |s|)]
  }

  /** What `Strip` keeps and what it drops: with `k` the number of leading
      white-space characters, the result is `s[k..k + |r|]`, everything
      outside it is white space, and it neither starts nor ends with white
      space. */
  lemma StripSpec(cm: CharModel, s: string)
    ensures var r := Strip(cm, s); var k := SkipSpaces(cm, s, 0);
      && k + |r| <= |s| && r == s[k..k + |r|]
      && (forall i :: 0 <= i < k ==> cm.isSpace(s[i]))
      && (forall i :: k + |r| <= i < |s| ==> cm.isSpace(s[i]))
      && (r != [] ==> !cm.isSpace(r[0]) && !cm.isSpace(r[|r| - 1]))
  {
  }
}
