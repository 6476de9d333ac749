/**
 * Classification of the lines of a graph description: blank lines,
 * comment lines and lines with at least one alphanumeric character.
 * Characters are classified with the fixed ASCII sets of the "C" locale.
 */
module Lines {

  /** White space as `isspace` sees it: blank, tab, newline, vertical tab, form feed, carriage return. */
  predicate IsSpace(c: char) {
    c == ' ' || '\t' <= c <= '\r'
  }

  /** Letters and decimal digits, as `isalnum` sees them. */
  predicate IsAlnum(c: char) {
    '0' <= c <= '9' || 'A' <= c <= 'Z' || 'a' <= c <= 'z'
  }

  /** The first position at or after `i` that does not hold white space, or `|s|`. */
  function SkipSpace(s: string, i: nat): (r: nat)
    requires i <= |s|
    ensures i <= r <= |s|
    ensures forall j :: i <= j < r ==> IsSpace(s[j])
    ensures r < |s| ==> !IsSpace(s[r])
    decreases |s| - i
  {
    if i < |s| && IsSpace(s[i]) then SkipSpace(s, i + 1) else i
  }

  /** Position of the first non-white-space character, or -1 when there is none. */
  function FirstNonWhiteSpace(s: string): (r: int)
    ensures -1 <= r < |s|
    ensures r == -1 <==> forall j :: 0 <= j < |s| ==> IsSpace(s[j])
    ensures r >= 0 ==> !IsSpace(s[r]) && forall j :: 0 <= j < r ==> IsSpace(s[j])
  {
    var i := SkipSpace(s, 0);
    if i < |s| then i else -1
  }

  /** A blank line holds nothing but white space. */
  predicate LineIsBlank(s: string)
    ensures LineIsBlank(s) <==> forall j :: 0 <= j < |s| ==> IsSpace(s[j])
  {
    FirstNonWhiteSpace(s) < 0
  }

  /** A comment line has `#` as its first non-white-space character. */
  predicate LineIsComment(s: string)
    ensures LineIsComment(s) <==>
      exists i :: 0 <= i < |s| && s[i] == '#' && forall j :: 0 <= j < i ==> IsSpace(s[j])
  {
    var i := FirstNonWhiteSpace(s);
    i >= 0 && s[i] == '#'
  }

  /**
   * True as soon as one character of `s` is alphanumeric: the scan stops at the
   * first letter or digit, so the line need not consist of them only.
   */
  predicate LineIsAlphanumeric(s: string)
    ensures LineIsAlphanumeric(s) <==> exists j :: 0 <= j < |s| && IsAlnum(s[j])
  {
    if s == [] then false
    else IsAlnum(s[0]) || LineIsAlphanumeric(s[1..])
  }

  /** The lines the graph builder skips. */
  predicate Ignorable(s: string)
    ensures Ignorable(s) <==> LineIsComment(s) || forall j :: 0 <= j < |s| ==> !IsAlnum(s[j])
  {
    LineIsComment(s) || LineIsBlank(s) || !LineIsAlphanumeric(s)
  }

  /** A comment line is never blank: its `#` is not white space. */
  lemma CommentIsNotBlank(s: string)
    requires LineIsComment(s)
    ensures !LineIsBlank(s)
  {
  }

  /** A blank line has no alphanumeric character, so the alphanumeric test alone skips it. */
  lemma BlankIsNotAlphanumeric(s: string)
    requires LineIsBlank(s)
    ensures !LineIsAlphanumeric(s)
  {
  }
}
