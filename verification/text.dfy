/** Character classes and prefixes shared by the command builder and the directive parser. */
module Text {

  /** The blanks of the patterns `[ \t]` and `[^ \t]`. */
  predicate IsBlank(c: char) { c == ' ' || c == '\t' }

  /** No blank anywhere in s. */
  predicate BlankFree(s: string) { forall i :: 0 <= i < |s| ==> !IsBlank(s[i]) }

  predicate StartsWith(s: string, p: string) { |p| <= |s| && s[..|p|] == p }
}
