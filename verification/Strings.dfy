/** The string tests shared by the type parser and the point ids. */
module Strings {
  /** `str::starts_with` */
  predicate StartsWith(s: string, p: string) {
    |p| <= |s| && s[..|p|] == p
  }

  /** `str::ends_with` */
  predicate EndsWith(s: string, p: string) {
    |p| <= |s| && s[|s| - |p|..] == p
  }
}
