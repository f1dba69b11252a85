/** Character-level string helpers used by the e-mail normalisation. */
module Strings {

  /** `s.replacingOccurrences(of: target, with: replacement)` for one-character
      target and replacement strings: every occurrence of `target` becomes
      `replacement`, every other character stays where it was. */
  function ReplaceAll(s: string, target: char, replacement: char): (r: string)
    ensures |r| == |s|
    ensures forall i :: 0 <= i < |s| ==> r[i] == (if s[i] == target then replacement else s[i])
    ensures target != replacement ==> target !in r
  {
    if s == [] then []
    else [if s[0] == target then replacement else s[0]] + ReplaceAll(s[1..], target, replacement)
  }

  /** `s.hasSuffix(suffix)` */
  predicate EndsWith(s: string, suffix: string) {
    |suffix| <= |s| && s[|s| - |suffix|..] == suffix
  }
}
