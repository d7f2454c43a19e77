/** The string operations the scripts rely on. */
module Text {
  predicate StartsWith(s: string, prefix: string) {
    prefix <= s
  }

  predicate EndsWith(s: string, suffix: string) {
    |suffix| <= |s| && s[|s| - |suffix|..] == suffix
  }

  predicate OccursAt(s: string, needle: string, i: int) {
    0 <= i && i + |needle| <= |s| && s[i..i + |needle|] == needle
  }

  /** The least position at or after `from` where `needle` occurs, or -1. */
  function IndexOf(s: string, needle: string, from: nat): (i: int)
    ensures i == -1 || (from <= i && OccursAt(s, needle, i))
    ensures forall j :: from <= j && OccursAt(s, needle, j) ==> 0 <= i <= j
    decreases |s| - from
  {
    if from + |needle| > |s| then -1
    else if s[from..from + |needle|] == needle then from
    else IndexOf(s, needle, from + 1)
  }
}
