/**
  Substring search as Foundation's `String.range(of:options:)` performs it,
  restricted to the first occurrence and, for `.caseInsensitive`, to ASCII
  case folding.
 */
module TextSearch {
  import opened Wrappers

  function AsciiLower(c: char): char {
    if 'A' <= c <= 'Z' then (c as int + 32) as char else c
  }

  predicate SameChar(a: char, b: char, caseInsensitive: bool) {
    if caseInsensitive then AsciiLower(a) == AsciiLower(b) else a == b
  }

  /** `pattern` matches `s` starting at index `i`. */
  predicate OccursAt(s: string, pattern: string, i: int, caseInsensitive: bool) {
    && 0 <= i
    && i + |pattern| <= |s|
    && forall k :: 0 <= k < |pattern| ==> SameChar(s[i + k], pattern[k], caseInsensitive)
  }

  ghost predicate Contains(s: string, pattern: string, caseInsensitive: bool) {
    exists i :: OccursAt(s, pattern, i, caseInsensitive)
  }

  ghost predicate IsFirstOccurrence(s: string, pattern: string, i: int, caseInsensitive: bool) {
    && OccursAt(s, pattern, i, caseInsensitive)
    && forall j :: 0 <= j < i ==> !OccursAt(s, pattern, j, caseInsensitive)
  }

  /** The leftmost match of `pattern` in `s` at or after `from`. */
  function FindFrom(s: string, pattern: string, caseInsensitive: bool, from: nat): (r: Option<nat>)
    requires from <= |s|
    ensures r.Some? ==> from <= r.value && OccursAt(s, pattern, r.value, caseInsensitive)
    ensures r.Some? ==> forall j :: from <= j < r.value ==> !OccursAt(s, pattern, j, caseInsensitive)
    ensures r.None? ==> forall j :: from <= j ==> !OccursAt(s, pattern, j, caseInsensitive)
    decreases |s| - from
  {
    if from + |pattern| > |s| then None
    else if OccursAt(s, pattern, from, caseInsensitive) then Some(from)
    else FindFrom(s, pattern, caseInsensitive, from + 1)
  }

  /**
    The start of the first occurrence of `pattern` in `s`; like Foundation,
    an empty pattern is never found.
   */
  function Find(s: string, pattern: string, caseInsensitive: bool): (r: Option<nat>)
    ensures r.Some? ==> IsFirstOccurrence(s, pattern, r.value, caseInsensitive)
    ensures r.None? <==> pattern == [] || !Contains(s, pattern, caseInsensitive)
  {
    if pattern == [] then None else FindFrom(s, pattern, caseInsensitive, 0)
  }
}
