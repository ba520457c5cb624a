/** Substring search over texts, as `str::find`, `starts_with` and `ends_with` use it. */
module Text {
  import opened Wrappers

  /** `pattern` occurs in `text` at index `i`. */
  predicate At(text: string, pattern: string, i: nat) {
    i + |pattern| <= |text| && forall k :: 0 <= k < |pattern| ==> text[i + k] == pattern[k]
  }

  /** The first occurrence at or after `from`. */
  function FindFrom(text: string, pattern: string, from: nat): (found: Option<nat>)
    ensures found.Some? ==> from <= found.value && At(text, pattern, found.value)
    ensures found.Some? ==> forall i :: from <= i < found.value ==> !At(text, pattern, i)
    ensures found.None? ==> forall i :: from <= i ==> !At(text, pattern, i)
    decreases |text| - from
  {
    if from + |pattern| > |text| then None
    else if At(text, pattern, from) then Some(from)
    else FindFrom(text, pattern, from + 1)
  }

  function Find(text: string, pattern: string): Option<nat> {
    FindFrom(text, pattern, 0)
  }

  predicate Contains(text: string, pattern: string) {
    Find(text, pattern).Some?
  }

  predicate StartsWith(text: string, pattern: string) {
    pattern <= text
  }

  predicate EndsWithNewline(text: string) {
    text != "" && text[|text| - 1] == '\n'
  }

  /** The length of a leading `\r\n` or `\n`, or zero. */
  function LineBreak(text: string): (n: nat)
    ensures n <= |text| && n <= 2
  {
    if StartsWith(text, "\r\n") then 2 else if StartsWith(text, "\n") then 1 else 0
  }
}
