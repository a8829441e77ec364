/** Occurrences of one text inside another. */
module Text {
  import opened Wrappers

  predicate ContainsAt(text: string, word: string, p: int) {
    0 <= p <= |text| - |word| && text[p..p + |word|] == word
  }

  /** Python's `word in text`. */
  predicate Contains(text: string, word: string) {
    exists p | 0 <= p <= |text| - |word| :: ContainsAt(text, word, p)
  }

  /** `text.find(word, i)`. */
  function Find(text: string, word: string, i: nat): (r: Option<nat>)
    ensures r.Some? ==> r.value >= i && ContainsAt(text, word, r.value)
    ensures r.Some? ==> forall k {:trigger ContainsAt(text, word, k)} :: i <= k < r.value ==> !ContainsAt(text, word, k)
    ensures r.None? ==> forall k {:trigger ContainsAt(text, word, k)} :: i <= k ==> !ContainsAt(text, word, k)
    decreases |text| - i
  {
    if i > |text| then None
    else if ContainsAt(text, word, i) then Some(i)
    else Find(text, word, i + 1)
  }
}
