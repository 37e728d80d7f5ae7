// Mapping a function over a sequence, and prefixes of a sequence.
module Sequences {
  function Map<T, U>(f: T -> U, s: seq<T>): seq<U> {
    seq(|s|, k requires 0 <= k < |s| => f(s[k]))
  }

  // One step of a loop over s[..k].
  lemma Extend<T>(s: seq<T>, k: nat)
    requires k < |s|
    ensures s[..k + 1] == s[..k] + [s[k]] && s[..k + 1][..k] == s[..k]
  {
  }
}
