/** Small facts about sequences that several components use. */
module Sequences {

  /** The first `n` elements, or all of a shorter sequence. */
  function Take<T>(s: seq<T>, n: nat): seq<T> {
    if n < |s| then s[..n] else s
  }

  lemma Associate<T>(a: seq<T>, b: seq<T>, c: seq<T>)
    ensures (a + b) + c == a + (b + c)
  {}

  lemma PrefixWindow<T>(s: seq<T>, n: nat, m: nat)
    requires n <= m <= |s|
    ensures s[..n] + s[n..m] == s[..m]
  {}

  lemma WindowPrefix<T>(s: seq<T>, n: nat, m: nat, k: nat)
    requires n <= m <= |s| && k <= m - n
    ensures s[n..m][..k] == s[n..n + k]
  {}

  lemma Around<T>(s: seq<T>, i: nat)
    requires i < |s|
    ensures s == s[..i] + ([s[i]] + s[i + 1..])
  {}

  lemma WholePrefix<T>(s: seq<T>)
    ensures s[..|s|] == s
  {}
}
