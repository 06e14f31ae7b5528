/** Facts about sequences that several modules use. */
module Sequences {

  /** The first `n` elements, or all if there are fewer. */
  function First<T>(s: seq<T>, n: nat): (r: seq<T>)
    ensures r <= s && (|r| == n || |r| == |s| < n)
  {
    if |s| <= n then s else s[..n]
  }

  lemma Associative<T>(a: seq<T>, b: seq<T>, c: seq<T>)
    ensures a + b + c == a + (b + c)
  {
  }
}
