/** Parts of sequences. */
module Sequences {

  /** SQL's LIMIT, or a slice from the front. */
  function Limit<T>(s: seq<T>, n: nat): seq<T> {
    if |s| <= n then s else s[..n]
  }
}
