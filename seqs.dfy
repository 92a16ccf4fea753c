/** Small sequence helpers shared by the memory engine and the prompt assembler. */
module Seqs {
  function Min(a: int, b: int): int
  {
    if a <= b then a else b
  }

  /** Python's `s[-n:]` for `n > 0`: the last `n` elements of `s` (all of `s` when it is shorter). */
  function LastN<T>(s: seq<T>, n: nat): (r: seq<T>)
    ensures |r| == Min(n, |s|)
    ensures r == s[|s| - |r|..]
  {
    if |s| <= n then s else s[|s| - n..]
  }
}
