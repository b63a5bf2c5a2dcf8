/**
 The `count!` macro of luajit/src/util.rs: the number of token trees it is
 given, as an `i32` built by adding one per tree.
 */
module Util {
  /** `count!(x xs...)` is `1 + count!(xs...)`; `count!()` is `0`. */
  function Count<T>(xs: seq<T>): int
  {
    if |xs| == 0 then 0 else 1 + Count(xs[1..])
  }

  /** The macro counts its arguments: the result is their number. */
  lemma {:induction false} CountIsLength<T>(xs: seq<T>)
    ensures Count(xs) == |xs|
  {
    if |xs| > 0 {
      CountIsLength(xs[1..]);
    }
  }
}
