/** The `std::vector` operations the views use on their flag and counter vectors. */
module Vectors {

  /** `std::vector::resize(n, fill)`: keeps the first `n` entries and pads with `fill`. */
  function Resize<T>(s: seq<T>, n: nat, fill: T): (r: seq<T>)
    ensures |r| == n
    ensures forall i :: 0 <= i < n ==> r[i] == (if i < |s| then s[i] else fill)
  {
    if n <= |s| then s[..n] else s + seq(n - |s|, _ => fill)
  }
}
