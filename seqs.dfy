/** Counting the elements of a sequence, shared by the simulators that count cells or characters. */
module Seqs {
  /** How many elements of `s` equal `x`. */
  function Count<T(==)>(s: seq<T>, x: T): (n: nat)
    ensures n <= |s|
  {
    if s == [] then 0 else Count(s[..|s| - 1], x) + (if s[|s| - 1] == x then 1 else 0)
  }

  /** When exactly the positions `[lo, hi)` hold `x`, `hi - lo` elements equal `x`. */
  lemma {:induction false} CountRange<T>(s: seq<T>, x: T, lo: nat, hi: nat)
    requires lo <= hi <= |s|
    requires forall i | 0 <= i < |s| :: s[i] == x <==> lo <= i < hi
    ensures Count(s, x) == hi - lo
    decreases |s|
  {
    if s != [] {
      var init := s[..|s| - 1];
      var n := |init|;
      assert forall i | 0 <= i < n :: init[i] == s[i];
      if hi == |s| && lo < hi {
        CountRange(init, x, lo, n);
      } else if hi == |s| {
        CountRange(init, x, n, n);
      } else {
        CountRange(init, x, lo, hi);
      }
    }
  }
}
