/**
  Two small facts the other modules share: a string of one repeated character
  (zero padding, progress-bar cells) and when rounded-down division reaches a
  bound (window counts, bar fill).
*/
module Basics {

  /** `k` copies of `c`. */
  function Repeat(c: char, k: nat): (r: string)
    ensures |r| == k && forall i :: 0 <= i < k ==> r[i] == c
  {
    seq(k, _ => c)
  }

  lemma RepeatOneMore(c: char, k: nat)
    ensures Repeat(c, k + 1) == Repeat(c, k) + [c]
  {
  }

  /** Rounded-down division reaches `k` exactly when the dividend reaches `k` times the divisor. */
  lemma DivReaches(p: nat, m: nat, k: nat)
    requires m > 0
    ensures p / m >= k <==> p >= k * m
  {
    var q := p / m;
    assert p == q * m + p % m;
    if q >= k {
      assert q * m >= k * m;
    } else {
      assert (q + 1) * m <= k * m;
    }
  }
}
