/**
 * Random draws. The random number generator is outside the model: a draw from the inclusive
 * range `lo..=hi` is written as a function of an arbitrary raw number, and every value of the
 * range is reachable.
 */
module Random {
  /** `gen_range(lo..=hi)` on the raw number `raw`. */
  function Pick(lo: int, hi: int, raw: nat): (v: int)
    requires lo <= hi
    ensures lo <= v <= hi
  {
    lo + raw % (hi - lo + 1)
  }

  /** Every value of the range is drawn by some raw number. */
  lemma PickOnto(lo: int, hi: int, v: int)
    requires lo <= v <= hi
    ensures exists raw: nat :: Pick(lo, hi, raw) == v
  {
    var raw: nat := v - lo;
    assert Pick(lo, hi, raw) == v;
  }
}
