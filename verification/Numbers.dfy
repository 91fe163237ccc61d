/** Division with remainder, for the calendar and for steps in cron fields. */
module Numbers {

  lemma ScaledBy(d: int, k: int)
    requires k >= 1
    ensures d >= 1 ==> d * k >= k
    ensures d <= -1 ==> d * k <= -k
  {
    if d >= 1 {
      assert (d - 1) * k >= 0;
    } else if d <= -1 {
      assert (-d - 1) * k >= 0;
    }
  }

  /** Quotient and remainder are unique. */
  lemma QuotientUnique(y: int, k: int, q: int, r: int)
    requires k >= 1 && 0 <= r < k && y == q * k + r
    ensures y / k == q && y % k == r
  {
    var d := y / k - q;
    assert y == y / k * k + y % k;
    assert d * k == r - y % k;
    ScaledBy(d, k);
  }
}
