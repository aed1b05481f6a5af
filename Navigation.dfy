/**
 * Day navigation (`nextTrack`, `prevTrack`): stepping the day index forward
 * or back around the 365-day cycle. Unlike the day resolver, which clamps,
 * navigation wraps.
 */
module Navigation {

  const CampaignDays: int := 365

  predicate ValidIndex(i: int) {
    0 <= i < CampaignDays
  }

  /** JavaScript's `%`: the remainder takes the sign of the dividend. */
  function JsRemainder(a: int, b: int): (r: int)
    requires b > 0
    ensures a >= 0 ==> r == a % b
    ensures a < 0 ==> r <= 0 && (a - r) % b == 0
    ensures -b < r < b
  {
    if a >= 0 then a % b
    else
      NegativeRemainder(a, b);
      -((-a) % b)
  }

  /** Truncating `-a` leaves a multiple of `b` once the remainder is added back. */
  lemma NegativeRemainder(a: int, b: int)
    requires a < 0 && b > 0
    ensures (a + (-a) % b) % b == 0
  {
    var q := (-a) / b;
    assert a + (-a) % b == (-q) * b;
    MultipleHasNoRemainder(-q, b);
  }

  lemma MultipleHasNoRemainder(k: int, b: int)
    requires b > 0
    ensures (k * b) % b == 0
  {
    var d := k - (k * b) / b;
    assert (k * b) % b == d * b;
    MultipleAwayFromZero(d, b);
  }

  /** A non-zero multiple of `b` is at least `b` away from zero. */
  lemma MultipleAwayFromZero(d: int, b: int)
    requires b > 0
    ensures d >= 1 ==> d * b >= b
    ensures d <= -1 ==> d * b <= -b
  {
    if d >= 1 {
      assert d * b == (d - 1) * b + b;
    } else if d <= -1 {
      assert d * b == (d + 1) * b - b;
    }
  }

  /** `(currentDayIndex + 1) % 365`. */
  function NextIndex(i: int): (r: int)
    ensures ValidIndex(i) ==> ValidIndex(r)
    ensures ValidIndex(i) ==> r == if i == CampaignDays - 1 then 0 else i + 1
  {
    JsRemainder(i + 1, CampaignDays)
  }

  /** `(currentDayIndex - 1 + 365) % 365`. */
  function PrevIndex(i: int): (r: int)
    ensures ValidIndex(i) ==> ValidIndex(r)
    ensures ValidIndex(i) ==> r == if i == 0 then CampaignDays - 1 else i - 1
  {
    JsRemainder(i - 1 + CampaignDays, CampaignDays)
  }

  /** Going back undoes going forward, and going forward undoes going back. */
  lemma PrevNextInverse(i: int)
    requires ValidIndex(i)
    ensures PrevIndex(NextIndex(i)) == i
    ensures NextIndex(PrevIndex(i)) == i
  {
  }

  /** The index after `k` presses of "next". */
  function Forward(i: int, k: nat): int
    decreases k
  {
    if k == 0 then i else Forward(NextIndex(i), k - 1)
  }

  /** `k` presses of "next" advance the index by `k` around the cycle. */
  lemma {:induction false} ForwardIsModular(i: int, k: nat)
    requires ValidIndex(i)
    ensures Forward(i, k) == (i + k) % CampaignDays
    decreases k
  {
    if k > 0 {
      ForwardIsModular(NextIndex(i), k - 1);
      assert (NextIndex(i) + (k - 1)) % CampaignDays == (i + k) % CampaignDays;
    }
  }

  /** 365 presses of "next" come back to the same day. */
  lemma FullCycleReturns(i: int)
    requires ValidIndex(i)
    ensures Forward(i, CampaignDays) == i
  {
    ForwardIsModular(i, CampaignDays);
  }
}
