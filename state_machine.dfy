/**
 * Auction rules of lib/auction/state-machine.ts.
 * Prices are integer grosze (cents of PLN) and instants are integer milliseconds,
 * so the source's decimal arithmetic becomes exact integer arithmetic.
 */
module AuctionRules {
  import opened Wrappers
  import opened Domain

  const ROUND_DURATION: nat := 60            // seconds
  const ROUND_DURATION_MS: nat := ROUND_DURATION * 1000
  const PRICE_REDUCTION_PERCENT: nat := 5
  const CONFIRMATION_WINDOW: nat := 10 * 60  // seconds
  const MIN_PARTICIPANTS: nat := 3

  /** `Math.round(x)` on an exact rational n/d (d > 0): the floor of n/d + 1/2. */
  function RoundHalfUp(n: int, d: int): (r: int)
    requires d > 0
    ensures 2 * d * r <= 2 * n + d < 2 * d * (r + 1)
  {
    (2 * n + d) / (2 * d)
  }

  /**
   * The next round's price: 5% off, rounded to whole grosze.
   * In PLN the source computes round((p - p * 0.05) * 100) / 100; with p = P / 100
   * that is round(95 * P / 100) grosze.
   */
  function NextPrice(price: int): (next: int)
    ensures 100 * next <= (100 - PRICE_REDUCTION_PERCENT) * price + 50 < 100 * next + 100
  {
    ((100 - PRICE_REDUCTION_PERCENT) * price + 50) / 100
  }

  /** Quorum check. */
  predicate CanStartAuction(confirmedCount: int) {
    confirmedCount >= MIN_PARTICIPANTS
  }

  /** The status-transition function over AuctionStatus. */
  function NextAuctionStatus(current: AuctionStatus, participantsRemaining: int): (next: AuctionStatus)
    ensures next != Draft
    ensures next == AuctionStatus.Cancelled ==> current == AuctionStatus.Cancelled
  {
    match current
    case Draft => PendingStart
    case PendingStart => if participantsRemaining >= MIN_PARTICIPANTS then InProgress else Failed
    case InProgress => if participantsRemaining == 1 then Completed else InProgress
    case _ => current
  }

  /** Elapsed seconds (now - start) / 1000 >= 60, stated in milliseconds. */
  predicate ShouldEliminateForTimeout(roundStartedAtMs: int, nowMs: int) {
    nowMs - roundStartedAtMs >= ROUND_DURATION_MS
  }

  /** max(0, round(60 - elapsed / 1000)) in whole seconds. */
  function TimeRemaining(roundStartedAtMs: int, nowMs: int): (seconds: int)
    ensures seconds >= 0
  {
    var rounded := RoundHalfUp(ROUND_DURATION_MS - (nowMs - roundStartedAtMs), 1000);
    if rounded > 0 then rounded else 0
  }

  /** The result of calculateAuctionStats. The percentage is kept in tenths of a percent. */
  datatype AuctionStats = AuctionStats(savingsAmount: int, savingsPercentTenths: Option<int>)

  /**
   * Savings of an auction. A null or zero final price gives zeros. The amount
   * is exact in grosze. The percentage is round(savings / start * 1000) tenths;
   * a starting price of 0 makes it non-finite in the source, modelled as None.
   */
  function CalculateAuctionStats(startingPrice: int, finalPrice: Option<int>): (stats: AuctionStats)
    ensures finalPrice.Some? && finalPrice.value != 0 ==> stats.savingsAmount + finalPrice.value == startingPrice
    ensures stats.savingsPercentTenths.None? <==> finalPrice.Some? && finalPrice.value != 0 && startingPrice == 0
  {
    if finalPrice == None || finalPrice.value == 0 then
      AuctionStats(0, Some(0))
    else
      var savings := startingPrice - finalPrice.value;
      AuctionStats(savings, PercentTenths(savings, startingPrice))
  }

  /** round(part / whole * 1000), or None when whole is 0. */
  function PercentTenths(part: int, whole: int): (r: Option<int>)
    ensures r == None <==> whole == 0
  {
    if whole == 0 then None
    else if whole > 0 then Some(RoundHalfUp(1000 * part, whole))
    else Some(RoundHalfUp(-1000 * part, -whole))
  }

  /** Bid decisions are accepted only while the auction is in progress. */
  predicate CanAcceptBid(status: AuctionStatus) {
    status == InProgress
  }

  // ---------------------------------------------------------------------------
  // Pricing

  /** 1000.00 PLN becomes 950.00 PLN. */
  lemma NextPriceExample()
    ensures NextPrice(100000) == 95000
  {
  }

  /** A positive price stays positive and never rises. */
  lemma NextPriceBounds(price: int)
    requires price >= 1
    ensures 1 <= NextPrice(price) <= price
  {
  }

  /** The step lowers the price exactly when it is above 0.10 PLN; at and below it rounding returns the same price. */
  lemma NextPriceDecreasesIff(price: int)
    requires price >= 1
    ensures NextPrice(price) < price <==> price > 10
    ensures price <= 10 ==> NextPrice(price) == price
  {
  }

  lemma NextPriceMonotone(p: int, q: int)
    requires p <= q
    ensures NextPrice(p) <= NextPrice(q)
  {
  }

  /** The price after k successive round steps. */
  function PriceAfterRounds(price: int, k: nat): int
  {
    if k == 0 then price else NextPrice(PriceAfterRounds(price, k - 1))
  }

  /** Over any number of rounds a positive price stays positive and never rises from one round to the next. */
  lemma {:induction false} PriceAfterRoundsBounds(price: int, k: nat)
    requires price >= 1
    ensures 1 <= PriceAfterRounds(price, k + 1) <= PriceAfterRounds(price, k) <= price
  {
    if k > 0 {
      PriceAfterRoundsBounds(price, k - 1);
    }
    NextPriceBounds(PriceAfterRounds(price, k));
  }

  /** Once the price is at most 0.10 PLN the round steps leave it unchanged. */
  lemma {:induction false} PriceAfterRoundsStalls(price: int, k: nat)
    requires 1 <= price <= 10
    ensures PriceAfterRounds(price, k) == price
  {
    if k > 0 {
      PriceAfterRoundsStalls(price, k - 1);
      NextPriceDecreasesIff(price);
    }
  }

  // ---------------------------------------------------------------------------
  // Status transitions

  lemma StartNeedsQuorum(confirmedCount: int)
    ensures CanStartAuction(confirmedCount) <==> confirmedCount >= 3
    ensures NextAuctionStatus(PendingStart, confirmedCount) == (if CanStartAuction(confirmedCount) then InProgress else Failed)
  {
  }

  lemma StatusTransitions(remaining: int)
    ensures NextAuctionStatus(Draft, remaining) == PendingStart
    ensures NextAuctionStatus(InProgress, remaining) == Completed <==> remaining == 1
    ensures remaining != 1 ==> NextAuctionStatus(InProgress, remaining) == InProgress
    ensures NextAuctionStatus(InProgress, 0) == InProgress
    ensures NextAuctionStatus(Completed, remaining) == Completed
    ensures NextAuctionStatus(Failed, remaining) == Failed
    ensures NextAuctionStatus(AuctionStatus.Cancelled, remaining) == AuctionStatus.Cancelled
  {
  }

  lemma AcceptsBidsOnlyInProgress(status: AuctionStatus)
    ensures CanAcceptBid(status) <==> status == InProgress
  {
  }

  // ---------------------------------------------------------------------------
  // Round timing

  /** The timeout boundary is inclusive: exactly 60 s of elapsed time times out, one millisecond less does not. */
  lemma TimeoutBoundary(startMs: int)
    ensures ShouldEliminateForTimeout(startMs, startMs + 60000)
    ensures !ShouldEliminateForTimeout(startMs, startMs + 59999)
  {
  }

  lemma TimeoutMonotone(startMs: int, nowMs: int, laterMs: int)
    requires nowMs <= laterMs
    requires ShouldEliminateForTimeout(startMs, nowMs)
    ensures ShouldEliminateForTimeout(startMs, laterMs)
  {
  }

  /** With a clock that does not run backwards the remaining time is at most 60 s. */
  lemma TimeRemainingAtMostRound(startMs: int, nowMs: int)
    requires nowMs >= startMs
    ensures TimeRemaining(startMs, nowMs) <= ROUND_DURATION
  {
  }

  lemma TimeoutImpliesNoTimeRemaining(startMs: int, nowMs: int)
    requires ShouldEliminateForTimeout(startMs, nowMs)
    ensures TimeRemaining(startMs, nowMs) == 0
  {
  }

  /**
   * The display reaches 0 up to half a second before the timeout holds:
   * strictly more than 59.5 s elapsed shows 0, while exactly 59.5 s rounds 0.5 up to 1.
   */
  lemma TimeRemainingZeroBeforeTimeout(startMs: int, nowMs: int)
    requires 59500 < nowMs - startMs < 60000
    ensures TimeRemaining(startMs, nowMs) == 0
    ensures !ShouldEliminateForTimeout(startMs, nowMs)
    ensures TimeRemaining(startMs, startMs + 59500) == 1
  {
  }

  // ---------------------------------------------------------------------------
  // Statistics

  lemma StatsWithoutFinalPrice(startingPrice: int)
    ensures CalculateAuctionStats(startingPrice, None) == AuctionStats(0, Some(0))
    ensures CalculateAuctionStats(startingPrice, Some(0)) == AuctionStats(0, Some(0))
  {
  }

  lemma MulCancelLess(a: int, x: int, y: int)
    requires a > 0
    requires a * x < a * y
    ensures x < y
  {
  }

  /** With a final price the savings are start - final, non-negative when the price did not rise, and the percentage lies in [0, 100.0]. */
  lemma StatsSavings(startingPrice: int, finalPrice: int)
    requires finalPrice != 0
    ensures CalculateAuctionStats(startingPrice, Some(finalPrice)).savingsAmount == startingPrice - finalPrice
    ensures 0 < finalPrice <= startingPrice ==>
      var p := CalculateAuctionStats(startingPrice, Some(finalPrice)).savingsPercentTenths;
      p.Some? && 0 <= p.value <= 1000
  {
    if 0 < finalPrice <= startingPrice {
      var s := startingPrice - finalPrice;
      var r := RoundHalfUp(1000 * s, startingPrice);
      assert 0 <= s < startingPrice;
      assert 2 * startingPrice * r <= 2000 * s + startingPrice;
      assert 2000 * s + startingPrice < 2 * startingPrice * (r + 1);
      assert 2000 * s + startingPrice < 2 * startingPrice * 1001 by {
        assert 2000 * s < 2000 * startingPrice;
      }
      assert 2 * startingPrice * r < 2 * startingPrice * 1001;
      MulCancelLess(2 * startingPrice, r, 1001);
      assert 2 * startingPrice * 0 < 2 * startingPrice * (r + 1);
      MulCancelLess(2 * startingPrice, 0, r + 1);
    }
  }
}
