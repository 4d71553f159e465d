/**
 * The metrics of app/api/analytics/route.ts. Prices are integer grosze, as in
 * AuctionRules; rates and averages are exact rationals (`real`) before the
 * display rounding of the response.
 */
module Analytics {
  import opened Wrappers
  import opened Domain
  import AuctionRules
  import opened Participation

  // ---------------------------------------------------------------------------
  // The date range

  /** The lower bound of `created_at`: the epoch, or a number of days before now. */
  datatype StartDate = Epoch | DaysBefore(days: nat)

  /** The `range` query parameter, `|| "30d"`, then the `switch`. */
  function RangeStart(range: Option<string>): (d: StartDate)
    ensures d == Epoch <==> range == Some("all")
    ensures range.None? || range == Some("") || range == Some("30d") <==> d == DaysBefore(30)
    ensures d == DaysBefore(7) <==> range == Some("7d")
    ensures d == DaysBefore(90) <==> range == Some("90d")
    ensures d == DaysBefore(0) <==> range.Some? && range.value !in ["", "7d", "30d", "90d", "all"]
  {
    var r := if range.None? || range.value == "" then "30d" else range.value;
    if r == "7d" then DaysBefore(7)
    else if r == "30d" then DaysBefore(30)
    else if r == "90d" then DaysBefore(90)
    else if r == "all" then Epoch
    else DaysBefore(0)
  }

  // ---------------------------------------------------------------------------
  // Auction metrics

  /** The columns of a `bid_translate_auctions` row the metrics read; `finalPrice` may be null. */
  datatype AuctionStatsRow = AuctionStatsRow(
    id: string,
    status: AuctionStatus,
    startingPrice: int,
    finalPrice: Option<int>,
    currentRound: int,
    numParticipants: int)

  /**
   * `auctions.filter((a) => a.status === status)`: the rows with the status
   * and no other; WithStatusCounts says as often as they occur, and
   * WithStatusSingle with WithStatusAppend that they keep their order.
   */
  function WithStatus(rows: seq<AuctionStatsRow>, status: AuctionStatus): (r: seq<AuctionStatsRow>)
    ensures |r| <= |rows|
    ensures forall i :: 0 <= i < |r| ==> r[i].status == status
  {
    if |rows| == 0 then []
    else
      var before := WithStatus(rows[..|rows| - 1], status);
      assert rows == rows[..|rows| - 1] + [rows[|rows| - 1]];
      if rows[|rows| - 1].status == status then before + [rows[|rows| - 1]] else before
  }

  /** Each row with the status is kept as often as it occurs; no other row is kept. */
  lemma {:induction false} WithStatusCounts(rows: seq<AuctionStatsRow>, status: AuctionStatus)
    ensures forall a :: multiset(WithStatus(rows, status))[a] == if a.status == status then multiset(rows)[a] else 0
  {
    if |rows| > 0 {
      var front, last := rows[..|rows| - 1], rows[|rows| - 1];
      assert rows == front + [last];
      assert multiset(rows) == multiset(front) + multiset{last};
      WithStatusCounts(front, status);
    }
  }

  /** One row is kept exactly when it has the status. */
  lemma WithStatusSingle(a: AuctionStatsRow, status: AuctionStatus)
    ensures WithStatus([a], status) == if a.status == status then [a] else []
  {
    assert [a][..0] == [];
  }

  /** The filter works row by row: with WithStatusSingle this fixes the result and its order. */
  lemma {:induction false} WithStatusAppend(xs: seq<AuctionStatsRow>, ys: seq<AuctionStatsRow>, status: AuctionStatus)
    ensures WithStatus(xs + ys, status) == WithStatus(xs, status) + WithStatus(ys, status)
    decreases |ys|
  {
    if |ys| == 0 {
      assert xs + ys == xs;
    } else {
      var front, y := ys[..|ys| - 1], ys[|ys| - 1];
      assert ys == front + [y];
      assert xs + ys == (xs + front) + [y];
      WithStatusSnoc(xs + front, y, status);
      WithStatusSnoc(front, y, status);
      WithStatusAppend(xs, front, status);
    }
  }

  lemma WithStatusSnoc(xs: seq<AuctionStatsRow>, y: AuctionStatsRow, status: AuctionStatus)
    ensures WithStatus(xs + [y], status) == WithStatus(xs, status) + if y.status == status then [y] else []
  {
    assert (xs + [y])[..|xs|] == xs;
  }

  /** No auction is both completed and failed. */
  lemma {:induction false} CompletedAndFailedBound(rows: seq<AuctionStatsRow>)
    ensures |WithStatus(rows, Completed)| + |WithStatus(rows, Failed)| <= |rows|
  {
    if |rows| > 0 {
      CompletedAndFailedBound(rows[..|rows| - 1]);
    }
  }

  /** `if (a.final_price)`: a non-null, non-zero final price. */
  predicate HasFinalPrice(a: AuctionStatsRow) {
    a.finalPrice.Some? && a.finalPrice.value != 0
  }

  /** The `reduce` of `totalSavings`: start minus final over rows with a final price. */
  function TotalSavings(rows: seq<AuctionStatsRow>): int {
    if |rows| == 0 then 0
    else
      var a := rows[|rows| - 1];
      TotalSavings(rows[..|rows| - 1]) + (if HasFinalPrice(a) then a.startingPrice - a.finalPrice.value else 0)
  }

  /** The sum of the per-auction savings that `calculateAuctionStats` reports. */
  function StatsSavings(rows: seq<AuctionStatsRow>): int {
    if |rows| == 0 then 0
    else
      var a := rows[|rows| - 1];
      StatsSavings(rows[..|rows| - 1]) + AuctionRules.CalculateAuctionStats(a.startingPrice, a.finalPrice).savingsAmount
  }

  /** The route's total is the sum of the savings of each auction. */
  lemma {:induction false} TotalSavingsIsSumOfStats(rows: seq<AuctionStatsRow>)
    ensures TotalSavings(rows) == StatsSavings(rows)
  {
    if |rows| > 0 {
      TotalSavingsIsSumOfStats(rows[..|rows| - 1]);
    }
  }

  /** Rows without a final price contribute nothing. */
  lemma {:induction false} TotalSavingsWithoutFinalPrices(rows: seq<AuctionStatsRow>)
    requires forall i :: 0 <= i < |rows| ==> !HasFinalPrice(rows[i])
    ensures TotalSavings(rows) == 0
  {
    if |rows| > 0 {
      TotalSavingsWithoutFinalPrices(rows[..|rows| - 1]);
    }
  }

  /** When no final price exceeds its starting price, the total is not negative. */
  lemma {:induction false} TotalSavingsNonNegative(rows: seq<AuctionStatsRow>)
    requires forall i :: 0 <= i < |rows| && HasFinalPrice(rows[i]) ==> rows[i].finalPrice.value <= rows[i].startingPrice
    ensures TotalSavings(rows) >= 0
  {
    if |rows| > 0 {
      TotalSavingsNonNegative(rows[..|rows| - 1]);
    }
  }

  /** The savings percentage of one row, None where the division is by zero. */
  function SavingsPercent(a: AuctionStatsRow): (r: Option<real>)
    requires HasFinalPrice(a)
    ensures r.None? <==> a.startingPrice == 0
  {
    if a.startingPrice == 0 then None
    else Some(((a.startingPrice - a.finalPrice.value) as real / a.startingPrice as real) * 100.0)
  }

  /** The `reduce` inside `averageSavings`; None once a term is not finite. */
  function PercentSum(rows: seq<AuctionStatsRow>): (r: Option<real>) {
    if |rows| == 0 then Some(0.0)
    else
      var a := rows[|rows| - 1];
      var before := PercentSum(rows[..|rows| - 1]);
      if !HasFinalPrice(a) then before
      else if before.None? || SavingsPercent(a).None? then None
      else Some(before.value + SavingsPercent(a).value)
  }

  /** `averageSavings`: 0 without completed auctions, else the percentage sum over their number. */
  function AverageSavings(completed: seq<AuctionStatsRow>): Option<real> {
    if |completed| == 0 then Some(0.0)
    else
      var s := PercentSum(completed);
      if s.None? then None else Some(s.value / |completed| as real)
  }

  /** A row whose final price lies in (0, start]: its percentage is in [0, 100). */
  predicate Plausible(a: AuctionStatsRow) {
    a.startingPrice > 0 && (HasFinalPrice(a) ==> 0 < a.finalPrice.value <= a.startingPrice)
  }

  lemma PercentBounds(a: AuctionStatsRow)
    requires Plausible(a) && HasFinalPrice(a)
    ensures SavingsPercent(a).Some?
    ensures 0.0 <= SavingsPercent(a).value < 100.0
  {
    var s := a.startingPrice as real;
    var f := a.finalPrice.value as real;
    var q := (s - f) / s;
    assert q * s == s - f;
    assert 0.0 <= q < 1.0;
  }

  lemma {:induction false} PercentSumBounds(rows: seq<AuctionStatsRow>)
    requires forall i :: 0 <= i < |rows| ==> Plausible(rows[i])
    ensures PercentSum(rows).Some?
    ensures 0.0 <= PercentSum(rows).value <= 100.0 * |rows| as real
  {
    if |rows| > 0 {
      var a := rows[|rows| - 1];
      PercentSumBounds(rows[..|rows| - 1]);
      if HasFinalPrice(a) {
        PercentBounds(a);
      }
    }
  }

  /** Over plausible rows the average saving is a percentage. */
  lemma AverageSavingsBounds(completed: seq<AuctionStatsRow>)
    requires forall i :: 0 <= i < |completed| ==> Plausible(completed[i])
    ensures AverageSavings(completed).Some?
    ensures 0.0 <= AverageSavings(completed).value <= 100.0
  {
    PercentSumBounds(completed);
  }

  /** A zero starting price on a row with a final price makes the average not finite. */
  lemma {:induction false} AverageSavingsNotFinite(completed: seq<AuctionStatsRow>, i: int)
    requires 0 <= i < |completed| && HasFinalPrice(completed[i]) && completed[i].startingPrice == 0
    ensures AverageSavings(completed).None?
  {
    PercentSumNone(completed, i);
  }

  lemma {:induction false} PercentSumNone(rows: seq<AuctionStatsRow>, i: int)
    requires 0 <= i < |rows| && HasFinalPrice(rows[i]) && rows[i].startingPrice == 0
    ensures PercentSum(rows).None?
  {
    if i < |rows| - 1 {
      assert rows[..|rows| - 1][i] == rows[i];
      PercentSumNone(rows[..|rows| - 1], i);
    }
  }

  /** `successRate`: completed over total, as a percentage, 0 without auctions. */
  function SuccessRate(total: nat, completed: nat): (r: real)
    ensures total == 0 ==> r == 0.0
    ensures completed <= total ==> 0.0 <= r <= 100.0
    ensures 0 < total && completed == total ==> r == 100.0
  {
    if total > 0 then
      var q := completed as real / total as real;
      RatioBounds(completed as real, total as real);
      q * 100.0
    else 0.0
  }

  lemma RatioBounds(part: real, whole: real)
    requires 0.0 <= part && 0.0 < whole
    ensures 0.0 <= part / whole
    ensures part <= whole ==> part / whole <= 1.0
    ensures part == whole ==> part / whole == 1.0
  {
    var q := part / whole;
    assert q * whole == part;
    if part <= whole {
      assert (1.0 - q) * whole == whole - part;
    }
  }

  function Sum(xs: seq<int>): int {
    if |xs| == 0 then 0 else Sum(xs[..|xs| - 1]) + xs[|xs| - 1]
  }

  /** The `reduce(...) / length` of the two averages, 0 for an empty list. */
  function Mean(xs: seq<int>): (r: real)
    ensures |xs| == 0 ==> r == 0.0
  {
    if |xs| == 0 then 0.0 else Sum(xs) as real / |xs| as real
  }

  lemma {:induction false} SumBounds(xs: seq<int>, lo: int, hi: int)
    requires forall i :: 0 <= i < |xs| ==> lo <= xs[i] <= hi
    ensures lo * |xs| <= Sum(xs) <= hi * |xs|
  {
    if |xs| > 0 {
      var n := |xs| - 1;
      SumBounds(xs[..n], lo, hi);
      assert Sum(xs) == Sum(xs[..n]) + xs[n];
      assert lo * |xs| == lo * n + lo && hi * |xs| == hi * n + hi;
    }
  }

  /** A mean lies between the least and greatest value. */
  lemma MeanBounds(xs: seq<int>, lo: int, hi: int)
    requires |xs| > 0
    requires forall i :: 0 <= i < |xs| ==> lo <= xs[i] <= hi
    ensures lo as real <= Mean(xs) <= hi as real
  {
    SumBounds(xs, lo, hi);
    var n := |xs| as real;
    assert lo as real * n <= Sum(xs) as real <= hi as real * n;
  }

  function Rounds(rows: seq<AuctionStatsRow>): (r: seq<int>)
    ensures |r| == |rows| && forall i :: 0 <= i < |rows| ==> r[i] == rows[i].currentRound
  {
    seq(|rows|, i requires 0 <= i < |rows| => rows[i].currentRound)
  }

  function Participants(rows: seq<AuctionStatsRow>): (r: seq<int>)
    ensures |r| == |rows| && forall i :: 0 <= i < |rows| ==> r[i] == rows[i].numParticipants
  {
    seq(|rows|, i requires 0 <= i < |rows| => rows[i].numParticipants)
  }

  /** The auction ids the participant query filters on. */
  function Ids(rows: seq<AuctionStatsRow>): (r: seq<string>)
    ensures |r| == |rows| && forall i :: 0 <= i < |rows| ==> r[i] == rows[i].id
  {
    seq(|rows|, i requires 0 <= i < |rows| => rows[i].id)
  }

  /** The JSON body of a successful response, before display rounding. */
  datatype Report = Report(
    totalAuctions: nat,
    completedAuctions: nat,
    failedAuctions: nat,
    averageSavings: Option<real>,
    totalSavings: int,
    successRate: real,
    averageParticipants: real,
    averageRounds: real,
    translatorParticipation: seq<TranslatorStats>)

  /** The body returned when the auction query yields no data. */
  const EmptyReport := Report(0, 0, 0, Some(0.0), 0, 0.0, 0.0, 0.0, [])

  /** The auction metrics, with the translator list computed apart. */
  function Metrics(auctions: seq<AuctionStatsRow>, participation: seq<TranslatorStats>): Report {
    var completed := WithStatus(auctions, Completed);
    Report(|auctions|, |completed|, |WithStatus(auctions, Failed)|,
      AverageSavings(completed), TotalSavings(completed),
      SuccessRate(|auctions|, |completed|),
      Mean(Participants(auctions)), Mean(Rounds(completed)),
      participation)
  }

  /** The counts and rates of a report always fit together. */
  lemma MetricsConsistent(auctions: seq<AuctionStatsRow>, participation: seq<TranslatorStats>)
    ensures Metrics(auctions, participation).completedAuctions + Metrics(auctions, participation).failedAuctions
      <= Metrics(auctions, participation).totalAuctions
    ensures 0.0 <= Metrics(auctions, participation).successRate <= 100.0
    ensures |auctions| == 0 ==> Metrics(auctions, participation) == EmptyReport.(translatorParticipation := participation)
  {
    CompletedAndFailedBound(auctions);
  }

  /** Quorum-sized auctions average between 3 and 10 participants. */
  lemma AverageParticipantsBounds(auctions: seq<AuctionStatsRow>, participation: seq<TranslatorStats>)
    requires |auctions| > 0
    requires forall i :: 0 <= i < |auctions| ==> 3 <= auctions[i].numParticipants <= 10
    ensures 3.0 <= Metrics(auctions, participation).averageParticipants <= 10.0
  {
    MeanBounds(Participants(auctions), 3, 10);
  }

  // ---------------------------------------------------------------------------
  // The handler

  datatype Response = NotFound | Success(report: Report) | ServerError

  /**
   * `GET /api/analytics`. The two queries are parameters: the auctions of an
   * agency created from a start date on, and the participant rows of a list
   * of auction ids (None for a null `data`).
   */
  method Get(
    agency: Option<string>,
    range: Option<string>,
    fetchAuctions: (string, StartDate) -> Option<seq<AuctionStatsRow>>,
    fetchParticipants: seq<string> -> Option<seq<ParticipantStat>>)
    returns (resp: Response)
    ensures agency.None? <==> resp == NotFound
    ensures agency.Some? && fetchAuctions(agency.value, RangeStart(range)).None? ==> resp == Success(EmptyReport)
    ensures agency.Some? && fetchAuctions(agency.value, RangeStart(range)).Some? ==>
      var auctions := fetchAuctions(agency.value, RangeStart(range)).value;
      var rows := fetchParticipants(Ids(auctions)).GetOr([]);
      (resp.ServerError? <==> Tallied(rows).None?)
      && (resp.Success? <==> Tallied(rows).Some?)
      && (resp.Success? ==>
        (forall k :: k in Tallied(rows).value.keys ==> k in Tallied(rows).value.table)
        && resp.report == Metrics(auctions, resp.report.translatorParticipation)
        && SortedByTotal(resp.report.translatorParticipation)
        && multiset(resp.report.translatorParticipation) == multiset(Values(Tallied(rows).value)))
  {
    if agency.None? {
      return NotFound;
    }
    var since := RangeStart(range);
    var auctions := fetchAuctions(agency.value, since);
    if auctions.None? {
      return Success(EmptyReport);
    }
    var stats := fetchParticipants(Ids(auctions.value));
    var participation := TranslatorParticipation(stats.GetOr([]));
    if participation.None? {
      return ServerError;
    }
    resp := Success(Metrics(auctions.value, participation.value));
  }
}
