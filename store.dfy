/**
 * The tables the route handlers read and write, as in types/database.ts,
 * with only the columns those handlers touch. Generated ids, timestamps and
 * the magic-link tokens are inputs of the handlers.
 */
module Store {
  import opened Wrappers
  import opened Json
  import opened Domain

  datatype AgencyRow = AgencyRow(
    id: string,
    subscriptionStatus: SubscriptionStatus,
    planType: PlanType,
    maxAuctionsPerMonth: int,
    maxTranslators: int,
    auctionsUsedThisMonth: int,
    billingAnniversary: string,
    stripeCustomerId: Option<string>,
    stripeSubscriptionId: Option<string>)

  datatype AuctionRow = AuctionRow(
    id: string,
    agencyId: string,
    languagePair: LanguagePair,
    specialization: Option<string>,
    isSworn: bool,
    wordCount: real,
    deadline: string,
    startingPrice: real,
    currentPrice: real,
    description: string,
    fileUrl: Option<string>,
    numParticipants: int,
    status: AuctionStatus)

  datatype ParticipantRow = ParticipantRow(
    auctionId: string,
    translatorId: string,
    position: int,
    magicLinkToken: string)

  /**
   * A translator row. The import passes the body's values through
   * unchecked, so the columns it copies are JavaScript values; `phone` is
   * `Null` for none.
   */
  datatype TranslatorRow = TranslatorRow(
    agencyId: string,
    email: JsValue,
    firstName: JsValue,
    lastName: JsValue,
    phone: JsValue,
    languagePairs: seq<LanguagePair>,
    specializations: seq<string>,
    isSworn: JsValue,
    gdprConsent: bool,
    gdprConsentDate: Option<string>)

  /** The database, one sequence of rows per table. */
  class Database {
    var agencies: seq<AgencyRow>
    var auctions: seq<AuctionRow>
    var participants: seq<ParticipantRow>
    var translators: seq<TranslatorRow>

    constructor (agencies: seq<AgencyRow>)
      ensures this.agencies == agencies
      ensures auctions == [] && participants == [] && translators == []
    {
      this.agencies := agencies;
      auctions := [];
      participants := [];
      translators := [];
    }
  }

  /** `.update(...).eq(column, value)`: every row that matches is updated, the others are kept. */
  function UpdateWhere(rows: seq<AgencyRow>, matches: AgencyRow -> bool, update: AgencyRow -> AgencyRow): (r: seq<AgencyRow>)
    ensures |r| == |rows|
    ensures forall i :: 0 <= i < |rows| ==> r[i] == (if matches(rows[i]) then update(rows[i]) else rows[i])
  {
    if |rows| == 0 then []
    else
      var rest := UpdateWhere(rows[1..], matches, update);
      assert forall i :: 1 <= i < |rows| ==> rows[i] == rows[1..][i - 1];
      [if matches(rows[0]) then update(rows[0]) else rows[0]] + rest
  }

  /** An update none of whose rows matches changes nothing. */
  lemma UpdateNothing(rows: seq<AgencyRow>, matches: AgencyRow -> bool, update: AgencyRow -> AgencyRow)
    requires forall i :: 0 <= i < |rows| ==> !matches(rows[i])
    ensures UpdateWhere(rows, matches, update) == rows
  {
  }
}
