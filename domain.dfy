/** The enumerations of the database schema (types/database.ts). */
module Domain {

  datatype SubscriptionStatus = Trial | Active | Expired | Cancelled

  datatype PlanType = Starter | Professional | Unlimited | Lifetime

  datatype AuctionStatus = Draft | PendingStart | InProgress | Completed | Failed | Cancelled

  datatype BidDecision = Accept | Decline | Timeout

  /** The `{ source, target }` objects stored in `language_pair(s)` columns. */
  datatype LanguagePair = LanguagePair(source: string, target: string)
}
