# bid-translate in Dafny

BidTranslate runs reverse (Dutch) auctions in which translation agencies
invite 3 to 10 translators to bid on a job. The price starts at the agency's
starting price and drops 5 % per 60-second round. This project models the
decision logic of the application and proves what that logic promises:

- **Auction rules** (`AuctionRules`):
  - the price step, rounded to the grosz;
  - the quorum check;
  - the status transitions;
  - round timeouts and the time remaining;
  - savings statistics;
  - the bid gate.
- **CSV import helpers** (`Csv`, with `CsvRecord` for reading one CSV line and `Strings` for JavaScript's `split`, `trim` and `join`):
  - language-pair and specialization parsing;
  - the alias-fallback row mapping;
  - the downloadable template.
- **Plans and billing**:
  - the plan table and proration (`StripePlans`);
  - the webhook's subscription updates (`StripeWebhook`);
  - the checkout-session request (`CreateCheckout`).
- **Request validation** (`Schema` for the zod combinators, and `AuctionValidation`, `AuthValidation` and `TranslatorValidation` for the schemas):
  - a schema gives the list of failing field paths;
  - a body is accepted iff that list is empty.
- **The route guard** (`RouteGuard`): redirect to the login page, redirect to the dashboard, or pass through.
- **The route handlers** (`CreateAuction`, `CreateTranslator`, `TranslatorImport`, `Analytics`, with `Participation` for the per-translator tally):
  - they run over an in-memory `Store.Database` whose tables are sequences;
  - each handler assigns only the tables it writes;
  - what the database returns, the current date, generated ids and tokens, and Stripe's answers are parameters.

Units and data:

- Prices are integer grosze (1/100 PLN). Times are integer milliseconds.
- With those units every rounding in the auction rules is exact integer arithmetic. `Math.round` becomes round-half-up: `(2n + d) / (2d)`.
- Rates and averages in the analytics response are exact rationals (`real`), taken before the display rounding.
- A JSON request body is a `Json.JsValue` (undefined, null, boolean, number, string, array or object). `Json.Get`, `Json.Truthy` and `Json.Or` give JavaScript's property access, truthiness and `||`.

The model follows the code as written, including these edge cases:

- an auction in progress with 0 participants left stays in progress;
- the time remaining shown is already 0 from 59.5 s on, before the 60 s timeout;
- at 10 grosze or less the 5 % step no longer lowers the price;
- an empty optional string is stored as null;
- none of the quota guards treats the `-1` "unlimited" limit specially, so an agency with that limit is always refused;
- `STRIPE_PLANS[planType]` also finds the names every JavaScript object inherits (`toString`, `constructor`, ...). The checkout route then throws. The webhook writes an update that the database's `plan_type` enumeration refuses.

## Model

| member | source | states |
|---|---|---|
| AuctionRules.RoundHalfUp | lib/auction/state-machine.ts:17 | the result is n/d rounded half up (`Math.round`): 2d·r ≤ 2n+d < 2d·(r+1) |
| AuctionRules.NextPrice | lib/auction/state-machine.ts:15-18 | the next price is 95 % of the price rounded half up to a grosz: 100·next ≤ 95·P+50 < 100·next+100 |
| AuctionRules.NextPriceExample | lib/auction/state-machine.ts:15-18 | 1000.00 PLN steps to 950.00 PLN |
| AuctionRules.NextPriceBounds | lib/auction/state-machine.ts:15-18 | for a positive price the next price is positive and not higher |
| AuctionRules.NextPriceDecreasesIff | lib/auction/state-machine.ts:15-18 | the step lowers a positive price iff it is above 10 grosze; at 10 grosze or less the price stays |
| AuctionRules.NextPriceMonotone | lib/auction/state-machine.ts:15-18 | P ≤ Q implies next(P) ≤ next(Q) |
| AuctionRules.PriceAfterRoundsBounds | lib/auction/state-machine.ts:15-18 | repeated steps from a positive price stay positive and never rise |
| AuctionRules.PriceAfterRoundsStalls | lib/auction/state-machine.ts:15-18 | a price of at most 10 grosze is a fixed point of any number of steps |
| AuctionRules.CanStartAuction | lib/auction/state-machine.ts:23-25 | the quorum predicate itself: at least 3 confirmed participants (StartNeedsQuorum ties it to the pending_start transition) |
| AuctionRules.NextAuctionStatus | lib/auction/state-machine.ts:30-44 | draft is never produced, and cancelled only from cancelled |
| AuctionRules.StartNeedsQuorum | lib/auction/state-machine.ts:23-38 | an auction can start iff at least 3 participants confirmed, and pending_start goes to in_progress exactly then, otherwise to failed |
| AuctionRules.StatusTransitions | lib/auction/state-machine.ts:34-43 | draft goes to pending_start; in_progress goes to completed iff exactly 1 participant remains and otherwise stays, even with 0; completed, failed and cancelled are fixed points |
| AuctionRules.AcceptsBidsOnlyInProgress | lib/auction/state-machine.ts:89-91 | bids are accepted iff the auction is in progress |
| AuctionRules.CanAcceptBid | lib/auction/state-machine.ts:89-91 | the bid predicate itself: only the in_progress status (AcceptsBidsOnlyInProgress states it over every status) |
| AuctionRules.ShouldEliminateForTimeout | lib/auction/state-machine.ts:49-55 | the timeout predicate: at least 60 000 ms since the round started (TimeoutBoundary and TimeoutMonotone state its boundary and monotonicity) |
| AuctionRules.TimeoutBoundary | lib/auction/state-machine.ts:49-55 | the timeout holds at exactly 60 000 ms and not at 59 999 ms |
| AuctionRules.TimeoutMonotone | lib/auction/state-machine.ts:49-55 | once timed out, a round stays timed out at every later time |
| AuctionRules.TimeRemaining | lib/auction/state-machine.ts:60-64 | the seconds remaining are never negative |
| AuctionRules.TimeRemainingAtMostRound | lib/auction/state-machine.ts:60-64 | after the round starts, at most 60 seconds remain |
| AuctionRules.TimeoutImpliesNoTimeRemaining | lib/auction/state-machine.ts:49-64 | a timed-out round shows 0 seconds |
| AuctionRules.TimeRemainingZeroBeforeTimeout | lib/auction/state-machine.ts:60-64 | between 59.5 s and 60 s the round shows 0 seconds yet has not timed out; at exactly 59.5 s it shows 1 |
| AuctionRules.PercentTenths | lib/auction/state-machine.ts:78-82 | the percentage in tenths is undefined (not finite) iff the starting price is 0 |
| AuctionRules.CalculateAuctionStats | lib/auction/state-machine.ts:69-83 | with a non-zero final price, savings plus final price is the starting price; the percentage is not finite iff there is such a final price and the starting price is 0 |
| AuctionRules.StatsWithoutFinalPrice | lib/auction/state-machine.ts:69-75 | a null or zero final price gives zero savings and a zero percentage |
| AuctionRules.StatsSavings | lib/auction/state-machine.ts:77-83 | with a final price the savings are start minus final; when 0 < final ≤ start the percentage is between 0 and 100.0 |
| Strings.Trim | lib/utils/csv.ts:47-48 | `trim()` gives a substring of its input with no whitespace at either end |
| Strings.TrimDropsOnlyEdges | lib/utils/csv.ts:47-48 | the trimmed text is the substring s[i..j] such that everything before i and from j on is whitespace: only whitespace at the ends is dropped |
| Strings.TrimDropsLeadingWhitespace | lib/utils/csv.ts:59 | a leading whitespace character does not change the trimmed text |
| Strings.TrimIdempotent | lib/utils/csv.ts:47-48 | trimming twice is trimming once |
| Strings.Split | lib/utils/csv.ts:46 | `split(sep)` gives at least one piece, none containing the separator |
| Strings.SplitJoinRoundTrip | lib/utils/csv.ts:46 | splitting pieces joined with the separator gives the pieces back, when no piece contains the separator |
| Strings.SplitManyIff | lib/utils/csv.ts:47 | a string splits into more than one piece iff it contains the separator |
| Strings.SplitAtFirst | lib/utils/csv.ts:47 | the first piece is the text before the first separator |
| Strings.SplitSecond | lib/utils/csv.ts:47 | the second piece is the text between the first and second separator |
| CsvRecord.CsvFields | lib/utils/csv.ts:11-13 | a CSV line always has at least one field |
| CsvRecord.CsvFieldsWithoutQuotes | lib/utils/csv.ts:11-13 | a line without double quotes reads as its comma-separated pieces |
| CsvRecord.CsvFieldsOfEscaped | lib/utils/csv.ts:11-13 | fields without double quotes, each written in double quotes, read back as exactly those fields, commas included |
| CsvRecord.HeaderRecord | lib/utils/csv.ts:12 | the record of a line has only header names as keys |
| CsvRecord.HeaderRecordAt | lib/utils/csv.ts:12 | with distinct headers, each header maps to the field in its column |
| Wrappers.MapResult | lib/utils/csv.ts:46-49 | a map whose callback may throw succeeds iff every element does, giving one result per element in order |
| Csv.ParsePairs | lib/utils/csv.ts:46-49 | the pieces parse iff every piece has a target; the result holds one pair per piece, in order |
| Csv.ParsePairsOkIff | lib/utils/csv.ts:46-49 | the pieces parse iff every trimmed piece contains '-', and then the i-th pair is the parse of the i-th piece |
| Csv.PairErrIff | lib/utils/csv.ts:47-48 | one piece fails to parse iff its trimmed text has no '-' |
| Csv.EmptyInputsParseToNothing | lib/utils/csv.ts:44-58 | the empty string parses to no language pairs and no specializations |
| Csv.ParseLanguagePairs | lib/utils/csv.ts:43-50 | the parser: "" gives no pairs, otherwise the comma pieces are parsed one by one (LanguagePairsPerPiece, EmptyInputsParseToNothing and LanguagePairsRoundTrip state what it gives) |
| Csv.ParsePair | lib/utils/csv.ts:46-49 | one comma piece to a pair (PairFields, PairWithoutDash, PairErrIff and ParsePairFormat state its result) |
| Csv.LanguagePairsPerPiece | lib/utils/csv.ts:43-49 | a non-empty string parses iff every trimmed comma piece contains '-', and then gives one pair per piece, the i-th from the i-th piece |
| Csv.PairFields | lib/utils/csv.ts:47-48 | the source is the trimmed text before the first '-', the target the trimmed text up to the next '-'; the rest is dropped |
| Csv.PairWithoutDash | lib/utils/csv.ts:47-48 | a piece without '-' leaves the target undefined, so `trim()` throws (an error result) |
| Csv.ParsePairFormat | lib/utils/csv.ts:47-48 | a pair of trimmed, non-empty codes without ',' or '-' written as "S-T" parses back to itself |
| Csv.LanguagePairsRoundTrip | lib/utils/csv.ts:43-49 | a list of such pairs written as "S-T,S-T,..." parses back to the same list |
| Csv.LanguagePairsExample | lib/utils/csv.ts:39-49 | "EN-PL,PL-EN" parses to (EN,PL), (PL,EN) |
| Csv.NonEmptyTrimmed | lib/utils/csv.ts:59 | the kept pieces are trimmed and non-empty, and there are no more of them than pieces |
| Csv.NonEmptyTrimmedSingle | lib/utils/csv.ts:59 | one piece is kept, trimmed, iff its trimmed text is non-empty, and dropped otherwise |
| Csv.ParseSpecializations | lib/utils/csv.ts:57-60 | every specialization is trimmed and non-empty, and there are no more of them than comma pieces |
| Csv.NonEmptyTrimmedOfClean | lib/utils/csv.ts:59 | pieces that are already trimmed and non-empty are all kept, in order |
| Csv.NonEmptyTrimmedDropsBlanks | lib/utils/csv.ts:59 | the filter works piecewise: on a concatenation it is the concatenation of the results, so with NonEmptyTrimmedSingle every piece contributes its trimmed text or nothing, in order |
| Csv.SpecializationsTrimmed | lib/utils/csv.ts:57-60 | " legal" parses to "legal" and a blank piece to nothing |
| Csv.SpecializationsRoundTrip | lib/utils/csv.ts:57-60 | trimmed, non-empty, comma-free specializations joined with ',' parse back to the same list |
| Csv.SpecializationsExample | lib/utils/csv.ts:57-60 | "medical,legal" parses to "medical", "legal" |
| Csv.FirstNonEmpty | lib/utils/csv.ts:17-22 | an alias chain gives "" iff every alias is missing or empty, and otherwise the first non-empty alias |
| Csv.FirstAliasWins | lib/utils/csv.ts:17-22 | a non-empty first alias is the value |
| Csv.MapRowSworn | lib/utils/csv.ts:23 | isSworn is true iff isSworn, is_sworn or IsSworn is exactly "true" |
| Csv.MapRow | lib/utils/csv.ts:16-24 | the row mapper (MapRowSworn, MapRowFields and MapTemplateRecord state its fields) |
| Csv.MapRowFields | lib/utils/csv.ts:16-24 | each text field of the mapped row is "" iff every alias of its column is missing or empty; the email is the `email` cell when that is non-empty and the `Email` cell otherwise |
| Csv.TranslatorCsvTemplate | lib/utils/csv.ts:66-87 | the template text (TemplateLines, TemplateHeaderFields, TemplateExampleCells and TemplateDoesNotRoundTrip state what it holds) |
| Csv.TemplateLines | lib/utils/csv.ts:87 | the template is exactly two lines: the joined headers and the joined example |
| Csv.TwoLines | lib/utils/csv.ts:87 | two newline-free lines joined by "\n" split back into those two lines |
| Csv.TemplateHeaderFields | lib/utils/csv.ts:66-75 | the header line has the 7 headers, each the first alias the row mapper reads for its column |
| Csv.TemplateHeadersDistinct | lib/utils/csv.ts:67-75 | the 7 headers are distinct |
| Csv.TemplateExampleCells | lib/utils/csv.ts:77-85 | the example's language-pair cell parses to (EN,PL), (PL,EN) and its specialization cell to "medical", "legal" |
| Csv.MapTemplateRecord | lib/utils/csv.ts:16-24 | a record read under the template's headers maps cell by cell onto the row, and sworn iff the isSworn cell is "true" |
| Csv.TemplateDoesNotRoundTrip | lib/utils/csv.ts:66-87 | as written, the example line reads as 9 fields under 7 headers, so the imported row has one language pair, the second pair as its specializations, and is not sworn |
| Csv.QuotedTemplateRoundTrip | lib/utils/csv.ts:66-87 | with its comma-holding cells quoted, the template reads back as 7 fields: both pairs, both specializations and sworn |
| StripePlans.GetPlanDetails | lib/stripe/config.ts:5-47 | every plan costs a positive PLN price; lifetime alone has no interval, the others are monthly; unlimited and lifetime alone use -1 for both limits |
| StripePlans.LookupPlan | lib/stripe/config.ts:5-38 | indexing the table finds a plan exactly under its key, an inherited object member under one of those names, and nothing otherwise |
| StripePlans.LookupPlanKey | lib/stripe/config.ts:5-38 | each plan's key finds that plan |
| StripePlans.PricesStrictlyIncreasing | lib/stripe/config.ts:5-38 | starter < professional < unlimited < lifetime in price |
| StripePlans.ProratedPrice | lib/stripe/config.ts:52-65 | the prorated price is never negative, and is either 0 or the price difference times the days over 30 |
| StripePlans.SamePlanIsFree | lib/stripe/config.ts:57-64 | changing to the same plan costs nothing |
| StripePlans.DowngradeIsFree | lib/stripe/config.ts:57-64 | a change to a plan that is not more expensive costs nothing for any non-negative number of days |
| StripePlans.UpgradeCost | lib/stripe/config.ts:57-64 | an upgrade costs the price difference times the remaining days over 30 |
| StripePlans.FullMonthUpgrade | lib/stripe/config.ts:57-64 | with 30 days left an upgrade costs the full difference |
| StripePlans.StarterToProfessionalFullMonth | lib/stripe/config.ts:7-64 | starter to professional with 30 days left costs 150 |
| StripePlans.UpgradeMonotone | lib/stripe/config.ts:61-64 | for an upgrade, more days remaining never cost less |
| Json.Get | app/api/translators/import/route.ts:22 | a property read is the field of an object that has it, and undefined otherwise |
| Json.Or | app/api/translators/import/route.ts:56-59 | `x or d` is x when x is truthy and d otherwise |
| Schema.Outcome | lib/validations/auction.ts:7-20 | a parse succeeds iff the value was read and no issue was raised |
| Schema.CheckedString | lib/validations/auth.ts:8 | a string check reads exactly strings, and raises an issue on its path iff the check fails |
| Schema.StringMin | lib/validations/auction.ts:9-17 | `string().min(n)` reads strings and raises an issue iff the string is shorter than n |
| Schema.AnyString | lib/validations/auth.ts:10 | `string()` accepts exactly strings |
| Schema.OptionalString | lib/validations/auction.ts:12 | `string().optional()` accepts undefined and strings |
| Schema.Boolean | lib/validations/translator.ts:20 | `boolean()` accepts exactly booleans |
| Schema.BooleanDefault | lib/validations/auction.ts:13 | `boolean().default(d)` gives d for undefined and the value for booleans |
| Schema.NumberMin | lib/validations/auction.ts:14-16 | `number().min(m)` reads numbers and raises an issue iff the number is below m |
| Schema.Elements | lib/validations/auction.ts:19 | the elements of an array are checked one by one at their indexes |
| Schema.ArrayOf | lib/validations/auction.ts:19 | an array schema reads exactly arrays whose elements read, and is clean iff every element is clean and the length is within bounds |
| Schema.Refine | lib/validations/auth.ts:14-17 | a refinement keeps the value and appends its path as an issue iff its condition fails |
| AuctionValidation.AuctionSchema | lib/validations/auction.ts:7-20 | an auction body is accepted iff every field holds: codes of 2+ characters, word count ≥ 1, deadline non-empty, price ≥ 0.01, description of 10+ characters, 3 to 10 participant ids |
| AuctionValidation.CheckAuction | lib/validations/auction.ts:7-20 | the parse of `createAuctionSchema` (AuctionSchema: clean iff ValidAuctionBody; AcceptedAuction: the form it gives) |
| AuctionValidation.ValidAuctionBody | lib/validations/auction.ts:7-20 | the field conditions of the auction schema, stated directly on the JSON value (the reference AuctionSchema compares the parse with) |
| AuctionValidation.AcceptedAuction | lib/validations/auction.ts:7-20 | an accepted form carries the field bounds, with isSworn false when absent |
| AuctionValidation.AcceptedAuctionCanRun | lib/validations/auction.ts:16-19 | an accepted auction has a quorum, at most 10 participants, and a starting price of at least 1 grosz that stays positive through every round |
| AuthValidation.RegisterSchema | lib/validations/auth.ts:7-17 | registration is accepted iff email, password of 8+, company name of 2+, NIP of exactly 10 digits, address of 5+ and matching confirmation |
| AuthValidation.CheckRegisterFields | lib/validations/auth.ts:7-13 | the object part of `registerSchema` before its refinement (RegisterMismatchReported and RegisterMismatchNotCheckedWhenAborted use it) |
| AuthValidation.CheckRegister | lib/validations/auth.ts:7-17 | the parse of `registerSchema` (RegisterSchema: clean iff ValidRegisterBody) |
| AuthValidation.ValidRegisterBody | lib/validations/auth.ts:7-17 | the registration conditions stated directly on the JSON value (the reference RegisterSchema compares the parse with) |
| AuthValidation.RegisterMismatchReported | lib/validations/auth.ts:14-17 | when all fields are strings, a password mismatch is reported, last, on the confirmPassword path |
| AuthValidation.RegisterMismatchNotCheckedWhenAborted | lib/validations/auth.ts:7-17 | when a field is not even a string the refinement does not run |
| AuthValidation.LoginSchema | lib/validations/auth.ts:19-22 | login accepts a valid email and any non-empty password |
| AuthValidation.CheckLogin | lib/validations/auth.ts:19-22 | the parse of `loginSchema` (LoginSchema states when it is clean) |
| AuthValidation.ForgotPasswordSchema | lib/validations/auth.ts:24-26 | the forgot-password form accepts a valid email |
| AuthValidation.CheckForgotPassword | lib/validations/auth.ts:24-26 | the parse of `forgotPasswordSchema` (ForgotPasswordSchema states when it is clean) |
| AuthValidation.ResetPasswordSchema | lib/validations/auth.ts:28-34 | reset accepts a password of 8+ equal to its confirmation |
| AuthValidation.CheckResetPassword | lib/validations/auth.ts:28-34 | the parse of `resetPasswordSchema` (ResetPasswordSchema states when it is clean) |
| AuthValidation.RegisteredCanLogIn | lib/validations/auth.ts:9-21 | every accepted registration is an accepted login with the same email and password |
| AuthValidation.RegisterPasswordRulesAreResetRules | lib/validations/auth.ts:28-34 | every accepted registration's password passes the reset rules |
| AuthValidation.LoginEmailIsForgotEmail | lib/validations/auth.ts:19-26 | every accepted login is an accepted forgot-password request |
| TranslatorValidation.LanguagePairSchema | lib/validations/translator.ts:7-10 | a pair is accepted iff it is an object with source and target strings of 2+ characters |
| TranslatorValidation.ValidPair | lib/validations/translator.ts:7-10 | the pair conditions stated directly on the JSON value (the reference LanguagePairSchema compares the parse with) |
| TranslatorValidation.StringsDefaultEmpty | lib/validations/translator.ts:18 | missing specializations default to the empty list; otherwise an array of strings is required |
| TranslatorValidation.TranslatorSchema | lib/validations/translator.ts:12-23 | a translator is accepted iff email, names of 2+, at least one valid pair, specializations, isSworn and gdprConsent true all hold |
| TranslatorValidation.CheckTranslator | lib/validations/translator.ts:12-23 | the parse of `translatorSchema` (TranslatorSchema: clean iff ValidTranslatorBody; AcceptedTranslator: the form it gives) |
| TranslatorValidation.ValidTranslatorBody | lib/validations/translator.ts:12-23 | the translator conditions stated directly on the JSON value (the reference TranslatorSchema compares the parse with) |
| TranslatorValidation.PairsAccepted | lib/validations/translator.ts:17 | the pair list is clean iff it is non-empty and every pair is valid |
| TranslatorValidation.AcceptedTranslator | lib/validations/translator.ts:12-23 | an accepted translator has consent, 1+ pairs with codes of 2+ characters, and names of 2+ |
| TranslatorValidation.ConsentRequired | lib/validations/translator.ts:20-22 | gdprConsent false is rejected, on the gdprConsent path |
| TranslatorValidation.TranslatorCsvRowSchema | lib/validations/translator.ts:29-37 | a CSV row is accepted iff its fields hold; languagePairs is kept as raw text and isSworn as optional text |
| TranslatorValidation.CheckCsvRow | lib/validations/translator.ts:29-37 | the parse of `translatorCsvRowSchema` (TranslatorCsvRowSchema: clean iff ValidCsvRowBody) |
| TranslatorValidation.ValidCsvRowBody | lib/validations/translator.ts:29-37 | the CSV row conditions stated directly on the JSON value (the reference TranslatorCsvRowSchema compares the parse with) |
| TranslatorValidation.CsvRowSwornIsText | lib/validations/translator.ts:36 | a boolean isSworn is rejected by the CSV row schema |
| RouteGuard.StartsWithAny | middleware.ts:76-85 | a path matches a prefix list iff it starts with one of the prefixes |
| RouteGuard.IsProtectedPath | middleware.ts:75-79 | a path is protected iff it starts with /dashboard, /translators, /auctions, /analytics or /settings |
| RouteGuard.IsAuthPath | middleware.ts:81-85 | a path is an auth path iff it starts with /login or /register |
| RouteGuard.Middleware | middleware.ts:7-103 | redirect to /login iff configured, the user lookup succeeds with no user and the path is protected; redirect to /dashboard iff configured, a user and an auth path; pass through otherwise |
| RouteGuard.PrefixesAgree | middleware.ts:76-85 | two prefixes of one path agree on their common positions |
| RouteGuard.ProtectedAndAuthDisjoint | middleware.ts:76-85 | no path is both protected and an auth path |
| RouteGuard.FailsOpen | middleware.ts:12-16 | missing configuration or a thrown lookup passes the request through |
| RouteGuard.PrefixIsNotSegment | middleware.ts:76-79 | "/auctions" followed by anything, such as "/auctionsX", is protected |
| Store.Database.constructor | types/database.ts:11-33 | a database starts with the given agencies and empty other tables |
| Store.UpdateWhere | app/api/webhooks/stripe/route.ts:58-69 | an update by column rewrites exactly the matching rows and keeps the others and the order |
| Store.UpdateNothing | app/api/webhooks/stripe/route.ts:58-69 | an update that matches no row changes nothing |
| StripeWebhook.Status | app/api/webhooks/stripe/route.ts:121-128 | 200 iff the event was received; every error is 400 |
| StripeWebhook.ApplyEvent | app/api/webhooks/stripe/route.ts:44-121 | an event keeps the table's length, and a refused event (an unknown plan key) writes nothing |
| StripeWebhook.Activate | app/api/webhooks/stripe/route.ts:58-69 | the activated row (CheckoutActivates states what it writes: status active, the plan, customer and subscription, the plan's limits and today's date) |
| StripeWebhook.HandleWebhook | app/api/webhooks/stripe/route.ts:29-40 | a missing secret key, webhook secret or signature is a 400 with no write; receipt needs a verified event |
| StripeWebhook.Post | app/api/webhooks/stripe/route.ts:27-129 | the response is the handler's on values whatever the update returns; the agency table becomes the handler's table when the update succeeds and stays as it was when it fails; nothing else changes |
| StripeWebhook.CheckoutActivates | app/api/webhooks/stripe/route.ts:55-69 | a completed checkout activates the agency with the plan, customer, subscription, plan limits and today's date, and leaves other agencies alone |
| StripeWebhook.CheckoutWithoutMetadata | app/api/webhooks/stripe/route.ts:50-53 | missing metadata writes nothing and the event is still received |
| StripeWebhook.HasCustomer | app/api/webhooks/stripe/route.ts:86 | the row filter of `.eq("stripe_customer_id", …)`: a known customer id equal to the row's (InvoiceResetsUsage and DeletionExpires state which rows it selects) |
| StripeWebhook.InvoiceResetsUsage | app/api/webhooks/stripe/route.ts:75-90 | a paid invoice sets usage 0 and status active on exactly the customer's agencies |
| StripeWebhook.DeletionExpires | app/api/webhooks/stripe/route.ts:92-106 | a deleted subscription sets exactly the customer's agencies to expired and nothing else |
| StripeWebhook.IgnoredEvents | app/api/webhooks/stripe/route.ts:108-119 | updated subscriptions and unknown events change nothing |
| StripeWebhook.NoSignatureNoWrite | app/api/webhooks/stripe/route.ts:35-37 | no signature: 400 and the table unchanged |
| StripeWebhook.RedeliveryIsIdempotent | app/api/webhooks/stripe/route.ts:58-102 | delivering an event again on the same day leaves the table as the first delivery left it |
| StripeWebhook.RedeliveryOnAnotherDay | app/api/webhooks/stripe/route.ts:58-102 | a redelivery on another day changes at most the billing anniversary |
| Participation.Wins | app/api/analytics/route.ts:126-129 | a translator's wins never exceed their participations |
| Participation.FirstSeen | app/api/analytics/route.ts:114-123 | the map's keys are distinct, in first-seen order, and exactly the translator ids of the rows |
| Participation.Record | app/api/analytics/route.ts:115-129 | the `forEach` callback on one row: a new id gets its entry from the row's translator, then the totals and wins are counted (TalliedCounts, TalliedInfo and TalliedFails state what the fold of it gives) |
| Participation.Tallied | app/api/analytics/route.ts:114-130 | the tally loop (TalliedKeys, TalliedCounts, TalliedFails and TalliedInfo state its keys, counts, failure and names) |
| Participation.TalliedKeys | app/api/analytics/route.ts:114-123 | the tally's keys are the ids in first-seen order, and the map holds exactly those |
| Participation.TalliedCounts | app/api/analytics/route.ts:114-130 | each translator's totalAuctions is the number of their rows and wins the number of their winning rows |
| Participation.CountUnseen | app/api/analytics/route.ts:114-130 | an id that is not a key has no rows and no wins |
| Participation.TalliedFails | app/api/analytics/route.ts:116-119 | the loop throws iff the first row of some id has a null translator record |
| Participation.TalliedStaysFailed | app/api/analytics/route.ts:114-130 | once a prefix of the rows throws, the whole loop throws |
| Participation.TalliedInfo | app/api/analytics/route.ts:116-122 | email and name come from the first row of the id: the email, and first name, a space, last name |
| Participation.TotalsCoverRows | app/api/analytics/route.ts:114-130 | the totals of all entries add up to the number of participant rows |
| Participation.Insert | app/api/analytics/route.ts:132-133 | inserting adds exactly the element, and the result starts with the element or with the list's first element |
| Participation.InsertSorted | app/api/analytics/route.ts:132-133 | inserting into a list sorted by totalAuctions keeps it sorted |
| Participation.SortByTotal | app/api/analytics/route.ts:132-133 | the result is sorted by totalAuctions, non-increasing, and a permutation of the input |
| Participation.Values | app/api/analytics/route.ts:132 | `Array.from(map.values())`: one value per key, in key order |
| Participation.TranslatorParticipation | app/api/analytics/route.ts:112-133 | the loop throws iff the tally does; otherwise the list is the map's values, sorted non-increasing by totalAuctions |
| Analytics.RangeStart | app/api/analytics/route.ts:18-35 | "all" gives the epoch; a missing or empty range and "30d" give 30 days back; "7d" and "90d" give 7 and 90; any other value subtracts nothing |
| Analytics.WithStatus | app/api/analytics/route.ts:61-62 | every kept auction has that status, and there are no more of them than auctions |
| Analytics.WithStatusCounts | app/api/analytics/route.ts:61-62 | an auction with that status is kept as often as it occurs, and one with another status never |
| Analytics.WithStatusSingle | app/api/analytics/route.ts:61-62 | one auction is kept iff it has the status |
| Analytics.WithStatusAppend | app/api/analytics/route.ts:61-62 | filtering a concatenation is concatenating the filtered parts, so the order of the auctions is kept |
| Analytics.CompletedAndFailedBound | app/api/analytics/route.ts:61-62 | completed plus failed auctions never exceed the total |
| Analytics.TotalSavings | app/api/analytics/route.ts:64-69 | the savings sum (TotalSavingsIsSumOfStats, TotalSavingsWithoutFinalPrices and TotalSavingsNonNegative state it) |
| Analytics.HasFinalPrice | app/api/analytics/route.ts:65 | the truthiness test of `final_price`: present and non-zero (TotalSavingsWithoutFinalPrices and PercentSumNone use it) |
| Analytics.TotalSavingsIsSumOfStats | app/api/analytics/route.ts:64-69 | the total savings equal the sum of the per-auction savings the auction rules compute |
| Analytics.TotalSavingsWithoutFinalPrices | app/api/analytics/route.ts:64-69 | auctions without a final price contribute nothing |
| Analytics.TotalSavingsNonNegative | app/api/analytics/route.ts:64-69 | when no final price exceeds its start, the total savings are not negative |
| Analytics.SavingsPercent | app/api/analytics/route.ts:75 | the percentage is not finite iff the starting price is 0 |
| Analytics.PercentBounds | app/api/analytics/route.ts:75 | a final price in (0, start] gives a percentage in [0, 100) |
| Analytics.PercentSum | app/api/analytics/route.ts:73-78 | the sum of the percentages (PercentSumBounds and PercentSumNone state it) |
| Analytics.PercentSumBounds | app/api/analytics/route.ts:73-78 | the percentage sum over plausible auctions is finite and between 0 and 100 per auction |
| Analytics.PercentSumNone | app/api/analytics/route.ts:73-78 | one counted auction with starting price 0 makes the sum not finite |
| Analytics.AverageSavings | app/api/analytics/route.ts:71-79 | the average percentage (AverageSavingsBounds and AverageSavingsNotFinite state it) |
| Analytics.AverageSavingsBounds | app/api/analytics/route.ts:71-79 | over plausible auctions the average savings lie in [0, 100] |
| Analytics.AverageSavingsNotFinite | app/api/analytics/route.ts:71-79 | a counted auction with starting price 0 makes the average not finite |
| Analytics.SuccessRate | app/api/analytics/route.ts:81-82 | 0 without auctions; between 0 and 100 when completed ≤ total; 100 when all completed |
| Analytics.Mean | app/api/analytics/route.ts:84-92 | the average of an empty list is 0 |
| Analytics.SumBounds | app/api/analytics/route.ts:84-92 | a sum of values within [lo, hi] lies within n·lo and n·hi |
| Analytics.MeanBounds | app/api/analytics/route.ts:84-92 | a non-empty average lies between the least and greatest bound of its values |
| Analytics.Rounds | app/api/analytics/route.ts:86 | the rounds list holds each auction's current round, in order |
| Analytics.Participants | app/api/analytics/route.ts:91 | the participants list holds each auction's participant count, in order |
| Analytics.Ids | app/api/analytics/route.ts:106-109 | the query filter holds each auction's id, in order |
| Analytics.Metrics | app/api/analytics/route.ts:61-92 | the report of a list of auctions (MetricsConsistent and Get state it) |
| Analytics.MetricsConsistent | app/api/analytics/route.ts:61-92 | completed plus failed do not exceed the total, the success rate is within [0, 100], and no auctions gives the all-zero report |
| Analytics.AverageParticipantsBounds | app/api/analytics/route.ts:89-92 | auctions of 3 to 10 participants average between 3 and 10 |
| Analytics.Get | app/api/analytics/route.ts:9-153 | 404 iff there is no agency; the zero report for null auction data; otherwise 500 iff the tally throws and a success iff it does not, carrying the metrics of the auctions with the sorted tally |
| CreateAuction.OrNull | app/api/auctions/route.ts:78-85 | `x or null` is null iff x is missing or empty, and x otherwise |
| CreateAuction.QuotaAllows | app/api/auctions/route.ts:65 | the monthly quota guard: usage strictly below the limit (UnlimitedIsRefused, IncrementWithinQuota and Admitted state what it lets through) |
| CreateAuction.UnlimitedIsRefused | app/api/auctions/route.ts:65 | with the -1 "unlimited" limit the quota guard always refuses |
| CreateAuction.UnlimitedPlansAreRefused | app/api/auctions/route.ts:65 | agencies on the unlimited and lifetime plans are always refused |
| CreateAuction.NewAuction | app/api/auctions/route.ts:75-88 | a new auction is a draft whose current price is its starting price, with one participant per id and the form's fields |
| CreateAuction.Invitations | app/api/auctions/route.ts:99-104 | the i-th invitation is for the i-th id, at position i+1, with the i-th token |
| CreateAuction.OneTo | app/api/auctions/route.ts:102 | the list 1..n |
| CreateAuction.InvitationPositions | app/api/auctions/route.ts:99-104 | positions strictly increase and are exactly 1..n, and the invitees are the ids in order |
| CreateAuction.Increment | app/api/auctions/route.ts:115-120 | the usage of the agency's rows becomes its usage plus 1; other rows are unchanged |
| CreateAuction.IncrementWithinQuota | app/api/auctions/route.ts:65-120 | after an admitted creation the usage grew by 1 and is still within the limit |
| CreateAuction.Status | app/api/auctions/route.ts:124-131 | 201 iff created; validation and insert failures are 500 |
| CreateAuction.Admitted | app/api/auctions/route.ts:52-70 | a request is admitted iff there is an agency, the body is valid and the quota allows it |
| CreateAuction.Post | app/api/auctions/route.ts:48-132 | 404, 500 with issues, 403 exactly as the guards say; on admission the auction, then the invitations are written, each only if the steps before succeeded; the usage increment is written on a 201 when it succeeds, and its failure does not change the response |
| CreateTranslator.CountAllows | app/api/translators/route.ts:71 | the translator limit guard: a null count passes, otherwise the count is strictly below the limit (GuardsKeepCountWithinLimit and NullCountSkipsGuard state it) |
| CreateTranslator.GuardsKeepCountWithinLimit | app/api/translators/route.ts:71 | with a non-negative limit, after either guard passes the count stays within the limit |
| CreateTranslator.NullCountSkipsGuard | app/api/translators/route.ts:71 | a null count skips the guard |
| CreateTranslator.NewTranslator | app/api/translators/route.ts:81-92 | the record has the form's fields; the phone is null iff missing or empty; the consent date is set iff consent was given |
| CreateTranslator.StoredTranslatorConsented | app/api/translators/route.ts:61-91 | a stored translator always has consent and today's date |
| CreateTranslator.Status | app/api/translators/route.ts:96-114 | 201 iff created; 409 iff the insert hit a unique key; 500 for other insert errors and invalid bodies |
| CreateTranslator.Post | app/api/translators/route.ts:47-115 | 404, invalid body, 403, 409 and 500 exactly as the guards and insert say; only a creation appends the record |
| TranslatorImport.LanguagePairsOf | app/api/translators/import/route.ts:57 | a falsy value gives no pairs, a string gives its parse (throwing where that does), anything else throws |
| TranslatorImport.SpecializationsOf | app/api/translators/import/route.ts:58 | a falsy value gives none, a string its parse, anything else throws |
| TranslatorImport.RecordOf | app/api/translators/import/route.ts:51-62 | building a record throws iff the row is null or its pairs or specializations throw; otherwise the row's fields, phone or null, isSworn or false, and consent dated today |
| TranslatorImport.Records | app/api/translators/import/route.ts:51-62 | one record per uploaded row, in order, or a throw if any row throws |
| TranslatorImport.ImportAllowed | app/api/translators/import/route.ts:39-41 | the import limit guard: existing count (0 when null) plus the rows is at most the limit (ImportStaysWithinLimit and UnlimitedImportRefused state it) |
| TranslatorImport.ImportStaysWithinLimit | app/api/translators/import/route.ts:39-48 | an accepted import fits the limit, on its own and on top of the existing count |
| TranslatorImport.UnlimitedImportRefused | app/api/translators/import/route.ts:41 | with the -1 "unlimited" limit every import is refused |
| TranslatorImport.Status | app/api/translators/import/route.ts:69-88 | 200 iff imported; insert failures and throws are 500 |
| TranslatorImport.Uploaded | app/api/translators/import/route.ts:22-29 | the rows are present iff translators is a non-empty array |
| TranslatorImport.Respond | app/api/translators/import/route.ts:10-89 | 404, 400, 403 exactly as the guards say; a 500 from a throw (null or undefined body, or a row that throws) is told apart from a 500 of a failed insert; 200 only when every guard passes, every row maps and the insert succeeds, reporting the number of rows |
| TranslatorImport.Post | app/api/translators/import/route.ts:10-89 | the response is Respond's; an import appends all records in order and reports their number, anything else writes nothing; the other tables never change |
| CreateCheckout.DigitChar | app/api/subscriptions/create-checkout/route.ts:61 | a digit is written as '0'..'9' |
| CreateCheckout.Digits | app/api/subscriptions/create-checkout/route.ts:61 | a number is written as decimal digits without leading zero |
| CreateCheckout.IntToString | app/api/subscriptions/create-checkout/route.ts:61 | the text starts with '-' iff the number is negative, then digits |
| CreateCheckout.DigitsRoundTrip | app/api/subscriptions/create-checkout/route.ts:61 | reading the digits back gives the number |
| CreateCheckout.ToLowerAscii | app/api/subscriptions/create-checkout/route.ts:57 | lower-casing changes exactly the capital letters |
| CreateCheckout.Recurs | app/api/subscriptions/create-checkout/route.ts:52 | the truthiness test of `plan.interval`: present and non-empty (LineItemFor, SessionFor and PlanSessions state what follows from it) |
| CreateCheckout.Description | app/api/subscriptions/create-checkout/route.ts:60-62 | the product description (UnlimitedDescription and StarterDescription give its text; the lifetime plan gets the fixed lifetime text) |
| CreateCheckout.LineItemFor | app/api/subscriptions/create-checkout/route.ts:54-68 | the unit amount is the price times 100, recurring is present iff the plan has an interval and carries it, quantity 1 |
| CreateCheckout.SessionFor | app/api/subscriptions/create-checkout/route.ts:50-76 | mode subscription iff the plan recurs, payment otherwise; the line item; metadata with agency id and plan key |
| CreateCheckout.PlanSessions | app/api/subscriptions/create-checkout/route.ts:52-65 | lifetime alone pays once, currency "pln", the amount in grosze, monthly recurrence for the others, and the lifetime description |
| CreateCheckout.StarterAmount | app/api/subscriptions/create-checkout/route.ts:64 | the starter plan costs 10000 grosze |
| CreateCheckout.UnlimitedDescription | app/api/subscriptions/create-checkout/route.ts:60-62 | the unlimited plan advertises -1 auctions and -1 translators |
| CreateCheckout.StarterDescription | app/api/subscriptions/create-checkout/route.ts:60-62 | the starter plan advertises 25 auctions and 100 translators |
| CreateCheckout.Status | app/api/subscriptions/create-checkout/route.ts:19-88 | 200 iff a session was requested |
| CreateCheckout.PlanLookup | app/api/subscriptions/create-checkout/route.ts:24-26 | a planType that is not a string finds nothing; a string is looked up in the plan table |
| CreateCheckout.Post | app/api/subscriptions/create-checkout/route.ts:14-89 | 401 iff there is no user or agency; 400 iff the key finds nothing; 500 iff the body is null or the key is an inherited name, reporting whether a customer was already created; a session iff it finds a plan, for the stored customer or a new one |
| CreateCheckout.CheckoutRoundTrip | app/api/subscriptions/create-checkout/route.ts:72-75 | the session's metadata makes the webhook activate the purchased plan on the paying agency |

## Left out

- Papa.parse is not modelled in full. `CsvRecord` reads one line: fields separated by commas, with double-quoted fields. It has no multi-line fields, no escaped quotes inside quotes and no empty-line skipping. The Promise around the parse is left out too.
- The zod email regex is a parameter `isEmail`. Issue messages are not modelled; only issue paths are.
- zod and JavaScript count string length in UTF-16 code units; the model counts characters.
- Timestamps are milliseconds and the session date is a parameter `today`. `toISOString` formatting is not modelled.
- The analytics start date is a datatype, not a date computed from the clock.
- Stripe calls are parameters:
  - `webhooks.constructEvent` (a `Verification`);
  - `customers.create` (a new customer id);
  - `checkout.sessions.create`, whose request is the result.
- Not modelled in the checkout route: the customer's `company_name` metadata, the success and cancel URLs, and the module-level client created from `STRIPE_SECRET_KEY`.
- The route handlers' database effects:
  - queries are parameters;
  - inserts either succeed or fail as a parameter says;
  - atomicity, concurrent requests and triggers are not modelled;
  - the routes address the agency and auction tables under two names ("agencies" and "bid_translate_agencies"); the model has a single table of each;
  - row ids and timestamps set by the database are not modelled.
- Database updates whose result the code never reads are modelled with an outcome parameter (`updateOk` in the webhook, `incrementOk` in the auction route). A failed update leaves the table as it was, and the response is the same either way.
- Every POST route starts from the parsed body as a `Json.JsValue`. The 500 that `request.json()` gives on a malformed body is not modelled.
- The import route's `imported` count is the number of records, taking the rows the insert returns to be the records it was given.
- The analytics participant query is a parameter. The database does the filtering by auction id and the join to the translator record.
- `crypto.randomBytes` magic-link tokens are a parameter `token`.
- The checkout `planType` is taken from a JSON value. A value that is not a string finds no plan, although JavaScript would turn an array into a string key.
- The middleware's cookie callbacks, `NextResponse` construction and matcher regex are left out: they are I/O and framework configuration.
- Not modelled: realtime subscriptions (`lib/hooks/useAuctionRealtime.ts`), every page and component, and the auth, logout, GDPR-delete, export and per-auction routes. Leaving them out does not change the logic modelled here.
- The invitation e-mails (a TODO in the auction route) do not exist in the code and are not modelled.
- Floating point: prices are exact grosze and rates are exact reals. IEEE rounding of `0.95 * price` and of the divisions has no counterpart.
- Analytics.Get: the response's display rounding is not modelled. That is `Math.round(x * 10) / 10` for the averages, `Math.round` for the success rate and `Math.round(x * 100) / 100` for the total savings; the report holds the values before it.
- Participation.TranslatorParticipation: the contract states that the list is sorted and a permutation of the map's values. It does not state the order of translators with equal totals, which `Array.prototype.sort` leaves in first-seen order.
- AuctionRules.CalculateAuctionStats: the savings amount is exact grosze, so the rounding to 2 decimals is the identity. The percentage is kept in tenths.
- The import route's 403 message text, which quotes the counts, is not modelled.

## Findings

| source | as written | input that shows it | evidently intended | confidence | as-written member | corrected member |
|---|---|---|---|---|---|---|
| lib/utils/csv.ts:66-87 | the template joins the example cells with "," without quoting, but the cells "EN-PL,PL-EN" and "medical,legal" contain commas | the template itself: read under its 7 headers, its example line has 9 fields, so the row mapper (lines 16-24) takes languagePairs "EN-PL", specializations "PL-EN" and isSworn "medical", which is not sworn | the example row reads back as the 7 cells written: EN-PL and PL-EN, medical and legal, sworn (the comma-holding cells quoted) | high (not executed) | Csv.TemplateDoesNotRoundTrip | Csv.QuotedTemplateRoundTrip |
