/**
 * `POST /api/auctions` of app/api/auctions/route.ts: the quota guard, the
 * initial auction record, the invitation list and the usage increment.
 * The current agency, the generated auction id, the magic-link tokens and
 * whether each insert fails are inputs.
 */
module CreateAuction {
  import opened Wrappers
  import opened Json
  import opened Schema
  import opened Domain
  import opened Store
  import AuctionValidation
  import StripePlans

  /** `x || null` on an optional string: the empty string is stored as null too. */
  function OrNull(x: Option<string>): (r: Option<string>)
    ensures r.None? <==> x.None? || x.value == ""
    ensures r.Some? ==> r == x
  {
    if x.Some? && x.value != "" then x else None
  }

  /** `auctions_used_this_month >= max_auctions_per_month` refuses; anything below it is allowed. */
  predicate QuotaAllows(agency: AgencyRow) {
    agency.auctionsUsedThisMonth < agency.maxAuctionsPerMonth
  }

  /** The guard has no case for the -1 sentinel: an "unlimited" agency is always refused. */
  lemma UnlimitedIsRefused(agency: AgencyRow)
    requires agency.maxAuctionsPerMonth == StripePlans.UNLIMITED
    requires agency.auctionsUsedThisMonth >= 0
    ensures !QuotaAllows(agency)
  {
  }

  /** So are the agencies on both plans the table calls unlimited. */
  lemma UnlimitedPlansAreRefused(agency: AgencyRow)
    requires agency.planType == Unlimited || agency.planType == Lifetime
    requires agency.maxAuctionsPerMonth == StripePlans.GetPlanDetails(agency.planType).maxAuctions
    requires agency.auctionsUsedThisMonth >= 0
    ensures !QuotaAllows(agency)
  {
  }

  /** The insert of the auction: the form's fields, a draft at its starting price. */
  function NewAuction(id: string, agencyId: string, form: AuctionValidation.AuctionForm): (a: AuctionRow)
    ensures a.id == id && a.agencyId == agencyId && a.status == Draft
    ensures a.currentPrice == a.startingPrice == form.startingPrice
    ensures a.numParticipants == |form.participantIds|
    ensures a.languagePair == form.languagePair && a.isSworn == form.isSworn
    ensures a.wordCount == form.wordCount && a.deadline == form.deadline && a.description == form.description
    ensures a.specialization.None? <==> form.specialization.None? || form.specialization.value == ""
    ensures a.fileUrl.None? <==> form.fileUrl.None? || form.fileUrl.value == ""
  {
    AuctionRow(id, agencyId, form.languagePair, OrNull(form.specialization), form.isSworn,
      form.wordCount, form.deadline, form.startingPrice, form.startingPrice, form.description,
      OrNull(form.fileUrl), |form.participantIds|, Draft)
  }

  /** `participantIds.map((translatorId, index) => ...)`; `token(i)` is the i-th random token. */
  function Invitations(auctionId: string, ids: seq<string>, token: nat -> string): (r: seq<ParticipantRow>)
    ensures |r| == |ids|
    ensures forall i :: 0 <= i < |ids| ==>
      r[i] == ParticipantRow(auctionId, ids[i], i + 1, token(i))
  {
    seq(|ids|, i requires 0 <= i < |ids| => ParticipantRow(auctionId, ids[i], i + 1, token(i)))
  }

  /** The sequence 1, 2, ..., n. */
  function OneTo(n: nat): (s: seq<int>)
    ensures |s| == n && forall i :: 0 <= i < n ==> s[i] == i + 1
  {
    if n == 0 then [] else OneTo(n - 1) + [n]
  }

  /** The positions are exactly 1..n, each once, and the invitees are the ids in order. */
  lemma InvitationPositions(auctionId: string, ids: seq<string>, token: nat -> string)
    ensures var r := Invitations(auctionId, ids, token);
      (forall i, j :: 0 <= i < j < |r| ==> r[i].position < r[j].position)
      && seq(|r|, i requires 0 <= i < |r| => r[i].position) == OneTo(|ids|)
      && (forall i :: 0 <= i < |r| ==> r[i].auctionId == auctionId)
      && seq(|r|, i requires 0 <= i < |r| => r[i].translatorId) == ids
  {
  }

  /** The usage increment: `agency.auctions_used_this_month + 1` on the rows with the agency's id. */
  function Increment(agencies: seq<AgencyRow>, agency: AgencyRow): (r: seq<AgencyRow>)
    ensures |r| == |agencies|
    ensures forall i :: 0 <= i < |agencies| ==>
      r[i] == if agencies[i].id == agency.id
        then agencies[i].(auctionsUsedThisMonth := agency.auctionsUsedThisMonth + 1)
        else agencies[i]
  {
    UpdateWhere(agencies, (a: AgencyRow) => a.id == agency.id,
      (a: AgencyRow) => a.(auctionsUsedThisMonth := agency.auctionsUsedThisMonth + 1))
  }

  /** After an admitted creation the stored usage is one more than it was and still within the limit. */
  lemma IncrementWithinQuota(agencies: seq<AgencyRow>, i: int)
    requires 0 <= i < |agencies| && QuotaAllows(agencies[i])
    ensures Increment(agencies, agencies[i])[i].auctionsUsedThisMonth == agencies[i].auctionsUsedThisMonth + 1
    ensures Increment(agencies, agencies[i])[i].auctionsUsedThisMonth <= agencies[i].maxAuctionsPerMonth
  {
  }

  datatype Response =
    | NotFound
    | InvalidBody(issues: seq<Path>)
    | QuotaExceeded
    | InsertFailed
    | Created(auction: AuctionRow)

  function Status(r: Response): (code: int)
    ensures code == 201 <==> r.Created?
    ensures code == 500 <==> r.InvalidBody? || r.InsertFailed?
  {
    match r
    case NotFound => 404
    case InvalidBody(_) => 500
    case QuotaExceeded => 403
    case InsertFailed => 500
    case Created(_) => 201
  }

  /** The form of a request that passes the agency, body and quota checks, in that order. */
  function Admitted(agency: Option<AgencyRow>, body: JsValue): (r: Option<AuctionValidation.AuctionForm>)
    ensures r.Some? <==> agency.Some? && AuctionValidation.ValidAuctionBody(body) && QuotaAllows(agency.value)
    ensures r.Some? ==> r.value == AuctionValidation.AuctionSchema(body).value
  {
    if agency.None? then None
    else
      var parsed := AuctionValidation.AuctionSchema(body);
      if parsed.Err? || !QuotaAllows(agency.value) then None else Some(parsed.value)
  }

  /**
   * The route handler on the database. `incrementOk` is whether the usage
   * update succeeds; its error is never read.
   */
  method Post(db: Database, agency: Option<AgencyRow>, body: JsValue, auctionId: string, token: nat -> string,
              auctionInsertOk: bool, participantsInsertOk: bool, incrementOk: bool)
    returns (resp: Response)
    modifies db
    ensures agency.None? <==> resp == NotFound
    ensures agency.Some? ==>
      (resp.InvalidBody? <==> AuctionValidation.AuctionSchema(body).Err?)
      && (resp.InvalidBody? ==> resp.issues == AuctionValidation.AuctionSchema(body).error)
    ensures resp == QuotaExceeded <==>
      agency.Some? && AuctionValidation.AuctionSchema(body).Ok? && !QuotaAllows(agency.value)
    ensures resp.Created? <==> Admitted(agency, body).Some? && auctionInsertOk && participantsInsertOk
    ensures db.translators == old(db.translators)
    ensures Admitted(agency, body).None? ==>
      db.auctions == old(db.auctions) && db.participants == old(db.participants) && db.agencies == old(db.agencies)
    ensures Admitted(agency, body).Some? ==>
      var auction := NewAuction(auctionId, agency.value.id, Admitted(agency, body).value);
      db.auctions == old(db.auctions) + (if auctionInsertOk then [auction] else [])
      && db.participants == old(db.participants) +
        (if auctionInsertOk && participantsInsertOk
         then Invitations(auctionId, Admitted(agency, body).value.participantIds, token) else [])
      && db.agencies == (if resp.Created? && incrementOk then Increment(old(db.agencies), agency.value) else old(db.agencies))
      && (resp.Created? ==> resp.auction == auction)
  {
    if agency.None? {
      return NotFound;
    }
    var parsed := AuctionValidation.AuctionSchema(body);
    if parsed.Err? {
      return InvalidBody(parsed.error);
    }
    var form := parsed.value;
    if agency.value.auctionsUsedThisMonth >= agency.value.maxAuctionsPerMonth {
      return QuotaExceeded;
    }
    var auction := NewAuction(auctionId, agency.value.id, form);
    if !auctionInsertOk {
      return InsertFailed;
    }
    db.auctions := db.auctions + [auction];
    var participants := Invitations(auctionId, form.participantIds, token);
    if !participantsInsertOk {
      // the auction row stays: the two inserts are not one transaction
      return InsertFailed;
    }
    db.participants := db.participants + participants;
    if incrementOk {
      // a failed increment is not looked at: the response is still 201
      db.agencies := Increment(db.agencies, agency.value);
    }
    resp := Created(auction);
  }
}
