/**
 * `POST /api/translators/import` of app/api/translators/import/route.ts: the
 * empty-input and limit guards and the records built from the uploaded rows.
 * The rows are not validated, so their fields are carried as JavaScript
 * values. The count query, the date and whether the insert fails are inputs.
 */
module TranslatorImport {
  import opened Wrappers
  import opened Json
  import opened Domain
  import opened Store
  import Csv
  import StripePlans

  /** `parseLanguagePairs(t.languagePairs)`: None where it throws. */
  function LanguagePairsOf(v: JsValue): (r: Option<seq<LanguagePair>>)
    ensures !Truthy(v) ==> r == Some([])
    ensures v.Str? ==> (r.Some? <==> Csv.ParseLanguagePairs(v.s).Ok?)
    ensures v.Str? && r.Some? ==> r.value == Csv.ParseLanguagePairs(v.s).value
    ensures Truthy(v) && !v.Str? ==> r.None?
  {
    if !Truthy(v) then Some([])
    else if !v.Str? then None  // a truthy non-string has no `split`
    else
      var parsed := Csv.ParseLanguagePairs(v.s);
      if parsed.Ok? then Some(parsed.value) else None
  }

  /** `parseSpecializations(t.specializations || "")`: None where it throws. */
  function SpecializationsOf(v: JsValue): (r: Option<seq<string>>)
    ensures !Truthy(v) ==> r == Some([])
    ensures v.Str? ==> r == Some(Csv.ParseSpecializations(v.s))
    ensures Truthy(v) && !v.Str? ==> r.None?
  {
    var s := Or(v, Str(""));
    if s.Str? then Some(Csv.ParseSpecializations(s.s)) else None
  }

  /** The record built from one uploaded row; None where building it throws. */
  function RecordOf(agencyId: string, t: JsValue, today: string): (r: Option<TranslatorRow>)
    ensures r.None? <==>
      t.Null? || t.Undefined? || LanguagePairsOf(Get(t, "languagePairs")).None?
      || SpecializationsOf(Get(t, "specializations")).None?
    ensures r.Some? ==>
      var rec := r.value;
      rec.agencyId == agencyId
      && rec.email == Get(t, "email") && rec.firstName == Get(t, "firstName") && rec.lastName == Get(t, "lastName")
      && rec.phone == Or(Get(t, "phone"), Null)
      && rec.languagePairs == LanguagePairsOf(Get(t, "languagePairs")).value
      && rec.specializations == SpecializationsOf(Get(t, "specializations")).value
      && rec.isSworn == Or(Get(t, "isSworn"), Bool(false))
      && rec.gdprConsent && rec.gdprConsentDate == Some(today)
  {
    if t.Null? || t.Undefined? then None  // `t.email` of null throws
    else
      var pairs := LanguagePairsOf(Get(t, "languagePairs"));
      var specializations := SpecializationsOf(Get(t, "specializations"));
      if pairs.None? || specializations.None? then None
      else Some(TranslatorRow(agencyId, Get(t, "email"), Get(t, "firstName"), Get(t, "lastName"),
        Or(Get(t, "phone"), Null), pairs.value, specializations.value,
        Or(Get(t, "isSworn"), Bool(false)), true, Some(today)))
  }

  /** `translators.map(...)`: one record per row, in order; None if any row throws. */
  function Records(agencyId: string, rows: seq<JsValue>, today: string): (r: Option<seq<TranslatorRow>>)
    ensures r.Some? <==> forall i :: 0 <= i < |rows| ==> RecordOf(agencyId, rows[i], today).Some?
    ensures r.Some? ==>
      (|r.value| == |rows| && forall i :: 0 <= i < |rows| ==> Some(r.value[i]) == RecordOf(agencyId, rows[i], today))
  {
    var mapped := MapResult(rows, (t: JsValue) => ToResult(RecordOf(agencyId, t, today)));
    if mapped.Ok? then Some(mapped.value) else None
  }

  /** `(existingCount || 0) + translators.length > agency.max_translators` refuses. */
  predicate ImportAllowed(existingCount: Option<nat>, n: nat, maxTranslators: int) {
    existingCount.GetOr(0) + n <= maxTranslators
  }

  /** An accepted import fits, on its own and on top of the translators there were. */
  lemma ImportStaysWithinLimit(existingCount: Option<nat>, n: nat, maxTranslators: int)
    requires ImportAllowed(existingCount, n, maxTranslators)
    ensures n <= maxTranslators
    ensures existingCount.Some? ==> existingCount.value <= maxTranslators - n
  {
  }

  /** The guard has no case for the -1 sentinel: an "unlimited" plan can import nothing. */
  lemma UnlimitedImportRefused(existingCount: Option<nat>, n: nat)
    requires n >= 1
    ensures !ImportAllowed(existingCount, n, StripePlans.UNLIMITED)
  {
  }

  datatype Response =
    | NotFound
    | NoData
    | LimitExceeded
    | InsertFailed
    | Threw
    | Imported(imported: nat)

  function Status(r: Response): (code: int)
    ensures code == 200 <==> r.Imported?
    ensures code == 500 <==> r.InsertFailed? || r.Threw?
  {
    match r
    case NotFound => 404
    case NoData => 400
    case LimitExceeded => 403
    case InsertFailed => 500
    case Threw => 500
    case Imported(_) => 200
  }

  /** The uploaded rows, when `translators` is a non-empty array. */
  function Uploaded(body: JsValue): (r: Option<seq<JsValue>>)
    ensures r.Some? <==> Get(body, "translators").Arr? && |Get(body, "translators").items| > 0
    ensures r.Some? ==> r.value == Get(body, "translators").items
  {
    var t := Get(body, "translators");
    if t.Arr? && |t.items| > 0 then Some(t.items) else None
  }

  /** The request reaches the upload: an agency, a body that is an object-like value, and rows. */
  predicate Uploading(agency: Option<AgencyRow>, body: JsValue) {
    agency.Some? && !body.Null? && !body.Undefined? && Uploaded(body).Some?
  }

  /** The request passes every guard before the rows are mapped. */
  predicate Admitted(agency: Option<AgencyRow>, body: JsValue, existingCount: Option<nat>) {
    Uploading(agency, body) && ImportAllowed(existingCount, |Uploaded(body).value|, agency.value.maxTranslators)
  }

  /**
   * The response of the route on values: the guards in order, then the
   * mapping of the rows (which may throw), then the insert.
   */
  function Respond(agency: Option<AgencyRow>, body: JsValue, existingCount: Option<nat>,
                   today: string, insertOk: bool): (r: Response)
    ensures agency.None? <==> r == NotFound
    ensures r == NoData <==> agency.Some? && !body.Null? && !body.Undefined? && Uploaded(body).None?
    ensures r == LimitExceeded <==>
      (Uploading(agency, body) && !ImportAllowed(existingCount, |Uploaded(body).value|, agency.value.maxTranslators))
    ensures r == Threw <==>
      (agency.Some? && (body.Null? || body.Undefined?)) || (Admitted(agency, body, existingCount) && Records(agency.value.id, Uploaded(body).value, today).None?)
    ensures r == InsertFailed <==>
      Admitted(agency, body, existingCount) && Records(agency.value.id, Uploaded(body).value, today).Some? && !insertOk
    ensures r.Imported? <==>
      Admitted(agency, body, existingCount) && Records(agency.value.id, Uploaded(body).value, today).Some? && insertOk
    ensures r.Imported? ==> r.imported == |Uploaded(body).value|
  {
    if agency.None? then NotFound
    else if body.Null? || body.Undefined? then Threw  // destructuring `null`
    else if Uploaded(body).None? then NoData
    else if !ImportAllowed(existingCount, |Uploaded(body).value|, agency.value.maxTranslators) then LimitExceeded
    else
      var records := Records(agency.value.id, Uploaded(body).value, today);
      if records.None? then Threw
      else if !insertOk then InsertFailed
      else Imported(|records.value|)
  }

  /**
   * The route handler on the database; the insert is one statement, so it
   * adds every record or none. The rows the insert returns are the records.
   */
  method Post(db: Database, agency: Option<AgencyRow>, body: JsValue, existingCount: Option<nat>,
              today: string, insertOk: bool)
    returns (resp: Response)
    modifies db
    ensures resp == Respond(agency, body, existingCount, today, insertOk)
    ensures resp.Imported? ==>
      db.translators == old(db.translators) + Records(agency.value.id, Uploaded(body).value, today).value
      && resp.imported == |Uploaded(body).value|
    ensures !resp.Imported? ==> db.translators == old(db.translators)
    ensures db.agencies == old(db.agencies) && db.auctions == old(db.auctions)
      && db.participants == old(db.participants)
  {
    if agency.None? {
      return NotFound;
    }
    if body.Null? || body.Undefined? {
      return Threw;  // destructuring `null`
    }
    var translators := Get(body, "translators");
    if !translators.Arr? || |translators.items| == 0 {
      return NoData;
    }
    var totalAfterImport := existingCount.GetOr(0) + |translators.items|;
    if totalAfterImport > agency.value.maxTranslators {
      return LimitExceeded;
    }
    var records := Records(agency.value.id, translators.items, today);
    if records.None? {
      return Threw;
    }
    if !insertOk {
      return InsertFailed;
    }
    db.translators := db.translators + records.value;
    resp := Imported(|records.value|);
  }
}
