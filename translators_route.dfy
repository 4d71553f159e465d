/**
 * `POST /api/translators` of app/api/translators/route.ts: validation, the
 * limit guard, the translator record and the mapping of insert errors to
 * statuses. The count query, the date and the insert's outcome are inputs.
 */
module CreateTranslator {
  import opened Wrappers
  import opened Json
  import opened Schema
  import opened Store
  import TranslatorValidation
  import TranslatorImport

  /** `translatorCount !== null && translatorCount >= agency.max_translators` refuses. */
  predicate CountAllows(translatorCount: Option<nat>, maxTranslators: int) {
    translatorCount.None? || translatorCount.value < maxTranslators
  }

  /**
   * Both guards keep a known count within a non-negative limit after a
   * success: one more translator here, `n` more through the import.
   */
  lemma GuardsKeepCountWithinLimit(count: nat, n: nat, maxTranslators: int)
    requires maxTranslators >= 0
    ensures CountAllows(Some(count), maxTranslators) ==> count + 1 <= maxTranslators
    ensures TranslatorImport.ImportAllowed(Some(count), n, maxTranslators) ==> count + n <= maxTranslators
  {
  }

  /** A null count skips the guard, whatever the limit. */
  lemma NullCountSkipsGuard(maxTranslators: int)
    ensures CountAllows(None, maxTranslators)
  {
  }

  /** The insert of a validated translator: an empty phone is null, and consent is dated. */
  function NewTranslator(agencyId: string, form: TranslatorValidation.TranslatorForm, today: string): (t: TranslatorRow)
    ensures t.agencyId == agencyId
    ensures t.email == Str(form.email) && t.firstName == Str(form.firstName) && t.lastName == Str(form.lastName)
    ensures t.phone == Null <==> form.phone.None? || form.phone.value == ""
    ensures t.phone != Null ==> t.phone == Str(form.phone.value)
    ensures t.languagePairs == form.languagePairs && t.specializations == form.specializations
    ensures t.isSworn == Bool(form.isSworn) && t.gdprConsent == form.gdprConsent
    ensures t.gdprConsentDate.Some? <==> form.gdprConsent
    ensures t.gdprConsentDate.Some? ==> t.gdprConsentDate.value == today
  {
    TranslatorRow(agencyId, Str(form.email), Str(form.firstName), Str(form.lastName),
      if form.phone.Some? && form.phone.value != "" then Str(form.phone.value) else Null,
      form.languagePairs, form.specializations, Bool(form.isSworn), form.gdprConsent,
      if form.gdprConsent then Some(today) else None)
  }

  /** A stored translator always carries its consent and its date: the schema demands consent. */
  lemma StoredTranslatorConsented(agencyId: string, body: JsValue, isEmail: string -> bool, today: string)
    requires TranslatorValidation.TranslatorSchema(body, isEmail).Ok?
    ensures var t := NewTranslator(agencyId, TranslatorValidation.TranslatorSchema(body, isEmail).value, today);
      t.gdprConsent && t.gdprConsentDate == Some(today)
  {
    TranslatorValidation.AcceptedTranslator(body, isEmail);
  }

  /** What the insert reports: success, or an error with its Postgres code. */
  datatype InsertOutcome = Inserted | InsertError(code: string)

  datatype Response =
    | NotFound
    | InvalidBody(issues: seq<Path>)
    | LimitReached
    | Duplicate
    | InsertFailed
    | Created(translator: TranslatorRow)

  /** 23505 (unique violation) is 409; every other insert error is rethrown and becomes 500. */
  function Status(r: Response): (code: int)
    ensures code == 201 <==> r.Created?
    ensures code == 409 <==> r.Duplicate?
    ensures code == 500 <==> r.InvalidBody? || r.InsertFailed?
  {
    match r
    case NotFound => 404
    case InvalidBody(_) => 500
    case LimitReached => 403
    case Duplicate => 409
    case InsertFailed => 500
    case Created(_) => 201
  }

  /** The route handler on the database. */
  method Post(db: Database, agency: Option<AgencyRow>, body: JsValue, isEmail: string -> bool,
              translatorCount: Option<nat>, today: string, insert: InsertOutcome)
    returns (resp: Response)
    modifies db
    ensures agency.None? <==> resp == NotFound
    ensures agency.Some? ==>
      (resp.InvalidBody? <==> TranslatorValidation.TranslatorSchema(body, isEmail).Err?)
      && (resp.InvalidBody? ==> resp.issues == TranslatorValidation.TranslatorSchema(body, isEmail).error)
    ensures resp == LimitReached <==>
      (agency.Some? && TranslatorValidation.TranslatorSchema(body, isEmail).Ok?
       && !CountAllows(translatorCount, agency.value.maxTranslators))
    ensures resp == Duplicate <==>
      (agency.Some? && TranslatorValidation.TranslatorSchema(body, isEmail).Ok?
       && CountAllows(translatorCount, agency.value.maxTranslators) && insert == InsertError("23505"))
    ensures resp == InsertFailed <==>
      (agency.Some? && TranslatorValidation.TranslatorSchema(body, isEmail).Ok?
       && CountAllows(translatorCount, agency.value.maxTranslators) && insert.InsertError? && insert.code != "23505")
    ensures resp.Created? ==>
      resp.translator == NewTranslator(agency.value.id, TranslatorValidation.TranslatorSchema(body, isEmail).value, today)
      && db.translators == old(db.translators) + [resp.translator]
    ensures !resp.Created? ==> db.translators == old(db.translators)
    ensures db.agencies == old(db.agencies) && db.auctions == old(db.auctions)
      && db.participants == old(db.participants)
  {
    if agency.None? {
      return NotFound;
    }
    var parsed := TranslatorValidation.TranslatorSchema(body, isEmail);
    if parsed.Err? {
      return InvalidBody(parsed.error);
    }
    if translatorCount.Some? && translatorCount.value >= agency.value.maxTranslators {
      return LimitReached;
    }
    var translator := NewTranslator(agency.value.id, parsed.value, today);
    if insert.InsertError? {
      if insert.code == "23505" {
        return Duplicate;
      }
      return InsertFailed;
    }
    db.translators := db.translators + [translator];
    resp := Created(translator);
  }
}
