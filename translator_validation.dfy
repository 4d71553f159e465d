/**
 * The translator schemas of lib/validations/translator.ts. The email check
 * of zod is a parameter `isEmail`; everything else is as the schemas state.
 */
module TranslatorValidation {
  import opened Wrappers
  import opened Json
  import opened Schema
  import opened Domain

  /** `languagePairSchema`: both codes at least 2 characters. */
  function LanguagePairSchema(v: JsValue, at: Path): (c: Checked<LanguagePair>)
    ensures (c.Parsed? && c.issues == []) <==> ValidPair(v)
    ensures c.Parsed? ==> (v.Obj? && Get(v, "source").Str? && Get(v, "target").Str? &&
      c.value == LanguagePair(Get(v, "source").s, Get(v, "target").s))
  {
    if !v.Obj? then Aborted([at])
    else
      var source := StringMin(Get(v, "source"), at + [Key("source")], 2);
      var target := StringMin(Get(v, "target"), at + [Key("target")], 2);
      var issues := source.issues + target.issues;
      if source.Aborted? || target.Aborted? then Aborted(issues)
      else Parsed(LanguagePair(source.value, target.value), issues)
  }

  predicate ValidPair(v: JsValue) {
    v.Obj? && Get(v, "source").Str? && |Get(v, "source").s| >= 2
    && Get(v, "target").Str? && |Get(v, "target").s| >= 2
  }

  /** The output of `translatorSchema`. */
  datatype TranslatorForm = TranslatorForm(
    email: string,
    firstName: string,
    lastName: string,
    phone: Option<string>,
    languagePairs: seq<LanguagePair>,
    specializations: seq<string>,
    isSworn: bool,
    gdprConsent: bool)

  /** `z.array(z.string()).default([])`. */
  function StringsDefaultEmpty(v: JsValue, at: Path): (c: Checked<seq<string>>)
    ensures v.Undefined? ==> c == Parsed([], [])
    ensures c.Parsed? && !v.Undefined? ==> (v.Arr? && |c.value| == |v.items| &&
      forall i :: 0 <= i < |v.items| ==> v.items[i] == Str(c.value[i]))
    ensures (c.Parsed? && c.issues == []) <==> v.Undefined? || (v.Arr? && forall i :: 0 <= i < |v.items| ==> v.items[i].Str?)
  {
    if v.Undefined? then Parsed([], []) else ArrayOf(v, at, 0, None, AnyString)
  }

  /** `translatorSchema` before the outcome is read. */
  function CheckTranslator(v: JsValue, isEmail: string -> bool): (c: Checked<TranslatorForm>)
  {
    if !v.Obj? then Aborted([[]])
    else
      var email := CheckedString(Get(v, "email"), [Key("email")], isEmail);
      var firstName := StringMin(Get(v, "firstName"), [Key("firstName")], 2);
      var lastName := StringMin(Get(v, "lastName"), [Key("lastName")], 2);
      var phone := OptionalString(Get(v, "phone"), [Key("phone")]);
      var pairs := ArrayOf(Get(v, "languagePairs"), [Key("languagePairs")], 1, None, LanguagePairSchema);
      var specializations := StringsDefaultEmpty(Get(v, "specializations"), [Key("specializations")]);
      var isSworn := BooleanDefault(Get(v, "isSworn"), [Key("isSworn")], false);
      var consent := Refine(Boolean(Get(v, "gdprConsent"), [Key("gdprConsent")]), b => b == true, [Key("gdprConsent")]);
      var issues := email.issues + firstName.issues + lastName.issues + phone.issues + pairs.issues
        + specializations.issues + isSworn.issues + consent.issues;
      if email.Aborted? || firstName.Aborted? || lastName.Aborted? || phone.Aborted? || pairs.Aborted?
        || specializations.Aborted? || isSworn.Aborted? || consent.Aborted?
      then Aborted(issues)
      else Parsed(TranslatorForm(email.value, firstName.value, lastName.value, phone.value, pairs.value,
        specializations.value, isSworn.value, consent.value), issues)
  }

  /** The conditions under which `translatorSchema.parse` returns, stated on the body. */
  predicate ValidTranslatorBody(v: JsValue, isEmail: string -> bool) {
    v.Obj?
    && Get(v, "email").Str? && isEmail(Get(v, "email").s)
    && Get(v, "firstName").Str? && |Get(v, "firstName").s| >= 2
    && Get(v, "lastName").Str? && |Get(v, "lastName").s| >= 2
    && (Get(v, "phone").Undefined? || Get(v, "phone").Str?)
    && Get(v, "languagePairs").Arr? && |Get(v, "languagePairs").items| >= 1
    && (forall i :: 0 <= i < |Get(v, "languagePairs").items| ==> ValidPair(Get(v, "languagePairs").items[i]))
    && (Get(v, "specializations").Undefined?
        || (Get(v, "specializations").Arr? &&
            forall i :: 0 <= i < |Get(v, "specializations").items| ==> Get(v, "specializations").items[i].Str?))
    && (Get(v, "isSworn").Undefined? || Get(v, "isSworn").Bool?)
    && Get(v, "gdprConsent") == Bool(true)
  }

  /** `translatorSchema.safeParse`. */
  function TranslatorSchema(v: JsValue, isEmail: string -> bool): (r: Result<TranslatorForm, seq<Path>>)
    ensures r.Ok? <==> ValidTranslatorBody(v, isEmail)
  {
    var c := CheckTranslator(v, isEmail);
    var r := Outcome(c);
    assert r.Ok? <==> ValidTranslatorBody(v, isEmail) by {
      if v.Obj? {
        PairsAccepted(Get(v, "languagePairs"));
      }
    }
    r
  }

  lemma PairsAccepted(v: JsValue)
    ensures var c := ArrayOf(v, [Key("languagePairs")], 1, None, LanguagePairSchema);
      (c.Parsed? && c.issues == []) <==>
      (v.Arr? && |v.items| >= 1 && forall i :: 0 <= i < |v.items| ==> ValidPair(v.items[i]))
  {
    var c := ArrayOf(v, [Key("languagePairs")], 1, None, LanguagePairSchema);
    if v.Arr? {
      forall i | 0 <= i < |v.items|
        ensures (LanguagePairSchema(v.items[i], [Key("languagePairs"), Index(i)]).Parsed?
          && LanguagePairSchema(v.items[i], [Key("languagePairs"), Index(i)]).issues == []) <==> ValidPair(v.items[i])
      {
      }
    }
  }

  /** What an accepted translator carries: the body's fields, with the defaults filled in. */
  lemma AcceptedTranslator(v: JsValue, isEmail: string -> bool)
    requires TranslatorSchema(v, isEmail).Ok?
    ensures var f := TranslatorSchema(v, isEmail).value;
      f.email == Get(v, "email").s && isEmail(f.email)
      && f.firstName == Get(v, "firstName").s && |f.firstName| >= 2
      && f.lastName == Get(v, "lastName").s && |f.lastName| >= 2
      && (f.phone.Some? <==> Get(v, "phone").Str?)
      && |f.languagePairs| == |Get(v, "languagePairs").items| >= 1
      && (forall i :: 0 <= i < |f.languagePairs| ==> |f.languagePairs[i].source| >= 2 && |f.languagePairs[i].target| >= 2)
      && (Get(v, "specializations").Undefined? ==> f.specializations == [])
      && f.isSworn == (Get(v, "isSworn") == Bool(true))
      && f.gdprConsent
  {
    var c := CheckTranslator(v, isEmail);
    var pairs := ArrayOf(Get(v, "languagePairs"), [Key("languagePairs")], 1, None, LanguagePairSchema);
    assert c.value.languagePairs == pairs.value;
    forall i | 0 <= i < |pairs.value|
      ensures |pairs.value[i].source| >= 2 && |pairs.value[i].target| >= 2
    {
      assert ValidPair(Get(v, "languagePairs").items[i]);
    }
  }

  /** Consent must be given: `false` is reported on `gdprConsent` whatever else the body holds. */
  lemma ConsentRequired(v: JsValue, isEmail: string -> bool)
    requires v.Obj? && Get(v, "gdprConsent") == Bool(false)
    ensures TranslatorSchema(v, isEmail).Err?
    ensures [Key("gdprConsent")] in TranslatorSchema(v, isEmail).error
  {
    var consent := Refine(Boolean(Get(v, "gdprConsent"), [Key("gdprConsent")]), b => b == true, [Key("gdprConsent")]);
    assert consent.issues == [[Key("gdprConsent")]];
  }

  /** The output of `translatorCsvRowSchema`: every column is a string. */
  datatype CsvRowForm = CsvRowForm(
    email: string,
    firstName: string,
    lastName: string,
    phone: Option<string>,
    languagePairs: string,
    specializations: Option<string>,
    isSworn: Option<string>)

  function CheckCsvRow(v: JsValue, isEmail: string -> bool): (c: Checked<CsvRowForm>)
  {
    if !v.Obj? then Aborted([[]])
    else
      var email := CheckedString(Get(v, "email"), [Key("email")], isEmail);
      var firstName := StringMin(Get(v, "firstName"), [Key("firstName")], 2);
      var lastName := StringMin(Get(v, "lastName"), [Key("lastName")], 2);
      var phone := OptionalString(Get(v, "phone"), [Key("phone")]);
      var pairs := AnyString(Get(v, "languagePairs"), [Key("languagePairs")]);
      var specializations := OptionalString(Get(v, "specializations"), [Key("specializations")]);
      var isSworn := OptionalString(Get(v, "isSworn"), [Key("isSworn")]);
      var issues := email.issues + firstName.issues + lastName.issues + phone.issues + pairs.issues
        + specializations.issues + isSworn.issues;
      if email.Aborted? || firstName.Aborted? || lastName.Aborted? || phone.Aborted? || pairs.Aborted?
        || specializations.Aborted? || isSworn.Aborted?
      then Aborted(issues)
      else Parsed(CsvRowForm(email.value, firstName.value, lastName.value, phone.value, pairs.value,
        specializations.value, isSworn.value), issues)
  }

  /** The conditions under which `translatorCsvRowSchema.parse` returns. */
  predicate ValidCsvRowBody(v: JsValue, isEmail: string -> bool) {
    v.Obj?
    && Get(v, "email").Str? && isEmail(Get(v, "email").s)
    && Get(v, "firstName").Str? && |Get(v, "firstName").s| >= 2
    && Get(v, "lastName").Str? && |Get(v, "lastName").s| >= 2
    && (Get(v, "phone").Undefined? || Get(v, "phone").Str?)
    && Get(v, "languagePairs").Str?
    && (Get(v, "specializations").Undefined? || Get(v, "specializations").Str?)
    && (Get(v, "isSworn").Undefined? || Get(v, "isSworn").Str?)
  }

  /** `translatorCsvRowSchema.safeParse`. */
  function TranslatorCsvRowSchema(v: JsValue, isEmail: string -> bool): (r: Result<CsvRowForm, seq<Path>>)
    ensures r.Ok? <==> ValidCsvRowBody(v, isEmail)
    ensures r.Ok? ==> r.value.languagePairs == Get(v, "languagePairs").s
    ensures r.Ok? ==> (r.value.isSworn.Some? <==> Get(v, "isSworn").Str?)
  {
    Outcome(CheckCsvRow(v, isEmail))
  }

  /** In the CSV row schema the sworn flag is text: a boolean `true` is refused. */
  lemma CsvRowSwornIsText(v: JsValue, isEmail: string -> bool)
    requires Get(v, "isSworn").Bool?
    ensures TranslatorCsvRowSchema(v, isEmail).Err?
  {
  }
}
