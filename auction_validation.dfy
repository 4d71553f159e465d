/**
 * `auctionSchema` of lib/validations/auction.ts. Amounts are the body's
 * numbers (PLN), as exact rationals.
 */
module AuctionValidation {
  import opened Wrappers
  import opened Json
  import opened Schema
  import opened Domain
  import AuctionRules
  import TranslatorValidation

  const MIN_AUCTION_PARTICIPANTS: nat := 3
  const MAX_AUCTION_PARTICIPANTS: nat := 10

  /** The output of `auctionSchema`. */
  datatype AuctionForm = AuctionForm(
    languagePair: LanguagePair,
    specialization: Option<string>,
    isSworn: bool,
    wordCount: real,
    deadline: string,
    startingPrice: real,
    description: string,
    fileUrl: Option<string>,
    participantIds: seq<string>)

  function CheckAuction(v: JsValue): (c: Checked<AuctionForm>)
  {
    if !v.Obj? then Aborted([[]])
    else
      var pair := TranslatorValidation.LanguagePairSchema(Get(v, "languagePair"), [Key("languagePair")]);
      var specialization := OptionalString(Get(v, "specialization"), [Key("specialization")]);
      var isSworn := BooleanDefault(Get(v, "isSworn"), [Key("isSworn")], false);
      var wordCount := NumberMin(Get(v, "wordCount"), [Key("wordCount")], 1.0);
      var deadline := StringMin(Get(v, "deadline"), [Key("deadline")], 1);
      var startingPrice := NumberMin(Get(v, "startingPrice"), [Key("startingPrice")], 0.01);
      var description := StringMin(Get(v, "description"), [Key("description")], 10);
      var fileUrl := OptionalString(Get(v, "fileUrl"), [Key("fileUrl")]);
      var ids := ArrayOf(Get(v, "participantIds"), [Key("participantIds")],
        MIN_AUCTION_PARTICIPANTS, Some(MAX_AUCTION_PARTICIPANTS), AnyString);
      var issues := pair.issues + specialization.issues + isSworn.issues + wordCount.issues + deadline.issues
        + startingPrice.issues + description.issues + fileUrl.issues + ids.issues;
      if pair.Aborted? || specialization.Aborted? || isSworn.Aborted? || wordCount.Aborted? || deadline.Aborted?
        || startingPrice.Aborted? || description.Aborted? || fileUrl.Aborted? || ids.Aborted?
      then Aborted(issues)
      else Parsed(AuctionForm(pair.value, specialization.value, isSworn.value, wordCount.value, deadline.value,
        startingPrice.value, description.value, fileUrl.value, ids.value), issues)
  }

  /** The conditions under which `auctionSchema.parse` returns, stated on the body. */
  predicate ValidAuctionBody(v: JsValue) {
    v.Obj?
    && TranslatorValidation.ValidPair(Get(v, "languagePair"))
    && (Get(v, "specialization").Undefined? || Get(v, "specialization").Str?)
    && (Get(v, "isSworn").Undefined? || Get(v, "isSworn").Bool?)
    && Get(v, "wordCount").Num? && Get(v, "wordCount").n >= 1.0
    && Get(v, "deadline").Str? && |Get(v, "deadline").s| >= 1
    && Get(v, "startingPrice").Num? && Get(v, "startingPrice").n >= 0.01
    && Get(v, "description").Str? && |Get(v, "description").s| >= 10
    && (Get(v, "fileUrl").Undefined? || Get(v, "fileUrl").Str?)
    && Get(v, "participantIds").Arr?
    && MIN_AUCTION_PARTICIPANTS <= |Get(v, "participantIds").items| <= MAX_AUCTION_PARTICIPANTS
    && (forall i :: 0 <= i < |Get(v, "participantIds").items| ==> Get(v, "participantIds").items[i].Str?)
  }

  /** `auctionSchema.safeParse`. */
  function AuctionSchema(v: JsValue): (r: Result<AuctionForm, seq<Path>>)
    ensures r.Ok? <==> ValidAuctionBody(v)
  {
    Outcome(CheckAuction(v))
  }

  /** What an accepted auction carries: the body's fields, with the default filled in. */
  lemma AcceptedAuction(v: JsValue)
    requires AuctionSchema(v).Ok?
    ensures var f := AuctionSchema(v).value;
      var ids := Get(v, "participantIds").items;
      |f.participantIds| == |ids| && (forall i :: 0 <= i < |ids| ==> ids[i] == Str(f.participantIds[i]))
      && |f.languagePair.source| >= 2 && |f.languagePair.target| >= 2
      && f.isSworn == (Get(v, "isSworn") == Bool(true))
      && (f.specialization.Some? <==> Get(v, "specialization").Str?)
      && (f.fileUrl.Some? <==> Get(v, "fileUrl").Str?)
      && f.wordCount >= 1.0 && |f.deadline| >= 1 && |f.description| >= 10
      && f.startingPrice == Get(v, "startingPrice").n
  {
  }

  /**
   * An accepted auction has a quorum's worth of invitees, and a starting
   * price of at least one grosz, which keeps every later round's price
   * positive.
   */
  lemma AcceptedAuctionCanRun(v: JsValue, startingGrosze: int)
    requires AuctionSchema(v).Ok?
    requires startingGrosze as real == AuctionSchema(v).value.startingPrice * 100.0
    ensures AuctionRules.CanStartAuction(|AuctionSchema(v).value.participantIds|)
    ensures |AuctionSchema(v).value.participantIds| <= MAX_AUCTION_PARTICIPANTS
    ensures startingGrosze >= 1
    ensures forall k: nat :: AuctionRules.PriceAfterRounds(startingGrosze, k) >= 1
  {
    AcceptedAuction(v);
    forall k: nat ensures AuctionRules.PriceAfterRounds(startingGrosze, k) >= 1 {
      AuctionRules.PriceAfterRoundsBounds(startingGrosze, k);
    }
  }
}
