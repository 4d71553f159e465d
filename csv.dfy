/**
 * Field parsing of lib/utils/csv.ts: language pairs, specializations, the
 * import template, and the mapping of a parsed CSV row (a header-keyed record)
 * to an import row.
 */
module Csv {
  import opened Wrappers
  import opened Strings
  import opened CsvRecord
  import opened Domain

  /** The TypeError thrown by `target.trim()` when a piece has no '-'. */
  datatype ParseError = MissingTarget(piece: string)

  /** One comma piece: trimmed, split at '-', first two parts trimmed; further parts are dropped. */
  function ParsePair(piece: string): Result<LanguagePair, ParseError>
  {
    var parts := Split(Trim(piece), '-');
    if |parts| < 2 then Err(MissingTarget(piece))
    else Ok(LanguagePair(Trim(parts[0]), Trim(parts[1])))
  }

  /** `.map(ParsePair)` over the pieces; the first piece that throws aborts the whole map. */
  function ParsePairs(pieces: seq<string>): (r: Result<seq<LanguagePair>, ParseError>)
    ensures r.Ok? <==> forall i :: 0 <= i < |pieces| ==> ParsePair(pieces[i]).Ok?
    ensures r.Ok? ==> |r.value| == |pieces|
    ensures r.Ok? ==> forall i :: 0 <= i < |pieces| ==> ParsePair(pieces[i]) == Ok(r.value[i])
  {
    MapResult(pieces, ParsePair)
  }

  /** parseLanguagePairs: "" gives [], otherwise one pair per comma piece. */
  function ParseLanguagePairs(pairs: string): Result<seq<LanguagePair>, ParseError>
  {
    if pairs == "" then Ok([]) else ParsePairs(Split(pairs, ','))
  }

  /** The trimmed pieces that are not empty, in order. */
  function NonEmptyTrimmed(pieces: seq<string>): (r: seq<string>)
    ensures |r| <= |pieces|
    ensures forall i :: 0 <= i < |r| ==> Trimmed(r[i]) && |r[i]| > 0
  {
    if |pieces| == 0 then []
    else
      var t := Trim(pieces[0]);
      (if |t| > 0 then [t] else []) + NonEmptyTrimmed(pieces[1..])
  }

  /** parseSpecializations: "" gives [], otherwise the non-empty trimmed comma pieces. */
  function ParseSpecializations(specializations: string): (r: seq<string>)
    ensures |r| <= |Split(specializations, ',')|
    ensures forall i :: 0 <= i < |r| ==> Trimmed(r[i]) && |r[i]| > 0
  {
    if specializations == "" then [] else NonEmptyTrimmed(Split(specializations, ','))
  }

  // ---------------------------------------------------------------------------
  // Language pairs

  lemma EmptyInputsParseToNothing()
    ensures ParseLanguagePairs("") == Ok([])
    ensures ParseSpecializations("") == []
  {
  }

  /** Every piece has a '-' once trimmed: the condition under which no piece throws. */
  predicate AllHaveDash(pieces: seq<string>) {
    forall i :: 0 <= i < |pieces| ==> '-' in Trim(pieces[i])
  }

  /** `ps` holds the pair of each piece, one for one and in order. */
  predicate PairPerPiece(pieces: seq<string>, ps: seq<LanguagePair>) {
    |ps| == |pieces| && forall i :: 0 <= i < |pieces| ==> ParsePair(pieces[i]) == Ok(ps[i])
  }

  /** A non-empty input yields one pair per comma piece, in input order, or an error when some piece has no '-'. */
  lemma LanguagePairsPerPiece(pairs: string)
    requires pairs != ""
    ensures ParseLanguagePairs(pairs).Ok? <==> AllHaveDash(Split(pairs, ','))
    ensures ParseLanguagePairs(pairs).Ok? ==> PairPerPiece(Split(pairs, ','), ParseLanguagePairs(pairs).value)
  {
    var pieces := Split(pairs, ',');
    assert ParseLanguagePairs(pairs) == ParsePairs(pieces);
    ParsePairsOkIff(pieces);
  }

  /** The map succeeds exactly when every piece has a '-'. */
  lemma ParsePairsOkIff(pieces: seq<string>)
    ensures ParsePairs(pieces).Ok? <==> AllHaveDash(pieces)
    ensures ParsePairs(pieces).Ok? ==> PairPerPiece(pieces, ParsePairs(pieces).value)
  {
    forall i | 0 <= i < |pieces|
      ensures ParsePair(pieces[i]).Ok? <==> '-' in Trim(pieces[i])
    {
      PairErrIff(pieces[i]);
    }
  }

  lemma PairErrIff(piece: string)
    ensures ParsePair(piece).Err? <==> '-' !in Trim(piece)
  {
    SplitManyIff(Trim(piece), '-');
  }

  /**
   * The source is the trimmed text before the first '-', the target the
   * trimmed text between the first and the second '-'; anything after a
   * second '-' is dropped.
   */
  lemma PairFields(piece: string, i: nat)
    requires var t := Trim(piece); i < |t| && t[i] == '-' && '-' !in t[..i]
    ensures var t := Trim(piece);
      ParsePair(piece) == Ok(LanguagePair(Trim(t[..i]), Trim(TakeUntil(t[i + 1..], '-'))))
  {
    var t := Trim(piece);
    SplitAtFirst(t, '-', i);
    SplitSecond(t, '-', i);
  }

  /** A piece without '-' is the case where the source throws. */
  lemma PairWithoutDash(piece: string)
    requires '-' !in Trim(piece)
    ensures ParsePair(piece) == Err(MissingTarget(piece))
  {
    SplitWithoutSeparator(Trim(piece), '-');
  }

  /** The text a pair is written as: "SOURCE-TARGET". */
  function FormatPair(p: LanguagePair): string {
    p.source + "-" + p.target
  }

  /** The pairs as the import expects them: "EN-PL,PL-EN". */
  function FormatPairs(ps: seq<LanguagePair>): string {
    Join(seq(|ps|, i requires 0 <= i < |ps| => FormatPair(ps[i])), ',')
  }

  /** A pair that can be written and read back: both sides trimmed and free of ',' and '-'. */
  predicate Writable(p: LanguagePair) {
    Trimmed(p.source) && Trimmed(p.target) &&
    ',' !in p.source && ',' !in p.target && '-' !in p.source && '-' !in p.target
  }

  lemma ParsePairFormat(p: LanguagePair)
    requires Writable(p)
    ensures ParsePair(FormatPair(p)) == Ok(p)
  {
    FormatPairTrimmed(p);
    FormatPairSplit(p);
    TrimOfTrimmed(p.source);
    TrimOfTrimmed(p.target);
  }

  lemma FormatPairTrimmed(p: LanguagePair)
    requires Writable(p)
    ensures Trim(FormatPair(p)) == FormatPair(p)
  {
    var s := FormatPair(p);
    assert s == p.source + ['-'] + p.target;
    assert s[0] == if |p.source| > 0 then p.source[0] else '-';
    assert s[|s| - 1] == if |p.target| > 0 then p.target[|p.target| - 1] else '-';
    TrimOfTrimmed(s);
  }

  lemma FormatPairSplit(p: LanguagePair)
    requires Writable(p)
    ensures Split(FormatPair(p), '-') == [p.source, p.target]
  {
    assert FormatPair(p) == p.source + ['-'] + p.target;
    SplitAround(p.source, p.target, '-');
    SplitWithoutSeparator(p.source, '-');
    SplitWithoutSeparator(p.target, '-');
  }

  lemma ParsePairsAllOk(pieces: seq<string>, ps: seq<LanguagePair>)
    requires |pieces| == |ps|
    requires forall i :: 0 <= i < |pieces| ==> ParsePair(pieces[i]) == Ok(ps[i])
    ensures ParsePairs(pieces) == Ok(ps)
  {
    var r := ParsePairs(pieces);
    assert r.Ok?;
    forall i | 0 <= i < |ps| ensures r.value[i] == ps[i] {
      assert Ok(r.value[i]) == ParsePair(pieces[i]) == Ok(ps[i]);
    }
    assert r.value == ps;
  }

  /** Reading back written pairs gives the same pairs in the same order. */
  lemma LanguagePairsRoundTrip(ps: seq<LanguagePair>)
    requires forall i :: 0 <= i < |ps| ==> Writable(ps[i])
    ensures ParseLanguagePairs(FormatPairs(ps)) == Ok(ps)
  {
    var texts := seq(|ps|, i requires 0 <= i < |ps| => FormatPair(ps[i]));
    if |ps| > 0 {
      forall i | 0 <= i < |ps| ensures ',' !in texts[i] && '-' in texts[i] {
        assert texts[i] == ps[i].source + "-" + ps[i].target;
        assert texts[i][|ps[i].source|] == '-';
      }
      SplitJoinRoundTrip(texts, ',');
      assert FormatPairs(ps) != "";
      forall i | 0 <= i < |ps| ensures ParsePair(texts[i]) == Ok(ps[i]) {
        ParsePairFormat(ps[i]);
      }
      ParsePairsAllOk(texts, ps);
    }
  }

  /** "EN-PL,PL-EN" parses to EN->PL and PL->EN. */
  lemma LanguagePairsExample()
    ensures ParseLanguagePairs("EN-PL,PL-EN") == Ok([LanguagePair("EN", "PL"), LanguagePair("PL", "EN")])
  {
    var ps := [LanguagePair("EN", "PL"), LanguagePair("PL", "EN")];
    var texts := seq(|ps|, i requires 0 <= i < |ps| => FormatPair(ps[i]));
    assert texts[0] == "EN-PL" && texts[1] == "PL-EN";
    assert texts == ["EN-PL", "PL-EN"];
    assert Join(texts, ',') == "EN-PL" + [','] + Join(["PL-EN"], ',') by {
      assert texts[1..] == ["PL-EN"];
    }
    assert FormatPairs(ps) == "EN-PL,PL-EN";
    LanguagePairsRoundTrip(ps);
  }

  // ---------------------------------------------------------------------------
  // Specializations

  /** Writing non-empty, trimmed, comma-free specializations with "," and reading them back gives them back in order. */
  lemma {:induction false} NonEmptyTrimmedOfClean(xs: seq<string>)
    requires forall i :: 0 <= i < |xs| ==> Trimmed(xs[i]) && |xs[i]| > 0
    ensures NonEmptyTrimmed(xs) == xs
  {
    if |xs| > 0 {
      TrimOfTrimmed(xs[0]);
      NonEmptyTrimmedOfClean(xs[1..]);
    }
  }

  lemma SpecializationsRoundTrip(xs: seq<string>)
    requires forall i :: 0 <= i < |xs| ==> Trimmed(xs[i]) && |xs[i]| > 0 && ',' !in xs[i]
    ensures ParseSpecializations(Join(xs, ',')) == xs
  {
    if |xs| > 0 {
      SplitJoinRoundTrip(xs, ',');
      assert Join(xs, ',') != "" by {
        if |xs| > 1 { assert Join(xs, ',')[..|xs[0]|] == xs[0]; }
      }
      NonEmptyTrimmedOfClean(xs);
    }
  }

  /** One piece: its trimmed text if that is not empty, otherwise nothing. */
  lemma NonEmptyTrimmedSingle(p: string)
    ensures NonEmptyTrimmed([p]) == if |Trim(p)| > 0 then [Trim(p)] else []
  {
    assert [p][1..] == [];
  }

  /**
   * The pieces are filtered one by one: the result for a concatenation is the
   * concatenation of the results, so with NonEmptyTrimmedSingle it is fixed
   * piece by piece, in order.
   */
  lemma {:induction false} NonEmptyTrimmedDropsBlanks(a: seq<string>, b: seq<string>)
    ensures NonEmptyTrimmed(a + b) == NonEmptyTrimmed(a) + NonEmptyTrimmed(b)
  {
    if |a| > 0 {
      assert (a + b)[1..] == a[1..] + b;
      NonEmptyTrimmedDropsBlanks(a[1..], b);
    } else {
      assert a + b == b;
    }
  }

  lemma SpecializationsExample()
    ensures ParseSpecializations("medical,legal") == ["medical", "legal"]
  {
    ExampleSpecializationsClean();
    SpecializationsRoundTrip(["medical", "legal"]);
    ExampleSpecializationsText();
  }

  lemma ExampleSpecializationsText()
    ensures Join(["medical", "legal"], ',') == "medical,legal"
  {
    var xs := ["medical", "legal"];
    assert xs[1..] == ["legal"];
  }

  /** Pieces are trimmed, and blank pieces dropped. */
  lemma SpecializationsTrimmed()
    ensures ParseSpecializations(" legal") == ["legal"]
    ensures ParseSpecializations(" ") == []
  {
    SplitWithoutSeparator(" legal", ',');
    SplitWithoutSeparator(" ", ',');
    NonEmptyTrimmedSingle(" legal");
    NonEmptyTrimmedSingle(" ");
    ExampleTrims();
  }

  lemma ExampleTrims()
    ensures Trim(" legal") == "legal" && Trim(" ") == ""
  {
    LeadingSpaceTrimmed();
    BlankTrimsAway();
  }

  lemma LegalTrimmed()
    ensures Trimmed("legal")
  {
  }

  lemma LegalTrimsToItself()
    ensures Trim("legal") == "legal"
  {
    LegalTrimmed();
    TrimOfTrimmed("legal");
  }

  lemma LeadingSpaceTrimmed()
    ensures Trim(" legal") == "legal"
  {
    LegalTrimsToItself();
    assert " legal" == [' '] + "legal";
    TrimDropsLeadingWhitespace(' ', "legal");
  }

  lemma BlankTrimsAway()
    ensures Trim(" ") == ""
  {
    assert " " == [' '] + "";
    TrimDropsLeadingWhitespace(' ', "");
    TrimOfTrimmed("");
  }

  lemma ExampleSpecializationsClean()
    ensures forall i :: 0 <= i < 2 ==> Trimmed(["medical", "legal"][i]) && |["medical", "legal"][i]| > 0 && ',' !in ["medical", "legal"][i]
  {
  }

  // ---------------------------------------------------------------------------
  // Row mapping

  /** A parsed CSV row: column name to cell text. A missing column reads as undefined. */
  type Row = map<string, string>

  /** The row as the import route receives it. */
  datatype ImportRow = ImportRow(
    email: string, firstName: string, lastName: string, phone: string,
    languagePairs: string, specializations: string, isSworn: bool)

  const EmailAliases: seq<string> := ["email", "Email"]
  const FirstNameAliases: seq<string> := ["firstName", "first_name", "First Name"]
  const LastNameAliases: seq<string> := ["lastName", "last_name", "Last Name"]
  const PhoneAliases: seq<string> := ["phone", "Phone"]
  const LanguagePairsAliases: seq<string> := ["languagePairs", "language_pairs", "Language Pairs"]
  const SpecializationsAliases: seq<string> := ["specializations", "Specializations"]
  const IsSwornAliases: seq<string> := ["isSworn", "is_sworn", "IsSworn"]

  /** The cell under a column, with undefined read as "" (both are falsy). */
  function Cell(row: Row, column: string): string {
    if column in row then row[column] else ""
  }

  /** `row[a0] || row[a1] || ... || ""`: the first non-empty cell among the aliases. */
  function FirstNonEmpty(row: Row, aliases: seq<string>): (r: string)
    ensures r == "" <==> forall i :: 0 <= i < |aliases| ==> Cell(row, aliases[i]) == ""
    ensures r != "" ==> exists k :: (0 <= k < |aliases| && r == Cell(row, aliases[k]) &&
      forall j :: 0 <= j < k ==> Cell(row, aliases[j]) == "")
  {
    if |aliases| == 0 then ""
    else if Cell(row, aliases[0]) != "" then Cell(row, aliases[0])
    else
      var r := FirstNonEmpty(row, aliases[1..]);
      assert forall i :: 1 <= i < |aliases| ==> aliases[i] == aliases[1..][i - 1];
      assert r != "" ==> exists k :: (1 <= k < |aliases| && r == Cell(row, aliases[k]) &&
        forall j :: 0 <= j < k ==> Cell(row, aliases[j]) == "") by {
        if r != "" {
          var k' :| 0 <= k' < |aliases[1..]| && r == Cell(row, aliases[1..][k']) &&
            forall j :: 0 <= j < k' ==> Cell(row, aliases[1..][j]) == "";
          assert forall j :: 0 <= j < k' + 1 ==> Cell(row, aliases[j]) == "" by {
            forall j | 0 <= j < k' + 1 ensures Cell(row, aliases[j]) == "" {
              if j > 0 { assert aliases[j] == aliases[1..][j - 1]; }
            }
          }
        }
      }
      r
  }

  /** `isSworn` is true iff one of the sworn columns holds exactly "true". */
  predicate SwornCell(row: Row) {
    exists i :: 0 <= i < |IsSwornAliases| && Cell(row, IsSwornAliases[i]) == "true"
  }

  /** The row-mapping lambda of parseTranslatorCSV. */
  function MapRow(row: Row): (r: ImportRow)
  {
    ImportRow(
      FirstNonEmpty(row, EmailAliases),
      FirstNonEmpty(row, FirstNameAliases),
      FirstNonEmpty(row, LastNameAliases),
      FirstNonEmpty(row, PhoneAliases),
      FirstNonEmpty(row, LanguagePairsAliases),
      FirstNonEmpty(row, SpecializationsAliases),
      Cell(row, "isSworn") == "true" || Cell(row, "is_sworn") == "true" || Cell(row, "IsSworn") == "true")
  }

  lemma MapRowSworn(row: Row)
    ensures MapRow(row).isSworn <==> SwornCell(row)
  {
    if SwornCell(row) {
      var i :| 0 <= i < |IsSwornAliases| && Cell(row, IsSwornAliases[i]) == "true";
      assert i == 0 || i == 1 || i == 2;
    } else {
      assert Cell(row, IsSwornAliases[0]) != "true";
      assert Cell(row, IsSwornAliases[1]) != "true";
      assert Cell(row, IsSwornAliases[2]) != "true";
    }
  }

  /** A text field is the first non-empty alias cell, and "" when every alias is missing or empty. */
  lemma MapRowFields(row: Row)
    ensures var r := MapRow(row);
      && (r.email == "" <==> forall i :: 0 <= i < |EmailAliases| ==> Cell(row, EmailAliases[i]) == "")
      && (r.firstName == "" <==> forall i :: 0 <= i < |FirstNameAliases| ==> Cell(row, FirstNameAliases[i]) == "")
      && (r.lastName == "" <==> forall i :: 0 <= i < |LastNameAliases| ==> Cell(row, LastNameAliases[i]) == "")
      && (r.phone == "" <==> forall i :: 0 <= i < |PhoneAliases| ==> Cell(row, PhoneAliases[i]) == "")
      && (r.languagePairs == "" <==> forall i :: 0 <= i < |LanguagePairsAliases| ==> Cell(row, LanguagePairsAliases[i]) == "")
      && (r.specializations == "" <==> forall i :: 0 <= i < |SpecializationsAliases| ==> Cell(row, SpecializationsAliases[i]) == "")
      && (Cell(row, "email") != "" ==> r.email == row["email"])
      && (Cell(row, "email") == "" ==> r.email == Cell(row, "Email"))
  {
    var r := MapRow(row);
    if Cell(row, "email") == "" {
      assert EmailAliases[1..] == ["Email"];
      assert r.email == FirstNonEmpty(row, ["Email"]);
      assert ["Email"][1..] == [];
    }
  }

  // ---------------------------------------------------------------------------
  // Template

  const TemplateHeaders: seq<string> :=
    ["email", "firstName", "lastName", "phone", "languagePairs", "specializations", "isSworn"]

  const TemplateExample: seq<string> :=
    ["jan.kowalski@example.com", "Jan", "Kowalski", "+48123456789", "EN-PL,PL-EN", "medical,legal", "true"]

  /** generateTranslatorCSVTemplate: the header line and the example line joined by one newline. */
  function TranslatorCsvTemplate(): string {
    Join(TemplateHeaders, ',') + "\n" + Join(TemplateExample, ',')
  }

  /** The template is exactly two lines: the header line and the example line. */
  lemma TemplateLines()
    ensures Split(TranslatorCsvTemplate(), '\n') == [Join(TemplateHeaders, ','), Join(TemplateExample, ',')]
  {
    NoNewlineInTemplate();
    TwoLines(Join(TemplateHeaders, ','), Join(TemplateExample, ','));
  }

  lemma NoNewlineInTemplate()
    ensures '\n' !in Join(TemplateHeaders, ',') && '\n' !in Join(TemplateExample, ',')
  {
    assert forall i :: 0 <= i < |TemplateHeaders| ==> '\n' !in TemplateHeaders[i];
    NoNewlineInExampleCells();
    JoinAvoids(TemplateHeaders, ',', '\n');
    JoinAvoids(TemplateExample, ',', '\n');
  }

  lemma NoNewlineInExampleCells()
    ensures forall i :: 0 <= i < |TemplateExample| ==> '\n' !in TemplateExample[i]
  {
  }

  lemma TwoLines(first: string, second: string)
    requires '\n' !in first && '\n' !in second
    ensures Split(first + "\n" + second, '\n') == [first, second]
  {
    SplitAround(first, second, '\n');
    SplitWithoutSeparator(first, '\n');
    SplitWithoutSeparator(second, '\n');
  }

  /** The header line has 7 fields, each the first alias the row mapper reads for its column. */
  lemma TemplateHeaderFields()
    ensures Split(Join(TemplateHeaders, ','), ',') == TemplateHeaders
    ensures TemplateHeaders == [EmailAliases[0], FirstNameAliases[0], LastNameAliases[0], PhoneAliases[0],
                                LanguagePairsAliases[0], SpecializationsAliases[0], IsSwornAliases[0]]
  {
    assert forall i :: 0 <= i < |TemplateHeaders| ==> ',' !in TemplateHeaders[i];
    SplitJoinRoundTrip(TemplateHeaders, ',');
  }

  /** The example's language-pair and specialization cells, read on their own, give the intended values. */
  lemma TemplateExampleCells()
    ensures ParseLanguagePairs(TemplateExample[4]) == Ok([LanguagePair("EN", "PL"), LanguagePair("PL", "EN")])
    ensures ParseSpecializations(TemplateExample[5]) == ["medical", "legal"]
  {
    LanguagePairsExample();
    SpecializationsExample();
  }

  lemma TemplateHeadersDistinct()
    ensures forall a, b :: 0 <= a < b < |TemplateHeaders| ==> TemplateHeaders[a] != TemplateHeaders[b]
  {
  }

  /** A row whose first-alias cells are all non-empty maps cell by cell. */
  lemma MapRowOfFirstAliases(row: Row, f: seq<string>)
    requires |f| >= 7
    requires forall i :: 0 <= i < 7 ==> |f[i]| > 0
    requires Cell(row, "email") == f[0] && Cell(row, "firstName") == f[1] && Cell(row, "lastName") == f[2]
    requires Cell(row, "phone") == f[3] && Cell(row, "languagePairs") == f[4] && Cell(row, "specializations") == f[5]
    requires Cell(row, "isSworn") == f[6] && "is_sworn" !in row && "IsSworn" !in row
    ensures MapRow(row) == ImportRow(f[0], f[1], f[2], f[3], f[4], f[5], f[6] == "true")
  {
    FirstAliasWins(row, EmailAliases);
    FirstAliasWins(row, FirstNameAliases);
    FirstAliasWins(row, LastNameAliases);
    FirstAliasWins(row, PhoneAliases);
    FirstAliasWins(row, LanguagePairsAliases);
    FirstAliasWins(row, SpecializationsAliases);
  }

  /** Keyed by the template's headers, field i lies under header i and the other sworn aliases are absent. */
  lemma TemplateRecordCells(fields: seq<string>)
    requires |fields| >= 7
    ensures var row := HeaderRecord(TemplateHeaders, fields);
      && Cell(row, "email") == fields[0] && Cell(row, "firstName") == fields[1] && Cell(row, "lastName") == fields[2]
      && Cell(row, "phone") == fields[3] && Cell(row, "languagePairs") == fields[4] && Cell(row, "specializations") == fields[5]
      && Cell(row, "isSworn") == fields[6] && "is_sworn" !in row && "IsSworn" !in row
  {
    TemplateRecordAbsent(fields);
    TemplateHeadersDistinct();
    HeaderRecordAt(TemplateHeaders, fields, 0);
    HeaderRecordAt(TemplateHeaders, fields, 1);
    HeaderRecordAt(TemplateHeaders, fields, 2);
    HeaderRecordAt(TemplateHeaders, fields, 3);
    HeaderRecordAt(TemplateHeaders, fields, 4);
    HeaderRecordAt(TemplateHeaders, fields, 5);
    HeaderRecordAt(TemplateHeaders, fields, 6);
  }

  lemma TemplateRecordAbsent(fields: seq<string>)
    ensures var row := HeaderRecord(TemplateHeaders, fields); "is_sworn" !in row && "IsSworn" !in row
  {
    assert "is_sworn" !in TemplateHeaders && "IsSworn" !in TemplateHeaders;
  }

  /** Keyed by the template's headers, a line of at least 7 non-empty fields maps column by column; surplus fields are ignored. */
  lemma MapTemplateRecord(fields: seq<string>)
    requires |fields| >= 7
    requires forall i :: 0 <= i < 7 ==> |fields[i]| > 0
    ensures MapRow(HeaderRecord(TemplateHeaders, fields)) ==
      ImportRow(fields[0], fields[1], fields[2], fields[3], fields[4], fields[5], fields[6] == "true")
  {
    TemplateRecordCells(fields);
    MapRowOfFirstAliases(HeaderRecord(TemplateHeaders, fields), fields);
  }

  lemma FirstAliasWins(row: Row, aliases: seq<string>)
    requires |aliases| > 0 && Cell(row, aliases[0]) != ""
    ensures FirstNonEmpty(row, aliases) == Cell(row, aliases[0])
  {
  }

  /** A head cell without the separator splits off as itself. */
  lemma SplitJoinPlainHead(x: string, ys: seq<string>, sep: char)
    requires sep !in x && |ys| >= 1
    ensures Split(Join([x] + ys, sep), sep) == [x] + Split(Join(ys, sep), sep)
  {
    SplitJoinCons(x, ys, sep);
    SplitWithoutSeparator(x, sep);
  }

  /** A head cell holding the separator once splits off as two fields. */
  lemma SplitJoinPairHead(x1: string, x2: string, ys: seq<string>, sep: char)
    requires sep !in x1 && sep !in x2 && |ys| >= 1
    ensures Split(Join([x1 + [sep] + x2] + ys, sep), sep) == [x1, x2] + Split(Join(ys, sep), sep)
  {
    SplitJoinCons(x1 + [sep] + x2, ys, sep);
    SplitAround(x1, x2, sep);
    SplitWithoutSeparator(x1, sep);
    SplitWithoutSeparator(x2, sep);
  }

  /** Splitting seven joined cells of which the fifth and sixth each hold one separator. */
  lemma SplitSevenCells(a: string, b: string, c: string, d: string, e1: string, e2: string, f1: string, f2: string, g: string, sep: char)
    requires sep !in a && sep !in b && sep !in c && sep !in d && sep !in g
    requires sep !in e1 && sep !in e2 && sep !in f1 && sep !in f2
    ensures Split(Join([a, b, c, d, e1 + [sep] + e2, f1 + [sep] + f2, g], sep), sep) == [a, b, c, d, e1, e2, f1, f2, g]
  {
    var t4 := [d, e1 + [sep] + e2, f1 + [sep] + f2, g];
    SplitFourCells(d, e1, e2, f1, f2, g, sep);
    var t5 := [c] + t4;
    SplitJoinPlainHead(c, t4, sep);
    var t6 := [b] + t5;
    SplitJoinPlainHead(b, t5, sep);
    var t7 := [a] + t6;
    SplitJoinPlainHead(a, t6, sep);
    assert t7 == [a, b, c, d, e1 + [sep] + e2, f1 + [sep] + f2, g];
  }

  lemma SplitFourCells(d: string, e1: string, e2: string, f1: string, f2: string, g: string, sep: char)
    requires sep !in d && sep !in g
    requires sep !in e1 && sep !in e2 && sep !in f1 && sep !in f2
    ensures Split(Join([d, e1 + [sep] + e2, f1 + [sep] + f2, g], sep), sep) == [d, e1, e2, f1, f2, g]
  {
    var t1 := [g];
    SplitWithoutSeparator(g, sep);
    var t2 := [f1 + [sep] + f2] + t1;
    SplitJoinPairHead(f1, f2, t1, sep);
    var t3 := [e1 + [sep] + e2] + t2;
    SplitJoinPairHead(e1, e2, t2, sep);
    var t4 := [d] + t3;
    SplitJoinPlainHead(d, t3, sep);
    assert t4 == [d, e1 + [sep] + e2, f1 + [sep] + f2, g];
  }

  /** The example line as the CSV reader sees it: 9 fields. */
  const TemplateExampleAsRead: seq<string> :=
    ["jan.kowalski@example.com", "Jan", "Kowalski", "+48123456789", "EN-PL", "PL-EN", "medical", "legal", "true"]

  /** Splitting the example line at every comma gives its 9 pieces. */
  lemma TemplateExampleSplit()
    ensures Split(Join(TemplateExample, ','), ',') == TemplateExampleAsRead
  {
    var r := TemplateExampleAsRead;
    assert TemplateExample[4] == r[4] + [','] + r[5];
    assert TemplateExample[5] == r[6] + [','] + r[7];
    assert TemplateExample == [r[0], r[1], r[2], r[3], r[4] + [','] + r[5], r[6] + [','] + r[7], r[8]];
    SplitSevenCells(r[0], r[1], r[2], r[3], r[4], r[5], r[6], r[7], r[8], ',');
  }

  lemma NoQuoteInTemplateExample()
    ensures '"' !in Join(TemplateExample, ',')
  {
    assert forall i :: 0 <= i < |TemplateExample| ==> '"' !in TemplateExample[i];
    JoinAvoids(TemplateExample, ',', '"');
  }

  /** The example line as written: its cells are joined with "," unquoted. */
  lemma TemplateExampleLineFields()
    ensures CsvFields(Join(TemplateExample, ',')) == TemplateExampleAsRead
  {
    NoQuoteInTemplateExample();
    CsvFieldsWithoutQuotes(Join(TemplateExample, ','));
    TemplateExampleSplit();
  }

  /** The record the importer builds from the example line as read. */
  lemma TemplateExampleAsReadRow()
    ensures MapRow(HeaderRecord(TemplateHeaders, TemplateExampleAsRead)) ==
      ImportRow("jan.kowalski@example.com", "Jan", "Kowalski", "+48123456789", "EN-PL", "PL-EN", false)
  {
    var r := TemplateExampleAsRead;
    MapTemplateRecord(r);
    assert r[6] != "true";
  }

  /**
   * Reading the template back: its example line has 9 fields under 7
   * headers, so the row carries one language pair, the second pair as its
   * specializations, and "medical" in the sworn column, which maps to false.
   */
  lemma TemplateDoesNotRoundTrip()
    ensures Split(TranslatorCsvTemplate(), '\n') == [Join(TemplateHeaders, ','), Join(TemplateExample, ',')]
    ensures CsvFields(Join(TemplateHeaders, ',')) == TemplateHeaders
    ensures CsvFields(Join(TemplateExample, ',')) == TemplateExampleAsRead && |TemplateExampleAsRead| == 9
    ensures MapRow(HeaderRecord(TemplateHeaders, TemplateExampleAsRead)) ==
      ImportRow("jan.kowalski@example.com", "Jan", "Kowalski", "+48123456789", "EN-PL", "PL-EN", false)
  {
    TemplateLines();
    TemplateHeaderLine();
    TemplateExampleLineFields();
    TemplateExampleAsReadRow();
  }

  /** The header line holds no quotes, so the CSV reader sees exactly the 7 headers. */
  lemma TemplateHeaderLine()
    ensures CsvFields(Join(TemplateHeaders, ',')) == TemplateHeaders
  {
    assert forall i :: 0 <= i < |TemplateHeaders| ==> '"' !in TemplateHeaders[i];
    JoinAvoids(TemplateHeaders, ',', '"');
    CsvFieldsWithoutQuotes(Join(TemplateHeaders, ','));
    TemplateHeaderFields();
  }

  /** The template with every cell that holds a comma enclosed in double quotes. */
  function QuotedTranslatorCsvTemplate(): string {
    Join(TemplateHeaders, ',') + "\n" + Join(EscapeAll(TemplateExample), ',')
  }

  lemma QuotedTemplateLines()
    ensures Split(QuotedTranslatorCsvTemplate(), '\n') == [Join(TemplateHeaders, ','), Join(EscapeAll(TemplateExample), ',')]
  {
    var quoted := EscapeAll(TemplateExample);
    NoNewlineInExampleCells();
    EscapeAllAvoids(TemplateExample, '\n');
    JoinAvoids(quoted, ',', '\n');
    NoNewlineInTemplate();
    TwoLines(Join(TemplateHeaders, ','), Join(quoted, ','));
  }

  /** The quoted example line reads back as the 7 example cells. */
  lemma QuotedTemplateExampleFields()
    ensures CsvFields(Join(EscapeAll(TemplateExample), ',')) == TemplateExample
  {
    assert forall i :: 0 <= i < |TemplateExample| ==> '"' !in TemplateExample[i];
    CsvFieldsOfEscaped(TemplateExample);
  }

  /** The record the importer builds from the intended example line. */
  lemma TemplateExampleRow()
    ensures MapRow(HeaderRecord(TemplateHeaders, TemplateExample)) ==
      ImportRow("jan.kowalski@example.com", "Jan", "Kowalski", "+48123456789", "EN-PL,PL-EN", "medical,legal", true)
  {
    MapTemplateRecord(TemplateExample);
  }

  /**
   * The quoted template reads back as intended: 7 fields under the 7
   * headers, both language pairs, both specializations, and sworn.
   */
  lemma QuotedTemplateRoundTrip()
    ensures Split(QuotedTranslatorCsvTemplate(), '\n') == [Join(TemplateHeaders, ','), Join(EscapeAll(TemplateExample), ',')]
    ensures CsvFields(Join(TemplateHeaders, ',')) == TemplateHeaders
    ensures CsvFields(Join(EscapeAll(TemplateExample), ',')) == TemplateExample
    ensures MapRow(HeaderRecord(TemplateHeaders, TemplateExample)) ==
      ImportRow("jan.kowalski@example.com", "Jan", "Kowalski", "+48123456789", "EN-PL,PL-EN", "medical,legal", true)
    ensures ParseLanguagePairs(TemplateExample[4]) == Ok([LanguagePair("EN", "PL"), LanguagePair("PL", "EN")])
    ensures ParseSpecializations(TemplateExample[5]) == ["medical", "legal"]
  {
    QuotedTemplateLines();
    TemplateHeaderLine();
    QuotedTemplateExampleFields();
    TemplateExampleRow();
    TemplateExampleCells();
  }
}
