/**
 * Splitting one CSV line into fields and keying the fields by a header line,
 * as the CSV reader does with `header: true`. Fields may be enclosed in double
 * quotes so that they can contain commas (RFC 4180, section 2, rules 5 and 6);
 * the doubled-quote escape is not modelled.
 */
module CsvRecord {
  import opened Strings

  /** The fields of one line. A quoted field runs to the next double quote; text after the closing quote stays in the field. */
  function CsvFields(s: string): (fields: seq<string>)
    ensures |fields| >= 1
    decreases |s|
  {
    if |s| > 0 && s[0] == '"' then
      var body := s[1..];
      var field := TakeUntil(body, '"');
      if |field| == |body| then [field]
      else
        var after := body[|field| + 1..];
        var tail := TakeUntil(after, ',');
        if |tail| == |after| then [field + tail]
        else [field + tail] + CsvFields(after[|tail| + 1..])
    else
      var field := TakeUntil(s, ',');
      if |field| == |s| then [field] else [field] + CsvFields(s[|field| + 1..])
  }

  /** On a line without quotes the fields are exactly the comma pieces. */
  lemma {:induction false} CsvFieldsWithoutQuotes(s: string)
    requires '"' !in s
    ensures CsvFields(s) == Split(s, ',')
    decreases |s|
  {
    var field := TakeUntil(s, ',');
    if |field| == |s| {
      assert field == s;
      SplitWithoutSeparator(s, ',');
    } else {
      SplitAtFirst(s, ',', |field|);
      CsvFieldsWithoutQuotes(s[|field| + 1..]);
    }
  }

  /** How a field is written: enclosed in double quotes when it contains a comma. */
  function Escape(x: string): string {
    if ',' in x then "\"" + x + "\"" else x
  }

  function EscapeAll(xs: seq<string>): seq<string> {
    seq(|xs|, i requires 0 <= i < |xs| => Escape(xs[i]))
  }

  /** Escaping adds only double quotes: a character no field holds stays out of every escaped field. */
  lemma EscapeAllAvoids(xs: seq<string>, c: char)
    requires c != '"'
    requires forall i :: 0 <= i < |xs| ==> c !in xs[i]
    ensures forall i :: 0 <= i < |xs| ==> c !in EscapeAll(xs)[i]
  {
    forall i | 0 <= i < |xs| ensures c !in EscapeAll(xs)[i] {
      assert EscapeAll(xs)[i] == Escape(xs[i]);
    }
  }

  lemma EscapedFieldThenRest(x: string, rest: string)
    requires '"' !in x
    ensures CsvFields(Escape(x) + "," + rest) == [x] + CsvFields(rest)
  {
    if ',' in x {
      QuotedFieldThenRest(x, rest);
    } else {
      PlainFieldThenRest(x, rest);
    }
  }

  lemma QuotedFieldThenRest(x: string, rest: string)
    requires '"' !in x && ',' in x
    ensures CsvFields("\"" + x + "\"" + "," + rest) == [x] + CsvFields(rest)
  {
    var s := "\"" + x + "\"" + "," + rest;
    assert s[0] == '"';
    var body := s[1..];
    assert body == x + ['"'] + ("," + rest);
    TakeUntilBefore(x, "," + rest, '"');
    var after := body[|x| + 1..];
    assert after == "," + rest;
    var tail := TakeUntil(after, ',');
    assert tail == "";
    assert after[|tail| + 1..] == rest;
    assert CsvFields(s) == [x + tail] + CsvFields(after[|tail| + 1..]);
    assert x + tail == x;
  }

  lemma PlainFieldThenRest(x: string, rest: string)
    requires '"' !in x && ',' !in x
    ensures CsvFields(x + "," + rest) == [x] + CsvFields(rest)
  {
    var s := x + "," + rest;
    assert s == x + [','] + rest;
    TakeUntilBefore(x, rest, ',');
    assert !(|s| > 0 && s[0] == '"') by {
      if |x| > 0 { assert s[0] == x[0]; } else { assert s[0] == ','; }
    }
    assert s[|x| + 1..] == rest;
  }

  lemma EscapedFieldAlone(x: string)
    requires '"' !in x
    ensures CsvFields(Escape(x)) == [x]
  {
    var s := Escape(x);
    if ',' in x {
      assert s[0] == '"';
      var body := s[1..];
      assert body == x + ['"'] + "";
      TakeUntilBefore(x, "", '"');
      var after := body[|x| + 1..];
      assert after == "";
      var tail := TakeUntil(after, ',');
      assert tail == "";
      assert CsvFields(s) == [x + tail];
      assert x + tail == x;
    } else {
      TakeUntilWithout(x, ',');
      assert !(|s| > 0 && s[0] == '"') by {
        if |x| > 0 { assert s[0] == x[0]; }
      }
    }
  }

  /** Writing fields with Escape and reading the line back gives the same fields. */
  lemma {:induction false} CsvFieldsOfEscaped(xs: seq<string>)
    requires |xs| >= 1
    requires forall i :: 0 <= i < |xs| ==> '"' !in xs[i]
    ensures CsvFields(Join(EscapeAll(xs), ',')) == xs
  {
    var es := EscapeAll(xs);
    if |xs| == 1 {
      EscapedFieldAlone(xs[0]);
    } else {
      assert es[1..] == EscapeAll(xs[1..]);
      CsvFieldsOfEscaped(xs[1..]);
      assert Join(es, ',') == Escape(xs[0]) + "," + Join(es[1..], ',');
      EscapedFieldThenRest(xs[0], Join(es[1..], ','));
      assert [xs[0]] + xs[1..] == xs;
    }
  }

  /** The record a header line and a field line give: field i under header i; surplus fields are not keyed; a later duplicate header wins. */
  function HeaderRecord(headers: seq<string>, fields: seq<string>): (row: map<string, string>)
    ensures forall k :: k in row ==> k in headers
  {
    if |headers| == 0 || |fields| == 0 then map[]
    else map[headers[0] := fields[0]] + HeaderRecord(headers[1..], fields[1..])
  }

  /** With distinct headers, each header maps to the field in its column. */
  lemma {:induction false} HeaderRecordAt(headers: seq<string>, fields: seq<string>, i: nat)
    requires i < |headers| && i < |fields|
    requires forall a, b :: 0 <= a < b < |headers| ==> headers[a] != headers[b]
    ensures headers[i] in HeaderRecord(headers, fields)
    ensures HeaderRecord(headers, fields)[headers[i]] == fields[i]
  {
    if i > 0 {
      HeaderRecordAt(headers[1..], fields[1..], i - 1);
      assert headers[1..][i - 1] == headers[i];
    }
  }
}
