/**
 * The older converter kept in the shared package: it reads only the
 * `"DATES","Assets"` export, takes the amount three characters after the
 * comma (past the quote and the dollar sign) and drops only the first
 * thousands separator, and it writes only the Monarch account-balance CSV.
 */
module LegacyMintMonarch {
  import opened Text
  import opened Records
  import MintMonarch

  const NotMintCsvMessage := "This doesn't look like a Mint CSV file"

  /** The one header line the older converter accepts; the current one accepts it too. */
  const AssetsHeader := MintMonarch.AssetsHeader

  /** The header test: two comma-separated fields, `"DATES"` then `"Assets"`. */
  predicate HeaderOk(headerLine: string) {
    var headers := Split(headerLine, ',');
    |headers| == 2 && headers[0] == "\"DATES\"" && headers[1] == "\"Assets\""
  }

  /** A header line that passes the older test is the assets header. */
  lemma {:induction false} AcceptedHeaderIsAssets(headerLine: string)
    ensures HeaderOk(headerLine) ==> headerLine == AssetsHeader
  {
    var headers := Split(headerLine, ',');
    if |headers| == 2 {
      JoinCons(headers[0], [headers[1]], ',');
      assert headers == [headers[0]] + [headers[1]];
    }
  }

  lemma {:induction false} AssetsHeaderAccepted(headerLine: string)
    requires headerLine == AssetsHeader
    ensures HeaderOk(headerLine)
  {
    SplitPair(headerLine, "\"DATES\"", "\"Assets\"", ',');
  }

  /** The older header test accepts exactly the assets header, and nothing else. */
  lemma {:induction false} HeaderOkExactly(headerLine: string)
    ensures HeaderOk(headerLine) <==> headerLine == AssetsHeader
  {
    AcceptedHeaderIsAssets(headerLine);
    if headerLine == AssetsHeader {
      AssetsHeaderAccepted(headerLine);
    }
  }

  /**
   * A debts export, which the current converter accepts, is refused here, and
   * so is an empty export (it splits into one empty line).
   */
  lemma DebtsAndEmptyRefused()
    ensures !HeaderOk(MintMonarch.DebtsHeader)
    ensures Split("", '\n') == [""] && !HeaderOk("")
  {
    HeaderOkExactly(MintMonarch.DebtsHeader);
    HeaderOkExactly("");
  }

  /** `line.slice(1, line.indexOf(',') - 1)`: the date text, with no day in front. */
  function DateText(line: string): string {
    Slice(line, 1, IndexOf(line, ',') - 1)
  }

  /**
   * `line.slice(line.indexOf(',') + 3, -1).replace(',', '')`: the amount text
   * from three characters past the comma, with only its first `,` removed.
   */
  function AmountText(line: string): string {
    RemoveFirst(Slice(line, IndexOf(line, ',') + 3, -1), ',')
  }

  /**
   * On a data line `"<date>","$<digits>"` the date text is the date token and
   * the amount text is the digits with their first `,` removed.
   */
  lemma {:induction false} MintLineTokens(dateToken: string, digits: string)
    requires ',' !in dateToken
    ensures DateText(MintDataLine(dateToken, "$" + digits)) == dateToken
    ensures AmountText(MintDataLine(dateToken, "$" + digits)) == RemoveFirst(digits, ',')
  {
    var line := MintDataLine(dateToken, "$" + digits);
    var before := "\"" + dateToken + "\"";
    var after := "\"$" + digits + "\"";
    assert line == before + [','] + after;
    IndexOfAfterPrefix(before, ',', after);
    var n := |dateToken|;
    assert line[1..n + 1] == dateToken;
    assert line[n + 5..|line| - 1] == digits;
  }

  /** `replace(',', '')` on `<a>,<b>,<c>` drops only the comma after `<a>`. */
  lemma {:induction false} FirstSeparatorDropped(a: string, b: string, c: string)
    requires ',' !in a
    ensures RemoveFirst(a + "," + b + "," + c, ',') == a + b + "," + c
  {
    assert a + "," + b + "," + c == a + [','] + (b + "," + c);
    RemoveFirstAfterPrefix(a, ',', b + "," + c);
    assert a + (b + "," + c) == a + b + "," + c;
  }

  /**
   * An amount with two thousands separators, `$<a>,<b>,<c>`, keeps the second
   * one: the amount text is `<a><b>,<c>`, which `parseFloat` reads only up to
   * that comma.
   */
  lemma {:induction false} SecondSeparatorKept(dateToken: string, a: string, b: string, c: string)
    requires ',' !in dateToken && ',' !in a
    ensures AmountText(MintDataLine(dateToken, "$" + (a + "," + b + "," + c))) == a + b + "," + c
    ensures ',' in AmountText(MintDataLine(dateToken, "$" + (a + "," + b + "," + c)))
  {
    MintLineTokens(dateToken, a + "," + b + "," + c);
    FirstSeparatorDropped(a, b, c);
    var r := a + b + "," + c;
    assert r[|a| + |b|] == ',';
  }

  /** The pieces of `$1,234,567.00`, and what the older amount text makes of them. */
  lemma {:induction false} MillionPieces(a: string, b: string, c: string)
    requires a == "1" && b == "234" && c == "567.00"
    ensures "$" + (a + "," + b + "," + c) == "$1,234,567.00"
    ensures a + b + "," + c == "1234,567.00"
  {
  }

  /** A balance of a million dollars or more is read wrongly: `$1,234,567.00` gives `1234,567.00`. */
  lemma {:induction false} AmountKeepsSecondSeparator(dateToken: string, a: string, b: string, c: string)
    requires dateToken == "Jan 2020" && a == "1" && b == "234" && c == "567.00"
    ensures "$" + (a + "," + b + "," + c) == "$1,234,567.00"
    ensures AmountText(MintDataLine(dateToken, "$" + (a + "," + b + "," + c))) == "1234,567.00"
  {
    SecondSeparatorKept(dateToken, a, b, c);
    MillionPieces(a, b, c);
  }

  /** Every `,` and every `$` removed from `$<a>,<b>,<c>` leaves `<a><b><c>`. */
  lemma {:induction false} EverySeparatorRemoved(a: string, b: string, c: string)
    requires ',' !in a && ',' !in b && ',' !in c
    requires '$' !in a && '$' !in b && '$' !in c
    ensures RemoveAll(RemoveAll("$" + a + "," + b + "," + c, ','), '$') == a + b + c
  {
    assert "$" + a + "," + b + "," + c == ("$" + a) + [','] + (b + "," + c);
    RemoveAllAfterPrefix("$" + a, ',', b + "," + c);
    assert b + "," + c == b + [','] + c;
    RemoveAllAfterPrefix(b, ',', c);
    assert ("$" + a) + (b + c) == [] + ['$'] + (a + b + c);
    RemoveAllAfterPrefix([], '$', a + b + c);
  }

  /**
   * The current converter's amount text drops every separator (and the
   * dollar sign): from `$<a>,<b>,<c>` it keeps `<a><b><c>`.
   */
  lemma {:induction false} CurrentAmountDropsEverySeparator(dateToken: string, a: string, b: string, c: string)
    requires ',' !in dateToken
    requires ',' !in a && ',' !in b && ',' !in c
    requires '$' !in a && '$' !in b && '$' !in c
    ensures MintMonarch.AmountText(MintDataLine(dateToken, "$" + a + "," + b + "," + c)) == a + b + c
  {
    MintMonarch.MintLineTokens(dateToken, "$" + a + "," + b + "," + c);
    EverySeparatorRemoved(a, b, c);
  }

  /** The record built from one data line; never negated. */
  function ParseLine(host: Host, accountName: string, line: string): ValueRecord {
    ValueRecord(accountName, host.newDate(DateText(line)), host.parseFloat(AmountText(line)))
  }

  /** The records of the data lines: one per non-empty line, in line order. */
  function ParsedRecords(host: Host, accountName: string, lines: seq<string>): (records: seq<ValueRecord>)
    ensures |records| <= |lines|
  {
    if lines == [] then []
    else
      var last := lines[|lines| - 1];
      ParsedRecords(host, accountName, lines[..|lines| - 1])
        + (if last == "" then [] else [ParseLine(host, accountName, last)])
  }

  /** One more data line adds its record, unless the line is empty. */
  lemma ParsedRecordsSnoc(host: Host, accountName: string, lines: seq<string>, i: nat)
    requires i < |lines|
    ensures ParsedRecords(host, accountName, lines[..i + 1]) ==
      ParsedRecords(host, accountName, lines[..i]) + (if lines[i] == "" then [] else [ParseLine(host, accountName, lines[i])])
  {
    var p := lines[..i + 1];
    assert p[..|p| - 1] == lines[..i];
    assert p[|p| - 1] == lines[i];
  }

  /**
   * Exactly one record per non-empty data line, the `i`-th record parsed
   * from the `i`-th non-empty line, every one for the account asked for.
   */
  lemma {:induction false} ParsedRecordsPerLine(host: Host, accountName: string, lines: seq<string>)
    ensures var records := ParsedRecords(host, accountName, lines);
      && |records| == |NonEmptyLines(lines)|
      && (forall i | 0 <= i < |records| :: records[i] == ParseLine(host, accountName, NonEmptyLines(lines)[i]))
      && (forall i | 0 <= i < |records| :: records[i].account == accountName)
  {
    if lines != [] {
      ParsedRecordsPerLine(host, accountName, lines[..|lines| - 1]);
    }
  }

  /**
   * `parseMintCsv` of the older package: fails with its format error unless
   * the first line is the assets header; otherwise one record per non-empty
   * data line, in order, every one for `accountName`.
   */
  method ParseMintCsv(host: Host, accountName: string, csvDataString: string)
    returns (result: Result<seq<ValueRecord>, ConvertError>)
    ensures var csvLines := Split(csvDataString, '\n');
      && (result.Failure? <==> csvLines[0] != AssetsHeader)
      && (result.Failure? ==> result.error == FormatError(NotMintCsvMessage))
      && (result.Success? ==> result.value == ParsedRecords(host, accountName, csvLines[1..]))
  {
    var csvLines := Split(csvDataString, '\n');
    var headers := Split(csvLines[0], ',');
    HeaderOkExactly(csvLines[0]);
    if |headers| != 2 || headers[0] != "\"DATES\"" || headers[1] != "\"Assets\"" {
      return Failure(FormatError(NotMintCsvMessage));
    }
    var records := ParseDataLines(host, accountName, csvLines[1..]);
    return Success(records);
  }

  /** The `for` loop of the older `parseMintCsv`: skips empty lines and pushes one record per other line. */
  method ParseDataLines(host: Host, accountName: string, csvDataLines: seq<string>)
    returns (records: seq<ValueRecord>)
    ensures records == ParsedRecords(host, accountName, csvDataLines)
  {
    records := [];
    for i := 0 to |csvDataLines|
      invariant records == ParsedRecords(host, accountName, csvDataLines[..i])
    {
      var line := csvDataLines[i];
      ParsedRecordsSnoc(host, accountName, csvDataLines, i);
      if |line| == 0 {
        continue;
      }
      var record := ValueRecord(accountName, host.newDate(DateText(line)), host.parseFloat(AmountText(line)));
      records := records + [record];
    }
    assert csvDataLines[..|csvDataLines|] == csvDataLines;
  }

  /**
   * `valueRecordsToMonarchCsv`: the balance header, then one line per record,
   * joined by newlines, exactly as the current balance emitter writes it.
   */
  method ValueRecordsToMonarchCsv(host: Host, records: seq<ValueRecord>) returns (csv: string)
    ensures csv == BalanceCsv(host, records)
  {
    var monarchCsvLines := [BalanceHeader];
    for i := 0 to |records|
      invariant monarchCsvLines == [BalanceHeader] + BalanceLines(host, records[..i])
    {
      var record := records[i];
      assert records[..i + 1][..i] == records[..i];
      var formattedDate := FormatDate(record.date);
      monarchCsvLines := monarchCsvLines
        + ["\"" + formattedDate + "\",\"" + host.toFixed2(record.value) + "\",\"" + record.account + "\""];
    }
    assert records[..|records|] == records;
    csv := Join(monarchCsvLines, '\n');
  }
}
