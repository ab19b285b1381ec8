/**
 * The current converter: a Mint account-balance export (one account, a
 * `"DATES","Assets"` or `"DATES","Debts"` header, then one quoted date and
 * amount per line) becomes either a Monarch account-balance CSV or a Monarch
 * transaction CSV of balance adjustments.
 */
module MintMonarch {
  import opened Text
  import opened Records

  const NotMintCsvMessage := "This doesn't look like a Mint account balance CSV file"
  const NoHistoryMessage := "No account history found"

  const AssetsHeader := "\"DATES\",\"Assets\""
  const DebtsHeader := "\"DATES\",\"Debts\""

  /** The header of the transaction CSV names these eight columns, comma-separated. */
  const TransactionColumns := ["Date", "Merchant", "Category", "Account", "Original Statement", "Notes", "Amount", "Tags"]
  const TransactionHeader := Join(TransactionColumns, ',')
  const Merchant := "Mint-to-Monarch"
  const BalanceAdjustments := "Balance Adjustments"

  // ---------------------------------------------------------------------
  // Reading the Mint export
  // ---------------------------------------------------------------------

  /** The header test: two comma-separated fields, `"DATES"` then `"Assets"` or `"Debts"`. */
  predicate HeaderOk(headerLine: string) {
    var headers := Split(headerLine, ',');
    |headers| == 2 && headers[0] == "\"DATES\"" && (headers[1] == "\"Assets\"" || headers[1] == "\"Debts\"")
  }

  /** The header names debts: its second field is `"Debts"`. */
  predicate IsDebtHeader(headerLine: string) {
    var headers := Split(headerLine, ',');
    |headers| == 2 && headers[1] == "\"Debts\""
  }

  /** A header line that passes the test is one of the two Mint header lines. */
  lemma {:induction false} AcceptedHeaderIsMint(headerLine: string)
    ensures HeaderOk(headerLine) ==> headerLine == AssetsHeader || headerLine == DebtsHeader
    ensures IsDebtHeader(headerLine) ==> headerLine[|headerLine| - 7..] == "\"Debts\""
  {
    var headers := Split(headerLine, ',');
    if |headers| == 2 {
      JoinCons(headers[0], [headers[1]], ',');
      assert headers == [headers[0]] + [headers[1]];
    }
  }

  lemma {:induction false} AssetsHeaderAccepted(headerLine: string)
    requires headerLine == AssetsHeader
    ensures HeaderOk(headerLine) && !IsDebtHeader(headerLine)
  {
    SplitPair(headerLine, "\"DATES\"", "\"Assets\"", ',');
  }

  lemma {:induction false} DebtsHeaderAccepted(headerLine: string)
    requires headerLine == DebtsHeader
    ensures HeaderOk(headerLine) && IsDebtHeader(headerLine)
  {
    SplitPair(headerLine, "\"DATES\"", "\"Debts\"", ',');
  }

  /**
   * The header test accepts exactly the two Mint header lines and nothing
   * else, and the debt test picks out the `"Debts"` one.
   */
  lemma {:induction false} HeaderOkExactly(headerLine: string)
    ensures HeaderOk(headerLine) <==> headerLine == AssetsHeader || headerLine == DebtsHeader
    ensures HeaderOk(headerLine) ==> (IsDebtHeader(headerLine) <==> headerLine == DebtsHeader)
  {
    AcceptedHeaderIsMint(headerLine);
    if headerLine == AssetsHeader {
      AssetsHeaderAccepted(headerLine);
    }
    if headerLine == DebtsHeader {
      DebtsHeaderAccepted(headerLine);
    }
  }

  /** An empty export still splits into one (empty) line, so it fails the header test. */
  lemma EmptyExportFailsHeader()
    ensures Split("", '\n') == [""]
    ensures !HeaderOk(Split("", '\n')[0])
  {
    AcceptedHeaderIsMint("");
  }

  /** `1 ${line.slice(1, line.indexOf(',') - 1)}`: the date text with day 1 in front. */
  function DateText(line: string): (s: string)
    ensures |s| >= 2 && s[..2] == "1 "
  {
    "1 " + Slice(line, 1, IndexOf(line, ',') - 1)
  }

  /**
   * `line.slice(line.indexOf(',') + 2, -1)` with every `,` and then every `$`
   * removed: the amount text, free of both.
   */
  function AmountText(line: string): (s: string)
    ensures ',' !in s && '$' !in s
  {
    var noSeparators := RemoveAll(Slice(line, IndexOf(line, ',') + 2, -1), ',');
    RemoveAllKeeps(noSeparators, '$');
    RemoveAll(noSeparators, '$')
  }

  /**
   * On a well-formed Mint data line `"<date>","<amount>"` the date text is
   * `1 <date>` and the amount text is the amount without `,` and `$`.
   */
  lemma {:induction false} MintLineTokens(dateToken: string, amountToken: string)
    requires ',' !in dateToken
    ensures DateText(MintDataLine(dateToken, amountToken)) == "1 " + dateToken
    ensures AmountText(MintDataLine(dateToken, amountToken)) == RemoveAll(RemoveAll(amountToken, ','), '$')
  {
    var line := MintDataLine(dateToken, amountToken);
    var before := "\"" + dateToken + "\"";
    var after := "\"" + amountToken + "\"";
    assert line == before + [','] + after;
    IndexOfAfterPrefix(before, ',', after);
    var n := |dateToken|;
    assert line[1..n + 1] == dateToken;
    assert line[n + 4..|line| - 1] == amountToken;
  }

  /** The record built from one data line; a debt is negated. */
  function ParseLine(host: Host, accountName: string, isDebt: bool, line: string): ValueRecord {
    var amount := host.parseFloat(AmountText(line));
    ValueRecord(accountName, host.newDate(DateText(line)), if isDebt then -amount else amount)
  }

  /** The records of the data lines: one per non-empty line, in line order. */
  function ParsedRecords(host: Host, accountName: string, isDebt: bool, lines: seq<string>): (records: seq<ValueRecord>)
    ensures |records| <= |lines|
  {
    if lines == [] then []
    else
      var last := lines[|lines| - 1];
      ParsedRecords(host, accountName, isDebt, lines[..|lines| - 1])
        + (if last == "" then [] else [ParseLine(host, accountName, isDebt, last)])
  }

  /** One more data line adds its record, unless the line is empty. */
  lemma ParsedRecordsSnoc(host: Host, accountName: string, isDebt: bool, lines: seq<string>, i: nat)
    requires i < |lines|
    ensures ParsedRecords(host, accountName, isDebt, lines[..i + 1]) ==
      ParsedRecords(host, accountName, isDebt, lines[..i]) + (if lines[i] == "" then [] else [ParseLine(host, accountName, isDebt, lines[i])])
  {
    var p := lines[..i + 1];
    assert p[..|p| - 1] == lines[..i];
    assert p[|p| - 1] == lines[i];
  }

  /**
   * Exactly one record per non-empty data line, the `i`-th record parsed
   * from the `i`-th non-empty line, every one for the account asked for.
   */
  lemma {:induction false} ParsedRecordsPerLine(host: Host, accountName: string, isDebt: bool, lines: seq<string>)
    ensures var records := ParsedRecords(host, accountName, isDebt, lines);
      && |records| == |NonEmptyLines(lines)|
      && (forall i | 0 <= i < |records| :: records[i] == ParseLine(host, accountName, isDebt, NonEmptyLines(lines)[i]))
      && (forall i | 0 <= i < |records| :: records[i].account == accountName)
  {
    if lines != [] {
      ParsedRecordsPerLine(host, accountName, isDebt, lines[..|lines| - 1]);
    }
  }

  /**
   * The same data lines under a `"Debts"` header give the same records as
   * under `"Assets"`, with every value negated.
   */
  lemma {:induction false} DebtsNegate(host: Host, accountName: string, lines: seq<string>)
    ensures var debts := ParsedRecords(host, accountName, true, lines);
      var assets := ParsedRecords(host, accountName, false, lines);
      && |debts| == |assets|
      && forall i | 0 <= i < |debts| ::
           debts[i].value == -assets[i].value && debts[i].date == assets[i].date && debts[i].account == accountName
  {
    if lines != [] {
      DebtsNegate(host, accountName, lines[..|lines| - 1]);
    }
  }

  /**
   * `parseMintCsv`: fails with the format error unless the first line is one
   * of the two Mint headers; otherwise one record per non-empty data line,
   * in order, every one for `accountName`, negated under `"Debts"`.
   */
  method ParseMintCsv(host: Host, accountName: string, csvDataString: string)
    returns (result: Result<seq<ValueRecord>, ConvertError>)
    ensures var csvLines := Split(csvDataString, '\n');
      && (result.Failure? <==> !HeaderOk(csvLines[0]))
      && (result.Failure? ==> result.error == FormatError(NotMintCsvMessage))
      && (result.Success? ==> result.value == ParsedRecords(host, accountName, IsDebtHeader(csvLines[0]), csvLines[1..]))
  {
    var csvLines := Split(csvDataString, '\n');
    var headers := Split(csvLines[0], ',');
    if |headers| != 2 || headers[0] != "\"DATES\"" || (headers[1] != "\"Assets\"" && headers[1] != "\"Debts\"") {
      return Failure(FormatError(NotMintCsvMessage));
    }
    var isDebt := headers[1] == "\"Debts\"";
    var records := ParseDataLines(host, accountName, isDebt, csvLines[1..]);
    return Success(records);
  }

  /**
   * The `for` loop of `parseMintCsv`: skips empty lines and pushes one record
   * per other line, negating its value for a debt.
   */
  method ParseDataLines(host: Host, accountName: string, isDebt: bool, csvDataLines: seq<string>)
    returns (records: seq<ValueRecord>)
    ensures records == ParsedRecords(host, accountName, isDebt, csvDataLines)
  {
    records := [];
    for i := 0 to |csvDataLines|
      invariant records == ParsedRecords(host, accountName, isDebt, csvDataLines[..i])
    {
      var line := csvDataLines[i];
      ParsedRecordsSnoc(host, accountName, isDebt, csvDataLines, i);
      if |line| == 0 {
        continue;
      }
      var record := ParseRecord(host, accountName, isDebt, line);
      records := records + [record];
    }
    assert csvDataLines[..|csvDataLines|] == csvDataLines;
  }

  /** The body of that loop for a non-empty line: build the record, then negate a debt in place. */
  method ParseRecord(host: Host, accountName: string, isDebt: bool, line: string) returns (record: ValueRecord)
    ensures record == ParseLine(host, accountName, isDebt, line)
  {
    record := ValueRecord(accountName, host.newDate(DateText(line)), host.parseFloat(AmountText(line)));
    if isDebt {
      record := record.(value := record.value * -1.0);
    }
  }

  // ---------------------------------------------------------------------
  // The Monarch account-balance CSV
  // ---------------------------------------------------------------------

  /**
   * `valueRecordsToMonarchAccountBalanceCsv`: the balance header, then one
   * line per record, joined by newlines.
   */
  method ValueRecordsToMonarchAccountBalanceCsv(host: Host, records: seq<ValueRecord>) returns (csv: string)
    ensures csv == BalanceCsv(host, records)
  {
    var monarchCsvLines := [BalanceHeader];
    for i := 0 to |records|
      invariant monarchCsvLines == [BalanceHeader] + BalanceLines(host, records[..i])
    {
      var record := records[i];
      assert records[..i + 1][..i] == records[..i];
      var formattedDate := FormatDate(record.date);
      monarchCsvLines := monarchCsvLines
        + ["\"" + formattedDate + "\",\"" + host.toFixed2(record.value) + "\",\"" + record.account + "\""];
    }
    assert records[..|records|] == records;
    csv := Join(monarchCsvLines, '\n');
  }

  // ---------------------------------------------------------------------
  // The Monarch transaction CSV
  // ---------------------------------------------------------------------

  datatype MonarchTransaction = MonarchTransaction(
    date: Date, merchant: string, category: string, account: string,
    originalStatement: string, notes: string, amount: real, tags: string)

  /**
   * `valueRecordToTransaction`: the balance adjustment that takes the earlier
   * balance to the later one, dated and filed under the later record.
   */
  function ValueRecordToTransaction(startRecord: ValueRecord, endRecord: ValueRecord): (t: MonarchTransaction)
    ensures startRecord.value + t.amount == endRecord.value
    ensures t.date == endRecord.date && t.account == endRecord.account
    ensures t.amount == 0.0 <==> startRecord.value == endRecord.value
  {
    MonarchTransaction(endRecord.date, Merchant, BalanceAdjustments, endRecord.account,
                       BalanceAdjustments, "", endRecord.value - startRecord.value, "")
  }

  /** The synthetic zero balance put in front of the first observation. */
  function OpeningBalance(first: ValueRecord): (r: ValueRecord)
    ensures r.value == 0.0 && r.account == first.account && r.date == first.date
  {
    ValueRecord(first.account, first.date, 0.0)
  }

  /** The change of balance from `s[i]` to `s[i + 1]`. */
  function Delta(s: seq<ValueRecord>, i: int): real
    requires 0 <= i < |s| - 1
  {
    s[i + 1].value - s[i].value
  }

  /** The pair `(s[i], s[i + 1])` changes the balance. */
  predicate ChangesAt(s: seq<ValueRecord>, i: int)
    requires 0 <= i < |s| - 1
  {
    s[i + 1].value != s[i].value
  }

  /**
   * The positions `i` whose adjacent pair `(s[i], s[i + 1])` changes the
   * balance, in increasing order: exactly the changing pairs, each once.
   */
  function ChangeIndices(s: seq<ValueRecord>): (idx: seq<nat>)
    ensures |s| >= 1 ==> |idx| <= |s| - 1
    ensures forall k | 0 <= k < |idx| :: idx[k] + 1 < |s|
    decreases |s|
  {
    if |s| < 2 then []
    else
      var n := |s|;
      ChangeIndices(s[..n - 1]) + (if ChangesAt(s, n - 2) then [n - 2] else [])
  }

  /** The change positions are increasing, and they are exactly the pairs that change the balance. */
  lemma {:induction false} ChangeIndicesExact(s: seq<ValueRecord>)
    ensures var idx := ChangeIndices(s);
      && (forall k, m | 0 <= k < m < |idx| :: idx[k] < idx[m])
      && (forall i | 0 <= i < |s| - 1 :: i in idx <==> ChangesAt(s, i))
    decreases |s|
  {
    if |s| >= 2 {
      var n := |s|;
      ChangeIndicesExact(s[..n - 1]);
      assert forall i | 0 <= i < n - 2 :: ChangesAt(s[..n - 1], i) == ChangesAt(s, i);
    }
  }

  /**
   * The transactions of the pairwise scan over adjacent pairs, in pair
   * order, skipping a pair whose amount is zero.
   */
  function Transactions(s: seq<ValueRecord>): (ts: seq<MonarchTransaction>)
    decreases |s|
  {
    if |s| < 2 then []
    else
      var n := |s|;
      var t := ValueRecordToTransaction(s[n - 2], s[n - 1]);
      Transactions(s[..n - 1]) + (if t.amount == 0.0 then [] else [t])
  }

  /** At most one transaction per adjacent pair, and none with a zero amount. */
  lemma {:induction false} TransactionsBound(s: seq<ValueRecord>)
    ensures var ts := Transactions(s);
      && (|s| >= 1 ==> |ts| <= |s| - 1)
      && forall k | 0 <= k < |ts| :: ts[k].amount != 0.0
    decreases |s|
  {
    if |s| >= 2 {
      TransactionsBound(s[..|s| - 1]);
    }
  }

  /**
   * The `k`-th transaction belongs to the `k`-th changing pair: one
   * transaction for each pair whose values differ, in pair order, and none
   * for a pair whose values are equal.
   */
  lemma {:induction false} TransactionsAtChanges(s: seq<ValueRecord>)
    ensures var ts, idx := Transactions(s), ChangeIndices(s);
      && |ts| == |idx|
      && forall k | 0 <= k < |ts| :: ts[k] == ValueRecordToTransaction(s[idx[k]], s[idx[k] + 1])
    decreases |s|
  {
    if |s| >= 2 {
      var n := |s|;
      var prefix := s[..n - 1];
      TransactionsAtChanges(prefix);
      var pidx, pts := ChangeIndices(prefix), Transactions(prefix);
      var t := ValueRecordToTransaction(s[n - 2], s[n - 1]);
      var ts, idx := Transactions(s), ChangeIndices(s);
      if ChangesAt(s, n - 2) {
        assert ts == pts + [t] && idx == pidx + [n - 2];
        forall k | 0 <= k < |ts| ensures ts[k] == ValueRecordToTransaction(s[idx[k]], s[idx[k] + 1]) {
          if k < |pts| {
            assert ts[k] == pts[k] && idx[k] == pidx[k];
            assert s[pidx[k]] == prefix[pidx[k]] && s[pidx[k] + 1] == prefix[pidx[k] + 1];
          }
        }
      } else {
        assert ts == pts && idx == pidx;
        forall k | 0 <= k < |ts| ensures ts[k] == ValueRecordToTransaction(s[idx[k]], s[idx[k] + 1]) {
          assert s[pidx[k]] == prefix[pidx[k]] && s[pidx[k] + 1] == prefix[pidx[k] + 1];
        }
      }
    }
  }

  /** The total of the transaction amounts. */
  function SumAmounts(ts: seq<MonarchTransaction>): real {
    if ts == [] then 0.0 else SumAmounts(ts[..|ts| - 1]) + ts[|ts| - 1].amount
  }

  /** The adjustments telescope: together they take the first balance to the last. */
  lemma {:induction false} TransactionsTelescope(s: seq<ValueRecord>)
    requires |s| >= 1
    ensures SumAmounts(Transactions(s)) == s[|s| - 1].value - s[0].value
  {
    var n := |s|;
    if n >= 2 {
      var prefix := s[..n - 1];
      TransactionsTelescope(prefix);
      var t := ValueRecordToTransaction(s[n - 2], s[n - 1]);
      var ts := Transactions(prefix);
      assert prefix[|prefix| - 1] == s[n - 2] && prefix[0] == s[0];
      if t.amount != 0.0 {
        assert Transactions(s) == ts + [t];
        assert (ts + [t])[..|ts|] == ts;
      } else {
        assert Transactions(s) == ts;
      }
    }
  }

  /**
   * From the synthetic zero opening balance, the emitted adjustments add up
   * to the last observed balance.
   */
  lemma {:induction false} TransactionsConserveBalance(records: seq<ValueRecord>)
    requires records != []
    ensures SumAmounts(Transactions([OpeningBalance(records[0])] + records)) == records[|records| - 1].value
  {
    var s := [OpeningBalance(records[0])] + records;
    TransactionsTelescope(s);
    assert s[0].value == 0.0 && s[|s| - 1] == records[|records| - 1];
  }

  /** Extending the scanned prefix by one record adds that pair's transaction, if its amount is not zero. */
  lemma {:induction false} TransactionsExtend(s: seq<ValueRecord>, i: nat)
    requires i < |s| - 1
    ensures Transactions(s[..i + 2]) ==
      Transactions(s[..i + 1]) + (if s[i + 1].value == s[i].value then [] else [ValueRecordToTransaction(s[i], s[i + 1])])
  {
    var p := s[..i + 2];
    assert p[..i + 1] == s[..i + 1];
    assert p[i] == s[i] && p[i + 1] == s[i + 1];
  }

  /**
   * After a first record `a`, a run of equal balances yields at most the one
   * adjustment from `a` to the run.
   */
  lemma {:induction false} TransactionsBeforeConstantRun(a: ValueRecord, run: seq<ValueRecord>)
    requires |run| >= 1
    requires forall i | 0 <= i < |run| :: run[i].value == run[0].value
    ensures Transactions([a] + run) ==
      if a.value == run[0].value then [] else [ValueRecordToTransaction(a, run[0])]
    decreases |run|
  {
    var s := [a] + run;
    var n := |s|;
    if |run| > 1 {
      var shorter := run[..|run| - 1];
      TransactionsBeforeConstantRun(a, shorter);
      assert s[..n - 1] == [a] + shorter;
      assert s[n - 2] == run[|run| - 2] && s[n - 1] == run[|run| - 1];
    } else {
      assert s[..n - 1] == [a];
    }
  }

  /**
   * A run of equal balances yields no adjustment at all; after the zero
   * opening balance it yields exactly one, unless that balance is zero too.
   */
  lemma {:induction false} ConstantBalanceTransactions(records: seq<ValueRecord>)
    requires records != []
    requires forall i | 0 <= i < |records| :: records[i].value == records[0].value
    ensures Transactions(records) == []
    ensures var ts := Transactions([OpeningBalance(records[0])] + records);
      if records[0].value == 0.0 then ts == []
      else ts == [ValueRecordToTransaction(OpeningBalance(records[0]), records[0])]
  {
    TransactionsBeforeConstantRun(OpeningBalance(records[0]), records);
    ConstantRunNoTransactions(records);
  }

  /** A run of equal balances yields no adjustment. */
  lemma {:induction false} ConstantRunNoTransactions(run: seq<ValueRecord>)
    requires forall i | 0 <= i < |run| :: run[i].value == run[0].value
    ensures Transactions(run) == []
    decreases |run|
  {
    var n := |run|;
    if n >= 2 {
      ConstantRunNoTransactions(run[..n - 1]);
      assert run[n - 2].value == run[n - 1].value;
    }
  }

  /**
   * `${formatDate(date)},${merchant},${category},${account},${originalStatement},${notes},${amount.toFixed(2)}`:
   * seven fields joined by commas; the tags are left off.
   */
  function TransactionRow(host: Host, t: MonarchTransaction): string {
    FormatDate(t.date) + "," + t.merchant + "," + t.category + "," + t.account + ","
      + t.originalStatement + "," + t.notes + "," + host.toFixed2(t.amount)
  }

  /** One row per transaction, in order. */
  function TransactionRows(host: Host, ts: seq<MonarchTransaction>): (rows: seq<string>)
    ensures |rows| == |ts|
  {
    Map((t: MonarchTransaction) => TransactionRow(host, t), ts)
  }

  /** The `i`-th row renders the `i`-th transaction. */
  lemma {:induction false} TransactionRowsAt(host: Host, ts: seq<MonarchTransaction>)
    ensures forall i | 0 <= i < |ts| :: TransactionRows(host, ts)[i] == TransactionRow(host, ts[i])
  {
    MapAt((t: MonarchTransaction) => TransactionRow(host, t), ts);
  }

  /** Appending a transaction appends its row. */
  lemma {:induction false} TransactionRowsAppend(host: Host, ts: seq<MonarchTransaction>, t: MonarchTransaction)
    ensures TransactionRows(host, ts + [t]) == TransactionRows(host, ts) + [TransactionRow(host, t)]
  {
    assert (ts + [t])[..|ts|] == ts;
  }

  /** The lines of the transaction CSV: the header, then one row per balance change. */
  function TransactionLines(host: Host, s: seq<ValueRecord>): seq<string> {
    [TransactionHeader] + TransactionRows(host, Transactions(s))
  }

  /**
   * The transaction CSV of a record sequence: its lines joined by newlines.
   * It starts with the header, and is the header alone when no balance changes.
   */
  function TransactionCsv(host: Host, s: seq<ValueRecord>): (csv: string)
    ensures |csv| >= |TransactionHeader| && csv[..|TransactionHeader|] == TransactionHeader
    ensures Transactions(s) == [] ==> csv == TransactionHeader
  {
    JoinHead(TransactionHeader, TransactionRows(host, Transactions(s)), '\n');
    Join(TransactionLines(host, s), '\n')
  }

  /**
   * Scanning one more pair adds that pair's row to the rows, unless the
   * pair's amount is zero.
   */
  lemma {:induction false} TransactionRowsExtend(host: Host, s: seq<ValueRecord>, n: nat)
    requires 2 <= n <= |s|
    ensures var t := ValueRecordToTransaction(s[n - 2], s[n - 1]);
      TransactionRows(host, Transactions(s[..n])) ==
      TransactionRows(host, Transactions(s[..n - 1])) + (if t.amount == 0.0 then [] else [TransactionRow(host, t)])
  {
    var t := ValueRecordToTransaction(s[n - 2], s[n - 1]);
    var ts := Transactions(s[..n - 1]);
    var p := s[..n];
    assert p[..n - 1] == s[..n - 1];
    assert p[n - 2] == s[n - 2] && p[n - 1] == s[n - 1];
    if t.amount != 0.0 {
      assert Transactions(p) == ts + [t];
      TransactionRowsAppend(host, ts, t);
    } else {
      assert Transactions(p) == ts;
    }
  }

  /** The transaction header splits back into its eight column names. */
  lemma TransactionHeaderColumns()
    ensures Split(TransactionHeader, ',') == TransactionColumns
    ensures |Split(TransactionHeader, ',')| == 8
  {
    var columns := TransactionColumns;
    assert forall i | 0 <= i < |columns| :: ',' !in columns[i];
    SplitJoin(columns, ',');
  }

  /** The joined column names are the header line the emitter writes first. */
  lemma TransactionHeaderLiteral()
    ensures TransactionHeader == "Date" + "," + "Merchant" + "," + "Category" + "," + "Account" + ","
      + "Original Statement" + "," + "Notes" + "," + "Amount" + "," + "Tags"
  {
    JoinEight("Date", "Merchant", "Category", "Account", "Original Statement", "Notes", "Amount", "Tags", ',');
  }

  /** The transaction header is a single line. */
  lemma TransactionHeaderOneLine()
    ensures '\n' !in TransactionHeader
  {
    var columns := TransactionColumns;
    assert forall i | 0 <= i < |columns| :: '\n' !in columns[i];
    JoinFreeOf(columns, ',', '\n');
  }

  /** The seven values a row lists, in column order. */
  function TransactionFields(host: Host, t: MonarchTransaction): (fields: seq<string>)
    ensures |fields| == 7
  {
    [FormatDate(t.date), t.merchant, t.category, t.account, t.originalStatement, t.notes, host.toFixed2(t.amount)]
  }

  /** A row is its seven values joined by commas. */
  lemma {:induction false} TransactionRowIsJoin(host: Host, t: MonarchTransaction, fields: seq<string>)
    requires fields == TransactionFields(host, t)
    ensures TransactionRow(host, t) == Join(fields, ',')
  {
    assert Join(fields[..1], ',') == fields[0];
    JoinPrefix(fields, 1, ',');
    JoinPrefix(fields, 2, ',');
    JoinPrefix(fields, 3, ',');
    JoinPrefix(fields, 4, ',');
    JoinPrefix(fields, 5, ',');
    JoinPrefix(fields, 6, ',');
    assert fields[..7] == fields;
  }

  /** Neither fixed label holds a comma or a newline. */
  lemma LabelsPlain()
    ensures ',' !in Merchant && '\n' !in Merchant
    ensures ',' !in BalanceAdjustments && '\n' !in BalanceAdjustments
  {
  }

  /** No field of a transaction row holds `c`. */
  predicate FieldsFreeOf(host: Host, t: MonarchTransaction, c: char) {
    c !in t.merchant && c !in t.category && c !in t.account && c !in t.originalStatement
    && c !in t.notes && c !in host.toFixed2(t.amount)
  }

  /** No field of any of the transactions holds `c`. */
  predicate AllFieldsFreeOf(host: Host, ts: seq<MonarchTransaction>, c: char) {
    forall k | 0 <= k < |ts| :: FieldsFreeOf(host, ts[k], c)
  }

  /** A row whose values hold no comma splits back into its seven values. */
  lemma {:induction false} TransactionRowSplits(host: Host, t: MonarchTransaction)
    requires FieldsFreeOf(host, t, ',')
    ensures Split(TransactionRow(host, t), ',') == TransactionFields(host, t)
  {
    var fields := TransactionFields(host, t);
    TransactionRowIsJoin(host, t, fields);
    FormatDateChars(t.date);
    assert forall i | 0 <= i < |fields| :: ',' !in fields[i];
    SplitJoin(fields, ',');
  }

  /**
   * When the account name and the rendered amount hold no comma, a row
   * splits into seven fields, one fewer than the header: the date and the
   * account of the later record, the fixed labels, empty notes, the amount.
   */
  lemma {:induction false} TransactionRowFields(host: Host, startRecord: ValueRecord, endRecord: ValueRecord)
    requires ',' !in endRecord.account && ',' !in host.toFixed2(endRecord.value - startRecord.value)
    ensures Split(TransactionRow(host, ValueRecordToTransaction(startRecord, endRecord)), ',') ==
      [FormatDate(endRecord.date), Merchant, BalanceAdjustments, endRecord.account,
       BalanceAdjustments, "", host.toFixed2(endRecord.value - startRecord.value)]
  {
    LabelsPlain();
    TransactionRowSplits(host, ValueRecordToTransaction(startRecord, endRecord));
  }

  /** A row is one line when none of its values holds a newline. */
  lemma {:induction false} TransactionRowOneLine(host: Host, t: MonarchTransaction)
    requires FieldsFreeOf(host, t, '\n')
    ensures '\n' !in TransactionRow(host, t)
  {
    var fields := TransactionFields(host, t);
    TransactionRowIsJoin(host, t, fields);
    FormatDateChars(t.date);
    assert forall i | 0 <= i < |fields| :: '\n' !in fields[i];
    JoinFreeOf(fields, ',', '\n');
  }

  /**
   * When `c` is in no account name, no rendered difference and neither
   * label, it is in no field of any emitted transaction.
   */
  lemma {:induction false} TransactionsFieldsFreeOf(host: Host, s: seq<ValueRecord>, c: char)
    requires c !in Merchant && c !in BalanceAdjustments
    requires forall i | 0 <= i < |s| :: c !in s[i].account
    requires forall i | 0 <= i < |s| - 1 :: c !in host.toFixed2(Delta(s, i))
    ensures AllFieldsFreeOf(host, Transactions(s), c)
    decreases |s|
  {
    var n := |s|;
    if n >= 2 {
      var prefix := s[..n - 1];
      assert forall i | 0 <= i < |prefix| - 1 :: Delta(prefix, i) == Delta(s, i);
      TransactionsFieldsFreeOf(host, prefix, c);
      TransactionsExtend(s, n - 2);
      assert s[..n] == s;
      var t := ValueRecordToTransaction(s[n - 2], s[n - 1]);
      assert c !in host.toFixed2(Delta(s, n - 2));
      assert FieldsFreeOf(host, t, c);
    }
  }

  /** Rows of transactions whose fields hold no newline are single lines. */
  lemma {:induction false} RowsOneLine(host: Host, ts: seq<MonarchTransaction>)
    requires AllFieldsFreeOf(host, ts, '\n')
    ensures NoneHolds(TransactionRows(host, ts), '\n')
  {
    TransactionRowsAt(host, ts);
    forall k | 0 <= k < |ts| ensures '\n' !in TransactionRows(host, ts)[k] {
      TransactionRowOneLine(host, ts[k]);
    }
  }

  /**
   * When no account name or rendered difference holds a newline, the
   * transaction CSV splits back into the header and one row per balance
   * change.
   */
  lemma {:induction false} TransactionCsvLines(host: Host, s: seq<ValueRecord>)
    requires forall i | 0 <= i < |s| :: '\n' !in s[i].account
    requires forall i | 0 <= i < |s| - 1 :: '\n' !in host.toFixed2(Delta(s, i))
    ensures var lines := Split(TransactionCsv(host, s), '\n');
      && |lines| == |Transactions(s)| + 1
      && lines[0] == TransactionHeader
      && forall k | 0 <= k < |Transactions(s)| :: lines[k + 1] == TransactionRow(host, Transactions(s)[k])
  {
    var ts := Transactions(s);
    LabelsPlain();
    TransactionsFieldsFreeOf(host, s, '\n');
    RowsOneLine(host, ts);
    TransactionRowsAt(host, ts);
    TransactionHeaderOneLine();
    SplitLines(TransactionHeader, TransactionRows(host, ts));
  }

  /**
   * The caller's JavaScript array of records. The transaction emitter grows
   * it in place, so the caller sees the synthetic opening record afterwards.
   */
  class RecordArray {
    var elems: seq<ValueRecord>

    constructor (elems: seq<ValueRecord>)
      ensures this.elems == elems
    {
      this.elems := elems;
    }

    /** `unshift(r)`: `r` becomes element 0 and every other element moves up one place. */
    method Unshift(r: ValueRecord)
      modifies this
      ensures elems == [r] + old(elems)
    {
      elems := [r] + elems;
    }
  }

  /**
   * `valueRecordsToMonarchTrasactionCsv`: fails on an empty array and leaves
   * it alone; otherwise puts the zero opening balance in front of the
   * caller's array and emits one row per balance change of the grown array.
   */
  method ValueRecordsToMonarchTransactionCsv(host: Host, records: RecordArray)
    returns (result: Result<string, ConvertError>)
    modifies records
    ensures old(records.elems) == [] ==>
      result == Failure(EmptyInputError(NoHistoryMessage)) && records.elems == []
    ensures old(records.elems) != [] ==>
      && records.elems == [OpeningBalance(old(records.elems)[0])] + old(records.elems)
      && result == Success(TransactionCsv(host, records.elems))
  {
    var monarchCsvLines := [TransactionHeader];
    if |records.elems| == 0 {
      return Failure(EmptyInputError(NoHistoryMessage));
    }
    records.Unshift(ValueRecord(records.elems[0].account, records.elems[0].date, 0.0));
    monarchCsvLines := AppendTransactionRows(host, records.elems, monarchCsvLines);
    return Success(Join(monarchCsvLines, '\n'));
  }

  /**
   * The rows the emitter's loop has produced once it has looked at the first
   * `n` records, one loop iteration per unfolding.
   */
  function EmittedRows(host: Host, s: seq<ValueRecord>, n: nat): seq<string>
    requires 1 <= n <= |s|
  {
    if n == 1 then []
    else
      var t := ValueRecordToTransaction(s[n - 2], s[n - 1]);
      EmittedRows(host, s, n - 1) + (if t.amount == 0.0 then [] else [TransactionRow(host, t)])
  }

  /** One more iteration of the loop, at pair `(s[i], s[i + 1])`, appends that pair's row unless its amount is zero. */
  lemma {:induction false} EmittedRowsStep(host: Host, s: seq<ValueRecord>, i: nat, lines: seq<string>)
    requires i + 1 < |s|
    ensures var t := ValueRecordToTransaction(s[i], s[i + 1]);
      lines + EmittedRows(host, s, i + 2) ==
      if t.amount == 0.0 then lines + EmittedRows(host, s, i + 1)
      else lines + EmittedRows(host, s, i + 1) + [TransactionRow(host, t)]
  {
    var n := i + 2;
    assert n - 1 == i + 1 && n - 2 == i;
    var t := ValueRecordToTransaction(s[i], s[i + 1]);
    ConcatAssoc(lines, EmittedRows(host, s, i + 1), [TransactionRow(host, t)]);
  }

  /** After the first `n` records the loop has emitted the rows of the transactions of that prefix. */
  lemma {:induction false} EmittedRowsOfPrefix(host: Host, s: seq<ValueRecord>, n: nat)
    requires 1 <= n <= |s|
    ensures EmittedRows(host, s, n) == TransactionRows(host, Transactions(s[..n]))
  {
    if n > 1 {
      EmittedRowsOfPrefix(host, s, n - 1);
      TransactionRowsExtend(host, s, n);
    } else {
      assert s[..1] == [s[0]];
    }
  }

  /**
   * The emitter's loop over adjacent pairs: every pair whose amount is not
   * zero appends its row to the lines already there (the header).
   */
  method AppendTransactionRows(host: Host, s: seq<ValueRecord>, lines: seq<string>)
    returns (monarchCsvLines: seq<string>)
    requires |s| >= 1
    ensures monarchCsvLines == lines + TransactionRows(host, Transactions(s))
  {
    monarchCsvLines := lines;
    for i := 0 to |s| - 1
      invariant monarchCsvLines == lines + EmittedRows(host, s, i + 1)
    {
      var t := ValueRecordToTransaction(s[i], s[i + 1]);
      EmittedRowsStep(host, s, i, lines);
      if t.amount == 0.0 {
        continue;
      }
      monarchCsvLines := monarchCsvLines + [TransactionRow(host, t)];
    }
    EmittedRowsOfPrefix(host, s, |s|);
    assert s[..|s|] == s;
  }
}
