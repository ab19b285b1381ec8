/**
 * What both versions of the converter share: the value record, the host
 * built-ins it leans on, the error kinds, the unpadded date rendering and the
 * Monarch account-balance line.
 */
module Records {
  import opened Text

  datatype Result<T, E> = Success(value: T) | Failure(error: E)

  /** The two errors the converter throws, each with its message. */
  datatype ConvertError = FormatError(message: string) | EmptyInputError(message: string)

  /**
   * A calendar date as the host `Date` reports it: `getFullYear()`,
   * `getMonth()` (counted from 0) and `getDate()`.
   */
  datatype Date = Date(year: int, month0: int, day: int)

  /** One balance observation of one account. Amounts are exact reals. */
  datatype ValueRecord = ValueRecord(account: string, date: Date, value: real)

  /**
   * The host built-ins the converter calls and that are not modelled:
   * `Number.parseFloat`, `new Date(text)` and `Number.prototype.toFixed(2)`.
   */
  datatype Host = Host(parseFloat: string -> real, newDate: string -> Date, toFixed2: real -> string)

  /** `${year}-${month0 + 1}-${day}`: unpadded numbers separated by dashes. */
  function FormatDate(d: Date): string {
    IntToDecimal(d.year) + "-" + IntToDecimal(d.month0 + 1) + "-" + IntToDecimal(d.day)
  }

  /**
   * The rendering is made of digits and dashes only, so it never holds a
   * comma, a quote or a newline.
   */
  lemma {:induction false} FormatDateChars(d: Date)
    ensures var s := FormatDate(d);
      && (forall i | 0 <= i < |s| :: IsDigit(s[i]) || s[i] == '-')
      && ',' !in s && '"' !in s && '\n' !in s
  {
    var y, m, dd := IntToDecimal(d.year), IntToDecimal(d.month0 + 1), IntToDecimal(d.day);
    IntToDecimalChars(d.year);
    IntToDecimalChars(d.month0 + 1);
    IntToDecimalChars(d.day);
    var s := y + "-" + m + "-" + dd;
    forall i | 0 <= i < |s| ensures IsDigit(s[i]) || s[i] == '-' {
      if i < |y| {
        assert s[i] == y[i];
      } else if i == |y| {
      } else if i < |y| + 1 + |m| {
        assert s[i] == m[i - |y| - 1];
      } else if i == |y| + 1 + |m| {
      } else {
        assert s[i] == dd[i - |y| - 2 - |m|];
      }
    }
  }

  /**
   * For a date whose numbers are not negative, the rendering splits on `-`
   * into exactly three unpadded decimal fields that read back as the year,
   * the month counted from 1, and the day.
   */
  lemma {:induction false} FormatDateRoundTrip(d: Date)
    requires d.year >= 0 && d.month0 >= 0 && d.day >= 0
    ensures var parts := Split(FormatDate(d), '-');
      && parts == [NatToDecimal(d.year), NatToDecimal(d.month0 + 1), NatToDecimal(d.day)]
      && DecimalValue(parts[0]) == d.year
      && DecimalValue(parts[1]) == d.month0 + 1
      && DecimalValue(parts[2]) == d.day
  {
    FormatDateFields(d);
    DecimalRoundTrip(d.year);
    DecimalRoundTrip(d.month0 + 1);
    DecimalRoundTrip(d.day);
  }

  /** For numbers that are not negative, the rendering splits on `-` into the three digit strings. */
  lemma {:induction false} FormatDateFields(d: Date)
    requires d.year >= 0 && d.month0 >= 0 && d.day >= 0
    ensures Split(FormatDate(d), '-') == [NatToDecimal(d.year), NatToDecimal(d.month0 + 1), NatToDecimal(d.day)]
  {
    var y, m, dd := NatToDecimal(d.year), NatToDecimal(d.month0 + 1), NatToDecimal(d.day);
    NatToDecimalDigits(d.year);
    NatToDecimalDigits(d.month0 + 1);
    NatToDecimalDigits(d.day);
    assert '-' !in y && '-' !in m && '-' !in dd;
    assert FormatDate(d) == y + ['-'] + m + ['-'] + dd;
    SplitThree(y, m, dd, '-');
  }

  /**
   * A data line as the Mint export writes it: both fields quoted,
   * `"<date>","<amount>"`.
   */
  function MintDataLine(dateToken: string, amountToken: string): string {
    "\"" + dateToken + "\",\"" + amountToken + "\""
  }

  /** The lines that are not empty, in their original order. */
  function NonEmptyLines(lines: seq<string>): (r: seq<string>)
    ensures |r| <= |lines|
    ensures forall i | 0 <= i < |r| :: r[i] != ""
    ensures "" !in lines ==> r == lines
    ensures |lines| == 1 ==> r == if lines[0] == "" then [] else lines
  {
    if lines == [] then []
    else
      var last := lines[|lines| - 1];
      assert lines == lines[..|lines| - 1] + [last];
      NonEmptyLines(lines[..|lines| - 1]) + (if last == "" then [] else [last])
  }

  /**
   * Keeping the non-empty lines of two runs of lines one after the other
   * keeps those of the first run, then those of the second: the order of
   * the lines is kept.
   */
  lemma {:induction false} NonEmptyLinesConcat(a: seq<string>, b: seq<string>)
    ensures NonEmptyLines(a + b) == NonEmptyLines(a) + NonEmptyLines(b)
  {
    if b == [] {
      assert a + b == a;
    } else {
      var b', last := b[..|b| - 1], b[|b| - 1];
      NonEmptyLinesConcat(a, b');
      assert b == b' + [last];
      assert a + b == (a + b') + [last];
      NonEmptyLinesSnoc(a + b', last);
      NonEmptyLinesSnoc(b', last);
      ConcatAssoc(NonEmptyLines(a), NonEmptyLines(b'), if last == "" then [] else [last]);
    }
  }

  /**
   * Every non-empty line is kept as many times as it occurs, and every empty
   * line is dropped.
   */
  lemma {:induction false} NonEmptyLinesCount(lines: seq<string>)
    ensures multiset(NonEmptyLines(lines)) == multiset(lines)["" := 0]
  {
    if lines != [] {
      var init, last := lines[..|lines| - 1], lines[|lines| - 1];
      NonEmptyLinesCount(init);
      assert lines == init + [last];
      NonEmptyLinesSnoc(init, last);
    }
  }

  /** The kept lines are exactly the lines that are not empty. */
  lemma {:induction false} NonEmptyLinesMembers(lines: seq<string>)
    ensures forall x :: x in NonEmptyLines(lines) <==> x in lines && x != ""
  {
    NonEmptyLinesCount(lines);
    var r := NonEmptyLines(lines);
    forall x ensures x in r <==> x in lines && x != "" {
      assert x in r <==> multiset(r)[x] > 0;
      assert x in lines <==> multiset(lines)[x] > 0;
    }
  }

  /** One more line adds itself, unless it is empty. */
  lemma NonEmptyLinesSnoc(lines: seq<string>, line: string)
    ensures NonEmptyLines(lines + [line]) == NonEmptyLines(lines) + if line == "" then [] else [line]
  {
    var all := lines + [line];
    assert all[..|all| - 1] == lines && all[|all| - 1] == line;
  }

  const BalanceHeader := "\"Date\", \"Amount\", \"Account Name\""

  /** `"${date}","${value.toFixed(2)}","${account}"`. */
  function BalanceLine(host: Host, r: ValueRecord): string {
    "\"" + FormatDate(r.date) + "\",\"" + host.toFixed2(r.value) + "\",\"" + r.account + "\""
  }

  /** One balance line per record, in record order. */
  function BalanceLines(host: Host, records: seq<ValueRecord>): (lines: seq<string>)
    ensures |lines| == |records|
  {
    Map((r: ValueRecord) => BalanceLine(host, r), records)
  }

  /** The `i`-th balance line renders the `i`-th record. */
  lemma {:induction false} BalanceLinesAt(host: Host, records: seq<ValueRecord>)
    ensures forall i | 0 <= i < |records| :: BalanceLines(host, records)[i] == BalanceLine(host, records[i])
  {
    MapAt((r: ValueRecord) => BalanceLine(host, r), records);
  }

  /**
   * The balance CSV: the fixed header, then the balance lines, joined by
   * newlines. It starts with the header, and is the header alone for no records.
   */
  function BalanceCsv(host: Host, records: seq<ValueRecord>): (csv: string)
    ensures |csv| >= |BalanceHeader| && csv[..|BalanceHeader|] == BalanceHeader
    ensures records == [] ==> csv == BalanceHeader
  {
    JoinHead(BalanceHeader, BalanceLines(host, records), '\n');
    Join([BalanceHeader] + BalanceLines(host, records), '\n')
  }

  /** Neither the account name nor the rendered amount holds `c`. */
  predicate FreeOf(host: Host, records: seq<ValueRecord>, c: char) {
    forall i | 0 <= i < |records| :: c !in records[i].account && c !in host.toFixed2(records[i].value)
  }

  /**
   * When no account name or amount holds a newline, the balance CSV splits
   * back into the header and exactly one line per record, in order.
   */
  lemma {:induction false} BalanceCsvLines(host: Host, records: seq<ValueRecord>)
    requires FreeOf(host, records, '\n')
    ensures var lines := Split(BalanceCsv(host, records), '\n');
      && |lines| == |records| + 1
      && lines[0] == BalanceHeader
      && forall i | 0 <= i < |records| :: lines[i + 1] == BalanceLine(host, records[i])
  {
    var body := BalanceLines(host, records);
    BalanceLinesAt(host, records);
    forall i | 0 <= i < |body| ensures '\n' !in body[i] {
      BalanceLineOneLine(host, records[i]);
    }
    assert NoneHolds(body, '\n');
    SplitLines(BalanceHeader, body);
  }

  lemma {:induction false} BalanceLineOneLine(host: Host, r: ValueRecord)
    requires '\n' !in r.account && '\n' !in host.toFixed2(r.value)
    ensures '\n' !in BalanceLine(host, r)
  {
    FormatDateChars(r.date);
  }

  /**
   * When neither the account name nor the rendered amount holds a comma, a
   * balance line splits into three quoted fields: date, amount, account.
   */
  lemma {:induction false} BalanceLineFields(host: Host, r: ValueRecord)
    requires ',' !in r.account && ',' !in host.toFixed2(r.value)
    ensures Split(BalanceLine(host, r), ',') ==
      ["\"" + FormatDate(r.date) + "\"", "\"" + host.toFixed2(r.value) + "\"", "\"" + r.account + "\""]
  {
    var f0, f1, f2 := "\"" + FormatDate(r.date) + "\"", "\"" + host.toFixed2(r.value) + "\"", "\"" + r.account + "\"";
    FormatDateChars(r.date);
    assert "\",\"" == "\"" + [','] + "\"";
    QuotedThree("\"", ',', FormatDate(r.date), host.toFixed2(r.value), r.account);
    SplitThree(f0, f1, f2, ',');
  }
}
