# Mint to Monarch, modelled in Dafny

The converter reads the account-balance history that Mint exports for a
single account and writes it out in one of two forms that Monarch imports.
Each Mint line holds one quoted date and one quoted dollar amount, under a
`"DATES","Assets"` or `"DATES","Debts"` header.

- The first output is an account-balance CSV: the same balances, one line each.
- The second is a transaction CSV. It holds one "Balance Adjustments"
  transaction per change of balance, counted from a synthetic zero opening
  balance.

The repository keeps two versions of the conversion:

- the current one in `src/mint-monarch.ts`;
- an older one in `packages/common/mint-monarch.ts`. It reads only `Assets`
  exports and writes only the balance CSV.

The project has four modules:

- `Text`: the JavaScript string built-ins the converter relies on, written on
  `seq<char>`. These are `indexOf`, `split`, `join`, `slice`, `replaceAll`,
  `replace` with a one-character pattern, and the decimal rendering of an
  integer in a template literal. A generic `Map` helper states what the
  emitters' `for…of`/`push` loops build. Each built-in comes with the properties
  the converter needs: where a split round-trips, what a removal keeps, and
  that a rendered number reads back.
- `Records`: what both versions share. This is the value record, the error
  kinds, the unpadded `year-month-day` date rendering and the
  account-balance CSV.
- `MintMonarch`: the current converter. It holds `parseMintCsv`,
  `valueRecordsToMonarchAccountBalanceCsv`, `valueRecordsToMonarchTrasactionCsv`,
  `formatDate` and `valueRecordToTransaction`.
- `LegacyMintMonarch`: the older `parseMintCsv` and `valueRecordsToMonarchCsv`.

Three host built-ins are passed in as fields of a `Host` value and are not
modelled: `Number.parseFloat`, `new Date(text)` and `toFixed(2)`. Every
property proved holds for every choice of them. Amounts are exact reals.

The source's loops are methods, each proved against a function that
specifies it:

- the parse loop pushes one record per non-empty line;
- the balance loop pushes one line per record;
- the transaction loop walks adjacent pairs and skips a zero amount.

The caller's record array is a class. This is because the transaction
emitter `unshift`s the opening record into it in place, and the caller sees
that change.

## Model

| member | source | states |
|---|---|---|
| `MintMonarch.HeaderOk` | src/mint-monarch.ts:27-34 | The header test: the first line splits on commas into two fields, `"DATES"` and then `"Assets"` or `"Debts"`. `MintMonarch.HeaderOkExactly` states which lines pass. |
| `MintMonarch.IsDebtHeader` | src/mint-monarch.ts:36 | The debt flag: the second header field is `"Debts"`. `MintMonarch.HeaderOkExactly` states that a passing header is flagged exactly when it is the debts header. |
| `MintMonarch.HeaderOkExactly` | src/mint-monarch.ts:27-36 | The header test passes exactly for `"DATES","Assets"` and `"DATES","Debts"`. On a passing header, the debt flag is set exactly for the `Debts` one. |
| `MintMonarch.AcceptedHeaderIsMint` | src/mint-monarch.ts:29-31 | Any header line that passes the test is one of the two Mint header lines. A line flagged as debt ends in `"Debts"`. |
| `MintMonarch.AssetsHeaderAccepted` | src/mint-monarch.ts:29-31 | The assets header passes and is not flagged as debt. |
| `MintMonarch.DebtsHeaderAccepted` | src/mint-monarch.ts:29-36 | The debts header passes and is flagged as debt. |
| `MintMonarch.EmptyExportFailsHeader` | src/mint-monarch.ts:21-34 | An empty export still splits into one empty line. So the length-zero guard never fires, and the empty export fails the header test. |
| `MintMonarch.DateText` | src/mint-monarch.ts:45 | The date text always starts with `1 `, which puts day one in front. `MintMonarch.MintLineTokens` gives the rest on a well-formed line. |
| `MintMonarch.AmountText` | src/mint-monarch.ts:46 | The amount text holds neither `,` nor `$`. |
| `MintMonarch.MintLineTokens` | src/mint-monarch.ts:45-46 | On a data line `"<date>","<amount>"` whose date has no comma, the date text is `1 <date>`. The amount text is the amount with every `,` and then every `$` removed. |
| `MintMonarch.ParseLine` | src/mint-monarch.ts:45-55 | The record of one data line: the account asked for, the host date of the date text, and the host number of the amount text, negated for a debt. `MintMonarch.DebtsNegate` and `MintMonarch.ParsedRecordsPerLine` carry its properties. |
| `MintMonarch.ParseRecord` | src/mint-monarch.ts:45-55 | The record built from one line carries the account name, the date read from the date text and the amount read from the amount text. A debt's amount is negated. |
| `MintMonarch.ParseDataLines` | src/mint-monarch.ts:38-57 | The loop returns the records of the data lines. Empty lines are skipped, and the other lines are parsed in order. |
| `MintMonarch.ParsedRecords` | src/mint-monarch.ts:38-57 | The records the parse loop builds from the data lines: at most one per line, one for each non-empty line in line order, negated under `Debts`. `MintMonarch.ParsedRecordsPerLine` and `MintMonarch.DebtsNegate` carry its properties. |
| `MintMonarch.ParseMintCsv` | src/mint-monarch.ts:20-59 | The parse fails with the format error and its message exactly when the first line fails the header test. Otherwise it returns the records of the remaining lines, negated under `Debts`. |
| `MintMonarch.ParsedRecordsPerLine` | src/mint-monarch.ts:41-57 | There is exactly one record per non-empty data line. The `i`-th record is parsed from the `i`-th non-empty line, and every record carries the account name asked for. |
| `MintMonarch.DebtsNegate` | src/mint-monarch.ts:53-55 | The same lines under `Debts` give as many records as under `Assets`. The dates are the same and every value is negated. |
| `MintMonarch.ValueRecordsToMonarchAccountBalanceCsv` | src/mint-monarch.ts:62-72 | The output is the balance CSV of the records: the fixed header, then one line per record, joined by newlines. |
| `MintMonarch.ValueRecordToTransaction` | src/mint-monarch.ts:110-121 | The adjustment takes the earlier balance to the later one. It carries the later record's date and account. Its amount is zero exactly when the two balances are equal. |
| `MintMonarch.OpeningBalance` | src/mint-monarch.ts:84-88 | The synthetic first record has value zero and the first record's account and date. |
| `MintMonarch.ChangeIndices` | src/mint-monarch.ts:90-101 | There are at most `n - 1` change positions, each the start of an adjacent pair. |
| `MintMonarch.ChangeIndicesExact` | src/mint-monarch.ts:90-101 | The change positions are strictly increasing. A position is among them exactly when its pair changes the balance. |
| `MintMonarch.Transactions` | src/mint-monarch.ts:90-101 | The transactions of the pairwise scan: for each adjacent pair in order, the adjustment from the earlier record to the later one, skipping a zero amount. `MintMonarch.TransactionsBound`, `MintMonarch.TransactionsAtChanges` and `MintMonarch.TransactionsTelescope` carry its properties. |
| `MintMonarch.TransactionsBound` | src/mint-monarch.ts:90-101 | There is at most one transaction per adjacent pair, so at most `n - 1` for `n` records. None has a zero amount. |
| `MintMonarch.TransactionsAtChanges` | src/mint-monarch.ts:90-101 | The `k`-th transaction is the adjustment of the `k`-th pair that changes the balance. There is one per such pair, in pair order, and none for an unchanged pair. |
| `MintMonarch.TransactionsTelescope` | src/mint-monarch.ts:90-101 | The amounts of the transactions add up to the last balance minus the first. |
| `MintMonarch.TransactionsConserveBalance` | src/mint-monarch.ts:83-101 | Counted from the synthetic zero opening balance, the amounts add up to the last observed balance. |
| `MintMonarch.ConstantBalanceTransactions` | src/mint-monarch.ts:84-96 | A history whose balance never changes yields no pairwise adjustment. After the opening zero it yields exactly one adjustment, unless the balance is zero. |
| `MintMonarch.TransactionHeaderColumns` | src/mint-monarch.ts:77 | The transaction header splits on commas into its eight column names. |
| `MintMonarch.TransactionHeaderLiteral` | src/mint-monarch.ts:77 | The joined column names are the source's header literal: `Date`, `Merchant`, `Category`, `Account`, `Original Statement`, `Notes`, `Amount` and `Tags`, separated by commas. |
| `MintMonarch.TransactionRow` | src/mint-monarch.ts:98 | One transaction row: the date, the merchant, the category, the account, the original statement, the notes and the two-decimal amount, joined by commas and without the tags. `MintMonarch.TransactionRowSplits` and `MintMonarch.TransactionRowFields` carry its properties. |
| `MintMonarch.TransactionRowSplits` | src/mint-monarch.ts:98 | A row whose values hold no comma splits into its seven values, in column order. |
| `MintMonarch.TransactionRowFields` | src/mint-monarch.ts:97-99 | A row splits into seven fields, one fewer than the header's eight, and the tags are left off. The fields are the later date, the merchant label, the category, the later account, the statement label, empty notes and the rendered amount. |
| `MintMonarch.TransactionCsvLines` | src/mint-monarch.ts:97-102 | When no account or rendered amount holds a newline, the transaction CSV splits into the header and then one line per transaction, in order. |
| `MintMonarch.TransactionCsv` | src/mint-monarch.ts:76-102 | The transaction CSV that the emitter returns. It starts with the eight-column header and is the header alone when no balance changes. `MintMonarch.TransactionCsvLines`, `MintMonarch.TransactionsAtChanges` and `MintMonarch.TransactionsConserveBalance` carry its line structure and its amounts. |
| `MintMonarch.AppendTransactionRows` | src/mint-monarch.ts:90-101 | The pairwise loop appends the rows of the transactions of the records to the lines already there. |
| `MintMonarch.RecordArray.Unshift` | src/mint-monarch.ts:84-88 | The new record becomes element zero, and every earlier element moves up one place. |
| `MintMonarch.ValueRecordsToMonarchTransactionCsv` | src/mint-monarch.ts:74-103 | An empty array gives the empty-input error and is left alone. Otherwise the caller's array gains the zero opening record, and the output is the header plus one row per balance change of the grown array. |
| `Records.FormatDateChars` | src/mint-monarch.ts:106-108 | The date rendering holds only digits and dashes, so it has no comma, quote or newline. |
| `Records.FormatDateRoundTrip` | src/mint-monarch.ts:106-108 | For non-negative fields, the rendering splits on `-` into three unpadded numbers. These read back as the year, the month counted from one, and the day. |
| `Records.BalanceLinesAt` | src/mint-monarch.ts:66-69 | The `i`-th balance line renders the `i`-th record. |
| `Records.BalanceLineFields` | src/mint-monarch.ts:68 | A balance line whose values hold no comma splits into three quoted fields: the date, the amount and the account. |
| `Records.BalanceCsvLines` | src/mint-monarch.ts:62-72 | When no value holds a newline, the balance CSV splits into the header and then one line per record, in order. |
| `Records.BalanceCsv` | src/mint-monarch.ts:62-72 | The balance CSV that both balance emitters return (the older one at packages/common/mint-monarch.ts:45-55). It starts with the fixed header and is the header alone when there are no records. `Records.BalanceCsvLines` and `Records.BalanceLineFields` carry its line and field structure. |
| `Records.NonEmptyLines` | src/mint-monarch.ts:41-43 | The lines the loops do not skip, in their order. None of them is empty, and no line is dropped when none is empty. A single line is kept exactly when it is not empty. Order and multiplicity are stated by the three lemmas below. |
| `Records.NonEmptyLinesConcat` | src/mint-monarch.ts:41-43 | The kept lines of two runs of lines are those of the first run followed by those of the second, so the order of the lines is kept. |
| `Records.NonEmptyLinesCount` | src/mint-monarch.ts:41-43 | Every non-empty line is kept as many times as it occurs, and every empty line is dropped. |
| `Records.NonEmptyLinesMembers` | src/mint-monarch.ts:41-43 | A line is among the kept lines exactly when it is among the input lines and is not empty. |
| `Records.FormatDate` | src/mint-monarch.ts:106-108 | `formatDate`: the year, the month counted from one and the day, unpadded and separated by dashes. `Records.FormatDateChars` and `Records.FormatDateRoundTrip` carry its properties. The older emitter writes the same text inline at packages/common/mint-monarch.ts:50. |
| `Records.BalanceLine` | src/mint-monarch.ts:68 | One balance line: the quoted date, the quoted two-decimal amount and the quoted account. The older emitter writes the same at packages/common/mint-monarch.ts:51. `Records.BalanceLineFields` and `Records.BalanceCsvLines` carry its properties. |
| `Text.IndexOf` | src/mint-monarch.ts:45 | The result is `-1` exactly when the character is absent. Otherwise it is a position of the character with no earlier occurrence. |
| `Text.Join` | src/mint-monarch.ts:71 | `join(sep)`: the parts with one separator between each two, and the empty string for no parts. The three emitters finish with it (src/mint-monarch.ts:71 and :102, packages/common/mint-monarch.ts:54). The ensures of `Text.Split`, `Text.SplitJoin` and `Text.SplitLines` carry its properties. |
| `Text.Split` | src/mint-monarch.ts:21 | There is at least one part, no part holds the separator, and joining the parts gives the input back. |
| `Text.SplitJoin` | src/mint-monarch.ts:27 | Splitting a join of separator-free parts gives those parts back. |
| `Text.SplitLines` | src/mint-monarch.ts:71 | A header and lines with no newline, joined by newlines, split back into exactly those lines. |
| `Text.Slice` | src/mint-monarch.ts:45-46 | A slice takes the characters from the start index up to the end index, where a negative end counts back from the end of the string. It is empty when the start is past the string, and whenever the normalised start is not before the normalised end. |
| `Text.ClampIndex` | src/mint-monarch.ts:46 | The normalised index is within the string. A negative index counts from the end. An index past either end saturates to that end. |
| `Text.RemoveAll` | src/mint-monarch.ts:46 | After `replaceAll(c, '')` no `c` is left. The result is no longer than the input, and is unchanged when there was no `c`. |
| `Text.RemoveAllKeeps` | src/mint-monarch.ts:46 | Every other character present before is present after, and no new one appears. |
| `Text.RemoveFirst` | packages/common/mint-monarch.ts:32 | `replace(c, '')` drops exactly one character when `c` occurs, and changes nothing otherwise. `Text.RemoveFirstAfterPrefix` says which character is dropped. |
| `Text.RemoveFirstAfterPrefix` | packages/common/mint-monarch.ts:32 | After a prefix free of `c`, `replace(c, '')` drops the first `c` and keeps everything after it, including any later `c`. |
| `Text.RemoveAllAfterPrefix` | src/mint-monarch.ts:46 | After a prefix free of `c`, `replaceAll(c, '')` drops that `c` and then removes every `c` from the rest. |
| `Text.IntToDecimal` | src/mint-monarch.ts:107 | `${n}` for an integer: a minus sign before the digits of a negative number, never empty. It renders each of the three date numbers, and the older emitter does the same at packages/common/mint-monarch.ts:50. `Text.IntToDecimalChars`, `Text.DecimalRoundTrip` and `Text.IntToDecimalNegative` carry its properties. |
| `Text.IntToDecimalChars` | src/mint-monarch.ts:107 | The template-literal rendering of an integer is digits, after a leading minus exactly when the integer is negative. |
| `Text.IntToDecimalNegative` | src/mint-monarch.ts:107 | For a negative integer, the rendering is a minus sign followed by digits that read back as the integer's magnitude. |
| `Text.DecimalRoundTrip` | src/mint-monarch.ts:107 | The decimal rendering of a natural number reads back as that number. |
| `LegacyMintMonarch.HeaderOk` | packages/common/mint-monarch.ts:15-22 | The older header test: the first line splits on commas into exactly `"DATES"` and `"Assets"`. `LegacyMintMonarch.HeaderOkExactly` states which lines pass. |
| `LegacyMintMonarch.AcceptedHeaderIsAssets` | packages/common/mint-monarch.ts:15-22 | Any header the older test accepts is the assets header. |
| `LegacyMintMonarch.HeaderOkExactly` | packages/common/mint-monarch.ts:15-22 | The older header test accepts exactly `"DATES","Assets"`. |
| `LegacyMintMonarch.DebtsAndEmptyRefused` | packages/common/mint-monarch.ts:9-22 | A debts export is refused. An empty export splits into one empty line and is refused as well. |
| `LegacyMintMonarch.DateText` | packages/common/mint-monarch.ts:31 | The older date text: the characters from the second one up to the one before the first comma, with no day in front. `LegacyMintMonarch.MintLineTokens` gives its value on a well-formed line. |
| `LegacyMintMonarch.AmountText` | packages/common/mint-monarch.ts:32 | The older amount text: from three characters past the first comma up to the last character, with only the first `,` removed. `LegacyMintMonarch.MintLineTokens` and `LegacyMintMonarch.SecondSeparatorKept` carry its properties. |
| `LegacyMintMonarch.ParseLine` | packages/common/mint-monarch.ts:34-38 | The record of one data line: the account asked for, the host date of the date text and the host number of the amount text, never negated. `LegacyMintMonarch.ParsedRecordsPerLine` carries its properties. |
| `LegacyMintMonarch.MintLineTokens` | packages/common/mint-monarch.ts:31-32 | On `"<date>","$<digits>"`, the date text is the date with no day in front. The amount text is the digits with only their first comma removed. |
| `LegacyMintMonarch.SecondSeparatorKept` | packages/common/mint-monarch.ts:32 | An amount `$a,b,c` gives the amount text `ab,c`, which still holds a comma. |
| `LegacyMintMonarch.AmountKeepsSecondSeparator` | packages/common/mint-monarch.ts:32 | `$1,234,567.00` gives the amount text `1234,567.00`. |
| `LegacyMintMonarch.CurrentAmountDropsEverySeparator` | src/mint-monarch.ts:46 | In the current converter, `$a,b,c` gives the amount text `abc`. |
| `LegacyMintMonarch.ParseDataLines` | packages/common/mint-monarch.ts:24-40 | The older loop returns the records of the data lines. Empty lines are skipped, and values are never negated. |
| `LegacyMintMonarch.ParsedRecords` | packages/common/mint-monarch.ts:24-40 | The records the older parse loop builds: at most one per line, one for each non-empty line in line order, never negated. `LegacyMintMonarch.ParsedRecordsPerLine` carries its properties. |
| `LegacyMintMonarch.ParseMintCsv` | packages/common/mint-monarch.ts:8-43 | The older parse fails with its own message exactly when the first line is not the assets header. Otherwise it returns the records of the remaining lines. |
| `LegacyMintMonarch.ParsedRecordsPerLine` | packages/common/mint-monarch.ts:27-40 | There is exactly one record per non-empty line, in order, each for the account asked for. |
| `LegacyMintMonarch.ValueRecordsToMonarchCsv` | packages/common/mint-monarch.ts:45-55 | The older emitter writes the same balance CSV as the current one: the header, then one line per record. |

## Left out

- `Number.parseFloat`, `new Date(text)` and `toFixed(2)` are host functions passed in as parameters. So the model does not say which number or date a text denotes, nor how a value is rounded to two decimals.
- IEEE-754 doubles are not modelled. Amounts are exact reals, with no NaN, no infinity and no negative zero. The test `t.amount === 0` becomes "the two balances are equal", which is what it means for finite doubles.
- `Date` is a triple of year, month counted from zero, and day, as reported by the host. Time zones and invalid dates are not modelled.
- The `csvLines.length === 0` guard (src/mint-monarch.ts:23-25 and packages/common/mint-monarch.ts:11-13) is not written as a branch. It can never fire, because a JavaScript split always yields at least one part. `Text.Split` and `MintMonarch.EmptyExportFailsHeader` state this instead.
- Strings are sequences of Unicode characters, and indices count characters. JavaScript's `length`, `indexOf` and `slice` count UTF-16 code units instead. The two differ when a character outside the Basic Multilingual Plane sits at a cut point of `slice(1, …)` or `slice(…, -1)` (src/mint-monarch.ts:45-46, packages/common/mint-monarch.ts:31-32). The model cuts at a character boundary there, where JavaScript would split a surrogate pair.
- The command-line and browser front ends (`cmd/index.ts`, `packages/cmd/index.ts`, `src/App.tsx`) are not part of this model. They only read files, pick a version and write the result.
- The `while` loop of the transaction emitter is a `for` loop over the same pairs, with the same skip. The parse loop is `MintMonarch.ParseDataLines`, and its body for a non-empty line is `MintMonarch.ParseRecord`. The transaction emitter's loop is `MintMonarch.AppendTransactionRows`.
- Exceptions are `Failure` results carrying the error kind and the message. Both errors are instances of JavaScript's plain `Error`, so the kind is only a label.
- `MintMonarch.TransactionRow` renders seven fields and leaves off the tags column, as the source does.
- `LegacyMintMonarch.MintLineTokens` covers data lines whose amount starts with `$`. The `+ 3` offset of the older code assumes that sign is there.
- `MintMonarch.ValueRecordsToMonarchTransactionCsv` builds its header as the join of the eight column names. The source writes the same text as one literal, and `MintMonarch.TransactionHeaderLiteral` proves the two equal.

## Findings

| source | as written | input that shows it | evidently intended | confidence | as-written member | corrected member |
|---|---|---|---|---|---|---|
| packages/common/mint-monarch.ts:32 | `replace(',', '')` removes only the first thousands separator of the amount | a balance of `$1,234,567.00` gives the amount text `1234,567.00`, which still holds a comma, where JavaScript's `parseFloat` stops reading | remove every separator, as `replaceAll(',', '')` does in src/mint-monarch.ts:46 | not executed | `LegacyMintMonarch.AmountKeepsSecondSeparator` | `LegacyMintMonarch.CurrentAmountDropsEverySeparator` |
