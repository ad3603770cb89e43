# Revenue dashboard core, modelled in Dafny

The Streamlit dashboard `app.py` reads monthly revenue reports exported as PDF
and turns them into a table of rows `Ano`, `Mês`, `Faturamento`, `Comandas`
and `Ticket Médio`. It then shows the headline indicators for a year/month
selection, the revenue grouped by (Ano, Mês) and a comparison of two periods.
This project models the pure logic inside that script and proves properties
of it:

- `schema.dfy` (module `Schema`) holds the row and error datatypes, the
  `Option`/`Result` wrappers, the abstract number parsers, and the
  subsequence relation that the line and row filters keep.
- `text.dfy` (module `Text`) models the Python string operations the parser
  is built from:
  - `str.split(sep)` and `str.split()`, where whitespace is Python's own
    `isspace` set;
  - single-character `str.replace`;
  - the digit test.
- `extract.dfy` (module `Extract`) models `extrair_dados_pdf` from the
  concatenated page text onward:
  - the text is split into lines;
  - a line is kept when it holds a `/`, a digit and at least four tokens;
  - the revenue and ticket strings are cleaned, and the count token is left as it stands;
  - the date token is unpacked into `Ano` and `Mês`;
  - the three numbers are parsed.
- `batch.dfy` (module `Batch`) models the upload loop and `pd.concat`. The
  files are extracted in upload order, the first file that raises aborts
  the upload, and the per-file tables are concatenated.
- `indicators.dfy` (module `Indicators`) covers:
  - the four-way indicator filter with `"Todos"` as the wildcard;
  - the revenue and transaction-count sums;
  - the `groupby(["Ano", "Mês"])` revenue sum;
  - the two-period comparison, whose percentage is forced to 0 when the
    first period's revenue is 0.

Python's `float` and `int` are the two partial functions of a `Parsers`
value, and `None` stands for the `ValueError` the parser raises. `float`
takes the cleaned revenue and ticket tokens. `int` takes the count token as
it stands, with no `.` removed, so a count written with a thousands
separator such as `1.234` raises and aborts the upload. The code does not
strip thousands separators from the count, and the model follows the code.

The date token is unpacked as the code is written: `Ano` is the text before
the `/` and `Mês` the text after it. On a report whose dates read `MM/YYYY`,
this puts the month under `Ano` (`Extract.AnoIsTextBeforeSlash`).

Lines that do not qualify are skipped. A line that qualifies but whose date
token lacks exactly one `/`, or whose numbers do not parse, raises an
exception. That exception ends the extraction of the file. The upload loop
has no handler either, so the whole upload stops with that error. The
model returns the error of the first such line, and of the first such file.
It does not skip the line.

## Model

| member | source | states |
|---|---|---|
| Text.Split | app.py:32 | `text.split("\n")`: one piece more than there are separators, none holding the separator |
| Text.JoinSplit | app.py:32 | joining the split pieces with the separator gives back the original text |
| Text.SplitJoin | app.py:32 | splitting a join of separator-free pieces gives back the pieces |
| Text.SplitWithout | app.py:43 | a token without `/` splits into itself alone |
| Text.SplitAfter | app.py:43 | for `p/rest` with no `/` in `p`, the first piece is `p` and the rest are the pieces of `rest` |
| Text.LeadingWord | app.py:37 | the first token is a whitespace-free prefix that stops at whitespace |
| Text.Tokens | app.py:37 | `line.split()`: every token is non-empty and free of whitespace |
| Text.TokensKeepContent | app.py:37 | the tokens together hold exactly the line's non-whitespace characters, in order |
| Text.TokensConcat | app.py:37 | whitespace between two strings separates their tokens |
| Text.TokensJoin | app.py:37 | `split()` undoes `" ".join` on non-empty, whitespace-free words |
| Text.RemoveChar | app.py:40 | `replace(".", "")` removes every `.` and shortens the string by their number |
| Text.RemoveCharCount | app.py:40 | removing one character keeps the count of every other character |
| Text.ReplaceChar | app.py:42 | `replace(",", ".")` keeps the length and changes exactly the commas, position by position |
| Text.ReplaceCharCount | app.py:42 | after replacing, no comma is left and the number of points is the old points plus the old commas |
| Text.RemoveAfterReplace | app.py:40 | once the points are removed, replacing commas by points first is the same as removing both |
| Extract.NormRevenueSpec | app.py:40 | the cleaned revenue token has no `,`, as many `.` as the raw token had `,`, and otherwise the same characters in the same order |
| Extract.NormTicketSpec | app.py:42 | the cleaned ticket token has no `,`, the same length, and every non-comma character (existing points included) in place |
| Extract.NormTicketIdempotent | app.py:42 | cleaning a ticket token twice equals cleaning it once |
| Extract.NormRevenueIdempotentIff | app.py:40 | cleaning a revenue token twice equals cleaning it once exactly when the token holds no comma |
| Extract.ParseLine | app.py:36-38 | a line is skipped exactly when it lacks a `/`, lacks a digit or has fewer than four tokens |
| Extract.ParseLineDate | app.py:43-47 | a qualifying line fails on its date exactly when its first token does not hold exactly one `/`; a produced row's `Ano` + `/` + `Mês` is that token |
| Extract.AnoIsTextBeforeSlash | app.py:43-47 | for a date token `before/after`, `Ano` is `before` and `Mês` is `after` |
| Extract.ParseLineNumbers | app.py:40-50 | a row's numbers are `float` of the cleaned revenue and ticket tokens and `int` of the raw count token; with a well-formed date a row is produced exactly when all three parse |
| Extract.FirstFourTokensDecide | app.py:39-43 | a qualifying line's outcome depends only on its first four tokens |
| Extract.ExtendedLineQualifies | app.py:36-38 | appending words to a qualifying line keeps it qualifying and only adds tokens after the existing ones |
| Extract.ExtraTokensIgnored | app.py:37-42 | tokens after the fourth are ignored: appending words does not change the outcome |
| Extract.Accepted | app.py:35-38 | the accepted lines are the lines in order with some left out, holding every qualifying line as often as the text does and no other line |
| Extract.Kept | app.py:35-38 | the kept lines are the lines in order with some left out, holding every line the parser does not skip as often as the text does and no other line |
| Extract.ExtractLines | app.py:35-53 | success exactly when no line raises; then one row per kept line in line order, each the row of that line; otherwise the error of the first line that raises |
| Extract.KeptAreAccepted | app.py:35-38 | the lines the line parser keeps are exactly the accepted lines |
| Extract.ExtractTextRows | app.py:32-53 | over the text's lines: success exactly when no line raises; then one row per accepted line in order (at most one per line); otherwise the first error |
| Extract.ExtractJoinedLines | app.py:32 | a text assembled from newline-free lines is parsed line by line |
| Batch.Merge | app.py:69 | the merged table's length is the sum of the batch lengths |
| Batch.MergeAppend | app.py:69 | merging distributes over concatenation of batch lists, and so do the row counts |
| Batch.MergeIndex | app.py:69 | row `j` of batch `i` sits after all rows of the earlier batches: file-then-row order |
| Batch.ExtractAll | app.py:63-66 | the loop succeeds exactly when every file extracts, yielding one batch per file in upload order; otherwise the first file's error |
| Batch.ReadUploads | app.py:62-69 | no table exactly when nothing was uploaded; a merged table exactly when files were uploaded and all extract; an abort carries the error of the first file that raises |
| Batch.UploadKeepsOrder | app.py:60-69 | the uploaded table has every file's rows, file after file, with the summed row count |
| Batch.UploadSucceedsIff | app.py:62-66 | uploading PDF texts yields a table exactly when some file was uploaded and no line of any file raises |
| Batch.UploadedPdfRows | app.py:35-69 | in the uploaded table, file `i` contributes one row per accepted line, in line order, right after the earlier files' rows, each the row its line parses to |
| Indicators.Where | app.py:98-102 | a boolean mask keeps a subsequence with each passing row as often as in the table and no other row |
| Indicators.WhereUnique | app.py:98-102 | no other subsequence has those contents: the masked table is determined |
| Indicators.WhereAppend | app.py:98-102 | masking distributes over concatenation |
| Indicators.KpiSelection | app.py:97-104 | the indicator table is a subsequence holding exactly the rows matching the non-`"Todos"` boxes, and is the whole table when both boxes are `"Todos"` |
| Indicators.KpiSelectionUnique | app.py:97-104 | any subsequence with exactly the selected rows is the indicator table |
| Indicators.TotalsAppend | app.py:111-119 | the revenue and transaction-count sums add over a split of the table |
| Indicators.TotalsOfMerge | app.py:111-119 | the sums over a merged upload are the sums of the per-file sums |
| Indicators.WhereTotalsBounded | app.py:111-119 | with non-negative amounts, a masked table's sums lie between 0 and the table's sums |
| Indicators.TotalsNonNegative | app.py:111-119 | with non-negative amounts, both sums are non-negative |
| Indicators.KpiTotalsBounded | app.py:111-119 | with non-negative amounts, the indicator sums lie between 0 and the whole table's sums |
| Indicators.KpiNothingSelected | app.py:111-119 | when no row matches the boxes, the indicator table is empty and both sums are 0 |
| Indicators.PeriodTotalSnoc | app.py:152-153 | adding a row adds its revenue to its own period's total and to no other |
| Indicators.AddToGroups | app.py:130 | accumulating a row adds its period to the groups and its revenue to that period's total only |
| Indicators.AddToGroupsDistinct | app.py:130 | accumulating a row never opens a second group for a period |
| Indicators.AddToGroupsSum | app.py:130 | accumulating a row adds its revenue to the total of all groups |
| Indicators.RowPeriodsSnoc | app.py:130 | the periods of a table with one more row are the old ones plus that row's period |
| Indicators.GroupSums | app.py:130 | one group per period of the table, each holding that period's revenue, and the group totals adding up to the revenue column's total |
| Indicators.LookupFindsGroup | app.py:130 | with distinct periods, each group's total is what is looked up for its period |
| Indicators.GroupTotalsArePeriodTotals | app.py:130 | every group's total is its period's revenue |
| Indicators.PercentChange | app.py:154-155 | 0 when the first revenue is 0; otherwise the difference relative to the first revenue times 100; from a positive base, positive exactly when revenue grew; from a negative base, positive exactly when it fell |
| Indicators.ComparisonOf | app.py:154-155 | the comparison figures keep the two revenues, their difference and the guarded percentage consistent |
| Indicators.Compare | app.py:149-155 | each period's revenue is the sum over the rows of that (Ano, Mês), the difference is the second minus the first, and the percentage is the guarded relative change |
| Indicators.ConsistentPercentage | app.py:154-155 | consistent figures fix the percentage as the difference over the first revenue times 100; from a negative first revenue it is positive exactly when the second revenue is lower |
| Indicators.CompareAgreesWithGroups | app.py:149-153 | each period's revenue in the comparison is its grouped revenue, and the indicator revenue with both boxes set to that period |

## Left out

- Streamlit page setup, widgets, charts, metrics and `st.write` formatting
  (`:,.2f`): user interface only.
- Google Sheets authentication and the `clear`/`update`/`get_all_records`
  calls: network I/O. The model therefore takes the dashboard's table `df`
  as a given sequence of rows, with both period columns as text. The round
  trip through the sheet is not modelled and need not give back the uploaded
  text. `get_all_records` turns numeric-looking cells into numbers, so after
  `astype(str)` an `Ano` of `01` can come back as `1`. Period text with
  leading zeros may therefore not survive the round trip. No lemma relates
  the uploaded table to the table read back. An empty sheet never reaches the
  indicators: `pd.DataFrame([])` has no `Ano` column, so `app.py:86` raises
  and the `except` at `app.py:167` shows a warning instead. The indicator
  lemmas also hold for the empty table, a case the program never reaches.
- PyMuPDF (`fitz.open`, `get_text`): a foreign library. The model starts
  from the concatenated page text.
- Python's `float` and `int` and IEEE rounding: abstract partial parsers.
  `float` sees the cleaned revenue and ticket tokens, `int` the raw count
  token. Amounts are `real`, and their sums are exact.
- The ticket means `df_kpi["Ticket Médio"].mean()` and the grouped mean of
  the ticket column. They are floating-point means that yield NaN on an
  empty selection.
- The `try`/`except` warning path around the dashboard, and the
  `st.info`/`st.exception` messages.
- IsDigit: only the ASCII digits count as digits. Python's `isdigit` also
  accepts other Unicode digits, such as superscripts and other scripts'
  digits.
- GroupSums: the groups are kept in the order their periods first occur.
  pandas sorts the group keys, and that order is not modelled. The contents
  of each group are the same.
