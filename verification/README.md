# Debt-recovery dashboard: data layer model

A Dafny model of the pure data layer under a single-user debt-recovery
dashboard. A recovery officer logs debtor commitments (name, contact,
call transcript, promised date, amount, profile, and one of five outcome
statuses). A transcript can be handed to a remote classifier whose answer
is merged back into the row. A fixed table of nine fiscal years holds
quarterly outstanding dues. The dashboard rolls these up into a grand
total, progress toward a 4 crore target, and counts of rows per status
bucket.

Modules, one per part of the program:

- `Records`: the status enumeration, the commitment row, the yearly row,
  the classifier result and the list of fiscal years (`types.ts`,
  `constants.js`).
- `CommitmentStore`: add, field edit, delete, the "today" view, and the
  merge step of transcript analysis (`components/CommitmentTable.jsx`).
- `AnalysisService`: the control flow of `analyzeTranscript`. The remote
  call is an abstract outcome: it failed, it replied with empty text, or
  its reply parsed to a result (`services/geminiService.js`).
- `YearlyTable`: quarter edits, row and grand totals, and the zero-to-dash
  display rule (`components/YearlyTable.tsx`).
- `Dashboard`: the dashboard's own total, the progress percentage, the
  status buckets and the notation threshold (`components/Dashboard.jsx`).
- `AppState`: the initial ledger and yearly table (`App.jsx`).
- `JsText`, `Seqs`, `Optional`: the JavaScript built-ins the code relies
  on, written out, plus generic sequence operations. The built-ins are
  `trim`, `parseFloat(x) || 0`, integer `toString` and one-character
  `replace`. The sequence operations are filter, count and a left-fold sum.

Values the program takes from its environment are parameters:

- the fresh id drawn by `crypto.randomUUID`;
- today's UTC date as `YYYY-MM-DD`;
- the `API_KEY` setting, `""` when unset;
- how the remote classifier call ended;
- the grouped digits that `Intl.NumberFormat` would print.

Numbers are modelled as exact `real`s.

Behaviour of the code worth knowing:

- The progress percentage is not clamped from below. Quarter inputs accept
  negative numbers, so a negative total shows a negative percentage
  (`Dashboard.ProgressNegative`). Row and grand totals can be negative too.
- A classifier amount of 0 does not overwrite the row's amount, just like
  a missing one.
- The "today" view compares against the UTC date, not the local date.
- The header's replacement for the zero dash is the literal the file holds.
  That is "â‚¹0": the UTF-8 bytes of "₹0" read as Windows-1252 characters.

## Model

| member | source | states |
|---|---|---|
| Records.CommitmentExtensionality | types.ts:11-20 | a commitment is determined by its id, status and six text fields |
| Seqs.Filter | components/CommitmentTable.jsx:36 | `filter` returns a subsequence of its input; every kept element passes; every passing element is kept; its length is the number of passing elements |
| Seqs.CountPartition3 | components/Dashboard.jsx:18-20 | if every element satisfies exactly one of three predicates, the three counts add up to the length |
| Seqs.SumAppend | components/YearlyTable.tsx:34 | the reduce-sum of a concatenation is the sum of the two reduce-sums |
| Seqs.SumPointwise | components/YearlyTable.tsx:34 | two tables that differ in one term have sums that differ by exactly that term's change |
| JsText.TrimStart | components/CommitmentTable.jsx:40 | the result is a suffix; everything dropped is whitespace; the result does not start with whitespace |
| JsText.TrimEnd | components/CommitmentTable.jsx:40 | the result is a prefix; everything dropped is whitespace; the result does not end with whitespace |
| JsText.TrimEmptyIffBlank | components/CommitmentTable.jsx:40 | `transcript.trim()` is empty exactly when the transcript is empty or all whitespace |
| JsText.ParseFloat | components/YearlyTable.tsx:17-20 | `parseFloat` is NaN exactly when, after leading whitespace and an optional sign, the text does not start with a digit or with a point followed by a digit |
| JsText.NumberOrZero | components/YearlyTable.tsx:17-20 | `parseFloat(x) \|\| 0` is 0 for every text that starts no decimal literal; otherwise it is the parsed number |
| JsText.BlankIsZero | components/YearlyTable.tsx:17-20 | empty or all-whitespace text is NaN to `parseFloat` and counts as 0 |
| JsText.IntToText | components/CommitmentTable.jsx:51 | the text of an integer starts with a minus sign exactly when the integer is negative, followed by a non-empty run of digits with no leading zero (just "0" for zero) |
| JsText.NatToText | components/CommitmentTable.jsx:51 | the decimal text of a natural number is non-empty, all digits, has no leading zero (just "0" for zero), and denotes that number |
| JsText.IntToTextRoundTrip | components/CommitmentTable.jsx:51 | `parseFloat(n.toString())` gives back `n` for every integer, negatives included |
| JsText.ReplaceFirst | components/YearlyTable.tsx:46 | `replace` with a one-character string pattern and a replacement without `$` leaves text without that character alone; otherwise it replaces the first occurrence, at an index before which the character does not appear, and keeps everything before and after it |
| AnalysisService.Fallback | services/geminiService.js:60-65 | the fallback is PENDING with null date and null amount, carrying the given reasoning |
| AnalysisService.AnalyzeTranscript | services/geminiService.js:7-67 | without a key: the key-missing fallback. With a key: the parsed reply on success, otherwise the failure fallback. Every path returns a result |
| AnalysisService.FallbacksDiffer | services/geminiService.js:14-64 | the key-missing and call-failed reasoning strings differ, so the two fallbacks differ |
| AnalysisService.UnconfiguredIgnoresInput | services/geminiService.js:8-16 | without a key the result is the same fixed fallback for every transcript and remote outcome |
| AnalysisService.EmptyReplyIsFailure | services/geminiService.js:53-65 | an empty reply text yields the same result as a failed call |
| AnalysisService.NonReplyIsFallback | services/geminiService.js:7-67 | every result that is not the remote reply is one of the two fallbacks |
| CommitmentStore.BlankCommitment | components/CommitmentTable.jsx:18-27 | a new row has the given id, every text field empty and status PENDING |
| CommitmentStore.AddRow | components/CommitmentTable.jsx:17-28 | add yields one more row; the old list is the tail; the head has the fresh id, empty text fields and status PENDING |
| CommitmentStore.AddKeepsIdsUnique | components/CommitmentTable.jsx:17-28 | adding with an id not yet present keeps ids unique |
| CommitmentStore.ApplyEdit | components/CommitmentTable.jsx:32 | the edited row keeps its id, holds the new value in the named field, and is unchanged in every other field |
| CommitmentStore.ChangedOnlyDetermines | components/CommitmentTable.jsx:32 | there is only one row that differs from the original in just the edited field |
| CommitmentStore.UpdateRow | components/CommitmentTable.jsx:31-33 | length, order and ids are preserved; rows with the id change only in the edited field; other rows are unchanged; an absent id leaves the list unchanged |
| CommitmentStore.DeleteRow | components/CommitmentTable.jsx:35-37 | delete keeps a subsequence with no row of that id, keeps every other row, and shrinks by the number of rows with that id |
| CommitmentStore.DeleteAbsent | components/CommitmentTable.jsx:35-37 | deleting an id that is not present is the identity |
| CommitmentStore.DeleteIdempotent | components/CommitmentTable.jsx:35-37 | deleting twice equals deleting once |
| CommitmentStore.UpdateAfterDelete | components/CommitmentTable.jsx:31-37 | an edit for a deleted id changes nothing |
| CommitmentStore.StoreKeepsIdsUnique | components/CommitmentTable.jsx:31-37 | edits and deletions keep ids unique |
| CommitmentStore.FilterKeepsUniqueIds | components/CommitmentTable.jsx:36 | filtering a list with unique ids gives a list with unique ids |
| CommitmentStore.TodayView | components/CommitmentTable.jsx:9-15 | the today view is a subsequence; a row is in it iff its date is non-empty, equals today, and its status is not NO_DUES; its length is the number of such rows, so duplicates are all kept |
| CommitmentStore.TodayViewSkipsUndated | components/CommitmentTable.jsx:11 | a row with an empty date is never in the today view, even for an empty `today` |
| CommitmentStore.MergeResult | components/CommitmentTable.jsx:47-52 | status is always overwritten. The date is replaced only by a non-empty extracted date. The amount is replaced only by a non-null, non-zero amount, written as its decimal text. Id and other fields are kept |
| CommitmentStore.MergedAmountReadsBack | components/CommitmentTable.jsx:51 | an amount written by the merge parses back to the extracted number |
| CommitmentStore.MergeInto | components/CommitmentTable.jsx:45-55 | the merge touches only rows with the target id; it preserves length and ids; it is a no-op when the row was deleted meanwhile |
| CommitmentStore.HandleAnalyze | components/CommitmentTable.jsx:39-57 | a blank transcript is a no-op. Otherwise the classifier result for the transcript is merged into the current rows. Length and ids are kept. A row deleted in flight means no change |
| CommitmentStore.FallbackMergeKeepsDateAndAmount | components/CommitmentTable.jsx:49-51 | merging either fallback sets status PENDING and keeps date and amount |
| CommitmentStore.AddThenType | components/CommitmentTable.jsx:17-33 | adding a row and typing its transcript changes only the new head row |
| CommitmentStore.UnconfiguredAnalyze | components/CommitmentTable.jsx:39-57 | classifying without a key resets only that row's status to PENDING |
| CommitmentStore.UnconfiguredScenario | components/CommitmentTable.jsx:17-57 | add, type a transcript, classify without a key: the row stays PENDING with empty date and amount, and the other rows are untouched |
| YearlyTable.SetQuarter | components/YearlyTable.tsx:12 | setting a quarter changes that quarter only and keeps id and year |
| YearlyTable.EditQuarter | components/YearlyTable.tsx:10-14 | a quarter edit preserves length, order and ids; only the named quarter of the matching row changes; an absent id leaves the list unchanged |
| YearlyTable.RowTotal | components/YearlyTable.tsx:16-22 | a row whose four quarters all start no decimal literal totals 0 |
| YearlyTable.GrandTotal | components/YearlyTable.tsx:33-35 | a table whose every row totals 0 has grand total 0 |
| YearlyTable.RowTotalOfEdit | components/YearlyTable.tsx:16-22 | editing a quarter moves the row total by the change in that quarter's parsed value |
| YearlyTable.BlankRowTotal | components/YearlyTable.tsx:16-22 | a row whose quarters are all empty totals 0 |
| YearlyTable.EmptyTextIsZero | components/YearlyTable.tsx:17 | an empty quarter counts as 0 |
| YearlyTable.WordTextIsZero | components/YearlyTable.tsx:20 | worked example: the quarter text "abc" counts as 0 |
| YearlyTable.RowTotalExample | components/YearlyTable.tsx:16-22 | quarters "1000000", "", "500000", "abc" total 1,500,000 |
| YearlyTable.NegativeQuarterCounts | components/YearlyTable.tsx:16-22 | writing any negative integer `n` into a quarter moves the row total by exactly `n` against the old quarter, and leaves it below the total with that quarter empty: negative text is summed as-is, not clamped |
| YearlyTable.MinusFiveRowTotal | components/YearlyTable.tsx:16-22 | worked example: "-5" in the first quarter of an otherwise empty row totals -5 |
| YearlyTable.GrandTotalAppend | components/YearlyTable.tsx:33-35 | the grand total is 0 for no rows and additive over concatenation |
| YearlyTable.GrandTotalOfEdit | components/YearlyTable.tsx:10-35 | with unique ids, a quarter edit changes the grand total by exactly the change in that quarter's parsed value |
| YearlyTable.GrandTotalOfAbsentEdit | components/YearlyTable.tsx:10-35 | editing an absent year leaves the grand total unchanged |
| YearlyTable.CurrencyText | components/YearlyTable.tsx:26-30 | a currency rendering shows the rupee sign and a minus sign exactly for negative values |
| YearlyTable.FormatCurrency | components/YearlyTable.tsx:24-31 | the result is a dash exactly for 0; a non-zero value carries a minus sign exactly when negative |
| YearlyTable.FooterText | components/YearlyTable.tsx:118-120 | the footer is a dash exactly for a zero total; otherwise it shows the rupee sign and a minus sign exactly when negative |
| YearlyTable.HeaderTextAsWritten | components/YearlyTable.tsx:46 | as written, the header shows the rupee-zero string for a zero total, the plain rupee amount for a positive one, and never a minus sign |
| YearlyTable.ZeroTotalShownTwoWays | components/YearlyTable.tsx:46-119 | a zero grand total shows as the rupee-zero string in the header and as `-` in the footer |
| YearlyTable.HeaderAsWrittenDropsSign | components/YearlyTable.tsx:46 | as written, the header of a negative total loses its minus sign to the zero replacement |
| YearlyTable.HeaderText | components/YearlyTable.tsx:46 | corrected header: rupee-zero for 0, the footer text otherwise, and a minus sign exactly for negative totals |
| YearlyTable.HeaderAgreesWhenNotNegative | components/YearlyTable.tsx:46 | the corrected header equals the header as written for every total that is not negative |
| Dashboard.DashboardTotal | components/Dashboard.jsx:10-14 | the dashboard's quarter-by-quarter total equals the yearly table's row-by-row grand total for the same data |
| Dashboard.Progress | components/Dashboard.jsx:16 | progress is at most 100. It is 100 when the total reaches 40,000,000, otherwise total·100/40,000,000. It is non-negative for a non-negative total |
| Dashboard.ProgressMonotone | components/Dashboard.jsx:16 | progress is monotone non-decreasing in the total |
| Dashboard.ProgressNegative | components/Dashboard.jsx:16 | a negative total gives a negative percentage: there is no lower clamp |
| Dashboard.ProgressClampsExample | components/Dashboard.jsx:7-16 | a total of 45,000,000 shows 100, not 112.5 |
| Dashboard.OverTargetTableShowsFull | components/Dashboard.jsx:10-16 | for any yearly table, the dashboard shows its grand total, and progress is 100% whenever that total reaches the 40,000,000 target |
| Dashboard.ActiveCount | components/Dashboard.jsx:18 | the active count is the number of rows that are PENDING or PARTIAL_PAYMENT |
| Dashboard.CriticalCount | components/Dashboard.jsx:19 | the critical count is the number of rows that are FAKE_COMMITMENT or DISHONORED |
| Dashboard.CollectedCount | components/Dashboard.jsx:20 | the collected count is the number of rows that are NO_DUES |
| Dashboard.CountsOfOneRow | components/Dashboard.jsx:18-20 | a single row counts 1 in the bucket its status belongs to and 0 in the other two |
| Dashboard.CountsOfAppend | components/Dashboard.jsx:18-20 | appending a row adds its own counts to each bucket |
| Dashboard.CountsCoverAllRows | components/Dashboard.jsx:18-20 | active + critical + collected equals the number of rows |
| Dashboard.TextEditKeepsCounts | components/Dashboard.jsx:18-20 | editing a non-status field leaves all three counts unchanged |
| Dashboard.NotationFor | components/Dashboard.jsx:27 | compact notation is chosen exactly when the value exceeds 100,000 |
| Dashboard.CompactIsUpwardClosed | components/Dashboard.jsx:27 | every value above a compact one is also compact |
| AppState.InitialRows | App.jsx:11 | the ledger starts empty, with unique ids and an empty today view for every date |
| AppState.BlankYear | App.jsx:13-17 | an initial yearly row has id and year equal to the fiscal year and all quarters empty |
| AppState.InitialYearlyData | App.jsx:12-18 | the initial table has one blank row per fiscal year, in the same order |
| AppState.InitialYearsDistinct | constants.js:9-12 | the fiscal years are pairwise distinct |
| AppState.InitialGrandTotalZero | App.jsx:16 | the initial grand total is 0 |
| AppState.InitialStateShape | App.jsx:11-18 | the ledger starts empty. The yearly table has 9 rows keyed by their year, with distinct ids and a zero grand total |

## Left out

- Rendering: JSX, CSS, the status colour mapping `getStatusStyles`, the sidebar and the status legend are presentation only.
- `readOnly` only hides buttons and disables inputs. It is not a property of the data.
- The in-flight `analyzingId` slot and the asynchrony of the classifier call are not modelled. The merge is applied to whatever rows exist when the answer arrives, which covers a row deleted in flight.
- The remote classifier call, its prompt and the `JSON.parse` of its reply are not modelled. The reply is taken as a well-formed result and is not validated.
- Console logging on the fallback paths is not modelled.
- Floating point is not modelled: numbers are exact reals. The dashboard adds quarters one at a time and the yearly table adds row totals. In floating point these two orders can round differently; in the model they are equal.
- `Intl.NumberFormat` grouping, rounding and compact output, and `toFixed(1)`, are library behaviour. The model keeps only the sign, the rupee sign, the zero-to-dash rule and the 100,000 notation threshold. The grouped digits are a parameter.
- JsText.ParseFloat: the spellings "Infinity", "+Infinity" and "-Infinity", which JavaScript reads as infinities, read as NaN here, so they count as 0. Text whose exponent overflows a double (`"1e400"`) reads as its exact value here, where JavaScript gives Infinity. Number inputs never produce such text.
- JsText.ReplaceFirst: the `$&`, `$$`, `` $` `` and `$'` substitution patterns of a string replacement are not modelled, so the replacement may not contain `$`. The one call, at components/YearlyTable.tsx:46, passes a replacement without `$`.
- MergeResult: extracted amounts are integers. JavaScript prints fractional numbers and values of 10^21 or more in forms the integer text here does not cover.
- `crypto.randomUUID` and `new Date()` are parameters: the fresh id and today's UTC date.
- `updateRow` and `handleYearChange` accept any property name. The UI only ever passes the six text fields, the status, or `q1`..`q4`, and only those are modelled.

## Findings

| source | as written | input that shows it | evidently intended | confidence | as-written member | corrected member |
|---|---|---|---|---|---|---|
| components/YearlyTable.tsx:46 | `formatCurrency(total).replace('-', …)` replaces the first `-` of whatever the formatter printed | a negative grand total, e.g. a quarter of "-5": `en-IN` prints "-₹5", and the header then shows the zero string followed by "₹5", with no minus sign | only the zero placeholder dash is replaced, so a negative total keeps its sign | medium, not executed | YearlyTable.HeaderAsWrittenDropsSign | YearlyTable.HeaderText |
