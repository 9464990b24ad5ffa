# Vulnerability prioritiser: a Dafny model of its core

The program reads a CSV export of security findings. It turns each usable row
into a `Vulnerability` record and gives every record a priority score and a
recommended action timeframe. The score is scaled so that it runs from 0 to 10
for a CVSS in [0, 10] under the default weights (`Scoring.DefaultScoreInRange`).
The code neither checks the CVSS range nor clamps the score, so a larger CVSS
or a heavier weight scores above 10 (`Scoring.LargeCVSSScoresAboveTen`,
`Scoring.ScoreAboveTenWithHeavierWeight`). It then ranks the records by
descending score. This project models that core in Dafny and proves its
properties:

- the M/D/YY date normaliser;
- the header map and the row filter of the CSV reader;
- the scoring and timeframe functions with their default weights;
- the worker pool that scores every record;
- the descending sort in `main`.

Modules, one file each:

- `Results` (`results.dfy`): `Option` and `Result`.
- `Text` (`text.dfy`): the Go library behaviour the core relies on:
  - `strings.TrimSpace` and `strings.Split`, with a `Join` that the program
    does not call: it is there as the inverse of `Split`, to state what
    `Split` computes;
  - `strconv.Atoi` with 64-bit range and wrap-around addition;
  - `strconv.ParseFloat` on decimal input;
  - fmt's `%0Nd`.
- `Calendar` (`calendar.dfy`): `time.Parse` with layout `2006-01-02`, leap
  years, and day numbers counted from 0000-01-01.
- `DateNormalizer` (`date_normalizer.dfy`): `convertMDYToISO`, followed by the
  calendar check the reader applies to its output.
- `Vulnerabilities` (`vulnerability.dfy`): the record type. Both dates are
  valid calendar dates, because a parsed `time.Time` always is one.
- `RecordBuilder` (`record_builder.dfy`): `readCSV` on the rows the CSV reader
  produced. It covers:
  - the header map and the row loop as methods;
  - the outcome of each row as functions;
  - the skip log as a returned sequence of reasons.
- `Scoring` (`scoring.dfy`): `calculatePriorityScore` and
  `recommendedActionTimeframe`, in exact real arithmetic. The current instant
  is a parameter.
- `Permutations` (`permutations.dfy`): element-wise maps and how they act on
  multisets.
- `Dispatcher` (`dispatcher.dfy`): `processVulnerabilities`. The model
  collects the results in any order, whichever worker finishes first.
- `Ranker` (`ranker.dfy`): the sort by descending score, as an in-place sort
  on an array.
- `Pipeline` (`pipeline.dfy`): `main` from the parsed input to the ranked
  records.

Three behaviours of the code are worth knowing before reading the model:

- A column that the header does not name is read from column 0, because a Go
  map yields 0 for a missing key (`RecordBuilder.MissingColumnReadsFirst`,
  `RecordBuilder.FieldReadsFirstColumn`). A header that names a column twice
  is read from its last occurrence.
- `sort.Slice` promises no order among equal scores, so the model promises
  only the order by score and the same records
  (`Ranker.SortedScoresAgree` shows the scores at every position are
  determined all the same).
- The year part may be any integer Atoi accepts, not just two digits. A date
  field can also fail after conversion, when `time.Parse` rejects a date such
  as 2/30/25 or a year beyond 9999. The reader logs and skips such a row like
  any other.

## Model

| member | source | states |
|---|---|---|
| Text.TrimSpace | main.go:48 | the result has no space at either end and is no longer than the input |
| Text.TrimSpaceSlice | main.go:48 | the input is the trimmed text with a run of spaces before it and after it |
| Text.TrimSpaceOfPadded | main.go:48 | trimming text that has no surrounding spaces but is padded with spaces gives back exactly that text |
| Text.TrimSpaceOfTrimmed | main.go:90 | text with no space at either end is left unchanged |
| Text.TrimLeftFacts | main.go:48 | the leading trim removes a run of spaces and stops at a non-space |
| Text.TrimRightFacts | main.go:48 | the trailing trim removes a run of spaces and stops at a non-space |
| Text.Split | main.go:48 | strings.Split always returns at least one piece |
| Text.SplitPieces | main.go:48 | the pieces hold no separator, and joining them with the separator gives back the input |
| Text.SplitJoin | main.go:48 | splitting a join of separator-free pieces gives back the pieces |
| Text.SplitWithoutSeparator | main.go:48-50 | text without a separator splits into itself alone, so it fails the three-part test |
| Text.Atoi | main.go:52-62 | an accepted integer lies in the 64-bit range |
| Text.AtoiShape | main.go:52-62 | Atoi accepts only an optional sign followed by one or more digits; the sign fixes the sign of the value |
| Text.AtoiFormatPadded | main.go:52-62 | Atoi reads back every 64-bit integer that %0Nd writes |
| Text.AtoiPadDigits | main.go:52-62 | Atoi reads back every zero-padded non-negative 64-bit integer |
| Text.AddInt64 | main.go:65 | the sum stays in the 64-bit range, equals the exact sum when that fits, and otherwise differs from it by a multiple of 2^64 |
| Text.FormatPadded | main.go:66 | fmt's %0Nd; Text.FormatPaddedWidth states its width and value and Text.AtoiFormatPadded shows Atoi reads it back |
| Text.PadDigits | main.go:66 | the zero-padded rendering denotes n, has at least the width, and has exactly the width iff n fits in it |
| Text.PadDigitsOfDigits | main.go:66 | every digit string is the zero-padded rendering of its own value |
| Text.FormatPaddedWidth | main.go:66 | %0Nd writes at least N characters, and exactly N digits iff 0 <= n < 10^N |
| Text.ParseFloat | main.go:109 | an accepted CVSS text contains a digit |
| Text.ParseFloatInteger | main.go:109 | ParseFloat reads a digit string as its integer |
| Text.ParseFloatPointed | main.go:109 | ParseFloat reads digits, a point and digits as the decimal number they denote |
| Calendar.ValidDate | main.go:120 | the dates time.Parse accepts for layout 2006-01-02: year 0 to 9999, month 1 to 12, day within the month; its meaning is stated by Calendar.ParseFormatISO and Calendar.DaysIn |
| Calendar.FormatISO | main.go:66 | the %04d-%02d-%02d text of a date; Calendar.ParseFormatISO and Calendar.FormatParsedISO make it the inverse of time.Parse on valid dates |
| Calendar.DayNumber | main.go:171 | the number of days from 0000-01-01 to a date, so that a due date minus the current instant is the days left; Calendar.DayNumberNextDay and Calendar.DayNumberOrder state what it means |
| Calendar.DaysIn | main.go:120 | a month has 28 to 31 days, and 29 exactly for February of a leap year |
| Calendar.ParseISODate | main.go:120 | time.Parse accepts only ten characters with '-' at positions 4 and 7 |
| Calendar.ParseFormatISO | main.go:120 | parsing the formatted text of (year, month, day) gives that date exactly when it is a valid date |
| Calendar.FormatParsedISO | main.go:120 | time.Parse accepts only the canonical text of the date it returns |
| Calendar.DayNumberNextDay | main.go:171 | consecutive calendar days have consecutive day numbers |
| Calendar.DayNumberOrder | main.go:171 | day numbers order dates chronologically, in both directions |
| DateNormalizer.ConvertMDYToISO | main.go:47-67 | the result is InvalidDateFormat iff the trimmed text is not three '/'-separated parts; it succeeds iff all three parts are integers; output has at least ten characters |
| DateNormalizer.ConvertParts | main.go:49-66 | success iff three parts that all parse as integers; the format error iff the count is not three |
| DateNormalizer.ConvertWellFormed | main.go:47-67 | for a field reading as M/D/Y, the output is the %04d-%02d-%02d text of (Y + 2000 with 64-bit wrap-around, M, D) |
| DateNormalizer.ShiftedYear | main.go:65 | the 64-bit wrap-around of Y + 2000 never turns an invalid year into a valid one, and is exact on valid dates |
| DateNormalizer.NormalizeDateWellFormed | main.go:115-124 | a field reading as M/D/Y gives the date (Y + 2000, M, D) when that date is valid, and a calendar rejection otherwise |
| DateNormalizer.NormalizeDate | main.go:115-135 | one date column: convertMDYToISO, then time.Parse on its output; its meaning is stated by DateNormalizer.NormalizeDateWellFormed, DateNormalizer.NormalizeDateMalformed and DateNormalizer.NormalizeMDY |
| DateNormalizer.NormalizeDateMalformed | main.go:115-119 | a field that is not three '/'-separated integers fails at the conversion step |
| DateNormalizer.MDYParts | main.go:47-67 | M/D/YY text reads back as exactly its three numbers |
| DateNormalizer.NormalizeMDY | main.go:47-67 | the year is always 2000 + YY: M/D/YY gives the date (2000 + YY, M, D) whenever that date is valid |
| DateNormalizer.ConvertMDYToISOExamples | main_test.go:12-31 | "9/15/69", "7/4/24" and "12/31/99" convert to "2069-09-15", "2024-07-04" and "2099-12-31" |
| RecordBuilder.HeaderIndex | main.go:88-92 | headerMap after the header row; every index lies inside the header; RecordBuilder.LastIndexLast, RecordBuilder.PresentColumnReadsLast and RecordBuilder.MissingColumnReadsFirst state which index each name gets |
| RecordBuilder.Lookup | main.go:109 | headerMap[name], 0 for a name the map lacks; its meaning is stated by RecordBuilder.PresentColumnReadsLast and RecordBuilder.MissingColumnReadsFirst |
| RecordBuilder.LastIndex | main.go:88-92 | every index in the map lies inside the header |
| RecordBuilder.BuildHeaderMap | main.go:88-92 | the header loop builds the map HeaderIndex describes |
| RecordBuilder.LastIndexLast | main.go:88-92 | a name is in the map iff it occurs among the trimmed header fields, and it maps to its last occurrence |
| RecordBuilder.MissingColumnReadsFirst | main.go:109 | a column the header does not name is read from column 0 |
| RecordBuilder.PresentColumnReadsLast | main.go:88-92 | a column the header names is read from its last occurrence |
| RecordBuilder.BuildRow | main.go:104-107 | a row shorter than the header is skipped as malformed |
| RecordBuilder.RowKept | main.go:104-156 | a full-length row is kept iff its CVSS parses and both date fields normalise; the record then holds those values, each text field the trimmed cell of its own named column, a zero score and an empty timeframe |
| RecordBuilder.Assemble | main.go:109-155 | the record is built iff all three parses succeed, with each of the 14 text fields the trimmed cell of its own named column; otherwise the first failure in source order is the logged reason |
| RecordBuilder.Field | main.go:138-154 | the trimmed cell headerMap names for a column; RecordBuilder.FieldReadsNamedColumn and RecordBuilder.FieldReadsFirstColumn state which cell that is |
| RecordBuilder.FieldReadsNamedColumn | main.go:138-154 | under a header that names a column, the text read for it is the trimmed cell at the column's last occurrence |
| RecordBuilder.FieldReadsFirstColumn | main.go:138-154 | under a header that does not name a column, the text read for it is the trimmed first cell of the row |
| RecordBuilder.KeptRecordColumns | main_test.go:113-121 | a kept record's unique id and fixed version are the trimmed cells under "Unique ID" and "Fixed Version", whatever the column order |
| RecordBuilder.Records | main.go:95-157 | the records readCSV returns for the data rows; RecordBuilder.RecordsConcat, RecordBuilder.RowContribution and RecordBuilder.RowsAccounted state its meaning |
| RecordBuilder.Skips | main.go:95-157 | the skip reasons readCSV logs for the data rows, one per dropped row (RecordBuilder.RowsAccounted) |
| RecordBuilder.ReadCSV | main.go:83-158 | no header row gives the header error and no log; otherwise the result is the kept records of the data rows in order, and the log is their skip reasons in order |
| RecordBuilder.ReadRows | main.go:95-157 | the row loop returns the records and the skip reasons of the data rows |
| RecordBuilder.Tally | main.go:104-156 | one row's outcome appends its record to the result or its reason to the log |
| RecordBuilder.RecordsConcat | main.go:95-157 | rows are handled independently and in order: the records and the log of two runs of rows concatenate |
| RecordBuilder.RowsAccounted | main.go:95-157 | every data row yields exactly one record or one log line |
| RecordBuilder.RowContribution | main.go:95-157 | row i places its own record, if any, between the records of the rows before it and those of the rows after it |
| Scoring.SeverityWeight | main.go:163-166 | the configured weight when it is non-zero, and 1.0 when the map holds none or a zero |
| Scoring.DaysLeft | main.go:171 | the due date's day number minus the current instant, in days; Scoring.ScoreRisesOverTime and Scoring.EarlierDueScoresHigher state how the score depends on it |
| Scoring.SourceComponent | main.go:181-187 | the source bonus; Scoring.SourceBonus states it is the configured weight for exactly AWS and GitHub and 0 otherwise |
| Scoring.FixComponent | main.go:189-193 | the fix penalty; Scoring.FixLowersScore states it is exactly the fix bonus when a fixed version is known |
| Scoring.RawScore | main.go:161-195 | the raw score; Scoring.RawInRange bounds it and Scoring.FixLowersScore states the fix penalty |
| Scoring.PriorityScore | main.go:161-198 | calculatePriorityScore; its meaning is stated by Scoring.ScoreInRange, Scoring.ScoreExample, Scoring.FixLowersScore and Scoring.ScoreOrderedByDaysLeft |
| Scoring.Timeframe | main.go:200-209 | the label for a number of days left; Scoring.TimeframeBuckets states its three buckets |
| Scoring.RecommendedActionTimeframe | main.go:200-209 | recommendedActionTimeframe at the instant now; Scoring.TimeframeBuckets and Scoring.TimeframeMatchesTimeComponent state its meaning |
| Scoring.TimeComponent | main.go:172-179 | the time component lies between 1 and 3 |
| Scoring.TimeframeBuckets | main.go:200-209 | Immediate iff at most 7 days left; Urgent iff more than 7 and at most 30; Scheduled iff more than 30 |
| Scoring.TimeframeMatchesTimeComponent | main.go:172-179 | the timeframe label and the score's time component always agree (3, 2, 1) |
| Scoring.TimeframeExamples | main_test.go:68-83 | due in 3, 10 and 40 days gives Immediate, Urgent and Scheduled |
| Scoring.ScoreExample | main_test.go:33-59 | CVSS 9.0, Critical, AWS, no fix, due in 5 days, default weights: the score is 22/24 * 10 |
| Scoring.DefaultWeightsWithinBounds | main.go:325-343 | the default weights are all in [0, 2], and the source bonuses and the fix bonus are at most 1 |
| Scoring.RawInRange | main.go:161-198 | with weights in those bounds and CVSS in [0, 10], the raw score lies in [0, theoreticalMax] |
| Scoring.ScoreInRange | main.go:161-198 | with weights in those bounds and CVSS in [0, 10], the normalised score lies in [0, 10] |
| Scoring.DefaultScoreInRange | main.go:43 | under the default weights, every CVSS in [0, 10] gives a score in [0, 10] |
| Scoring.ScoreAboveTenWithHeavierWeight | main.go:43 | the bound needs the default weights: a Critical weight of 3 pushes a score above 10 |
| Scoring.FixLowersScore | main.go:189-196 | a known fixed version lowers the score by exactly the scaled fix bonus |
| Scoring.SourceBonus | main.go:181-187 | moving an AWS or GitHub finding to any other source lowers its score by exactly its source weight, scaled; any two other sources score alike |
| Scoring.LargeCVSSScoresAboveTen | main.go:195-197 | under the default weights a Critical finding with CVSS 15 and no fix scores above 10, since nothing checks the CVSS range or clamps the score |
| Scoring.ScoreOrderedByDaysLeft | main.go:161-198 | of two findings alike but for the days left, the one with fewer days left never scores lower |
| Scoring.ScoreRisesOverTime | main.go:170-179 | as time passes, a finding's score never falls |
| Scoring.EarlierDueScoresHigher | main.go:170-179 | of two findings alike but for the due date, the one due first never scores lower |
| Dispatcher.Scored | main.go:222-223 | what a worker does to one record; Dispatcher.ScoredChangesOnlyComputed states its meaning |
| Dispatcher.ScoredChangesOnlyComputed | main.go:221-225 | a worker changes only the score and the timeframe, sets them to calculatePriorityScore and recommendedActionTimeframe, and a scored record is a fixed point |
| Dispatcher.ProcessVulnerabilities | main.go:211-241 | in any completion order, the result is a permutation of the scored input records |
| Dispatcher.ScoreAllRemove | main.go:229-238 | taking one pending record out removes exactly its scored copy from what is still to come |
| Dispatcher.ScoreAllScored | main.go:221-225 | every record in the scored sequence holds its own score and timeframe |
| Dispatcher.ScoreAllKeepsInput | main.go:221-225 | apart from the two computed fields, the scored sequence is the input, in order |
| Dispatcher.ProcessedIsScoredPermutation | main.go:211-241 | every processed record is scored, and with the computed fields reset the output is a permutation of the input: nothing lost, duplicated or altered |
| Permutations.MapSeqPermutation | main.go:211-241 | mapping a function over two permutations of each other gives permutations of each other |
| Ranker.SortByPriority | main.go:353-355 | the array ends up ordered by non-increasing score and holds the same records |
| Ranker.InsertLeft | main.go:353-355 | one insertion step extends the sorted prefix by one, keeps the records, and leaves the positions after it unchanged |
| Ranker.AdjacentSortedIsSorted | main.go:353-355 | ordered neighbours iff ordered throughout |
| Ranker.SortedScoresAgree | main.go:353-355 | any two score-sorted arrangements of the same records have the same score at every position, whatever the completion order and tie breaking |
| Pipeline.Prioritize | main.go:345-355 | an empty table is the header error; otherwise the result is sorted by descending score, is a permutation of the scored kept records, and the log lists the skipped rows |

## Left out

- File opening, the encoding/csv tokeniser, quoting and its read errors are not modelled. The input is the sequence of records the reader yields, each with at least one field. An unreadable record (logged and skipped by the source) is not modelled.
- writeCSV, writeJSON, printToTerminal, the command-line flags, the timing log and `log.Fatalf` are left out. The weights are a parameter; the skip log is a returned sequence of reasons, not formatted text.
- The goroutines, channels and WaitGroup are not modelled. Their effect is that records come back in any order, and the model allows every order.
- `time.Now` is not modelled. The current instant is a parameter `now`, in days since 0000-01-01 UTC. The source reads the clock separately for the score and for the timeframe, and once per record; the model uses one instant for all of them.
- `time.Duration` saturation (about ±292 years) is left out. It leaves the 7- and 30-day buckets unchanged.
- Floating-point arithmetic is left out: the score is computed in exact reals, so float64 rounding is not modelled.
- Text.ParseFloat reads decimal text exactly, and differs from strconv.ParseFloat in two directions. A CVSS cell of "NaN", "Inf" or a hex float is accepted by Go, which keeps the row; the model rejects it and skips the row. A CVSS cell out of float64 range, such as "1e400", makes Go return ErrRange and skip the row; the model keeps the row with the exact value.
- Atoi's error kinds (syntax or range) are not distinguished: the callers only test for an error.
- The set of space characters is Go's `unicode.IsSpace` list. There is no UTF-8 decoding, since strings are sequences of characters.
- sort.Slice's pattern-defeating quicksort is replaced by an insertion sort with the same contract. Neither promises an order among equal scores.
- Scoring.DefaultScoreInRange: the [0, 10] range is proved only for weights within the default bounds, because the source does not keep it under other weights (Scoring.ScoreAboveTenWithHeavierWeight).
- The Python scripts in the repository are not part of this model.
